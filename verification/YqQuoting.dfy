/**
 Quoting as a shell line is written: bare characters, backslash pairs, and quoted stretches
 in which only a backslash or the same quote means anything. The tokenizer of
 scripts/validate-yq-interpolation.py takes a line written like that apart at its blanks
 and nowhere else, and the expression of a yq call is found whole.
 */
module YqQuoting {
  import opened Wrappers
  import opened Text
  import opened Seqs
  import opened YqTokenizer

  // ---------------------------------------------------------------- how a line is written

  // A character, or a backslash and the character it takes the meaning from.
  datatype Bit = Char(c: char) | Pair(c: char)

  datatype Piece = Blank(c: char) | Bare(bit: Bit) | Quoted(quote: char, bits: seq<Bit>)

  function BitText(bit: Bit): string {
    match bit
    case Char(c) => [c]
    case Pair(c) => ['\\', c]
  }

  function BitsText(bits: seq<Bit>): string {
    if bits == [] then "" else BitsText(bits[..|bits| - 1]) + BitText(bits[|bits| - 1])
  }

  function PieceText(piece: Piece): string {
    match piece
    case Blank(c) => [c]
    case Bare(bit) => BitText(bit)
    case Quoted(quote, bits) => [quote] + BitsText(bits) + [quote]
  }

  function LineText(pieces: seq<Piece>): string {
    if pieces == [] then "" else LineText(pieces[..|pieces| - 1]) + PieceText(pieces[|pieces| - 1])
  }

  /** Quotes are closed, and what means something stands for it. */
  predicate IsPiece(piece: Piece) {
    match piece
    case Blank(c) => IsSpace(c)
    case Bare(Char(c)) => !IsSpace(c) && c != '"' && c != '\'' && c != '\\'
    case Bare(Pair(_)) => true
    case Quoted(quote, bits) =>
      (quote == '"' || quote == '\'')
      && forall i :: 0 <= i < |bits| && bits[i].Char? ==> bits[i].c != quote && bits[i].c != '\\'
  }

  predicate ArePieces(pieces: seq<Piece>) {
    forall i :: 0 <= i < |pieces| ==> IsPiece(pieces[i])
  }

  // The words of the pieces: complete ones, and the one in progress.
  function WordsOf(pieces: seq<Piece>): Cut {
    if pieces == [] then Cut([], "")
    else
      var (before, last) := (WordsOf(pieces[..|pieces| - 1]), pieces[|pieces| - 1]);
      if last.Blank? then Cut(Closed(before), "") else Cut(before.tokens, before.cur + PieceText(last))
  }

  function Closed(words: Cut): seq<string> {
    if words.cur == "" then words.tokens else words.tokens + [words.cur]
  }

  /** What stands between the blanks. */
  function Words(pieces: seq<Piece>): seq<string> {
    Closed(WordsOf(pieces))
  }

  // ---------------------------------------------------------------- how it is taken apart

  /** One more character, by what it means there. */
  lemma NextChar(line: string, c: char, q: Quoting, words: Cut)
    requires QuotingAfter(line) == q && CutOf(line) == words && !(IsSpace(c) && q == PLAIN)
    ensures QuotingAfter(line + [c]) == After(q, c) && CutOf(line + [c]) == Cut(words.tokens, words.cur + [c])
  {
    AfterFirst(line, [c]);
  }

  /** A bit that ends nothing: outside quotes, or inside. */
  lemma NextBit(line: string, bit: Bit, q: Quoting, words: Cut)
    requires QuotingAfter(line) == q && CutOf(line) == words && !q.escaped
    requires bit.Char? ==> bit.c != '\\' && q.quote != Some(bit.c)
    requires bit.Char? && q == PLAIN ==> !IsSpace(bit.c) && bit.c != '"' && bit.c != '\''
    ensures QuotingAfter(line + BitText(bit)) == q
    ensures CutOf(line + BitText(bit)) == Cut(words.tokens, words.cur + BitText(bit))
  {
    match bit
    case Char(c) => NextChar(line, c, q, words);
    case Pair(c) =>
      NextChar(line, '\\', q, words);
      NextChar(line + ['\\'], c, q.(escaped := true), Cut(words.tokens, words.cur + ['\\']));
      Regroup(line, ['\\'], [c]);
      Regroup(words.cur, ['\\'], [c]);
      assert ['\\'] + [c] == ['\\', c];
  }

  lemma {:induction false} NextBits(line: string, quote: char, bits: seq<Bit>, words: Cut)
    requires QuotingAfter(line) == Quoting(Some(quote), false) && CutOf(line) == words
    requires forall i :: 0 <= i < |bits| && bits[i].Char? ==> bits[i].c != quote && bits[i].c != '\\'
    ensures QuotingAfter(line + BitsText(bits)) == Quoting(Some(quote), false)
    ensures CutOf(line + BitsText(bits)) == Cut(words.tokens, words.cur + BitsText(bits))
  {
    if bits == [] {
      NothingAdded(line);
      NothingAdded(words.cur);
    } else {
      var n := |bits| - 1;
      var (init, last) := (bits[..n], bits[n]);
      assert forall i :: 0 <= i < n ==> init[i] == bits[i];
      NextBits(line, quote, init, words);
      var front := BitsText(init);
      NextBit(line + front, last, Quoting(Some(quote), false), Cut(words.tokens, words.cur + front));
      Regroup(line, front, BitText(last));
      Regroup(words.cur, front, BitText(last));
    }
  }

  lemma NextQuoted(line: string, quote: char, bits: seq<Bit>, words: Cut)
    requires QuotingAfter(line) == PLAIN && CutOf(line) == words && IsPiece(Quoted(quote, bits))
    ensures QuotingAfter(line + PieceText(Quoted(quote, bits))) == PLAIN
    ensures CutOf(line + PieceText(Quoted(quote, bits))) == Cut(words.tokens, words.cur + PieceText(Quoted(quote, bits)))
  {
    var body := BitsText(bits);
    NextChar(line, quote, PLAIN, words);
    var open := Cut(words.tokens, words.cur + [quote]);
    NextBits(line + [quote], quote, bits, open);
    NextChar(line + [quote] + body, quote, Quoting(Some(quote), false), Cut(words.tokens, open.cur + body));
    Regroup(line, [quote], body);
    Regroup(line, [quote] + body, [quote]);
    Regroup(words.cur, [quote], body);
    Regroup(words.cur, [quote] + body, [quote]);
  }

  lemma NextPiece(line: string, piece: Piece, words: Cut)
    requires QuotingAfter(line) == PLAIN && CutOf(line) == words && IsPiece(piece)
    ensures QuotingAfter(line + PieceText(piece)) == PLAIN
    ensures CutOf(line + PieceText(piece))
         == if piece.Blank? then Cut(Closed(words), "") else Cut(words.tokens, words.cur + PieceText(piece))
  {
    match piece
    case Blank(c) => AfterFirst(line, [c]);
    case Bare(bit) => NextBit(line, bit, PLAIN, words);
    case Quoted(quote, bits) => NextQuoted(line, quote, bits, words);
  }

  lemma {:induction false} WrittenLineIsCut(pieces: seq<Piece>)
    requires ArePieces(pieces)
    ensures QuotingAfter(LineText(pieces)) == PLAIN && CutOf(LineText(pieces)) == WordsOf(pieces)
  {
    if pieces != [] {
      var n := |pieces| - 1;
      WrittenLineIsCut(pieces[..n]);
      NextPiece(LineText(pieces[..n]), pieces[n], WordsOf(pieces[..n]));
    }
  }

  /** A written line is taken apart at its blanks, and nowhere else. */
  lemma TokensAreTheWords(pieces: seq<Piece>)
    requires ArePieces(pieces)
    ensures Tokens(LineText(pieces)) == Words(pieces)
  {
    WrittenLineIsCut(pieces);
  }

  function Plainly(s: string): seq<Bit> {
    seq(|s|, i requires 0 <= i < |s| => Char(s[i]))
  }

  lemma {:induction false} PlainlyWritten(s: string)
    ensures BitsText(Plainly(s)) == s
  {
    if s != "" {
      var n := |s| - 1;
      PlainlyWritten(s[..n]);
      assert Plainly(s)[..n] == Plainly(s[..n]);
      CutAt(s, n);
      assert s[n..] == [s[n]];
    }
  }

  /** Between two quotes everything is one token, whatever blanks it holds. */
  lemma QuotedIsOneToken(q: char, s: string)
    requires (q == '"' || q == '\'') && q !in s && '\\' !in s
    ensures Tokens([q] + s + [q]) == [[q] + s + [q]]
  {
    var piece := Quoted(q, Plainly(s));
    PlainlyWritten(s);
    OnePiece(piece);
    TokensAreTheWords([piece]);
  }

  lemma OnePiece(piece: Piece)
    ensures LineText([piece]) == PieceText(piece)
    ensures !piece.Blank? ==> Words([piece]) == if PieceText(piece) == "" then [] else [PieceText(piece)]
  {
    assert [piece][..0] == [];
    assert LineText([]) == "" && WordsOf([]) == Cut([], "");
    NothingAdded(PieceText(piece));
  }

  /** After any written line and a blank it is one more. */
  lemma QuotedIsOneMoreToken(pieces: seq<Piece>, blank: char, quoted: Piece)
    requires ArePieces(pieces) && IsSpace(blank) && quoted.Quoted? && IsPiece(quoted)
    ensures Tokens(LineText(pieces) + [blank] + PieceText(quoted)) == Tokens(LineText(pieces)) + [PieceText(quoted)]
  {
    WrittenLineIsCut(pieces);
    var (line, words) := (LineText(pieces), WordsOf(pieces));
    NextPiece(line, Blank(blank), words);
    NextPiece(line + [blank], quoted, Cut(Closed(words), ""));
    NothingAdded(PieceText(quoted));
  }

  /** A backslash takes the meaning of a blank or a quote away, outside quotes and inside. */
  lemma BackslashTakesTheMeaning(c: char, q: char)
    requires q == '"' || q == '\''
    ensures Tokens(['\\', c]) == [['\\', c]]
    ensures Tokens([q] + ['\\', c] + [q]) == [[q] + ['\\', c] + [q]]
  {
    OnePiece(Bare(Pair(c)));
    TokensAreTheWords([Bare(Pair(c))]);
    var quoted := Quoted(q, [Pair(c)]);
    assert [Pair(c)][..0] == [] && BitsText([]) == "";
    assert BitsText([Pair(c)]) == "" + ['\\', c] == ['\\', c];
    OnePiece(quoted);
    TokensAreTheWords([quoted]);
  }

  /** A quote that is never closed takes the rest of the line, blanks included. */
  lemma OpenQuoteTakesTheRest(pieces: seq<Piece>, blank: char, q: char, s: string)
    requires ArePieces(pieces) && IsSpace(blank) && (q == '"' || q == '\'') && q !in s && '\\' !in s
    ensures Tokens(LineText(pieces) + [blank] + [q] + s) == Tokens(LineText(pieces)) + [[q] + s]
  {
    WrittenLineIsCut(pieces);
    var (line, words) := (LineText(pieces), WordsOf(pieces));
    NextPiece(line, Blank(blank), words);
    NextChar(line + [blank], q, PLAIN, Cut(Closed(words), ""));
    NothingAdded([q]);
    NextBits(line + [blank] + [q], q, Plainly(s), Cut(Closed(words), [q]));
    PlainlyWritten(s);
  }

  // ---------------------------------------------------------------- the expression of a call

  function WordsAfter(before: Cut, last: Piece): Cut {
    if last.Blank? then Cut(Closed(before), "") else Cut(before.tokens, before.cur + PieceText(last))
  }

  lemma WordsStep(front: seq<Piece>, last: Piece)
    ensures WordsOf(front + [last]) == WordsAfter(WordsOf(front), last)
  {
    AfterFirst(front, [last]);
  }

  lemma WordsBehind(ws: seq<string>, before: Cut, last: Piece)
    ensures WordsAfter(Cut(ws + before.tokens, before.cur), last)
         == Cut(ws + WordsAfter(before, last).tokens, WordsAfter(before, last).cur)
  {
    Regroup(ws, before.tokens, [before.cur]);
  }

  lemma {:induction false} WordsApart(a: seq<Piece>, blank: char, b: seq<Piece>)
    ensures WordsOf(a + [Blank(blank)] + b) == Cut(Words(a) + WordsOf(b).tokens, WordsOf(b).cur)
    decreases |b|
  {
    var front := a + [Blank(blank)];
    if b == [] {
      NothingAdded(front);
      WordsStep(a, Blank(blank));
      NothingAdded(Words(a));
    } else {
      var n := |b| - 1;
      var (init, last) := (b[..n], b[n]);
      assert init + [last] == b;
      WordsApart(a, blank, init);
      Regroup(front, init, [last]);
      WordsStep(front + init, last);
      WordsStep(init, last);
      WordsBehind(Words(a), WordsOf(init), last);
    }
  }

  /** A blank keeps the words before it and the words behind it apart. */
  lemma WordsOfBoth(a: seq<Piece>, blank: char, b: seq<Piece>)
    ensures Words(a + [Blank(blank)] + b) == Words(a) + Words(b)
  {
    WordsApart(a, blank, b);
    Regroup(Words(a), WordsOf(b).tokens, [WordsOf(b).cur]);
  }

  lemma {:induction false} LineOfBoth(a: seq<Piece>, b: seq<Piece>)
    ensures LineText(a + b) == LineText(a) + LineText(b)
    decreases |b|
  {
    if b == [] {
      NothingAdded(a);
      NothingAdded(LineText(a));
    } else {
      var n := |b| - 1;
      LineOfBoth(a, b[..n]);
      assert (a + b)[..|a + b| - 1] == a + b[..n] && (a + b)[|a + b| - 1] == b[n];
      Regroup(LineText(a), LineText(b[..n]), PieceText(b[n]));
    }
  }

  /** The arguments of a call: some words, a quoted one, and perhaps a blank and more. */
  function Arguments(front: seq<Piece>, quoted: Piece, rest: seq<Piece>): seq<Piece> {
    front + [Blank(' ')] + ([quoted] + rest)
  }

  predicate IsApart(rest: seq<Piece>) {
    ArePieces(rest) && (rest != [] ==> rest[0].Blank?)
  }

  lemma ArgumentsAreCut(front: seq<Piece>, quoted: Piece, rest: seq<Piece>)
    requires ArePieces(front) && quoted.Quoted? && IsPiece(quoted) && IsApart(rest)
    ensures Tokens(LineText(Arguments(front, quoted, rest))) == Words(front) + ([PieceText(quoted)] + Words(rest))
  {
    ArePiecesTogether(front, ' ', [quoted] + rest);
    TokensAreTheWords(Arguments(front, quoted, rest));
    WordsOfBoth(front, ' ', [quoted] + rest);
    OnePiece(quoted);
    if rest == [] {
      NothingAdded([quoted]);
      NothingAdded([PieceText(quoted)]);
    } else {
      FirstAndRest(rest);
      Regroup([quoted], [rest[0]], rest[1..]);
      WordsOfBoth([quoted], rest[0].c, rest[1..]);
      NothingAdded([rest[0]]);
      WordsOfBoth([], rest[0].c, rest[1..]);
      NothingAdded(Words(rest[1..]));
    }
  }

  lemma ArePiecesTogether(a: seq<Piece>, blank: char, b: seq<Piece>)
    requires ArePieces(a) && IsSpace(blank) && ArePieces(b)
    ensures ArePieces(a + [Blank(blank)] + b)
  {
  }

  // What stands before the expression: an option or a subcommand, or an option and its value.
  datatype Skipped = Single(t: string) | Valued(flag: string, value: string)

  /** The options that take the next word with them. */
  predicate TakesTheNext(t: string) {
    t in ["-o", "--output-format", "-I", "--indent", "-p", "--input-format", "-C", "--split-exp", "--from-file"]
  }

  predicate IsSubcommand(t: string) {
    t in ["eval", "eval-all", "e", "ea"]
  }

  /** An option that takes its value with it, or any other option, or a subcommand. */
  predicate IsSkipped(item: Skipped) {
    match item
    case Single(t) => (IsSubcommand(t) || (t != "" && t[0] == '-')) && !TakesTheNext(t)
    case Valued(flag, _) => TakesTheNext(flag)
  }

  function SkippedWords(items: seq<Skipped>): seq<string> {
    if items == [] then []
    else SkippedWords(items[..|items| - 1])
         + (match items[|items| - 1] case Single(t) => [t] case Valued(flag, value) => [flag, value])
  }

  predicate AreSkipped(items: seq<Skipped>) {
    forall i :: 0 <= i < |items| ==> IsSkipped(items[i])
  }

  lemma OptionsExactly(t: string)
    ensures TakesValue(t) <==> TakesTheNext(t)
    ensures IsSkippable(t) <==> IsSubcommand(t) || (t != "" && t[0] == '-')
  {
    var options := ["-o", "--output-format", "-I", "--indent", "-p", "--input-format", "-C", "--split-exp", "--from-file"];
    assert options[0] == "-o" && options[1] == "--output-format" && options[2] == "-I" && options[3] == "--indent"
        && options[4] == "-p" && options[5] == "--input-format" && options[6] == "-C" && options[7] == "--split-exp"
        && options[8] == "--from-file";
    var commands := ["eval", "eval-all", "e", "ea"];
    assert commands[0] == "eval" && commands[1] == "eval-all" && commands[2] == "e" && commands[3] == "ea";
  }

  /** No operand among the first n words, and the next is nobody's value. */
  predicate NoneSoFar(ts: seq<string>, n: nat)
    requires n <= |ts|
  {
    !IsValue(ts, n) && forall k :: 0 <= k < n ==> !IsOperand(ts, k)
  }

  lemma OneMoreSkipped(ts: seq<string>, n: nat)
    requires n < |ts| && NoneSoFar(ts, n) && (IsSkippable(ts[n]) || TakesValue(ts[n]))
    ensures if TakesValue(ts[n]) then n + 1 < |ts| ==> NoneSoFar(ts, n + 2) else NoneSoFar(ts, n + 1)
  {
  }

  lemma {:induction false} NoOperandIsSkipped(items: seq<Skipped>, rest: seq<string>)
    requires AreSkipped(items)
    ensures NoneSoFar(SkippedWords(items) + rest, |SkippedWords(items)|)
    decreases |items|
  {
    if items != [] {
      var (front, last) := (items[..|items| - 1], items[|items| - 1]);
      var (ws, own) := (SkippedWords(front), match last case Single(t) => [t] case Valued(flag, value) => [flag, value]);
      NoOperandIsSkipped(front, own + rest);
      Regroup(ws, own, rest);
      var ts := ws + (own + rest);
      assert ts[|ws|] == own[0];
      OptionsExactly(own[0]);
      OneMoreSkipped(ts, |ws|);
    }
  }

  lemma FirstOperandAfter(items: seq<Skipped>, t: string, rest: seq<string>, expression: Option<string>)
    requires AreSkipped(items) && t != "" && (t[0] == '"' || t[0] == '\'')
    requires IsFirstOperand(SkippedWords(items) + ([t] + rest), expression)
    ensures expression == Some(t)
  {
    var skipped := SkippedWords(items);
    var (ts, n) := (skipped + ([t] + rest), |skipped|);
    NoOperandIsSkipped(items, [t] + rest);
    assert ts[n] == t;
    NotAnOption(t);
    assert IsOperand(ts, n);
    if expression.Some? {
      var k :| 0 <= k < |ts| && IsOperand(ts, k) && ts[k] == expression.value && forall j :: 0 <= j < k ==> !IsOperand(ts, j);
      assert k == n;
    }
  }

  lemma NotAnOption(t: string)
    requires t != "" && (t[0] == '"' || t[0] == '\'')
    ensures !TakesValue(t) && !IsSkippable(t)
  {
  }

  /** The words of these pieces are options, their values, and subcommands. */
  ghost predicate AreOptions(pieces: seq<Piece>, items: seq<Skipped>) {
    Words(pieces) == SkippedWords(items) && AreSkipped(items)
  }

  /** The expression of a yq call that quotes it is the whole quoted text, whatever it holds. */
  lemma QuotedExpressionIsWhole(
    line: string, front: seq<Piece>, items: seq<Skipped>, quoted: Piece, rest: seq<Piece>, expression: Option<string>)
    requires ArePieces(front) && AreOptions(front, items) && quoted.Quoted? && IsPiece(quoted) && IsApart(rest)
    requires CallArguments(line, 0) == Some(LineText(Arguments(front, quoted, rest)))
    requires IsFirstOperand(Tokens(CallArguments(line, 0).value), expression)
    ensures expression == Some(PieceText(quoted))
  {
    ArgumentsAreCut(front, quoted, rest);
    FirstOperandAfter(items, PieceText(quoted), Words(rest), expression);
  }

  // ---------------------------------------------------------------- where the call stands

  /** A character of a word. */
  predicate IsOfAWord(c: char) {
    c in LOWER || c in UPPER || c in DIGITS || c == '_'
  }

  /** Between these two texts yq is a word of its own, and no part of a path or an option. */
  predicate StandsAlone(before: string, after: string) {
    && (before != "" ==> var c := before[|before| - 1]; !IsOfAWord(c) && c != '.' && c != '/' && c != '-')
    && (after != "" ==> !IsOfAWord(after[0]))
  }

  lemma WordCharExactly(c: char)
    ensures IsWordChar(c) <==> IsOfAWord(c)
  {
    AreAlphabets();
    InAlphabet(LOWER, 'a', c);
    InAlphabet(UPPER, 'A', c);
    InAlphabet(DIGITS, '0', c);
  }

  lemma CallStands(line: string, i: nat)
    requires i <= |line|
    ensures IsCall(line, i) <==> i + 2 <= |line| && line[i..i + 2] == "yq" && StandsAlone(line[..i], line[i + 2..])
  {
    forall c ensures IsWordChar(c) <==> IsOfAWord(c) {
      WordCharExactly(c);
    }
    var yq := "yq";
    assert yq[0] == 'y' && yq[1] == 'q';
    if i + 2 <= |line| {
      assert line[i..i + 2][0] == line[i] && line[i..i + 2][1] == line[i + 1];
      assert line[i..i + 2] == "yq" <==> line[i] == 'y' && line[i + 1] == 'q';
    }
  }

  /** A yq that stands alone. */
  predicate YqAt(line: string, i: nat) {
    i + 2 <= |line| && line[i..i + 2] == "yq" && StandsAlone(line[..i], line[i + 2..])
  }

  /** The first one, with what follows it. */
  predicate FirstCall(line: string, i: nat, arguments: string) {
    YqAt(line, i) && arguments == line[i + 2..] && forall j :: 0 <= j < i ==> !YqAt(line, j)
  }

  lemma FirstCallIsTheOnlyOne(line: string, i: nat, arguments: string, j: nat, others: string)
    requires FirstCall(line, i, arguments) && FirstCall(line, j, others)
    ensures i == j && arguments == others
  {
  }

  lemma YqAtExactly(line: string)
    ensures forall j: nat :: j <= |line| ==> (IsCall(line, j) <==> YqAt(line, j))
  {
    forall j: nat | j <= |line| ensures IsCall(line, j) <==> YqAt(line, j) {
      CallStands(line, j);
    }
  }

  /** The arguments are what follows the first yq that stands alone. */
  lemma CallExactly(line: string, arguments: string)
    ensures CallArguments(line, 0) == Some(arguments) <==> exists i: nat :: FirstCall(line, i, arguments)
  {
    YqAtExactly(line);
    var found := CallArguments(line, 0);
    if found.Some? {
      var j :| 0 <= j <= |line| - 2 && IsCall(line, j) && found.value == line[j + 2..]
               && forall k :: 0 <= k < j ==> !IsCall(line, k);
      assert FirstCall(line, j, found.value);
      if i: nat :| FirstCall(line, i, arguments) {
        FirstCallIsTheOnlyOne(line, i, arguments, j, found.value);
      }
    } else {
      forall i: nat ensures !FirstCall(line, i, arguments) {
        assert i <= |line| ==> !IsCall(line, i);
      }
    }
  }

  /** A line that begins with the call. */
  lemma CallAtTheStart(arguments: string)
    requires arguments != "" && IsSpace(arguments[0])
    ensures CallArguments("yq" + arguments, 0) == Some(arguments)
  {
    var (yq, line) := ("yq", "yq" + arguments);
    assert line[0] == yq[0] == 'y' && line[1] == yq[1] == 'q' && line[2] == arguments[0];
    assert IsCall(line, 0);
    AfterFirst(yq, arguments);
  }

  lemma {:induction false} LineBeginsWithItsFirst(pieces: seq<Piece>)
    requires pieces != [] && pieces[0].Blank?
    ensures LineText(pieces) != "" && LineText(pieces)[0] == pieces[0].c
  {
    if |pieces| == 1 {
      assert pieces[..0] == [] && LineText([]) == "";
    } else {
      LineBeginsWithItsFirst(pieces[..|pieces| - 1]);
    }
  }

  /** yq, options and subcommands, a quoted expression, and perhaps more: the expression is the quoted text. */
  lemma QuotedExpressionOfCall(
    front: seq<Piece>, items: seq<Skipped>, quoted: Piece, rest: seq<Piece>, expression: Option<string>)
    requires ArePieces(front) && front != [] && front[0].Blank? && AreOptions(front, items)
    requires quoted.Quoted? && IsPiece(quoted) && IsApart(rest)
    ensures var line := "yq" + LineText(Arguments(front, quoted, rest));
      CallArguments(line, 0).Some?
      && (IsFirstOperand(Tokens(CallArguments(line, 0).value), expression) ==> expression == Some(PieceText(quoted)))
  {
    var arguments := Arguments(front, quoted, rest);
    assert arguments[0] == front[0];
    LineBeginsWithItsFirst(arguments);
    CallAtTheStart(LineText(arguments));
    if IsFirstOperand(Tokens(LineText(arguments)), expression) {
      QuotedExpressionIsWhole("yq" + LineText(arguments), front, items, quoted, rest, expression);
    }
  }
}
