/**
 The shell tokenizer of scripts/validate-yq-interpolation.py and the search for the
 expression argument of a yq call. The check is about '$' signs, so no part of a line may
 get lost on the way into the tokens.
 */
module YqTokenizer {
  import opened Wrappers
  import opened Text
  import opened Seqs

  // ---------------------------------------------------------------- quoting

  datatype Quoting = Quoting(quote: Option<char>, escaped: bool)

  const PLAIN := Quoting(None, false)

  predicate IsQuote(c: char) {
    c == '"' || c == '\''
  }

  function After(q: Quoting, c: char): Quoting {
    if q.escaped then q.(escaped := false)
    else if c == '\\' then q.(escaped := true)
    else if q.quote.Some? then (if c == q.quote.value then PLAIN else q)
    else if IsQuote(c) then Quoting(Some(c), false)
    else q
  }

  /** How the character after `line` would be quoted. */
  function QuotingAfter(line: string): Quoting {
    if line == "" then PLAIN else After(QuotingAfter(line[..|line| - 1]), line[|line| - 1])
  }

  /** An unquoted, unescaped whitespace character. */
  predicate IsGap(line: string, i: nat)
    requires i < |line|
  {
    IsSpace(line[i]) && QuotingAfter(line[..i]) == PLAIN
  }

  /** The line without its gaps. */
  function Kept(line: string): string {
    if line == "" then ""
    else Kept(line[..|line| - 1]) + if IsGap(line, |line| - 1) then "" else [line[|line| - 1]]
  }

  function Concat(words: seq<string>): string {
    if words == [] then "" else Concat(words[..|words| - 1]) + words[|words| - 1]
  }

  // ---------------------------------------------------------------- the tokens

  /** A token: at least one character, and no gap anywhere in it. */
  predicate IsWord(w: string) {
    w != "" && forall i :: 0 <= i < |w| ==> !IsGap(w, i)
  }

  predicate IsClosed(w: string) {
    QuotingAfter(w) == PLAIN
  }

  /** Words in a row, each but the last closed, so that a blank after it is a gap. */
  predicate AreWords(ws: seq<string>) {
    (forall i :: 0 <= i < |ws| ==> IsWord(ws[i])) && (forall i :: 0 <= i < |ws| - 1 ==> IsClosed(ws[i]))
  }

  /** The words laid out on a line, each after a blank of its own. */
  function Layout(ws: seq<string>, blanks: seq<string>): string
    requires |blanks| == |ws|
  {
    if ws == [] then ""
    else Layout(ws[..|ws| - 1], blanks[..|ws| - 1]) + blanks[|ws| - 1] + ws[|ws| - 1]
  }

  predicate AreBlanks(blanks: seq<string>) {
    forall i :: 0 <= i < |blanks| ==> IsBlank(blanks[i]) && (i > 0 ==> blanks[i] != "")
  }

  /** The line is those words with blanks in between, and a blank behind a closed word at most. */
  predicate LaidOut(line: string, ws: seq<string>, blanks: seq<string>, last: string) {
    && AreWords(ws) && |blanks| == |ws| && AreBlanks(blanks) && IsBlank(last)
    && (last != "" && ws != [] ==> IsClosed(ws[|ws| - 1]))
    && line == Layout(ws, blanks) + last
  }

  // What the scan has found so far: complete tokens, and the one it is in.
  datatype Cut = Cut(tokens: seq<string>, cur: string)

  function Flush(c: Cut): seq<string> {
    if c.cur == "" then c.tokens else c.tokens + [c.cur]
  }

  function CutAfter(c: Cut, q: Quoting, ch: char): Cut {
    if IsSpace(ch) && q == PLAIN then Cut(Flush(c), "") else Cut(c.tokens, c.cur + [ch])
  }

  function CutOf(line: string): Cut {
    if line == "" then Cut([], "")
    else CutAfter(CutOf(line[..|line| - 1]), QuotingAfter(line[..|line| - 1]), line[|line| - 1])
  }

  /** The tokens of a line: its maximal stretches without a gap. */
  function Tokens(line: string): seq<string> {
    Flush(CutOf(line))
  }

  /** tokenize() */
  method Tokenize(line: string) returns (tokens: seq<string>)
    ensures tokens == Tokens(line)
  {
    tokens := [];
    var cur, quote: Option<char>, escaped := "", None, false;
    for i := 0 to |line|
      invariant Cut(tokens, cur) == CutOf(line[..i])
      invariant Quoting(quote, escaped) == QuotingAfter(line[..i])
    {
      var ch := line[i];
      assert line[..i + 1][..i] == line[..i];
      if escaped {
        cur := cur + [ch];
        escaped := false;
      } else if ch == '\\' {
        cur := cur + [ch];
        escaped := true;
      } else if quote.Some? {
        cur := cur + [ch];
        if ch == quote.value {
          quote := None;
        }
      } else if IsQuote(ch) {
        quote := Some(ch);
        cur := cur + [ch];
      } else if IsSpace(ch) {
        if cur != "" {
          tokens := tokens + [cur];
          cur := "";
        }
      } else {
        cur := cur + [ch];
      }
    }
    assert line[..|line|] == line;
    if cur != "" {
      tokens := tokens + [cur];
    }
  }

  // ---------------------------------------------------------------- nothing is lost

  lemma FlushConcat(c: Cut)
    ensures Concat(Flush(c)) == Concat(c.tokens) + c.cur
  {
    assert (c.tokens + [c.cur])[..|c.tokens|] == c.tokens;
  }

  lemma {:induction false} CutKeeps(line: string)
    ensures Concat(CutOf(line).tokens) + CutOf(line).cur == Kept(line)
  {
    if line != "" {
      CutKeeps(line[..|line| - 1]);
      FlushConcat(CutOf(line[..|line| - 1]));
    }
  }

  /** The concatenated tokens are the line with exactly its gaps removed. */
  lemma TokensKeepTheLine(line: string)
    ensures Concat(Tokens(line)) == Kept(line)
  {
    CutKeeps(line);
    FlushConcat(CutOf(line));
  }

  /** So every '$' of the line, or any other character that is no whitespace, is in the tokens as often. */
  lemma {:induction false} NoCharacterIsLost(line: string, c: char)
    requires !IsSpace(c)
    ensures multiset(Concat(Tokens(line)))[c] == multiset(line)[c]
  {
    TokensKeepTheLine(line);
    KeptCounts(line, c);
  }

  lemma {:induction false} KeptCounts(line: string, c: char)
    requires !IsSpace(c)
    ensures multiset(Kept(line))[c] == multiset(line)[c]
  {
    if line != "" {
      KeptCounts(line[..|line| - 1], c);
      assert line == line[..|line| - 1] + [line[|line| - 1]];
    }
  }

  // ---------------------------------------------------------------- the tokens, exactly

  /** After closed text the scan starts afresh. */
  lemma {:induction false} QuotingOfSuffix(a: string, b: string)
    requires IsClosed(a)
    ensures QuotingAfter(a + b) == QuotingAfter(b)
  {
    if b == "" {
      assert a + b == a;
    } else {
      QuotingOfSuffix(a, b[..|b| - 1]);
      assert (a + b)[..|a + b| - 1] == a + b[..|b| - 1];
    }
  }

  lemma GapOfSuffix(a: string, b: string, i: nat)
    requires IsClosed(a) && i < |b|
    ensures IsGap(a + b, |a| + i) == IsGap(b, i)
  {
    assert (a + b)[..|a| + i] == a + b[..i];
    QuotingOfSuffix(a, b[..i]);
  }

  lemma GapOfPrefix(a: string, b: string, i: nat)
    requires i < |a|
    ensures IsGap(a + b, i) == IsGap(a, i)
  {
    assert (a + b)[..i] == a[..i];
  }

  /** A blank on closed text ends the token in progress, and leaves the text closed. */
  lemma {:induction false} CutOfBlank(a: string, blank: string)
    requires IsClosed(a) && IsBlank(blank)
    ensures IsClosed(a + blank)
    ensures CutOf(a + blank) == if blank == "" then CutOf(a) else Cut(Tokens(a), "")
  {
    if blank == "" {
      assert a + blank == a;
    } else {
      var front := blank[..|blank| - 1];
      CutOfBlank(a, front);
      assert (a + blank)[..|a + blank| - 1] == a + front;
    }
  }

  lemma CutStep(line: string, c: char)
    ensures CutOf(line + [c]) == CutAfter(CutOf(line), QuotingAfter(line), c)
  {
    AfterFirst(line, [c]);
  }

  lemma NextOfWord(a: string, w: string, c: char, tokens: seq<string>)
    requires CutOf(a + w) == Cut(tokens, w) && !IsGap(a + (w + [c]), |a| + |w|)
    ensures CutOf(a + (w + [c])) == Cut(tokens, w + [c])
  {
    Regroup(a, w, [c]);
    CutStep(a + w, c);
    AfterFirst(a + w, [c]);
  }

  /** A word after closed text that is not inside a token becomes the token in progress. */
  lemma {:induction false} CutOfWord(a: string, w: string, n: nat)
    requires IsClosed(a) && CutOf(a).cur == "" && n <= |w| && (forall i :: 0 <= i < n ==> !IsGap(w, i))
    ensures CutOf(a + w[..n]) == Cut(CutOf(a).tokens, w[..n])
  {
    if n == 0 {
      assert a + w[..0] == a;
    } else {
      CutOfWord(a, w, n - 1);
      NextOfFirst(w, n - 1);
      CutAt(w, n);
      GapOfPrefix(w[..n], w[n..], n - 1);
      GapOfSuffix(a, w[..n], n - 1);
      NextOfWord(a, w[..n - 1], w[n - 1], CutOf(a).tokens);
    }
  }

  /** A blank and a word on closed text: one more token in progress. */
  lemma CutOfBlankAndWord(a: string, blank: string, w: string)
    requires IsClosed(a) && IsBlank(blank) && IsWord(w) && (a != "" ==> blank != "")
    ensures CutOf(a + blank + w) == Cut(Tokens(a), w)
    ensures QuotingAfter(a + blank + w) == QuotingAfter(w)
  {
    CutOfBlank(a, blank);
    CutOfWord(a + blank, w, |w|);
    assert w[..|w|] == w;
    QuotingOfSuffix(a + blank, w);
  }

  lemma {:induction false} CutOfLayout(ws: seq<string>, blanks: seq<string>)
    requires AreWords(ws) && |blanks| == |ws| && AreBlanks(blanks)
    ensures CutOf(Layout(ws, blanks)) == if ws == [] then Cut([], "") else Cut(ws[..|ws| - 1], ws[|ws| - 1])
    ensures QuotingAfter(Layout(ws, blanks)) == if ws == [] then PLAIN else QuotingAfter(ws[|ws| - 1])
  {
    if ws != [] {
      var n := |ws| - 1;
      var front := Layout(ws[..n], blanks[..n]);
      CutOfLayout(ws[..n], blanks[..n]);
      assert n > 0 ==> ws[..n][..n - 1] + [ws[n - 1]] == ws[..n];
      CutOfBlankAndWord(front, blanks[n], ws[n]);
    }
  }

  lemma LaidOutTokens(line: string, ws: seq<string>, blanks: seq<string>, last: string)
    requires LaidOut(line, ws, blanks, last)
    ensures Tokens(line) == ws
  {
    CutOfLayout(ws, blanks);
    var body := Layout(ws, blanks);
    if ws != [] {
      CutAround(ws, |ws| - 1);
      NothingAdded(ws[..|ws| - 1] + [ws[|ws| - 1]]);
    }
    if last == "" {
      NothingAdded(body);
    } else {
      CutOfBlank(body, last);
    }
  }

  /** How far a scan has laid the line out: its complete tokens, a blank, and the token it is in. */
  predicate Scanned(line: string, c: Cut, q: Quoting, blanks: seq<string>, last: string) {
    && LaidOut(line, Flush(c), blanks, last)
    && (c.cur != "" ==> last == "" && q == QuotingAfter(c.cur))
    && (c.cur == "" ==> q == PLAIN && (c.tokens != [] ==> last != ""))
  }

  lemma WordGrows(w: string, c: char)
    requires w == "" || IsWord(w)
    requires !(IsSpace(c) && IsClosed(w))
    ensures IsWord(w + [c])
  {
    forall i | 0 <= i < |w + [c]| ensures !IsGap(w + [c], i) {
      if i < |w| {
        GapOfPrefix(w, [c], i);
      } else {
        assert (w + [c])[..i] == w;
      }
    }
  }

  lemma LayoutGrows(ws: seq<string>, blanks: seq<string>, blank: string, w: string)
    requires |blanks| == |ws|
    ensures Layout(ws + [w], blanks + [blank]) == Layout(ws, blanks) + blank + w
  {
    assert (ws + [w])[..|ws|] == ws && (blanks + [blank])[..|ws|] == blanks;
  }

  /** One more character, a gap. */
  lemma ScanGap(front: string, c: Cut, ch: char, blanks: seq<string>, last: string)
    requires Scanned(front, c, PLAIN, blanks, last) && IsSpace(ch)
    ensures Scanned(front + [ch], Cut(Flush(c), ""), PLAIN, blanks, last + [ch])
  {
    assert Layout(Flush(c), blanks) + last + [ch] == Layout(Flush(c), blanks) + (last + [ch]);
  }

  /** One more character, the first of a token. */
  lemma ScanFirst(front: string, c: Cut, ch: char, blanks: seq<string>, last: string)
    requires Scanned(front, c, PLAIN, blanks, last) && c.cur == "" && !IsSpace(ch)
    ensures Scanned(front + [ch], Cut(c.tokens, [ch]), After(PLAIN, ch), blanks + [last], "")
  {
    WordGrows("", ch);
    assert "" + [ch] == [ch] && [ch][..0] == "";
    LayoutGrows(c.tokens, blanks, last, [ch]);
    WordsEnd(c.tokens, blanks, last, [ch]);
  }

  lemma WordsEnd(ws: seq<string>, blanks: seq<string>, blank: string, w: string)
    requires AreWords(ws) && IsWord(w) && (ws != [] ==> IsClosed(ws[|ws| - 1]))
    requires |blanks| == |ws| && AreBlanks(blanks) && IsBlank(blank) && (ws != [] ==> blank != "")
    ensures AreWords(ws + [w]) && AreBlanks(blanks + [blank])
  {
  }

  /** One more character of the token in progress. */
  lemma ScanNext(front: string, c: Cut, q: Quoting, ch: char, blanks: seq<string>, last: string)
    requires Scanned(front, c, q, blanks, last) && c.cur != "" && !(IsSpace(ch) && q == PLAIN)
    ensures Scanned(front + [ch], Cut(c.tokens, c.cur + [ch]), After(q, ch), blanks, "")
  {
    WordGrows(c.cur, ch);
    QuotingOfLonger(c.cur, ch);
    WordsGrow(c.tokens, c.cur, c.cur + [ch]);
    LayoutOfLonger(c.tokens, blanks, c.cur, ch);
    NothingAdded(Layout(c.tokens + [c.cur], blanks));
    NothingAdded(Layout(c.tokens + [c.cur + [ch]], blanks));
  }

  lemma QuotingOfLonger(w: string, ch: char)
    ensures QuotingAfter(w + [ch]) == After(QuotingAfter(w), ch)
  {
    AfterFirst(w, [ch]);
  }

  lemma LayoutOfLonger(ws: seq<string>, blanks: seq<string>, w: string, ch: char)
    requires |blanks| == |ws| + 1
    ensures Layout(ws + [w + [ch]], blanks) == Layout(ws + [w], blanks) + [ch]
  {
    var n := |ws|;
    NextOfFirst(blanks, n);
    CutAt(blanks, n + 1);
    NothingAdded(blanks[..n + 1]);
    LayoutGrows(ws, blanks[..n], blanks[n], w);
    LayoutGrows(ws, blanks[..n], blanks[n], w + [ch]);
    Regroup(Layout(ws, blanks[..n]) + blanks[n], w, [ch]);
  }

  lemma WordsGrow(ws: seq<string>, w: string, grown: string)
    requires AreWords(ws + [w]) && IsWord(grown)
    ensures AreWords(ws + [grown])
  {
    forall i | 0 <= i < |ws| ensures IsWord(ws[i]) && IsClosed(ws[i]) {
      assert (ws + [w])[i] == ws[i];
    }
  }

  lemma ScanOne(front: string, c: Cut, q: Quoting, ch: char, blanks: seq<string>, last: string)
    returns (blanks': seq<string>, last': string)
    requires Scanned(front, c, q, blanks, last)
    ensures Scanned(front + [ch], CutAfter(c, q, ch), After(q, ch), blanks', last')
  {
    if IsSpace(ch) && q == PLAIN {
      ScanGap(front, c, ch, blanks, last);
      blanks', last' := blanks, last + [ch];
    } else if c.cur == "" {
      ScanFirst(front, c, ch, blanks, last);
      assert c.cur + [ch] == [ch];
      blanks', last' := blanks + [last], "";
    } else {
      ScanNext(front, c, q, ch, blanks, last);
      blanks', last' := blanks, "";
    }
  }

  /** Every line is its own tokens laid out. */
  lemma {:induction false} LineIsLaidOut(line: string) returns (blanks: seq<string>, last: string)
    ensures Scanned(line, CutOf(line), QuotingAfter(line), blanks, last)
  {
    if line == "" {
      return [], "";
    }
    var (front, ch) := (line[..|line| - 1], line[|line| - 1]);
    assert front + [ch] == line;
    blanks, last := LineIsLaidOut(front);
    blanks, last := ScanOne(front, CutOf(front), QuotingAfter(front), ch, blanks, last);
  }

  /**
   The tokens of a line are the only words it can be laid out from: whatever the blanks
   between them, and with an open quote or a trailing backslash in the last one.
   */
  lemma TokensExactly(line: string, ws: seq<string>)
    ensures ws == Tokens(line) <==> exists blanks, last :: LaidOut(line, ws, blanks, last)
  {
    var blanks, last := LineIsLaidOut(line);
    forall bs, l | LaidOut(line, ws, bs, l) ensures ws == Tokens(line) {
      LaidOutTokens(line, ws, bs, l);
    }
  }

  /** The blanks of " ".join(). */
  function SingleSpaces(n: nat): seq<string> {
    if n == 0 then [] else if n == 1 then [""] else SingleSpaces(n - 1) + [" "]
  }

  lemma {:induction false} JoinIsALayout(ws: seq<string>)
    requires ws != []
    ensures |SingleSpaces(|ws|)| == |ws| && AreBlanks(SingleSpaces(|ws|))
    ensures Layout(ws, SingleSpaces(|ws|)) == Join(ws, ' ')
  {
    var n := |ws| - 1;
    if n > 0 {
      JoinIsALayout(ws[..n]);
      JoinLast(ws);
      assert SingleSpaces(|ws|)[..n] == SingleSpaces(n);
    } else {
      assert Layout(ws[..0], [""][..0]) == "";
    }
  }

  lemma {:induction false} JoinLast(ws: seq<string>)
    requires |ws| > 1
    ensures Join(ws, ' ') == Join(ws[..|ws| - 1], ' ') + " " + ws[|ws| - 1]
  {
    if |ws| > 2 {
      JoinLast(ws[1..]);
      assert ws[1..][..|ws| - 2] == ws[..|ws| - 1][1..];
    }
  }

  /** Tokenizing the tokens joined by spaces gives the same tokens back. */
  lemma TokensAreStable(line: string)
    ensures Tokens(line) != [] ==> Tokens(Join(Tokens(line), ' ')) == Tokens(line)
  {
    var ws := Tokens(line);
    if ws != [] {
      var blanks, last := LineIsLaidOut(line);
      JoinIsALayout(ws);
      LaidOutTokens(Join(ws, ' '), ws, SingleSpaces(|ws|), "");
    }
  }

  // ---------------------------------------------------------------- the yq call of a line

  predicate IsWordChar(c: char) {
    'a' <= c <= 'z' || 'A' <= c <= 'Z' || IsDigit(c) || c == '_'
  }

  /** `yq` as a command word of its own starts at i. */
  predicate IsCall(line: string, i: nat) {
    && i + 2 <= |line| && line[i] == 'y' && line[i + 1] == 'q'
    && (i > 0 ==> !IsWordChar(line[i - 1]) && line[i - 1] != '.' && line[i - 1] != '/' && line[i - 1] != '-')
    && (i + 2 < |line| ==> !IsWordChar(line[i + 2]))
  }

  /** YQ_CALL: what follows the leftmost call. */
  function CallArguments(line: string, i: nat): (r: Option<string>)
    requires i <= |line|
    ensures r.None? <==> forall j :: i <= j <= |line| ==> !IsCall(line, j)
    ensures r.Some? ==> exists j :: i <= j <= |line| - 2 && IsCall(line, j) && r.value == line[j + 2..]
                                    && forall k :: i <= k < j ==> !IsCall(line, k)
    decreases |line| - i
  {
    if IsCall(line, i) then Some(line[i + 2..])
    else if i == |line| then None
    else CallArguments(line, i + 1)
  }

  // ---------------------------------------------------------------- its expression

  /** VALUE_FLAGS */
  predicate TakesValue(t: string) {
    || t == "-o" || t == "--output-format" || t == "-I" || t == "--indent" || t == "-p" || t == "--input-format"
    || t == "-C" || t == "--split-exp" || t == "--from-file"
  }

  /** SKIPPABLE, or any other option */
  predicate IsSkippable(t: string) {
    t == "eval" || t == "eval-all" || t == "e" || t == "ea" || (t != "" && t[0] == '-')
  }

  /** Token k is the value of the option before it. */
  predicate IsValue(ts: seq<string>, k: nat)
    requires k <= |ts|
  {
    k > 0 && TakesValue(ts[k - 1]) && !IsValue(ts, k - 1)
  }

  /** Token k is neither an option nor an option's value nor a subcommand. */
  predicate IsOperand(ts: seq<string>, k: nat)
    requires k < |ts|
  {
    !IsValue(ts, k) && !TakesValue(ts[k]) && !IsSkippable(ts[k])
  }

  /** The operand with no operand before it, None when there are none. */
  predicate IsFirstOperand(ts: seq<string>, operand: Option<string>) {
    match operand
    case None => forall k :: 0 <= k < |ts| ==> !IsOperand(ts, k)
    case Some(t) =>
      exists k :: 0 <= k < |ts| && IsOperand(ts, k) && ts[k] == t && forall j :: 0 <= j < k ==> !IsOperand(ts, j)
  }

  /** expression_of(): the first operand of the leftmost yq call, if there is one. */
  method ExpressionOf(line: string) returns (expression: Option<string>)
    ensures CallArguments(line, 0).None? ==> expression.None?
    ensures CallArguments(line, 0).Some? ==> IsFirstOperand(Tokens(CallArguments(line, 0).value), expression)
  {
    var call := CallArguments(line, 0);
    if call.None? {
      return None;
    }
    var ts := Tokenize(call.value);
    var skipNext := false;
    for i := 0 to |ts|
      invariant skipNext == IsValue(ts, i)
      invariant forall k :: 0 <= k < i ==> !IsOperand(ts, k)
    {
      if skipNext {
        skipNext := false;
      } else if TakesValue(ts[i]) {
        skipNext := true;
      } else if !IsSkippable(ts[i]) {
        assert IsOperand(ts, i);
        return Some(ts[i]);
      }
    }
    expression := None;
  }

  /** A token is an option's value exactly when the options that take one number odd right before it. */
  lemma {:induction false} ValuesAlternate(ts: seq<string>, k: nat, run: nat)
    requires run <= k <= |ts| && (forall j :: k - run <= j < k ==> TakesValue(ts[j]))
    requires k - run > 0 ==> !TakesValue(ts[k - run - 1])
    ensures IsValue(ts, k) <==> run % 2 == 1
  {
    if run > 0 {
      ValuesAlternate(ts, k - 1, run - 1);
    }
  }
}
