/**
 How scripts/validate-argocd-project-scope.py matches: a glob is written out as the text
 of a regular expression, and that text is matched. Three readings of a glob are shown to
 agree on newline-free strings: what the emitted text means to a regular-expression
 engine, a declarative meaning, and a matcher that never guesses.
 */
module GlobRegex {
  import opened Wrappers
  import opened Seqs

  // ---------------------------------------------------------------- the declarative meaning

  predicate Crosses(separator: Option<char>, c: char) {
    separator != Some(c)
  }

  /** '*' and '?' stop at the separator, '**' does not; without a separator nothing stops. */
  predicate Accepts(pattern: string, separator: Option<char>, s: string)
    decreases |pattern|
  {
    if pattern == "" then s == ""
    else if pattern[0] == '*' && |pattern| > 1 && pattern[1] == '*' then
      exists k :: 0 <= k <= |s| && Accepts(pattern[2..], separator, s[k..])
    else if pattern[0] == '*' then
      exists k :: 0 <= k <= |s| && (forall i :: 0 <= i < k ==> Crosses(separator, s[i]))
                  && Accepts(pattern[1..], separator, s[k..])
    else
      && s != ""
      && (if pattern[0] == '?' then Crosses(separator, s[0]) else s[0] == pattern[0])
      && Accepts(pattern[1..], separator, s[1..])
  }

  // ---------------------------------------------------------------- the emitted text

  /** Characters with a meaning of their own in a regular expression. */
  predicate IsMeta(c: char) {
    c == '(' || c == ')' || c == '[' || c == ']' || c == '{' || c == '}' || c == '?' || c == '*'
    || c == '+' || c == '|' || c == '^' || c == '$' || c == '\\' || c == '.'
  }

  /** The characters that re.escape puts a backslash before. */
  predicate IsEscaped(c: char) {
    IsMeta(c) || c == '-' || c == '&' || c == '~' || c == '#' || c == ' ' || 9 <= c as int <= 13
  }

  function Escape(c: char): string {
    if IsEscaped(c) then ['\\', c] else [c]
  }

  /** A backslash goes before what means something to a regular expression, and a few others that need none. */
  lemma EscapedExactly(c: char)
    ensures Escape(c) == if c in "()[]{}?*+|^$.\\-&~# " || 9 <= c as int <= 13 then ['\\', c] else [c]
  {
  }

  /** The text of one pattern element, and how many pattern characters it takes. */
  function Element(pattern: string, separator: Option<char>): (e: (string, nat))
    requires pattern != ""
    ensures 1 <= e.1 <= 2 && e.1 <= |pattern|
  {
    var notSeparator := if separator.Some? then "[^" + Escape(separator.value) + "]" else ".";
    if pattern[0] == '*' then
      if |pattern| > 1 && pattern[1] == '*' then (".*", 2) else (notSeparator + "*", 1)
    else if pattern[0] == '?' then (notSeparator, 1)
    else (Escape(pattern[0]), 1)
  }

  function Body(pattern: string, separator: Option<char>): string
    decreases |pattern|
  {
    if pattern == "" then ""
    else var (text, taken) := Element(pattern, separator); text + Body(pattern[taken..], separator)
  }

  lemma BodyStep(pattern: string, separator: Option<char>, i: nat, out: string)
    requires i < |pattern|
    ensures var (text, taken) := Element(pattern[i..], separator);
      out + Body(pattern[i..], separator) == (out + text) + Body(pattern[i + taken..], separator)
  {
    var (text, taken) := Element(pattern[i..], separator);
    assert pattern[i..][taken..] == pattern[i + taken..];
    Regroup(out, text, Body(pattern[i + taken..], separator));
  }

  /** _glob_regex: the loop over the pattern, and the anchors around what it collected. */
  method CompileGlob(pattern: string, separator: Option<char>) returns (regex: string)
    ensures regex == "^" + Body(pattern, separator) + "$"
  {
    var out: string := "";
    var i := 0;
    while i < |pattern|
      invariant 0 <= i <= |pattern|
      invariant out + Body(pattern[i..], separator) == Body(pattern, separator)
    {
      BodyStep(pattern, separator, i, out);
      var ch := pattern[i];
      if ch == '*' && i + 1 < |pattern| && pattern[i + 1] == '*' {
        out := out + ".*";
        i := i + 2;
        continue;
      }
      var notSeparator := if separator.Some? then "[^" + Escape(separator.value) + "]" else ".";
      if ch == '*' {
        out := out + (notSeparator + "*");
      } else if ch == '?' {
        out := out + notSeparator;
      } else {
        out := out + Escape(ch);
      }
      i := i + 1;
    }
    assert pattern[i..] == "";
    regex := "^" + out + "$";
  }

  // ---------------------------------------------------------------- what the text means

  datatype Class = Exactly(c: char) | NotNewline | Not(c: char) {
    predicate Has(x: char) {
      match this
      case Exactly(c) => x == c
      case NotNewline => x != '\n'
      case Not(c) => x != c
    }
  }

  datatype Item = One(class_: Class) | Many(class_: Class)

  predicate IsAlnum(c: char) {
    '0' <= c <= '9' || 'a' <= c <= 'z' || 'A' <= c <= 'Z'
  }

  /** One possibly escaped character: it stands for itself. */
  function ReadChar(text: string): Option<(char, string)> {
    if text == "" then None
    else if text[0] == '\\' then
      if |text| == 1 || IsAlnum(text[1]) then None else Some((text[1], text[2..]))
    else if IsMeta(text[0]) then None
    else Some((text[0], text[1..]))
  }

  function ReadClass(text: string): (r: Option<(Class, string)>)
    ensures r.Some? ==> |r.value.1| < |text|
  {
    if text == "" then None
    else if text[0] == '.' then Some((NotNewline, text[1..]))
    else if text[0] == '[' then
      if |text| == 1 || text[1] != '^' then None
      else match ReadChar(text[2..])
        case None => None
        case Some((c, rest)) => if rest != "" && rest[0] == ']' then Some((Not(c), rest[1..])) else None
    else match ReadChar(text)
      case None => None
      case Some((c, rest)) => Some((Exactly(c), rest))
  }

  /** The part of the regular-expression language that concatenates classes and stars. */
  function Parse(text: string): Option<seq<Item>>
    decreases |text|
  {
    if text == "" then Some([])
    else match ReadClass(text)
      case None => None
      case Some((class_, rest)) =>
        var starred := rest != "" && rest[0] == '*';
        match Parse(if starred then rest[1..] else rest)
        case None => None
        case Some(items) => Some([if starred then Many(class_) else One(class_)] + items)
  }

  predicate Matches(items: seq<Item>, s: string)
    decreases |items|
  {
    if items == [] then s == ""
    else match items[0]
      case One(class_) => s != "" && class_.Has(s[0]) && Matches(items[1..], s[1..])
      case Many(class_) =>
        exists k :: 0 <= k <= |s| && (forall i :: 0 <= i < k ==> class_.Has(s[i])) && Matches(items[1..], s[k..])
  }

  /** re.compile(regex).match(s): '$' also matches before a final newline. */
  predicate RegexMatches(regex: string, s: string) {
    && |regex| >= 2 && regex[0] == '^' && regex[|regex| - 1] == '$'
    && match Parse(regex[1..|regex| - 1])
       case None => false
       case Some(items) => Matches(items, s) || (s != "" && s[|s| - 1] == '\n' && Matches(items, s[..|s| - 1]))
  }

  // ---------------------------------------------------------------- the translation keeps the meaning

  lemma EscapedCharIsRead(c: char, rest: string)
    ensures ReadChar(Escape(c) + rest) == Some((c, rest))
    ensures Escape(c)[0] == '\\' || !IsMeta(Escape(c)[0])
  {
    if IsEscaped(c) {
      assert (Escape(c) + rest)[2..] == rest;
    } else {
      assert (Escape(c) + rest)[1..] == rest;
    }
  }

  function ClassText(class_: Class): string {
    match class_
    case Exactly(c) => Escape(c)
    case NotNewline => "."
    case Not(c) => "[^" + Escape(c) + "]"
  }

  lemma ClassTextIsRead(class_: Class, after: string)
    ensures ClassText(class_) != "" && ClassText(class_)[0] != '*'
    ensures ReadClass(ClassText(class_) + after) == Some((class_, after))
  {
    match class_
    case NotNewline =>
      assert ("." + after)[1..] == after;
    case Not(c) =>
      NegatedTextIsRead(c, after);
    case Exactly(c) =>
      EscapedCharIsRead(c, after);
  }

  lemma NegatedTextIsRead(c: char, after: string)
    ensures ReadClass(ClassText(Not(c)) + after) == Some((Not(c), after))
  {
    EscapedCharIsRead(c, "]" + after);
    assert (ClassText(Not(c)) + after)[2..] == Escape(c) + ("]" + after);
    assert ("]" + after)[1..] == after;
  }

  function ItemText(item: Item): string {
    match item
    case One(class_) => ClassText(class_)
    case Many(class_) => ClassText(class_) + "*"
  }

  lemma ItemTextIsParsed(item: Item, rest: string)
    requires rest != "" ==> rest[0] != '*'
    requires Parse(rest).Some?
    ensures ItemText(item)[0] != '*'
    ensures Parse(ItemText(item) + rest) == Some([item] + Parse(rest).value)
  {
    var after := if item.Many? then "*" + rest else rest;
    ClassTextIsRead(item.class_, after);
    if item.Many? {
      Regroup(ClassText(item.class_), "*", rest);
      AfterFirst("*", rest);
    }
    ReadItemIsParsed(ItemText(item) + rest, item, after, rest);
  }

  lemma ReadItemIsParsed(text: string, item: Item, after: string, rest: string)
    requires text != "" && ReadClass(text) == Some((item.class_, after)) && Parse(rest).Some?
    requires if item.Many? then after != "" && after[0] == '*' && after[1..] == rest
             else after == rest && (rest != "" ==> rest[0] != '*')
    ensures Parse(text) == Some([item] + Parse(rest).value)
  {
  }

  function NotSeparator(separator: Option<char>): Class {
    if separator.Some? then Not(separator.value) else NotNewline
  }

  function ItemOf(pattern: string, separator: Option<char>): (item: Item)
    requires pattern != ""
  {
    if pattern[0] == '*' then
      if |pattern| > 1 && pattern[1] == '*' then Many(NotNewline) else Many(NotSeparator(separator))
    else if pattern[0] == '?' then One(NotSeparator(separator))
    else One(Exactly(pattern[0]))
  }

  lemma ElementIsItemText(pattern: string, separator: Option<char>)
    requires pattern != ""
    ensures Element(pattern, separator).0 == ItemText(ItemOf(pattern, separator))
  {
    assert ".*" == "." + "*";
  }

  function ItemsOf(pattern: string, separator: Option<char>): seq<Item>
    decreases |pattern|
  {
    if pattern == "" then []
    else [ItemOf(pattern, separator)] + ItemsOf(pattern[Element(pattern, separator).1..], separator)
  }

  /** The emitted text parses back to exactly one item for each pattern element. */
  lemma {:induction false} BodyIsParsed(pattern: string, separator: Option<char>)
    ensures Parse(Body(pattern, separator)) == Some(ItemsOf(pattern, separator))
    ensures Body(pattern, separator) != "" ==> Body(pattern, separator)[0] != '*'
    decreases |pattern|
  {
    if pattern != "" {
      var rest := pattern[Element(pattern, separator).1..];
      BodyIsParsed(rest, separator);
      ElementIsItemText(pattern, separator);
      ItemTextIsParsed(ItemOf(pattern, separator), Body(rest, separator));
    }
  }

  /** The items match what the pattern accepts, on strings without a newline. */
  lemma {:induction false} ItemsMatchExactly(pattern: string, separator: Option<char>, s: string)
    requires '\n' !in s
    ensures Matches(ItemsOf(pattern, separator), s) <==> Accepts(pattern, separator, s)
    decreases |pattern|
  {
    if pattern != "" {
      var taken := Element(pattern, separator).1;
      var (item, rest) := (ItemOf(pattern, separator), ItemsOf(pattern[taken..], separator));
      assert ItemsOf(pattern, separator)[1..] == rest;
      forall k | 0 <= k <= |s|
        ensures Matches(rest, s[k..]) <==> Accepts(pattern[taken..], separator, s[k..])
      {
        ItemsMatchExactly(pattern[taken..], separator, s[k..]);
      }
      forall i | 0 <= i < |s| ensures item.Many? && taken == 2 ==> item.class_.Has(s[i]) {}
      forall i | 0 <= i < |s|
        ensures pattern[0] in "*?" && taken == 1 ==> (item.class_.Has(s[i]) <==> Crosses(separator, s[i])) {}
    }
  }

  /** The translation keeps the meaning: the compiled glob matches exactly what the glob accepts. */
  lemma CompiledGlobMatchesExactly(pattern: string, separator: Option<char>, s: string)
    requires '\n' !in s
    ensures RegexMatches("^" + Body(pattern, separator) + "$", s) <==> Accepts(pattern, separator, s)
  {
    var regex := "^" + Body(pattern, separator) + "$";
    assert regex[1..|regex| - 1] == Body(pattern, separator);
    BodyIsParsed(pattern, separator);
    ItemsMatchExactly(pattern, separator, s);
  }

  // ---------------------------------------------------------------- a matcher that never guesses

  /** One character at a time: a star either ends here or takes the next character. */
  predicate Run(pattern: string, separator: Option<char>, s: string)
    decreases |pattern| + |s|
  {
    if pattern == "" then s == ""
    else if pattern[0] == '*' then
      var (_, taken) := Element(pattern, separator);
      || Run(pattern[taken..], separator, s)
      || (s != "" && (taken == 2 || Crosses(separator, s[0])) && Run(pattern, separator, s[1..]))
    else
      && s != ""
      && (if pattern[0] == '?' then Crosses(separator, s[0]) else s[0] == pattern[0])
      && Run(pattern[1..], separator, s[1..])
  }

  lemma {:induction false} RunAcceptsExactly(pattern: string, separator: Option<char>, s: string)
    ensures Run(pattern, separator, s) <==> Accepts(pattern, separator, s)
    decreases |pattern| + |s|
  {
    if pattern != "" && pattern[0] == '*' {
      var taken := Element(pattern, separator).1;
      RunAcceptsExactly(pattern[taken..], separator, s);
      assert s[0..] == s;
      if s != "" {
        RunAcceptsExactly(pattern, separator, s[1..]);
        StarTakesOneMore(pattern, separator, s);
      }
    } else if pattern != "" && s != "" {
      RunAcceptsExactly(pattern[1..], separator, s[1..]);
    }
  }

  lemma StarTakesOneMore(pattern: string, separator: Option<char>, s: string)
    requires pattern != "" && pattern[0] == '*' && s != ""
    ensures var taken := Element(pattern, separator).1;
      Accepts(pattern, separator, s) <==>
        || Accepts(pattern[taken..], separator, s)
        || ((taken == 2 || Crosses(separator, s[0])) && Accepts(pattern, separator, s[1..]))
  {
    var taken := Element(pattern, separator).1;
    var tail := s[1..];
    assert s[0..] == s;
    if Accepts(pattern, separator, s) {
      var k :| 0 <= k <= |s| && (taken == 2 || forall i :: 0 <= i < k ==> Crosses(separator, s[i]))
               && Accepts(pattern[taken..], separator, s[k..]);
      if k > 0 {
        assert s[k..] == tail[k - 1..];
        assert forall i :: 0 <= i < k - 1 ==> tail[i] == s[i + 1];
      }
    }
    if (taken == 2 || Crosses(separator, s[0])) && Accepts(pattern, separator, tail) {
      var k :| 0 <= k <= |tail| && (taken == 2 || forall i :: 0 <= i < k ==> Crosses(separator, tail[i]))
               && Accepts(pattern[taken..], separator, tail[k..]);
      assert tail[k..] == s[k + 1..];
      assert forall i :: 0 < i < k + 1 ==> s[i] == tail[i - 1];
    }
  }

  // ---------------------------------------------------------------- patterns without wildcards

  /** Without '*' and '?' a glob accepts exactly itself. */
  lemma {:induction false} LiteralAcceptsItself(pattern: string, separator: Option<char>, s: string)
    requires '*' !in pattern && '?' !in pattern
    ensures Accepts(pattern, separator, s) <==> s == pattern
    decreases |pattern|
  {
    if pattern != "" && s != "" {
      LiteralAcceptsItself(pattern[1..], separator, s[1..]);
      if s[0] == pattern[0] && s[1..] == pattern[1..] {
        assert s == [s[0]] + s[1..] == pattern;
      }
    }
  }
}
