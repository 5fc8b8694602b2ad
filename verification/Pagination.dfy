/**
 The reading loop of scripts/cloudflare-portal-health.py: all servers of the account, page
 by page, or nothing. And the escaping of a label value in the metrics it pushes.
 */
module Pagination {
  import opened Wrappers
  import opened Seqs

  const PER_PAGE: nat := 100
  const MAX_PAGES: nat := 20

  // What one request gives: no usable answer, or a list of servers with the total the API counts, if it says so.
  datatype Page<T> = Failed | Page(result: seq<T>, total: Option<int>)

  // ---------------------------------------------------------------- the loop

  /** The servers of the first n pages. */
  function Upto<T>(pages: nat -> Page<T>, n: nat): seq<T> {
    if n == 0 then [] else Upto(pages, n - 1) + (if pages(n).Page? then pages(n).result else [])
  }

  /** After page n more pages are asked for. */
  predicate GoesOn<T>(pages: nat -> Page<T>, n: nat) {
    && pages(n).Page? && pages(n).total.Some?
    && |Upto(pages, n)| < pages(n).total.value && pages(n).result != []
  }

  /** Page n is the last one. */
  predicate IsLast<T>(pages: nat -> Page<T>, n: nat) {
    && pages(n).Page?
    && match pages(n).total
       case Some(total) => |Upto(pages, n)| == total
       case None => |pages(n).result| < PER_PAGE
  }

  /** The pages asked for, when the reading ends well after n of them. */
  predicate EndsAt<T>(pages: nat -> Page<T>, n: nat) {
    1 <= n <= MAX_PAGES && IsLast(pages, n) && forall k :: 1 <= k < n ==> GoesOn(pages, k)
  }

  /** A list is the answer only as all of the pages asked for, none of them failed. */
  predicate IsAnswer<T(==)>(pages: nat -> Page<T>, servers: Option<seq<T>>) {
    match servers
    case Some(list) => list != [] && exists n :: 1 <= n <= MAX_PAGES && EndsAt(pages, n) && list == Upto(pages, n)
    case None => forall n :: 1 <= n <= MAX_PAGES && EndsAt(pages, n) ==> Upto(pages, n) == []
  }

  /** read_servers() */
  method ReadServers<T(==)>(pages: nat -> Page<T>) returns (r: Option<seq<T>>)
    ensures IsAnswer(pages, r)
  {
    var servers: seq<T>, ended := [], false;
    ghost var last := 0;
    for page := 1 to MAX_PAGES + 1
      invariant !ended && servers == Upto(pages, page - 1)
      invariant forall k :: 1 <= k < page ==> GoesOn(pages, k)
    {
      var body := pages(page);
      if body.Failed? {
        NoLaterEnd(pages, page);
        return None;
      }
      servers := servers + body.result;
      match body.total
      case Some(total) =>
        if |servers| > total {
          NoLaterEnd(pages, page);
          return None;
        }
        if |servers| == total {
          ended, last := true, page;
          break;
        }
        if body.result == [] {
          NoLaterEnd(pages, page);
          return None;
        }
      case None =>
        if |body.result| < PER_PAGE {
          ended, last := true, page;
          break;
        }
        NoLaterEnd(pages, page);
        return None;
    }
    if !ended {
      NoEnd(pages);
      return None;
    }
    assert EndsAt(pages, last);
    if servers == [] {
      OneEnd(pages, last);
      return None;
    }
    r := Some(servers);
  }

  lemma NoEnd<T>(pages: nat -> Page<T>)
    requires forall k :: 1 <= k <= MAX_PAGES ==> GoesOn(pages, k)
    ensures forall n :: 1 <= n <= MAX_PAGES ==> !EndsAt(pages, n)
  {
    forall n | 1 <= n <= MAX_PAGES ensures !EndsAt(pages, n) {
      assert GoesOn(pages, n);
    }
  }

  lemma NoLaterEnd<T>(pages: nat -> Page<T>, page: nat)
    requires 1 <= page && !GoesOn(pages, page) && !IsLast(pages, page)
    requires forall k :: 1 <= k < page ==> GoesOn(pages, k)
    ensures forall n :: 1 <= n <= MAX_PAGES ==> !EndsAt(pages, n)
  {
    forall n | 1 <= n <= MAX_PAGES ensures !EndsAt(pages, n) {
      assert n < page ==> GoesOn(pages, n);
    }
  }

  /** The reading ends at one page at most. */
  lemma OneEnd<T>(pages: nat -> Page<T>, page: nat)
    requires EndsAt(pages, page)
    ensures forall n :: 1 <= n <= MAX_PAGES && EndsAt(pages, n) ==> n == page
  {
    forall n | 1 <= n <= MAX_PAGES && EndsAt(pages, n) ensures n == page {
      assert n < page ==> GoesOn(pages, n);
      assert page < n ==> GoesOn(pages, page);
    }
  }

  // ---------------------------------------------------------------- a list that does not change

  function Min(a: nat, b: nat): nat {
    if a < b then a else b
  }

  /** Page n of a list. */
  function PageOf<T>(list: seq<T>, n: nat): seq<T> {
    if n == 0 then [] else list[Min((n - 1) * PER_PAGE, |list|)..Min(n * PER_PAGE, |list|)]
  }

  /** The API over one list, with or without the total. */
  function Serving<T>(list: seq<T>, counts: bool): nat -> Page<T> {
    (n: nat) => Page(PageOf(list, n), if counts then Some(|list|) else None)
  }

  lemma {:induction false} ServedUpto<T>(list: seq<T>, counts: bool, n: nat)
    ensures Upto(Serving(list, counts), n) == list[..Min(n * PER_PAGE, |list|)]
  {
    if n > 0 {
      ServedUpto(list, counts, n - 1);
    }
  }

  lemma ServedCounts<T>(list: seq<T>, n: nat)
    requires n > 0
    ensures GoesOn(Serving(list, true), n) <==> n * PER_PAGE < |list|
    ensures IsLast(Serving(list, true), n) <==> |list| <= n * PER_PAGE
  {
    ServedUpto(list, true, n);
  }

  /** How many pages a list has, one for the empty list. */
  function PageCount(size: nat): nat {
    if size == 0 then 1 else (size + PER_PAGE - 1) / PER_PAGE
  }

  /** With the total reported the answer is the whole list when it has 1 to PER_PAGE * MAX_PAGES servers, else none. */
  lemma CountedListIsReadWhole<T>(list: seq<T>, r: Option<seq<T>>)
    requires IsAnswer(Serving(list, true), r)
    ensures r == if 1 <= |list| <= PER_PAGE * MAX_PAGES then Some(list) else None
  {
    var (pages, last) := (Serving(list, true), PageCount(|list|));
    forall n | 1 <= n <= MAX_PAGES ensures EndsAt(pages, n) <==> n == last {
      CountedEnd(list, n);
    }
    ServedUpto(list, true, last);
    if 1 <= |list| <= PER_PAGE * MAX_PAGES {
      assert EndsAt(pages, last) && Upto(pages, last) == list;
    }
  }

  lemma CountedEnd<T>(list: seq<T>, n: nat)
    requires 1 <= n <= MAX_PAGES
    ensures EndsAt(Serving(list, true), n) <==> n == PageCount(|list|)
  {
    var pages := Serving(list, true);
    ServedCounts(list, n);
    forall k | 1 <= k < n ensures GoesOn(pages, k) <==> k * PER_PAGE < |list| {
      ServedCounts(list, k);
    }
    if n > 1 {
      ServedCounts(list, n - 1);
    }
  }

  /** Without the total the answer is the whole list when it fits on one page and does not fill it, else none. */
  lemma UncountedListIsReadWhole<T>(list: seq<T>, r: Option<seq<T>>)
    requires IsAnswer(Serving(list, false), r)
    ensures r == if 1 <= |list| < PER_PAGE then Some(list) else None
  {
    var pages := Serving(list, false);
    ServedUpto(list, false, 1);
    forall n | 1 <= n <= MAX_PAGES ensures EndsAt(pages, n) <==> n == 1 && |list| < PER_PAGE {
      assert n > 1 ==> !GoesOn(pages, 1);
    }
    if |list| < PER_PAGE {
      assert Upto(pages, 1) == list[..|list|] == list;
      assert EndsAt(pages, 1);
    }
  }

  /** Whatever the pages, there is one answer. */
  lemma AnswerIsUnique<T>(pages: nat -> Page<T>, a: Option<seq<T>>, b: Option<seq<T>>)
    requires IsAnswer(pages, a) && IsAnswer(pages, b)
    ensures a == b
  {
    if a.Some? {
      var n :| 1 <= n <= MAX_PAGES && EndsAt(pages, n) && a.value == Upto(pages, n);
      OneEnd(pages, n);
    }
  }

  // ---------------------------------------------------------------- label values

  /** s.replace(c, with), for one character */
  function Replace(s: string, c: char, with: string): string {
    if s == "" then "" else (if s[0] == c then with else [s[0]]) + Replace(s[1..], c, with)
  }

  /** label(): the three replacements one after the other. */
  function Label(value: string): string {
    Replace(Replace(Replace(value, '\\', ['\\', '\\']), '\n', ['\\', 'n']), '"', ['\\', '"'])
  }

  function EscapeChar(c: char): string {
    if c == '\\' then ['\\', '\\'] else if c == '\n' then ['\\', 'n'] else if c == '"' then ['\\', '"'] else [c]
  }

  function Escape(s: string): string {
    if s == "" then "" else EscapeChar(s[0]) + Escape(s[1..])
  }

  lemma {:induction false} ReplaceBoth(a: string, b: string, c: char, with: string)
    ensures Replace(a + b, c, with) == Replace(a, c, with) + Replace(b, c, with)
  {
    if a == "" {
      assert a + b == b;
    } else {
      ReplaceBoth(a[1..], b, c, with);
      RestOfBoth(a, b);
      Regroup(if a[0] == c then with else [a[0]], Replace(a[1..], c, with), Replace(b, c, with));
    }
  }

  lemma LabelOfBoth(a: string, b: string)
    ensures Label(a + b) == Label(a) + Label(b)
  {
    ReplaceBoth(a, b, '\\', ['\\', '\\']);
    var (a1, b1) := (Replace(a, '\\', ['\\', '\\']), Replace(b, '\\', ['\\', '\\']));
    ReplaceBoth(a1, b1, '\n', ['\\', 'n']);
    ReplaceBoth(Replace(a1, '\n', ['\\', 'n']), Replace(b1, '\n', ['\\', 'n']), '"', ['\\', '"']);
  }

  lemma ReplaceOne(d: char, c: char, with: string)
    ensures Replace([d], c, with) == if d == c then with else [d]
  {
    assert [d][1..] == "";
  }

  lemma ReplaceTwo(d: char, e: char, c: char, with: string)
    requires d != c && e != c
    ensures Replace([d, e], c, with) == [d, e]
  {
    assert [d, e][1..] == [e];
    ReplaceOne(e, c, with);
  }

  lemma LabelOfOne(c: char)
    ensures Label([c]) == EscapeChar(c)
  {
    ReplaceOne(c, '\\', ['\\', '\\']);
    ReplaceOne(c, '\n', ['\\', 'n']);
    ReplaceOne(c, '"', ['\\', '"']);
    ReplaceTwo('\\', '\\', '\n', ['\\', 'n']);
    ReplaceTwo('\\', '\\', '"', ['\\', '"']);
    ReplaceTwo('\\', 'n', '"', ['\\', '"']);
  }

  /** The replacements do not get into each other's way: each character is escaped once. */
  lemma {:induction false} LabelEscapesEachCharacter(value: string)
    ensures Label(value) == Escape(value)
  {
    if value == "" {
      assert Label("") == "";
    } else {
      LabelEscapesEachCharacter(value[1..]);
      FirstAndRest(value);
      LabelOfBoth([value[0]], value[1..]);
      LabelOfOne(value[0]);
    }
  }

  /** A label value read up to its closing quote, and what follows the quote. */
  function ReadLabel(text: string): Option<(string, string)> {
    if text == "" then None
    else if text[0] == '"' then Some(("", text[1..]))
    else if text[0] == '\n' then None
    else
      var (c, n) := if text[0] == '\\' && |text| > 1 then (if text[1] == 'n' then '\n' else text[1], 2) else (text[0], 1);
      match ReadLabel(text[n..])
      case None => None
      case Some((value, rest)) => Some(([c] + value, rest))
  }

  /** A value between quotes is read back, whatever it contains and whatever follows it. */
  lemma {:induction false} LabelIsReadBack(value: string, rest: string)
    ensures ReadLabel(Label(value) + (['"'] + rest)) == Some((value, rest))
  {
    LabelEscapesEachCharacter(value);
    EscapedIsReadBack(value, ['"'] + rest);
  }

  lemma OneIsReadBack(c: char, after: string, value: string, rest: string)
    requires ReadLabel(after) == Some((value, rest))
    ensures ReadLabel(EscapeChar(c) + after) == Some(([c] + value, rest))
  {
    AfterFirst(EscapeChar(c), after);
  }

  lemma {:induction false} EscapedIsReadBack(value: string, tail: string)
    requires tail != "" && tail[0] == '"'
    ensures ReadLabel(Escape(value) + tail) == Some((value, tail[1..]))
  {
    if value == "" {
      assert Escape(value) + tail == tail;
    } else {
      EscapedIsReadBack(value[1..], tail);
      Regroup(EscapeChar(value[0]), Escape(value[1..]), tail);
      OneIsReadBack(value[0], Escape(value[1..]) + tail, value[1..], tail[1..]);
      FirstAndRest(value);
    }
  }
}
