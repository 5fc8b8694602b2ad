/**
 What scripts/validate-argocd-project-scope.py takes for one repository: every casing of
 its URL, with or without ".git", between blanks. And which entries permit a URL, deny
 entries and templated URLs included. Neither is said through the functions that decide it.
 */
module RepoSpelling {
  import opened Text
  import opened Seqs
  import opened ProjectScope
  import opened GlobRegex
  import opened Wrappers

  // ---------------------------------------------------------------- spellings

  /** A URL in its plainest spelling. */
  ghost predicate IsPlainest(u: string) {
    && (forall i :: 0 <= i < |u| ==> !('A' <= u[i] <= 'Z'))
    && (u != "" ==> !IsSpace(u[0]) && !IsSpace(u[|u| - 1]))
    && (forall front: string :: u != front + ".git")
  }

  /** The same letters, each in either case. */
  predicate SameButCase(a: string, b: string) {
    |a| == |b| && forall i :: 0 <= i < |a| ==> a[i] == b[i] || ('A' <= a[i] <= 'Z' && a[i] as int + 32 == b[i] as int)
  }

  /** Blanks, a casing of the URL or of the URL and ".git", and blanks. */
  ghost predicate IsSpelling(v: string, u: string) {
    exists left, mid, right :: v == left + mid + right && IsBlank(left) && IsBlank(right)
                               && (SameButCase(mid, u) || SameButCase(mid, u + ".git"))
  }

  lemma {:induction false} StripLeftCuts(s: string) returns (left: string)
    ensures s == left + StripLeft(s) && IsBlank(left)
    ensures StripLeft(s) != "" ==> !IsSpace(StripLeft(s)[0])
  {
    left := "";
    if s != "" && IsSpace(s[0]) {
      var rest := StripLeftCuts(s[1..]);
      left := [s[0]] + rest;
    }
  }

  lemma {:induction false} StripRightCuts(s: string) returns (right: string)
    ensures s == StripRight(s) + right && IsBlank(right)
    ensures StripRight(s) != "" ==> !IsSpace(StripRight(s)[|StripRight(s)| - 1]) && StripRight(s)[0] == s[0]
  {
    right := "";
    if s != "" && IsSpace(s[|s| - 1]) {
      var rest := StripRightCuts(s[..|s| - 1]);
      right := rest + [s[|s| - 1]];
    }
  }

  lemma StripCuts(s: string) returns (left: string, right: string)
    ensures s == left + Strip(s) + right && IsBlank(left) && IsBlank(right)
    ensures Strip(s) != "" ==> !IsSpace(Strip(s)[0]) && !IsSpace(Strip(s)[|Strip(s)| - 1])
  {
    left := StripLeftCuts(s);
    right := StripRightCuts(StripLeft(s));
    Regroup(left, Strip(s), right);
  }

  lemma {:induction false} StripLeftOf(left: string, s: string)
    requires IsBlank(left) && (s != "" ==> !IsSpace(s[0]))
    ensures StripLeft(left + s) == s
  {
    if left == "" {
      NothingAdded(s);
    } else {
      RestOfBoth(left, s);
      StripLeftOf(left[1..], s);
    }
  }

  lemma {:induction false} StripRightOf(s: string, right: string)
    requires IsBlank(right) && (s != "" ==> !IsSpace(s[|s| - 1]))
    ensures StripRight(s + right) == s
  {
    if right == "" {
      NothingAdded(s);
    } else {
      var n := |right| - 1;
      assert (s + right)[..|s + right| - 1] == s + right[..n];
      StripRightOf(s, right[..n]);
    }
  }

  lemma {:induction false} BlankIsStripped(s: string)
    requires IsBlank(s)
    ensures StripLeft(s) == ""
  {
    if s != "" {
      BlankIsStripped(s[1..]);
    }
  }

  /** Stripping finds the middle. */
  lemma StripOf(left: string, mid: string, right: string)
    requires IsBlank(left) && IsBlank(right)
    requires mid != "" ==> !IsSpace(mid[0]) && !IsSpace(mid[|mid| - 1])
    ensures Strip(left + mid + right) == mid
  {
    Regroup(left, mid, right);
    if mid == "" {
      NothingAdded(right);
      BlankIsStripped(left + right);
    } else {
      StripLeftOf(left, mid + right);
      StripRightOf(mid, right);
    }
  }

  lemma LowerExactly(a: string, b: string)
    requires forall i :: 0 <= i < |b| ==> !('A' <= b[i] <= 'Z')
    ensures Lower(a) == b <==> SameButCase(a, b)
  {
    if SameButCase(a, b) {
      forall i | 0 <= i < |a| ensures Lower(a)[i] == b[i] {
        assert LowerChar(a[i]) == b[i];
      }
    }
    if Lower(a) == b {
      forall i | 0 <= i < |a| ensures a[i] == b[i] || ('A' <= a[i] <= 'Z' && a[i] as int + 32 == b[i] as int) {
        assert b[i] == LowerChar(a[i]);
      }
    }
  }

  lemma EndsWithExactly(s: string, suffix: string)
    ensures EndsWith(s, suffix) <==> exists front: string :: s == front + suffix
  {
    if EndsWith(s, suffix) {
      assert s == s[..|s| - |suffix|] + suffix;
    }
    if front: string :| s == front + suffix {
      AfterFirst(front, suffix);
    }
  }

  /** A URL has this plainest form exactly when it is one of its spellings. */
  lemma NormalizesExactly(v: string, u: string)
    requires IsPlainest(u)
    ensures NormalizeRepo(v) == u <==> IsSpelling(v, u)
  {
    if NormalizeRepo(v) == u {
      NormalFormIsSpelled(v, u);
    }
    if IsSpelling(v, u) {
      SpellingNormalizes(v, u);
    }
  }

  lemma LowerHasNoCapitals(s: string)
    ensures forall i :: 0 <= i < |Lower(s)| ==> !('A' <= Lower(s)[i] <= 'Z')
  {
  }

  lemma NormalFormIsSpelled(v: string, u: string)
    requires NormalizeRepo(v) == u
    ensures IsSpelling(v, u)
  {
    var left, right := StripCuts(v);
    var low := Lower(Strip(v));
    LowerHasNoCapitals(Strip(v));
    LowerExactly(Strip(v), low);
    if EndsWith(low, ".git") {
      assert low == u + ".git";
    }
  }

  lemma SpellingNormalizes(v: string, u: string)
    requires IsPlainest(u) && IsSpelling(v, u)
    ensures NormalizeRepo(v) == u
  {
    var left, mid, right :| v == left + mid + right && IsBlank(left) && IsBlank(right)
                            && (SameButCase(mid, u) || SameButCase(mid, u + ".git"));
    if SameButCase(mid, u) {
      PlainNormalizes(left, mid, right, u);
    } else {
      GitNormalizes(left, mid, right, u);
    }
  }

  lemma PlainNormalizes(left: string, mid: string, right: string, u: string)
    requires IsPlainest(u) && IsBlank(left) && IsBlank(right) && SameButCase(mid, u)
    ensures NormalizeRepo(left + mid + right) == u
  {
    EndsWithExactly(u, ".git");
    CasingKeepsEdges(mid, u);
    StripOf(left, mid, right);
    LowerExactly(mid, u);
  }

  lemma GitNormalizes(left: string, mid: string, right: string, u: string)
    requires IsPlainest(u) && IsBlank(left) && IsBlank(right) && SameButCase(mid, u + ".git")
    ensures NormalizeRepo(left + mid + right) == u
  {
    var git := u + ".git";
    EndsWithExactly(git, ".git");
    GitIsPlain(u);
    CasingKeepsEdges(mid, git);
    StripOf(left, mid, right);
    LowerExactly(mid, git);
    AfterFirst(u, ".git");
  }

  lemma GitIsPlain(u: string)
    requires IsPlainest(u)
    ensures var w := u + ".git";
      (forall i :: 0 <= i < |w| ==> !('A' <= w[i] <= 'Z')) && !IsSpace(w[0]) && !IsSpace(w[|w| - 1])
  {
    var git := ".git";
    assert git[0] == '.' && git[1] == 'g' && git[2] == 'i' && git[3] == 't';
    var w := u + git;
    assert w[|w| - 1] == 't' && (u == "" ==> w[0] == '.') && (u != "" ==> w[0] == u[0]);
    forall i | 0 <= i < |w| ensures !('A' <= w[i] <= 'Z') {
      assert i >= |u| ==> w[i] == git[i - |u|];
    }
  }

  lemma CasingKeepsEdges(mid: string, w: string)
    requires SameButCase(mid, w) && (w != "" ==> !IsSpace(w[0]) && !IsSpace(w[|w| - 1]))
    ensures mid != "" ==> !IsSpace(mid[0]) && !IsSpace(mid[|mid| - 1])
  {
  }

  // ---------------------------------------------------------------- entries and spellings

  predicate IsLiteral(s: string) {
    '*' !in s && '?' !in s
  }

  lemma LineIsPlain(v: string, u: string)
    requires IsSpelling(v, u) && '\n' !in v
    ensures '\n' !in u
  {
    var left, mid, right :| v == left + mid + right && IsBlank(left) && IsBlank(right)
                            && (SameButCase(mid, u) || SameButCase(mid, u + ".git"));
    var git := u + ".git";
    assert |v| == |left| + |mid| + |right|;
    if SameButCase(mid, u) {
      SameLineBreaks(v, left, mid, u);
    } else {
      SameLineBreaks(v, left, mid, git);
      assert forall i :: 0 <= i < |u| ==> git[i] == u[i];
    }
  }

  lemma SameLineBreaks(v: string, left: string, mid: string, w: string)
    requires '\n' !in v && left + mid <= v && SameButCase(mid, w)
    ensures '\n' !in w
  {
    forall i | 0 <= i < |w| ensures w[i] != '\n' {
      assert v[|left| + i] == (left + mid)[|left| + i] == mid[i];
    }
  }

  /** An entry without wildcards and a URL match exactly when they are spellings of one repository. */
  lemma SpellingsMatchExactly(entry: string, e: string, url: string, u: string)
    requires IsPlainest(e) && IsSpelling(entry, e) && IsPlainest(u) && IsSpelling(url, u)
    requires IsLiteral(entry) && '\n' !in url
    ensures RepoMatches(entry, url) <==> e == u
  {
    LiteralRepoMatchesExactly(entry, url);
    NormalizesExactly(entry, e);
    NormalizesExactly(url, u);
  }

  /** Case, ".git" and blanks do not matter; what else differs does. */
  lemma CaseAndGitDoNotMatter(left: string, u: string, right: string, other: string)
    requires IsPlainest(u) && IsLiteral(u) && '\n' !in u && IsBlank(left) && IsBlank(right) && '\n' !in left + right
    requires SameButCase(other, u) || SameButCase(other, u + ".git")
    ensures RepoMatches(u + ".git", left + other + right) && RepoMatches(u, left + other + right)
  {
    var git := u + ".git";
    GitIsLiteral(u);
    assert "" + u + "" == u && "" + git + "" == git;
    assert SameButCase(u, u) && SameButCase(git, git);
    assert IsSpelling(u, u) && IsSpelling(git, u);
    var url := left + other + right;
    assert IsSpelling(url, u);
    SpelledOnOneLine(left, other, right, u);
    SpellingsMatchExactly(u, u, url, u);
    SpellingsMatchExactly(git, u, url, u);
  }

  lemma GitIsLiteral(u: string)
    requires IsLiteral(u)
    ensures IsLiteral(u + ".git")
  {
    var git := ".git";
    assert forall i :: 0 <= i < 4 ==> git[i] == ['.', 'g', 'i', 't'][i];
  }

  lemma SpelledOnOneLine(left: string, mid: string, right: string, u: string)
    requires SameButCase(mid, u) || SameButCase(mid, u + ".git")
    requires '\n' !in u && '\n' !in left + right
    ensures '\n' !in left + mid + right
  {
    var git := ".git";
    assert forall i :: 0 <= i < 4 ==> git[i] == ['.', 'g', 'i', 't'][i];
    forall i | 0 <= i < |mid| ensures mid[i] != '\n' {
      assert i >= |u| ==> (u + git)[i] == git[i - |u|];
    }
    assert forall i :: 0 <= i < |left| ==> (left + right)[i] == left[i];
    assert forall i :: 0 <= i < |right| ==> (left + right)[|left| + i] == right[i];
  }

  /** An Application of the project uses the repository, in some spelling. */
  ghost predicate IsUsed(apps: seq<App>, name: string, u: string) {
    exists a, source :: a in apps && a.project == name && source in a.sources && IsSpelling(source, u)
  }

  /** The boundary of a clean strict project in those terms. */
  lemma SpelledBoundaryExactly(
    projects: Projects, apps: seq<App>, strict: seq<string>, name: string, url: string, u: string)
    requires Clean(projects, apps, strict) && name in strict && name in projects && OneLine(apps, name)
    requires IsPlainest(u) && IsSpelling(url, u) && '\n' !in url && !Templated(url)
    ensures projects[name].PermitsRepo(url) <==> IsUsed(apps, name, u) || AdmittedOpenly(projects[name], url)
  {
    RepoBoundaryExactly(projects, apps, strict, name, url);
    NormalizesExactly(url, u);
    if IsSource(apps, name, url) {
      var a :| a in apps && a.project == name && exists s :: s in a.sources && NormalizeRepo(s) == NormalizeRepo(url);
      var source :| source in a.sources && NormalizeRepo(source) == NormalizeRepo(url);
      NormalizesExactly(source, u);
    }
    if IsUsed(apps, name, u) {
      var a, source :| a in apps && a.project == name && source in a.sources && IsSpelling(source, u);
      NormalizesExactly(source, u);
    }
  }

  // ---------------------------------------------------------------- wildcards and deny entries

  /** One star at the end takes everything up to the separator. */
  lemma {:induction false} StarAtTheEnd(pre: string, separator: Option<char>, s: string)
    requires IsLiteral(pre)
    ensures Accepts(pre + "*", separator, s) <==> exists rest: string :: s == pre + rest && NoneIn(separator, rest)
    decreases |pre|
  {
    if pre == "" {
      StarAlone(separator, s);
      NothingAdded(s);
      if rest: string :| s == "" + rest && NoneIn(separator, rest) {
        NothingAdded(rest);
      }
    } else {
      RestOfBoth(pre, "*");
      if s != "" {
        StarAtTheEnd(pre[1..], separator, s[1..]);
        FirstAndRest(s);
        FirstAndRest(pre);
        if rest: string :| s[1..] == pre[1..] + rest && NoneIn(separator, rest) {
          Regroup([pre[0]], pre[1..], rest);
        }
        if rest: string :| s == pre + rest && NoneIn(separator, rest) {
          RestOfBoth(pre, rest);
        }
      }
    }
  }

  predicate NoneIn(separator: Option<char>, s: string) {
    separator.Some? ==> separator.value !in s
  }

  lemma StarAlone(separator: Option<char>, s: string)
    ensures Accepts("" + "*", separator, s) <==> NoneIn(separator, s)
  {
    var star := "*";
    assert "" + star == star && star[1..] == "";
    assert s[|s|..] == "";
    if NoneIn(separator, s) {
      assert forall i :: 0 <= i < |s| ==> Crosses(separator, s[i]);
      assert Accepts("", separator, s[|s|..]);
    }
    if Accepts(star, separator, s) {
      var k :| 0 <= k <= |s| && (forall i :: 0 <= i < k ==> Crosses(separator, s[i])) && Accepts("", separator, s[k..]);
      assert k == |s|;
    }
  }

  lemma StarIsNoBlank(s: string, c: char)
    requires |s| >= 2 && !IsSpace(s[0]) && !IsSpace(s[|s| - 1]) && s[0] != '*'
    ensures Strip(s) == s && s != "*" && s != "**"
  {
    StripOf("", s, "");
    assert "" + s + "" == s;
    assert "*"[0] == '*' && "**"[0] == '*';
  }

  /** A repository entry that ends in a star admits what is in that segment, and nothing below it. */
  lemma StarStaysInItsSegment(pre: string, url: string, u: string)
    requires pre != "" && IsLiteral(pre) && IsPlainest(pre + "*")
    requires IsPlainest(u) && IsSpelling(url, u) && '\n' !in url
    ensures RepoMatches(pre + "*", url) <==> exists rest: string :: u == pre + rest && '/' !in rest
  {
    var pattern := pre + "*";
    assert pattern[0] == pre[0] && pre[0] in pre;
    StarIsNoBlank(pattern, '*');
    assert "" + pattern + "" == pattern && SameButCase(pattern, pattern);
    assert IsSpelling(pattern, pattern);
    NormalizesExactly(pattern, pattern);
    NormalizesExactly(url, u);
    LineIsPlain(url, u);
    CompiledGlobMatchesExactly(pattern, Some('/'), u);
    StarAtTheEnd(pre, Some('/'), u);
    if RepoMatches(pattern, url) {
      var rest: string :| u == pre + rest && NoneIn(Some('/'), rest);
    }
    if rest: string :| u == pre + rest && '/' !in rest {
      assert NoneIn(Some('/'), rest);
    }
  }

  /** In a server or a namespace a star at the end takes everything. */
  lemma PlainStarTakesEverything(pre: string, value: string)
    requires IsLiteral(pre) && '\n' !in value
    ensures PlainMatches(pre + "*", value) <==> pre <= value
  {
    CompiledGlobMatchesExactly(pre + "*", None, value);
    StarAtTheEnd(pre, None, value);
    if pre <= value {
      AfterPrefix(pre, value);
      assert NoneIn(None, value[|pre|..]);
    }
  }

  /** A lone star between blanks, or two, admit every URL that is not denied. */
  lemma StarAdmitsEverything(left: string, right: string, url: string)
    requires IsBlank(left) && IsBlank(right)
    ensures RepoMatches(left + "*" + right, url) && RepoMatches(left + "**" + right, url)
  {
    StripOf(left, "*", right);
    StripOf(left, "**", right);
  }

  /** Two braces, anything on the line, two braces. */
  ghost predicate HoldsATemplate(s: string) {
    exists front, inside, after :: s == front + "{{" + inside + "}}" + after && '\n' !in inside
  }

  lemma TemplatedExactly(s: string)
    ensures Templated(s) <==> HoldsATemplate(s)
  {
    if Templated(s) {
      var i, j :| 0 <= i && i + 2 <= j && j + 2 <= |s| && OpensAt(s, i) && ClosesAt(s, j) && '\n' !in s[i..j];
      TemplateStands(s, i, j);
    }
    if front, inside, after :| s == front + "{{" + inside + "}}" + after && '\n' !in inside {
      TemplateIsFound(front, inside, after);
    }
  }

  lemma TemplateStands(s: string, i: int, j: int)
    requires 0 <= i && i + 2 <= j && j + 2 <= |s| && OpensAt(s, i) && ClosesAt(s, j) && '\n' !in s[i..j]
    ensures HoldsATemplate(s)
  {
    var (front, inside, after) := (s[..i], s[i + 2..j], s[j + 2..]);
    assert s[i..i + 2] == "{{" && s[j..j + 2] == "}}";
    assert s == front + s[i..i + 2] + inside + s[j..j + 2] + after;
    forall k | 0 <= k < |inside| ensures inside[k] != '\n' {
      assert inside[k] == s[i..j][k + 2];
    }
  }

  lemma TemplateIsFound(front: string, inside: string, after: string)
    requires '\n' !in inside
    ensures Templated(front + "{{" + inside + "}}" + after)
  {
    var s := front + "{{" + inside + "}}" + after;
    var (i, j) := (|front|, |front| + 2 + |inside|);
    assert s[i] == '{' && s[i + 1] == '{' && s[j] == '}' && s[j + 1] == '}';
    assert s[i..j] == "{{" + inside;
    var braces := "{{";
    assert braces[0] == '{' && braces[1] == '{';
    assert OpensAt(s, i) && ClosesAt(s, j);
  }

  /** A templated URL needs a bare star; any other a permitting entry that matches, and no deny entry that does. */
  lemma PermittedExactly(p: Project, url: string)
    ensures p.PermitsRepo(url) <==>
      if HoldsATemplate(url) then "*" in p.sourceRepos
      else (exists e :: e in p.sourceRepos && (e != "" ==> e[0] != '!') && RepoMatches(e, url))
           && forall e :: "!" + e in p.sourceRepos ==> !RepoMatches(e, url)
  {
    TemplatedExactly(url);
    if HoldsATemplate(url) {
      if "*" in p.sourceRepos {
        assert p.AdmitsRepo("*", url);
      }
    } else {
      DeniedExactly(p, url);
      if p.PermitsRepo(url) {
        var e :| e in p.sourceRepos && p.AdmitsRepo(e, url);
        assert e in p.sourceRepos && (e != "" ==> e[0] != '!') && RepoMatches(e, url);
      }
    }
  }

  lemma DeniedExactly(p: Project, url: string)
    ensures p.Denied(url) <==> exists e :: "!" + e in p.sourceRepos && RepoMatches(e, url)
  {
    if p.Denied(url) {
      var d :| d in p.sourceRepos && d != "" && d[0] == '!' && RepoMatches(d[1..], url);
      FirstAndRest(d);
      assert "!" == [d[0]];
      assert "!" + d[1..] in p.sourceRepos;
    }
    if e :| "!" + e in p.sourceRepos && RepoMatches(e, url) {
      var d := "!" + e;
      assert d[1..] == e && d[0] == '!';
    }
  }
}
