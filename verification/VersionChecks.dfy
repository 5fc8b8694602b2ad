/**
 What scripts/validate-agent-platform.py answers about a version and a constraint, said of
 the numbers as they are written: operator by operator, component by component, with zeros
 where a component is missing.
 */
module VersionChecks {
  import opened Wrappers
  import opened Text
  import opened Seqs
  import opened VersionConstraint

  /** The numbers of a dotted version, in order. */
  ghost predicate IsWritten(s: string, v: Version) {
    exists parts: seq<string> :: |parts| == |v| && parts != [] && s == Join(parts, '.')
      && forall i :: 0 <= i < |v| ==> parts[i] != "" && AllDigits(parts[i]) && v[i] == Value(parts[i])
  }

  /** The component at k, if there is one. */
  function Component(v: Version, k: nat): nat {
    if k < |v| then v[k] else 0
  }

  /** a is smaller at the first component in which they differ. */
  ghost predicate Precedes(a: Version, b: Version) {
    exists k: nat :: Component(a, k) < Component(b, k) && forall j: nat :: j < k ==> Component(a, j) == Component(b, j)
  }

  /** No component differs. */
  ghost predicate Agree(a: Version, b: Version) {
    forall k: nat :: Component(a, k) == Component(b, k)
  }

  /** What an operator, as it is written, asks of the version before it and the one behind. */
  ghost predicate Asks(op: string, a: Version, b: Version) {
    if op == ">=" then !Precedes(a, b)
    else if op == "<=" then !Precedes(b, a)
    else if op == ">" then Precedes(b, a)
    else if op == "<" then Precedes(a, b)
    else op == "==" && Agree(a, b)
  }

  lemma PrecedesExactly(a: Version, b: Version)
    ensures Precedes(a, b) <==> Smaller(a, b)
    ensures Agree(a, b) <==> SameAs(a, b)
  {
    assert forall k: nat :: Component(a, k) == At(a, k) && Component(b, k) == At(b, k);
    if Precedes(a, b) {
      var k: nat :| Component(a, k) < Component(b, k) && forall j: nat :: j < k ==> Component(a, j) == Component(b, j);
      assert k < |b|;
      assert SmallerAt(a, b, k);
    }
    if Smaller(a, b) {
      var k :| 0 <= k < Max(|a|, |b|) && SmallerAt(a, b, k);
      assert Component(a, k) < Component(b, k);
    }
  }

  lemma OpsAreDifferent()
    ensures OpText(Ge) == ">=" && OpText(Le) == "<=" && OpText(Gt) == ">" && OpText(Lt) == "<" && OpText(Eq) == "=="
    ensures |">="| == 2 && |">"| == 1 && |"<"| == 1 && |"<="| == 2 && |"=="| == 2
    ensures ">="[0] == '>' && "<="[0] == '<' && "=="[0] == '='
  {
  }

  /** Each operator means what it says. */
  lemma AsksExactly(op: Op, a: Version, b: Version)
    ensures Holds(op, a, b) <==> Asks(OpText(op), a, b)
  {
    PaddingIsZeros(a, b);
    PaddingIsZeros(b, a);
    PrecedesExactly(a, b);
    PrecedesExactly(b, a);
    ComparisonIsTotal(a, b);
    OpsAreDifferent();
  }

  lemma WrittenExactly(s: string)
    ensures forall v :: VersionOf(s) == Some(v) <==> IsWritten(s, v)
  {
    JoinUndoesSplit(s, '.');
    var parts := Split(s, '.');
    forall v ensures VersionOf(s) == Some(v) <==> IsWritten(s, v) {
      if VersionOf(s) == Some(v) {
        assert forall i :: 0 <= i < |v| ==> IsComponent(parts[i]);
      }
      if IsWritten(s, v) {
        var ps: seq<string> :| |ps| == |v| && ps != [] && s == Join(ps, '.')
          && forall i :: 0 <= i < |v| ==> ps[i] != "" && AllDigits(ps[i]) && v[i] == Value(ps[i]);
        forall i | 0 <= i < |ps| ensures '.' !in ps[i] {
          assert forall j :: 0 <= j < |ps[i]| ==> IsDigit(ps[i][j]);
        }
        SplitUndoesJoin(ps, '.');
        assert AreComponents(ps);
        assert Values(ps) == v;
      }
    }
  }

  lemma {:induction false} SplitUndoesJoin(parts: seq<string>, c: char)
    requires parts != [] && forall i :: 0 <= i < |parts| ==> c !in parts[i]
    ensures Split(Join(parts, c), c) == parts
    decreases |parts|
  {
    if |parts| == 1 {
      SplitWhole(parts[0], c);
    } else {
      SplitUndoesJoin(parts[1..], c);
      SplitAfter(parts[0], c, Join(parts[1..], c));
      FirstAndRest(parts);
    }
  }

  /** The comparators of a constraint, as they are written with blanks around and between. */
  ghost predicate Satisfied(version: Version, pieces: seq<Piece>)
    requires AreComparators(pieces)
  {
    forall i :: 0 <= i < |pieces| ==>
      Asks(OpText(pieces[i].comparator.op), version, VersionOf(pieces[i].comparator.number).value)
  }

  /** The answer is yes exactly when the version and the constraint can be read and every comparator is satisfied. */
  lemma SatisfiesExactly(version: string, constraint: string)
    ensures Satisfies(version, constraint) == Some(true) <==>
      exists v, pieces, tail :: IsWritten(version, v) && IsConstraintText(constraint, pieces, tail) && Satisfied(v, pieces)
    ensures Satisfies(version, constraint).Some? <==>
      (exists v :: IsWritten(version, v)) && exists pieces, tail :: IsConstraintText(constraint, pieces, tail)
  {
    WrittenExactly(version);
    AcceptsExactly(constraint);
    forall pieces, tail | IsConstraintText(constraint, pieces, tail)
      ensures VersionOf(version).Some? ==>
                (Satisfies(version, constraint) == Some(true) <==> Satisfied(VersionOf(version).value, pieces))
    {
      ConstraintIsParsed(constraint, pieces, tail);
      if VersionOf(version).Some? {
        BoundsExactly(VersionOf(version).value, pieces);
      }
    }
    if VersionOf(version).Some? {
      assert IsWritten(version, VersionOf(version).value);
    }
  }

  lemma BoundsExactly(v: Version, pieces: seq<Piece>)
    requires AreComparators(pieces) && AreRead(pieces)
    ensures AllHold(v, Bounds(pieces)) <==> Satisfied(v, pieces)
  {
    var bounds := Bounds(pieces);
    forall i | 0 <= i < |pieces|
      ensures Holds(bounds[i].0, v, bounds[i].1)
         <==> Asks(OpText(pieces[i].comparator.op), v, VersionOf(pieces[i].comparator.number).value)
    {
      AsksExactly(pieces[i].comparator.op, v, VersionOf(pieces[i].comparator.number).value);
    }
  }
}
