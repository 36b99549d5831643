/** The bracket layout _write_asc_section produces (src/mut/writers.cpp):
    a section's points at its own indentation, then, when it has children,
    "(" before the first child, "|" before each later one and ")" after the
    last, all at the section's indentation, with every child two columns
    deeper. A leaf writes no mark at all. */
module AscShape {
  import opened Iterators
  import opened MutMorphology
  import opened AscWriter

  /** Every point line and mark of xs is indented by at least d. */
  predicate IndentedFrom(xs: seq<AscOut>, d: nat) {
    xs == [] ||
      (IndentedFrom(xs[..|xs| - 1], d) && (xs[|xs| - 1].Text? || xs[|xs| - 1].indent >= d))
  }

  /** Every point line and mark of xs other than a mark at exactly d is
      indented by at least d + 2. */
  predicate DeeperExceptMarks(xs: seq<AscOut>, d: nat) {
    xs == [] ||
      (DeeperExceptMarks(xs[..|xs| - 1], d) &&
        var x := xs[|xs| - 1];
        x.Text? || (x.Mark? && x.indent == d) || x.indent >= d + 2)
  }

  /** The symbols of the marks written at exactly indentation d, in order. */
  function MarksAt(xs: seq<AscOut>, d: nat): seq<char> {
    if xs == [] then []
    else
      var x := xs[|xs| - 1];
      MarksAt(xs[..|xs| - 1], d) + (if x.Mark? && x.indent == d then [x.symbol] else [])
  }

  /** n separators. */
  function Bars(n: nat): (s: seq<char>)
    ensures |s| == n && forall i :: 0 <= i < n ==> s[i] == '|'
  {
    seq(n, _ => '|')
  }

  /** The marks a section with n children writes at its own indentation. */
  function BranchMarks(n: nat): seq<char> {
    if n == 0 then [] else ['('] + Bars(n - 1) + [')']
  }

  lemma {:induction false} IndentedConcat(a: seq<AscOut>, b: seq<AscOut>, d: nat)
    requires IndentedFrom(a, d) && IndentedFrom(b, d)
    ensures IndentedFrom(a + b, d)
    decreases |b|
  {
    if b == [] {
      assert a + b == a;
    } else {
      assert (a + b)[..|a + b| - 1] == a + b[..|b| - 1];
      IndentedConcat(a, b[..|b| - 1], d);
    }
  }

  lemma {:induction false} DeeperConcat(a: seq<AscOut>, b: seq<AscOut>, d: nat)
    requires DeeperExceptMarks(a, d) && DeeperExceptMarks(b, d)
    ensures DeeperExceptMarks(a + b, d)
    decreases |b|
  {
    if b == [] {
      assert a + b == a;
    } else {
      assert (a + b)[..|a + b| - 1] == a + b[..|b| - 1];
      DeeperConcat(a, b[..|b| - 1], d);
    }
  }

  /** Output indented by at least d + 2 is deeper than d throughout. */
  lemma {:induction false} IndentedIsDeeper(xs: seq<AscOut>, d: nat)
    requires IndentedFrom(xs, d + 2)
    ensures DeeperExceptMarks(xs, d)
    decreases |xs|
  {
    if xs != [] {
      IndentedIsDeeper(xs[..|xs| - 1], d);
    }
  }

  lemma {:induction false} MarksAtConcat(a: seq<AscOut>, b: seq<AscOut>, d: nat)
    ensures MarksAt(a + b, d) == MarksAt(a, d) + MarksAt(b, d)
    decreases |b|
  {
    if b == [] {
      assert a + b == a;
    } else {
      assert (a + b)[..|a + b| - 1] == a + b[..|b| - 1];
      MarksAtConcat(a, b[..|b| - 1], d);
    }
  }

  /** Output indented deeper than d has no mark at d. */
  lemma {:induction false} DeeperHasNoMarks(xs: seq<AscOut>, e: nat, d: nat)
    requires IndentedFrom(xs, e) && d < e
    ensures MarksAt(xs, d) == [] && IndentedFrom(xs, d)
    decreases |xs|
  {
    if xs != [] {
      DeeperHasNoMarks(xs[..|xs| - 1], e, d);
    }
  }

  lemma {:induction false} PointLinesShape(points: seq<Point>, diameters: seq<real>, d: nat)
    requires |points| <= |diameters|
    ensures IndentedFrom(PointLines(points, diameters, d), d)
    ensures MarksAt(PointLines(points, diameters, d), d) == []
    decreases |points|
  {
    if points != [] {
      var n := |points| - 1;
      assert PointLines(points, diameters, d)[..n] == PointLines(points[..n], diameters, d);
      PointLinesShape(points[..n], diameters, d);
    }
  }

  lemma SingleShape(x: AscOut, d: nat)
    requires x.Mark? && x.indent == d
    ensures IndentedFrom([x], d) && MarksAt([x], d) == [x.symbol]
    ensures DeeperExceptMarks([x], d)
  {
    assert [x][..0] == [];
  }

  /** A section's own output never goes left of its indentation, and the
      marks at its indentation are exactly "(", "|" per further child and
      ")", or none for a leaf. */
  lemma {:induction false} SectionShape(m: Morphology, id: nat, d: nat)
    requires m.Walkable() && id < m.forest.Count()
    ensures IndentedFrom(SectionLines(m, id, d), d)
    ensures MarksAt(SectionLines(m, id, d), d) == BranchMarks(|m.forest.children[id]|)
    decreases m.forest.Count() - id, 2, 0
  {
    var s := m.sections[id];
    PointLinesShape(s.points, s.diameters, d);
    BranchShape(m, id, d);
    IndentedConcat(PointLines(s.points, s.diameters, d), BranchLines(m, id, d), d);
    MarksAtConcat(PointLines(s.points, s.diameters, d), BranchLines(m, id, d), d);
  }

  lemma {:induction false} BranchShape(m: Morphology, id: nat, d: nat)
    requires m.Walkable() && id < m.forest.Count()
    ensures IndentedFrom(BranchLines(m, id, d), d)
    ensures MarksAt(BranchLines(m, id, d), d) == BranchMarks(|m.forest.children[id]|)
    decreases m.forest.Count() - id, 1, 0
  {
    var n := |m.forest.children[id]|;
    if n > 0 {
      ChildrenShape(m, id, n, d);
      SingleShape(Mark(d, ')'), d);
      IndentedConcat(ChildrenLines(m, id, n, d), [Mark(d, ')')], d);
      MarksAtConcat(ChildrenLines(m, id, n, d), [Mark(d, ')')], d);
    }
  }

  /** The first n children leave "(" and n - 1 separators at the parent's
      indentation; everything they write themselves is at least two columns
      deeper. */
  lemma {:induction false} ChildrenShape(m: Morphology, id: nat, n: nat, d: nat)
    requires m.Walkable() && id < m.forest.Count() && 0 < n <= |m.forest.children[id]|
    ensures IndentedFrom(ChildrenLines(m, id, n, d), d)
    ensures MarksAt(ChildrenLines(m, id, n, d), d) == ['('] + Bars(n - 1)
    ensures DeeperExceptMarks(ChildrenLines(m, id, n, d), d)
    decreases m.forest.Count() - id, 0, n
  {
    var c := m.forest.children[id][n - 1];
    assert id < c < m.forest.Count();
    var mark := [Mark(d, if n == 1 then '(' else '|')];
    var before := ChildrenLines(m, id, n - 1, d);
    var child := SectionLines(m, c, d + 2);
    SingleShape(mark[0], d);
    SectionShape(m, c, d + 2);
    DeeperHasNoMarks(child, d + 2, d);
    IndentedIsDeeper(child, d);
    if n > 1 {
      ChildrenShape(m, id, n - 1, d);
      assert Bars(n - 1) == Bars(n - 2) + ['|'];
    } else {
      assert before == [];
    }
    IndentedConcat(before, mark, d);
    IndentedConcat(before + mark, child, d);
    MarksAtConcat(before, mark, d);
    MarksAtConcat(before + mark, child, d);
    DeeperConcat(before, mark, d);
    DeeperConcat(before + mark, child, d);
  }
}
