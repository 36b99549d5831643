/** The SWC writer (writer::swc in src/mut/writers.cpp): the rows it writes
    after the header, each row being an id, a type code, a point, a radius
    and the id of its parent row. Rows are numbered from 1: the soma points
    first, then the sections in depth-first order. A root section writes
    every point; any other section skips its first point, which repeats the
    last point of its parent. */
module SwcWriter {
  import opened Iterators
  import opened MutMorphology
  import opened WriterResults

  datatype SwcRow = SwcRow(id: int, kind: int, point: Point, radius: real, parent: int)

  /** The parent written for a soma row after the first comes from an
      expression that reads and increments the row counter in one output
      chain: the row itself when the increment is sequenced first (C++17),
      or the row before it otherwise. Which one applies is a parameter. */
  datatype SomaChain = SelfParent | PreviousRow

  function SomaParent(chain: SomaChain, id: int): int {
    if chain == SelfParent then id else id - 1
  }

  /** How many leading points a section skips: none for a root section. */
  function Skip(m: Morphology, id: nat): nat
    requires m.WellFormed() && id < m.forest.Count()
  {
    if m.IsRoot(id) then 0 else 1
  }

  /** How many rows a section writes. */
  function Emitted(m: Morphology, id: nat): nat
    requires m.WellFormed() && id < m.forest.Count()
  {
    var n := |m.sections[id].points|;
    if n > Skip(m, id) then n - Skip(m, id) else 0
  }

  /** How many rows the first j sections of order write. */
  function RowsBefore(m: Morphology, order: seq<nat>, j: nat): nat
    requires m.WellFormed() && m.forest.Within(order) && j <= |order|
  {
    if j == 0 then 0 else RowsBefore(m, order, j - 1) + Emitted(m, order[j - 1])
  }

  /** The rows of the soma, ids 1 .. |somaPoints|; the first has parent -1. */
  function SomaRows(m: Morphology, chain: SomaChain): (rows: seq<SwcRow>)
    requires m.WellFormed()
    ensures |rows| == |m.somaPoints|
  {
    seq(|m.somaPoints|, k requires 0 <= k < |m.somaPoints| =>
      SwcRow(k + 1, SectionSoma.Code(), m.somaPoints[k], m.somaDiameters[k] / 2.0,
             if k == 0 then -1 else SomaParent(chain, k + 1)))
  }

  /** The rows of one section, the first with id first and parent attach,
      each later one with the row before it as parent. */
  function SectionRows(m: Morphology, id: nat, first: int, attach: int): (rows: seq<SwcRow>)
    requires m.WellFormed() && id < m.forest.Count()
    ensures |rows| == Emitted(m, id)
  {
    var s, skip := m.sections[id], Skip(m, id);
    seq(Emitted(m, id), k requires 0 <= k < Emitted(m, id) =>
      SwcRow(first + k, s.kind.Code(), s.points[skip + k], s.diameters[skip + k] / 2.0,
             if k == 0 then attach else first + k - 1))
  }

  lemma SectionRowsElem(m: Morphology, id: nat, first: int, attach: int, k: nat)
    requires m.WellFormed() && id < m.forest.Count() && k < Emitted(m, id)
    ensures SectionRows(m, id, first, attach)[k] ==
      SwcRow(first + k, m.sections[id].kind.Code(), m.sections[id].points[Skip(m, id) + k],
             m.sections[id].diameters[Skip(m, id) + k] / 2.0, if k == 0 then attach else first + k - 1)
  {
  }

  /** The parent written for the first row of section id, looked up the way
      writer::swc does: row 1 for a root section, otherwise the id recorded
      for the parent section, 0 when none is recorded (operator[] on a
      missing key). */
  function FirstParent(m: Morphology, id: nat, newIds: map<nat, int>): int
    requires m.WellFormed() && id < m.forest.Count()
  {
    var parentId := m.forest.parent[id];
    if parentId != -1 then (if parentId as nat in newIds then newIds[parentId as nat] else 0) else 1
  }

  /** The newIds table after the first j sections of order: each of them
      mapped to the id of the last row written when it was done. */
  function NewIds(m: Morphology, order: seq<nat>, j: nat): map<nat, int>
    requires m.WellFormed() && m.forest.Within(order) && j <= |order|
  {
    if j == 0 then map[]
    else NewIds(m, order, j - 1)[order[j - 1] := |m.somaPoints| + RowsBefore(m, order, j)]
  }

  /** Where the first row of order[j] hangs. */
  function Attach(m: Morphology, order: seq<nat>, j: nat): int
    requires m.WellFormed() && m.forest.Within(order) && j < |order|
  {
    FirstParent(m, order[j], NewIds(m, order, j))
  }

  /** The rows of the first j sections of order. */
  function SectionsRows(m: Morphology, order: seq<nat>, j: nat): (rows: seq<SwcRow>)
    requires m.WellFormed() && m.forest.Within(order) && j <= |order|
  {
    if j == 0 then []
    else
      SectionsRows(m, order, j - 1)
        + SectionRows(m, order[j - 1], |m.somaPoints| + RowsBefore(m, order, j - 1) + 1,
                      Attach(m, order, j - 1))
  }

  lemma {:induction false} SectionsRowsLength(m: Morphology, order: seq<nat>, j: nat)
    requires m.WellFormed() && m.forest.Within(order) && j <= |order|
    ensures |SectionsRows(m, order, j)| == RowsBefore(m, order, j)
  {
    if j > 0 {
      SectionsRowsLength(m, order, j - 1);
    }
  }

  lemma SectionsRowsStep(m: Morphology, order: seq<nat>, j: nat)
    requires m.WellFormed() && m.forest.Within(order) && j < |order|
    ensures SectionsRows(m, order, j + 1) == SectionsRows(m, order, j) +
      SectionRows(m, order[j], |m.somaPoints| + RowsBefore(m, order, j) + 1, Attach(m, order, j))
    ensures NewIds(m, order, j + 1) == NewIds(m, order, j)[order[j] := |m.somaPoints| + RowsBefore(m, order, j + 1)]
  {
  }

  /** Every row the writer produces when it walks the sections in the
      given order. */
  function SwcRowsIn(m: Morphology, chain: SomaChain, order: seq<nat>): seq<SwcRow>
    requires m.WellFormed() && m.forest.Within(order)
  {
    SomaRows(m, chain) + SectionsRows(m, order, |order|)
  }

  /** Every row the writer produces: it walks the sections depth-first. */
  function SwcRows(m: Morphology, chain: SomaChain): seq<SwcRow>
    requires m.Valid()
  {
    SwcRowsIn(m, chain, DepthOrder(m.forest))
  }

  // ---------------------------------------------------------------------
  // What the rows mean
  // ---------------------------------------------------------------------

  /** Later sections start no earlier. */
  lemma {:induction false} RowsBeforeMonotone(m: Morphology, order: seq<nat>, i: nat, j: nat)
    requires m.WellFormed() && m.forest.Within(order) && i <= j <= |order|
    ensures RowsBefore(m, order, i) <= RowsBefore(m, order, j)
    decreases j - i
  {
    if i < j {
      RowsBeforeMonotone(m, order, i, j - 1);
    }
  }

  /** rows carry ids base + 1, base + 2, ..., each with an earlier row,
      at least row 1, as parent. */
  ghost predicate NumberedFrom(rows: seq<SwcRow>, base: int) {
    forall k :: 0 <= k < |rows| ==> rows[k].id == base + k + 1 && 1 <= rows[k].parent < rows[k].id
  }

  lemma NumberedConcat(a: seq<SwcRow>, b: seq<SwcRow>, base: int)
    requires NumberedFrom(a, base) && NumberedFrom(b, base + |a|)
    ensures NumberedFrom(a + b, base)
  {
    forall k | 0 <= k < |a + b|
      ensures (a + b)[k].id == base + k + 1 && 1 <= (a + b)[k].parent < (a + b)[k].id
    {
      if k < |a| {
        assert (a + b)[k] == a[k];
      } else {
        assert (a + b)[k] == b[k - |a|];
      }
    }
  }

  /** The rows of one section hanging on an earlier row are numbered on. */
  lemma SectionRowsNumbered(m: Morphology, id: nat, first: int, attach: int)
    requires m.WellFormed() && id < m.forest.Count() && 1 <= attach < first
    ensures NumberedFrom(SectionRows(m, id, first, attach), first - 1)
  {
    forall k | 0 <= k < Emitted(m, id)
      ensures SectionRows(m, id, first, attach)[k].id == first + k
      ensures 1 <= SectionRows(m, id, first, attach)[k].parent < first + k
    {
      SectionRowsElem(m, id, first, attach, k);
    }
  }

  /** In an order without repeats, newIds maps each section done to the id
      of the last row written up to and including it. */
  lemma {:induction false} NewIdsLookup(m: Morphology, order: seq<nat>, j: nat, i: nat)
    requires m.WellFormed() && m.forest.Within(order) && Distinct(order) && i < j <= |order|
    ensures order[i] in NewIds(m, order, j)
    ensures NewIds(m, order, j)[order[i]] == |m.somaPoints| + RowsBefore(m, order, i + 1)
  {
    if i < j - 1 {
      NewIdsLookup(m, order, j - 1, i);
      assert order[j - 1] != order[i];
    }
  }

  /** The first row of a root section hangs on row 1. */
  lemma AttachOfRoot(m: Morphology, order: seq<nat>, j: nat)
    requires m.WellFormed() && m.forest.Within(order) && j < |order| && m.IsRoot(order[j])
    ensures Attach(m, order, j) == 1
  {
  }

  /** The first row of any other section hangs on the last row written up
      to and including its parent, when the parent is listed earlier. */
  lemma AttachOfChild(m: Morphology, order: seq<nat>, j: nat, i: nat)
    requires m.WellFormed() && m.forest.Within(order) && Distinct(order)
    requires i < j < |order| && order[i] == m.forest.parent[order[j]]
    ensures Attach(m, order, j) == |m.somaPoints| + RowsBefore(m, order, i + 1)
  {
    NewIdsLookup(m, order, j, i);
  }

  /** The section rows are numbered on from the soma rows, and each row's
      parent is an earlier row, at least row 1. */
  lemma {:induction false} SectionsRowsShape(m: Morphology, order: seq<nat>, n: nat)
    requires m.WellFormed() && WriteOrder(m, order) && n <= |order| && |m.somaPoints| >= 1
    ensures |SectionsRows(m, order, n)| == RowsBefore(m, order, n)
    ensures NumberedFrom(SectionsRows(m, order, n), |m.somaPoints|)
  {
    SectionsRowsLength(m, order, n);
    if n > 0 {
      var j := n - 1;
      SectionsRowsShape(m, order, j);
      SectionsRowsLength(m, order, j);
      var first := |m.somaPoints| + RowsBefore(m, order, j) + 1;
      AttachBounds(m, order, j);
      SectionRowsNumbered(m, order[j], first, Attach(m, order, j));
      NumberedConcat(SectionsRows(m, order, j), SectionRows(m, order[j], first, Attach(m, order, j)), |m.somaPoints|);
    }
  }

  /** The first row of every section hangs on an earlier row, at least row 1. */
  lemma AttachBounds(m: Morphology, order: seq<nat>, j: nat)
    requires m.WellFormed() && WriteOrder(m, order) && j < |order| && |m.somaPoints| >= 1
    ensures 1 <= Attach(m, order, j) < |m.somaPoints| + RowsBefore(m, order, j) + 1
  {
    if !m.IsRoot(order[j]) {
      ParentIndex(m, order, j);
    var i := IndexOf(order, m.forest.parent[order[j]] as nat);
      AttachOfChild(m, order, j, i);
      RowsBeforeMonotone(m, order, i + 1, j);
    }
  }

  /** The rows of order[j] sit at positions RowsBefore(j) onwards. */
  lemma {:induction false} SectionsRowsAt(m: Morphology, order: seq<nat>, n: nat, j: nat, k: nat)
    requires m.WellFormed() && m.forest.Within(order) && j < n <= |order| && k < Emitted(m, order[j])
    ensures RowsBefore(m, order, j) + k < |SectionsRows(m, order, n)|
    ensures SectionsRows(m, order, n)[RowsBefore(m, order, j) + k] ==
            SectionRows(m, order[j], |m.somaPoints| + RowsBefore(m, order, j) + 1, Attach(m, order, j))[k]
  {
    SectionsRowsLength(m, order, n - 1);
    var done := SectionsRows(m, order, n - 1);
    var added := SectionRows(m, order[n - 1], |m.somaPoints| + RowsBefore(m, order, n - 1) + 1, Attach(m, order, n - 1));
    assert SectionsRows(m, order, n) == done + added;
    if j < n - 1 {
      SectionsRowsAt(m, order, n - 1, j, k);
      assert (done + added)[RowsBefore(m, order, j) + k] == done[RowsBefore(m, order, j) + k];
    } else {
      assert (done + added)[|done| + k] == added[k];
    }
  }

  /** Rows are numbered 1, 2, 3, ...: the soma rows, then the section rows;
      every row but the first soma row has an earlier row as parent, provided
      the soma rows after the first point to the row before them. */
  lemma SwcRowsNumbered(m: Morphology, chain: SomaChain, order: seq<nat>)
    requires m.WellFormed() && WriteOrder(m, order) && |m.somaPoints| >= 1
    ensures var rows := SwcRowsIn(m, chain, order);
      && |rows| == |m.somaPoints| + RowsBefore(m, order, |order|)
      && (forall k :: 0 <= k < |rows| ==> rows[k].id == k + 1)
      && rows[0].parent == -1
      && (forall k :: |m.somaPoints| <= k < |rows| ==> 1 <= rows[k].parent < rows[k].id)
      && (chain == PreviousRow ==> forall k :: 1 <= k < |rows| ==> 1 <= rows[k].parent < rows[k].id)
  {
    SectionsRowsShape(m, order, |order|);
    var soma: seq<SwcRow>, sections: seq<SwcRow> := SomaRows(m, chain), SectionsRows(m, order, |order|);
    assert forall k :: 0 <= k < |sections| ==> sections[k].id == |soma| + k + 1 && 1 <= sections[k].parent < sections[k].id;
    forall k | 0 <= k < |soma + sections|
      ensures (soma + sections)[k].id == k + 1
      ensures k >= |soma| || (chain == PreviousRow && k > 0) ==>
                1 <= (soma + sections)[k].parent < (soma + sections)[k].id
    {
      if k >= |soma| {
        assert (soma + sections)[k] == sections[k - |soma|];
      } else {
        assert (soma + sections)[k] == soma[k];
      }
    }
    assert (soma + sections)[0] == soma[0];
  }

  /** The soma rows carry the soma's points, typed SECTION_SOMA, with the
      radius half the diameter. */
  lemma SwcSomaRow(m: Morphology, chain: SomaChain, order: seq<nat>, k: nat)
    requires m.WellFormed() && WriteOrder(m, order) && k < |m.somaPoints|
    ensures k < |SwcRowsIn(m, chain, order)|
    ensures SwcRowsIn(m, chain, order)[k].kind == SectionSoma.Code()
    ensures SwcRowsIn(m, chain, order)[k].point == m.somaPoints[k]
    ensures SwcRowsIn(m, chain, order)[k].radius == m.somaDiameters[k] / 2.0
  {
    var soma: seq<SwcRow>, sections: seq<SwcRow> := SomaRows(m, chain), SectionsRows(m, order, |order|);
    assert (soma + sections)[k] == soma[k];
  }

  /** Row of the k-th point written for order[j]: a root section writes its
      points from the first, any other from the second; the first row
      written hangs on Attach (row 1 for a root section), every later one on
      the row before. */
  lemma SwcSectionRow(m: Morphology, chain: SomaChain, order: seq<nat>, j: nat, k: nat)
    requires m.WellFormed() && m.forest.Within(order) && j < |order| && k < Emitted(m, order[j])
    ensures var r := |m.somaPoints| + RowsBefore(m, order, j) + k;
      var s := m.sections[order[j]];
      && r < |SwcRowsIn(m, chain, order)|
      && SwcRowsIn(m, chain, order)[r] ==
           SwcRow(r + 1, s.kind.Code(), s.points[Skip(m, order[j]) + k],
                  s.diameters[Skip(m, order[j]) + k] / 2.0, if k > 0 then r else Attach(m, order, j))
    ensures m.IsRoot(order[j]) ==> Skip(m, order[j]) == 0 && Attach(m, order, j) == 1
  {
    SectionsRowsAt(m, order, |order|, j, k);
    var first := |m.somaPoints| + RowsBefore(m, order, j) + 1;
    SectionRowsElem(m, order[j], first, Attach(m, order, j), k);
    var soma: seq<SwcRow>, sections: seq<SwcRow> := SomaRows(m, chain), SectionsRows(m, order, |order|);
    var r := first - 1 + k;
    assert (soma + sections)[r] == sections[r - |soma|];
  }

  /** The last row written up to and including order[i], when order[i]
      writes a row, is the one carrying its last point. */
  lemma SwcLastRowOf(m: Morphology, chain: SomaChain, order: seq<nat>, i: nat, a: int)
    requires m.WellFormed() && m.forest.Within(order) && i < |order| && Emitted(m, order[i]) > 0
    requires a == |m.somaPoints| + RowsBefore(m, order, i + 1)
    ensures 1 <= a <= |SwcRowsIn(m, chain, order)|
    ensures SwcRowsIn(m, chain, order)[a - 1].id == a
    ensures SwcRowsIn(m, chain, order)[a - 1].point == m.sections[order[i]].points[|m.sections[order[i]].points| - 1]
  {
    var last := Emitted(m, order[i]) - 1;
    SwcSectionRow(m, chain, order, i, last);
  }

  /** The first row of a non-root section hangs on the row that carries the
      last point of its parent section, whenever the parent wrote a row:
      that point is the one the child's skipped first point repeats. */
  lemma SwcAttachesToParentEnd(m: Morphology, chain: SomaChain, order: seq<nat>, j: nat)
    requires m.WellFormed() && WriteOrder(m, order) && j < |order| && !m.IsRoot(order[j])
    requires Emitted(m, m.forest.parent[order[j]] as nat) > 0
    ensures var p, a := m.forest.parent[order[j]] as nat, Attach(m, order, j);
      && 1 <= a <= |SwcRowsIn(m, chain, order)|
      && SwcRowsIn(m, chain, order)[a - 1].id == a
      && SwcRowsIn(m, chain, order)[a - 1].point == m.sections[p].points[|m.sections[p].points| - 1]
  {
    ParentIndex(m, order, j);
    var i := IndexOf(order, m.forest.parent[order[j]] as nat);
    AttachOfChild(m, order, j, i);
    SwcLastRowOf(m, chain, order, i, Attach(m, order, j));
  }

  // ---------------------------------------------------------------------
  // A parent that wrote no row
  // ---------------------------------------------------------------------

  /** Every section has a point, as writer::swc asserts of each section. */
  ghost predicate NoEmptySection(m: Morphology)
    requires m.WellFormed()
  {
    forall id :: 0 <= id < |m.sections| ==> |m.sections[id].points| > 0
  }

  /** The first point of a non-root section repeats the last point of its
      parent: the point writer::swc skips. */
  ghost predicate JoinedToParent(m: Morphology, id: nat)
    requires m.WellFormed() && id < m.forest.Count() && !m.IsRoot(id)
  {
    var ps, qs := m.sections[id].points, m.sections[m.forest.parent[id]].points;
    |ps| > 0 && |qs| > 0 ==> ps[0] == qs[|qs| - 1]
  }

  ghost predicate Joined(m: Morphology)
    requires m.WellFormed()
  {
    forall id :: 0 <= id < |m.sections| && !m.IsRoot(id) ==> JoinedToParent(m, id)
  }

  /** As written, the first row of a section whose parent wrote no row (a
      non-root parent with a single point) hangs on the last row written
      before that parent, whichever section wrote it. */
  lemma AttachPastSilentParent(m: Morphology, order: seq<nat>, j: nat)
    requires m.WellFormed() && WriteOrder(m, order) && j < |order| && !m.IsRoot(order[j])
    requires Emitted(m, m.forest.parent[order[j]] as nat) == 0
    ensures m.forest.parent[order[j]] as nat in order
    ensures var i := IndexOf(order, m.forest.parent[order[j]] as nat);
      i < j && Attach(m, order, j) == |m.somaPoints| + RowsBefore(m, order, i)
  {
    ParentIndex(m, order, j);
    var i := IndexOf(order, m.forest.parent[order[j]] as nat);
    AttachOfChild(m, order, j, i);
  }

  /** The row carrying the last point of order[i]: its own last row when it
      wrote one; for a non-root section that wrote none, the row carrying
      its parent's last point, which its one point repeats; row 1 for a
      root section without points. */
  function EndRow(m: Morphology, order: seq<nat>, i: nat): int
    requires m.WellFormed() && WriteOrder(m, order) && i < |order|
    decreases i
  {
    if Emitted(m, order[i]) > 0 then |m.somaPoints| + RowsBefore(m, order, i + 1)
    else if m.IsRoot(order[i]) then 1
    else
      ParentIndex(m, order, i);
      EndRow(m, order, IndexOf(order, m.forest.parent[order[i]] as nat))
  }

  /** Where the first row of order[j] should hang: row 1 for a root section,
      otherwise the row carrying its parent's last point, which is the last
      row of the nearest ancestor that wrote a row. */
  function IntendedAttach(m: Morphology, order: seq<nat>, j: nat): int
    requires m.WellFormed() && WriteOrder(m, order) && j < |order|
  {
    if m.IsRoot(order[j]) then 1
    else
      ParentIndex(m, order, j);
      EndRow(m, order, IndexOf(order, m.forest.parent[order[j]] as nat))
  }

  /** EndRow names a row written no later than order[i]'s last one, and
      that row carries order[i]'s last point. */
  lemma {:induction false} EndRowCarriesLastPoint(m: Morphology, chain: SomaChain, order: seq<nat>, i: nat)
    requires m.WellFormed() && WriteOrder(m, order) && i < |order|
    requires NoEmptySection(m) && Joined(m)
    ensures var r, ps := EndRow(m, order, i), m.sections[order[i]].points;
      && 1 <= r <= |m.somaPoints| + RowsBefore(m, order, i + 1)
      && r <= |SwcRowsIn(m, chain, order)|
      && SwcRowsIn(m, chain, order)[r - 1].point == ps[|ps| - 1]
    decreases i
  {
    if Emitted(m, order[i]) > 0 {
      SwcLastRowOf(m, chain, order, i, EndRow(m, order, i));
    } else {
      assert |m.sections[order[i]].points| > 0;
      ParentIndex(m, order, i);
      var p := IndexOf(order, m.forest.parent[order[i]] as nat);
      assert JoinedToParent(m, order[i]);
      EndRowCarriesLastPoint(m, chain, order, p);
      RowsBeforeMonotone(m, order, p + 1, i + 1);
    }
  }

  /** With the corrected attachment, the first row of every non-root
      section hangs on an earlier row that carries its parent's last point,
      the very point the section's skipped first point repeats, whether or
      not the parent wrote a row of its own. */
  lemma IntendedAttachCarriesParentEnd(m: Morphology, chain: SomaChain, order: seq<nat>, j: nat)
    requires m.WellFormed() && WriteOrder(m, order) && j < |order| && !m.IsRoot(order[j])
    requires NoEmptySection(m) && Joined(m)
    ensures var p, a := m.forest.parent[order[j]] as nat, IntendedAttach(m, order, j);
      && 1 <= a <= |m.somaPoints| + RowsBefore(m, order, j)
      && a <= |SwcRowsIn(m, chain, order)|
      && SwcRowsIn(m, chain, order)[a - 1].point == m.sections[p].points[|m.sections[p].points| - 1]
      && SwcRowsIn(m, chain, order)[a - 1].point == m.sections[order[j]].points[0]
  {
    ParentIndex(m, order, j);
    var i := IndexOf(order, m.forest.parent[order[j]] as nat);
    EndRowCarriesLastPoint(m, chain, order, i);
    RowsBeforeMonotone(m, order, i + 1, j);
    assert JoinedToParent(m, order[j]);
  }

  /** Wherever the parent wrote a row, the writer already attaches as
      intended. */
  lemma AttachAsIntended(m: Morphology, order: seq<nat>, j: nat)
    requires m.WellFormed() && WriteOrder(m, order) && j < |order|
    requires !m.IsRoot(order[j]) ==> Emitted(m, m.forest.parent[order[j]] as nat) > 0
    ensures Attach(m, order, j) == IntendedAttach(m, order, j)
  {
    if !m.IsRoot(order[j]) {
      ParentIndex(m, order, j);
      AttachOfChild(m, order, j, IndexOf(order, m.forest.parent[order[j]] as nat));
    }
  }

  /** Connectivity of a cell with one dendrite: the root R (0) has children
      P1 (1) and P2 (2), and P2 has a child C (3). */
  function OnePointParentForest(): Forest {
    Forest([-1, 0, 0, 2], [[1, 2], [], [3], []], [0])
  }

  /** The cell itself: R = [a, b], P1 = [b, c], P2 = [b] and C = [b, d]. */
  function OnePointParentCell(): Morphology {
    var a, b, c, d := Point(0.0, 0.0, 0.0), Point(1.0, 0.0, 0.0), Point(2.0, 0.0, 0.0), Point(3.0, 0.0, 0.0);
    Morphology([Point(0.0, 0.0, -1.0)], [1.0], OnePointParentForest(),
      [Section(SectionDendrite, [a, b], [1.0, 1.0]), Section(SectionDendrite, [b, c], [1.0, 1.0]),
       Section(SectionDendrite, [b], [1.0]), Section(SectionDendrite, [b, d], [1.0, 1.0])])
  }

  lemma OnePointParentForestValid()
    ensures OnePointParentForest().Valid()
  {
    OnePointParentChildren();
    OnePointParentListed();
  }

  lemma OnePointParentChildren()
    ensures OnePointParentForest().ChildrenPointBack()
  {
    var f := OnePointParentForest();
    forall i, k | 0 <= i < |f.children| && 0 <= k < |f.children[i]|
      ensures i < f.children[i][k] < |f.parent| && f.parent[f.children[i][k]] == i
    {
      assert i in {0, 2};
    }
  }

  lemma OnePointParentListed()
    ensures OnePointParentForest().ChildrenListed()
  {
    var p, c := OnePointParentForest().parent, OnePointParentForest().children;
    forall j | 0 <= j < |p| && 0 <= p[j] < |c| ensures j in c[p[j]] {
      if j == 3 { assert c[2] == [3]; } else { assert c[0] == [1, 2]; }
    }
  }

  lemma OnePointParentCellValid()
    ensures OnePointParentCell().Valid()
    ensures NoEmptySection(OnePointParentCell()) && Joined(OnePointParentCell())
  {
    OnePointParentForestValid();
    var m := OnePointParentCell();
    assert m.WellFormed();
    forall id | 0 <= id < |m.sections| && !m.IsRoot(id) ensures JoinedToParent(m, id) {
      assert id in {1, 2, 3};
    }
  }

  /** The writer walks the cell as R, P1, P2, C. */
  lemma OnePointParentCellOrder()
    ensures OnePointParentForest().Valid()
    ensures DepthOrder(OnePointParentForest()) == [0, 1, 2, 3]
  {
    OnePointParentForestValid();
    OnePointParentDepth(OnePointParentForest());
  }

  lemma OnePointParentDepth(f: Forest)
    requires f.Valid() && f.children == [[1, 2], [], [3], []] && f.roots == [0]
    ensures DepthOrder(f) == [0, 1, 2, 3]
  {
    OnePointParentBelowRoot(f);
    DepthFromSection(f, 0);
  }

  /** Below R, the stack [1, 2] runs out as P1, P2, C. */
  lemma OnePointParentBelowRoot(f: Forest)
    requires f.Valid() && f.children == [[1, 2], [], [3], []]
    ensures DepthFrom(f, [1, 2]) == [1, 2, 3]
  {
    DepthFromSection(f, 3);
    DepthFromSection(f, 2);
    assert DepthFrom(f, [2]) == [2, 3];
    DepthFromSection(f, 1);
    DepthFromAppend(f, [1], [2]);
    assert [1] + [2] == [1, 2];
  }

  /** Any cell connected like the one above, with its point counts. */
  ghost predicate ShapedLikeOnePointParent(m: Morphology) {
    && m.Valid()
    && DepthOrder(m.forest) == [0, 1, 2, 3]
    && m.forest.parent == [-1, 0, 0, 2]
    && |m.somaPoints| == 1
    && |m.sections[0].points| == 2 && |m.sections[1].points| == 2
    && |m.sections[2].points| == 1 && |m.sections[3].points| == 2
  }

  lemma OnePointParentShape()
    ensures ShapedLikeOnePointParent(OnePointParentCell())
  {
    OnePointParentCellValid();
    OnePointParentCellOrder();
  }

  /** The rows of such a cell: R writes rows 2 and 3, P1 row 4, P2 none,
      and C row 5, hung on row 4. */
  lemma ShapedRows(m: Morphology, chain: SomaChain)
    requires ShapedLikeOnePointParent(m)
    ensures var rows := SwcRows(m, chain);
      && |rows| == 5
      && rows[4].id == 5 && rows[4].parent == 4
      && rows[3].id == 4 && rows[3].point == m.sections[1].points[1]
      && rows[2].id == 3 && rows[2].point == m.sections[0].points[1]
  {
    var order := [0, 1, 2, 3];
    DepthOrderIsWriteOrder(m);
    SectionsRowsLength(m, order, 4);
    SwcSectionRow(m, chain, order, 3, 0);
    AttachOfChild(m, order, 3, 2);
    SwcSectionRow(m, chain, order, 1, 0);
    SwcSectionRow(m, chain, order, 0, 1);
  }

  /** In such a cell the corrected attachment hangs C on row 3, R's last row. */
  lemma ShapedIntended(m: Morphology)
    requires ShapedLikeOnePointParent(m)
    ensures WriteOrder(m, [0, 1, 2, 3])
    ensures IntendedAttach(m, [0, 1, 2, 3], 3) == 3
  {
    var order := [0, 1, 2, 3];
    DepthOrderIsWriteOrder(m);
    IndexOfDistinct(order, 2);
    IndexOfDistinct(order, 0);
    assert Emitted(m, 2) == 0 && Emitted(m, 0) == 2;
    assert RowsBefore(m, order, 1) == 2;
    assert EndRow(m, order, 0) == 3;
    assert EndRow(m, order, 2) == 3;
  }

  /** As written, C's first row (row 5, point d) hangs on row 4, which
      carries P1's last point c: a sibling of P2, and not the point b that
      P2 ends with and C starts with. The intended parent is row 3, R's
      last row, which carries b. */
  lemma SwcOnePointParentMisattached(chain: SomaChain)
    ensures OnePointParentCell().Valid()
    ensures var m := OnePointParentCell();
      var rows, b := SwcRows(m, chain), m.sections[2].points[0];
      && DepthOrder(m.forest) == [0, 1, 2, 3] && WriteOrder(m, [0, 1, 2, 3])
      && |rows| == 5
      && rows[4].id == 5 && rows[4].parent == 4
      && rows[3].id == 4 && rows[3].point == m.sections[1].points[1] != b
      && IntendedAttach(m, [0, 1, 2, 3], 3) == 3
      && rows[2].id == 3 && rows[2].point == b
  {
    var m := OnePointParentCell();
    OnePointParentShape();
    ShapedRows(m, chain);
    ShapedIntended(m);
  }

  /** The inner loop of writer::swc: the rows of one section, numbered from
      segmentIdOnDisk, and the next free row id. */
  method WriteSection(m: Morphology, id: nat, newIds: map<nat, int>, segmentIdOnDisk: int)
    returns (rows: seq<SwcRow>, next: int)
    requires m.WellFormed() && id < m.forest.Count()
    ensures next == segmentIdOnDisk + Emitted(m, id)
    ensures rows == SectionRows(m, id, segmentIdOnDisk, FirstParent(m, id, newIds))
  {
    var section := m.sections[id];
    var isRootSection := m.forest.parent[id] < 0;
    var k := if isRootSection then 0 else 1;
    ghost var n := 0;
    rows, next := [], segmentIdOnDisk;
    while k < |section.points|
      invariant k == Skip(m, id) + n && 0 <= n <= Emitted(m, id)
      invariant next == segmentIdOnDisk + n
      invariant rows == SectionRows(m, id, segmentIdOnDisk, FirstParent(m, id, newIds))[..n]
    {
      var parent: int;
      if k > (if isRootSection then 0 else 1) {
        parent := next - 1;
      } else {
        var parentId := m.forest.parent[id];
        parent := if parentId != -1 then (if parentId as nat in newIds then newIds[parentId as nat] else 0) else 1;
      }
      rows := rows + [SwcRow(next, section.kind.Code(), section.points[k],
                             section.diameters[k] / 2.0, parent)];
      next := next + 1;
      k := k + 1;
      n := n + 1;
    }
  }

  /** The soma loop of writer::swc. */
  method WriteSoma(m: Morphology, chain: SomaChain) returns (rows: seq<SwcRow>)
    requires m.WellFormed()
    ensures rows == SomaRows(m, chain)
  {
    rows := [];
    var segmentIdOnDisk := 1;
    var i := 0;
    while i < |m.somaPoints|
      invariant 0 <= i <= |m.somaPoints| && segmentIdOnDisk == i + 1
      invariant rows == SomaRows(m, chain)[..i]
    {
      var parent := if i == 0 then -1 else SomaParent(chain, segmentIdOnDisk);
      rows := rows + [SwcRow(segmentIdOnDisk, SectionSoma.Code(), m.somaPoints[i],
                             m.somaDiameters[i] / 2.0, parent)];
      segmentIdOnDisk := segmentIdOnDisk + 1;
      i := i + 1;
    }
  }

  /** The section loop of writer::swc: the sections in the given order,
      row ids continuing from segmentIdOnDisk, which follows the soma rows. */
  method WriteSections(m: Morphology, order: seq<nat>, segmentIdOnDisk: int) returns (rows: seq<SwcRow>)
    requires m.WellFormed() && m.forest.Within(order) && segmentIdOnDisk == |m.somaPoints| + 1
    ensures rows == SectionsRows(m, order, |order|)
  {
    rows := [];
    var next := segmentIdOnDisk;
    var newIds: map<nat, int> := map[];
    var j := 0;
    while j < |order|
      invariant 0 <= j <= |order|
      invariant next == |m.somaPoints| + RowsBefore(m, order, j) + 1
      invariant rows == SectionsRows(m, order, j)
      invariant newIds == NewIds(m, order, j)
    {
      var id := order[j];
      var sectionRows, after := WriteSection(m, id, newIds, next);
      SectionsRowsStep(m, order, j);
      rows := rows + sectionRows;
      next := after;
      newIds := newIds[id := next - 1];
      j := j + 1;
    }
  }

  /** writer::swc, from the soma check to the last row; the header lines and
      the file are left to the caller. The sections are taken in the order
      the depth-first iterator over the morphology yields them. */
  method Swc(m: Morphology, chain: SomaChain) returns (r: Written<seq<SwcRow>>)
    requires m.Valid()
    ensures r.WriterError? <==> |m.somaPoints| == 0
    ensures r.WriterError? ==> r.failure == WriteNoSoma
    ensures r.Written? ==> r.value == SwcRows(m, chain)
  {
    if |m.somaPoints| < 1 {
      return WriterError(WriteNoSoma);
    }
    var somaRows := WriteSoma(m, chain);
    var it := new SectionIterator.FromMorphology(m.forest, DepthFirst);
    var end := new SectionIterator.End(m.forest, DepthFirst);
    var order := Collect(it, end);
    var sectionRows := WriteSections(m, order, |m.somaPoints| + 1);
    return Written(somaRows + sectionRows);
  }
}
