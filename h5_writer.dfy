/** The HDF5 writer (writer::h5 in src/mut/writers.cpp): the two tables it
    fills before handing them to the HDF5 library. /points holds one row
    (x, y, z, diameter) per point: the soma's points, then every point of
    every section in depth-first order, none skipped. /structure holds one
    row (offset, parent, type) per section, preceded by the soma's row
    (0, -1, SECTION_SOMA): offset is the section's first row in /points and
    parent is the /structure row of its parent section, 0 (the soma) for a
    root section. */
module H5Writer {
  import opened Iterators
  import opened MutMorphology
  import opened WriterResults

  /** A row of /points. */
  datatype PointRow = PointRow(x: real, y: real, z: real, diameter: real)

  /** A row of /structure. */
  datatype StructureRow = StructureRow(offset: int, parent: int, kind: int)

  datatype H5Tables = H5Tables(points: seq<PointRow>, structure: seq<StructureRow>)

  function Row(p: Point, diameter: real): PointRow {
    PointRow(p.x, p.y, p.z, diameter)
  }

  /** The row describing the soma, always the first of /structure. */
  function SomaStructureRow(): StructureRow {
    StructureRow(0, -1, SectionSoma.Code())
  }

  /** The /points rows of the soma. */
  function SomaPointRows(m: Morphology): (rows: seq<PointRow>)
    requires m.WellFormed()
    ensures |rows| == |m.somaPoints|
  {
    seq(|m.somaPoints|, k requires 0 <= k < |m.somaPoints| => Row(m.somaPoints[k], m.somaDiameters[k]))
  }

  /** The /points rows of one section: every one of its points. */
  function SectionPointRows(m: Morphology, id: nat): (rows: seq<PointRow>)
    requires m.WellFormed() && id < m.forest.Count()
    ensures |rows| == |m.sections[id].points|
  {
    var s := m.sections[id];
    seq(|s.points|, k requires 0 <= k < |s.points| => Row(s.points[k], s.diameters[k]))
  }

  /** The newIds table of writer::h5 after the first j sections of order:
      each mapped to its /structure row. */
  function DiskIds(m: Morphology, order: seq<nat>, j: nat): map<nat, int>
    requires m.WellFormed() && m.forest.Within(order) && j <= |order|
  {
    if j == 0 then map[] else DiskIds(m, order, j - 1)[order[j - 1] := j]
  }

  /** The parent row written for section id, looked up the way writer::h5
      does: 0 for a root section, otherwise the row recorded for the parent
      section, 0 when none is recorded (operator[] on a missing key). */
  function ParentOnDisk(m: Morphology, id: nat, newIds: map<nat, int>): int
    requires m.WellFormed() && id < m.forest.Count()
  {
    var parentId := m.forest.parent[id];
    if parentId != -1 then (if parentId as nat in newIds then newIds[parentId as nat] else 0) else 0
  }

  /** The /structure row of order[j]. */
  function StructureRowOf(m: Morphology, order: seq<nat>, j: nat): StructureRow
    requires m.WellFormed() && m.forest.Within(order) && j < |order|
  {
    StructureRow(|m.somaPoints| + PointsBefore(m, order, j),
                 ParentOnDisk(m, order[j], DiskIds(m, order, j)),
                 m.sections[order[j]].kind.Code())
  }

  /** The /structure rows of the first j sections of order. */
  function StructureRows(m: Morphology, order: seq<nat>, j: nat): (rows: seq<StructureRow>)
    requires m.WellFormed() && m.forest.Within(order) && j <= |order|
    ensures |rows| == j
  {
    if j == 0 then [] else StructureRows(m, order, j - 1) + [StructureRowOf(m, order, j - 1)]
  }

  /** The /points rows of the first j sections of order. */
  function SectionsPointRows(m: Morphology, order: seq<nat>, j: nat): seq<PointRow>
    requires m.WellFormed() && m.forest.Within(order) && j <= |order|
  {
    if j == 0 then [] else SectionsPointRows(m, order, j - 1) + SectionPointRows(m, order[j - 1])
  }

  /** Both tables, when the sections are walked in the given order. */
  function H5TablesIn(m: Morphology, order: seq<nat>): H5Tables
    requires m.WellFormed() && m.forest.Within(order)
  {
    H5Tables(SomaPointRows(m) + SectionsPointRows(m, order, |order|),
             [SomaStructureRow()] + StructureRows(m, order, |order|))
  }

  /** Both tables as writer::h5 fills them: it walks the sections depth-first. */
  function H5TablesOf(m: Morphology): H5Tables
    requires m.Valid()
  {
    H5TablesIn(m, DepthOrder(m.forest))
  }

  // ---------------------------------------------------------------------
  // What the tables mean
  // ---------------------------------------------------------------------

  lemma {:induction false} SectionsPointRowsLength(m: Morphology, order: seq<nat>, j: nat)
    requires m.WellFormed() && m.forest.Within(order) && j <= |order|
    ensures |SectionsPointRows(m, order, j)| == PointsBefore(m, order, j)
  {
    if j > 0 {
      SectionsPointRowsLength(m, order, j - 1);
    }
  }

  /** In an order without repeats, newIds maps each section done to its
      /structure row: one more than its position in the order. */
  lemma {:induction false} DiskIdsLookup(m: Morphology, order: seq<nat>, j: nat, i: nat)
    requires m.WellFormed() && m.forest.Within(order) && Distinct(order) && i < j <= |order|
    ensures order[i] in DiskIds(m, order, j)
    ensures DiskIds(m, order, j)[order[i]] == i + 1
  {
    if i < j - 1 {
      DiskIdsLookup(m, order, j - 1, i);
      assert order[j - 1] != order[i];
    }
  }

  /** A root section hangs on the soma's row 0; any other section on the
      row of its parent, which is an earlier row. */
  lemma ParentOnDiskMeaning(m: Morphology, order: seq<nat>, j: nat)
    requires m.WellFormed() && WriteOrder(m, order) && j < |order|
    ensures m.IsRoot(order[j]) ==> ParentOnDisk(m, order[j], DiskIds(m, order, j)) == 0
    ensures !m.IsRoot(order[j]) ==>
      && m.forest.parent[order[j]] as nat in order
      && IndexOf(order, m.forest.parent[order[j]] as nat) < j
      && ParentOnDisk(m, order[j], DiskIds(m, order, j)) == IndexOf(order, m.forest.parent[order[j]] as nat) + 1
  {
    if !m.IsRoot(order[j]) {
      ParentIndex(m, order, j);
      DiskIdsLookup(m, order, j, IndexOf(order, m.forest.parent[order[j]] as nat));
    }
  }

  lemma {:induction false} StructureRowsElem(m: Morphology, order: seq<nat>, n: nat, j: nat)
    requires m.WellFormed() && m.forest.Within(order) && j < n <= |order|
    ensures StructureRows(m, order, n)[j] == StructureRowOf(m, order, j)
  {
    if j < n - 1 {
      StructureRowsElem(m, order, n - 1, j);
    }
  }

  /** The rows of order[j] sit at positions PointsBefore(j) onwards. */
  lemma {:induction false} SectionsPointRowsAt(m: Morphology, order: seq<nat>, n: nat, j: nat, i: nat)
    requires m.WellFormed() && m.forest.Within(order) && j < n <= |order| && i < |m.sections[order[j]].points|
    ensures PointsBefore(m, order, j) + i < |SectionsPointRows(m, order, n)|
    ensures SectionsPointRows(m, order, n)[PointsBefore(m, order, j) + i] ==
            Row(m.sections[order[j]].points[i], m.sections[order[j]].diameters[i])
  {
    SectionsPointRowsLength(m, order, n - 1);
    var done := SectionsPointRows(m, order, n - 1);
    var added := SectionPointRows(m, order[n - 1]);
    assert SectionsPointRows(m, order, n) == done + added;
    if j < n - 1 {
      SectionsPointRowsAt(m, order, n - 1, j, i);
      assert (done + added)[PointsBefore(m, order, j) + i] == done[PointsBefore(m, order, j) + i];
    } else {
      assert (done + added)[|done| + i] == added[i];
    }
  }

  /** /structure has the soma's row and then one row per section, in the
      order walked: its first point row, its type code, and as parent row 0
      for a root section or else the row of its parent section, an earlier
      row. */
  lemma H5StructureRow(m: Morphology, order: seq<nat>, j: nat)
    requires m.WellFormed() && WriteOrder(m, order) && j < |order|
    ensures var t := H5TablesIn(m, order).structure;
      && |t| == |order| + 1
      && t[0] == StructureRow(0, -1, 1)
      && t[j + 1].offset == |m.somaPoints| + PointsBefore(m, order, j)
      && t[j + 1].kind == m.sections[order[j]].kind.Code()
      && (m.IsRoot(order[j]) ==> t[j + 1].parent == 0)
      && (!m.IsRoot(order[j]) ==>
            1 <= t[j + 1].parent <= j && order[t[j + 1].parent - 1] == m.forest.parent[order[j]])
  {
    var rows := StructureRows(m, order, |order|);
    StructureRowsElem(m, order, |order|, j);
    assert ([SomaStructureRow()] + rows)[j + 1] == rows[j];
    ParentOnDiskMeaning(m, order, j);
  }

  /** The /structure row of order[j] records where its points start. */
  lemma H5Offset(m: Morphology, order: seq<nat>, j: nat)
    requires m.WellFormed() && m.forest.Within(order) && j < |order|
    ensures |H5TablesIn(m, order).structure| == |order| + 1
    ensures H5TablesIn(m, order).structure[j + 1].offset == |m.somaPoints| + PointsBefore(m, order, j)
  {
    var rows := StructureRows(m, order, |order|);
    StructureRowsElem(m, order, |order|, j);
    assert ([SomaStructureRow()] + rows)[j + 1] == rows[j];
  }

  /** Point i of order[j] is the row of /points at the offset recorded for
      order[j], plus i; the soma's points come first. */
  lemma H5PointRow(m: Morphology, order: seq<nat>, j: nat, i: nat)
    requires m.WellFormed() && m.forest.Within(order) && j < |order| && i < |m.sections[order[j]].points|
    ensures var t := H5TablesIn(m, order);
      && 0 <= t.structure[j + 1].offset
      && t.structure[j + 1].offset + i < |t.points|
      && t.points[t.structure[j + 1].offset + i] ==
           Row(m.sections[order[j]].points[i], m.sections[order[j]].diameters[i])
  {
    H5Offset(m, order, j);
    SectionsPointRowsAt(m, order, |order|, j, i);
    var soma, sections := SomaPointRows(m), SectionsPointRows(m, order, |order|);
    var r := PointsBefore(m, order, j) + i;
    assert (soma + sections)[|soma| + r] == sections[r];
  }

  lemma H5SomaPointRow(m: Morphology, order: seq<nat>, k: nat)
    requires m.WellFormed() && m.forest.Within(order) && k < |m.somaPoints|
    ensures k < |H5TablesIn(m, order).points|
    ensures H5TablesIn(m, order).points[k] == Row(m.somaPoints[k], m.somaDiameters[k])
  {
    var soma, sections := SomaPointRows(m), SectionsPointRows(m, order, |order|);
    assert (soma + sections)[k] == soma[k];
  }

  /** The points of order[j] run from its offset up to the next section's
      offset, or to the end of /points for the last section, which is how
      a reader of the file cuts /points back into sections. */
  lemma H5SectionSpan(m: Morphology, order: seq<nat>, j: nat)
    requires m.WellFormed() && m.forest.Within(order) && j < |order|
    ensures var t := H5TablesIn(m, order);
      var lo, hi := t.structure[j + 1].offset, if j + 1 < |order| then t.structure[j + 2].offset else |t.points|;
      && 0 <= lo <= hi <= |t.points|
      && t.points[lo..hi] == SectionPointRows(m, order[j])
  {
    var t := H5TablesIn(m, order);
    H5Offset(m, order, j);
    H5SectionEnd(m, order, j);
    var lo := t.structure[j + 1].offset;
    var rows := SectionPointRows(m, order[j]);
    forall i | 0 <= i < |rows| ensures t.points[lo + i] == rows[i] {
      H5PointRow(m, order, j, i);
    }
    SliceOf(t.points, lo, rows);
  }

  /** Where the points of order[j] end: at the next section's offset, or at
      the end of /points for the last section. */
  lemma H5SectionEnd(m: Morphology, order: seq<nat>, j: nat)
    requires m.WellFormed() && m.forest.Within(order) && j < |order|
    ensures var t := H5TablesIn(m, order);
      var end := t.structure[j + 1].offset + |m.sections[order[j]].points|;
      && |t.structure| == |order| + 1
      && end <= |t.points|
      && (if j + 1 < |order| then t.structure[j + 2].offset else |t.points|) == end
  {
    H5Offset(m, order, j);
    SectionsPointRowsLength(m, order, |order|);
    if j + 1 < |order| {
      H5Offset(m, order, j + 1);
      PointsBeforeMonotone(m, order, j + 1, |order|);
    }
  }

  lemma SliceOf<T>(s: seq<T>, lo: nat, part: seq<T>)
    requires lo + |part| <= |s| && forall i :: 0 <= i < |part| ==> s[lo + i] == part[i]
    ensures s[lo..lo + |part|] == part
  {
  }

  lemma {:induction false} PointsBeforeMonotone(m: Morphology, order: seq<nat>, i: nat, j: nat)
    requires m.WellFormed() && m.forest.Within(order) && i <= j <= |order|
    ensures PointsBefore(m, order, i) <= PointsBefore(m, order, j)
    decreases j - i
  {
    if i < j {
      PointsBeforeMonotone(m, order, i, j - 1);
    }
  }

  /** /points holds exactly the soma's points and every section's points. */
  lemma H5PointCount(m: Morphology, order: seq<nat>)
    requires m.WellFormed() && m.forest.Within(order)
    ensures |H5TablesIn(m, order).points| == |m.somaPoints| + PointsBefore(m, order, |order|)
  {
    SectionsPointRowsLength(m, order, |order|);
  }

  // ---------------------------------------------------------------------
  // The writer
  // ---------------------------------------------------------------------

  /** The soma loop of writer::h5. */
  method WriteSomaPoints(m: Morphology) returns (rawPoints: seq<PointRow>)
    requires m.WellFormed()
    ensures rawPoints == SomaPointRows(m)
  {
    rawPoints := [];
    var i := 0;
    while i < |m.somaPoints|
      invariant 0 <= i <= |m.somaPoints|
      invariant rawPoints == SomaPointRows(m)[..i]
    {
      rawPoints := rawPoints + [Row(m.somaPoints[i], m.somaDiameters[i])];
      i := i + 1;
    }
  }

  /** The inner loop of writer::h5: the points of one section appended. */
  method AppendSectionPoints(m: Morphology, id: nat, rawPoints: seq<PointRow>) returns (after: seq<PointRow>)
    requires m.WellFormed() && id < m.forest.Count()
    ensures after == rawPoints + SectionPointRows(m, id)
  {
    var section := m.sections[id];
    after := rawPoints;
    var i := 0;
    while i < |section.points|
      invariant 0 <= i <= |section.points|
      invariant after == rawPoints + SectionPointRows(m, id)[..i]
    {
      after := after + [Row(section.points[i], section.diameters[i])];
      i := i + 1;
    }
  }

  lemma H5SectionsStep(m: Morphology, order: seq<nat>, j: nat)
    requires m.WellFormed() && m.forest.Within(order) && j < |order|
    ensures StructureRows(m, order, j + 1) == StructureRows(m, order, j) + [StructureRowOf(m, order, j)]
    ensures SectionsPointRows(m, order, j + 1) == SectionsPointRows(m, order, j) + SectionPointRows(m, order[j])
    ensures DiskIds(m, order, j + 1) == DiskIds(m, order, j)[order[j] := j + 1]
    ensures PointsBefore(m, order, j + 1) == PointsBefore(m, order, j) + |m.sections[order[j]].points|
  {
  }

  /** The section loop of writer::h5, from the soma's rows onwards. */
  method WriteH5Sections(m: Morphology, order: seq<nat>, somaPoints: seq<PointRow>)
    returns (rawPoints: seq<PointRow>, rawStructure: seq<StructureRow>)
    requires m.WellFormed() && m.forest.Within(order) && |somaPoints| == |m.somaPoints|
    ensures rawPoints == somaPoints + SectionsPointRows(m, order, |order|)
    ensures rawStructure == [SomaStructureRow()] + StructureRows(m, order, |order|)
  {
    rawPoints, rawStructure := somaPoints, [SomaStructureRow()];
    var sectionIdOnDisk := 1;
    var newIds: map<nat, int> := map[];
    var offset := |m.somaPoints|;
    var j := 0;
    while j < |order|
      invariant 0 <= j <= |order| && sectionIdOnDisk == j + 1
      invariant offset == |m.somaPoints| + PointsBefore(m, order, j)
      invariant newIds == DiskIds(m, order, j)
      invariant rawPoints == somaPoints + SectionsPointRows(m, order, j)
      invariant rawStructure == [SomaStructureRow()] + StructureRows(m, order, j)
    {
      var sectionId := order[j];
      var parentId := m.forest.parent[sectionId];
      var parentOnDisk := if parentId != -1 then (if parentId as nat in newIds then newIds[parentId as nat] else 0) else 0;
      var section := m.sections[sectionId];
      H5SectionsStep(m, order, j);
      rawStructure := rawStructure + [StructureRow(offset, parentOnDisk, section.kind.Code())];
      rawPoints := AppendSectionPoints(m, sectionId, rawPoints);
      newIds := newIds[sectionId := sectionIdOnDisk];
      sectionIdOnDisk := sectionIdOnDisk + 1;
      offset := offset + |section.points|;
      j := j + 1;
    }
  }

  /** writer::h5, from the soma check to the filled tables; creating the
      file and writing the tables and the comment attribute are left to the
      HDF5 library. The sections are taken in the order the depth-first
      iterator over the morphology yields them. */
  method H5(m: Morphology) returns (r: Written<H5Tables>)
    requires m.Valid()
    ensures r.WriterError? <==> |m.somaPoints| == 0
    ensures r.WriterError? ==> r.failure == WriteNoSoma
    ensures r.Written? ==> r.value == H5TablesOf(m)
  {
    if |m.somaPoints| < 1 {
      return WriterError(WriteNoSoma);
    }
    var somaPoints := WriteSomaPoints(m);
    var it := new SectionIterator.FromMorphology(m.forest, DepthFirst);
    var end := new SectionIterator.End(m.forest, DepthFirst);
    var order := Collect(it, end);
    var rawPoints, rawStructure := WriteH5Sections(m, order, somaPoints);
    return Written(H5Tables(rawPoints, rawStructure));
  }
}
