/** The parts of a mutable morphology (morphio::mut::Morphology) that the
    writers of src/mut/writers.cpp read: the soma's points and diameters,
    and for every section its type, points, diameters, parent and children.
    The writers only read the morphology, so it is a value here. */
module MutMorphology {
  import opened Iterators

  /** A 3D point; coordinates are copied by the writers, never computed on. */
  datatype Point = Point(x: real, y: real, z: real)

  /** morphio::SectionType with its numeric codes as written to SWC and H5. */
  datatype SectionType =
    | SectionUndefined
    | SectionSoma
    | SectionAxon
    | SectionDendrite
    | SectionApicalDendrite
  {
    function Code(): (c: int)
      ensures 0 <= c <= 4
      ensures c == 1 <==> this == SectionSoma
    {
      match this
      case SectionUndefined => 0
      case SectionSoma => 1
      case SectionAxon => 2
      case SectionDendrite => 3
      case SectionApicalDendrite => 4
    }
  }

  datatype Section = Section(kind: SectionType, points: seq<Point>, diameters: seq<real>)

  datatype Morphology = Morphology(
    somaPoints: seq<Point>,
    somaDiameters: seq<real>,
    forest: Forest,
    sections: seq<Section>)
  {
    /** One section record per section id, one diameter per point, and
        every parent -1 or an earlier section. */
    ghost predicate WellFormed() {
      && forest.ParentsPrecede()
      && |sections| == forest.Count()
      && |somaPoints| == |somaDiameters|
      && (forall i :: 0 <= i < |sections| ==> |sections[i].points| == |sections[i].diameters|)
    }

    /** Well-formed records whose children lists name later sections:
        enough to walk the sections recursively, parent to children. */
    ghost predicate Walkable() {
      WellFormed() && |forest.children| == forest.Count() && forest.ChildrenPointBack()
    }

    /** Well-formed records over a valid section forest. */
    ghost predicate Valid() {
      forest.Valid() && WellFormed()
    }

    predicate IsRoot(id: nat)
      requires id < forest.Count()
    {
      forest.parent[id] < 0
    }
  }

  /** Sections listed in an order in which each parent comes before its
      children, each section at most once. */
  ghost predicate WriteOrder(m: Morphology, order: seq<nat>)
    requires m.WellFormed()
  {
    && m.forest.Within(order)
    && Distinct(order)
    && (forall k :: 0 <= k < |order| ==> ParentListedBefore(m, order, k))
  }

  /** The parent of order[k], if it has one, is listed before it. */
  ghost predicate ParentListedBefore(m: Morphology, order: seq<nat>, k: nat)
    requires m.WellFormed() && m.forest.Within(order) && k < |order|
  {
    0 <= m.forest.parent[order[k]] ==> exists i :: 0 <= i < k && order[i] == m.forest.parent[order[k]]
  }

  /** The depth-first order the writers walk lists every section once,
      parents first. */
  lemma DepthOrderIsWriteOrder(m: Morphology)
    requires m.Valid()
    ensures WriteOrder(m, DepthOrder(m.forest))
    ensures |DepthOrder(m.forest)| == m.forest.Count()
  {
    var order := DepthOrder(m.forest);
    DepthOrderIsPreorder(m.forest);
    forall k | 0 <= k < |order| && 0 <= m.forest.parent[order[k]]
      ensures ParentListedBefore(m, order, k)
    {
      var p := m.forest.parent[order[k]];
      assert p in order[..k];
      var i :| 0 <= i < k && order[..k][i] == p;
      assert order[i] == p;
    }
  }

  /** Position of the first occurrence of x in s. */
  function IndexOf(s: seq<nat>, x: nat): (r: nat)
    requires x in s
    ensures r < |s| && s[r] == x
    ensures forall k :: 0 <= k < r ==> s[k] != x
  {
    if s[0] == x then 0 else 1 + IndexOf(s[1..], x)
  }

  /** In a sequence without repeats, IndexOf finds the one position. */
  lemma IndexOfDistinct(s: seq<nat>, i: nat)
    requires Distinct(s) && i < |s|
    ensures IndexOf(s, s[i]) == i
  {
  }

  /** The parent of a non-root section in a write order is listed earlier. */
  lemma ParentIndex(m: Morphology, order: seq<nat>, j: nat)
    requires m.WellFormed() && WriteOrder(m, order) && j < |order| && !m.IsRoot(order[j])
    ensures m.forest.parent[order[j]] as nat in order
    ensures IndexOf(order, m.forest.parent[order[j]] as nat) < j
  {
    var p := m.forest.parent[order[j]] as nat;
    assert ParentListedBefore(m, order, j);
    var i :| 0 <= i < j && order[i] == p;
    IndexOfDistinct(order, i);
  }

  /** Number of points of the first j sections of order. */
  function PointsBefore(m: Morphology, order: seq<nat>, j: nat): nat
    requires m.WellFormed() && m.forest.Within(order) && j <= |order|
  {
    if j == 0 then 0 else PointsBefore(m, order, j - 1) + |m.sections[order[j - 1]].points|
  }
}
