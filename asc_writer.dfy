/** The Neurolucida ASC writer (writer::asc in src/mut/writers.cpp): it
    writes the soma as a "CellBody" block, then each neurite as a block
    opened by a colour and type header, every section listing its points
    and then its children between "(" and ")", siblings separated by "|".
    It writes to standard output, whatever file name it is given. */
module AscWriter {
  import opened Iterators
  import opened MutMorphology
  import opened AscText

  /** One write to standard output. A point is written as "(x y z d)" on a
      line of its own, with the stream's default float formatting, which is
      not modelled: the line keeps the values. A mark is "(", "|" or ")" on
      a line of its own. */
  datatype AscOut =
    | Text(s: string)
    | PointLine(indent: nat, point: Point, diameter: real)
    | Mark(indent: nat, symbol: char)

  /** std::cout, as everything written to it so far. */
  class Console {
    var out: seq<AscOut>

    constructor ()
      ensures out == []
    {
      out := [];
    }

    method Write(x: AscOut)
      modifies this
      ensures out == old(out) + [x]
    {
      out := out + [x];
    }
  }


  /** The header map of writer::asc: an axon or a dendrite gets its header;
      looking up any other type inserts and returns the empty string. */
  function Header(kind: SectionType): string {
    match kind
    case SectionAxon => AxonHeader
    case SectionDendrite => DendriteHeader
    case _ => ""
  }

  /** The header map with a header for apical dendrite blocks too: the
      map under which every neurite block is opened. */
  function NeuriteHeader(kind: SectionType): string {
    match kind
    case SectionAxon => AxonHeader
    case SectionDendrite => DendriteHeader
    case SectionApicalDendrite => ApicalHeader
    case _ => ""
  }

  /** The lines of _write_asc_points. */
  function PointLines(points: seq<Point>, diameters: seq<real>, indent: nat): (lines: seq<AscOut>)
    requires |points| <= |diameters|
    ensures |lines| == |points|
  {
    seq(|points|, i requires 0 <= i < |points| => PointLine(indent, points[i], diameters[i]))
  }

  /** The output of _write_asc_section for section id: its points, then
      its branches. */
  function SectionLines(m: Morphology, id: nat, indent: nat): seq<AscOut>
    requires m.Walkable() && id < m.forest.Count()
    decreases m.forest.Count() - id, 2, 0
  {
    var s := m.sections[id];
    PointLines(s.points, s.diameters, indent) + BranchLines(m, id, indent)
  }

  /** Nothing for a section without children; otherwise its children
      between "(" and ")". */
  function BranchLines(m: Morphology, id: nat, indent: nat): seq<AscOut>
    requires m.Walkable() && id < m.forest.Count()
    decreases m.forest.Count() - id, 1, 0
  {
    if m.forest.children[id] == [] then []
    else ChildrenLines(m, id, |m.forest.children[id]|, indent) + [Mark(indent, ')')]
  }

  /** The first n children of section id, each after its "(" (the first) or
      "|" (the others). */
  function ChildrenLines(m: Morphology, id: nat, n: nat, indent: nat): seq<AscOut>
    requires m.Walkable() && id < m.forest.Count() && n <= |m.forest.children[id]|
    decreases m.forest.Count() - id, 0, n
  {
    if n == 0 then []
    else
      var c := m.forest.children[id][n - 1];
      assert id < c < m.forest.Count();
      ChildrenLines(m, id, n - 1, indent) + [Mark(indent, if n == 1 then '(' else '|')]
        + SectionLines(m, c, indent + 2)
  }

  /** The blocks of the first n root sections, each opened by the header
      its type has in the given header map. */
  function RootsLines(m: Morphology, n: nat, header: SectionType -> string): seq<AscOut>
    requires m.Walkable() && m.forest.Within(m.forest.roots) && n <= |m.forest.roots|
  {
    if n == 0 then []
    else
      var r := m.forest.roots[n - 1];
      RootsLines(m, n - 1, header) + [Text(header(m.sections[r].kind))] + SectionLines(m, r, 2) + [Text(BlockEnd)]
  }

  lemma RootsLinesStep(m: Morphology, n: nat, header: SectionType -> string)
    requires m.Walkable() && m.forest.Within(m.forest.roots) && n < |m.forest.roots|
    ensures RootsLines(m, n + 1, header) == RootsLines(m, n, header)
      + [Text(header(m.sections[m.forest.roots[n]].kind))] + SectionLines(m, m.forest.roots[n], 2) + [Text(BlockEnd)]
  {
  }

  /** Everything written with a given header map. */
  function AscLinesWith(m: Morphology, header: SectionType -> string): seq<AscOut>
    requires m.Walkable() && m.forest.Within(m.forest.roots)
  {
    [Text(CellBodyHeader)] + PointLines(m.somaPoints, m.somaDiameters, 2) + [Text(BlockEnd)]
      + RootsLines(m, |m.forest.roots|, header)
  }

  /** Everything writer::asc writes. */
  function AscLines(m: Morphology): seq<AscOut>
    requires m.Walkable() && m.forest.Within(m.forest.roots)
  {
    AscLinesWith(m, Header)
  }

  // ---------------------------------------------------------------------
  // Brackets: each section's output is balanced
  // ---------------------------------------------------------------------

  /** Opening minus closing parentheses in one write. */
  function Net(x: AscOut): int {
    match x
    case Text(s) => Count(s, '(', 0) - Count(s, ')', 0)
    case PointLine(_, _, _) => 0
    case Mark(_, symbol) => if symbol == '(' then 1 else if symbol == ')' then -1 else 0
  }

  /** Opening minus closing parentheses in a run of writes. */
  function Balance(xs: seq<AscOut>): int {
    if xs == [] then 0 else Balance(xs[..|xs| - 1]) + Net(xs[|xs| - 1])
  }

  lemma {:induction false} BalanceConcat(a: seq<AscOut>, b: seq<AscOut>)
    ensures Balance(a + b) == Balance(a) + Balance(b)
    decreases |b|
  {
    if b == [] {
      assert a + b == a;
    } else {
      assert (a + b)[..|a + b| - 1] == a + b[..|b| - 1];
      BalanceConcat(a, b[..|b| - 1]);
    }
  }

  lemma {:induction false} PointLinesBalanced(points: seq<Point>, diameters: seq<real>, indent: nat)
    requires |points| <= |diameters|
    ensures Balance(PointLines(points, diameters, indent)) == 0
    decreases |points|
  {
    if points != [] {
      var n := |points| - 1;
      assert PointLines(points, diameters, indent)[..n] == PointLines(points[..n], diameters, indent);
      PointLinesBalanced(points[..n], diameters, indent);
    }
  }

  /** Every "(" that _write_asc_section writes is closed by a ")" it writes. */
  lemma {:induction false} SectionBalanced(m: Morphology, id: nat, indent: nat)
    requires m.Walkable() && id < m.forest.Count()
    ensures Balance(SectionLines(m, id, indent)) == 0
    decreases m.forest.Count() - id, 2, 0
  {
    var s := m.sections[id];
    PointLinesBalanced(s.points, s.diameters, indent);
    BranchBalanced(m, id, indent);
    BalanceConcat(PointLines(s.points, s.diameters, indent), BranchLines(m, id, indent));
  }

  lemma {:induction false} BranchBalanced(m: Morphology, id: nat, indent: nat)
    requires m.Walkable() && id < m.forest.Count()
    ensures Balance(BranchLines(m, id, indent)) == 0
    decreases m.forest.Count() - id, 1, 0
  {
    var n := |m.forest.children[id]|;
    if n > 0 {
      ChildrenBalance(m, id, n, indent);
      BalanceConcat(ChildrenLines(m, id, n, indent), [Mark(indent, ')')]);
      assert Balance([Mark(indent, ')')]) == -1 by {
        assert [Mark(indent, ')')][..0] == [];
      }
    }
  }

  /** The children written so far leave exactly the opening "(" unclosed. */
  lemma {:induction false} ChildrenBalance(m: Morphology, id: nat, n: nat, indent: nat)
    requires m.Walkable() && id < m.forest.Count() && 0 < n <= |m.forest.children[id]|
    ensures Balance(ChildrenLines(m, id, n, indent)) == 1
    decreases m.forest.Count() - id, 0, n
  {
    var c := m.forest.children[id][n - 1];
    assert id < c < m.forest.Count();
    if n > 1 {
      ChildrenBalance(m, id, n - 1, indent);
    }
    SectionBalanced(m, c, indent + 2);
    BalanceAroundMark(ChildrenLines(m, id, n - 1, indent), Mark(indent, if n == 1 then '(' else '|'),
      SectionLines(m, c, indent + 2));
  }

  lemma BalanceAroundMark(a: seq<AscOut>, x: AscOut, b: seq<AscOut>)
    ensures Balance(a + [x] + b) == Balance(a) + Net(x) + Balance(b)
  {
    BalanceSingle(x);
    BalanceConcat(a, [x]);
    BalanceConcat(a + [x], b);
  }

  /** A header map whose every header opens exactly one block. */
  ghost predicate OpensOnce(header: SectionType -> string) {
    forall kind :: header(kind) == "" || Net(Text(header(kind))) == 1
  }

  lemma HeadersOpenOnce()
    ensures OpensOnce(Header) && OpensOnce(NeuriteHeader)
    ensures Net(Text(CellBodyHeader)) == 1 && Net(Text(BlockEnd)) == -1
  {
    forall kind
      ensures Header(kind) == "" || Net(Text(Header(kind))) == 1
      ensures NeuriteHeader(kind) == "" || Net(Text(NeuriteHeader(kind))) == 1
    {
      KindOpensOnce(kind);
    }
    CellBodyOpens();
    CellBodyCloses();
    BlockEndCounts();
  }

  /** The end of a block closes one parenthesis. */
  lemma BlockEndCloses()
    ensures Net(Text(BlockEnd)) == -1
  {
    BlockEndCounts();
  }

  /** The header of one section type, in either map, opens one block. */
  lemma KindOpensOnce(kind: SectionType)
    ensures Header(kind) == "" || Net(Text(Header(kind))) == 1
    ensures NeuriteHeader(kind) == "" || Net(Text(NeuriteHeader(kind))) == 1
  {
    match kind
    case SectionAxon =>
      AxonOpens();
      AxonCloses();
    case SectionDendrite =>
      DendriteOpens();
      DendriteCloses();
    case SectionApicalDendrite =>
      ApicalOpens();
      ApicalCloses();
    case _ =>
  }

  function RootKind(m: Morphology, k: nat): SectionType
    requires m.WellFormed() && m.forest.Within(m.forest.roots) && k < |m.forest.roots|
  {
    m.sections[m.forest.roots[k]].kind
  }

  /** How many of the first n root sections get no header. */
  function Unopened(m: Morphology, n: nat, header: SectionType -> string): nat
    requires m.WellFormed() && m.forest.Within(m.forest.roots) && n <= |m.forest.roots|
  {
    if n == 0 then 0 else Unopened(m, n - 1, header) + (if header(RootKind(m, n - 1)) == "" then 1 else 0)
  }

  lemma {:induction false} UnopenedNone(m: Morphology, n: nat, header: SectionType -> string)
    requires m.WellFormed() && m.forest.Within(m.forest.roots) && n <= |m.forest.roots|
    ensures Unopened(m, n, header) == 0 <==> forall k :: 0 <= k < n ==> header(RootKind(m, k)) != ""
  {
    if n > 0 {
      UnopenedNone(m, n - 1, header);
    }
  }

  lemma BalanceSingle(x: AscOut)
    ensures Balance([x]) == Net(x)
  {
    assert [x][..0] == [];
  }

  /** Each root block is balanced except for the header that opens it; a
      root whose type has no header leaves its closing ")" unmatched. */
  lemma {:induction false} RootsBalance(m: Morphology, n: nat, header: SectionType -> string)
    requires m.Walkable() && m.forest.Within(m.forest.roots) && n <= |m.forest.roots| && OpensOnce(header)
    ensures Balance(RootsLines(m, n, header)) + Unopened(m, n, header) == 0
  {
    if n > 0 {
      var r := m.forest.roots[n - 1];
      RootsBalance(m, n - 1, header);
      SectionBalanced(m, r, 2);
      BlockEndCloses();
      BalanceBlock(RootsLines(m, n - 1, header), Text(header(m.sections[r].kind)), SectionLines(m, r, 2), Text(BlockEnd));
    }
  }

  /** Opening minus closing parentheses around one block of output. */
  lemma BalanceBlock(a: seq<AscOut>, x: AscOut, b: seq<AscOut>, y: AscOut)
    ensures Balance(a + [x] + b + [y]) == Balance(a) + Net(x) + Balance(b) + Net(y)
  {
    BalanceSingle(x);
    BalanceSingle(y);
    BalanceConcat(a, [x]);
    BalanceConcat(a + [x], b);
    BalanceConcat(a + [x] + b, [y]);
  }

  /** Opening minus closing parentheses in the whole output: minus the
      number of root sections whose type has no header. */
  lemma AscBalance(m: Morphology, header: SectionType -> string)
    requires m.Walkable() && m.forest.Within(m.forest.roots) && OpensOnce(header)
    ensures Balance(AscLinesWith(m, header)) + Unopened(m, |m.forest.roots|, header) == 0
  {
    var cell, points, end := [Text(CellBodyHeader)], PointLines(m.somaPoints, m.somaDiameters, 2), [Text(BlockEnd)];
    HeadersOpenOnce();
    BalanceSingle(cell[0]);
    BalanceSingle(end[0]);
    PointLinesBalanced(m.somaPoints, m.somaDiameters, 2);
    RootsBalance(m, |m.forest.roots|, header);
    BalanceConcat(cell, points);
    BalanceConcat(cell + points, end);
    BalanceConcat(cell + points + end, RootsLines(m, |m.forest.roots|, header));
  }

  /** The output of writer::asc has as many "(" as ")" exactly when every
      root section is an axon or a dendrite. */
  lemma AscBalanced(m: Morphology)
    requires m.Walkable() && m.forest.Within(m.forest.roots)
    ensures Balance(AscLines(m)) == 0 <==>
      forall k :: 0 <= k < |m.forest.roots| ==> RootKind(m, k) in {SectionAxon, SectionDendrite}
  {
    HeadersOpenOnce();
    AscBalance(m, Header);
    UnopenedNone(m, |m.forest.roots|, Header);
  }

  /** As written, a morphology with an apical dendrite among its root
      sections gets an ASC block closed by ")" that nothing opened. */
  lemma AscApicalRootUnbalanced(m: Morphology, k: nat)
    requires m.Walkable() && m.forest.Within(m.forest.roots) && k < |m.forest.roots|
    requires RootKind(m, k) == SectionApicalDendrite
    ensures Balance(AscLines(m)) < 0
  {
    HeadersOpenOnce();
    AscBalance(m, Header);
    UnopenedNone(m, |m.forest.roots|, Header);
  }

  /** With the apical dendrite's header, every neurite block is opened: the
      output is balanced whenever every root section is an axon, a
      dendrite or an apical dendrite. */
  lemma AscNeuritesBalanced(m: Morphology)
    requires m.Walkable() && m.forest.Within(m.forest.roots)
    requires forall k :: 0 <= k < |m.forest.roots| ==>
      RootKind(m, k) in {SectionAxon, SectionDendrite, SectionApicalDendrite}
    ensures Balance(AscLinesWith(m, NeuriteHeader)) == 0
  {
    HeadersOpenOnce();
    AscBalance(m, NeuriteHeader);
    UnopenedNone(m, |m.forest.roots|, NeuriteHeader);
  }

  // ---------------------------------------------------------------------
  // Points: the output lists the points of a subtree depth-first
  // ---------------------------------------------------------------------

  /** The (point, diameter) pairs written, in output order. */
  function Drawn(xs: seq<AscOut>): seq<(Point, real)> {
    if xs == [] then []
    else Drawn(xs[..|xs| - 1]) + (match xs[|xs| - 1] case PointLine(_, p, d) => [(p, d)] case _ => [])
  }

  lemma {:induction false} DrawnConcat(a: seq<AscOut>, b: seq<AscOut>)
    ensures Drawn(a + b) == Drawn(a) + Drawn(b)
    decreases |b|
  {
    if b == [] {
      assert a + b == a;
    } else {
      assert (a + b)[..|a + b| - 1] == a + b[..|b| - 1];
      DrawnConcat(a, b[..|b| - 1]);
    }
  }

  /** Points paired with their diameters. */
  function Pairs(points: seq<Point>, diameters: seq<real>): (pairs: seq<(Point, real)>)
    requires |points| <= |diameters|
    ensures |pairs| == |points|
  {
    seq(|points|, i requires 0 <= i < |points| => (points[i], diameters[i]))
  }

  /** The points of one section, with their diameters. */
  function PointsOf(m: Morphology, id: nat): seq<(Point, real)>
    requires m.WellFormed() && id < m.forest.Count()
  {
    Pairs(m.sections[id].points, m.sections[id].diameters)
  }

  /** The points of the given sections, one section after another. */
  function PointsOfAll(m: Morphology, ids: seq<nat>): seq<(Point, real)>
    requires m.WellFormed() && m.forest.Within(ids)
  {
    if ids == [] then [] else PointsOfAll(m, ids[..|ids| - 1]) + PointsOf(m, ids[|ids| - 1])
  }

  lemma {:induction false} PointsOfAllConcat(m: Morphology, a: seq<nat>, b: seq<nat>)
    requires m.WellFormed() && m.forest.Within(a) && m.forest.Within(b)
    ensures m.forest.Within(a + b)
    ensures PointsOfAll(m, a + b) == PointsOfAll(m, a) + PointsOfAll(m, b)
    decreases |b|
  {
    assert m.forest.Within(a + b);
    if b == [] {
      assert a + b == a;
    } else {
      assert (a + b)[..|a + b| - 1] == a + b[..|b| - 1];
      PointsOfAllConcat(m, a, b[..|b| - 1]);
    }
  }

  /** _write_asc_points draws exactly the points it is given, in order. */
  lemma {:induction false} PointLinesDrawn(points: seq<Point>, diameters: seq<real>, indent: nat)
    requires |points| <= |diameters|
    ensures Drawn(PointLines(points, diameters, indent)) == Pairs(points, diameters)
    decreases |points|
  {
    if points != [] {
      var n := |points| - 1;
      assert PointLines(points, diameters, indent)[..n] == PointLines(points[..n], diameters, indent);
      PointLinesDrawn(points[..n], diameters, indent);
      assert Pairs(points, diameters) == Pairs(points[..n], diameters) + [(points[n], diameters[n])];
    }
  }

  /** The points of the subtree of id, section by section: its own, then
      its children's subtrees in declared order. */
  function SubtreePoints(m: Morphology, id: nat): seq<(Point, real)>
    requires m.Walkable() && id < m.forest.Count()
    decreases m.forest.Count() - id, 1, 0
  {
    PointsOf(m, id) + ChildrenPoints(m, id, |m.forest.children[id]|)
  }

  function ChildrenPoints(m: Morphology, id: nat, n: nat): seq<(Point, real)>
    requires m.Walkable() && id < m.forest.Count() && n <= |m.forest.children[id]|
    decreases m.forest.Count() - id, 0, n
  {
    if n == 0 then []
    else
      var c := m.forest.children[id][n - 1];
      assert id < c < m.forest.Count();
      ChildrenPoints(m, id, n - 1) + SubtreePoints(m, c)
  }

  /** _write_asc_section writes the points of the subtree of id. */
  lemma {:induction false} SectionDrawn(m: Morphology, id: nat, indent: nat)
    requires m.Walkable() && id < m.forest.Count()
    ensures Drawn(SectionLines(m, id, indent)) == SubtreePoints(m, id)
    decreases m.forest.Count() - id, 2, 0
  {
    var s, n := m.sections[id], |m.forest.children[id]|;
    PointLinesDrawn(s.points, s.diameters, indent);
    DrawnConcat(PointLines(s.points, s.diameters, indent), BranchLines(m, id, indent));
    if n > 0 {
      ChildrenDrawn(m, id, n, indent);
      DrawnConcat(ChildrenLines(m, id, n, indent), [Mark(indent, ')')]);
      assert Drawn([Mark(indent, ')')]) == [] by {
        assert [Mark(indent, ')')][..0] == [];
      }
    }
  }

  lemma {:induction false} ChildrenDrawn(m: Morphology, id: nat, n: nat, indent: nat)
    requires m.Walkable() && id < m.forest.Count() && n <= |m.forest.children[id]|
    ensures Drawn(ChildrenLines(m, id, n, indent)) == ChildrenPoints(m, id, n)
    decreases m.forest.Count() - id, 1, n
  {
    if n > 0 {
      var c := m.forest.children[id][n - 1];
      assert id < c < m.forest.Count();
      ChildrenDrawn(m, id, n - 1, indent);
      SectionDrawn(m, c, indent + 2);
      DrawnAroundMark(ChildrenLines(m, id, n - 1, indent), Mark(indent, if n == 1 then '(' else '|'),
        SectionLines(m, c, indent + 2));
    }
  }

  /** A mark draws no point. */
  lemma DrawnAroundMark(a: seq<AscOut>, x: AscOut, b: seq<AscOut>)
    requires x.Mark?
    ensures Drawn(a + [x] + b) == Drawn(a) + Drawn(b)
  {
    assert Drawn([x]) == [] by {
      assert [x][..0] == [];
    }
    DrawnConcat(a, [x]);
    DrawnConcat(a + [x], b);
  }

  /** The subtree points are those of the sections the depth-first
      iterator visits from id, in visiting order. */
  lemma {:induction false} SubtreeInDepthOrder(m: Morphology, id: nat)
    requires m.Valid() && id < m.forest.Count()
    ensures SubtreePoints(m, id) == PointsOfAll(m, DepthFrom(m.forest, [id]))
    decreases m.forest.Count() - id, 1, 0
  {
    var cs := m.forest.children[id];
    ChildrenInDepthOrder(m, id, |cs|);
    assert cs[..|cs|] == cs;
    DepthFromSection(m.forest, id);
    PointsOfAllConcat(m, [id], DepthFrom(m.forest, cs));
    assert PointsOfAll(m, [id]) == PointsOf(m, id) by {
      assert [id][..0] == [];
    }
  }

  lemma {:induction false} ChildrenInDepthOrder(m: Morphology, id: nat, n: nat)
    requires m.Valid() && id < m.forest.Count() && n <= |m.forest.children[id]|
    ensures m.forest.Within(m.forest.children[id][..n])
    ensures ChildrenPoints(m, id, n) == PointsOfAll(m, DepthFrom(m.forest, m.forest.children[id][..n]))
    decreases m.forest.Count() - id, 0, n
  {
    var cs, f := m.forest.children[id], m.forest;
    assert f.Within(cs[..n]);
    if n == 0 {
      assert cs[..0] == [];
    } else {
      var c := cs[n - 1];
      assert id < c < f.Count();
      ChildrenInDepthOrder(m, id, n - 1);
      SubtreeInDepthOrder(m, c);
      PrefixGrows(cs, n);
      AppendedSectionPoints(m, cs[..n - 1], c);
    }
  }

  /** The points visited from a list of sections and then from one more. */
  lemma AppendedSectionPoints(m: Morphology, a: seq<nat>, c: nat)
    requires m.Valid() && m.forest.Within(a) && c < m.forest.Count()
    ensures m.forest.Within(a + [c])
    ensures PointsOfAll(m, DepthFrom(m.forest, a + [c])) ==
      PointsOfAll(m, DepthFrom(m.forest, a)) + PointsOfAll(m, DepthFrom(m.forest, [c]))
  {
    DepthFromAppend(m.forest, a, [c]);
    PointsOfAllConcat(m, DepthFrom(m.forest, a), DepthFrom(m.forest, [c]));
  }

  lemma PrefixGrows(s: seq<nat>, n: nat)
    requires 0 < n <= |s|
    ensures s[..n] == s[..n - 1] + [s[n - 1]]
  {
  }

  /** _write_asc_section writes the points of the subtree of id in the
      order the depth-first iterator visits its sections. */
  lemma SectionDrawsSubtree(m: Morphology, id: nat, indent: nat)
    requires m.Valid() && id < m.forest.Count()
    ensures Drawn(SectionLines(m, id, indent)) == PointsOfAll(m, DepthFrom(m.forest, [id]))
  {
    SectionDrawn(m, id, indent);
    SubtreeInDepthOrder(m, id);
  }

  // ---------------------------------------------------------------------
  // The writer
  // ---------------------------------------------------------------------

  /** _write_asc_points. */
  method WriteAscPoints(console: Console, points: seq<Point>, diameters: seq<real>, indent: nat)
    requires |points| <= |diameters|
    modifies console
    ensures console.out == old(console.out) + PointLines(points, diameters, indent)
  {
    var i := 0;
    while i < |points|
      invariant 0 <= i <= |points|
      invariant console.out == old(console.out) + PointLines(points, diameters, indent)[..i]
    {
      console.Write(PointLine(indent, points[i], diameters[i]));
      assert PointLines(points, diameters, indent)[..i + 1] == PointLines(points, diameters, indent)[..i] + [PointLine(indent, points[i], diameters[i])];
      i := i + 1;
    }
  }

  /** _write_asc_section: the section's points, then, if it has children,
      each child's section after "(" or "|", and a closing ")". */
  method WriteAscSection(console: Console, m: Morphology, id: nat, indent: nat)
    requires m.Walkable() && id < m.forest.Count()
    modifies console
    ensures console.out == old(console.out) + SectionLines(m, id, indent)
    decreases m.forest.Count() - id
  {
    var section := m.sections[id];
    WriteAscPoints(console, section.points, section.diameters, indent);
    ghost var written := console.out;
    SectionLinesSplit(m, id, indent);
    var children := m.forest.children[id];
    if children != [] {
      var i := 0;
      while i < |children|
        invariant 0 <= i <= |children|
        invariant console.out == written + ChildrenLines(m, id, i, indent)
      {
        ChildrenLinesStep(m, id, i, indent);
        console.Write(Mark(indent, if i == 0 then '(' else '|'));
        WriteAscSection(console, m, children[i], indent + 2);
        AppendChild(written, ChildrenLines(m, id, i, indent), Mark(indent, if i == 0 then '(' else '|'),
          SectionLines(m, children[i], indent + 2));
        i := i + 1;
      }
      console.Write(Mark(indent, ')'));
    }
  }

  /** A section's lines are its points, then, when it has children, the
      children and the closing mark. */
  lemma SectionLinesSplit(m: Morphology, id: nat, indent: nat)
    requires m.Walkable() && id < m.forest.Count()
    ensures var s, n := m.sections[id], |m.forest.children[id]|;
      SectionLines(m, id, indent) == PointLines(s.points, s.diameters, indent) +
        (if n == 0 then [] else ChildrenLines(m, id, n, indent) + [Mark(indent, ')')])
  {
  }

  /** One more child: its mark, then its lines two columns deeper. */
  lemma ChildrenLinesStep(m: Morphology, id: nat, i: nat, indent: nat)
    requires m.Walkable() && id < m.forest.Count() && i < |m.forest.children[id]|
    ensures id < m.forest.children[id][i] < m.forest.Count()
    ensures ChildrenLines(m, id, i + 1, indent) == ChildrenLines(m, id, i, indent)
      + [Mark(indent, if i == 0 then '(' else '|')] + SectionLines(m, m.forest.children[id][i], indent + 2)
  {
  }

  lemma AppendChild(o: seq<AscOut>, a: seq<AscOut>, x: AscOut, b: seq<AscOut>)
    ensures o + a + [x] + b == o + (a + [x] + b)
  {
  }

  /** writer::asc: the soma block, then one block per root section. */
  method Asc(console: Console, m: Morphology)
    requires m.Walkable() && m.forest.Within(m.forest.roots)
    modifies console
    ensures console.out == old(console.out) + AscLines(m)
  {
    console.Write(Text(CellBodyHeader));
    WriteAscPoints(console, m.somaPoints, m.somaDiameters, 2);
    console.Write(Text(BlockEnd));
    WriteAscRoots(console, m);
  }

  /** The loop of writer::asc over the root sections: each one's header,
      its section and the end of its block. */
  method WriteAscRoots(console: Console, m: Morphology)
    requires m.Walkable() && m.forest.Within(m.forest.roots)
    modifies console
    ensures console.out == old(console.out) + RootsLines(m, |m.forest.roots|, Header)
  {
    var roots := m.forest.roots;
    var i := 0;
    while i < |roots|
      invariant 0 <= i <= |roots|
      invariant console.out == old(console.out) + RootsLines(m, i, Header)
    {
      RootsLinesStep(m, i, Header);
      console.Write(Text(Header(m.sections[roots[i]].kind)));
      WriteAscSection(console, m, roots[i], 2);
      console.Write(Text(BlockEnd));
      AppendBlock(old(console.out), RootsLines(m, i, Header), Text(Header(m.sections[roots[i]].kind)),
        SectionLines(m, roots[i], 2), Text(BlockEnd));
      i := i + 1;
    }
  }

  lemma AppendBlock(o: seq<AscOut>, a: seq<AscOut>, x: AscOut, b: seq<AscOut>, y: AscOut)
    ensures o + a + [x] + b + [y] == o + (a + [x] + b + [y])
  {
  }
}
