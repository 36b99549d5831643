/** A vasculature (src/vasc/vasculature.cpp): a property store shared by
    the vasculature and its sections, the successor and predecessor maps
    that buildConnectivity derives from the edge list, the section handles,
    equality by identity of the store, and the file-name check of the
    constructor. */
module Vasculature {
  import opened Iterators
  import opened Strings

  /** One entry of the connectivity table: an edge from `first` to `second`. */
  datatype Connection = Connection(first: nat, second: nat)

  /** The vector a std::map<uint32_t, std::vector<uint32_t>> holds for key,
      or the empty vector when there is no entry for key. */
  function Lookup(m: map<nat, seq<nat>>, key: nat): seq<nat> {
    if key in m then m[key] else []
  }

  /** `m[key].push_back(value)`: operator[] creates the entry when it is
      missing, then value goes at the end of the vector. */
  function Appended(m: map<nat, seq<nat>>, key: nat, value: nat): (r: map<nat, seq<nat>>)
    ensures r.Keys == m.Keys + {key}
    ensures Lookup(r, key) == Lookup(m, key) + [value]
    ensures forall k :: k != key ==> Lookup(r, k) == Lookup(m, k)
  {
    m[key := Lookup(m, key) + [value]]
  }

  /** The map obtained from start by doing `m[c.first].push_back(c.second)`
      for every pair c of pairs, in list order. */
  function Grouped(start: map<nat, seq<nat>>, pairs: seq<Connection>): map<nat, seq<nat>> {
    if pairs == [] then start
    else
      var last := pairs[|pairs| - 1];
      Appended(Grouped(start, pairs[..|pairs| - 1]), last.first, last.second)
  }

  /** Every edge turned round. */
  function Flipped(edges: seq<Connection>): (r: seq<Connection>)
    ensures |r| == |edges|
    ensures forall i :: 0 <= i < |edges| ==> r[i] == Connection(edges[i].second, edges[i].first)
  {
    seq(|edges|, i requires 0 <= i < |edges| => Connection(edges[i].second, edges[i].first))
  }

  /** The successor map buildConnectivity fills: for each edge (a, b), b is
      appended to the vector of a. */
  function Successors(start: map<nat, seq<nat>>, edges: seq<Connection>): map<nat, seq<nat>> {
    Grouped(start, edges)
  }

  /** The predecessor map buildConnectivity fills: for each edge (a, b), a
      is appended to the vector of b. */
  function Predecessors(start: map<nat, seq<nat>>, edges: seq<Connection>): map<nat, seq<nat>> {
    Grouped(start, Flipped(edges))
  }

  // ---------------------------------------------------------------------
  // Reference definitions: what the maps hold, read off the edge list.

  /** The second ends of the pairs whose first end is key, in list order. */
  function Targets(pairs: seq<Connection>, key: nat): seq<nat> {
    if pairs == [] then []
    else
      var last := pairs[|pairs| - 1];
      Targets(pairs[..|pairs| - 1], key) + (if last.first == key then [last.second] else [])
  }

  /** The first ends of all pairs. */
  function Sources(pairs: seq<Connection>): set<nat> {
    set i | 0 <= i < |pairs| :: pairs[i].first
  }

  /** The entries of a map of vectors, one (key, position) per element. */
  ghost function Entries(m: map<nat, seq<nat>>): set<(nat, nat)> {
    set k, i | k in m && 0 <= i < |m[k]| :: (k, i)
  }

  /** How many elements the vectors of m hold together. */
  ghost function TotalEntries(m: map<nat, seq<nat>>): nat {
    |Entries(m)|
  }

  /** The vector of every key is the vector it started with, followed by
      the values paired with it, in the order of the pairs. */
  lemma {:induction false} GroupedLookup(start: map<nat, seq<nat>>, pairs: seq<Connection>, key: nat)
    ensures Lookup(Grouped(start, pairs), key) == Lookup(start, key) + Targets(pairs, key)
  {
    if pairs != [] {
      GroupedLookup(start, pairs[..|pairs| - 1], key);
    }
  }

  /** Keys are created lazily: the keys are those of start and the first
      ends of the pairs, and no others. */
  lemma {:induction false} GroupedKeys(start: map<nat, seq<nat>>, pairs: seq<Connection>)
    ensures Grouped(start, pairs).Keys == start.Keys + Sources(pairs)
  {
    if pairs != [] {
      var init := pairs[..|pairs| - 1];
      GroupedKeys(start, init);
      SourcesStep(pairs);
    }
  }

  lemma SourcesStep(pairs: seq<Connection>)
    requires pairs != []
    ensures Sources(pairs) == Sources(pairs[..|pairs| - 1]) + {pairs[|pairs| - 1].first}
  {
    var init := pairs[..|pairs| - 1];
    forall x | x in Sources(pairs) ensures x in Sources(init) + {pairs[|pairs| - 1].first} {
      var i :| 0 <= i < |pairs| && pairs[i].first == x;
      if i < |init| {
        assert init[i] == pairs[i];
      }
    }
    forall x | x in Sources(init) ensures x in Sources(pairs) {
      var i :| 0 <= i < |init| && init[i].first == x;
      assert pairs[i] == init[i];
    }
  }

  /** One push_back adds exactly one element to the vectors of the map. */
  lemma AppendedTotal(m: map<nat, seq<nat>>, key: nat, value: nat)
    ensures TotalEntries(Appended(m, key, value)) == TotalEntries(m) + 1
  {
    var r := Appended(m, key, value);
    var n := |Lookup(m, key)|;
    assert (key, n) !in Entries(m);
    assert Entries(r) == Entries(m) + {(key, n)} by {
      forall e | e in Entries(r) ensures e in Entries(m) + {(key, n)} {
        var k, i :| k in r && 0 <= i < |r[k]| && e == (k, i);
        if k != key {
          assert Lookup(r, k) == Lookup(m, k);
        } else if i < n {
          assert k in m;
        }
      }
      forall e | e in Entries(m) + {(key, n)} ensures e in Entries(r) {
        if e != (key, n) {
          var k, i :| k in m && 0 <= i < |m[k]| && e == (k, i);
          assert Lookup(r, k) == Lookup(m, k) || Lookup(r, k) == Lookup(m, k) + [value];
        } else {
          assert |r[key]| == n + 1;
        }
      }
    }
  }

  /** The maps grow by exactly one element per pair. */
  lemma {:induction false} GroupedTotal(start: map<nat, seq<nat>>, pairs: seq<Connection>)
    ensures TotalEntries(Grouped(start, pairs)) == TotalEntries(start) + |pairs|
  {
    if pairs != [] {
      var last := pairs[|pairs| - 1];
      GroupedTotal(start, pairs[..|pairs| - 1]);
      AppendedTotal(Grouped(start, pairs[..|pairs| - 1]), last.first, last.second);
    }
  }

  /** The second end b is listed for a as often as the pair (a, b) occurs. */
  lemma {:induction false} TargetsCount(pairs: seq<Connection>, a: nat, b: nat)
    ensures multiset(Targets(pairs, a))[b] == multiset(pairs)[Connection(a, b)]
  {
    if pairs != [] {
      var init := pairs[..|pairs| - 1];
      TargetsCount(init, a, b);
      assert pairs == init + [pairs[|pairs| - 1]];
    }
  }

  /** Turning every edge round turns round the pairs counted. */
  lemma {:induction false} FlippedCount(edges: seq<Connection>, a: nat, b: nat)
    ensures multiset(Flipped(edges))[Connection(b, a)] == multiset(edges)[Connection(a, b)]
  {
    if edges != [] {
      var init := edges[..|edges| - 1];
      FlippedCount(init, a, b);
      assert edges == init + [edges[|edges| - 1]];
      assert Flipped(edges) == Flipped(init) + [Flipped(edges)[|edges| - 1]];
    }
  }

  /** Built from empty maps, successors and predecessors are exact inverses
      with multiplicity: b is listed under a in the successors, and a under
      b in the predecessors, exactly as often as the edge (a, b) occurs. */
  lemma ConnectivityInverse(edges: seq<Connection>, a: nat, b: nat)
    ensures multiset(Lookup(Successors(map[], edges), a))[b] == multiset(edges)[Connection(a, b)]
    ensures multiset(Lookup(Predecessors(map[], edges), b))[a] == multiset(edges)[Connection(a, b)]
  {
    GroupedLookup(map[], edges, a);
    TargetsCount(edges, a, b);
    GroupedLookup(map[], Flipped(edges), b);
    TargetsCount(Flipped(edges), b, a);
    FlippedCount(edges, a, b);
  }

  /** Built from empty maps, each map holds as many elements as there are
      edges. */
  lemma ConnectivityTotals(edges: seq<Connection>)
    ensures TotalEntries(Successors(map[], edges)) == |edges|
    ensures TotalEntries(Predecessors(map[], edges)) == |edges|
  {
    assert Entries(map[]) == {};
    GroupedTotal(map[], edges);
    GroupedTotal(map[], Flipped(edges));
  }

  /** Built from empty maps, the keys are exactly the sections that start
      an edge (successors) or end one (predecessors). */
  lemma ConnectivityKeys(edges: seq<Connection>)
    ensures Successors(map[], edges).Keys == set i | 0 <= i < |edges| :: edges[i].first
    ensures Predecessors(map[], edges).Keys == set i | 0 <= i < |edges| :: edges[i].second
  {
    GroupedKeys(map[], edges);
    GroupedKeys(map[], Flipped(edges));
    FlippedSources(edges);
  }

  /** The first ends of the turned edges are the second ends of the edges. */
  lemma FlippedSources(edges: seq<Connection>)
    ensures Sources(Flipped(edges)) == set i | 0 <= i < |edges| :: edges[i].second
  {
    var fl := Flipped(edges);
    forall x | x in Sources(fl) ensures x in set i | 0 <= i < |edges| :: edges[i].second {
      var i :| 0 <= i < |fl| && fl[i].first == x;
      assert edges[i].second == x;
    }
    forall x | x in (set i | 0 <= i < |edges| :: edges[i].second) ensures x in Sources(fl) {
      var i :| 0 <= i < |edges| && edges[i].second == x;
      assert fl[i].first == x;
    }
  }

  // ---------------------------------------------------------------------
  // The property store and buildConnectivity.

  /** The parts of property::Properties this file reads and writes: one
      entry per section (VascSection: the section's first point), the edge
      list, and the successor and predecessor maps of the section level. */
  class Properties {
    var sectionStarts: seq<nat>
    var connectivity: seq<Connection>
    var successors: map<nat, seq<nat>>
    var predecessors: map<nat, seq<nat>>

    /** A store as a loader leaves it: sections and edges, no maps yet. */
    constructor (sectionStarts: seq<nat>, connectivity: seq<Connection>)
      ensures this.sectionStarts == sectionStarts && this.connectivity == connectivity
      ensures successors == map[] && predecessors == map[]
    {
      this.sectionStarts := sectionStarts;
      this.connectivity := connectivity;
      successors, predecessors := map[], map[];
    }
  }

  /** buildConnectivity: for each edge (a, b) in list order, append b to
      successors[a] and a to predecessors[b]. Nothing else changes. */
  method BuildConnectivity(p: Properties)
    modifies p
    ensures p.successors == Successors(old(p.successors), p.connectivity)
    ensures p.predecessors == Predecessors(old(p.predecessors), p.connectivity)
    ensures p.connectivity == old(p.connectivity) && p.sectionStarts == old(p.sectionStarts)
  {
    var edges := p.connectivity;
    ghost var succ0, pred0 := p.successors, p.predecessors;
    var i := 0;
    while i < |edges|
      invariant 0 <= i <= |edges| && p.connectivity == edges
      invariant p.sectionStarts == old(p.sectionStarts)
      invariant p.successors == Grouped(succ0, edges[..i])
      invariant p.predecessors == Grouped(pred0, Flipped(edges[..i]))
    {
      var first := edges[i].first;
      var second := edges[i].second;
      assert edges[..i + 1][..i] == edges[..i];
      assert Flipped(edges[..i + 1])[..i] == Flipped(edges[..i]);
      p.successors := Appended(p.successors, first, second);
      p.predecessors := Appended(p.predecessors, second, first);
      i := i + 1;
    }
    assert edges[..i] == edges;
  }

  // ---------------------------------------------------------------------
  // The vasculature.

  /** A section handle: its id and the store it reads from. */
  datatype SectionHandle = SectionHandle(id: nat, store: Properties)

  /** The reasons the constructor refuses a file. */
  datatype LoadError = UnknownFileType(message: string) | RawDataError(message: string)

  class Vasculature {
    /** The shared property store. */
    const properties: Properties

    constructor Wrap(properties: Properties)
      ensures this.properties == properties
    {
      this.properties := properties;
    }

    /** operator==: the same store object, whatever the contents. */
    predicate Equals(other: Vasculature) {
      properties == other.properties
    }

    /** operator!=: the negation of operator==. */
    predicate NotEquals(other: Vasculature)
      ensures NotEquals(other) <==> !Equals(other)
    {
      !Equals(other)
    }

    /** section(id): a handle on the shared store. The id is not checked
        against the number of sections. */
    function Section(id: nat): (s: SectionHandle)
      ensures s.id == id && s.store == properties
    {
      SectionHandle(id, properties)
    }

    /** sections(): one handle per VascSection entry, ids 0..n-1 in order. */
    method Sections() returns (ss: seq<SectionHandle>)
      ensures |ss| == |properties.sectionStarts|
      ensures forall i :: 0 <= i < |ss| ==> ss[i] == Section(i)
      ensures forall i :: 0 <= i < |ss| ==> ss[i].id == i && ss[i].store == properties
    {
      ss := [];
      var i := 0;
      while i < |properties.sectionStarts|
        invariant 0 <= i <= |properties.sectionStarts| && |ss| == i
        invariant forall k :: 0 <= k < i ==> ss[k] == Section(k)
      {
        ss := ss + [Section(i)];
        i := i + 1;
      }
    }

    /** end(): the default-constructed graph iterator, with nothing left. */
    method End() returns (it: GraphIterator)
      ensures fresh(it) && it.Valid() && it.AtEnd()
      ensures it.neighbours == properties.successors
    {
      it := new GraphIterator.End(properties.successors);
    }
  }

  /** Two vasculatures over two stores with the same contents are not equal:
      equality compares the store pointers, not what the stores hold. */
  method EqualityIsIdentity() returns (a: Vasculature, b: Vasculature)
    ensures a.properties.sectionStarts == b.properties.sectionStarts
    ensures a.properties.connectivity == b.properties.connectivity
    ensures !a.Equals(b) && a.NotEquals(b)
  {
    var p := new Properties([0, 2], [Connection(0, 1)]);
    var q := new Properties([0, 2], [Connection(0, 1)]);
    a := new Vasculature.Wrap(p);
    b := new Vasculature.Wrap(q);
  }

  // ---------------------------------------------------------------------
  // The file-name check of the constructor.

  /** Lower-casing of one character: ASCII upper-case letters become
      lower-case, everything else is kept. */
  function LowerChar(c: char): (r: char)
    ensures 'A' <= c <= 'Z' ==> 'a' <= r <= 'z' && r as int - c as int == 32
    ensures !('A' <= c <= 'Z') ==> r == c
  {
    if 'A' <= c <= 'Z' then (c as int + 32) as char else c
  }

  function Lowered(s: string): (r: string)
    ensures |r| == |s| && forall i :: 0 <= i < |s| ==> r[i] == LowerChar(s[i])
  {
    seq(|s|, i requires 0 <= i < |s| => LowerChar(s[i]))
  }

  /** The extension loop: the suffix of path from pos on, lower-cased one
      character at a time. */
  method LowerExtension(path: string, pos: nat) returns (extension: string)
    requires pos <= |path|
    ensures extension == Lowered(path[pos..])
  {
    extension := "";
    var i := pos;
    while i < |path|
      invariant pos <= i <= |path|
      invariant extension == Lowered(path[pos..i])
    {
      extension := extension + [LowerChar(path[i])];
      i := i + 1;
    }
    assert path[pos..i] == path[pos..];
  }

  /** The suffix from the last '.' on, lower-cased, is ".h5" exactly when
      the name ends in ".h5" or ".H5". */
  lemma H5Suffix(path: string, pos: nat)
    requires pos < |path| && path[pos] == '.'
    requires forall k :: pos < k < |path| ==> path[k] != '.'
    ensures Lowered(path[pos..]) == ".h5" <==>
      |path| >= 3 && path[|path| - 3] == '.' && path[|path| - 2] in "hH" && path[|path| - 1] == '5'
  {
    var n := |path|;
    var e := Lowered(path[pos..]);
    if n >= 3 && path[n - 3] == '.' && path[n - 2] in "hH" && path[n - 1] == '5' {
      assert pos == n - 3;
      assert e == ".h5";
    }
    if e == ".h5" {
      assert |path[pos..]| == 3;
      assert path[pos..][1] == path[n - 2] && LowerChar(path[n - 2]) == 'h';
      assert path[pos..][2] == path[n - 1] && LowerChar(path[n - 1]) == '5';
    }
  }

  /** What the constructor throws for a file name, in the order it checks:
      no '.' at all, then a file that does not exist, then an extension
      other than ".h5" in any letter case; None when the file is loaded.
      Whether the file exists is a parameter: access() is not modelled. */
  function SourceError(path: string, fileExists: bool): (r: Option<LoadError>)
    ensures '.' !in path ==> r == Some(UnknownFileType("File has no extension"))
    ensures '.' in path && !fileExists ==> r == Some(RawDataError("File: " + path + " does not exist."))
    ensures r == None <==>
      (fileExists && |path| >= 3 && path[|path| - 3] == '.' && path[|path| - 2] in "hH" && path[|path| - 1] == '5')
    ensures r.Some? && r.value.UnknownFileType? && '.' in path ==> r.value.message == "Unhandled file type"
  {
    var pos := LastIndexOf(path, '.');
    if pos == -1 then Some(UnknownFileType("File has no extension"))
    else if !fileExists then Some(RawDataError("File: " + path + " does not exist."))
    else
      H5Suffix(path, pos);
      if Lowered(path[pos..]) != ".h5" then Some(UnknownFileType("Unhandled file type"))
      else None
  }

  /** The constructor: check the file name, take the store the HDF5 loader
      produced (a parameter: the loader is not modelled), then build the
      connectivity maps of that store. */
  method Open(path: string, fileExists: bool, loaded: Properties)
    returns (v: Vasculature?, error: Option<LoadError>)
    modifies loaded
    ensures error == SourceError(path, fileExists)
    ensures error.Some? <==> v == null
    ensures error.Some? ==> unchanged(loaded)
    ensures v != null ==> v.properties == loaded
    ensures v != null ==> loaded.successors == Successors(old(loaded.successors), loaded.connectivity)
    ensures v != null ==> loaded.predecessors == Predecessors(old(loaded.predecessors), loaded.connectivity)
  {
    var pos := LastIndexOf(path, '.');
    if pos == -1 {
      return null, Some(UnknownFileType("File has no extension"));
    }
    if !fileExists {
      return null, Some(RawDataError("File: " + path + " does not exist."));
    }
    var extension := LowerExtension(path, pos);
    if extension != ".h5" {
      return null, Some(UnknownFileType("Unhandled file type"));
    }
    BuildConnectivity(loaded);
    v := new Vasculature.Wrap(loaded);
    error := None;
  }
}
