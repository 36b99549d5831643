/** The traversal orders that tests/test_4_immut.py expects of two test
    morphologies, derived from the traversal definitions. */
module IteratorExamples {
  import opened Iterators

  /** Connectivity of iterators.asc: a first neurite 0 -> (1 -> (2, 3), 4 -> (5, 6))
      and a second neurite 7 -> (8, 9). */
  function IteratorsAsc(): Forest {
    Forest([-1, 0, 1, 1, 0, 4, 4, -1, 7, 7],
           [[1, 4], [2, 3], [], [], [5, 6], [], [], [8, 9], [], []],
           [0, 7])
  }

  /** Connectivity shared by simple.asc, simple.swc and simple.h5: two
      neurites, each a root section with two children. */
  function SimpleCell(): Forest {
    Forest([-1, 0, 0, -1, 3, 3], [[1, 2], [], [], [4, 5], [], []], [0, 3])
  }

  lemma IteratorsAscValid()
    ensures IteratorsAsc().Valid()
  {
    IteratorsAscParents();
    IteratorsAscChildren();
    IteratorsAscListed();
  }

  lemma IteratorsAscParents()
    ensures IteratorsAsc().ParentsPrecede() && IteratorsAsc().RootsListed()
  {
  }

  lemma IteratorsAscChildren()
    ensures IteratorsAsc().ChildrenPointBack()
  {
    var c := IteratorsAsc().children;
    forall i, k | 0 <= i < |c| && 0 <= k < |c[i]|
      ensures i < c[i][k] < 10 && IteratorsAsc().parent[c[i][k]] == i
    {
      assert i in {0, 1, 4, 7};
    }
  }

  lemma IteratorsAscListed()
    ensures IteratorsAsc().ChildrenListed()
  {
    var p, c := IteratorsAsc().parent, IteratorsAsc().children;
    forall j | 0 <= j < |p| && 0 <= p[j] < |c| ensures j in c[p[j]] {
      if j == 1 || j == 4 { assert c[0] == [1, 4]; }
      else if j == 2 || j == 3 { assert c[1] == [2, 3]; }
      else if j == 5 || j == 6 { assert c[4] == [5, 6]; }
      else { assert c[7] == [8, 9]; }
    }
  }

  lemma SimpleCellValid()
    ensures SimpleCell().Valid()
  {
    SimpleCellParents();
    SimpleCellChildren();
    SimpleCellListed();
  }

  lemma SimpleCellParents()
    ensures SimpleCell().ParentsPrecede() && SimpleCell().RootsListed()
  {
  }

  lemma SimpleCellChildren()
    ensures SimpleCell().ChildrenPointBack()
  {
    var c := SimpleCell().children;
    forall i, k | 0 <= i < |c| && 0 <= k < |c[i]|
      ensures i < c[i][k] < 6 && SimpleCell().parent[c[i][k]] == i
    {
      assert i in {0, 3};
    }
  }

  lemma SimpleCellListed()
    ensures SimpleCell().ChildrenListed()
  {
    var p, c := SimpleCell().parent, SimpleCell().children;
    forall j | 0 <= j < |p| && 0 <= p[j] < |c| ensures j in c[p[j]] {
      if j == 1 || j == 2 { assert c[0] == [1, 2]; }
      else { assert c[3] == [4, 5]; }
    }
  }

  /** The children lists of iterators.asc, as connectivity of any forest. */
  ghost predicate ShapedLikeIteratorsAsc(f: Forest) {
    f.Valid() && f.children == IteratorsAsc().children && f.roots == IteratorsAsc().roots
  }

  /** The children lists of the simple cells. */
  ghost predicate ShapedLikeSimpleCell(f: Forest) {
    f.Valid() && f.children == SimpleCell().children && f.roots == SimpleCell().roots
  }

  /** A section whose two children are leaves. */
  lemma Fork(f: Forest, i: nat, a: nat, b: nat)
    requires f.Valid() && i < f.Count() && f.children[i] == [a, b]
    requires a < f.Count() && b < f.Count() && f.children[a] == [] && f.children[b] == []
    ensures DepthFrom(f, [i]) == [i, a, b]
  {
    DepthFromSection(f, i);
    LeafStack(f, [a, b]);
  }

  /** A stack whose every entry is a leaf is visited as it stands. */
  lemma {:induction false} LeafStack(f: Forest, s: seq<nat>)
    requires f.Valid() && f.Within(s)
    requires forall k :: 0 <= k < |s| ==> f.children[s[k]] == []
    ensures DepthFrom(f, s) == s
    decreases |s|
  {
    if s != [] {
      assert f.children[s[0]] + s[1..] == s[1..];
      LeafStack(f, s[1..]);
    }
  }

  /** A queue whose every entry is a leaf is visited as it stands. */
  lemma {:induction false} LeafQueue(f: Forest, q: seq<nat>)
    requires f.Valid() && f.Within(q)
    requires forall k :: 0 <= k < |q| ==> f.children[q[k]] == []
    ensures BreadthFrom(f, q) == q
    decreases |q|
  {
    if q != [] {
      assert q[1..] + f.children[q[0]] == q[1..];
      LeafQueue(f, q[1..]);
    }
  }

  /** root.iter(depth_first) on iterators.asc gives [0, 1, 2, 3, 4, 5, 6]. */
  lemma IteratorsAscDepthFirst(f: Forest)
    requires ShapedLikeIteratorsAsc(f)
    ensures Remaining(f, DepthFirst, [0]) == [0, 1, 2, 3, 4, 5, 6]
  {
    IteratorsAscDepthBelowRoot(f);
    DepthFromSection(f, 0);
  }

  /** Below the first root of iterators.asc: the stack [1, 4] runs out as
      [1, 2, 3, 4, 5, 6]. */
  lemma IteratorsAscDepthBelowRoot(f: Forest)
    requires ShapedLikeIteratorsAsc(f)
    ensures DepthFrom(f, [1, 4]) == [1, 2, 3, 4, 5, 6]
  {
    Fork(f, 1, 2, 3);
    Fork(f, 4, 5, 6);
    DepthFromAppend(f, [1], [4]);
    assert [1] + [4] == [1, 4];
  }

  /** The queue [4, 2, 3] of iterators.asc runs out as [4, 2, 3, 5, 6]. */
  lemma IteratorsAscQueueFrom4(f: Forest)
    requires ShapedLikeIteratorsAsc(f)
    ensures BreadthFrom(f, [4, 2, 3]) == [4, 2, 3, 5, 6]
  {
    LeafQueue(f, [2, 3, 5, 6]);
    assert [4, 2, 3][1..] + f.children[4] == [2, 3, 5, 6];
  }

  /** root.iter(breadth_first) on iterators.asc gives [0, 1, 4, 2, 3, 5, 6]. */
  lemma IteratorsAscBreadthFirst(f: Forest)
    requires ShapedLikeIteratorsAsc(f)
    ensures Remaining(f, BreadthFirst, [0]) == [0, 1, 4, 2, 3, 5, 6]
  {
    IteratorsAscQueueFrom1(f);
    assert [0][1..] + f.children[0] == [1, 4];
  }

  /** The queue [1, 4] of iterators.asc: the first level below the root,
      then the level below that. */
  lemma IteratorsAscQueueFrom1(f: Forest)
    requires ShapedLikeIteratorsAsc(f)
    ensures BreadthFrom(f, [1, 4]) == [1, 4, 2, 3, 5, 6]
  {
    IteratorsAscQueueFrom4(f);
    assert [1, 4][1..] + f.children[1] == [4, 2, 3];
  }

  /** The queue [4, 8, 9, 2, 3] of iterators.asc runs out as it stands,
      followed by the children of 4. */
  lemma IteratorsAscLowerQueueFrom4(f: Forest)
    requires ShapedLikeIteratorsAsc(f)
    ensures BreadthFrom(f, [4, 8, 9, 2, 3]) == [4, 8, 9, 2, 3, 5, 6]
  {
    LeafQueue(f, [8, 9, 2, 3, 5, 6]);
    assert [4, 8, 9, 2, 3][1..] + f.children[4] == [8, 9, 2, 3, 5, 6];
  }

  /** The last two levels of iterators.asc, once both neurites' first
      levels are queued. */
  lemma IteratorsAscLowerLevels(f: Forest)
    requires ShapedLikeIteratorsAsc(f)
    ensures BreadthFrom(f, [1, 4, 8, 9]) == [1, 4, 8, 9, 2, 3, 5, 6]
  {
    IteratorsAscLowerQueueFrom4(f);
    assert [1, 4, 8, 9][1..] + f.children[1] == [4, 8, 9, 2, 3];
  }

  /** neuron.iter(breadth_first) on iterators.asc, seeded with both roots,
      gives [0, 7, 1, 4, 8, 9, 2, 3, 5, 6]. */
  lemma IteratorsAscMorphologyBreadthFirst(f: Forest)
    requires ShapedLikeIteratorsAsc(f)
    ensures Remaining(f, BreadthFirst, f.roots) == [0, 7, 1, 4, 8, 9, 2, 3, 5, 6]
  {
    IteratorsAscQueueFrom7(f);
    assert [0, 7][1..] + f.children[0] == [7, 1, 4];
  }

  /** The queue [7, 1, 4] of iterators.asc: the second root, then the
      levels below both roots. */
  lemma IteratorsAscQueueFrom7(f: Forest)
    requires ShapedLikeIteratorsAsc(f)
    ensures BreadthFrom(f, [7, 1, 4]) == [7, 1, 4, 8, 9, 2, 3, 5, 6]
  {
    IteratorsAscLowerLevels(f);
    assert [7, 1, 4][1..] + f.children[7] == [1, 4, 8, 9];
  }

  /** cell.iter() and cell.iter(depth_first) on the simple cells give [0 .. 5]. */
  lemma SimpleCellDefaultIteration(f: Forest)
    requires ShapedLikeSimpleCell(f)
    ensures Remaining(f, DefaultIterType, f.roots) == [0, 1, 2, 3, 4, 5]
    ensures Remaining(f, DepthFirst, f.roots) == [0, 1, 2, 3, 4, 5]
  {
    Fork(f, 0, 1, 2);
    Fork(f, 3, 4, 5);
    DepthFromAppend(f, [0], [3]);
    assert [0] + [3] == [0, 3];
  }

  /** root_sections[0].children[0].iter(upstream) on the simple cells yields
      that section and then its root, section 0. */
  lemma SimpleCellUpstream()
    ensures SimpleCell().Valid()
    ensures Remaining(SimpleCell(), UpstreamChain, [SimpleCell().children[SimpleCell().roots[0]][0]]) == [1, 0]
  {
    SimpleCellValid();
  }
}
