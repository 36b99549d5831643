/** Section connectivity and the traversal orders of the section iterators
    (include/morphio/iterators.h). An iterator's whole state is its container:
    a stack for depth-first order, a queue for breadth-first order, and the
    single current section for upstream order. Here every container is a
    sequence whose FRONT is the section the iterator currently points at
    (the top of the stack, the head of the queue). */
module Iterators {

  /** No element occurs twice. */
  predicate Distinct(s: seq<nat>) {
    forall a, b :: 0 <= a < b < |s| ==> s[a] != s[b]
  }

  /** Connectivity of a morphology's sections, whose ids are 0 .. Count()-1:
      the parent of each section (-1 for a root), the children of each
      section in declared order, and the root sections in declared order.
      A section is always created under an existing one, so its id exceeds
      its parent's. */
  datatype Forest = Forest(parent: seq<int>, children: seq<seq<nat>>, roots: seq<nat>)
  {
    function Count(): nat { |parent| }

    predicate Within(s: seq<nat>) {
      forall k :: 0 <= k < |s| ==> s[k] < |parent|
    }

    /** Every parent id is -1 or a smaller section id. */
    ghost predicate ParentsPrecede() {
      forall i :: 0 <= i < |parent| ==> -1 <= parent[i] < i
    }

    /** Every listed child is a later section whose parent is the lister. */
    ghost predicate ChildrenPointBack() {
      forall i, k :: 0 <= i < |children| && 0 <= k < |children[i]| ==>
        i < children[i][k] < |parent| && parent[children[i][k]] == i
    }

    /** Every section with a parent is listed once among that parent's children. */
    ghost predicate ChildrenListed() {
      && (forall j :: 0 <= j < |parent| && 0 <= parent[j] < |children| ==> j in children[parent[j]])
      && (forall i :: 0 <= i < |children| ==> Distinct(children[i]))
    }

    /** The roots are exactly the sections without a parent, each listed once. */
    ghost predicate RootsListed() {
      && (forall k :: 0 <= k < |roots| ==> roots[k] < |parent| && parent[roots[k]] == -1)
      && (forall j :: 0 <= j < |parent| && parent[j] == -1 ==> j in roots)
      && Distinct(roots)
    }

    ghost predicate Valid() {
      |children| == |parent| && ParentsPrecede() && ChildrenPointBack() && ChildrenListed() && RootsListed()
    }
  }

  // ---------------------------------------------------------------------
  // Sizes, the termination measure of every traversal
  // ---------------------------------------------------------------------

  /** Number of sections in the subtree rooted at i. */
  function SubtreeSize(f: Forest, i: nat): (r: nat)
    requires f.Valid() && i < f.Count()
    ensures r >= 1
    decreases f.Count() - i, |f.children[i]| + 1
  {
    1 + StackSize(f, f.children[i], i)
  }

  /** Total size of the subtrees rooted at the entries of s, all of which exceed lo. */
  function StackSize(f: Forest, s: seq<nat>, lo: int): nat
    requires f.Valid() && -1 <= lo
    requires forall k :: 0 <= k < |s| ==> lo < s[k] < f.Count()
    decreases f.Count() - lo, |s|
  {
    if s == [] then 0 else SubtreeSize(f, s[0]) + StackSize(f, s[1..], lo)
  }

  lemma {:induction false} StackSizeAppend(f: Forest, a: seq<nat>, b: seq<nat>, lo: int)
    requires f.Valid() && -1 <= lo
    requires forall k :: 0 <= k < |a| ==> lo < a[k] < f.Count()
    requires forall k :: 0 <= k < |b| ==> lo < b[k] < f.Count()
    ensures StackSize(f, a + b, lo) == StackSize(f, a, lo) + StackSize(f, b, lo)
  {
    if a != [] {
      assert (a + b)[0] == a[0];
      assert (a + b)[1..] == a[1..] + b;
      StackSizeAppend(f, a[1..], b, lo);
      assert StackSize(f, a + b, lo) == SubtreeSize(f, a[0]) + StackSize(f, a[1..] + b, lo);
    } else {
      assert a + b == b;
    }
  }

  lemma {:induction false} StackSizeLowered(f: Forest, s: seq<nat>, lo: int)
    requires f.Valid() && -1 <= lo
    requires forall k :: 0 <= k < |s| ==> lo < s[k] < f.Count()
    ensures StackSize(f, s, lo) == StackSize(f, s, -1)
  {
    if s != [] {
      StackSizeLowered(f, s[1..], lo);
    }
  }

  /** Replacing the front entry by its children, in front or at the back,
      shrinks the total size by one. */
  lemma StackSizeStep(f: Forest, s: seq<nat>)
    requires f.Valid() && f.Within(s) && s != []
    ensures f.Within(f.children[s[0]] + s[1..]) && f.Within(s[1..] + f.children[s[0]])
    ensures StackSize(f, f.children[s[0]] + s[1..], -1) == StackSize(f, s, -1) - 1
    ensures StackSize(f, s[1..] + f.children[s[0]], -1) == StackSize(f, s, -1) - 1
  {
    var c := f.children[s[0]];
    StackSizeLowered(f, c, s[0]);
    StackSizeAppend(f, c, s[1..], -1);
    StackSizeAppend(f, s[1..], c, -1);
  }

  // ---------------------------------------------------------------------
  // The three traversal orders, as the sequence of sections an iterator
  // yields from a given container until it equals the end iterator
  // ---------------------------------------------------------------------

  /** Depth-first: yield the top, then replace it by its children so that the
      first child is on top (they are pushed in reverse declared order). */
  function DepthFrom(f: Forest, stack: seq<nat>): (order: seq<nat>)
    requires f.Valid() && f.Within(stack)
    ensures f.Within(order)
    decreases StackSize(f, stack, -1)
  {
    if stack == [] then []
    else
      StackSizeStep(f, stack);
      [stack[0]] + DepthFrom(f, f.children[stack[0]] + stack[1..])
  }

  /** Breadth-first: yield the head of the queue, then enqueue its children
      in declared order. */
  function BreadthFrom(f: Forest, queue: seq<nat>): (order: seq<nat>)
    requires f.Valid() && f.Within(queue)
    ensures f.Within(order)
    decreases StackSize(f, queue, -1)
  {
    if queue == [] then []
    else
      StackSizeStep(f, queue);
      [queue[0]] + BreadthFrom(f, queue[1..] + f.children[queue[0]])
  }

  /** Upstream: the section, its parent, and so on up to its root. */
  function Upstream(f: Forest, i: nat): (chain: seq<nat>)
    requires f.Valid() && i < f.Count()
    ensures |chain| >= 1 && chain[0] == i && f.Within(chain)
    ensures forall k :: 0 <= k < |chain| - 1 ==> chain[k + 1] == f.parent[chain[k]]
    ensures f.parent[chain[|chain| - 1]] == -1
    decreases i
  {
    if f.parent[i] < 0 then [i] else [i] + Upstream(f, f.parent[i])
  }

  // ---------------------------------------------------------------------
  // Depth-first order: structure
  // ---------------------------------------------------------------------

  /** The traversal of a stack is the traversal of its top part followed by
      the traversal of the rest: each stacked subtree is finished before the
      next one starts. */
  lemma {:induction false} DepthFromAppend(f: Forest, a: seq<nat>, b: seq<nat>)
    requires f.Valid() && f.Within(a) && f.Within(b)
    ensures f.Within(a + b)
    ensures DepthFrom(f, a + b) == DepthFrom(f, a) + DepthFrom(f, b)
    decreases StackSize(f, a, -1)
  {
    assert f.Within(a + b);
    if a != [] {
      var c := f.children[a[0]];
      StackSizeStep(f, a);
      assert (a + b)[0] == a[0];
      assert (a + b)[1..] == a[1..] + b;
      assert c + (a + b)[1..] == (c + a[1..]) + b;
      DepthFromAppend(f, c + a[1..], b);
      assert DepthFrom(f, a + b) == [a[0]] + DepthFrom(f, (c + a[1..]) + b);
      assert DepthFrom(f, a) == [a[0]] + DepthFrom(f, c + a[1..]);
    } else {
      assert a + b == b;
    }
  }

  /** From one section, depth-first yields that section and then the subtrees
      of its children, one after another, in declared order. */
  lemma {:induction false} DepthFromSection(f: Forest, i: nat)
    requires f.Valid() && i < f.Count()
    ensures f.Within(f.children[i])
    ensures DepthFrom(f, [i]) == [i] + DepthFrom(f, f.children[i])
  {
    StackSizeStep(f, [i]);
    assert f.children[i] + [i][1..] == f.children[i];
  }

  /** Sibling order: the traversal of a list of sections is the concatenation
      of their individual traversals. */
  lemma {:induction false} DepthFromSiblings(f: Forest, cs: seq<nat>, k: nat)
    requires f.Valid() && f.Within(cs) && k < |cs|
    ensures DepthFrom(f, cs) == DepthFrom(f, cs[..k]) + DepthFrom(f, [cs[k]]) + DepthFrom(f, cs[k + 1..])
  {
    assert cs == cs[..k] + ([cs[k]] + cs[k + 1..]);
    DepthFromAppend(f, [cs[k]], cs[k + 1..]);
    DepthFromAppend(f, cs[..k], [cs[k]] + cs[k + 1..]);
  }

  /** Every section on the initial stack is yielded. */
  lemma {:induction false} DepthFromYieldsStack(f: Forest, s: seq<nat>, k: nat)
    requires f.Valid() && f.Within(s) && k < |s|
    ensures s[k] in DepthFrom(f, s)
  {
    DepthFromSiblings(f, s, k);
    DepthFromSection(f, s[k]);
  }

  /** Whenever a section is yielded, so are all of its children. */
  lemma {:induction false} DepthFromYieldsChildren(f: Forest, s: seq<nat>, x: nat, k: nat)
    requires f.Valid() && f.Within(s) && x < f.Count() && k < |f.children[x]|
    requires x in DepthFrom(f, s)
    ensures f.children[x][k] in DepthFrom(f, s)
    decreases StackSize(f, s, -1)
  {
    StackSizeStep(f, s);
    var next := f.children[s[0]] + s[1..];
    if x == s[0] {
      DepthFromYieldsStack(f, next, k);
    } else {
      DepthFromYieldsChildren(f, next, x, k);
    }
  }

  // ---------------------------------------------------------------------
  // Ancestry
  // ---------------------------------------------------------------------

  /** a lies on the parent chain of d (a section is its own ancestor). */
  ghost predicate AncestorOf(f: Forest, a: nat, d: nat)
    requires f.Valid() && d < f.Count()
    decreases d
  {
    a == d || (0 <= f.parent[d] && AncestorOf(f, a, f.parent[d]))
  }

  lemma {:induction false} AncestorIsSmaller(f: Forest, a: nat, d: nat)
    requires f.Valid() && d < f.Count() && AncestorOf(f, a, d)
    ensures a <= d
    decreases d
  {
    if a != d {
      AncestorIsSmaller(f, a, f.parent[d]);
    }
  }

  /** An ancestor of a section's parent is an ancestor of the section. */
  lemma {:induction false} AncestorOfChild(f: Forest, a: nat, c: nat, d: nat)
    requires f.Valid() && d < f.Count() && c < f.Count()
    requires 0 <= f.parent[c] && AncestorOf(f, a, f.parent[c])
    ensures AncestorOf(f, c, d) ==> AncestorOf(f, a, d)
    decreases d
  {
    if c != d && 0 <= f.parent[d] {
      AncestorOfChild(f, a, c, f.parent[d]);
    }
  }

  /** A section with a smaller id is never below a larger one. */
  lemma NotAncestorOfSmaller(f: Forest, a: nat, d: nat)
    requires f.Valid() && d < f.Count() && d < a
    ensures !AncestorOf(f, a, d)
  {
    if AncestorOf(f, a, d) {
      AncestorIsSmaller(f, a, d);
    }
  }

  /** A root's only ancestor is itself. */
  lemma {:induction false} AncestorOfRoot(f: Forest, a: nat, r: nat)
    requires f.Valid() && r < f.Count() && f.parent[r] == -1 && AncestorOf(f, a, r)
    ensures a == r
  {
  }

  /** No entry of s lies in the subtree of another, and none occurs twice. */
  ghost predicate Antichain(f: Forest, s: seq<nat>)
    requires f.Valid() && f.Within(s)
  {
    forall a, b :: 0 <= a < |s| && 0 <= b < |s| && a != b ==> !AncestorOf(f, s[a], s[b])
  }

  /** Everything yielded from a stack lies in the subtree of a stacked section. */
  lemma {:induction false} DepthFromInSubtrees(f: Forest, s: seq<nat>, z: nat)
    requires f.Valid() && f.Within(s) && z in DepthFrom(f, s)
    ensures z < f.Count()
    ensures exists k :: 0 <= k < |s| && AncestorOf(f, s[k], z)
    decreases StackSize(f, s, -1)
  {
    StackSizeStep(f, s);
    var c := f.children[s[0]];
    var next := c + s[1..];
    if z == s[0] {
      assert AncestorOf(f, s[0], z);
    } else {
      DepthFromInSubtrees(f, next, z);
      var k :| 0 <= k < |next| && AncestorOf(f, next[k], z);
      if k < |c| {
        AncestorOfChild(f, s[0], c[k], z);
        assert AncestorOf(f, s[0], z);
      } else {
        assert next[k] == s[k - |c| + 1];
      }
    }
  }

  /** Replacing the top of an antichain stack by its children keeps an antichain. */
  lemma AntichainStep(f: Forest, s: seq<nat>)
    requires f.Valid() && f.Within(s) && s != [] && Antichain(f, s)
    ensures f.Within(f.children[s[0]] + s[1..])
    ensures Antichain(f, f.children[s[0]] + s[1..])
  {
    var c := f.children[s[0]];
    var next := c + s[1..];
    StackSizeStep(f, s);
    forall a, b | 0 <= a < |next| && 0 <= b < |next| && a != b
      ensures !AncestorOf(f, next[a], next[b])
    {
      if a < |c| && b < |c| {
        // siblings: above next[b] are only its parent s[0] and smaller ids
        NotAncestorOfSmaller(f, next[a], s[0]);
        assert next[a] != next[b];
      } else if a < |c| {
        assert next[b] == s[b - |c| + 1];
        assert !AncestorOf(f, s[0], next[b]);
        AncestorOfChild(f, s[0], next[a], next[b]);
      } else if b < |c| {
        assert next[a] == s[a - |c| + 1];
        assert f.parent[next[b]] == s[0];
        assert AncestorOf(f, s[0], next[b]);
        assert !AncestorOf(f, s[0], next[a]);
        assert next[a] != next[b];
        assert !AncestorOf(f, next[a], s[0]);
      } else {
        assert next[a] == s[a - |c| + 1] && next[b] == s[b - |c| + 1];
      }
    }
  }

  /** Depth-first traversal of an antichain yields no section twice. */
  lemma {:induction false} DepthFromDistinct(f: Forest, s: seq<nat>)
    requires f.Valid() && f.Within(s) && Antichain(f, s)
    ensures Distinct(DepthFrom(f, s))
    decreases StackSize(f, s, -1)
  {
    if s != [] {
      var next := f.children[s[0]] + s[1..];
      AntichainStep(f, s);
      StackSizeStep(f, s);
      DepthFromDistinct(f, next);
      TopNotYieldedAgain(f, s);
      DistinctCons(s[0], DepthFrom(f, next));
    }
  }

  /** The section on top of an antichain stack is not yielded again once it
      has been replaced by its children. */
  lemma TopNotYieldedAgain(f: Forest, s: seq<nat>)
    requires f.Valid() && f.Within(s) && s != [] && Antichain(f, s)
    ensures f.Within(f.children[s[0]] + s[1..])
    ensures s[0] !in DepthFrom(f, f.children[s[0]] + s[1..])
  {
    var c := f.children[s[0]];
    var next := c + s[1..];
    AntichainStep(f, s);
    forall k | 0 <= k < |next| ensures !AncestorOf(f, next[k], s[0]) {
      if k < |c| {
        NotAncestorOfSmaller(f, next[k], s[0]);
      } else {
        assert next[k] == s[k - |c| + 1];
      }
    }
    if s[0] in DepthFrom(f, next) {
      DepthFromInSubtrees(f, next, s[0]);
    }
  }

  lemma DistinctCons(x: nat, t: seq<nat>)
    requires Distinct(t) && x !in t
    ensures Distinct([x] + t)
  {
    var out := [x] + t;
    forall a, b | 0 <= a < b < |out| ensures out[a] != out[b] {
      assert out[b] == t[b - 1];
      if a > 0 {
        assert out[a] == t[a - 1];
      }
    }
  }

  lemma RootsAntichain(f: Forest)
    requires f.Valid()
    ensures f.Within(f.roots) && Antichain(f, f.roots)
  {
    forall a, b | 0 <= a < |f.roots| && 0 <= b < |f.roots| && a != b
      ensures !AncestorOf(f, f.roots[a], f.roots[b])
    {
      if AncestorOf(f, f.roots[a], f.roots[b]) {
        AncestorOfRoot(f, f.roots[a], f.roots[b]);
      }
    }
  }

  /** The morphology-wide depth-first order: the iterator built from a
      morphology has every root section on its stack, the first on top. */
  function DepthOrder(f: Forest): (order: seq<nat>)
    requires f.Valid()
    ensures f.Within(order)
  {
    assert f.Within(f.roots);
    DepthFrom(f, f.roots)
  }

  /** Each section's parent is yielded before it, assuming every stacked
      section's parent (if any) has already been yielded (is in done). */
  lemma {:induction false} DepthFromParentFirst(f: Forest, s: seq<nat>, done: set<nat>, k: nat)
    requires f.Valid() && f.Within(s)
    requires forall j :: 0 <= j < |s| ==> f.parent[s[j]] < 0 || f.parent[s[j]] in done
    requires k < |DepthFrom(f, s)|
    ensures var x := DepthFrom(f, s)[k];
            f.parent[x] < 0 || f.parent[x] in done || f.parent[x] in DepthFrom(f, s)[..k]
    decreases StackSize(f, s, -1)
  {
    StackSizeStep(f, s);
    var next := f.children[s[0]] + s[1..];
    var out := DepthFrom(f, s);
    assert out == [s[0]] + DepthFrom(f, next);
    if k > 0 {
      forall j | 0 <= j < |next| ensures f.parent[next[j]] < 0 || f.parent[next[j]] in done + {s[0]} {
        if j >= |f.children[s[0]]| {
          assert next[j] == s[j - |f.children[s[0]]| + 1];
        }
      }
      DepthFromParentFirst(f, next, done + {s[0]}, k - 1);
      assert out[k] == DepthFrom(f, next)[k - 1];
      assert out[..k] == [s[0]] + DepthFrom(f, next)[..k - 1];
    }
  }

  /** Depth-first iteration over a morphology yields every section exactly
      once, and a section's parent before the section itself. */
  lemma DepthOrderIsPreorder(f: Forest)
    requires f.Valid()
    ensures Distinct(DepthOrder(f))
    ensures forall i :: 0 <= i < f.Count() ==> i in DepthOrder(f)
    ensures |DepthOrder(f)| == f.Count()
    ensures forall k :: 0 <= k < |DepthOrder(f)| && 0 <= f.parent[DepthOrder(f)[k]] ==>
              f.parent[DepthOrder(f)[k]] in DepthOrder(f)[..k]
  {
    var order := DepthOrder(f);
    RootsAntichain(f);
    DepthFromDistinct(f, f.roots);
    forall i | 0 <= i < f.Count() ensures i in order {
      DepthOrderCovers(f, i);
    }
    forall k | 0 <= k < |order| && 0 <= f.parent[order[k]]
      ensures f.parent[order[k]] in order[..k]
    {
      DepthFromParentFirst(f, f.roots, {}, k);
    }
    DistinctCoverLength(order, f.Count());
  }

  lemma {:induction false} DepthOrderCovers(f: Forest, i: nat)
    requires f.Valid() && i < f.Count()
    ensures i in DepthOrder(f)
    decreases i
  {
    assert f.Within(f.roots);
    if f.parent[i] == -1 {
      var k :| 0 <= k < |f.roots| && f.roots[k] == i;
      DepthFromYieldsStack(f, f.roots, k);
    } else {
      var p := f.parent[i];
      DepthOrderCovers(f, p);
      var k :| 0 <= k < |f.children[p]| && f.children[p][k] == i;
      DepthFromYieldsChildren(f, f.roots, p, k);
    }
  }

  /** The ids below n. */
  function Below(n: nat): (r: set<nat>)
    ensures forall i: nat :: i in r <==> i < n
    ensures |r| == n
  {
    if n == 0 then {} else Below(n - 1) + {n - 1}
  }

  /** A duplicate-free sequence of values below n that contains each of them has length n. */
  lemma DistinctCoverLength(s: seq<nat>, n: nat)
    requires Distinct(s)
    requires forall k :: 0 <= k < |s| ==> s[k] < n
    requires forall i :: 0 <= i < n ==> i in s
    ensures |s| == n
  {
    var elems := set k | 0 <= k < |s| :: s[k];
    forall i | i in Below(n) ensures i in elems {
      assert i in s;
    }
    assert elems == Below(n);
    DistinctSetSize(s);
  }

  lemma {:induction false} DistinctSetSize(s: seq<nat>)
    requires Distinct(s)
    ensures |set k | 0 <= k < |s| :: s[k]| == |s|
  {
    if s != [] {
      var t := s[..|s| - 1];
      assert Distinct(t);
      DistinctSetSize(t);
      var st := set k | 0 <= k < |t| :: t[k];
      assert (set k | 0 <= k < |s| :: s[k]) == st + {s[|s| - 1]};
      assert s[|s| - 1] !in st;
    }
  }

  /** In the depth-first order of a morphology, every ancestor of a section
      comes before it. */
  lemma {:induction false} DepthOrderAncestorsFirst(f: Forest, a: nat, d: nat, i: nat, j: nat)
    requires f.Valid() && d < f.Count()
    requires AncestorOf(f, a, d) && a != d
    requires i < |DepthOrder(f)| && j < |DepthOrder(f)|
    requires DepthOrder(f)[i] == a && DepthOrder(f)[j] == d
    ensures i < j
    decreases d
  {
    var order := DepthOrder(f);
    DepthOrderIsPreorder(f);
    var p := f.parent[d];
    var jp :| 0 <= jp < j && order[jp] == p;
    if a != p {
      DepthOrderAncestorsFirst(f, a, p, i, jp);
    } else if i != jp {
      assert false;
    }
  }

  // ---------------------------------------------------------------------
  // Breadth-first order: level by level
  // ---------------------------------------------------------------------

  /** Number of ancestors above a section. */
  function Level(f: Forest, i: nat): nat
    requires f.Valid() && i < f.Count()
    decreases i
  {
    if f.parent[i] < 0 then 0 else 1 + Level(f, f.parent[i])
  }

  /** Levels never decrease along s and span at most one level. */
  ghost predicate LevelOrdered(f: Forest, s: seq<nat>)
    requires f.Valid() && f.Within(s)
  {
    && (forall a, b :: 0 <= a < b < |s| ==> Level(f, s[a]) <= Level(f, s[b]))
    && (s != [] ==> Level(f, s[|s| - 1]) <= Level(f, s[0]) + 1)
  }

  lemma ChildLevel(f: Forest, i: nat, k: nat)
    requires f.Valid() && i < f.Count() && k < |f.children[i]|
    ensures f.children[i][k] < f.Count()
    ensures Level(f, f.children[i][k]) == Level(f, i) + 1
  {
  }

  /** Every entry of a level-ordered queue is at most one level below its head. */
  lemma QueueLevelBounds(f: Forest, q: seq<nat>)
    requires f.Valid() && f.Within(q) && q != [] && LevelOrdered(f, q)
    ensures forall k :: 0 <= k < |q| ==> Level(f, q[0]) <= Level(f, q[k]) <= Level(f, q[0]) + 1
  {
    forall k | 0 <= k < |q| ensures Level(f, q[0]) <= Level(f, q[k]) <= Level(f, q[0]) + 1 {
      if 0 < k < |q| - 1 {
        assert Level(f, q[k]) <= Level(f, q[|q| - 1]);
      }
    }
  }

  /** One breadth-first step keeps the queue level-ordered, and nothing
      left in it is above the level of the section just yielded. */
  lemma BreadthStepLevels(f: Forest, q: seq<nat>)
    requires f.Valid() && f.Within(q) && q != [] && LevelOrdered(f, q)
    ensures f.Within(q[1..] + f.children[q[0]])
    ensures LevelOrdered(f, q[1..] + f.children[q[0]])
    ensures forall k :: 0 <= k < |q[1..] + f.children[q[0]]| ==>
              Level(f, q[0]) <= Level(f, (q[1..] + f.children[q[0]])[k])
  {
    StackSizeStep(f, q);
    ChildrenLevels(f, q[0]);
    TailLevels(f, q);
    ConcatLevels(f, q[1..], f.children[q[0]], Level(f, q[0]));
  }

  /** Every child of i is one level below i. */
  lemma ChildrenLevels(f: Forest, i: nat)
    requires f.Valid() && i < f.Count()
    ensures f.Within(f.children[i])
    ensures forall k :: 0 <= k < |f.children[i]| ==> Level(f, f.children[i][k]) == Level(f, i) + 1
  {
    forall k | 0 <= k < |f.children[i]| ensures Level(f, f.children[i][k]) == Level(f, i) + 1 {
      ChildLevel(f, i, k);
    }
  }

  /** What is left of a level-ordered queue after its head is level-ordered
      and within one level below the head. */
  lemma TailLevels(f: Forest, q: seq<nat>)
    requires f.Valid() && f.Within(q) && q != [] && LevelOrdered(f, q)
    ensures f.Within(q[1..])
    ensures forall k :: 0 <= k < |q[1..]| ==> Level(f, q[0]) <= Level(f, q[1..][k]) <= Level(f, q[0]) + 1
    ensures forall a, b :: 0 <= a < b < |q[1..]| ==> Level(f, q[1..][a]) <= Level(f, q[1..][b])
  {
    QueueLevelBounds(f, q);
    var rest := q[1..];
    forall k | 0 <= k < |rest| ensures Level(f, q[0]) <= Level(f, rest[k]) <= Level(f, q[0]) + 1 {
      assert rest[k] == q[k + 1];
    }
    forall a, b | 0 <= a < b < |rest| ensures Level(f, rest[a]) <= Level(f, rest[b]) {
      assert rest[a] == q[a + 1] && rest[b] == q[b + 1];
    }
  }

  /** A level-ordered queue within levels d and d + 1, followed by sections all
      of level d + 1, is level-ordered and still within those levels. */
  lemma ConcatLevels(f: Forest, rest: seq<nat>, c: seq<nat>, d: nat)
    requires f.Valid() && f.Within(rest) && f.Within(c)
    requires forall k :: 0 <= k < |rest| ==> d <= Level(f, rest[k]) <= d + 1
    requires forall a, b :: 0 <= a < b < |rest| ==> Level(f, rest[a]) <= Level(f, rest[b])
    requires forall k :: 0 <= k < |c| ==> Level(f, c[k]) == d + 1
    ensures f.Within(rest + c)
    ensures forall k :: 0 <= k < |rest + c| ==> d <= Level(f, (rest + c)[k]) <= d + 1
    ensures LevelOrdered(f, rest + c)
  {
    var next := rest + c;
    forall k | 0 <= k < |next| ensures d <= Level(f, next[k]) <= d + 1 {
      if k < |rest| {
        assert next[k] == rest[k];
      } else {
        assert next[k] == c[k - |rest|];
      }
    }
    forall a, b | 0 <= a < b < |next| ensures Level(f, next[a]) <= Level(f, next[b]) {
      if b < |rest| {
        assert next[a] == rest[a] && next[b] == rest[b];
      } else if a >= |rest| {
        assert next[a] == c[a - |rest|] && next[b] == c[b - |rest|];
      } else {
        assert next[a] == rest[a] && next[b] == c[b - |rest|];
      }
    }
  }

  /** Breadth-first iteration from a queue whose levels are ordered yields
      sections in non-decreasing level: level by level. */
  lemma {:induction false} BreadthFromByLevel(f: Forest, q: seq<nat>)
    requires f.Valid() && f.Within(q) && LevelOrdered(f, q)
    ensures forall a, b :: 0 <= a < b < |BreadthFrom(f, q)| ==>
              Level(f, BreadthFrom(f, q)[a]) <= Level(f, BreadthFrom(f, q)[b])
    decreases StackSize(f, q, -1)
  {
    if q != [] {
      StackSizeStep(f, q);
      var next := q[1..] + f.children[q[0]];
      BreadthStepLevels(f, q);
      BreadthFromByLevel(f, next);
      var rest := BreadthFrom(f, next);
      var out := BreadthFrom(f, q);
      assert out == [q[0]] + rest;
      forall a, b | 0 <= a < b < |out| ensures Level(f, out[a]) <= Level(f, out[b]) {
        if a == 0 {
          assert out[b] == rest[b - 1];
          assert rest[0] == next[0];
          assert Level(f, rest[0]) <= Level(f, rest[b - 1]);
        } else {
          assert out[a] == rest[a - 1] && out[b] == rest[b - 1];
        }
      }
    }
  }

  /** Breadth-first iteration over a morphology (seeded with every root, in
      order) and from a single section both go level by level. */
  lemma BreadthOrderByLevel(f: Forest, seeds: seq<nat>)
    requires f.Valid() && (seeds == f.roots || (|seeds| == 1 && seeds[0] < f.Count()))
    ensures f.Within(seeds)
    ensures forall a, b :: 0 <= a < b < |BreadthFrom(f, seeds)| ==>
              Level(f, BreadthFrom(f, seeds)[a]) <= Level(f, BreadthFrom(f, seeds)[b])
  {
    assert f.Within(seeds);
    BreadthFromByLevel(f, seeds);
  }

  // ---------------------------------------------------------------------
  // The iterator object
  // ---------------------------------------------------------------------

  /** The container type T of Iterator<T>. */
  datatype IterType = DepthFirst | BreadthFirst | UpstreamChain

  /** The iteration order used when none is asked for. */
  const DefaultIterType: IterType := DepthFirst

  /** Everything an iterator of the given kind still yields from container c. */
  function Remaining(f: Forest, kind: IterType, c: seq<nat>): seq<nat>
    requires f.Valid() && f.Within(c) && (kind == UpstreamChain ==> |c| <= 1)
  {
    match kind
    case DepthFirst => DepthFrom(f, c)
    case BreadthFirst => BreadthFrom(f, c)
    case UpstreamChain => if c == [] then [] else Upstream(f, c[0])
  }

  class SectionIterator {
    const forest: Forest
    const kind: IterType
    var container: seq<nat>

    ghost predicate Valid()
      reads this
    {
      forest.Valid() && forest.Within(container) && (kind == UpstreamChain ==> |container| <= 1)
    }

    /** What the iterator still yields before it equals the end iterator. */
    ghost function Pending(): seq<nat>
      reads this
      requires Valid()
    {
      Remaining(forest, kind, container)
    }

    /** The end iterator: default-constructed, with an empty container. */
    constructor End(f: Forest, kind: IterType)
      requires f.Valid()
      ensures Valid() && forest == f && this.kind == kind
      ensures container == [] && Pending() == []
    {
      forest, this.kind, container := f, kind, [];
    }

    /** Iteration starting at one section. */
    constructor FromSection(f: Forest, kind: IterType, id: nat)
      requires f.Valid() && id < f.Count()
      ensures Valid() && forest == f && this.kind == kind
      ensures container == [id]
    {
      forest, this.kind, container := f, kind, [id];
    }

    /** Iteration over a whole morphology: every root section is put in the
        container, pushed last-to-first onto a stack so that the first root
        is on top, or enqueued first-to-last. */
    constructor FromMorphology(f: Forest, kind: IterType)
      requires f.Valid() && kind != UpstreamChain
      ensures Valid() && forest == f && this.kind == kind
      ensures container == f.roots
    {
      forest, this.kind := f, kind;
      var c: seq<nat> := [];
      var roots := f.roots;
      if kind == DepthFirst {
        var k := |roots|;
        while k > 0
          invariant 0 <= k <= |roots|
          invariant c == roots[k..]
        {
          k := k - 1;
          c := [roots[k]] + c;
        }
      } else {
        var k := 0;
        while k < |roots|
          invariant 0 <= k <= |roots|
          invariant c == roots[..k]
        {
          c := c + [roots[k]];
          k := k + 1;
        }
        assert roots[..|roots|] == roots;
      }
      container := c;
    }

    /** operator== and operator!= compare the containers: an iterator equals
        the end iterator exactly when it is exhausted, and two equal
        iterators over the same sections yield the same rest. */
    predicate Equals(other: SectionIterator)
      reads this, other
      ensures other.AtEnd() ==> (Equals(other) <==> AtEnd())
      ensures Equals(other) && Valid() && other.Valid() && forest == other.forest && kind == other.kind
        ==> Pending() == other.Pending()
    {
      container == other.container
    }

    /** Equal to the end iterator exactly when the container is empty. */
    predicate AtEnd()
      reads this
    {
      container == []
    }

    /** operator*: the section on top of the stack or at the head of the queue. */
    function Current(): (id: nat)
      reads this
      requires Valid() && container != []
      ensures id < forest.Count() && id == Pending()[0]
    {
      container[0]
    }

    /** operator++: consumes exactly the first pending section. */
    method Next()
      requires Valid() && container != []
      modifies this
      ensures Valid()
      ensures old(Pending()) == [old(Current())] + Pending()
    {
      var top := container[0];
      StackSizeStep(forest, container);
      match kind
      case DepthFirst =>
        container := forest.children[top] + container[1..];
      case BreadthFirst =>
        container := container[1..] + forest.children[top];
      case UpstreamChain =>
        container := if forest.parent[top] >= 0 then [forest.parent[top] as nat] else [];
    }
  }

  /** The loop from an iterator up to the end iterator yields exactly the
      pending sequence. */
  method Collect(it: SectionIterator, end: SectionIterator) returns (ids: seq<nat>)
    requires it.Valid() && end.AtEnd() && it != end
    modifies it
    ensures it.Valid() && it.Equals(end)
    ensures ids == old(it.Pending())
  {
    ids := [];
    while !it.Equals(end)
      invariant it.Valid() && end.AtEnd()
      invariant ids + it.Pending() == old(it.Pending())
      decreases |it.Pending()|
    {
      ids := ids + [it.Current()];
      it.Next();
    }
  }

  // ---------------------------------------------------------------------
  // The vasculature graph iterator: a stack plus a visited set
  // ---------------------------------------------------------------------

  /** The set of entries of s. */
  function Elems(s: seq<nat>): set<nat> {
    set x | x in s
  }

  /** The sections an operator++ pushes when it walks the neighbour list ns
      from last to first, pushing each neighbour not yet visited and marking
      it visited: listed from the new top of the stack downwards, so the
      first not-yet-visited neighbour ends up on top. */
  function Pushes(visited: set<nat>, ns: seq<nat>): (pushed: seq<nat>)
    ensures Distinct(pushed)
    ensures forall k :: 0 <= k < |pushed| ==> pushed[k] in ns && pushed[k] !in visited
    ensures forall x :: x in ns && x !in visited ==> x in pushed
  {
    if ns == [] then []
    else
      var tail := Pushes(visited, ns[1..]);
      if ns[0] in visited + Elems(ns[1..]) then tail
      else
        assert forall k :: 0 <= k < |tail| ==> tail[k] != ns[0];
        [ns[0]] + tail
  }

  /** The pushed sections are the neighbours not visited before. */
  lemma PushesElems(visited: set<nat>, ns: seq<nat>)
    ensures Elems(Pushes(visited, ns)) == Elems(ns) - visited
  {
    var pushed := Pushes(visited, ns);
    forall x | x in pushed
      ensures x in ns && x !in visited
    {
      var k :| 0 <= k < |pushed| && pushed[k] == x;
    }
  }

  /** The neighbour list of id in g; a section without an entry has none. */
  function NeighboursIn(g: map<nat, seq<nat>>, id: nat): seq<nat> {
    if id in g then g[id] else []
  }

  /** x is a neighbour of one of the sections of ys. */
  predicate Discovered(g: map<nat, seq<nat>>, x: nat, ys: seq<nat>) {
    exists j :: 0 <= j < |ys| && x in NeighboursIn(g, ys[j])
  }

  /** Every neighbour of a section of ys is in s. */
  predicate ClosedUnder(g: map<nat, seq<nat>>, ys: seq<nat>, s: set<nat>) {
    forall k, x :: 0 <= k < |ys| && x in NeighboursIn(g, ys[k]) ==> x in s
  }

  /** Each section of ys is a start or a neighbour of a section before it. */
  predicate StartedInOrder(g: map<nat, seq<nat>>, starts: set<nat>, ys: seq<nat>) {
    forall k :: 0 <= k < |ys| ==> ys[k] in starts || Discovered(g, ys[k], ys[..k])
  }

  class GraphIterator {
    /** The neighbour lists the iterator follows. */
    const neighbours: map<nat, seq<nat>>
    /** The sections it was started from. */
    ghost const starts: set<nat>
    var visited: set<nat>
    /** The stack; its front is the current section. */
    var container: seq<nat>
    /** Everything yielded so far, oldest first. */
    ghost var yielded: seq<nat>

    /** The visited sections are those yielded and those on the stack; each
        was a start or a neighbour of a yielded section, and every neighbour
        of a yielded section has been visited. */
    ghost predicate Valid()
      reads this
    {
      && Distinct(container) && Distinct(yielded)
      && (forall k :: 0 <= k < |container| ==> container[k] !in yielded)
      && visited == Elems(yielded) + Elems(container)
      && starts <= visited
      && (forall x :: x in visited ==> x in starts || Discovered(neighbours, x, yielded))
      && ClosedUnder(neighbours, yielded, visited)
      && StartedInOrder(neighbours, starts, yielded)
    }

    function NeighboursOf(id: nat): seq<nat>
      reads this
    {
      NeighboursIn(neighbours, id)
    }

    /** The end iterator: empty stack, nothing visited. */
    constructor End(neighbours: map<nat, seq<nat>>)
      ensures Valid() && this.neighbours == neighbours && starts == {}
      ensures container == [] && visited == {} && yielded == []
    {
      this.neighbours := neighbours;
      starts := {};
      visited, container := {}, [];
      yielded := [];
    }

    /** Iteration from a list of starting sections, the first on top; each is
        marked visited as it is pushed, so a repeated one is pushed once. */
    constructor FromSections(neighbours: map<nat, seq<nat>>, seeds: seq<nat>)
      ensures Valid() && this.neighbours == neighbours && starts == Elems(seeds)
      ensures container == Pushes({}, seeds) && visited == Elems(seeds) && yielded == []
    {
      this.neighbours := neighbours;
      starts := Elems(seeds);
      yielded := [];
      var c: seq<nat> := [];
      var seen: set<nat> := {};
      var k := |seeds|;
      while k > 0
        invariant 0 <= k <= |seeds|
        invariant c == Pushes({}, seeds[k..]) && seen == Elems(seeds[k..])
      {
        k := k - 1;
        assert seeds[k..][1..] == seeds[k + 1..];
        if seeds[k] !in seen {
          c := [seeds[k]] + c;
          seen := seen + {seeds[k]};
        }
        assert Elems(seeds[k..]) == {seeds[k]} + Elems(seeds[k + 1..]);
      }
      container, visited := c, seen;
      PushesElems({}, seeds);
    }

    /** Equal to the end iterator exactly when every visited section has
        been yielded. */
    predicate AtEnd()
      reads this
      ensures Valid() ==> (AtEnd() <==> visited == Elems(yielded))
    {
      if container == [] then
        assert Elems(container) == {};
        true
      else
        assert container[0] in Elems(container);
        false
    }

    /** operator*: the section on top of the stack, visited and not yet
        yielded. */
    function Current(): (id: nat)
      reads this
      requires Valid() && container != []
      ensures id in visited && id !in yielded
    {
      container[0]
    }

    /** operator++: pop the current section, then push its neighbours that
        were never visited, marking them visited. No section is ever yielded
        twice. */
    method Next()
      requires Valid() && container != []
      modifies this
      ensures Valid()
      ensures yielded == old(yielded) + [old(container[0])]
      ensures container == Pushes(old(visited), NeighboursOf(old(container[0]))) + old(container[1..])
      ensures visited == old(visited) + Elems(NeighboursOf(old(container[0])))
    {
      var top := container[0];
      var rest := container[1..];
      var ns := NeighboursOf(top);
      var c, seen := PushUnvisited(ns, visited, rest);
      ghost var pushed := Pushes(visited, ns);
      NextKeepsValid(this, top, rest, ns, pushed, c, seen);
      yielded := yielded + [top];
      container, visited := c, seen;
    }
  }

  /** The facts Valid() needs after operator++, stated on the values it
      assigns. */
  lemma NextKeepsValid(it: GraphIterator, top: nat, rest: seq<nat>, ns: seq<nat>,
                       pushed: seq<nat>, c: seq<nat>, seen: set<nat>)
    requires it.Valid() && it.container == [top] + rest
    requires ns == NeighboursIn(it.neighbours, top) && pushed == Pushes(it.visited, ns)
    requires c == pushed + rest && seen == it.visited + Elems(ns)
    ensures Distinct(c) && Distinct(it.yielded + [top])
    ensures forall k :: 0 <= k < |c| ==> c[k] !in it.yielded + [top]
    ensures seen == Elems(it.yielded + [top]) + Elems(c)
    ensures it.starts <= seen
    ensures forall x :: x in seen ==> x in it.starts || Discovered(it.neighbours, x, it.yielded + [top])
    ensures ClosedUnder(it.neighbours, it.yielded + [top], seen)
    ensures StartedInOrder(it.neighbours, it.starts, it.yielded + [top])
  {
    var g, ys, v := it.neighbours, it.yielded, it.visited;
    assert top == it.container[0] && rest == it.container[1..];
    NextStack(ys, v, top, rest, ns, pushed, c);
    NextVisited(ys, v, top, rest, ns, pushed, c, seen);
    NextDiscovered(g, it.starts, ys, v, top, seen);
    NextClosed(g, ys, v, top, seen);
    NextInOrder(g, it.starts, ys, v, top);
  }

  lemma NextStack(ys: seq<nat>, v: set<nat>, top: nat, rest: seq<nat>, ns: seq<nat>,
                  pushed: seq<nat>, c: seq<nat>)
    requires Distinct([top] + rest) && Distinct(ys)
    requires forall k :: 0 <= k < |[top] + rest| ==> ([top] + rest)[k] !in ys
    requires v == Elems(ys) + Elems([top] + rest)
    requires pushed == Pushes(v, ns) && c == pushed + rest
    ensures Distinct(c) && Distinct(ys + [top])
    ensures forall k :: 0 <= k < |c| ==> c[k] !in ys + [top]
  {
    assert ([top] + rest)[0] == top;
    assert top in Elems([top] + rest);
    assert forall k :: 0 <= k < |rest| ==> rest[k] == ([top] + rest)[k + 1];
    assert forall k :: 0 <= k < |rest| ==> rest[k] !in ys && rest[k] != top;
    assert forall k :: 0 <= k < |pushed| ==> pushed[k] !in v;
    DistinctConcat(pushed, rest);
    forall k | 0 <= k < |c|
      ensures c[k] !in ys + [top]
    {
      if k >= |pushed| {
        assert c[k] == rest[k - |pushed|];
      }
    }
  }

  lemma NextVisited(ys: seq<nat>, v: set<nat>, top: nat, rest: seq<nat>, ns: seq<nat>,
                    pushed: seq<nat>, c: seq<nat>, seen: set<nat>)
    requires v == Elems(ys) + Elems([top] + rest)
    requires pushed == Pushes(v, ns) && c == pushed + rest && seen == v + Elems(ns)
    ensures seen == Elems(ys + [top]) + Elems(c)
  {
    PushesElems(v, ns);
    assert Elems([top] + rest) == {top} + Elems(rest);
    assert Elems(c) == Elems(pushed) + Elems(rest);
    assert Elems(ys + [top]) == Elems(ys) + {top};
  }

  lemma NextDiscovered(g: map<nat, seq<nat>>, starts: set<nat>, ys: seq<nat>, v: set<nat>,
                       top: nat, seen: set<nat>)
    requires forall x :: x in v ==> x in starts || Discovered(g, x, ys)
    requires seen == v + Elems(NeighboursIn(g, top))
    ensures forall x :: x in seen ==> x in starts || Discovered(g, x, ys + [top])
  {
    var ys' := ys + [top];
    forall x | x in seen
      ensures x in starts || Discovered(g, x, ys')
    {
      if x in v {
        if x !in starts {
          var j :| 0 <= j < |ys| && x in NeighboursIn(g, ys[j]);
          assert ys'[j] == ys[j];
        }
      } else {
        assert x in NeighboursIn(g, ys'[|ys|]);
      }
    }
  }

  lemma NextClosed(g: map<nat, seq<nat>>, ys: seq<nat>, v: set<nat>, top: nat, seen: set<nat>)
    requires ClosedUnder(g, ys, v)
    requires seen == v + Elems(NeighboursIn(g, top))
    ensures ClosedUnder(g, ys + [top], seen)
  {
    var ys' := ys + [top];
    forall k, x | 0 <= k < |ys'| && x in NeighboursIn(g, ys'[k])
      ensures x in seen
    {
      if k < |ys| {
        assert ys'[k] == ys[k];
      }
    }
  }

  lemma NextInOrder(g: map<nat, seq<nat>>, starts: set<nat>, ys: seq<nat>, v: set<nat>, top: nat)
    requires StartedInOrder(g, starts, ys)
    requires top in v && forall x :: x in v ==> x in starts || Discovered(g, x, ys)
    ensures StartedInOrder(g, starts, ys + [top])
  {
    var ys' := ys + [top];
    forall k | 0 <= k < |ys'|
      ensures ys'[k] in starts || Discovered(g, ys'[k], ys'[..k])
    {
      if k < |ys| {
        assert ys'[k] == ys[k] && ys'[..k] == ys[..k];
      } else {
        assert ys'[..k] == ys;
      }
    }
  }

  /** Two duplicate-free sequences with no common entry concatenate to a
      duplicate-free sequence. */
  lemma DistinctConcat(a: seq<nat>, b: seq<nat>)
    requires Distinct(a) && Distinct(b)
    requires forall i, j :: 0 <= i < |a| && 0 <= j < |b| ==> a[i] != b[j]
    ensures Distinct(a + b)
  {
    forall i, j | 0 <= i < j < |a + b| ensures (a + b)[i] != (a + b)[j] {
      if j < |a| {
      } else if i < |a| {
        assert (a + b)[j] == b[j - |a|];
      } else {
        assert (a + b)[i] == b[i - |a|] && (a + b)[j] == b[j - |a|];
      }
    }
  }

  /** The neighbour loop of operator++: walk ns from last to first, pushing
      onto stack every neighbour not yet seen and marking it seen. */
  method PushUnvisited(ns: seq<nat>, visited: set<nat>, stack: seq<nat>)
    returns (c: seq<nat>, seen: set<nat>)
    ensures c == Pushes(visited, ns) + stack
    ensures seen == visited + Elems(ns)
  {
    c, seen := stack, visited;
    var k := |ns|;
    while k > 0
      invariant 0 <= k <= |ns|
      invariant c == Pushes(visited, ns[k..]) + stack
      invariant seen == visited + Elems(ns[k..])
    {
      k := k - 1;
      PushStep(visited, ns, k, stack, c, seen);
      if ns[k] !in seen {
        c := [ns[k]] + c;
      }
      seen := seen + {ns[k]};
    }
    assert ns[0..] == ns;
  }

  /** One more neighbour walked, from the end of the list towards its front:
      it is pushed unless already seen, and it is seen afterwards. */
  lemma PushStep(visited: set<nat>, ns: seq<nat>, k: nat, stack: seq<nat>, c: seq<nat>, seen: set<nat>)
    requires k < |ns|
    requires c == Pushes(visited, ns[k + 1..]) + stack
    requires seen == visited + Elems(ns[k + 1..])
    ensures (if ns[k] !in seen then [ns[k]] + c else c) == Pushes(visited, ns[k..]) + stack
    ensures seen + {ns[k]} == visited + Elems(ns[k..])
  {
    assert ns[k..][1..] == ns[k + 1..];
    assert ns[k..][0] == ns[k];
    assert Elems(ns[k..]) == {ns[k]} + Elems(ns[k + 1..]);
  }

  /** Every section the neighbour lists mention. */
  function Mentioned(neighbours: map<nat, seq<nat>>): set<nat> {
    set id, k | id in neighbours && 0 <= k < |neighbours[id]| :: neighbours[id][k]
  }

  /** Something is pushed only when a neighbour had not been visited yet. */
  lemma PushesNeedUnvisited(visited: set<nat>, ns: seq<nat>)
    requires Pushes(visited, ns) != []
    ensures exists k :: 0 <= k < |ns| && ns[k] !in visited
  {
    var x := Pushes(visited, ns)[0];
    assert x in ns;
  }

  lemma SmallerSetSmallerSize(a: set<nat>, b: set<nat>, x: nat)
    requires a <= b && x in b && x !in a
    ensures |a| < |b|
  {
    assert a <= b - {x};
    assert |b - {x}| == |b| - 1;
    SubsetSize(a, b - {x});
  }

  lemma {:induction false} SubsetSize(a: set<nat>, b: set<nat>)
    requires a <= b
    ensures |a| <= |b|
    decreases b
  {
    if a != {} {
      var y :| y in a;
      SubsetSize(a - {y}, b - {y});
    }
  }

  /** Running a graph iterator to its end yields each section at most once;
      what it yields holds the starts, holds every neighbour of a yielded
      section, and every yielded section is a start or a neighbour of one
      yielded before it. */
  method GraphCollect(it: GraphIterator) returns (ids: seq<nat>)
    requires it.Valid() && it.yielded == []
    modifies it
    ensures it.AtEnd() && it.Valid()
    ensures ids == it.yielded && Distinct(ids)
    ensures it.starts <= Elems(ids)
    ensures ClosedUnder(it.neighbours, ids, Elems(ids))
    ensures StartedInOrder(it.neighbours, it.starts, ids)
  {
    ids := [];
    while !it.AtEnd()
      invariant it.Valid() && ids == it.yielded
      decreases |Mentioned(it.neighbours) - it.visited|, |it.container|
    {
      ghost var before, stack := it.visited, it.container;
      var top := it.Current();
      it.Next();
      ids := ids + [top];
      GraphStepDecreases(it.neighbours, before, stack, it.visited, it.container);
    }
  }

  /** One operator++ either visits a section it never visited, or visits
      nothing new and leaves a shorter stack. */
  lemma GraphStepDecreases(g: map<nat, seq<nat>>, before: set<nat>, stack: seq<nat>,
                           after: set<nat>, stack': seq<nat>)
    requires stack != []
    requires stack' == Pushes(before, NeighboursIn(g, stack[0])) + stack[1..]
    requires after == before + Elems(NeighboursIn(g, stack[0]))
    ensures |Mentioned(g) - after| < |Mentioned(g) - before|
      || (after == before && |stack'| < |stack|)
  {
    var ns := NeighboursIn(g, stack[0]);
    if Pushes(before, ns) != [] {
      PushesNeedUnvisited(before, ns);
      var k :| 0 <= k < |ns| && ns[k] !in before;
      assert ns[k] in Mentioned(g);
      SmallerSetSmallerSize(Mentioned(g) - after, Mentioned(g) - before, ns[k]);
    } else {
      assert forall x :: x in ns ==> x in before;
      assert after == before;
    }
  }

  /** walk starts at a start section and each step goes to a neighbour. */
  predicate IsWalk(g: map<nat, seq<nat>>, starts: set<nat>, walk: seq<nat>) {
    && walk != [] && walk[0] in starts
    && forall i :: 0 <= i < |walk| - 1 ==> walk[i + 1] in NeighboursIn(g, walk[i])
  }

  /** A set that holds the starts and every neighbour of its members holds
      the end of every walk: whatever is reachable. */
  lemma {:induction false} WalksStayInside(g: map<nat, seq<nat>>, starts: set<nat>, ys: seq<nat>, walk: seq<nat>)
    requires starts <= Elems(ys) && ClosedUnder(g, ys, Elems(ys))
    requires IsWalk(g, starts, walk)
    ensures walk[|walk| - 1] in ys
    decreases |walk|
  {
    var n := |walk|;
    if n > 1 {
      var prefix := walk[..n - 1];
      assert IsWalk(g, starts, prefix) by {
        forall i | 0 <= i < |prefix| - 1
          ensures prefix[i + 1] in NeighboursIn(g, prefix[i])
        {
          assert prefix[i] == walk[i] && prefix[i + 1] == walk[i + 1];
        }
      }
      WalksStayInside(g, starts, ys, prefix);
      assert prefix[|prefix| - 1] == walk[n - 2];
      var k :| 0 <= k < |ys| && ys[k] == walk[n - 2];
      assert walk[n - 1] in NeighboursIn(g, ys[k]);
      assert walk[n - 1] in Elems(ys);
    } else {
      assert walk[0] in Elems(ys);
    }
  }

  /** Every section of a sequence whose sections are starts or neighbours of
      earlier ones is the end of a walk: it is reachable. */
  lemma {:induction false} WalkTo(g: map<nat, seq<nat>>, starts: set<nat>, ys: seq<nat>, k: nat)
    returns (walk: seq<nat>)
    requires StartedInOrder(g, starts, ys) && k < |ys|
    ensures IsWalk(g, starts, walk) && walk[|walk| - 1] == ys[k]
    decreases k
  {
    if ys[k] in starts {
      walk := [ys[k]];
    } else {
      var j :| 0 <= j < k && ys[k] in NeighboursIn(g, ys[..k][j]);
      assert ys[..k][j] == ys[j];
      var front := WalkTo(g, starts, ys, j);
      walk := front + [ys[k]];
      forall i | 0 <= i < |walk| - 1
        ensures walk[i + 1] in NeighboursIn(g, walk[i])
      {
        if i < |front| - 1 {
          assert walk[i] == front[i] && walk[i + 1] == front[i + 1];
        }
      }
    }
  }

  /** What a graph iterator yields, run to its end from where it starts, is
      exactly the set of sections reachable from its starts. */
  lemma GraphCollectReachable(g: map<nat, seq<nat>>, starts: set<nat>, ids: seq<nat>, x: nat)
    requires starts <= Elems(ids) && ClosedUnder(g, ids, Elems(ids))
    requires StartedInOrder(g, starts, ids)
    ensures x in ids <==> exists walk :: IsWalk(g, starts, walk) && walk[|walk| - 1] == x
  {
    if x in ids {
      var k :| 0 <= k < |ids| && ids[k] == x;
      var walk := WalkTo(g, starts, ids, k);
    }
    if exists walk :: IsWalk(g, starts, walk) && walk[|walk| - 1] == x {
      var walk :| IsWalk(g, starts, walk) && walk[|walk| - 1] == x;
      WalksStayInside(g, starts, ids, walk);
    }
  }
}
