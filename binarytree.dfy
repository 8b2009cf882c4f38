// binaryTree: an unbalanced binary search tree with parent pointers, ordered
// by a comparator, and the in-order walk its iterators perform.
//
// The linked nodes are modelled as a value tree held in the tree object's
// `root` field; a node is identified by its path from the root (a sequence of
// left/right steps), and a node's parent is the path without its last step.
// Rewiring a parent's child pointer becomes replacing the subtree at a path.

module BinaryTrees {
  import opened Errors
  import opened LexOrder

  datatype Tree<T> = Nil | Node(left: Tree<T>, data: T, right: Tree<T>)

  datatype Dir = Left | Right

  type Path = seq<Dir>

  function Opp(d: Dir): (e: Dir)
    ensures e != d
  {
    if d == Left then Right else Left
  }

  /** `sizeRecursive`: the number of nodes, one per element. */
  function NodeCount<T>(t: Tree<T>): nat {
    match t
    case Nil => 0
    case Node(l, _, r) => 1 + NodeCount(l) + NodeCount(r)
  }

  /** The child pointer in direction `d`; a null node has none. */
  function Child<T>(t: Tree<T>, d: Dir): (c: Tree<T>)
    ensures t.Node? ==> NodeCount(c) < NodeCount(t)
    ensures t.Nil? ==> c.Nil?
  {
    match t
    case Nil => Nil
    case Node(l, _, r) => if d == Left then l else r
  }

  /** The node reached from `t` along `p`, or null when the path leaves the
      tree. */
  function Subtree<T>(t: Tree<T>, p: Path): Tree<T>
    decreases |p|
  {
    if p == [] then t
    else if t.Nil? then Nil
    else Subtree(Child(t, p[0]), p[1..])
  }

  /** The elements in ascending comparator order: left subtree, node, right
      subtree. */
  function InOrder<T>(t: Tree<T>): (s: seq<T>)
    ensures |s| == NodeCount(t)
  {
    match t
    case Nil => []
    case Node(l, x, r) => InOrder(l) + [x] + InOrder(r)
  }

  // ---------------------------------------------------------------------
  // Paths

  function Prefixed(d: Dir, ps: seq<Path>): (r: seq<Path>)
    ensures |r| == |ps|
    decreases |ps|
  {
    if ps == [] then [] else [[d] + ps[0]] + Prefixed(d, ps[1..])
  }

  lemma {:induction false} PrefixedAt(d: Dir, ps: seq<Path>, i: nat)
    requires i < |ps|
    ensures Prefixed(d, ps)[i] == [d] + ps[i]
    decreases |ps|
  {
    if i > 0 {
      PrefixedAt(d, ps[1..], i - 1);
    }
  }

  /** The path of the last node reached by following `d` children from the
      top of `t`: the leftmost node for `Left`, the rightmost for `Right`. */
  function Extreme<T>(t: Tree<T>, d: Dir): Path
    decreases NodeCount(t)
  {
    if t.Node? && Child(t, d).Node? then [d] + Extreme(Child(t, d), d) else []
  }

  /** The order in which the nodes are visited by repeated steps in
      direction `d`: ascending (in-order) for `Right`, descending for
      `Left`. */
  function Walk<T>(t: Tree<T>, d: Dir): (w: seq<Path>)
    ensures |w| == NodeCount(t)
    decreases NodeCount(t)
  {
    if t.Nil? then []
    else Prefixed(Opp(d), Walk(Child(t, Opp(d)), d)) + [[]] + Prefixed(d, Walk(Child(t, d), d))
  }

  /** The node after the one at `p` in direction `d`: the in-order successor
      for `Right`, the predecessor for `Left`, None past the last node. */
  function Next<T>(t: Tree<T>, p: Path, d: Dir): Option<Path>
    decreases |p|
  {
    if t.Nil? then None
    else if p == [] then
      (if Child(t, d).Node? then Some([d] + Extreme(Child(t, d), Opp(d))) else None)
    else match Next(Child(t, p[0]), p[1..], d)
      case Some(s) => Some([p[0]] + s)
      case None => if p[0] == d then None else Some([])
  }

  /** The node a walk stands on after `i` steps, None (the end iterator)
      once every node has been visited. */
  function Position<T>(t: Tree<T>, d: Dir, i: nat): Option<Path> {
    if i < NodeCount(t) then Some(Walk(t, d)[i]) else None
  }

  /** The path without its trailing `d` steps. */
  function Strip(p: Path, d: Dir): (q: Path)
    ensures |q| <= |p| && q == p[..|q|]
    ensures q == [] || q[|q| - 1] != d
    decreases |p|
  {
    if |p| > 0 && p[|p| - 1] == d then Strip(p[..|p| - 1], d) else p
  }

  lemma {:induction false} SubtreeAppend<T>(t: Tree<T>, p: Path, d: Dir)
    ensures Subtree(t, p + [d]) == Child(Subtree(t, p), d)
    decreases |p|
  {
    if p == [] {
      assert Subtree(t, [d]) == Subtree(Child(t, d), []);
    } else if t.Nil? {
    } else {
      assert (p + [d])[1..] == p[1..] + [d];
      SubtreeAppend(Child(t, p[0]), p[1..], d);
    }
  }

  lemma {:induction false} SubtreeConcat<T>(t: Tree<T>, p: Path, q: Path)
    ensures Subtree(t, p + q) == Subtree(Subtree(t, p), q)
    decreases |p|
  {
    if p == [] {
      assert p + q == q;
    } else if t.Nil? {
      SubtreeOfNil<T>(q);
    } else {
      assert (p + q)[1..] == p[1..] + q;
      SubtreeConcat(Child(t, p[0]), p[1..], q);
    }
  }

  lemma {:induction false} SubtreeOfNil<T>(q: Path)
    ensures Subtree<T>(Nil, q) == Nil
  {
  }

  lemma {:induction false} ExtremeIsNode<T>(t: Tree<T>, d: Dir)
    requires t.Node?
    ensures Subtree(t, Extreme(t, d)).Node?
    ensures Child(Subtree(t, Extreme(t, d)), d).Nil?
    decreases NodeCount(t)
  {
    if Child(t, d).Node? {
      ExtremeIsNode(Child(t, d), d);
      assert ([d] + Extreme(Child(t, d), d))[1..] == Extreme(Child(t, d), d);
    }
  }

  // ---------------------------------------------------------------------
  // The walk visits every node once, in order

  /** The walk of a node lists its near subtree's walk (below the near
      child), then the node itself, then its far subtree's walk. */
  lemma {:induction false} WalkNear<T>(t: Tree<T>, d: Dir, i: nat)
    requires t.Node? && i < NodeCount(Child(t, Opp(d)))
    ensures i < |Walk(t, d)| && Walk(t, d)[i] == [Opp(d)] + Walk(Child(t, Opp(d)), d)[i]
  {
    var near, far := Child(t, Opp(d)), Child(t, d);
    var a, b := Prefixed(Opp(d), Walk(near, d)), Prefixed(d, Walk(far, d));
    assert Walk(t, d) == a + [[]] + b;
    IndexJoin([], a, [[]] + b, i);
    assert a + [[]] + b == [] + a + ([[]] + b);
    PrefixedAt(Opp(d), Walk(near, d), i);
  }

  lemma {:induction false} WalkAt<T>(t: Tree<T>, d: Dir)
    requires t.Node?
    ensures NodeCount(Child(t, Opp(d))) < |Walk(t, d)| && Walk(t, d)[NodeCount(Child(t, Opp(d)))] == []
  {
    var near, far := Child(t, Opp(d)), Child(t, d);
    var a, b := Prefixed(Opp(d), Walk(near, d)), Prefixed(d, Walk(far, d));
    assert Walk(t, d) == a + [[]] + b;
    assert |a| == NodeCount(near);
    IndexJoin(a, [[]], b, 0);
  }

  lemma {:induction false} WalkFar<T>(t: Tree<T>, d: Dir, k: nat)
    requires t.Node? && NodeCount(Child(t, Opp(d))) < k < NodeCount(t)
    ensures Walk(t, d)[k] == [d] + Walk(Child(t, d), d)[k - NodeCount(Child(t, Opp(d))) - 1]
  {
    var near, far := Child(t, Opp(d)), Child(t, d);
    var a, b := Prefixed(Opp(d), Walk(near, d)), Prefixed(d, Walk(far, d));
    assert Walk(t, d) == a + [[]] + b;
    assert |a| == NodeCount(near);
    IndexLast(a, [[]], b, k - |a| - 1);
    PrefixedAt(d, Walk(far, d), k - |a| - 1);
  }

  /** The `k`-th step of the far subtree's walk, seen from its parent. */
  lemma {:induction false} WalkFarFrom<T>(t: Tree<T>, d: Dir, k: nat)
    requires t.Node? && k < NodeCount(Child(t, d))
    ensures var m := NodeCount(Child(t, Opp(d))) + 1 + k;
            m < NodeCount(t) && Walk(t, d)[m] == [d] + Walk(Child(t, d), d)[k]
  {
    var near, far := Child(t, Opp(d)), Child(t, d);
    var a, b := Prefixed(Opp(d), Walk(near, d)), Prefixed(d, Walk(far, d));
    assert Walk(t, d) == a + [[]] + b;
    assert |a| == NodeCount(near);
    IndexLast(a, [[]], b, k);
    PrefixedAt(d, Walk(far, d), k);
  }

  /** The first node of a walk is the extreme node on the opposite side. */
  lemma {:induction false} WalkFirst<T>(t: Tree<T>, d: Dir)
    requires t.Node?
    ensures Walk(t, d)[0] == Extreme(t, Opp(d))
    decreases NodeCount(t)
  {
    var near := Child(t, Opp(d));
    if near.Node? {
      WalkFirst(near, d);
      assert Opp(Opp(d)) == d;
    }
  }

  /** Every path a walk lists leads to a node. */
  lemma {:induction false} WalkNodes<T>(t: Tree<T>, d: Dir, i: nat)
    requires i < NodeCount(t)
    ensures Subtree(t, Walk(t, d)[i]).Node?
    decreases NodeCount(t)
  {
    var near, far := Child(t, Opp(d)), Child(t, d);
    var n := NodeCount(near);
    if i < n {
      WalkNodes(near, d, i);
      WalkNear(t, d, i);
      SubtreeStep(t, Opp(d), Walk(near, d)[i]);
    } else if i > n {
      WalkNodes(far, d, i - n - 1);
      WalkFar(t, d, i);
      SubtreeStep(t, d, Walk(far, d)[i - n - 1]);
    } else {
      WalkAt(t, d);
    }
  }

  /** Following a path one step down from a node. */
  lemma {:induction false} SubtreeStep<T>(t: Tree<T>, e: Dir, q: Path)
    requires t.Node?
    ensures Subtree(t, [e] + q) == Subtree(Child(t, e), q)
  {
    assert ([e] + q)[1..] == q;
  }

  /** Every node of the tree is on the walk. */
  lemma {:induction false} NodeOnWalk<T>(t: Tree<T>, p: Path, d: Dir)
    requires Subtree(t, p).Node?
    ensures p in Walk(t, d)
    decreases |p|
  {
    if p == [] {
      WalkAt(t, d);
    } else {
      var e, q := p[0], p[1..];
      var c := Child(t, e);
      assert p == [e] + q;
      SubtreeStep(t, e, q);
      NodeOnWalk(c, q, d);
      ChildOnWalk(t, e, q, d);
    }
  }

  /** A node on the walk of a child is on the walk of its parent. */
  lemma {:induction false} ChildOnWalk<T>(t: Tree<T>, e: Dir, q: Path, d: Dir)
    requires t.Node? && q in Walk(Child(t, e), d)
    ensures [e] + q in Walk(t, d)
  {
    var k := IndexOn(Walk(Child(t, e), d), q);
    var n := NodeCount(Child(t, Opp(d)));
    if e == d {
      WalkFarFrom(t, d, k);
    } else {
      assert e == Opp(d);
      WalkNear(t, d, k);
    }
  }

  function IndexOn(ps: seq<Path>, p: Path): (k: nat)
    requires p in ps
    ensures k < |ps| && ps[k] == p
  {
    if ps[0] == p then 0 else 1 + IndexOn(ps[1..], p)
  }

  /** No node is visited twice. */
  lemma {:induction false} WalkDistinct<T>(t: Tree<T>, d: Dir, i: nat, j: nat)
    requires i < j < NodeCount(t)
    ensures Walk(t, d)[i] != Walk(t, d)[j]
    decreases NodeCount(t), 1
  {
    var n := NodeCount(Child(t, Opp(d)));
    if j < n {
      WalkDistinctNear(t, d, i, j);
    } else if i > n {
      WalkDistinctFar(t, d, i, j);
    } else {
      WalkDistinctAcross(t, d, i, j);
    }
  }

  lemma {:induction false} WalkDistinctNear<T>(t: Tree<T>, d: Dir, i: nat, j: nat)
    requires t.Node? && i < j < NodeCount(Child(t, Opp(d)))
    ensures Walk(t, d)[i] != Walk(t, d)[j]
    decreases NodeCount(t), 0
  {
    var near := Child(t, Opp(d));
    WalkDistinct(near, d, i, j);
    WalkNear(t, d, i);
    WalkNear(t, d, j);
    var p, q := Walk(t, d)[i], Walk(t, d)[j];
    assert p[1..] != q[1..] by {
      assert p[1..] == Walk(near, d)[i];
      assert q[1..] == Walk(near, d)[j];
    }
  }

  lemma {:induction false} WalkDistinctFar<T>(t: Tree<T>, d: Dir, i: nat, j: nat)
    requires t.Node? && NodeCount(Child(t, Opp(d))) < i < j < NodeCount(t)
    ensures Walk(t, d)[i] != Walk(t, d)[j]
    decreases NodeCount(t), 0
  {
    var far := Child(t, d);
    var n := NodeCount(Child(t, Opp(d)));
    var i', j' := i - n - 1, j - n - 1;
    WalkDistinct(far, d, i', j');
    WalkFarTail(t, d, i);
    WalkFarTail(t, d, j);
  }

  lemma {:induction false} WalkFarTail<T>(t: Tree<T>, d: Dir, k: nat)
    requires t.Node? && NodeCount(Child(t, Opp(d))) < k < NodeCount(t)
    ensures 0 < |Walk(t, d)[k]|
    ensures Walk(t, d)[k][1..] == Walk(Child(t, d), d)[k - NodeCount(Child(t, Opp(d))) - 1]
  {
    var n := NodeCount(Child(t, Opp(d)));
    WalkFar(t, d, k);
    TailOf(Walk(t, d)[k], d, Walk(Child(t, d), d)[k - n - 1]);
  }

  lemma {:induction false} TailOf(p: Path, e: Dir, q: Path)
    requires p == [e] + q
    ensures p[1..] == q
  {
  }

  /** A node of the near subtree, the node itself and a node of the far
      subtree are told apart by their paths' first step. */
  lemma {:induction false} WalkDistinctAcross<T>(t: Tree<T>, d: Dir, i: nat, j: nat)
    requires i < j < NodeCount(t)
    requires i <= NodeCount(Child(t, Opp(d))) <= j
    ensures Walk(t, d)[i] != Walk(t, d)[j]
  {
    WalkHead(t, d, i);
    WalkHead(t, d, j);
    assert Opp(d) != d;
  }

  /** Which side of the node a step of its walk is on, read off the first
      step of the path: the near subtree, the node itself, the far subtree. */
  lemma {:induction false} WalkHead<T>(t: Tree<T>, d: Dir, k: nat)
    requires k < NodeCount(t)
    ensures var n := NodeCount(Child(t, Opp(d)));
            && (k < n ==> |Walk(t, d)[k]| > 0 && Walk(t, d)[k][0] == Opp(d))
            && (k == n ==> Walk(t, d)[k] == [])
            && (k > n ==> |Walk(t, d)[k]| > 0 && Walk(t, d)[k][0] == d)
  {
    var n := NodeCount(Child(t, Opp(d)));
    if k < n {
      WalkNear(t, d, k);
      HeadOf(Walk(t, d)[k], Opp(d), Walk(Child(t, Opp(d)), d)[k]);
    } else if k == n {
      WalkAt(t, d);
    } else {
      WalkFar(t, d, k);
      HeadOf(Walk(t, d)[k], d, Walk(Child(t, d), d)[k - n - 1]);
    }
  }

  lemma {:induction false} HeadOf(p: Path, e: Dir, q: Path)
    requires p == [e] + q
    ensures |p| > 0 && p[0] == e
  {
  }

  /** One step in direction `d` moves to the next node of the walk, and past
      the last node to the end. */
  lemma {:induction false} NextAlongWalk<T>(t: Tree<T>, d: Dir, i: nat)
    requires i < NodeCount(t)
    ensures Next(t, Walk(t, d)[i], d) == Position(t, d, i + 1)
    decreases NodeCount(t), 1
  {
    var n := NodeCount(Child(t, Opp(d)));
    if i < n {
      NextAlongNear(t, d, i);
    } else if i == n {
      NextFromTop(t, d);
    } else {
      NextAlongFar(t, d, i);
    }
  }

  /** `Next` on a path that starts with a step `e` is decided in the child. */
  lemma {:induction false} NextStep<T>(t: Tree<T>, e: Dir, q: Path, d: Dir)
    requires t.Node?
    ensures Next(t, [e] + q, d) == match Next(Child(t, e), q, d)
                                   case Some(s) => Some([e] + s)
                                   case None => if e == d then None else Some([])
  {
    assert ([e] + q)[0] == e && ([e] + q)[1..] == q;
  }

  lemma {:induction false} NextAlongNear<T>(t: Tree<T>, d: Dir, i: nat)
    requires t.Node? && i < NodeCount(Child(t, Opp(d)))
    ensures Next(t, Walk(t, d)[i], d) == Position(t, d, i + 1)
    decreases NodeCount(t), 0
  {
    var near := Child(t, Opp(d));
    NextAlongWalk(near, d, i);
    WalkNear(t, d, i);
    NextStep(t, Opp(d), Walk(near, d)[i], d);
    assert Opp(d) != d;
    if i + 1 < NodeCount(near) {
      WalkNear(t, d, i + 1);
    } else {
      WalkAt(t, d);
    }
  }

  lemma {:induction false} NextFromTop<T>(t: Tree<T>, d: Dir)
    requires t.Node?
    ensures var n := NodeCount(Child(t, Opp(d)));
            Next(t, Walk(t, d)[n], d) == Position(t, d, n + 1)
  {
    var far, n := Child(t, d), NodeCount(Child(t, Opp(d)));
    WalkAt(t, d);
    if far.Node? {
      WalkFirst(far, d);
      WalkFar(t, d, n + 1);
    }
  }

  lemma {:induction false} NextAlongFar<T>(t: Tree<T>, d: Dir, i: nat)
    requires t.Node? && NodeCount(Child(t, Opp(d))) < i < NodeCount(t)
    ensures Next(t, Walk(t, d)[i], d) == Position(t, d, i + 1)
    decreases NodeCount(t), 0
  {
    var far, n := Child(t, d), NodeCount(Child(t, Opp(d)));
    var k := i - n - 1;
    NextAlongWalk(far, d, k);
    WalkFar(t, d, i);
    NextStep(t, d, Walk(far, d)[k], d);
    if i + 1 < NodeCount(t) {
      WalkFar(t, d, i + 1);
    }
  }

  function Reversed<X>(s: seq<X>): (r: seq<X>)
    ensures |r| == |s|
    ensures forall i :: 0 <= i < |s| ==> r[i] == s[|s| - 1 - i]
  {
    seq(|s|, i requires 0 <= i < |s| => s[|s| - 1 - i])
  }

  lemma {:induction false} ReversedJoin<X>(a: seq<X>, x: X, b: seq<X>)
    ensures Reversed(a + [x] + b) == Reversed(b) + [x] + Reversed(a)
  {
    var l, r := Reversed(a + [x] + b), Reversed(b) + [x] + Reversed(a);
    assert |l| == |r|;
    forall i | 0 <= i < |l| ensures l[i] == r[i] {
      if i < |b| {
        assert r[i] == b[|b| - 1 - i];
      } else if i > |b| {
        assert r[i] == a[|a| - 1 - (i - |b| - 1)];
      }
    }
  }

  lemma {:induction false} ReversedPrefixed(d: Dir, ps: seq<Path>)
    ensures Reversed(Prefixed(d, ps)) == Prefixed(d, Reversed(ps))
  {
    forall i | 0 <= i < |ps|
      ensures Reversed(Prefixed(d, ps))[i] == Prefixed(d, Reversed(ps))[i]
    {
      PrefixedAt(d, ps, |ps| - 1 - i);
      PrefixedAt(d, Reversed(ps), i);
    }
  }

  /** Walking towards `Left` visits the nodes in exactly the reverse order
      of walking towards `Right`. */
  lemma {:induction false} WalkReversed<T>(t: Tree<T>, d: Dir)
    ensures Walk(t, Opp(d)) == Reversed(Walk(t, d))
    decreases NodeCount(t)
  {
    if t.Node? {
      var near, far := Child(t, Opp(d)), Child(t, d);
      WalkReversed(near, d);
      WalkReversed(far, d);
      assert Opp(Opp(d)) == d;
      ReversedJoin(Prefixed(Opp(d), Walk(near, d)), [], Prefixed(d, Walk(far, d)));
      ReversedPrefixed(Opp(d), Walk(near, d));
      ReversedPrefixed(d, Walk(far, d));
    }
  }

  /** `Next` walks through nodes only. */
  lemma {:induction false} NextIsNode<T>(t: Tree<T>, p: Path, d: Dir)
    requires Subtree(t, p).Node? && Next(t, p, d).Some?
    ensures Subtree(t, Next(t, p, d).value).Node?
    decreases |p|
  {
    if p == [] {
      var far := Child(t, d);
      ExtremeIsNode(far, Opp(d));
      SubtreeConcat(t, [d], Extreme(far, Opp(d)));
    } else {
      var c := Child(t, p[0]);
      match Next(c, p[1..], d)
      case Some(s) =>
        NextIsNode(c, p[1..], d);
        assert ([p[0]] + s)[1..] == s;
      case None =>
    }
  }

  // ---------------------------------------------------------------------
  // The pointer walk: descend to a child, then to its far end; or climb
  // while the current node is a `d` child, then take the parent

  /** With a child in direction `d`, the next node is the extreme node of
      that child's subtree on the opposite side. */
  lemma {:induction false} NextDescends<T>(t: Tree<T>, p: Path, d: Dir)
    requires Subtree(t, p).Node? && Child(Subtree(t, p), d).Node?
    ensures Next(t, p, d) == Some(p + [d] + Extreme(Child(Subtree(t, p), d), Opp(d)))
    decreases |p|
  {
    if p != [] {
      var e, q := p[0], p[1..];
      var c := Child(t, e);
      var u := Subtree(t, p);
      assert t.Node? && u == Subtree(c, q);
      NextDescends(c, q, d);
      var x := Extreme(Child(u, d), Opp(d));
      assert Next(c, q, d) == Some(q + [d] + x);
      assert [e] + (q + [d] + x) == p + [d] + x by { assert p == [e] + q; }
    } else {
      var x := Extreme(Child(t, d), Opp(d));
      assert p + [d] + x == [d] + x;
    }
  }

  lemma {:induction false} StripCons(e: Dir, q: Path, d: Dir)
    ensures Strip([e] + q, d) == if Strip(q, d) == [] then (if e == d then [] else [e]) else [e] + Strip(q, d)
    decreases |q|
  {
    if |q| > 0 && q[|q| - 1] == d {
      assert ([e] + q)[..|q|] == [e] + q[..|q| - 1];
      StripCons(e, q[..|q| - 1], d);
    } else if q == [] {
      if e == d { assert ([e] + q)[..0] == []; }
    }
  }

  /** Without a child in direction `d`, the next node is the parent of the
      last ancestor reached by climbing `d` links, and there is none when
      the climb reaches the root. */
  lemma {:induction false} NextClimbs<T>(t: Tree<T>, p: Path, d: Dir)
    requires Subtree(t, p).Node? && Child(Subtree(t, p), d).Nil?
    ensures var q := Strip(p, d); Next(t, p, d) == if q == [] then None else Some(q[..|q| - 1])
    decreases |p|
  {
    if p != [] {
      var e, q := p[0], p[1..];
      assert p == [e] + q;
      NextClimbs(Child(t, e), q, d);
      StripCons(e, q, d);
      var s := Strip(q, d);
      if s != [] {
        assert ([e] + s)[..|s|] == [e] + s[..|s| - 1];
      }
    }
  }

  /** `findMinNode` and the descent of `begin()` and of `++`/`--`: follow
      `d` children while there are any. */
  method Descend<T>(t: Tree<T>, p: Path, d: Dir) returns (r: Path)
    requires Subtree(t, p).Node?
    ensures r == p + Extreme(Subtree(t, p), d)
  {
    r := p;
    while Child(Subtree(t, r), d).Node?
      invariant Subtree(t, r).Node?
      invariant r + Extreme(Subtree(t, r), d) == p + Extreme(Subtree(t, p), d)
      decreases NodeCount(Subtree(t, r))
    {
      SubtreeAppend(t, r, d);
      assert Extreme(Subtree(t, r), d) == [d] + Extreme(Subtree(t, r + [d]), d);
      r := r + [d];
    }
  }

  /** One step of an iterator from the node at `p`: `++` of the forward
      iterators for `Right`, `--` for `Left`. */
  method Step<T>(t: Tree<T>, p: Path, d: Dir) returns (r: Option<Path>)
    requires Subtree(t, p).Node?
    ensures r == Next(t, p, d)
    ensures r.Some? ==> Subtree(t, r.value).Node?
  {
    if Next(t, p, d).Some? {
      NextIsNode(t, p, d);
    }
    if Child(Subtree(t, p), d).Node? {
      SubtreeAppend(t, p, d);
      var c := Descend(t, p + [d], Opp(d));
      NextDescends(t, p, d);
      r := Some(c);
    } else {
      var c := p;
      while c != [] && c[|c| - 1] == d
        invariant Strip(c, d) == Strip(p, d)
        decreases |c|
      {
        c := c[..|c| - 1];
      }
      NextClimbs(t, p, d);
      r := if c == [] then None else Some(c[..|c| - 1]);
    }
  }

  // ---------------------------------------------------------------------
  // What the walk reads

  /** The elements in the order a walk in direction `d` visits them. */
  function InDirection<X>(s: seq<X>, d: Dir): (r: seq<X>)
    ensures |r| == |s|
  {
    if d == Right then s else Reversed(s)
  }

  /** The node the `i`-th step of an ascending walk stands on holds the
      `i`-th element in ascending order. */
  lemma {:induction false} WalkDataAscending<T>(t: Tree<T>, i: nat)
    requires i < NodeCount(t)
    ensures Subtree(t, Walk(t, Right)[i]).Node? && Subtree(t, Walk(t, Right)[i]).data == InOrder(t)[i]
    decreases NodeCount(t)
  {
    var l, r := t.left, t.right;
    assert Opp(Right) == Left;
    assert Child(t, Left) == l && Child(t, Right) == r;
    var n := NodeCount(l);
    assert InOrder(t) == InOrder(l) + [t.data] + InOrder(r);
    if i < n {
      WalkDataAscending(l, i);
      WalkNear(t, Right, i);
      SubtreeStep(t, Left, Walk(l, Right)[i]);
    } else if i > n {
      WalkDataAscending(r, i - n - 1);
      WalkFar(t, Right, i);
      SubtreeStep(t, Right, Walk(r, Right)[i - n - 1]);
    } else {
      WalkAt(t, Right);
    }
  }

  /** The node the `i`-th step of a walk stands on holds the `i`-th element
      in ascending order for `Right` and in descending order for `Left`. */
  lemma {:induction false} WalkData<T>(t: Tree<T>, d: Dir, i: nat)
    requires i < NodeCount(t)
    ensures Subtree(t, Walk(t, d)[i]).Node?
    ensures Subtree(t, Walk(t, d)[i]).data == InDirection(InOrder(t), d)[i]
  {
    if d == Right {
      WalkDataAscending(t, i);
    } else {
      WalkDataDescending(t, i);
    }
  }

  /** The node the `i`-th step of a descending walk stands on holds the
      `i`-th element from the top. */
  lemma {:induction false} WalkDataDescending<T>(t: Tree<T>, i: nat)
    requires i < NodeCount(t)
    ensures Subtree(t, Walk(t, Left)[i]).Node?
    ensures Subtree(t, Walk(t, Left)[i]).data == Reversed(InOrder(t))[i]
  {
    var j := NodeCount(t) - 1 - i;
    WalkLeftIndex(t, i);
    WalkDataAscending(t, j);
  }

  /** The `i`-th step of a walk is the `i`-th from the end of the walk in
      the opposite direction. */
  lemma {:induction false} WalkOppIndex<T>(t: Tree<T>, d: Dir, i: nat)
    requires i < NodeCount(t)
    ensures Walk(t, Opp(d))[i] == Walk(t, d)[NodeCount(t) - 1 - i]
  {
    if d == Right {
      WalkLeftIndex(t, i);
    } else {
      WalkLeftIndex(t, NodeCount(t) - 1 - i);
    }
  }

  lemma {:induction false} WalkLeftIndex<T>(t: Tree<T>, i: nat)
    requires i < NodeCount(t)
    ensures Walk(t, Left)[i] == Walk(t, Right)[NodeCount(t) - 1 - i]
  {
    WalkReversed(t, Right);
    assert Opp(Right) == Left;
  }

  // ---------------------------------------------------------------------
  // find_if: pre-order search

  /** The elements in the order `findIfRecursive` tries them: node, left
      subtree, right subtree. */
  function PreOrder<T>(t: Tree<T>): (s: seq<T>)
    ensures |s| == NodeCount(t)
  {
    match t
    case Nil => []
    case Node(l, x, r) => [x] + PreOrder(l) + PreOrder(r)
  }

  /** The pre-order search tries every element of the tree, each once. */
  lemma {:induction false} PreOrderPermutes<T>(t: Tree<T>)
    ensures multiset(PreOrder(t)) == multiset(InOrder(t))
  {
    if t.Node? {
      PreOrderPermutes(t.left);
      PreOrderPermutes(t.right);
    }
  }

  /** The node paths in pre-order. */
  function PrePaths<T>(t: Tree<T>): (ps: seq<Path>)
    ensures |ps| == |PreOrder(t)|
  {
    match t
    case Nil => []
    case Node(l, _, r) => [[]] + Prefixed(Left, PrePaths(l)) + Prefixed(Right, PrePaths(r))
  }

  /** The index of the first element satisfying `pred`, |s| when there is
      none. */
  function FirstMatch<X>(s: seq<X>, pred: X -> bool): (k: nat)
    ensures k <= |s|
    ensures k < |s| ==> pred(s[k])
  {
    if |s| == 0 then 0
    else if pred(s[0]) then 0
    else 1 + FirstMatch(s[1..], pred)
  }

  /** No element before the first match satisfies `pred`. */
  lemma {:induction false} FirstMatchIsFirst<X>(s: seq<X>, pred: X -> bool, j: nat)
    requires j < FirstMatch(s, pred)
    ensures !pred(s[j])
    decreases |s|
  {
    if j > 0 {
      FirstMatchIsFirst(s[1..], pred, j - 1);
    }
  }

  /** `findIfRecursive`: the first node in pre-order whose element
      satisfies `pred`, or none. */
  function FindIf<T>(t: Tree<T>, pred: T -> bool): Option<Path> {
    match t
    case Nil => None
    case Node(l, x, r) =>
      if pred(x) then Some([])
      else match FindIf(l, pred)
        case Some(p) => Some([Left] + p)
        case None =>
          match FindIf(r, pred)
          case Some(p) => Some([Right] + p)
          case None => None
  }

  /** `find_if` finds a node exactly when some element satisfies `pred`,
      and the node it finds holds such an element. */
  lemma {:induction false} FindIfFinds<T>(t: Tree<T>, pred: T -> bool)
    ensures FindIf(t, pred).None? <==> forall x :: x in InOrder(t) ==> !pred(x)
    ensures FindIf(t, pred).Some? ==>
              Subtree(t, FindIf(t, pred).value).Node? && pred(Subtree(t, FindIf(t, pred).value).data)
  {
    if t.Node? {
      var l, x, r := t.left, t.data, t.right;
      FindIfFinds(l, pred);
      FindIfFinds(r, pred);
      assert InOrder(t) == InOrder(l) + [x] + InOrder(r);
      if !pred(x) {
        match FindIf(l, pred)
        case Some(p) =>
          assert Subtree(t, [Left] + p) == Subtree(l, p);
        case None =>
          match FindIf(r, pred)
          case Some(p) =>
            assert Subtree(t, [Right] + p) == Subtree(r, p);
          case None =>
      }
    }
  }

  lemma {:induction false} FirstMatchJoin<X>(a: seq<X>, b: seq<X>, pred: X -> bool)
    ensures FirstMatch(a + b, pred) == if FirstMatch(a, pred) < |a| then FirstMatch(a, pred) else |a| + FirstMatch(b, pred)
    decreases |a|
  {
    if |a| > 0 {
      assert (a + b)[1..] == a[1..] + b;
      FirstMatchJoin(a[1..], b, pred);
    } else {
      assert a + b == b;
    }
  }

  /** The node `find_if` returns is the first one in pre-order that
      matches. */
  lemma {:induction false} FindIfFirst<T>(t: Tree<T>, pred: T -> bool)
    ensures var k := FirstMatch(PreOrder(t), pred);
            FindIf(t, pred) == if k < NodeCount(t) then Some(PrePaths(t)[k]) else None
  {
    if t.Node? {
      FindIfFirst(t.left, pred);
      FindIfFirst(t.right, pred);
      FindIfFirstNode(t.left, t.data, t.right, pred);
    }
  }

  /** Where the first match of a node's pre-order lies: at the node, in
      the left part, or in the right part. */
  lemma {:induction false} FirstMatchNode<X>(x: X, a: seq<X>, b: seq<X>, pred: X -> bool)
    ensures FirstMatch([x] + a + b, pred)
            == if pred(x) then 0
               else if FirstMatch(a, pred) < |a| then 1 + FirstMatch(a, pred)
               else 1 + |a| + FirstMatch(b, pred)
  {
    if !pred(x) {
      assert ([x] + a + b)[1..] == a + b;
      FirstMatchJoin(a, b, pred);
    }
  }

  /** The `i`-th path of the left subtree, seen from its parent. */
  lemma {:induction false} PrePathLeft<T>(l: Tree<T>, x: T, r: Tree<T>, i: nat)
    requires i < NodeCount(l)
    ensures 1 + i < |PrePaths(Node(l, x, r))|
    ensures PrePaths(Node(l, x, r))[1 + i] == [Left] + PrePaths(l)[i]
  {
    var a, b := Prefixed(Left, PrePaths(l)), Prefixed(Right, PrePaths(r));
    IndexJoin([[]], a, b, i);
    PrefixedAt(Left, PrePaths(l), i);
  }

  /** The `i`-th path of the right subtree, seen from its parent. */
  lemma {:induction false} PrePathRight<T>(l: Tree<T>, x: T, r: Tree<T>, i: nat)
    requires i < NodeCount(r)
    ensures 1 + NodeCount(l) + i < |PrePaths(Node(l, x, r))|
    ensures PrePaths(Node(l, x, r))[1 + NodeCount(l) + i] == [Right] + PrePaths(r)[i]
  {
    var a, b := Prefixed(Left, PrePaths(l)), Prefixed(Right, PrePaths(r));
    assert |a| == |PrePaths(l)| == |PreOrder(l)| == NodeCount(l);
    IndexLast([[]], a, b, i);
    PrefixedAt(Right, PrePaths(r), i);
  }

  /** Indexing into the middle part of a three-part sequence. */
  lemma {:induction false} IndexJoin<X>(a: seq<X>, b: seq<X>, c: seq<X>, i: nat)
    requires i < |b|
    ensures (a + b + c)[|a| + i] == b[i]
  {
  }

  /** Indexing into the last part of a three-part sequence. */
  lemma {:induction false} IndexLast<X>(a: seq<X>, b: seq<X>, c: seq<X>, i: nat)
    requires i < |c|
    ensures (a + b + c)[|a| + |b| + i] == c[i]
  {
  }

  lemma {:induction false} FindIfFirstNode<T>(l: Tree<T>, x: T, r: Tree<T>, pred: T -> bool)
    requires var k := FirstMatch(PreOrder(l), pred);
             FindIf(l, pred) == if k < NodeCount(l) then Some(PrePaths(l)[k]) else None
    requires var k := FirstMatch(PreOrder(r), pred);
             FindIf(r, pred) == if k < NodeCount(r) then Some(PrePaths(r)[k]) else None
    ensures var t := Node(l, x, r);
            var k := FirstMatch(PreOrder(t), pred);
            FindIf(t, pred) == if k < NodeCount(t) then Some(PrePaths(t)[k]) else None
  {
    var ka, kb := FirstMatch(PreOrder(l), pred), FirstMatch(PreOrder(r), pred);
    if pred(x) {
      FindIfAtNode(l, x, r, pred);
    } else if ka < NodeCount(l) {
      FindIfLeftPart(l, x, r, pred, ka);
    } else {
      FindIfRightPart(l, x, r, pred, kb);
    }
  }

  lemma {:induction false} FindIfAtNode<T>(l: Tree<T>, x: T, r: Tree<T>, pred: T -> bool)
    requires pred(x)
    ensures var t := Node(l, x, r);
            var k := FirstMatch(PreOrder(t), pred);
            FindIf(t, pred) == if k < NodeCount(t) then Some(PrePaths(t)[k]) else None
  {
    var t := Node(l, x, r);
    assert PreOrder(t)[0] == x;
    assert PrePaths(t)[0] == [];
  }

  lemma {:induction false} FindIfLeftPart<T>(l: Tree<T>, x: T, r: Tree<T>, pred: T -> bool, ka: nat)
    requires !pred(x) && ka == FirstMatch(PreOrder(l), pred)
    requires ka < NodeCount(l) && FindIf(l, pred) == Some(PrePaths(l)[ka])
    ensures var t := Node(l, x, r);
            var k := FirstMatch(PreOrder(t), pred);
            FindIf(t, pred) == if k < NodeCount(t) then Some(PrePaths(t)[k]) else None
  {
    var t := Node(l, x, r);
    assert FirstMatch(PreOrder(t), pred) == 1 + ka by {
      assert PreOrder(t) == [x] + PreOrder(l) + PreOrder(r);
      FirstMatchNode(x, PreOrder(l), PreOrder(r), pred);
    }
    assert FindIf(t, pred) == Some([Left] + PrePaths(l)[ka]);
    PrePathLeft(l, x, r, ka);
  }

  lemma {:induction false} FindIfRightPart<T>(l: Tree<T>, x: T, r: Tree<T>, pred: T -> bool, kb: nat)
    requires !pred(x) && FirstMatch(PreOrder(l), pred) == NodeCount(l) && FindIf(l, pred) == None
    requires kb == FirstMatch(PreOrder(r), pred)
    requires FindIf(r, pred) == if kb < NodeCount(r) then Some(PrePaths(r)[kb]) else None
    ensures var t := Node(l, x, r);
            var k := FirstMatch(PreOrder(t), pred);
            FindIf(t, pred) == if k < NodeCount(t) then Some(PrePaths(t)[k]) else None
  {
    var t := Node(l, x, r);
    FirstMatchNode(x, PreOrder(l), PreOrder(r), pred);
    assert FirstMatch(PreOrder(t), pred) == 1 + NodeCount(l) + kb;
    if kb < NodeCount(r) {
      PrePathRight(l, x, r, kb);
    }
  }

  // ---------------------------------------------------------------------
  // Rewiring a child pointer: replacing the subtree at a path

  /** The tree with the subtree at `p` replaced by `u`. */
  function Graft<T>(t: Tree<T>, p: Path, u: Tree<T>): Tree<T>
    decreases |p|
  {
    if p == [] then u
    else match t
      case Nil => Nil
      case Node(l, x, r) =>
        if p[0] == Left then Node(Graft(l, p[1..], u), x, r) else Node(l, x, Graft(r, p[1..], u))
  }

  /** The elements that precede, in ascending order, the subtree at `p`. */
  function Before<T>(t: Tree<T>, p: Path): seq<T>
    decreases |p|
  {
    if p == [] || t.Nil? then []
    else if p[0] == Left then Before(t.left, p[1..])
    else InOrder(t.left) + [t.data] + Before(t.right, p[1..])
  }

  /** The elements that follow, in ascending order, the subtree at `p`. */
  function After<T>(t: Tree<T>, p: Path): seq<T>
    decreases |p|
  {
    if p == [] || t.Nil? then []
    else if p[0] == Left then After(t.left, p[1..]) + [t.data] + InOrder(t.right)
    else After(t.right, p[1..])
  }

  /** Every subtree occupies a contiguous block of the ascending sequence:
      the elements before it, its own, the elements after it. */
  lemma {:induction false} SubtreeInOrder<T>(t: Tree<T>, p: Path)
    ensures InOrder(t) == Before(t, p) + InOrder(Subtree(t, p)) + After(t, p)
    decreases |p|
  {
    if p != [] && t.Node? {
      var l, x, r, q := t.left, t.data, t.right, p[1..];
      if p[0] == Left {
        SubtreeInOrder(l, q);
        assert Subtree(t, p) == Subtree(l, q);
        Regroup5(Before(l, q), InOrder(Subtree(l, q)), x, InOrder(r), After(l, q));
      } else {
        SubtreeInOrder(r, q);
        assert Subtree(t, p) == Subtree(r, q);
        Regroup(InOrder(l) + [x], Before(r, q), InOrder(Subtree(r, q)), After(r, q));
      }
    }
  }

  /** Grafting `u` at `p` replaces exactly the block of the subtree at `p`. */
  lemma {:induction false} GraftInOrder<T>(t: Tree<T>, p: Path, u: Tree<T>)
    requires Subtree(t, p).Node?
    ensures InOrder(Graft(t, p, u)) == Before(t, p) + InOrder(u) + After(t, p)
    decreases |p|, 1
  {
    if p != [] {
      var q := p[1..];
      assert p == [p[0]] + q;
      if p[0] == Left {
        GraftInOrderLeft(t.left, t.data, t.right, q, u);
      } else {
        GraftInOrderRight(t.left, t.data, t.right, q, u);
      }
    }
  }

  lemma {:induction false} GraftInOrderLeft<T>(l: Tree<T>, x: T, r: Tree<T>, q: Path, u: Tree<T>)
    requires Subtree(l, q).Node?
    ensures var t, p := Node(l, x, r), [Left] + q;
            InOrder(Graft(t, p, u)) == Before(t, p) + InOrder(u) + After(t, p)
    decreases |q| + 1, 0
  {
    var t, p := Node(l, x, r), [Left] + q;
    assert p[0] == Left && p[1..] == q;
    GraftInOrder(l, q, u);
    assert Graft(t, p, u) == Node(Graft(l, q, u), x, r);
    Regroup5(Before(l, q), InOrder(u), x, InOrder(r), After(l, q));
  }

  lemma {:induction false} GraftInOrderRight<T>(l: Tree<T>, x: T, r: Tree<T>, q: Path, u: Tree<T>)
    requires Subtree(r, q).Node?
    ensures var t, p := Node(l, x, r), [Right] + q;
            InOrder(Graft(t, p, u)) == Before(t, p) + InOrder(u) + After(t, p)
    decreases |q| + 1, 0
  {
    var t, p := Node(l, x, r), [Right] + q;
    assert p[0] == Right && p[1..] == q;
    GraftInOrder(r, q, u);
    assert Graft(t, p, u) == Node(l, x, Graft(r, q, u));
    Regroup(InOrder(l) + [x], Before(r, q), InOrder(u), After(r, q));
  }

  lemma {:induction false} Regroup<X>(a: seq<X>, b: seq<X>, c: seq<X>, d: seq<X>)
    ensures (a + b + c) + d == a + b + (c + d)
    ensures a + (b + c + d) == (a + b) + c + d
  {
  }

  /** Grafting keeps the path to the graft: below it lies the new subtree. */
  lemma {:induction false} SubtreeOfGraft<T>(t: Tree<T>, p: Path, u: Tree<T>)
    requires Subtree(t, p).Node?
    ensures Subtree(Graft(t, p, u), p) == u
    decreases |p|
  {
    if p != [] {
      SubtreeOfGraft(Child(t, p[0]), p[1..], u);
    }
  }

  /** The leftmost node of a subtree has nothing before it. */
  lemma {:induction false} LeftmostFirst<T>(t: Tree<T>)
    ensures Before(t, Extreme(t, Left)) == []
    decreases NodeCount(t)
  {
    if t.Node? && t.left.Node? {
      LeftmostFirst(t.left);
      assert ([Left] + Extreme(t.left, Left))[1..] == Extreme(t.left, Left);
    }
  }

  // ---------------------------------------------------------------------
  // Ordering by the comparator

  /** The comparator `comp(a, b)`: `a`'s key before `b`'s in the order of
      `std::string`'s `operator<`. */
  predicate Comp<T>(key: T -> string, a: T, b: T) {
    Less(key(a), key(b))
  }

  /** Neither element is ordered before the other. */
  predicate Equivalent<T>(key: T -> string, a: T, b: T) {
    !Comp(key, a, b) && !Comp(key, b, a)
  }

  /** Elements are equivalent exactly when their keys are equal. */
  lemma {:induction false} EquivalentIffSameKey<T>(key: T -> string, a: T, b: T)
    ensures Equivalent(key, a, b) <==> key(a) == key(b)
  {
    LessTotal(key(a), key(b));
    LessIrreflexive(key(a));
  }

  /** Strictly ascending by the comparator. */
  predicate Ascending<T>(key: T -> string, s: seq<T>) {
    forall i, j :: 0 <= i < j < |s| ==> Comp(key, s[i], s[j])
  }

  lemma {:induction false} AscendingJoin<T>(key: T -> string, a: seq<T>, x: T, b: seq<T>)
    requires Ascending(key, a) && Ascending(key, b)
    requires forall y :: y in a ==> Comp(key, y, x)
    requires forall y :: y in b ==> Comp(key, x, y)
    ensures Ascending(key, a + [x] + b)
  {
    var s := a + [x] + b;
    forall i, j | 0 <= i < j < |s| ensures Comp(key, s[i], s[j]) {
      if i < |a| && j > |a| {
        assert s[i] in a && s[j] in b;
        LessTransitive(key(s[i]), key(x), key(s[j]));
      } else if i < |a| && j == |a| {
        assert s[i] in a;
      } else if i == |a| {
        assert s[j] in b;
      } else if j < |a| {
        assert s[i] == a[i] && s[j] == a[j];
      } else {
        assert s[i] == b[i - |a| - 1] && s[j] == b[j - |a| - 1];
      }
    }
  }

  lemma {:induction false} AscendingSplit<T>(key: T -> string, a: seq<T>, x: T, b: seq<T>)
    requires Ascending(key, a + [x] + b)
    ensures Ascending(key, a) && Ascending(key, b)
    ensures forall y :: y in a ==> Comp(key, y, x)
    ensures forall y :: y in b ==> Comp(key, x, y)
  {
    var s := a + [x] + b;
    forall i, j | 0 <= i < j < |a| ensures Comp(key, a[i], a[j]) {
      assert a[i] == s[i] && a[j] == s[j];
    }
    forall i, j | 0 <= i < j < |b| ensures Comp(key, b[i], b[j]) {
      assert b[i] == s[|a| + 1 + i] && b[j] == s[|a| + 1 + j];
    }
    forall y | y in a ensures Comp(key, y, x) {
      var i :| 0 <= i < |a| && a[i] == y;
      assert s[i] == y && s[|a|] == x;
    }
    forall y | y in b ensures Comp(key, x, y) {
      var i :| 0 <= i < |b| && b[i] == y;
      assert s[|a| + 1 + i] == y && s[|a|] == x;
    }
  }

  /** Dropping one element keeps a sequence ascending. */
  lemma {:induction false} AscendingDrop<T>(key: T -> string, a: seq<T>, x: T, b: seq<T>)
    requires Ascending(key, a + [x] + b)
    ensures Ascending(key, a + b)
  {
    var s, r := a + [x] + b, a + b;
    forall i, j | 0 <= i < j < |r| ensures Comp(key, r[i], r[j]) {
      var i', j' := if i < |a| then i else i + 1, if j < |a| then j else j + 1;
      assert r[i] == s[i'] && r[j] == s[j'];
    }
  }

  /** `insert`: descend left while the value is ordered before the node,
      right while after it; an equivalent value is not stored again. */
  function Insert<T>(key: T -> string, t: Tree<T>, v: T): Tree<T> {
    match t
    case Nil => Node(Nil, v, Nil)
    case Node(l, x, r) =>
      if Comp(key, v, x) then Node(Insert(key, l, v), x, r)
      else if Comp(key, x, v) then Node(l, x, Insert(key, r, v))
      else t
  }

  /** Inserting a value whose key is already stored leaves an ascending tree
      as it was: `insert` meets an equivalent node and stops. */
  lemma {:induction false} InsertExisting<T>(key: T -> string, t: Tree<T>, v: T)
    requires Ascending(key, InOrder(t))
    requires exists y :: y in InOrder(t) && key(y) == key(v)
    ensures Insert(key, t, v) == t
  {
    var y :| y in InOrder(t) && key(y) == key(v);
    var l, x, r := t.left, t.data, t.right;
    var a, b := InOrder(l), InOrder(r);
    assert InOrder(t) == a + [x] + b;
    AscendingSplit(key, a, x, b);
    if Comp(key, v, x) {
      if y in b {
        LessTransitive(key(v), key(x), key(y));
        LessIrreflexive(key(v));
      } else if y == x {
        LessIrreflexive(key(v));
      }
      assert y in a;
      InsertExisting(key, l, v);
    } else if Comp(key, x, v) {
      if y in a {
        LessTransitive(key(y), key(x), key(v));
        LessIrreflexive(key(v));
      } else if y == x {
        LessIrreflexive(key(v));
      }
      assert y in b;
      InsertExisting(key, r, v);
    }
  }

  /** Inserting a value whose key is not stored adds it exactly once. */
  lemma {:induction false} InsertAdds<T>(key: T -> string, t: Tree<T>, v: T)
    requires forall y :: y in InOrder(t) ==> key(y) != key(v)
    ensures multiset(InOrder(Insert(key, t, v))) == multiset(InOrder(t)) + multiset{v}
  {
    if t.Node? {
      var l, x, r := t.left, t.data, t.right;
      var a, b := InOrder(l), InOrder(r);
      assert InOrder(t) == a + [x] + b;
      MultisetJoin(a, x, b);
      if Comp(key, v, x) {
        InsertAdds(key, l, v);
        var a' := InOrder(Insert(key, l, v));
        assert InOrder(Insert(key, t, v)) == a' + [x] + b;
        MultisetJoin(a', x, b);
        MultisetShuffle(multiset(a), multiset{x}, multiset(b), multiset{v});
      } else {
        assert Comp(key, x, v) by {
          LessTotal(key(x), key(v));
        }
        InsertAdds(key, r, v);
        var b' := InOrder(Insert(key, r, v));
        assert InOrder(Insert(key, t, v)) == a + [x] + b';
        MultisetJoin(a, x, b');
        MultisetShuffle(multiset(a), multiset{x}, multiset(b), multiset{v});
      }
    }
  }

  lemma {:induction false} MultisetJoin<X>(a: seq<X>, x: X, b: seq<X>)
    ensures multiset(a + [x] + b) == multiset(a) + multiset{x} + multiset(b)
  {
  }

  lemma {:induction false} MultisetShuffle<X>(a: multiset<X>, x: multiset<X>, b: multiset<X>, v: multiset<X>)
    ensures (a + v) + x + b == (a + x + b) + v
    ensures a + x + (b + v) == (a + x + b) + v
  {
  }

  /** Inserting adds no element other than the inserted one. */
  lemma {:induction false} InsertMembers<T>(key: T -> string, t: Tree<T>, v: T)
    ensures forall y :: y in InOrder(Insert(key, t, v)) ==> y in InOrder(t) || y == v
  {
    if t.Node? {
      var l, x, r := t.left, t.data, t.right;
      InsertMembers(key, l, v);
      InsertMembers(key, r, v);
      assert InOrder(t) == InOrder(l) + [x] + InOrder(r);
      assert InOrder(Insert(key, t, v)) == InOrder(Insert(key, l, v)) + [x] + InOrder(r)
          || InOrder(Insert(key, t, v)) == InOrder(l) + [x] + InOrder(Insert(key, r, v))
          || Insert(key, t, v) == t;
    }
  }

  /** Inserting a value whose key is not stored keeps the tree ascending. */
  lemma {:induction false} InsertFresh<T>(key: T -> string, t: Tree<T>, v: T)
    requires Ascending(key, InOrder(t))
    requires forall y :: y in InOrder(t) ==> key(y) != key(v)
    ensures Ascending(key, InOrder(Insert(key, t, v)))
  {
    if t.Node? {
      var l, x, r := t.left, t.data, t.right;
      var a, b := InOrder(l), InOrder(r);
      assert InOrder(t) == a + [x] + b;
      AscendingSplit(key, a, x, b);
      if Comp(key, v, x) {
        InsertFresh(key, l, v);
        InsertMembers(key, l, v);
        InsertFreshLeft(key, l, x, r, v);
      } else {
        assert Comp(key, x, v) by {
          LessTotal(key(x), key(v));
        }
        InsertFresh(key, r, v);
        InsertMembers(key, r, v);
        InsertFreshRight(key, l, x, r, v);
      }
    }
  }

  /** The fresh value went into the left subtree, below the node. */
  lemma {:induction false} InsertFreshLeft<T>(key: T -> string, l: Tree<T>, x: T, r: Tree<T>, v: T)
    requires Comp(key, v, x)
    requires Ascending(key, InOrder(Insert(key, l, v))) && Ascending(key, InOrder(r))
    requires forall y :: y in InOrder(Insert(key, l, v)) ==> y in InOrder(l) || y == v
    requires forall y :: y in InOrder(l) ==> Comp(key, y, x)
    requires forall y :: y in InOrder(r) ==> Comp(key, x, y)
    ensures Ascending(key, InOrder(Insert(key, Node(l, x, r), v)))
  {
    AscendingJoin(key, InOrder(Insert(key, l, v)), x, InOrder(r));
    assert InOrder(Insert(key, Node(l, x, r), v)) == InOrder(Insert(key, l, v)) + [x] + InOrder(r);
  }

  /** The fresh value went into the right subtree, above the node. */
  lemma {:induction false} InsertFreshRight<T>(key: T -> string, l: Tree<T>, x: T, r: Tree<T>, v: T)
    requires !Comp(key, v, x) && Comp(key, x, v)
    requires Ascending(key, InOrder(l)) && Ascending(key, InOrder(Insert(key, r, v)))
    requires forall y :: y in InOrder(Insert(key, r, v)) ==> y in InOrder(r) || y == v
    requires forall y :: y in InOrder(l) ==> Comp(key, y, x)
    requires forall y :: y in InOrder(r) ==> Comp(key, x, y)
    ensures Ascending(key, InOrder(Insert(key, Node(l, x, r), v)))
  {
    AscendingJoin(key, InOrder(l), x, InOrder(Insert(key, r, v)));
    assert InOrder(Insert(key, Node(l, x, r), v)) == InOrder(l) + [x] + InOrder(Insert(key, r, v));
  }

  // ---------------------------------------------------------------------
  // remove: unlinking a node

  /** The minimum of a non-empty subtree (the successor `remove` copies)
      has no left child, and cutting it out by linking its right child to
      its parent leaves the rest of the subtree in order. */
  lemma {:induction false} SuccessorCut<T>(r: Tree<T>)
    requires r.Node?
    ensures var e := Extreme(r, Left);
            Subtree(r, e).Node? && Subtree(r, e).left.Nil?
            && InOrder(r) == [Subtree(r, e).data] + InOrder(Graft(r, e, Subtree(r, e).right))
  {
    var e := Extreme(r, Left);
    ExtremeIsNode(r, Left);
    var m := Subtree(r, e);
    LeftmostSplit(r, m.right);
    assert m.left == Child(m, Left);
    assert InOrder(m) == [m.data] + InOrder(m.right);
    Regroup3([m.data], InOrder(m.right), After(r, e));
  }

  /** Around the leftmost node there is only what follows it. */
  lemma {:induction false} LeftmostSplit<T>(r: Tree<T>, u: Tree<T>)
    requires Subtree(r, Extreme(r, Left)).Node?
    ensures var e := Extreme(r, Left);
            InOrder(r) == InOrder(Subtree(r, e)) + After(r, e)
            && InOrder(Graft(r, e, u)) == InOrder(u) + After(r, e)
  {
    var e := Extreme(r, Left);
    SubtreeInOrder(r, e);
    GraftInOrder(r, e, u);
    LeftmostFirst(r);
    assert [] + InOrder(Subtree(r, e)) == InOrder(Subtree(r, e));
    assert [] + InOrder(u) == InOrder(u);
  }

  lemma {:induction false} Regroup3<X>(a: seq<X>, b: seq<X>, c: seq<X>)
    ensures (a + b) + c == a + (b + c)
  {
  }

  /** Replacing the node at `p` by a tree holding its two subtrees' elements
      takes exactly its own element out of the ascending sequence. */
  lemma {:induction false} UnlinkInOrder<T>(t: Tree<T>, p: Path, u: Tree<T>)
    requires Subtree(t, p).Node?
    requires InOrder(u) == InOrder(Subtree(t, p).left) + InOrder(Subtree(t, p).right)
    ensures var n := Subtree(t, p);
            var x, y := Before(t, p) + InOrder(n.left), InOrder(n.right) + After(t, p);
            InOrder(t) == x + [n.data] + y && InOrder(Graft(t, p, u)) == x + y
  {
    var n := Subtree(t, p);
    var b, l, r, a := Before(t, p), InOrder(n.left), InOrder(n.right), After(t, p);
    SubtreeInOrder(t, p);
    GraftInOrder(t, p, u);
    assert InOrder(n) == l + [n.data] + r;
    Regroup5(b, l, n.data, r, a);
  }

  lemma {:induction false} Regroup5<X>(b: seq<X>, l: seq<X>, v: X, r: seq<X>, a: seq<X>)
    ensures b + (l + [v] + r) + a == (b + l) + [v] + (r + a)
    ensures b + (l + r) + a == (b + l) + (r + a)
    ensures (b + l + a) + [v] + r == b + l + (a + [v] + r)
  {
  }

  /** Taking one element out of a sequence takes one copy out of its
      multiset, and keeps it ascending. */
  lemma {:induction false} DropOne<T>(key: T -> string, x: seq<T>, v: T, y: seq<T>)
    requires Ascending(key, x + [v] + y)
    ensures multiset(x + y) == multiset(x + [v] + y) - multiset{v}
    ensures Ascending(key, x + y)
  {
    assert multiset(x + [v] + y) == multiset(x) + multiset{v} + multiset(y);
    assert multiset(x + y) == multiset(x) + multiset(y);
    AscendingDrop(key, x, v, y);
  }

  /** A node with two children, given its successor's data and its right
      subtree without the successor, holds the same elements minus its own. */
  lemma {:induction false} SuccessorCopied<T>(l: Tree<T>, r: Tree<T>)
    requires r.Node?
    ensures var e := Extreme(r, Left);
            Subtree(r, e).Node?
            && InOrder(Node(l, Subtree(r, e).data, Graft(r, e, Subtree(r, e).right))) == InOrder(l) + InOrder(r)
  {
    var e := Extreme(r, Left);
    SuccessorCut(r);
    var m := Subtree(r, e);
    var rest := InOrder(Graft(r, e, m.right));
    assert InOrder(Node(l, m.data, Graft(r, e, m.right))) == InOrder(l) + [m.data] + rest;
    assert InOrder(r) == [m.data] + rest;
  }

  /** Unlinking the node at `p`, replacing it by a tree of its two subtrees'
      elements, takes one copy of its element out and keeps the order. */
  lemma {:induction false} Unlink<T>(key: T -> string, t: Tree<T>, p: Path, u: Tree<T>)
    requires Ascending(key, InOrder(t))
    requires Subtree(t, p).Node?
    requires InOrder(u) == InOrder(Subtree(t, p).left) + InOrder(Subtree(t, p).right)
    ensures Ascending(key, InOrder(Graft(t, p, u)))
    ensures multiset(InOrder(Graft(t, p, u))) == multiset(InOrder(t)) - multiset{Subtree(t, p).data}
    ensures |InOrder(Graft(t, p, u))| == |InOrder(t)| - 1
    ensures Subtree(t, p).data in InOrder(t)
  {
    var n := Subtree(t, p);
    UnlinkInOrder(t, p, u);
    var x, y := Before(t, p) + InOrder(n.left), InOrder(n.right) + After(t, p);
    DropOne(key, x, n.data, y);
  }

  // ---------------------------------------------------------------------
  // The walk from its first node

  /** A walk starts at the extreme node opposite to its direction, and an
      empty tree has no first node. */
  lemma {:induction false} WalkStart<T>(t: Tree<T>, d: Dir)
    ensures Position(t, d, 0) == if t.Nil? then None else Some(Extreme(t, Opp(d)))
  {
    if t.Node? {
      WalkFirst(t, d);
    }
  }

  /** The node a walk stands on holds the element of that rank, and the
      walk ends exactly after the last node. */
  lemma {:induction false} PositionData<T>(t: Tree<T>, d: Dir, i: nat)
    ensures Position(t, d, i).Some? <==> i < |InOrder(t)|
    ensures Position(t, d, i).Some? ==>
              Subtree(t, Position(t, d, i).value).Node?
              && Subtree(t, Position(t, d, i).value).data == InDirection(InOrder(t), d)[i]
  {
    if i < NodeCount(t) {
      WalkData(t, d, i);
    }
  }

  /** Two different numbers of steps lead to different nodes: a walk never
      comes back to a node, nor to its start once it has reached the end. */
  lemma {:induction false} PositionsDistinct<T>(t: Tree<T>, d: Dir, i: nat, j: nat)
    requires i < j <= |InOrder(t)|
    ensures Position(t, d, i) != Position(t, d, j)
  {
    if j < NodeCount(t) {
      WalkDistinct(t, d, i, j);
    }
  }

  /** The element an iterator standing at `current` dereferences to, or the
      `runtime_error` thrown for the null (end) iterator. */
  function DataAt<T>(t: Tree<T>, current: Option<Path>): (r: Result<T>)
    requires current.Some? ==> Subtree(t, current.value).Node?
    ensures r.Fail? <==> current.None?
    ensures r.Fail? ==> r.error == RuntimeError
  {
    if current.None? then Fail(RuntimeError) else Ok(Subtree(t, current.value).data)
  }

  // ---------------------------------------------------------------------
  // binaryTree

  /** The tree object: the root is replaced as values are pushed and
      removed. The comparator orders elements by a string key
      lexicographically (the only comparator the inventory uses: pharmacies
      by id). */
  class BinaryTree<T(==)> {
    var root: Tree<T>
    const key: T -> string

    /** The elements in ascending comparator order. */
    function Elements(): seq<T>
      reads this
    {
      InOrder(root)
    }

    /** The search-tree ordering: strictly ascending keys in order. */
    predicate Valid()
      reads this
    {
      Ascending(key, InOrder(root))
    }

    constructor (key: T -> string)
      ensures this.key == key && root == Nil
      ensures Valid() && Elements() == []
    {
      this.key := key;
      root := Nil;
    }

    /** begin(): an iterator on the leftmost node, end() for an empty tree. */
    method Begin() returns (it: Iterator<T>)
      ensures fresh(it) && it.tree == root && it.Valid()
      ensures it.current == Position(root, Right, 0)
    {
      WalkStart(root, Right);
      if root.Nil? {
        it := new Iterator(root, None);
      } else {
        var p := Descend(root, [], Left);
        ExtremeIsNode(root, Left);
        assert [] + Extreme(root, Left) == Extreme(root, Left);
        it := new Iterator(root, Some(p));
      }
    }

    /** end(): the null iterator. */
    method End() returns (it: Iterator<T>)
      ensures fresh(it) && it.tree == root && it.current == None && it.Valid()
    {
      it := new Iterator(root, None);
    }

    /** push(value): inserts `value` below the leaf the comparator leads to,
        or leaves the tree alone when an equivalent element is present. */
    method Push(value: T)
      requires Valid()
      modifies this
      ensures Valid()
      ensures root == Insert(key, old(root), value)
      ensures (exists y :: y in old(Elements()) && key(y) == key(value)) ==> root == old(root)
      ensures (forall y :: y in old(Elements()) ==> key(y) != key(value)) ==>
                multiset(Elements()) == multiset(old(Elements())) + multiset{value}
    {
      if exists y :: y in InOrder(root) && key(y) == key(value) {
        InsertExisting(key, root, value);
      } else {
        InsertFresh(key, root, value);
        InsertAdds(key, root, value);
      }
      root := Insert(key, root, value);
    }

    /** remove(value): finds the first node holding `value` in pre-order and
        unlinks it: a leaf is cut off, a node with one child is replaced by
        that child, and a node with two children takes the data of its
        successor (the minimum of its right subtree), which is then replaced
        by its own right child. */
    method Remove(value: T) returns (removed: bool)
      requires Valid()
      modifies this
      ensures Valid()
      ensures removed <==> value in old(Elements())
      ensures !removed ==> root == old(root)
      ensures removed ==> multiset(Elements()) == multiset(old(Elements())) - multiset{value}
      ensures removed ==> |Elements()| == |old(Elements())| - 1
    {
      var same := (item: T) => item == value;
      var found := FindIf(root, same);
      FindIfFinds(root, same);
      assert same(value);
      if found.None? {
        return false;
      }
      var p := found.value;
      var u := Unlinked(Subtree(root, p));
      Unlink(key, root, p, u);
      root := Graft(root, p, u);
      removed := true;
    }

    /** clear(): every node is released and the tree is empty. */
    method Clear()
      modifies this
      ensures root == Nil && Elements() == [] && Valid()
    {
      root := Nil;
    }

    /** empty(): the root is null exactly when there are no elements. */
    method Empty() returns (b: bool)
      ensures b <==> |Elements()| == 0
      ensures b <==> root.Nil?
    {
      b := root.Nil?;
    }

    /** size(): the number of nodes, one per element. */
    method Size() returns (n: nat)
      ensures n == |Elements()|
    {
      n := SizeOf(root);
    }

    /** find_if(pred): an iterator on the first node in pre-order whose
        element satisfies `pred`, or end(). */
    method Find(pred: T -> bool) returns (it: Iterator<T>)
      ensures fresh(it) && it.tree == root && it.Valid()
      ensures it.current == FindIf(root, pred)
      ensures it.current.None? <==> forall x :: x in Elements() ==> !pred(x)
      ensures it.current.Some? ==> pred(Subtree(root, it.current.value).data)
      ensures it.current.Some? ==> Subtree(root, it.current.value).data in Elements()
    {
      FindIfFinds(root, pred);
      if FindIf(root, pred).Some? {
        NodeDataIn(root, FindIf(root, pred).value);
      }
      it := new Iterator(root, FindIf(root, pred));
    }
  }

  /** The element of any node is one of the tree's elements. */
  lemma {:induction false} NodeDataIn<T>(t: Tree<T>, p: Path)
    requires Subtree(t, p).Node?
    ensures Subtree(t, p).data in InOrder(t)
  {
    NodeOnWalk(t, p, Right);
    var i := IndexOn(Walk(t, Right), p);
    WalkDataAscending(t, i);
  }

  /** What takes the place of a node `remove` deletes: nothing for a leaf,
      the only child for a node with one, and for a node with two children
      the node again, holding its successor's data (the minimum of the right
      subtree, found as `findMinNode` does), with the successor replaced by
      its own right child. Either way it holds the node's elements but its
      own. */
  method Unlinked<T>(n: Tree<T>) returns (u: Tree<T>)
    requires n.Node?
    ensures InOrder(u) == InOrder(n.left) + InOrder(n.right)
  {
    if n.left.Nil? && n.right.Nil? {
      u := Nil;
    } else if n.left.Nil? || n.right.Nil? {
      u := if n.left.Node? then n.left else n.right;
    } else {
      var e := Descend(n.right, [], Left);
      assert e == Extreme(n.right, Left);
      SuccessorCopied(n.left, n.right);
      var successor := Subtree(n.right, e);
      u := Node(n.left, successor.data, Graft(n.right, e, successor.right));
    }
  }

  /** sizeRecursive: one for the node plus the sizes of its subtrees. */
  method SizeOf<T>(t: Tree<T>) returns (n: nat)
    ensures n == |InOrder(t)|
    decreases t
  {
    if t.Nil? {
      return 0;
    }
    var a := SizeOf(t.left);
    var b := SizeOf(t.right);
    n := 1 + a + b;
  }

  /** The iterator nested in binaryTree: the tree it walks and the node it
      stands on, None for end(). */
  class Iterator<T> {
    const tree: Tree<T>
    var current: Option<Path>

    predicate Valid()
      reads this
    {
      current.Some? ==> Subtree(tree, current.value).Node?
    }

    constructor (tree: Tree<T>, current: Option<Path>)
      ensures this.tree == tree && this.current == current
    {
      this.tree := tree;
      this.current := current;
    }

    /** operator* and operator->: the element at the current node; the end
        iterator throws `runtime_error`. */
    method Deref() returns (r: Result<T>)
      requires Valid()
      ensures r == DataAt(tree, current)
    {
      if current.None? {
        return Fail(RuntimeError);
      }
      r := Ok(Subtree(tree, current.value).data);
    }

    /** Prefix ++: the in-order successor; from the last node the end
        iterator, and the end iterator stays where it is. */
    method Increment()
      requires Valid()
      modifies this
      ensures Valid()
      ensures current == if old(current).None? then None else Next(tree, old(current).value, Right)
    {
      if current.None? {
        return;
      }
      current := Step(tree, current.value, Right);
    }

    /** Postfix ++: a copy as it was before the step. */
    method PostIncrement() returns (before: Iterator<T>)
      requires Valid()
      modifies this
      ensures fresh(before) && before.tree == tree && before.current == old(current) && before.Valid()
      ensures Valid()
      ensures current == if old(current).None? then None else Next(tree, old(current).value, Right)
    {
      before := new Iterator(tree, current);
      Increment();
    }

    /** operator==: the two iterators stand on the same node. */
    function Equals(other: Iterator<T>): bool
      reads this, other
    {
      current == other.current
    }
  }
}
