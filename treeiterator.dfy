// tree_iterator: the standalone bidirectional iterator over tree nodes. It
// climbs through parent pointers; here a node is its path in the tree it
// belongs to, and the null pointer is None.

module TreeIterators {
  import opened Errors
  import opened BinaryTrees

  /** `--` undoes `++` and `++` undoes `--`: a step in direction `d` that
      lands on a node is reversed by a step in the opposite direction. */
  lemma {:induction false} NextInverse<T>(t: Tree<T>, p: Path, d: Dir)
    requires Subtree(t, p).Node? && Next(t, p, d).Some?
    ensures Next(t, Next(t, p, d).value, Opp(d)) == Some(p)
  {
    var n := NodeCount(t);
    NodeOnWalk(t, p, d);
    var i := IndexOn(Walk(t, d), p);
    NextAlongWalk(t, d, i);
    assert i + 1 < n;
    WalkOppIndex(t, d, n - 2 - i);
    WalkOppIndex(t, d, n - 1 - i);
    NextAlongWalk(t, Opp(d), n - 2 - i);
  }

  class TreeIterator<T> {
    const tree: Tree<T>
    var current: Option<Path>

    /** A non-null iterator stands on a node of its tree. */
    predicate Valid()
      reads this
    {
      current.Some? ==> Subtree(tree, current.value).Node?
    }

    constructor (tree: Tree<T>, current: Option<Path>)
      ensures this.tree == tree && this.current == current
    {
      this.tree := tree;
      this.current := current;
    }

    /** operator* and operator->: the node's element; null throws
        `runtime_error`. */
    method Deref() returns (r: Result<T>)
      requires Valid()
      ensures r == DataAt(tree, current)
    {
      if current.None? {
        return Fail(RuntimeError);
      }
      r := Ok(Subtree(tree, current.value).data);
    }

    /** Prefix ++: the in-order successor, null after the maximum; on null
        it throws `runtime_error` and does not move. */
    method Increment() returns (r: Outcome)
      requires Valid()
      modifies this
      ensures Valid()
      ensures old(current).None? ==> r == Raise(RuntimeError) && current == None
      ensures old(current).Some? ==> r == Pass && current == Next(tree, old(current).value, Right)
    {
      if current.None? {
        return Raise(RuntimeError);
      }
      current := Step(tree, current.value, Right);
      r := Pass;
    }

    /** Postfix ++: a copy as it was, then the step. */
    method PostIncrement() returns (before: TreeIterator<T>, r: Outcome)
      requires Valid()
      modifies this
      ensures fresh(before) && before.tree == tree && before.current == old(current) && before.Valid()
      ensures Valid()
      ensures old(current).None? ==> r == Raise(RuntimeError) && current == None
      ensures old(current).Some? ==> r == Pass && current == Next(tree, old(current).value, Right)
    {
      before := new TreeIterator(tree, current);
      r := Increment();
    }

    /** Prefix --: the in-order predecessor, null before the minimum; on
        null it throws `runtime_error` and does not move. */
    method Decrement() returns (r: Outcome)
      requires Valid()
      modifies this
      ensures Valid()
      ensures old(current).None? ==> r == Raise(RuntimeError) && current == None
      ensures old(current).Some? ==> r == Pass && current == Next(tree, old(current).value, Left)
    {
      if current.None? {
        return Raise(RuntimeError);
      }
      current := Step(tree, current.value, Left);
      r := Pass;
    }

    /** Postfix --: a copy as it was, then the step. */
    method PostDecrement() returns (before: TreeIterator<T>, r: Outcome)
      requires Valid()
      modifies this
      ensures fresh(before) && before.tree == tree && before.current == old(current) && before.Valid()
      ensures Valid()
      ensures old(current).None? ==> r == Raise(RuntimeError) && current == None
      ensures old(current).Some? ==> r == Pass && current == Next(tree, old(current).value, Left)
    {
      before := new TreeIterator(tree, current);
      r := Decrement();
    }

    /** operator==: the same node, or both null. */
    method Equals(other: TreeIterator<T>) returns (b: bool)
      ensures b <==> current == other.current
    {
      b := current == other.current;
    }
  }
}
