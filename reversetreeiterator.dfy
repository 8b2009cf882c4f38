// reverse_tree_iterator: walks the tree from larger to smaller elements.
// `++` moves to the in-order predecessor and `--` to the successor; from
// null, `++` jumps to the minimum and `--` to the maximum of the tree whose
// root it remembers.

module ReverseTreeIterators {
  import opened Errors
  import opened BinaryTrees

  /** Where `++` (d = Left) or `--` (d = Right) leads: from a node the next
      one in direction `d`; from null the root followed down `d` children
      (the minimum for `++`, the maximum for `--`), unless the tree is
      empty. */
  function ReverseStep<T>(root: Tree<T>, current: Option<Path>, d: Dir): Option<Path>
    requires current.Some? ==> Subtree(root, current.value).Node?
  {
    if current.None? then (if root.Nil? then None else Some(Extreme(root, d)))
    else Next(root, current.value, d)
  }

  /** From null, `++` lands on the smallest element and `--` on the largest;
      from a node, on the neighbouring element of the walk. */
  lemma {:induction false} ReverseStepLands<T>(root: Tree<T>, current: Option<Path>, d: Dir)
    requires current.Some? ==> Subtree(root, current.value).Node?
    ensures current.None? ==> ReverseStep(root, current, d) == Position(root, Opp(d), 0)
    ensures current.None? && root.Node? ==>
              Subtree(root, ReverseStep(root, current, d).value).Node?
              && Subtree(root, ReverseStep(root, current, d).value).data
                 == InDirection(InOrder(root), Opp(d))[0]
    ensures current.None? && root.Nil? ==> ReverseStep(root, current, d) == None
    ensures current.Some? && ReverseStep(root, current, d).Some? ==>
              Subtree(root, ReverseStep(root, current, d).value).Node?
  {
    WalkStart(root, Opp(d));
    assert Opp(Opp(d)) == d;
    PositionData(root, Opp(d), 0);
    if current.Some? && Next(root, current.value, d).Some? {
      NextIsNode(root, current.value, d);
    }
  }

  /** From the maximum, `++` visits the elements in descending order and
      then reaches null: the `i`-th step of the descending walk stands on
      the `i`-th largest element and moves on to the next step. */
  lemma {:induction false} DescendingVisit<T>(root: Tree<T>, i: nat)
    requires i < |InOrder(root)|
    ensures Position(root, Left, 0) == if root.Nil? then None else Some(Extreme(root, Right))
    ensures Position(root, Left, i).Some? && Subtree(root, Position(root, Left, i).value).Node?
    ensures Subtree(root, Position(root, Left, i).value).data == Reversed(InOrder(root))[i]
    ensures Next(root, Position(root, Left, i).value, Left) == Position(root, Left, i + 1)
  {
    WalkStart(root, Left);
    PositionData(root, Left, i);
    NextAlongWalk(root, Left, i);
  }

  class ReverseTreeIterator<T> {
    const root: Tree<T>
    var current: Option<Path>

    /** A non-null iterator stands on a node of the tree. */
    predicate Valid()
      reads this
    {
      current.Some? ==> Subtree(root, current.value).Node?
    }

    constructor (current: Option<Path>, root: Tree<T>)
      ensures this.root == root && this.current == current
    {
      this.root := root;
      this.current := current;
    }

    /** operator* and operator->: the node's element; null throws
        `runtime_error`. */
    method Deref() returns (r: Result<T>)
      requires Valid()
      ensures r == DataAt(root, current)
    {
      if current.None? {
        return Fail(RuntimeError);
      }
      r := Ok(Subtree(root, current.value).data);
    }

    /** Prefix ++: towards smaller elements. */
    method Increment()
      requires Valid()
      modifies this
      ensures Valid()
      ensures current == ReverseStep(root, old(current), Left)
    {
      current := Move(root, current, Left);
    }

    /** Postfix ++: a copy as it was, then the step. */
    method PostIncrement() returns (before: ReverseTreeIterator<T>)
      requires Valid()
      modifies this
      ensures fresh(before) && before.root == root && before.current == old(current) && before.Valid()
      ensures Valid()
      ensures current == ReverseStep(root, old(current), Left)
    {
      before := new ReverseTreeIterator(current, root);
      Increment();
    }

    /** Prefix --: towards larger elements. */
    method Decrement()
      requires Valid()
      modifies this
      ensures Valid()
      ensures current == ReverseStep(root, old(current), Right)
    {
      current := Move(root, current, Right);
    }

    /** Postfix --: a copy as it was, then the step. */
    method PostDecrement() returns (before: ReverseTreeIterator<T>)
      requires Valid()
      modifies this
      ensures fresh(before) && before.root == root && before.current == old(current) && before.Valid()
      ensures Valid()
      ensures current == ReverseStep(root, old(current), Right)
    {
      before := new ReverseTreeIterator(current, root);
      Decrement();
    }

    /** operator==: the same node, or both null. */
    method Equals(other: ReverseTreeIterator<T>) returns (b: bool)
      ensures b <==> current == other.current
    {
      b := current == other.current;
    }
  }

  /** The body shared by `++` and `--`: the jump from null (the tree root
      followed down `d` children; nothing for an empty tree) or a step
      to the neighbour in direction `d`. */
  method Move<T>(root: Tree<T>, current: Option<Path>, d: Dir) returns (r: Option<Path>)
    requires current.Some? ==> Subtree(root, current.value).Node?
    ensures r == ReverseStep(root, current, d)
    ensures r.Some? ==> Subtree(root, r.value).Node?
  {
    ReverseStepLands(root, current, d);
    if current.None? {
      if root.Nil? {
        return None;
      }
      var p := Descend(root, [], d);
      assert [] + Extreme(root, d) == Extreme(root, d);
      return Some(p);
    }
    r := Step(root, current.value, d);
  }
}
