// tree_algorithms: collects the elements between two iterators, the forward
// iterator of the tree for ascending order and the reverse iterator for
// descending order. A range is named by the ranks of its two ends on the
// walk: the iterator at rank `s` up to, not including, the one at rank `e`.

module TreeAlgorithms {
  import opened Errors
  import opened BinaryTrees
  import opened ReverseTreeIterators
  import opened LexOrder

  /** One pass of either loop: the iterator at rank `k`, short of the
      end at rank `e`, stands on the `k`-th element in direction `d`, is
      not yet the end, and `++` takes it to rank `k + 1`. */
  lemma {:induction false} LoopStep<T>(t: Tree<T>, d: Dir, k: nat, e: nat)
    requires k < e <= |InOrder(t)|
    ensures Position(t, d, k).Some? && Subtree(t, Position(t, d, k).value).Node?
    ensures Subtree(t, Position(t, d, k).value).data == InDirection(InOrder(t), d)[k]
    ensures Position(t, d, k) != Position(t, d, e)
    ensures Next(t, Position(t, d, k).value, d) == Position(t, d, k + 1)
    ensures k + 1 < e ==> Position(t, d, k + 1) != Position(t, d, e)
  {
    PositionData(t, d, k);
    PositionsDistinct(t, d, k, e);
    NextAlongWalk(t, d, k);
    if k + 1 < e {
      PositionsDistinct(t, d, k + 1, e);
    }
  }

  /** A slice grows by the element at its end. */
  lemma SliceGrows<X>(s: seq<X>, i: nat, k: nat)
    requires i <= k < |s|
    ensures s[i..k] + [s[k]] == s[i..k + 1]
  {
  }

  /** `*it` and then `++it` on an iterator short of the end: the element
      of rank `k`, and the iterator one rank further. */
  method TakeAscending<T>(it: Iterator<T>, ghost k: nat, ghost e: nat) returns (x: T)
    requires k < e <= |InOrder(it.tree)|
    requires it.current == Position(it.tree, Right, k)
    modifies it
    ensures it.Valid() && it.current == Position(it.tree, Right, k + 1)
    ensures x == InOrder(it.tree)[k]
    ensures k + 1 < e ==> it.current != Position(it.tree, Right, e)
  {
    x := PeekAscending(it, k, e);
    AdvanceAscending(it, k, e);
  }

  /** `*it` on an iterator short of the end: the element of rank `k`. */
  method PeekAscending<T>(it: Iterator<T>, ghost k: nat, ghost e: nat) returns (x: T)
    requires k < e <= |InOrder(it.tree)|
    requires it.current == Position(it.tree, Right, k)
    ensures x == InOrder(it.tree)[k]
  {
    LoopStep(it.tree, Right, k, e);
    var v := it.Deref();
    x := v.value;
  }

  /** `++it` on an iterator short of the end: one rank further. */
  method AdvanceAscending<T>(it: Iterator<T>, ghost k: nat, ghost e: nat)
    requires k < e <= |InOrder(it.tree)|
    requires it.current == Position(it.tree, Right, k)
    modifies it
    ensures it.Valid() && it.current == Position(it.tree, Right, k + 1)
    ensures k + 1 < e ==> it.current != Position(it.tree, Right, e)
  {
    LoopStep(it.tree, Right, k, e);
    it.Increment();
  }

  /** get_sorted_ascending(begin, end): advances a copy of `begin` with `++`
      until it equals `end`, keeping each element on the way. */
  method GetSortedAscending<T>(ghost s: nat, ghost e: nat, begin: Iterator<T>, end: Iterator<T>)
    returns (result: seq<T>)
    requires s <= e <= |InOrder(begin.tree)|
    requires begin.current == Position(begin.tree, Right, s)
    requires end.current == Position(begin.tree, Right, e)
    ensures result == InOrder(begin.tree)[s..e]
  {
    ghost var t := begin.tree;
    PositionData(t, Right, s);
    var it := new Iterator(begin.tree, begin.current);
    ghost var k := s;
    result := [];
    if k < e {
      LoopStep(t, Right, k, e);
    }
    var atEnd := it.Equals(end);
    while !atEnd
      invariant s <= k <= e && it.tree == t && it.Valid()
      invariant it.current == Position(t, Right, k)
      invariant atEnd <==> k == e
      invariant result == InOrder(t)[s..k]
      decreases e - k
    {
      var x := TakeAscending(it, k, e);
      SliceGrows(InOrder(t), s, k);
      result := result + [x];
      k := k + 1;
      atEnd := it.Equals(end);
    }
  }

  /** `*it` and then `++it` on an iterator short of the end: the element
      of rank `k`, and the iterator one rank further. */
  method TakeDescending<T>(it: ReverseTreeIterator<T>, ghost k: nat, ghost e: nat) returns (x: T)
    requires k < e <= |InOrder(it.root)|
    requires it.current == Position(it.root, Left, k)
    modifies it
    ensures it.Valid() && it.current == Position(it.root, Left, k + 1)
    ensures x == Reversed(InOrder(it.root))[k]
    ensures k + 1 < e ==> it.current != Position(it.root, Left, e)
  {
    LoopStep(it.root, Left, k, e);
    var v := it.Deref();
    x := v.value;
    it.Increment();
  }

  /** get_sorted_descending(rbegin, rend): the same loop over the reverse
      iterator, whose `++` moves to the next smaller element. */
  method GetSortedDescending<T>(ghost s: nat, ghost e: nat, rbegin: ReverseTreeIterator<T>, rend: ReverseTreeIterator<T>)
    returns (result: seq<T>)
    requires s <= e <= |InOrder(rbegin.root)|
    requires rbegin.current == Position(rbegin.root, Left, s)
    requires rend.current == Position(rbegin.root, Left, e)
    ensures result == Reversed(InOrder(rbegin.root))[s..e]
  {
    ghost var t := rbegin.root;
    PositionData(t, Left, s);
    var it := new ReverseTreeIterator(rbegin.current, rbegin.root);
    ghost var k := s;
    result := [];
    if k < e {
      LoopStep(t, Left, k, e);
    }
    var atEnd := it.Equals(rend);
    while !atEnd
      invariant s <= k <= e && it.root == t && it.Valid()
      invariant it.current == Position(t, Left, k)
      invariant atEnd <==> k == e
      invariant result == Reversed(InOrder(t))[s..k]
      decreases e - k
    {
      var x := TakeDescending(it, k, e);
      SliceGrows(Reversed(InOrder(t)), s, k);
      result := result + [x];
      k := k + 1;
      atEnd := it.Equals(rend);
    }
  }

  /** The whole tree from begin() to end(): every element once, in
      ascending key order. */
  method SortedAscending<T(==)>(tree: BinaryTree<T>) returns (result: seq<T>)
    requires tree.Valid()
    ensures result == tree.Elements()
    ensures forall i, j :: 0 <= i < j < |result| ==> Less(tree.key(result[i]), tree.key(result[j]))
  {
    var b := tree.Begin();
    var e := tree.End();
    PositionData(tree.root, Right, |InOrder(tree.root)|);
    result := GetSortedAscending(0, |InOrder(tree.root)|, b, e);
    assert InOrder(tree.root)[0..|InOrder(tree.root)|] == InOrder(tree.root);
  }

  /** The whole tree from the maximum (where `--` from null lands) to null:
      every element once, in descending key order. */
  method SortedDescending<T(==)>(tree: BinaryTree<T>) returns (result: seq<T>)
    requires tree.Valid()
    ensures result == Reversed(tree.Elements())
    ensures forall i, j :: 0 <= i < j < |result| ==> Less(tree.key(result[j]), tree.key(result[i]))
  {
    ghost var rev := Reversed(InOrder(tree.root));
    var n := |InOrder(tree.root)|;
    var rb, re := ReverseEnds(tree.root);
    result := GetSortedDescending(0, n, rb, re);
    assert rev[0..n] == rev;
    ReversedDescends(tree.key, InOrder(tree.root), result);
  }

  /** The reverse range over a whole tree: `--` from null, which lands on
      the maximum, up to null. */
  method ReverseEnds<T>(root: Tree<T>) returns (rb: ReverseTreeIterator<T>, re: ReverseTreeIterator<T>)
    ensures rb.root == root && rb.current == Position(root, Left, 0)
    ensures re.current == Position(root, Left, |InOrder(root)|)
  {
    rb := new ReverseTreeIterator(None, root);
    rb.Decrement();
    ReverseStepLands(root, None, Right);
    re := new ReverseTreeIterator(None, root);
    PositionData(root, Left, |InOrder(root)|);
  }

  /** Read backwards, an ascending sequence descends. */
  lemma {:induction false} ReversedDescends<T>(key: T -> string, s: seq<T>, r: seq<T>)
    requires Ascending(key, s) && r == Reversed(s)
    ensures forall i, j :: 0 <= i < j < |r| ==> Less(key(r[j]), key(r[i]))
  {
    forall i, j | 0 <= i < j < |s|
      ensures Less(key(r[j]), key(r[i]))
    {
      assert r[j] == s[|s| - 1 - j] && r[i] == s[|s| - 1 - i];
      assert Comp(key, s[|s| - 1 - j], s[|s| - 1 - i]);
    }
  }
}
