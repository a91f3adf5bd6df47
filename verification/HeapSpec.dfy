/**
 The value a LocHeapNode tree stands for, and what push, pop and remove compute on it
 (gps/utils/LocHeap.cpp). Every operation takes the client's `ranks` as a parameter, because
 LocRankable::ranks is virtual; the order laws it needs are the predicate StrictWeakOrder.
 */
module HeapSpec {

  import opened Wrappers

  datatype Tree<T> = Nil | Node(size: int, left: Tree<T>, right: Tree<T>, data: T)

  /** Ranks higher: LocRankable::outRanks. */
  predicate OutRanks<T>(ranks: (T, T) -> int, a: T, b: T) {
    ranks(a, b) > 0
  }

  predicate Asymmetric<T>(ranks: (T, T) -> int, a: T, b: T) {
    OutRanks(ranks, a, b) ==> !OutRanks(ranks, b, a)
  }

  predicate Transitive<T>(ranks: (T, T) -> int, a: T, b: T, c: T) {
    !OutRanks(ranks, a, b) && !OutRanks(ranks, b, c) ==> !OutRanks(ranks, a, c)
  }

  /** "Does not outrank" is a total preorder. */
  ghost predicate StrictWeakOrder<T(!new)>(ranks: (T, T) -> int) {
    && (forall a, b :: Asymmetric(ranks, a, b))
    && (forall a, b, c :: Transitive(ranks, a, b, c))
  }

  function Size<T>(t: Tree<T>): int {
    if t.Nil? then 0 else t.size
  }

  /** The elements held, each as often as it is held. */
  ghost function Elems<T>(t: Tree<T>): multiset<T> {
    match t
    case Nil => multiset{}
    case Node(_, l, r, d) => multiset{d} + Elems(l) + Elems(r)
  }

  /** Every cached size is the number of nodes of its subtree. */
  predicate Sized<T>(t: Tree<T>) {
    t.Node? ==> t.size == 1 + Size(t.left) + Size(t.right) && Sized(t.left) && Sized(t.right)
  }

  /** No child outranks its parent. */
  predicate Ordered<T>(ranks: (T, T) -> int, t: Tree<T>) {
    t.Node? ==>
      && (t.left.Node? ==> !OutRanks(ranks, t.left.data, t.data))
      && (t.right.Node? ==> !OutRanks(ranks, t.right.data, t.data))
      && Ordered(ranks, t.left)
      && Ordered(ranks, t.right)
  }

  /** No element of a subtree outranks the top of that subtree, at any depth. */
  ghost predicate Dominated<T>(ranks: (T, T) -> int, t: Tree<T>) {
    t.Node? ==>
      && (forall x | x in Elems(t) :: !OutRanks(ranks, x, t.data))
      && Dominated(ranks, t.left)
      && Dominated(ranks, t.right)
  }

  predicate Heap<T>(ranks: (T, T) -> int, t: Tree<T>) {
    Sized(t) && Ordered(ranks, t)
  }

  // ----- the operations ---------------------------------------------------------------------

  function Leaf<T>(x: T): Tree<T> {
    Node(1, Nil, Nil, x)
  }

  /** Push into a non-empty tree: the lower ranked of x and the top sinks into one subtree. */
  function PushNode<T>(ranks: (T, T) -> int, t: Tree<T>, x: T): Tree<T>
    requires t.Node?
  {
    var top := if OutRanks(ranks, x, t.data) then x else t.data;
    var low := if OutRanks(ranks, x, t.data) then t.data else x;
    if t.left.Nil? then Node(t.size + 1, Leaf(low), t.right, top)
    else if t.right.Nil? then Node(t.size + 1, t.left, Leaf(low), top)
    else if t.left.size <= t.right.size then Node(t.size + 1, PushNode(ranks, t.left, low), t.right, top)
    else Node(t.size + 1, t.left, PushNode(ranks, t.right, low), top)
  }

  function Push<T>(ranks: (T, T) -> int, t: Tree<T>, x: T): Tree<T> {
    if t.Nil? then Leaf(x) else PushNode(ranks, t, x)
  }

  /** Whether pop descends to the left subtree. */
  predicate PopsLeft<T>(ranks: (T, T) -> int, t: Tree<T>)
    requires t.Node? && (t.left.Node? || t.right.Node?)
  {
    t.left.Node? && (t.right.Nil? || OutRanks(ranks, t.left.data, t.right.data))
  }

  /** The tree after its top has been popped. */
  function Pop<T>(ranks: (T, T) -> int, t: Tree<T>): Tree<T>
    requires t.Node?
  {
    if t.left.Nil? && t.right.Nil? then Nil
    else if PopsLeft(ranks, t) then Node(t.size - 1, Pop(ranks, t.left), t.right, t.left.data)
    else Node(t.size - 1, t.left, Pop(ranks, t.right), t.right.data)
  }

  /** The tree without x, or None when the pruned search misses x. */
  function Remove<T(==)>(ranks: (T, T) -> int, t: Tree<T>, x: T): Option<Tree<T>> {
    if t.Nil? then None
    else if x == t.data then Some(Pop(ranks, t))
    else if OutRanks(ranks, x, t.data) then None
    else
      var l := Remove(ranks, t.left, x);
      if l.Some? then Some(Node(t.size - 1, l.value, t.right, t.data))
      else
        var r := Remove(ranks, t.right, x);
        if r.Some? then Some(Node(t.size - 1, t.left, r.value, t.data)) else None
  }

  /** checkNodes: a child that outranks its parent or a wrong size fails the check. */
  predicate CheckNodes<T>(ranks: (T, T) -> int, t: Tree<T>)
    requires t.Node?
  {
    && (t.left.Node? ==> !OutRanks(ranks, t.left.data, t.data) && CheckNodes(ranks, t.left))
    && (t.right.Node? ==> !OutRanks(ranks, t.right.data, t.data) && CheckNodes(ranks, t.right))
    && t.size - Size(t.left) - Size(t.right) == 1
  }

  // ----- what the order promises -------------------------------------------------------------

  lemma {:induction false} TopDominates<T(!new)>(ranks: (T, T) -> int, t: Tree<T>, x: T)
    requires StrictWeakOrder(ranks) && t.Node? && Ordered(ranks, t) && x in Elems(t)
    requires Dominated(ranks, t.left) && Dominated(ranks, t.right)
    ensures !OutRanks(ranks, x, t.data)
  {
    assert Asymmetric(ranks, t.data, t.data);
    if x in Elems(t.left) {
      assert Transitive(ranks, x, t.left.data, t.data);
    } else if x in Elems(t.right) {
      assert Transitive(ranks, x, t.right.data, t.data);
    }
  }

  lemma {:induction false} DominatedIsOrdered<T(!new)>(ranks: (T, T) -> int, t: Tree<T>)
    requires t.Node? && Dominated(ranks, t) && Ordered(ranks, t.left) && Ordered(ranks, t.right)
    ensures Ordered(ranks, t)
  {
    TopInElems(t.left);
    TopInElems(t.right);
  }

  lemma {:induction false} OrderedTopIsMax<T(!new)>(ranks: (T, T) -> int, t: Tree<T>)
    requires StrictWeakOrder(ranks) && t.Node? && Ordered(ranks, t)
    requires Dominated(ranks, t.left) && Dominated(ranks, t.right)
    ensures Dominated(ranks, t)
  {
    forall x | x in Elems(t) ensures !OutRanks(ranks, x, t.data) {
      TopDominates(ranks, t, x);
    }
  }

  /** In a heap nothing outranks the top of any subtree: peek is a maximum. */
  lemma {:induction false} OrderedIsDominated<T(!new)>(ranks: (T, T) -> int, t: Tree<T>)
    requires StrictWeakOrder(ranks)
    ensures Ordered(ranks, t) <==> Dominated(ranks, t)
  {
    if t.Node? {
      OrderedIsDominated(ranks, t.left);
      OrderedIsDominated(ranks, t.right);
      if Ordered(ranks, t) {
        OrderedTopIsMax(ranks, t);
      } else if Dominated(ranks, t) {
        DominatedIsOrdered(ranks, t);
      }
    }
  }

  lemma TopInElems<T>(t: Tree<T>)
    ensures t.Node? ==> t.data in Elems(t)
  {
  }

  /** checkNodes is true exactly when all sizes are right and no descendant outranks an ancestor. */
  lemma {:induction false} CheckNodesExact<T(!new)>(ranks: (T, T) -> int, t: Tree<T>)
    requires t.Node? && StrictWeakOrder(ranks)
    ensures CheckNodes(ranks, t) <==> Sized(t) && Dominated(ranks, t)
  {
    CheckNodesIsHeap(ranks, t);
    OrderedIsDominated(ranks, t);
  }

  /** For any ranking at all, checkNodes compares every child with its parent. */
  lemma {:induction false} CheckNodesIsHeap<T>(ranks: (T, T) -> int, t: Tree<T>)
    requires t.Node?
    ensures CheckNodes(ranks, t) <==> Heap(ranks, t)
  {
    if t.left.Node? {
      CheckNodesIsHeap(ranks, t.left);
    } else {
      assert Sized(t.left) && Ordered(ranks, t.left);
    }
    if t.right.Node? {
      CheckNodesIsHeap(ranks, t.right);
    } else {
      assert Sized(t.right) && Ordered(ranks, t.right);
    }
  }

  // ----- push ------------------------------------------------------------------------------

  /** Push adds exactly x and keeps sizes and order. */
  lemma {:induction false} PushAdds<T(!new)>(ranks: (T, T) -> int, t: Tree<T>, x: T)
    requires Heap(ranks, t) && StrictWeakOrder(ranks)
    ensures Heap(ranks, Push(ranks, t, x))
    ensures Elems(Push(ranks, t, x)) == Elems(t) + multiset{x}
    ensures Size(Push(ranks, t, x)) == Size(t) + 1
  {
    PushElems(ranks, t, x);
    PushOrdered(ranks, t, x);
    PushNoWorse(ranks, t, x);
  }

  lemma {:induction false} PushElems<T>(ranks: (T, T) -> int, t: Tree<T>, x: T)
    ensures Elems(Push(ranks, t, x)) == Elems(t) + multiset{x}
  {
    if t.Node? {
      var low := if OutRanks(ranks, x, t.data) then t.data else x;
      var p := PushNode(ranks, t, x);
      assert multiset{p.data} + multiset{low} == multiset{t.data} + multiset{x};
      if t.left.Nil? || (t.right.Node? && t.left.size <= t.right.size) {
        PushElems(ranks, t.left, low);
        assert p.left == Push(ranks, t.left, low) && p.right == t.right;
      } else {
        PushElems(ranks, t.right, low);
        assert p.left == t.left && p.right == Push(ranks, t.right, low);
      }
      Regroup(Elems(p.left), Elems(p.right), Elems(t.left), Elems(t.right), p.data, low, t.data, x);
    }
  }

  lemma Regroup<T>(l': multiset<T>, r': multiset<T>, l: multiset<T>, r: multiset<T>, a: T, b: T, c: T, d: T)
    requires multiset{a} + multiset{b} == multiset{c} + multiset{d}
    requires (l' == l + multiset{b} && r' == r) || (l' == l && r' == r + multiset{b})
    ensures multiset{a} + l' + r' == multiset{c} + l + r + multiset{d}
  {
    assert multiset{a} + l' + r' == (multiset{a} + multiset{b}) + l + r;
  }

  lemma {:induction false} PushOrdered<T(!new)>(ranks: (T, T) -> int, t: Tree<T>, x: T)
    requires Ordered(ranks, t) && StrictWeakOrder(ranks)
    ensures Ordered(ranks, Push(ranks, t, x))
  {
    if t.Node? {
      var top := if OutRanks(ranks, x, t.data) then x else t.data;
      var low := if OutRanks(ranks, x, t.data) then t.data else x;
      PushOrdered(ranks, t.left, low);
      PushOrdered(ranks, t.right, low);
      PushTop(ranks, t.left, low);
      PushTop(ranks, t.right, low);
      assert Asymmetric(ranks, x, t.data);
      if t.left.Node? {
        assert Transitive(ranks, t.left.data, t.data, x);
      }
      if t.right.Node? {
        assert Transitive(ranks, t.right.data, t.data, x);
      }
    }
  }

  /** The new top is x exactly when the tree was empty or x outranks the old top. */
  lemma PushTop<T>(ranks: (T, T) -> int, t: Tree<T>, x: T)
    ensures Push(ranks, t, x).Node?
    ensures Push(ranks, t, x).data ==
            if t.Nil? || OutRanks(ranks, x, t.data) then x else t.data
  {
  }

  // ----- pop -------------------------------------------------------------------------------

  /** Pop removes exactly the top, which nothing in the heap outranks. */
  lemma {:induction false} PopRemovesTop<T(!new)>(ranks: (T, T) -> int, t: Tree<T>)
    requires t.Node? && Heap(ranks, t) && StrictWeakOrder(ranks)
    ensures Heap(ranks, Pop(ranks, t))
    ensures Elems(Pop(ranks, t)) == Elems(t) - multiset{t.data}
    ensures Size(Pop(ranks, t)) == t.size - 1
    ensures forall x | x in Elems(t) :: !OutRanks(ranks, x, t.data)
  {
    OrderedIsDominated(ranks, t);
    PopElems(ranks, t);
    PopSized(ranks, t);
    PopOrdered(ranks, t);
  }

  lemma {:induction false} PopElems<T>(ranks: (T, T) -> int, t: Tree<T>)
    requires t.Node?
    ensures Elems(t) == Elems(Pop(ranks, t)) + multiset{t.data}
  {
    if t.left.Node? || t.right.Node? {
      var p := Pop(ranks, t);
      if PopsLeft(ranks, t) {
        PopElems(ranks, t.left);
        assert p.left == Pop(ranks, t.left) && p.right == t.right;
      } else {
        PopElems(ranks, t.right);
        assert p.left == t.left && p.right == Pop(ranks, t.right);
      }
      assert Elems(p) == multiset{p.data} + Elems(p.left) + Elems(p.right);
    }
  }

  lemma {:induction false} PopSized<T>(ranks: (T, T) -> int, t: Tree<T>)
    requires t.Node? && Sized(t)
    ensures Sized(Pop(ranks, t)) && Size(Pop(ranks, t)) == t.size - 1
  {
    if t.left.Node? || t.right.Node? {
      if PopsLeft(ranks, t) {
        PopSized(ranks, t.left);
      } else {
        PopSized(ranks, t.right);
      }
    }
  }

  /** The data after a pop are data from before, so whatever did not outrank, or was not outranked, stays so. */
  lemma {:induction false} PopOrdered<T(!new)>(ranks: (T, T) -> int, t: Tree<T>)
    requires t.Node? && Ordered(ranks, t) && StrictWeakOrder(ranks)
    ensures Ordered(ranks, Pop(ranks, t))
    ensures Pop(ranks, t).Node? ==> !OutRanks(ranks, Pop(ranks, t).data, t.data)
  {
    if t.left.Node? || t.right.Node? {
      if PopsLeft(ranks, t) {
        PopOrdered(ranks, t.left);
        if t.right.Node? {
          assert Asymmetric(ranks, t.left.data, t.right.data);
        }
      } else {
        PopOrdered(ranks, t.right);
      }
    }
  }

  // ----- remove ----------------------------------------------------------------------------

  /**
   The rank-based pruning never hides an element: remove succeeds exactly when x is held, and
   then takes out exactly one occurrence and keeps every size exact.
   */
  lemma {:induction false} RemoveComplete<T(!new)>(ranks: (T, T) -> int, t: Tree<T>, x: T)
    requires Heap(ranks, t) && StrictWeakOrder(ranks)
    ensures Remove(ranks, t, x).Some? <==> x in Elems(t)
    ensures x in Elems(t) ==>
              var r := Remove(ranks, t, x).value;
              && Heap(ranks, r)
              && Elems(r) == Elems(t) - multiset{x}
              && Size(r) == Size(t) - 1
  {
    RemoveFinds(ranks, t, x);
    if x in Elems(t) {
      RemoveSound(ranks, t, x);
      RemoveOrdered(ranks, t, x);
    }
  }

  lemma {:induction false} RemoveFinds<T(!new)>(ranks: (T, T) -> int, t: Tree<T>, x: T)
    requires Ordered(ranks, t) && StrictWeakOrder(ranks)
    ensures Remove(ranks, t, x).Some? <==> x in Elems(t)
  {
    if t.Node? {
      OrderedIsDominated(ranks, t);
      RemoveFinds(ranks, t.left, x);
      RemoveFinds(ranks, t.right, x);
    }
  }

  /** For any ranking: a removal that succeeds took out x, and only x. */
  lemma {:induction false} RemoveSound<T>(ranks: (T, T) -> int, t: Tree<T>, x: T)
    requires Sized(t) && Remove(ranks, t, x).Some?
    ensures Elems(t) == Elems(Remove(ranks, t, x).value) + multiset{x}
    ensures Sized(Remove(ranks, t, x).value) && Size(Remove(ranks, t, x).value) == Size(t) - 1
  {
    if x == t.data {
      PopElems(ranks, t);
      PopSized(ranks, t);
    } else if Remove(ranks, t.left, x).Some? {
      RemoveSound(ranks, t.left, x);
    } else {
      RemoveSound(ranks, t.right, x);
    }
  }

  lemma {:induction false} RemoveOrdered<T(!new)>(ranks: (T, T) -> int, t: Tree<T>, x: T)
    requires Ordered(ranks, t) && StrictWeakOrder(ranks) && Remove(ranks, t, x).Some?
    ensures var r := Remove(ranks, t, x).value;
            Ordered(ranks, r) && (r.Node? ==> !OutRanks(ranks, r.data, t.data))
  {
    assert Asymmetric(ranks, t.data, t.data);
    if x == t.data {
      PopOrdered(ranks, t);
    } else if Remove(ranks, t.left, x).Some? {
      RemoveOrdered(ranks, t.left, x);
      var l := Remove(ranks, t.left, x).value;
      assert l.Node? ==> Transitive(ranks, l.data, t.left.data, t.data);
    } else {
      RemoveOrdered(ranks, t.right, x);
      var r := Remove(ranks, t.right, x).value;
      assert r.Node? ==> Transitive(ranks, r.data, t.right.data, t.data);
    }
  }

  /** Push followed by remove of the same element gives back the same elements. */
  lemma {:induction false} PushThenRemove<T(!new)>(ranks: (T, T) -> int, t: Tree<T>, x: T)
    requires Heap(ranks, t) && StrictWeakOrder(ranks)
    ensures Remove(ranks, Push(ranks, t, x), x).Some?
    ensures Elems(Remove(ranks, Push(ranks, t, x), x).value) == Elems(t)
  {
    PushAdds(ranks, t, x);
    RemoveComplete(ranks, Push(ranks, t, x), x);
  }

  /**
   The order laws are needed: with a ranking that is not transitive the heap is well formed,
   holds 0, and remove does not find it.
   */
  lemma RemoveMissesWithoutOrder()
    ensures exists ranks: (int, int) -> int, t: Tree<int>, x: int ::
              Heap(ranks, t) && x in Elems(t) && Remove(ranks, t, x).None?
  {
    // 2 outranks 1, 1 outranks 0, 0 outranks 2
    var cyclic := (a: int, b: int) => if (a + 1 - b) % 3 == 0 then -1 else if a == b then 0 else 1;
    var t := Node(3, Node(2, Leaf(0), Nil, 1), Nil, 2);
    assert cyclic(1, 2) == -1 && cyclic(0, 1) == -1 && cyclic(0, 2) == 1;
    assert Heap(cyclic, t);
    assert 0 in Elems(t);
    assert Remove(cyclic, t, 0).None?;
  }

  // ----- balance ---------------------------------------------------------------------------

  /** The heap that pushing xs one by one into an empty heap builds. */
  function Build<T>(ranks: (T, T) -> int, xs: seq<T>): Tree<T> {
    if xs == [] then Nil else Push(ranks, Build(ranks, xs[..|xs| - 1]), xs[|xs| - 1])
  }

  /** The left subtree has as many nodes as the right one, or one more, at every node. */
  predicate Balanced<T>(t: Tree<T>) {
    t.Node? ==>
      && 0 <= Size(t.left) - Size(t.right) <= 1
      && Balanced(t.left)
      && Balanced(t.right)
  }

  function Height<T>(t: Tree<T>): nat {
    match t
    case Nil => 0
    case Node(_, l, r, _) => 1 + if Height(l) >= Height(r) then Height(l) else Height(r)
  }

  function Pow2(n: nat): nat {
    if n == 0 then 1 else 2 * Pow2(n - 1)
  }

  lemma {:induction false} Pow2Monotone(m: nat, n: nat)
    requires m <= n
    ensures 1 <= Pow2(m) <= Pow2(n)
    decreases n
  {
    if n > 0 {
      Pow2Monotone(if m == 0 then 0 else m - 1, n - 1);
    }
  }

  lemma {:induction false} SizeNonNegative<T>(t: Tree<T>)
    requires Sized(t)
    ensures Size(t) >= 0 && (t.Node? ==> Size(t) >= 1)
  {
    if t.Node? {
      SizeNonNegative(t.left);
      SizeNonNegative(t.right);
    }
  }

  lemma {:induction false} PushKeepsBalance<T>(ranks: (T, T) -> int, t: Tree<T>, x: T)
    requires Sized(t) && Balanced(t)
    ensures Sized(Push(ranks, t, x)) && Balanced(Push(ranks, t, x))
    ensures Size(Push(ranks, t, x)) == Size(t) + 1
  {
    if t.Node? {
      var low := if OutRanks(ranks, x, t.data) then t.data else x;
      SizeNonNegative(t.left);
      SizeNonNegative(t.right);
      PushKeepsBalance(ranks, t.left, low);
      PushKeepsBalance(ranks, t.right, low);
    }
  }

  /** A balanced tree of n > 0 nodes has height floor(log2 n) + 1. */
  lemma {:induction false} BalancedHeight<T>(t: Tree<T>)
    requires Sized(t) && Balanced(t) && t.Node?
    ensures Pow2(Height(t) - 1) <= t.size < Pow2(Height(t))
  {
    SizeNonNegative(t.left);
    SizeNonNegative(t.right);
    if t.left.Node? {
      BalancedHeight(t.left);
      if t.right.Node? {
        BalancedHeight(t.right);
        if Height(t.right) > Height(t.left) {
          Pow2Monotone(Height(t.left), Height(t.right) - 1);
        }
      }
    }
  }

  /** A heap built only by pushes is balanced at every node and as low as a binary tree can be. */
  lemma {:induction false} BuildIsBalanced<T>(ranks: (T, T) -> int, xs: seq<T>)
    ensures Sized(Build(ranks, xs)) && Balanced(Build(ranks, xs))
    ensures Size(Build(ranks, xs)) == |xs|
    ensures xs != [] ==> var h := Height(Build(ranks, xs)); h > 0 && Pow2(h - 1) <= |xs| < Pow2(h)
  {
    if xs != [] {
      var init := xs[..|xs| - 1];
      BuildIsBalanced(ranks, init);
      PushKeepsBalance(ranks, Build(ranks, init), xs[|xs| - 1]);
      BalancedHeight(Build(ranks, xs));
    }
  }

  function Imbalance<T>(t: Tree<T>): nat {
    if t.Nil? then 0
    else if Size(t.left) >= Size(t.right) then Size(t.left) - Size(t.right)
    else Size(t.right) - Size(t.left)
  }

  /** Node by node, the imbalance after is at most the larger of 1 and the imbalance before. */
  predicate NoWorse<T>(before: Tree<T>, after: Tree<T>) {
    after.Node? ==>
      && Imbalance(after) <= (if Imbalance(before) > 1 then Imbalance(before) else 1)
      && NoWorse(if before.Node? then before.left else Nil, after.left)
      && NoWorse(if before.Node? then before.right else Nil, after.right)
  }

  lemma {:induction false} NoWorseReflexive<T>(t: Tree<T>)
    ensures NoWorse(t, t)
  {
    if t.Node? {
      NoWorseReflexive(t.left);
      NoWorseReflexive(t.right);
    }
  }

  /** Whatever pops and removals did before, a push never makes a node worse than that. */
  lemma {:induction false} PushNoWorse<T>(ranks: (T, T) -> int, t: Tree<T>, x: T)
    requires Sized(t)
    ensures NoWorse(t, Push(ranks, t, x))
    ensures Sized(Push(ranks, t, x)) && Size(Push(ranks, t, x)) == Size(t) + 1
  {
    if t.Node? {
      var low := if OutRanks(ranks, x, t.data) then t.data else x;
      SizeNonNegative(t.left);
      SizeNonNegative(t.right);
      var p := PushNode(ranks, t, x);
      if t.left.Nil? || (t.right.Node? && t.left.size <= t.right.size) {
        NoWorseReflexive(t.right);
        PushNoWorse(ranks, t.left, low);
        assert p.left == Push(ranks, t.left, low) && p.right == t.right;
      } else {
        NoWorseReflexive(t.left);
        PushNoWorse(ranks, t.right, low);
        assert p.left == t.left && p.right == Push(ranks, t.right, low);
      }
    }
  }
}
