/**
 LocHeapNode and LocHeap as the linked, in-place structure of gps/utils/LocHeap.cpp.
 A node keeps, as ghost state, the nodes below it and the tree value it stands for; every
 method is tied to the operation of HeapSpec on that value.
 A C++ `LocHeapNode*&` parameter becomes the argument plus an out-parameter for its new value.
 */
module LocHeap {

  import opened Wrappers
  import Spec = HeapSpec

  class LocHeapNode<T(==)> {
    var mSize: int
    var mLeft: LocHeapNode?<T>
    var mRight: LocHeapNode?<T>
    var mData: T

    ghost var Repr: set<LocHeapNode<T>>
    ghost var tree: Spec.Tree<T>

    /** Repr is this node and the nodes of its two subtrees, which are disjoint, and no other node. */
    ghost predicate Valid()
      reads this, Repr
      decreases Repr
    {
      && this in Repr
      && (mLeft != null ==> mLeft in Repr && mLeft.Repr <= Repr && this !in mLeft.Repr && mLeft.Valid())
      && (mRight != null ==> mRight in Repr && mRight.Repr <= Repr && this !in mRight.Repr && mRight.Valid())
      && (mLeft != null && mRight != null ==> mLeft.Repr !! mRight.Repr)
      && (forall n | n in Repr :: n == this || n in ReprOf(mLeft) || n in ReprOf(mRight))
      && tree == Spec.Node(mSize, TreeOf(mLeft), TreeOf(mRight), mData)
    }

    // The subtrees are well formed and disjoint; this node's own value may be out of date.
    ghost predicate Linked()
      reads this, Repr
    {
      && this in Repr
      && (mLeft != null ==> mLeft in Repr && mLeft.Repr <= Repr && this !in mLeft.Repr && mLeft.Valid())
      && (mRight != null ==> mRight in Repr && mRight.Repr <= Repr && this !in mRight.Repr && mRight.Valid())
      && (mLeft != null && mRight != null ==> mLeft.Repr !! mRight.Repr)
      && (forall n | n in Repr :: n == this || n in ReprOf(mLeft) || n in ReprOf(mRight))
    }

    // Brings the ghost state of this node up to date with its fields.
    ghost method Seal(repr: set<LocHeapNode<T>>)
      requires this in repr
      requires mLeft != null ==> mLeft in repr && mLeft.Repr <= repr && this !in mLeft.Repr && mLeft.Valid()
      requires mRight != null ==> mRight in repr && mRight.Repr <= repr && this !in mRight.Repr && mRight.Valid()
      requires mLeft != null && mRight != null ==> mLeft.Repr !! mRight.Repr
      requires forall n | n in repr :: n == this || n in ReprOf(mLeft) || n in ReprOf(mRight)
      modifies this`Repr, this`tree
      ensures Valid() && Repr == repr
      ensures tree == Spec.Node(mSize, TreeOf(mLeft), TreeOf(mRight), mData)
    {
      Repr := repr;
      tree := Spec.Node(mSize, TreeOf(mLeft), TreeOf(mRight), mData);
    }

    constructor (data: T)
      ensures Valid() && Repr == {this} && tree == Spec.Leaf(data)
    {
      mSize, mLeft, mRight, mData := 1, null, null, data;
      Repr, tree := {this}, Spec.Leaf(data);
    }

    // Only the data are exchanged, never the links.
    method Swap(node: LocHeapNode<T>)
      requires node != this
      modifies this`mData, node`mData
      ensures mData == old(node.mData) && node.mData == old(mData)
    {
      var tmpData := node.mData;
      node.mData := mData;
      mData := tmpData;
    }

    // Swap with a child, whose subtree stays well formed.
    method SwapDown(child: LocHeapNode<T>)
      requires child.Valid() && this !in child.Repr
      modifies this`mData, child`mData, child`Repr, child`tree
      ensures child.Valid() && child.Repr == old(child.Repr)
      ensures mData == old(child.mData) && child.tree == old(child.tree.(data := mData))
    {
      Swap(child);
      child.Seal(child.Repr);
    }

    method Push(ranks: (T, T) -> int, node: LocHeapNode<T>)
      requires Valid() && node.Valid()
      requires node.Repr == {node} && node !in Repr && node.tree == Spec.Leaf(node.mData)
      modifies Repr, node
      ensures Valid() && Repr == old(Repr) + {node}
      ensures tree == Spec.PushNode(ranks, old(tree), old(node.mData))
      decreases Repr, 2
    {
      if Spec.OutRanks(ranks, node.mData, mData) {
        Swap(node);
        node.Seal({node});
      }
      Sink(ranks, node);
    }

    // The node, ranked below this one, goes into a subtree.
    method Sink(ranks: (T, T) -> int, node: LocHeapNode<T>)
      requires Linked() && node.Valid() && node.Repr == {node} && node !in Repr && node.tree == Spec.Leaf(node.mData)
      modifies Repr, node
      ensures Valid() && Repr == old(Repr) + {node}
      ensures tree == Sunk(ranks, old(mSize), old(TreeOf(mLeft)), old(TreeOf(mRight)), old(mData), old(node.mData))
      decreases Repr, 1
    {
      if mLeft == null {
        mLeft := node;
      } else if mRight == null {
        mRight := node;
      } else {
        PushBelow(ranks, node);
      }
      mSize := mSize + 1;
      Seal(Repr + {node});
    }

    // Drop the node into the smaller subtree.
    method PushBelow(ranks: (T, T) -> int, node: LocHeapNode<T>)
      requires Linked() && mLeft != null && mRight != null && node.Valid()
      requires node.Repr == {node} && node !in Repr && node.tree == Spec.Leaf(node.mData)
      requires mLeft.tree.Node? && mRight.tree.Node?
      modifies mLeft.Repr, mRight.Repr, node
      ensures mLeft.Valid() && mRight.Valid() && mLeft.Repr !! mRight.Repr
      ensures mLeft.Repr + mRight.Repr == old(mLeft.Repr + mRight.Repr) + {node}
      ensures if old(mLeft.mSize <= mRight.mSize)
              then mLeft.tree == Spec.PushNode(ranks, old(mLeft.tree), old(node.mData)) && mRight.tree == old(mRight.tree)
              else mLeft.tree == old(mLeft.tree) && mRight.tree == Spec.PushNode(ranks, old(mRight.tree), old(node.mData))
      decreases Repr, 0
    {
      if mLeft.mSize <= mRight.mSize {
        mLeft.Push(ranks, node);
      } else {
        mRight.Push(ranks, node);
      }
    }

    /**
     The node handed back is a leaf cut off from the tree, and it carries the old top's data;
     the nodes that stay keep their links.
     */
    static method Pop(ranks: (T, T) -> int, top: LocHeapNode<T>)
      returns (newTop: LocHeapNode?<T>, poppedNode: LocHeapNode<T>)
      requires top.Valid()
      modifies top.Repr
      ensures poppedNode in old(top.Repr) && poppedNode.mData == old(top.mData)
      ensures poppedNode.mLeft == null && poppedNode.mRight == null
      ensures newTop == null || newTop == top
      ensures newTop != null ==> newTop.Valid()
      ensures ReprOf(newTop) == old(top.Repr) - {poppedNode}
      ensures TreeOf(newTop) == Spec.Pop(ranks, old(top.tree))
      decreases top.Repr, 1
    {
      poppedNode := top;
      top.mSize := top.mSize - 1;
      newTop := top;
      if top.mLeft != null || top.mRight != null {
        var goLeft := top.mRight == null ||
                      (top.mLeft != null && Spec.OutRanks(ranks, top.mLeft.mData, top.mRight.mData));
        if goLeft {
          poppedNode := top.PopLeft(ranks);
        } else {
          poppedNode := top.PopRight(ranks);
        }
      } else {
        newTop := null;
      }
    }

    // Exchange data with the left child, then pop from its subtree.
    method PopLeft(ranks: (T, T) -> int) returns (poppedNode: LocHeapNode<T>)
      requires Linked() && mLeft != null && mLeft.tree.Node?
      modifies Repr
      ensures Valid() && Repr == old(Repr) - {poppedNode}
      ensures poppedNode in old(Repr) && poppedNode.mData == old(mData)
      ensures poppedNode.mLeft == null && poppedNode.mRight == null
      ensures tree == Spec.Node(old(mSize), Spec.Pop(ranks, old(mLeft.tree)), old(TreeOf(mRight)), old(mLeft.mData))
      decreases Repr, 0
    {
      SwapDown(mLeft);
      mLeft, poppedNode := Pop(ranks, mLeft);
      Seal(Repr - {poppedNode});
    }

    // Exchange data with the right child, then pop from its subtree.
    method PopRight(ranks: (T, T) -> int) returns (poppedNode: LocHeapNode<T>)
      requires Linked() && mRight != null && mRight.tree.Node?
      modifies Repr
      ensures Valid() && Repr == old(Repr) - {poppedNode}
      ensures poppedNode in old(Repr) && poppedNode.mData == old(mData)
      ensures poppedNode.mLeft == null && poppedNode.mRight == null
      ensures tree == Spec.Node(old(mSize), old(TreeOf(mLeft)), Spec.Pop(ranks, old(mRight.tree)), old(mRight.mData))
      decreases Repr, 0
    {
      SwapDown(mRight);
      mRight, poppedNode := Pop(ranks, mRight);
      Seal(Repr - {poppedNode});
    }

    /** Removal by identity of the data, pruned by rank. */
    static method Remove(ranks: (T, T) -> int, top: LocHeapNode<T>, data: T)
      returns (newTop: LocHeapNode?<T>, removedNode: LocHeapNode?<T>)
      requires top.Valid()
      modifies top.Repr
      ensures removedNode == null <==> Spec.Remove(ranks, old(top.tree), data).None?
      ensures removedNode == null ==>
                && newTop == top && forall n | n in old(top.Repr) :: unchanged(n)
      ensures removedNode != null ==>
                && removedNode in old(top.Repr) && removedNode.mData == data
                && removedNode.mLeft == null && removedNode.mRight == null
                && (newTop == null || newTop == top)
                && (newTop != null ==> newTop.Valid())
                && ReprOf(newTop) == old(top.Repr) - {removedNode}
                && TreeOf(newTop) == Spec.Remove(ranks, old(top.tree), data).value
      decreases top.Repr, 2
    {
      removedNode := null;
      newTop := top;
      if data == top.mData {
        newTop, removedNode := Pop(ranks, top);
      } else if !Spec.OutRanks(ranks, data, top.mData) {
        removedNode := top.RemoveBelow(ranks, data);
      }
    }

    // The search in the left subtree, and if it finds nothing, in the right one.
    method RemoveBelow(ranks: (T, T) -> int, data: T) returns (removedNode: LocHeapNode?<T>)
      requires Valid() && data != mData && !Spec.OutRanks(ranks, data, mData)
      modifies Repr
      ensures removedNode == null <==> Spec.Remove(ranks, old(tree), data).None?
      ensures removedNode == null ==> forall n | n in old(Repr) :: unchanged(n)
      ensures removedNode != null ==>
                && removedNode in old(Repr) && removedNode.mData == data
                && removedNode.mLeft == null && removedNode.mRight == null
                && Valid() && Repr == old(Repr) - {removedNode}
                && tree == Spec.Remove(ranks, old(tree), data).value
      decreases Repr, 1
    {
      removedNode := null;
      if mLeft != null {
        removedNode := RemoveLeft(ranks, data);
      }
      if removedNode == null && mRight != null {
        removedNode := RemoveRight(ranks, data);
      }
    }

    method RemoveLeft(ranks: (T, T) -> int, data: T) returns (removedNode: LocHeapNode?<T>)
      requires Valid() && mLeft != null
      modifies Repr
      ensures removedNode == null <==> Spec.Remove(ranks, old(mLeft.tree), data).None?
      ensures removedNode == null ==> forall n | n in old(Repr) :: unchanged(n)
      ensures removedNode != null ==>
                && removedNode in old(Repr) && removedNode.mData == data
                && removedNode.mLeft == null && removedNode.mRight == null
                && Valid() && Repr == old(Repr) - {removedNode}
                && tree == Spec.Node(old(mSize) - 1, Spec.Remove(ranks, old(mLeft.tree), data).value,
                                     old(TreeOf(mRight)), old(mData))
      decreases Repr, 0
    {
      mLeft, removedNode := Remove(ranks, mLeft, data);
      if removedNode != null {
        mSize := mSize - 1;
        Seal(Repr - {removedNode});
      }
    }

    method RemoveRight(ranks: (T, T) -> int, data: T) returns (removedNode: LocHeapNode?<T>)
      requires Valid() && mRight != null
      modifies Repr
      ensures removedNode == null <==> Spec.Remove(ranks, old(mRight.tree), data).None?
      ensures removedNode == null ==> forall n | n in old(Repr) :: unchanged(n)
      ensures removedNode != null ==>
                && removedNode in old(Repr) && removedNode.mData == data
                && removedNode.mLeft == null && removedNode.mRight == null
                && Valid() && Repr == old(Repr) - {removedNode}
                && tree == Spec.Node(old(mSize) - 1, old(TreeOf(mLeft)),
                                     Spec.Remove(ranks, old(mRight.tree), data).value, old(mData))
      decreases Repr, 0
    {
      mRight, removedNode := Remove(ranks, mRight, data);
      if removedNode != null {
        mSize := mSize - 1;
        Seal(Repr - {removedNode});
      }
    }

    method CheckNodes(ranks: (T, T) -> int) returns (ok: bool)
      requires Valid()
      ensures ok <==> Spec.CheckNodes(ranks, tree)
      decreases Repr
    {
      var totalSize := mSize;
      if mLeft != null {
        if Spec.OutRanks(ranks, mLeft.mData, mData) {
          return false;
        }
        var leftOk := mLeft.CheckNodes(ranks);
        if !leftOk {
          return false;
        }
        totalSize := totalSize - mLeft.mSize;
      }
      if mRight != null {
        if Spec.OutRanks(ranks, mRight.mData, mData) {
          return false;
        }
        var rightOk := mRight.CheckNodes(ranks);
        if !rightOk {
          return false;
        }
        totalSize := totalSize - mRight.mSize;
      }
      return totalSize == 1;
    }
  }

  // The tree in which `low` sinks below `top`.
  ghost function Sunk<T>(ranks: (T, T) -> int, size: int, left: Spec.Tree<T>, right: Spec.Tree<T>,
                         top: T, low: T): Spec.Tree<T> {
    if left.Nil? then Spec.Node(size + 1, Spec.Leaf(low), right, top)
    else if right.Nil? then Spec.Node(size + 1, left, Spec.Leaf(low), top)
    else if left.size <= right.size then Spec.Node(size + 1, Spec.PushNode(ranks, left, low), right, top)
    else Spec.Node(size + 1, left, Spec.PushNode(ranks, right, low), top)
  }

  ghost function ReprOf<T>(node: LocHeapNode?<T>): set<LocHeapNode<T>>
    reads node
  {
    if node == null then {} else node.Repr
  }

  ghost function TreeOf<T>(node: LocHeapNode?<T>): Spec.Tree<T>
    reads node
  {
    if node == null then Spec.Nil else node.tree
  }

  class LocHeap<T(==)> {
    const ranks: (T, T) -> int
    var mTree: LocHeapNode?<T>

    ghost predicate Valid()
      reads this, mTree, ReprOf(mTree)
    {
      mTree != null ==> mTree.Valid()

    }

    ghost function Tree(): Spec.Tree<T>
      reads this, mTree
    {
      TreeOf(mTree)
    }

    ghost function Nodes(): set<LocHeapNode<T>>
      reads this, mTree
    {
      ReprOf(mTree)
    }

    constructor (ranks: (T, T) -> int)
      ensures Valid() && Tree() == Spec.Nil && this.ranks == ranks && Nodes() == {}
    {
      this.ranks := ranks;
      mTree := null;
    }

    method Push(data: T)
      requires Valid()
      modifies this, Nodes()
      ensures Valid() && fresh(Nodes() - old(Nodes()))
      ensures Tree() == Spec.Push(ranks, old(Tree()), data)
    {
      var heapNode := new LocHeapNode(data);
      if mTree == null {
        mTree := heapNode;
      } else {
        mTree.Push(ranks, heapNode);
      }
    }

    method Peek() returns (top: Option<T>)
      requires Valid()
      ensures top == if Tree().Nil? then None else Some(Tree().data)
    {
      top := None;
      if mTree != null {
        top := Some(mTree.mData);
      }
    }

    method Pop() returns (data: Option<T>)
      requires Valid()
      modifies this, Nodes()
      ensures Valid() && Nodes() <= old(Nodes())
      ensures old(Tree()).Nil? ==> data == None && Tree() == Spec.Nil
      ensures old(Tree()).Node? ==>
                data == Some(old(Tree()).data) && Tree() == Spec.Pop(ranks, old(Tree()))
    {
      data := None;
      if mTree != null {
        var newTop, heapNode := LocHeapNode.Pop(ranks, mTree);
        mTree := newTop;
        data := Some(heapNode.mData);
      }
    }

    method Remove(rankable: T) returns (data: Option<T>)
      requires Valid()
      modifies this, Nodes()
      ensures Valid() && Nodes() <= old(Nodes())
      ensures var r := Spec.Remove(ranks, old(Tree()), rankable);
              && (r.None? ==> data == None && Tree() == old(Tree()))
              && (r.Some? ==> data == Some(rankable) && Tree() == r.value)
    {
      data := None;
      if mTree != null {
        var newTop, heapNode := LocHeapNode.Remove(ranks, mTree, rankable);
        mTree := newTop;
        if heapNode != null {
          data := Some(heapNode.mData);
        }
      }
    }
  }
}
