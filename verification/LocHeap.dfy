/**
 gps/utils/LocHeap.cpp as it is written: nodes that are never relinked, whose data are swapped, and
 whose child pointers are only set when a leaf comes or goes. Every method leaves the tree that the
 function of the same name in HeapTree gives.
 */
module LocHeap {
  import opened Wrappers
  import HT = HeapTree

  // Taking something out of one of three disjoint sets takes it out of all.
  lemma TakeOut(a: set<object>, b: set<object>, c: set<object>, gone: set<object>)
    requires a !! b !! c && gone <= b
    ensures a !! b - gone !! c && a !! c !! b - gone
    ensures a + (b - gone) + c == (a + b + c) - gone
    ensures a + c + (b - gone) == (a + c + b) - gone
  {
  }

  class LocHeapNode<T(==)> {
    var mSize: int
    var mLeft: LocHeapNode?<T>
    var mRight: LocHeapNode?<T>
    var mData: T
    ghost var tree: HT.Tree<T>
    ghost var Repr: set<object>

    ghost predicate Valid()
      reads this, Repr
      ensures Valid() ==> this in Repr
    {
      this in Repr &&
      (mLeft != null ==> mLeft in Repr) && (mRight != null ==> mRight in Repr) &&
      Repr == {this} + ReprOf(mLeft) + ReprOf(mRight) &&
      {this} !! ReprOf(mLeft) !! ReprOf(mRight) &&
      (mLeft != null ==> mLeft.Valid()) && (mRight != null ==> mRight.Valid()) &&
      tree == HT.Node(mSize, TreeOf(mLeft), TreeOf(mRight), mData)
    }

    static ghost function ReprOf(n: LocHeapNode?<T>): set<object>
      reads n
    {
      if n == null then {} else n.Repr
    }

    static ghost function TreeOf(n: LocHeapNode?<T>): HT.Tree<T>
      reads n
    {
      if n == null then HT.Leaf else n.tree
    }

    // Brings the ghost fields of this node up to date with its children.
    ghost method Refresh()
      requires {this} !! ReprOf(mLeft) !! ReprOf(mRight)
      requires (mLeft != null ==> mLeft.Valid()) && (mRight != null ==> mRight.Valid())
      modifies this`Repr, this`tree
      ensures Valid() && Repr == {this} + ReprOf(mLeft) + ReprOf(mRight)
      ensures tree == HT.Node(mSize, TreeOf(mLeft), TreeOf(mRight), mData)
    {
      Repr := {this} + ReprOf(mLeft) + ReprOf(mRight);
      tree := HT.Node(mSize, TreeOf(mLeft), TreeOf(mRight), mData);
    }

    constructor (data: T)
      ensures Valid() && Repr == {this} && tree == HT.Single(data)
    {
      mSize, mLeft, mRight, mData := 1, null, null, data;
      tree, Repr := HT.Single(data), {this};
    }

    // Swaps the data of two nodes; nothing is relinked.
    method Swap(node: LocHeapNode<T>)
      modifies this`mData, node`mData
      ensures mData == old(node.mData) && node.mData == old(mData)
    {
      var tmpData := node.mData;
      node.mData := mData;
      mData := tmpData;
    }

    // Ensures that this node ranks no lower than the incoming one.
    method Settle(outRanks: HT.OutRanks<T>, node: LocHeapNode<T>)
      requires Valid() && node.Valid() && node.Repr == {node} && node !in Repr
      modifies this`mData, this`tree, node`mData, node`tree
      ensures Valid() && node.Valid()
      ensures tree == old(tree).(data := if outRanks(old(node.mData), old(mData)) then old(node.mData) else old(mData))
      ensures node.tree == old(node.tree).(data := if outRanks(old(node.mData), old(mData)) then old(mData) else old(node.mData))
    {
      if outRanks(node.mData, mData) {
        Swap(node);
        node.tree := node.tree.(data := node.mData);
        tree := tree.(data := mData);
      }
    }

    // depth: how many nested calls of push this one makes, itself included.
    method Push(outRanks: HT.OutRanks<T>, node: LocHeapNode<T>) returns (ghost depth: nat)
      requires Valid() && node.Valid() && node.Repr == {node} && node !in Repr
      requires node.tree == HT.Single(node.mData)
      modifies Repr, node
      ensures Valid() && Repr == old(Repr) + {node}
      ensures tree == HT.Push(outRanks, old(tree), old(node.mData))
      ensures depth == HT.PushDepth(old(tree))
      decreases Repr, 2
    {
      Settle(outRanks, node);
      ghost var below := Drop(outRanks, node);
      depth := 1 + below;
    }

    method Drop(outRanks: HT.OutRanks<T>, node: LocHeapNode<T>) returns (ghost depth: nat)
      requires Valid() && node.Valid() && node.Repr == {node} && node !in Repr
      requires node.tree == HT.Single(node.mData)
      modifies Repr, node
      ensures Valid() && Repr == old(Repr) + {node}
      ensures tree == HT.Drop(outRanks, old(tree), old(node.mData))
      ensures 1 + depth == HT.PushDepth(old(tree))
      decreases Repr, 1
    {
      if mLeft == null || (mRight != null && mLeft.mSize <= mRight.mSize) {
        depth := DropLeft(outRanks, node);
      } else {
        depth := DropRight(outRanks, node);
      }
    }

    method DropLeft(outRanks: HT.OutRanks<T>, node: LocHeapNode<T>) returns (ghost depth: nat)
      requires Valid() && node.Valid() && node.Repr == {node} && node !in Repr
      requires node.tree == HT.Single(node.mData)
      modifies Repr, node
      ensures Valid() && Repr == old(Repr) + {node}
      ensures tree == old(tree).(size := old(mSize) + 1, left := HT.Push(outRanks, old(tree).left, old(node.mData)))
      ensures depth == HT.PushDepth(old(tree).left)
      decreases Repr, 0
    {
      if mLeft == null {
        mLeft := node;
        depth := 0;
      } else {
        depth := mLeft.Push(outRanks, node);
      }
      mSize := mSize + 1;
      Refresh();
    }

    method DropRight(outRanks: HT.OutRanks<T>, node: LocHeapNode<T>) returns (ghost depth: nat)
      requires Valid() && node.Valid() && node.Repr == {node} && node !in Repr
      requires node.tree == HT.Single(node.mData)
      modifies Repr, node
      ensures Valid() && Repr == old(Repr) + {node}
      ensures tree == old(tree).(size := old(mSize) + 1, right := HT.Push(outRanks, old(tree).right, old(node.mData)))
      ensures depth == HT.PushDepth(old(tree).right)
      decreases Repr, 0
    {
      if mRight == null {
        mRight := node;
        depth := 0;
      } else {
        depth := mRight.Push(outRanks, node);
      }
      mSize := mSize + 1;
      Refresh();
    }

    method SetLeft(n: LocHeapNode?<T>, size: int)
      requires n != null ==> n.Valid()
      requires mRight != null ==> mRight.Valid()
      requires {this} !! ReprOf(n) !! ReprOf(mRight)
      modifies this`mLeft, this`mSize, this`Repr, this`tree
      ensures Valid() && Repr == {this} + ReprOf(n) + ReprOf(mRight)
      ensures tree == HT.Node(size, TreeOf(n), TreeOf(mRight), mData)
    {
      mLeft, mSize := n, size;
      Refresh();
    }

    method SetRight(n: LocHeapNode?<T>, size: int)
      requires n != null ==> n.Valid()
      requires mLeft != null ==> mLeft.Valid()
      requires {this} !! ReprOf(mLeft) !! ReprOf(n)
      modifies this`mRight, this`mSize, this`Repr, this`tree
      ensures Valid() && Repr == {this} + ReprOf(mLeft) + ReprOf(n)
      ensures tree == HT.Node(size, TreeOf(mLeft), TreeOf(n), mData)
    {
      mRight, mSize := n, size;
      Refresh();
    }

    // The reference parameter of the source is the out-parameter newTop: null, or top as it was.
    static method Pop(outRanks: HT.OutRanks<T>, top: LocHeapNode<T>)
      returns (newTop: LocHeapNode?<T>, popped: LocHeapNode<T>)
      requires top.Valid()
      modifies top.Repr
      ensures popped in old(top.Repr) && popped.mData == old(top.mData)
      ensures newTop == null || (newTop == top && top.Valid())
      ensures ReprOf(newTop) == old(top.Repr) - {popped}
      ensures TreeOf(newTop) == HT.Pop(outRanks, old(top.tree))
      decreases top.Repr, 1
    {
      newTop, popped := top, top;
      if top.mLeft == null && top.mRight == null {
        newTop := null;
      } else if top.mLeft != null && (top.mRight == null || outRanks(top.mLeft.mData, top.mRight.mData)) {
        popped := PopLeft(outRanks, top);
      } else {
        popped := PopRight(outRanks, top);
      }
    }

    // The second half of the swap, which hands data down to subTop, and the pop from there.
    static method PopHolding(outRanks: HT.OutRanks<T>, subTop: LocHeapNode<T>, data: T)
      returns (newSub: LocHeapNode?<T>, popped: LocHeapNode<T>)
      requires subTop.Valid()
      modifies subTop.Repr
      ensures popped in old(subTop.Repr) && popped.mData == data
      ensures newSub == null || (newSub == subTop && newSub.Valid())
      ensures ReprOf(newSub) == old(subTop.Repr) - {popped}
      ensures TreeOf(newSub) == HT.Pop(outRanks, old(subTop.tree))
      decreases subTop.Repr, 2
    {
      HT.PopIgnoresTop(outRanks, subTop.tree, data);
      subTop.mData := data;
      subTop.tree := subTop.tree.(data := data);
      newSub, popped := Pop(outRanks, subTop);
    }

    static method PopLeft(outRanks: HT.OutRanks<T>, top: LocHeapNode<T>) returns (popped: LocHeapNode<T>)
      requires top.Valid() && top.mLeft != null && top.tree.left.Node?
      modifies top.Repr
      ensures popped in old(top.Repr) && popped != top && popped.mData == old(top.mData)
      ensures top.Valid() && top.Repr == old(top.Repr) - {popped}
      ensures top.tree == HT.Node(old(top.tree.size) - 1, HT.Pop(outRanks, old(top.tree.left)),
                                  old(top.tree.right), old(top.tree.left.data))
      decreases top.Repr, 0
    {
      var tmpData := top.mData;
      top.mData := top.mLeft.mData;
      ghost var below, beside := top.mLeft.Repr, ReprOf(top.mRight);
      var newSub;
      newSub, popped := PopHolding(outRanks, top.mLeft, tmpData);
      TakeOut({top}, below, beside, {popped});
      top.SetLeft(newSub, top.mSize - 1);
    }

    static method PopRight(outRanks: HT.OutRanks<T>, top: LocHeapNode<T>) returns (popped: LocHeapNode<T>)
      requires top.Valid() && top.mRight != null && top.tree.right.Node?
      modifies top.Repr
      ensures popped in old(top.Repr) && popped != top && popped.mData == old(top.mData)
      ensures top.Valid() && top.Repr == old(top.Repr) - {popped}
      ensures top.tree == HT.Node(old(top.tree.size) - 1, old(top.tree.left),
                                  HT.Pop(outRanks, old(top.tree.right)), old(top.tree.right.data))
      decreases top.Repr, 0
    {
      var tmpData := top.mData;
      top.mData := top.mRight.mData;
      ghost var below, beside := top.mRight.Repr, ReprOf(top.mLeft);
      var newSub;
      newSub, popped := PopHolding(outRanks, top.mRight, tmpData);
      TakeOut({top}, below, beside, {popped});
      top.SetRight(newSub, top.mSize - 1);
    }

    // The removed node, or null when data is not in the tree, which is then unchanged.
    static method Remove(outRanks: HT.OutRanks<T>, top: LocHeapNode<T>, data: T)
      returns (newTop: LocHeapNode?<T>, removed: LocHeapNode?<T>)
      requires top.Valid()
      modifies top.Repr
      ensures newTop == null || (newTop == top && top.Valid())
      ensures removed == null <==> HT.Remove(outRanks, old(top.tree), data).None?
      ensures removed != null ==> removed in old(top.Repr) && removed.mData == data
      ensures ReprOf(newTop) == old(top.Repr) - Only(removed)
      ensures TreeOf(newTop) == HT.AfterRemove(outRanks, old(top.tree), data)
      decreases top.Repr, 1
    {
      newTop, removed := top, null;
      if data == top.mData {
        newTop, removed := Pop(outRanks, top);
      } else if !outRanks(data, top.mData) {
        if top.mLeft != null {
          removed := RemoveFromLeft(outRanks, top, data);
        }
        if removed == null && top.mRight != null {
          removed := RemoveFromRight(outRanks, top, data);
        }
      }
    }

    static ghost function Only(n: LocHeapNode?<T>): set<object> { if n == null then {} else {n} }

    static method RemoveFromLeft(outRanks: HT.OutRanks<T>, top: LocHeapNode<T>, data: T) returns (removed: LocHeapNode?<T>)
      requires top.Valid() && top.mLeft != null && top.tree.Node?
      modifies top.Repr
      ensures top.Valid() && top.tree == HT.RemoveLeft(outRanks, old(top.tree), data)
      ensures removed == null <==> HT.Remove(outRanks, old(top.tree.left), data).None?
      ensures removed != null ==> removed in old(top.Repr) && removed != top && removed.mData == data
      ensures top.Repr == old(top.Repr) - Only(removed)
      decreases top.Repr, 0
    {
      ghost var below, beside := top.mLeft.Repr, ReprOf(top.mRight);
      var newSub;
      newSub, removed := Remove(outRanks, top.mLeft, data);
      TakeOut({top}, below, beside, Only(removed));
      top.SetLeft(newSub, if removed != null then top.mSize - 1 else top.mSize);
    }

    static method RemoveFromRight(outRanks: HT.OutRanks<T>, top: LocHeapNode<T>, data: T) returns (removed: LocHeapNode?<T>)
      requires top.Valid() && top.mRight != null && top.tree.Node?
      modifies top.Repr
      ensures top.Valid() && top.tree == HT.RemoveRight(outRanks, old(top.tree), data)
      ensures removed == null <==> HT.Remove(outRanks, old(top.tree.right), data).None?
      ensures removed != null ==> removed in old(top.Repr) && removed != top && removed.mData == data
      ensures top.Repr == old(top.Repr) - Only(removed)
      decreases top.Repr, 0
    {
      ghost var below, beside := top.mRight.Repr, ReprOf(top.mLeft);
      var newSub;
      newSub, removed := Remove(outRanks, top.mRight, data);
      TakeOut({top}, below, beside, Only(removed));
      top.SetRight(newSub, if removed != null then top.mSize - 1 else top.mSize);
    }

    method CheckNodes(outRanks: HT.OutRanks<T>) returns (ok: bool)
      requires Valid()
      ensures tree.Node? && ok == HT.CheckNodes(outRanks, tree)
      decreases Repr
    {
      var totalSize := mSize;
      if mLeft != null {
        var fine := mLeft.CheckNodes(outRanks);
        if outRanks(mLeft.mData, mData) || !fine {
          return false;
        }
        totalSize := totalSize - mLeft.mSize;
      }
      if mRight != null {
        var fine := mRight.CheckNodes(outRanks);
        if outRanks(mRight.mData, mData) || !fine {
          return false;
        }
        totalSize := totalSize - mRight.mSize;
      }
      return totalSize == 1;
    }
  }

  // A heap owned by one client: the nodes, and as its abstract value the tree they form.
  class LocHeap<T(==)> {
    var mTree: LocHeapNode?<T>

    ghost predicate Valid()
      reads this, mTree, LocHeapNode.ReprOf(mTree)
    {
      this !in LocHeapNode.ReprOf(mTree) && (mTree != null ==> mTree.Valid())
    }

    ghost function Repr(): set<object>
      reads this, mTree
    {
      LocHeapNode.ReprOf(mTree)
    }

    ghost function Tree(): HT.Tree<T>
      reads this, mTree
    {
      LocHeapNode.TreeOf(mTree)
    }

    constructor ()
      ensures Valid() && Repr() == {} && Tree() == HT.Leaf
    {
      mTree := null;
    }

    method Push(outRanks: HT.OutRanks<T>, data: T) returns (ghost depth: nat)
      requires Valid()
      modifies this, Repr()
      ensures Valid() && fresh(Repr() - old(Repr()))
      ensures Tree() == HT.Push(outRanks, old(Tree()), data)
      ensures depth == HT.PushDepth(old(Tree()))
    {
      var heapNode := new LocHeapNode(data);
      if mTree == null {
        mTree := heapNode;
        depth := 0;
      } else {
        depth := mTree.Push(outRanks, heapNode);
      }
    }

    method Peek() returns (top: Option<T>)
      requires Valid()
      ensures top == if Tree().Leaf? then None else Some(Tree().data)
    {
      top := if mTree == null then None else Some(mTree.mData);
    }

    method Pop(outRanks: HT.OutRanks<T>) returns (popped: Option<T>)
      requires Valid()
      modifies this, Repr()
      ensures Valid() && Repr() <= old(Repr())
      ensures popped == if old(Tree()).Leaf? then None else Some(old(Tree()).data)
      ensures Tree() == if old(Tree()).Leaf? then HT.Leaf else HT.Pop(outRanks, old(Tree()))
    {
      popped := None;
      if mTree != null {
        var heapNode;
        mTree, heapNode := LocHeapNode.Pop(outRanks, mTree);
        popped := Some(heapNode.mData);
      }
    }

    method Remove(outRanks: HT.OutRanks<T>, data: T) returns (removed: Option<T>)
      requires Valid()
      modifies this, Repr()
      ensures Valid() && Repr() <= old(Repr())
      ensures var r := HT.Remove(outRanks, old(Tree()), data);
              removed == (if r.Some? then Some(data) else None) &&
              Tree() == (if r.Some? then r.value else old(Tree()))
    {
      removed := None;
      if mTree != null {
        var heapNode;
        mTree, heapNode := LocHeapNode.Remove(outRanks, mTree, data);
        if heapNode != null {
          removed := Some(heapNode.mData);
        }
      }
    }
  }
}
