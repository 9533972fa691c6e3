/**
 The heap of gps/utils/LocHeap.cpp as a function of tree values: where push, pop and remove send
 each datum, and what they preserve. LocHeap.dfy proves the pointer program equal to these
 functions.

 A rankable object is a value of T, compared by identity with ==; outRanks is the comparison the
 client supplies.
 */
module HeapTree {
  import opened Wrappers

  datatype Tree<+T> = Leaf | Node(size: int, left: Tree<T>, right: Tree<T>, data: T)

  type OutRanks<!T> = (T, T) -> bool

  // What clients owe: "not outranked by" is a total preorder.
  ghost predicate RanksConsistently<T(!new)>(outRanks: OutRanks<T>) {
    (forall x, y :: outRanks(x, y) ==> !outRanks(y, x)) &&
    (forall x, y, z :: !outRanks(x, y) && !outRanks(y, z) ==> !outRanks(x, z))
  }

  function SizeOf<T>(t: Tree<T>): int { if t.Leaf? then 0 else t.size }

  function Count<T>(t: Tree<T>): nat {
    if t.Leaf? then 0 else 1 + Count(t.left) + Count(t.right)
  }

  // How often y is in the tree.
  ghost function Times<T>(t: Tree<T>, y: T): nat {
    if t.Leaf? then 0 else One(t.data, y) + Times(t.left, y) + Times(t.right, y)
  }

  ghost function One<T>(x: T, y: T): nat { if x == y then 1 else 0 }

  ghost predicate Holds<T>(t: Tree<T>, y: T) { Times(t, y) > 0 }

  ghost predicate SizesRight<T>(t: Tree<T>) {
    t.Node? ==> t.size == Count(t) && SizesRight(t.left) && SizesRight(t.right)
  }

  ghost predicate NotAbove<T>(outRanks: OutRanks<T>, child: Tree<T>, x: T) {
    child.Node? ==> !outRanks(child.data, x)
  }

  ghost predicate HeapOrdered<T>(outRanks: OutRanks<T>, t: Tree<T>) {
    t.Node? ==>
      NotAbove(outRanks, t.left, t.data) && NotAbove(outRanks, t.right, t.data) &&
      HeapOrdered(outRanks, t.left) && HeapOrdered(outRanks, t.right)
  }

  // ---------- The operations ----------

  function Single<T>(x: T): Tree<T> { Node(1, Leaf, Leaf, x) }

  // The top keeps the higher-ranking datum; the other one drops into a sub-tree.
  function Push<T>(outRanks: OutRanks<T>, t: Tree<T>, x: T): (u: Tree<T>)
    ensures u.Node? && u.data == if t.Leaf? || outRanks(x, t.data) then x else t.data
    decreases Count(t), 1
  {
    if t.Leaf? then Single(x)
    else if outRanks(x, t.data) then Drop(outRanks, t.(data := x), t.data)
    else Drop(outRanks, t, x)
  }

  function Drop<T>(outRanks: OutRanks<T>, t: Tree<T>, x: T): (u: Tree<T>)
    requires t.Node?
    ensures u.Node? && u.data == t.data
    decreases Count(t), 0
  {
    if t.left.Leaf? then Node(t.size + 1, Single(x), t.right, t.data)
    else if t.right.Leaf? then Node(t.size + 1, t.left, Single(x), t.data)
    else if t.left.size <= t.right.size then Node(t.size + 1, Push(outRanks, t.left, x), t.right, t.data)
    else Node(t.size + 1, t.left, Push(outRanks, t.right, x), t.data)
  }

  // The child whose datum moves up when the top is popped.
  predicate TakesLeft<T>(outRanks: OutRanks<T>, t: Tree<T>)
    requires t.Node? && (t.left.Node? || t.right.Node?)
  {
    t.left.Node? && (t.right.Leaf? || outRanks(t.left.data, t.right.data))
  }

  // The tree left by a pop; the popped datum is t.data.
  function Pop<T>(outRanks: OutRanks<T>, t: Tree<T>): Tree<T>
    requires t.Node?
  {
    if t.left.Leaf? && t.right.Leaf? then Leaf
    else if TakesLeft(outRanks, t) then Node(t.size - 1, Pop(outRanks, t.left), t.right, t.left.data)
    else Node(t.size - 1, t.left, Pop(outRanks, t.right), t.right.data)
  }

  lemma PopIgnoresTop<T>(outRanks: OutRanks<T>, t: Tree<T>, x: T)
    requires t.Node?
    ensures Pop(outRanks, t.(data := x)) == Pop(outRanks, t)
  {
  }

  // The tree left when x was found and removed, or None.
  function Remove<T(==)>(outRanks: OutRanks<T>, t: Tree<T>, x: T): Option<Tree<T>> {
    if t.Leaf? then None
    else if x == t.data then Some(Pop(outRanks, t))
    else if outRanks(x, t.data) then None
    else
      var l := Remove(outRanks, t.left, x);
      if l.Some? then Some(Node(t.size - 1, l.value, t.right, t.data)) else
      var r := Remove(outRanks, t.right, x);
      if r.Some? then Some(Node(t.size - 1, t.left, r.value, t.data)) else None
  }

  function AfterRemove<T(==)>(outRanks: OutRanks<T>, t: Tree<T>, x: T): Tree<T> {
    var r := Remove(outRanks, t, x); if r.Some? then r.value else t
  }

  // The attempt on one side only.
  function RemoveLeft<T(==)>(outRanks: OutRanks<T>, t: Tree<T>, x: T): Tree<T>
    requires t.Node?
  {
    var r := Remove(outRanks, t.left, x); if r.Some? then Node(t.size - 1, r.value, t.right, t.data) else t
  }

  function RemoveRight<T(==)>(outRanks: OutRanks<T>, t: Tree<T>, x: T): Tree<T>
    requires t.Node?
  {
    var r := Remove(outRanks, t.right, x); if r.Some? then Node(t.size - 1, t.left, r.value, t.data) else t
  }

  predicate CheckNodes<T>(outRanks: OutRanks<T>, t: Tree<T>)
    requires t.Node?
  {
    (t.left.Node? ==> !outRanks(t.left.data, t.data) && CheckNodes(outRanks, t.left)) &&
    (t.right.Node? ==> !outRanks(t.right.data, t.data) && CheckNodes(outRanks, t.right)) &&
    t.size - SizeOf(t.left) - SizeOf(t.right) == 1
  }

  // ---------- Order, sizes, contents ----------

  lemma {:induction false} TopRanksHighest<T(!new)>(outRanks: OutRanks<T>, t: Tree<T>, y: T)
    requires RanksConsistently(outRanks) && HeapOrdered(outRanks, t) && Holds(t, y)
    ensures !outRanks(y, t.data)
  {
    if Holds(t.left, y) {
      TopRanksHighest(outRanks, t.left, y);
    } else if Holds(t.right, y) {
      TopRanksHighest(outRanks, t.right, y);
    }
  }

  lemma {:induction false} PushConserves<T>(outRanks: OutRanks<T>, t: Tree<T>, x: T, y: T)
    ensures Times(Push(outRanks, t, x), y) == Times(t, y) + One(x, y)
  {
    if t.Node? && t.left.Node? && t.right.Node? {
      var down := if outRanks(x, t.data) then t.data else x;
      PushConserves(outRanks, if t.left.size <= t.right.size then t.left else t.right, down, y);
    }
  }

  lemma {:induction false} PushCounts<T>(outRanks: OutRanks<T>, t: Tree<T>, x: T)
    ensures Count(Push(outRanks, t, x)) == Count(t) + 1
    ensures SizesRight(t) ==> SizesRight(Push(outRanks, t, x))
  {
    if t.Node? && t.left.Node? && t.right.Node? {
      var down := if outRanks(x, t.data) then t.data else x;
      PushCounts(outRanks, if t.left.size <= t.right.size then t.left else t.right, down);
    }
  }

  lemma {:induction false} PushOrders<T(!new)>(outRanks: OutRanks<T>, t: Tree<T>, x: T)
    requires RanksConsistently(outRanks) && HeapOrdered(outRanks, t)
    ensures HeapOrdered(outRanks, Push(outRanks, t, x))
  {
    if t.Node? && t.left.Node? && t.right.Node? {
      var down := if outRanks(x, t.data) then t.data else x;
      PushOrders(outRanks, if t.left.size <= t.right.size then t.left else t.right, down);
    }
  }

  lemma {:induction false} PopConserves<T>(outRanks: OutRanks<T>, t: Tree<T>, y: T)
    requires t.Node?
    ensures Times(t, y) == Times(Pop(outRanks, t), y) + One(t.data, y)
  {
    if t.left.Node? || t.right.Node? {
      PopConserves(outRanks, if TakesLeft(outRanks, t) then t.left else t.right, y);
    }
  }

  lemma {:induction false} PopCounts<T>(outRanks: OutRanks<T>, t: Tree<T>)
    requires t.Node?
    ensures Count(t) == Count(Pop(outRanks, t)) + 1
    ensures SizesRight(t) ==> SizesRight(Pop(outRanks, t))
  {
    if t.left.Node? || t.right.Node? {
      PopCounts(outRanks, if TakesLeft(outRanks, t) then t.left else t.right);
    }
  }

  // Only the sub-trees need to be ordered: a pop restores the order of a tree whose top is too low.
  lemma {:induction false} PopOrders<T(!new)>(outRanks: OutRanks<T>, t: Tree<T>)
    requires RanksConsistently(outRanks) && t.Node?
    requires HeapOrdered(outRanks, t.left) && HeapOrdered(outRanks, t.right)
    ensures HeapOrdered(outRanks, Pop(outRanks, t))
  {
    if t.left.Node? || t.right.Node? {
      var sub := if TakesLeft(outRanks, t) then t.left else t.right;
      PopOrders(outRanks, sub);
      PopStaysBelow(outRanks, sub);
    }
  }

  lemma PopStaysBelow<T(!new)>(outRanks: OutRanks<T>, t: Tree<T>)
    requires RanksConsistently(outRanks) && t.Node? && HeapOrdered(outRanks, t)
    ensures NotAbove(outRanks, Pop(outRanks, t), t.data)
  {
    var u := Pop(outRanks, t);
    if u.Node? {
      PopConserves(outRanks, t, u.data);
      TopRanksHighest(outRanks, t, u.data);
    }
  }

  // Skipping the sub-trees whose top x outranks never hides x.
  lemma {:induction false} RemoveFinds<T(!new)>(outRanks: OutRanks<T>, t: Tree<T>, x: T)
    requires RanksConsistently(outRanks) && HeapOrdered(outRanks, t)
    ensures Remove(outRanks, t, x).Some? <==> Holds(t, x)
  {
    if t.Node? {
      if Holds(t, x) { TopRanksHighest(outRanks, t, x); }
      RemoveFinds(outRanks, t.left, x);
      RemoveFinds(outRanks, t.right, x);
    }
  }

  lemma {:induction false} RemoveConserves<T>(outRanks: OutRanks<T>, t: Tree<T>, x: T, y: T)
    requires Remove(outRanks, t, x).Some?
    ensures Times(t, y) == Times(Remove(outRanks, t, x).value, y) + One(x, y)
  {
    if x == t.data {
      PopConserves(outRanks, t, y);
    } else {
      RemoveConserves(outRanks, if Remove(outRanks, t.left, x).Some? then t.left else t.right, x, y);
    }
  }

  lemma {:induction false} RemoveCounts<T>(outRanks: OutRanks<T>, t: Tree<T>, x: T)
    requires Remove(outRanks, t, x).Some?
    ensures Count(t) == Count(Remove(outRanks, t, x).value) + 1
    ensures SizesRight(t) ==> SizesRight(Remove(outRanks, t, x).value)
  {
    if x == t.data {
      PopCounts(outRanks, t);
    } else {
      RemoveCounts(outRanks, if Remove(outRanks, t.left, x).Some? then t.left else t.right, x);
    }
  }

  lemma {:induction false} RemoveOrders<T(!new)>(outRanks: OutRanks<T>, t: Tree<T>, x: T)
    requires RanksConsistently(outRanks) && HeapOrdered(outRanks, t) && Remove(outRanks, t, x).Some?
    ensures HeapOrdered(outRanks, Remove(outRanks, t, x).value)
  {
    if x == t.data {
      PopOrders(outRanks, t);
    } else {
      var sub := if Remove(outRanks, t.left, x).Some? then t.left else t.right;
      RemoveOrders(outRanks, sub, x);
      var u := Remove(outRanks, sub, x).value;
      if u.Node? {
        RemoveConserves(outRanks, sub, x, u.data);
        TopRanksHighest(outRanks, t, u.data);
      }
    }
  }

  lemma {:induction false} CheckNodesIff<T>(outRanks: OutRanks<T>, t: Tree<T>)
    requires t.Node?
    ensures CheckNodes(outRanks, t) <==> HeapOrdered(outRanks, t) && SizesRight(t)
  {
    if t.left.Node? { CheckNodesIff(outRanks, t.left); }
    if t.right.Node? { CheckNodesIff(outRanks, t.right); }
    assert forall s: Tree<T> | s in {t.left, t.right} ::
      (s.Leaf? ==> HeapOrdered(outRanks, s) && SizesRight(s)) && (SizesRight(s) ==> SizeOf(s) == Count(s));
  }

  // ---------- Whole runs ----------

  datatype Op<+T> = PushOp(x: T) | PopOp | RemoveOp(x: T)

  // The tree and the data handed back after a sequence of operations on an empty heap.
  function Run<T(==)>(outRanks: OutRanks<T>, ops: seq<Op<T>>): (Tree<T>, seq<T>) {
    if ops == [] then (Leaf, []) else
    var (t, gone) := Run(outRanks, ops[..|ops| - 1]);
    match ops[|ops| - 1]
    case PushOp(x) => (Push(outRanks, t, x), gone)
    case PopOp => if t.Leaf? then (t, gone) else (Pop(outRanks, t), gone + [t.data])
    case RemoveOp(x) =>
      var r := Remove(outRanks, t, x);
      if r.None? then (t, gone) else (r.value, gone + [x])
  }

  ghost function TimesPushed<T>(ops: seq<Op<T>>, y: T): nat {
    if ops == [] then 0 else
    TimesPushed(ops[..|ops| - 1], y) + (match ops[|ops| - 1] case PushOp(x) => One(x, y) case _ => 0)
  }

  lemma {:induction false} RunPreserves<T(!new)>(outRanks: OutRanks<T>, ops: seq<Op<T>>)
    requires RanksConsistently(outRanks)
    ensures HeapOrdered(outRanks, Run(outRanks, ops).0) && SizesRight(Run(outRanks, ops).0)
  {
    if ops != [] {
      var before := ops[..|ops| - 1];
      RunPreserves(outRanks, before);
      var t := Run(outRanks, before).0;
      match ops[|ops| - 1]
      case PushOp(x) => PushCounts(outRanks, t, x); PushOrders(outRanks, t, x);
      case PopOp => if t.Node? { PopCounts(outRanks, t); PopOrders(outRanks, t); }
      case RemoveOp(x) =>
        if Remove(outRanks, t, x).Some? { RemoveCounts(outRanks, t, x); RemoveOrders(outRanks, t, x); }
    }
  }

  // What was pushed is in the heap or was handed back, each datum as often as it was pushed.
  lemma {:induction false} RunConserves<T>(outRanks: OutRanks<T>, ops: seq<Op<T>>, y: T)
    ensures Times(Run(outRanks, ops).0, y) + multiset(Run(outRanks, ops).1)[y] == TimesPushed(ops, y)
  {
    if ops != [] {
      var before := ops[..|ops| - 1];
      RunConserves(outRanks, before, y);
      var t := Run(outRanks, before).0;
      match ops[|ops| - 1]
      case PushOp(x) => PushConserves(outRanks, t, x, y);
      case PopOp => if t.Node? { PopConserves(outRanks, t, y); }
      case RemoveOp(x) => if Remove(outRanks, t, x).Some? { RemoveConserves(outRanks, t, x, y); }
    }
  }

  // Every pop of every run hands back a datum that nothing in the heap outranks.
  lemma PopsHighest<T(!new)>(outRanks: OutRanks<T>, ops: seq<Op<T>>, y: T)
    requires RanksConsistently(outRanks)
    requires Holds(Run(outRanks, ops).0, y)
    ensures var (t, gone) := Run(outRanks, ops);
            var (_, gone') := Run(outRanks, ops + [PopOp]);
            |gone'| == |gone| + 1 && !outRanks(y, gone'[|gone|])
  {
    RunPreserves(outRanks, ops);
    TopRanksHighest(outRanks, Run(outRanks, ops).0, y);
    assert (ops + [PopOp])[..|ops|] == ops;
  }

  // Everything popped, until the heap is empty.
  function Drain<T>(outRanks: OutRanks<T>, t: Tree<T>): seq<T>
    decreases Count(t)
  {
    if t.Leaf? then [] else
    PopCounts(outRanks, t);
    [t.data] + Drain(outRanks, Pop(outRanks, t))
  }

  ghost predicate RankSorted<T>(outRanks: OutRanks<T>, s: seq<T>) {
    forall i, j :: 0 <= i < j < |s| ==> !outRanks(s[j], s[i])
  }

  lemma {:induction false} DrainConserves<T>(outRanks: OutRanks<T>, t: Tree<T>, y: T)
    ensures multiset(Drain(outRanks, t))[y] == Times(t, y)
    decreases Count(t)
  {
    if t.Node? {
      PopCounts(outRanks, t);
      PopConserves(outRanks, t, y);
      DrainConserves(outRanks, Pop(outRanks, t), y);
    }
  }

  lemma {:induction false} DrainSorts<T(!new)>(outRanks: OutRanks<T>, t: Tree<T>)
    requires RanksConsistently(outRanks) && HeapOrdered(outRanks, t)
    ensures RankSorted(outRanks, Drain(outRanks, t))
    decreases Count(t)
  {
    if t.Node? {
      var u := Pop(outRanks, t);
      PopCounts(outRanks, t);
      PopOrders(outRanks, t);
      DrainSorts(outRanks, u);
      var rest := Drain(outRanks, u);
      forall j | 0 <= j < |rest| ensures !outRanks(rest[j], t.data) {
        assert rest[j] in multiset(rest);
        DrainConserves(outRanks, u, rest[j]);
        PopConserves(outRanks, t, rest[j]);
        TopRanksHighest(outRanks, t, rest[j]);
      }
    }
  }

  // Pushed and not handed back, then popped until empty: a rank-sorted permutation.
  lemma RunThenDrain<T(!new)>(outRanks: OutRanks<T>, ops: seq<Op<T>>, y: T)
    requires RanksConsistently(outRanks)
    ensures var (t, gone) := Run(outRanks, ops);
            RankSorted(outRanks, Drain(outRanks, t)) &&
            multiset(Drain(outRanks, t))[y] + multiset(gone)[y] == TimesPushed(ops, y)
  {
    RunPreserves(outRanks, ops);
    RunConserves(outRanks, ops, y);
    DrainConserves(outRanks, Run(outRanks, ops).0, y);
    DrainSorts(outRanks, Run(outRanks, ops).0);
  }

  // ---------- Balance of a heap grown by pushes alone ----------

  ghost predicate Balanced<T>(t: Tree<T>) {
    t.Node? ==> 0 <= Count(t.left) - Count(t.right) <= 1 && Balanced(t.left) && Balanced(t.right)
  }

  ghost function Height<T>(t: Tree<T>): nat {
    if t.Leaf? then 0 else
    var l, r := Height(t.left), Height(t.right);
    1 + if l > r then l else r
  }

  // How many nested calls of the node's push a push onto t makes; the push itself counts them.
  ghost function PushDepth<T>(t: Tree<T>): nat {
    if t.Leaf? then 0
    else if t.left.Leaf? || t.right.Leaf? then 1
    else if t.left.size <= t.right.size then 1 + PushDepth(t.left)
    else 1 + PushDepth(t.right)
  }

  ghost function Pow2(n: nat): nat { if n == 0 then 1 else 2 * Pow2(n - 1) }

  lemma {:induction false} PushKeepsBalance<T>(outRanks: OutRanks<T>, t: Tree<T>, x: T)
    requires SizesRight(t) && Balanced(t)
    ensures Balanced(Push(outRanks, t, x))
  {
    if t.Node? && t.left.Node? && t.right.Node? {
      var down := if outRanks(x, t.data) then t.data else x;
      var sub := if t.left.size <= t.right.size then t.left else t.right;
      PushKeepsBalance(outRanks, sub, down);
      PushCounts(outRanks, sub, down);
    }
  }

  lemma {:induction false} BalancedIsShallow<T>(t: Tree<T>)
    requires Balanced(t) && t.Node?
    ensures Pow2(Height(t) - 1) <= Count(t)
  {
    if t.left.Node? { BalancedIsShallow(t.left); }
    if t.right.Node? { BalancedIsShallow(t.right); }
  }

  lemma {:induction false} PushDepthWithinHeight<T>(t: Tree<T>)
    ensures PushDepth(t) <= Height(t)
  {
    if t.Node? {
      PushDepthWithinHeight(t.left);
      PushDepthWithinHeight(t.right);
    }
  }

  ghost function PushAll<T>(outRanks: OutRanks<T>, xs: seq<T>): Tree<T> {
    if xs == [] then Leaf else Push(outRanks, PushAll(outRanks, xs[..|xs| - 1]), xs[|xs| - 1])
  }

  lemma {:induction false} PushesStayBalanced<T>(outRanks: OutRanks<T>, xs: seq<T>)
    ensures var t := PushAll(outRanks, xs); Balanced(t) && SizesRight(t) && Count(t) == |xs|
  {
    if xs != [] {
      var t := PushAll(outRanks, xs[..|xs| - 1]);
      PushesStayBalanced(outRanks, xs[..|xs| - 1]);
      PushKeepsBalance(outRanks, t, xs[|xs| - 1]);
      PushCounts(outRanks, t, xs[|xs| - 1]);
    }
  }

  // After n > 0 pushes the tree is at most floor(log2 n) + 1 high, and the next push recurses no deeper.
  lemma PushOnlyHeapIsShallow<T>(outRanks: OutRanks<T>, xs: seq<T>)
    requires xs != []
    ensures var t := PushAll(outRanks, xs);
            Height(t) >= 1 && Pow2(Height(t) - 1) <= |xs| && PushDepth(t) <= Height(t)
  {
    PushesStayBalanced(outRanks, xs);
    BalancedIsShallow(PushAll(outRanks, xs));
    PushDepthWithinHeight(PushAll(outRanks, xs));
  }
}
