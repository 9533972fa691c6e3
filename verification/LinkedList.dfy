/**
 gps/utils/linked_list.c: a doubly linked list that is added to at the head and removed from at the
 tail, refined to the sequence of its items from head to tail. A NULL handle is a null reference, a
 NULL argument None, and an allocation that fails is a parameter.
 */
module LinkedList {
  import opened Wrappers

  datatype ErrType = Success | FailureGeneral | InvalidParameter | InvalidHandle | UnavailableResource

  // What an element holds: the data, and whether a dealloc function came with it.
  datatype Item<+T> = Item(data: T, dealloc: bool)

  class ListElement<T> {
    var next: ListElement?<T>
    var prev: ListElement?<T>
    var item: Item<T>

    constructor (item: Item<T>)
      ensures this.item == item && next == null && prev == null
    {
      this.item, next, prev := item, null, null;
    }
  }

  class ListState<T> {
    var head: ListElement?<T>
    var tail: ListElement?<T>
    ghost var nodes: seq<ListElement<T>>
    ghost var items: seq<Item<T>>  // what the elements hold, from head to tail
    ghost var deallocated: seq<T>  // the data handed to dealloc functions, in order

    // prev and next are mutually inverse along nodes, and end at the head and the tail.
    ghost predicate Valid()
      reads this, nodes
    {
      Linked(head, tail, nodes) && Holds(nodes, items)
    }

    static ghost predicate Linked(head: ListElement?<T>, tail: ListElement?<T>, nodes: seq<ListElement<T>>)
      reads nodes
    {
      if nodes == [] then head == null && tail == null
      else
        head == nodes[0] && tail == nodes[|nodes| - 1] &&
        head.prev == null && tail.next == null &&
        (forall i {:trigger nodes[i].prev} :: 1 <= i < |nodes| ==> nodes[i].prev == nodes[i - 1]) &&
        (forall i {:trigger nodes[i].next} :: 0 <= i < |nodes| - 1 ==> nodes[i].next == nodes[i + 1]) &&
        (forall i, j :: 0 <= i < j < |nodes| ==> nodes[i] != nodes[j])
    }

    static ghost predicate Holds(nodes: seq<ListElement<T>>, items: seq<Item<T>>)
      reads nodes
    {
      |nodes| == |items| && forall i :: 0 <= i < |nodes| ==> nodes[i].item == items[i]
    }

    constructor ()
      ensures Valid() && items == [] && deallocated == []
    {
      head, tail, nodes, items, deallocated := null, null, [], [], [];
    }
  }

  ghost function Nodes<T>(list: ListState?<T>): seq<ListElement<T>>
    reads list
  {
    if list == null then [] else list.nodes
  }

  // ---------- The operations ----------

  method Add<T>(list: ListState?<T>, dataObj: Option<T>, dealloc: bool, mallocOk: bool) returns (err: ErrType)
    requires list != null ==> list.Valid()
    modifies list, Nodes(list)
    ensures list == null ==> err == InvalidHandle
    ensures list != null ==> list.Valid() && list.deallocated == old(list.deallocated)
    ensures list != null && dataObj == None ==> err == InvalidParameter && list.items == old(list.items)
    ensures list != null && dataObj.Some? && !mallocOk ==> err == FailureGeneral && list.items == old(list.items)
    ensures list != null && dataObj.Some? && mallocOk ==>
              err == Success && list.items == [Item(dataObj.value, dealloc)] + old(list.items)
    ensures list != null ==>
              forall i :: 0 <= i < |list.nodes| ==> list.nodes[i] in old(list.nodes) || fresh(list.nodes[i])
  {
    if list == null {
      return InvalidHandle;
    }
    if dataObj == None {
      return InvalidParameter;
    }
    if !mallocOk {
      return FailureGeneral;
    }
    AddElement(list, Item(dataObj.value, dealloc));
    return Success;
  }

  // The element that Add allocates.
  method AddElement<T>(list: ListState<T>, item: Item<T>)
    requires list.Valid()
    modifies list, list.nodes
    ensures list.Valid() && list.items == [item] + old(list.items) && list.deallocated == old(list.deallocated)
    ensures forall i :: 0 <= i < |list.nodes| ==> list.nodes[i] in old(list.nodes) || fresh(list.nodes[i])
  {
    var elem := new ListElement(item);
    Prepend(list, elem);
    list.nodes, list.items := [elem] + list.nodes, [elem.item] + list.items;
  }

  // Links a new element in at the head.
  method Prepend<T>(list: ListState<T>, elem: ListElement<T>)
    requires list.Valid() && elem !in list.nodes && elem.prev == null && elem.next == null
    modifies list`head, list`tail, elem, list.nodes
    ensures ListState.Linked(list.head, list.tail, [elem] + list.nodes)
    ensures elem.item == old(elem.item) && ListState.Holds(list.nodes, list.items)
  {
    var tmp := list.head;
    list.head := elem;
    list.head.next := tmp;
    if tmp != null {
      tmp.prev := list.head;
    } else {
      list.tail := list.head;
    }
  }

  method Remove<T>(list: ListState?<T>, wanted: bool) returns (err: ErrType, dataObj: Option<T>)
    requires list != null ==> list.Valid()
    modifies list, Nodes(list)
    ensures list == null ==> err == InvalidHandle
    ensures list != null ==> list.Valid() && list.deallocated == old(list.deallocated)
    ensures list != null && !wanted ==> err == InvalidParameter
    ensures list != null && wanted && old(list.items) == [] ==> err == UnavailableResource
    ensures err != Success ==> dataObj == None && (list != null ==> list.items == old(list.items))
    ensures list != null && wanted && old(list.items) != [] ==>
              var was := old(list.items);
              err == Success && list.items == was[..|was| - 1] && dataObj == Some(was[|was| - 1].data)
    ensures list != null ==> forall i :: 0 <= i < |list.nodes| ==> list.nodes[i] in old(list.nodes)
  {
    dataObj := None;
    if list == null {
      return InvalidHandle, None;
    }
    if !wanted {
      return InvalidParameter, None;
    }
    if list.tail == null {
      return UnavailableResource, None;
    }
    var tmp := list.tail;
    assert |list.nodes| > 1 ==> list.nodes[|list.nodes| - 1].prev == list.nodes[|list.nodes| - 2];
    list.tail := tmp.prev;
    if list.tail != null {
      list.tail.next := null;
    } else {
      list.head := list.tail;
    }
    list.nodes, list.items := list.nodes[..|list.nodes| - 1], list.items[..|list.items| - 1];
    return Success, Some(tmp.item.data);
  }

  // The answers of the C function, 1 and 0, and the error that a NULL handle gets in their place.
  datatype Emptiness = IsEmpty(empty: bool) | EmptyError(err: ErrType)

  method Empty<T>(list: ListState?<T>) returns (r: Emptiness)
    requires list != null ==> list.Valid()
    ensures r == if list == null then EmptyError(InvalidHandle) else IsEmpty(list.items == [])
  {
    if list == null {
      return EmptyError(InvalidHandle);
    }
    return IsEmpty(list.head == null);
  }

  // The data of the items that came with a dealloc function.
  function ToDeallocate<T>(items: seq<Item<T>>): seq<T> {
    if items == [] then [] else
    (if items[0].dealloc then [items[0].data] else []) + ToDeallocate(items[1..])
  }

  method Flush<T>(list: ListState?<T>) returns (err: ErrType)
    requires list != null ==> list.Valid()
    modifies list, Nodes(list)
    ensures list == null ==> err == InvalidHandle
    ensures list != null ==>
              err == Success && list.Valid() && list.items == [] &&
              list.deallocated == old(list.deallocated) + ToDeallocate(old(list.items))
  {
    if list == null {
      return InvalidHandle;
    }
    ghost var items, done := list.items, 0;
    while list.head != null
      invariant 0 <= done <= |items| && list.nodes == old(list.nodes)
      invariant list.head == if done == |items| then null else list.nodes[done]
      invariant unchanged(old(Nodes(list)))
      invariant list.deallocated + ToDeallocate(items[done..]) == old(list.deallocated) + ToDeallocate(items)
      decreases |items| - done
    {
      var tmp := list.head.next;
      if list.head.item.dealloc {
        list.deallocated := list.deallocated + [list.head.item.data];
      }
      list.head := tmp;
      assert items[done..][1..] == items[done + 1..];
      done := done + 1;
    }
    list.tail := null;
    list.nodes, list.items := [], [];
    return Success;
  }

  // The first item that matches, or the length.
  function Find<T>(items: seq<Item<T>>, equal: T -> bool, from: nat): (i: nat)
    requires from <= |items|
    ensures from <= i <= |items|
    ensures i < |items| ==> equal(items[i].data)
    ensures forall k :: from <= k < i ==> !equal(items[k].data)
    decreases |items| - from
  {
    if from == |items| || equal(items[from].data) then from else Find(items, equal, from + 1)
  }

  // Lets the neighbours of an element, or head and tail, pass it by.
  method Bypass<T>(list: ListState<T>, tmp: ListElement<T>, ghost i: nat)
    requires list.Valid() && i < |list.nodes| && tmp == list.nodes[i]
    modifies list`head, list`tail, list.nodes
    ensures ListState.Linked(list.head, list.tail, Without(list.nodes, i))
    ensures forall k :: 0 <= k < |list.nodes| ==> list.nodes[k].item == old(list.nodes[k].item)
  {
    assert i > 0 ==> list.nodes[i].prev == list.nodes[i - 1];
    assert i < |list.nodes| - 1 ==> list.nodes[i].next == list.nodes[i + 1];
    if tmp.prev == null {
      list.head := tmp.next;
    } else {
      tmp.prev.next := tmp.next;
    }
    if tmp.next == null {
      list.tail := tmp.prev;
    } else {
      tmp.next.prev := tmp.prev;
    }
    tmp.prev, tmp.next := null, null;
  }

  function Without<T>(s: seq<T>, i: nat): seq<T>
    requires i < |s|
  {
    s[..i] + s[i + 1..]
  }

  // Takes an element out of the middle of the list.
  method Unlink<T>(list: ListState<T>, tmp: ListElement<T>, ghost i: nat)
    requires list.Valid() && i < |list.nodes| && tmp == list.nodes[i]
    modifies list, list.nodes
    ensures list.Valid() && list.nodes == Without(old(list.nodes), i)
    ensures list.items == Without(old(list.items), i)
    ensures tmp.item == old(tmp.item) && list.deallocated == old(list.deallocated)
  {
    Bypass(list, tmp, i);
    list.items := Without(list.items, i);
    list.nodes := Without(list.nodes, i);
  }

  // The first element that matches, or null.
  method FindElement<T>(list: ListState<T>, equal: T -> bool) returns (tmp: ListElement?<T>)
    requires list.Valid()
    ensures var i := Find(list.items, equal, 0);
            tmp == if i < |list.nodes| then list.nodes[i] else null
  {
    ghost var i := 0;
    tmp := list.head;
    while tmp != null && !equal(tmp.item.data)
      invariant i <= |list.nodes| && tmp == if i == |list.nodes| then null else list.nodes[i]
      invariant Find(list.items, equal, 0) == Find(list.items, equal, i)
      decreases |list.nodes| - i
    {
      tmp := tmp.next;
      i := i + 1;
    }
  }

  // Removes an element that was found; its data is deallocated if it is not handed out.
  method TakeOut<T>(list: ListState<T>, tmp: ListElement<T>, wanted: bool, ghost i: nat)
    requires list.Valid() && i < |list.nodes| && tmp == list.nodes[i]
    modifies list, list.nodes
    ensures list.Valid() && list.nodes == Without(old(list.nodes), i)
    ensures list.items == Without(old(list.items), i)
    ensures list.deallocated == old(list.deallocated) +
              if !wanted && old(list.items)[i].dealloc then [old(list.items)[i].data] else []
  {
    Unlink(list, tmp, i);
    if !wanted && tmp.item.dealloc {
      list.deallocated := list.deallocated + [tmp.item.data];
    }
  }

  method Search<T>(list: ListState?<T>, wanted: bool, equal: Option<T -> bool>, rmIfFound: bool)
    returns (err: ErrType, data: Option<T>)
    requires list != null ==> list.Valid()
    modifies list, Nodes(list)
    ensures list != null ==> list.Valid()
    ensures list == null || equal == None ==> err == InvalidHandle
    ensures list != null && equal.Some? && old(list.items) == [] ==> err == UnavailableResource
    ensures err != Success ==>
              data == None && (list != null ==> list.items == old(list.items) && list.deallocated == old(list.deallocated))
    ensures list != null && equal.Some? && old(list.items) != [] ==>
              var was := old(list.items);
              var i := Find(was, equal.value, 0);
              err == Success &&
              data == (if wanted && i < |was| then Some(was[i].data) else None) &&
              list.items == (if rmIfFound && i < |was| then Without(was, i) else was) &&
              list.deallocated == old(list.deallocated) +
                (if rmIfFound && i < |was| && !wanted && was[i].dealloc then [was[i].data] else [])
    ensures list != null ==> forall k :: 0 <= k < |list.nodes| ==> list.nodes[k] in old(list.nodes)
  {
    data := None;
    if list == null || equal == None {
      return InvalidHandle, None;
    }
    if list.tail == null {
      return UnavailableResource, None;
    }
    var tmp := FindElement(list, equal.value);
    err := Success;
    if tmp != null {
      if wanted {
        data := Some(tmp.item.data);
      }
      if rmIfFound {
        TakeOut(list, tmp, wanted, Find(list.items, equal.value, 0));
      }
    }
  }

  // ---------- Add and remove make a queue ----------

  datatype QueueOp<+T> = Put(x: T) | Take

  // The list, head first, after one operation, and what was taken by it.
  function QueueStep<T>(list: seq<T>, op: QueueOp<T>): (seq<T>, seq<T>) {
    match op
    case Put(x) => ([x] + list, [])
    case Take => if list == [] then (list, []) else (list[..|list| - 1], [list[|list| - 1]])
  }

  // The list and all that was taken after a sequence of adds and removes.
  function RunQueue<T>(ops: seq<QueueOp<T>>): (seq<T>, seq<T>) {
    if ops == [] then ([], []) else
    var (list, taken) := RunQueue(ops[..|ops| - 1]);
    var (next, more) := QueueStep(list, ops[|ops| - 1]);
    (next, taken + more)
  }

  ghost function AllPut<T>(ops: seq<QueueOp<T>>): seq<T> {
    if ops == [] then [] else
    AllPut(ops[..|ops| - 1]) + (match ops[|ops| - 1] case Put(x) => [x] case Take => [])
  }

  ghost function Reverse<T>(s: seq<T>): seq<T> {
    if s == [] then [] else [s[|s| - 1]] + Reverse(s[..|s| - 1])
  }

  lemma {:induction false} ReverseCons<T>(x: T, s: seq<T>)
    ensures Reverse([x] + s) == Reverse(s) + [x]
  {
    if s == [] {
      assert [x] + s == [x];
    } else {
      assert ([x] + s)[..|s|] == [x] + s[..|s| - 1];
      ReverseCons(x, s[..|s| - 1]);
    }
  }

  // First in, first out: what was taken, followed by what is still there from tail to head, is what
  // was put, in the order in which it was put.
  lemma {:induction false} QueueIsFifo<T>(ops: seq<QueueOp<T>>)
    ensures var (list, taken) := RunQueue(ops); taken + Reverse(list) == AllPut(ops)
  {
    if ops != [] {
      var before := ops[..|ops| - 1];
      QueueIsFifo(before);
      var (list, taken) := RunQueue(before);
      match ops[|ops| - 1]
      case Put(x) => ReverseCons(x, list);
      case Take =>
        if list != [] { assert taken + ([list[|list| - 1]] + Reverse(list[..|list| - 1])) == taken + Reverse(list); }
    }
  }

  function Data<T>(items: seq<Item<T>>): (d: seq<T>)
    ensures |d| == |items|
    ensures forall i :: 0 <= i < |items| ==> d[i] == items[i].data
  {
    seq(|items|, i requires 0 <= i < |items| => items[i].data)
  }

  method Do<T>(list: ListState<T>, op: QueueOp<T>) returns (got: seq<T>)
    requires list.Valid()
    modifies list, list.nodes
    ensures list.Valid() && forall i :: 0 <= i < |list.nodes| ==> list.nodes[i] in old(list.nodes) || fresh(list.nodes[i])
    ensures (Data(list.items), got) == QueueStep(Data(old(list.items)), op)
  {
    ghost var was := list.items;
    got := [];
    match op {
      case Put(x) =>
        var err := Add(list, Some(x), false, true);
        assert Data(list.items) == [x] + Data(was);
      case Take =>
        var err, x := Remove(list, true);
        if err == Success {
          assert Data(list.items) == Data(was)[..|was| - 1];
          got := [x.value];
        }
    }
  }

  // Any mix of adds and removes on an empty list: the list is a first-in first-out queue.
  method RunOnList<T>(list: ListState<T>, ops: seq<QueueOp<T>>) returns (taken: seq<T>)
    requires list.Valid() && list.items == []
    modifies list, list.nodes
    ensures list.Valid()
    ensures (Data(list.items), taken) == RunQueue(ops)
    ensures taken + Reverse(Data(list.items)) == AllPut(ops)
  {
    taken := [];
    for k := 0 to |ops|
      invariant list.Valid() && forall i :: 0 <= i < |list.nodes| ==> fresh(list.nodes[i])
      invariant (Data(list.items), taken) == RunQueue(ops[..k])
    {
      assert ops[..k + 1][..k] == ops[..k];
      var got := Do(list, ops[k]);
      taken := taken + got;
    }
    assert ops[..|ops|] == ops;
    QueueIsFifo(ops);
  }
}
