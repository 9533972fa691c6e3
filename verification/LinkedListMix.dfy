/**
 Any mix of the operations of gps/utils/linked_list.c on one list: what it does to the sequence of
 items, and that no item is lost or deallocated twice.
 */
module LinkedListMix {
  import opened Wrappers
  import opened Counting
  import opened LinkedList

  datatype ListOp<!T> =
    | AddOp(x: T, dealloc: bool)
    | RemoveOp
    | SearchOp(equal: T -> bool, wanted: bool, rmIfFound: bool)
    | FlushOp

  // What operations leave, and what became of the items that left: handed out or not. got is all data
  // handed out, by searches that do not remove too; freed the data deallocated, in order.
  datatype Effect<T> = Effect(items: seq<Item<T>>, given: seq<Item<T>>, lost: seq<Item<T>>, got: seq<T>, freed: seq<T>)

  function ListStep<T>(items: seq<Item<T>>, op: ListOp<T>): Effect<T> {
    match op
    case AddOp(x, dealloc) => Effect([Item(x, dealloc)] + items, [], [], [], [])
    case RemoveOp =>
      if items == [] then Effect([], [], [], [], []) else
      var last := items[|items| - 1];
      Effect(items[..|items| - 1], [last], [], [last.data], [])
    case SearchOp(equal, wanted, rmIfFound) =>
      var i := Find(items, equal, 0);
      if i == |items| then Effect(items, [], [], [], []) else
      var got := if wanted then [items[i].data] else [];
      if !rmIfFound then Effect(items, [], [], got, [])
      else if wanted then Effect(Without(items, i), [items[i]], [], got, [])
      else Effect(Without(items, i), [], [items[i]], got, if items[i].dealloc then [items[i].data] else [])
    case FlushOp => Effect([], [], items, [], ToDeallocate(items))
  }

  function RunList<T>(ops: seq<ListOp<T>>): Effect<T> {
    if ops == [] then Effect([], [], [], [], []) else
    var e := RunList(ops[..|ops| - 1]);
    var n := ListStep(e.items, ops[|ops| - 1]);
    Effect(n.items, e.given + n.given, e.lost + n.lost, e.got + n.got, e.freed + n.freed)
  }

  lemma Regroup<T>(a: seq<T>, b: seq<T>, c: seq<T>)
    ensures (a + b) + c == a + (b + c)
  {
  }

  lemma RunListNext<T>(ops: seq<ListOp<T>>, k: nat)
    requires k < |ops|
    ensures var e := RunList(ops[..k]);
            var n := ListStep(e.items, ops[k]);
            RunList(ops[..k + 1])
            == Effect(n.items, e.given + n.given, e.lost + n.lost, e.got + n.got, e.freed + n.freed)
  {
    assert ops[..k + 1][..k] == ops[..k];
  }

  // How often the item was added.
  ghost function TimesAdded<T>(ops: seq<ListOp<T>>, x: Item<T>): nat {
    if ops == [] then 0 else
    var op := ops[|ops| - 1];
    TimesAdded(ops[..|ops| - 1], x) + if op.AddOp? && x == Item(op.x, op.dealloc) then 1 else 0
  }

  lemma StepConserves<T>(items: seq<Item<T>>, op: ListOp<T>, x: Item<T>)
    ensures var n := ListStep(items, op);
            Count(n.items, x) + Count(n.given, x) + Count(n.lost, x)
            == Count(items, x) + if op.AddOp? && x == Item(op.x, op.dealloc) then 1 else 0
    ensures ListStep(items, op).freed == ToDeallocate(ListStep(items, op).lost)
  {
    match op
    case AddOp(y, dealloc) => CountConcat([Item(y, dealloc)], items, x);
    case RemoveOp =>
    case SearchOp(equal, _, _) =>
      var i := Find(items, equal, 0);
      if i < |items| {
        CountWithout(items, i, x);
        assert [items[i]][1..] == [];
      }
    case FlushOp =>
  }

  lemma CountWithout<T>(items: seq<Item<T>>, i: nat, x: Item<T>)
    requires i < |items|
    ensures Count(items, x) == Count(Without(items, i), x) + Count([items[i]], x)
  {
    assert items == items[..i] + ([items[i]] + items[i + 1..]);
    CountConcat(items[..i], [items[i]] + items[i + 1..], x);
    CountConcat([items[i]], items[i + 1..], x);
    CountConcat(items[..i], items[i + 1..], x);
  }

  lemma {:induction false} ToDeallocateAppend<T>(a: seq<Item<T>>, b: seq<Item<T>>)
    ensures ToDeallocate(a + b) == ToDeallocate(a) + ToDeallocate(b)
  {
    if a == [] {
      assert a + b == b;
    } else {
      var first := if a[0].dealloc then [a[0].data] else [];
      ToDeallocateAppend(a[1..], b);
      assert (a + b)[0] == a[0] && (a + b)[1..] == a[1..] + b;
      assert first + (ToDeallocate(a[1..]) + ToDeallocate(b)) == (first + ToDeallocate(a[1..])) + ToDeallocate(b);
    }
  }

  // Of a single item; with the sums it says which data are deallocated and in which order.
  lemma ToDeallocateOne<T>(data: T)
    ensures ToDeallocate([Item(data, true)]) == [data] && ToDeallocate([Item(data, false)]) == []
  {
    assert [Item(data, true)][1..] == [] && [Item(data, false)][1..] == [];
  }

  // Over any mix of operations every item added is still in the list, or was handed out as it left, or
  // left otherwise and was then deallocated exactly once if it came with a dealloc function.
  lemma {:induction false} MixConserves<T>(ops: seq<ListOp<T>>, x: Item<T>)
    ensures var e := RunList(ops);
            Count(e.items, x) + Count(e.given, x) + Count(e.lost, x) == TimesAdded(ops, x) &&
            e.freed == ToDeallocate(e.lost)
  {
    if ops != [] {
      var before, op := ops[..|ops| - 1], ops[|ops| - 1];
      MixConserves(before, x);
      var e := RunList(before);
      var n := ListStep(e.items, op);
      StepConserves(e.items, op, x);
      ToDeallocateAppend(e.lost, n.lost);
      CountConcat(e.given, n.given, x);
      CountConcat(e.lost, n.lost, x);
    }
  }

  method DoSearch<T>(list: ListState<T>, equal: T -> bool, wanted: bool, rmIfFound: bool) returns (got: seq<T>)
    requires list.Valid()
    modifies list, list.nodes
    ensures list.Valid() && forall i :: 0 <= i < |list.nodes| ==> list.nodes[i] in old(list.nodes)
    ensures var e := ListStep(old(list.items), SearchOp(equal, wanted, rmIfFound));
            list.items == e.items && got == e.got && list.deallocated == old(list.deallocated) + e.freed
  {
    var err, x := Search(list, wanted, Some(equal), rmIfFound);
    got := if x.Some? then [x.value] else [];
  }

  method DoAny<T>(list: ListState<T>, op: ListOp<T>) returns (got: seq<T>)
    requires list.Valid()
    modifies list, list.nodes
    ensures list.Valid() && forall i :: 0 <= i < |list.nodes| ==> list.nodes[i] in old(list.nodes) || fresh(list.nodes[i])
    ensures var e := ListStep(old(list.items), op);
            list.items == e.items && got == e.got && list.deallocated == old(list.deallocated) + e.freed
  {
    got := [];
    assert list.deallocated + [] == list.deallocated;
    match op {
      case AddOp(x, dealloc) =>
        var err := Add(list, Some(x), dealloc, true);
      case RemoveOp =>
        var err, x := Remove(list, true);
        if err == Success {
          got := [x.value];
        }
      case SearchOp(equal, wanted, rmIfFound) =>
        got := DoSearch(list, equal, wanted, rmIfFound);
      case FlushOp =>
        var err := Flush(list);
    }
  }

  // Any mix of operations on an empty list does to it what it does to the sequence of its items.
  method RunMix<T>(list: ListState<T>, ops: seq<ListOp<T>>) returns (got: seq<T>)
    requires list.Valid() && list.items == []
    modifies list, list.nodes
    ensures list.Valid()
    ensures var e := RunList(ops);
            list.items == e.items && got == e.got && list.deallocated == old(list.deallocated) + e.freed
  {
    got := [];
    ghost var e, freed := RunList(ops[..0]), list.deallocated;
    for k := 0 to |ops|
      invariant list.Valid() && forall i :: 0 <= i < |list.nodes| ==> fresh(list.nodes[i])
      invariant e == RunList(ops[..k]) && list.items == e.items && got == e.got
      invariant list.deallocated == freed + e.freed
    {
      RunListNext(ops, k);
      Regroup(freed, e.freed, ListStep(e.items, ops[k]).freed);
      var more := DoAny(list, ops[k]);
      got := got + more;
      e := RunList(ops[..k + 1]);
    }
    assert ops[..|ops|] == ops;
  }
}
