/**
 gps/utils/LocTimer.cpp as it is written: the container with its heap of timers and its fd, the
 message handlers, and the clients and delegates that point at each other. Each is the step, or the
 steps, that it stands for in LocTimerSpec.
 */
module LocTimer {
  import opened Wrappers
  import opened TimerOrder
  import opened LocTimerSpec
  import opened LocTimerPass
  import HT = HeapTree
  import LH = LocHeap

  // The fd, polled0 and fd0 before, once what UpdateSoonestTime of the specification asks for is done.
  predicate FdIs(task: MsgTask, polled0: bool, fd0: Fd, polled: bool, fd: Fd) {
    match task
    case AddPoll(t) => polled && fd == SetFd(t.time)
    case RemovePoll => !polled && fd == Disarmed
    case _ => polled == polled0 && fd == fd0
  }

  class LocTimerContainer {
    const heap: LH.LocHeap<Timer>
    var fd: Fd
    var polled: bool
    var queue: seq<Msg>

    ghost predicate Valid()
      reads heap, heap.mTree, heap.Repr()
    {
      heap.Valid() && this !in heap.Repr() && this as object != heap
    }

    constructor ()
      ensures Valid() && heap.Tree() == HT.Leaf && fd == Disarmed && !polled && queue == []
      ensures fresh(heap) && heap.Repr() == {}
    {
      heap := new LH.LocHeap();
      fd, polled, queue := Disarmed, false, [];
    }

    // Once the message task has done what UpdateSoonestTime of the specification asks for.
    twostate predicate FdSet(task: MsgTask)
      reads this
    {
      FdIs(task, old(polled), old(fd), polled, fd)
    }

    method UpdateSoonestTime(priorTop: Option<Timer>)
      requires Valid()
      modifies this`fd, this`polled
      ensures Valid() && heap.Tree() == old(heap.Tree())
      ensures FdSet(LocTimerSpec.UpdateSoonestTime(heap.Tree(), priorTop))
      ensures var tree := heap.Tree();
              if tree.Leaf? then
                (if priorTop == None then polled == old(polled) && fd == old(fd) else !polled && fd == Disarmed)
              else if priorTop == None || (priorTop.value != tree.data && OutRanks(tree.data, priorTop.value)) then
                polled && fd == SetFd(tree.data.time)
              else polled == old(polled) && fd == old(fd)
    {
      var curTop := heap.Peek();
      if curTop != priorTop {
        var delay := ZERO;
        var toSetTime := false;
        if curTop == None {
          polled := false;
          toSetTime := true;
        } else if priorTop == None || OutRanks(curTop.value, priorTop.value) {
          polled := true;
          delay := curTop.value.time;
          toSetTime := true;
        }
        if toSetTime {
          fd := SetFd(delay);
        }
      }
    }

    method ProcPush(timer: Timer)
      requires Valid()
      modifies this`fd, this`polled, heap, heap.Repr()
      ensures Valid() && fresh(heap.Repr() - old(heap.Repr()))
      ensures heap.Tree() == HT.Push(OutRanks, old(heap.Tree()), timer)
      ensures FdSet(LocTimerSpec.UpdateSoonestTime(heap.Tree(), Top(old(heap.Tree()))))
    {
      var priorTop := heap.Peek();
      ghost var depth := heap.Push(OutRanks, timer);
      UpdateSoonestTime(priorTop);
    }

    method ProcRemove(timer: Timer)
      requires Valid()
      modifies this`fd, this`polled, heap, heap.Repr()
      ensures Valid() && heap.Repr() <= old(heap.Repr())
      ensures var r := HT.Remove(OutRanks, old(heap.Tree()), timer);
              heap.Tree() == (if r.Some? then r.value else old(heap.Tree())) &&
              FdSet(if Top(old(heap.Tree())) == (if r.Some? then Some(timer) else None)
                    then LocTimerSpec.UpdateSoonestTime(heap.Tree(), None) else Idle)
    {
      var priorTop := heap.Peek();
      var removed := heap.Remove(OutRanks, timer);
      if priorTop == removed {
        UpdateSoonestTime(None);
      }
    }

    method PopIfOutRanks(now: Timespec) returns (popped: Option<Timer>)
      requires Valid()
      modifies heap, heap.Repr()
      ensures Valid() && heap.Repr() <= old(heap.Repr())
      ensures var t := old(heap.Tree());
              if t.Node? && !(Ranks(now, t.data.time) > 0)
              then popped == Some(t.data) && heap.Tree() == HT.Pop(OutRanks, t)
              else popped == None && heap.Tree() == t
    {
      popped := None;
      var top := heap.Peek();
      if top.Some? && !(Ranks(now, top.value.time) > 0) {
        popped := heap.Pop(OutRanks);
      }
    }

    // The clients that the delegates of a pass may still have.
    ghost function Clients(at: map<Timer, LocTimerDelegate>): set<LocTimer>
      reads at.Values
    {
      set t | t in at && at[t].mClient != null :: at[t].mClient
    }

    // at: the object that each timer in the heap is. Client and delegate point at each other, and a
    // delegate with a client has this container.
    ghost predicate Ready(at: map<Timer, LocTimerDelegate>)
      reads heap, heap.mTree, heap.Repr(), at.Values, Clients(at)
    {
      Valid() && (forall t :: HT.Holds(heap.Tree(), t) ==> t in at) &&
      forall t :: t in at ==>
        at[t].timer == t && at[t] !in heap.Repr() &&
        (at[t].mClient != null ==>
           at[t].mClient !in heap.Repr() && at[t].mClient.mTimer == at[t] && at[t].mContainer == this)
    }

    // The timers whose delegates have a client.
    ghost function WithClient(at: map<Timer, LocTimerDelegate>): set<Timer>
      reads at.Values
    {
      set t | t in at && at[t].mClient != null
    }

    // expire() of the delegate that was popped, with the client's callback if it is still due.
    method ExpireDelegate(timer: Timer, at: map<Timer, LocTimerDelegate>) returns (called: bool)
      requires Ready(at) && timer in at
      modifies at[timer], Clients(at), this`queue
      ensures Ready(at) && heap.Tree() == old(heap.Tree()) && heap.Repr() == old(heap.Repr())
      ensures called <==> timer in old(WithClient(at))
      ensures WithClient(at) == old(WithClient(at)) - {timer} && Clients(at) <= old(Clients(at))
      ensures queue == old(queue) + if called then [RemoveMsg(timer)] else []
    {
      assert at[timer].mClient != null ==> at[timer].mClient in Clients(at);
      called := at[timer].Expire();
      assert forall t :: t in at ==> at[t].mClient == if t == timer then null else old(at[t].mClient);
    }

    // One round of the pass: expire() of the timer at hand, and the next one that is due.
    method ExpireNext(timer: Timer, now: Timespec, at: map<Timer, LocTimerDelegate>)
      returns (called: bool, next: Option<Timer>)
      requires Ready(at) && timer in at
      modifies heap, heap.Repr(), at[timer], Clients(at), this`queue
      ensures Ready(at) && heap.Repr() <= old(heap.Repr()) && (next.Some? ==> next.value in at)
      ensures called <==> timer in old(WithClient(at))
      ensures WithClient(at) == old(WithClient(at)) - {timer} && Clients(at) <= old(Clients(at))
      ensures queue == old(queue) + if called then [RemoveMsg(timer)] else []
      ensures PopDue(old(heap.Tree()), now) == (ToExpire(next, heap.Tree(), now), LeftBy(next, heap.Tree(), now))
      ensures next.Some? ==> HT.Count(heap.Tree()) < HT.Count(old(heap.Tree()))
    {
      called := ExpireDelegate(timer, at);
      PopHolds(heap.Tree());
      next := PopIfOutRanks(now);
    }

    // The loop of the pass. rest0 is what it is to expire, from the timer at hand on.
    method ExpireAll(first: Option<Timer>, now: Timespec, at: map<Timer, LocTimerDelegate>,
                     ghost rest0: seq<Timer>, ghost clients: set<Timer>)
      returns (expired: seq<Timer>, called: seq<Timer>)
      requires Ready(at) && (first.Some? ==> first.value in at)
      requires rest0 == ToExpire(first, heap.Tree(), now) && clients == WithClient(at)
      modifies heap, heap.Repr(), at.Values, Clients(at), this`queue
      ensures Ready(at) && heap.Repr() <= old(heap.Repr())
      ensures expired == rest0 && heap.Tree() == LeftBy(first, old(heap.Tree()), now)
      ensures called == Answered(clients, expired) && queue == old(queue) + Removes(called)
      ensures WithClient(at) == clients - Set(expired)
    {
      expired, called := [], [];
      var timer := first;
      ghost var rest, left := rest0, LeftBy(first, heap.Tree(), now);
      while timer.Some?
        invariant Ready(at) && heap.Repr() <= old(heap.Repr()) && (timer.Some? ==> timer.value in at)
        invariant rest == ToExpire(timer, heap.Tree(), now) && expired + rest == rest0
        invariant LeftBy(timer, heap.Tree(), now) == left
        invariant called == Answered(clients, expired) && queue == old(queue) + Removes(called)
        invariant WithClient(at) == clients - Set(expired) && Clients(at) <= old(Clients(at))
        decreases timer.Some?, HT.Count(heap.Tree())
      {
        var back, next := ExpireNext(timer.value, now, at);
        AnsweredNext(clients, expired, timer.value);
        if back {
          RemovesNext(old(queue), called, timer.value);
          called := called + [timer.value];
        }
        rest := FirstMoved(expired, rest);
        expired := expired + [timer.value];
        timer := next;
      }
    }

    // The expire pass. expired is the timers it pops, called those whose clients are called back.
    method ProcExpire(now: Timespec, at: map<Timer, LocTimerDelegate>)
      returns (expired: seq<Timer>, called: seq<Timer>)
      requires Ready(at)
      modifies this, heap, heap.Repr(), at.Values, Clients(at)
      ensures Ready(at) && heap.Repr() <= old(heap.Repr())
      ensures (expired, heap.Tree()) == Pass(old(heap.Tree()), now)
      ensures FdSet(LocTimerSpec.UpdateSoonestTime(heap.Tree(), None))
      ensures called == Answered(old(WithClient(at)), expired) && queue == old(queue) + Removes(called)
      ensures WithClient(at) == old(WithClient(at)) - Set(expired)
    {
      expired, called := ExpirePass(now, at);
      UpdateSoonestTime(None);
    }

    // All of it but the fd.
    method ExpirePass(now: Timespec, at: map<Timer, LocTimerDelegate>)
      returns (expired: seq<Timer>, called: seq<Timer>)
      requires Ready(at)
      modifies heap, heap.Repr(), at.Values, Clients(at), this`queue
      ensures Ready(at) && heap.Repr() <= old(heap.Repr())
      ensures (expired, heap.Tree()) == Pass(old(heap.Tree()), now)
      ensures called == Answered(old(WithClient(at)), expired) && queue == old(queue) + Removes(called)
      ensures WithClient(at) == old(WithClient(at)) - Set(expired)
    {
      var timer := PopFirst(at);
      expired, called := ExpireAll(timer, now, at, ToExpire(timer, heap.Tree(), now), WithClient(at));
    }

    // The unguarded pop.
    method PopFirst(at: map<Timer, LocTimerDelegate>) returns (timer: Option<Timer>)
      requires Ready(at)
      modifies heap, heap.Repr()
      ensures Ready(at) && heap.Repr() <= old(heap.Repr()) && (timer.Some? ==> timer.value in at)
      ensures WithClient(at) == old(WithClient(at)) && Clients(at) == old(Clients(at))
      ensures timer == Top(old(heap.Tree()))
      ensures heap.Tree() == if timer == None then HT.Leaf else HT.Pop(OutRanks, old(heap.Tree()))
    {
      PopHolds(heap.Tree());
      timer := heap.Pop(OutRanks);
    }

    // The poll thread's half of an expiration.
    method Expire()
      modifies this`fd, this`polled, this`queue
      ensures fd == Disarmed && !polled && queue == old(queue) + [ExpireMsg]
    {
      fd := SetFd(ZERO);
      polled := false;
      queue := queue + [ExpireMsg];
    }
  }

  // Those of the expired timers that have a client, each when it expires for the first time.
  ghost function Answered(clients: set<Timer>, expired: seq<Timer>): seq<Timer> {
    if expired == [] then [] else
    var before, t := expired[..|expired| - 1], expired[|expired| - 1];
    Answered(clients, before) + if t in clients && t !in before then [t] else []
  }

  lemma FirstMoved(expired: seq<Timer>, rest: seq<Timer>) returns (more: seq<Timer>)
    requires rest != []
    ensures rest == [rest[0]] + more && more == rest[1..] && (expired + [rest[0]]) + more == expired + rest
  {
    more := rest[1..];
  }

  ghost function Set(s: seq<Timer>): set<Timer> { set t | t in s }

  ghost function Removes(called: seq<Timer>): seq<Msg> {
    seq(|called|, i requires 0 <= i < |called| => RemoveMsg(called[i]))
  }

  lemma AnsweredNext(clients: set<Timer>, expired: seq<Timer>, t: Timer)
    ensures Answered(clients, expired + [t])
            == if t in clients - Set(expired) then Answered(clients, expired) + [t] else Answered(clients, expired)
    ensures clients - Set(expired + [t]) == (clients - Set(expired)) - {t}
  {
    assert (expired + [t])[..|expired|] == expired;
  }

  lemma RemovesNext(queue: seq<Msg>, called: seq<Timer>, t: Timer)
    ensures (queue + Removes(called)) + [RemoveMsg(t)] == queue + Removes(called + [t])
  {
  }

  lemma PopHolds(heap: Heap)
    ensures heap.Node? ==> HT.Holds(heap, heap.data) && HT.Count(HT.Pop(OutRanks, heap)) < HT.Count(heap)
    ensures heap.Node? ==> forall t :: HT.Holds(HT.Pop(OutRanks, heap), t) ==> HT.Holds(heap, t)
  {
    if heap.Node? {
      HT.PopCounts(OutRanks, heap);
      forall t | HT.Holds(HT.Pop(OutRanks, heap), t) ensures HT.Holds(heap, t) { HT.PopConserves(OutRanks, heap, t); }
    }
  }

  // What a pass with this timer at hand is yet to expire, and the heap it will leave.
  ghost function ToExpire(timer: Option<Timer>, heap: Heap, now: Timespec): seq<Timer> {
    if timer == None then [] else [timer.value] + PopDue(heap, now).0
  }

  ghost function LeftBy(timer: Option<Timer>, heap: Heap, now: Timespec): Heap {
    if timer == None then heap else PopDue(heap, now).1
  }

  // ---------- Clients and delegates ----------

  class LocTimerDelegate {
    var mClient: LocTimer?
    const timer: Timer
    var mContainer: LocTimerContainer?

    // Made and handed to the container, which gets its push message.
    constructor (client: LocTimer, timer: Timer, container: LocTimerContainer)
      modifies container`queue
      ensures mClient == client && this.timer == timer && mContainer == container
      ensures container.queue == old(container.queue) + [PushMsg(timer)]
    {
      mClient, this.timer, mContainer := client, timer, container;
      new;
      container.queue := container.queue + [PushMsg(timer)];
    }

    // Only the first call has a container to post the remove message to.
    method DestroyLocked()
      modifies this`mClient, this`mContainer, (if mContainer == null then {} else {mContainer})`queue
      ensures mClient == null && mContainer == null
      ensures var c := old(mContainer);
              c != null ==> c.queue == old(c.queue) + [RemoveMsg(timer)]
    {
      mClient := null;
      if mContainer != null {
        var container := mContainer;
        mContainer := null;
        container.queue := container.queue + [RemoveMsg(timer)];
      }
    }

    // Whether the client's callback is called.
    method Expire() returns (called: bool)
      requires mClient != null ==> mClient.Linked() && mClient.mTimer == this
      modifies this, (if mClient == null then {} else {mClient}),
               (if mClient == null || mContainer == null then {} else {mContainer})`queue
      ensures called <==> old(mClient) != null
      ensures mClient == null
      ensures called ==>
                mContainer == null && old(mClient).mTimer == null &&
                old(mContainer).queue == old(mContainer.queue) + [RemoveMsg(timer)]
      ensures !called ==> mContainer == old(mContainer)
      ensures !called && mContainer != null ==> mContainer.queue == old(mContainer.queue)
    {
      called := false;
      var client := mClient;
      if client != null {
        called := client.Stop();
      }
    }
  }

  class LocTimer {
    var mTimer: LocTimerDelegate?

    // A running timer's delegate points back, and still has its container.
    ghost predicate Linked()
      reads this, mTimer
    {
      mTimer != null ==> mTimer.mClient == this && mTimer.mContainer != null
    }

    constructor ()
      ensures mTimer == null
    {
      mTimer := null;
    }

    // id: the next unused number. A container is missing when its timerfd could not be created.
    method Start(now: Timespec, timeOutInMs: nat, container: LocTimerContainer?, id: nat)
      returns (success: bool)
      requires Linked() && ClockInRange(now) && timeOutInMs < TWO_32
      modifies this, (if container == null then {} else {container})`queue
      ensures Linked()
      ensures success <==> old(mTimer) == null && container != null
      ensures success ==>
                fresh(mTimer) && mTimer.mContainer == container &&
                mTimer.timer == Delegate(id, FutureTime(now, timeOutInMs)) &&
                container.queue == old(container.queue) + [PushMsg(mTimer.timer)]
      ensures !success ==> mTimer == old(mTimer) && (container != null ==> container.queue == old(container.queue))
    {
      success := false;
      if mTimer == null {
        FutureTimeIsExact(now, timeOutInMs);
        if container != null {
          mTimer := new LocTimerDelegate(this, Delegate(id, FutureTime(now, timeOutInMs)), container);
          success := true;
        }
      }
    }

    method Stop() returns (success: bool)
      requires Linked()
      modifies this, (if mTimer == null then {} else {mTimer}),
               (if mTimer == null || mTimer.mContainer == null then {} else {mTimer.mContainer})`queue
      ensures success <==> old(mTimer) != null
      ensures mTimer == null
      ensures success ==>
                var t := old(mTimer);
                t.mClient == null && t.mContainer == null &&
                old(mTimer.mContainer).queue == old(mTimer.mContainer.queue) + [RemoveMsg(t.timer)]
    {
      success := false;
      if mTimer != null {
        var timer := mTimer;
        mTimer := null;
        timer.DestroyLocked();
        success := true;
      }
    }
  }
}
