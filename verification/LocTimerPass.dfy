/**
 A whole expire pass of gps/utils/LocTimer.cpp, and a run in which it fires a timer too early.
 */
module LocTimerPass {
  import opened Wrappers
  import opened TimerOrder
  import opened Counting
  import opened LocTimerSpec
  import HT = HeapTree

  // ---------- A whole pass at once ----------

  // The timers that a pass pops after the first, and the heap that it leaves.
  function PopDue(heap: Heap, since: Timespec): (seq<Timer>, Heap)
    decreases HT.Count(heap)
  {
    if heap.Leaf? || Ranks(since, heap.data.time) > 0 then ([], heap) else
    HT.PopCounts(OutRanks, heap);
    var (more, rest) := PopDue(HT.Pop(OutRanks, heap), since);
    ([heap.data] + more, rest)
  }

  function Pass(heap: Heap, since: Timespec): (seq<Timer>, Heap) {
    if heap.Leaf? then ([], heap) else
    var (more, rest) := PopDue(HT.Pop(OutRanks, heap), since);
    ([heap.data] + more, rest)
  }

  lemma {:induction false} PopDueSplits(heap: Heap, since: Timespec, y: Timer)
    requires Usable(since) && HT.HeapOrdered(OutRanks, heap)
    ensures var (popped, rest) := PopDue(heap, since);
            HT.HeapOrdered(OutRanks, rest) &&
            HT.Times(heap, y) == Count(popped, y) + HT.Times(rest, y) &&
            (y in popped ==> !Earlier(since, y.time)) && (HT.Holds(rest, y) ==> Earlier(since, y.time))
    decreases HT.Count(heap)
  {
    TimersRankConsistently();
    if heap.Node? {
      RanksIsOrder(since, heap.data.time);
      if Ranks(since, heap.data.time) > 0 {
        if HT.Holds(heap, y) {
          HT.TopRanksHighest(OutRanks, heap, y);
          RanksIsOrder(y.time, heap.data.time);
        }
      } else {
        HT.PopCounts(OutRanks, heap);
        HT.PopOrders(OutRanks, heap);
        HT.PopConserves(OutRanks, heap, y);
        PopDueSplits(HT.Pop(OutRanks, heap), since, y);
        var (more, rest) := PopDue(HT.Pop(OutRanks, heap), since);
        CountFront([heap.data] + more, y);
        assert ([heap.data] + more)[1..] == more;
      }
    }
  }

  // A pass splits the heap: what it leaves is later than its "now", and what it pops, but for the
  // first, was due; nothing is lost and nothing twice.
  lemma PassSplits(heap: Heap, since: Timespec, y: Timer)
    requires Usable(since) && HT.HeapOrdered(OutRanks, heap)
    ensures var (popped, rest) := Pass(heap, since);
            HT.Times(heap, y) == Count(popped, y) + HT.Times(rest, y) &&
            (HT.Holds(rest, y) ==> Earlier(since, y.time)) &&
            (popped != [] && y in popped[1..] ==> !Earlier(since, y.time))
  {
    if heap.Node? {
      TimersRankConsistently();
      HT.PopOrders(OutRanks, heap);
      HT.PopConserves(OutRanks, heap, y);
      PopDueSplits(HT.Pop(OutRanks, heap), since, y);
      var (more, rest) := PopDue(HT.Pop(OutRanks, heap), since);
      CountFront([heap.data] + more, y);
      assert ([heap.data] + more)[1..] == more;
    }
  }

  // A pass pops nothing ahead of its "now" exactly when the top it starts with is due: the guard that
  // the source leaves out before the first pop.
  lemma PassIsPunctualIff(heap: Heap, since: Timespec)
    requires Usable(since) && HT.HeapOrdered(OutRanks, heap)
    ensures (forall y :: y in Pass(heap, since).0 ==> !Earlier(since, y.time))
            <==> heap.Leaf? || !Earlier(since, heap.data.time)
  {
    if heap.Node? {
      TimersRankConsistently();
      HT.PopOrders(OutRanks, heap);
      var (more, rest) := PopDue(HT.Pop(OutRanks, heap), since);
      assert Pass(heap, since).0[0] == heap.data;
      forall y | y in more ensures !Earlier(since, y.time) {
        PopDueSplits(HT.Pop(OutRanks, heap), since, y);
      }
    }
  }

  // ---------- A pass among the steps of the others ----------

  // The actions from the handling of an expire message on, until its pass has ended.
  ghost predicate WholePass(p: State, actions: seq<Action>) {
    !InPass(Run(p, actions).task) && forall k :: 0 <= k < |actions| ==> InPass(Run(p, actions[..k]).task)
  }

  // What the others do before the message task goes on, which is then with the first timer's expire().
  function BeforeExpire(actions: seq<Action>): seq<Action> {
    if MessageTask !in actions then actions else BeforeExpire(actions[..|actions| - 1])
  }

  // The first timer of the pass still has a client when its expire() looks for it.
  predicate FirstHasClient(s: State, actions: seq<Action>)
    requires Enabled(s, MessageTask) && s.heap.Node?
  {
    s.heap.data.id in Run(TaskStep(s), BeforeExpire(actions)).linked
  }

  // Between s and n a timer was called back that was ahead of the clock in s.
  ghost predicate CallsAhead(s: State, n: State) {
    exists k :: |s.called| <= k < |n.called| && CalledAhead(s.now, n, n.called[k])
  }

  ghost predicate CalledAhead(since: Timespec, n: State, id: nat) {
    id < |n.timers| && Earlier(since, n.timers[id].time)
  }

  ghost predicate StartsPass(s: State) { Inv(s) && s.task.Idle? && s.queue != [] && s.queue[0] == ExpireMsg }

  // The pass so far: what it popped and is yet to pop are those of Pass.
  ghost predicate PopsRight(s: State, n: State)
    requires s.heap.Node?
  {
    var (popped, left) := Pass(s.heap, s.now);
    (InPass(n.task) ==> n.task.since == s.now) &&
    PopDue(n.heap, s.now).1 == left &&
    (forall t :: t in PopDue(n.heap, s.now).0 ==> t in popped) &&
    (!InPass(n.task) ==> PopDue(n.heap, s.now).0 == []) &&
    (n.task.Expiring? && n.task.popped.Some? ==> n.task.popped.value in popped) &&
    (n.task.CallingBack? ==> n.task.t in popped)
  }

  // And it calls back only what it popped.
  ghost predicate CallsPopped(s: State, n: State)
    requires s.heap.Node?
  {
    |s.called| <= |n.called| &&
    forall k :: |s.called| <= k < |n.called| ==>
      n.called[k] < |n.timers| && n.timers[n.called[k]] in Pass(s.heap, s.now).0
  }

  ghost predicate Called(s: State, n: State, id: nat) {
    exists k :: |s.called| <= k < |n.called| && n.called[k] == id
  }

  // The first timer: before its expire(), and afterwards if it had a client then and if not.
  ghost predicate FirstPending(s: State, n: State)
    requires s.heap.Node?
  {
    n.task == Expiring(s.now, Some(s.heap.data), true) && |n.called| == |s.called|
  }

  ghost predicate FirstAnswered(s: State, n: State, client: bool)
    requires s.heap.Node?
  {
    var top := s.heap.data;
    if client then (n.task.CallingBack? && n.task.t == top) || Called(s, n, top.id)
    else top.id !in n.linked && !(n.task.CallingBack? && n.task.t.id == top.id) && !Called(s, n, top.id)
  }

  lemma StartPops(s: State)
    requires StartsPass(s) && s.heap.Node?
    ensures var n := TaskStep(s); PopsRight(s, n) && CallsPopped(s, n) && FirstPending(s, n)
  {
  }

  lemma PopIfDuePopsRight(s: State, n: State)
    requires s.heap.Node? && PopsRight(s, n) && n.task.Expiring? && n.task.popped.None?
    ensures PopsRight(s, PopIfOutRanks(n, s.now))
  {
    var m := PopIfOutRanks(n, s.now);
    if n.heap.Node? && !(Ranks(s.now, n.heap.data.time) > 0) {
      assert PopDue(n.heap, s.now) == ([n.heap.data] + PopDue(m.heap, s.now).0, PopDue(m.heap, s.now).1);
    }
  }

  lemma TaskPopsRight(s: State, n: State)
    requires s.heap.Node? && PopsRight(s, n) && InPass(n.task)
    ensures PopsRight(s, TaskStep(n))
  {
    if n.task.Expiring? && n.task.popped.None? {
      PopIfDuePopsRight(s, n);
    } else {
      assert TaskStep(n).heap == n.heap;
    }
  }

  lemma TaskCallsPopped(s: State, n: State)
    requires s.heap.Node? && KnownInv(n) && PopsRight(s, n) && CallsPopped(s, n) && InPass(n.task)
    ensures CallsPopped(s, TaskStep(n))
  {
  }

  lemma TaskExpiresFirst(s: State, n: State)
    requires s.heap.Node? && LinkInv(n) && FirstPending(s, n)
    ensures FirstAnswered(s, TaskStep(n), s.heap.data.id in n.linked)
  {
  }

  lemma TaskKeepsAnswer(s: State, n: State, client: bool)
    requires s.heap.Node? && InPass(n.task) && |s.called| <= |n.called| && FirstAnswered(s, n, client)
    ensures FirstAnswered(s, TaskStep(n), client)
  {
    var top, m := s.heap.data, TaskStep(n);
    if n.task.CallingBack? {
      assert m.called[|n.called|] == n.task.t.id;
    }
    if Called(s, n, top.id) {
      var k :| |s.called| <= k < |n.called| && n.called[k] == top.id;
      assert m.called[k] == top.id;
    }
  }

  // The steps of the others change neither the heap nor what the pass has done.
  lemma OthersKeepPass(n: State, a: Action)
    requires Enabled(n, a) && !a.MessageTask?
    ensures var m := Step(n, a);
            (m.task, m.heap, m.called) == (n.task, n.heap, n.called) && n.timers <= m.timers &&
            forall id: nat :: id < |n.timers| && id !in n.linked ==> id !in m.linked
  {
  }

  ghost predicate PassSoFar(s: State, n: State, actions: seq<Action>)
    requires StartsPass(s) && s.heap.Node?
  {
    Inv(n) && Known(n.timers, s.heap.data) && PopsRight(s, n) && CallsPopped(s, n) &&
    if MessageTask in actions then FirstAnswered(s, n, FirstHasClient(s, actions)) else FirstPending(s, n)
  }

  lemma {:induction false} PassGoesRight(s: State, actions: seq<Action>)
    requires StartsPass(s) && s.heap.Node?
    requires forall k :: 0 <= k < |actions| ==> InPass(Run(TaskStep(s), actions[..k]).task)
    ensures PassSoFar(s, Run(TaskStep(s), actions), actions)
  {
    var p := TaskStep(s);
    if actions == [] {
      StepKeepsInv(s, MessageTask);
      StartPops(s);
      assert HT.Holds(s.heap, s.heap.data);
    } else {
      var before, a := actions[..|actions| - 1], actions[|actions| - 1];
      forall k | 0 <= k < |before| ensures InPass(Run(p, before[..k]).task) { assert before[..k] == actions[..k]; }
      PassGoesRight(s, before);
      var n := Run(p, before);
      assert actions == before + [a] && before == actions[..|before|];
      if Enabled(n, a) {
        StepKeepsInv(n, a);
        if a.MessageTask? { TaskGoesRight(s, before); } else { OthersGoRight(s, before, a); }
      }
    }
  }

  lemma TaskGoesRight(s: State, before: seq<Action>)
    requires StartsPass(s) && s.heap.Node? && PassSoFar(s, Run(TaskStep(s), before), before)
    requires InPass(Run(TaskStep(s), before).task) && Inv(TaskStep(Run(TaskStep(s), before)))
    ensures PassSoFar(s, TaskStep(Run(TaskStep(s), before)), before + [MessageTask])
  {
    var n := Run(TaskStep(s), before);
    TaskPopsRight(s, n);
    TaskCallsPopped(s, n);
    TaskKeepsTimers(n);
    BeforeExpireFixed(before, MessageTask);
    if MessageTask in before {
      TaskKeepsAnswer(s, n, FirstHasClient(s, before));
    } else {
      TaskExpiresFirst(s, n);
    }
  }

  lemma TaskKeepsTimers(n: State)
    requires Enabled(n, MessageTask)
    ensures TaskStep(n).timers == n.timers
  {
  }

  // When the message task has gone on, or goes on now, what came before its first step is settled.
  lemma BeforeExpireFixed(before: seq<Action>, a: Action)
    requires MessageTask in before || a == MessageTask
    ensures MessageTask in before + [a] && BeforeExpire(before + [a]) == BeforeExpire(before)
  {
    assert (before + [a])[..|before|] == before;
    assert (before + [a])[|before|] == a;
  }

  lemma OthersGoRight(s: State, before: seq<Action>, a: Action)
    requires StartsPass(s) && s.heap.Node? && PassSoFar(s, Run(TaskStep(s), before), before)
    requires Enabled(Run(TaskStep(s), before), a) && !a.MessageTask? && Inv(Step(Run(TaskStep(s), before), a))
    ensures PassSoFar(s, Step(Run(TaskStep(s), before), a), before + [a])
  {
    var n := Run(TaskStep(s), before);
    OthersKeepPass(n, a);
    if MessageTask in before { BeforeExpireFixed(before, a); }
    assert MessageTask in before + [a] <==> MessageTask in before;
  }

  lemma PassBegins(p: State, actions: seq<Action>)
    requires WholePass(p, actions)
    ensures actions != [] ==> InPass(p.task)
  {
    if actions != [] {
      assert Run(p, actions[..0]) == p;
    }
  }

  // The exact condition for a callback ahead of time, whatever the others do during the pass: the pass
  // calls back a timer ahead of its "now" if and only if the top of the heap is ahead and still has a
  // client when its expire() looks for it. And the pass is Pass: it leaves that heap, and calls back
  // only timers that are popped there.
  lemma PassCallsAheadIff(s: State, actions: seq<Action>)
    requires StartsPass(s) && WholePass(TaskStep(s), actions)
    ensures var n := Run(TaskStep(s), actions);
            (CallsAhead(s, n)
             <==> s.heap.Node? && Earlier(s.now, s.heap.data.time) && FirstHasClient(s, actions)) &&
            n.heap == Pass(s.heap, s.now).1 && (s.heap.Node? ==> CallsPopped(s, n))
  {
    var n := Run(TaskStep(s), actions);
    if s.heap.Leaf? {
      PassBegins(TaskStep(s), actions);
    } else {
      PassGoesRight(s, actions);
      var top := s.heap.data;
      if CallsAhead(s, n) {
        var k :| |s.called| <= k < |n.called| && CalledAhead(s.now, n, n.called[k]);
        AheadIsFirst(s, n.timers[n.called[k]]);
        assert Called(s, n, top.id);
      }
      if Earlier(s.now, top.time) && FirstHasClient(s, actions) {
        var k :| |s.called| <= k < |n.called| && n.called[k] == top.id;
        assert CalledAhead(s.now, n, n.called[k]);
      }
    }
  }

  // What a pass pops ahead of its "now" is the timer that it starts with.
  lemma AheadIsFirst(s: State, y: Timer)
    requires StartsPass(s) && s.heap.Node? && y in Pass(s.heap, s.now).0 && Earlier(s.now, y.time)
    ensures y == s.heap.data
  {
    TimersRankConsistently();
    HT.PopOrders(OutRanks, s.heap);
    PopDueSplits(HT.Pop(OutRanks, s.heap), s.now, y);
  }

  // ---------- A timer can fire early ----------

  lemma Extended(init: State, actions: seq<Action>, a: Action) returns (longer: seq<Action>, s: State)
    requires Enabled(Run(init, actions), a)
    ensures s == Run(init, longer) == Step(Run(init, actions), a)
  {
    longer := actions + [a];
    s := Run(init, longer);
    assert longer[..|actions|] == actions;
  }

  // A timer of one second, stopped again: its fd stays armed over an empty heap.
  lemma StoppedTimerLeavesFdArmed() returns (actions: seq<Action>, s: State)
    ensures s == Run(Initial(Timespec(1, 0)), actions)
    ensures s.heap == HT.Leaf && s.queue == [] && s.task.Idle? && s.poll.Waiting? && s.running == map[]
    ensures s.now == Timespec(1, 0) && s.polled && s.fd == Armed(Timespec(2, 0))
    ensures |s.timers| == 1 && s.linked == map[] && s.called == []
  {
    var init := Initial(Timespec(1, 0));
    actions, s := Extended(init, [], StartBy(0, 1000));
    var t := s.timers[0];
    assert t == Delegate(0, Timespec(2, 0));
    actions, s := Extended(init, actions, MessageTask);
    assert s.heap == HT.Single(t) && s.task == AddPoll(t);
    actions, s := Extended(init, actions, MessageTask);
    actions, s := Extended(init, actions, MessageTask);
    actions, s := Extended(init, actions, StopBy(0));
    assert s.queue == [RemoveMsg(t)];
    assert HT.Remove(OutRanks, HT.Single(t), t) == Some(HT.Leaf);
    actions, s := Extended(init, actions, MessageTask);
  }

  // The stale fd fires, and its expiry is queued behind the push of a timer of a thousand seconds.
  lemma StaleExpiryIsQueued() returns (actions: seq<Action>, s: State)
    ensures s == Run(Initial(Timespec(1, 0)), actions)
    ensures s.heap == HT.Leaf && s.task.Idle? && s.now == Timespec(2, 0) && s.called == []
    ensures |s.timers| == 2 && s.timers[1] == Delegate(1, Timespec(1002, 0))
    ensures s.queue == [PushMsg(s.timers[1]), ExpireMsg]
    ensures s.linked == map[1 := 0] && s.running == map[0 := s.timers[1]]
  {
    var init := Initial(Timespec(1, 0));
    actions, s := StoppedTimerLeavesFdArmed();
    actions, s := Extended(init, actions, Tick(Timespec(2, 0)));
    actions, s := Extended(init, actions, PollThread);
    actions, s := Extended(init, actions, StartBy(0, 1000000));
    assert s.timers[1] == Delegate(1, Timespec(1002, 0));
    actions, s := Extended(init, actions, PollThread);
    actions, s := Extended(init, actions, PollThread);
    actions, s := Extended(init, actions, PollThread);
  }

  // The stale expiry then fires that timer at once: its pass pops it unguarded.
  lemma TimerCanFireEarly() returns (actions: seq<Action>)
    ensures var s := Run(Initial(Timespec(1, 0)), actions);
            |s.timers| == 2 && s.called == [1] && Earlier(s.now, s.timers[1].time)
  {
    var init, s := Initial(Timespec(1, 0)), Initial(Timespec(1, 0));
    actions, s := StaleExpiryIsQueued();
    var t := s.timers[1];
    actions, s := Extended(init, actions, MessageTask);
    assert s.heap == HT.Single(t) && s.task == AddPoll(t) && s.queue == [ExpireMsg];
    actions, s := Extended(init, actions, MessageTask);
    actions, s := Extended(init, actions, MessageTask);
    actions, s := Extended(init, actions, MessageTask);
    assert s.task == Expiring(Timespec(2, 0), Some(t), true);
    actions, s := Extended(init, actions, MessageTask);
    actions, s := Extended(init, actions, MessageTask);
  }
}
