/**
 The timer service of gps/utils/LocTimer.cpp seen from its clients: every timer is one that a client
 started, due at the clock of the start plus the delay asked for, and what is promised is promised for
 that time.
 */
module LocTimerStarts {
  import opened Wrappers
  import opened TimerOrder
  import opened LocTimerSpec
  import opened LocTimerPass
  import opened LocTimerSteps
  import HT = HeapTree
  import LTimer = LocTimer
  import Counting

  // ---------- Starting and stopping ----------

  // A client without timer gets one new timer, due exactly after the delay, whose push message is queued;
  // a client with a timer changes nothing.
  lemma StartAdds(s: State, c: nat, ms: nat)
    requires Enabled(s, StartBy(c, ms))
    ensures var n := Step(s, StartBy(c, ms));
            if c in s.running then n == s
            else |n.timers| == |s.timers| + 1 && n.timers[..|s.timers|] == s.timers &&
                 var t := n.timers[|s.timers|];
                 t.id == |s.timers| && 0 <= t.time.sec && 0 <= t.time.nsec < 1_000_000_000 &&
                 t.time.sec * 1_000_000_000 + t.time.nsec
                   == s.now.sec * 1_000_000_000 + s.now.nsec + ms * 1_000_000 &&
                 n == s.(timers := n.timers, running := s.running[c := t], linked := s.linked[t.id := c],
                         queue := s.queue + [PushMsg(t)])
  {
    FutureTimeIsExact(s.now, ms);
  }

  // A stop takes the client's timer away from it, and queues its remove message.
  lemma StopTakes(s: State, c: nat)
    ensures var n := Step(s, StopBy(c));
            if c !in s.running then n == s
            else var t := s.running[c];
                 n == s.(running := s.running - {c}, linked := s.linked - {t.id},
                         queue := s.queue + [RemoveMsg(t)], stopped := s.stopped + [t.id])
  {
  }

  // Action k was a start by a client without timer.
  ghost predicate Started(init: State, actions: seq<Action>, k: int) {
    0 <= k < |actions| && actions[k].StartBy? && Enabled(Run(init, actions[..k]), actions[k]) &&
    actions[k].c !in Run(init, actions[..k]).running
  }

  // The number of the timer that action k started, and the nanosecond for which it was asked.
  ghost function NumberOf(init: State, actions: seq<Action>, k: int): nat
    requires Started(init, actions, k)
  {
    |Run(init, actions[..k]).timers|
  }

  ghost function DueAt(init: State, actions: seq<Action>, k: int): int
    requires Started(init, actions, k)
  {
    var now := Run(init, actions[..k]).now;
    now.sec * 1_000_000_000 + now.nsec + actions[k].timeOutInMs * 1_000_000
  }

  // What the timer is, and whose, in a later state.
  ghost predicate IsStartedTimer(s: State, i: nat, due: int, c: nat) {
    i < |s.timers| && s.timers[i].id == i && Normal(s.timers[i].time) && Nanos(s.timers[i].time) == due &&
    (i in s.linked ==> s.linked[i] == c) &&
    (s.task.CallingBack? && s.task.t.id == i ==> s.task.client == c)
  }

  lemma ExpireKeepsStarted(s: State, i: nat, due: int, c: nat)
    requires Inv(s) && s.task.Expiring? && s.task.popped.Some? && IsStartedTimer(s, i, due, c)
    ensures IsStartedTimer(ExpireDelegate(s, s.task.since, s.task.popped.value, s.task.first), i, due, c)
  {
  }

  lemma HandlingLinksNothing(s: State)
    requires Enabled(s, MessageTask) && !(s.task.Expiring? && s.task.popped.Some?)
    ensures TaskStep(s).linked == s.linked && !TaskStep(s).task.CallingBack?
  {
    match s.task
    case Idle => MessageLinksNothing(s);
    case Expiring(since, _, _) => assert TaskStep(s) == PopIfOutRanks(s, since);
    case _ =>
  }

  lemma MessageLinksNothing(s: State)
    requires s.task.Idle? && s.queue != []
    ensures TaskStep(s).linked == s.linked && !TaskStep(s).task.CallingBack?
  {
  }

  lemma TaskKeepsStarted(s: State, i: nat, due: int, c: nat)
    requires Inv(s) && Enabled(s, MessageTask) && IsStartedTimer(s, i, due, c)
    ensures IsStartedTimer(TaskStep(s), i, due, c)
  {
    if s.task.Expiring? && s.task.popped.Some? {
      ExpireKeepsStarted(s, i, due, c);
    } else {
      TaskKeepsTimers(s);
      HandlingLinksNothing(s);
    }
  }

  lemma StepKeepsStarted(s: State, a: Action, i: nat, due: int, c: nat)
    requires Inv(s) && Enabled(s, a) && IsStartedTimer(s, i, due, c)
    ensures IsStartedTimer(Step(s, a), i, due, c)
  {
    match a
    case StartBy(d, ms) => StartAdds(s, d, ms);
    case StopBy(d) => StopTakes(s, d);
    case MessageTask => TaskKeepsStarted(s, i, due, c);
    case _ =>
  }

  // Every start makes its timer, and for ever.
  lemma {:induction false} StartLasts(now: Timespec, actions: seq<Action>, k: int)
    requires Started(Initial(now), actions, k)
    ensures IsStartedTimer(Run(Initial(now), actions), NumberOf(Initial(now), actions, k),
                           DueAt(Initial(now), actions, k), actions[k].c)
    decreases actions
  {
    var init, before := Initial(now), actions[..|actions| - 1];
    RunKeepsInv(now, before);
    var s, a := Run(init, before), actions[|actions| - 1];
    if k == |before| {
      StartAdds(s, a.c, a.timeOutInMs);
      StartedIsCallingNobody(s);
    } else {
      assert before[..k] == actions[..k];
      StartLasts(now, before, k);
      if Enabled(s, a) { StepKeepsStarted(s, a, NumberOf(init, actions, k), DueAt(init, actions, k), actions[k].c); }
    }
  }

  lemma StartedIsCallingNobody(s: State)
    requires Inv(s)
    ensures s.task.CallingBack? ==> s.task.t.id < |s.timers|
  {
  }

  // And every timer was started so.
  lemma {:induction false} EveryTimerWasStarted(now: Timespec, actions: seq<Action>, i: nat) returns (k: int)
    requires i < |Run(Initial(now), actions).timers|
    ensures Started(Initial(now), actions, k) && NumberOf(Initial(now), actions, k) == i
    ensures IsStartedTimer(Run(Initial(now), actions), i, DueAt(Initial(now), actions, k), actions[k].c)
    decreases actions
  {
    var init, before := Initial(now), actions[..|actions| - 1];
    var s, a := Run(init, before), actions[|actions| - 1];
    if i < |s.timers| {
      k := EveryTimerWasStarted(now, before, i);
      assert before[..k] == actions[..k];
    } else {
      OnlyStartsAdd(s, a);
      k := |before|;
    }
    StartLasts(now, actions, k);
  }

  lemma OnlyStartsAdd(s: State, a: Action)
    ensures var n := if Enabled(s, a) then Step(s, a) else s;
            |n.timers| == |s.timers| +
              if Enabled(s, a) && a.StartBy? && a.c !in s.running then 1 else 0
  {
    if a.MessageTask? && Enabled(s, a) { TaskKeepsTimers(s); }
  }

  // ---------- No start is forgotten ----------

  // The poll thread is woken no later than at the nanosecond due, or is about to be set so.
  ghost predicate WakesBy(s: State, due: int) {
    match s.task
    case Idle => s.polled && s.fd.Armed? && Nanos(s.fd.at) <= due
    case AddPoll(u) => Nanos(u.time) <= due
    case SetTime(u) => s.polled && Nanos(u.time) <= due
    case _ => false
  }

  lemma WakesInNanos(s: State, t: Timer)
    requires WillWakeBy(s, t.time) && FdNormal(s)
    ensures WakesBy(s, Nanos(t.time))
  {
  }

  // What the fd is armed at is a time of a timer.
  ghost predicate FdNormal(s: State) { s.fd.Armed? ==> Normal(s.fd.at) }

  lemma StepKeepsFdNormal(s: State, a: Action)
    requires FdNormal(s) && Enabled(s, a)
    ensures FdNormal(Step(s, a))
  {
  }

  lemma {:induction false} RunKeepsFdNormal(now: Timespec, actions: seq<Action>)
    ensures FdNormal(Run(Initial(now), actions))
  {
    if actions != [] {
      var s, a := Run(Initial(now), actions[..|actions| - 1]), actions[|actions| - 1];
      RunKeepsFdNormal(now, actions[..|actions| - 1]);
      if Enabled(s, a) { StepKeepsFdNormal(s, a); }
    }
  }

  // In every interleaving: the timer of a start was called back, or stopped, or its push message is
  // queued, or an expiry is under way, or it is in the heap and the poll thread is woken no later than
  // after the delay that was asked for.
  lemma NoStartIsForgotten(now: Timespec, actions: seq<Action>, k: int)
    requires Started(Initial(now), actions, k)
    ensures var s, i := Run(Initial(now), actions), NumberOf(Initial(now), actions, k);
            i < |s.timers| &&
            (i in s.called || i in s.stopped ||
             PushMsg(s.timers[i]) in s.queue ||
             s.poll != Waiting || ExpireMsg in s.queue || s.task.Expiring? || s.task.CallingBack? ||
             (HT.Holds(s.heap, s.timers[i]) && WakesBy(s, DueAt(Initial(now), actions, k))))
  {
    StartLasts(now, actions, k);
    RunKeepsInv(now, actions);
    RunKeepsFdNormal(now, actions);
    var s, i := Run(Initial(now), actions), NumberOf(Initial(now), actions, k);
    var t := s.timers[i];
    NoTimerIsForgotten(now, actions, t);
    AnsweredOrLinked(s, t);
    if WillWakeBy(s, t.time) { WakesInNanos(s, t); }
  }

  lemma AnsweredOrLinked(s: State, t: Timer)
    requires AllAccounts(s) && Known(s.timers, t)
    ensures t.id in s.linked || t.id in s.called || t.id in s.stopped || (s.task.CallingBack? && s.task.t == t)
  {
    assert AccountInv(s, t);
    Counting.CountIn(s.called, t.id);
    Counting.CountIn(s.stopped, t.id);
  }

  // In every interleaving: a callback is made for the client that started the timer, and if before the
  // delay asked for has passed, then for the first timer of a pass whose "now" was before that, too.
  lemma OnlyFirstFiresBeforeItsDelay(now: Timespec, actions: seq<Action>, k: int)
    requires Started(Initial(now), actions, k)
    requires var s := Run(Initial(now), actions); s.task.CallingBack? && s.task.t.id == NumberOf(Initial(now), actions, k)
    ensures var s := Run(Initial(now), actions);
            s.task.client == actions[k].c &&
            (Nanos(s.now) < DueAt(Initial(now), actions, k) ==>
               s.task.first && Nanos(s.task.since) < DueAt(Initial(now), actions, k))
  {
    StartLasts(now, actions, k);
    RunKeepsInv(now, actions);
    OnlyFirstFiresEarly(now, actions);
  }

  // ---------- And none that is due stays asleep ----------

  // The poll thread is woken exactly by a polled fd whose time has come.
  lemma PollWakesIff(s: State)
    requires s.poll.Waiting? && Normal(s.now) && FdNormal(s)
    ensures Enabled(s, PollThread) <==> s.polled && s.fd.Armed? && Nanos(s.fd.at) <= Nanos(s.now)
  {
  }

  // Nobody but clients has anything to do.
  ghost predicate Quiet(s: State) { s.task.Idle? && s.queue == [] && s.poll.Waiting? }

  lemma DueTimerWakes(s: State, t: Timer)
    requires Inv(s) && AllAccounts(s) && Quiet(s) && Known(s.timers, t) && t.id in s.linked
    requires !Earlier(s.now, t.time)
    ensures HT.Holds(s.heap, t) && Enabled(s, PollThread)
  {
    assert AccountInv(s, t);
    TimersRankConsistently();
    HT.TopRanksHighest(OutRanks, s.heap, t);
    RanksIsOrder(t.time, s.heap.data.time);
  }

  // In every interleaving: when nobody has anything to do, and the timer of a start is neither stopped nor
  // called back although its delay has passed, the poll thread can take its four steps, and the message
  // task its pass, and then the timer has been called back.
  lemma DueTimerIsCalled(now: Timespec, actions: seq<Action>, k: int)
    requires Started(Initial(now), actions, k)
    requires var s, i := Run(Initial(now), actions), NumberOf(Initial(now), actions, k);
             Quiet(s) && i !in s.called && i !in s.stopped && DueAt(Initial(now), actions, k) <= Nanos(s.now)
    ensures var s := Run(Initial(now), actions);
            Enabled(s, PollThread) && StartsPass(PollAlone(s)) &&
            NumberOf(Initial(now), actions, k) in HandleAlone(PollAlone(s)).called
  {
    StartLasts(now, actions, k);
    RunKeepsInv(now, actions);
    var s, i := Run(Initial(now), actions), NumberOf(Initial(now), actions, k);
    var t := s.timers[i];
    AnsweredOrLinked(s, t);
    DueTimerWakes(s, t);
    PollIsSteps(s);
    PollKeepsInv(s);
    PassCallsDue(PollAlone(s), t);
  }

  lemma PassCallsDue(s: State, t: Timer)
    requires StartsPass(s) && HT.Holds(s.heap, t) && t.id in s.linked && !Earlier(s.now, t.time)
    ensures t.id in HandleAlone(s).called
  {
    var (expired, left) := Pass(s.heap, s.now);
    PassSplits(s.heap, s.now, t);
    Counting.CountIn(expired, t);
    PassIsTaskSteps(s);
    var called := LTimer.Answered(HaveClient(s), expired);
    AnsweredIn(HaveClient(s), expired, t);
    var j :| 0 <= j < |called| && called[j] == t;
    assert Ids(called)[j] == t.id;
    assert HandleAlone(s).called[|s.called| + j] == t.id;
  }

  lemma {:induction false} AnsweredIn(clients: set<Timer>, expired: seq<Timer>, t: Timer)
    requires t in clients && t in expired
    ensures t in LTimer.Answered(clients, expired)
  {
    var before, last := expired[..|expired| - 1], expired[|expired| - 1];
    if t in before { AnsweredIn(clients, before, t); } else { assert last == t; }
  }
}
