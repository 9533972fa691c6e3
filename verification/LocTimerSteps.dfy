/**
 The message handlers of gps/utils/LocTimer.cpp against the state machine: the steps that the message
 task takes for a message, with nobody else acting, do what the methods of LocTimer promise.
 */
module LocTimerSteps {
  import opened Wrappers
  import opened TimerOrder
  import opened LocTimerSpec
  import opened LocTimerPass
  import LT = LocTimer
  import HT = HeapTree

  // The system calls that updateSoonestTime asks for.
  function FdSteps(s: State): State
    requires !s.task.Idle? || s.queue != []
  {
    if s.task.AddPoll? || s.task.RemovePoll? then TaskStep(TaskStep(s)) else s
  }

  ghost predicate FdDone(task: MsgTask, s: State, n: State) {
    n.task.Idle? && LT.FdIs(task, s.polled, s.fd, n.polled, n.fd)
  }

  lemma FdStepsDo(s: State, heap: Heap, priorTop: Option<Timer>)
    requires s.task == UpdateSoonestTime(heap, priorTop)
    ensures var n := FdStepsOrNone(s);
            FdDone(UpdateSoonestTime(heap, priorTop), s, n) && n == s.(task := Idle, polled := n.polled, fd := n.fd)
  {
  }

  function FdStepsOrNone(s: State): State { if s.task.Idle? then s else FdSteps(s) }

  // What ProcPush promises.
  lemma PushIsTaskSteps(s: State, t: Timer)
    requires s.task.Idle? && s.queue != [] && s.queue[0] == PushMsg(t)
    ensures var n := FdStepsOrNone(TaskStep(s));
            n.heap == HT.Push(OutRanks, s.heap, t) && n.queue == s.queue[1..] &&
            FdDone(UpdateSoonestTime(n.heap, Top(s.heap)), s, n)
  {
    FdStepsDo(TaskStep(s), HT.Push(OutRanks, s.heap, t), Top(s.heap));
  }

  // What ProcRemove promises.
  lemma RemoveIsTaskSteps(s: State, t: Timer)
    requires s.task.Idle? && s.queue != [] && s.queue[0] == RemoveMsg(t)
    ensures var n, r := FdStepsOrNone(TaskStep(s)), HT.Remove(OutRanks, s.heap, t);
            n.heap == (if r.Some? then r.value else s.heap) && n.queue == s.queue[1..] &&
            FdDone(if Top(s.heap) == (if r.Some? then Some(t) else None)
                   then UpdateSoonestTime(n.heap, None) else Idle, s, n)
  {
    var m := TaskStep(s);
    if m.task != Idle { FdStepsDo(m, m.heap, None); }
  }

  // ---------- The poll thread ----------

  // Its steps from being woken on, with nobody else acting.
  function PollAlone(s: State): State { PollStep(PollStep(PollStep(PollStep(s)))) }

  // What Expire promises.
  lemma PollIsSteps(s: State)
    requires s.poll.Waiting?
    ensures PollAlone(s) == s.(fd := Disarmed, polled := false, queue := s.queue + [ExpireMsg])
  {
  }

  lemma PollKeepsInv(s: State)
    requires Inv(s) && s.poll.Waiting? && Enabled(s, PollThread)
    ensures Inv(PollAlone(s))
  {
    StepKeepsInv(s, PollThread);
    var s1 := PollStep(s);
    StepKeepsInv(s1, PollThread);
    var s2 := PollStep(s1);
    StepKeepsInv(s2, PollThread);
    StepKeepsInv(PollStep(s2), PollThread);
  }

  // ---------- The expire pass ----------

  // How many more steps the message task takes in a pass, at most.
  ghost function StepsLeft(s: State): nat {
    3 * HT.Count(s.heap) +
    if s.task.CallingBack? then 1 else if s.task.Expiring? && s.task.popped.Some? then 2 else 0
  }

  lemma StepsGetFewer(s: State)
    requires InPass(s.task) && InPass(TaskStep(s).task)
    ensures StepsLeft(TaskStep(s)) < StepsLeft(s)
  {
    if s.heap.Node? { HT.PopCounts(OutRanks, s.heap); }
  }

  // The message task alone, from within a pass to its end.
  ghost function PassAlone(s: State): State
    requires InPass(s.task)
    decreases StepsLeft(s)
  {
    var n := TaskStep(s);
    if InPass(n.task) then StepsGetFewer(s); PassAlone(n) else FdStepsOrNone(n)
  }

  // What is yet to expire.
  ghost function Work(s: State): seq<Timer>
    requires InPass(s.task)
  {
    var due := PopDue(s.heap, s.task.since).0;
    if s.task.Expiring? && s.task.popped.Some? then [s.task.popped.value] + due else due
  }

  // Those of work that have a client, once done has expired.
  ghost function Answers(clients: set<Timer>, done: seq<Timer>, work: seq<Timer>): seq<Timer>
    decreases work
  {
    if work == [] then [] else
    (if work[0] in clients && work[0] !in done then [work[0]] else []) +
    Answers(clients, done + [work[0]], work[1..])
  }

  lemma {:induction false} AnswersAre(clients: set<Timer>, done: seq<Timer>, work: seq<Timer>)
    ensures LT.Answered(clients, done + work) == LT.Answered(clients, done) + Answers(clients, done, work)
    decreases work
  {
    if work == [] {
      assert done + work == done;
    } else {
      LT.AnsweredNext(clients, done, work[0]);
      AnswersAre(clients, done + [work[0]], work[1..]);
      assert (done + [work[0]]) + work[1..] == done + work;
    }
  }

  ghost function Ids(ts: seq<Timer>): seq<nat> { seq(|ts|, i requires 0 <= i < |ts| => ts[i].id) }

  ghost predicate ClientsAre(s: State, clients: set<Timer>, done: seq<Timer>, work: seq<Timer>) {
    forall t :: t in work ==> Known(s.timers, t) && (t.id in s.linked <==> t in clients && t !in done)
  }

  // What is left to do from s on: these callbacks, with their remove messages, and this heap.
  ghost predicate Does(s: State, n: State, calls: seq<Timer>)
    requires InPass(s.task)
  {
    var pending := if s.task.CallingBack? then [s.task.t.id] else [];
    n.heap == PopDue(s.heap, s.task.since).1 && FdDone(UpdateSoonestTime(n.heap, None), s, n) &&
    n.queue == s.queue + LT.Removes(calls) && n.called == s.called + pending + Ids(calls)
  }

  lemma ExpireStep(s: State, clients: set<Timer>, done: seq<Timer>)
    requires Inv(s) && s.task.Expiring? && s.task.popped.Some?
    requires ClientsAre(s, clients, done, Work(s))
    ensures var n, t := TaskStep(s), s.task.popped.value;
            InPass(n.task) && n.task.since == s.task.since && Work(n) == Work(s)[1..] &&
            ClientsAre(n, clients, done + [t], Work(n)) && n.heap == s.heap && n.called == s.called &&
            (n.polled, n.fd) == (s.polled, s.fd) &&
            if t in clients && t !in done then n.task.CallingBack? && n.task.t == t && n.queue == s.queue + [RemoveMsg(t)]
            else n.task.Expiring? && n.queue == s.queue
  {
    var t := s.task.popped.value;
    assert Work(s)[0] == t && Work(s)[1..] == PopDue(s.heap, s.task.since).0;
    forall u | u in PopDue(s.heap, s.task.since).0 ensures u in Work(s) { }
  }

  // A callback made, and then the rest.
  lemma AfterCallback(s: State, e: State, calls: seq<Timer>)
    requires s.task.CallingBack? && Does(TaskStep(s), e, calls)
    ensures Does(s, e, calls)
  {
    assert s.called + [s.task.t.id] + [] == s.called + [s.task.t.id];
  }

  // A delegate's expire(), and then the rest.
  lemma AfterExpire(s: State, e: State, call: bool, calls: seq<Timer>)
    requires s.task.Expiring? && s.task.popped.Some? && InPass(TaskStep(s).task) && Does(TaskStep(s), e, calls)
    requires var n, t := TaskStep(s), s.task.popped.value;
             n.task.since == s.task.since && n.heap == s.heap && n.called == s.called &&
             (n.polled, n.fd) == (s.polled, s.fd) &&
             if call then n.task.CallingBack? && n.task.t == t && n.queue == s.queue + [RemoveMsg(t)]
             else n.task.Expiring? && n.queue == s.queue
    ensures Does(s, e, (if call then [s.task.popped.value] else []) + calls)
  {
    var t := s.task.popped.value;
    assert LT.Removes([t] + calls) == [RemoveMsg(t)] + LT.Removes(calls);
    assert Ids([t] + calls) == [t.id] + Ids(calls);
    assert [] + calls == calls && s.called + [] == s.called;
    assert (s.queue + [RemoveMsg(t)]) + LT.Removes(calls) == s.queue + ([RemoveMsg(t)] + LT.Removes(calls));
    assert (s.called + [t.id]) + Ids(calls) == s.called + ([t.id] + Ids(calls));
  }

  // A further pop, and then the rest.
  lemma AfterPop(s: State, e: State, calls: seq<Timer>)
    requires s.task.Expiring? && s.task.popped.None? && InPass(TaskStep(s).task) && Does(TaskStep(s), e, calls)
    ensures Does(s, e, calls)
  {
    assert PopDue(s.heap, s.task.since).1 == PopDue(TaskStep(s).heap, s.task.since).1;
  }

  lemma PopKeepsWork(s: State, clients: set<Timer>, done: seq<Timer>)
    requires s.task.Expiring? && s.task.popped.None? && InPass(TaskStep(s).task)
    requires ClientsAre(s, clients, done, Work(s))
    ensures Work(TaskStep(s)) == Work(s) && ClientsAre(TaskStep(s), clients, done, Work(s))
  {
  }

  lemma CallbackKeepsWork(s: State, clients: set<Timer>, done: seq<Timer>)
    requires s.task.CallingBack? && ClientsAre(s, clients, done, Work(s))
    ensures InPass(TaskStep(s).task) && Work(TaskStep(s)) == Work(s) && ClientsAre(TaskStep(s), clients, done, Work(s))
  {
  }

  // The end of the pass.
  lemma AtEnd(s: State)
    requires s.task.Expiring? && s.task.popped.None? && !InPass(TaskStep(s).task)
    ensures Work(s) == [] && Does(s, FdStepsOrNone(TaskStep(s)), [])
  {
    FdStepsDo(TaskStep(s), s.heap, None);
    assert s.queue + LT.Removes([]) == s.queue && s.called + [] + Ids([]) == s.called;
  }

  lemma {:induction false} PassAloneDoes(s: State, clients: set<Timer>, done: seq<Timer>)
    requires Inv(s) && InPass(s.task) && ClientsAre(s, clients, done, Work(s))
    ensures Does(s, PassAlone(s), Answers(clients, done, Work(s)))
    decreases StepsLeft(s)
  {
    var n := TaskStep(s);
    StepKeepsInv(s, MessageTask);
    if s.task.CallingBack? {
      CallbackKeepsWork(s, clients, done);
      StepsGetFewer(s);
      PassAloneDoes(n, clients, done);
      AfterCallback(s, PassAlone(n), Answers(clients, done, Work(s)));
    } else if s.task.popped.Some? {
      var t := s.task.popped.value;
      ExpireStep(s, clients, done);
      StepsGetFewer(s);
      PassAloneDoes(n, clients, done + [t]);
      AfterExpire(s, PassAlone(n), t in clients && t !in done, Answers(clients, done + [t], Work(n)));
    } else if InPass(n.task) {
      PopKeepsWork(s, clients, done);
      StepsGetFewer(s);
      PassAloneDoes(n, clients, done);
      AfterPop(s, PassAlone(n), Answers(clients, done, Work(s)));
    } else {
      AtEnd(s);
    }
  }

  lemma {:induction false} DueIsKnown(timers: seq<Timer>, heap: Heap, since: Timespec)
    requires HeapKnown(timers, heap)
    ensures forall t :: t in PopDue(heap, since).0 ==> Known(timers, t)
    decreases HT.Count(heap)
  {
    if heap.Node? {
      HT.PopCounts(OutRanks, heap);
      LT.PopHolds(heap);
      DueIsKnown(timers, HT.Pop(OutRanks, heap), since);
    }
  }

  ghost function HandleAlone(s: State): State
    requires StartsPass(s)
  {
    var p := TaskStep(s); if InPass(p.task) then PassAlone(p) else FdStepsOrNone(p)
  }

  // The timers of the pass that have a client when it begins.
  ghost function HaveClient(s: State): set<Timer> {
    set t | t in Pass(s.heap, s.now).0 && t.id in s.linked
  }

  // What ProcExpire promises: the timers of the pass expire in order, those with a client are called
  // back and get their remove message, and the fd is set for the heap that is left.
  lemma PassIsTaskSteps(s: State)
    requires StartsPass(s)
    ensures var n, (expired, left) := HandleAlone(s), Pass(s.heap, s.now);
            var called := LT.Answered(HaveClient(s), expired);
            n.heap == left && FdDone(UpdateSoonestTime(left, None), s, n) &&
            n.queue == s.queue[1..] + LT.Removes(called) && n.called == s.called + Ids(called)
  {
    var p := TaskStep(s);
    if s.heap.Node? {
      StepKeepsInv(s, MessageTask);
      FirstPopWork(s);
      PassAloneDoes(p, HaveClient(s), []);
      AnswersAre(HaveClient(s), [], Work(p));
      assert [] + Work(p) == Work(p) && LT.Answered(HaveClient(s), []) + Answers(HaveClient(s), [], Work(p)) == Answers(HaveClient(s), [], Work(p));
      assert s.called + [] == s.called;
    } else {
      FdStepsDo(p, s.heap, None);
      assert s.queue[1..] + LT.Removes([]) == s.queue[1..] && s.called + Ids([]) == s.called;
    }
  }

  lemma FirstPopWork(s: State)
    requires StartsPass(s) && s.heap.Node?
    ensures var p := TaskStep(s);
            p.task == Expiring(s.now, Some(s.heap.data), true) && p.heap == HT.Pop(OutRanks, s.heap) &&
            Work(p) == Pass(s.heap, s.now).0 && ClientsAre(p, HaveClient(s), [], Work(p)) &&
            (p.polled, p.fd, p.called, p.queue) == (s.polled, s.fd, s.called, s.queue[1..])
  {
    var p := TaskStep(s);
    LT.PopHolds(s.heap);
    DueIsKnown(s.timers, HT.Pop(OutRanks, s.heap), s.now);
    assert p.linked == s.linked && p.timers == s.timers;
  }
}
