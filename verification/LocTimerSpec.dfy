/**
 The timer service of gps/utils/LocTimer.cpp as interleaved atomic steps: clients that start and stop
 timers under their lock, the message task that owns the heap and handles its queue in order, and the
 poll thread that waits on the timerfd. One container with its fd is modelled.

 A step of the message task or of the poll thread is one system call, one heap operation or one
 message sent; expire() of a delegate reads its client and stops it in one step.
 */
module LocTimerSpec {
  import opened Wrappers
  import opened TimerOrder
  import opened Counting
  import HT = HeapTree

  type Heap = HT.Tree<Timer>

  datatype Msg = PushMsg(t: Timer) | RemoveMsg(t: Timer) | ExpireMsg

  datatype Fd = Disarmed | Armed(at: Timespec)

  datatype MsgTask =
    | Idle
    | AddPoll(t: Timer) | SetTime(t: Timer)       // updateSoonestTime has a new top to set
    | RemovePoll | Disarm                         // updateSoonestTime found the heap empty
    | Expiring(since: Timespec, popped: Option<Timer>, first: bool)  // first: popped unguarded
    | CallingBack(since: Timespec, client: nat, t: Timer, first: bool)

  datatype PollTask = Waiting | Woken | HasDisarmed | HasRemovedPoll

  // timers: every delegate ever created, by its id. running: the mTimer of each client that has one.
  // linked: the mClient of each delegate that has one. The last four fields are the history.
  datatype State = State(now: Timespec, heap: Heap, queue: seq<Msg>, fd: Fd, polled: bool,
                         task: MsgTask, poll: PollTask,
                         timers: seq<Timer>, running: map<nat, Timer>, linked: map<nat, nat>,
                         pushed: seq<nat>, deleted: seq<nat>, called: seq<nat>, stopped: seq<nat>)

  function Initial(now: Timespec): State {
    State(now, HT.Leaf, [], Disarmed, false, Idle, Waiting, [], map[], map[], [], [], [], [])
  }

  predicate ClockInRange(t: Timespec) { Normal(t) && t != ZERO && t.sec < LATEST_START }

  // ---------- Clients ----------

  function Start(s: State, c: nat, timeOutInMs: nat): State
    requires ClockInRange(s.now) && timeOutInMs < TWO_32
  {
    if c in s.running then s else
    FutureTimeIsExact(s.now, timeOutInMs);
    var t: Timer := Delegate(|s.timers|, FutureTime(s.now, timeOutInMs));
    s.(timers := s.timers + [t], running := s.running[c := t], linked := s.linked[t.id := c],
       queue := s.queue + [PushMsg(t)])
  }

  // LocTimer::stop of a client that has a timer, down to the remove message.
  function Unlink(s: State, c: nat): State
    requires c in s.running
  {
    var t := s.running[c];
    s.(running := s.running - {c}, linked := s.linked - {t.id}, queue := s.queue + [RemoveMsg(t)])
  }

  function Stop(s: State, c: nat): State {
    if c in s.running then Unlink(s, c).(stopped := s.stopped + [s.running[c].id]) else s
  }

  // ---------- The poll thread ----------

  predicate Fired(s: State) { s.fd.Armed? && !Earlier(s.now, s.fd.at) }

  function PollStep(s: State): State {
    match s.poll
    case Waiting => s.(poll := Woken)
    case Woken => s.(fd := Disarmed, poll := HasDisarmed)
    case HasDisarmed => s.(polled := false, poll := HasRemovedPoll)
    case HasRemovedPoll => s.(queue := s.queue + [ExpireMsg], poll := Waiting)
  }

  // ---------- The message task ----------

  function Top(heap: Heap): Option<Timer> { if heap.Leaf? then None else Some(heap.data) }

  // What updateSoonestTime has to do once the heap is as it is now.
  function UpdateSoonestTime(heap: Heap, priorTop: Option<Timer>): MsgTask {
    var curTop := Top(heap);
    if curTop == priorTop then Idle
    else if curTop == None then RemovePoll
    else if priorTop == None || OutRanks(curTop.value, priorTop.value) then AddPoll(curTop.value)
    else Idle
  }

  function SetFd(t: Timespec): Fd { if t == ZERO then Disarmed else Armed(t) }

  function HandlePush(s: State, t: Timer): State {
    var heap := HT.Push(OutRanks, s.heap, t);
    s.(heap := heap, pushed := s.pushed + [t.id], task := UpdateSoonestTime(heap, Top(s.heap)))
  }

  function HandleRemove(s: State, t: Timer): State {
    var r := HT.Remove(OutRanks, s.heap, t);
    var heap := if r.Some? then r.value else s.heap;
    var removed := if r.Some? then Some(t) else None;
    s.(heap := heap, deleted := s.deleted + [t.id],
       task := if Top(s.heap) == removed then UpdateSoonestTime(heap, None) else Idle)
  }

  // The end of the pass, and popping the next timer in it.
  function EndPass(s: State): State { s.(task := UpdateSoonestTime(s.heap, None)) }

  function PopInto(s: State, since: Timespec, first: bool): State
    requires s.heap.Node?
  {
    s.(heap := HT.Pop(OutRanks, s.heap), task := Expiring(since, Some(s.heap.data), first))
  }

  // The first pop of a pass is not guarded by the time.
  function HandleExpire(s: State): State {
    if s.heap.Node? then PopInto(s, s.now, true) else EndPass(s)
  }

  function PopIfOutRanks(s: State, since: Timespec): State {
    if s.heap.Node? && !(Ranks(since, s.heap.data.time) > 0) then PopInto(s, since, false) else EndPass(s)
  }

  // LocTimerDelegate::expire
  function ExpireDelegate(s: State, since: Timespec, t: Timer, first: bool): State {
    if t.id in s.linked && s.linked[t.id] in s.running then
      Unlink(s, s.linked[t.id]).(task := CallingBack(since, s.linked[t.id], t, first))
    else s.(task := Expiring(since, None, false))
  }

  function TaskStep(s: State): State
    requires s.task.Idle? ==> s.queue != []
  {
    match s.task
    case Idle =>
      var taken := s.(queue := s.queue[1..]);
      (match s.queue[0]
       case PushMsg(t) => HandlePush(taken, t)
       case RemoveMsg(t) => HandleRemove(taken, t)
       case ExpireMsg => HandleExpire(taken))
    case AddPoll(t) => s.(polled := true, task := SetTime(t))
    case SetTime(t) => s.(fd := SetFd(t.time), task := Idle)
    case RemovePoll => s.(polled := false, task := Disarm)
    case Disarm => s.(fd := Disarmed, task := Idle)
    case Expiring(since, popped, first) =>
      if popped.Some? then ExpireDelegate(s, since, popped.value, first) else PopIfOutRanks(s, since)
    case CallingBack(since, _, t, _) => s.(called := s.called + [t.id], task := Expiring(since, None, false))
  }

  // ---------- Runs ----------

  datatype Action = Tick(t: Timespec) | StartBy(c: nat, timeOutInMs: nat) | StopBy(c: nat) | PollThread | MessageTask

  predicate Enabled(s: State, a: Action) {
    match a
    case Tick(t) => ClockInRange(t) && !Earlier(t, s.now)
    case StartBy(_, ms) => ClockInRange(s.now) && ms < TWO_32
    case StopBy(_) => true
    case PollThread => s.poll.Waiting? ==> s.polled && Fired(s)
    case MessageTask => s.task.Idle? ==> s.queue != []
  }

  function Step(s: State, a: Action): State
    requires Enabled(s, a)
  {
    match a
    case Tick(t) => s.(now := t)
    case StartBy(c, ms) => Start(s, c, ms)
    case StopBy(c) => Stop(s, c)
    case PollThread => PollStep(s)
    case MessageTask => TaskStep(s)
  }

  function Run(init: State, actions: seq<Action>): State {
    if actions == [] then init else
    var s, a := Run(init, actions[..|actions| - 1]), actions[|actions| - 1];
    if Enabled(s, a) then Step(s, a) else s
  }

  // ---------- The fd follows the heap ----------

  predicate InPass(task: MsgTask) { task.Expiring? || task.CallingBack? }

  // An expiry that the poll thread or the message task has not finished with.
  predicate ExpiryInFlight(s: State) {
    !s.poll.Waiting? || ExpireMsg in s.queue || InPass(s.task)
  }

  // The fd is polled and armed at the time of t, or the message task is about to do that.
  predicate ArmedFor(s: State, t: Timer) {
    match s.task
    case Idle => s.polled && s.fd == Armed(t.time)
    case AddPoll(u) => u == t
    case SetTime(u) => u == t && s.polled
    case _ => false
  }

  ghost predicate FdInv(s: State) {
    (s.heap.Node? ==> ExpiryInFlight(s) || ArmedFor(s, s.heap.data)) &&
    !s.task.RemovePoll? && !s.task.Disarm? &&
    (s.task.AddPoll? || s.task.SetTime? ==> s.heap.Node? && s.task.t == s.heap.data)
  }

  lemma PushKeepsFd(s: State, t: Timer)
    requires FdInv(s) && s.task.Idle? && s.queue != [] && s.queue[0] == PushMsg(t)
    ensures FdInv(HandlePush(s.(queue := s.queue[1..]), t))
  {
    TimersRankConsistently();
  }

  lemma RemoveKeepsFd(s: State, t: Timer)
    requires FdInv(s) && s.task.Idle? && s.queue != [] && s.queue[0] == RemoveMsg(t)
    ensures FdInv(HandleRemove(s.(queue := s.queue[1..]), t))
  {
  }

  lemma StepKeepsFd(s: State, a: Action)
    requires FdInv(s) && Enabled(s, a)
    ensures FdInv(Step(s, a))
  {
    if a.MessageTask? && s.task.Idle? {
      if s.queue[0].PushMsg? { PushKeepsFd(s, s.queue[0].t); }
      if s.queue[0].RemoveMsg? { RemoveKeepsFd(s, s.queue[0].t); }
    }
  }

  // ---------- The life of a delegate ----------

  ghost predicate Known(timers: seq<Timer>, t: Timer) { t.id < |timers| && timers[t.id] == t }

  // Everything in the system is a delegate that was created.
  ghost predicate Numbered(timers: seq<Timer>) { forall i :: 0 <= i < |timers| ==> timers[i].id == i }

  ghost predicate QueueKnown(timers: seq<Timer>, queue: seq<Msg>) {
    forall m :: m in queue && !m.ExpireMsg? ==> Known(timers, m.t)
  }

  ghost predicate HeapKnown(timers: seq<Timer>, heap: Heap) {
    forall t: Timer :: HT.Holds(heap, t) ==> Known(timers, t)
  }

  ghost predicate TaskKnown(timers: seq<Timer>, task: MsgTask) {
    (task.Expiring? && task.popped.Some? ==> Known(timers, task.popped.value)) &&
    (task.CallingBack? ==> Known(timers, task.t))
  }

  ghost predicate IdsKnown(timers: seq<Timer>, ids: seq<nat>) { forall id :: id in ids ==> id < |timers| }

  ghost predicate KnownInv(s: State) {
    Numbered(s.timers) && QueueKnown(s.timers, s.queue) && HeapKnown(s.timers, s.heap) &&
    TaskKnown(s.timers, s.task) && IdsKnown(s.timers, s.pushed) && IdsKnown(s.timers, s.deleted) &&
    IdsKnown(s.timers, s.called) && IdsKnown(s.timers, s.stopped)
  }

  // A client's mTimer and a delegate's mClient point at each other.
  ghost predicate Linked(timers: seq<Timer>, running: map<nat, Timer>, linked: map<nat, nat>) {
    (forall c :: c in running ==>
       Known(timers, running[c]) && running[c].id in linked && linked[running[c].id] == c) &&
    (forall id :: id in linked ==> linked[id] in running && running[linked[id]].id == id)
  }

  ghost predicate LinkInv(s: State) { Linked(s.timers, s.running, s.linked) }

  // A delegate's push message is ahead of its remove message.
  ghost predicate Fifo(queue: seq<Msg>) {
    forall i, j :: 0 <= i < j < |queue| && queue[i].RemoveMsg? && queue[j].PushMsg? ==> queue[i].t != queue[j].t
  }

  ghost predicate OrderInv(s: State) { HT.HeapOrdered(OutRanks, s.heap) }

  // Nothing goes on before the first start, and from then on the clock is in range. A pass has a "now"
  // that can be ranked and is past, and what it popped after its first timer was due then.
  ghost predicate PassInv(s: State) {
    (s.queue != [] || s.polled || !s.poll.Waiting? || !s.task.Idle? ==> s.timers != []) &&
    (s.timers != [] ==> ClockInRange(s.now)) &&
    (InPass(s.task) ==> Usable(s.task.since) && !Earlier(s.now, s.task.since)) &&
    (s.task.Expiring? && s.task.popped.Some? && !s.task.first ==>
       !Earlier(s.task.since, s.task.popped.value.time)) &&
    (s.task.CallingBack? && !s.task.first ==> !Earlier(s.task.since, s.task.t.time))
  }

  ghost predicate Inv(s: State) {
    FdInv(s) && KnownInv(s) && LinkInv(s) && Fifo(s.queue) && OrderInv(s) && PassInv(s)
  }

  lemma PopKeepsPass(s: State)
    requires PassInv(s) && s.task.Expiring? && s.task.popped.None?
    ensures PassInv(PopIfOutRanks(s, s.task.since))
  {
    if s.heap.Node? { RanksIsOrder(s.task.since, s.heap.data.time); }
  }

  lemma HandleKeepsPass(s: State)
    requires PassInv(s) && s.task.Idle? && s.queue != []
    ensures PassInv(TaskStep(s))
  {
  }

  lemma TaskKeepsPass(s: State)
    requires PassInv(s) && Enabled(s, MessageTask)
    ensures PassInv(TaskStep(s))
  {
    match s.task
    case Idle => HandleKeepsPass(s);
    case Expiring(_, popped, _) => if popped.None? { PopKeepsPass(s); }
    case _ =>
  }

  lemma StepKeepsPass(s: State, a: Action)
    requires PassInv(s) && LinkInv(s) && Enabled(s, a)
    ensures PassInv(Step(s, a))
  {
    if a.MessageTask? { TaskKeepsPass(s); }
  }

  lemma StepKeepsOrder(s: State, a: Action)
    requires OrderInv(s) && Enabled(s, a)
    ensures OrderInv(Step(s, a))
  {
    TimersRankConsistently();
    if a.MessageTask? {
      if s.heap.Node? { HT.PopOrders(OutRanks, s.heap); }
      if s.task.Idle? && s.queue[0].PushMsg? { HT.PushOrders(OutRanks, s.heap, s.queue[0].t); }
      if s.task.Idle? && s.queue[0].RemoveMsg? && HT.Remove(OutRanks, s.heap, s.queue[0].t).Some? {
        HT.RemoveOrders(OutRanks, s.heap, s.queue[0].t);
      }
    }
  }

  lemma AppendKeepsFifo(queue: seq<Msg>, m: Msg)
    requires Fifo(queue) && (m.PushMsg? ==> RemoveMsg(m.t) !in queue)
    ensures Fifo(queue + [m])
  {
    forall i | 0 <= i < |queue| && queue[i].RemoveMsg? && m.PushMsg? ensures queue[i].t != m.t {
      assert queue[i] in queue;
    }
  }

  lemma StepKeepsFifo(s: State, a: Action)
    requires Fifo(s.queue) && KnownInv(s) && Enabled(s, a)
    ensures Fifo(Step(s, a).queue)
  {
    match a
    case Tick(_) =>
    case StartBy(c, ms) =>
      if c !in s.running { AppendKeepsFifo(s.queue, PushMsg(Step(s, a).running[c])); }
    case StopBy(c) => if c in s.running { AppendKeepsFifo(s.queue, RemoveMsg(s.running[c])); }
    case PollThread => AppendKeepsFifo(s.queue, ExpireMsg);
    case MessageTask =>
      match s.task
      case Expiring(since, popped, _) =>
        if popped.Some? && popped.value.id in s.linked && s.linked[popped.value.id] in s.running {
          AppendKeepsFifo(s.queue, RemoveMsg(s.running[s.linked[popped.value.id]]));
        }
      case _ =>
  }

  lemma StartKeepsLinks(s: State, c: nat, ms: nat)
    requires LinkInv(s) && ClockInRange(s.now) && ms < TWO_32
    ensures LinkInv(Start(s, c, ms))
  {
    forall id | id in s.linked ensures id < |s.timers| { assert s.linked[id] in s.running; }
  }

  lemma UnlinkKeepsLinks(s: State, c: nat)
    requires LinkInv(s) && c in s.running
    ensures LinkInv(Unlink(s, c))
  {
    var n, t := Unlink(s, c), s.running[c];
    forall d | d in n.running ensures n.running[d].id in n.linked { assert d in s.running; }
    forall id | id in n.linked ensures n.linked[id] in n.running { assert id in s.linked && s.linked[id] != c; }
  }

  lemma StepKeepsLinks(s: State, a: Action)
    requires LinkInv(s) && Enabled(s, a)
    ensures LinkInv(Step(s, a))
  {
    match a
    case StartBy(c, ms) => StartKeepsLinks(s, c, ms);
    case StopBy(c) => if c in s.running { UnlinkKeepsLinks(s, c); }
    case MessageTask =>
      if s.task.Expiring? && s.task.popped.Some? {
        var id := s.task.popped.value.id;
        if id in s.linked { UnlinkKeepsLinks(s, s.linked[id]); }
      }
    case _ =>
  }

  // ---------- Nothing unknown ----------

  lemma StartKeepsKnown(s: State, c: nat, ms: nat)
    requires KnownInv(s) && ClockInRange(s.now) && ms < TWO_32
    ensures KnownInv(Start(s, c, ms))
  {
  }

  lemma UnlinkKeepsKnown(s: State, c: nat)
    requires KnownInv(s) && LinkInv(s) && c in s.running
    ensures KnownInv(Unlink(s, c))
  {
  }

  lemma TailKnown(timers: seq<Timer>, queue: seq<Msg>)
    requires QueueKnown(timers, queue) && queue != []
    ensures QueueKnown(timers, queue[1..]) && (!queue[0].ExpireMsg? ==> Known(timers, queue[0].t))
  {
    assert forall m :: m in queue[1..] ==> m in queue;
  }

  lemma PushKeepsKnown(s: State, t: Timer)
    requires KnownInv(s) && Known(s.timers, t)
    ensures KnownInv(HandlePush(s, t))
  {
    forall y: Timer ensures HT.Holds(HandlePush(s, t).heap, y) ==> Known(s.timers, y) {
      HT.PushConserves(OutRanks, s.heap, t, y);
    }
  }

  lemma RemoveKeepsKnown(s: State, t: Timer)
    requires KnownInv(s) && Known(s.timers, t)
    ensures KnownInv(HandleRemove(s, t))
  {
    forall y: Timer ensures HT.Holds(HandleRemove(s, t).heap, y) ==> Known(s.timers, y) {
      if HT.Remove(OutRanks, s.heap, t).Some? { HT.RemoveConserves(OutRanks, s.heap, t, y); }
    }
  }

  lemma PopKeepsKnown(s: State, since: Timespec, first: bool)
    requires KnownInv(s) && s.heap.Node?
    ensures KnownInv(PopInto(s, since, first))
  {
    assert HT.Holds(s.heap, s.heap.data);
    forall y: Timer ensures HT.Holds(HT.Pop(OutRanks, s.heap), y) ==> Known(s.timers, y) {
      HT.PopConserves(OutRanks, s.heap, y);
    }
  }

  lemma HandleKeepsKnown(s: State)
    requires KnownInv(s) && s.task.Idle? && s.queue != []
    ensures KnownInv(TaskStep(s))
  {
    TailKnown(s.timers, s.queue);
    var taken := s.(queue := s.queue[1..]);
    match s.queue[0]
    case PushMsg(t) => PushKeepsKnown(taken, t);
    case RemoveMsg(t) => RemoveKeepsKnown(taken, t);
    case ExpireMsg => if s.heap.Node? { PopKeepsKnown(taken, s.now, true); }
  }

  lemma ExpiringKeepsKnown(s: State)
    requires KnownInv(s) && LinkInv(s) && s.task.Expiring?
    ensures KnownInv(TaskStep(s))
  {
    var popped := s.task.popped;
    if popped.None? {
      if s.heap.Node? { PopKeepsKnown(s, s.task.since, false); }
    } else if popped.value.id in s.linked {
      UnlinkKeepsKnown(s, s.linked[popped.value.id]);
    }
  }

  lemma StopKeepsKnown(s: State, c: nat)
    requires KnownInv(s) && LinkInv(s)
    ensures KnownInv(Stop(s, c))
  {
    if c in s.running {
      UnlinkKeepsKnown(s, c);
      assert Known(s.timers, s.running[c]);
    }
  }

  lemma CallBackKeepsKnown(s: State)
    requires KnownInv(s) && s.task.CallingBack?
    ensures KnownInv(TaskStep(s))
  {
  }

  lemma TaskKeepsKnown(s: State)
    requires KnownInv(s) && LinkInv(s) && Enabled(s, MessageTask)
    ensures KnownInv(TaskStep(s))
  {
    match s.task
    case Idle => HandleKeepsKnown(s);
    case Expiring(_, _, _) => ExpiringKeepsKnown(s);
    case CallingBack(_, _, _, _) => CallBackKeepsKnown(s);
    case _ =>
  }

  lemma PollKeepsKnown(s: State)
    requires KnownInv(s)
    ensures KnownInv(PollStep(s))
  {
  }

  lemma StepKeepsKnown(s: State, a: Action)
    requires KnownInv(s) && LinkInv(s) && Enabled(s, a)
    ensures KnownInv(Step(s, a))
  {
    match a
    case Tick(_) =>
    case StartBy(c, ms) => StartKeepsKnown(s, c, ms);
    case StopBy(c) => StopKeepsKnown(s, c);
    case PollThread => PollKeepsKnown(s);
    case MessageTask => TaskKeepsKnown(s);
  }

  // ---------- Each delegate's account ----------

  ghost function Live(s: State, t: Timer): nat { if t.id in s.linked then 1 else 0 }

  ghost function InHand(task: MsgTask, t: Timer): nat {
    if task.Expiring? && task.popped == Some(t) then 1 else 0
  }

  ghost function BeingCalled(task: MsgTask, t: Timer): nat {
    if task.CallingBack? && task.t == t then 1 else 0
  }

  // The places in which the service keeps a delegate: its push message, the heap, the expire pass.
  ghost function Places(s: State, t: Timer): nat {
    Count(s.queue, PushMsg(t)) + HT.Times(s.heap, t) + InHand(s.task, t)
  }

  // It is pushed once.
  ghost predicate PushedOnce(s: State, t: Timer) {
    Count(s.queue, PushMsg(t)) + Count(s.pushed, t.id) == 1
  }

  // While it has a client it has no remove message; then it has one, which deletes it.
  ghost predicate DeletedOnce(s: State, t: Timer) {
    Count(s.queue, RemoveMsg(t)) + Count(s.deleted, t.id) + Live(s, t) == 1
  }

  // While it has a client it is in exactly one place, and once deleted in none.
  ghost predicate Kept(s: State, t: Timer) {
    Places(s, t) <= 1 && (Live(s, t) == 1 ==> Places(s, t) == 1) &&
    (Count(s.deleted, t.id) > 0 ==> Places(s, t) == 0)
  }

  // It has a client, or is about to be called back, or was called back once, or was stopped once.
  ghost predicate AnsweredOnce(s: State, t: Timer) {
    Live(s, t) + BeingCalled(s.task, t) + Count(s.called, t.id) + Count(s.stopped, t.id) == 1
  }

  ghost predicate AccountInv(s: State, t: Timer) {
    PushedOnce(s, t) && DeletedOnce(s, t) && Kept(s, t) && AnsweredOnce(s, t)
  }

  ghost predicate AllAccounts(s: State) { forall t: Timer :: Known(s.timers, t) ==> AccountInv(s, t) }

  lemma NewTimerAccount(s: State, t: Timer)
    requires KnownInv(s) && LinkInv(s) && t.id == |s.timers|
    ensures Count(s.queue, PushMsg(t)) == Count(s.queue, RemoveMsg(t)) == 0
    ensures Places(s, t) == 0 && Live(s, t) == 0 && BeingCalled(s.task, t) == 0
    ensures Count(s.pushed, t.id) == Count(s.deleted, t.id) == Count(s.called, t.id) == Count(s.stopped, t.id) == 0
  {
    CountIn(s.queue, PushMsg(t));
    CountIn(s.queue, RemoveMsg(t));
    CountIn(s.pushed, t.id);
    CountIn(s.deleted, t.id);
    CountIn(s.called, t.id);
    CountIn(s.stopped, t.id);
    assert !Known(s.timers, t);
    forall id | id in s.linked ensures id < |s.timers| { assert s.linked[id] in s.running; }
  }

  lemma StartKeepsAccount(s: State, c: nat, ms: nat, t: Timer)
    requires KnownInv(s) && LinkInv(s) && ClockInRange(s.now) && ms < TWO_32
    requires Known(s.timers, t) ==> AccountInv(s, t)
    requires Known(Start(s, c, ms).timers, t)
    ensures AccountInv(Start(s, c, ms), t)
  {
    if c !in s.running {
      var n := Start(s, c, ms);
      var u := n.running[c];
      AppendCounts(s.queue, PushMsg(u), t);
      if t.id == |s.timers| { NewTimerAccount(s, t); }
      assert t == u || (Known(s.timers, t) && t.id != u.id);
    }
  }

  lemma AppendCounts(queue: seq<Msg>, m: Msg, t: Timer)
    ensures Count(queue + [m], PushMsg(t)) == Count(queue, PushMsg(t)) + if m == PushMsg(t) then 1 else 0
    ensures Count(queue + [m], RemoveMsg(t)) == Count(queue, RemoveMsg(t)) + if m == RemoveMsg(t) then 1 else 0
  {
    CountAppend(queue, m, PushMsg(t));
    CountAppend(queue, m, RemoveMsg(t));
  }

  lemma TakeCounts(queue: seq<Msg>, t: Timer)
    requires queue != []
    ensures Count(queue, PushMsg(t)) == Count(queue[1..], PushMsg(t)) + if queue[0] == PushMsg(t) then 1 else 0
    ensures Count(queue, RemoveMsg(t)) == Count(queue[1..], RemoveMsg(t)) + if queue[0] == RemoveMsg(t) then 1 else 0
  {
    CountFront(queue, PushMsg(t));
    CountFront(queue, RemoveMsg(t));
  }

  // Unlinking a client posts the remove message of its delegate and ends its life.
  lemma UnlinkEffect(s: State, c: nat, t: Timer)
    requires LinkInv(s) && c in s.running && Known(s.timers, t)
    ensures var n, gone := Unlink(s, c), if t == s.running[c] then 1 else 0;
            Live(n, t) == Live(s, t) - gone &&
            Count(n.queue, RemoveMsg(t)) == Count(s.queue, RemoveMsg(t)) + gone &&
            Count(n.queue, PushMsg(t)) == Count(s.queue, PushMsg(t))
    ensures t != s.running[c] ==> t.id != s.running[c].id
  {
    var u := s.running[c];
    AppendCounts(s.queue, RemoveMsg(u), t);
    assert t.id == u.id ==> t == u;
  }

  lemma StopKeepsAccount(s: State, c: nat, t: Timer)
    requires LinkInv(s) && Known(s.timers, t) && AccountInv(s, t)
    ensures AccountInv(Stop(s, c), t)
  {
    if c in s.running {
      UnlinkEffect(s, c, t);
      CountAppend(s.stopped, s.running[c].id, t.id);
    }
  }

  lemma PollKeepsAccount(s: State, t: Timer)
    requires AccountInv(s, t)
    ensures AccountInv(PollStep(s), t)
  {
    match s.poll
    case Waiting => SameAccount(s, s.(poll := Woken), t);
    case Woken => SameAccount(s, s.(fd := Disarmed, poll := HasDisarmed), t);
    case HasDisarmed => SameAccount(s, s.(polled := false, poll := HasRemovedPoll), t);
    case HasRemovedPoll =>
      AppendCounts(s.queue, ExpireMsg, t);
      SameAccount(s, s.(queue := s.queue + [ExpireMsg], poll := Waiting), t);
  }

  lemma SameAccount(s: State, n: State, t: Timer)
    requires AccountInv(s, t)
    requires Count(n.queue, PushMsg(t)) == Count(s.queue, PushMsg(t))
    requires Count(n.queue, RemoveMsg(t)) == Count(s.queue, RemoveMsg(t))
    requires (n.heap, n.task, n.linked) == (s.heap, s.task, s.linked)
    requires (n.pushed, n.deleted, n.called, n.stopped) == (s.pushed, s.deleted, s.called, s.stopped)
    ensures AccountInv(n, t)
  {
  }

  lemma PushKeepsAccount(s: State, u: Timer, t: Timer)
    requires s.task.Idle? && s.queue != [] && s.queue[0] == PushMsg(u)
    requires Known(s.timers, t) && Known(s.timers, u) && AccountInv(s, t)
    ensures AccountInv(HandlePush(s.(queue := s.queue[1..]), u), t)
  {
    TakeCounts(s.queue, t);
    CountAppend(s.pushed, u.id, t.id);
    HT.PushConserves(OutRanks, s.heap, u, t);
  }

  // What handling a remove message does to the heap, seen from a delegate that is there at most once.
  lemma RemoveFromHeap(s: State, u: Timer, t: Timer)
    requires OrderInv(s) && HT.Times(s.heap, t) <= 1
    ensures HT.Times(HandleRemove(s, u).heap, t) == if t == u then 0 else HT.Times(s.heap, t)
  {
    TimersRankConsistently();
    HT.RemoveFinds(OutRanks, s.heap, u);
    if HT.Remove(OutRanks, s.heap, u).Some? { HT.RemoveConserves(OutRanks, s.heap, u, t); }
  }

  lemma FifoNoPush(queue: seq<Msg>, u: Timer)
    requires Fifo(queue) && queue != [] && queue[0] == RemoveMsg(u)
    ensures Count(queue[1..], PushMsg(u)) == 0
  {
    CountIn(queue[1..], PushMsg(u));
    forall j | 0 <= j < |queue[1..]| ensures queue[1..][j] != PushMsg(u) { assert queue[1..][j] == queue[j + 1]; }
  }

  lemma RemoveKeepsAccount(s: State, u: Timer, t: Timer)
    requires s.task.Idle? && s.queue != [] && s.queue[0] == RemoveMsg(u)
    requires Known(s.timers, t) && Known(s.timers, u) && AccountInv(s, t)
    requires Fifo(s.queue) && OrderInv(s)
    ensures AccountInv(HandleRemove(s.(queue := s.queue[1..]), u), t)
  {
    TakeCounts(s.queue, t);
    CountAppend(s.deleted, u.id, t.id);
    RemoveFromHeap(s.(queue := s.queue[1..]), u, t);
    FifoNoPush(s.queue, u);
  }

  lemma PopKeepsAccount(s: State, since: Timespec, first: bool, t: Timer)
    requires s.heap.Node? && AccountInv(s, t) && InHand(s.task, t) == 0 && BeingCalled(s.task, t) == 0
    ensures AccountInv(PopInto(s, since, first), t)
  {
    HT.PopConserves(OutRanks, s.heap, t);
  }

  lemma ExpireMsgKeepsAccount(s: State, t: Timer)
    requires s.task.Idle? && s.queue != [] && s.queue[0] == ExpireMsg && AccountInv(s, t)
    ensures AccountInv(HandleExpire(s.(queue := s.queue[1..])), t)
  {
    var taken := s.(queue := s.queue[1..]);
    TakeCounts(s.queue, t);
    if s.heap.Node? { PopKeepsAccount(taken, s.now, true, t); }
  }

  lemma LinkedDelegateKeepsAccount(s: State, t: Timer)
    requires s.task.Expiring? && s.task.popped.Some? && KnownInv(s) && LinkInv(s)
    requires Known(s.timers, t) && AccountInv(s, t) && s.task.popped.value.id in s.linked
    ensures AccountInv(ExpireDelegate(s, s.task.since, s.task.popped.value, s.task.first), t)
  {
    var u := s.task.popped.value;
    UnlinkEffect(s, s.linked[u.id], t);
    assert s.running[s.linked[u.id]] == u;
  }

  lemma ReleasedDelegateKeepsAccount(s: State, t: Timer)
    requires s.task.Expiring? && s.task.popped.Some? && KnownInv(s)
    requires Known(s.timers, t) && AccountInv(s, t) && s.task.popped.value.id !in s.linked
    ensures AccountInv(s.(task := Expiring(s.task.since, None, false)), t)
  {
    assert s.task.popped.value == t ==> Live(s, t) == 0;
  }

  lemma DelegateKeepsAccount(s: State, t: Timer)
    requires s.task.Expiring? && s.task.popped.Some? && KnownInv(s) && LinkInv(s)
    requires Known(s.timers, t) && AccountInv(s, t)
    ensures AccountInv(ExpireDelegate(s, s.task.since, s.task.popped.value, s.task.first), t)
  {
    if s.task.popped.value.id in s.linked {
      LinkedDelegateKeepsAccount(s, t);
    } else {
      ReleasedDelegateKeepsAccount(s, t);
    }
  }

  lemma CallBackKeepsAccount(s: State, t: Timer)
    requires s.task.CallingBack? && KnownInv(s) && Known(s.timers, t) && AccountInv(s, t)
    ensures AccountInv(TaskStep(s), t)
  {
    CountAppend(s.called, s.task.t.id, t.id);
  }

  lemma HandleKeepsAccount(s: State, t: Timer)
    requires Inv(s) && s.task.Idle? && s.queue != [] && Known(s.timers, t) && AccountInv(s, t)
    ensures AccountInv(TaskStep(s), t)
  {
    TailKnown(s.timers, s.queue);
    match s.queue[0]
    case PushMsg(u) => PushKeepsAccount(s, u, t);
    case RemoveMsg(u) => RemoveKeepsAccount(s, u, t);
    case ExpireMsg => ExpireMsgKeepsAccount(s, t);
  }

  lemma ExpiringKeepsAccount(s: State, t: Timer)
    requires Inv(s) && s.task.Expiring? && Known(s.timers, t) && AccountInv(s, t)
    ensures AccountInv(TaskStep(s), t)
  {
    if s.task.popped.Some? {
      DelegateKeepsAccount(s, t);
    } else if s.heap.Node? {
      PopKeepsAccount(s, s.task.since, false, t);
    }
  }

  lemma FdStepKeepsAccount(s: State, t: Timer)
    requires s.task.AddPoll? || s.task.SetTime? || s.task.RemovePoll? || s.task.Disarm?
    requires AccountInv(s, t)
    ensures AccountInv(TaskStep(s), t)
  {
  }

  lemma TaskKeepsAccount(s: State, t: Timer)
    requires Inv(s) && Enabled(s, MessageTask) && Known(s.timers, t) && AccountInv(s, t)
    ensures AccountInv(TaskStep(s), t)
  {
    match s.task
    case Idle => HandleKeepsAccount(s, t);
    case Expiring(_, _, _) => ExpiringKeepsAccount(s, t);
    case CallingBack(_, _, _, _) => CallBackKeepsAccount(s, t);
    case _ => FdStepKeepsAccount(s, t);
  }

  lemma StepKeepsAccount(s: State, a: Action, t: Timer)
    requires Inv(s) && Enabled(s, a) && Known(Step(s, a).timers, t)
    requires Known(s.timers, t) ==> AccountInv(s, t)
    ensures AccountInv(Step(s, a), t)
  {
    match a
    case Tick(now) => SameAccount(s, s.(now := now), t);
    case StartBy(c, ms) => StartKeepsAccount(s, c, ms, t);
    case StopBy(c) => StopKeepsAccount(s, c, t);
    case PollThread => PollKeepsAccount(s, t);
    case MessageTask => TaskKeepsAccount(s, t);
  }

  lemma StepKeepsInv(s: State, a: Action)
    requires Inv(s) && Enabled(s, a)
    ensures Inv(Step(s, a))
  {
    StepKeepsFd(s, a);
    StepKeepsKnown(s, a);
    StepKeepsLinks(s, a);
    StepKeepsFifo(s, a);
    StepKeepsOrder(s, a);
    StepKeepsPass(s, a);
  }

  lemma {:induction false} RunKeepsInv(now: Timespec, actions: seq<Action>)
    ensures Inv(Run(Initial(now), actions)) && AllAccounts(Run(Initial(now), actions))
  {
    if actions != [] {
      var before := actions[..|actions| - 1];
      RunKeepsInv(now, before);
      var s, a := Run(Initial(now), before), actions[|actions| - 1];
      if Enabled(s, a) {
        StepKeepsInv(s, a);
        forall t: Timer | Known(Step(s, a).timers, t) ensures AccountInv(Step(s, a), t) {
          StepKeepsAccount(s, a, t);
        }
      }
    }
  }

  // ---------- The main results ----------

  // The time for which the fd is, or is about to be, polled and armed.
  predicate WillWakeBy(s: State, t: Timespec) {
    match s.task
    case Idle => s.polled && s.fd.Armed? && !Earlier(t, s.fd.at)
    case AddPoll(u) => !Earlier(t, u.time)
    case SetTime(u) => s.polled && !Earlier(t, u.time)
    case _ => false
  }

  // No ticking timer is forgotten: in every run, a delegate that has a client has its push message
  // queued, or an expiry is in flight, or it is in the heap and the fd wakes the poll thread no later
  // than at its time.
  lemma NoTimerIsForgotten(now: Timespec, actions: seq<Action>, t: Timer)
    ensures var s := Run(Initial(now), actions);
            Known(s.timers, t) && t.id in s.linked ==>
              PushMsg(t) in s.queue || ExpiryInFlight(s) || (HT.Holds(s.heap, t) && WillWakeBy(s, t.time))
  {
    RunKeepsInv(now, actions);
    var s := Run(Initial(now), actions);
    if Known(s.timers, t) && t.id in s.linked {
      CountIn(s.queue, PushMsg(t));
      if HT.Holds(s.heap, t) {
        TimersRankConsistently();
        HT.TopRanksHighest(OutRanks, s.heap, t);
        RanksIsOrder(t.time, s.heap.data.time);
      }
    }
  }

  // Over every run a delegate is pushed once, deleted by its one remove message and only after it was
  // pushed, kept nowhere afterwards, and answered once: by its callback or by a stop that returned true.
  lemma DelegateLivesOnce(now: Timespec, actions: seq<Action>, t: Timer)
    ensures var s := Run(Initial(now), actions);
            Known(s.timers, t) ==>
              AccountInv(s, t) && Count(s.pushed, t.id) <= 1 && Count(s.deleted, t.id) <= 1 &&
              (t.id in s.deleted ==> t.id in s.pushed && !HT.Holds(s.heap, t) && t.id !in s.linked) &&
              Count(s.called, t.id) + Count(s.stopped, t.id) <= 1
  {
    RunKeepsInv(now, actions);
    var s := Run(Initial(now), actions);
    if Known(s.timers, t) {
      assert AccountInv(s, t);
      CountIn(s.deleted, t.id);
      CountIn(s.pushed, t.id);
    }
  }

  // In every run, a callback that is made before its time is that of the first timer of its pass, and
  // was ahead of the pass's "now".
  lemma OnlyFirstFiresEarly(now: Timespec, actions: seq<Action>)
    ensures var s := Run(Initial(now), actions);
            s.task.CallingBack? && Earlier(s.now, s.task.t.time) ==>
              s.task.first && Earlier(s.task.since, s.task.t.time)
  {
    RunKeepsInv(now, actions);
  }

  // An expire pass ends with nothing in the heap that was due when it began.
  lemma PassLeavesOnlyLater(s: State, y: Timer)
    requires Inv(s) && s.task.Expiring? && s.task.popped.None?
    requires !TaskStep(s).task.Expiring? && HT.Holds(TaskStep(s).heap, y)
    ensures Earlier(s.task.since, y.time)
  {
    TimersRankConsistently();
    HT.TopRanksHighest(OutRanks, s.heap, y);
    RanksIsOrder(y.time, s.heap.data.time);
    RanksIsOrder(s.task.since, s.heap.data.time);
  }

  // What it pops after the first was due.
  lemma PassPopsOnlyDue(s: State)
    requires Inv(s) && s.task.Expiring? && s.task.popped.None?
    requires TaskStep(s).task.Expiring?
    ensures !Earlier(s.task.since, TaskStep(s).task.popped.value.time)
  {
    StepKeepsPass(s, MessageTask);
  }
}
