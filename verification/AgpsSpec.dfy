/**
 The base AGPS state machine of gps/gnss/Agps.cpp as a function from inputs to its state, its
 subscriber list and its history of callbacks and framework requests, and what holds in every run.
 */
module AgpsSpec {
  datatype Subscriber = Subscriber(handle: int, waitForClose: bool, inactive: bool)

  datatype State = Released | Pending | Acquired | Releasing

  datatype Event = SubscribeEvent | UnsubscribeEvent | GrantedEvent | ReleasedEvent | DeniedEvent

  // Callbacks to the client, and two marks that only the proofs use: the request that put a handle
  // on the list, and a request for a handle that is on the list of an acquired connection already.
  datatype Entry =
    | OpenStatus(handle: int, success: bool)
    | CloseStatus(handle: int, success: bool)
    | Subscribed(handle: int)
    | Again(handle: int)

  datatype Choice = Everyone | Inactive | Active | WithHandle(h: int)

  datatype Machine = Machine(state: State, subs: seq<Subscriber>, log: seq<Entry>, requests: seq<bool>)

  const INITIAL := Machine(Released, [], [], [])

  // ---------- Subscriber lists ----------

  predicate Chosen(c: Choice, s: Subscriber) {
    match c
    case Everyone => true
    case Inactive => s.inactive
    case Active => !s.inactive
    case WithHandle(h) => s.handle == h
  }

  function Where(subs: seq<Subscriber>, c: Choice): seq<Subscriber> {
    if subs == [] then [] else
    Where(subs[..|subs| - 1], c) + if Chosen(c, subs[|subs| - 1]) then [subs[|subs| - 1]] else []
  }

  function Except(subs: seq<Subscriber>, c: Choice): seq<Subscriber> {
    if subs == [] then [] else
    Except(subs[..|subs| - 1], c) + if Chosen(c, subs[|subs| - 1]) then [] else [subs[|subs| - 1]]
  }

  // How many entries carry handle h.
  ghost function Times(subs: seq<Subscriber>, h: int): nat {
    if subs == [] then 0 else
    Times(subs[..|subs| - 1], h) + if subs[|subs| - 1].handle == h then 1 else 0
  }

  predicate Has(subs: seq<Subscriber>, h: int) { exists s :: s in subs && s.handle == h }

  predicate AnyActive(subs: seq<Subscriber>) { exists s :: s in subs && !s.inactive }

  ghost predicate Unique(subs: seq<Subscriber>) { forall h :: Times(subs, h) <= 1 }

  function Add(subs: seq<Subscriber>, s: Subscriber): seq<Subscriber> {
    if Has(subs, s.handle) then subs else subs + [s]
  }

  function SetInactive(subs: seq<Subscriber>, h: int): (r: seq<Subscriber>)
    ensures |r| == |subs|
    ensures forall i :: 0 <= i < |subs| ==>
              r[i] == if subs[i].handle == h then subs[i].(inactive := true) else subs[i]
  {
    seq(|subs|, i requires 0 <= i < |subs| =>
      if subs[i].handle == h then subs[i].(inactive := true) else subs[i])
  }

  predicate Waits(subs: seq<Subscriber>, h: int) {
    exists s :: s in subs && s.handle == h && s.waitForClose
  }

  // ---------- Callbacks ----------

  function Status(e: Event, h: int): seq<Entry> {
    match e
    case GrantedEvent => [OpenStatus(h, true)]
    case DeniedEvent => [OpenStatus(h, false)]
    case UnsubscribeEvent => [CloseStatus(h, true)]
    case ReleasedEvent => [CloseStatus(h, true)]
    case SubscribeEvent => []
  }

  function Statuses(e: Event, subs: seq<Subscriber>): seq<Entry> {
    if subs == [] then [] else
    Statuses(e, subs[..|subs| - 1]) + Status(e, subs[|subs| - 1].handle)
  }

  function NotifyAll(m: Machine, e: Event, drop: bool, c: Choice): Machine {
    m.(log := m.log + Statuses(e, Where(m.subs, c)), subs := if drop then Except(m.subs, c) else m.subs)
  }

  // ---------- The five events and the modem restart ----------

  function Mark(m: Machine, h: int): seq<Entry> {
    if !Has(m.subs, h) then [Subscribed(h)] else if m.state.Acquired? then [Again(h)] else []
  }

  function Subscribe(m: Machine, s: Subscriber): Machine {
    var subs, log := Add(m.subs, s), m.log + Mark(m, s.handle);
    match m.state
    case Released => Machine(Pending, subs, log, m.requests + [true])
    case Acquired => m.(subs := subs, log := log + [OpenStatus(s.handle, true)])
    case _ => m.(subs := subs, log := log)
  }

  function Leave(m: Machine, h: int): Machine {
    if Waits(m.subs, h) then m.(subs := SetInactive(m.subs, h))
    else m.(log := m.log + [CloseStatus(h, true)], subs := Except(m.subs, WithHandle(h)))
  }

  function Unsubscribe(m: Machine, h: int): Machine {
    match m.state
    case Released => m.(log := m.log + [CloseStatus(h, true)])
    case Releasing =>
      var n := Leave(m, h);
      if n.subs == [] then n.(state := Released) else n
    case _ =>
      var n := Leave(m, h);
      if n.subs == [] then n.(state := Released, requests := n.requests + [false])
      else if !AnyActive(n.subs) then n.(state := Releasing, requests := n.requests + [false])
      else n
  }

  function Granted(m: Machine): Machine {
    if m.state.Pending? then NotifyAll(m.(state := Acquired), GrantedEvent, false, Active) else m
  }

  // The connection is gone: inactive subscribers leave, active ones make the machine ask again.
  function FinishReleasing(m: Machine): Machine {
    var n := NotifyAll(m, ReleasedEvent, true, Inactive);
    if AnyActive(n.subs) then n.(state := Pending, requests := n.requests + [true])
    else n.(state := Released)
  }

  function Closed(m: Machine): Machine {
    match m.state
    case Acquired => NotifyAll(m.(state := Released), ReleasedEvent, true, Everyone)
    case Releasing => FinishReleasing(m)
    case _ => m
  }

  function Denied(m: Machine): Machine {
    match m.state
    case Pending => NotifyAll(m.(state := Released), DeniedEvent, true, Everyone)
    case Releasing => FinishReleasing(m)
    case _ => m
  }

  // What AgpsManager sends a machine: it releases only handles that it found on the list.
  datatype Input = SubscribeIn(s: Subscriber) | UnsubscribeIn(h: int) | GrantedIn | ReleasedIn | DeniedIn | RestartIn

  function Step(m: Machine, i: Input): Machine {
    match i
    case SubscribeIn(s) => Subscribe(m, s)
    case UnsubscribeIn(h) => if Has(m.subs, h) then Unsubscribe(m, h) else m
    case GrantedIn => Granted(m)
    case ReleasedIn => Closed(m)
    case DeniedIn => Denied(m)
    case RestartIn => m.(subs := [])
  }

  function Run(ins: seq<Input>): Machine {
    if ins == [] then INITIAL else Step(Run(ins[..|ins| - 1]), ins[|ins| - 1])
  }

  // New subscribers are active, and none is added with the marks of an old one.
  ghost predicate FreshInputs(ins: seq<Input>) {
    forall k :: 0 <= k < |ins| && ins[k].SubscribeIn? ==> !ins[k].s.inactive
  }

  ghost predicate NoRestart(ins: seq<Input>) { RestartIn !in ins }

  // ---------- Invariant of the list ----------

  // Handles are unique, and only subscribers that wait for the close are inactive.
  ghost predicate ListRight(subs: seq<Subscriber>) {
    Unique(subs) && forall s :: s in subs && s.inactive ==> s.waitForClose
  }

  ghost predicate Inv(m: Machine) {
    (m.state.Released? <==> m.subs == []) &&
    (m.state.Pending? || m.state.Acquired? ==> AnyActive(m.subs)) &&
    (m.state.Releasing? ==> exists s :: s in m.subs && s.inactive) &&
    ListRight(m.subs)
  }

  lemma {:induction false} ExceptMember(subs: seq<Subscriber>, c: Choice, s: Subscriber)
    ensures s in Except(subs, c) <==> s in subs && !Chosen(c, s)
  {
    if subs != [] {
      ExceptMember(subs[..|subs| - 1], c, s);
      assert subs == subs[..|subs| - 1] + [subs[|subs| - 1]];
    }
  }

  lemma {:induction false} HasTimes(subs: seq<Subscriber>, h: int)
    ensures Has(subs, h) <==> Times(subs, h) > 0
  {
    if subs != [] {
      var front, last := subs[..|subs| - 1], subs[|subs| - 1];
      HasTimes(front, h);
      assert subs == front + [last];
      assert forall s :: s in subs <==> s in front || s == last;
    }
  }

  // The chosen and the others together are the list.
  lemma {:induction false} WhereExceptTimes(subs: seq<Subscriber>, c: Choice, h: int)
    ensures Times(Where(subs, c), h) + Times(Except(subs, c), h) == Times(subs, h)
    ensures c.WithHandle? ==> Times(Except(subs, c), h) == if h == c.h then 0 else Times(subs, h)
  {
    if subs != [] {
      var front, last := subs[..|subs| - 1], subs[|subs| - 1];
      WhereExceptTimes(front, c, h);
      TimesAppend(Where(front, c), last, h);
      TimesAppend(Except(front, c), last, h);
      assert Where(front, c) + [] == Where(front, c) && Except(front, c) + [] == Except(front, c);
    }
  }

  lemma TimesAppend(subs: seq<Subscriber>, s: Subscriber, h: int)
    ensures Times(subs + [s], h) == Times(subs, h) + if s.handle == h then 1 else 0
  {
    assert (subs + [s])[..|subs|] == subs;
  }

  lemma {:induction false} SetInactiveTimes(subs: seq<Subscriber>, g: int, h: int)
    ensures Times(SetInactive(subs, g), h) == Times(subs, h)
  {
    if subs != [] {
      SetInactiveTimes(subs[..|subs| - 1], g, h);
      assert SetInactive(subs, g)[..|subs| - 1] == SetInactive(subs[..|subs| - 1], g);
    }
  }

  lemma ExceptUnique(subs: seq<Subscriber>, c: Choice)
    requires Unique(subs)
    ensures Unique(Except(subs, c))
  {
    forall h ensures Times(Except(subs, c), h) <= 1 { WhereExceptTimes(subs, c, h); }
  }

  lemma {:induction false} TwoTimes(subs: seq<Subscriber>, i: int, j: int)
    requires 0 <= i < j < |subs| && subs[i].handle == subs[j].handle
    ensures Times(subs, subs[i].handle) >= 2
  {
    var front := subs[..|subs| - 1];
    if j < |front| {
      TwoTimes(front, i, j);
    } else {
      assert front[i] in front;
      HasTimes(front, subs[i].handle);
    }
  }

  lemma {:induction false} ExceptEveryone(subs: seq<Subscriber>)
    ensures Except(subs, Everyone) == []
  {
    if subs != [] { ExceptEveryone(subs[..|subs| - 1]); }
  }

  // On a list without duplicates the entry that becomes inactive is the one that waits.
  lemma SetInactiveKeeps(subs: seq<Subscriber>, h: int, s: Subscriber)
    requires Unique(subs) && Waits(subs, h) && s in SetInactive(subs, h)
    requires forall x :: x in subs && x.inactive ==> x.waitForClose
    ensures s.inactive ==> s.waitForClose
  {
    var i :| 0 <= i < |subs| && SetInactive(subs, h)[i] == s;
    if subs[i].handle == h {
      var w :| w in subs && w.handle == h && w.waitForClose;
      var j :| 0 <= j < |subs| && subs[j] == w;
      if i < j { TwoTimes(subs, i, j); }
      if j < i { TwoTimes(subs, j, i); }
    } else {
      assert subs[i] in subs;
    }
  }

  lemma LeaveKeepsList(m: Machine, h: int)
    requires ListRight(m.subs)
    ensures ListRight(Leave(m, h).subs)
  {
    var n := Leave(m, h);
    if Waits(m.subs, h) {
      forall g ensures Times(n.subs, g) <= 1 { SetInactiveTimes(m.subs, h, g); }
      forall s | s in n.subs && s.inactive ensures s.waitForClose { SetInactiveKeeps(m.subs, h, s); }
    } else {
      ExceptUnique(m.subs, WithHandle(h));
      forall s | s in n.subs ensures s in m.subs { ExceptMember(m.subs, WithHandle(h), s); }
    }
  }

  lemma LeaveKeeps(m: Machine, h: int)
    requires Inv(m) && Has(m.subs, h)
    ensures ListRight(Leave(m, h).subs)
    ensures m.state.Releasing? ==> exists s :: s in Leave(m, h).subs && s.inactive
  {
    var n := Leave(m, h);
    LeaveKeepsList(m, h);
    if Waits(m.subs, h) {
      var w :| w in m.subs && w.handle == h;
      var j :| 0 <= j < |m.subs| && m.subs[j] == w;
      assert n.subs[j] in n.subs && n.subs[j].inactive;
    } else {
      forall s ensures s in n.subs <==> s in m.subs && s.handle != h {
        ExceptMember(m.subs, WithHandle(h), s);
      }
    }
  }

  lemma SubscribeKeepsInv(m: Machine, s: Subscriber)
    requires Inv(m) && !s.inactive
    ensures Inv(Subscribe(m, s))
  {
    AddUnique(m.subs, s);
    var subs := Add(m.subs, s);
    assert forall x :: x in subs <==> x in m.subs || (x == s && !Has(m.subs, s.handle));
    assert m.subs == [] ==> s in subs;
  }

  lemma AddUnique(subs: seq<Subscriber>, s: Subscriber)
    requires Unique(subs)
    ensures Unique(Add(subs, s))
  {
    forall h ensures Times(Add(subs, s), h) <= 1 {
      HasTimes(subs, h);
      TimesAppend(subs, s, h);
    }
  }

  lemma UnsubscribeKeepsInv(m: Machine, h: int)
    requires Inv(m) && Has(m.subs, h)
    ensures Inv(Unsubscribe(m, h))
  {
    LeaveKeeps(m, h);
    var subs := Leave(m, h).subs;
    assert subs != [] ==> subs[0] in subs;
  }

  lemma FinishKeepsInv(m: Machine)
    requires Inv(m) && m.state.Releasing?
    ensures Inv(FinishReleasing(m))
  {
    ExceptUnique(m.subs, Inactive);
    var subs := Except(m.subs, Inactive);
    forall s ensures s in subs <==> s in m.subs && !s.inactive { ExceptMember(m.subs, Inactive, s); }
    assert subs != [] ==> subs[0] in subs;
  }

  lemma StepKeepsInv(m: Machine, i: Input)
    requires Inv(m) && !i.RestartIn? && (i.SubscribeIn? ==> !i.s.inactive)
    ensures Inv(Step(m, i))
  {
    match i
    case SubscribeIn(s) => SubscribeKeepsInv(m, s);
    case UnsubscribeIn(h) => if Has(m.subs, h) { UnsubscribeKeepsInv(m, h); }
    case GrantedIn =>
    case _ =>
      if m.state.Releasing? { FinishKeepsInv(m); }
      ExceptEveryone(m.subs);
  }

  lemma {:induction false} RunKeepsInv(ins: seq<Input>)
    requires FreshInputs(ins) && NoRestart(ins)
    ensures Inv(Run(ins))
  {
    if ins != [] {
      RunKeepsInv(ins[..|ins| - 1]);
      StepKeepsInv(Run(ins[..|ins| - 1]), ins[|ins| - 1]);
    }
  }

  // ---------- After a modem restart ----------

  // A restart empties the list and leaves the state, which breaks the invariant in every state but
  // RELEASED.
  lemma RestartKeepsInvIff(m: Machine)
    requires Inv(m)
    ensures Inv(Step(m, RestartIn)) <==> m.state.Released?
  {
    assert !AnyActive(Step(m, RestartIn).subs);
  }

  // The next event puts it right again exactly if it is a subscription, but while releasing, or an
  // answer of the framework that the state waits for.
  lemma RestartHealsIff(m: Machine, i: Input)
    requires m.subs == [] && !m.state.Released? && !i.RestartIn? && (i.SubscribeIn? ==> !i.s.inactive)
    ensures Inv(Step(m, i)) <==>
              match i
              case SubscribeIn(_) => !m.state.Releasing?
              case ReleasedIn => !m.state.Pending?
              case DeniedIn => !m.state.Acquired?
              case _ => false
  {
    var n := Step(m, i);
    assert forall s :: s in n.subs ==> i.SubscribeIn? && s == i.s;
    match i
    case SubscribeIn(s) =>
      assert n.subs == [s] && s in n.subs;
      TimesOfOne(s);
    case _ =>
  }

  lemma TimesOfOne(s: Subscriber)
    ensures Unique([s])
  {
    forall h ensures Times([s], h) <= 1 { assert [s][..0] == []; }
  }

  // What holds in every run, modem restarts included.
  ghost predicate AlwaysInv(m: Machine) {
    ListRight(m.subs) && (m.state.Released? ==> m.subs == []) &&
    ((m.state.Pending? || m.state.Acquired?) && m.subs != [] ==> AnyActive(m.subs))
  }

  lemma SubscribeKeepsAlways(m: Machine, s: Subscriber)
    requires AlwaysInv(m) && !s.inactive
    ensures AlwaysInv(Subscribe(m, s))
  {
    AddUnique(m.subs, s);
    assert forall x :: x in Add(m.subs, s) <==> x in m.subs || (x == s && !Has(m.subs, s.handle));
  }

  lemma UnsubscribeKeepsAlways(m: Machine, h: int)
    requires AlwaysInv(m) && Has(m.subs, h)
    ensures AlwaysInv(Unsubscribe(m, h))
  {
    LeaveKeepsList(m, h);
  }

  lemma FinishKeepsAlways(m: Machine)
    requires AlwaysInv(m)
    ensures AlwaysInv(FinishReleasing(m))
  {
    ExceptUnique(m.subs, Inactive);
    var subs := Except(m.subs, Inactive);
    forall s ensures s in subs <==> s in m.subs && !s.inactive { ExceptMember(m.subs, Inactive, s); }
    assert subs != [] ==> subs[0] in subs;
  }

  lemma StepKeepsAlways(m: Machine, i: Input)
    requires AlwaysInv(m) && (i.SubscribeIn? ==> !i.s.inactive)
    ensures AlwaysInv(Step(m, i))
  {
    match i
    case SubscribeIn(s) => SubscribeKeepsAlways(m, s);
    case UnsubscribeIn(h) => if Has(m.subs, h) { UnsubscribeKeepsAlways(m, h); }
    case GrantedIn =>
    case RestartIn =>
    case _ =>
      if m.state.Releasing? { FinishKeepsAlways(m); }
      ExceptEveryone(m.subs);
  }

  // The list invariant in every run, modem restarts included: it holds exactly in RELEASED, in RELEASING
  // with an inactive subscriber, and in PENDING and ACQUIRED with any subscriber; and handles stay
  // unique, inactive subscribers wait and RELEASED has an empty list whatever happened.
  lemma {:induction false} RestartedRunKeepsInvIff(ins: seq<Input>)
    requires FreshInputs(ins)
    ensures var m := Run(ins);
            AlwaysInv(m) &&
            (Inv(m) <==>
               match m.state
               case Released => true
               case Releasing => exists s :: s in m.subs && s.inactive
               case _ => m.subs != [])
  {
    if ins != [] {
      RestartedRunKeepsInvIff(ins[..|ins| - 1]);
      StepKeepsAlways(Run(ins[..|ins| - 1]), ins[|ins| - 1]);
    }
  }

  // After a restart while acquired, the next subscriber is told of an open connection although nothing
  // was requested for it.
  lemma RestartGivesStaleOpen(m: Machine, s: Subscriber)
    requires Inv(m) && m.state.Acquired?
    ensures var n := Step(Step(m, RestartIn), SubscribeIn(s));
            n.log == m.log + [Subscribed(s.handle)] + [OpenStatus(s.handle, true)] &&
            n.requests == m.requests && n.state.Acquired? && n.subs == [s]
  {
  }

  // ---------- Framework requests balance ----------

  ghost function Sum(requests: seq<bool>): int {
    if requests == [] then 0 else
    Sum(requests[..|requests| - 1]) + if requests[|requests| - 1] then 1 else -1
  }

  lemma SumAppend(requests: seq<bool>, b: bool)
    ensures Sum(requests + [b]) == Sum(requests) + if b then 1 else -1
  {
    assert (requests + [b])[..|requests|] == requests;
  }

  // The framework's own refusals and terminations: DENIED while pending, RELEASED while acquired.
  predicate TakesBack(m: Machine, i: Input) {
    (i.DeniedIn? && m.state.Pending?) || (i.ReleasedIn? && m.state.Acquired?)
  }

  ghost function TakenBack(ins: seq<Input>): nat {
    if ins == [] then 0 else
    var before := ins[..|ins| - 1];
    TakenBack(before) + if TakesBack(Run(before), ins[|ins| - 1]) then 1 else 0
  }

  function Owed(s: State): int { if s.Pending? || s.Acquired? then 1 else 0 }

  lemma UnsubscribeBalances(m: Machine, h: int)
    ensures var n := Unsubscribe(m, h); Sum(n.requests) - Sum(m.requests) == Owed(n.state) - Owed(m.state)
  {
    SumAppend(m.requests, false);
    assert Leave(m, h).requests == m.requests && Leave(m, h).state == m.state;
  }

  lemma StepBalances(m: Machine, i: Input)
    ensures var n := Step(m, i);
            Sum(n.requests) - Sum(m.requests) - (if TakesBack(m, i) then 1 else 0) == Owed(n.state) - Owed(m.state)
  {
    match i
    case SubscribeIn(s) => SumAppend(m.requests, true);
    case UnsubscribeIn(h) => UnsubscribeBalances(m, h);
    case ReleasedIn => if m.state.Releasing? { FinishBalances(m); }
    case DeniedIn => if m.state.Releasing? { FinishBalances(m); }
    case _ =>
  }

  lemma FinishBalances(m: Machine)
    ensures var n := FinishReleasing(m); Sum(n.requests) - Sum(m.requests) == Owed(n.state)
  {
    SumAppend(m.requests, true);
  }

  // Over every run, modem restarts included, the connections asked for and not given up or taken
  // back number one while the machine is pending or acquired, and none otherwise.
  lemma {:induction false} RequestsBalance(ins: seq<Input>)
    ensures var m := Run(ins); Sum(m.requests) - TakenBack(ins) == Owed(m.state)
  {
    if ins != [] {
      RequestsBalance(ins[..|ins| - 1]);
      StepBalances(Run(ins[..|ins| - 1]), ins[|ins| - 1]);
    }
  }

  // ---------- Callbacks over a run ----------

  // Callbacks that end a subscription: opening failed, or closed.
  predicate IsFinal(e: Entry, h: int) { e == OpenStatus(h, false) || e == CloseStatus(h, true) }

  ghost function Finals(log: seq<Entry>, h: int): nat {
    if log == [] then 0 else
    Finals(log[..|log| - 1], h) + if IsFinal(log[|log| - 1], h) then 1 else 0
  }

  ghost function Accepted(log: seq<Entry>, h: int): nat {
    if log == [] then 0 else
    Accepted(log[..|log| - 1], h) + if log[|log| - 1] == Subscribed(h) then 1 else 0
  }

  // Open-successes told to h since it was last put on the list, repeated requests not counted.
  ghost function Opens(log: seq<Entry>, h: int): int {
    if log == [] then 0 else
    var before, e := log[..|log| - 1], log[|log| - 1];
    if e == Subscribed(h) then 0
    else if e == OpenStatus(h, true) then Opens(before, h) + 1
    else if e == Again(h) then Opens(before, h) - 1
    else Opens(before, h)
  }

  lemma LogAppend(log: seq<Entry>, e: Entry, h: int)
    ensures Finals(log + [e], h) == Finals(log, h) + if IsFinal(e, h) then 1 else 0
    ensures Accepted(log + [e], h) == Accepted(log, h) + if e == Subscribed(h) then 1 else 0
    ensures Opens(log + [e], h) ==
              if e == Subscribed(h) then 0
              else Opens(log, h) + if e == OpenStatus(h, true) then 1 else if e == Again(h) then -1 else 0
  {
    assert (log + [e])[..|log|] == log;
  }

  lemma StatusesStep(log: seq<Entry>, e: Event, subs: seq<Subscriber>)
    requires !e.SubscribeEvent? && subs != []
    ensures log + Statuses(e, subs)
            == (log + Statuses(e, subs[..|subs| - 1])) + [Status(e, subs[|subs| - 1].handle)[0]]
  {
    var told, entry := Statuses(e, subs[..|subs| - 1]), Status(e, subs[|subs| - 1].handle)[0];
    assert Statuses(e, subs) == told + [entry];
    EntryLast(log, told, entry);
  }

  lemma EntryLast(a: seq<Entry>, b: seq<Entry>, e: Entry)
    ensures a + (b + [e]) == (a + b) + [e]
  {
  }

  // Notifying a list of subscribers tells each of them once and nobody else.
  lemma {:induction false} NotifyTells(log: seq<Entry>, e: Event, subs: seq<Subscriber>, h: int)
    requires !e.SubscribeEvent?
    ensures Finals(log + Statuses(e, subs), h) == Finals(log, h) + (if e.GrantedEvent? then 0 else Times(subs, h))
    ensures Opens(log + Statuses(e, subs), h) == Opens(log, h) + (if e.GrantedEvent? then Times(subs, h) else 0)
    ensures Accepted(log + Statuses(e, subs), h) == Accepted(log, h)
  {
    if subs == [] {
      assert log + [] == log;
    } else {
      var front := subs[..|subs| - 1];
      NotifyTells(log, e, front, h);
      StatusesStep(log, e, subs);
      LogAppend(log + Statuses(e, front), Status(e, subs[|subs| - 1].handle)[0], h);
    }
  }

  // A subscription gets its one final callback in the step in which it leaves the list.
  ghost predicate Conserved(m: Machine, n: Machine, h: int) {
    Times(n.subs, h) - Times(m.subs, h) ==
      (Accepted(n.log, h) - Accepted(m.log, h)) - (Finals(n.log, h) - Finals(m.log, h))
  }

  lemma LeaveConserves(m: Machine, g: int, h: int)
    requires Inv(m) && Has(m.subs, g)
    ensures Conserved(m, Leave(m, g), h)
  {
    LogAppend(m.log, CloseStatus(g, true), h);
    HasTimes(m.subs, g);
    SetInactiveTimes(m.subs, g, h);
    WhereExceptTimes(m.subs, WithHandle(g), h);
  }

  lemma NotifyDropConserves(m: Machine, e: Event, c: Choice, h: int)
    requires e.ReleasedEvent? || e.DeniedEvent?
    ensures Conserved(m, NotifyAll(m, e, true, c), h)
  {
    NotifyTells(m.log, e, Where(m.subs, c), h);
    WhereExceptTimes(m.subs, c, h);
  }

  lemma FinishConserves(m: Machine, h: int)
    ensures Conserved(m, FinishReleasing(m), h)
  {
    NotifyDropConserves(m, ReleasedEvent, Inactive, h);
  }

  lemma ClosedConserves(m: Machine, h: int)
    ensures Conserved(m, Closed(m), h)
  {
    if m.state.Acquired? {
      NotifyDropConserves(m.(state := Released), ReleasedEvent, Everyone, h);
    } else if m.state.Releasing? {
      FinishConserves(m, h);
    }
  }

  lemma DeniedConserves(m: Machine, h: int)
    ensures Conserved(m, Denied(m), h)
  {
    if m.state.Pending? {
      NotifyDropConserves(m.(state := Released), DeniedEvent, Everyone, h);
    } else if m.state.Releasing? {
      FinishConserves(m, h);
    }
  }

  lemma SubscribeLog(m: Machine, s: Subscriber, h: int)
    ensures var log, joins := Subscribe(m, s).log, !Has(m.subs, s.handle) && s.handle == h;
            Finals(log, h) == Finals(m.log, h) &&
            Accepted(log, h) == Accepted(m.log, h) + (if joins then 1 else 0) &&
            Opens(log, h) == if !joins then Opens(m.log, h) else if m.state.Acquired? then 1 else 0
  {
    var g := s.handle;
    if !Has(m.subs, g) {
      LogAppend(m.log, Subscribed(g), h);
      LogAppend(m.log + [Subscribed(g)], OpenStatus(g, true), h);
    } else if m.state.Acquired? {
      LogAppend(m.log, Again(g), h);
      LogAppend(m.log + [Again(g)], OpenStatus(g, true), h);
    } else {
      assert m.log + [] == m.log;
    }
  }

  lemma SubscribeConserves(m: Machine, s: Subscriber, h: int)
    ensures Conserved(m, Subscribe(m, s), h)
  {
    SubscribeLog(m, s, h);
    TimesAppend(m.subs, s, h);
  }

  lemma StepConserves(m: Machine, i: Input, h: int)
    requires Inv(m) && !i.RestartIn?
    ensures Conserved(m, Step(m, i), h)
  {
    match i
    case SubscribeIn(s) => SubscribeConserves(m, s, h);
    case UnsubscribeIn(g) => if Has(m.subs, g) { LeaveConserves(m, g, h); }
    case GrantedIn => NotifyTells(m.log, GrantedEvent, Where(m.subs, Active), h);
    case ReleasedIn => ClosedConserves(m, h);
    case DeniedIn => DeniedConserves(m, h);
  }

  // Over every run without modem restart: final callbacks to h number exactly the subscriptions of
  // h that were accepted and have left the list.
  lemma {:induction false} OneFinalCallbackEach(ins: seq<Input>, h: int)
    requires FreshInputs(ins) && NoRestart(ins)
    ensures var m := Run(ins); Finals(m.log, h) + Times(m.subs, h) == Accepted(m.log, h)
  {
    if ins != [] {
      var before := ins[..|ins| - 1];
      OneFinalCallbackEach(before, h);
      RunKeepsInv(before);
      StepConserves(Run(before), ins[|ins| - 1], h);
    }
  }

  // Active subscribers wait for their open-success until the connection is acquired, and then have one.
  ghost predicate OpensRight(m: Machine, s: Subscriber) {
    !s.inactive ==> Opens(m.log, s.handle) == if m.state.Acquired? then 1 else 0
  }

  ghost predicate AllOpensRight(m: Machine) { forall s :: s in m.subs ==> OpensRight(m, s) }

  lemma {:induction false} RunTellsOpenOnce(ins: seq<Input>)
    requires FreshInputs(ins) && NoRestart(ins)
    ensures AllOpensRight(Run(ins))
  {
    if ins != [] {
      var before := ins[..|ins| - 1];
      RunTellsOpenOnce(before);
      RunKeepsInv(before);
      forall s | s in Run(ins).subs ensures OpensRight(Run(ins), s) {
        StepTellsOpenOnce(Run(before), ins[|ins| - 1], s);
      }
    }
  }

  lemma SubscribeTellsOpenOnce(m: Machine, x: Subscriber, s: Subscriber)
    requires AllOpensRight(m) && s in Subscribe(m, x).subs
    ensures OpensRight(Subscribe(m, x), s)
  {
    SubscribeLog(m, x, s.handle);
    assert s in m.subs || (s == x && !Has(m.subs, x.handle));
  }

  lemma LeaveTellsNoOpen(m: Machine, g: int, s: Subscriber)
    requires s in Leave(m, g).subs
    ensures Opens(Leave(m, g).log, s.handle) == Opens(m.log, s.handle)
    ensures !s.inactive ==> s in m.subs
  {
    LogAppend(m.log, CloseStatus(g, true), s.handle);
    ExceptMember(m.subs, WithHandle(g), s);
    if Waits(m.subs, g) {
      var i :| 0 <= i < |m.subs| && SetInactive(m.subs, g)[i] == s;
      assert m.subs[i] in m.subs;
    }
  }

  lemma UnsubscribeTellsOpenOnce(m: Machine, g: int, s: Subscriber)
    requires Inv(m) && AllOpensRight(m) && Has(m.subs, g) && s in Unsubscribe(m, g).subs
    ensures OpensRight(Unsubscribe(m, g), s)
  {
    LeaveTellsNoOpen(m, g, s);
  }

  lemma {:induction false} WhereActive(subs: seq<Subscriber>, s: Subscriber)
    requires s in subs && !s.inactive && Unique(subs)
    ensures Times(Where(subs, Active), s.handle) == 1
  {
    WhereExceptTimes(subs, Active, s.handle);
    WhereMember(subs, Active, s);
    HasTimes(Where(subs, Active), s.handle);
  }

  lemma {:induction false} WhereMember(subs: seq<Subscriber>, c: Choice, s: Subscriber)
    requires s in subs && Chosen(c, s)
    ensures s in Where(subs, c)
  {
    if s != subs[|subs| - 1] { WhereMember(subs[..|subs| - 1], c, s); }
  }

  lemma FinishTellsOpenOnce(m: Machine, s: Subscriber)
    requires Inv(m) && m.state.Releasing? && AllOpensRight(m) && s in FinishReleasing(m).subs
    ensures OpensRight(FinishReleasing(m), s)
  {
    NotifyTells(m.log, ReleasedEvent, Where(m.subs, Inactive), s.handle);
    ExceptMember(m.subs, Inactive, s);
  }

  lemma StepTellsOpenOnce(m: Machine, i: Input, s: Subscriber)
    requires Inv(m) && AllOpensRight(m) && !i.RestartIn? && s in Step(m, i).subs
    ensures OpensRight(Step(m, i), s)
  {
    match i
    case SubscribeIn(x) => SubscribeTellsOpenOnce(m, x, s);
    case UnsubscribeIn(g) => if Has(m.subs, g) { UnsubscribeTellsOpenOnce(m, g, s); }
    case GrantedIn =>
      NotifyTells(m.log, GrantedEvent, Where(m.subs, Active), s.handle);
      if s in m.subs && !s.inactive { WhereActive(m.subs, s); }
    case _ =>
      ExceptEveryone(m.subs);
      if m.state.Releasing? { FinishTellsOpenOnce(m, s); }
  }
}
