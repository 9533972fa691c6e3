/**
 What the events of the base AGPS machine do, told without the functions that compute it: states,
 lists, requests and the callbacks themselves, counted per handle; and, over runs, who is active and
 when the connection is held.
 */
module AgpsLaws {
  import opened AgpsSpec
  import opened Counting

  // ---------- Subscribers and callbacks, counted ----------

  ghost function ActiveTimes(subs: seq<Subscriber>, h: int): nat {
    if subs == [] then 0 else
    ActiveTimes(subs[..|subs| - 1], h) +
      if subs[|subs| - 1].handle == h && !subs[|subs| - 1].inactive then 1 else 0
  }

  ghost predicate HasActive(subs: seq<Subscriber>, h: int) { exists s :: s in subs && s.handle == h && !s.inactive }

  ghost predicate HasInactive(subs: seq<Subscriber>, h: int) { exists s :: s in subs && s.handle == h && s.inactive }

  lemma {:induction false} WhereActiveTimes(subs: seq<Subscriber>, h: int)
    ensures Times(Where(subs, Active), h) == ActiveTimes(subs, h)
  {
    if subs != [] {
      WhereActiveTimes(subs[..|subs| - 1], h);
      WhereNext(subs[..|subs| - 1], subs[|subs| - 1], Active, h);
      assert subs[..|subs| - 1] + [subs[|subs| - 1]] == subs;
    }
  }

  lemma {:induction false} WhereInactiveTimes(subs: seq<Subscriber>, h: int)
    ensures Times(Where(subs, Inactive), h) == Times(subs, h) - ActiveTimes(subs, h)
  {
    if subs != [] {
      WhereInactiveTimes(subs[..|subs| - 1], h);
      WhereNext(subs[..|subs| - 1], subs[|subs| - 1], Inactive, h);
      assert subs[..|subs| - 1] + [subs[|subs| - 1]] == subs;
    }
  }

  lemma {:induction false} WhereEveryone(subs: seq<Subscriber>)
    ensures Where(subs, Everyone) == subs
  {
    if subs != [] { WhereEveryone(subs[..|subs| - 1]); }
  }

  lemma WhereTimes(subs: seq<Subscriber>, h: int)
    ensures Times(Where(subs, Active), h) == ActiveTimes(subs, h)
    ensures Times(Where(subs, Inactive), h) == Times(subs, h) - ActiveTimes(subs, h)
    ensures Times(Where(subs, Everyone), h) == Times(subs, h)
  {
    WhereActiveTimes(subs, h);
    WhereInactiveTimes(subs, h);
    WhereEveryone(subs);
  }

  lemma WhereNext(front: seq<Subscriber>, last: Subscriber, c: Choice, h: int)
    ensures Times(Where(front + [last], c), h)
            == Times(Where(front, c), h) + if Chosen(c, last) && last.handle == h then 1 else 0
  {
    assert (front + [last])[..|front|] == front;
    TimesAppend(Where(front, c), last, h);
    assert Where(front, c) + [] == Where(front, c);
  }

  // The callback of an event to a list, entry by entry.
  lemma {:induction false} StatusesCount(log: seq<Entry>, e: Event, subs: seq<Subscriber>, x: Entry)
    requires !e.SubscribeEvent?
    ensures Count(log + Statuses(e, subs), x) == Count(log, x) +
              if (match e
                  case GrantedEvent => x.OpenStatus? && x.success
                  case DeniedEvent => x.OpenStatus? && !x.success
                  case _ => x.CloseStatus? && x.success)
              then Times(subs, x.handle) else 0
  {
    if subs == [] {
      assert log + [] == log;
    } else {
      var front := subs[..|subs| - 1];
      StatusesCount(log, e, front, x);
      StatusesStep(log, e, subs);
      CountAppend(log + Statuses(e, front), Status(e, subs[|subs| - 1].handle)[0], x);
    }
  }

  // The entry x was added to the log so many times.
  ghost predicate Added(m: Machine, n: Machine, x: Entry, times: int) { Count(n.log, x) == Count(m.log, x) + times }

  // ---------- The events ----------

  // A grant in PENDING: the connection is acquired, and each active subscriber is told that it is open.
  lemma GrantEffect(m: Machine)
    ensures var n := Step(m, GrantedIn);
            if !m.state.Pending? then n == m
            else n.state == Acquired && n.subs == m.subs && n.requests == m.requests &&
                 forall x: Entry :: Added(m, n, x, if x.OpenStatus? && x.success then ActiveTimes(m.subs, x.handle) else 0)
  {
    forall x: Entry ensures m.state.Pending? ==>
      Added(m, Step(m, GrantedIn), x, if x.OpenStatus? && x.success then ActiveTimes(m.subs, x.handle) else 0)
    {
      StatusesCount(m.log, GrantedEvent, Where(m.subs, Active), x);
      WhereTimes(m.subs, x.handle);
    }
  }

  ghost predicate ActiveStay(m: Machine, n: Machine) {
    n.subs == Except(m.subs, Inactive) && (forall s :: s in n.subs <==> s in m.subs && !s.inactive) &&
    forall h :: Times(n.subs, h) == ActiveTimes(m.subs, h)
  }

  ghost predicate InactiveTold(m: Machine, n: Machine) {
    forall x: Entry :: Added(m, n, x,
      if x.CloseStatus? && x.success then Times(m.subs, x.handle) - ActiveTimes(m.subs, x.handle) else 0)
  }

  // The end of a release: the inactive subscribers are told that it is closed and leave; the active ones
  // stay, and if there are any the connection is requested again.
  ghost predicate ReleaseEnds(m: Machine, n: Machine) {
    ActiveStay(m, n) && InactiveTold(m, n) &&
    if exists s :: s in m.subs && !s.inactive
    then n.state == Pending && n.requests == m.requests + [true]
    else n.state == Released && n.requests == m.requests
  }

  lemma FinishList(m: Machine)
    ensures ActiveStay(m, FinishReleasing(m))
  {
    var n := FinishReleasing(m);
    forall s ensures s in n.subs <==> s in m.subs && !s.inactive { ExceptMember(m.subs, Inactive, s); }
    forall h ensures Times(n.subs, h) == ActiveTimes(m.subs, h) {
      WhereExceptTimes(m.subs, Inactive, h);
      WhereInactiveTimes(m.subs, h);
    }
  }

  lemma FinishTells(m: Machine)
    ensures InactiveTold(m, FinishReleasing(m))
  {
    var n := FinishReleasing(m);
    forall x: Entry ensures Added(m, n, x,
      if x.CloseStatus? && x.success then Times(m.subs, x.handle) - ActiveTimes(m.subs, x.handle) else 0)
    {
      StatusesCount(m.log, ReleasedEvent, Where(m.subs, Inactive), x);
      WhereInactiveTimes(m.subs, x.handle);
    }
  }

  lemma FinishEffect(m: Machine)
    ensures ReleaseEnds(m, FinishReleasing(m))
  {
    FinishList(m);
    FinishTells(m);
  }

  // Everyone leaves, told the entry x with success or without.
  ghost predicate EveryoneLeaves(m: Machine, n: Machine, open: bool) {
    n.state == Released && n.subs == [] && n.requests == m.requests &&
    forall x: Entry :: Added(m, n, x,
      if (if open then x.OpenStatus? && !x.success else x.CloseStatus? && x.success) then Times(m.subs, x.handle) else 0)
  }

  lemma LeaveAllEffect(m: Machine, e: Event)
    requires e.DeniedEvent? || e.ReleasedEvent?
    ensures EveryoneLeaves(m, NotifyAll(m.(state := Released), e, true, Everyone), e.DeniedEvent?)
  {
    ExceptEveryone(m.subs);
    var n := NotifyAll(m.(state := Released), e, true, Everyone);
    forall x: Entry ensures Added(m, n, x,
      if (if e.DeniedEvent? then x.OpenStatus? && !x.success else x.CloseStatus? && x.success)
      then Times(m.subs, x.handle) else 0)
    {
      StatusesCount(m.log, e, Where(m.subs, Everyone), x);
      WhereTimes(m.subs, x.handle);
    }
  }

  // A denial: in PENDING everyone is told that the opening failed, and leaves.
  lemma DenialEffect(m: Machine)
    ensures var n := Step(m, DeniedIn);
            match m.state
            case Pending => EveryoneLeaves(m, n, true)
            case Releasing => ReleaseEnds(m, n)
            case _ => n == m
  {
    if m.state.Pending? { LeaveAllEffect(m, DeniedEvent); }
    FinishEffect(m);
  }

  // A close: in ACQUIRED everyone is told that the connection is closed, and leaves.
  lemma CloseEffect(m: Machine)
    ensures var n := Step(m, ReleasedIn);
            match m.state
            case Acquired => EveryoneLeaves(m, n, false)
            case Releasing => ReleaseEnds(m, n)
            case _ => n == m
  {
    if m.state.Acquired? { LeaveAllEffect(m, ReleasedEvent); }
    FinishEffect(m);
  }

  // A subscription: the list gets the subscriber unless its handle is there; the connection is requested
  // in RELEASED, and told to be open in ACQUIRED. The marks of the proofs are not callbacks.
  lemma SubscribeEffect(m: Machine, s: Subscriber)
    ensures var n := Step(m, SubscribeIn(s));
            n.subs == (if exists x :: x in m.subs && x.handle == s.handle then m.subs else m.subs + [s]) &&
            n.state == (if m.state.Released? then Pending else m.state) &&
            n.requests == (if m.state.Released? then m.requests + [true] else m.requests) &&
            forall x: Entry :: x.OpenStatus? || x.CloseStatus? ==>
              Added(m, n, x, if m.state.Acquired? && x == OpenStatus(s.handle, true) then 1 else 0)
  {
    var n := Step(m, SubscribeIn(s));
    forall x: Entry | x.OpenStatus? || x.CloseStatus?
      ensures Added(m, n, x, if m.state.Acquired? && x == OpenStatus(s.handle, true) then 1 else 0)
    {
      var mark := Mark(m, s.handle);
      if mark == [] {
        assert m.log + mark == m.log;
      } else {
        CountAppend(m.log, mark[0], x);
        assert m.log + mark == m.log + [mark[0]];
      }
      CountAppend(m.log + mark, OpenStatus(s.handle, true), x);
    }
  }

  // A release of a subscriber on the list: one that waits for the close becomes inactive and is told
  // nothing; another is told that it is closed, and leaves. Then the connection is given up if nobody
  // active is left.
  lemma UnsubscribeEffect(m: Machine, w: Subscriber)
    requires Unique(m.subs) && w in m.subs && !m.state.Released?
    ensures var n := Step(m, UnsubscribeIn(w.handle));
            (if w.waitForClose
             then |n.subs| == |m.subs| &&
                  (forall i :: 0 <= i < |m.subs| ==>
                     n.subs[i] == if m.subs[i] == w then w.(inactive := true) else m.subs[i]) &&
                  n.log == m.log
             else n.subs == Except(m.subs, WithHandle(w.handle)) &&
                  (forall s :: s in n.subs <==> s in m.subs && s.handle != w.handle) &&
                  n.log == m.log + [CloseStatus(w.handle, true)]) &&
            (if n.subs == []
             then n.state == Released
             else if m.state.Releasing? || (exists s :: s in n.subs && !s.inactive) then n.state == m.state
             else n.state == Releasing) &&
            n.requests == (if n.state != m.state && !m.state.Releasing? then m.requests + [false] else m.requests)
  {
    var n, h := Step(m, UnsubscribeIn(w.handle)), w.handle;
    WaitsOne(m.subs, w);
    if w.waitForClose {
      forall i | 0 <= i < |m.subs|
        ensures n.subs[i] == if m.subs[i] == w then w.(inactive := true) else m.subs[i]
      {
        if m.subs[i].handle == h { OneOfHandle(m.subs, m.subs[i], w); }
      }
    } else {
      forall s ensures s in n.subs <==> s in m.subs && s.handle != h { ExceptMember(m.subs, WithHandle(h), s); }
    }
  }

  lemma OneOfHandle(subs: seq<Subscriber>, s: Subscriber, t: Subscriber)
    requires Unique(subs) && s in subs && t in subs && s.handle == t.handle
    ensures s == t
  {
    var i :| 0 <= i < |subs| && subs[i] == s;
    var j :| 0 <= j < |subs| && subs[j] == t;
    if i < j { TwoTimes(subs, i, j); }
    if j < i { TwoTimes(subs, j, i); }
  }

  lemma WaitsOne(subs: seq<Subscriber>, w: Subscriber)
    requires Unique(subs) && w in subs
    ensures Waits(subs, w.handle) <==> w.waitForClose
  {
    if Waits(subs, w.handle) {
      var v :| v in subs && v.handle == w.handle && v.waitForClose;
      OneOfHandle(subs, v, w);
    }
  }

  // A release of a handle that is not on the list, and a modem restart.
  lemma OtherEffects(m: Machine, h: int)
    ensures (forall s :: s in m.subs ==> s.handle != h) ==> Step(m, UnsubscribeIn(h)) == m
    ensures Step(m, RestartIn) == Machine(m.state, [], m.log, m.requests)
  {
  }

  // The order of a list from which some leave is kept.
  lemma {:induction false} ExceptConcat(a: seq<Subscriber>, b: seq<Subscriber>, c: Choice)
    ensures Except(a + b, c) == Except(a, c) + Except(b, c)
  {
    if b == [] {
      assert a + b == a;
    } else {
      ExceptConcat(a, b[..|b| - 1], c);
      assert (a + b)[..|a + b| - 1] == a + b[..|b| - 1];
    }
  }

  lemma ExceptOne(s: Subscriber, c: Choice)
    ensures Except([s], c) ==
              if (match c
                  case Everyone => true
                  case Inactive => s.inactive
                  case Active => !s.inactive
                  case WithHandle(h) => s.handle == h) then [] else [s]
  {
    assert [s][..0] == [];
  }

  // ---------- Who is active ----------

  lemma StepActive(m: Machine, i: Input, h: int)
    requires Inv(m) && !i.RestartIn? && (i.SubscribeIn? ==> !i.s.inactive)
    ensures HasActive(Step(m, i).subs, h) <==>
              match i
              case SubscribeIn(s) => HasActive(m.subs, h) || (s.handle == h && !HasInactive(m.subs, h))
              case UnsubscribeIn(g) => HasActive(m.subs, h) && g != h
              case GrantedIn => HasActive(m.subs, h)
              case ReleasedIn => HasActive(m.subs, h) && !m.state.Acquired?
              case DeniedIn => HasActive(m.subs, h) && !m.state.Pending?
  {
    var n := Step(m, i);
    match i
    case SubscribeIn(s) => assert forall x :: x in n.subs <==> x in m.subs || (x == s && !Has(m.subs, s.handle));
    case UnsubscribeIn(g) =>
      if Has(m.subs, g) {
        var w :| w in m.subs && w.handle == g;
        UnsubscribeEffect(m, w);
        UnsubscribeActive(m, n, w, h);
      }
    case GrantedIn =>
    case ReleasedIn => CloseEffect(m);
    case DeniedIn => DenialEffect(m);
  }

  lemma UnsubscribeActive(m: Machine, n: Machine, w: Subscriber, h: int)
    requires Unique(m.subs) && w in m.subs
    requires if w.waitForClose
             then |n.subs| == |m.subs| &&
                  forall i :: 0 <= i < |m.subs| ==>
                    n.subs[i] == if m.subs[i] == w then w.(inactive := true) else m.subs[i]
             else forall s :: s in n.subs <==> s in m.subs && s.handle != w.handle
    ensures HasActive(n.subs, h) <==> HasActive(m.subs, h) && w.handle != h
  {
    if HasActive(m.subs, h) && w.handle != h {
      var s :| s in m.subs && s.handle == h && !s.inactive;
      var i :| 0 <= i < |m.subs| && m.subs[i] == s;
      if w.waitForClose { assert n.subs[i] == s; }
      assert s in n.subs;
    }
    if HasActive(n.subs, h) && w.waitForClose {
      var s :| s in n.subs && s.handle == h && !s.inactive;
      var i :| 0 <= i < |n.subs| && n.subs[i] == s;
      assert m.subs[i] == s && s in m.subs;
      if w.handle == h { OneOfHandle(m.subs, s, w); }
    }
  }

  // From this input on: a subscription of h, when it is not still waiting for a close, after which h was
  // not released, and the connection neither denied nor terminated.
  ghost predicate ActiveSince(ins: seq<Input>, h: int, k: int) {
    0 <= k < |ins| && ins[k].SubscribeIn? && ins[k].s.handle == h && !HasInactive(Run(ins[..k]).subs, h) &&
    forall j :: k < j < |ins| ==> !EndsActivity(ins, h, j)
  }

  ghost predicate EndsActivity(ins: seq<Input>, h: int, j: int)
    requires 0 <= j < |ins|
  {
    ins[j] == UnsubscribeIn(h) ||
    (ins[j] == DeniedIn && Run(ins[..j]).state == Pending) ||
    (ins[j] == ReleasedIn && Run(ins[..j]).state == Acquired)
  }

  lemma ActiveSinceNext(ins: seq<Input>, h: int, k: int)
    requires ins != []
    ensures var before := ins[..|ins| - 1];
            k != |before| ==> (ActiveSince(ins, h, k) <==> ActiveSince(before, h, k) && !EndsActivity(ins, h, |before|))
  {
    var before := ins[..|ins| - 1];
    if 0 <= k < |before| {
      assert before[..k] == ins[..k];
      forall j | k < j < |before| ensures EndsActivity(ins, h, j) <==> EndsActivity(before, h, j) {
        assert before[..j] == ins[..j];
      }
    }
  }

  // Over every run without modem restart, by the inputs: who is active.
  lemma {:induction false} ActiveIff(ins: seq<Input>, h: int)
    requires FreshInputs(ins) && NoRestart(ins)
    ensures HasActive(Run(ins).subs, h) <==> exists k :: ActiveSince(ins, h, k)
  {
    if ins != [] {
      var before, last := ins[..|ins| - 1], ins[|ins| - 1];
      ActiveIff(before, h);
      RunKeepsInv(before);
      StepActive(Run(before), last, h);
      if HasActive(Run(before).subs, h) && !EndsActivity(ins, h, |before|) {
        var k :| ActiveSince(before, h, k);
        ActiveSinceNext(ins, h, k);
      }
      if last.SubscribeIn? && last.s.handle == h && !HasInactive(Run(before).subs, h) {
        assert ActiveSince(ins, h, |before|);
      }
      if k :| ActiveSince(ins, h, k) {
        ActiveSinceNext(ins, h, k);
      }
    }
  }

  // ---------- When the connection is held ----------

  // A grant was taken in PENDING, and since then the connection was not terminated and always had an
  // active subscriber.
  ghost predicate HeldSince(ins: seq<Input>, k: int) {
    0 <= k < |ins| && ins[k] == GrantedIn && Run(ins[..k]).state == Pending &&
    forall j :: k < j < |ins| ==> KeepsConnection(ins, j)
  }

  ghost predicate KeepsConnection(ins: seq<Input>, j: int)
    requires 0 <= j < |ins|
  {
    ins[j] != ReleasedIn && exists s :: s in Run(ins[..j + 1]).subs && !s.inactive
  }

  lemma HeldSinceNext(ins: seq<Input>, k: int)
    requires ins != []
    ensures var before := ins[..|ins| - 1];
            k != |before| ==> (HeldSince(ins, k) <==> HeldSince(before, k) && KeepsConnection(ins, |before|))
  {
    var before := ins[..|ins| - 1];
    if 0 <= k < |before| {
      assert before[..k] == ins[..k];
      forall j | k < j < |before| ensures KeepsConnection(ins, j) <==> KeepsConnection(before, j) {
        assert before[..j + 1] == ins[..j + 1];
      }
    }
  }

  // Over every run without modem restart the machine is ACQUIRED exactly when it took a grant in PENDING
  // and has neither given the connection up nor lost it since.
  lemma {:induction false} AcquiredIff(ins: seq<Input>)
    requires FreshInputs(ins) && NoRestart(ins)
    ensures Run(ins).state == Acquired <==> exists k :: HeldSince(ins, k)
  {
    if ins != [] {
      var before, last := ins[..|ins| - 1], ins[|ins| - 1];
      AcquiredIff(before);
      RunKeepsInv(before);
      StepAcquired(Run(before), last);
      HeldNext(ins);
    }
  }

  lemma HeldNext(ins: seq<Input>)
    requires ins != []
    ensures var before := ins[..|ins| - 1];
            (exists k :: HeldSince(ins, k)) <==>
              (Run(before).state == Pending && ins[|before|] == GrantedIn) ||
              ((exists k :: HeldSince(before, k)) && KeepsConnection(ins, |before|))
    ensures KeepsConnection(ins, |ins| - 1) <==>
              ins[|ins| - 1] != ReleasedIn && exists s :: s in Run(ins).subs && !s.inactive
  {
    var before := ins[..|ins| - 1];
    assert ins[..|ins| - 1 + 1] == ins;
    if Run(before).state == Pending && ins[|before|] == GrantedIn { assert HeldSince(ins, |before|); }
    if k :| HeldSince(before, k) { HeldSinceNext(ins, k); }
    if k :| HeldSince(ins, k) { HeldSinceNext(ins, k); }
  }

  lemma StepAcquired(m: Machine, i: Input)
    requires Inv(m) && !i.RestartIn?
    ensures var n := Step(m, i);
            n.state == Acquired <==>
              (m.state == Pending && i == GrantedIn) ||
              (m.state == Acquired && i != ReleasedIn && exists s :: s in n.subs && !s.inactive)
  {
    match i
    case SubscribeIn(s) =>
      SubscribeEffect(m, s);
      if m.state == Acquired {
        var x :| x in m.subs && !x.inactive;
        assert x in Step(m, i).subs;
      }
    case UnsubscribeIn(h) =>
      if Has(m.subs, h) {
        var w :| w in m.subs && w.handle == h;
        UnsubscribeEffect(m, w);
      }
    case GrantedIn => GrantEffect(m);
    case ReleasedIn => CloseEffect(m);
    case DeniedIn => DenialEffect(m);
  }
}
