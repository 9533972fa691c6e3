/**
 gps/gnss/Agps.cpp as it is written, for the base machine: event handlers that change the state and
 the subscriber list in place, with the loops that walk and erase from the list. Subscribers are
 compared by handle. Every handler leaves the machine that the function of AgpsSpec gives.
 */
module Agps {
  import opened Wrappers
  import opened AgpsSpec
  import Laws = AgpsLaws

  const BEARER_INVALID := 0  // AGPS_APN_BEARER_INVALID

  class AgpsStateMachine {
    var mState: State
    var mSubscriberList: seq<Subscriber>
    var mCurrentSubscriber: Subscriber
    var mAPN: Option<string>
    var mBearer: int
    ghost var log: seq<Entry>
    ghost var requests: seq<bool>
    ghost var history: seq<Input>  // the events and restarts that it took

    ghost function Value(): Machine
      reads this
    {
      Machine(mState, mSubscriberList, log, requests)
    }

    ghost predicate Valid()
      reads this
    {
      Unique(mSubscriberList)
    }

    // What it is comes from what it took, and from nothing else.
    ghost predicate Traced()
      reads this
    {
      Valid() && Value() == Run(history)
    }

    constructor ()
      ensures Traced() && Value() == INITIAL && history == []
    {
      mState, mSubscriberList := Released, [];
      mAPN, mBearer := None, BEARER_INVALID;
      mCurrentSubscriber := Subscriber(0, false, false);
      log, requests, history := [], [], [];
    }

    // ---------- The list ----------

    method AddSubscriber(subscriberToAdd: Subscriber)
      modifies this`mSubscriberList
      ensures mSubscriberList == Add(old(mSubscriberList), subscriberToAdd)
    {
      for it := 0 to |mSubscriberList|
        invariant forall k :: 0 <= k < it ==> mSubscriberList[k].handle != subscriberToAdd.handle
        invariant mSubscriberList == old(mSubscriberList)
      {
        if mSubscriberList[it].handle == subscriberToAdd.handle {
          assert mSubscriberList[it] in mSubscriberList;
          return;
        }
      }
      mSubscriberList := mSubscriberList + [subscriberToAdd];
    }

    method DeleteSubscriber(subscriberToDelete: Subscriber)
      modifies this`mSubscriberList
      ensures mSubscriberList == Except(old(mSubscriberList), WithHandle(subscriberToDelete.handle))
    {
      ghost var c := WithHandle(subscriberToDelete.handle);
      ghost var kept, rest, goal := [], mSubscriberList, ExceptFront(mSubscriberList, c);
      var it := 0;
      while it < |mSubscriberList|
        invariant it == |kept| && mSubscriberList == kept + rest && kept + Kept(true, c, rest) == goal
        decreases |rest|
      {
        if mSubscriberList[it].handle == subscriberToDelete.handle {
          EraseVisited(kept, rest, c);
          mSubscriberList := mSubscriberList[..it] + mSubscriberList[it + 1..];
        } else {
          KeepVisited(kept, rest, true, c);
          it := it + 1;
          kept := kept + [rest[0]];
        }
        rest := rest[1..];
      }
      ExceptIs(old(mSubscriberList), c);
    }

    method AnyActiveSubscribers() returns (any: bool)
      ensures any == AnyActive(mSubscriberList)
    {
      for it := 0 to |mSubscriberList|
        invariant forall k :: 0 <= k < it ==> mSubscriberList[k].inactive
      {
        if !mSubscriberList[it].inactive {
          assert mSubscriberList[it] in mSubscriberList;
          return true;
        }
      }
      return false;
    }

    method GetSubscriber(connHandle: int) returns (found: Option<Subscriber>)
      ensures found.Some? <==> Has(mSubscriberList, connHandle)
      ensures found.Some? ==> found.value in mSubscriberList && found.value.handle == connHandle
    {
      for it := 0 to |mSubscriberList|
        invariant forall k :: 0 <= k < it ==> mSubscriberList[k].handle != connHandle
      {
        if mSubscriberList[it].handle == connHandle {
          return Some(mSubscriberList[it]);
        }
      }
      return None;
    }

    method DropAllSubscribers()
      modifies this`mSubscriberList, this`history
      ensures mSubscriberList == [] && history == old(history) + [RestartIn]
      ensures old(Traced()) ==> Traced()
    {
      RunNext(history, RestartIn);
      while mSubscriberList != []
        invariant history == old(history)
        decreases |mSubscriberList|
      {
        mSubscriberList := mSubscriberList[1..];
      }
      history := history + [RestartIn];
    }

    // ---------- Callbacks and requests ----------

    method RequestOrReleaseDataConn(request: bool) returns (ret: int)
      modifies this`requests
      ensures ret == 0 && requests == old(requests) + [request]
    {
      requests := requests + [request];
      ret := 0;
    }

    method NotifyEventToSubscriber(event: Event, subscriberToNotify: Subscriber, deleteSubscriberPostNotify: bool)
      modifies this`log, this`mSubscriberList
      ensures log == old(log) + Status(event, subscriberToNotify.handle)
      ensures mSubscriberList == if deleteSubscriberPostNotify
                then Except(old(mSubscriberList), WithHandle(subscriberToNotify.handle)) else old(mSubscriberList)
    {
      log := log + Status(event, subscriberToNotify.handle);
      if deleteSubscriberPostNotify {
        DeleteSubscriber(subscriberToNotify);
      }
    }

    method NotifyAllSubscribers(event: Event, deleteSubscriberPostNotify: bool, notificationType: Choice)
      modifies this`log, this`mSubscriberList
      ensures Value() == NotifyAll(old(Value()), event, deleteSubscriberPostNotify, notificationType)
    {
      ExceptIs(mSubscriberList, notificationType);
      StatusesIs(event, notificationType, mSubscriberList);
      NotifyWalk(event, deleteSubscriberPostNotify, notificationType);
    }

    method NotifyWalk(event: Event, deleteSubscriberPostNotify: bool, notificationType: Choice)
      modifies this`log, this`mSubscriberList
      ensures mSubscriberList == Kept(deleteSubscriberPostNotify, notificationType, old(mSubscriberList))
      ensures log == old(log) + StatusesFront(event, notificationType, old(mSubscriberList))
    {
      ghost var c, drop := notificationType, deleteSubscriberPostNotify;
      ghost var kept, rest, goal := [], mSubscriberList, Kept(drop, c, mSubscriberList);
      ghost var told, said := log, log + StatusesFront(event, c, mSubscriberList);
      var it := 0;
      while it < |mSubscriberList|
        invariant it == |kept| && mSubscriberList == kept + rest && kept + Kept(drop, c, rest) == goal
        invariant log == told && told + StatusesFront(event, c, rest) == said
        decreases |rest|
      {
        told := Tell(told, event, c, rest);
        var subscriber := mSubscriberList[it];
        if Chosen(notificationType, subscriber) {
          NotifyEventToSubscriber(event, subscriber, false);
        }
        if Chosen(notificationType, subscriber) && deleteSubscriberPostNotify {
          EraseVisited(kept, rest, c);
          mSubscriberList := mSubscriberList[..it] + mSubscriberList[it + 1..];
        } else {
          KeepVisited(kept, rest, drop, c);
          it := it + 1;
          kept := kept + [rest[0]];
        }
        rest := rest[1..];
      }
    }

    // The APN as it is given, cut off at the given length; no APN if it is NULL.
    method SetAPN(apn: Option<string>, len: nat)
      requires apn.Some? ==> len <= |apn.value|
      modifies this`mAPN
      ensures mAPN == if apn == None then None else Some(apn.value[..len])
    {
      if apn == None || len == 0 {
        mAPN := None;
      }
      if apn.Some? {
        mAPN := Some(apn.value[..len]);
      }
    }

    // ---------- The events ----------

    method ProcessSubscribe()
      requires Valid()
      modifies this`mState, this`mSubscriberList, this`mCurrentSubscriber, this`log, this`requests
      ensures Valid() && Value() == Subscribe(old(Value()), old(mCurrentSubscriber))
    {
      AddUnique(mSubscriberList, mCurrentSubscriber);
      log := log + Mark(Value(), mCurrentSubscriber.handle);
      match mState {
        case Released =>
          AddSubscriber(mCurrentSubscriber);
          var ret := RequestOrReleaseDataConn(true);
          if ret == 0 {
            mState := Pending;
          }
        case Pending =>
          AddSubscriber(mCurrentSubscriber);
        case Acquired =>
          NotifyEventToSubscriber(GrantedEvent, mCurrentSubscriber, false);
          AddSubscriber(mCurrentSubscriber);
        case Releasing =>
          AddSubscriber(mCurrentSubscriber);
      }
    }

    // The part of unsubscribing that PENDING, ACQUIRED and RELEASING share.
    method LeaveOrWait()
      requires Valid() && mCurrentSubscriber in mSubscriberList
      modifies this`mSubscriberList, this`mCurrentSubscriber, this`log
      ensures Value() == Leave(old(Value()), old(mCurrentSubscriber.handle))
      ensures Valid()
    {
      var h := mCurrentSubscriber.handle;
      Laws.WaitsOne(mSubscriberList, mCurrentSubscriber);
      LeaveUnique(Value(), h);
      if mCurrentSubscriber.waitForClose {
        mCurrentSubscriber := mCurrentSubscriber.(inactive := true);
        mSubscriberList := SetInactive(mSubscriberList, h);
      } else {
        NotifyEventToSubscriber(UnsubscribeEvent, mCurrentSubscriber, true);
      }
    }

    method ProcessUnsubscribe()
      requires Valid() && mCurrentSubscriber in mSubscriberList
      modifies this`mState, this`mSubscriberList, this`mCurrentSubscriber, this`log, this`requests
      ensures Valid() && Value() == Unsubscribe(old(Value()), old(mCurrentSubscriber.handle))
    {
      match mState {
        case Released =>
          NotifyEventToSubscriber(UnsubscribeEvent, mCurrentSubscriber, false);
        case Releasing =>
          LeaveOrWait();
          if mSubscriberList == [] {
            mState := Released;
          }
        case _ =>
          LeaveOrWait();
          var any := AnyActiveSubscribers();
          if mSubscriberList == [] {
            mState := Released;
            var ret := RequestOrReleaseDataConn(false);
          } else if !any {
            mState := Releasing;
            var ret := RequestOrReleaseDataConn(false);
          }
      }
    }

    method ProcessGranted()
      requires Valid()
      modifies this`mState, this`mSubscriberList, this`mCurrentSubscriber, this`log, this`requests
      ensures Valid() && Value() == Granted(old(Value()))
    {
      if mState == Pending {
        mState := Acquired;
        NotifyAllSubscribers(GrantedEvent, false, Active);
      }
    }

    // What RELEASING does on RELEASED and on DENIED.
    method ProcessReleaseDone()
      requires Valid()
      modifies this`mState, this`mSubscriberList, this`mCurrentSubscriber, this`log, this`requests
      ensures Valid() && Value() == FinishReleasing(old(Value()))
    {
      ExceptUnique(mSubscriberList, Inactive);
      NotifyAllSubscribers(ReleasedEvent, true, Inactive);
      var any := AnyActiveSubscribers();
      if any {
        mState := Pending;
        var ret := RequestOrReleaseDataConn(true);
      } else {
        mState := Released;
      }
    }

    method ProcessReleased()
      requires Valid()
      modifies this`mState, this`mSubscriberList, this`mCurrentSubscriber, this`log, this`requests
      ensures Valid() && Value() == Closed(old(Value()))
    {
      ExceptUnique(mSubscriberList, Everyone);
      match mState {
        case Acquired =>
          mState := Released;
          NotifyAllSubscribers(ReleasedEvent, true, Everyone);
        case Releasing =>
          ProcessReleaseDone();
        case _ =>
      }
    }

    method ProcessDenied()
      requires Valid()
      modifies this`mState, this`mSubscriberList, this`mCurrentSubscriber, this`log, this`requests
      ensures Valid() && Value() == Denied(old(Value()))
    {
      ExceptUnique(mSubscriberList, Everyone);
      match mState {
        case Pending =>
          mState := Released;
          NotifyAllSubscribers(DeniedEvent, true, Everyone);
        case Releasing =>
          ProcessReleaseDone();
        case _ =>
      }
    }

    method ProcessAgpsEvent(event: Event)
      requires Traced()
      requires event.UnsubscribeEvent? ==> mCurrentSubscriber in mSubscriberList
      modifies this`mState, this`mSubscriberList, this`mCurrentSubscriber, this`log, this`requests, this`history
      ensures Traced() && history == old(history) + [InputOf(event, old(mCurrentSubscriber))]
      ensures Value() == Step(old(Value()), InputOf(event, old(mCurrentSubscriber)))
    {
      RunNext(history, InputOf(event, mCurrentSubscriber));
      history := history + [InputOf(event, mCurrentSubscriber)];
      match event {
        case SubscribeEvent => ProcessSubscribe();
        case UnsubscribeEvent => ProcessUnsubscribe();
        case GrantedEvent => ProcessGranted();
        case ReleasedEvent => ProcessReleased();
        case DeniedEvent => ProcessDenied();
      }
    }
  }

  lemma RunNext(history: seq<Input>, i: Input)
    ensures Run(history + [i]) == Step(Run(history), i)
  {
    assert (history + [i])[..|history|] == history;
  }

  function InputOf(event: Event, current: Subscriber): Input {
    match event
    case SubscribeEvent => SubscribeIn(current)
    case UnsubscribeEvent => UnsubscribeIn(current.handle)
    case GrantedEvent => GrantedIn
    case ReleasedEvent => ReleasedIn
    case DeniedEvent => DeniedIn
  }

  // The specification's list functions, from the front as the loops go.
  ghost function ExceptFront(subs: seq<Subscriber>, c: Choice): seq<Subscriber> {
    if subs == [] then [] else (if Chosen(c, subs[0]) then [] else [subs[0]]) + ExceptFront(subs[1..], c)
  }

  ghost function StatusesFront(e: Event, c: Choice, subs: seq<Subscriber>): seq<Entry> {
    if subs == [] then [] else
    (if Chosen(c, subs[0]) then Status(e, subs[0].handle) else []) + StatusesFront(e, c, subs[1..])
  }

  ghost function Kept(drop: bool, c: Choice, subs: seq<Subscriber>): seq<Subscriber> {
    if drop then ExceptFront(subs, c) else subs
  }

  // One more subscriber visited and erased from the list, or kept.
  lemma EraseVisited(kept: seq<Subscriber>, rest: seq<Subscriber>, c: Choice)
    requires rest != [] && Chosen(c, rest[0])
    ensures var list := kept + rest;
            list[..|kept|] + list[|kept| + 1..] == kept + rest[1..] &&
            ExceptFront(rest[1..], c) == ExceptFront(rest, c)
  {
    assert (kept + rest)[|kept| + 1..] == rest[1..];
  }

  lemma KeepVisited(kept: seq<Subscriber>, rest: seq<Subscriber>, drop: bool, c: Choice)
    requires rest != [] && !(drop && Chosen(c, rest[0]))
    ensures (kept + [rest[0]]) + rest[1..] == kept + rest
    ensures (kept + [rest[0]]) + Kept(drop, c, rest[1..]) == kept + Kept(drop, c, rest)
  {
    assert Kept(drop, c, rest) == [rest[0]] + Kept(drop, c, rest[1..]);
  }

  lemma Tell(told: seq<Entry>, e: Event, c: Choice, rest: seq<Subscriber>) returns (next: seq<Entry>)
    requires rest != []
    ensures next == if Chosen(c, rest[0]) then told + Status(e, rest[0].handle) else told
    ensures next + StatusesFront(e, c, rest[1..]) == told + StatusesFront(e, c, rest)
  {
    next := if Chosen(c, rest[0]) then told + Status(e, rest[0].handle) else told;
  }

  lemma {:induction false} ExceptIs(subs: seq<Subscriber>, c: Choice)
    ensures ExceptFront(subs, c) == Except(subs, c)
  {
    if subs != [] {
      var front, last := subs[..|subs| - 1], subs[|subs| - 1];
      ExceptIs(front, c);
      ExceptSnoc(front, last, c);
      assert front + [last] == subs;
    }
  }

  lemma {:induction false} ExceptSnoc(front: seq<Subscriber>, last: Subscriber, c: Choice)
    ensures ExceptFront(front + [last], c) == ExceptFront(front, c) + if Chosen(c, last) then [] else [last]
  {
    if front != [] {
      ExceptSnoc(front[1..], last, c);
      assert (front + [last])[1..] == front[1..] + [last];
    }
  }

  lemma {:induction false} StatusesIs(e: Event, c: Choice, subs: seq<Subscriber>)
    ensures StatusesFront(e, c, subs) == Statuses(e, Where(subs, c))
  {
    if subs != [] {
      var front, last := subs[..|subs| - 1], subs[|subs| - 1];
      StatusesIs(e, c, front);
      StatusesSnoc(e, c, front, last);
      assert front + [last] == subs;
      StatusesAppend(e, Where(front, c), last);
      assert Where(subs, c) == Where(front, c) + if Chosen(c, last) then [last] else [];
      assert Where(front, c) + [] == Where(front, c);
    }
  }

  lemma StatusesAppend(e: Event, subs: seq<Subscriber>, s: Subscriber)
    ensures Statuses(e, subs + [s]) == Statuses(e, subs) + Status(e, s.handle)
  {
    assert (subs + [s])[..|subs|] == subs;
  }

  lemma {:induction false} StatusesSnoc(e: Event, c: Choice, front: seq<Subscriber>, last: Subscriber)
    ensures StatusesFront(e, c, front + [last])
            == StatusesFront(e, c, front) + if Chosen(c, last) then Status(e, last.handle) else []
  {
    if front != [] {
      StatusesSnoc(e, c, front[1..], last);
      assert (front + [last])[1..] == front[1..] + [last];
    }
  }

  lemma LeaveUnique(m: Machine, h: int)
    requires Unique(m.subs)
    ensures Unique(Leave(m, h).subs)
  {
    ExceptUnique(m.subs, WithHandle(h));
    forall g ensures Times(SetInactive(m.subs, h), g) <= 1 { SetInactiveTimes(m.subs, h, g); }
  }

  // ---------- The manager ----------

  datatype AGpsExtType = TypeInvalid | TypeSupl | TypeWwanAny | TypeSuplEs | TypeOther

  // Without the emergency data service client: mDsNif stays NULL.
  class AgpsManager {
    var mAgnssNif: AgpsStateMachine?
    var mInternetNif: AgpsStateMachine?
    ghost var refused: seq<Entry>  // callbacks for requests that reached no machine

    // Each machine is what its own events made of it.
    ghost predicate Valid()
      reads this, mAgnssNif, mInternetNif
    {
      (mAgnssNif != null ==> mAgnssNif.Traced() && FreshInputs(mAgnssNif.history)) &&
      (mInternetNif != null ==> mInternetNif.Traced() && FreshInputs(mInternetNif.history)) &&
      (mAgnssNif != null ==> mAgnssNif != mInternetNif)
    }

    constructor ()
      ensures Valid() && mAgnssNif == null && mInternetNif == null && refused == []
    {
      mAgnssNif, mInternetNif, refused := null, null, [];
    }

    method CreateAgpsStateMachines(agpsCapable: bool)
      requires Valid()
      modifies this
      ensures Valid() && refused == old(refused) && mInternetNif != null
      ensures old(mInternetNif) != null ==> mInternetNif == old(mInternetNif)
      ensures old(mInternetNif) == null ==> fresh(mInternetNif) && mInternetNif.Value() == INITIAL
      ensures old(mAgnssNif) != null || !agpsCapable ==> mAgnssNif == old(mAgnssNif)
      ensures old(mAgnssNif) == null && agpsCapable ==>
                mAgnssNif != null && fresh(mAgnssNif) && mAgnssNif.Value() == INITIAL
    {
      if mInternetNif == null {
        mInternetNif := new AgpsStateMachine();
      }
      if agpsCapable {
        if mAgnssNif == null {
          mAgnssNif := new AgpsStateMachine();
        }
      }
    }

    function GetAgpsStateMachine(agpsType: AGpsExtType): AgpsStateMachine?
      reads this
    {
      match agpsType
      case TypeInvalid => mAgnssNif
      case TypeSupl => mAgnssNif
      case TypeSuplEs => mAgnssNif
      case _ => mInternetNif
    }

    // The machine that does not exist, or was not touched.
    twostate predicate Untouched(sm: AgpsStateMachine?)
      reads sm
    {
      sm != null ==> unchanged(sm)
    }

    // The machine took this one input, and nothing else happened to it.
    twostate predicate Took(sm: AgpsStateMachine, i: Input)
      reads sm
    {
      sm.history == old(sm.history) + [i] && sm.Value() == Step(old(sm.Value()), i)
    }

    // SUPL, emergency or not, goes to the AGNSS machine, and so does the invalid type; anything else to
    // the internet machine.
    method RequestATL(connHandle: int, agpsType: AGpsExtType)
      requires Valid()
      modifies this`refused, GetAgpsStateMachine(agpsType)
      ensures Valid()
      ensures agpsType in {TypeInvalid, TypeSupl, TypeSuplEs} ==>
                Untouched(mInternetNif) &&
                if mAgnssNif == null then refused == old(refused) + [OpenStatus(connHandle, false)]
                else refused == old(refused) &&
                     Took(mAgnssNif, SubscribeIn(Subscriber(connHandle, agpsType == TypeSuplEs, false)))
      ensures agpsType !in {TypeInvalid, TypeSupl, TypeSuplEs} ==>
                Untouched(mAgnssNif) &&
                if mInternetNif == null then refused == old(refused) + [OpenStatus(connHandle, false)]
                else refused == old(refused) && Took(mInternetNif, SubscribeIn(Subscriber(connHandle, false, false)))
    {
      var sm := GetAgpsStateMachine(agpsType);
      if sm == null {
        refused := refused + [OpenStatus(connHandle, false)];
        return;
      }
      sm.mCurrentSubscriber := Subscriber(connHandle, false, false);
      if agpsType == TypeSuplEs {
        sm.mCurrentSubscriber := sm.mCurrentSubscriber.(waitForClose := true);
      }
      sm.ProcessAgpsEvent(SubscribeEvent);
    }

    // The machine that a release of the handle goes to: the first that has it on its list.
    ghost function Holder(connHandle: int): AgpsStateMachine?
      reads this, mAgnssNif, mInternetNif
    {
      if mAgnssNif != null && Has(mAgnssNif.mSubscriberList, connHandle) then mAgnssNif
      else if mInternetNif != null && Has(mInternetNif.mSubscriberList, connHandle) then mInternetNif
      else null
    }

    method ReleaseATL(connHandle: int)
      requires Valid()
      modifies this`refused, Holder(connHandle)
      ensures Valid()
      ensures if mAgnssNif != null && (exists s :: s in old(mAgnssNif.mSubscriberList) && s.handle == connHandle)
              then refused == old(refused) && Untouched(mInternetNif) && Took(mAgnssNif, UnsubscribeIn(connHandle))
              else Untouched(mAgnssNif) &&
                   if mInternetNif != null && (exists s :: s in old(mInternetNif.mSubscriberList) && s.handle == connHandle)
                   then refused == old(refused) && Took(mInternetNif, UnsubscribeIn(connHandle))
                   else refused == old(refused) + [CloseStatus(connHandle, false)] && Untouched(mInternetNif)
    {
      var sm: AgpsStateMachine? := null;
      var subscriber := None;
      if mAgnssNif != null {
        subscriber := mAgnssNif.GetSubscriber(connHandle);
        if subscriber.Some? {
          sm := mAgnssNif;
        }
      }
      if sm == null && mInternetNif != null {
        subscriber := mInternetNif.GetSubscriber(connHandle);
        if subscriber.Some? {
          sm := mInternetNif;
        }
      }
      if sm == null {
        refused := refused + [CloseStatus(connHandle, false)];
        return;
      }
      sm.mCurrentSubscriber := subscriber.value;
      sm.ProcessAgpsEvent(UnsubscribeEvent);
    }

    // A report for a type without machine would dereference NULL. What a success reports of the
    // connection is kept before the subscribers are told.
    method ReportAtlOpenSuccess(agpsType: AGpsExtType, apnName: Option<string>, apnLen: nat, bearerType: int)
      requires Valid() && GetAgpsStateMachine(agpsType) != null
      requires apnName.Some? ==> apnLen <= |apnName.value|
      modifies GetAgpsStateMachine(agpsType)
      ensures Valid()
      ensures ReportedTo(agpsType, GrantedIn)
      ensures var sm := GetAgpsStateMachine(agpsType);
              sm.mBearer == bearerType &&
              sm.mAPN == if apnName == None then None else Some(apnName.value[..apnLen])
    {
      var sm := GetAgpsStateMachine(agpsType);
      sm.mBearer := bearerType;
      sm.SetAPN(apnName, apnLen);
      sm.ProcessAgpsEvent(GrantedEvent);
    }

    // The machine of the type took the report, and the other did not.
    twostate predicate ReportedTo(agpsType: AGpsExtType, i: Input)
      reads this, mAgnssNif, mInternetNif
    {
      mAgnssNif == old(mAgnssNif) && mInternetNif == old(mInternetNif) &&
      if agpsType in {TypeInvalid, TypeSupl, TypeSuplEs}
      then Untouched(mInternetNif) && mAgnssNif != null && Took(mAgnssNif, i)
      else Untouched(mAgnssNif) && mInternetNif != null && Took(mInternetNif, i)
    }

    method ReportAtlOpenFailed(agpsType: AGpsExtType)
      requires Valid() && GetAgpsStateMachine(agpsType) != null
      modifies GetAgpsStateMachine(agpsType)
      ensures Valid() && ReportedTo(agpsType, DeniedIn)
    {
      var sm := GetAgpsStateMachine(agpsType);
      sm.ProcessAgpsEvent(DeniedEvent);
    }

    method ReportAtlClosed(agpsType: AGpsExtType)
      requires Valid() && GetAgpsStateMachine(agpsType) != null
      modifies GetAgpsStateMachine(agpsType)
      ensures Valid() && ReportedTo(agpsType, ReleasedIn)
    {
      var sm := GetAgpsStateMachine(agpsType);
      sm.ProcessAgpsEvent(ReleasedEvent);
    }

    method HandleModemSSR()
      requires Valid()
      modifies mAgnssNif, mInternetNif
      ensures Valid()
      ensures mAgnssNif != null ==> Took(mAgnssNif, RestartIn)
      ensures mInternetNif != null ==> Took(mInternetNif, RestartIn)
    {
      if mAgnssNif != null {
        mAgnssNif.DropAllSubscribers();
      }
      if mInternetNif != null {
        mInternetNif.DropAllSubscribers();
      }
    }
  }

  // ---------- Any sequence of manager calls ----------

  datatype ManagerCall =
    | RequestCall(connHandle: int, agpsType: AGpsExtType)
    | ReleaseCall(connHandle: int)
    | OpenedCall(agpsType: AGpsExtType)
    | FailedCall(agpsType: AGpsExtType)
    | ClosedCall(agpsType: AGpsExtType)
    | RestartCall

  datatype Events = Events(agnss: seq<Input>, internet: seq<Input>)

  // Who gets what of a call, for what each machine has taken so far.
  ghost function Routed(hasAgnss: bool, so: Events, call: ManagerCall): Events {
    match call
    case RequestCall(h, t) =>
      if t in {TypeInvalid, TypeSupl, TypeSuplEs}
      then so.(agnss := if hasAgnss then so.agnss + [SubscribeIn(Subscriber(h, t == TypeSuplEs, false))] else so.agnss)
      else so.(internet := so.internet + [SubscribeIn(Subscriber(h, false, false))])
    case ReleaseCall(h) =>
      if hasAgnss && exists s :: s in Run(so.agnss).subs && s.handle == h
      then so.(agnss := so.agnss + [UnsubscribeIn(h)])
      else if exists s :: s in Run(so.internet).subs && s.handle == h
      then so.(internet := so.internet + [UnsubscribeIn(h)])
      else so
    case OpenedCall(t) => Reported(so, t, GrantedIn)
    case FailedCall(t) => Reported(so, t, DeniedIn)
    case ClosedCall(t) => Reported(so, t, ReleasedIn)
    case RestartCall =>
      Events(if hasAgnss then so.agnss + [RestartIn] else so.agnss, so.internet + [RestartIn])
  }

  ghost function Reported(so: Events, t: AGpsExtType, i: Input): Events {
    if t in {TypeInvalid, TypeSupl, TypeSuplEs} then so.(agnss := so.agnss + [i])
    else so.(internet := so.internet + [i])
  }

  ghost function AllRouted(hasAgnss: bool, so: Events, calls: seq<ManagerCall>): Events {
    if calls == [] then so else
    Routed(hasAgnss, AllRouted(hasAgnss, so, calls[..|calls| - 1]), calls[|calls| - 1])
  }

  ghost function Taken(manager: AgpsManager): Events
    requires manager.mInternetNif != null
    reads manager, manager.mAgnssNif, manager.mInternetNif
  {
    Events(if manager.mAgnssNif == null then [] else manager.mAgnssNif.history, manager.mInternetNif.history)
  }

  // A report for the AGNSS machine needs that machine.
  predicate CallHasMachine(hasAgnss: bool, call: ManagerCall) {
    (call.OpenedCall? || call.FailedCall? || call.ClosedCall?) ==>
      call.agpsType !in {TypeInvalid, TypeSupl, TypeSuplEs} || hasAgnss
  }

  method Call(manager: AgpsManager, call: ManagerCall)
    requires manager.Valid() && manager.mInternetNif != null && CallHasMachine(manager.mAgnssNif != null, call)
    modifies manager`refused, manager.mAgnssNif, manager.mInternetNif
    ensures manager.Valid()
    ensures Taken(manager) == Routed(manager.mAgnssNif != null, old(Taken(manager)), call)
  {
    match call {
      case RequestCall(h, t) => manager.RequestATL(h, t);
      case ReleaseCall(h) => manager.ReleaseATL(h);
      case OpenedCall(t) => manager.ReportAtlOpenSuccess(t, None, 0, BEARER_INVALID);
      case FailedCall(t) => manager.ReportAtlOpenFailed(t);
      case ClosedCall(t) => manager.ReportAtlClosed(t);
      case RestartCall => manager.HandleModemSSR();
    }
  }

  // Over any calls each machine is the run of exactly the requests and reports of its own types, of the
  // releases of handles that it holds, and of the restarts.
  method Calls(manager: AgpsManager, calls: seq<ManagerCall>)
    requires manager.Valid() && manager.mInternetNif != null
    requires forall k :: 0 <= k < |calls| ==> CallHasMachine(manager.mAgnssNif != null, calls[k])
    modifies manager`refused, manager.mAgnssNif, manager.mInternetNif
    ensures manager.Valid()
    ensures var t := AllRouted(manager.mAgnssNif != null, old(Taken(manager)), calls);
            manager.mInternetNif.Value() == Run(t.internet) &&
            (manager.mAgnssNif != null ==> manager.mAgnssNif.Value() == Run(t.agnss))
  {
    for k := 0 to |calls|
      invariant manager.Valid()
      invariant Taken(manager) == AllRouted(manager.mAgnssNif != null, old(Taken(manager)), calls[..k])
    {
      assert calls[..k + 1][..k] == calls[..k];
      Call(manager, calls[k]);
    }
    assert calls[..|calls|] == calls;
  }

  // So what was proved of runs holds of the machines of a manager.
  lemma MachinesKeepInv(manager: AgpsManager, sm: AgpsStateMachine)
    requires manager.Valid() && (sm == manager.mAgnssNif || sm == manager.mInternetNif)
    ensures AlwaysInv(sm.Value())
    ensures RestartIn !in sm.history ==> Inv(sm.Value())
  {
    RestartedRunKeepsInvIff(sm.history);
    if RestartIn !in sm.history { RunKeepsInv(sm.history); }
  }
}
