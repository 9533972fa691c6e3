/**
 The multiplexing of time-based tracking sessions in gps/gnss/GnssAdapter.cpp: the hardware runs at
 the interval of the fastest session, kept up to date without recomputing it each time.

 The ULP proxy is the base class, which answers false, so that every fix goes to the LocApi.
 */
module Tracking {
  import opened Wrappers

  datatype Key = Key(client: nat, id: nat)
  datatype Options = Options(size: nat, minInterval: nat, mode: nat)
  datatype PosMode = PosMode(minInterval: nat, mode: nat)
  datatype LocationError = Success | GeneralFailure | CallbackMissing | InvalidParameter

  type Sessions = map<Key, Options>

  const UNSET := Options(0, 0, 0)

  // The smallest interval over all sessions, by definition.
  ghost predicate IsMin(sessions: Sessions, interval: nat) {
    (exists k :: k in sessions && sessions[k].minInterval == interval) &&
    (forall k :: k in sessions ==> interval <= sessions[k].minInterval)
  }

  // The hardware runs at the smallest interval, and is stopped exactly when there is no session.
  ghost predicate Follows(hardware: Option<PosMode>, sessions: Sessions) {
    if sessions == map[] then hardware == None
    else hardware.Some? && IsMin(sessions, hardware.value.minInterval)
  }

  ghost predicate AllSized(sessions: Sessions) { forall k :: k in sessions ==> sessions[k].size > 0 }

  // The hardware runs at the interval and in the mode of a session with the smallest interval.
  ghost predicate RunsFastest(hardware: Option<PosMode>, sessions: Sessions) {
    exists k :: RunsAs(hardware, sessions, k)
  }

  ghost predicate RunsAs(hardware: Option<PosMode>, sessions: Sessions, k: Key) {
    k in sessions && hardware == Some(PosMode(sessions[k].minInterval, sessions[k].mode)) &&
    forall j :: j in sessions ==> sessions[k].minInterval <= sessions[j].minInterval
  }

  ghost predicate Distinct(sessions: Sessions) {
    forall j, k :: j in sessions && k in sessions && j != k ==> sessions[j].minInterval != sessions[k].minInterval
  }

  // Interval and mode are right.
  ghost predicate Exact(hardware: Option<PosMode>, sessions: Sessions) {
    if sessions == map[] then hardware == None else RunsFastest(hardware, sessions)
  }

  // A session that is not the fastest comes, changes or goes while the hardware is left alone.
  lemma SlowerChanges(hardware: Option<PosMode>, sessions: Sessions, key: Key, o: Options)
    requires RunsFastest(hardware, sessions)
    requires forall k :: RunsAs(hardware, sessions, k) ==> k != key
    requires !FasterThan(o.minInterval, sessions - {key})
    ensures RunsFastest(hardware, sessions[key := o]) && RunsFastest(hardware, sessions - {key})
  {
    var k :| RunsAs(hardware, sessions, k);
    var j :| j in sessions - {key} && sessions[j].minInterval <= o.minInterval;
    assert RunsAs(hardware, sessions[key := o], k) && RunsAs(hardware, sessions - {key}, k);
  }

  // A session that the hardware runs as is the fastest; without ties it is faster than all others.
  lemma FastestIsFaster(hardware: Option<PosMode>, sessions: Sessions, key: Key)
    requires Distinct(sessions) && RunsAs(hardware, sessions, key)
    ensures FasterThan(sessions[key].minInterval, sessions - {key})
  {
    forall j | j in sessions - {key} ensures sessions[key].minInterval < (sessions - {key})[j].minInterval {
      assert j in sessions && j != key;
    }
  }

  // Without ties, a session that neither was nor is faster than all others may change or go.
  lemma SlowerMayChange(hardware: Option<PosMode>, sessions: Sessions, key: Key, o: Options)
    requires key in sessions && Distinct(sessions) && RunsFastest(hardware, sessions)
    requires !FasterThan(o.minInterval, sessions - {key}) && !FasterThan(sessions[key].minInterval, sessions - {key})
    ensures RunsFastest(hardware, sessions[key := o]) && RunsFastest(hardware, sessions - {key})
  {
    forall k | RunsAs(hardware, sessions, k) ensures k != key { FastestIsFaster(hardware, sessions, k); }
    SlowerChanges(hardware, sessions, key, o);
  }

  // The hardware started as the session with the smallest interval of the others is exact again.
  lemma StartedAs(sessions: Sessions, o: Options)
    requires IsMin(sessions, o.minInterval) && exists k :: k in sessions && sessions[k] == o
    ensures RunsFastest(Some(PosMode(o.minInterval, o.mode)), sessions)
  {
    var k :| k in sessions && sessions[k] == o;
    assert RunsAs(Some(PosMode(o.minInterval, o.mode)), sessions, k);
  }

  // One of the others is still there after a change.
  lemma Among(others: Sessions, next: Sessions, x: Options)
    requires exists k :: k in others && others[k] == x
    requires forall k :: k in others ==> k in next && next[k] == others[k]
    ensures exists k :: k in next && next[k] == x
  {
    var k :| k in others && others[k] == x;
    assert next[k] == x;
  }

  function Least(a: nat, b: nat): nat { if b < a then b else a }

  lemma MinWithOneMore(sessions: Sessions, key: Key, o: Options, m: nat)
    requires IsMin(sessions, m) && key !in sessions
    ensures IsMin(sessions[key := o], Least(m, o.minInterval))
  {
    var more := sessions[key := o];
    var k :| k in sessions && sessions[k].minInterval == m;
    assert more[k] == sessions[k] && more[key] == o;
  }

  lemma MinOfOne(key: Key, o: Options)
    ensures IsMin(map[key := o], o.minInterval)
  {
    assert map[key := o][key] == o;
  }

  lemma MinUnique(sessions: Sessions, m: nat, n: nat)
    requires IsMin(sessions, m) && IsMin(sessions, n)
    ensures m == n
  {
  }

  // The incremental rule: the smallest interval after a session changed or came is the smaller of its
  // new interval and the smallest of the others; and what it was before tells the same way.
  lemma MinAfterChange(sessions: Sessions, key: Key, o: Options, others: nat)
    requires key in sessions && IsMin(sessions - {key}, others)
    ensures IsMin(sessions[key := o], Least(others, o.minInterval))
    ensures IsMin(sessions, Least(others, sessions[key].minInterval))
  {
    var rest := sessions - {key};
    MinWithOneMore(rest, key, o, others);
    MinWithOneMore(rest, key, sessions[key], others);
    assert rest[key := o] == sessions[key := o];
    assert rest[key := sessions[key]] == sessions;
  }

  lemma OnlySession(sessions: Sessions, key: Key)
    requires |sessions| == 1 && key in sessions
    ensures sessions - {key} == map[]
    ensures sessions == map[key := sessions[key]]
  {
    var keys := sessions.Keys;
    assert |keys - {key}| == 0;
    assert keys == {key};
  }

  lemma OthersExist(sessions: Sessions, key: Key)
    requires |sessions| != 1 && key in sessions
    ensures sessions - {key} != map[]
  {
    assert (sessions - {key}).Keys == sessions.Keys - {key};
    assert |sessions.Keys - {key}| == |sessions| - 1 > 0;
  }

  // The interval is smaller than that of every session.
  ghost predicate FasterThan(interval: nat, sessions: Sessions) {
    forall k :: k in sessions ==> interval < sessions[k].minInterval
  }

  lemma FasterThanMin(interval: nat, sessions: Sessions, m: nat)
    requires IsMin(sessions, m)
    ensures FasterThan(interval, sessions) <==> interval < m
  {
  }

  ghost function Others(sessions: Sessions, except: Option<Key>): Sessions {
    if except.Some? then sessions - {except.value} else sessions
  }

  class GnssAdapter {
    var mTrackingSessions: Sessions
    var hardware: Option<PosMode>
    ghost var apiCalls: nat
    ghost var apiFailures: nat

    ghost predicate Valid()
      reads this
    {
      AllSized(mTrackingSessions) && Follows(hardware, mTrackingSessions)
    }

    // The hardware was left stopped by a failed restart after the engine came up.
    ghost predicate Stalled()
      reads this
    {
      AllSized(mTrackingSessions) && mTrackingSessions != map[] && hardware == None
    }

    // After a call that succeeded, for the sessions that are then there: the hardware follows them if
    // it did before or if it was restarted, and stays stopped otherwise.
    twostate predicate Settled(sessions: Sessions)
      reads this
    {
      if apiCalls > old(apiCalls) || old(Valid()) then Follows(hardware, sessions)
      else hardware == None && sessions != map[]
    }

    constructor ()
      ensures Valid() && mTrackingSessions == map[] && hardware == None && apiCalls == apiFailures == 0
    {
      mTrackingSessions, hardware, apiCalls, apiFailures := map[], None, 0, 0;
    }

    // The answer is a failure exactly when a call of the API failed on the way.
    twostate predicate Failed(err: LocationError)
      reads this
    {
      apiFailures == old(apiFailures) + (if err == Success then 0 else 1)
    }

    // A failed start changes nothing.
    method StartTracking(options: Options) returns (err: LocationError)
      modifies this`hardware, this`apiCalls, this`apiFailures
      ensures apiCalls == old(apiCalls) + 1 && Failed(err)
      ensures (err == Success && hardware == Some(PosMode(options.minInterval, options.mode)))
           || (err == GeneralFailure && hardware == old(hardware))
    {
      var apiSuccess: bool := *;
      apiCalls := apiCalls + 1;
      if apiSuccess {
        hardware := Some(PosMode(options.minInterval, options.mode));
        return Success;
      }
      apiFailures := apiFailures + 1;
      return GeneralFailure;
    }

    method StopTracking() returns (err: LocationError)
      modifies this`hardware, this`apiCalls, this`apiFailures
      ensures apiCalls == old(apiCalls) + 1 && Failed(err)
      ensures (err == Success && hardware == None) || (err == GeneralFailure && hardware == old(hardware))
    {
      var apiSuccess: bool := *;
      apiCalls := apiCalls + 1;
      if apiSuccess {
        hardware := None;
        return Success;
      }
      apiFailures := apiFailures + 1;
      return GeneralFailure;
    }

    // The options with the smallest interval over all sessions but one, or size 0 if there is none.
    method SmallestInterval(except: Option<Key>) returns (smallest: Options)
      requires AllSized(mTrackingSessions)
      ensures var rest := Others(mTrackingSessions, except);
              if rest == map[] then smallest == UNSET
              else smallest.size > 0 && IsMin(rest, smallest.minInterval)
                   && exists k :: k in rest && rest[k] == smallest
    {
      ghost var rest := Others(mTrackingSessions, except);
      smallest := UNSET;
      var keys := mTrackingSessions.Keys;
      while keys != {}
        invariant keys <= mTrackingSessions.Keys
        invariant smallest == UNSET || (smallest.size > 0 && exists k :: k in rest && rest[k] == smallest)
        invariant forall k :: k in rest && k !in keys ==>
                    smallest.size > 0 && smallest.minInterval <= rest[k].minInterval
        decreases |keys|
      {
        var k :| k in keys;
        keys := keys - {k};
        if except != Some(k) && (smallest.size == 0 || mTrackingSessions[k].minInterval < smallest.minInterval) {
          smallest := mTrackingSessions[k];
          assert k in rest && rest[k] == smallest;
        }
      }
    }

    method StartTrackingMultiplex(options: Options, ghost key: Key) returns (err: LocationError)
      requires (Valid() || Stalled()) && key !in mTrackingSessions
      modifies this`hardware, this`apiCalls, this`apiFailures
      ensures Failed(err)
      ensures err != Success ==> hardware == old(hardware)
      ensures err == Success ==> Settled(mTrackingSessions[key := options])
      ensures apiCalls == old(apiCalls) + if FasterThan(options.minInterval, mTrackingSessions) then 1 else 0
      ensures err == Success && apiCalls > old(apiCalls) ==> Exact(hardware, mTrackingSessions[key := options])
      ensures err == Success && old(Exact(hardware, mTrackingSessions)) && Distinct(mTrackingSessions) ==>
                Exact(hardware, mTrackingSessions[key := options])
      ensures err == Success && apiCalls > old(apiCalls) ==>
                hardware == Some(PosMode(options.minInterval, options.mode))
    {
      err := Success;
      if mTrackingSessions == map[] {
        err := StartTracking(options);
        MinOfOne(key, options);
      } else {
        var smallest := SmallestInterval(None);
        FasterThanMin(options.minInterval, mTrackingSessions, smallest.minInterval);
        MinWithOneMore(mTrackingSessions, key, options, smallest.minInterval);
        if hardware.Some? {
          MinUnique(mTrackingSessions, smallest.minInterval, hardware.value.minInterval);
        }
        if options.minInterval < smallest.minInterval {
          err := StartTracking(options);
        } else if RunsFastest(hardware, mTrackingSessions) {
          assert mTrackingSessions - {key} == mTrackingSessions;
          assert forall k :: RunsAs(hardware, mTrackingSessions, k) ==> k != key;
          SlowerChanges(hardware, mTrackingSessions, key, options);
        }
      }
      if err == Success {
        assert key in mTrackingSessions[key := options] && mTrackingSessions[key := options][key] == options;
        assert mTrackingSessions == map[] ==> mTrackingSessions[key := options] == map[key := options];
        if apiCalls > old(apiCalls) { StartedAs(mTrackingSessions[key := options], options); }
      }
    }

    method UpdateTrackingMultiplex(key: Key, options: Options) returns (err: LocationError)
      requires (Valid() || Stalled()) && key in mTrackingSessions
      modifies this`hardware, this`apiCalls, this`apiFailures
      ensures Failed(err)
      ensures err != Success ==> hardware == old(hardware)
      ensures err == Success ==> Settled(mTrackingSessions[key := options])
      ensures var others, was := mTrackingSessions - {key}, mTrackingSessions[key].minInterval;
              apiCalls == old(apiCalls) +
                if FasterThan(options.minInterval, others) || FasterThan(was, others) then 1 else 0
      ensures err == Success && apiCalls > old(apiCalls) ==> Exact(hardware, mTrackingSessions[key := options])
      ensures err == Success && old(Exact(hardware, mTrackingSessions)) && Distinct(mTrackingSessions) ==>
                Exact(hardware, mTrackingSessions[key := options])
    {
      err := Success;
      assert key in mTrackingSessions[key := options];
      if |mTrackingSessions| == 1 {
        OnlySession(mTrackingSessions, key);
        MinOfOne(key, options);
        assert mTrackingSessions[key := options] == map[key := options];
        StartedAs(map[key := options], options);
        err := StartTracking(options);
      } else {
        OthersExist(mTrackingSessions, key);
        var smallest := SmallestInterval(Some(key));
        FasterThanMin(options.minInterval, mTrackingSessions - {key}, smallest.minInterval);
        FasterThanMin(mTrackingSessions[key].minInterval, mTrackingSessions - {key}, smallest.minInterval);
        MinAfterChange(mTrackingSessions, key, options, smallest.minInterval);
        if hardware.Some? {
          MinUnique(mTrackingSessions, hardware.value.minInterval,
                    Least(smallest.minInterval, mTrackingSessions[key].minInterval));
        }
        ghost var next := mTrackingSessions[key := options];
        assert next[key] == options;
        if options.minInterval < smallest.minInterval {
          StartedAs(next, options);
          err := StartTracking(options);
        } else if mTrackingSessions[key].minInterval < smallest.minInterval {
          Among(mTrackingSessions - {key}, next, smallest);
          StartedAs(next, smallest);
          err := StartTracking(smallest);
        } else if RunsFastest(hardware, mTrackingSessions) && Distinct(mTrackingSessions) {
          SlowerMayChange(hardware, mTrackingSessions, key, options);
        }
      }
    }

    method StopTrackingMultiplex(key: Key) returns (err: LocationError)
      requires (Valid() || Stalled()) && key in mTrackingSessions
      modifies this`hardware, this`apiCalls, this`apiFailures
      ensures Failed(err)
      ensures err != Success ==> hardware == old(hardware)
      ensures err == Success ==> Settled(mTrackingSessions - {key})
      ensures apiCalls == old(apiCalls) +
                if FasterThan(mTrackingSessions[key].minInterval, mTrackingSessions - {key}) then 1 else 0
      ensures err == Success && apiCalls > old(apiCalls) ==> Exact(hardware, mTrackingSessions - {key})
      ensures err == Success && old(Exact(hardware, mTrackingSessions)) && Distinct(mTrackingSessions) ==>
                Exact(hardware, mTrackingSessions - {key})
    {
      err := Success;
      if |mTrackingSessions| == 1 {
        OnlySession(mTrackingSessions, key);
        err := StopTracking();
      } else {
        OthersExist(mTrackingSessions, key);
        var smallest := SmallestInterval(Some(key));
        FasterThanMin(mTrackingSessions[key].minInterval, mTrackingSessions - {key}, smallest.minInterval);
        MinAfterChange(mTrackingSessions, key, mTrackingSessions[key], smallest.minInterval);
        if hardware.Some? {
          MinUnique(mTrackingSessions, hardware.value.minInterval,
                    Least(smallest.minInterval, mTrackingSessions[key].minInterval));
        }
        if mTrackingSessions[key].minInterval < smallest.minInterval {
          StartedAs(mTrackingSessions - {key}, smallest);
          err := StartTracking(smallest);
        } else if RunsFastest(hardware, mTrackingSessions) && Distinct(mTrackingSessions) {
          SlowerMayChange(hardware, mTrackingSessions, key, mTrackingSessions[key]);
        }
      }
    }

    // ---------- The messages ----------

    // The session id is a new one, so that its key has no session yet.
    method StartTrackingMessage(client: nat, sessionId: nat, options: Options, hasCallback: bool)
      returns (err: LocationError)
      requires (Valid() || Stalled()) && Key(client, sessionId) !in mTrackingSessions
      modifies this
      ensures Valid() || Stalled()
      ensures old(Valid()) ==> Valid()
      ensures old(Exact(hardware, mTrackingSessions) && Distinct(mTrackingSessions)) ==> Exact(hardware, mTrackingSessions)
      ensures old(Stalled()) && err == Success ==>
                (Valid() <==> FasterThan(options.minInterval, old(mTrackingSessions)))
      ensures !hasCallback ==> err == CallbackMissing
      ensures hasCallback && options.size == 0 ==> err == InvalidParameter
      ensures hasCallback && options.size != 0 ==> Failed(err)
      ensures err == Success && apiCalls > old(apiCalls) ==>
                Exact(hardware, mTrackingSessions) && hardware == Some(PosMode(options.minInterval, options.mode))
      ensures err == Success ==> mTrackingSessions == old(mTrackingSessions)[Key(client, sessionId) := options]
      ensures err != Success ==> mTrackingSessions == old(mTrackingSessions) && hardware == old(hardware)
    {
      if !hasCallback {
        err := CallbackMissing;
      } else if options.size == 0 {
        err := InvalidParameter;
      } else {
        err := StartTrackingMultiplex(options, Key(client, sessionId));
        if err == Success {
          mTrackingSessions := mTrackingSessions[Key(client, sessionId) := options];
        }
      }
    }

    // None: no such session, and nothing is reported.
    method UpdateTrackingMessage(client: nat, sessionId: nat, options: Options)
      returns (response: Option<LocationError>)
      requires Valid() || Stalled()
      modifies this
      ensures Valid() || Stalled()
      ensures old(Valid()) ==> Valid()
      ensures old(Exact(hardware, mTrackingSessions) && Distinct(mTrackingSessions)) ==> Exact(hardware, mTrackingSessions)
      ensures response == None <==> Key(client, sessionId) !in old(mTrackingSessions)
      ensures response.Some? && options.size == 0 ==> response == Some(InvalidParameter)
      ensures response.Some? && options.size != 0 ==> Failed(response.value)
      ensures old(Stalled()) && response == Some(Success) ==>
                var others := old(mTrackingSessions) - {Key(client, sessionId)};
                (Valid() <==> FasterThan(options.minInterval, others) ||
                              FasterThan(old(mTrackingSessions)[Key(client, sessionId)].minInterval, others))
      ensures response == Some(Success) && apiCalls > old(apiCalls) ==> Exact(hardware, mTrackingSessions)
      ensures if response == Some(Success)
              then mTrackingSessions == old(mTrackingSessions)[Key(client, sessionId) := options]
              else mTrackingSessions == old(mTrackingSessions) && hardware == old(hardware)
    {
      var key := Key(client, sessionId);
      if key !in mTrackingSessions {
        return None;
      }
      var err := InvalidParameter;
      if options.size != 0 {
        err := UpdateTrackingMultiplex(key, options);
        if err == Success {
          mTrackingSessions := mTrackingSessions[key := options];
        }
      }
      return Some(err);
    }

    method StopTrackingMessage(client: nat, sessionId: nat) returns (response: Option<LocationError>)
      requires Valid() || Stalled()
      modifies this
      ensures Valid() || Stalled()
      ensures old(Valid()) ==> Valid()
      ensures old(Exact(hardware, mTrackingSessions) && Distinct(mTrackingSessions)) ==> Exact(hardware, mTrackingSessions)
      ensures response == None <==> Key(client, sessionId) !in old(mTrackingSessions)
      ensures response.Some? ==> Failed(response.value)
      ensures old(Stalled()) && response == Some(Success) ==>
                var was := old(mTrackingSessions);
                Valid() <==> FasterThan(was[Key(client, sessionId)].minInterval, was - {Key(client, sessionId)})
      ensures response == Some(Success) && apiCalls > old(apiCalls) ==> Exact(hardware, mTrackingSessions)
      ensures if response == Some(Success)
              then mTrackingSessions == old(mTrackingSessions) - {Key(client, sessionId)}
              else mTrackingSessions == old(mTrackingSessions) && hardware == old(hardware)
    {
      var key := Key(client, sessionId);
      if key !in mTrackingSessions {
        return None;
      }
      var err := StopTrackingMultiplex(key);
      if err == Success {
        mTrackingSessions := mTrackingSessions - {key};
      }
      return Some(err);
    }

    // Exactly the client's sessions go, but for those whose stop failed, one for each failed API call.
    method StopClientSessions(client: nat) returns (ghost failed: set<Key>)
      requires Valid() || Stalled()
      modifies this
      ensures Valid() || Stalled()
      ensures old(Valid()) ==> Valid()
      ensures old(Exact(hardware, mTrackingSessions) && Distinct(mTrackingSessions)) ==> Exact(hardware, mTrackingSessions)
      ensures |failed| == apiFailures - old(apiFailures)
      ensures forall k :: k in failed ==> k in old(mTrackingSessions) && k.client == client
      ensures forall k :: k in mTrackingSessions <==>
                k in old(mTrackingSessions) && (k.client != client || k in failed)
      ensures forall k :: k in mTrackingSessions ==> mTrackingSessions[k] == old(mTrackingSessions)[k]
    {
      failed := {};
      var keys := mTrackingSessions.Keys;
      while keys != {}
        invariant old(Exact(hardware, mTrackingSessions) && Distinct(mTrackingSessions)) ==>
                    Exact(hardware, mTrackingSessions) && Distinct(mTrackingSessions)
        invariant (Valid() || Stalled()) && (old(Valid()) ==> Valid()) && keys <= old(mTrackingSessions).Keys && failed !! keys
        invariant |failed| == apiFailures - old(apiFailures)
        invariant forall k :: k in failed ==> k in old(mTrackingSessions) && k.client == client
        invariant forall k :: k in mTrackingSessions <==>
                    k in old(mTrackingSessions) && (k.client != client || k in keys || k in failed)
        invariant forall k :: k in mTrackingSessions ==> mTrackingSessions[k] == old(mTrackingSessions)[k]
        decreases |keys|
      {
        var k :| k in keys;
        keys := keys - {k};
        if k.client == client {
          var err := StopTrackingMultiplex(k);
          if err == Success {
            mTrackingSessions := mTrackingSessions - {k};
          } else {
            failed := failed + {k};
          }
        }
      }
    }

    // The engine came up again, stopped. Its answer to the restart is not looked at: the hardware
    // follows the sessions again exactly when the restart, if there was one to make, did not fail.
    method EngineUp()
      requires Valid() || Stalled()
      modifies this`hardware, this`apiCalls, this`apiFailures
      ensures if apiFailures == old(apiFailures) then Valid() && Exact(hardware, mTrackingSessions) else Stalled()
      ensures apiCalls == old(apiCalls) + if mTrackingSessions == map[] then 0 else 1
    {
      hardware := None;
      if mTrackingSessions == map[] {
        return;
      }
      var smallest := SmallestInterval(None);
      StartedAs(mTrackingSessions, smallest);
      var apiSuccess: bool := *;
      apiCalls := apiCalls + 1;
      if apiSuccess {
        hardware := Some(PosMode(smallest.minInterval, smallest.mode));
      } else {
        apiFailures := apiFailures + 1;
      }
    }
  }
}
