/**
 What the client entry points of audio_amplifier/audio_amplifier.c add up to: over every run the shared
 state, and in normal mode the amplifier, told by the calls that clients made and by nothing else.
 */
module AmplifierCalls {
  import opened Wrappers
  import opened Counting
  import opened AmplifierSpec

  // The client calls that were taken, in their order.
  function Calls(cfg: Config, init: Sys, actions: seq<Action>): seq<ClientOp>
    requires cfg.Valid()
  {
    if actions == [] then [] else
    var before, a := actions[..|actions| - 1], actions[|actions| - 1];
    Calls(cfg, init, before) + if a.Client? && Enabled(cfg, Run(cfg, init, before), a) then [a.op] else []
  }

  datatype Kind =
    | ModeCall                // set_mode
    | RouteCall               // set_output_devices, but for "no device"
    | AmpCall                 // enable_output_devices of any device that has an amplifier
    | AmpCallFor(d: nat)      // of this device

  predicate IsKind(cfg: Config, kind: Kind, c: ClientOp) {
    match kind
    case ModeCall => c.SetMode?
    case RouteCall => c.SetOutputDevices? && c.devices != cfg.none
    case AmpCall => c.EnableOutputDevices? && c.devices < |cfg.ampDevice| && cfg.ampDevice[c.devices] != 0
    case AmpCallFor(d) =>
      c.EnableOutputDevices? && c.devices < |cfg.ampDevice| && cfg.ampDevice[c.devices] != 0 && c.devices == d
  }

  ghost predicate IsLast(cfg: Config, kind: Kind, calls: seq<ClientOp>, k: int) {
    0 <= k < |calls| && IsKind(cfg, kind, calls[k]) && forall j :: k < j < |calls| ==> !IsKind(cfg, kind, calls[j])
  }

  // The last call of a kind, if there was one.
  function Last(cfg: Config, kind: Kind, calls: seq<ClientOp>): (r: Option<ClientOp>)
    ensures r.Some? ==> IsKind(cfg, kind, r.value) && exists k :: IsLast(cfg, kind, calls, k) && calls[k] == r.value
    ensures r.None? ==> forall k :: 0 <= k < |calls| ==> !IsKind(cfg, kind, calls[k])
  {
    if calls == [] then None else
    var k := |calls| - 1;
    if IsKind(cfg, kind, calls[k]) then
      assert IsLast(cfg, kind, calls, k);
      Some(calls[k])
    else
      var r := Last(cfg, kind, calls[..k]);
      assert r.Some? ==> forall i :: IsLast(cfg, kind, calls[..k], i) ==> IsLast(cfg, kind, calls, i);
      r
  }

  lemma LastNext(cfg: Config, kind: Kind, calls: seq<ClientOp>, c: ClientOp)
    ensures Last(cfg, kind, calls + [c]) == if IsKind(cfg, kind, c) then Some(c) else Last(cfg, kind, calls)
  {
    assert (calls + [c])[..|calls|] == calls;
  }

  // The state that these calls make of the one with everything off.
  ghost predicate MadeBy(cfg: Config, s: AmpState, calls: seq<ClientOp>)
    requires cfg.Valid()
  {
    StreamsBy(s, calls) && ModeBy(cfg, s, calls) && EnabledBy(cfg, s, calls) && RoutedBy(cfg, s, calls)
  }

  ghost predicate StreamsBy(s: AmpState, calls: seq<ClientOp>) {
    s.streams == Count(calls, StreamStart) - Count(calls, StreamStandby)
  }

  ghost predicate ModeBy(cfg: Config, s: AmpState, calls: seq<ClientOp>) {
    s.voice <==> Last(cfg, ModeCall, calls) == Some(SetMode(true))
  }

  // enableds is per device, while in_call and enabled are those of the last call for any device.
  ghost predicate EnabledBy(cfg: Config, s: AmpState, calls: seq<ClientOp>)
    requires cfg.Valid()
  {
    var last := Last(cfg, AmpCall, calls);
    |s.enableds| == cfg.last &&
    (forall d: nat :: d < cfg.last ==>
       (s.enableds[d] <==> Last(cfg, AmpCallFor(d), calls) == Some(EnableOutputDevices(d, true)))) &&
    (s.inCall <==> last.Some? && last.value.enable && cfg.isCall[last.value.devices]) &&
    (s.enabled <==> last.Some? && last.value.enable)
  }

  // A number above LAST is routed to the speaker, and a device without amplifier to the first one.
  ghost predicate RoutedBy(cfg: Config, s: AmpState, calls: seq<ClientOp>)
    requires cfg.Valid()
  {
    var last := Last(cfg, RouteCall, calls);
    if last.None? then s.inDevice == 0 && s.device == 0 && !s.reversed
    else
      var d := if last.value.devices > cfg.last then cfg.speaker else last.value.devices;
      s.inDevice == d && s.device == (if cfg.ampDevice[d] == 0 then 0 else cfg.ampDevice[d] - 1) &&
      s.reversed == (d == cfg.speakerReverse)
  }

  lemma StreamsNext(cfg: Config, s: AmpState, calls: seq<ClientOp>, c: ClientOp)
    requires cfg.Valid() && InRange(cfg, s) && Allowed(cfg, c) && !Ignored(cfg, c) && StreamsBy(s, calls)
    ensures StreamsBy(Apply(cfg, s, c), calls + [c])
  {
    CountAppend(calls, c, StreamStart);
    CountAppend(calls, c, StreamStandby);
  }

  lemma ModeNext(cfg: Config, s: AmpState, calls: seq<ClientOp>, c: ClientOp)
    requires cfg.Valid() && InRange(cfg, s) && Allowed(cfg, c) && !Ignored(cfg, c) && ModeBy(cfg, s, calls)
    ensures ModeBy(cfg, Apply(cfg, s, c), calls + [c])
  {
    LastNext(cfg, ModeCall, calls, c);
  }

  lemma EnabledNext(cfg: Config, s: AmpState, calls: seq<ClientOp>, c: ClientOp)
    requires cfg.Valid() && InRange(cfg, s) && Allowed(cfg, c) && !Ignored(cfg, c) && EnabledBy(cfg, s, calls)
    ensures EnabledBy(cfg, Apply(cfg, s, c), calls + [c])
  {
    var n := Apply(cfg, s, c);
    LastNext(cfg, AmpCall, calls, c);
    forall d: nat | d < cfg.last
      ensures n.enableds[d] <==> Last(cfg, AmpCallFor(d), calls + [c]) == Some(EnableOutputDevices(d, true))
    {
      LastNext(cfg, AmpCallFor(d), calls, c);
    }
  }

  lemma RoutedNext(cfg: Config, s: AmpState, calls: seq<ClientOp>, c: ClientOp)
    requires cfg.Valid() && InRange(cfg, s) && Allowed(cfg, c) && !Ignored(cfg, c) && RoutedBy(cfg, s, calls)
    ensures RoutedBy(cfg, Apply(cfg, s, c), calls + [c])
  {
    LastNext(cfg, RouteCall, calls, c);
  }

  // A call that returns before it takes the mutex is of no kind, and starts or ends no stream.
  lemma IgnoredNext(cfg: Config, s: AmpState, calls: seq<ClientOp>, c: ClientOp)
    requires cfg.Valid() && Allowed(cfg, c) && Ignored(cfg, c) && MadeBy(cfg, s, calls)
    ensures MadeBy(cfg, s, calls + [c])
  {
    CountAppend(calls, c, StreamStart);
    CountAppend(calls, c, StreamStandby);
    LastNext(cfg, ModeCall, calls, c);
    LastNext(cfg, AmpCall, calls, c);
    LastNext(cfg, RouteCall, calls, c);
    forall d: nat ensures Last(cfg, AmpCallFor(d), calls + [c]) == Last(cfg, AmpCallFor(d), calls) {
      LastNext(cfg, AmpCallFor(d), calls, c);
    }
  }

  lemma WorkerLeavesState(cfg: Config, s: Sys, a: Action)
    requires cfg.Valid() && Enabled(cfg, s, a) && !a.Client?
    ensures Step(cfg, s, a).state == s.state
  {
  }

  lemma ClientNext(cfg: Config, s: Sys, calls: seq<ClientOp>, c: ClientOp)
    requires cfg.Valid() && Enabled(cfg, s, Client(c)) && MadeBy(cfg, s.state, calls)
    ensures MadeBy(cfg, Step(cfg, s, Client(c)).state, calls + [c])
  {
    if Ignored(cfg, c) {
      IgnoredNext(cfg, s.state, calls, c);
    } else {
      StreamsNext(cfg, s.state, calls, c);
      ModeNext(cfg, s.state, calls, c);
      EnabledNext(cfg, s.state, calls, c);
      RoutedNext(cfg, s.state, calls, c);
    }
  }

  // Over every run the shared state is what the calls that were taken make it.
  lemma {:induction false} CallsMakeState(cfg: Config, init: Sys, actions: seq<Action>)
    requires cfg.Valid() && IsInitial(cfg, init)
    ensures MadeBy(cfg, Run(cfg, init, actions).state, Calls(cfg, init, actions))
  {
    if actions != [] {
      var before, a := actions[..|actions| - 1], actions[|actions| - 1];
      CallsMakeState(cfg, init, before);
      var s, calls := Run(cfg, init, before), Calls(cfg, init, before);
      assert calls + [] == calls;
      if Enabled(cfg, s, a) {
        if a.Client? { ClientNext(cfg, s, calls, a.op); } else { WorkerLeavesState(cfg, s, a); }
      }
    }
  }

  // In normal mode, whenever the worker blocks after at least one round: the amplifier has the device of
  // the last routing; it is on exactly when the last call for the routed device enabled it and either
  // streams started and streams gone to standby differ in number, or the last call for any device enabled
  // a call device; and then it is in the mode that was set last.
  lemma NormalModeFollowsCalls(cfg: Config, init: Sys, actions: seq<Action>)
    requires cfg.Valid() && IsInitial(cfg, init) && init.control.Normal?
    requires forall i :: 0 <= i < |actions| && actions[i].Worker? ==> actions[i].o.control.Normal?
    requires var s := Run(cfg, init, actions); s.pc.Waiting? && s.updates == 0 && s.rounds > 0
    ensures var amp, calls := Run(cfg, init, actions).lib.amp, Calls(cfg, init, actions);
            var route, enable := Last(cfg, RouteCall, calls), Last(cfg, AmpCall, calls);
            var d := if route.None? then 0 else if route.value.devices > cfg.last then cfg.speaker else route.value.devices;
            amp.device == (if route.None? || cfg.ampDevice[d] == 0 then 0 else cfg.ampDevice[d] - 1) &&
            (amp.on <==>
               Last(cfg, AmpCallFor(d), calls) == Some(EnableOutputDevices(d, true)) &&
               (Count(calls, StreamStart) != Count(calls, StreamStandby) ||
                (enable.Some? && enable.value.enable && cfg.isCall[enable.value.devices]))) &&
            (amp.on ==> (amp.voice <==> Last(cfg, ModeCall, calls) == Some(SetMode(true))))
  {
    NormalModeFollows(cfg, init, actions);
    CallsMakeState(cfg, init, actions);
  }
}
