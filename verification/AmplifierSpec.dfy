/**
 The update protocol of audio_amplifier/audio_amplifier.c: clients change the shared state under the
 mutex and post trigger_update, a worker thread copies the state and sets the amplifier, and a retry
 loop inside a round gives the mutex up and may take a token and post it again.

 One Step is one atomic action of one thread. What the amplifier library, the control-mode property
 and the scheduler do is left to the Oracle and to the choice of actions.
 */
module AmplifierSpec {
  // ---------- The shared state and the client entry points ----------

  // The device numbers come from platform.h, which is not part of this model. last is LAST.
  datatype Config = Config(last: nat, ampDevice: seq<int>, isCall: seq<bool>,
                           none: nat, speaker: nat, speakerReverse: nat)
  {
    predicate Valid() {
      0 < last && |ampDevice| == |isCall| == last + 1 && speaker < last && none < last
    }
  }

  const DEFAULT := 0
  const STEREO_SPEAKER := 1

  datatype AmpState = AmpState(streams: int, inCall: bool, device: int, inDevice: nat, voice: bool,
                               reversed: bool, enabled: bool, enableds: seq<bool>)

  // The state in range: enableds has last entries and in_device is one of them.
  predicate InRange(cfg: Config, s: AmpState) { |s.enableds| == cfg.last && s.inDevice < cfg.last }

  predicate WantsOn(s: AmpState)
    requires s.inDevice < |s.enableds|
  {
    s.enableds[s.inDevice] && (s.streams != 0 || s.inCall)
  }

  datatype ClientOp =
    | SetOutputDevices(devices: nat)
    | EnableOutputDevices(devices: nat, enable: bool)
    | SetMode(callMode: bool)
    | StreamStart
    | StreamStandby

  // The calls that return before they take the mutex.
  predicate Ignored(cfg: Config, op: ClientOp)
    requires cfg.Valid() && Allowed(cfg, op)
  {
    match op
    case SetOutputDevices(d) => d == cfg.none
    case EnableOutputDevices(d, _) => cfg.ampDevice[d] == DEFAULT
    case _ => false
  }

  // The calls that index the device maps and enableds only inside their bounds, LAST being inside
  // the maps but outside enableds.
  predicate Allowed(cfg: Config, op: ClientOp)
    requires cfg.Valid()
  {
    match op
    case SetOutputDevices(d) => d != cfg.last
    case EnableOutputDevices(d, _) => d < cfg.last || (d == cfg.last && cfg.ampDevice[d] == DEFAULT)
    case _ => true
  }

  function SetDevices(cfg: Config, s: AmpState, devices: nat): AmpState
    requires cfg.Valid()
  {
    var d := if devices > cfg.last then cfg.speaker else devices;
    var out := if cfg.ampDevice[d] == DEFAULT then STEREO_SPEAKER else cfg.ampDevice[d];
    s.(device := out - 1, inDevice := d, reversed := d == cfg.speakerReverse)
  }

  function Apply(cfg: Config, s: AmpState, op: ClientOp): AmpState
    requires cfg.Valid() && InRange(cfg, s) && Allowed(cfg, op) && !Ignored(cfg, op)
  {
    match op
    case SetOutputDevices(d) => SetDevices(cfg, s, d)
    case EnableOutputDevices(d, on) =>
      s.(inCall := cfg.isCall[d] && on, enableds := s.enableds[d := on], enabled := on)
    case SetMode(callMode) => s.(voice := callMode)
    case StreamStart => s.(streams := s.streams + 1)
    case StreamStandby => s.(streams := s.streams - 1)
  }

  // Routing to LAST itself is let through by the range test and then indexes past enableds.
  lemma RoutingStaysInRangeIff(cfg: Config, s: AmpState, devices: nat)
    requires cfg.Valid() && InRange(cfg, s)
    ensures InRange(cfg, SetDevices(cfg, s, devices)) <==> devices != cfg.last
  {
  }

  // ---------- Threads ----------

  datatype Pc =
    | Waiting                     // in sem_wait(trigger_update)
    | Locking | Draining | Copying | Setting
    | Trying(again: nat)          // before ex_speaker_on, holding the mutex
    | RetryUnlocked(again: nat)   // it failed: the mutex is given up, before sem_trywait
    | Relocking(again: nat)
    | Finishing | CheckingExit | Done

  predicate HoldsMutex(pc: Pc) {
    pc.Draining? || pc.Copying? || pc.Setting? || pc.Trying? || pc.Finishing?
  }

  datatype Control = Normal | Legacy | Bypass

  datatype Amp = Amp(device: int, on: bool, voice: bool)

  // The amplifier, and what is known of it: whether the last round switched it by calls of known
  // effect, and whether set_device was the last to choose its device.
  datatype Lib = Lib(amp: Amp, powerSet: bool, deviceSet: bool)

  datatype Sys = Sys(state: AmpState, updates: nat, exits: nat, closing: nat,
                     pc: Pc, copy: AmpState, reinitialize: bool, control: Control,
                     rounds: nat, lib: Lib)

  // The library's and the property's answers: whether ex_speaker_on fails, what a failure or another
  // control mode leaves in the amplifier, and the control mode a quiet round switches to.
  datatype Oracle = Oracle(onFails: bool, amp: Amp, control: Control)

  datatype Action = Client(op: ClientOp) | Worker(o: Oracle) | CloseExit | CloseUpdate

  // What module_open and the start of the worker leave: all zero, and mode is MUSIC.
  function ZeroState(cfg: Config): AmpState {
    AmpState(0, false, 0, 0, false, false, false, seq(cfg.last, _ => false))
  }

  function Initial(cfg: Config, control: Control, amp: Amp): Sys {
    Sys(ZeroState(cfg), 0, 0, 0, Waiting, ZeroState(cfg), true, control, 0, Lib(amp, false, false))
  }

  predicate IsInitial(cfg: Config, s: Sys) { s == Initial(cfg, s.control, s.lib.amp) }

  predicate Enabled(cfg: Config, s: Sys, a: Action)
    requires cfg.Valid()
  {
    match a
    case Client(op) => !HoldsMutex(s.pc) && Allowed(cfg, op) && InRange(cfg, s.state)
    case Worker(_) => !s.pc.Done? && (s.pc.Waiting? ==> s.updates > 0) && InRange(cfg, s.copy)
    case CloseExit => s.closing == 0
    case CloseUpdate => s.closing == 1
  }

  function Step(cfg: Config, s: Sys, a: Action): Sys
    requires cfg.Valid() && Enabled(cfg, s, a)
  {
    match a
    case Client(op) =>
      if Ignored(cfg, op) then s else s.(state := Apply(cfg, s.state, op), updates := s.updates + 1)
    case CloseExit => s.(closing := 1, exits := s.exits + 1)
    case CloseUpdate => s.(closing := 2, updates := s.updates + 1)
    case Worker(o) => WorkerStep(s, o)
  }

  // Whether a round calls ex_speaker_on, again and again while it fails.
  predicate TriesOn(control: Control, want: AmpState)
    requires want.inDevice < |want.enableds|
  {
    WantsOn(want) && (control.Normal? || (control.Legacy? && want.inCall))
  }

  function WorkerStep(s: Sys, o: Oracle): Sys
    requires !s.pc.Done? && (s.pc.Waiting? ==> s.updates > 0) && s.copy.inDevice < |s.copy.enableds|
  {
    Proceed(s, o.onFails, o.control).(lib := SetLib(s, o))
  }

  // What a step of the worker does to everything but the amplifier.
  function Proceed(s: Sys, onFails: bool, control: Control): Sys
    requires !s.pc.Done? && (s.pc.Waiting? ==> s.updates > 0) && s.copy.inDevice < |s.copy.enableds|
  {
    match s.pc
    case Waiting => s.(updates := s.updates - 1, pc := Locking)
    case Locking => s.(pc := Draining)
    case Draining => if s.updates > 0 then s.(updates := s.updates - 1) else s.(pc := Copying)
    case Copying =>
      s.(copy := s.state, pc := Setting,
         reinitialize := s.reinitialize || s.state.device != s.copy.device || s.state.reversed != s.copy.reversed)
    case Setting => s.(pc := if TriesOn(s.control, s.copy) then Trying(1) else Finishing)
    case Trying(again) => s.(pc := if onFails then RetryUnlocked(again) else Finishing)
    case RetryUnlocked(again) =>
      if s.updates > 0 then s.(updates := s.updates - 1, pc := Relocking(0)) else s.(pc := Relocking(again + 1))
    case Relocking(again) =>
      if again == 0 then s.(updates := s.updates + 1, pc := Finishing) else s.(pc := Trying(again))
    case Finishing =>
      s.(control := if s.copy.enableds[s.copy.inDevice] then s.control else control,
         reinitialize := false, rounds := s.rounds + 1, pc := CheckingExit)
    case CheckingExit => if s.exits > 0 then s.(exits := s.exits - 1, pc := Done) else s.(pc := Waiting)
  }

  // And to the amplifier. The legacy mode's own calls may switch it in any way, those of the bypass
  // mode may choose the device too.
  function SetLib(s: Sys, o: Oracle): Lib
    requires s.copy.inDevice < |s.copy.enableds|
  {
    var amp := s.lib.amp;
    if s.pc.Trying? then
      s.lib.(amp := if o.onFails then o.amp.(device := amp.device) else Amp(amp.device, true, s.copy.voice))
    else if !s.pc.Setting? then s.lib
    else
      var device := if s.reinitialize then s.copy.device else amp.device;
      var tries, deviceSet := TriesOn(s.control, s.copy), s.lib.deviceSet || s.reinitialize;
      match s.control
      case Normal => Lib(Amp(device, !s.reinitialize && tries && amp.on, amp.voice), true, deviceSet)
      case Legacy => Lib(o.amp.(device := device), tries, deviceSet)
      case Bypass => Lib(o.amp, false, false)
  }

  // Disabled actions do not happen.
  function Run(cfg: Config, init: Sys, actions: seq<Action>): Sys
    requires cfg.Valid()
  {
    if actions == [] then init else
    var s := Run(cfg, init, actions[..|actions| - 1]);
    var a := actions[|actions| - 1];
    if Enabled(cfg, s, a) then Step(cfg, s, a) else s
  }

  // ---------- No update is lost ----------

  // The worker has copied in this round, or has nothing to copy.
  predicate HasCopied(pc: Pc) {
    !pc.Locking? && !pc.Draining? && !pc.Copying? && (pc.Relocking? ==> pc.again > 0)
  }

  // On exactly when it should be, and then in the right mode.
  ghost predicate PowerFollows(amp: Amp, want: AmpState)
    requires want.inDevice < |want.enableds|
  {
    amp.on == WantsOn(want) && (amp.on ==> amp.voice == want.voice)
  }

  ghost predicate AmpFollows(amp: Amp, want: AmpState)
    requires want.inDevice < |want.enableds|
  {
    amp.device == want.device && PowerFollows(amp, want)
  }

  // A change that the worker has not copied is announced by a token.
  ghost predicate ChangesAnnounced(cfg: Config, s: Sys) {
    InRange(cfg, s.state) && InRange(cfg, s.copy) &&
    (HasCopied(s.pc) && s.state != s.copy ==> s.updates > 0)
  }

  // Between the copy and the end of a round.
  predicate InRound(pc: Pc) { pc.Trying? || pc.RetryUnlocked? || pc.Relocking? || pc.Finishing? }

  // The round is over, or was not begun.
  predicate Resting(pc: Pc) { pc.CheckingExit? || pc.Waiting? }

  // A device set by set_device is the copied one once a round has begun, and a finished round that
  // switched the amplifier by known calls has left it right, or has posted again the token it took.
  ghost predicate AmpSet(s: Sys)
    requires s.copy.inDevice < |s.copy.enableds|
  {
    (s.lib.deviceSet && (InRound(s.pc) || !s.reinitialize) ==> s.lib.amp.device == s.copy.device) &&
    (s.reinitialize && Resting(s.pc) ==> s.rounds == 0) &&
    (InRound(s.pc) && !s.pc.Finishing? ==> WantsOn(s.copy) && s.lib.powerSet) &&
    (s.lib.powerSet && (s.pc.Finishing? || (s.rounds > 0 && Resting(s.pc))) ==>
       s.updates > 0 || PowerFollows(s.lib.amp, s.copy))
  }

  // Once the device is being closed the worker will see it, and has a token to wake up with.
  ghost predicate CloseSeen(s: Sys) {
    s.closing <= 2 && (s.closing == 0 ==> s.exits == 0) &&
    (s.closing >= 1 ==> s.pc.Done? || s.exits > 0) && (s.pc.Done? ==> s.closing >= 1) &&
    (s.closing == 2 && s.pc.Waiting? ==> s.updates > 0)
  }

  ghost predicate Inv(cfg: Config, s: Sys) {
    ChangesAnnounced(cfg, s) && AmpSet(s) && CloseSeen(s)
  }

  lemma WorkerAnnounces(cfg: Config, s: Sys, o: Oracle)
    requires cfg.Valid() && ChangesAnnounced(cfg, s) && Enabled(cfg, s, Worker(o))
    ensures ChangesAnnounced(cfg, WorkerStep(s, o))
  {
    match s.pc
    case Setting =>
    case Copying =>
    case _ =>
  }

  lemma StepAnnounces(cfg: Config, s: Sys, a: Action)
    requires cfg.Valid() && ChangesAnnounced(cfg, s) && Enabled(cfg, s, a)
    ensures ChangesAnnounced(cfg, Step(cfg, s, a))
  {
    if a.Worker? { WorkerAnnounces(cfg, s, a.o); }
  }

  lemma SettingSetsAmp(s: Sys, o: Oracle)
    requires s.copy.inDevice < |s.copy.enableds| && AmpSet(s) && s.pc.Setting?
    ensures AmpSet(WorkerStep(s, o))
  {
    if s.control.Normal? && !TriesOn(s.control, s.copy) {
      assert PowerFollows(WorkerStep(s, o).lib.amp, s.copy);
    }
  }

  lemma TryingSetsAmp(s: Sys, o: Oracle)
    requires s.copy.inDevice < |s.copy.enableds| && AmpSet(s) && s.pc.Trying?
    ensures AmpSet(WorkerStep(s, o))
  {
    assert !o.onFails ==> PowerFollows(WorkerStep(s, o).lib.amp, s.copy);
  }

  lemma WorkerSetsAmp(cfg: Config, s: Sys, o: Oracle)
    requires cfg.Valid() && ChangesAnnounced(cfg, s) && AmpSet(s) && Enabled(cfg, s, Worker(o))
    ensures WorkerStep(s, o).copy.inDevice < |WorkerStep(s, o).copy.enableds| && AmpSet(WorkerStep(s, o))
  {
    if s.pc.Setting? {
      SettingSetsAmp(s, o);
    } else if s.pc.Trying? {
      TryingSetsAmp(s, o);
    } else {
      OtherStepSetsAmp(cfg, s, o);
    }
  }

  lemma OtherStepSetsAmp(cfg: Config, s: Sys, o: Oracle)
    requires cfg.Valid() && ChangesAnnounced(cfg, s) && AmpSet(s) && Enabled(cfg, s, Worker(o))
    requires !s.pc.Setting? && !s.pc.Trying?
    ensures var n := WorkerStep(s, o); n.copy.inDevice < |n.copy.enableds| && AmpSet(n)
  {
    assert SetLib(s, o) == s.lib;
  }

  lemma StepSetsAmp(cfg: Config, s: Sys, a: Action)
    requires cfg.Valid() && ChangesAnnounced(cfg, s) && AmpSet(s) && Enabled(cfg, s, a)
    ensures Step(cfg, s, a).copy.inDevice < |Step(cfg, s, a).copy.enableds| && AmpSet(Step(cfg, s, a))
  {
    if a.Worker? { WorkerSetsAmp(cfg, s, a.o); }
  }

  lemma StepSeesClose(cfg: Config, s: Sys, a: Action)
    requires cfg.Valid() && CloseSeen(s) && Enabled(cfg, s, a)
    ensures CloseSeen(Step(cfg, s, a))
  {
  }

  lemma StepKeepsInv(cfg: Config, s: Sys, a: Action)
    requires cfg.Valid() && Inv(cfg, s) && Enabled(cfg, s, a)
    ensures Inv(cfg, Step(cfg, s, a))
  {
    StepAnnounces(cfg, s, a);
    StepSetsAmp(cfg, s, a);
    StepSeesClose(cfg, s, a);
  }

  lemma {:induction false} RunKeepsInv(cfg: Config, init: Sys, actions: seq<Action>)
    requires cfg.Valid() && IsInitial(cfg, init)
    ensures Inv(cfg, Run(cfg, init, actions))
  {
    if actions != [] {
      var s, a := Run(cfg, init, actions[..|actions| - 1]), actions[|actions| - 1];
      RunKeepsInv(cfg, init, actions[..|actions| - 1]);
      if Enabled(cfg, s, a) { StepKeepsInv(cfg, s, a); }
    }
  }

  // ---------- The rounds of a run ----------

  // What a round ran with: the control mode and the copied state.
  datatype Round = Round(control: Control, copy: AmpState)

  // The rounds begun, in their order.
  function Rounds(cfg: Config, init: Sys, actions: seq<Action>): seq<Round>
    requires cfg.Valid()
  {
    if actions == [] then [] else
    var before, a := actions[..|actions| - 1], actions[|actions| - 1];
    var s := Run(cfg, init, before);
    Rounds(cfg, init, before) +
      if a.Worker? && s.pc.Setting? && Enabled(cfg, s, a) then [Round(s.control, s.copy)] else []
  }

  // The first round sets the amplifier up, and so does one with another device or orientation.
  predicate SetsUp(rounds: seq<Round>, i: nat)
    requires i < |rounds|
  {
    i == 0 || rounds[i].copy.device != rounds[i - 1].copy.device ||
    rounds[i].copy.reversed != rounds[i - 1].copy.reversed
  }

  // The last round switched the amplifier by calls of known effect: it was a normal one, or a legacy
  // one that called ex_speaker_on.
  predicate SwitchKnown(rounds: seq<Round>) {
    rounds != [] &&
    var r := rounds[|rounds| - 1];
    r.control == Normal ||
    (r.control == Legacy && r.copy.inCall && r.copy.inDevice < |r.copy.enableds| && r.copy.enableds[r.copy.inDevice])
  }

  // There was no bypass round since one that set the amplifier up.
  ghost predicate DeviceKnown(rounds: seq<Round>) { exists i :: DeviceKnownSince(rounds, i) }

  ghost predicate DeviceKnownSince(rounds: seq<Round>, i: int) {
    0 <= i < |rounds| && SetsUp(rounds, i) && forall j :: i <= j < |rounds| ==> !rounds[j].control.Bypass?
  }

  lemma DeviceKnownNext(rounds: seq<Round>, r: Round)
    ensures DeviceKnown(rounds + [r])
            <==> !r.control.Bypass? && (DeviceKnown(rounds) || SetsUp(rounds + [r], |rounds|))
  {
    var more := rounds + [r];
    assert forall j :: 0 <= j < |rounds| ==> more[j] == rounds[j];
    if DeviceKnown(more) {
      var i :| DeviceKnownSince(more, i);
      assert more[|rounds|] == r;
      if i < |rounds| {
        forall j | i <= j < |rounds| ensures !rounds[j].control.Bypass? { assert more[j] == rounds[j]; }
        assert SetsUp(rounds, i);
        assert DeviceKnownSince(rounds, i);
      }
    }
    if !r.control.Bypass? && DeviceKnown(rounds) {
      var i :| DeviceKnownSince(rounds, i);
      assert DeviceKnownSince(more, i);
    }
    if !r.control.Bypass? && SetsUp(more, |rounds|) { assert DeviceKnownSince(more, |rounds|); }
  }

  // The state after these rounds: what is known of the amplifier is what they say.
  ghost predicate AfterRounds(s: Sys, rounds: seq<Round>) {
    |rounds| == s.rounds + (if InRound(s.pc) then 1 else 0) &&
    s.lib.powerSet == SwitchKnown(rounds) && s.lib.deviceSet == DeviceKnown(rounds) &&
    (if s.pc.Setting? then s.reinitialize == SetsUp(rounds + [Round(s.control, s.copy)], |rounds|)
     else rounds != [] ==> s.copy == rounds[|rounds| - 1].copy) &&
    (!s.pc.Setting? && !InRound(s.pc) ==> s.reinitialize == (rounds == []))
  }

  lemma BeginRound(s: Sys, o: Oracle, rounds: seq<Round>)
    requires s.copy.inDevice < |s.copy.enableds| && s.pc.Setting? && AfterRounds(s, rounds)
    ensures AfterRounds(WorkerStep(s, o), rounds + [Round(s.control, s.copy)])
  {
    DeviceKnownNext(rounds, Round(s.control, s.copy));
  }

  lemma WithinRound(cfg: Config, s: Sys, a: Action, rounds: seq<Round>)
    requires cfg.Valid() && Enabled(cfg, s, a) && AfterRounds(s, rounds) && !(a.Worker? && s.pc.Setting?)
    ensures AfterRounds(Step(cfg, s, a), rounds)
  {
    if a.Worker? {
      assert SetLib(s, a.o).powerSet == s.lib.powerSet && SetLib(s, a.o).deviceSet == s.lib.deviceSet;
    }
  }

  lemma {:induction false} RoundsTell(cfg: Config, init: Sys, actions: seq<Action>)
    requires cfg.Valid() && IsInitial(cfg, init)
    ensures AfterRounds(Run(cfg, init, actions), Rounds(cfg, init, actions))
  {
    if actions != [] {
      var before, a := actions[..|actions| - 1], actions[|actions| - 1];
      RoundsTell(cfg, init, before);
      var s := Run(cfg, init, before);
      assert Rounds(cfg, init, before) + [] == Rounds(cfg, init, before);
      if Enabled(cfg, s, a) {
        if a.Worker? && s.pc.Setting? {
          BeginRound(s, a.o, Rounds(cfg, init, before));
        } else {
          WithinRound(cfg, s, a, Rounds(cfg, init, before));
        }
      }
    }
  }

  // The control mode is looked up only at the end of a round whose device is not enabled.
  lemma ControlSwitches(cfg: Config, s: Sys, a: Action)
    requires cfg.Valid() && Enabled(cfg, s, a)
    ensures Step(cfg, s, a).control ==
              if a.Worker? && s.pc == Finishing && !s.copy.enableds[s.copy.inDevice] then a.o.control else s.control
  {
  }

  // Whenever the worker blocks, its copy is the shared state; and after a round the amplifier is on as
  // it should be if that round switched it by known calls, and has the right device if there was no
  // bypass round since one that set the amplifier up.
  lemma NoUpdateIsLost(cfg: Config, init: Sys, actions: seq<Action>)
    requires cfg.Valid() && IsInitial(cfg, init)
    ensures var s, rounds := Run(cfg, init, actions), Rounds(cfg, init, actions);
            s.pc.Waiting? && s.updates == 0 ==>
              s.copy == s.state && InRange(cfg, s.state) &&
              (SwitchKnown(rounds) ==> PowerFollows(s.lib.amp, s.state)) &&
              (DeviceKnown(rounds) ==> s.lib.amp.device == s.state.device)
  {
    RunKeepsInv(cfg, init, actions);
    RoundsTell(cfg, init, actions);
  }

  // In normal control mode: whenever the worker blocks after at least one round, its copy is the shared
  // state, and the amplifier has its device and is on, in its mode, exactly when it should be.
  lemma NormalModeFollows(cfg: Config, init: Sys, actions: seq<Action>)
    requires cfg.Valid() && IsInitial(cfg, init) && init.control.Normal?
    requires forall i :: 0 <= i < |actions| && actions[i].Worker? ==> actions[i].o.control.Normal?
    ensures var s := Run(cfg, init, actions);
            s.pc.Waiting? && s.updates == 0 && s.rounds > 0 ==>
              s.copy == s.state && |s.state.enableds| == cfg.last && s.state.inDevice < cfg.last &&
              s.lib.amp.device == s.state.device &&
              (s.lib.amp.on <==> s.state.enableds[s.state.inDevice] && (s.state.streams != 0 || s.state.inCall)) &&
              (s.lib.amp.on ==> s.lib.amp.voice == s.state.voice)
  {
    NoUpdateIsLost(cfg, init, actions);
    RoundsTell(cfg, init, actions);
    StaysNormal(cfg, init, actions);
    var rounds := Rounds(cfg, init, actions);
    if rounds != [] { assert DeviceKnownSince(rounds, 0); }
  }

  lemma {:induction false} StaysNormal(cfg: Config, init: Sys, actions: seq<Action>)
    requires cfg.Valid() && IsInitial(cfg, init) && init.control.Normal?
    requires forall i :: 0 <= i < |actions| && actions[i].Worker? ==> actions[i].o.control.Normal?
    ensures Run(cfg, init, actions).control.Normal?
    ensures forall r :: r in Rounds(cfg, init, actions) ==> r.control.Normal?
  {
    if actions != [] {
      var before, a := actions[..|actions| - 1], actions[|actions| - 1];
      StaysNormal(cfg, init, before);
      StepStaysNormal(cfg, Run(cfg, init, before), a);
    }
  }

  lemma StepStaysNormal(cfg: Config, s: Sys, a: Action)
    requires cfg.Valid() && s.control.Normal? && (a.Worker? ==> a.o.control.Normal?)
    ensures Enabled(cfg, s, a) ==> Step(cfg, s, a).control.Normal?
  {
  }

  // The same schedule, with the same failures and control modes: only what the library leaves in the
  // amplifier where its effect is not known may differ.
  ghost predicate SameSchedule(a: seq<Action>, b: seq<Action>) {
    |a| == |b| &&
    forall i :: 0 <= i < |a| ==>
      a[i] == b[i] ||
      (a[i].Worker? && b[i].Worker? && a[i].o.onFails == b[i].o.onFails && a[i].o.control == b[i].o.control)
  }

  // The exact condition: at the end of a schedule that leaves the worker blocked after a round, the
  // amplifier is right whatever the library did if and only if the last round was a normal one, or a
  // legacy one that called ex_speaker_on, and no bypass round came since one that set the amplifier up.
  lemma NoUpdateIsLostIff(cfg: Config, init: Sys, actions: seq<Action>)
    requires cfg.Valid() && IsInitial(cfg, init)
    requires var s := Run(cfg, init, actions); s.pc.Waiting? && s.updates == 0 && s.rounds > 0
    ensures var s, rounds := Run(cfg, init, actions), Rounds(cfg, init, actions);
            InRange(cfg, s.state) &&
            ((forall b :: SameSchedule(actions, b) ==> AmpFollows(Run(cfg, init, b).lib.amp, s.state))
             <==> SwitchKnown(rounds) && DeviceKnown(rounds))
  {
    var s := Run(cfg, init, actions);
    RoundsTell(cfg, init, actions);
    NoUpdateIsLost(cfg, init, actions);
    if s.lib.powerSet && s.lib.deviceSet {
      forall b | SameSchedule(actions, b) ensures AmpFollows(Run(cfg, init, b).lib.amp, s.state) {
        ScheduleDecides(cfg, init, actions, b);
        RunKeepsInv(cfg, init, b);
      }
    } else {
      var device, on := s.state.device + 1, !WantsOn(s.state);
      var b := Left(actions, device, on);
      ScheduleDecides(cfg, init, actions, b);
      LibraryDecides(cfg, init, b, device, on);
      assert !AmpFollows(Run(cfg, init, b).lib.amp, s.state);
    }
  }

  // Alike but for the amplifier.
  ghost predicate Alike(s: Sys, t: Sys) { t == s.(lib := s.lib.(amp := t.lib.amp)) }

  // Everything but the amplifier is decided by the schedule.
  lemma {:induction false} ScheduleDecides(cfg: Config, init: Sys, a: seq<Action>, b: seq<Action>)
    requires cfg.Valid() && SameSchedule(a, b)
    ensures Alike(Run(cfg, init, a), Run(cfg, init, b))
  {
    if a != [] {
      var k := |a| - 1;
      ScheduleDecides(cfg, init, a[..k], b[..k]);
      var s, t := Run(cfg, init, a[..k]), Run(cfg, init, b[..k]);
      if a[k].Worker? && b[k].Worker? && Enabled(cfg, s, a[k]) {
        WorkersAlike(s, t, a[k].o, b[k].o);
      }
    }
  }

  lemma WorkersAlike(s: Sys, t: Sys, o: Oracle, p: Oracle)
    requires Alike(s, t) && o.onFails == p.onFails && o.control == p.control
    requires !s.pc.Done? && (s.pc.Waiting? ==> s.updates > 0) && s.copy.inDevice < |s.copy.enableds|
    ensures Alike(WorkerStep(s, o), WorkerStep(t, p))
  {
    ProceedsAlike(s, t, o.onFails, o.control);
  }

  lemma ProceedsAlike(s: Sys, t: Sys, onFails: bool, control: Control)
    requires t == s.(lib := t.lib)
    requires !s.pc.Done? && (s.pc.Waiting? ==> s.updates > 0) && s.copy.inDevice < |s.copy.enableds|
    ensures Proceed(t, onFails, control) == Proceed(s, onFails, control).(lib := t.lib)
  {
  }

  // The schedule, with a library that leaves this device and switch wherever it is free to.
  function Left(actions: seq<Action>, device: int, on: bool): (b: seq<Action>)
    ensures SameSchedule(actions, b)
  {
    seq(|actions|, i requires 0 <= i < |actions| =>
      match actions[i]
      case Worker(o) => Worker(o.(amp := Amp(device, on, false)))
      case a => a)
  }

  ghost predicate Leaves(a: Action, device: int, on: bool) {
    a.Worker? ==> a.o.amp.device == device && a.o.amp.on == on
  }

  // The library decides wherever the flags do not.
  ghost predicate LibraryLeft(s: Sys, device: int, on: bool) {
    if s.rounds > 0 || InRound(s.pc) then
      (!s.lib.deviceSet ==> s.lib.amp.device == device) && (!s.lib.powerSet ==> s.lib.amp.on == on)
    else s.reinitialize
  }

  lemma {:induction false} LibraryDecides(cfg: Config, init: Sys, b: seq<Action>, device: int, on: bool)
    requires cfg.Valid() && IsInitial(cfg, init)
    requires forall i :: 0 <= i < |b| ==> Leaves(b[i], device, on)
    ensures LibraryLeft(Run(cfg, init, b), device, on)
  {
    if b != [] {
      var before, a := b[..|b| - 1], b[|b| - 1];
      LibraryDecides(cfg, init, before, device, on);
      RunKeepsInv(cfg, init, before);
      if Enabled(cfg, Run(cfg, init, before), a) {
        StepLeaves(cfg, Run(cfg, init, before), a, device, on);
      }
    }
  }

  lemma StepLeaves(cfg: Config, s: Sys, a: Action, device: int, on: bool)
    requires cfg.Valid() && Inv(cfg, s) && Enabled(cfg, s, a) && Leaves(a, device, on)
    requires LibraryLeft(s, device, on)
    ensures LibraryLeft(Step(cfg, s, a), device, on)
  {
  }

  // Closing never leaves the worker blocked, and a worker that is done was told to exit.
  lemma CloseWakesWorker(cfg: Config, init: Sys, actions: seq<Action>)
    requires cfg.Valid() && IsInitial(cfg, init)
    ensures var s := Run(cfg, init, actions);
            (s.closing == 2 && s.pc.Waiting? ==> s.updates > 0) && (s.pc.Done? ==> s.closing >= 1)
  {
    RunKeepsInv(cfg, init, actions);
  }

  // ---------- Closing, and when it hangs ----------

  // Still to take every token, the close's among them.
  predicate BeforeCopy(pc: Pc) { pc.Waiting? || pc.Locking? || pc.Draining? }

  // While closing: the round has, or will have, no token left to end its retries with.
  predicate MayHang(cfg: Config, s: Sys)
    requires InRange(cfg, s.state) && InRange(cfg, s.copy)
  {
    match s.pc
    case Copying => s.updates == 0 && TriesOn(s.control, s.state)
    case Setting => s.updates == 0 && TriesOn(s.control, s.copy)
    case Trying(_) => s.updates == 0
    case RetryUnlocked(_) => s.updates == 0
    case Relocking(again) => s.updates == 0 && again > 0
    case _ => BeforeCopy(s.pc) && TriesOn(s.control, s.state)
  }

  // How many more steps the worker takes at most, if it cannot hang.
  function Remaining(s: Sys): nat {
    match s.pc
    case Waiting => 10 + s.updates
    case Locking => 10 + s.updates
    case Draining => 9 + s.updates
    case Copying => 8
    case Setting => 7
    case Relocking(again) => if again > 0 then 6 else 3
    case Trying(_) => 5
    case RetryUnlocked(_) => 4
    case Finishing => 2
    case CheckingExit => 1
    case Done => 0
  }

  ghost predicate Closing(cfg: Config, s: Sys) { Inv(cfg, s) && s.closing == 2 }

  lemma ClosingProceeds(cfg: Config, s: Sys, onFails: bool, control: Control)
    requires cfg.Valid() && Closing(cfg, s) && !s.pc.Done?
    ensures var t := Proceed(s, onFails, control);
            InRange(cfg, t.state) && InRange(cfg, t.copy) && t.closing == 2 &&
            (!MayHang(cfg, s) ==> !MayHang(cfg, t) && Remaining(t) < Remaining(s)) &&
            (MayHang(cfg, s) && onFails ==> MayHang(cfg, t))
  {
  }

  lemma ClosingStep(cfg: Config, s: Sys, o: Oracle)
    requires cfg.Valid() && Closing(cfg, s) && !s.pc.Done?
    ensures Enabled(cfg, s, Worker(o)) && Closing(cfg, Step(cfg, s, Worker(o)))
    ensures var t := Step(cfg, s, Worker(o));
            (!MayHang(cfg, s) ==> !MayHang(cfg, t) && Remaining(t) < Remaining(s)) &&
            (MayHang(cfg, s) && o.onFails ==> MayHang(cfg, t))
  {
    StepKeepsInv(cfg, s, Worker(o));
    ClosingProceeds(cfg, s, o.onFails, o.control);
    var n, t := Proceed(s, o.onFails, o.control), Step(cfg, s, Worker(o));
    assert t == n.(lib := t.lib);
    assert MayHang(cfg, t) == MayHang(cfg, n) && Remaining(t) == Remaining(n);
  }

  // The worker alone, with these answers.
  function Workers(os: seq<Oracle>): seq<Action> { seq(|os|, i requires 0 <= i < |os| => Worker(os[i])) }

  lemma WorkersFront(os: seq<Oracle>)
    requires os != []
    ensures Workers(os)[..|os| - 1] == Workers(os[..|os| - 1])
  {
  }

  // A worker that cannot hang is done after so many steps, whatever the library answers.
  lemma {:induction false} CloseTerminates(cfg: Config, s: Sys, os: seq<Oracle>)
    requires cfg.Valid() && Closing(cfg, s) && !MayHang(cfg, s)
    ensures var t := Run(cfg, s, Workers(os));
            Closing(cfg, t) && !MayHang(cfg, t) && (t.pc.Done? || Remaining(t) + |os| <= Remaining(s))
    ensures |os| >= Remaining(s) ==> Run(cfg, s, Workers(os)).pc.Done?
  {
    if os != [] {
      var before, o := os[..|os| - 1], os[|os| - 1];
      CloseTerminates(cfg, s, before);
      WorkersFront(os);
      var t := Run(cfg, s, Workers(before));
      if !t.pc.Done? { ClosingStep(cfg, t, o); }
    }
  }

  // A worker that may hang is never done while ex_speaker_on fails.
  lemma {:induction false} FailingCloseNeverEnds(cfg: Config, s: Sys, os: seq<Oracle>)
    requires cfg.Valid() && Closing(cfg, s) && MayHang(cfg, s)
    requires forall i :: 0 <= i < |os| ==> os[i].onFails
    ensures var t := Run(cfg, s, Workers(os)); Closing(cfg, t) && MayHang(cfg, t) && !t.pc.Done?
  {
    if os != [] {
      var before, o := os[..|os| - 1], os[|os| - 1];
      FailingCloseNeverEnds(cfg, s, before);
      WorkersFront(os);
      ClosingStep(cfg, Run(cfg, s, Workers(before)), o);
    }
  }

  // With both tokens of the close posted, the worker ends whatever the library answers if and only if
  // it may not hang.
  lemma CloseEndsIff(cfg: Config, s: Sys)
    requires cfg.Valid() && Closing(cfg, s)
    ensures (forall os :: |os| >= Remaining(s) ==> Run(cfg, s, Workers(os)).pc.Done?) <==> !MayHang(cfg, s)
  {
    if MayHang(cfg, s) {
      var os := seq(Remaining(s), _ => Oracle(true, s.lib.amp, s.control));
      FailingCloseNeverEnds(cfg, s, os);
      assert |os| >= Remaining(s) && !Run(cfg, s, Workers(os)).pc.Done?;
    } else {
      forall os | |os| >= Remaining(s) ensures Run(cfg, s, Workers(os)).pc.Done? {
        CloseTerminates(cfg, s, os);
      }
    }
  }

  // Both tokens posted at once.
  lemma ClosingNowEndsIff(cfg: Config, s: Sys)
    requires cfg.Valid() && Inv(cfg, s) && s.closing == 0
    ensures var t := Step(cfg, Step(cfg, s, CloseExit), CloseUpdate);
            (forall os :: |os| >= Remaining(t) ==> Run(cfg, t, Workers(os)).pc.Done?)
            <==> !HangsIfClosed(cfg, s)
  {
    StepKeepsInv(cfg, s, CloseExit);
    ClosingLaterEndsIff(cfg, Step(cfg, s, CloseExit));
  }

  // The worker has still to take the pending tokens, and the state makes the round call ex_speaker_on.
  predicate HangsIfClosed(cfg: Config, s: Sys)
    requires InRange(cfg, s.state)
  {
    (s.pc == Waiting || s.pc == Locking || s.pc == Draining) &&
    s.state.enableds[s.state.inDevice] && (s.state.streams != 0 || s.state.inCall) &&
    (s.control == Normal || (s.control == Legacy && s.state.inCall))
  }

  // The second token posted at any later time.
  lemma ClosingLaterEndsIff(cfg: Config, s: Sys)
    requires cfg.Valid() && Inv(cfg, s) && s.closing == 1
    ensures var t := Step(cfg, s, CloseUpdate);
            (forall os :: |os| >= Remaining(t) ==> Run(cfg, t, Workers(os)).pc.Done?)
            <==> !HangsIfClosed(cfg, s)
  {
    StepKeepsInv(cfg, s, CloseUpdate);
    CloseEndsIff(cfg, Step(cfg, s, CloseUpdate));
  }

  // The close as the worker sees it: between the two posts it takes the steps os.
  function Closed(cfg: Config, s: Sys, os: seq<Oracle>): Sys
    requires cfg.Valid() && s.closing == 0
  {
    var t := Run(cfg, Step(cfg, s, CloseExit), Workers(os));
    if t.closing == 1 then Step(cfg, t, CloseUpdate) else t
  }

  // What a caller can look at before it closes: however many steps the worker takes between the two
  // posts, the close ends if and only if it does not hang when closed now.
  lemma ClosingEndsIff(cfg: Config, s: Sys)
    requires cfg.Valid() && Inv(cfg, s) && s.closing == 0
    ensures (forall os, qs :: |qs| >= Remaining(Closed(cfg, s, os)) ==>
               Run(cfg, Closed(cfg, s, os), Workers(qs)).pc.Done?)
            <==> !HangsIfClosed(cfg, s)
  {
    var t := Step(cfg, s, CloseExit);
    StepKeepsInv(cfg, s, CloseExit);
    if HangsIfClosed(cfg, s) {
      assert Closed(cfg, s, []) == Step(cfg, t, CloseUpdate);
      ClosingNowEndsIff(cfg, s);
    } else {
      forall os, qs | |qs| >= Remaining(Closed(cfg, s, os))
        ensures Run(cfg, Closed(cfg, s, os), Workers(qs)).pc.Done?
      {
        BetweenPosts(cfg, t, os);
        ClosingLaterEndsIff(cfg, Run(cfg, t, Workers(os)));
      }
    }
  }

  // Between the posts the worker comes back to no round that could hang.
  lemma {:induction false} BetweenPosts(cfg: Config, t: Sys, os: seq<Oracle>)
    requires cfg.Valid() && Inv(cfg, t) && t.closing == 1 && !HangsIfClosed(cfg, t)
    ensures var u := Run(cfg, t, Workers(os)); Inv(cfg, u) && u.closing == 1 && !HangsIfClosed(cfg, u)
  {
    if os != [] {
      BetweenPosts(cfg, t, os[..|os| - 1]);
      WorkersFront(os);
      var u, w := Run(cfg, t, Workers(os[..|os| - 1])), Worker(os[|os| - 1]);
      if Enabled(cfg, u, w) {
        StepKeepsInv(cfg, u, w);
        BetweenStep(cfg, u, os[|os| - 1]);
      }
    }
  }

  lemma BetweenStep(cfg: Config, u: Sys, o: Oracle)
    requires cfg.Valid() && Inv(cfg, u) && Enabled(cfg, u, Worker(o)) && u.closing == 1
    requires !HangsIfClosed(cfg, u) && InRange(cfg, Step(cfg, u, Worker(o)).state)
    ensures var v := Step(cfg, u, Worker(o)); v.closing == 1 && !HangsIfClosed(cfg, v)
  {
  }

  // Such a close: a device with an amplifier enabled and routed to, a stream started, and no round yet.
  lemma CloseCanHang(cfg: Config, init: Sys, d: nat) returns (actions: seq<Action>)
    requires cfg.Valid() && IsInitial(cfg, init) && init.control.Normal?
    requires d < cfg.last && d != cfg.none && cfg.ampDevice[d] != DEFAULT
    ensures var s := Run(cfg, init, actions);
            s.closing == 2 &&
            forall os: seq<Oracle> :: (forall i :: 0 <= i < |os| ==> os[i].onFails) ==>
              !Run(cfg, s, Workers(os)).pc.Done?
  {
    var s;
    actions, s := Extended(cfg, init, [], Client(EnableOutputDevices(d, true)));
    actions, s := Extended(cfg, init, actions, Client(SetOutputDevices(d)));
    actions, s := Extended(cfg, init, actions, Client(StreamStart));
    actions, s := Extended(cfg, init, actions, CloseExit);
    actions, s := Extended(cfg, init, actions, CloseUpdate);
    RunKeepsInv(cfg, init, actions);
    forall os: seq<Oracle> | forall i :: 0 <= i < |os| ==> os[i].onFails
      ensures !Run(cfg, s, Workers(os)).pc.Done?
    {
      FailingCloseNeverEnds(cfg, s, os);
    }
  }

  // The worker wakes up, takes every token and copies the state.
  lemma IntoSetting(cfg: Config, init: Sys, actions: seq<Action>, o: Oracle)
    returns (longer: seq<Action>, t: Sys)
    requires cfg.Valid() && InRange(cfg, Run(cfg, init, actions).copy)
    requires Run(cfg, init, actions).pc.Waiting? && Run(cfg, init, actions).updates > 0
    ensures t == Run(cfg, init, longer)
    ensures var s := Run(cfg, init, actions);
            t == s.(updates := 0, pc := Setting, copy := s.state, reinitialize := s.reinitialize ||
                      s.state.device != s.copy.device || s.state.reversed != s.copy.reversed)
  {
    longer, t := Extended(cfg, init, actions, Worker(o));
    longer, t := Extended(cfg, init, longer, Worker(o));
    longer, t := DrainAll(cfg, init, longer, o);
    longer, t := Extended(cfg, init, longer, Worker(o));
  }

  lemma {:induction false} DrainAll(cfg: Config, init: Sys, actions: seq<Action>, o: Oracle)
    returns (longer: seq<Action>, t: Sys)
    requires cfg.Valid() && InRange(cfg, Run(cfg, init, actions).copy)
    requires Run(cfg, init, actions).pc.Draining?
    ensures t == Run(cfg, init, longer) == Run(cfg, init, actions).(updates := 0, pc := Copying)
    decreases Run(cfg, init, actions).updates
  {
    longer, t := Extended(cfg, init, actions, Worker(o));
    if t.pc.Draining? {
      longer, t := DrainAll(cfg, init, longer, o);
    }
  }

  // ---------- A run that leaves a stale device ----------

  // A round of the bypass mode copies a new device without setting it, so that a later round in
  // normal mode sees no change to set: the amplifier keeps whatever device it had.
  lemma StaleDeviceAfterBypass(cfg: Config, init: Sys, d: nat, o: Oracle) returns (actions: seq<Action>)
    requires cfg.Valid() && IsInitial(cfg, init) && init.control.Bypass?
    requires d < cfg.last && d != cfg.none && cfg.ampDevice[d] != DEFAULT
    requires !o.onFails && o.control.Normal? && o.amp.device != cfg.ampDevice[d] - 1
    ensures var s := Run(cfg, init, actions);
            s.pc.Waiting? && s.updates == 0 && s.control.Normal? && s.rounds == 2 && s.copy == s.state &&
            s.lib.amp.device != s.state.device
  {
    actions := BypassRound(cfg, init, d, o);
    actions := NormalRound(cfg, init, actions, d, o);
  }

  // Nothing is pending, and the amplifier does not have the device that the worker has copied.
  ghost predicate Stale(s: Sys, rounds: nat) {
    s.pc.Waiting? && s.updates == 0 && s.exits == 0 && s.control.Normal? && s.rounds == rounds &&
    s.copy == s.state && !s.reinitialize && s.lib.amp.device != s.state.device
  }

  lemma BypassRound(cfg: Config, init: Sys, d: nat, o: Oracle) returns (actions: seq<Action>)
    requires cfg.Valid() && IsInitial(cfg, init) && init.control.Bypass?
    requires d < cfg.last && d != cfg.none && cfg.ampDevice[d] != DEFAULT
    requires o.control.Normal? && o.amp.device != cfg.ampDevice[d] - 1
    ensures var s := Run(cfg, init, actions); Stale(s, 1) && InRange(cfg, s.state)
  {
    var s;
    actions, s := Extended(cfg, init, [], Client(SetOutputDevices(d)));
    actions, s := IntoSetting(cfg, init, actions, o);
    actions, s := Extended(cfg, init, actions, Worker(o));
    actions, s := EndRound(cfg, init, actions, o);
  }

  lemma NormalRound(cfg: Config, init: Sys, actions: seq<Action>, d: nat, o: Oracle) returns (longer: seq<Action>)
    requires cfg.Valid() && d < cfg.last && cfg.ampDevice[d] != DEFAULT && !o.onFails && o.control.Normal?
    requires Stale(Run(cfg, init, actions), 1) && InRange(cfg, Run(cfg, init, actions).state)
    ensures Stale(Run(cfg, init, longer), 2)
  {
    var s;
    longer, s := Extended(cfg, init, actions, Client(EnableOutputDevices(d, true)));
    longer, s := IntoSetting(cfg, init, longer, o);
    longer, s := Extended(cfg, init, longer, Worker(o));
    if s.pc.Trying? {
      longer, s := Extended(cfg, init, longer, Worker(o));
    }
    longer, s := EndRound(cfg, init, longer, o);
  }

  lemma EndRound(cfg: Config, init: Sys, actions: seq<Action>, o: Oracle)
    returns (longer: seq<Action>, t: Sys)
    requires cfg.Valid() && InRange(cfg, Run(cfg, init, actions).copy)
    requires Run(cfg, init, actions).pc.Finishing? && Run(cfg, init, actions).exits == 0
    ensures t == Run(cfg, init, longer)
    ensures var s := Run(cfg, init, actions);
            t == s.(pc := Waiting, reinitialize := false, rounds := s.rounds + 1,
                    control := if s.copy.enableds[s.copy.inDevice] then s.control else o.control)
  {
    longer, t := Extended(cfg, init, actions, Worker(o));
    longer, t := Extended(cfg, init, longer, Worker(o));
  }

  lemma Extended(cfg: Config, init: Sys, actions: seq<Action>, a: Action) returns (longer: seq<Action>, s: Sys)
    requires cfg.Valid() && Enabled(cfg, Run(cfg, init, actions), a)
    ensures s == Run(cfg, init, longer) == Step(cfg, Run(cfg, init, actions), a)
  {
    longer := actions + [a];
    s := Run(cfg, init, longer);
    assert longer[..|actions|] == actions;
  }
}
