/**
 The parts of audio_amplifier/audio_amplifier.c that run with the mutex held, as they are written:
 the client entry points, and the worker's draining and copying loops. Each is the one action of
 AmplifierSpec that it stands for there.
 */
module Amplifier {
  import opened AmplifierSpec

  class Tfa9890Device {
    const cfg: Config
    var streams: int
    var inCall: bool
    var device: int
    var inDevice: nat
    var voice: bool
    var reversed: bool
    var enabled: bool
    const enableds: array<bool>
    var triggerUpdate: nat

    ghost predicate Valid()
      reads this, enableds
    {
      cfg.Valid() && InRange(cfg, Value())
    }

    ghost function Value(): AmpState
      reads this, enableds
    {
      AmpState(streams, inCall, device, inDevice, voice, reversed, enabled, enableds[..])
    }

    constructor Open(cfg: Config)
      requires cfg.Valid()
      ensures Valid() && this.cfg == cfg && Value() == ZeroState(cfg) && triggerUpdate == 0
    {
      this.cfg := cfg;
      streams, inCall, device, inDevice, voice, reversed, enabled := 0, false, 0, 0, false, false, false;
      enableds := new bool[cfg.last](_ => false);
      triggerUpdate := 0;
    }

    // What a client call does to the state and to the semaphore.
    twostate predicate Does(op: ClientOp)
      requires old(Valid()) && Allowed(cfg, op)
      reads this, enableds
    {
      if Ignored(cfg, op) then Value() == old(Value()) && triggerUpdate == old(triggerUpdate)
      else Value() == Apply(cfg, old(Value()), op) && triggerUpdate == old(triggerUpdate) + 1
    }

    // LAST is stored like any other device, and leaves the state out of range.
    method SetOutputDevices(devices0: nat)
      requires Valid()
      modifies this
      ensures Valid() <==> devices0 != cfg.last
      ensures devices0 != cfg.last ==> Does(ClientOp.SetOutputDevices(devices0))
      ensures devices0 != cfg.none ==>
                inDevice == (if devices0 > cfg.last then cfg.speaker else devices0) &&
                device == (if cfg.ampDevice[inDevice] == DEFAULT then 0 else cfg.ampDevice[inDevice] - 1) &&
                reversed == (inDevice == cfg.speakerReverse)
      ensures devices0 == cfg.last ==>
                Value() == SetDevices(cfg, old(Value()), devices0) && triggerUpdate == old(triggerUpdate) + 1
    {
      var devices := devices0;
      if devices == cfg.none {
        return;
      }
      if devices > cfg.last {
        devices := cfg.speaker;
      }
      var outDevice := cfg.ampDevice[devices];
      if outDevice == DEFAULT {
        outDevice := STEREO_SPEAKER;
      }
      device := outDevice - 1;
      inDevice := devices;
      reversed := devices == cfg.speakerReverse;
      triggerUpdate := triggerUpdate + 1;
    }

    method EnableOutputDevices(devices: nat, enable: bool)
      requires Valid() && Allowed(cfg, ClientOp.EnableOutputDevices(devices, enable))
      modifies this, enableds
      ensures Valid() && Does(ClientOp.EnableOutputDevices(devices, enable))
      ensures devices < cfg.last && cfg.ampDevice[devices] != DEFAULT ==>
                enableds[..] == old(enableds[..])[devices := enable] && enabled == enable &&
                inCall == (cfg.isCall[devices] && enable)
    {
      var outDevice := cfg.ampDevice[devices];
      if outDevice == DEFAULT {
        return;
      }
      if cfg.isCall[devices] {
        inCall := enable;
      } else {
        inCall := false;
      }
      enableds[devices] := enable;
      enabled := enable;
      triggerUpdate := triggerUpdate + 1;
    }

    method SetMode(callMode: bool)
      requires Valid()
      modifies this
      ensures Valid() && Does(ClientOp.SetMode(callMode)) && voice == callMode
    {
      voice := callMode;
      triggerUpdate := triggerUpdate + 1;
    }

    method OutputStreamStart()
      requires Valid()
      modifies this
      ensures Valid() && Does(StreamStart) && streams == old(streams) + 1
    {
      streams := streams + 1;
      triggerUpdate := triggerUpdate + 1;
    }

    method OutputStreamStandby()
      requires Valid()
      modifies this
      ensures Valid() && Does(StreamStandby) && streams == old(streams) - 1
    {
      streams := streams - 1;
      triggerUpdate := triggerUpdate + 1;
    }

    // Takes every token that is there.
    method DrainUpdates()
      modifies this`triggerUpdate
      ensures triggerUpdate == 0
    {
      while triggerUpdate != 0
      {
        triggerUpdate := triggerUpdate - 1;
      }
    }

    // The worker's copy of the state, and whether the amplifier must be set up anew.
    method CopyState(copy: AmpState, reinitialize0: bool) returns (rstate: AmpState, reinitialize: bool)
      requires Valid()
      ensures rstate == Value()
      ensures reinitialize <==> reinitialize0 || Value().device != copy.device || Value().reversed != copy.reversed
    {
      reinitialize := reinitialize0;
      if device != copy.device {
        reinitialize := true;
      }
      var renableds: seq<bool> := [];
      for i := 0 to cfg.last
        invariant renableds == enableds[..i]
      {
        renableds := renableds + [enableds[i]];
      }
      if reversed != copy.reversed {
        reinitialize := true;
      }
      rstate := AmpState(streams, inCall, device, inDevice, voice, reversed, enabled, renableds);
    }
  }
}
