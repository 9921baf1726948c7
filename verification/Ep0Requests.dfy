/**
 What each request does and answers, byte by byte as USB 2.0 section 9.4 lays out SETUP packets: which requests are accepted,
 what an accepted one starts, changes and calls, what the host reads, and what a bus reset leaves.
 */
module Ep0Requests {
  import opened Bits
  import opened Wrappers
  import opened Ep0
  import opened Ep0Transfers

  // ---------- accepted and refused requests ----------

  /** The low-level status of the endpoint a request names. */
  function NamedStatus(packet: seq<byte>, env: Env): EpStatus
    requires |packet| == 8
  {
    if packet[4] >= 0x80 then env.statusIn(packet[4] % 0x10) else env.statusOut(packet[4] % 0x10)
  }

  /** The standard requests to the device, an interface and an endpoint that need no hook, in either direction. */
  predicate Supported(packet: seq<byte>, env: Env)
    requires |packet| == 8
  {
    var first, request, value := packet[0], packet[1], packet[2];
    if first == 0x00 || first == 0x80 then
      || request == 0 || request == 5 || request == 8 || request == 9
      || ((request == 1 || request == 3) && value == 1)
      || (request == 6 && env.descriptor(packet[3], value, Word16(packet[4], packet[5])).Some?)
    else if first == 0x01 || first == 0x81 then
      request == 0
    else if first == 0x02 || first == 0x82 then
      || request == 12
      || ((request == 1 || request == 3) && value == 0)
      || (request == 0 && NamedStatus(packet, env) != EpDisabled)
    else
      false
  }

  lemma HandledIff(cfg: Config, d: Driver, env: Env)
    requires |d.setup| == 8
    ensures HandleRequest(cfg, d, env).Some? <==> env.hook.Handled? || Supported(d.setup, env)
  {
    hide Word16, WithWakeup;
  }

  /**
   A request is refused if and only if the hook declines it and it is none of the supported ones; then endpoint zero is
   stalled, and nothing else happens.
   */
  lemma RefusedIff(cfg: Config, d: Driver, packet: seq<byte>, env: Env)
    requires |packet| == 8 && env.Valid()
    ensures var r := SetupStep(cfg, d, packet, env);
            && (r.ep0state == Failed <==> env.hook.Declined? && !Supported(packet, env))
            && (r.ep0state == Failed ==> r == d.(setup := packet, ep0state := Failed, log := d.log + [StallEp0]))
  {
    hide HandleRequest, Supported, Word16;
    HandledIff(cfg, d.(ep0state := WaitingSetup, setup := packet), env);
  }

  /**
   A completion stalls endpoint zero if and only if the machine does not wait for it: an IN outside the data and status
   stages, an OUT outside them, or a status packet that is not empty.
   */
  lemma CompletionsStallIff(cfg: Config, d: Driver, size: nat)
    requires |d.setup| == 8 && cfg.maxPacket > 0
    ensures InStep(cfg, d).ep0state == Failed <==> d.ep0state in {WaitingSetup, WaitingSts, Rx, Failed}
    ensures InStep(cfg, d).ep0state == Failed ==>
              InStep(cfg, d) == d.(transmitting := d.transmitting - {0}, ep0state := Failed, log := d.log + [StallEp0])
    ensures OutStep(d, size).ep0state == Failed <==>
            d.ep0state in {WaitingSetup, Tx, WaitingTx0, SendingSts, Failed} || (d.ep0state == WaitingSts && size != 0)
    ensures OutStep(d, size).ep0state == Failed ==>
              OutStep(d, size) == d.(receiving := d.receiving - {0}, ep0state := Failed, log := d.log + [StallEp0])
  {
    hide Word16;
  }

  // ---------- what a request changes ----------

  predicate ToDevice(packet: seq<byte>, env: Env, request: nat)
    requires |packet| == 8
  {
    env.hook.Declined? && (packet[0] == 0x00 || packet[0] == 0x80) && packet[1] == request
  }

  /** What the standard handler's requests to the device change. */
  lemma DeviceChanges(cfg: Config, d: Driver, env: Env, r: Driver)
    requires |d.setup| == 8 && DeviceRequest(cfg, d, env) == Some(r)
    ensures r.status != d.status ==> (d.setup[1] == 1 || d.setup[1] == 3) && d.setup[2] == 1
    ensures r.configuration != d.configuration ==> d.setup[1] == 9
    ensures r.address != d.address ==> d.setup[1] == 5 && !cfg.lateAddress && d.setup[0] == 0
    ensures r.state != d.state ==> d.setup[1] == 9 || (d.setup[1] == 5 && !cfg.lateAddress && d.setup[0] == 0)
  {
    hide Word16, WithWakeup;
  }

  lemma HandlerChanges(cfg: Config, d: Driver, env: Env, r: Driver)
    requires |d.setup| == 8 && HandleRequest(cfg, d, env) == Some(r)
    ensures var early := !cfg.lateAddress && d.setup[0] == 0;
            && (r.status != d.status ==> (ToDevice(d.setup, env, 1) || ToDevice(d.setup, env, 3)) && d.setup[2] == 1)
            && (r.configuration != d.configuration ==> ToDevice(d.setup, env, 9))
            && (r.address != d.address ==> ToDevice(d.setup, env, 5) && early)
            && (r.state != d.state ==> ToDevice(d.setup, env, 9) || (ToDevice(d.setup, env, 5) && early))
  {
    hide DeviceRequest;
    if env.hook.Declined? && IsStandard(d.setup) && Recipient(d.setup) == DEVICE {
      DeviceChanges(cfg, d, env, r);
    }
  }

  /** Status, configuration, address and device state change in no other request than the one for it. */
  lemma RequestsChange(cfg: Config, d: Driver, packet: seq<byte>, env: Env)
    requires |packet| == 8 && env.Valid()
    ensures var r, early := SetupStep(cfg, d, packet, env), !cfg.lateAddress && packet[0] == 0;
            && (r.status != d.status ==> (ToDevice(packet, env, 1) || ToDevice(packet, env, 3)) && packet[2] == 1)
            && (r.configuration != d.configuration ==> ToDevice(packet, env, 9))
            && (r.address != d.address ==> ToDevice(packet, env, 5) && early)
            && (r.state != d.state ==> ToDevice(packet, env, 9) || (ToDevice(packet, env, 5) && early))
  {
    hide HandleRequest, Word16;
    var d1 := d.(ep0state := WaitingSetup, setup := packet);
    if HandleRequest(cfg, d1, env).Some? {
      HandlerChanges(cfg, d1, env, HandleRequest(cfg, d1, env).value);
    }
  }

  /** Completions change neither status nor configuration, and address and state only where `set_address` is called. */
  lemma CompletionsChange(cfg: Config, d: Driver, size: nat, r: Driver)
    requires |d.setup| == 8 && cfg.maxPacket > 0 && (r == InStep(cfg, d) || r == OutStep(d, size))
    ensures r.status == d.status && r.configuration == d.configuration && r.setup == d.setup
    ensures d.ep0endcb != Some(SetAddress) ==> r.address == d.address && r.state == d.state
  {
    hide Word16;
  }

  // ---------- transfers from SETUP to the callback ----------

  /** What calling `ep0endcb` does. */
  function CallEffects(endcb: Option<Callback>, value: byte): seq<Effect> {
    match endcb
    case None => []
    case Some(SetAddress) => [Call(SetAddress), AddressTo(value)]
    case Some(App(id)) => [Call(App(id))]
  }

  lemma FinishedLog(d: Driver)
    requires |d.setup| == 8
    ensures Finished(d).log == d.log + CallEffects(d.ep0endcb, d.setup[2])
  {
    assert d.log + [Call(SetAddress)] + [AddressTo(d.setup[2])] == d.log + [Call(SetAddress), AddressTo(d.setup[2])];
    assert d.log + [] == d.log;
  }

  /** A request prepared by the handlers in a driver that waits for one. */
  ghost predicate Accepted(cfg: Config, d: Driver, packet: seq<byte>, env: Env, h: Driver) {
    && cfg.maxPacket > 0 && Consistent(d) && BitsAgree(d) && Enabled(d, Setup(packet, env))
    && HandleRequest(cfg, d.(ep0state := WaitingSetup, setup := packet), env) == Some(h)
  }

  lemma AcceptedIsPrepared(cfg: Config, d: Driver, packet: seq<byte>, env: Env, h: Driver)
    requires Accepted(cfg, d, packet, env, h)
    ensures |packet| == 8 && env.Valid() && cfg.maxPacket > 0 && Consistent(d)
    ensures h.Valid() && h.setup == packet && 0 !in h.transmitting && 0 !in h.receiving
    ensures SetupStep(cfg, d, packet, env) == StartTransfer(h)
  {
    hide HandleRequest, IsSetAddress, StartTransfer;
    HandlerPrepares(cfg, d.(ep0state := WaitingSetup, setup := packet), env);
  }

  /** The status stage that ends a transfer towards the device. */
  lemma StatusStage(cfg: Config, t: Driver, value: byte)
    requires cfg.maxPacket > 0 && |t.setup| == 8 && t.ep0state == SendingSts && value == t.setup[2]
    ensures InStep(cfg, t).ep0state == WaitingSetup && InStep(cfg, t).log == t.log + CallEffects(t.ep0endcb, value)
  {
    hide Finished, CallEffects;
    FinishedLog(t.(transmitting := t.transmitting - {0}));
  }

  /**
   The OUT data stage: a receive of exactly min(n, wLength) bytes is started, after it an empty status packet, and after that
   the callback is called. Without data the status packet comes at once.
   */
  lemma OutDataStage(cfg: Config, d: Driver, packet: seq<byte>, env: Env, h: Driver, size: nat)
    requires Accepted(cfg, d, packet, env, h) && packet[0] < 0x80
    ensures var m, s := Min(h.ep0n, Word16(packet[6], packet[7])), SetupStep(cfg, d, packet, env);
            var t := if m > 0 then OutStep(s, size) else s;
            && (m > 0 ==> s.ep0state == Rx && Enabled(s, OutDone(size)) && s.log == h.log + [StartOut(m)])
            && t.ep0state == SendingSts && Enabled(t, InDone)
            && t.log == h.log + (if m > 0 then [StartOut(m), StartIn([])] else [StartIn([])])
            && InStep(cfg, t).ep0state == WaitingSetup
            && InStep(cfg, t).log == t.log + CallEffects(h.ep0endcb, packet[2])
  {
    hide SetupStep, Accepted, HandleRequest, Consistent, InStep, CallEffects, Word16;
    AcceptedIsPrepared(cfg, d, packet, env, h);
    var m, s := Min(h.ep0n, Word16(packet[6], packet[7])), SetupStep(cfg, d, packet, env);
    assert h.log + [StartOut(m)] + [StartIn([])] == h.log + [StartOut(m), StartIn([])];
    StatusStage(cfg, if m > 0 then OutStep(s, size) else s, packet[2]);
  }

  /** After the IN data stage of `InDataStage` an empty OUT packet ends the transfer and the callback is called. */
  lemma InStatusStage(cfg: Config, d: Driver, packet: seq<byte>, env: Env, h: Driver)
    requires Accepted(cfg, d, packet, env, h) && packet[0] >= 0x80
    ensures var r := AfterDataStage(cfg, SetupStep(cfg, d, packet, env));
            && r.ep0state == WaitingSts && Enabled(r, OutDone(0)) && OutStep(r, 0).ep0state == WaitingSetup
            && OutStep(r, 0).log == r.log + CallEffects(h.ep0endcb, packet[2])
  {
    hide SetupStep, Accepted, HandleRequest, Consistent, CallEffects, Finished, Word16;
    AcceptedIsPrepared(cfg, d, packet, env, h);
    var r := AfterDataStage(cfg, SetupStep(cfg, d, packet, env));
    FinishedLog(r.(receiving := r.receiving - {0}));
  }

  // ---------- the application's hook ----------

  /** A request the hook handles: buffer, size and callback are the hook's, and the standard handler is not asked. */
  lemma HookPrepares(cfg: Config, d: Driver, env: Env)
    requires |d.setup| == 8 && env.hook.Handled?
    ensures HandleRequest(cfg, d, env).Some?
    ensures var h := HandleRequest(cfg, d, env).value;
            && h.ep0next == env.hook.buf && h.ep0n == env.hook.n && h.log == d.log
            && h.ep0endcb == (if env.hook.endcb.Some? then Some(App(env.hook.endcb.value)) else None)
  {
  }

  /** What the host reads of a request the hook handles, and what is called when it is done. */
  lemma HookReply(cfg: Config, d: Driver, packet: seq<byte>, env: Env)
    requires cfg.maxPacket > 0 && Consistent(d) && BitsAgree(d) && Enabled(d, Setup(packet, env))
    requires packet[0] >= 0x80 && env.hook.Handled? && env.hook.n > 0
    ensures Reply(cfg, d, packet, env) == Some((env.hook.buf[..Min(env.hook.n, Word16(packet[6], packet[7]))], []))
    ensures var r := AfterDataStage(cfg, SetupStep(cfg, d, packet, env));
            Enabled(r, OutDone(0)) && OutStep(r, 0).ep0state == WaitingSetup
            && OutStep(r, 0).log == r.log + (if env.hook.endcb.Some? then [Call(App(env.hook.endcb.value))] else [])
  {
    hide SetupStep, HandleRequest, Consistent, BitsAgree, Wire, HostReads, AfterDataStage, OutStep, Word16;
    var d1 := d.(ep0state := WaitingSetup, setup := packet);
    HookPrepares(cfg, d1, env);
    var h := HandleRequest(cfg, d1, env).value;
    InDataStage(cfg, d, packet, env, h);
    InStatusStage(cfg, d, packet, env, h);
  }

  /** Data for the hook, as in CDC's SET_LINE_CODING: received in full, acknowledged, and then the callback is called. */
  lemma HookReceives(cfg: Config, d: Driver, packet: seq<byte>, env: Env, size: nat)
    requires cfg.maxPacket > 0 && Consistent(d) && BitsAgree(d) && Enabled(d, Setup(packet, env))
    requires packet[0] < 0x80 && env.hook.Handled? && env.hook.n > 0 && Word16(packet[6], packet[7]) > 0
    ensures var m, s := Min(env.hook.n, Word16(packet[6], packet[7])), SetupStep(cfg, d, packet, env);
            && s.log == d.log + [StartOut(m)] && Enabled(s, OutDone(size))
            && OutStep(s, size).log == d.log + [StartOut(m), StartIn([])] && Enabled(OutStep(s, size), InDone)
            && InStep(cfg, OutStep(s, size)).log ==
               d.log + [StartOut(m), StartIn([])] + (if env.hook.endcb.Some? then [Call(App(env.hook.endcb.value))] else [])
  {
    hide SetupStep, HandleRequest, Consistent, BitsAgree, InStep, OutStep, Word16;
    var d1 := d.(ep0state := WaitingSetup, setup := packet);
    HookPrepares(cfg, d1, env);
    OutDataStage(cfg, d, packet, env, HandleRequest(cfg, d1, env).value, size);
  }

  /** The standard handler arms a callback for SET_ADDRESS in late mode and for nothing else. */
  lemma StandardCallback(cfg: Config, d: Driver, env: Env)
    requires |d.setup| == 8 && env.hook.Declined? && HandleRequest(cfg, d, env).Some?
    ensures HandleRequest(cfg, d, env).value.ep0endcb ==
            if cfg.lateAddress && ToDevice(d.setup, env, 5) then Some(SetAddress) else None
  {
    hide Word16, WithWakeup;
  }

  // ---------- endpoint and interface requests ----------

  /**
   SET_FEATURE and CLEAR_FEATURE of ENDPOINT_HALT stall and clear the endpoint and direction that wIndex names, and only
   those; endpoint zero is left alone. Then the status packet is sent, and nothing is called.
   */
  lemma EndpointHaltIsSet(cfg: Config, d: Driver, packet: seq<byte>, env: Env, on: bool)
    requires cfg.maxPacket > 0 && Consistent(d) && BitsAgree(d) && Enabled(d, Setup(packet, env)) && env.hook.Declined?
    requires IsRequest(packet, 0x02, if on then 3 else 1) && packet[2] == 0
    ensures var inward, ep, s := packet[4] >= 0x80, packet[4] % 16, SetupStep(cfg, d, packet, env);
            && s.ep0state == SendingSts && Enabled(s, InDone)
            && s.log == (if ep == 0 then d.log + [StartIn([])]
                         else if on then d.log + [StallEndpoint(inward, ep), StartIn([])]
                         else d.log + [ClearEndpoint(inward, ep), StartIn([])])
            && InStep(cfg, s).ep0state == WaitingSetup && InStep(cfg, s).log == s.log
  {
    hide Word16, IsSetAddress, DeviceRequest;
    var inward, ep := packet[4] >= 0x80, packet[4] % 16;
    assert d.log + [StallEndpoint(inward, ep)] + [StartIn([])] == d.log + [StallEndpoint(inward, ep), StartIn([])];
    assert d.log + [ClearEndpoint(inward, ep)] + [StartIn([])] == d.log + [ClearEndpoint(inward, ep), StartIn([])];
  }

  /** GET_STATUS of an endpoint: the host reads 1 exactly if it is stalled, and is refused if it is disabled. */
  lemma EndpointStatusIsRead(cfg: Config, d: Driver, get: seq<byte>, env: Env)
    requires cfg.maxPacket > 0 && Consistent(d) && BitsAgree(d) && Enabled(d, Setup(get, env)) && env.hook.Declined?
    requires IsRequest(get, 0x82, 0)
    ensures var status := if get[4] >= 0x80 then env.statusIn(get[4] % 16) else env.statusOut(get[4] % 16);
            var length := Word16(get[6], get[7]);
            && (status == EpStalled ==> Reply(cfg, d, get, env) == Some(([1, 0][..Min(2, length)], [])))
            && (status == EpActive ==> Reply(cfg, d, get, env) == Some(([0, 0][..Min(2, length)], [])))
            && (status == EpDisabled && length > 0 ==> Reply(cfg, d, get, env) == None)
            && (status == EpDisabled <==> SetupStep(cfg, d, get, env).ep0state == Failed)
  {
    hide Reply, BitsAgree, IsSetAddress, SetupStep, Word16;
    RefusedIff(cfg, d, get, env);
    match if get[4] >= 0x80 then env.statusIn(get[4] % 16) else env.statusOut(get[4] % 16) {
      case EpStalled => ReplyIsRead(cfg, d, get, env, [1, 0]);
      case EpActive => ReplyIsRead(cfg, d, get, env, [0, 0]);
      case EpDisabled =>
        if Word16(get[6], get[7]) > 0 {
          RefusedIsUnanswered(cfg, d, get, env);
        }
    }
  }

  /** A host that asks for data gets no packet of a refused request. */
  lemma RefusedIsUnanswered(cfg: Config, d: Driver, get: seq<byte>, env: Env)
    requires |d.setup| == 8 && cfg.maxPacket > 0 && Enabled(d, Setup(get, env)) && Word16(get[6], get[7]) > 0
    requires env.hook.Declined? && !Supported(get, env)
    ensures Reply(cfg, d, get, env) == None
  {
    hide SetupStep, Word16, Supported;
    RefusedIff(cfg, d, get, env);
    assert (d.log + [StallEp0])[|d.log|..] == [StallEp0];
    assert [StallEp0][1..] == [];
    assert Wire([], cfg.maxPacket) == [];
    assert Wire([StallEp0], cfg.maxPacket) == [];
  }

  /** GET_STATUS of an interface and SYNCH_FRAME of an endpoint read two zeros. */
  lemma ZerosAreRead(cfg: Config, d: Driver, get: seq<byte>, env: Env)
    requires cfg.maxPacket > 0 && Consistent(d) && BitsAgree(d) && Enabled(d, Setup(get, env)) && env.hook.Declined?
    requires IsRequest(get, 0x81, 0) || IsRequest(get, 0x82, 12)
    ensures Reply(cfg, d, get, env) == Some(([0, 0][..Min(2, Word16(get[6], get[7]))], []))
  {
    hide Reply, Consistent, BitsAgree, Word16;
    ReplyIsRead(cfg, d, get, env, [0, 0]);
  }

  // ---------- bus reset ----------

  /**
   A bus reset at any moment leaves a device that is ready, without address, configuration and status bits, waits for a
   request and has no endpoint busy; a host that asks reads configuration 0 and status 0.
   */
  lemma ResetIsComplete(cfg: Config, d: Driver, get: seq<byte>, env: Env)
    requires cfg.maxPacket > 0 && Consistent(d) && |get| == 8 && env.Valid() && env.hook.Declined?
    ensures var r := Step(cfg, d, BusReset);
            && r.state == Ready && r.address == 0 && r.configuration == 0 && r.status == 0
            && r.transmitting == {} && r.receiving == {} && r.ep0state == WaitingSetup && r.log == d.log
            && Enabled(r, Setup(get, env))
            && (IsRequest(get, 0x80, 8) ==> Reply(cfg, r, get, env) == Some(([0][..Min(1, Word16(get[6], get[7]))], [])))
            && (IsRequest(get, 0x80, 0) ==> Reply(cfg, r, get, env) == Some(([0, 0][..Min(2, Word16(get[6], get[7]))], [])))
  {
    hide Reply, Word16;
    var r := Step(cfg, d, BusReset);
    if IsRequest(get, 0x80, 8) {
      ReplyIsRead(cfg, r, get, env, [0]);
    } else if IsRequest(get, 0x80, 0) {
      ReplyIsRead(cfg, r, get, env, [0, 0]);
    }
  }
}
