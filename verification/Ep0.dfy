/**
 The endpoint-zero control-transfer machine of usb.c as a step function: SETUP, IN complete, OUT complete, bus reset.
 The application's hooks and the low-level driver are the environment; what the driver asks of them is logged.
 */
module Ep0 {
  import opened Bits
  import opened Wrappers

  datatype Ep0State = WaitingSetup | Tx | WaitingTx0 | WaitingSts | Rx | SendingSts | Failed

  datatype DeviceState = Stop | Ready | Selected | Active

  /** `ep0endcb`: the driver's own `set_address`, or a callback of the application. */
  datatype Callback = SetAddress | App(id: nat)

  datatype EpStatus = EpDisabled | EpStalled | EpActive

  /** What the driver does to its surroundings. */
  datatype Effect =
    | StartIn(data: seq<byte>)
    | StartOut(size: nat)
    | StallEp0
    | AddressTo(address: byte)
    | Configured
    | Call(callback: Callback)
    | StallEndpoint(inward: bool, ep: nat)
    | ClearEndpoint(inward: bool, ep: nat)

  /** The application's request hook: it handles the request with `usbSetupTransfer`, or declines. */
  datatype Hook = Declined | Handled(buf: seq<byte>, n: nat, endcb: Option<nat>)

  /** The answers a SETUP handler can get from outside. */
  datatype Env = Env(hook: Hook, descriptor: (byte, byte, nat) -> Option<seq<byte>>,
                     statusIn: nat -> EpStatus, statusOut: nat -> EpStatus)
  {
    /** The hook's buffer holds what it announces. */
    predicate Valid() {
      hook.Handled? ==> hook.n <= |hook.buf|
    }
  }

  /** `USB_SET_ADDRESS_MODE` of the low-level driver and the packet size of endpoint zero. */
  datatype Config = Config(lateAddress: bool, maxPacket: nat)

  /** The fields of `USBDriver`; the bit masks `transmitting` and `receiving` are sets of endpoint numbers. */
  datatype Driver = Driver(
      state: DeviceState, status: nat, address: byte, configuration: byte,
      transmitting: set<nat>, receiving: set<nat>, setup: seq<byte>,
      ep0state: Ep0State, ep0next: seq<byte>, ep0n: nat, ep0endcb: Option<Callback>,
      log: seq<Effect>)
  {
    predicate Valid() {
      |setup| == 8 && ep0n <= |ep0next|
    }

    /** `usbFetchWord(&setup[6])`: wLength. */
    function Length(): nat
      requires |setup| == 8
    {
      Word16(setup[6], setup[7])
    }

    predicate ToHost()
      requires |setup| == 8
    {
      setup[0] >= 0x80
    }

    function Logged(e: Effect): Driver {
      this.(log := log + [e])
    }
  }

  function Word16(lo: byte, hi: byte): nat {
    lo as nat + 0x100 * (hi as nat)
  }

  // ---------- requests ----------

  // Recipients (with type 0, standard) and bRequest values.
  const DEVICE := 0
  const INTERFACE := 1
  const ENDPOINT := 2
  const GET_STATUS := 0
  const CLEAR_FEATURE := 1
  const SET_FEATURE := 3
  const SET_ADDRESS := 5
  const GET_DESCRIPTOR := 6
  const GET_CONFIGURATION := 8
  const SET_CONFIGURATION := 9
  const SYNCH_FRAME := 12

  const FEATURE_ENDPOINT_HALT := 0
  const FEATURE_REMOTE_WAKEUP := 1

  /** `setup[0] & (RECIPIENT_MASK | TYPE_MASK)`: the direction bit is not looked at. */
  function Recipient(setup: seq<byte>): nat
    requires |setup| == 8
  {
    setup[0] % 0x80
  }

  predicate IsStandard(setup: seq<byte>)
    requires |setup| == 8
  {
    setup[0] / 0x20 % 4 == 0
  }

  predicate IsSetAddress(setup: seq<byte>)
    requires |setup| == 8
  {
    Recipient(setup) == DEVICE && setup[1] == SET_ADDRESS
  }

  /** Bit 1 of the device status: remote wakeup. */
  function WithWakeup(status: nat, on: bool): nat {
    var cleared := status - 2 * (status / 2 % 2);
    if on then cleared + 2 else cleared
  }

  /** `usbSetupTransfer`. */
  function SetupTransfer(d: Driver, buf: seq<byte>, n: nat, endcb: Option<Callback>): Driver {
    d.(ep0next := buf, ep0n := n, ep0endcb := endcb)
  }

  function NoData(d: Driver): Driver {
    SetupTransfer(d, [], 0, None)
  }

  /** `set_address`. */
  function AddressSet(d: Driver): Driver
    requires |d.setup| == 8
  {
    d.(address := d.setup[2], state := Selected, log := d.log + [AddressTo(d.setup[2])])
  }

  function EndpointStatus(d: Driver, s: EpStatus): Option<Driver> {
    match s
    case EpDisabled => None
    case EpStalled => Some(SetupTransfer(d, [1, 0], 2, None))
    case EpActive => Some(SetupTransfer(d, [0, 0], 2, None))
  }

  /** CLEAR_FEATURE and SET_FEATURE of an endpoint: only the halt feature, and endpoint zero is left alone. */
  function EndpointHalt(d: Driver, on: bool): Option<Driver>
    requires |d.setup| == 8
  {
    var ep, inward := d.setup[4] % 0x10, d.setup[4] >= 0x80;
    if d.setup[2] != FEATURE_ENDPOINT_HALT then None
    else if ep == 0 then Some(NoData(d))
    else Some(NoData(d.Logged(if on then StallEndpoint(inward, ep) else ClearEndpoint(inward, ep))))
  }

  function RemoteWakeup(d: Driver, on: bool): Option<Driver>
    requires |d.setup| == 8
  {
    if d.setup[2] != FEATURE_REMOTE_WAKEUP then None
    else Some(NoData(d.(status := WithWakeup(d.status, on))))
  }

  function DeviceRequest(cfg: Config, d: Driver, env: Env): Option<Driver>
    requires |d.setup| == 8
  {
    var s, request := d.setup, d.setup[1];
    if request == GET_STATUS then
      Some(SetupTransfer(d, [d.status % 0x100, d.status / 0x100 % 0x100], 2, None))
    else if request == CLEAR_FEATURE then
      RemoteWakeup(d, false)
    else if request == SET_FEATURE then
      RemoteWakeup(d, true)
    else if request == SET_ADDRESS then
      if cfg.lateAddress then Some(SetupTransfer(d, [], 0, Some(SetAddress)))
      else if s[0] == 0 then Some(NoData(AddressSet(d)))
      else Some(NoData(d))
    else if request == GET_DESCRIPTOR then
      var dp :- env.descriptor(s[3], s[2], Word16(s[4], s[5]));
      Some(SetupTransfer(d, dp, |dp|, None))
    else if request == GET_CONFIGURATION then
      Some(SetupTransfer(d, [d.configuration], 1, None))
    else if request == SET_CONFIGURATION then
      Some(NoData(d.(configuration := s[2], state := if s[2] == 0 then Selected else Active, log := d.log + [Configured])))
    else
      None
  }

  function EndpointRequest(d: Driver, env: Env): Option<Driver>
    requires |d.setup| == 8
  {
    var s, request := d.setup, d.setup[1];
    if request == SYNCH_FRAME then
      Some(SetupTransfer(d, [0, 0], 2, None))
    else if request == GET_STATUS then
      EndpointStatus(d, if s[4] >= 0x80 then env.statusIn(s[4] % 0x10) else env.statusOut(s[4] % 0x10))
    else if request == CLEAR_FEATURE then
      EndpointHalt(d, false)
    else if request == SET_FEATURE then
      EndpointHalt(d, true)
    else
      None
  }

  /** `default_handler`, its cases grouped by recipient; None when it returns FALSE. */
  function DefaultHandler(cfg: Config, d: Driver, env: Env): Option<Driver>
    requires |d.setup| == 8
  {
    if Recipient(d.setup) == DEVICE then
      DeviceRequest(cfg, d, env)
    else if Recipient(d.setup) == INTERFACE then
      if d.setup[1] == GET_STATUS then Some(SetupTransfer(d, [0, 0], 2, None)) else None
    else if Recipient(d.setup) == ENDPOINT then
      EndpointRequest(d, env)
    else
      None
  }

  // ---------- the four steps ----------

  /** `usbStartTransmitI` on endpoint zero: refused, and the refusal ignored, while the bit is set. */
  function StartTransmit(d: Driver, data: seq<byte>): Driver {
    if 0 in d.transmitting then d else d.(transmitting := d.transmitting + {0}, log := d.log + [StartIn(data)])
  }

  function StartReceive(d: Driver, size: nat): Driver {
    if 0 in d.receiving then d else d.(receiving := d.receiving + {0}, log := d.log + [StartOut(size)])
  }

  function Stalled(d: Driver): Driver {
    d.(ep0state := Failed, log := d.log + [StallEp0])
  }

  /** The request handlers: the hook first, then, for standard requests, the default handler. */
  function HandleRequest(cfg: Config, d: Driver, env: Env): Option<Driver>
    requires |d.setup| == 8
  {
    if env.hook.Handled? then
      Some(SetupTransfer(d, env.hook.buf, env.hook.n, if env.hook.endcb.None? then None else Some(App(env.hook.endcb.value))))
    else if !IsStandard(d.setup) then None
    else DefaultHandler(cfg, d, env)
  }

  /** The end of `_usb_ep0setup`, after a handler has prepared the transfer. */
  function StartTransfer(d: Driver): Driver
    requires d.Valid()
  {
    var d := d.(ep0n := if d.ep0n > d.Length() then d.Length() else d.ep0n);
    if d.ToHost() then
      if d.ep0n > 0 then StartTransmit(d.(ep0state := Tx), d.ep0next[..d.ep0n])
      else StartReceive(d.(ep0state := WaitingSts), 0)
    else
      if d.ep0n > 0 then StartReceive(d.(ep0state := Rx), d.ep0n)
      else StartTransmit(d.(ep0state := SendingSts), [])
  }

  /** `_usb_ep0setup` for the SETUP packet `packet`. */
  function SetupStep(cfg: Config, d: Driver, packet: seq<byte>, env: Env): (r: Driver)
    requires |packet| == 8 && env.Valid()
    ensures |r.setup| == 8
  {
    var d := d.(ep0state := WaitingSetup, setup := packet);
    var handled := HandleRequest(cfg, d, env);
    if handled.None? then Stalled(d) else StartTransfer(handled.value)
  }

  /** Invoking `ep0endcb`, if there is one. */
  function Finished(d: Driver): Driver
    requires |d.setup| == 8
  {
    match d.ep0endcb
    case None => d
    case Some(SetAddress) => AddressSet(d.Logged(Call(SetAddress)))
    case Some(App(id)) => d.Logged(Call(App(id)))
  }

  /** A reply that ends in a full packet and is shorter than the host allows. */
  predicate NeedsZeroPacket(cfg: Config, d: Driver)
    requires |d.setup| == 8 && cfg.maxPacket > 0
  {
    d.ep0n < d.Length() && d.ep0n % cfg.maxPacket == 0
  }

  /** `_usb_isr_invoke_in_cb` and `_usb_ep0in`. */
  function InStep(cfg: Config, d: Driver): (r: Driver)
    requires |d.setup| == 8 && cfg.maxPacket > 0
    ensures |r.setup| == 8
  {
    var d := d.(transmitting := d.transmitting - {0});
    if d.ep0state == Tx && NeedsZeroPacket(cfg, d) then
      StartTransmit(d, []).(ep0state := WaitingTx0)
    else if d.ep0state == Tx || d.ep0state == WaitingTx0 then
      StartReceive(d.(ep0state := WaitingSts), 0)
    else if d.ep0state == SendingSts then
      Finished(d).(ep0state := WaitingSetup)
    else
      Stalled(d)
  }

  /** `_usb_isr_invoke_out_cb` and `_usb_ep0out`, when the transaction brought `size` bytes. */
  function OutStep(d: Driver, size: nat): (r: Driver)
    requires |d.setup| == 8
    ensures |r.setup| == 8
  {
    var d := d.(receiving := d.receiving - {0});
    if d.ep0state == Rx then
      StartTransmit(d.(ep0state := SendingSts), [])
    else if d.ep0state == WaitingSts && size == 0 then
      Finished(d).(ep0state := WaitingSetup)
    else
      Stalled(d)
  }

  /** `_usb_reset`. */
  function ResetStep(d: Driver): Driver {
    d.(state := Ready, status := 0, address := 0, configuration := 0, transmitting := {}, receiving := {},
       ep0state := WaitingSetup)
  }

  // ---------- runs ----------

  datatype Event = Setup(packet: seq<byte>, env: Env) | InDone | OutDone(size: nat) | BusReset

  predicate MidTransfer(d: Driver) {
    d.ep0state != WaitingSetup && d.ep0state != Failed
  }

  /** SETUP comes between transfers; only a transaction that has been started completes. */
  predicate Enabled(d: Driver, e: Event) {
    match e
    case Setup(packet, env) => !MidTransfer(d) && |packet| == 8 && env.Valid()
    case InDone => 0 in d.transmitting
    case OutDone(size) => 0 in d.receiving
    case BusReset => true
  }

  function Step(cfg: Config, d: Driver, e: Event): (r: Driver)
    requires |d.setup| == 8 && cfg.maxPacket > 0 && Enabled(d, e)
    ensures |r.setup| == 8
  {
    match e
    case Setup(packet, env) => SetupStep(cfg, d, packet, env)
    case InDone => InStep(cfg, d)
    case OutDone(size) => OutStep(d, size)
    case BusReset => ResetStep(d)
  }

  predicate Feasible(cfg: Config, d: Driver, events: seq<Event>)
    requires |d.setup| == 8 && cfg.maxPacket > 0
    decreases |events|
  {
    events == [] || (Enabled(d, events[0]) && Feasible(cfg, Step(cfg, d, events[0]), events[1..]))
  }

  function After(cfg: Config, d: Driver, events: seq<Event>): Driver
    requires |d.setup| == 8 && cfg.maxPacket > 0 && Feasible(cfg, d, events)
    decreases |events|
  {
    if events == [] then d else After(cfg, Step(cfg, d, events[0]), events[1..])
  }

  // ---------- the run invariant ----------

  predicate Transmits(s: Ep0State) {
    s == Tx || s == WaitingTx0 || s == SendingSts
  }

  predicate Receives(s: Ep0State) {
    s == Rx || s == WaitingSts
  }

  /** The machine's state and the busy bits of endpoint zero agree, so each start is accepted. */
  predicate BitsAgree(d: Driver) {
    (0 in d.transmitting <==> Transmits(d.ep0state)) && (0 in d.receiving <==> Receives(d.ep0state))
  }

  /** The device state matches the configuration, and only a transfer for SET_ADDRESS can end in `set_address`. */
  predicate Consistent(d: Driver) {
    && |d.setup| == 8
    && (d.state == Active ==> d.configuration != 0)
    && (d.configuration != 0 ==> d.state == Active || d.state == Selected)
    && (d.address != 0 ==> d.state == Active || d.state == Selected)
    && (MidTransfer(d) && d.ep0endcb == Some(SetAddress) ==> IsSetAddress(d.setup))
  }

  /** The driver's IN and OUT transactions in progress at endpoints other than zero. */
  function Others(d: Driver): (set<nat>, set<nat>) {
    (d.transmitting - {0}, d.receiving - {0})
  }

  /** `r` is `d` with a transfer prepared by a request handler. */
  predicate Prepared(d: Driver, r: Driver)
    requires |d.setup| == 8
  {
    && r.Valid() && r.setup == d.setup && r.ep0state == d.ep0state
    && r.transmitting == d.transmitting && r.receiving == d.receiving && Consistent(r)
    && (r.ep0endcb == Some(SetAddress) ==> IsSetAddress(d.setup))
  }

  lemma WakeupPrepares(d: Driver, on: bool)
    requires Consistent(d) && !MidTransfer(d) && RemoteWakeup(d, on).Some?
    ensures Prepared(d, RemoteWakeup(d, on).value)
  {
    hide IsSetAddress, WithWakeup;
  }

  lemma SetAddressPrepares(cfg: Config, d: Driver, env: Env)
    requires Consistent(d) && !MidTransfer(d) && Recipient(d.setup) == DEVICE && d.setup[1] == SET_ADDRESS
    ensures DeviceRequest(cfg, d, env).Some? && Prepared(d, DeviceRequest(cfg, d, env).value)
  {
    hide Recipient, RemoteWakeup;
  }

  lemma OthersPrepare(cfg: Config, d: Driver, env: Env)
    requires Consistent(d) && !MidTransfer(d) && d.setup[1] != SET_ADDRESS && DeviceRequest(cfg, d, env).Some?
    ensures Prepared(d, DeviceRequest(cfg, d, env).value)
  {
    hide Word16, IsSetAddress, RemoteWakeup;
    if d.setup[1] == CLEAR_FEATURE {
      WakeupPrepares(d, false);
    } else if d.setup[1] == SET_FEATURE {
      WakeupPrepares(d, true);
    }
  }

  lemma DevicePrepares(cfg: Config, d: Driver, env: Env)
    requires Consistent(d) && !MidTransfer(d) && Recipient(d.setup) == DEVICE && DeviceRequest(cfg, d, env).Some?
    ensures Prepared(d, DeviceRequest(cfg, d, env).value)
  {
    hide DeviceRequest, Prepared, Recipient;
    if d.setup[1] == SET_ADDRESS {
      SetAddressPrepares(cfg, d, env);
    } else {
      OthersPrepare(cfg, d, env);
    }
  }

  lemma EndpointPrepares(d: Driver, env: Env)
    requires Consistent(d) && !MidTransfer(d) && EndpointRequest(d, env).Some?
    ensures Prepared(d, EndpointRequest(d, env).value)
  {
    hide IsSetAddress;
  }

  lemma HandlerPrepares(cfg: Config, d: Driver, env: Env)
    requires |d.setup| == 8 && env.Valid() && Consistent(d) && !MidTransfer(d)
    requires HandleRequest(cfg, d, env).Some?
    ensures Prepared(d, HandleRequest(cfg, d, env).value)
  {
    hide DeviceRequest, EndpointRequest, IsSetAddress;
    if env.hook.Declined? && IsStandard(d.setup) {
      if Recipient(d.setup) == DEVICE {
        DevicePrepares(cfg, d, env);
      } else if Recipient(d.setup) == ENDPOINT {
        EndpointPrepares(d, env);
      }
    }
  }

  lemma OnlyBitZero(s: set<nat>)
    ensures (s + {0}) - {0} == s - {0} && (s - {0}) - {0} == s - {0} && ((s - {0}) + {0}) - {0} == s - {0}
  {
  }

  /**
   A SETUP packet at any moment, also in the middle of a transfer: if it is accepted the stage it asks for is started unless
   the endpoint was still busy in that direction; state and busy bits agree afterwards if and only if every bit that was
   still set belongs to the new stage.
   */
  lemma SetupAtAnyTime(cfg: Config, d: Driver, packet: seq<byte>, env: Env)
    requires Consistent(d) && |packet| == 8 && env.Valid()
    ensures var d1, r := d.(ep0state := WaitingSetup, setup := packet), SetupStep(cfg, d, packet, env);
            && Consistent(r) && Others(r) == Others(d)
            && (BitsAgree(r) <==> (0 in d.transmitting ==> Transmits(r.ep0state)) && (0 in d.receiving ==> Receives(r.ep0state)))
            && (HandleRequest(cfg, d1, env).Some? ==>
                  var h, busy := HandleRequest(cfg, d1, env).value,
                                 if Transmits(r.ep0state) then 0 in d.transmitting else 0 in d.receiving;
                  && (Transmits(r.ep0state) || Receives(r.ep0state))
                  && |r.log| == |h.log| + (if busy then 0 else 1))
  {
    hide HandleRequest, WithWakeup, IsSetAddress, AddressSet;
    var d1 := d.(ep0state := WaitingSetup, setup := packet);
    OnlyBitZero(d.transmitting);
    OnlyBitZero(d.receiving);
    if HandleRequest(cfg, d1, env).Some? {
      HandlerPrepares(cfg, d1, env);
    }
  }

  lemma ConfigurationReply(cfg: Config, d: Driver, packet: seq<byte>, env: Env)
    requires env.hook.Declined? && 0 !in d.transmitting && packet == [0x80, GET_CONFIGURATION, 0, 0, 0, 0, 1, 0]
    ensures SetupStep(cfg, d, packet, env) ==
            d.(setup := packet, ep0state := Tx, ep0next := [d.configuration], ep0n := 1, ep0endcb := None,
               transmitting := d.transmitting + {0}, log := d.log + [StartIn([d.configuration])])
  {
    assert [d.configuration][..1] == [d.configuration];
  }

  lemma ConfigurationRefused(cfg: Config, d: Driver, v: byte, packet: seq<byte>, env: Env)
    requires env.hook.Declined? && 0 in d.transmitting && packet == [0, SET_CONFIGURATION, v, 0, 0, 0, 0, 0]
    ensures var r := SetupStep(cfg, d, packet, env);
            && r.ep0state == SendingSts && r.log == d.log + [Configured] && r.configuration == v && r.ep0endcb == None
  {
  }

  /**
   A run in which it happens: SET_CONFIGURATION before the reply to GET_CONFIGURATION has gone out. The machine goes to
   SENDING_STS, no status packet is started, and the completion of the old data packet ends the transfer.
   */
  lemma StatusStageRefused(cfg: Config, d: Driver, v: byte, env: Env)
    requires cfg.maxPacket > 0 && Consistent(d) && BitsAgree(d) && !MidTransfer(d) && env.hook.Declined?
    ensures var replying := SetupStep(cfg, d, [0x80, GET_CONFIGURATION, 0, 0, 0, 0, 1, 0], env);
            var setting := SetupStep(cfg, replying, [0, SET_CONFIGURATION, v, 0, 0, 0, 0, 0], env);
            && replying.ep0state == Tx && replying.log == d.log + [StartIn([d.configuration])]
            && setting.ep0state == SendingSts && setting.log == replying.log + [Configured]
            && InStep(cfg, setting).ep0state == WaitingSetup && InStep(cfg, setting).log == setting.log
            && setting.configuration == v
  {
    hide SetupStep;
    var get, put := [0x80, GET_CONFIGURATION, 0, 0, 0, 0, 1, 0], [0, SET_CONFIGURATION, v, 0, 0, 0, 0, 0];
    ConfigurationReply(cfg, d, get, env);
    ConfigurationRefused(cfg, SetupStep(cfg, d, get, env), v, put, env);
  }

  lemma SetupKeeps(cfg: Config, d: Driver, packet: seq<byte>, env: Env)
    requires Consistent(d) && BitsAgree(d) && !MidTransfer(d) && |packet| == 8 && env.Valid()
    ensures var r := SetupStep(cfg, d, packet, env); Consistent(r) && BitsAgree(r) && Others(r) == Others(d)
  {
    hide SetupStep, IsSetAddress, HandleRequest;
    SetupAtAnyTime(cfg, d, packet, env);
  }

  /** Completions keep the device state consistent at any moment. */
  lemma CompletionsKeepConsistent(cfg: Config, d: Driver, size: nat)
    requires cfg.maxPacket > 0 && Consistent(d)
    ensures Consistent(InStep(cfg, d)) && Consistent(OutStep(d, size)) && Consistent(ResetStep(d))
  {
    hide IsSetAddress, Word16;
  }

  /** One step keeps the invariant, and the busy bits of the other endpoints unless it is a bus reset. */
  lemma StepKeeps(cfg: Config, d: Driver, e: Event)
    requires cfg.maxPacket > 0 && Consistent(d) && BitsAgree(d) && Enabled(d, e)
    ensures Consistent(Step(cfg, d, e)) && BitsAgree(Step(cfg, d, e))
    ensures !e.BusReset? ==> Others(Step(cfg, d, e)) == Others(d)
  {
    hide SetupStep, IsSetAddress;
    OnlyBitZero(d.transmitting);
    OnlyBitZero(d.receiving);
    match e
    case Setup(packet, env) => SetupKeeps(cfg, d, packet, env);
    case InDone =>
    case OutDone(size) =>
    case BusReset =>
  }

  /** The EP0 invariant holds at the end of every run that starts in it; other endpoints are never touched. */
  lemma {:induction false} EveryRunKeeps(cfg: Config, d: Driver, events: seq<Event>)
    requires cfg.maxPacket > 0 && Consistent(d) && BitsAgree(d) && Feasible(cfg, d, events)
    ensures Consistent(After(cfg, d, events)) && BitsAgree(After(cfg, d, events))
    ensures (forall i :: 0 <= i < |events| ==> !events[i].BusReset?) ==> Others(After(cfg, d, events)) == Others(d)
    decreases |events|
  {
    if events != [] {
      StepKeeps(cfg, d, events[0]);
      EveryRunKeeps(cfg, Step(cfg, d, events[0]), events[1..]);
    }
  }
}
