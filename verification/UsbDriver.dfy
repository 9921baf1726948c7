/**
 The functions of usb.c as they run, on the fields of `USBDriver`, proved to take exactly the steps of `Ep0`.
 */
module UsbDriver {
  import opened Bits
  import opened Wrappers
  import opened Ep0

  class USBDriver {
    const cfg: Config
    var state: DeviceState
    var status: nat
    var address: byte
    var configuration: byte
    // Bit masks of busy endpoints, as sets of endpoint numbers.
    var transmitting: set<nat>
    var receiving: set<nat>
    var setup: seq<byte>
    var ep0state: Ep0State
    var ep0next: seq<byte>
    var ep0n: nat
    var ep0endcb: Option<Callback>
    // What has been asked of the low-level driver, as far as it concerns endpoint zero, and of the application.
    ghost var log: seq<Effect>

    ghost function State(): Driver
      reads this
    {
      Driver(state, status, address, configuration, transmitting, receiving, setup,
             ep0state, ep0next, ep0n, ep0endcb, log)
    }

    ghost predicate Valid()
      reads this
    {
      cfg.maxPacket > 0 && |setup| == 8
    }

    /** `usbObjectInit`, then a bus reset. */
    constructor (cfg: Config)
      requires cfg.maxPacket > 0
      ensures Valid() && this.cfg == cfg && Consistent(State()) && BitsAgree(State()) && log == []
      ensures state == Ready && status == 0 && address == 0 && configuration == 0 && ep0state == WaitingSetup
      ensures transmitting == {} && receiving == {}
    {
      this.cfg := cfg;
      state, status, address, configuration := Ready, 0, 0, 0;
      transmitting, receiving, setup := {}, {}, [0, 0, 0, 0, 0, 0, 0, 0];
      ep0state, ep0next, ep0n, ep0endcb := WaitingSetup, [], 0, None;
      log := [];
    }

    /** `usbSetupTransfer`. */
    method SetupTransfer(buf: seq<byte>, n: nat, endcb: Option<Callback>)
      modifies this
      ensures State() == Ep0.SetupTransfer(old(State()), buf, n, endcb)
    {
      ep0next := buf;
      ep0n := n;
      ep0endcb := endcb;
    }

    /** `set_address`. */
    method AssignAddress()
      requires Valid()
      modifies this
      ensures State() == AddressSet(old(State())) && Valid()
    {
      address := setup[2];
      log := log + [AddressTo(address)];
      state := Selected;
    }

    /** `usbStartTransmitI` for endpoint `ep`. */
    method StartTransmitI(ep: nat, data: seq<byte>) returns (busy: bool)
      modifies this
      ensures ep == 0 ==> State() == StartTransmit(old(State()), data)
      ensures busy <==> ep in old(transmitting)
      ensures ep != 0 ==> State() == old(State()).(transmitting := old(transmitting) + {ep})
    {
      if ep in transmitting {
        assert transmitting + {ep} == transmitting;
        return true;
      }
      transmitting := transmitting + {ep};
      if ep == 0 {
        log := log + [StartIn(data)];
      }
      busy := false;
    }

    /** `usbStartReceiveI` for endpoint `ep`. */
    method StartReceiveI(ep: nat, size: nat) returns (busy: bool)
      modifies this
      ensures ep == 0 ==> State() == StartReceive(old(State()), size)
      ensures busy <==> ep in old(receiving)
      ensures ep != 0 ==> State() == old(State()).(receiving := old(receiving) + {ep})
    {
      if ep in receiving {
        assert receiving + {ep} == receiving;
        return true;
      }
      receiving := receiving + {ep};
      if ep == 0 {
        log := log + [StartOut(size)];
      }
      busy := false;
    }

    method StallBoth()
      modifies this
      ensures State() == Stalled(old(State()))
    {
      log := log + [StallEp0];
      ep0state := Failed;
    }

    /** The GET_STATUS, CLEAR_FEATURE, SET_FEATURE and SYNCH_FRAME cases of `default_handler` for an endpoint. */
    method HandleEndpoint(env: Env) returns (handled: bool)
      requires Valid()
      modifies this
      ensures var r := EndpointRequest(old(State()), env);
              handled == r.Some? && State() == (if r.Some? then r.value else old(State()))
    {
      var request, ep := setup[1], setup[4] % 0x10;
      if request == SYNCH_FRAME {
        SetupTransfer([0, 0], 2, None);
        return true;
      }
      if request == GET_STATUS {
        var s := if setup[4] >= 0x80 then env.statusIn(ep) else env.statusOut(ep);
        match s {
          case EpDisabled => return false;
          case EpStalled => SetupTransfer([1, 0], 2, None);
          case EpActive => SetupTransfer([0, 0], 2, None);
        }
        return true;
      }
      if request != CLEAR_FEATURE && request != SET_FEATURE {
        return false;
      }
      if setup[2] != FEATURE_ENDPOINT_HALT {
        return false;
      }
      if ep > 0 {
        ghost var inward := setup[4] >= 0x80;
        log := log + [if request == SET_FEATURE then StallEndpoint(inward, ep) else ClearEndpoint(inward, ep)];
      }
      SetupTransfer([], 0, None);
      handled := true;
    }

    /** The cases of `default_handler` for the device. */
    method HandleDevice(env: Env) returns (handled: bool)
      requires Valid()
      modifies this
      ensures var r := DeviceRequest(cfg, old(State()), env);
              handled == r.Some? && State() == (if r.Some? then r.value else old(State()))
    {
      hide Word16, WithWakeup;
      var request := setup[1];
      if request == GET_STATUS {
        SetupTransfer([status % 0x100, status / 0x100 % 0x100], 2, None);
      } else if request == CLEAR_FEATURE || request == SET_FEATURE {
        if setup[2] != FEATURE_REMOTE_WAKEUP {
          return false;
        }
        status := WithWakeup(status, request == SET_FEATURE);
        SetupTransfer([], 0, None);
      } else if request == SET_ADDRESS {
        if cfg.lateAddress {
          SetupTransfer([], 0, Some(SetAddress));
        } else {
          if setup[0] == 0 {
            AssignAddress();
          }
          SetupTransfer([], 0, None);
        }
      } else if request == GET_DESCRIPTOR {
        var dp := env.descriptor(setup[3], setup[2], Word16(setup[4], setup[5]));
        if dp.None? {
          return false;
        }
        SetupTransfer(dp.value, |dp.value|, None);
      } else if request == GET_CONFIGURATION {
        SetupTransfer([configuration], 1, None);
      } else if request == SET_CONFIGURATION {
        configuration := setup[2];
        state := if configuration == 0 then Selected else Active;
        log := log + [Configured];
        SetupTransfer([], 0, None);
      } else {
        return false;
      }
      handled := true;
    }

    /** The request handlers of `_usb_ep0setup`. */
    method Handle(env: Env) returns (handled: bool)
      requires Valid()
      modifies this
      ensures var r := HandleRequest(cfg, old(State()), env);
              handled == r.Some? && State() == (if r.Some? then r.value else old(State()))
    {
      hide DeviceRequest, EndpointRequest;
      match env.hook {
        case Handled(buf, n, endcb) =>
          SetupTransfer(buf, n, if endcb.None? then None else Some(App(endcb.value)));
          return true;
        case Declined =>
      }
      if !IsStandard(setup) {
        return false;
      }
      if Recipient(setup) == DEVICE {
        handled := HandleDevice(env);
      } else if Recipient(setup) == INTERFACE && setup[1] == GET_STATUS {
        SetupTransfer([0, 0], 2, None);
        handled := true;
      } else if Recipient(setup) == ENDPOINT {
        handled := HandleEndpoint(env);
      } else {
        handled := false;
      }
    }

    /** The end of `_usb_ep0setup`: cuts the reply to wLength and starts the first stage. */
    method BeginTransfer()
      requires Valid() && State().Valid()
      modifies this
      ensures State() == StartTransfer(old(State()))
    {
      hide Word16;
      var max := Word16(setup[6], setup[7]);
      if ep0n > max {
        ep0n := max;
      }
      if setup[0] >= 0x80 {
        if ep0n > 0 {
          ep0state := Tx;
          var _ := StartTransmitI(0, ep0next[..ep0n]);
        } else {
          ep0state := WaitingSts;
          var _ := StartReceiveI(0, 0);
        }
      } else {
        if ep0n > 0 {
          ep0state := Rx;
          var _ := StartReceiveI(0, ep0n);
        } else {
          ep0state := SendingSts;
          var _ := StartTransmitI(0, []);
        }
      }
    }

    /** `_usb_ep0setup`. */
    method Ep0Setup(packet: seq<byte>, env: Env)
      requires Valid() && Consistent(State()) && |packet| == 8 && env.Valid()
      modifies this
      ensures Valid() && State() == SetupStep(cfg, old(State()), packet, env) && Consistent(State())
      ensures old(BitsAgree(State()) && !MidTransfer(State())) ==> BitsAgree(State())
    {
      hide HandleRequest, IsSetAddress, StartTransfer, Word16;
      SetupAtAnyTime(cfg, State(), packet, env);
      ep0state := WaitingSetup;
      setup := packet;
      ghost var d := State();
      var handled := Handle(env);
      if handled {
        HandlerPrepares(cfg, d, env);
        BeginTransfer();
      } else {
        StallBoth();
      }
    }

    /** `if (usbp->ep0endcb != NULL) usbp->ep0endcb(usbp);` */
    method InvokeEndCallback()
      requires Valid()
      modifies this
      ensures Valid() && State() == Finished(old(State()))
    {
      match ep0endcb {
        case None =>
        case Some(App(id)) => log := log + [Call(App(id))];
        case Some(SetAddress) =>
          log := log + [Call(SetAddress)];
          AssignAddress();
      }
    }

    /** The IN interrupt: clears the busy bit and runs `_usb_ep0in`. */
    method Ep0In()
      requires Valid() && Consistent(State())
      modifies this
      ensures Valid() && State() == InStep(cfg, old(State())) && Consistent(State())
      ensures old(BitsAgree(State()) && Enabled(State(), InDone)) ==> BitsAgree(State())
    {
      hide Word16, Consistent, BitsAgree;
      CompletionsKeepConsistent(cfg, State(), 0);
      if BitsAgree(State()) && Enabled(State(), InDone) {
        StepKeeps(cfg, State(), InDone);
      }
      transmitting := transmitting - {0};
      if ep0state == Tx {
        var max := Word16(setup[6], setup[7]);
        if ep0n < max && ep0n % cfg.maxPacket == 0 {
          var _ := StartTransmitI(0, []);
          ep0state := WaitingTx0;
          return;
        }
      }
      if ep0state == Tx || ep0state == WaitingTx0 {
        ep0state := WaitingSts;
        var _ := StartReceiveI(0, 0);
      } else if ep0state == SendingSts {
        InvokeEndCallback();
        ep0state := WaitingSetup;
      } else {
        StallBoth();
      }
    }

    /** The OUT interrupt: clears the busy bit and runs `_usb_ep0out`; the transaction brought `size` bytes. */
    method Ep0Out(size: nat)
      requires Valid() && Consistent(State())
      modifies this
      ensures Valid() && State() == OutStep(old(State()), size) && Consistent(State())
      ensures old(BitsAgree(State()) && Enabled(State(), OutDone(size))) ==> BitsAgree(State())
    {
      hide Consistent, BitsAgree;
      CompletionsKeepConsistent(cfg, State(), size);
      if BitsAgree(State()) && Enabled(State(), OutDone(size)) {
        StepKeeps(cfg, State(), OutDone(size));
      }
      receiving := receiving - {0};
      if ep0state == Rx {
        ep0state := SendingSts;
        var _ := StartTransmitI(0, []);
      } else if ep0state == WaitingSts && size == 0 {
        InvokeEndCallback();
        ep0state := WaitingSetup;
      } else {
        StallBoth();
      }
    }

    /** `_usb_reset`. */
    method Reset()
      requires Valid() && Consistent(State())
      modifies this
      ensures state == Ready && status == 0 && address == 0 && configuration == 0 && transmitting == {} && receiving == {}
      ensures Valid() && State() == ResetStep(old(State())) && Consistent(State()) && BitsAgree(State())
    {
      hide Consistent, BitsAgree, SetupStep, HandleRequest, StartTransfer, InStep, OutStep, Word16, WithWakeup;
      CompletionsKeepConsistent(cfg, State(), 0);
      ResetAgrees(State());
      state, status, address, configuration := Ready, 0, 0, 0;
      transmitting, receiving := {}, {};
      ep0state := WaitingSetup;
    }
  }

  lemma ResetAgrees(d: Driver)
    ensures BitsAgree(ResetStep(d))
  {
  }
}
