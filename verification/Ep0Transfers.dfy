/**
 What runs of the EP0 machine mean for the host: control transfers as USB 2.0 section 8.5.3 counts their transactions, the
 completion callbacks, the device address, and the data a host reads in an IN data stage.
 */
module Ep0Transfers {
  import opened Bits
  import opened Wrappers
  import opened Ep0

  // ---------- transfers as the host counts them ----------

  /** An accepted request: what is to be called when it completes, the transactions left, and byte 2 of its SETUP packet. */
  datatype Transfer = Transfer(callback: Option<Callback>, left: nat, toHost: bool, value: byte)

  /** The transfer in progress, the callbacks due so far, and the address the device must have. */
  datatype Ledger = Ledger(open: Option<Transfer>, due: seq<Callback>, address: byte)

  /** A status transaction, a data stage if there is data, and a zero-length packet if the data needs one. */
  function Transactions(toHost: bool, n: nat, length: nat, maxPacket: nat): nat
    requires maxPacket > 0
  {
    1 + (if n > 0 then 1 else 0) + (if toHost && n > 0 && n < length && n % maxPacket == 0 then 1 else 0)
  }

  function Min(a: nat, b: nat): nat {
    if a < b then a else b
  }

  /** A transfer whose last transaction is done. */
  function Closed(l: Ledger): Ledger
    requires l.open.Some?
  {
    match l.open.value.callback
    case None => l.(open := None)
    case Some(SetAddress) => Ledger(None, l.due + [SetAddress], l.open.value.value)
    case Some(App(id)) => l.(open := None, due := l.due + [App(id)])
  }

  function CountedDown(l: Ledger): Ledger
    requires l.open.Some? && l.open.value.left > 0
  {
    if l.open.value.left == 1 then Closed(l) else l.(open := Some(l.open.value.(left := l.open.value.left - 1)))
  }

  /** The ledger only looks at what the request handlers prepared and at the transactions. */
  function LedgerStep(cfg: Config, l: Ledger, d: Driver, e: Event): Ledger
    requires |d.setup| == 8 && cfg.maxPacket > 0 && Enabled(d, e)
  {
    match e
    case Setup(packet, env) =>
      var handled := HandleRequest(cfg, d.(ep0state := WaitingSetup, setup := packet), env);
      if handled.None? then l.(open := None)
      else
        var h, length := handled.value, Word16(packet[6], packet[7]);
        var toHost := packet[0] >= 0x80;
        l.(open := Some(Transfer(h.ep0endcb, Transactions(toHost, Min(h.ep0n, length), length, cfg.maxPacket), toHost, packet[2])))
    case InDone =>
      if l.open.None? || l.open.value.left == 0 then l else CountedDown(l)
    case OutDone(size) =>
      if l.open.None? || l.open.value.left == 0 then l
      else if l.open.value.toHost && size != 0 then l.(open := None)
      else CountedDown(l)
    case BusReset => l.(open := None, address := 0)
  }

  function LedgerAfter(cfg: Config, l: Ledger, d: Driver, events: seq<Event>): Ledger
    requires |d.setup| == 8 && cfg.maxPacket > 0 && Feasible(cfg, d, events)
    decreases |events|
  {
    if events == [] then l
    else LedgerAfter(cfg, LedgerStep(cfg, l, d, events[0]), Step(cfg, d, events[0]), events[1..])
  }

  /** The callbacks the driver has invoked. */
  function Calls(log: seq<Effect>): seq<Callback> {
    if log == [] then []
    else Calls(log[..|log| - 1]) + (if log[|log| - 1].Call? then [log[|log| - 1].callback] else [])
  }

  lemma CallsAppend(log: seq<Effect>, e: Effect)
    ensures Calls(log + [e]) == Calls(log) + if e.Call? then [e.callback] else []
  {
    assert (log + [e])[..|log|] == log;
  }

  /** How many transactions the transfer still needs in each state. */
  function Remaining(cfg: Config, d: Driver): nat
    requires |d.setup| == 8 && cfg.maxPacket > 0
  {
    match d.ep0state
    case Tx => if NeedsZeroPacket(cfg, d) then 3 else 2
    case WaitingTx0 => 2
    case WaitingSts => 1
    case Rx => 2
    case SendingSts => 1
    case _ => 0
  }

  predicate TowardsHost(s: Ep0State) {
    s == Tx || s == WaitingTx0 || s == WaitingSts
  }

  /** The driver and the ledger tell the same story; the address is compared only in late mode. */
  predicate Agrees(cfg: Config, d: Driver, l: Ledger)
    requires |d.setup| == 8 && cfg.maxPacket > 0
  {
    && Calls(d.log) == l.due
    && (cfg.lateAddress ==> d.address == l.address)
    && l.open == (if MidTransfer(d) then Some(Transfer(d.ep0endcb, Remaining(cfg, d), TowardsHost(d.ep0state), d.setup[2])) else None)
  }

  /** The log of a handler holds no call, and in late mode it leaves the address alone. */
  predicate Silent(cfg: Config, d: Driver, r: Driver) {
    Calls(r.log) == Calls(d.log) && (cfg.lateAddress ==> r.address == d.address)
  }

  lemma EndpointIsSilent(cfg: Config, d: Driver, env: Env)
    requires |d.setup| == 8 && EndpointRequest(d, env).Some?
    ensures Silent(cfg, d, EndpointRequest(d, env).value)
  {
    var ep, inward := d.setup[4] % 0x10, d.setup[4] >= 0x80;
    CallsAppend(d.log, StallEndpoint(inward, ep));
    CallsAppend(d.log, ClearEndpoint(inward, ep));
  }

  lemma DeviceIsSilent(cfg: Config, d: Driver, env: Env)
    requires |d.setup| == 8 && DeviceRequest(cfg, d, env).Some?
    ensures Silent(cfg, d, DeviceRequest(cfg, d, env).value)
  {
    hide WithWakeup, Word16;
    CallsAppend(d.log, AddressTo(d.setup[2]));
    CallsAppend(d.log, Configured);
  }

  lemma HandlerIsSilent(cfg: Config, d: Driver, env: Env)
    requires |d.setup| == 8 && HandleRequest(cfg, d, env).Some?
    ensures Silent(cfg, d, HandleRequest(cfg, d, env).value)
  {
    hide DeviceRequest, EndpointRequest;
    if env.hook.Declined? && IsStandard(d.setup) {
      if Recipient(d.setup) == DEVICE {
        DeviceIsSilent(cfg, d, env);
      } else if Recipient(d.setup) == ENDPOINT {
        EndpointIsSilent(cfg, d, env);
      }
    }
  }

  lemma StartsAreSilent(cfg: Config, d: Driver, data: seq<byte>, size: nat)
    ensures Silent(cfg, d, StartTransmit(d, data)) && Silent(cfg, d, StartReceive(d, size)) && Silent(cfg, d, Stalled(d))
  {
    CallsAppend(d.log, StartIn(data));
    CallsAppend(d.log, StartOut(size));
    CallsAppend(d.log, StallEp0);
  }

  lemma SetupAgrees(cfg: Config, d: Driver, l: Ledger, packet: seq<byte>, env: Env)
    requires cfg.maxPacket > 0 && Consistent(d) && BitsAgree(d) && Agrees(cfg, d, l) && Enabled(d, Setup(packet, env))
    ensures Agrees(cfg, SetupStep(cfg, d, packet, env), LedgerStep(cfg, l, d, Setup(packet, env)))
  {
    hide HandleRequest, Calls, IsSetAddress;
    var d1 := d.(ep0state := WaitingSetup, setup := packet);
    var handled := HandleRequest(cfg, d1, env);
    if handled.None? {
      StartsAreSilent(cfg, d1, [], 0);
    } else {
      HandlerPrepares(cfg, d1, env);
      HandlerIsSilent(cfg, d1, env);
      StartAgrees(cfg, handled.value, l, LedgerStep(cfg, l, d, Setup(packet, env)));
    }
  }

  lemma StartAgrees(cfg: Config, h: Driver, l: Ledger, r: Ledger)
    requires cfg.maxPacket > 0 && h.Valid() && 0 !in h.transmitting && 0 !in h.receiving
    requires Calls(h.log) == l.due && (cfg.lateAddress ==> h.address == l.address)
    requires r == l.(open := Some(Transfer(h.ep0endcb,
               Transactions(h.ToHost(), Min(h.ep0n, h.Length()), h.Length(), cfg.maxPacket), h.ToHost(), h.setup[2])))
    ensures Agrees(cfg, StartTransfer(h), r)
  {
    hide Calls, Word16;
    var n := Min(h.ep0n, h.Length());
    StartsAreSilent(cfg, h.(ep0n := n, ep0state := Tx), h.ep0next[..n], n);
    StartsAreSilent(cfg, h.(ep0n := n, ep0state := Rx), h.ep0next[..n], n);
    StartsAreSilent(cfg, h.(ep0n := n, ep0state := WaitingSts), [], 0);
    StartsAreSilent(cfg, h.(ep0n := n, ep0state := SendingSts), [], 0);
  }

  lemma FinishAgrees(cfg: Config, d: Driver, l: Ledger)
    requires cfg.maxPacket > 0 && |d.setup| == 8 && Calls(d.log) == l.due && (cfg.lateAddress ==> d.address == l.address)
    requires l.open.Some? && l.open.value.callback == d.ep0endcb && l.open.value.value == d.setup[2]
    ensures Agrees(cfg, Finished(d).(ep0state := WaitingSetup), Closed(l))
  {
    match d.ep0endcb
    case None =>
    case Some(SetAddress) =>
      CallsAppend(d.log, Call(SetAddress));
      CallsAppend(d.log + [Call(SetAddress)], AddressTo(d.setup[2]));
    case Some(App(id)) => CallsAppend(d.log, Call(App(id)));
  }

  lemma InAgrees(cfg: Config, d: Driver, l: Ledger)
    requires cfg.maxPacket > 0 && Consistent(d) && BitsAgree(d) && Agrees(cfg, d, l) && 0 in d.transmitting
    ensures Agrees(cfg, InStep(cfg, d), LedgerStep(cfg, l, d, InDone))
  {
    hide Calls, IsSetAddress, Finished, Closed;
    var d1 := d.(transmitting := d.transmitting - {0});
    StartsAreSilent(cfg, d1, [], 0);
    StartsAreSilent(cfg, d1.(ep0state := WaitingSts), [], 0);
    if d.ep0state == SendingSts {
      FinishAgrees(cfg, d1, l);
    }
  }

  lemma OutAgrees(cfg: Config, d: Driver, l: Ledger, size: nat)
    requires cfg.maxPacket > 0 && Consistent(d) && BitsAgree(d) && Agrees(cfg, d, l) && 0 in d.receiving
    ensures Agrees(cfg, OutStep(d, size), LedgerStep(cfg, l, d, OutDone(size)))
  {
    hide Calls, IsSetAddress, Finished, Closed;
    var d1 := d.(receiving := d.receiving - {0});
    StartsAreSilent(cfg, d1, [], 0);
    StartsAreSilent(cfg, d1.(ep0state := SendingSts), [], 0);
    if d.ep0state == WaitingSts && size == 0 {
      FinishAgrees(cfg, d1, l);
    }
  }

  lemma StepAgrees(cfg: Config, d: Driver, l: Ledger, e: Event)
    requires cfg.maxPacket > 0 && Consistent(d) && BitsAgree(d) && Agrees(cfg, d, l) && Enabled(d, e)
    ensures Agrees(cfg, Step(cfg, d, e), LedgerStep(cfg, l, d, e))
  {
    hide SetupStep, InStep, OutStep, Calls, Consistent;
    match e
    case Setup(packet, env) => SetupAgrees(cfg, d, l, packet, env);
    case InDone => InAgrees(cfg, d, l);
    case OutDone(size) => OutAgrees(cfg, d, l, size);
    case BusReset =>
  }

  /**
   Over every run the driver has called exactly the callbacks of the transfers whose last transaction, the status stage,
   is done, in their order and once each; and in late-address mode its address is always that of the last SET_ADDRESS whose
   status stage is done since the last bus reset.
   */
  lemma {:induction false} CallbacksMatchTransfers(cfg: Config, d: Driver, l: Ledger, events: seq<Event>)
    requires cfg.maxPacket > 0 && Consistent(d) && BitsAgree(d) && Agrees(cfg, d, l) && Feasible(cfg, d, events)
    ensures var r, t := After(cfg, d, events), LedgerAfter(cfg, l, d, events);
            && Calls(r.log) == t.due && (cfg.lateAddress ==> r.address == t.address)
            && (t.open.Some? <==> MidTransfer(r)) && |r.setup| == 8 && Agrees(cfg, r, t)
    decreases |events|
  {
    hide Step, LedgerStep, Agrees, BitsAgree, Enabled, Calls;
    if events == [] {
      AgreesMeans(cfg, d, l);
    } else {
      StepKeeps(cfg, d, events[0]);
      StepAgrees(cfg, d, l, events[0]);
      CallbacksMatchTransfers(cfg, Step(cfg, d, events[0]), LedgerStep(cfg, l, d, events[0]), events[1..]);
    }
  }

  lemma AgreesMeans(cfg: Config, d: Driver, l: Ledger)
    requires cfg.maxPacket > 0 && Consistent(d) && Agrees(cfg, d, l)
    ensures |d.setup| == 8 && Calls(d.log) == l.due && (cfg.lateAddress ==> d.address == l.address)
    ensures l.open.Some? <==> MidTransfer(d)
  {
  }

  // ---------- the address ----------

  /** The event ends the status stage, and with it the transfer. */
  predicate StatusDone(cfg: Config, d: Driver, e: Event)
    requires |d.setup| == 8 && cfg.maxPacket > 0
  {
    MidTransfer(d) && Remaining(cfg, d) == 1 && !e.Setup? && !e.BusReset? && (e.OutDone? ==> e.size == 0)
  }

  /**
   In late-address mode the address after any step is 0 if the step is a bus reset, the one requested if the step completes
   the status stage of a SET_ADDRESS request, and the old one otherwise.
   */
  lemma AddressAfterStatus(cfg: Config, d: Driver, e: Event)
    requires cfg.maxPacket > 0 && cfg.lateAddress && Consistent(d) && BitsAgree(d) && Enabled(d, e)
    ensures Step(cfg, d, e).address ==
            if e.BusReset? then 0
            else if StatusDone(cfg, d, e) && d.ep0endcb == Some(SetAddress) then d.setup[2]
            else d.address
    ensures StatusDone(cfg, d, e) && d.ep0endcb == Some(SetAddress) ==> IsSetAddress(d.setup)
  {
    hide IsSetAddress, Calls;
    match e
    case Setup(packet, env) =>
      var d1 := d.(ep0state := WaitingSetup, setup := packet);
      if HandleRequest(cfg, d1, env).Some? {
        HandlerPrepares(cfg, d1, env);
        HandlerIsSilent(cfg, d1, env);
      }
    case InDone =>
    case OutDone(size) =>
    case BusReset =>
  }

  /** No transfer in progress ends in `set_address`. */
  predicate NoneArmed(d: Driver) {
    MidTransfer(d) ==> d.ep0endcb != Some(SetAddress)
  }

  predicate IsEarlySetAddress(packet: seq<byte>, env: Env) {
    |packet| == 8 && env.hook.Declined? && packet[0] == 0 && packet[1] == SET_ADDRESS
  }

  lemma EarlyDevice(cfg: Config, d: Driver, env: Env)
    requires !cfg.lateAddress && |d.setup| == 8 && env.hook.Declined? && Recipient(d.setup) == DEVICE
    requires DeviceRequest(cfg, d, env).Some?
    ensures var r := DeviceRequest(cfg, d, env).value;
            r.address == (if IsEarlySetAddress(d.setup, env) then d.setup[2] else d.address) && r.ep0endcb == None
  {
    hide WithWakeup, Word16;
  }

  lemma EarlyRequest(cfg: Config, d: Driver, env: Env)
    requires !cfg.lateAddress && |d.setup| == 8
    ensures IsEarlySetAddress(d.setup, env) ==> HandleRequest(cfg, d, env).Some?
    ensures HandleRequest(cfg, d, env).Some? ==>
              var r := HandleRequest(cfg, d, env).value;
              && r.address == (if IsEarlySetAddress(d.setup, env) then d.setup[2] else d.address)
              && r.ep0endcb != Some(SetAddress)
  {
    if env.hook.Declined? && IsStandard(d.setup) && Recipient(d.setup) == DEVICE && DeviceRequest(cfg, d, env).Some? {
      EarlyDevice(cfg, d, env);
    }
    hide DeviceRequest, IsSetAddress;
  }

  /**
   In early mode the address after any step is 0 if the step is a bus reset, the one requested if the step is the SETUP of a
   SET_ADDRESS request, before its status stage is started, and the old one otherwise.
   */
  lemma AddressInSetup(cfg: Config, d: Driver, e: Event)
    requires cfg.maxPacket > 0 && !cfg.lateAddress && Consistent(d) && BitsAgree(d) && NoneArmed(d) && Enabled(d, e)
    ensures Step(cfg, d, e).address ==
            if e.BusReset? then 0
            else if e.Setup? && IsEarlySetAddress(e.packet, e.env) then e.packet[2]
            else d.address
    ensures NoneArmed(Step(cfg, d, e))
  {
    hide IsSetAddress, HandleRequest;
    match e
    case Setup(packet, env) => EarlyRequest(cfg, d.(ep0state := WaitingSetup, setup := packet), env);
    case InDone =>
    case OutDone(size) =>
    case BusReset =>
  }

  /** So in early mode the address is assigned before the status stage of SET_ADDRESS is even started. */
  lemma EarlyAddressBeforeStatus(cfg: Config, d: Driver, packet: seq<byte>, env: Env)
    requires cfg.maxPacket > 0 && !cfg.lateAddress && Consistent(d) && BitsAgree(d) && NoneArmed(d)
    requires Enabled(d, Setup(packet, env)) && IsEarlySetAddress(packet, env)
    ensures SetupStep(cfg, d, packet, env).address == packet[2] && SetupStep(cfg, d, packet, env).ep0state == SendingSts
    ensures SetupStep(cfg, d, packet, env).state == Selected
    ensures SetupStep(cfg, d, packet, env).log == d.log + [AddressTo(packet[2]), StartIn([])]
  {
    AddressInSetup(cfg, d, Setup(packet, env));
    assert d.log + [AddressTo(packet[2])] + [StartIn([])] == d.log + [AddressTo(packet[2]), StartIn([])];
  }

  // ---------- the IN data stage ----------

  /** The packets of one IN transaction: full ones and a last one that may be short, or empty if there is no data. */
  function Packets(data: seq<byte>, maxPacket: nat): seq<seq<byte>>
    requires maxPacket > 0
    decreases |data|
  {
    if |data| <= maxPacket then [data] else [data[..maxPacket]] + Packets(data[maxPacket..], maxPacket)
  }

  /** All packets of a list of effects. */
  function Wire(log: seq<Effect>, maxPacket: nat): seq<seq<byte>>
    requires maxPacket > 0
  {
    if log == [] then []
    else (if log[0].StartIn? then Packets(log[0].data, maxPacket) else []) + Wire(log[1..], maxPacket)
  }

  /**
   A host that asked for `left` more bytes reads until it has them or gets a short packet (USB 2.0 section 5.5.3): what it
   has read and the packets it left, or None if it is still waiting for one.
   */
  function HostReads(packets: seq<seq<byte>>, maxPacket: nat, left: int): Option<(seq<byte>, seq<seq<byte>>)>
    decreases |packets|
  {
    if left <= 0 then Some(([], packets))
    else if packets == [] then None
    else if |packets[0]| < maxPacket then Some((packets[0], packets[1..]))
    else
      var (data, rest) :- HostReads(packets[1..], maxPacket, left - |packets[0]|);
      Some((packets[0] + data, rest))
  }

  /** Reading one transaction's packets and whatever follows: the host stops, or goes on exactly at the end of the data. */
  lemma {:induction false} ReadsTransaction(data: seq<byte>, maxPacket: nat, length: nat, more: seq<seq<byte>>)
    requires maxPacket > 0 && 0 < |data| <= length
    ensures HostReads(Packets(data, maxPacket) + more, maxPacket, length) ==
            if |data| == length || |data| % maxPacket != 0 then Some((data, more))
            else
              var after := HostReads(more, maxPacket, length - |data|);
              if after.None? then None else Some((data + after.value.0, after.value.1))
    decreases |data|
  {
    var packets := Packets(data, maxPacket) + more;
    if |data| <= maxPacket {
      assert packets[1..] == more;
      if |data| < maxPacket {
        DivModUnique(|data|, maxPacket, 0, |data|);
      } else {
        DivModUnique(|data|, maxPacket, 1, 0);
        assert data + [] == data;
      }
    } else {
      var rest := data[maxPacket..];
      assert packets[0] == data[..maxPacket] && packets[1..] == Packets(rest, maxPacket) + more;
      assert data[..maxPacket] + rest == data;
      ReadsTransaction(rest, maxPacket, length - maxPacket, more);
      DivAddMultiple(|rest|, maxPacket, 1);
      assert |rest| + maxPacket * 1 == |data|;
      if |data| != length && |data| % maxPacket == 0 {
        var after := HostReads(more, maxPacket, length - |data|);
        if after.Some? {
          assert data[..maxPacket] + (rest + after.value.0) == data + after.value.0;
        }
      }
    }
  }

  /** Without a zero-length packet the host would wait for more exactly when the machine sends one. */
  lemma ZeroPacketIffNeeded(data: seq<byte>, maxPacket: nat, length: nat)
    requires maxPacket > 0 && 0 < |data| <= length
    ensures HostReads(Packets(data, maxPacket), maxPacket, length).None? <==> |data| < length && |data| % maxPacket == 0
  {
    ReadsTransaction(data, maxPacket, length, []);
    assert Packets(data, maxPacket) + [] == Packets(data, maxPacket);
  }

  /** The driver after the IN transactions of a data stage, if the SETUP step started one. */
  function AfterDataStage(cfg: Config, d: Driver): Driver
    requires |d.setup| == 8 && cfg.maxPacket > 0
  {
    if d.ep0state != Tx then d
    else
      var d1 := InStep(cfg, d);
      if d1.ep0state == WaitingTx0 then InStep(cfg, d1) else d1
  }

  /** The effects of a data stage with reply `data`. */
  function StageEffects(data: seq<byte>, length: nat, maxPacket: nat): seq<Effect>
    requires maxPacket > 0
  {
    if data == [] then [StartOut(0)]
    else if |data| < length && |data| % maxPacket == 0 then [StartIn(data), StartIn([]), StartOut(0)]
    else [StartIn(data), StartOut(0)]
  }

  /** From an accepted IN request to its status stage. */
  lemma DataStageRuns(cfg: Config, h: Driver, data: seq<byte>)
    requires cfg.maxPacket > 0 && h.Valid() && h.ToHost() && 0 !in h.transmitting && 0 !in h.receiving
    requires data == h.ep0next[..Min(h.ep0n, h.Length())]
    ensures var r := AfterDataStage(cfg, StartTransfer(h));
            && r.ep0state == WaitingSts && 0 !in r.transmitting && 0 in r.receiving
            && r.log == h.log + StageEffects(data, h.Length(), cfg.maxPacket)
  {
    hide Word16;
    var l := h.log;
    assert l + [StartIn(data)] + [StartOut(0)] == l + [StartIn(data), StartOut(0)];
    assert l + [StartIn(data)] + [StartIn([])] + [StartOut(0)] == l + [StartIn(data), StartIn([]), StartOut(0)];
  }

  lemma StageWire(data: seq<byte>, length: nat, maxPacket: nat)
    requires maxPacket > 0 && data != []
    ensures Wire(StageEffects(data, length, maxPacket), maxPacket) ==
            Packets(data, maxPacket) + (if |data| < length && |data| % maxPacket == 0 then [[]] else [])
  {
    var out := [StartOut(0)];
    assert out[1..] == [];
    assert Wire(out, maxPacket) == [];
    var zero := [StartIn([]), StartOut(0)];
    assert zero[1..] == out;
    assert Wire(zero, maxPacket) == [[]];
    if |data| < length && |data| % maxPacket == 0 {
      assert [StartIn(data), StartIn([]), StartOut(0)][1..] == zero;
    } else {
      assert [StartIn(data), StartOut(0)][1..] == out;
    }
  }

  /**
   The IN data stage, for every reply, wLength and packet size: the host reads exactly the first min(n, wLength) bytes and
   no packet is left over; the only exception is an empty reply to a host that asked for data, which gets no packet at all.
   */
  lemma HostReadsReply(data: seq<byte>, length: nat, maxPacket: nat)
    requires maxPacket > 0 && |data| <= length
    ensures HostReads(Wire(StageEffects(data, length, maxPacket), maxPacket), maxPacket, length) ==
            if data == [] && length > 0 then None else Some((data, []))
  {
    if data == [] {
      assert [StartOut(0)][1..] == [];
      assert Wire([StartOut(0)], maxPacket) == [];
    } else {
      StageWire(data, length, maxPacket);
      if |data| < length && |data| % maxPacket == 0 {
        var empty: seq<seq<byte>> := [[]];
        ReadsTransaction(data, maxPacket, length, empty);
        assert empty[1..] == [];
        assert data + [] == data;
      } else {
        ReadsTransaction(data, maxPacket, length, []);
      }
    }
  }

  /** The same for a SETUP step of the machine: what the host reads of the reply the handlers prepared. */
  lemma InDataStage(cfg: Config, d: Driver, packet: seq<byte>, env: Env, h: Driver)
    requires cfg.maxPacket > 0 && Consistent(d) && BitsAgree(d) && Enabled(d, Setup(packet, env)) && packet[0] >= 0x80
    requires HandleRequest(cfg, d.(ep0state := WaitingSetup, setup := packet), env) == Some(h)
    ensures var r, length := AfterDataStage(cfg, SetupStep(cfg, d, packet, env)), Word16(packet[6], packet[7]);
            && h.Valid() && r.ep0state == WaitingSts && |h.log| <= |r.log| && r.log[..|h.log|] == h.log
            && HostReads(Wire(r.log[|h.log|..], cfg.maxPacket), cfg.maxPacket, length) ==
               if h.ep0n == 0 && length > 0 then None else Some((h.ep0next[..Min(h.ep0n, length)], []))
  {
    hide HandleRequest, Wire, HostReads, IsSetAddress, StageEffects, AfterDataStage, Word16;
    var length := Word16(packet[6], packet[7]);
    HandlerPrepares(cfg, d.(ep0state := WaitingSetup, setup := packet), env);
    var data := h.ep0next[..Min(h.ep0n, length)];
    DataStageRuns(cfg, h, data);
    HostReadsReply(data, length, cfg.maxPacket);
  }

  // ---------- requests that read back what others set ----------

  /** The host's reading of the reply to an IN request that the default handler answers with `data`. */
  lemma ReplyIsRead(cfg: Config, d: Driver, packet: seq<byte>, env: Env, data: seq<byte>)
    requires cfg.maxPacket > 0 && Consistent(d) && BitsAgree(d) && Enabled(d, Setup(packet, env)) && packet[0] >= 0x80
    requires var d1 := d.(ep0state := WaitingSetup, setup := packet);
             data != [] && HandleRequest(cfg, d1, env) == Some(SetupTransfer(d1, data, |data|, None))
    ensures Reply(cfg, d, packet, env) == Some((data[..Min(|data|, Word16(packet[6], packet[7]))], []))
  {
    hide HandleRequest, Wire, HostReads, AfterDataStage, SetupStep;
    var d1 := d.(ep0state := WaitingSetup, setup := packet);
    InDataStage(cfg, d, packet, env, SetupTransfer(d1, data, |data|, None));
  }

  /** What the host reads in the data stage of an IN request. */
  function Reply(cfg: Config, d: Driver, packet: seq<byte>, env: Env): Option<(seq<byte>, seq<seq<byte>>)>
    requires |d.setup| == 8 && cfg.maxPacket > 0 && Enabled(d, Setup(packet, env))
  {
    var r := AfterDataStage(cfg, SetupStep(cfg, d, packet, env));
    if |r.log| < |d.log| then None
    else HostReads(Wire(r.log[|d.log|..], cfg.maxPacket), cfg.maxPacket, Word16(packet[6], packet[7]))
  }

  predicate IsRequest(packet: seq<byte>, first: byte, request: byte) {
    |packet| == 8 && packet[0] == first && packet[1] == request
  }

  /**
   A configuration set by the host is announced to the application, is the one the host reads back, and the device is active
   if it is not 0 and selected if it is.
   */
  lemma ConfigurationReadsBack(cfg: Config, d: Driver, put: seq<byte>, get: seq<byte>, env: Env, r: Driver)
    requires cfg.maxPacket > 0 && Consistent(d) && BitsAgree(d) && !MidTransfer(d) && env.hook.Declined?
    requires IsRequest(put, 0x00, SET_CONFIGURATION) && IsRequest(get, 0x80, GET_CONFIGURATION)
    requires r == InStep(cfg, SetupStep(cfg, d, put, env))
    ensures r.configuration == put[2] && r.state == (if put[2] == 0 then Selected else Active)
    ensures r.log == d.log + [Configured, StartIn([])]
    ensures Enabled(r, Setup(get, env)) && Reply(cfg, r, get, env) == Some(([put[2]][..Min(1, Word16(get[6], get[7]))], []))
  {
    hide Reply, Wire, HostReads, AfterDataStage, Word16;
    var s := SetupStep(cfg, d, put, env);
    StepKeeps(cfg, d, Setup(put, env));
    assert s.configuration == put[2] && s.ep0state == SendingSts && s.ep0endcb == None;
    assert d.log + [Configured] + [StartIn([])] == d.log + [Configured, StartIn([])];
    StepKeeps(cfg, s, InDone);
    ReplyIsRead(cfg, r, get, env, [put[2]]);
  }

  /** Remote wakeup, set or cleared, is bit 1 of the status the host reads; the other bits are as before. */
  lemma WakeupReadsBack(cfg: Config, d: Driver, put: seq<byte>, get: seq<byte>, env: Env, r: Driver, on: bool)
    requires cfg.maxPacket > 0 && Consistent(d) && BitsAgree(d) && !MidTransfer(d) && env.hook.Declined?
    requires IsRequest(put, 0x00, if on then SET_FEATURE else CLEAR_FEATURE) && put[2] == FEATURE_REMOTE_WAKEUP
    requires IsRequest(get, 0x80, GET_STATUS) && Word16(get[6], get[7]) >= 2 && d.status < 0x1_0000
    requires r == InStep(cfg, SetupStep(cfg, d, put, env))
    ensures Enabled(r, Setup(get, env))
    ensures exists lo: byte, hi: byte ::
              && Reply(cfg, r, get, env) == Some(([lo, hi], []))
              && (lo / 2 % 2 == 1 <==> on) && lo % 2 == d.status % 2 && Word16(lo, hi) / 4 == d.status / 4
  {
    hide Reply, Wire, HostReads, AfterDataStage, WithWakeup;
    var s := SetupStep(cfg, d, put, env);
    StepKeeps(cfg, d, Setup(put, env));
    assert s.status == WithWakeup(d.status, on) && s.ep0state == SendingSts && s.ep0endcb == None;
    StepKeeps(cfg, s, InDone);
    var lo: byte, hi: byte := r.status % 0x100, r.status / 0x100 % 0x100;
    ReplyIsRead(cfg, r, get, env, [lo, hi]);
    assert [lo, hi][..2] == [lo, hi];
    WakeupBit(d.status, on, r.status, lo, hi);
  }

  lemma WakeupBit(before: nat, on: bool, after: nat, lo: byte, hi: byte)
    requires before < 0x1_0000 && after == WithWakeup(before, on) && lo == after % 0x100 && hi == after / 0x100 % 0x100
    ensures (lo / 2 % 2 == 1 <==> on) && lo % 2 == before % 2 && Word16(lo, hi) / 4 == before / 4
  {
    WakeupParts(before, on);
    hide WithWakeup;
    LowByteParts(after, before / 4, if on then 1 else 0, before % 2, lo, hi);
  }

  lemma WakeupParts(before: nat, on: bool)
    requires before < 0x1_0000
    ensures WithWakeup(before, on) == 4 * (before / 4) + 2 * (if on then 1 else 0) + before % 2 < 0x1_0000
  {
  }

  lemma LowByteParts(v: nat, q: nat, b: nat, c: nat, lo: byte, hi: byte)
    requires v == 4 * q + 2 * b + c < 0x1_0000 && b < 2 && c < 2 && lo == v % 0x100 && hi == v / 0x100 % 0x100
    ensures lo / 2 % 2 == b && lo % 2 == c && Word16(lo, hi) / 4 == q
  {
    assert Word16(lo, hi) == v;
    assert lo == 4 * (q - 64 * hi) + 2 * b + c;
  }

  lemma SetAddressIsArmed(cfg: Config, d: Driver, put: seq<byte>, env: Env)
    requires cfg.maxPacket > 0 && cfg.lateAddress && Consistent(d) && BitsAgree(d) && !MidTransfer(d) && env.hook.Declined?
    requires IsRequest(put, 0x00, SET_ADDRESS)
    ensures var s := SetupStep(cfg, d, put, env);
            && s.ep0state == SendingSts && s.ep0endcb == Some(SetAddress) && s.setup == put && Enabled(s, InDone)
    ensures InStep(cfg, SetupStep(cfg, d, put, env)).state == Selected
  {
    StepKeeps(cfg, d, Setup(put, env));
  }

  /** SET_ADDRESS in late mode: the old address answers the status stage, the new one is in force after it. */
  lemma SetAddressTakesEffect(cfg: Config, d: Driver, put: seq<byte>, env: Env)
    requires cfg.maxPacket > 0 && cfg.lateAddress && Consistent(d) && BitsAgree(d) && !MidTransfer(d) && env.hook.Declined?
    requires IsRequest(put, 0x00, SET_ADDRESS)
    ensures var s := SetupStep(cfg, d, put, env);
            && s.address == d.address && s.ep0state == SendingSts && Enabled(s, InDone)
            && InStep(cfg, s).address == put[2] && InStep(cfg, s).state == Selected
  {
    hide SetupStep, InStep;
    StepKeeps(cfg, d, Setup(put, env));
    SetAddressIsArmed(cfg, d, put, env);
    AddressAfterStatus(cfg, d, Setup(put, env));
    AddressAfterStatus(cfg, SetupStep(cfg, d, put, env), InDone);
  }

  /** GET_DESCRIPTOR: the host reads the descriptor's first wLength bytes, or all of it. */
  lemma DescriptorIsRead(cfg: Config, d: Driver, get: seq<byte>, env: Env, descriptor: seq<byte>)
    requires cfg.maxPacket > 0 && Consistent(d) && BitsAgree(d) && !MidTransfer(d) && env.hook.Declined?
    requires IsRequest(get, 0x80, GET_DESCRIPTOR) && descriptor != []
    requires env.descriptor(get[3], get[2], Word16(get[4], get[5])) == Some(descriptor)
    ensures Reply(cfg, d, get, env) == Some((descriptor[..Min(|descriptor|, Word16(get[6], get[7]))], []))
  {
    hide Reply, Wire, HostReads, AfterDataStage, Word16;
    ReplyIsRead(cfg, d, get, env, descriptor);
  }
}
