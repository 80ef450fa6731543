/** Endpoint 0 on a busy bus: the poll of the firmware, one memory access at a time, with
    tokens between any two accesses (src/xusb/xmega/usb_xmega.c, src/xusb/usb_requests.c).

    A bus reset is noticed at the start of a poll; until then the host sends nothing, as the
    reset recovery time of USB 2.0 (section 7.1.7.5) prescribes. A SETUP packet cannot be
    refused and may arrive at any time, also while the firmware acts on an older request.
    What then still holds, and exactly when, is the subject of ControlOrder.dfy,
    ControlAddress.dfy, ControlTaken.dfy, ControlBuffers.dfy and ControlFair.dfy; here is what
    holds in every run. */
module ControlRuns {
  import opened Bits
  import opened Protocol
  import opened Control

  /** The firmware's next access. `first` tells whether a chunk is handed over for the SETUP
      packet or for the completion of an earlier chunk. */
  datatype Pc =
    | PollStart                   // the bus reset flag, in busevent_vect
    | TestEvent                   // read the interrupt flags
    | ClearEvent                  // clear them
    | ReadStatus                  // read the OUT status, once
    | ClearSetup                  // clear SETUP and TRNCOMPL0 of the OUT endpoint
    | CopySetup                   // copy the OUT buffer to usb_setup
    | Dispatch                    // the switch of usb_handle_setup
    | Fill(packet: seq<byte>)     // write the IN buffer and CNT
    | ArmPacket                   // clear BUSNACK0 and TRNCOMPL0 of the IN endpoint
    | Configure                   // store usb_configuration
    | OpenStatus                  // usb_ep0_out
    | FillChunk(first: bool)      // usb_ep0_in_multi: write the IN buffer and CNT
    | ArmChunk(first: bool)       // clear BUSNACK0 and TRNCOMPL0 of the IN endpoint
    | OpenChunk(first: bool)      // usb_ep0_out after the last chunk
    | Advance(first: bool)        // step usb_ep0_in_size and usb_ep0_in_ptr
    | TestIn                      // read TRNCOMPL0 of the IN endpoint
    | Complete                    // usb_handle_control_in_complete

  datatype Machine = Machine(bus: Bus, resetting: bool, pc: Pc)
  {
    function At(dev: Control.Dev, pc: Pc): Machine {
      this.(bus := bus.(dev := dev), pc := pc)
    }
  }

  function Firmware(ds: Descriptors, m: Machine, vendor: report): Machine
    requires ds.Valid()
  {
    var d := m.bus.dev;
    if m.pc.Dispatch? then
      Switch(m.(bus := m.bus.(log := m.bus.log.(vendor := vendor))), ReplyTo(ds, d.setup, d.configuration, vendor))
    else if Answers(m.pc) then Answer(m)
    else if Hands(m.pc) then Hand(m)
    else Look(m)
  }

  /** usb_ep0_in, the store of usb_configuration and usb_ep0_out. */
  predicate Answers(pc: Pc) {
    pc.Fill? || pc.ArmPacket? || pc.Configure? || pc.OpenStatus?
  }

  /** usb_ep0_in_multi */
  predicate Hands(pc: Pc) {
    pc.FillChunk? || pc.ArmChunk? || pc.OpenChunk? || pc.Advance?
  }

  /** trncompl_vect and usb_handle_control_in_complete. */
  function Look(m: Machine): Machine
    requires !m.pc.Dispatch? && !Answers(m.pc) && !Hands(m.pc)
  {
    var d := m.bus.dev;
    match m.pc
    case PollStart => Machine(if m.resetting then ResetBus(m.bus) else m.bus, false, TestEvent)
    case TestEvent => m.(pc := if d.event then ClearEvent else PollStart)
    case ClearEvent => m.At(d.(event := false), ReadStatus)
    case ReadStatus => m.(pc := if d.setupArrived then ClearSetup else TestIn)
    case ClearSetup => m.At(d.(setupArrived := false, outFlags := d.outFlags.(complete := false)), CopySetup)
    case CopySetup => m.At(d.(setup := Decode(d.received)), Dispatch)
    case TestIn => m.(pc := if d.inFlags.complete then Complete else PollStart)
    case Complete =>
      if d.setup.Is(USB_REQ_SetAddress) then m.At(d.(address := d.setup.wValue % 128), PollStart)
      else m.(pc := if d.setup.Is(USB_REQ_GetDescriptor) then FillChunk(false) else PollStart)
  }

  function Answer(m: Machine): Machine
    requires Answers(m.pc)
  {
    var d := m.bus.dev;
    match m.pc
    case Fill(p) => m.At(d.(packet := p), ArmPacket)
    case ArmPacket => m.At(d.(inFlags := Flags(false, false)), Configure)
    case Configure =>
      m.At(d.(configuration := if d.setup.Is(USB_REQ_SetConfiguration) then d.setup.wValue % 256 else d.configuration),
           OpenStatus)
    case OpenStatus => m.At(d.OpenOut(), TestIn)
  }

  function Hand(m: Machine): Machine
    requires Hands(m.pc)
  {
    var d := m.bus.dev;
    match m.pc
    case FillChunk(first) => m.At(d.(packet := First(d.rest)), ArmChunk(first))
    case ArmChunk(first) =>
      m.At(d.(inFlags := Flags(false, false)), if d.rest == [] then OpenChunk(first) else Advance(first))
    case OpenChunk(first) => m.At(d.OpenOut(), Advance(first))
    case Advance(first) => m.At(d.(rest := Rest(d.rest)), Done(first))
  }

  function Done(first: bool): Pc {
    if first then TestIn else PollStart
  }

  function Switch(m: Machine, r: Reply): Machine {
    match r
    case Silent => m.(pc := TestIn)
    case Stall => m.At(m.bus.dev.(stall := true), TestIn)
    case Packet(p) => m.(pc := Fill(p))
    case Transfer(data) => m.At(m.bus.dev.(rest := data), FillChunk(true))
  }

  /** `Device` is one access of the firmware, while the vendor IN buffer holds `vendor`. */
  datatype Event = Wire(token: Token) | BusReset | Device(vendor: report)

  function Happen(ds: Descriptors, m: Machine, e: Event): Machine
    requires ds.Valid()
  {
    match e
    case Wire(t) => if m.resetting then m else m.(bus := Receive(m.bus, t))
    case BusReset => m.(resetting := true)
    case Device(vendor) => Firmware(ds, m, vendor)
  }

  function Events(ds: Descriptors, m: Machine, es: seq<Event>): Machine
    requires ds.Valid()
    decreases |es|
  {
    if es == [] then m else Happen(ds, Events(ds, m, es[..|es| - 1]), es[|es| - 1])
  }

  /** No SETUP packet. */
  predicate Calm(es: seq<Event>) {
    forall i :: 0 <= i < |es| ==> !IsSetup(es[i])
  }

  predicate IsSetup(e: Event) {
    e.Wire? && e.token.SetupToken?
  }

  function ReplyOf(ds: Descriptors, b: Bus): Reply
    requires ds.Valid()
  {
    ReplyTo(ds, b.dev.setup, b.dev.configuration, b.log.vendor)
  }

  /** Which requests are answered in which way. */
  lemma ReplyKinds(ds: Descriptors, s: Setup, configuration: byte, vendor: report)
    requires ds.Valid()
    ensures var r := ReplyTo(ds, s, configuration, vendor);
            && (r.Transfer? ==> s.Is(USB_REQ_GetDescriptor) && ds.Has(s) && r.data == ds.Data(s))
            && (s.Is(USB_REQ_GetDescriptor) ==> r == if ds.Has(s) then Transfer(ds.Data(s)) else Stall)
            && (s.Is(USB_REQ_SetAddress) ==> r == Packet([]))
            && (s.Is(USB_REQ_SetConfiguration) ==> r == ReplyTo(ds, s, s.wValue % 256, vendor))
            && (r.Silent? ==> s.Type() != USB_REQTYPE_STANDARD)
  {
  }

  // ----- every run

  /** The machine when the device has just been reset. */
  ghost predicate JustReset(m: Machine) {
    m.pc == PollStart && m.bus == ResetBus(m.bus)
  }

  /** What holds whatever the host sends and whenever. */
  ghost predicate Sound(m: Machine) {
    FlagsSound(m) && SetupSound(m) && EventSound(m) && PcSound(m)
  }

  /** A collected packet leaves the IN endpoint refusing. */
  ghost predicate FlagsSound(m: Machine) {
    m.bus.dev.inFlags.complete ==> m.bus.dev.inFlags.nack
  }

  /** As long as a SETUP packet has not been copied, the OUT buffer holds it, and OUT packets
      are refused. */
  ghost predicate SetupSound(m: Machine) {
    && (m.bus.dev.setupArrived || m.pc.CopySetup? ==>
          m.bus.dev.outFlags.nack && m.bus.log.request == Requested(Decode(m.bus.dev.received)))
    && (m.pc.ClearSetup? ==> m.bus.dev.setupArrived)
  }

  /** The firmware looks again for what it has not seen. */
  ghost predicate EventSound(m: Machine) {
    var d := m.bus.dev;
    && (d.setupArrived ==> d.event || m.pc.ReadStatus? || m.pc.ClearSetup?)
    && (m.pc.ClearEvent? ==> d.event)
    && (m.pc.PollStart? || m.pc.TestEvent? ==>
          d.inFlags.complete && d.setup.Is(USB_REQ_GetDescriptor) ==> d.event)
    && (m.pc.OpenChunk? || m.pc.Advance? ==> d.inFlags.complete ==> d.event)
  }

  ghost predicate PcSound(m: Machine) {
    var d := m.bus.dev;
    match m.pc
    case Fill(p) => !d.setup.Is(USB_REQ_GetDescriptor) && (d.setup.Is(USB_REQ_SetAddress) ==> p == [])
    case ArmPacket => !d.setup.Is(USB_REQ_GetDescriptor) && (d.setup.Is(USB_REQ_SetAddress) ==> d.packet == [])
    case Configure => !d.setup.Is(USB_REQ_GetDescriptor)
    case OpenStatus => !d.setup.Is(USB_REQ_GetDescriptor)
    case FillChunk(_) => d.setup.Is(USB_REQ_GetDescriptor)
    case ArmChunk(_) => d.setup.Is(USB_REQ_GetDescriptor) && d.packet == First(d.rest)
    case OpenChunk(_) => d.setup.Is(USB_REQ_GetDescriptor) && d.rest == []
    case Advance(_) => d.setup.Is(USB_REQ_GetDescriptor)
    case Complete => d.inFlags.complete
    case _ => true
  }

  lemma SetupArrives(b: Bus, data: setupPacket)
    ensures var now := Receive(b, SetupToken(data));
            && now == Bus(b.dev.(received := now.dev.received, setupArrived := true, event := true, stall := false,
                                 outFlags := b.dev.outFlags.(nack := true), inFlags := b.dev.inFlags.(nack := true)),
                          b.log.(request := Requested(Decode(data)), got := [], closed := false))
            && Decode(now.dev.received) == Decode(data)
  {
    var r := Receive(b, SetupToken(data)).dev.received;
    assert r == data + b.dev.received[8..];
    assert r[2..4] == data[2..4];
    assert r[4..6] == data[4..6];
    assert r[6..8] == data[6..8];
  }

  lemma ReceiveSound(m: Machine, t: Token)
    requires Sound(m)
    ensures Sound(m.(bus := Receive(m.bus, t)))
  {
    hide Decode;
    if t.SetupToken? { SetupArrives(m.bus, t.setup); }
  }

  lemma FirmwareSound(ds: Descriptors, m: Machine, vendor: report)
    requires ds.Valid() && Sound(m)
    ensures Sound(Firmware(ds, m, vendor))
  {
    hide Look, Answer, Hand, Switch, Sound, ReplyTo;
    if m.pc.Dispatch? {
      DispatchSound(ds, m, vendor);
    } else if Answers(m.pc) {
      AnswerSound(m);
    } else if Hands(m.pc) {
      HandSound(m);
    } else {
      LookSound(m);
    }
  }

  lemma DispatchSound(ds: Descriptors, m: Machine, vendor: report)
    requires ds.Valid() && Sound(m) && m.pc.Dispatch?
    ensures Sound(Firmware(ds, m, vendor))
  {
    ReplyKinds(ds, m.bus.dev.setup, m.bus.dev.configuration, vendor);
    hide ReplyTo, Decode, Look, Answer, Hand;
  }

  lemma AnswerSound(m: Machine)
    requires Sound(m) && Answers(m.pc)
    ensures Sound(Answer(m))
  {
    hide Decode;
  }

  lemma HandSound(m: Machine)
    requires Sound(m) && Hands(m.pc)
    ensures Sound(Hand(m))
  {
    hide Decode, First, Control.Rest;
  }

  lemma LookSound(m: Machine)
    requires Sound(m) && !m.pc.Dispatch? && !Answers(m.pc) && !Hands(m.pc)
    ensures Sound(Look(m))
  {
    hide Decode;
  }

  lemma HappenSound(ds: Descriptors, m: Machine, e: Event)
    requires ds.Valid() && Sound(m)
    ensures Sound(Happen(ds, m, e))
  {
    hide Firmware, Control.Receive, Decode;
    match e
    case Wire(t) => ReceiveSound(m, t);
    case BusReset =>
    case Device(vendor) => FirmwareSound(ds, m, vendor);
  }

  lemma {:induction false} EventsSound(ds: Descriptors, m: Machine, es: seq<Event>)
    requires ds.Valid() && (Sound(m) || JustReset(m))
    ensures Sound(Events(ds, m, es))
    decreases |es|
  {
    hide Happen;
    if es != [] {
      EventsSound(ds, m, es[..|es| - 1]);
      HappenSound(ds, Events(ds, m, es[..|es| - 1]), es[|es| - 1]);
    }
  }

  /** In every run a SETUP packet is copied out of the OUT buffer only while the hardware would
      refuse to overwrite it with an OUT packet. */
  lemma SetupOwned(ds: Descriptors, start: Machine, es: seq<Event>)
    requires ds.Valid() && JustReset(start)
    ensures var m := Events(ds, start, es);
            m.pc.CopySetup? ==> m.bus.dev.outFlags.nack && m.bus.log.request == Requested(Decode(m.bus.dev.received))
  {
    EventsSound(ds, start, es);
    hide Events;
  }

  // ----- putting runs together

  lemma Extend(ds: Descriptors, m: Machine, es: seq<Event>, e: Event)
    requires ds.Valid()
    ensures Events(ds, m, es + [e]) == Happen(ds, Events(ds, m, es), e)
  {
    assert (es + [e])[..|es|] == es;
  }

  lemma {:induction false} Append(ds: Descriptors, m: Machine, es: seq<Event>, fs: seq<Event>)
    requires ds.Valid()
    ensures Events(ds, m, es + fs) == Events(ds, Events(ds, m, es), fs)
    decreases |fs|
  {
    NoEvents(ds, Events(ds, m, es));
    hide *;
    if fs == [] {
      assert es + fs == es;
    } else {
      var front, last := fs[..|fs| - 1], fs[|fs| - 1];
      Append(ds, m, es, front);
      Extend(ds, m, es + front, last);
      Extend(ds, Events(ds, m, es), front, last);
      Regroup(es, fs);
    }
  }

  lemma Regroup<T>(es: seq<T>, fs: seq<T>)
    requires fs != []
    ensures es + fs == es + fs[..|fs| - 1] + [fs[|fs| - 1]] && fs[..|fs| - 1] + [fs[|fs| - 1]] == fs
  {
  }

  lemma NoEvents(ds: Descriptors, m: Machine)
    requires ds.Valid()
    ensures Events(ds, m, []) == m
  {
  }

  /** The next k accesses of the firmware. */
  function Steps(ds: Descriptors, m: Machine, vendor: report, k: nat): Machine
    requires ds.Valid()
    decreases k
  {
    if k == 0 then m else Steps(ds, Firmware(ds, m, vendor), vendor, k - 1)
  }

  function Devices(vendor: report, k: nat): (es: seq<Event>)
    ensures Calm(es)
  {
    seq(k, _ => Device(vendor))
  }

  lemma {:induction false} StepsAreEvents(ds: Descriptors, m: Machine, vendor: report, k: nat)
    requires ds.Valid()
    ensures Events(ds, m, Devices(vendor, k)) == Steps(ds, m, vendor, k)
    decreases k
  {
    StepsFirst(ds, m, vendor, k);
    NoEvents(ds, m);
    DevicesFirst(vendor, k);
    hide *;
    if k > 0 {
      var m1 := Firmware(ds, m, vendor);
      StepsAreEvents(ds, m1, vendor, k - 1);
      Append(ds, m, [Device(vendor)], Devices(vendor, k - 1));
      OneEvent(ds, m, vendor);
    }
  }

  lemma OneEvent(ds: Descriptors, m: Machine, vendor: report)
    requires ds.Valid()
    ensures Events(ds, m, [Device(vendor)]) == Firmware(ds, m, vendor)
  {
    NoEvents(ds, m);
    Extend(ds, m, [], Device(vendor));
    assert [] + [Device(vendor)] == [Device(vendor)];
    hide Firmware;
  }

  lemma DevicesFirst(vendor: report, k: nat)
    ensures Devices(vendor, k) == if k == 0 then [] else [Device(vendor)] + Devices(vendor, k - 1)
  {
  }

  lemma StepsFirst(ds: Descriptors, m: Machine, vendor: report, k: nat)
    requires ds.Valid()
    ensures Steps(ds, m, vendor, k) == if k == 0 then m else Steps(ds, Firmware(ds, m, vendor), vendor, k - 1)
  {
    hide Firmware;
  }

  // ----- an undisturbed poll

  /** A bound on the accesses that are left of a poll. */
  function Left(pc: Pc): nat {
    match pc
    case PollStart => 0
    case TestEvent => 16
    case ClearEvent => 15
    case ReadStatus => 14
    case ClearSetup => 13
    case CopySetup => 12
    case Dispatch => 11
    case Fill(_) => 10
    case ArmPacket => 9
    case Configure => 8
    case OpenStatus => 7
    case FillChunk(first) => if first then 10 else 4
    case ArmChunk(first) => if first then 9 else 3
    case OpenChunk(first) => if first then 8 else 2
    case Advance(first) => if first then 7 else 1
    case TestIn => 6
    case Complete => 5
  }

  lemma FirmwareLeft(ds: Descriptors, m: Machine, vendor: report)
    requires ds.Valid() && m.pc != PollStart
    ensures Left(Firmware(ds, m, vendor).pc) < Left(m.pc)
  {
    hide ReplyTo, Decode, First, Control.Rest;
  }

  /** The rest of a poll, while the bus is silent. */
  function Remainder(ds: Descriptors, m: Machine, vendor: report): Machine
    requires ds.Valid()
    decreases Left(m.pc)
  {
    if m.pc == PollStart then m
    else
      hide *;
      FirmwareLeft(ds, m, vendor);
      Remainder(ds, Firmware(ds, m, vendor), vendor)
  }

  lemma RemainderStep(ds: Descriptors, m: Machine, vendor: report)
    requires ds.Valid()
    ensures Remainder(ds, m, vendor) == if m.pc == PollStart then m else Remainder(ds, Firmware(ds, m, vendor), vendor)
  {
    hide Firmware;
  }

  /** Without interference the accesses of a poll are exactly the poll of Control.dfy. */
  lemma AccessesArePoll(ds: Descriptors, m: Machine, vendor: report)
    requires ds.Valid() && m.pc == PollStart && !m.resetting
    ensures Remainder(ds, Firmware(ds, m, vendor), vendor) == m.(bus := QuietPoll(ds, m.bus, vendor))
  {
    var d := m.bus.dev;
    if d.event {
      var m1 := m.At(d.(event := false), ReadStatus);
      assert Remainder(ds, m.(pc := TestEvent), vendor) == Remainder(ds, m.(pc := ClearEvent), vendor) ==
             Remainder(ds, m1, vendor);
      ReadRemainder(ds, m1, vendor);
      hide Control.Dev.TakeSetup, Remainder;
      TestRemainder(ds, Remained(ds, m1, vendor), vendor);
    } else {
      assert Remainder(ds, m.(pc := TestEvent), vendor) == m;
    }
  }

  /** The machine when the SETUP branch of the poll has been left. */
  function Remained(ds: Descriptors, m: Machine, vendor: report): Machine
    requires ds.Valid()
  {
    var log := if m.bus.dev.setupArrived then m.bus.log.(vendor := vendor) else m.bus.log;
    Machine(Bus(m.bus.dev.TakeSetup(ds, vendor), log), m.resetting, TestIn)
  }

  lemma ReadRemainder(ds: Descriptors, m: Machine, vendor: report)
    requires ds.Valid() && m.pc == ReadStatus
    ensures Remainder(ds, m, vendor) == Remainder(ds, Remained(ds, m, vendor), vendor)
  {
    var d := m.bus.dev;
    if d.setupArrived {
      var d1 := d.(setupArrived := false, outFlags := d.outFlags.(complete := false));
      var m1 := m.At(d1.(setup := Decode(d1.received)), Dispatch);
      hide Decode;
      assert Remainder(ds, m, vendor) == Remainder(ds, m.(pc := ClearSetup), vendor) ==
             Remainder(ds, m.At(d1, CopySetup), vendor) == Remainder(ds, m1, vendor);
      hide Remainder;
      DispatchRemainder(ds, m1, vendor);
    }
  }

  lemma DispatchRemainder(ds: Descriptors, m: Machine, vendor: report)
    requires ds.Valid() && m.pc == Dispatch
    ensures Remainder(ds, m, vendor) ==
            Remainder(ds, Machine(Bus(m.bus.dev.Handle(ds, vendor), m.bus.log.(vendor := vendor)), m.resetting,
                                  TestIn), vendor)
  {
    var r := ReplyTo(ds, m.bus.dev.setup, m.bus.dev.configuration, vendor);
    var m1 := Switch(m.(bus := m.bus.(log := m.bus.log.(vendor := vendor))), r);
    assert Remainder(ds, m, vendor) == Remainder(ds, m1, vendor);
    hide ReplyTo, Remainder;
    match r
    case Silent =>
    case Stall =>
    case Packet(p) => PacketRemainder(ds, m1, p, vendor);
    case Transfer(_) => ChunkRemainder(ds, m1, vendor);
  }

  lemma PacketRemainder(ds: Descriptors, m: Machine, p: seq<byte>, vendor: report)
    requires ds.Valid() && m.pc == Fill(p)
    ensures Remainder(ds, m, vendor) == Remainder(ds, m.At(m.bus.dev.Give(Packet(p)), TestIn), vendor)
  {
    var m1 := Firmware(ds, m, vendor);
    var m2 := Firmware(ds, m1, vendor);
    var m3 := Firmware(ds, m2, vendor);
    var m4 := Firmware(ds, m3, vendor);
    assert m1.pc == ArmPacket && m2.pc == Configure && m3.pc == OpenStatus;
    assert m4 == m.At(m.bus.dev.Give(Packet(p)), TestIn);
    hide *;
    RemainderStep(ds, m, vendor);
    RemainderStep(ds, m1, vendor);
    RemainderStep(ds, m2, vendor);
    RemainderStep(ds, m3, vendor);
  }

  lemma ChunkRemainder(ds: Descriptors, m: Machine, vendor: report)
    requires ds.Valid() && m.pc.FillChunk?
    ensures Remainder(ds, m, vendor) == Remainder(ds, m.At(m.bus.dev.Next(), Done(m.pc.first)), vendor)
  {
    var m1 := Firmware(ds, m, vendor);
    var m2 := Firmware(ds, m1, vendor);
    var m3 := Firmware(ds, m2, vendor);
    ChunkSteps(ds, m, vendor);
    RemainderStep(ds, m, vendor);
    RemainderStep(ds, m1, vendor);
    RemainderStep(ds, m2, vendor);
    RemainderStep(ds, m3, vendor);
    hide *;
  }

  /** usb_ep0_in_multi takes three or four accesses. */
  lemma ChunkSteps(ds: Descriptors, m: Machine, vendor: report)
    requires ds.Valid() && m.pc.FillChunk?
    ensures var m1 := Firmware(ds, m, vendor);
            var m2 := Firmware(ds, m1, vendor);
            var m3 := Firmware(ds, m2, vendor);
            && m.pc != PollStart && m1.pc != PollStart && m2.pc != PollStart
            && var last := if m.bus.dev.rest == [] then Firmware(ds, m3, vendor) else m3;
               last == m.At(m.bus.dev.Next(), Done(m.pc.first)) && (m.bus.dev.rest == [] ==> m3.pc != PollStart)
  {
    hide First, Control.Rest, ReplyTo, Decode;
  }

  lemma TestRemainder(ds: Descriptors, m: Machine, vendor: report)
    requires ds.Valid() && m.pc == TestIn
    ensures var d := m.bus.dev;
            Remainder(ds, m, vendor) == m.At(if d.inFlags.complete then d.InComplete() else d, PollStart)
  {
    hide Remainder, ReplyTo, Decode, First, Control.Rest;
    RemainderStep(ds, m, vendor);
    RemainderStep(ds, m.(pc := PollStart), vendor);
    if m.bus.dev.inFlags.complete {
      var m1 := m.(pc := Complete);
      RemainderStep(ds, m1, vendor);
      RemainderStep(ds, Firmware(ds, m1, vendor), vendor);
      RemainderStep(ds, m.At(m.bus.dev.Next(), PollStart), vendor);
      if m.bus.dev.setup.Is(USB_REQ_GetDescriptor) { ChunkRemainder(ds, m.(pc := FillChunk(false)), vendor); }
    }
  }
}
