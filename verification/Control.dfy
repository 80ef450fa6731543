/** Endpoint 0: how the device answers control requests, and what a packet on the bus does
    (src/xusb/usb_requests.c, src/xusb/xmega/usb_xmega.c).

    ControlPipe.dfy is the code and ControlRuns.dfy lets it meet the bus. The USB hardware is
    assumed to accept every SETUP packet, then refusing IN and OUT and ending a stall; to
    deliver the IN buffer on an IN token, or to accept an OUT packet, only if that direction
    neither refuses nor stalls, and then to refuse it and mark it complete. */
module Control {
  import opened Bits
  import opened Protocol
  import Channel

  const USB_EP0_SIZE: nat := 64

  const USB_REQTYPE_STANDARD: nat := 0
  const USB_REQTYPE_CLASS: nat := 1

  const USB_REQ_GetStatus: byte := 0
  const USB_REQ_ClearFeature: byte := 1
  const USB_REQ_SetFeature: byte := 3
  const USB_REQ_SetAddress: byte := 5
  const USB_REQ_GetDescriptor: byte := 6
  const USB_REQ_GetConfiguration: byte := 8
  const USB_REQ_SetConfiguration: byte := 9
  const USB_REQ_HID_GET_REPORT: byte := 1
  const INTERFACE_VENDOR: nat := 0

  datatype Setup = Setup(bmRequestType: byte, bRequest: byte, wValue: nat, wIndex: nat, wLength: nat)
  {
    /** bmRequestType & USB_REQTYPE_TYPE_MASK, shifted down. */
    function Type(): nat {
      bmRequestType as int / 32 % 4
    }

    predicate Is(request: byte) {
      Type() == USB_REQTYPE_STANDARD && bRequest == request
    }
  }

  /** The packed USB_SetupPacket at the start of the buffer. */
  function Decode(buffer: seq<byte>): Setup
    requires 8 <= |buffer|
  {
    Setup(buffer[0], buffer[1], FromLe16(buffer[2..4]), FromLe16(buffer[4..6]), FromLe16(buffer[6..8]))
  }

  /** Which descriptor is asked for, and where a descriptor is; address 0 is the null pointer. */
  datatype Wanted = Wanted(kind: byte, index: byte, interface: byte)
  datatype Place = Place(at: nat, size: nat)

  /** The memory that holds the descriptors, which is constant once the serial number has been
      filled in, and the descriptors in it (usb_cb_get_descriptor). */
  datatype Descriptors = Descriptors(memory: seq<byte>, places: map<Wanted, Place>)
  {
    ghost predicate Valid() {
      forall w :: w in places ==> places[w].at + places[w].size <= |memory| && places[w].size < 0x1_0000
    }

    function Find(s: Setup): (r: Place)
      requires Valid()
      ensures r.at + r.size <= |memory| || r.size == 0
    {
      var w := Wanted(s.wValue / 256 % 256, s.wValue % 256, s.wIndex % 256);
      if w in places then places[w] else Place(0, 0)
    }

    predicate Has(s: Setup)
      requires Valid()
    {
      Find(s).size != 0 && Find(s).at != 0
    }

    /** The descriptor that is asked for, cut to the length that is asked for. */
    function Data(s: Setup): (r: seq<byte>)
      requires Valid() && Has(s)
      ensures |r| <= s.wLength
    {
      memory[Find(s).at..Find(s).at + Min(Find(s).size, s.wLength)]
    }
  }

  // ----- what a request is answered with

  /** The packets a request is answered with: none for lack of a handler, a stall, one
      packet, or a transfer in as many packets as it takes. */
  datatype Reply = Silent | Stall | Packet(packet: seq<byte>) | Transfer(data: seq<byte>)

  function Min(m: nat, n: nat): nat {
    if m < n then m else n
  }

  function ReplyTo(ds: Descriptors, s: Setup, configuration: byte, vendor: report): (r: Reply)
    requires ds.Valid()
    ensures r.Packet? ==> |r.packet| <= 64
  {
    if s.Type() == USB_REQTYPE_STANDARD then
      if s.bRequest == USB_REQ_GetStatus then Packet([0, 0])
      else if s.bRequest in {USB_REQ_ClearFeature, USB_REQ_SetFeature, USB_REQ_SetAddress} then Packet([])
      else if s.bRequest == USB_REQ_GetDescriptor then
        if ds.Has(s) then Transfer(ds.Data(s)) else Stall
      else if s.bRequest == USB_REQ_GetConfiguration then Packet([configuration])
      else if s.bRequest == USB_REQ_SetConfiguration && s.wValue % 256 <= 1 then Packet([])
      else Stall
    else if s.Type() == USB_REQTYPE_CLASS then
      if s.bRequest == USB_REQ_HID_GET_REPORT && s.wIndex % 256 == INTERFACE_VENDOR then Packet(vendor) else Stall
    else Silent
  }

  // ----- the device

  /** One direction of endpoint 0: BUSNACK0 and TRNCOMPL0. */
  datatype Flags = Flags(nack: bool, complete: bool)

  /** `setup` is the request being served, `rest` the bytes of the last descriptor transfer
      that have not been handed to the endpoint, `packet` what an IN token would be given,
      `received` the OUT buffer, `event` the transaction interrupt flag. */
  datatype Dev = Dev(
    setup: Setup, configuration: byte, address: byte, rest: seq<byte>,
    setupArrived: bool, outFlags: Flags, received: report,
    inFlags: Flags, packet: seq<byte>,
    stall: bool, event: bool)
  {
    /** usb_ep0_in */
    function Arm(p: seq<byte>): Dev {
      this.(packet := p, inFlags := Flags(false, false))
    }

    /** usb_ep0_out */
    function OpenOut(): Dev {
      this.(setupArrived := false, outFlags := Flags(false, false))
    }

    /** usb_ep0_in_multi */
    function Next(): Dev {
      var d := Arm(First(rest)).(rest := Rest(rest));
      if rest == [] then d.OpenOut() else d
    }

    function Give(r: Reply): Dev {
      match r
      case Silent => this
      case Stall => this.(stall := true)
      case Packet(p) =>
        var c := if setup.Is(USB_REQ_SetConfiguration) then setup.wValue % 256 else configuration;
        Arm(p).OpenOut().(configuration := c)
      case Transfer(data) => this.(rest := data).Next()
    }

    /** usb_handle_setup */
    function Handle(ds: Descriptors, vendor: report): Dev
      requires ds.Valid()
    {
      Give(ReplyTo(ds, setup, configuration, vendor))
    }

    /** usb_handle_control_in_complete */
    function InComplete(): Dev {
      if setup.Is(USB_REQ_SetAddress) then this.(address := setup.wValue % 128)
      else if setup.Is(USB_REQ_GetDescriptor) then Next()
      else this
    }

    /** The SETUP branch of trncompl_vect. */
    function TakeSetup(ds: Descriptors, vendor: report): Dev
      requires ds.Valid()
    {
      if setupArrived then
        this.(setup := Decode(received), setupArrived := false, outFlags := outFlags.(complete := false))
            .Handle(ds, vendor)
      else this
    }

    /** trncompl_vect */
    function Poll(ds: Descriptors, vendor: report): Dev
      requires ds.Valid()
    {
      if !event then this
      else
        var d := this.(event := false).TakeSetup(ds, vendor);
        if d.inFlags.complete then d.InComplete() else d
    }

    /** usb_reset */
    function Reset(): Dev {
      this.(address := 0, setupArrived := false, outFlags := Flags(false, false),
            inFlags := Flags(true, false), stall := false)
    }
  }

  // ----- what each request does to the device

  /** The packet p is in the IN endpoint and the status stage is open. */
  ghost predicate Armed(d: Dev, now: Dev, p: seq<byte>) {
    now == d.(packet := p, inFlags := Flags(false, false), outFlags := Flags(false, false), setupArrived := false)
  }

  ghost predicate Stalled(d: Dev, now: Dev) {
    now == d.(stall := true)
  }

  /** The device `now` has handled the request of d, a standard request for kind 0, a class request
      for kind 1, which must be GET_REPORT of interface 0. */
  ghost predicate Handled(ds: Descriptors, vendor: report, d: Dev, now: Dev)
    requires ds.Valid()
  {
    var s, kind, low := d.setup, d.setup.bmRequestType as int / 32 % 4, d.setup.wValue % 256;
    && (kind == 0 && s.bRequest == 0 ==> Armed(d, now, [0, 0]))
    && (kind == 0 && (s.bRequest == 1 || s.bRequest == 3 || s.bRequest == 5) ==> Armed(d, now, []))
    && (kind == 0 && s.bRequest == 6 ==> DescriptorHandled(ds, d, now))
    && (kind == 0 && s.bRequest == 8 ==> Armed(d, now, [d.configuration]))
    && (kind == 0 && s.bRequest == 9 && low <= 1 ==> Armed(d.(configuration := low), now, []))
    && (kind == 0 && s.bRequest == 9 && low > 1 ==> Stalled(d, now))
    && (kind == 0 && (s.bRequest > 9 || s.bRequest == 2 || s.bRequest == 4 || s.bRequest == 7) ==> Stalled(d, now))
    && (kind == 1 && s.bRequest == 1 && s.wIndex % 256 == 0 ==> Armed(d, now, vendor))
    && (kind == 1 && !(s.bRequest == 1 && s.wIndex % 256 == 0) ==> Stalled(d, now))
    && (kind > 1 ==> now == d)
  }

  /** The descriptor of that type, index and interface, cut to wLength: its first 64 bytes are in
      the IN endpoint, and the rest is to come. The status stage is open only if it is empty. */
  ghost predicate DescriptorHandled(ds: Descriptors, d: Dev, now: Dev)
    requires ds.Valid()
  {
    var w := Wanted(d.setup.wValue / 256 % 256, d.setup.wValue % 256, d.setup.wIndex % 256);
    if w !in ds.places || ds.places[w].size == 0 || ds.places[w].at == 0 then Stalled(d, now)
    else
      var at, size := ds.places[w].at, ds.places[w].size;
      var end := if size < d.setup.wLength then at + size else at + d.setup.wLength;
      if end == at then Armed(d.(rest := []), now, [])
      else if end - at <= 64 then
        now == d.(packet := ds.memory[at..end], rest := [], inFlags := Flags(false, false))
      else
        now == d.(packet := ds.memory[at..at + 64], rest := ds.memory[at + 64..end], inFlags := Flags(false, false))
  }

  lemma HandleMeans(ds: Descriptors, vendor: report, d: Dev)
    requires ds.Valid()
    ensures Handled(ds, vendor, d, d.Handle(ds, vendor))
  {
    if d.setup.Is(USB_REQ_GetDescriptor) {
      DescriptorMeans(ds, vendor, d);
    }
    hide DescriptorHandled, First, Rest, Descriptors.Find, Descriptors.Data, Descriptors.Has;
  }

  lemma DescriptorMeans(ds: Descriptors, vendor: report, d: Dev)
    requires ds.Valid() && d.setup.Is(USB_REQ_GetDescriptor)
    ensures DescriptorHandled(ds, d, d.Handle(ds, vendor))
  {
    hide First, Rest;
    if ds.Has(d.setup) {
      var at := ds.Find(d.setup).at;
      FirstOf(ds.memory, at, at + Min(ds.Find(d.setup).size, d.setup.wLength));
    }
  }

  lemma FirstOf(memory: seq<byte>, at: nat, end: nat)
    requires at <= end <= |memory|
    ensures memory[at..end] == [] <==> end == at
    ensures end - at <= 64 ==> First(memory[at..end]) == memory[at..end] && Rest(memory[at..end]) == []
    ensures end - at > 64 ==>
              First(memory[at..end]) == memory[at..at + 64] && Rest(memory[at..end]) == memory[at + 64..end]
  {
  }

  /** GET_CONFIGURATION is answered with what the last accepted SET_CONFIGURATION asked for. */
  lemma ConfigurationReturned(ds: Descriptors, d: Dev, vendor: report, get: Setup, later: report)
    requires ds.Valid() && d.setup.bmRequestType as int / 32 % 4 == 0 == get.bmRequestType as int / 32 % 4
    requires d.setup.bRequest == 9 && get.bRequest == 8
    ensures var d1 := d.Handle(ds, vendor);
            d1.(setup := get).Handle(ds, later).packet ==
            [if d.setup.wValue % 256 <= 1 then d.setup.wValue % 256 else d.configuration]
  {
    HandleMeans(ds, vendor, d);
    HandleMeans(ds, later, d.Handle(ds, vendor).(setup := get));
    hide Dev.Handle, DescriptorHandled;
  }

  /** The fields of a SETUP packet by the bytes of the packet (section 9.3 of USB 2.0). */
  lemma DecodeBytes(p: seq<byte>)
    requires 8 <= |p|
    ensures Decode(p) == Setup(p[0], p[1], p[2] as int + 0x100 * p[3] as int, p[4] as int + 0x100 * p[5] as int,
                               p[6] as int + 0x100 * p[7] as int)
  {
  }

  /** The part of a transfer that fits one packet, and what follows it. */
  function First(s: seq<byte>): seq<byte> {
    s[..Min(|s|, USB_EP0_SIZE)]
  }

  function Rest(s: seq<byte>): seq<byte> {
    s[Min(|s|, USB_EP0_SIZE)..]
  }

  // ----- the bus

  /** The request on the bus since the last bus reset, the packets the host has collected
      for it, whether an OUT packet has been accepted for it, and what the vendor IN buffer
      held when it was handled. */
  datatype Log = Log(request: Request, got: seq<seq<byte>>, closed: bool, vendor: report)
  datatype Request = NoRequest | Requested(setup: Setup)

  datatype Bus = Bus(dev: Dev, log: Log)

  /** A token to this device; `OtherEndpoint` is a completed transaction on endpoint 1. */
  datatype Token = SetupToken(setup: setupPacket) | InToken | OutToken(data: outPacket) | OtherEndpoint

  type setupPacket = s: seq<byte> | |s| == 8 witness [0, 0, 0, 0, 0, 0, 0, 0]
  type outPacket = s: seq<byte> | |s| <= 64 witness []

  function Receive(b: Bus, t: Token): Bus {
    var d := b.dev;
    match t
    case SetupToken(data) =>
      Bus(d.(received := Channel.Overlay(d.received, data), setupArrived := true, event := true, stall := false,
             outFlags := d.outFlags.(nack := true), inFlags := d.inFlags.(nack := true)),
          b.log.(request := Requested(Decode(data)), got := [], closed := false))
    case InToken =>
      if d.stall || d.inFlags.nack then b
      else Bus(d.(inFlags := Flags(true, true), event := true), b.log.(got := b.log.got + [d.packet]))
    case OutToken(data) =>
      if d.stall || d.outFlags.nack then b
      else Bus(d.(received := Channel.Overlay(d.received, data), outFlags := Flags(true, true), event := true),
               b.log.(closed := true))
    case OtherEndpoint => b.(dev := d.(event := true))
  }

  /** A poll during which the bus is silent. */
  function QuietPoll(ds: Descriptors, b: Bus, vendor: report): Bus
    requires ds.Valid()
  {
    Bus(b.dev.Poll(ds, vendor), if b.dev.event && b.dev.setupArrived then b.log.(vendor := vendor) else b.log)
  }

  /** A bus reset, once the firmware has handled it. */
  function ResetBus(b: Bus): Bus {
    Bus(b.dev.Reset(), b.log.(request := NoRequest, got := [], closed := false))
  }

  // ----- the packets of a transfer

  /** What is left of a transfer after k packets. */
  function After(data: seq<byte>, k: nat): seq<byte> {
    data[Min(|data|, 64 * k)..]
  }

  function Chunk(data: seq<byte>, k: nat): seq<byte> {
    First(After(data, k))
  }

  ghost predicate Chunks(data: seq<byte>, got: seq<seq<byte>>) {
    forall i :: 0 <= i < |got| ==> got[i] == Chunk(data, i)
  }

  function Joined(got: seq<seq<byte>>): seq<byte> {
    if got == [] then [] else Joined(got[..|got| - 1]) + got[|got| - 1]
  }

  lemma AfterNext(data: seq<byte>, k: nat)
    ensures Rest(After(data, k)) == After(data, k + 1)
  {
  }

  lemma ChunkNext(data: seq<byte>, k: nat)
    ensures data[..Min(|data|, 64 * (k + 1))] == data[..Min(|data|, 64 * k)] + Chunk(data, k)
  {
  }

  lemma {:induction false} ChunksJoin(data: seq<byte>, got: seq<seq<byte>>)
    requires Chunks(data, got)
    ensures Joined(got) == data[..Min(|data|, 64 * |got|)]
  {
    if got != [] {
      ChunksJoin(data, got[..|got| - 1]);
      ChunkNext(data, |got| - 1);
    }
  }
}
