/** Endpoint 0: are the packets that the host collects the answer to its request?

    They are as long as no SETUP packet arrives while the firmware goes on to arm the IN
    endpoint for an older request (`Spoils`), and this condition is exact: at every such moment
    some SETUP packet can be given a packet that is not in its reply. The same is done for the
    status stage of a descriptor transfer (`SpoilsTransfer`). */
module ControlOrder {
  import opened Bits
  import opened Protocol
  import opened Control
  import opened ControlRuns
  import Channel

  // ----- when a SETUP packet does harm

  ghost predicate AnyDescriptor(ds: Descriptors) {
    exists w :: w in ds.places && ds.places[w].size != 0 && ds.places[w].at != 0
  }

  lemma HasAny(ds: Descriptors, s: Setup)
    requires ds.Valid() && ds.Has(s)
    ensures AnyDescriptor(ds)
  {
    var w := Wanted(s.wValue / 256 % 256, s.wValue % 256, s.wIndex % 256);
    assert w in ds.places;
  }

  /** Without copying a SETUP packet first, the firmware goes on to arm the IN endpoint.
      `pending`: it will find a SETUP packet when it next looks for one. */
  ghost predicate Arms(ds: Descriptors, m: Machine, pending: bool)
    requires ds.Valid()
  {
    var r, chunkTaken := ReplyOf(ds, m.bus), m.bus.dev.inFlags.complete && m.bus.dev.setup.Is(USB_REQ_GetDescriptor);
    match m.pc
    case Dispatch => r.Packet? || r.Transfer?
    case Fill(_) => true
    case ArmPacket => true
    case Configure => false
    case OpenStatus => false
    case FillChunk(_) => true
    case ArmChunk(_) => true
    case OpenChunk(_) => chunkTaken
    case Advance(first) => chunkTaken && (first || !pending)
    case TestIn => chunkTaken
    case Complete => chunkTaken
    case ClearSetup => false
    case CopySetup => false
    case _ => chunkTaken && !pending
  }

  /** A SETUP packet at this moment may be answered with a packet that is not meant for it: the
      firmware is about to arm the IN endpoint for an older request, or it copies the packet
      without having cleared its flag, and will copy it again. */
  ghost predicate Spoils(ds: Descriptors, m: Machine)
    requires ds.Valid()
  {
    if m.pc.CopySetup? then AnyDescriptor(ds) else Arms(ds, m, true)
  }

  /** usb_ep0_out is still to come for an older request. */
  predicate Opens(pc: Pc) {
    pc.Configure? || pc.OpenStatus? || pc.OpenChunk?
  }

  /** A SETUP packet at this moment may be given a wrong packet, or an open status stage. */
  ghost predicate SpoilsTransfer(ds: Descriptors, m: Machine)
    requires ds.Valid()
  {
    AnyDescriptor(ds) && (Spoils(ds, m) || Opens(m.pc))
  }

  /** No SETUP packet of the run does harm. While a bus reset is waiting to be noticed, there
      are no packets. */
  ghost predicate Harmless(ds: Descriptors, m: Machine, es: seq<Event>)
    requires ds.Valid()
  {
    forall i :: 0 <= i < |es| && IsSetup(es[i]) ==>
      Events(ds, m, es[..i]).resetting || !Spoils(ds, Events(ds, m, es[..i]))
  }

  ghost predicate HarmlessTransfer(ds: Descriptors, m: Machine, es: seq<Event>)
    requires ds.Valid()
  {
    forall i :: 0 <= i < |es| && IsSetup(es[i]) ==>
      Events(ds, m, es[..i]).resetting || !SpoilsTransfer(ds, Events(ds, m, es[..i]))
  }

  // ----- the properties

  /** The host has collected the first packets of the reply to its request, and no others. */
  ghost predicate InOrder(ds: Descriptors, b: Bus)
    requires ds.Valid()
  {
    b.log.request.Requested? ==>
      match ReplyTo(ds, b.log.request.setup, b.dev.configuration, b.log.vendor)
      case Silent => b.log.got == []
      case Stall => b.log.got == []
      case Packet(p) => b.log.got == [] || b.log.got == [p]
      case Transfer(data) => Chunks(data, b.log.got)
  }

  /** For a descriptor request: the packets are the chunks of the descriptor, and a status packet
      has been, or would be, accepted only after all of it. */
  ghost predicate Transferred(ds: Descriptors, b: Bus)
    requires ds.Valid()
  {
    b.log.request.Requested? && b.log.request.setup.Is(USB_REQ_GetDescriptor) && ds.Has(b.log.request.setup) ==>
      var data := ds.Data(b.log.request.setup);
      && Chunks(data, b.log.got)
      && (b.log.closed || !(b.dev.stall || b.dev.outFlags.nack) ==> |data| <= 64 * |b.log.got|)
  }

  // ----- the invariant; with `stage` it speaks of the status stage too

  /** Nothing has been answered, and nothing will be before the SETUP packet has been copied. */
  ghost predicate Unanswered(ds: Descriptors, m: Machine, stage: bool)
    requires ds.Valid()
  {
    var d, log := m.bus.dev, m.bus.log;
    && log.got == []
    && (d.stall || (d.inFlags.nack && !Arms(ds, m, d.setupArrived)))
    && (stage && log.request.Requested? ==> !log.closed && (d.stall || (d.outFlags.nack && !Opens(m.pc))))
  }

  /** The firmware serves the request on the bus. */
  ghost predicate Serves(ds: Descriptors, m: Machine, stage: bool)
    requires ds.Valid()
  {
    var d, log, r := m.bus.dev, m.bus.log, ReplyOf(ds, m.bus);
    && log.request == Requested(d.setup) && !d.stall
    && if m.pc.Dispatch? then Fresh(d, log, stage) && (d.setupArrived ==> !AnyDescriptor(ds))
       else if Answers(m.pc) then r.Packet? && ServesPacket(d, log, r.packet, m.pc)
       else if Hands(m.pc) then r.Transfer? && ServesChunk(d, log, r.data, m.pc, stage)
       else !m.pc.ClearSetup? && !m.pc.CopySetup? && !d.setupArrived && Settled(d, log, r, stage)
  }

  ghost predicate ServesPacket(d: Control.Dev, log: Log, p: seq<byte>, pc: Pc) {
    match pc
    case Fill(q) => p == q && log.got == [] && d.inFlags.nack
    case ArmPacket => p == d.packet && log.got == [] && d.inFlags.nack
    case _ => PacketOut(d, log, p)
  }

  ghost predicate ServesChunk(d: Control.Dev, log: Log, data: seq<byte>, pc: Pc, stage: bool) {
    match pc
    case FillChunk(_) => ChunkDue(d, log, data, stage)
    case ArmChunk(_) => ChunkDue(d, log, data, stage) && d.packet == First(d.rest)
    case _ => ChunkOut(d, log, data, stage)
  }

  ghost predicate Fresh(d: Control.Dev, log: Log, stage: bool) {
    log.got == [] && d.inFlags.nack && (stage ==> d.outFlags.nack && !log.closed)
  }

  /** The one packet of the reply is in the endpoint, or the host has it. */
  ghost predicate PacketOut(d: Control.Dev, log: Log, p: seq<byte>) {
    || (log.got == [] && d.inFlags == Flags(false, false) && d.packet == p)
    || (log.got == [p] && d.inFlags == Flags(true, true))
  }

  /** The host has the front of the transfer; the status stage waits for all of it. */
  ghost predicate Front(d: Control.Dev, log: Log, data: seq<byte>, stage: bool) {
    Chunks(data, log.got) && (stage ==> !d.outFlags.nack || log.closed ==> |data| <= 64 * |log.got|)
  }

  ghost predicate ChunkDue(d: Control.Dev, log: Log, data: seq<byte>, stage: bool) {
    !d.setupArrived && Front(d, log, data, stage) && d.inFlags.nack && d.rest == After(data, |log.got|)
  }

  /** The next chunk is in the endpoint, or the host has it already; the pointer has not been
      stepped. */
  ghost predicate ChunkOut(d: Control.Dev, log: Log, data: seq<byte>, stage: bool) {
    && !d.setupArrived && Front(d, log, data, stage)
    && (|| (d.inFlags == Flags(false, false) && d.packet == Chunk(data, |log.got|) && d.rest == After(data, |log.got|))
        || (d.inFlags == Flags(true, true) && log.got != [] && d.rest == After(data, |log.got| - 1)))
  }

  /** Between two answers. */
  ghost predicate Settled(d: Control.Dev, log: Log, r: Reply, stage: bool) {
    match r
    case Silent => false
    case Stall => false
    case Packet(p) => PacketOut(d, log, p)
    case Transfer(data) =>
      && Front(d, log, data, stage)
      && (|| (&& d.inFlags == Flags(false, false)
              && d.packet == Chunk(data, |log.got|)
              && d.rest == After(data, |log.got| + 1))
          || (d.inFlags == Flags(true, true) && log.got != [] && d.rest == After(data, |log.got|)))
  }

  ghost predicate Ordered(ds: Descriptors, m: Machine, stage: bool)
    requires ds.Valid()
  {
    && Sound(m)
    && (Unanswered(ds, m, stage) || Serves(ds, m, stage))
    && (m.pc.CopySetup? && m.bus.dev.setupArrived ==> !AnyDescriptor(ds))
  }

  // ----- events keep the invariant

  lemma SetupKeeps(ds: Descriptors, m: Machine, p: setupPacket, stage: bool)
    requires ds.Valid() && Sound(m) && !Spoils(ds, m) && (stage ==> !Opens(m.pc))
    ensures Ordered(ds, m.(bus := Receive(m.bus, SetupToken(p))), stage)
  {
    ReceiveSound(m, SetupToken(p));
    SetupArrives(m.bus, p);
    hide Sound, Control.Receive, Decode;
    SameReplyKind(ds, m.bus, Receive(m.bus, SetupToken(p)));
  }

  /** Which kind of reply there is depends on the request alone. */
  lemma SameReplyKind(ds: Descriptors, b: Bus, c: Bus)
    requires ds.Valid() && b.dev.setup == c.dev.setup
    ensures ReplyOf(ds, b).Packet? == ReplyOf(ds, c).Packet? && ReplyOf(ds, b).Transfer? == ReplyOf(ds, c).Transfer?
    ensures ReplyOf(ds, b).Stall? == ReplyOf(ds, c).Stall?
  {
  }

  lemma TokenKeeps(ds: Descriptors, m: Machine, t: Token, stage: bool)
    requires ds.Valid() && Ordered(ds, m, stage) && !t.SetupToken?
    ensures Ordered(ds, m.(bus := Receive(m.bus, t)), stage)
  {
    ReceiveSound(m, t);
    TokenEffect(m.bus, t);
    hide Sound, Unanswered, Serves, Control.Receive;
    if Unanswered(ds, m, stage) {
      TokenUnanswered(ds, m, t, stage);
    } else {
      TokenServes(ds, m, t, stage);
    }
  }

  /** What a token other than SETUP can change. */
  lemma TokenEffect(b: Bus, t: Token)
    requires !t.SetupToken?
    ensures var now := Receive(b, t);
            && now.dev == b.dev.(event := now.dev.event, received := now.dev.received,
                                 outFlags := now.dev.outFlags, inFlags := now.dev.inFlags)
            && now.log == b.log.(got := now.log.got, closed := now.log.closed)
            && (b.dev.stall || b.dev.inFlags.nack ==> now.dev.inFlags == b.dev.inFlags && now.log.got == b.log.got)
            && (!b.dev.stall && !b.dev.inFlags.nack ==>
                  || (now.dev.inFlags == b.dev.inFlags && now.log.got == b.log.got)
                  || (now.dev.inFlags == Flags(true, true) && now.log.got == b.log.got + [b.dev.packet]))
            && (b.dev.stall || b.dev.outFlags.nack ==>
                  now.dev.outFlags == b.dev.outFlags && now.log.closed == b.log.closed)
  {
  }

  lemma TokenUnanswered(ds: Descriptors, m: Machine, t: Token, stage: bool)
    requires ds.Valid() && Unanswered(ds, m, stage) && !t.SetupToken?
    ensures Unanswered(ds, m.(bus := Receive(m.bus, t)), stage)
  {
    TokenEffect(m.bus, t);
    SameReplyKind(ds, m.bus, Receive(m.bus, t));
    hide Control.Receive, ReplyTo;
  }

  lemma TokenServes(ds: Descriptors, m: Machine, t: Token, stage: bool)
    requires ds.Valid() && Serves(ds, m, stage) && !t.SetupToken?
    ensures Serves(ds, m.(bus := Receive(m.bus, t)), stage)
  {
    var b, r := m.bus, ReplyOf(ds, m.bus);
    TokenEffect(b, t);
    hide Control.Receive, ReplyTo, PacketOut, ChunkDue, ChunkOut, Settled, First;
    match m.pc
    case Configure => TokenPacketOut(b, t, r.packet);
    case OpenStatus => TokenPacketOut(b, t, r.packet);
    case FillChunk(_) => TokenChunkDue(b, t, r.data, stage);
    case ArmChunk(_) => TokenChunkDue(b, t, r.data, stage);
    case OpenChunk(_) => TokenChunkOut(b, t, r.data, stage);
    case Advance(_) => TokenChunkOut(b, t, r.data, stage);
    case Dispatch =>
    case Fill(_) =>
    case ArmPacket =>
    case _ => TokenSettled(b, t, r, stage);
  }

  lemma TokenPacketOut(b: Bus, t: Token, p: seq<byte>)
    requires PacketOut(b.dev, b.log, p) && !b.dev.stall && !t.SetupToken?
    ensures var now := Receive(b, t); PacketOut(now.dev, now.log, p)
  {
  }

  lemma TokenChunkDue(b: Bus, t: Token, data: seq<byte>, stage: bool)
    requires ChunkDue(b.dev, b.log, data, stage) && !t.SetupToken?
    ensures var now := Receive(b, t); ChunkDue(now.dev, now.log, data, stage)
  {
    hide After, First;
  }

  lemma TokenChunkOut(b: Bus, t: Token, data: seq<byte>, stage: bool)
    requires ChunkOut(b.dev, b.log, data, stage) && !b.dev.stall && !t.SetupToken?
    ensures var now := Receive(b, t); ChunkOut(now.dev, now.log, data, stage)
  {
    hide After, First;
  }

  lemma TokenSettled(b: Bus, t: Token, r: Reply, stage: bool)
    requires Settled(b.dev, b.log, r, stage) && !b.dev.stall && !t.SetupToken?
    ensures var now := Receive(b, t); Settled(now.dev, now.log, r, stage)
  {
    hide After, First;
  }

  lemma FirmwareKeeps(ds: Descriptors, m: Machine, vendor: report, stage: bool)
    requires ds.Valid() && Ordered(ds, m, stage)
    ensures Ordered(ds, Firmware(ds, m, vendor), stage)
  {
    FirmwareSound(ds, m, vendor);
    hide Ordered, Look, Answer, Hand, Switch, Sound, ReplyTo;
    if m.pc.Dispatch? {
      DispatchKeeps(ds, m, vendor, stage);
    } else if Answers(m.pc) {
      AnswerKeeps(ds, m, stage);
    } else if Hands(m.pc) {
      HandKeeps(ds, m, stage);
    } else {
      LookKeeps(ds, m, stage);
    }
  }

  lemma DispatchKeeps(ds: Descriptors, m: Machine, vendor: report, stage: bool)
    requires ds.Valid() && Ordered(ds, m, stage) && m.pc.Dispatch? && Sound(Firmware(ds, m, vendor))
    ensures Ordered(ds, Firmware(ds, m, vendor), stage)
  {
    ReplyKinds(ds, m.bus.dev.setup, m.bus.dev.configuration, vendor);
    ReplyKinds(ds, m.bus.dev.setup, m.bus.dev.configuration, m.bus.log.vendor);
    SameReplyKind(ds, m.bus, m.bus.(log := m.bus.log.(vendor := vendor)));
    hide Sound, ReplyTo, First, Answer, Hand, Look;
    if ReplyTo(ds, m.bus.dev.setup, m.bus.dev.configuration, vendor).Transfer? { HasAny(ds, m.bus.dev.setup); }
  }

  lemma AnswerKeeps(ds: Descriptors, m: Machine, stage: bool)
    requires ds.Valid() && Ordered(ds, m, stage) && Answers(m.pc) && Sound(Answer(m))
    ensures Ordered(ds, Answer(m), stage)
  {
    assert PcSound(m);
    hide Sound, Unanswered, Serves;
    if Unanswered(ds, m, stage) {
      AnswerUnanswered(ds, m, stage);
    } else {
      AnswerServes(ds, m, stage);
    }
  }

  lemma AnswerUnanswered(ds: Descriptors, m: Machine, stage: bool)
    requires ds.Valid() && Unanswered(ds, m, stage) && Answers(m.pc) && PcSound(m)
    ensures Unanswered(ds, Answer(m), stage)
  {
    hide ReplyTo;
  }

  lemma AnswerServes(ds: Descriptors, m: Machine, stage: bool)
    requires ds.Valid() && Serves(ds, m, stage) && Answers(m.pc) && PcSound(m)
    ensures Serves(ds, Answer(m), stage)
  {
    ReplyKinds(ds, m.bus.dev.setup, m.bus.dev.configuration, m.bus.log.vendor);
    hide ReplyTo;
  }

  lemma HandKeeps(ds: Descriptors, m: Machine, stage: bool)
    requires ds.Valid() && Ordered(ds, m, stage) && Hands(m.pc) && Sound(Hand(m))
    ensures Ordered(ds, Hand(m), stage)
  {
    assert PcSound(m);
    hide Sound, Unanswered, Serves, Control.Rest;
    if Unanswered(ds, m, stage) {
      HandUnanswered(ds, m, stage);
    } else {
      HandServes(ds, m, stage);
    }
  }

  lemma HandUnanswered(ds: Descriptors, m: Machine, stage: bool)
    requires ds.Valid() && Unanswered(ds, m, stage) && Hands(m.pc) && PcSound(m)
    ensures Unanswered(ds, Hand(m), stage)
  {
    hide ReplyTo, First, Control.Rest;
  }

  lemma HandServes(ds: Descriptors, m: Machine, stage: bool)
    requires ds.Valid() && Serves(ds, m, stage) && Hands(m.pc) && PcSound(m)
    ensures Serves(ds, Hand(m), stage)
  {
    hide ReplyTo, ReplyOf, Settled, ServesPacket, ServesChunk, Hand, PcSound, Fresh;
    HandSame(ds, m);
    ChunkHands(m, ReplyOf(ds, m.bus).data, stage);
  }

  lemma ChunkHands(m: Machine, data: seq<byte>, stage: bool)
    requires Hands(m.pc) && PcSound(m) && ServesChunk(m.bus.dev, m.bus.log, data, m.pc, stage)
    ensures var now := Hand(m);
            && now.bus.log == m.bus.log && now.bus.dev.setup == m.bus.dev.setup && now.bus.dev.stall == m.bus.dev.stall
            && if m.pc.Advance? then
                 now.pc == Done(m.pc.first) && !now.bus.dev.setupArrived &&
                 Settled(now.bus.dev, now.bus.log, Transfer(data), stage)
               else Hands(now.pc) && ServesChunk(now.bus.dev, now.bus.log, data, now.pc, stage)
  {
    var d, log := m.bus.dev, m.bus.log;
    hide First, Control.Rest, ChunkDue, ChunkOut, Settled;
    match m.pc
    case FillChunk(_) => FillHands(d, log, data, stage);
    case ArmChunk(_) => ArmHands(d, log, data, stage);
    case OpenChunk(_) => OpenHands(d, log, data, stage);
    case Advance(_) => AdvanceHands(d, log, data, stage);
  }

  lemma HandSame(ds: Descriptors, m: Machine)
    requires ds.Valid() && Hands(m.pc)
    ensures ReplyOf(ds, Hand(m).bus) == ReplyOf(ds, m.bus)
  {
    hide ReplyTo, First, Control.Rest;
  }

  lemma FillHands(d: Control.Dev, log: Log, data: seq<byte>, stage: bool)
    requires ChunkDue(d, log, data, stage)
    ensures ChunkDue(d.(packet := First(d.rest)), log, data, stage)
  {
  }

  lemma ArmHands(d: Control.Dev, log: Log, data: seq<byte>, stage: bool)
    requires ChunkDue(d, log, data, stage) && d.packet == First(d.rest)
    ensures ChunkOut(d.(inFlags := Flags(false, false)), log, data, stage)
  {
  }

  lemma OpenHands(d: Control.Dev, log: Log, data: seq<byte>, stage: bool)
    requires ChunkOut(d, log, data, stage) && d.rest == []
    ensures ChunkOut(d.OpenOut(), log, data, stage)
  {
    var k := |log.got|;
    AfterAll(data, k);
    if k > 0 { AfterAll(data, k - 1); }
    hide After, First;
  }

  lemma AdvanceHands(d: Control.Dev, log: Log, data: seq<byte>, stage: bool)
    requires ChunkOut(d, log, data, stage)
    ensures !d.setupArrived && Settled(d.(rest := Rest(d.rest)), log, Transfer(data), stage)
  {
    var k := |log.got|;
    AfterNext(data, k);
    if k > 0 { AfterNext(data, k - 1); }
    hide After, First, Control.Rest;
  }

  lemma AfterAll(data: seq<byte>, k: nat)
    ensures After(data, k) == [] <==> |data| <= 64 * k
  {
  }

  lemma LookKeeps(ds: Descriptors, m: Machine, stage: bool)
    requires ds.Valid() && Ordered(ds, m, stage) && !m.pc.Dispatch? && !Answers(m.pc) && !Hands(m.pc) && Sound(Look(m))
    ensures Ordered(ds, Look(m), stage)
  {
    ReplyKinds(ds, m.bus.dev.setup, m.bus.dev.configuration, m.bus.log.vendor);
    assert SetupSound(m);
    hide Sound, ReplyTo, First, After, Decode, Unanswered, Serves;
    if m.pc.CopySetup? {
      CopyKeeps(ds, m, stage);
    } else if Unanswered(ds, m, stage) {
      LookUnanswered(ds, m, stage);
    } else {
      LookServes(ds, m, stage);
    }
  }

  lemma CopyKeeps(ds: Descriptors, m: Machine, stage: bool)
    requires ds.Valid() && Ordered(ds, m, stage) && m.pc.CopySetup? && SetupSound(m)
    ensures Unanswered(ds, Look(m), stage) || Serves(ds, Look(m), stage)
  {
    hide Sound, ReplyTo, Decode;
  }

  lemma LookUnanswered(ds: Descriptors, m: Machine, stage: bool)
    requires ds.Valid() && Unanswered(ds, m, stage) && PcSound(m)
    requires !m.pc.Dispatch? && !Answers(m.pc) && !Hands(m.pc) && !m.pc.CopySetup?
    ensures Unanswered(ds, Look(m), stage)
  {
    hide ReplyTo, Decode;
  }

  lemma LookServes(ds: Descriptors, m: Machine, stage: bool)
    requires ds.Valid() && Serves(ds, m, stage) && PcSound(m)
    requires !m.pc.Dispatch? && !Answers(m.pc) && !Hands(m.pc) && !m.pc.CopySetup?
    ensures Unanswered(ds, Look(m), stage) || Serves(ds, Look(m), stage)
  {
    hide Unanswered, Serves, Look, ReplyTo;
    if m.pc.Complete? {
      CompleteServes(ds, m, stage);
    } else if m.pc.PollStart? {
      StartServes(ds, m, stage);
    } else {
      WaitServes(ds, m, stage);
    }
  }

  lemma CompleteServes(ds: Descriptors, m: Machine, stage: bool)
    requires ds.Valid() && Serves(ds, m, stage) && PcSound(m) && m.pc.Complete?
    ensures Serves(ds, Look(m), stage)
  {
    ReplyKinds(ds, m.bus.dev.setup, m.bus.dev.configuration, m.bus.log.vendor);
    hide ReplyTo, After, First, Front;
  }

  lemma StartServes(ds: Descriptors, m: Machine, stage: bool)
    requires ds.Valid() && Serves(ds, m, stage) && m.pc.PollStart?
    ensures Unanswered(ds, Look(m), stage) || Serves(ds, Look(m), stage)
  {
    hide ReplyTo, Settled;
  }

  lemma WaitServes(ds: Descriptors, m: Machine, stage: bool)
    requires ds.Valid() && Serves(ds, m, stage)
    requires m.pc.TestEvent? || m.pc.ClearEvent? || m.pc.ReadStatus? || m.pc.ClearSetup? || m.pc.TestIn?
    ensures Serves(ds, Look(m), stage)
  {
    hide ReplyTo, After, First;
  }

  // ----- every run without a harmful SETUP packet

  lemma ResetOrdered(ds: Descriptors, m: Machine, stage: bool)
    requires ds.Valid() && JustReset(m)
    ensures Ordered(ds, m, stage)
  {
    hide ReplyTo;
  }

  lemma HappenKeeps(ds: Descriptors, m: Machine, e: Event, stage: bool)
    requires ds.Valid() && Ordered(ds, m, stage)
    requires IsSetup(e) ==> m.resetting || (!Spoils(ds, m) && (stage ==> !Opens(m.pc)))
    ensures Ordered(ds, Happen(ds, m, e), stage)
  {
    hide Control.Receive, Firmware, Spoils, Sound, Unanswered, Serves;
    match e
    case Wire(t) =>
      if !m.resetting {
        if t.SetupToken? { SetupKeeps(ds, m, t.setup, stage); } else { TokenKeeps(ds, m, t, stage); }
      }
    case BusReset => FlaggedReset(ds, m, stage);
    case Device(vendor) => FirmwareKeeps(ds, m, vendor, stage);
  }

  lemma FlaggedReset(ds: Descriptors, m: Machine, stage: bool)
    requires ds.Valid() && Ordered(ds, m, stage)
    ensures Ordered(ds, m.(resetting := true), stage)
  {
    hide ReplyTo, PacketOut, ChunkDue, ChunkOut, Settled, Decode;
  }

  lemma {:induction false} RunKeeps(ds: Descriptors, m: Machine, es: seq<Event>, stage: bool)
    requires ds.Valid() && Ordered(ds, m, stage)
    requires if stage then AnyDescriptor(ds) && HarmlessTransfer(ds, m, es) else Harmless(ds, m, es)
    ensures Ordered(ds, Events(ds, m, es), stage)
    decreases |es|
  {
    hide Ordered, Happen, Spoils;
    if es != [] {
      var front, e := es[..|es| - 1], es[|es| - 1];
      assert es[..|es| - 1] == front;
      assert forall i | 0 <= i < |front| :: front[..i] == es[..i] && front[i] == es[i];
      RunKeeps(ds, m, front, stage);
      HappenKeeps(ds, Events(ds, m, front), e, stage);
    }
  }

  /** Every request is answered by the packets of its reply, in order, and by no others, in
      every run without a harmful SETUP packet. */
  lemma AnswersInOrder(ds: Descriptors, start: Machine, es: seq<Event>)
    requires ds.Valid() && JustReset(start) && Harmless(ds, start, es)
    ensures InOrder(ds, Events(ds, start, es).bus)
  {
    ResetOrdered(ds, start, false);
    hide Ordered, Events, InOrder;
    RunKeeps(ds, start, es, false);
    OrderedInOrder(ds, Events(ds, start, es));
  }

  lemma OrderedInOrder(ds: Descriptors, m: Machine)
    requires ds.Valid() && Ordered(ds, m, false)
    ensures InOrder(ds, m.bus)
  {
    hide ReplyTo, Sound, After, First, Decode;
  }

  lemma OrderedTransferred(ds: Descriptors, m: Machine)
    requires ds.Valid() && Ordered(ds, m, true)
    ensures Transferred(ds, m.bus)
  {
    ReplyKinds(ds, m.bus.dev.setup, m.bus.dev.configuration, m.bus.log.vendor);
    hide ReplyTo, Sound, After, First, Decode;
  }

  /** In every run without a SETUP packet that harms transfers, what the host collects for a
      descriptor request is the front of the descriptor, cut to the requested length, in full
      packets; when a short packet or the length tells it that it is done, it has all; and no
      status packet has been or would be accepted before. */
  lemma ChunkedTransfer(ds: Descriptors, start: Machine, es: seq<Event>, s: Setup)
    requires ds.Valid() && JustReset(start) && HarmlessTransfer(ds, start, es)
    requires Events(ds, start, es).bus.log.request == Requested(s)
    requires s.Is(USB_REQ_GetDescriptor) && ds.Has(s)
    ensures var b, data := Events(ds, start, es).bus, ds.Data(s);
            var got := b.log.got;
            && Transferred(ds, b)
            && Joined(got) == data[..Min(|data|, 64 * |got|)]
            && (forall i :: 0 <= i < |got| ==> |got[i]| == Min(64, |After(data, i)|))
            && (got != [] && (|got[|got| - 1]| < 64 || |Joined(got)| == s.wLength) ==> Joined(got) == data)
            && (b.log.closed || !(b.dev.stall || b.dev.outFlags.nack) ==> Joined(got) == data)
  {
    HasAny(ds, s);
    ResetOrdered(ds, start, true);
    hide Ordered, Events;
    RunKeeps(ds, start, es, true);
    OrderedTransferred(ds, Events(ds, start, es));
    ChunksJoin(ds.Data(s), Events(ds, start, es).bus.log.got);
  }

  // ----- and a harmful one does harm

  function Asked(m: Machine, p: setupPacket): Machine {
    m.(bus := Receive(m.bus, SetupToken(p)))
  }

  /** The same machine, had the last SETUP packet been p. */
  function Reasked(m: Machine, p: setupPacket): Machine {
    With(m, Channel.Overlay(m.bus.dev.received, p), Requested(Decode(p)))
  }

  function With(m: Machine, received: report, request: Request): Machine {
    m.(bus := Bus(m.bus.dev.(received := received), m.bus.log.(request := request)))
  }

  lemma AskedReasked(m: Machine, p: setupPacket, q: setupPacket)
    ensures Reasked(Asked(m, p), q) == Asked(m, q)
  {
    hide Decode;
    assert Channel.Overlay(Channel.Overlay(m.bus.dev.received, p), q) == Channel.Overlay(m.bus.dev.received, q);
  }

  /** Until it copies the packet, the firmware does not depend on it. */
  lemma FirmwareReasked(ds: Descriptors, m: Machine, vendor: report, q: setupPacket)
    requires ds.Valid() && !m.pc.CopySetup? && !m.resetting
    ensures Firmware(ds, Reasked(m, q), vendor) == Reasked(Firmware(ds, m, vendor), q)
  {
    FirmwareWith(ds, m, vendor, Channel.Overlay(m.bus.dev.received, q), Requested(Decode(q)));
    hide *;
    assert Reasked(Firmware(ds, m, vendor), q) ==
           With(Firmware(ds, m, vendor), Channel.Overlay(m.bus.dev.received, q), Requested(Decode(q))) by {
      FirmwareReceived(ds, m, vendor);
      ReaskedIs(m, q);
      ReaskedIs(Firmware(ds, m, vendor), q);
    }
    ReaskedIs(m, q);
  }

  lemma ReaskedIs(m: Machine, q: setupPacket)
    ensures Reasked(m, q) == With(m, Channel.Overlay(m.bus.dev.received, q), Requested(Decode(q)))
  {
  }

  lemma FirmwareReceived(ds: Descriptors, m: Machine, vendor: report)
    requires ds.Valid()
    ensures Firmware(ds, m, vendor).bus.dev.received == m.bus.dev.received
  {
    hide ReplyTo, Decode, First, Control.Rest;
  }

  lemma FirmwareWith(ds: Descriptors, m: Machine, vendor: report, received: report, request: Request)
    requires ds.Valid() && !m.pc.CopySetup? && !m.resetting
    ensures Firmware(ds, With(m, received, request), vendor) == With(Firmware(ds, m, vendor), received, request)
  {
    hide ReplyTo, Look, Answer, Hand, Switch;
    if m.pc.Dispatch? {
      SwitchWith(m.(bus := m.bus.(log := m.bus.log.(vendor := vendor))),
                 ReplyTo(ds, m.bus.dev.setup, m.bus.dev.configuration, vendor), received, request);
    } else if Answers(m.pc) {
      AnswerWith(m, received, request);
    } else if Hands(m.pc) {
      HandWith(m, received, request);
    } else {
      LookWith(m, received, request);
    }
  }

  lemma SwitchWith(m: Machine, r: Reply, received: report, request: Request)
    ensures Switch(With(m, received, request), r) == With(Switch(m, r), received, request)
  {
  }

  lemma AnswerWith(m: Machine, received: report, request: Request)
    requires Answers(m.pc)
    ensures Answer(With(m, received, request)) == With(Answer(m), received, request)
  {
  }

  lemma HandWith(m: Machine, received: report, request: Request)
    requires Hands(m.pc)
    ensures Hand(With(m, received, request)) == With(Hand(m), received, request)
  {
    hide First, Control.Rest;
  }

  lemma LookWith(m: Machine, received: report, request: Request)
    requires !m.pc.Dispatch? && !Answers(m.pc) && !Hands(m.pc) && !m.pc.CopySetup? && !m.resetting
    ensures Look(With(m, received, request)) == With(Look(m), received, request)
  {
    match m.pc
    case ClearSetup =>
    case ClearEvent =>
    case Complete =>
    case _ =>
  }

  /** The number of accesses until the IN endpoint is armed. */
  function UntilArmed(pc: Pc): nat {
    match pc
    case ArmPacket => 1
    case ArmChunk(_) => 1
    case Fill(_) => 2
    case FillChunk(_) => 2
    case Dispatch => 3
    case Complete => 3
    case TestIn => 4
    case ReadStatus => 5
    case ClearEvent => 6
    case TestEvent => 7
    case PollStart => 8
    case Advance(first) => if first then 5 else 9
    case OpenChunk(first) => if first then 6 else 10
    case _ => 11
  }

  /** A request has no answer, and the firmware is about to arm the endpoint for another one. */
  ghost predicate Misled(ds: Descriptors, m: Machine)
    requires ds.Valid()
  {
    && Sound(m) && !m.resetting && m.bus.log.got == [] && !m.bus.dev.stall && m.bus.dev.inFlags.nack
    && Arms(ds, m, m.bus.dev.setupArrived)
  }

  ghost predicate ArmedFor(m: Machine, request: Request) {
    && Sound(m) && !m.resetting && m.bus.log.got == [] && m.bus.log.request == request
    && !m.bus.dev.stall && !m.bus.dev.inFlags.nack
  }

  lemma MisledStep(ds: Descriptors, m: Machine, vendor: report)
    requires ds.Valid() && Misled(ds, m)
    ensures var now := Firmware(ds, m, vendor);
            && now.bus.log.request == m.bus.log.request
            && (ArmedFor(now, m.bus.log.request) || (Misled(ds, now) && UntilArmed(now.pc) < UntilArmed(m.pc)))
  {
    FirmwareSound(ds, m, vendor);
    assert PcSound(m) && EventSound(m);
    hide Look, Answer, Hand, Switch, Sound, ReplyTo, PcSound, EventSound;
    if m.pc.Dispatch? {
      MisledDispatch(ds, m, vendor);
    } else if Answers(m.pc) || Hands(m.pc) {
      MisledAnswer(ds, m, vendor);
    } else {
      MisledLook(ds, m, vendor);
    }
  }

  lemma MisledDispatch(ds: Descriptors, m: Machine, vendor: report)
    requires ds.Valid() && Misled(ds, m) && m.pc.Dispatch? && Sound(Firmware(ds, m, vendor))
    ensures var now := Firmware(ds, m, vendor);
            && now.bus.log.request == m.bus.log.request
            && Misled(ds, now) && UntilArmed(now.pc) < UntilArmed(m.pc)
  {
    SameReplyKind(ds, m.bus, m.bus.(log := m.bus.log.(vendor := vendor)));
    hide Sound, ReplyTo, Look, Answer, Hand;
  }

  lemma MisledAnswer(ds: Descriptors, m: Machine, vendor: report)
    requires ds.Valid() && Misled(ds, m) && (Answers(m.pc) || Hands(m.pc)) && PcSound(m)
             && Sound(Firmware(ds, m, vendor))
    ensures var now := Firmware(ds, m, vendor);
            && now.bus.log.request == m.bus.log.request
            && (ArmedFor(now, m.bus.log.request) || (Misled(ds, now) && UntilArmed(now.pc) < UntilArmed(m.pc)))
  {
    hide Sound, ReplyTo, Look, Switch, First, Control.Rest;
  }

  lemma MisledLook(ds: Descriptors, m: Machine, vendor: report)
    requires !m.pc.Dispatch? && !Answers(m.pc) && !Hands(m.pc)
    requires ds.Valid() && Misled(ds, m) && EventSound(m) && Sound(Firmware(ds, m, vendor))
    ensures var now := Firmware(ds, m, vendor);
            && now.bus.log.request == m.bus.log.request
            && Misled(ds, now) && UntilArmed(now.pc) < UntilArmed(m.pc)
  {
    hide Sound, ReplyTo, Answer, Hand, Switch, Decode;
  }

  lemma {:induction false} ArmsSoon(ds: Descriptors, m: Machine, vendor: report) returns (k: nat)
    requires ds.Valid() && Misled(ds, m)
    ensures ArmedFor(Steps(ds, m, vendor, k), m.bus.log.request)
    ensures forall q :: Steps(ds, Reasked(m, q), vendor, k) == Reasked(Steps(ds, m, vendor, k), q)
    decreases UntilArmed(m.pc)
  {
    var now := Firmware(ds, m, vendor);
    MisledStep(ds, m, vendor);
    assert !m.pc.CopySetup? && !m.resetting;
    hide Misled, ArmedFor, Firmware, Reasked, Steps, UntilArmed;
    if ArmedFor(now, m.bus.log.request) {
      k := 0;
    } else {
      k := ArmsSoon(ds, now, vendor);
    }
    forall q ensures Steps(ds, Reasked(m, q), vendor, k + 1) == Reasked(Steps(ds, m, vendor, k + 1), q) {
      FirmwareReasked(ds, m, vendor, q);
      StepsFirst(ds, Reasked(m, q), vendor, k + 1);
      StepsFirst(ds, m, vendor, k + 1);
      StepsFirst(ds, Reasked(now, q), vendor, 0);
      StepsFirst(ds, now, vendor, 0);
    }
    StepsFirst(ds, m, vendor, k + 1);
    StepsFirst(ds, now, vendor, 0);
    k := k + 1;
  }

  /** The packet the host is given is the same, whatever it has asked for. */
  lemma MisledGets(ds: Descriptors, m: Machine, p: setupPacket, vendor: report) returns (fs: seq<Event>, x: seq<byte>)
    requires ds.Valid() && Sound(m) && !m.resetting && Arms(ds, m, true)
    ensures Calm(fs)
    ensures forall q: setupPacket :: var b := Events(ds, Asked(m, q), fs).bus;
              b.log.got == [x] && b.log.request == Requested(Decode(q))
  {
    var m1 := Asked(m, p);
    AskedMisled(ds, m, p);
    var k := ArmsSoon(ds, m1, vendor);
    var armed := Steps(ds, m1, vendor, k);
    x := armed.bus.dev.packet;
    fs := Devices(vendor, k) + [Wire(InToken)];
    hide Misled, Arms, Sound, Asked, Reasked, Steps, Firmware, Decode, Events;
    forall q: setupPacket ensures var b := Events(ds, Asked(m, q), fs).bus;
                                  b.log.got == [x] && b.log.request == Requested(Decode(q))
    {
      AskedReasked(m, p, q);
      StepsAreEvents(ds, Asked(m, q), vendor, k);
      Extend(ds, Asked(m, q), Devices(vendor, k), Wire(InToken));
      ArmedGives(armed, m1.bus.log.request, q);
    }
  }

  lemma AskedMisled(ds: Descriptors, m: Machine, p: setupPacket)
    requires ds.Valid() && Sound(m) && !m.resetting && Arms(ds, m, true)
    ensures Misled(ds, Asked(m, p))
  {
    ReceiveSound(m, SetupToken(p));
    SetupArrives(m.bus, p);
    SameReplyKind(ds, m.bus, Receive(m.bus, SetupToken(p)));
    hide Sound, ReplyTo, Control.Receive, Decode;
  }

  lemma ArmedGives(m: Machine, request: Request, q: setupPacket)
    requires ArmedFor(m, request)
    ensures var b := Receive(Reasked(m, q).bus, InToken);
            b.log.got == [m.bus.dev.packet] && b.log.request == Requested(Decode(q))
    ensures !Reasked(m, q).resetting
  {
    hide Decode, Channel.Overlay, Sound;
  }

  /** A SETUP packet of vendor type, which the firmware does not answer. */
  const VENDOR_SETUP: setupPacket := [0x40, 0, 0, 0, 0, 0, 0, 0]

  /** GET_DESCRIPTOR for the first n bytes of a descriptor. */
  function AskFor(w: Wanted, n: byte): setupPacket {
    [0x80, USB_REQ_GetDescriptor, w.index, w.kind, w.interface, 0, n, 0]
  }

  lemma AskForData(ds: Descriptors, w: Wanted, n: byte)
    requires ds.Valid() && w in ds.places && ds.places[w].size != 0 && ds.places[w].at != 0 && n <= 1
    ensures var s := Decode(AskFor(w, n));
            s.Is(USB_REQ_GetDescriptor) && ds.Has(s) && |ds.Data(s)| == n as int
  {
    var s := Decode(AskFor(w, n));
    assert s.wValue == w.index as int + 256 * w.kind as int && s.wIndex == w.interface as int && s.wLength == n as int;
    assert Wanted(s.wValue / 256 % 256, s.wValue % 256, s.wIndex % 256) == w;
  }

  /** Some SETUP packet at m, and then none, can spoil the order of packets. */
  ghost predicate CanSpoil(ds: Descriptors, m: Machine)
    requires ds.Valid()
  {
    exists p: setupPacket, fs: seq<Event> :: Calm(fs) && !InOrder(ds, Events(ds, Asked(m, p), fs).bus)
  }

  ghost predicate CanSpoilTransfer(ds: Descriptors, m: Machine)
    requires ds.Valid()
  {
    exists p: setupPacket, fs: seq<Event> :: Calm(fs) && !Transferred(ds, Events(ds, Asked(m, p), fs).bus)
  }

  lemma VendorSpoils(ds: Descriptors, m: Machine, vendor: report)
    requires ds.Valid() && Sound(m) && !m.resetting && Arms(ds, m, true)
    ensures CanSpoil(ds, m)
  {
    hide Sound, Arms, Asked, Events;
    var fs, x := MisledGets(ds, m, VENDOR_SETUP, vendor);
    var b := Events(ds, Asked(m, VENDOR_SETUP), fs).bus;
    assert Decode(VENDOR_SETUP).Type() == 2;
    assert ReplyTo(ds, Decode(VENDOR_SETUP), b.dev.configuration, b.log.vendor) == Silent;
    assert !InOrder(ds, b);
  }

  /** A request that is copied before its flag is cleared is served twice: here the host is
      given the one byte that it has asked for a second time. */
  lemma CopiedTwice(ds: Descriptors, m: Machine, w: Wanted, vendor: report) returns (fs: seq<Event>)
    requires ds.Valid() && Sound(m) && !m.resetting && m.pc.CopySetup?
    requires w in ds.places && ds.places[w].size != 0 && ds.places[w].at != 0
    ensures Calm(fs)
    ensures var b, c := Events(ds, Asked(m, AskFor(w, 1)), fs).bus, Chunk(ds.Data(Decode(AskFor(w, 1))), 0);
            b.log.request == Requested(Decode(AskFor(w, 1))) && b.log.got == [c, c] && c != []
  {
    var p := AskFor(w, 1);
    var m1 := Asked(m, p);
    AskForData(ds, w, 1);
    SetupArrives(m.bus, p);
    hide Sound, Events, AskFor, Decode, Control.Receive, ReplyTo, Descriptors.Data, Descriptors.Has;
    var data := ds.Data(Decode(p));
    assert Copying(ds, m1, p);
    hide Asked, Chunk, Copying;
    var m2 := ServedOnce(ds, m1, p, vendor);
    CollectsChunk(m2.bus, data);
    NoEvents(ds, m1);
    fs := AddSteps(ds, m1, [], m1, vendor, 6);
    fs := AddIn(ds, m1, fs, m2);
    var m3 := m2.(bus := Receive(m2.bus, InToken));
    fs := ServedTwice(ds, m1, fs, m3, p, vendor);
    ChunkThere(ds, p);
  }

  lemma ChunkThere(ds: Descriptors, p: setupPacket)
    requires ds.Valid() && ds.Has(Decode(p)) && |ds.Data(Decode(p))| == 1
    ensures Chunk(ds.Data(Decode(p)), 0) != []
  {
    hide Decode, Descriptors.Data, Descriptors.Has;
  }

  lemma ServedTwice(ds: Descriptors, start: Machine, es: seq<Event>, m: Machine, p: setupPacket, vendor: report)
    returns (fs: seq<Event>)
    requires ds.Valid() && Calm(es) && m == Events(ds, start, es)
    requires m.pc == PollStart && !m.resetting && m.bus.dev.event && m.bus.dev.setupArrived && !m.bus.dev.stall
    requires Decode(m.bus.dev.received) == Decode(p) && m.bus.log.request == Requested(Decode(p))
    requires Decode(p).Is(USB_REQ_GetDescriptor) && ds.Has(Decode(p)) && ds.Data(Decode(p)) != []
    requires m.bus.log.got == [Chunk(ds.Data(Decode(p)), 0)]
    ensures Calm(fs)
    ensures var b, c := Events(ds, start, fs).bus, Chunk(ds.Data(Decode(p)), 0);
            b.log.request == Requested(Decode(p)) && b.log.got == [c, c]
  {
    hide Events, Decode, Control.Receive, Descriptors.Data, Descriptors.Has, Chunk;
    var m4 := CopiesAgain(ds, m, vendor);
    assert Copying(ds, m4, p);
    hide Copying;
    var m5 := ServedChunk(ds, m4, p, vendor);
    CollectsChunk(m5.bus, ds.Data(Decode(p)));
    fs := AddSteps(ds, start, es, m, vendor, 5);
    fs := AddSteps(ds, start, fs, m4, vendor, 4);
    fs := AddIn(ds, start, fs, m5);
  }

  lemma AddSteps(ds: Descriptors, start: Machine, es: seq<Event>, m: Machine, vendor: report, k: nat)
    returns (fs: seq<Event>)
    requires ds.Valid() && m == Events(ds, start, es)
    ensures (Calm(es) ==> Calm(fs)) && Events(ds, start, fs) == Steps(ds, m, vendor, k)
  {
    hide Events, Steps;
    fs := es + Devices(vendor, k);
    Append(ds, start, es, Devices(vendor, k));
    StepsAreEvents(ds, m, vendor, k);
  }

  lemma AddIn(ds: Descriptors, start: Machine, es: seq<Event>, m: Machine) returns (fs: seq<Event>)
    requires ds.Valid() && m == Events(ds, start, es) && !m.resetting
    ensures (Calm(es) ==> Calm(fs)) && Events(ds, start, fs) == m.(bus := Receive(m.bus, InToken))
  {
    hide Events, Control.Receive;
    fs := es + [Wire(InToken)];
    Extend(ds, start, es, Wire(InToken));
  }

  /** The SETUP packet p is about to be copied for a request that a chunk answers. */
  ghost predicate Copying(ds: Descriptors, m: Machine, p: setupPacket)
    requires ds.Valid()
  {
    && m.pc.CopySetup? && !m.resetting && !m.bus.dev.stall && Decode(m.bus.dev.received) == Decode(p)
    && m.bus.log.request == Requested(Decode(p))
    && Decode(p).Is(USB_REQ_GetDescriptor) && ds.Has(Decode(p)) && ds.Data(Decode(p)) != []
  }

  lemma ServedChunk(ds: Descriptors, m: Machine, p: setupPacket, vendor: report) returns (now: Machine)
    requires ds.Valid() && Copying(ds, m, p)
    ensures now == Steps(ds, m, vendor, 4) && now.pc == Advance(true) && now.resetting == m.resetting
    ensures var d, data := now.bus.dev, ds.Data(Decode(p));
            && d.rest == data && d.packet == Chunk(data, 0) && d.inFlags == Flags(false, false) && !d.stall
            && d == m.bus.dev.(setup := Decode(p), rest := data, packet := Chunk(data, 0),
                               inFlags := Flags(false, false))
    ensures now.bus.log == m.bus.log.(vendor := vendor)
  {
    var data := ds.Data(Decode(p));
    var m2 := StartsTransfer(ds, m, p, vendor);
    assert data != [] && First(data) == Chunk(data, 0);
    now := ArmsFirst(m2, data);
    hide Decode, First, Chunk, Descriptors.Data, Descriptors.Has, Copying, Firmware, Steps;
    StepsAppend(ds, m, vendor, 2, 2);
    ArmsFirstSteps(ds, m2, data, vendor);
  }

  /** The two accesses that put the first chunk into the endpoint. */
  function ArmsFirst(m: Machine, data: seq<byte>): Machine {
    m.At(m.bus.dev.(packet := First(data), inFlags := Flags(false, false)), Advance(true))
  }

  lemma ArmsFirstSteps(ds: Descriptors, m: Machine, data: seq<byte>, vendor: report)
    requires ds.Valid() && m.pc == FillChunk(true) && m.bus.dev.rest == data != []
    ensures Steps(ds, m, vendor, 2) == ArmsFirst(m, data)
  {
    hide First;
    StepsFirst(ds, m, vendor, 2);
    StepsFirst(ds, Firmware(ds, m, vendor), vendor, 1);
    StepsFirst(ds, Firmware(ds, Firmware(ds, m, vendor), vendor), vendor, 0);
    hide Steps;
  }

  lemma StartsTransfer(ds: Descriptors, m: Machine, p: setupPacket, vendor: report) returns (now: Machine)
    requires ds.Valid() && Copying(ds, m, p)
    ensures now == Steps(ds, m, vendor, 2)
    ensures now == Machine(Bus(m.bus.dev.(setup := Decode(p), rest := ds.Data(Decode(p))),
                               m.bus.log.(vendor := vendor)),
                           m.resetting, FillChunk(true))
  {
    ReplyKinds(ds, Decode(p), m.bus.dev.configuration, vendor);
    hide Decode, ReplyTo, Descriptors.Data, Descriptors.Has, Answer, Hand;
    var m1 := Firmware(ds, m, vendor);
    now := Firmware(ds, m1, vendor);
    assert m1.pc == Dispatch;
    hide Firmware;
    StepsFirst(ds, m, vendor, 2);
    StepsFirst(ds, m1, vendor, 1);
    StepsFirst(ds, now, vendor, 0);
  }

  lemma ServedOnce(ds: Descriptors, m: Machine, p: setupPacket, vendor: report) returns (now: Machine)
    requires ds.Valid() && Copying(ds, m, p)
    ensures now == Steps(ds, m, vendor, 6) && now.pc == PollStart && now.resetting == m.resetting
    ensures var d, data := now.bus.dev, ds.Data(Decode(p));
            && d == m.bus.dev.(setup := Decode(p), rest := Rest(data), packet := Chunk(data, 0),
                               inFlags := Flags(false, false))
    ensures now.bus.log == m.bus.log.(vendor := vendor)
  {
    var m4 := ServedChunk(ds, m, p, vendor);
    hide Decode, ReplyTo, First, Chunk, Descriptors.Data, Descriptors.Has, Copying, Control.Rest;
    var m5 := Firmware(ds, m4, vendor);
    now := Firmware(ds, m5, vendor);
    assert m5.pc == TestIn;
    hide Firmware;
    StepsAppend(ds, m, vendor, 4, 2);
    StepsFirst(ds, m4, vendor, 2);
    StepsFirst(ds, m5, vendor, 1);
    StepsFirst(ds, now, vendor, 0);
  }

  lemma {:induction false} StepsAppend(ds: Descriptors, m: Machine, vendor: report, j: nat, k: nat)
    requires ds.Valid()
    ensures Steps(ds, m, vendor, j + k) == Steps(ds, Steps(ds, m, vendor, j), vendor, k)
    decreases j
  {
    hide *;
    StepsFirst(ds, m, vendor, j + k);
    StepsFirst(ds, m, vendor, j);
    if j > 0 { StepsAppend(ds, Firmware(ds, m, vendor), vendor, j - 1, k); }
  }

  lemma CollectsChunk(b: Bus, data: seq<byte>)
    requires b.dev.packet == Chunk(data, 0) && b.dev.inFlags == Flags(false, false) && !b.dev.stall
    ensures var now := Receive(b, InToken);
            && now.dev == b.dev.(inFlags := Flags(true, true), event := true)
            && now.log == b.log.(got := b.log.got + [Chunk(data, 0)])
  {
  }

  /** The next poll finds the flag of a SETUP packet. */
  lemma CopiesAgain(ds: Descriptors, m: Machine, vendor: report) returns (now: Machine)
    requires ds.Valid() && m.pc == PollStart && !m.resetting && m.bus.dev.event && m.bus.dev.setupArrived
    ensures now == Steps(ds, m, vendor, 5) && now.pc.CopySetup? && now.resetting == m.resetting
    ensures now.bus.log == m.bus.log
    ensures now.bus.dev == m.bus.dev.(event := false, setupArrived := false,
                                      outFlags := m.bus.dev.outFlags.(complete := false))
  {
    var m1 := Firmware(ds, m, vendor);
    var m2 := Firmware(ds, m1, vendor);
    var m3 := Firmware(ds, m2, vendor);
    var m4 := Firmware(ds, m3, vendor);
    now := Firmware(ds, m4, vendor);
    assert m1.pc == TestEvent && m2.pc == ClearEvent && m3.pc == ReadStatus && m4.pc == ClearSetup;
    hide Firmware;
    StepsFirst(ds, m, vendor, 5);
    StepsFirst(ds, m1, vendor, 4);
    StepsFirst(ds, m2, vendor, 3);
    StepsFirst(ds, m3, vendor, 2);
    StepsFirst(ds, m4, vendor, 1);
    StepsFirst(ds, now, vendor, 0);
  }

  lemma CopySpoils(ds: Descriptors, m: Machine, vendor: report)
    requires ds.Valid() && Sound(m) && !m.resetting && m.pc.CopySetup? && AnyDescriptor(ds)
    ensures CanSpoil(ds, m) && CanSpoilTransfer(ds, m)
  {
    var w :| w in ds.places && ds.places[w].size != 0 && ds.places[w].at != 0;
    var p := AskFor(w, 1);
    AskForData(ds, w, 1);
    hide Sound, Asked, Events, AskFor, Decode, Descriptors.Data, Descriptors.Has;
    var fs := CopiedTwice(ds, m, w, vendor);
    var b := Events(ds, Asked(m, p), fs).bus;
    var data := ds.Data(Decode(p));
    ReplyKinds(ds, Decode(p), b.dev.configuration, b.log.vendor);
    hide ReplyTo;
    NothingBehind(data, b.log.got);
    assert !InOrder(ds, b) && !Transferred(ds, b);
  }

  lemma NothingBehind(data: seq<byte>, got: seq<seq<byte>>)
    requires |data| <= 1 && |got| == 2 && got[1] != []
    ensures !Chunks(data, got)
  {
    assert Chunk(data, 1) == [];
  }

  /** usb_ep0_out for an older request opens the status stage of a request that nothing has
      been sent for. */
  lemma OpenSpoils(ds: Descriptors, m: Machine, vendor: report)
    requires ds.Valid() && Sound(m) && !m.resetting && Opens(m.pc) && AnyDescriptor(ds)
    ensures CanSpoilTransfer(ds, m)
  {
    var w :| w in ds.places && ds.places[w].size != 0 && ds.places[w].at != 0;
    var p := AskFor(w, 1);
    AskForData(ds, w, 1);
    SetupArrives(m.bus, p);
    var m1 := Asked(m, p);
    hide Sound, Events, AskFor, Decode, Control.Receive, Descriptors.Data, Descriptors.Has;
    var k := if m.pc.Configure? then 2 else 1;
    var now := Steps(ds, m1, vendor, k);
    StepsFirst(ds, m1, vendor, k);
    StepsFirst(ds, Firmware(ds, m1, vendor), vendor, k - 1);
    if k == 2 { StepsFirst(ds, Firmware(ds, Firmware(ds, m1, vendor), vendor), vendor, 0); }
    assert now.bus.log == m1.bus.log && !now.bus.dev.outFlags.nack && !now.bus.dev.stall;
    hide Steps, Firmware, Asked;
    StepsAreEvents(ds, m1, vendor, k);
    assert !Transferred(ds, Events(ds, Asked(m, p), Devices(vendor, k)).bus);
  }

  /** Whichever packet the host is given, there is a length for which it is wrong. */
  lemma ArmSpoils(ds: Descriptors, m: Machine, vendor: report)
    requires ds.Valid() && Sound(m) && !m.resetting && Arms(ds, m, true) && AnyDescriptor(ds)
    ensures CanSpoilTransfer(ds, m)
  {
    var w :| w in ds.places && ds.places[w].size != 0 && ds.places[w].at != 0;
    AskForData(ds, w, 0);
    AskForData(ds, w, 1);
    var data := ds.Data(Decode(AskFor(w, 1)));
    assert Chunk(ds.Data(Decode(AskFor(w, 0))), 0) == [] && Chunk(data, 0) == data;
    hide Sound, Arms, Asked, Events, AskFor, Decode, Descriptors.Data, Descriptors.Has, Chunk;
    var fs, x := MisledGets(ds, m, AskFor(w, 0), vendor);
    var p := AskFor(w, if x == [] then 1 else 0);
    var b := Events(ds, Asked(m, p), fs).bus;
    assert b.log.got[0] == x;
    assert !Transferred(ds, b);
  }

  // ----- the exact conditions

  lemma {:induction false} CalmHarmless(ds: Descriptors, m: Machine, fs: seq<Event>)
    requires ds.Valid() && Calm(fs)
    ensures Harmless(ds, m, fs) && HarmlessTransfer(ds, m, fs)
  {
  }

  /** After any run without a harmful SETUP packet, one that comes now can be given a packet
      that is not meant for it if and only if it is harmful by `Spoils`. */
  lemma OrderExact(ds: Descriptors, start: Machine, es: seq<Event>)
    requires ds.Valid() && JustReset(start) && Harmless(ds, start, es) && !Events(ds, start, es).resetting
    ensures var m := Events(ds, start, es);
            CanSpoil(ds, m) <==> Spoils(ds, m)
  {
    var m := Events(ds, start, es);
    EventsSound(ds, start, es);
    hide Sound, Events, Arms, Asked, InOrder;
    var vendor: report :| true;
    if Spoils(ds, m) {
      if m.pc.CopySetup? { CopySpoils(ds, m, vendor); } else { VendorSpoils(ds, m, vendor); }
    }
    if !Spoils(ds, m) && CanSpoil(ds, m) {
      var p: setupPacket, fs: seq<Event> :| Calm(fs) && !InOrder(ds, Events(ds, Asked(m, p), fs).bus);
      StaysOrdered(ds, m, p, fs, false);
      OrderedInOrder(ds, Events(ds, Asked(m, p), fs));
    }
  }

  lemma StaysOrdered(ds: Descriptors, m: Machine, p: setupPacket, fs: seq<Event>, stage: bool)
    requires ds.Valid() && Sound(m) && Calm(fs)
    requires !Spoils(ds, m) && (stage ==> AnyDescriptor(ds) && !Opens(m.pc))
    ensures Ordered(ds, Events(ds, Asked(m, p), fs), stage)
  {
    hide Sound, Ordered, Events, Spoils, Control.Receive;
    SetupKeeps(ds, m, p, stage);
    CalmHarmless(ds, Asked(m, p), fs);
    RunKeeps(ds, Asked(m, p), fs, stage);
  }

  /** The same for descriptor transfers with their status stage. */
  lemma TransferExact(ds: Descriptors, start: Machine, es: seq<Event>)
    requires ds.Valid() && JustReset(start) && HarmlessTransfer(ds, start, es) && !Events(ds, start, es).resetting
    ensures var m := Events(ds, start, es);
            CanSpoilTransfer(ds, m) <==> SpoilsTransfer(ds, m)
  {
    var m := Events(ds, start, es);
    EventsSound(ds, start, es);
    hide Sound, Events, Arms, Asked, Transferred;
    var vendor: report :| true;
    if SpoilsTransfer(ds, m) {
      if m.pc.CopySetup? {
        CopySpoils(ds, m, vendor);
      } else if Opens(m.pc) {
        OpenSpoils(ds, m, vendor);
      } else {
        ArmSpoils(ds, m, vendor);
      }
    } else if CanSpoilTransfer(ds, m) {
      var p: setupPacket, fs: seq<Event> :| Calm(fs) && !Transferred(ds, Events(ds, Asked(m, p), fs).bus);
      if AnyDescriptor(ds) {
        StaysOrdered(ds, m, p, fs, true);
        OrderedTransferred(ds, Events(ds, Asked(m, p), fs));
      } else {
        NoneTransferred(ds, Events(ds, Asked(m, p), fs).bus);
      }
    }
  }

  lemma NoneTransferred(ds: Descriptors, b: Bus)
    requires ds.Valid() && !AnyDescriptor(ds)
    ensures Transferred(ds, b)
  {
    if b.log.request.Requested? && ds.Has(b.log.request.setup) { HasAny(ds, b.log.request.setup); }
  }

  // ----- a concrete run

  /** The host has collected the first chunk of a descriptor and asks for a new address. Its
      SETUP packet arrives when the poll has read the OUT status, but not yet the IN status, so
      the firmware goes on with the old request and arms the second chunk. The host is given
      that chunk for the status packet of SET_ADDRESS. */
  lemma LateSetup(ds: Descriptors, start: Machine, p: setupPacket, q: setupPacket, vendor: report)
    returns (es: seq<Event>)
    requires ds.Valid() && JustReset(start) && !start.resetting
    requires var s := Decode(p); s.Is(USB_REQ_GetDescriptor) && ds.Has(s) && |ds.Data(s)| > 64
    requires Decode(q).Is(USB_REQ_SetAddress)
    ensures var b, chunk := Events(ds, start, es).bus, Chunk(ds.Data(Decode(p)), 1);
            b.log.request == Requested(Decode(q)) && b.log.got == [chunk] && chunk != []
  {
    var data := ds.Data(Decode(p));
    assert After(data, 1) == Rest(data) && Chunk(data, 1) == First(Rest(data)) && Rest(data) != [];
    assert First(Rest(data)) != [];
    var m := start;
    hide Events, Decode, Control.Receive, Descriptors.Data, Descriptors.Has, Chunk, After, First, Control.Rest;
    es, m := SecondChunkDue(ds, start, p, vendor);
    SetupArrives(m.bus, q);
    es := AddSetup(ds, start, es, m, q);
    m := Asked(m, q);
    es, m := NextChunk(ds, start, es, m, vendor);
    es := AddIn(ds, start, es, m);
    CollectsPacket(m.bus);
  }

  lemma CollectsPacket(b: Bus)
    requires b.dev.inFlags == Flags(false, false) && !b.dev.stall
    ensures Receive(b, InToken).log == b.log.(got := b.log.got + [b.dev.packet])
  {
  }

  lemma AddSetup(ds: Descriptors, start: Machine, es: seq<Event>, m: Machine, p: setupPacket) returns (fs: seq<Event>)
    requires ds.Valid() && m == Events(ds, start, es) && !m.resetting
    ensures Events(ds, start, fs) == Asked(m, p)
  {
    hide Events, Control.Receive;
    fs := es + [Wire(SetupToken(p))];
    Extend(ds, start, es, Wire(SetupToken(p)));
  }

  /** The poll after the first chunk, about to read the IN status. */
  lemma SecondChunkDue(ds: Descriptors, start: Machine, p: setupPacket, vendor: report)
    returns (es: seq<Event>, m: Machine)
    requires ds.Valid() && JustReset(start) && !start.resetting
    requires var s := Decode(p); s.Is(USB_REQ_GetDescriptor) && ds.Has(s) && ds.Data(s) != []
    ensures m == Events(ds, start, es) && m.pc == TestIn && !m.resetting
    ensures var d := m.bus.dev;
            d.inFlags.complete && d.setup.Is(USB_REQ_GetDescriptor) && d.rest == Rest(ds.Data(Decode(p)))
  {
    NoEvents(ds, start);
    SetupArrives(start.bus, p);
    m := Asked(start, p);
    hide Events, Decode, Control.Receive, Descriptors.Data, Descriptors.Has, Control.Rest;
    es := AddSetup(ds, start, [], start, p);
    es := AddSteps(ds, start, es, m, vendor, 5);
    m := CopiesAgain(ds, m, vendor);
    assert Copying(ds, m, p);
    hide Copying;
    es := AddSteps(ds, start, es, m, vendor, 6);
    m := ServedOnce(ds, m, p, vendor);
    CollectsChunk(m.bus, ds.Data(Decode(p)));
    es := AddIn(ds, start, es, m);
    m := m.(bus := Receive(m.bus, InToken));
    es := AddSteps(ds, start, es, m, vendor, 4);
    m := FindsChunk(ds, m, vendor);
  }

  lemma FindsChunk(ds: Descriptors, m: Machine, vendor: report) returns (now: Machine)
    requires ds.Valid() && m.pc == PollStart && !m.resetting && m.bus.dev.event && !m.bus.dev.setupArrived
    ensures now == Steps(ds, m, vendor, 4) == m.At(m.bus.dev.(event := false), TestIn)
  {
    var m1 := Firmware(ds, m, vendor);
    var m2 := Firmware(ds, m1, vendor);
    var m3 := Firmware(ds, m2, vendor);
    now := Firmware(ds, m3, vendor);
    assert m1.pc == TestEvent && m2.pc == ClearEvent && m3.pc == ReadStatus;
    hide Firmware;
    StepsFirst(ds, m, vendor, 4);
    StepsFirst(ds, m1, vendor, 3);
    StepsFirst(ds, m2, vendor, 2);
    StepsFirst(ds, m3, vendor, 1);
    StepsFirst(ds, now, vendor, 0);
  }

  /** The firmware finds the chunk collected and arms the next one. */
  lemma NextChunk(ds: Descriptors, start: Machine, es: seq<Event>, m: Machine, vendor: report)
    returns (fs: seq<Event>, now: Machine)
    requires ds.Valid() && m == Events(ds, start, es) && m.pc == TestIn
    requires m.bus.dev.inFlags.complete && m.bus.dev.setup.Is(USB_REQ_GetDescriptor)
    ensures now == Events(ds, start, fs) && now.resetting == m.resetting
    ensures now.bus == m.bus.(dev := m.bus.dev.(packet := First(m.bus.dev.rest), inFlags := Flags(false, false)))
  {
    var m1 := m.(pc := FillChunk(false));
    hide First, Events;
    FindsCollected(ds, m, vendor);
    now := m1.At(m.bus.dev.(packet := First(m.bus.dev.rest), inFlags := Flags(false, false)),
                 if m.bus.dev.rest == [] then OpenChunk(false) else Advance(false));
    ArmsNextSteps(ds, m1, vendor);
    hide Steps, Firmware;
    StepsAppend(ds, m, vendor, 2, 2);
    fs := AddSteps(ds, start, es, m, vendor, 4);
  }

  lemma FindsCollected(ds: Descriptors, m: Machine, vendor: report)
    requires ds.Valid() && m.pc == TestIn && m.bus.dev.inFlags.complete && m.bus.dev.setup.Is(USB_REQ_GetDescriptor)
    ensures Steps(ds, m, vendor, 2) == m.(pc := FillChunk(false))
  {
    hide Answer, Hand, Switch;
    StepsFirst(ds, m, vendor, 2);
    StepsFirst(ds, Firmware(ds, m, vendor), vendor, 1);
    StepsFirst(ds, Firmware(ds, Firmware(ds, m, vendor), vendor), vendor, 0);
    hide Steps;
  }

  lemma ArmsNextSteps(ds: Descriptors, m: Machine, vendor: report)
    requires ds.Valid() && m.pc == FillChunk(false)
    ensures Steps(ds, m, vendor, 2) ==
              m.At(m.bus.dev.(packet := First(m.bus.dev.rest), inFlags := Flags(false, false)),
                   if m.bus.dev.rest == [] then OpenChunk(false) else Advance(false))
  {
    hide First, Look, Answer, Switch;
    StepsFirst(ds, m, vendor, 2);
    StepsFirst(ds, Firmware(ds, m, vendor), vendor, 1);
    StepsFirst(ds, Firmware(ds, Firmware(ds, m, vendor), vendor), vendor, 0);
    hide Steps;
  }
}
