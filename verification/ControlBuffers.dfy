/** Endpoint 0: is the IN buffer written only while the hardware would not send it?

    It is as long as no SETUP packet arrives while the firmware is about to hand over a chunk
    that is not the last one: the poll after that answers the SETUP packet although the chunk
    has not been collected. The condition (`Overruns`) is exact. */
module ControlBuffers {
  import opened Bits
  import opened Protocol
  import opened Control
  import opened ControlRuns
  import opened ControlOrder

  /** The next access of the firmware does not write a buffer that the hardware owns. */
  predicate Owned(m: Machine) {
    m.pc.Fill? || m.pc.FillChunk? ==> m.bus.dev.inFlags.nack || m.bus.dev.stall
  }

  /** The firmware goes on to arm a chunk with more behind it, or copies a packet that it will
      copy again. */
  ghost predicate Overruns(ds: Descriptors, m: Machine)
    requires ds.Valid()
  {
    var d, r := m.bus.dev, ReplyOf(ds, m.bus);
    match m.pc
    case Dispatch => r.Transfer? && r.data != []
    case FillChunk(_) => d.rest != []
    case ArmChunk(_) => d.rest != []
    case Advance(first) => first && d.inFlags.complete && Rest(d.rest) != []
    case TestIn => d.inFlags.complete && d.setup.Is(USB_REQ_GetDescriptor) && d.rest != []
    case Complete => d.setup.Is(USB_REQ_GetDescriptor) && d.rest != []
    case CopySetup => AnyDescriptor(ds)
    case _ => false
  }

  ghost predicate HarmlessBuffers(ds: Descriptors, m: Machine, es: seq<Event>)
    requires ds.Valid()
  {
    forall i :: 0 <= i < |es| && IsSetup(es[i]) ==>
      Events(ds, m, es[..i]).resetting || !Overruns(ds, Events(ds, m, es[..i]))
  }

  /** The IN endpoint refuses before it is filled and before a SETUP packet is looked at. */
  ghost predicate Guarded(ds: Descriptors, m: Machine)
    requires ds.Valid()
  {
    var d := m.bus.dev;
    && Sound(m)
    && (!d.stall ==>
          && (m.pc.ClearSetup? || m.pc.CopySetup? || m.pc.Dispatch? || m.pc.Fill? || m.pc.FillChunk? ==> d.inFlags.nack)
          && (d.setupArrived ==> !Overruns(ds, m) && (d.inFlags.nack || Opens(m.pc))))
  }

  lemma SetupGuarded(ds: Descriptors, m: Machine, p: setupPacket)
    requires ds.Valid() && Sound(m) && !Overruns(ds, m)
    ensures Guarded(ds, Asked(m, p))
  {
    ReceiveSound(m, SetupToken(p));
    SetupArrives(m.bus, p);
    SameReply(ds, m.bus, Asked(m, p).bus);
    hide Sound, Control.Receive, Decode, ReplyTo;
  }

  lemma SameReply(ds: Descriptors, b: Bus, c: Bus)
    requires ds.Valid() && b.dev.setup == c.dev.setup
    ensures ReplyOf(ds, b).Transfer? == ReplyOf(ds, c).Transfer?
    ensures ReplyOf(ds, b).Transfer? ==> ReplyOf(ds, b) == ReplyOf(ds, c)
  {
    ReplyKinds(ds, b.dev.setup, b.dev.configuration, b.log.vendor);
    ReplyKinds(ds, c.dev.setup, c.dev.configuration, c.log.vendor);
    hide ReplyTo;
  }

  lemma TokenGuarded(ds: Descriptors, m: Machine, t: Token)
    requires ds.Valid() && Guarded(ds, m) && !t.SetupToken?
    ensures Guarded(ds, m.(bus := Receive(m.bus, t)))
  {
    ReceiveSound(m, t);
    TokenEffect(m.bus, t);
    SameReply(ds, m.bus, Receive(m.bus, t));
    hide Sound, Control.Receive, Decode, ReplyTo;
  }

  lemma FirmwareGuarded(ds: Descriptors, m: Machine, vendor: report)
    requires ds.Valid() && Guarded(ds, m)
    ensures Guarded(ds, Firmware(ds, m, vendor))
  {
    FirmwareSound(ds, m, vendor);
    hide Look, Answer, Hand, Switch, Sound, ReplyTo, Guarded;
    if m.pc.Dispatch? {
      DispatchGuarded(ds, m, vendor);
    } else if Answers(m.pc) {
      AnswerGuarded(ds, m);
    } else if Hands(m.pc) {
      HandGuarded(ds, m);
    } else {
      LookGuarded(ds, m);
    }
  }

  lemma DispatchGuarded(ds: Descriptors, m: Machine, vendor: report)
    requires ds.Valid() && Guarded(ds, m) && m.pc.Dispatch? && Sound(Firmware(ds, m, vendor))
    ensures Guarded(ds, Firmware(ds, m, vendor))
  {
    ReplyKinds(ds, m.bus.dev.setup, m.bus.dev.configuration, vendor);
    ReplyKinds(ds, m.bus.dev.setup, m.bus.dev.configuration, m.bus.log.vendor);
    hide Sound, ReplyTo, Look, Answer, Hand;
  }

  lemma AnswerGuarded(ds: Descriptors, m: Machine)
    requires ds.Valid() && Guarded(ds, m) && Answers(m.pc) && Sound(Answer(m))
    ensures Guarded(ds, Answer(m))
  {
    assert PcSound(m);
    hide Sound, ReplyTo;
  }

  lemma HandGuarded(ds: Descriptors, m: Machine)
    requires ds.Valid() && Guarded(ds, m) && Hands(m.pc) && Sound(Hand(m))
    ensures Guarded(ds, Hand(m))
  {
    assert PcSound(m);
    hide Sound, ReplyTo, First, Control.Rest;
  }

  lemma LookGuarded(ds: Descriptors, m: Machine)
    requires !m.pc.Dispatch? && !Answers(m.pc) && !Hands(m.pc)
    requires ds.Valid() && Guarded(ds, m) && Sound(Look(m))
    ensures Guarded(ds, Look(m))
  {
    assert PcSound(m) && FlagsSound(m) && SetupSound(m);
    hide Sound, ReplyTo, Decode;
    if m.pc.CopySetup? { CopyGuarded(ds, m); }
  }

  lemma CopyGuarded(ds: Descriptors, m: Machine)
    requires ds.Valid() && m.pc.CopySetup? && Guarded(ds, m) && Sound(Look(m))
    ensures Guarded(ds, Look(m))
  {
    ReplyKinds(ds, Decode(m.bus.dev.received), m.bus.dev.configuration, m.bus.log.vendor);
    if ds.Has(Decode(m.bus.dev.received)) { HasAny(ds, Decode(m.bus.dev.received)); }
    hide Sound, ReplyTo, Decode;
  }

  lemma HappenGuarded(ds: Descriptors, m: Machine, e: Event)
    requires ds.Valid() && Guarded(ds, m) && (IsSetup(e) ==> m.resetting || !Overruns(ds, m))
    ensures Guarded(ds, Happen(ds, m, e))
  {
    hide Control.Receive, Firmware, Sound;
    match e
    case Wire(t) =>
      if !m.resetting {
        if t.SetupToken? { SetupGuarded(ds, m, t.setup); } else { TokenGuarded(ds, m, t); }
      }
    case BusReset => HappenSound(ds, m, BusReset);
    case Device(vendor) => FirmwareGuarded(ds, m, vendor);
  }

  lemma {:induction false} RunGuarded(ds: Descriptors, m: Machine, es: seq<Event>)
    requires ds.Valid() && Guarded(ds, m) && HarmlessBuffers(ds, m, es)
    ensures Guarded(ds, Events(ds, m, es))
    decreases |es|
  {
    hide Guarded, Happen, Overruns;
    if es != [] {
      var front, e := es[..|es| - 1], es[|es| - 1];
      assert es[..|es| - 1] == front;
      assert forall i | 0 <= i < |front| :: front[..i] == es[..i] && front[i] == es[i];
      RunGuarded(ds, m, front);
      HappenGuarded(ds, Events(ds, m, front), e);
    }
  }

  lemma ResetGuarded(ds: Descriptors, m: Machine)
    requires ds.Valid() && JustReset(m)
    ensures Guarded(ds, m)
  {
    hide ReplyTo;
  }

  /** In every run without a harmful SETUP packet the firmware writes the IN buffer only while
      the hardware would refuse to send it. */
  lemma BuffersOwned(ds: Descriptors, start: Machine, es: seq<Event>)
    requires ds.Valid() && JustReset(start) && HarmlessBuffers(ds, start, es)
    ensures Owned(Events(ds, start, es))
  {
    ResetGuarded(ds, start);
    hide Events;
    RunGuarded(ds, start, es);
    hide Sound, ReplyTo;
  }

  // ----- and a harmful one does harm

  /** A SETUP packet that is answered with an empty packet: SET_FEATURE. */
  const SET_FEATURE: setupPacket := [0, USB_REQ_SetFeature, 0, 0, 0, 0, 0, 0]

  function UntilOverrun(m: Machine): nat {
    var early := m.bus.dev.inFlags.nack;
    match m.pc
    case Advance(first) => if early then 23 else if first then 11 else 9
    case TestIn => if early then 22 else 10
    case Complete => 21
    case Dispatch => if early then 21 else 1
    case FillChunk(_) => 20
    case ArmChunk(_) => 19
    case PollStart => 8
    case TestEvent => 7
    case ClearEvent => 6
    case ReadStatus => 5
    case ClearSetup => 4
    case CopySetup => 3
    case _ => 0
  }

  /** SET_FEATURE waits behind a chunk that is to be armed, or has been and is not the last. */
  ghost predicate Doomed(ds: Descriptors, m: Machine)
    requires ds.Valid()
  {
    var d := m.bus.dev;
    && Sound(m) && !m.resetting && !d.stall
    && Decode(if m.pc.Dispatch? && !d.inFlags.nack then SET_FEATURE else d.received) == Decode(SET_FEATURE)
    && if d.inFlags.nack then d.setupArrived && d.event && !m.pc.CopySetup? && Overruns(ds, m)
       else match m.pc
         case Advance(_) => d.setupArrived && d.event
         case TestIn => d.setupArrived && d.event
         case PollStart => d.setupArrived && d.event
         case TestEvent => d.setupArrived && d.event
         case ClearEvent => d.setupArrived && d.event
         case ReadStatus => d.setupArrived
         case ClearSetup => true
         case CopySetup => true
         case Dispatch => d.setup == Decode(SET_FEATURE)
         case _ => false
  }

  lemma DoomStep(ds: Descriptors, m: Machine, vendor: report)
    requires ds.Valid() && Doomed(ds, m)
    ensures var now := Firmware(ds, m, vendor);
            !Owned(now) || (Doomed(ds, now) && UntilOverrun(now) < UntilOverrun(m))
  {
    FirmwareSound(ds, m, vendor);
    hide Firmware, Sound, Doomed, Owned, UntilOverrun;
    if m.bus.dev.inFlags.nack { ChunkComes(ds, m, vendor); } else { FillComes(ds, m, vendor); }
  }

  lemma ChunkComes(ds: Descriptors, m: Machine, vendor: report)
    requires ds.Valid() && Doomed(ds, m) && m.bus.dev.inFlags.nack && Sound(Firmware(ds, m, vendor))
    ensures var now := Firmware(ds, m, vendor);
            Doomed(ds, now) && UntilOverrun(now) < UntilOverrun(m)
  {
    ReplyKinds(ds, m.bus.dev.setup, m.bus.dev.configuration, vendor);
    SameReply(ds, m.bus, m.bus.(log := m.bus.log.(vendor := vendor)));
    assert PcSound(m);
    hide Sound, ReplyTo, Decode, Control.Rest, First, Answer;
    if m.pc.Dispatch? {
      hide Look, Hand;
    } else if Hands(m.pc) {
      hide Look, Switch;
    } else {
      hide Hand, Switch;
    }
  }

  lemma FillComes(ds: Descriptors, m: Machine, vendor: report)
    requires ds.Valid() && Doomed(ds, m) && !m.bus.dev.inFlags.nack && Sound(Firmware(ds, m, vendor))
    ensures var now := Firmware(ds, m, vendor);
            !Owned(now) || (Doomed(ds, now) && UntilOverrun(now) < UntilOverrun(m))
  {
    hide Look, Hand, Switch, Answer, ReplyTo, Sound, Doomed, Owned, UntilOverrun;
    DoomedPc(ds, m);
    if m.pc.Dispatch? {
      DispatchFills(ds, m, vendor);
    } else if Hands(m.pc) {
      HandFills(ds, m, vendor);
    } else {
      LookFills(ds, m, vendor);
    }
  }

  lemma DoomedPc(ds: Descriptors, m: Machine)
    requires ds.Valid() && Doomed(ds, m) && !m.bus.dev.inFlags.nack
    ensures !Answers(m.pc) && FlagsSound(m)
  {
    hide Decode;
  }

  lemma DispatchFills(ds: Descriptors, m: Machine, vendor: report)
    requires ds.Valid() && Doomed(ds, m) && !m.bus.dev.inFlags.nack && m.pc.Dispatch?
    ensures !Owned(Firmware(ds, m, vendor))
  {
    FeatureReply(ds, m.bus.dev.configuration, vendor);
    hide Sound, ReplyTo, Decode, Look, Hand, Answer;
  }

  lemma HandFills(ds: Descriptors, m: Machine, vendor: report)
    requires ds.Valid() && Doomed(ds, m) && !m.bus.dev.inFlags.nack && Hands(m.pc) && Sound(Firmware(ds, m, vendor))
    ensures var now := Firmware(ds, m, vendor);
            Doomed(ds, now) && UntilOverrun(now) < UntilOverrun(m)
  {
    hide Sound, ReplyTo, Decode, Look, Switch, Answer, First, Control.Rest, Overruns;
  }

  lemma LookFills(ds: Descriptors, m: Machine, vendor: report)
    requires ds.Valid() && Doomed(ds, m) && !m.bus.dev.inFlags.nack && FlagsSound(m) && Sound(Firmware(ds, m, vendor))
    requires !m.pc.Dispatch? && !Answers(m.pc) && !Hands(m.pc)
    ensures var now := Firmware(ds, m, vendor);
            Doomed(ds, now) && UntilOverrun(now) < UntilOverrun(m)
  {
    hide Sound, ReplyTo, Decode, Hand, Switch, Answer, Overruns;
  }

  lemma FeatureReply(ds: Descriptors, configuration: byte, vendor: report)
    requires ds.Valid()
    ensures ReplyTo(ds, Decode(SET_FEATURE), configuration, vendor) == Packet([])
  {
  }

  lemma {:induction false} DoomComes(ds: Descriptors, m: Machine, vendor: report) returns (k: nat)
    requires ds.Valid() && Doomed(ds, m)
    ensures !Owned(Steps(ds, m, vendor, k))
    decreases UntilOverrun(m)
  {
    hide Doomed, Firmware, Owned, UntilOverrun, Steps;
    var now := Firmware(ds, m, vendor);
    DoomStep(ds, m, vendor);
    StepsFirst(ds, now, vendor, 0);
    if !Owned(now) {
      k := 0;
    } else {
      k := DoomComes(ds, now, vendor);
    }
    StepsFirst(ds, m, vendor, k + 1);
    k := k + 1;
  }

  ghost predicate CanOverrun(ds: Descriptors, m: Machine)
    requires ds.Valid()
  {
    exists p: setupPacket, fs: seq<Event> :: Calm(fs) && !Owned(Events(ds, Asked(m, p), fs))
  }

  lemma ChunkOverruns(ds: Descriptors, m: Machine, vendor: report)
    requires ds.Valid() && Sound(m) && !m.resetting && Overruns(ds, m) && !m.pc.CopySetup?
    ensures CanOverrun(ds, m)
  {
    var m1 := Asked(m, SET_FEATURE);
    ReceiveSound(m, SetupToken(SET_FEATURE));
    SetupArrives(m.bus, SET_FEATURE);
    SameReply(ds, m.bus, m1.bus);
    assert Doomed(ds, m1) by { hide Sound, Decode, Control.Receive, ReplyTo; }
    hide Doomed, Asked, Owned, Steps, Events;
    var k := DoomComes(ds, m1, vendor);
    StepsAreEvents(ds, m1, vendor, k);
    assert !Owned(Events(ds, Asked(m, SET_FEATURE), Devices(vendor, k)));
  }

  lemma CopyOverruns(ds: Descriptors, m: Machine, vendor: report)
    requires ds.Valid() && Sound(m) && !m.resetting && m.pc.CopySetup? && AnyDescriptor(ds)
    ensures CanOverrun(ds, m)
  {
    var w :| w in ds.places && ds.places[w].size != 0 && ds.places[w].at != 0;
    var p := AskFor(w, 1);
    AskForData(ds, w, 1);
    SetupArrives(m.bus, p);
    var m1 := Asked(m, p);
    hide Sound, AskFor, Decode, Control.Receive, Descriptors.Data, Descriptors.Has, Events;
    assert Copying(ds, m1, p);
    var m2 := ServedOnce(ds, m1, p, vendor);
    var m3 := CopiesAgain(ds, m2, vendor);
    NoEvents(ds, m1);
    var fs := AddSteps(ds, m1, [], m1, vendor, 6);
    fs := AddSteps(ds, m1, fs, m2, vendor, 5);
    assert Copying(ds, m3, p);
    hide Copying;
    var m5 := FillsAgain(ds, m3, p, vendor);
    fs := AddSteps(ds, m1, fs, m3, vendor, 2);
    assert !Owned(Events(ds, Asked(m, p), fs));
  }

  lemma FillsAgain(ds: Descriptors, m: Machine, p: setupPacket, vendor: report) returns (now: Machine)
    requires ds.Valid() && Copying(ds, m, p)
    ensures now == Steps(ds, m, vendor, 2) && now.pc == FillChunk(true)
    ensures now.bus.dev.inFlags == m.bus.dev.inFlags && now.bus.dev.stall == m.bus.dev.stall
  {
    ReplyKinds(ds, Decode(p), m.bus.dev.configuration, vendor);
    hide Decode, ReplyTo, Descriptors.Data, Descriptors.Has;
    var m1 := Firmware(ds, m, vendor);
    now := Firmware(ds, m1, vendor);
    assert m1.pc == Dispatch;
    hide Firmware;
    StepsFirst(ds, m, vendor, 2);
    StepsFirst(ds, m1, vendor, 1);
    StepsFirst(ds, now, vendor, 0);
  }

  /** After any run without a harmful SETUP packet, one that comes now can make the firmware
      write a buffer that the hardware owns if and only if it is harmful by `Overruns`. */
  lemma BuffersExact(ds: Descriptors, start: Machine, es: seq<Event>)
    requires ds.Valid() && JustReset(start) && HarmlessBuffers(ds, start, es) && !Events(ds, start, es).resetting
    ensures var m := Events(ds, start, es);
            CanOverrun(ds, m) <==> Overruns(ds, m)
  {
    var m := Events(ds, start, es);
    EventsSound(ds, start, es);
    hide Sound, Events, Asked, Owned;
    var vendor: report :| true;
    if Overruns(ds, m) {
      if m.pc.CopySetup? { CopyOverruns(ds, m, vendor); } else { ChunkOverruns(ds, m, vendor); }
    } else {
      forall p: setupPacket, fs: seq<Event> | Calm(fs) ensures Owned(Events(ds, Asked(m, p), fs)) {
        StaysGuarded(ds, m, p, fs);
      }
    }
  }

  lemma StaysGuarded(ds: Descriptors, m: Machine, p: setupPacket, fs: seq<Event>)
    requires ds.Valid() && Sound(m) && !Overruns(ds, m) && Calm(fs)
    ensures Owned(Events(ds, Asked(m, p), fs))
  {
    SetupGuarded(ds, m, p);
    assert HarmlessBuffers(ds, Asked(m, p), fs);
    hide Events, Asked;
    RunGuarded(ds, Asked(m, p), fs);
    hide Sound, ReplyTo;
  }
}
