/** Endpoint 0: has the device taken its address once the host holds the status packet and the
    firmware has nothing left to look at?

    It has as long as no SETUP packet arrives while the firmware goes on to arm the IN endpoint
    for an older request (`Arms`): then the host may be holding a packet that is no status
    packet. The condition is exact. */
module ControlTaken {
  import opened Bits
  import opened Protocol
  import opened Control
  import opened ControlRuns
  import opened ControlOrder
  import Channel

  ghost predicate Taken(m: Machine) {
    && m.pc == PollStart && !m.bus.dev.event && m.bus.log.got != []
    && m.bus.log.request.Requested? && m.bus.log.request.setup.Is(USB_REQ_SetAddress) ==>
      m.bus.dev.address as int == m.bus.log.request.setup.wValue % 128
  }

  ghost predicate HarmlessTaken(ds: Descriptors, m: Machine, es: seq<Event>)
    requires ds.Valid()
  {
    forall i :: 0 <= i < |es| && IsSetup(es[i]) ==>
      Events(ds, m, es[..i]).resetting || !Arms(ds, Events(ds, m, es[..i]), true)
  }

  /** SET_ADDRESS is on the bus and being answered. */
  ghost predicate Answered(m: Machine) {
    var d, log := m.bus.dev, m.bus.log;
    && log.request == Requested(d.setup) && d.setup.Is(USB_REQ_SetAddress) && !d.stall
    && (d.setupArrived ==> m.pc.Dispatch? || Answers(m.pc))
    && match m.pc
       case Dispatch => log.got == [] && d.inFlags.nack
       case Fill(_) => log.got == [] && d.inFlags.nack
       case ArmPacket => log.got == [] && d.inFlags.nack
       case ClearSetup => false
       case CopySetup => false
       case _ => !Hands(m.pc) && PacketOut(d, log, []) &&
                 (m.pc.PollStart? || m.pc.TestEvent? ==> d.inFlags.complete && !d.event ==>
                   d.address as int == d.setup.wValue % 128)
  }

  ghost predicate Tracked(ds: Descriptors, m: Machine)
    requires ds.Valid()
  {
    && Sound(m)
    && (m.bus.log.request.Requested? && m.bus.log.request.setup.Is(USB_REQ_SetAddress) ==>
          Unanswered(ds, m, false) || Answered(m))
  }

  lemma SetupTracked(ds: Descriptors, m: Machine, p: setupPacket)
    requires ds.Valid() && Sound(m) && !Arms(ds, m, true)
    ensures Tracked(ds, Asked(m, p))
  {
    ReceiveSound(m, SetupToken(p));
    SetupArrives(m.bus, p);
    SameReplyKind(ds, m.bus, Asked(m, p).bus);
    hide Sound, Control.Receive, Decode, ReplyTo, Answered;
  }

  lemma TokenTracked(ds: Descriptors, m: Machine, t: Token)
    requires ds.Valid() && Tracked(ds, m) && !t.SetupToken?
    ensures Tracked(ds, m.(bus := Receive(m.bus, t)))
  {
    ReceiveSound(m, t);
    TokenEffect(m.bus, t);
    hide Sound, Control.Receive, Decode, ReplyTo, Unanswered, Answered;
    if Unanswered(ds, m, false) {
      TokenUnanswered(ds, m, t, false);
    } else if Answered(m) {
      TokenAnswered(m, t);
    }
  }

  lemma TokenAnswered(m: Machine, t: Token)
    requires Answered(m) && !t.SetupToken?
    ensures Answered(m.(bus := Receive(m.bus, t)))
  {
    hide Decode;
  }

  lemma FirmwareTracked(ds: Descriptors, m: Machine, vendor: report)
    requires ds.Valid() && Tracked(ds, m)
    ensures Tracked(ds, Firmware(ds, m, vendor))
  {
    FirmwareSound(ds, m, vendor);
    FirmwareRequest(ds, m, vendor);
    assert PcSound(m) && SetupSound(m);
    hide Sound, Firmware, Unanswered, Answered, ReplyTo, PcSound, SetupSound;
    if m.bus.log.request.Requested? && m.bus.log.request.setup.Is(USB_REQ_SetAddress) {
      if Unanswered(ds, m, false) {
        FirmwareUnanswered(ds, m, vendor);
      } else {
        FirmwareAnswered(ds, m, vendor);
      }
    }
  }

  lemma FirmwareRequest(ds: Descriptors, m: Machine, vendor: report)
    requires ds.Valid()
    ensures var request := Firmware(ds, m, vendor).bus.log.request;
            request == m.bus.log.request || request == NoRequest
  {
    hide ReplyTo, Decode, First, Control.Rest;
  }

  lemma FirmwareUnanswered(ds: Descriptors, m: Machine, vendor: report)
    requires ds.Valid() && Unanswered(ds, m, false) && PcSound(m) && SetupSound(m)
    requires m.bus.log.request.Requested? && m.bus.log.request.setup.Is(USB_REQ_SetAddress)
    ensures var now := Firmware(ds, m, vendor);
            Unanswered(ds, now, false) || Answered(now)
  {
    ReplyKinds(ds, m.bus.dev.setup, m.bus.dev.configuration, vendor);
    SameReplyKind(ds, m.bus, m.bus.(log := m.bus.log.(vendor := vendor)));
    hide Look, Answer, Hand, ReplyTo, Unanswered, Decode;
    if Hands(m.pc) {
      HandUnanswered(ds, m, false);
    } else if m.pc.Dispatch? {
      DispatchUnanswered(ds, m, vendor);
    } else if Answers(m.pc) {
      AnswerUnanswered(ds, m, false);
    } else if m.pc.CopySetup? {
      CopyUnanswered(ds, m);
    } else {
      LookUnanswered(ds, m, false);
    }
  }

  lemma DispatchUnanswered(ds: Descriptors, m: Machine, vendor: report)
    requires ds.Valid() && Unanswered(ds, m, false) && m.pc.Dispatch?
    ensures Unanswered(ds, Firmware(ds, m, vendor), false)
  {
    ReplyKinds(ds, m.bus.dev.setup, m.bus.dev.configuration, vendor);
    SameReplyKind(ds, m.bus, m.bus.(log := m.bus.log.(vendor := vendor)));
    hide Look, Answer, Hand, ReplyTo, Decode;
  }

  lemma CopyUnanswered(ds: Descriptors, m: Machine)
    requires ds.Valid() && Unanswered(ds, m, false) && m.pc.CopySetup? && SetupSound(m)
    requires m.bus.log.request.Requested? && m.bus.log.request.setup.Is(USB_REQ_SetAddress)
    ensures Unanswered(ds, Look(m), false) || Answered(Look(m))
  {
    hide ReplyTo, Decode;
  }

  lemma FirmwareAnswered(ds: Descriptors, m: Machine, vendor: report)
    requires ds.Valid() && Answered(m) && PcSound(m)
    ensures var now := Firmware(ds, m, vendor);
            now.bus.log.request == NoRequest || Answered(now)
  {
    ReplyKinds(ds, m.bus.dev.setup, m.bus.dev.configuration, vendor);
    hide Hand, ReplyTo, Decode;
    if m.pc.Dispatch? || Answers(m.pc) { hide Look; } else { hide Answer, Switch; }
  }

  lemma HappenTracked(ds: Descriptors, m: Machine, e: Event)
    requires ds.Valid() && Tracked(ds, m) && (IsSetup(e) ==> m.resetting || !Arms(ds, m, true))
    ensures Tracked(ds, Happen(ds, m, e))
  {
    hide Control.Receive, Firmware, Sound, Arms;
    match e
    case Wire(t) =>
      if !m.resetting {
        if t.SetupToken? { SetupTracked(ds, m, t.setup); } else { TokenTracked(ds, m, t); }
      }
    case BusReset => FlagTracked(ds, m);
    case Device(vendor) => FirmwareTracked(ds, m, vendor);
  }

  lemma FlagTracked(ds: Descriptors, m: Machine)
    requires ds.Valid() && Tracked(ds, m)
    ensures Tracked(ds, m.(resetting := true))
  {
    hide ReplyTo, Decode;
  }

  lemma {:induction false} RunTracked(ds: Descriptors, m: Machine, es: seq<Event>)
    requires ds.Valid() && Tracked(ds, m) && HarmlessTaken(ds, m, es)
    ensures Tracked(ds, Events(ds, m, es))
    decreases |es|
  {
    hide Tracked, Happen, Arms;
    if es != [] {
      var front, e := es[..|es| - 1], es[|es| - 1];
      assert es[..|es| - 1] == front;
      assert forall i | 0 <= i < |front| :: front[..i] == es[..i] && front[i] == es[i];
      RunTracked(ds, m, front);
      HappenTracked(ds, Events(ds, m, front), e);
    }
  }

  lemma TrackedTaken(ds: Descriptors, m: Machine)
    requires ds.Valid() && Tracked(ds, m)
    ensures Taken(m)
  {
    hide Sound, ReplyTo;
  }

  /** In every run without a harmful SETUP packet: when the host holds the status packet and the
      firmware has nothing left to look at, the address is set. */
  lemma AddressTaken(ds: Descriptors, start: Machine, es: seq<Event>)
    requires ds.Valid() && JustReset(start) && HarmlessTaken(ds, start, es)
    ensures Taken(Events(ds, start, es))
  {
    assert Tracked(ds, start) by { hide ReplyTo; }
    hide Events, Tracked;
    RunTracked(ds, start, es);
    TrackedTaken(ds, Events(ds, start, es));
  }

  // ----- and a harmful one does harm

  /** The device has not taken the address v, and will not take it for a packet that has been
      collected already. */
  ghost predicate NotTaken(m: Machine, v: int) {
    var d := m.bus.dev;
    && Sound(m) && !m.resetting && d.address as int != v
    && (d.setup.Is(USB_REQ_SetAddress) && d.setup.wValue % 128 == v ==>
          m.pc.Dispatch? || m.pc.Fill? || m.pc.ArmPacket? || !d.inFlags.complete)
  }

  lemma NotTakenStep(ds: Descriptors, m: Machine, v: int, vendor: report)
    requires ds.Valid() && NotTaken(m, v)
    ensures var now := Firmware(ds, m, vendor);
            && NotTaken(now, v) && now.bus.log.got == m.bus.log.got && now.bus.log.request == m.bus.log.request
  {
    FirmwareSound(ds, m, vendor);
    assert PcSound(m);
    hide Sound, ReplyTo, Decode, First, Control.Rest, Look, Answer, Hand, Switch, NotTaken;
    if m.pc.Dispatch? {
      NotTakenDispatch(ds, m, v, vendor);
    } else if Answers(m.pc) {
      NotTakenAnswer(m, v);
    } else if Hands(m.pc) {
      NotTakenHand(m, v);
    } else {
      NotTakenLook(m, v);
    }
  }

  ghost predicate Unchanged(m: Machine, now: Machine) {
    now.bus.log.got == m.bus.log.got && now.bus.log.request == m.bus.log.request
  }

  lemma NotTakenDispatch(ds: Descriptors, m: Machine, v: int, vendor: report)
    requires ds.Valid() && NotTaken(m, v) && m.pc.Dispatch? && Sound(Firmware(ds, m, vendor))
    ensures NotTaken(Firmware(ds, m, vendor), v) && Unchanged(m, Firmware(ds, m, vendor))
  {
    ReplyKinds(ds, m.bus.dev.setup, m.bus.dev.configuration, vendor);
    hide Sound, ReplyTo, Look, Answer, Hand;
  }

  lemma NotTakenAnswer(m: Machine, v: int)
    requires NotTaken(m, v) && Answers(m.pc) && Sound(Answer(m))
    ensures NotTaken(Answer(m), v) && Unchanged(m, Answer(m))
  {
    hide Sound;
  }

  lemma NotTakenHand(m: Machine, v: int)
    requires NotTaken(m, v) && Hands(m.pc) && PcSound(m) && Sound(Hand(m))
    ensures NotTaken(Hand(m), v) && Unchanged(m, Hand(m))
  {
    hide Sound, First, Control.Rest;
  }

  lemma NotTakenLook(m: Machine, v: int)
    requires !m.pc.Dispatch? && !Answers(m.pc) && !Hands(m.pc)
    requires NotTaken(m, v) && PcSound(m) && Sound(Look(m))
    ensures NotTaken(Look(m), v) && Unchanged(m, Look(m))
  {
    hide Sound, Decode;
  }

  lemma {:induction false} NotTakenRemainder(ds: Descriptors, m: Machine, v: int, vendor: report) returns (k: nat)
    requires ds.Valid() && NotTaken(m, v)
    ensures var now := Steps(ds, m, vendor, k);
            && now == Remainder(ds, m, vendor) && now.pc == PollStart && NotTaken(now, v)
            && now.bus.log.got == m.bus.log.got && now.bus.log.request == m.bus.log.request
    decreases ControlRuns.Left(m.pc)
  {
    hide *;
    RemainderStep(ds, m, vendor);
    if m.pc == PollStart {
      k := 0;
      StepsFirst(ds, m, vendor, 0);
    } else {
      NotTakenStep(ds, m, v, vendor);
      FirmwareLeft(ds, m, vendor);
      k := NotTakenRemainder(ds, Firmware(ds, m, vendor), v, vendor);
      StepsFirst(ds, m, vendor, k + 1);
      k := k + 1;
    }
  }

  /** Two polls later there is nothing left to look at, and the address is still not taken. */
  lemma NeverTaken(ds: Descriptors, start: Machine, es: seq<Event>, m: Machine, v: int, vendor: report)
    returns (fs: seq<Event>)
    requires ds.Valid() && Calm(es) && m == Events(ds, start, es) && NotTaken(m, v)
    ensures Calm(fs)
    ensures var now := Events(ds, start, fs);
            && now.pc == PollStart && !now.bus.dev.event && now.bus.dev.address as int != v
            && now.bus.log.got == m.bus.log.got && now.bus.log.request == m.bus.log.request
  {
    hide Events, NotTaken, Firmware;
    var k := NotTakenRemainder(ds, m, v, vendor);
    var m1 := Steps(ds, m, vendor, k);
    fs := AddSteps(ds, start, es, m, vendor, k);
    NotTakenStep(ds, m1, v, vendor);
    var m2 := Firmware(ds, m1, vendor);
    StepsFirst(ds, m1, vendor, 1);
    StepsFirst(ds, m2, vendor, 0);
    fs := AddSteps(ds, start, fs, m1, vendor, 1);
    k := NotTakenRemainder(ds, m2, v, vendor);
    fs := AddSteps(ds, start, fs, m2, vendor, k);
    NotTakenMeans(m1, v);
    NotTakenMeans(Steps(ds, m2, vendor, k), v);
    AccessesArePoll(ds, m1, vendor);
    PollClears(ds, m1.bus.dev, vendor);
  }

  lemma NotTakenMeans(m: Machine, v: int)
    requires NotTaken(m, v)
    ensures !m.resetting && m.bus.dev.address as int != v
  {
  }

  lemma PollClears(ds: Descriptors, d: Control.Dev, vendor: report)
    requires ds.Valid()
    ensures !d.Poll(ds, vendor).event
  {
    hide ReplyTo, Decode, First, Control.Rest;
  }

  ghost predicate CanMiss(ds: Descriptors, m: Machine)
    requires ds.Valid()
  {
    exists p: setupPacket, fs: seq<Event> :: Calm(fs) && !Taken(Events(ds, Asked(m, p), fs))
  }

  function SetAddress(v: byte): setupPacket {
    [0, USB_REQ_SetAddress, v, 0, 0, 0, 0, 0]
  }

  /** An address that is neither the present one nor the one last asked for. */
  lemma OtherAddress(a: byte, s: Setup) returns (v: byte)
    ensures v < 128 && v != a && v as int != s.wValue % 128
  {
    v := if a != 0 && s.wValue % 128 != 0 then 0 else if a != 1 && s.wValue % 128 != 1 then 1 else 2;
  }

  lemma SetAddressDecodes(v: byte)
    requires v < 128
    ensures var s := Decode(SetAddress(v));
            s.Is(USB_REQ_SetAddress) && s.wValue % 128 == v as int
  {
  }

  lemma ArmMisses(ds: Descriptors, m: Machine, vendor: report)
    requires ds.Valid() && Sound(m) && !m.resetting && Arms(ds, m, true)
    ensures CanMiss(ds, m)
  {
    var m1 := Asked(m, VENDOR_SETUP);
    AskedMisled(ds, m, VENDOR_SETUP);
    var k := ArmsSoon(ds, m1, vendor);
    var armed := Steps(ds, m1, vendor, k);
    var v := OtherAddress(armed.bus.dev.address, armed.bus.dev.setup);
    var p := SetAddress(v);
    SetAddressDecodes(v);
    AskedReasked(m, VENDOR_SETUP, p);
    ReaskedArmed(armed, m1.bus.log.request, p, v as int);
    hide Asked, Reasked, Events, Steps, Decode, SetAddress, Arms, ArmedFor, Control.Receive, NotTaken;
    var m2 := Asked(m, p);
    NoEvents(ds, m2);
    var fs := AddSteps(ds, m2, [], m2, vendor, k);
    fs := AddIn(ds, m2, fs, Reasked(armed, p));
    var m3 := Reasked(armed, p).(bus := Receive(Reasked(armed, p).bus, InToken));
    fs := NeverTaken(ds, m2, fs, m3, v as int, vendor);
    assert !Taken(Events(ds, Asked(m, p), fs));
  }

  lemma ReaskedArmed(armed: Machine, request: Request, p: setupPacket, v: int)
    requires ArmedFor(armed, request) && armed.bus.dev.address as int != v && armed.bus.dev.setup.wValue % 128 != v
    ensures var now := Reasked(armed, p);
            && !now.resetting && NotTaken(now.(bus := Receive(now.bus, InToken)), v)
            && Receive(now.bus, InToken).log.got != []
            && Receive(now.bus, InToken).log.request == Requested(Decode(p))
  {
    ReaskedSound(armed, p);
    ReceiveSound(Reasked(armed, p), InToken);
    hide Decode, Channel.Overlay, Sound;
  }

  lemma ReaskedSound(m: Machine, q: setupPacket)
    requires Sound(m)
    ensures Sound(Reasked(m, q))
  {
    SetupArrives(m.bus, q);
    hide Decode;
  }

  /** After any run without a harmful SETUP packet, one that comes now can leave the host with a
      packet and the device without the address if and only if the firmware goes on to arm the IN
      endpoint for an older request. */
  lemma TakenExact(ds: Descriptors, start: Machine, es: seq<Event>)
    requires ds.Valid() && JustReset(start) && HarmlessTaken(ds, start, es) && !Events(ds, start, es).resetting
    ensures var m := Events(ds, start, es);
            CanMiss(ds, m) <==> Arms(ds, m, true)
  {
    var m := Events(ds, start, es);
    EventsSound(ds, start, es);
    hide Sound, Events, Asked, Taken, Arms;
    var vendor: report :| true;
    if Arms(ds, m, true) {
      ArmMisses(ds, m, vendor);
    } else {
      forall p: setupPacket, fs: seq<Event> | Calm(fs) ensures Taken(Events(ds, Asked(m, p), fs)) {
        StaysTracked(ds, m, p, fs);
      }
    }
  }

  lemma StaysTracked(ds: Descriptors, m: Machine, p: setupPacket, fs: seq<Event>)
    requires ds.Valid() && Sound(m) && !Arms(ds, m, true) && Calm(fs)
    ensures Taken(Events(ds, Asked(m, p), fs))
  {
    SetupTracked(ds, m, p);
    assert HarmlessTaken(ds, Asked(m, p), fs);
    hide Events, Asked, Tracked;
    RunTracked(ds, Asked(m, p), fs);
    TrackedTaken(ds, Events(ds, Asked(m, p), fs));
  }
}
