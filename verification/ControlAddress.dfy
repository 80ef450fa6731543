/** Endpoint 0: when the device address changes, and who owns the IN buffer.

    Section 9.4.6 of USB 2.0 asks a device not to take an address before the host has collected
    the empty status packet of the SET_ADDRESS request. The code keeps to this as long as no
    SETUP packet arrives between the dispatch of a SET_ADDRESS request and the arming of its
    status packet (`Risky`); every SETUP packet at such a moment makes it take the address
    although the status packet was collected for another request. */
module ControlAddress {
  import opened Bits
  import opened Protocol
  import opened Control
  import opened ControlRuns
  import opened ControlOrder

  // ----- what an observer notes

  /** The requests on the bus so far; which of them the firmware has copied last; and for which
      of them the host has collected the last packet, and what that was. `wrong`: an address has
      been taken whose request is not the one that an empty packet was last collected for. */
  datatype Notes = Notes(asked: seq<Setup>, served: int, acked: int, ack: seq<byte>, wrong: bool)

  datatype Watched = Watched(m: Machine, notes: Notes)

  function Note(m: Machine, n: Notes, e: Event): Notes {
    match e
    case Wire(t) =>
      if m.resetting then n
      else if t.SetupToken? then n.(asked := n.asked + [Decode(t.setup)])
      else if t.InToken? && !m.bus.dev.stall && !m.bus.dev.inFlags.nack then
        n.(acked := |n.asked| - 1, ack := m.bus.dev.packet)
      else n
    case BusReset => n
    case Device(_) =>
      if m.pc.CopySetup? then n.(served := |n.asked| - 1)
      else if TakesAddress(m) then n.(wrong := n.wrong || n.acked != n.served || n.ack != [])
      else n
  }

  /** The next access stores an address. */
  predicate TakesAddress(m: Machine) {
    m.pc.Complete? && m.bus.dev.setup.Is(USB_REQ_SetAddress)
  }

  function Watch(ds: Descriptors, w: Watched, e: Event): Watched
    requires ds.Valid()
  {
    Watched(Happen(ds, w.m, e), Note(w.m, w.notes, e))
  }

  function Watches(ds: Descriptors, w: Watched, es: seq<Event>): Watched
    requires ds.Valid()
    decreases |es|
  {
    if es == [] then w else Watch(ds, Watches(ds, w, es[..|es| - 1]), es[|es| - 1])
  }

  /** Just after a bus reset, with nothing noted yet. */
  ghost predicate Begins(w: Watched) {
    JustReset(w.m) && w.notes == Notes([], -1, -1, [], false)
  }

  // ----- when a SETUP packet does harm

  /** The firmware answers SET_ADDRESS and has not armed the status packet. */
  predicate Risky(m: Machine) {
    (m.pc.Dispatch? || m.pc.Fill? || m.pc.ArmPacket?) && m.bus.dev.setup.Is(USB_REQ_SetAddress)
  }

  ghost predicate Careful(ds: Descriptors, w: Watched, es: seq<Event>)
    requires ds.Valid()
  {
    forall i :: 0 <= i < |es| && IsSetup(es[i]) ==>
      Watches(ds, w, es[..i]).m.resetting || !Risky(Watches(ds, w, es[..i]).m)
  }

  // ----- the invariant

  ghost predicate Noted(w: Watched) {
    var d, n := w.m.bus.dev, w.notes;
    && Sound(w.m) && !n.wrong
    && -1 <= n.served < |n.asked|
    && (w.m.bus.dev.setupArrived || w.m.pc.CopySetup? ==>
          n.asked != [] && n.asked[|n.asked| - 1] == Decode(d.received))
    && (w.m.pc.Dispatch? || Answers(w.m.pc) || d.inFlags.complete || !d.inFlags.nack ==>
          d.setup.Is(USB_REQ_SetAddress) ==> ForAddress(w.m, n))
  }

  /** The request being served is SET_ADDRESS. */
  ghost predicate ForAddress(m: Machine, n: Notes)
    requires -1 <= n.served < |n.asked|
  {
    var d := m.bus.dev;
    if Risky(m) then n.served == |n.asked| - 1 >= 0 && n.asked[n.served] == d.setup
    else
      && (d.inFlags.complete ==> n.served >= 0 && n.asked[n.served] == d.setup && n.acked == n.served && n.ack == [])
      && (!d.inFlags.nack ==> n.served == |n.asked| - 1 >= 0 && n.asked[n.served] == d.setup && d.packet == [])
  }

  lemma WatchKeeps(ds: Descriptors, w: Watched, e: Event)
    requires ds.Valid() && Noted(w) && (IsSetup(e) ==> w.m.resetting || !Risky(w.m))
    ensures Noted(Watch(ds, w, e))
  {
    HappenSound(ds, w.m, e);
    hide Firmware, Control.Receive, Sound;
    match e
    case Wire(t) =>
      if !w.m.resetting {
        if t.SetupToken? { SetupNoted(ds, w, t.setup); } else { TokenNoted(ds, w, t); }
      }
    case BusReset =>
    case Device(vendor) => FirmwareNoted(ds, w, vendor);
  }

  lemma SetupNoted(ds: Descriptors, w: Watched, p: setupPacket)
    requires ds.Valid() && Noted(w) && !w.m.resetting && !Risky(w.m)
    requires Sound(Happen(ds, w.m, Wire(SetupToken(p))))
    ensures Noted(Watch(ds, w, Wire(SetupToken(p))))
  {
    SetupArrives(w.m.bus, p);
    hide Sound, Decode, Control.Receive;
  }

  lemma TokenNoted(ds: Descriptors, w: Watched, t: Token)
    requires ds.Valid() && Noted(w) && !w.m.resetting && !t.SetupToken?
    requires Sound(Happen(ds, w.m, Wire(t)))
    ensures Noted(Watch(ds, w, Wire(t)))
  {
    TokenEffect(w.m.bus, t);
    assert SetupSound(w.m);
    hide Sound, Decode;
  }

  lemma FirmwareNoted(ds: Descriptors, w: Watched, vendor: report)
    requires ds.Valid() && Noted(w) && Sound(Firmware(ds, w.m, vendor))
    ensures Noted(Watch(ds, w, Device(vendor)))
  {
    hide Look, Answer, Hand, Switch, Noted, ReplyTo;
    if w.m.pc.Dispatch? {
      DispatchNoted(ds, w, vendor);
    } else if Answers(w.m.pc) {
      AnswerNoted(ds, w, vendor);
    } else if Hands(w.m.pc) {
      HandNoted(ds, w, vendor);
    } else {
      LookNoted(ds, w, vendor);
    }
  }

  lemma DispatchNoted(ds: Descriptors, w: Watched, vendor: report)
    requires ds.Valid() && Noted(w) && w.m.pc.Dispatch? && Sound(Firmware(ds, w.m, vendor))
    ensures Noted(Watch(ds, w, Device(vendor)))
  {
    ReplyKinds(ds, w.m.bus.dev.setup, w.m.bus.dev.configuration, vendor);
    hide Sound, Decode, ReplyTo, Look, Answer, Hand;
  }

  lemma AnswerNoted(ds: Descriptors, w: Watched, vendor: report)
    requires ds.Valid() && Noted(w) && Answers(w.m.pc) && Sound(Firmware(ds, w.m, vendor))
    ensures Noted(Watch(ds, w, Device(vendor)))
  {
    assert PcSound(w.m);
    hide Sound, Decode, ReplyTo, Look, Switch, Hand;
  }

  lemma HandNoted(ds: Descriptors, w: Watched, vendor: report)
    requires ds.Valid() && Noted(w) && Hands(w.m.pc) && Sound(Firmware(ds, w.m, vendor))
    ensures Noted(Watch(ds, w, Device(vendor)))
  {
    assert PcSound(w.m);
    hide Sound, Decode, ReplyTo, Look, Switch, Answer, First, Control.Rest;
  }

  lemma LookNoted(ds: Descriptors, w: Watched, vendor: report)
    requires ds.Valid() && Noted(w) && Sound(Firmware(ds, w.m, vendor))
    requires !w.m.pc.Dispatch? && !Answers(w.m.pc) && !Hands(w.m.pc)
    ensures Noted(Watch(ds, w, Device(vendor)))
  {
    SoundParts(w.m);
    hide Sound, Noted, Watch, PcSound, SetupSound, Look;
    if w.m.pc.CopySetup? {
      CopyNoted(ds, w, vendor);
    } else if w.m.pc.Complete? {
      CompleteNoted(ds, w, vendor);
    } else {
      WaitNoted(ds, w, vendor);
    }
  }

  lemma CompleteNoted(ds: Descriptors, w: Watched, vendor: report)
    requires ds.Valid() && Noted(w) && PcSound(w.m) && w.m.pc.Complete? && Sound(Firmware(ds, w.m, vendor))
    ensures Noted(Watch(ds, w, Device(vendor)))
  {
    hide Sound, Decode, ReplyTo, Hand, Switch, Answer;
  }

  lemma WaitNoted(ds: Descriptors, w: Watched, vendor: report)
    requires ds.Valid() && Noted(w) && SetupSound(w.m) && Sound(Firmware(ds, w.m, vendor))
    requires !w.m.pc.Dispatch? && !Answers(w.m.pc) && !Hands(w.m.pc) && !w.m.pc.CopySetup? && !w.m.pc.Complete?
    ensures Noted(Watch(ds, w, Device(vendor)))
  {
    hide Sound, Decode, ReplyTo, Hand, Switch, Answer;
  }

  lemma SoundParts(m: Machine)
    requires Sound(m)
    ensures PcSound(m) && SetupSound(m) && FlagsSound(m) && EventSound(m)
  {
  }

  lemma CopyNoted(ds: Descriptors, w: Watched, vendor: report)
    requires ds.Valid() && Noted(w) && w.m.pc.CopySetup? && Sound(Firmware(ds, w.m, vendor))
    ensures Noted(Watch(ds, w, Device(vendor)))
  {
    hide Sound, Decode, ReplyTo, Hand, Switch, Answer;
  }

  // ----- runs without a harmful SETUP packet

  lemma BeginsNoted(w: Watched)
    requires Begins(w)
    ensures Noted(w)
  {
    hide Decode;
  }

  lemma {:induction false} WatchesKeep(ds: Descriptors, w: Watched, es: seq<Event>)
    requires ds.Valid() && Noted(w) && Careful(ds, w, es)
    ensures Noted(Watches(ds, w, es))
    decreases |es|
  {
    hide Noted, Watch, Risky;
    if es != [] {
      var front, e := es[..|es| - 1], es[|es| - 1];
      assert es[..|es| - 1] == front;
      assert forall i | 0 <= i < |front| :: front[..i] == es[..i] && front[i] == es[i];
      WatchesKeep(ds, w, front);
      WatchKeeps(ds, Watches(ds, w, front), e);
    }
  }

  /** The notes are only notes. */
  lemma {:induction false} WatchesAreEvents(ds: Descriptors, w: Watched, es: seq<Event>)
    requires ds.Valid()
    ensures Watches(ds, w, es).m == Events(ds, w.m, es)
    decreases |es|
  {
    hide Happen, Note;
    if es != [] { WatchesAreEvents(ds, w, es[..|es| - 1]); }
  }

  /** An address is taken from a SET_ADDRESS request for which, and for no other, the host has
      collected the last packet, an empty one. */
  ghost predicate Acknowledged(n: Notes, address: byte) {
    && 0 <= n.served < |n.asked| && n.acked == n.served && n.ack == []
    && n.asked[n.served].Is(USB_REQ_SetAddress) && address as int == n.asked[n.served].wValue % 128
  }

  /** In every run without a harmful SETUP packet the address changes only by a bus reset, to
      zero, or to the value of a SET_ADDRESS request whose own empty status packet has been
      collected. */
  lemma AddressChange(ds: Descriptors, start: Watched, es: seq<Event>, e: Event)
    requires ds.Valid() && Begins(start) && Careful(ds, start, es)
    ensures var w := Watches(ds, start, es);
            var address := Watch(ds, w, e).m.bus.dev.address;
            && !w.notes.wrong
            && (|| address == w.m.bus.dev.address
                || (w.m.resetting && address == 0)
                || Acknowledged(w.notes, address))
  {
    BeginsNoted(start);
    hide Noted, Watch, Watches, Acknowledged;
    WatchesKeep(ds, start, es);
    NotedAddress(ds, Watches(ds, start, es), e);
  }

  lemma NotedAddress(ds: Descriptors, w: Watched, e: Event)
    requires ds.Valid() && Noted(w)
    ensures var address := Watch(ds, w, e).m.bus.dev.address;
            && !w.notes.wrong
            && (|| address == w.m.bus.dev.address
                || (w.m.resetting && address == 0)
                || Acknowledged(w.notes, address))
  {
    assert PcSound(w.m);
    hide Sound, Decode, Firmware, Control.Receive;
    match e
    case Wire(t) => TokenAddress(w.m.bus, t);
    case BusReset =>
    case Device(vendor) => FirmwareAddress(ds, w.m, vendor);
  }

  lemma TokenAddress(b: Bus, t: Token)
    ensures Receive(b, t).dev.address == b.dev.address
  {
    hide Decode;
  }

  lemma FirmwareAddress(ds: Descriptors, m: Machine, vendor: report)
    requires ds.Valid()
    ensures var address := Firmware(ds, m, vendor).bus.dev.address;
            || address == m.bus.dev.address
            || (m.resetting && address == 0)
            || (TakesAddress(m) && address as int == m.bus.dev.setup.wValue % 128)
  {
    hide ReplyTo, Decode, First, Control.Rest;
  }

  // ----- and a harmful one does harm

  /** Some SETUP packet at this moment, and then none, can make the device take an address whose
      status packet has not been collected. */
  ghost predicate CanMislead(ds: Descriptors, w: Watched)
    requires ds.Valid()
  {
    exists p: setupPacket, fs: seq<Event> ::
      Calm(fs) && Watches(ds, Watch(ds, w, Wire(SetupToken(p))), fs).notes.wrong
  }

  lemma WatchExtend(ds: Descriptors, w: Watched, es: seq<Event>, e: Event)
    requires ds.Valid()
    ensures Watches(ds, w, es + [e]) == Watch(ds, Watches(ds, w, es), e)
    ensures Calm(es) && !IsSetup(e) ==> Calm(es + [e])
  {
    assert (es + [e])[..|es|] == es;
  }

  /** SET_ADDRESS is being answered, and another request is on the bus. */
  ghost predicate Overtaken(w: Watched, s: Setup, request: Request) {
    && w.m.bus.dev.setup == s && s.Is(USB_REQ_SetAddress) && !w.m.resetting && !w.m.bus.dev.stall
    && w.m.bus.log.request == request && w.notes.served < |w.notes.asked| - 1
  }

  ghost predicate Unsent(w: Watched) {
    w.m.bus.log.got == [] && w.m.bus.dev.inFlags.nack
  }

  lemma {:induction false} ArmsStatus(ds: Descriptors, w0: Watched, es: seq<Event>, s: Setup, request: Request,
                                      vendor: report)
    returns (fs: seq<Event>)
    requires ds.Valid() && Calm(es)
    requires var w := Watches(ds, w0, es);
             Overtaken(w, s, request) && Unsent(w) && Risky(w.m) && Sound(w.m)
    ensures Calm(fs)
    ensures var w := Watches(ds, w0, fs);
            && Overtaken(w, s, request) && w.m.pc == Configure && w.m.bus.log.got == []
            && w.m.bus.dev.inFlags == Flags(false, false) && w.m.bus.dev.packet == []
    decreases UntilArmed(Watches(ds, w0, es).m.pc)
  {
    var w := Watches(ds, w0, es);
    WatchExtend(ds, w0, es, Device(vendor));
    FirmwareSound(ds, w.m, vendor);
    AnswersAddress(ds, w, s, request, vendor);
    fs := es + [Device(vendor)];
    hide Overtaken, Unsent, Watch, Sound, Watches;
    if !w.m.pc.ArmPacket? { fs := ArmsStatus(ds, w0, fs, s, request, vendor); }
  }

  lemma AnswersAddress(ds: Descriptors, w: Watched, s: Setup, request: Request, vendor: report)
    requires ds.Valid() && Overtaken(w, s, request) && Unsent(w) && Risky(w.m) && Sound(w.m)
    ensures var now := Watch(ds, w, Device(vendor));
            && Sound(now.m) && Overtaken(now, s, request)
            && if w.m.pc.ArmPacket? then
                 && now.m.pc == Configure && now.m.bus.log.got == []
                 && now.m.bus.dev.inFlags == Flags(false, false) && now.m.bus.dev.packet == []
               else Unsent(now) && Risky(now.m) && UntilArmed(now.m.pc) < UntilArmed(w.m.pc)
  {
    FirmwareSound(ds, w.m, vendor);
    ReplyKinds(ds, w.m.bus.dev.setup, w.m.bus.dev.configuration, vendor);
    assert PcSound(w.m);
    hide Sound, Decode, ReplyTo, Look, Hand;
  }

  /** The status packet has been collected for the other request; four more accesses take the
      address. */
  lemma TakesWrongAddress(ds: Descriptors, w0: Watched, es: seq<Event>, s: Setup, request: Request, vendor: report)
    returns (fs: seq<Event>)
    requires ds.Valid() && Calm(es)
    requires var w := Watches(ds, w0, es);
             && Overtaken(w, s, request) && w.m.pc == Configure && w.m.bus.dev.inFlags == Flags(true, true)
             && w.m.bus.log.got == [[]] && w.notes.acked == |w.notes.asked| - 1
    ensures Calm(fs)
    ensures var w := Watches(ds, w0, fs);
            && w.notes.wrong && w.m.bus.dev.address as int == s.wValue % 128
            && w.m.bus.log.request == request && w.m.bus.log.got == [[]]
  {
    hide Watches, Decode, ReplyTo, Hand;
    var d := Device(vendor);
    WatchExtend(ds, w0, es, d);
    WatchExtend(ds, w0, es + [d], d);
    WatchExtend(ds, w0, es + [d] + [d], d);
    WatchExtend(ds, w0, es + [d] + [d] + [d], d);
    fs := es + [d] + [d] + [d] + [d];
  }

  /** At a risky moment every SETUP packet does harm. */
  lemma RiskyMisleads(ds: Descriptors, w: Watched, p: setupPacket, vendor: report) returns (fs: seq<Event>)
    requires ds.Valid() && Noted(w) && Risky(w.m) && !w.m.resetting
    ensures Calm(fs)
    ensures var now := Watches(ds, Watch(ds, w, Wire(SetupToken(p))), fs);
            && now.notes.wrong && now.m.bus.dev.address as int == w.m.bus.dev.setup.wValue % 128
            && now.m.bus.log.request == Requested(Decode(p)) && now.m.bus.log.got == [[]]
  {
    var s, request := w.m.bus.dev.setup, Requested(Decode(p));
    var w0 := Watch(ds, w, Wire(SetupToken(p)));
    SetupArrives(w.m.bus, p);
    ReceiveSound(w.m, SetupToken(p));
    assert Watches(ds, w0, []) == w0;
    assert Overtaken(w0, s, request) && Unsent(w0) && Risky(w0.m) by { hide Control.Receive, Decode, Sound; }
    hide Watches, Decode, Control.Receive, Sound, Noted, Watch;
    fs := ArmsStatus(ds, w0, [], s, request, vendor);
    WatchExtend(ds, w0, fs, Wire(InToken));
    StatusCollected(ds, Watches(ds, w0, fs), s, request);
    fs := TakesWrongAddress(ds, w0, fs + [Wire(InToken)], s, request, vendor);
  }

  lemma StatusCollected(ds: Descriptors, w: Watched, s: Setup, request: Request)
    requires ds.Valid() && Overtaken(w, s, request) && w.m.pc == Configure && w.m.bus.log.got == []
    requires w.m.bus.dev.inFlags == Flags(false, false) && w.m.bus.dev.packet == []
    ensures var now := Watch(ds, w, Wire(InToken));
            && Overtaken(now, s, request) && now.m.pc == Configure && now.m.bus.dev.inFlags == Flags(true, true)
            && now.m.bus.log.got == [[]] && now.notes.acked == |now.notes.asked| - 1
  {
  }

  /** After any run without a harmful SETUP packet, one that comes now can make the device take
      an address too early if and only if the moment is risky. */
  lemma AddressExact(ds: Descriptors, start: Watched, es: seq<Event>)
    requires ds.Valid() && Begins(start) && Careful(ds, start, es) && !Watches(ds, start, es).m.resetting
    ensures var w := Watches(ds, start, es);
            CanMislead(ds, w) <==> Risky(w.m)
  {
    var w := Watches(ds, start, es);
    BeginsNoted(start);
    hide Noted, Watch, Watches;
    WatchesKeep(ds, start, es);
    var vendor: report :| true;
    if Risky(w.m) {
      var p: setupPacket :| true;
      var fs := RiskyMisleads(ds, w, p, vendor);
    } else {
      forall p: setupPacket, fs: seq<Event> | Calm(fs)
        ensures !Watches(ds, Watch(ds, w, Wire(SetupToken(p))), fs).notes.wrong
      {
        SafeAfter(ds, w, p, fs);
      }
    }
  }

  lemma SafeAfter(ds: Descriptors, w: Watched, p: setupPacket, fs: seq<Event>)
    requires ds.Valid() && Noted(w) && !Risky(w.m) && Calm(fs)
    ensures !Watches(ds, Watch(ds, w, Wire(SetupToken(p))), fs).notes.wrong
  {
    var w0 := Watch(ds, w, Wire(SetupToken(p)));
    WatchKeeps(ds, w, Wire(SetupToken(p)));
    assert Careful(ds, w0, fs);
    hide Watch, Watches;
    WatchesKeep(ds, w0, fs);
  }

  // ----- a concrete run

  /** SET_ADDRESS is being answered when another request arrives. That request is never served,
      the host takes the status packet of SET_ADDRESS for its own, and the device takes the
      address. */
  lemma LateRequest(ds: Descriptors, start: Watched, p: setupPacket, q: setupPacket, vendor: report)
    returns (es: seq<Event>)
    requires ds.Valid() && Begins(start) && !start.m.resetting && Decode(p).Is(USB_REQ_SetAddress)
    ensures var w := Watches(ds, start, es);
            && w.notes.wrong && w.m.bus.dev.address as int == Decode(p).wValue % 128
            && w.m.bus.log.request == Requested(Decode(q)) && w.m.bus.log.got == [[]]
  {
    BeginsNoted(start);
    hide Watches, Decode, Noted, Watch;
    es := [Wire(SetupToken(p))] + Devices(vendor, 6);
    DispatchReached(ds, start, p, vendor);
    var w := Watches(ds, start, es);
    var fs := RiskyMisleads(ds, w, q, vendor);
    var setup := [Wire(SetupToken(q))];
    WatchExtend(ds, start, es, Wire(SetupToken(q)));
    WatchesAppend(ds, start, es + setup, fs);
    es := es + setup + fs;
  }

  lemma {:induction false} WatchesAppend(ds: Descriptors, w: Watched, es: seq<Event>, fs: seq<Event>)
    requires ds.Valid()
    ensures Watches(ds, w, es + fs) == Watches(ds, Watches(ds, w, es), fs)
    decreases |fs|
  {
    assert Watches(ds, Watches(ds, w, es), []) == Watches(ds, w, es);
    hide *;
    if fs == [] {
      assert es + fs == es;
    } else {
      var front, last := fs[..|fs| - 1], fs[|fs| - 1];
      WatchesAppend(ds, w, es, front);
      WatchExtend(ds, w, es + front, last);
      WatchExtend(ds, Watches(ds, w, es), front, last);
      Regroup(es, fs);
    }
  }

  lemma DispatchReached(ds: Descriptors, start: Watched, p: setupPacket, vendor: report)
    requires ds.Valid() && Begins(start) && !start.m.resetting && Decode(p).Is(USB_REQ_SetAddress)
    ensures var w := Watches(ds, start, [Wire(SetupToken(p))] + Devices(vendor, 6));
            && Noted(w) && Risky(w.m) && !w.m.resetting && w.m.bus.dev.setup == Decode(p)
  {
    var es := [Wire(SetupToken(p))] + Devices(vendor, 6);
    BeginsNoted(start);
    CarefulStart(ds, start, p, vendor);
    hide Watches, Decode, Noted, Events;
    WatchesKeep(ds, start, es);
    WatchesAreEvents(ds, start, es);
    DispatchAfterReset(ds, start.m, p, vendor);
  }

  lemma DispatchAfterReset(ds: Descriptors, m: Machine, p: setupPacket, vendor: report)
    requires ds.Valid() && JustReset(m) && !m.resetting
    ensures var now := Events(ds, m, [Wire(SetupToken(p))] + Devices(vendor, 6));
            now.pc == Dispatch && !now.resetting && now.bus.dev.setup == Decode(p)
  {
    var m1 := Asked(m, p);
    SetupArrives(m.bus, p);
    hide Decode, Control.Receive, Events;
    var m2 := CopiesAgain(ds, m1, vendor);
    var m3 := Firmware(ds, m2, vendor);
    assert m3.pc == Dispatch && !m3.resetting && m3.bus.dev.setup == Decode(p);
    hide *;
    StepsAppend(ds, m1, vendor, 5, 1);
    StepsFirst(ds, m2, vendor, 1);
    StepsFirst(ds, m3, vendor, 0);
    SetupThenSteps(ds, m, p, vendor);
  }

  lemma SetupThenSteps(ds: Descriptors, m: Machine, p: setupPacket, vendor: report)
    requires ds.Valid() && !m.resetting
    ensures Events(ds, m, [Wire(SetupToken(p))] + Devices(vendor, 6)) == Steps(ds, Asked(m, p), vendor, 6)
  {
    NoEvents(ds, m);
    Extend(ds, m, [], Wire(SetupToken(p)));
    assert [] + [Wire(SetupToken(p))] == [Wire(SetupToken(p))];
    hide Events, Control.Receive, Steps;
    Append(ds, m, [Wire(SetupToken(p))], Devices(vendor, 6));
    StepsAreEvents(ds, Asked(m, p), vendor, 6);
  }

  lemma CarefulStart(ds: Descriptors, start: Watched, p: setupPacket, vendor: report)
    requires ds.Valid() && Begins(start)
    ensures Careful(ds, start, [Wire(SetupToken(p))] + Devices(vendor, 6))
  {
    var es := [Wire(SetupToken(p))] + Devices(vendor, 6);
    assert es[..0] == [];
    assert forall i :: 0 < i < |es| ==> es[i] == Device(vendor);
  }
}
