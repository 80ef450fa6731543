/** Endpoint 0: a descriptor request is answered in full, however the firmware's accesses and
    the host's tokens are interleaved, as long as neither side stops. Of the moments at which a
    SETUP packet spoils nothing, those at which its request is lost are exactly those of
    `Deaf`. */
module ControlFair {
  import opened Bits
  import opened Protocol
  import opened Control
  import opened ControlRuns
  import opened ControlOrder
  import opened Schedules

  /** A SETUP packet at this moment is overlooked, as usb_ep0_out is still to come for an older
      request and clears its flag, or is answered with a stall that is meant for an older one. */
  ghost predicate Deaf(ds: Descriptors, m: Machine)
    requires ds.Valid()
  {
    Opens(m.pc) || (m.pc.Dispatch? && ReplyOf(ds, m.bus).Stall?)
  }

  // ----- lost requests

  ghost predicate Lost(ds: Descriptors, m: Machine)
    requires ds.Valid()
  {
    var d := m.bus.dev;
    && Sound(m) && m.bus.log.got == []
    && (d.stall || (&& d.inFlags.nack && !Arms(ds, m, d.setupArrived) && !m.pc.ClearSetup? && !m.pc.CopySetup?
                    && (d.setupArrived ==> Deaf(ds, m))))
  }

  lemma SetupLost(ds: Descriptors, m: Machine, p: setupPacket)
    requires ds.Valid() && Sound(m) && !Spoils(ds, m) && Deaf(ds, m)
    ensures Lost(ds, Asked(m, p))
  {
    ReceiveSound(m, SetupToken(p));
    SetupArrives(m.bus, p);
    SameReplyKind(ds, m.bus, Asked(m, p).bus);
    hide Sound, Control.Receive, Decode, ReplyTo;
  }

  lemma TokenLost(ds: Descriptors, m: Machine, t: Token)
    requires ds.Valid() && Lost(ds, m) && !t.SetupToken?
    ensures Lost(ds, m.(bus := Receive(m.bus, t)))
  {
    ReceiveSound(m, t);
    TokenEffect(m.bus, t);
    SameReplyKind(ds, m.bus, Receive(m.bus, t));
    hide Sound, Control.Receive, ReplyTo;
  }

  lemma FirmwareLost(ds: Descriptors, m: Machine, vendor: report)
    requires ds.Valid() && Lost(ds, m)
    ensures Lost(ds, Firmware(ds, m, vendor))
  {
    FirmwareSound(ds, m, vendor);
    hide Look, Answer, Hand, Switch, Sound, ReplyTo, Lost;
    if m.pc.Dispatch? {
      DispatchLost(ds, m, vendor);
    } else if Answers(m.pc) {
      AnswerLost(ds, m, vendor);
    } else if Hands(m.pc) {
      HandLost(ds, m, vendor);
    } else {
      LookLost(ds, m, vendor);
    }
  }

  lemma DispatchLost(ds: Descriptors, m: Machine, vendor: report)
    requires ds.Valid() && Lost(ds, m) && m.pc.Dispatch? && Sound(Firmware(ds, m, vendor))
    ensures Lost(ds, Firmware(ds, m, vendor))
  {
    ReplyKinds(ds, m.bus.dev.setup, m.bus.dev.configuration, vendor);
    SameReplyKind(ds, m.bus, m.bus.(log := m.bus.log.(vendor := vendor)));
    hide Sound, ReplyTo, Look, Answer, Hand;
  }

  lemma AnswerLost(ds: Descriptors, m: Machine, vendor: report)
    requires ds.Valid() && Lost(ds, m) && Answers(m.pc) && Sound(Firmware(ds, m, vendor))
    ensures Lost(ds, Firmware(ds, m, vendor))
  {
    assert PcSound(m);
    hide Sound, ReplyTo, Look, Switch, Hand;
  }

  lemma HandLost(ds: Descriptors, m: Machine, vendor: report)
    requires ds.Valid() && Lost(ds, m) && Hands(m.pc) && Sound(Firmware(ds, m, vendor))
    ensures Lost(ds, Firmware(ds, m, vendor))
  {
    assert PcSound(m);
    hide Sound, ReplyTo, Look, Switch, Answer, First, Control.Rest;
  }

  lemma LookLost(ds: Descriptors, m: Machine, vendor: report)
    requires ds.Valid() && Lost(ds, m) && Sound(Firmware(ds, m, vendor))
    requires !m.pc.Dispatch? && !Answers(m.pc) && !Hands(m.pc)
    ensures Lost(ds, Firmware(ds, m, vendor))
  {
    assert PcSound(m);
    hide Sound, ReplyTo, Answer, Hand, Switch, Decode;
  }

  /** A request whose SETUP packet finds the firmware deaf is never given a packet. */
  lemma {:induction false} NeverAnswered(ds: Descriptors, m: Machine, p: setupPacket, fs: seq<Event>)
    requires ds.Valid() && Sound(m) && !Spoils(ds, m) && Deaf(ds, m) && Calm(fs)
    ensures Lost(ds, Events(ds, Asked(m, p), fs)) && Events(ds, Asked(m, p), fs).bus.log.got == []
    decreases |fs|
  {
    if fs == [] {
      SetupLost(ds, m, p);
    } else {
      var front, e := fs[..|fs| - 1], fs[|fs| - 1];
      NeverAnswered(ds, m, p, front);
      hide Asked, Sound, Arms, Spoils, Control.Receive, Firmware;
      var now := Events(ds, Asked(m, p), front);
      match e
      case Wire(t) => if !now.resetting { TokenLost(ds, now, t); }
      case BusReset => HappenSound(ds, now, BusReset); FlagLost(ds, now);
      case Device(vendor) => FirmwareLost(ds, now, vendor);
    }
  }

  lemma FlagLost(ds: Descriptors, m: Machine)
    requires ds.Valid() && Lost(ds, m) && Sound(m.(resetting := true))
    ensures Lost(ds, m.(resetting := true))
  {
    hide Sound, ReplyTo;
  }

  // ----- requests that are heard

  /** The request s is on the bus and will be answered, or is being answered. */
  ghost predicate Coming(ds: Descriptors, m: Machine, s: Setup)
    requires ds.Valid()
  {
    && Ordered(ds, m, false) && !m.resetting && !m.bus.dev.stall && m.bus.log.request == Requested(s)
    && (Serves(ds, m, false) || (Pending(m) && !Deaf(ds, m)))
  }

  predicate Pending(m: Machine) {
    m.bus.dev.setupArrived || m.pc.CopySetup?
  }

  lemma SetupComing(ds: Descriptors, m: Machine, p: setupPacket)
    requires ds.Valid() && Sound(m) && !m.resetting && !Spoils(ds, m) && !Deaf(ds, m)
    ensures Coming(ds, Asked(m, p), Decode(p))
  {
    SetupKeeps(ds, m, p, false);
    SetupArrives(m.bus, p);
    SameReplyKind(ds, m.bus, Asked(m, p).bus);
    hide Ordered, Sound, Control.Receive, Decode, ReplyTo, Spoils, Serves;
  }

  /** How far the next chunk is from the host. */
  function Wait(m: Machine): nat {
    if !m.bus.dev.inFlags.nack then 0
    else if Pending(m) then
      match m.pc
      case CopySetup => 21
      case ClearSetup => 22
      case ReadStatus => 23
      case ClearEvent => 24
      case TestEvent => 25
      case PollStart => 26
      case Complete => 27
      case TestIn => 28
      case Advance(first) => if first then 29 else 27
      case Dispatch => 29
      case _ => 30
    else UntilArmed(m.pc)
  }

  datatype Turn = FirmwareTurn | CollectTurn | StatusTurn | OtherTurn

  function EventOf(turn: Turn, vendor: report): Event {
    match turn
    case FirmwareTurn => Device(vendor)
    case CollectTurn => Wire(InToken)
    case StatusTurn => Wire(OutToken([]))
    case OtherTurn => Wire(OtherEndpoint)
  }

  function Helper(m: Machine): Turn {
    if m.bus.dev.inFlags.nack then FirmwareTurn else CollectTurn
  }

  ghost predicate Advances(m: Machine, turn: Turn, now: Machine) {
    || |now.bus.log.got| == |m.bus.log.got| + 1
    || (now.bus.log.got == m.bus.log.got && Wait(now) < Wait(m))
    || (now.bus.log.got == m.bus.log.got && Wait(now) == Wait(m) && turn != Helper(m) && Helper(now) == Helper(m))
  }

  lemma TurnAdvances(ds: Descriptors, m: Machine, s: Setup, turn: Turn, vendor: report)
    requires ds.Valid() && Coming(ds, m, s) && s.Is(USB_REQ_GetDescriptor) && ds.Has(s)
    ensures var now := Happen(ds, m, EventOf(turn, vendor));
            Coming(ds, now, s) && Advances(m, turn, now)
  {
    NotResetting(ds, m, s);
    hide Coming, Advances, Control.Receive, Firmware;
    match turn
    case FirmwareTurn => FirmwareAdvances(ds, m, s, vendor);
    case CollectTurn => TokenAdvances(ds, m, s, turn, InToken);
    case StatusTurn => TokenAdvances(ds, m, s, turn, OutToken([]));
    case OtherTurn => TokenAdvances(ds, m, s, turn, OtherEndpoint);
  }

  lemma NotResetting(ds: Descriptors, m: Machine, s: Setup)
    requires ds.Valid() && Coming(ds, m, s)
    ensures !m.resetting && Ordered(ds, m, false)
  {
  }

  lemma TokenAdvances(ds: Descriptors, m: Machine, s: Setup, turn: Turn, t: Token)
    requires ds.Valid() && Coming(ds, m, s) && !t.SetupToken? && (t.InToken? <==> turn.CollectTurn?)
             && !turn.FirmwareTurn?
    ensures var now := m.(bus := Receive(m.bus, t));
            Coming(ds, now, s) && Advances(m, turn, now)
  {
    TokenKeeps(ds, m, t, false);
    TokenEffect(m.bus, t);
    SameReplyKind(ds, m.bus, Receive(m.bus, t));
    if Serves(ds, m, false) { TokenServes(ds, m, t, false); }
    TokenCollects(m.bus, t);
    hide Ordered, Serves, Control.Receive, ReplyTo;
  }

  lemma TokenCollects(b: Bus, t: Token)
    requires !b.dev.stall
    ensures t.InToken? && !b.dev.inFlags.nack ==> |Receive(b, t).log.got| == |b.log.got| + 1
    ensures !t.InToken? && !t.SetupToken? ==>
            Receive(b, t).log.got == b.log.got && Receive(b, t).dev.inFlags == b.dev.inFlags
  {
  }

  lemma FirmwareAdvances(ds: Descriptors, m: Machine, s: Setup, vendor: report)
    requires ds.Valid() && Coming(ds, m, s) && s.Is(USB_REQ_GetDescriptor) && ds.Has(s)
    ensures var now := Firmware(ds, m, vendor);
            Coming(ds, now, s) && Advances(m, FirmwareTurn, now)
  {
    FirmwareKeeps(ds, m, vendor, false);
    HasAny(ds, s);
    hide Ordered, Firmware, ReplyTo, Serves;
    if Serves(ds, m, false) {
      ServesAdvances(ds, m, s, vendor);
    } else {
      PendingAdvances(ds, m, s, vendor);
    }
  }

  lemma ServesAdvances(ds: Descriptors, m: Machine, s: Setup, vendor: report)
    requires ds.Valid() && Coming(ds, m, s) && Serves(ds, m, false) && s.Is(USB_REQ_GetDescriptor)
    requires ds.Has(s) && AnyDescriptor(ds) && Ordered(ds, Firmware(ds, m, vendor), false)
    ensures var now := Firmware(ds, m, vendor);
            Coming(ds, now, s) && Advances(m, FirmwareTurn, now)
  {
    ReplyKinds(ds, m.bus.dev.setup, m.bus.dev.configuration, vendor);
    ReplyKinds(ds, m.bus.dev.setup, m.bus.dev.configuration, m.bus.log.vendor);
    assert Sound(m) && Sound(Firmware(ds, m, vendor));
    assert PcSound(m) && FlagsSound(m) && EventSound(m);
    hide Ordered, Sound, ReplyTo, Decode, First, Control.Rest, After, Front, Answer, FlagsSound, PcSound, EventSound;
    if m.pc.Dispatch? {
      hide Look, Hand;
    } else if Hands(m.pc) {
      HandServes(ds, m, false);
      hide Look, Switch, ChunkOut, ChunkDue;
    } else {
      LookServes(ds, m, false);
      hide Hand, Switch;
    }
  }

  lemma PendingAdvances(ds: Descriptors, m: Machine, s: Setup, vendor: report)
    requires ds.Valid() && Coming(ds, m, s) && !Serves(ds, m, false) && Ordered(ds, Firmware(ds, m, vendor), false)
    requires s.Is(USB_REQ_GetDescriptor) && ds.Has(s)
    ensures var now := Firmware(ds, m, vendor);
            Coming(ds, now, s) && Advances(m, FirmwareTurn, now)
  {
    assert SetupSound(m);
    hide Sound, ReplyTo, Serves, Coming, Advances, Firmware, Ordered;
    if m.pc.CopySetup? {
      CopyAdvances(ds, m, s, vendor);
    } else if m.pc.Dispatch? || Answers(m.pc) || Hands(m.pc) {
      HandPending(ds, m, s, vendor);
    } else {
      LookPending(ds, m, s, vendor);
    }
  }

  lemma CopyAdvances(ds: Descriptors, m: Machine, s: Setup, vendor: report)
    requires ds.Valid() && Coming(ds, m, s) && Ordered(ds, Firmware(ds, m, vendor), false) && m.pc.CopySetup?
    requires s.Is(USB_REQ_GetDescriptor) && ds.Has(s) && SetupSound(m) && !Serves(ds, m, false)
    ensures var now := Firmware(ds, m, vendor);
            Coming(ds, now, s) && Advances(m, FirmwareTurn, now)
  {
    CopyServes(ds, m, s, vendor);
    HasAny(ds, s);
    hide Sound, ReplyTo, Decode, Serves, Switch, Answer, Hand;
  }

  lemma HandPending(ds: Descriptors, m: Machine, s: Setup, vendor: report)
    requires ds.Valid() && Coming(ds, m, s) && !Serves(ds, m, false) && Ordered(ds, Firmware(ds, m, vendor), false)
    requires m.pc.Dispatch? || Answers(m.pc) || Hands(m.pc)
    ensures var now := Firmware(ds, m, vendor);
            Coming(ds, now, s) && Advances(m, FirmwareTurn, now)
  {
    ReplyKinds(ds, m.bus.dev.setup, m.bus.dev.configuration, vendor);
    SameReplyKind(ds, m.bus, m.bus.(log := m.bus.log.(vendor := vendor)));
    hide Sound, ReplyTo, First, Control.Rest, Serves, Look, Answer;
  }

  lemma LookPending(ds: Descriptors, m: Machine, s: Setup, vendor: report)
    requires ds.Valid() && Coming(ds, m, s) && !Serves(ds, m, false) && Ordered(ds, Firmware(ds, m, vendor), false)
    requires !m.pc.Dispatch? && !Answers(m.pc) && !Hands(m.pc) && !m.pc.CopySetup?
    ensures var now := Firmware(ds, m, vendor);
            Coming(ds, now, s) && Advances(m, FirmwareTurn, now)
  {
    assert EventSound(m);
    hide Sound, ReplyTo, Decode, Serves, Switch, Answer, Hand;
  }

  lemma CopyServes(ds: Descriptors, m: Machine, s: Setup, vendor: report)
    requires ds.Valid() && m.pc.CopySetup? && SetupSound(m) && m.bus.log.request == Requested(s)
    requires s.Is(USB_REQ_GetDescriptor) && ds.Has(s) && Ordered(ds, Firmware(ds, m, vendor), false) && !m.bus.dev.stall
    ensures Serves(ds, Firmware(ds, m, vendor), false)
  {
    ReplyKinds(ds, s, m.bus.dev.configuration, m.bus.log.vendor);
    hide Sound, ReplyTo, Decode, Switch, Answer, Hand;
  }

  // ----- fair runs

  ghost predicate FairTurns(turns: nat -> Turn) {
    forall t: nat :: Again(turns, FirmwareTurn, t) && Again(turns, CollectTurn, t) && Again(turns, StatusTurn, t)
  }

  /** The machine after t turns. */
  function RunAt(ds: Descriptors, m: Machine, turns: nat -> Turn, vendors: nat -> report, t: nat): Machine
    requires ds.Valid()
  {
    if t == 0 then m else Happen(ds, RunAt(ds, m, turns, vendors, t - 1), EventOf(turns(t - 1), vendors(t - 1)))
  }

  lemma RunNext(ds: Descriptors, m: Machine, turns: nat -> Turn, vendors: nat -> report, t: nat)
    requires ds.Valid()
    ensures RunAt(ds, m, turns, vendors, t + 1) ==
            Happen(ds, RunAt(ds, m, turns, vendors, t), EventOf(turns(t), vendors(t)))
  {
  }

  ghost predicate Asks(ds: Descriptors, s: Setup)
    requires ds.Valid()
  {
    s.Is(USB_REQ_GetDescriptor) && ds.Has(s)
  }

  lemma NextHelper(turns: nat -> Turn, turn: Turn, t: nat) returns (w: nat)
    requires FairTurns(turns) && !turn.OtherTurn?
    ensures t <= w && turns(w) == turn
  {
    assert Again(turns, FirmwareTurn, t);
    w := NextTurn(turns, turn, t);
  }

  /** Sooner or later the host collects another packet. */
  lemma {:induction false} ChunkComes(ds: Descriptors, m: Machine, s: Setup, turns: nat -> Turn, vendors: nat -> report,
                                      t: nat, w: nat) returns (u: nat)
    requires ds.Valid() && Asks(ds, s) && FairTurns(turns)
    requires Good(ds, RunAt(ds, m, turns, vendors, t), s)
    requires t <= w && turns(w) == Helper(RunAt(ds, m, turns, vendors, t))
    ensures t <= u && Good(ds, RunAt(ds, m, turns, vendors, u), s)
    ensures |RunAt(ds, m, turns, vendors, u).bus.log.got| == |RunAt(ds, m, turns, vendors, t).bus.log.got| + 1
    decreases Wait(RunAt(ds, m, turns, vendors, t)), w - t
  {
    hide *;
    var now, next := RunAt(ds, m, turns, vendors, t), RunAt(ds, m, turns, vendors, t + 1);
    RunNext(ds, m, turns, vendors, t);
    GoodTurn(ds, now, s, turns(t), vendors(t));
    Either(now, turns(t), next);
    if |next.bus.log.got| == |now.bus.log.got| + 1 {
      u := t + 1;
    } else if Wait(next) < Wait(now) {
      HelperKinds(next);
      var w' := NextHelper(turns, Helper(next), t + 1);
      u := ChunkComes(ds, m, s, turns, vendors, t + 1, w');
    } else {
      u := ChunkComes(ds, m, s, turns, vendors, t + 1, w);
    }
  }

  lemma HelperKinds(m: Machine)
    ensures !Helper(m).OtherTurn?
  {
  }

  lemma Either(m: Machine, turn: Turn, now: Machine)
    requires Advances(m, turn, now)
    ensures |now.bus.log.got| == |m.bus.log.got| + 1 ||
            (now.bus.log.got == m.bus.log.got &&
             (Wait(now) < Wait(m) || (Wait(now) == Wait(m) && turn != Helper(m) && Helper(now) == Helper(m))))
  {
    hide Wait, Helper;
  }

  // ----- the status stage

  predicate Opened(b: Bus) {
    !b.dev.outFlags.nack || b.log.closed
  }

  /** The status stage is opened no later than right after the packet behind the last byte. */
  ghost predicate OpensInTime(m: Machine, data: seq<byte>) {
    var k := |m.bus.log.got|;
    || Opened(m.bus)
    || m.pc.OpenChunk?
    || if m.bus.dev.inFlags.nack then k == 0 || |data| > 64 * (k - 1) else |data| > 64 * k
  }

  ghost predicate Good(ds: Descriptors, m: Machine, s: Setup)
    requires ds.Valid()
  {
    Asks(ds, s) && Coming(ds, m, s) && OpensInTime(m, ds.Data(s))
  }

  lemma GoodTurn(ds: Descriptors, m: Machine, s: Setup, turn: Turn, vendor: report)
    requires ds.Valid() && Good(ds, m, s)
    ensures var now := Happen(ds, m, EventOf(turn, vendor));
            Good(ds, now, s) && Advances(m, turn, now) && (Opened(m.bus) ==> Opened(now.bus))
  {
    TurnAdvances(ds, m, s, turn, vendor);
    NotResetting(ds, m, s);
    hide Coming, Advances, Control.Receive, Firmware, OpensInTime, Opened;
    match turn
    case FirmwareTurn => FirmwareOpens(ds, m, s, vendor);
    case CollectTurn => TokenOpens(m, InToken, ds.Data(s));
    case StatusTurn => TokenOpens(m, OutToken([]), ds.Data(s));
    case OtherTurn => TokenOpens(m, OtherEndpoint, ds.Data(s));
  }

  lemma TokenOpens(m: Machine, t: Token, data: seq<byte>)
    requires OpensInTime(m, data) && !t.SetupToken?
    ensures var now := m.(bus := Receive(m.bus, t));
            OpensInTime(now, data) && (Opened(m.bus) ==> Opened(now.bus))
  {
  }

  lemma FirmwareOpens(ds: Descriptors, m: Machine, s: Setup, vendor: report)
    requires ds.Valid() && Coming(ds, m, s) && Asks(ds, s) && OpensInTime(m, ds.Data(s))
    ensures var now := Firmware(ds, m, vendor);
            OpensInTime(now, ds.Data(s)) && (Opened(m.bus) ==> Opened(now.bus))
  {
    hide Look, Answer, Hand, Switch, ReplyTo, Coming, OpensInTime, Opened;
    if m.pc.Dispatch? {
      DispatchOpens(ds, m, vendor, ds.Data(s));
    } else if Answers(m.pc) {
      NoPacket(ds, m, s);
    } else if Hands(m.pc) {
      HandOpens(ds, m, s);
    } else {
      NotResetting(ds, m, s);
      LookOpens(m, ds.Data(s));
    }
  }

  lemma DispatchOpens(ds: Descriptors, m: Machine, vendor: report, data: seq<byte>)
    requires ds.Valid() && m.pc.Dispatch? && OpensInTime(m, data)
    ensures var now := Firmware(ds, m, vendor);
            OpensInTime(now, data) && (Opened(m.bus) ==> Opened(now.bus))
  {
    hide ReplyTo, Look, Answer, Hand;
  }

  /** A descriptor request is not answered with a single packet. */
  lemma NoPacket(ds: Descriptors, m: Machine, s: Setup)
    requires ds.Valid() && Coming(ds, m, s) && Asks(ds, s)
    ensures !Answers(m.pc)
  {
    ReplyKinds(ds, m.bus.dev.setup, m.bus.dev.configuration, m.bus.log.vendor);
    hide Sound, ReplyTo, Descriptors.Data, Descriptors.Has, ChunkDue, ChunkOut, Settled, Fresh, PacketOut;
  }

  lemma HandOpens(ds: Descriptors, m: Machine, s: Setup)
    requires ds.Valid() && Coming(ds, m, s) && Asks(ds, s) && Hands(m.pc) && OpensInTime(m, ds.Data(s))
    ensures OpensInTime(Hand(m), ds.Data(s)) && (Opened(m.bus) ==> Opened(Hand(m).bus))
  {
    ReplyKinds(ds, m.bus.dev.setup, m.bus.dev.configuration, m.bus.log.vendor);
    AfterAll(ds.Data(s), |m.bus.log.got|);
    hide Sound, ReplyTo, First, Control.Rest, After, Descriptors.Data, Descriptors.Has;
  }

  lemma LookOpens(m: Machine, data: seq<byte>)
    requires !m.pc.Dispatch? && !Answers(m.pc) && !Hands(m.pc) && !m.resetting && OpensInTime(m, data)
    ensures OpensInTime(Look(m), data) && (Opened(m.bus) ==> Opened(Look(m).bus))
  {
    hide Decode;
  }

  // ----- the whole transfer

  lemma {:induction false} ChunksCome(ds: Descriptors, m: Machine, s: Setup, turns: nat -> Turn,
                                      vendors: nat -> report, n: nat)
    returns (u: nat)
    requires ds.Valid() && FairTurns(turns) && Good(ds, m, s) && m.bus.log.got == []
    ensures Good(ds, RunAt(ds, m, turns, vendors, u), s)
    ensures |RunAt(ds, m, turns, vendors, u).bus.log.got| == n
  {
    hide Good, Happen;
    if n == 0 {
      u := 0;
    } else {
      var t := ChunksCome(ds, m, s, turns, vendors, n - 1);
      var now := RunAt(ds, m, turns, vendors, t);
      HelperKinds(now);
      var w := NextHelper(turns, Helper(now), t);
      assert Asks(ds, s) by { GoodAsks(ds, now, s); }
      u := ChunkComes(ds, m, s, turns, vendors, t, w);
    }
  }

  lemma GoodAsks(ds: Descriptors, m: Machine, s: Setup)
    requires ds.Valid() && Good(ds, m, s)
    ensures Asks(ds, s) && ds.Has(s) && Coming(ds, m, s) && OpensInTime(m, ds.Data(s))
  {
  }

  lemma {:induction false} GoodUntil(ds: Descriptors, m: Machine, s: Setup, turns: nat -> Turn, vendors: nat -> report,
                                     t: nat, u: nat)
    requires ds.Valid() && Good(ds, RunAt(ds, m, turns, vendors, t), s) && t <= u
    ensures Good(ds, RunAt(ds, m, turns, vendors, u), s)
    ensures Opened(RunAt(ds, m, turns, vendors, t).bus) ==> Opened(RunAt(ds, m, turns, vendors, u).bus)
    ensures |RunAt(ds, m, turns, vendors, t).bus.log.got| <= |RunAt(ds, m, turns, vendors, u).bus.log.got|
    decreases u - t
  {
    hide *;
    if t < u {
      var now := RunAt(ds, m, turns, vendors, t);
      RunNext(ds, m, turns, vendors, t);
      GoodTurn(ds, now, s, turns(t), vendors(t));
      Either(now, turns(t), RunAt(ds, m, turns, vendors, t + 1));
      GoodUntil(ds, m, s, turns, vendors, t + 1, u);
    }
  }

  /** In every fair run without a further SETUP packet, a descriptor request that is heard is
      answered in full: the host collects all of it, and its status packet is accepted. */
  lemma ControlRead(ds: Descriptors, m: Machine, p: setupPacket, turns: nat -> Turn, vendors: nat -> report)
    returns (t: nat)
    requires ds.Valid() && Sound(m) && !m.resetting && !Spoils(ds, m) && !Deaf(ds, m)
    requires Decode(p).Is(USB_REQ_GetDescriptor) && ds.Has(Decode(p)) && FairTurns(turns)
    ensures var b := RunAt(ds, Asked(m, p), turns, vendors, t).bus;
            && b.log.request == Requested(Decode(p))
            && Joined(b.log.got) == ds.Data(Decode(p)) && b.log.closed
  {
    SetupGood(ds, m, p);
    hide *;
    t := OpensSometime(ds, Asked(m, p), Decode(p), turns, vendors);
    t := ClosesSometime(ds, Asked(m, p), Decode(p), turns, vendors, t);
    AllCollected(ds, RunAt(ds, Asked(m, p), turns, vendors, t), Decode(p));
  }

  lemma OpensSometime(ds: Descriptors, m: Machine, s: Setup, turns: nat -> Turn, vendors: nat -> report)
    returns (t: nat)
    requires ds.Valid() && FairTurns(turns) && Good(ds, m, s) && m.bus.log.got == []
    ensures var now := RunAt(ds, m, turns, vendors, t);
            Good(ds, now, s) && Opened(now.bus) && Enough(ds, now, s)
  {
    hide *;
    GoodAsks(ds, m, s);
    t := ChunksCome(ds, m, s, turns, vendors, |ds.Data(s)| + 2);
    var w := NextHelper(turns, FirmwareTurn, t);
    GoodUntil(ds, m, s, turns, vendors, t, w);
    RunNext(ds, m, turns, vendors, w);
    FirmwareTurnIs(vendors(w));
    GoodUntil(ds, m, s, turns, vendors, w, w + 1);
    OpenedSoon(ds, RunAt(ds, m, turns, vendors, w), s, vendors(w));
    t := w + 1;
    EnoughIs(ds, RunAt(ds, m, turns, vendors, t), s);
  }

  /** More packets than the descriptor can have. */
  ghost predicate Enough(ds: Descriptors, m: Machine, s: Setup)
    requires ds.Valid()
  {
    ds.Has(s) && |m.bus.log.got| >= |ds.Data(s)|
  }

  lemma EnoughIs(ds: Descriptors, m: Machine, s: Setup)
    requires ds.Valid() && Good(ds, m, s) && ds.Has(s)
    ensures Enough(ds, m, s) <==> |m.bus.log.got| >= |ds.Data(s)|
  {
    hide Good;
  }

  lemma FirmwareTurnIs(vendor: report)
    ensures EventOf(FirmwareTurn, vendor) == Device(vendor) && EventOf(StatusTurn, vendor) == Wire(OutToken([]))
  {
  }

  lemma ClosesSometime(ds: Descriptors, m: Machine, s: Setup, turns: nat -> Turn, vendors: nat -> report, t: nat)
    returns (u: nat)
    requires ds.Valid() && FairTurns(turns)
    requires var now := RunAt(ds, m, turns, vendors, t); Good(ds, now, s) && Opened(now.bus) && Enough(ds, now, s)
    ensures var now := RunAt(ds, m, turns, vendors, u);
            Good(ds, now, s) && now.bus.log.closed && Enough(ds, now, s)
  {
    hide *;
    var x := NextHelper(turns, StatusTurn, t);
    GoodUntil(ds, m, s, turns, vendors, t, x);
    RunNext(ds, m, turns, vendors, x);
    FirmwareTurnIs(vendors(x));
    u := x + 1;
    GoodUntil(ds, m, s, turns, vendors, t, u);
    Closes(ds, RunAt(ds, m, turns, vendors, x), s);
    EnoughStays(ds, RunAt(ds, m, turns, vendors, t), RunAt(ds, m, turns, vendors, u), s);
  }

  lemma EnoughStays(ds: Descriptors, m: Machine, now: Machine, s: Setup)
    requires ds.Valid() && Enough(ds, m, s) && |m.bus.log.got| <= |now.bus.log.got|
    ensures Enough(ds, now, s)
  {
    hide Descriptors.Data, Descriptors.Has;
  }

  lemma SetupGood(ds: Descriptors, m: Machine, p: setupPacket)
    requires ds.Valid() && Sound(m) && !m.resetting && !Spoils(ds, m) && !Deaf(ds, m) && Asks(ds, Decode(p))
    ensures Good(ds, Asked(m, p), Decode(p)) && Asked(m, p).bus.log.got == []
  {
    SetupComing(ds, m, p);
    SetupArrives(m.bus, p);
    hide Coming, Sound, Control.Receive, Decode, Spoils;
  }

  lemma OpenedSoon(ds: Descriptors, m: Machine, s: Setup, vendor: report)
    requires ds.Valid() && Good(ds, m, s) && ds.Has(s) && |m.bus.log.got| >= |ds.Data(s)| + 2
    ensures Opened(Happen(ds, m, Device(vendor)).bus)
  {
    NotResetting(ds, m, s);
    GoodTurn(ds, m, s, FirmwareTurn, vendor);
    hide Coming, Look, Answer, Switch, Good;
    GoodAsks(ds, m, s);
  }

  lemma Closes(ds: Descriptors, m: Machine, s: Setup)
    requires ds.Valid() && Good(ds, m, s) && Opened(m.bus)
    ensures Happen(ds, m, Wire(OutToken([]))).bus.log.closed
  {
    hide Ordered, Serves, Deaf, Pending, OpensInTime;
  }

  lemma AllCollected(ds: Descriptors, m: Machine, s: Setup)
    requires ds.Valid() && Good(ds, m, s) && Enough(ds, m, s)
    ensures m.bus.log.request == Requested(s) && Joined(m.bus.log.got) == ds.Data(s)
  {
    OrderedInOrder(ds, m);
    ReplyKinds(ds, s, m.bus.dev.configuration, m.bus.log.vendor);
    hide Ordered, Serves, Deaf, OpensInTime, ReplyTo;
    ChunksJoin(ds.Data(s), m.bus.log.got);
  }

  // ----- exactly which requests are answered

  ghost predicate Gets(ds: Descriptors, m: Machine, p: setupPacket, turns: nat -> Turn, vendors: nat -> report)
    requires ds.Valid() && ds.Has(Decode(p))
  {
    exists t: nat :: Delivered(ds, RunAt(ds, Asked(m, p), turns, vendors, t), Decode(p))
  }

  ghost predicate Delivered(ds: Descriptors, m: Machine, s: Setup)
    requires ds.Valid() && ds.Has(s)
  {
    m.bus.log.request == Requested(s) && Joined(m.bus.log.got) == ds.Data(s) && m.bus.log.closed
  }

  /** At a moment at which a SETUP packet cannot spoil anything, every fair run answers the one
      that comes now if and only if the firmware is not deaf. */
  lemma HeardExact(ds: Descriptors, m: Machine, p: setupPacket)
    requires ds.Valid() && Sound(m) && !m.resetting && !Spoils(ds, m)
    requires Decode(p).Is(USB_REQ_GetDescriptor) && ds.Has(Decode(p)) && ds.Data(Decode(p)) != []
    ensures !Deaf(ds, m) <==>
            forall turns: nat -> Turn, vendors: nat -> report :: FairTurns(turns) ==> Gets(ds, m, p, turns, vendors)
  {
    hide Sound, Spoils, Deaf, Asked, Descriptors.Data, Descriptors.Has, Decode, RunAt;
    if !Deaf(ds, m) {
      forall turns: nat -> Turn, vendors: nat -> report | FairTurns(turns) ensures Gets(ds, m, p, turns, vendors) {
        var t := ControlRead(ds, m, p, turns, vendors);
        assert Delivered(ds, RunAt(ds, Asked(m, p), turns, vendors, t), Decode(p));
      }
    } else {
      var vendor: report :| true;
      var turns, vendors := RoundRobin, (t: nat) => vendor;
      assert FairTurns(turns) by { RoundRobinFair(); }
      forall t: nat ensures !Delivered(ds, RunAt(ds, Asked(m, p), turns, vendors, t), Decode(p)) {
        var fs := RunIsCalm(ds, Asked(m, p), turns, vendors, t);
        NeverAnswered(ds, m, p, fs);
      }
      assert !Gets(ds, m, p, turns, vendors);
    }
  }

  function RoundRobin(t: nat): Turn {
    if t % 3 == 0 then FirmwareTurn else if t % 3 == 1 then CollectTurn else StatusTurn
  }

  lemma RoundRobinFair()
    ensures FairTurns(RoundRobin)
  {
    forall t: nat
      ensures Again(RoundRobin, FirmwareTurn, t)
      ensures Again(RoundRobin, CollectTurn, t)
      ensures Again(RoundRobin, StatusTurn, t)
    {
      assert t <= 3 * t && RoundRobin(3 * t) == FirmwareTurn;
      assert t <= 3 * t + 1 && RoundRobin(3 * t + 1) == CollectTurn;
      assert t <= 3 * t + 2 && RoundRobin(3 * t + 2) == StatusTurn;
    }
  }

  lemma {:induction false} RunIsCalm(ds: Descriptors, m: Machine, turns: nat -> Turn, vendors: nat -> report, t: nat)
    returns (es: seq<Event>)
    requires ds.Valid()
    ensures Calm(es) && RunAt(ds, m, turns, vendors, t) == Events(ds, m, es)
  {
    hide Happen;
    es := [];
    if t > 0 {
      var front := RunIsCalm(ds, m, turns, vendors, t - 1);
      var e := EventOf(turns(t - 1), vendors(t - 1));
      Extend(ds, m, front, e);
      es := front + [e];
    }
  }
}
