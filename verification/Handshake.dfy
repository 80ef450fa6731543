/** The endpoint handshake, one memory access at a time.

    The firmware's pass through read_vendor_report, the switch of bootloader_task and
    send_vendor_report is split into its accesses to the endpoint flags, the endpoint
    buffers and the answer length; IN tokens may arrive between any two of them, since the
    host's driver polls the endpoint all the time, and so may an OUT packet of a host that
    sends its next request only after it has read a report for the previous one. */
module Handshake {
  import opened Bits
  import opened Protocol
  import opened Channel
  import opened Schedules

  type packet = p: seq<byte> | |p| <= 64 witness []

  /** What the firmware does next. `Stopped`: CMD_RESET has left the program. */
  datatype Pc =
    | TestOut          // read BUSNACK0 of the OUT endpoint
    | CopyOut          // copy the OUT buffer
    | FreeOut(n: nat)  // clear BUSNACK0 of the OUT endpoint
    | Switch(n: nat)   // act on a report of n bytes
    | TestIn           // read UNF and the answer length
    | ClearUnf         // clear UNF
    | CopyIn           // copy the answer into the IN buffer
    | ArmIn            // clear BUSNACK0 of the IN endpoint
    | ClearLen         // reset the answer length
    | Stopped

  /** `sent` and `received` are the host's packets and reports so far, and `taken` the
      packets the firmware has copied out of the endpoint buffer. */
  datatype Sys = Sys(link: Link, pc: Pc, sent: seq<packet>, taken: seq<packet>, received: seq<report>)

  datatype Action = Device | InPoll | OutPacket(p: packet) | Idle

  function Firmware(cfg: Config, s: Sys): Sys
    requires cfg.Valid() && s.link.Valid()
  {
    var l := s.link;
    match s.pc
    case TestOut => s.(pc := if l.ep.outNack then CopyOut else Switch(0))
    case CopyOut => s.(link := l.(request := Overlay(l.request, l.ep.outPacket)),
                       taken := s.taken + [l.ep.outPacket], pc := FreeOut(|l.ep.outPacket|))
    case FreeOut(n) => s.(link := l.(ep := l.ep.(outNack := false)), pc := Switch(n))
    case Switch(n) =>
      var l' := Process(cfg, l, n);
      s.(link := l', pc := if l'.dev.mode.Halted? then Stopped else TestIn)
    case TestIn => s.(pc := if l.ep.inUnf && l.pending != [] then ClearUnf else TestOut)
    case ClearUnf => s.(link := l.(ep := l.ep.(inUnf := false)), pc := CopyIn)
    case CopyIn => s.(link := l.(ep := l.ep.(inBuf := Overlay(l.ep.inBuf, l.pending))), pc := ArmIn)
    case ArmIn => s.(link := l.(ep := l.ep.(inNack := false)), pc := ClearLen)
    case ClearLen => s.(link := l.(pending := []), pc := TestOut)
    case Stopped => s
  }

  function Next(cfg: Config, s: Sys, a: Action): Sys
    requires cfg.Valid() && s.link.Valid()
  {
    match a
    case Device => Firmware(cfg, s)
    case InPoll =>
      s.(link := s.link.(ep := InToken(s.link.ep)),
         received := if s.link.ep.inNack then s.received else s.received + [s.link.ep.inBuf])
    case Idle => s
    case OutPacket(p) =>
      if |s.sent| == |s.received| && !s.link.ep.outNack then
        s.(link := s.link.(ep := OutToken(s.link.ep, p)), sent := s.sent + [p])
      else s
  }

  lemma NextKeepsValid(cfg: Config, s: Sys, a: Action)
    requires cfg.Valid() && s.link.Valid()
    ensures Next(cfg, s, a).link.Valid()
  {
    if a.Device? && s.pc.Switch? { ProcessKeepsValid(cfg, s.link, s.pc.n); }
  }

  function Start(l: Link): Sys {
    Sys(l, TestOut, [], [], [])
  }

  function Execute(cfg: Config, s: Sys, actions: seq<Action>): (r: Sys)
    requires cfg.Valid() && s.link.Valid()
    ensures r.link.Valid()
  {
    if actions == [] then s
    else
      var before := Execute(cfg, s, actions[..|actions| - 1]);
      NextKeepsValid(cfg, before, actions[|actions| - 1]);
      Next(cfg, before, actions[|actions| - 1])
  }

  // ----- the specification: packets served one after the other

  datatype Served = Served(dev: Dev, request: report, buffer: report, answers: seq<report>)

  function Serve(cfg: Config, l: Link, ps: seq<packet>): Served
    requires cfg.Valid()
  {
    if ps == [] then Served(l.dev, l.request, l.ep.inBuf, [])
    else ServeOne(cfg, Serve(cfg, l, ps[..|ps| - 1]), ps[|ps| - 1])
  }

  /** One packet is overlaid on the last request and handed to the protocol; an answer is
      overlaid on the last report. An empty packet is ignored. */
  function ServeOne(cfg: Config, v: Served, p: packet): Served
    requires cfg.Valid()
  {
    var request := Overlay(v.request, p);
    if p == [] then v
    else
      var (dev, answer) := Step(cfg, v.dev, request);
      if answer == [] then v.(dev := dev, request := request)
      else
        var buffer := Overlay(v.buffer, answer);
        Served(dev, request, buffer, v.answers + [buffer])
  }

  lemma {:induction false} ServeBounds(cfg: Config, l: Link, ps: seq<packet>)
    requires cfg.Valid()
    ensures var v := Serve(cfg, l, ps);
            |v.answers| <= |ps| && (v.answers != [] ==> v.buffer == v.answers[|v.answers| - 1])
  {
    if ps != [] { ServeBounds(cfg, l, ps[..|ps| - 1]); }
  }

  lemma {:induction false} ServePrefix(cfg: Config, l: Link, ps: seq<packet>, qs: seq<packet>)
    requires cfg.Valid() && ps <= qs
    ensures Serve(cfg, l, ps).answers <= Serve(cfg, l, qs).answers
  {
    if ps == qs {
    } else {
      ServePrefix(cfg, l, ps, qs[..|qs| - 1]);
    }
  }

  // ----- the invariant

  /** The packet in hand has been copied but not yet acted on. */
  predicate InHand(s: Sys) {
    (s.pc.FreeOut? || s.pc.Switch?) && s.pc.n > 0
  }

  function Processed(s: Sys): seq<packet> {
    if InHand(s) && s.taken != [] then s.taken[..|s.taken| - 1] else s.taken
  }

  /** The request side: packets are taken in order, none twice and none lost. */
  ghost predicate OutInv(s: Sys, v: Served) {
    var ep := s.link.ep;
    && s.sent == s.taken + (if ep.outNack && !s.pc.FreeOut? then [ep.outPacket] else [])
    && (s.pc.CopyOut? || s.pc.FreeOut? ==> ep.outNack)
    && (InHand(s) || s.pc.FreeOut? ==> s.taken != [] && s.pc.n == |s.taken[|s.taken| - 1]|)
    && s.link.request == (if InHand(s) then Overlay(v.request, s.taken[|s.taken| - 1]) else v.request)
    && s.link.dev == v.dev
    && (s.pc.Stopped? <==> v.dev.mode.Halted?)
    && |s.sent| <= |s.received| + 1
  }

  /** The answer side: at most one answer is on its way to the host, and it is in exactly
      one place. */
  ghost predicate InInv(s: Sys, v: Served)
    requires s.link.Valid()
  {
    var ep, pending := s.link.ep, s.link.pending;
    && s.received <= v.answers
    && |v.answers| <= |s.received| + 1
    && (|v.answers| == |s.received| ==> ep.inNack && (pending == [] || s.pc.ClearLen?))
    && (|v.answers| > |s.received| && ep.inNack ==> pending != [] && !s.pc.ClearLen?)
    && (!ep.inNack ==> pending == [] || s.pc.ClearLen?)
    && (s.pc.Stopped? ==> |v.answers| == |s.received|)
    && (s.pc.ClearUnf? || s.pc.CopyIn? || s.pc.ArmIn? ==> ep.inNack && pending != [])
    && (if pending == [] || s.pc.ArmIn? || s.pc.ClearLen? then ep.inBuf == v.buffer
        else Overlay(ep.inBuf, pending) == v.buffer)
  }

  ghost predicate Inv(cfg: Config, l: Link, s: Sys)
    requires cfg.Valid()
    ensures Inv(cfg, l, s) ==> s.link.Valid()
  {
    var v := Serve(cfg, l, Processed(s));
    s.link.Valid() && OutInv(s, v) && InInv(s, v)
  }

  lemma NextKeepsInv(cfg: Config, l: Link, s: Sys, a: Action)
    requires cfg.Valid() && Inv(cfg, l, s)
    ensures Inv(cfg, l, Next(cfg, s, a))
  {
    hide Serve, Step, Inv, Process;
    if a.Device? {
      if s.pc.CopyOut? {
        TakesPacket(cfg, l, s);
      } else if InHand(s) && s.pc.Switch? {
        ActsOnPacket(cfg, l, s);
      } else {
        OtherStep(cfg, l, s);
      }
    } else if a.InPoll? {
      ReportMoves(cfg, l, s);
    } else if a.OutPacket? {
      PacketArrives(cfg, l, s, a.p);
    }
  }

  lemma OtherStep(cfg: Config, l: Link, s: Sys)
    requires cfg.Valid() && Inv(cfg, l, s)
    requires !s.pc.CopyOut? && !(InHand(s) && s.pc.Switch?)
    ensures Inv(cfg, l, Firmware(cfg, s))
  {
    hide Serve, Step, OutInv, InInv;
    NextKeepsValid(cfg, s, Device);
    var v := Serve(cfg, l, Processed(s));
    ServeBounds(cfg, l, Processed(s));
    OtherOut(cfg, s, v);
    OtherIn(cfg, s, v);
    assert Processed(Firmware(cfg, s)) == Processed(s);
  }

  lemma OtherOut(cfg: Config, s: Sys, v: Served)
    requires cfg.Valid() && s.link.Valid() && OutInv(s, v)
    requires !s.pc.CopyOut? && !(InHand(s) && s.pc.Switch?)
    ensures OutInv(Firmware(cfg, s), v)
  {
    hide Step;
  }

  lemma OtherIn(cfg: Config, s: Sys, v: Served)
    requires cfg.Valid() && s.link.Valid() && OutInv(s, v) && InInv(s, v)
    requires v.answers != [] ==> v.buffer == v.answers[|v.answers| - 1]
    requires !s.pc.CopyOut? && !(InHand(s) && s.pc.Switch?)
    ensures Firmware(cfg, s).link.Valid() && InInv(Firmware(cfg, s), v)
  {
    hide Step;
    NextKeepsValid(cfg, s, Device);
  }

  lemma ReportMoves(cfg: Config, l: Link, s: Sys)
    requires cfg.Valid() && Inv(cfg, l, s)
    ensures Inv(cfg, l, Next(cfg, s, InPoll))
  {
    hide Serve, Step, Process;
    ServeBounds(cfg, l, Processed(s));
  }

  lemma PacketArrives(cfg: Config, l: Link, s: Sys, p: packet)
    requires cfg.Valid() && Inv(cfg, l, s)
    ensures Inv(cfg, l, Next(cfg, s, OutPacket(p)))
  {
    hide Serve, Step;
    ServeBounds(cfg, l, Processed(s));
  }

  lemma TakesPacket(cfg: Config, l: Link, s: Sys)
    requires cfg.Valid() && Inv(cfg, l, s) && s.pc.CopyOut?
    ensures Inv(cfg, l, Firmware(cfg, s))
  {
    TakenIsSameService(cfg, l, s);
    var v := Serve(cfg, l, Processed(s));
    hide Serve, OutInv, InInv;
    NextKeepsValid(cfg, s, Device);
    TakenOut(cfg, s, v);
    TakenIn(cfg, s, v);
  }

  lemma TakenOut(cfg: Config, s: Sys, v: Served)
    requires cfg.Valid() && s.link.Valid() && OutInv(s, v) && s.pc.CopyOut?
    ensures OutInv(Firmware(cfg, s), v)
  {
    hide Process;
    assert s.sent == Firmware(cfg, s).taken;
  }

  lemma TakenIn(cfg: Config, s: Sys, v: Served)
    requires cfg.Valid() && s.link.Valid() && InInv(s, v) && s.pc.CopyOut?
    ensures Firmware(cfg, s).link.Valid() && InInv(Firmware(cfg, s), v)
  {
    hide Process;
  }

  /** Copying a packet does not yet serve it, and an empty packet needs no service. */
  lemma TakenIsSameService(cfg: Config, l: Link, s: Sys)
    requires cfg.Valid() && s.link.Valid() && s.pc.CopyOut?
    ensures Serve(cfg, l, Processed(Firmware(cfg, s))) == Serve(cfg, l, Processed(s))
  {
    var s' := Firmware(cfg, s);
    assert s'.taken[..|s'.taken| - 1] == s.taken;
    if s.link.ep.outPacket == [] {
      assert Serve(cfg, l, s'.taken) == ServeOne(cfg, Serve(cfg, l, s.taken), []);
    }
  }

  lemma ActsOnPacket(cfg: Config, l: Link, s: Sys)
    requires cfg.Valid() && Inv(cfg, l, s) && InHand(s) && s.pc.Switch?
    ensures Inv(cfg, l, Firmware(cfg, s))
  {
    InHandIsLast(cfg, l, s);
    ServesPacket(cfg, l, s);
    hide Serve, ServeOne, Step;
    var v', s' := Serve(cfg, l, s.taken), Firmware(cfg, s);
    assert Processed(s') == s.taken;
    assert OutInv(s', v');
    ServeBounds(cfg, l, Processed(s));
    AnswerMeansRunning(cfg, s.link.dev, s.link.request);
    assert InInv(s', v');
  }

  lemma ServesPacket(cfg: Config, l: Link, s: Sys)
    requires cfg.Valid() && Inv(cfg, l, s) && InHand(s)
    ensures var (dev, answer) := Step(cfg, s.link.dev, s.link.request);
            var v := Serve(cfg, l, Processed(s));
            |answer| <= 64
            && Serve(cfg, l, s.taken) ==
                 if answer == [] then v.(dev := dev, request := s.link.request)
                 else Served(dev, s.link.request, Overlay(v.buffer, answer), v.answers + [Overlay(v.buffer, answer)])
  {
    hide Step;
    assert Serve(cfg, l, s.taken) == ServeOne(cfg, Serve(cfg, l, Processed(s)), s.taken[|s.taken| - 1]);
  }

  // ----- every run

  lemma StartInv(cfg: Config, l: Link)
    requires cfg.Valid() && Quiet(l) && !l.dev.mode.Halted?
    ensures Inv(cfg, l, Start(l))
  {
  }

  lemma {:induction false} ExecuteInv(cfg: Config, l: Link, actions: seq<Action>)
    requires cfg.Valid() && Quiet(l) && !l.dev.mode.Halted?
    ensures Inv(cfg, l, Execute(cfg, Start(l), actions))
  {
    if actions == [] {
      StartInv(cfg, l);
    } else {
      ExecuteInv(cfg, l, actions[..|actions| - 1]);
      NextKeepsInv(cfg, l, Execute(cfg, Start(l), actions[..|actions| - 1]), actions[|actions| - 1]);
    }
  }

  /** In every interleaving of firmware accesses, IN tokens and packets of a host that waits
      for each answer: the host's packets are taken in order and exactly once, all but at
      most the last one; the reports it has received are, in order, the answers the protocol
      gives to the packets it has sent, one per answered packet; and the firmware touches
      neither endpoint buffer while the hardware owns it. */
  lemma HandshakeSafe(cfg: Config, l: Link, actions: seq<Action>)
    requires cfg.Valid() && Quiet(l) && !l.dev.mode.Halted?
    ensures var s := Execute(cfg, Start(l), actions);
            && s.taken <= s.sent && |s.sent| <= |s.taken| + 1
            && s.received <= Serve(cfg, l, s.sent).answers
            && (s.pc.CopyOut? ==> s.link.ep.outNack)
            && (s.pc.CopyIn? ==> s.link.ep.inNack)
  {
    ExecuteInv(cfg, l, actions);
    var s := Execute(cfg, Start(l), actions);
    ServePrefix(cfg, l, Processed(s), s.sent);
  }

  // ----- the reports in terms of the protocol alone

  lemma {:induction false} ServeRuns(cfg: Config, l: Link, ps: seq<report>)
    requires cfg.Valid()
    ensures Serve(cfg, l, ps).dev == Run(cfg, l.dev, ps)
  {
    if ps != [] {
      var front, p := ps[..|ps| - 1], ps[|ps| - 1];
      ServeRuns(cfg, l, front);
      hide Step;
      assert Overlay(Serve(cfg, l, front).request, p) == p;
    }
  }

  /** Packet k of a run of the protocol is answered, and the report starts with the answer. */
  ghost predicate Reports(cfg: Config, d: Dev, ps: seq<report>, k: nat, r: report)
    requires cfg.Valid() && k < |ps|
  {
    var answer := Step(cfg, Run(cfg, d, ps[..k]), ps[k]).1;
    answer != [] && r[..|answer|] == answer
  }

  lemma {:induction false} ServesEach(cfg: Config, l: Link, ps: seq<report>, k: nat)
    requires cfg.Valid() && k < |ps| && |Serve(cfg, l, ps[..k + 1]).answers| == k + 1
    requires Serve(cfg, l, ps[..k + 1]).answers <= Serve(cfg, l, ps).answers
    ensures Reports(cfg, l.dev, ps, k, Serve(cfg, l, ps).answers[k])
  {
    var front, p, answers := ps[..k], ps[k], Serve(cfg, l, ps[..k + 1]).answers;
    assert ps[..k + 1][..k] == front;
    ServeBounds(cfg, l, front);
    ServeRuns(cfg, l, front);
    hide Step, Run;
    assert Overlay(Serve(cfg, l, front).request, p) == p;
    assert answers[k] == Serve(cfg, l, ps).answers[k];
  }

  /** The packets that a waiting host has sent are all answered, but for the last one. */
  lemma {:induction false} AllButLast(cfg: Config, l: Link, actions: seq<Action>)
    requires cfg.Valid() && Quiet(l) && !l.dev.mode.Halted?
    ensures var sent := Execute(cfg, Start(l), actions).sent;
            sent != [] ==> |Serve(cfg, l, sent[..|sent| - 1]).answers| == |sent| - 1
  {
    if actions != [] {
      var n := |actions| - 1;
      var s := Execute(cfg, Start(l), actions[..n]);
      AllButLast(cfg, l, actions[..n]);
      HandshakeSafe(cfg, l, actions[..n]);
      ServeBounds(cfg, l, s.sent);
      assert Execute(cfg, Start(l), actions) == Next(cfg, s, actions[n]);
      hide Serve, Firmware, Execute;
      NextSends(cfg, s, actions[n]);
    }
  }

  /** Only a host that has all its reports sends, and nothing else changes what has been sent. */
  lemma NextSends(cfg: Config, s: Sys, a: Action)
    requires cfg.Valid() && s.link.Valid()
    ensures var sent := Next(cfg, s, a).sent;
            sent == s.sent || (|s.sent| == |s.received| && |sent| == |s.sent| + 1 && sent[..|s.sent|] == s.sent)
  {
    hide Process;
  }

  /** In every interleaving with a host that sends full packets and waits for each report: report
      k starts with the protocol's answer to packet k. */
  lemma ReportsAreAnswers(cfg: Config, l: Link, actions: seq<Action>, ps: seq<report>, k: nat)
    requires cfg.Valid() && Quiet(l) && !l.dev.mode.Halted?
    requires Execute(cfg, Start(l), actions).sent == ps && k < |Execute(cfg, Start(l), actions).received|
    ensures k < |ps| && Reports(cfg, l.dev, ps, k, Execute(cfg, Start(l), actions).received[k])
  {
    var s := Execute(cfg, Start(l), actions);
    HandshakeSafe(cfg, l, actions);
    AllButLast(cfg, l, actions);
    hide Execute, Reports;
    ServeBounds(cfg, l, ps);
    AnswersInPlace(cfg, l, ps, k);
    ServePrefix(cfg, l, ps[..k + 1], ps);
    ServesEach(cfg, l, ps, k);
  }

  /** If all packets but the last are answered, and k answers and one more are there, then packet
      k has the answer after the first k. */
  lemma AnswersInPlace(cfg: Config, l: Link, ps: seq<packet>, k: nat)
    requires cfg.Valid() && ps != [] && |Serve(cfg, l, ps[..|ps| - 1]).answers| == |ps| - 1
    requires k < |Serve(cfg, l, ps).answers|
    ensures k < |ps| && |Serve(cfg, l, ps[..k + 1]).answers| == k + 1
  {
    hide Serve;
    ServeBounds(cfg, l, ps);
    var n := |ps| - 1;
    if k == n {
      ServeBounds(cfg, l, ps[..n]);
      assert ps[..k + 1] == ps;
    } else {
      assert ps[..|ps| - 1][..k + 1] == ps[..k + 1];
      FrontAnswered(cfg, l, ps[..|ps| - 1], k + 1);
    }
  }

  lemma {:induction false} FrontAnswered(cfg: Config, l: Link, ps: seq<packet>, k: nat)
    requires cfg.Valid() && k <= |ps| && |Serve(cfg, l, ps).answers| == |ps|
    ensures |Serve(cfg, l, ps[..k]).answers| == k
  {
    if k < |ps| {
      var front := ps[..|ps| - 1];
      ServeBounds(cfg, l, front);
      FrontAnswered(cfg, l, front, k);
      assert front[..k] == ps[..k];
    } else {
      assert ps[..k] == ps;
    }
  }

  // ----- no answer is withheld

  /** The protocol has an answer for the host that the host has not received. */
  ghost predicate Owed(cfg: Config, l: Link, s: Sys)
    requires cfg.Valid()
  {
    |s.received| < |Serve(cfg, l, s.sent).answers|
  }

  /** For a host that sends full packets: an answer is owed if and only if the protocol answers the
      last packet and its report has not been received. */
  lemma OwedExact(cfg: Config, l: Link, actions: seq<Action>, ps: seq<report>)
    requires cfg.Valid() && Quiet(l) && !l.dev.mode.Halted? && Execute(cfg, Start(l), actions).sent == ps
    ensures var s, n := Execute(cfg, Start(l), actions), |ps| - 1;
            Owed(cfg, l, s) <==> |s.received| < |ps| && Step(cfg, Run(cfg, l.dev, ps[..n]), ps[n]).1 != []
  {
    var s := Execute(cfg, Start(l), actions);
    ExecuteInv(cfg, l, actions);
    HandshakeSafe(cfg, l, actions);
    AllButLast(cfg, l, actions);
    if ps != [] { ServesLast(cfg, l, ps); }
    hide Execute, Step, Run, InInv, Processed;
  }

  lemma ServesLast(cfg: Config, l: Link, ps: seq<report>)
    requires cfg.Valid() && ps != []
    ensures var n := |ps| - 1;
            |Serve(cfg, l, ps).answers| == |Serve(cfg, l, ps[..n]).answers| +
              if Step(cfg, Run(cfg, l.dev, ps[..n]), ps[n]).1 != [] then 1 else 0
  {
    var front, p := ps[..|ps| - 1], ps[|ps| - 1];
    ServeRuns(cfg, l, front);
    hide Step, Run;
    assert Overlay(Serve(cfg, l, front).request, p) == p;
  }

  /** How far the next answer is from the host. No action of anybody ever increases this, and
      the next action of `Helper` decreases it. */
  function Wait(s: Sys): nat {
    if !s.link.ep.inNack then 0
    else if s.link.pending != [] && !s.pc.ClearLen? then
      match s.pc
      case ArmIn => 1
      case CopyIn => 2
      case ClearUnf => 3
      case TestIn => if s.link.ep.inUnf then 4 else 7
      case Switch(_) => if s.link.ep.inUnf then 5 else 7
      case _ => if s.link.ep.inUnf then 6 else 7
    else
      match s.pc
      case Switch(n) => if n > 0 then 8 else 13
      case FreeOut(_) => 9
      case CopyOut => 10
      case TestOut => 11
      case _ => 12
  }

  /** The host's IN token has to fetch a report, or to raise UNF for one; or else it is the
      firmware's turn. */
  function Helper(s: Sys): Action {
    if Wait(s) == 0 || Wait(s) == 7 then InPoll else Device
  }

  /** An action that gets the answer to the host, or at least no further from it. */
  ghost predicate Advances(s: Sys, a: Action, s': Sys) {
    || |s'.received| == |s.received| + 1
    || (s'.received == s.received && Wait(s') < Wait(s))
    || (s'.received == s.received && Wait(s') == Wait(s) && a != Helper(s))
  }

  lemma ActionAdvances(cfg: Config, l: Link, s: Sys, a: Action)
    requires cfg.Valid() && Inv(cfg, l, s) && Owed(cfg, l, s)
    ensures var s' := Next(cfg, s, a);
            Inv(cfg, l, s') && s'.sent == s.sent && Advances(s, a, s')
  {
    hide *;
    NextKeepsInv(cfg, l, s, a);
    match a
    case Device => DeviceAdvances(cfg, l, s);
    case InPoll => PollAdvances(cfg, s);
    case _ =>
      OwedWaits(cfg, l, s);
      OthersStay(cfg, s, a);
  }

  lemma DeviceAdvances(cfg: Config, l: Link, s: Sys)
    requires cfg.Valid() && Inv(cfg, l, s) && Owed(cfg, l, s)
    ensures Next(cfg, s, Device).sent == s.sent && Advances(s, Device, Next(cfg, s, Device))
  {
    FirmwareSends(cfg, s);
    hide Inv, Owed, Firmware;
    if !s.link.ep.inNack {
      ArmedStays(cfg, s);
    } else if s.link.pending != [] && !s.pc.ClearLen? {
      PendingAdvances(cfg, l, s);
    } else {
      OwedAdvances(cfg, l, s);
    }
  }

  lemma FirmwareSends(cfg: Config, s: Sys)
    requires cfg.Valid() && s.link.Valid()
    ensures Firmware(cfg, s).sent == s.sent && Firmware(cfg, s).received == s.received
  {
    hide Process;
  }

  lemma PollAdvances(cfg: Config, s: Sys)
    requires cfg.Valid() && s.link.Valid()
    ensures Next(cfg, s, InPoll).sent == s.sent && Advances(s, InPoll, Next(cfg, s, InPoll))
  {
    hide Process, Step;
  }

  lemma OthersStay(cfg: Config, s: Sys, a: Action)
    requires cfg.Valid() && s.link.Valid() && |s.sent| == |s.received| + 1 && (a.OutPacket? || a.Idle?)
    ensures Next(cfg, s, a) == s && Advances(s, a, s)
  {
    hide Process, Step;
  }

  /** A host that is owed an answer does not send. */
  lemma OwedWaits(cfg: Config, l: Link, s: Sys)
    requires cfg.Valid() && Inv(cfg, l, s) && Owed(cfg, l, s)
    ensures |s.sent| == |s.received| + 1
  {
    ServeBounds(cfg, l, s.sent);
    hide Serve, Step;
  }

  lemma ArmedStays(cfg: Config, s: Sys)
    requires cfg.Valid() && s.link.Valid() && !s.link.ep.inNack
    ensures var s' := Firmware(cfg, s); !s'.link.ep.inNack && s'.received == s.received
  {
    hide Step;
  }

  /** An answer that is waiting to be copied. */
  lemma PendingAdvances(cfg: Config, l: Link, s: Sys)
    requires cfg.Valid() && Inv(cfg, l, s) && Owed(cfg, l, s) && s.link.ep.inNack
    requires s.link.pending != [] && !s.pc.ClearLen?
    ensures Advances(s, Device, Firmware(cfg, s))
  {
    PendingSilent(cfg, l, s);
    hide Serve, Step;
  }

  /** While an answer waits, there is no further packet. */
  lemma PendingSilent(cfg: Config, l: Link, s: Sys)
    requires cfg.Valid() && Inv(cfg, l, s) && s.link.ep.inNack && s.link.pending != [] && !s.pc.ClearLen?
    ensures (s.link.ep.outNack ==> s.pc.FreeOut?) && !InHand(s) && !s.pc.Stopped?
  {
    ServeBounds(cfg, l, Processed(s));
    hide Serve, Step;
  }

  /** A packet that is still to be served. */
  lemma OwedAdvances(cfg: Config, l: Link, s: Sys)
    requires cfg.Valid() && Inv(cfg, l, s) && Owed(cfg, l, s) && s.link.ep.inNack
    requires s.link.pending == [] || s.pc.ClearLen?
    ensures Firmware(cfg, s).received == s.received && Wait(Firmware(cfg, s)) < Wait(s)
  {
    if s.pc.Stopped? {
      HaltedIsSilent(cfg, l, s.taken, s.sent);
      hide Serve, Step, Process;
    } else {
      hide Serve, Step;
      if InHand(s) && s.pc.Switch? {
        InHandIsLast(cfg, l, s);
        OwedIsAnswered(cfg, l, s);
      } else {
        OwedElsewhere(cfg, l, s);
      }
    }
  }

  lemma OwedElsewhere(cfg: Config, l: Link, s: Sys)
    requires cfg.Valid() && Inv(cfg, l, s) && Owed(cfg, l, s) && s.link.ep.inNack
    requires s.link.pending == [] || s.pc.ClearLen?
    requires !s.pc.Stopped? && !(InHand(s) && s.pc.Switch?)
    ensures Firmware(cfg, s).received == s.received && Wait(Firmware(cfg, s)) < Wait(s)
  {
    hide Serve, Step;
    ServeBounds(cfg, l, Processed(s));
    if (s.pc.TestOut? && !s.link.ep.outNack) || (s.pc.FreeOut? && s.pc.n == 0) {
      AllServed(cfg, l, s);
    } else if s.pc.Switch? {
      assert Firmware(cfg, s).pc == TestIn;
    }
  }

  lemma AllServed(cfg: Config, l: Link, s: Sys)
    requires cfg.Valid() && Inv(cfg, l, s) && s.link.ep.inNack
    requires (s.pc.TestOut? && !s.link.ep.outNack && s.link.pending == [])
             || (s.pc.FreeOut? && s.pc.n == 0 && s.link.pending == [])
    ensures !Owed(cfg, l, s)
  {
    hide Serve, Step;
    assert Processed(s) == s.sent;
  }

  lemma InHandIsLast(cfg: Config, l: Link, s: Sys)
    requires cfg.Valid() && Inv(cfg, l, s) && InHand(s) && s.pc.Switch?
    ensures s.sent == s.taken && |Serve(cfg, l, Processed(s)).answers| == |s.received|
    ensures s.link.pending == []
  {
    hide Serve, Step;
    ServeBounds(cfg, l, Processed(s));
  }

  /** The packet in hand is the one that will be answered. */
  lemma OwedIsAnswered(cfg: Config, l: Link, s: Sys)
    requires cfg.Valid() && Inv(cfg, l, s) && Owed(cfg, l, s)
    requires InHand(s) && s.pc.Switch? && s.sent == s.taken
    requires |Serve(cfg, l, Processed(s)).answers| == |s.received|
    ensures Step(cfg, s.link.dev, s.link.request).1 != []
    ensures !Step(cfg, s.link.dev, s.link.request).0.mode.Halted?
  {
    hide Step;
    assert Serve(cfg, l, s.sent) == ServeOne(cfg, Serve(cfg, l, Processed(s)), s.taken[|s.taken| - 1]);
    AnswerMeansRunning(cfg, s.link.dev, s.link.request);
  }

  lemma AnswerMeansRunning(cfg: Config, d: Dev, p: report)
    requires cfg.Valid()
    ensures Step(cfg, d, p).1 != [] ==> !Step(cfg, d, p).0.mode.Halted?
  {
  }

  lemma {:induction false} HaltedIsSilent(cfg: Config, l: Link, ps: seq<packet>, qs: seq<packet>)
    requires cfg.Valid() && ps <= qs && Serve(cfg, l, ps).dev.mode.Halted?
    ensures Serve(cfg, l, qs).answers == Serve(cfg, l, ps).answers && Serve(cfg, l, qs).dev.mode.Halted?
  {
    if ps != qs { HaltedIsSilent(cfg, l, ps, qs[..|qs| - 1]); }
  }

  // ----- infinite runs

  ghost predicate IsRun(cfg: Config, run: nat -> Sys, actions: nat -> Action)
    requires cfg.Valid()
  {
    forall t: nat :: run(t).link.Valid() && run(t + 1) == Next(cfg, run(t), actions(t))
  }

  /** Neither the firmware nor the host's driver ever stops. */
  ghost predicate Fair(actions: nat -> Action) {
    forall t: nat :: Again(actions, Device, t) && Again(actions, InPoll, t)
  }

  /** However the accesses of a firmware and the IN tokens of a host that never stop are
      interleaved: an answer that is owed arrives. */
  lemma AnswerArrives(cfg: Config, l: Link, run: nat -> Sys, actions: nat -> Action, t: nat) returns (u: nat)
    requires cfg.Valid() && IsRun(cfg, run, actions) && Fair(actions)
    requires Inv(cfg, l, run(t)) && Owed(cfg, l, run(t))
    ensures t < u && |run(u).received| == |run(t).received| + 1
    ensures Inv(cfg, l, run(u)) && run(u).sent == run(t).sent
  {
    assert Again(actions, Device, t) && Again(actions, InPoll, t);
    var w: nat :| t <= w && actions(w) == Helper(run(t));
    u := AnswerBy(cfg, l, run, actions, t, w);
  }

  lemma {:induction false} AnswerBy(cfg: Config, l: Link, run: nat -> Sys, actions: nat -> Action, t: nat, w: nat)
    returns (u: nat)
    requires cfg.Valid() && IsRun(cfg, run, actions) && Fair(actions)
    requires Inv(cfg, l, run(t)) && Owed(cfg, l, run(t))
    requires t <= w && actions(w) == Helper(run(t))
    ensures t < u && |run(u).received| == |run(t).received| + 1
    ensures Inv(cfg, l, run(u)) && run(u).sent == run(t).sent
    decreases Wait(run(t)), w - t
  {
    hide Inv, Owed, Wait, Helper, Next;
    var s, s' := run(t), run(t + 1);
    assert s' == Next(cfg, s, actions(t));
    ActionAdvances(cfg, l, s, actions(t));
    if |s'.received| == |s.received| + 1 {
      u := t + 1;
    } else {
      OwedAlike(cfg, l, s, s');
      if Wait(s') < Wait(s) {
        assert Again(actions, Device, t + 1) && Again(actions, InPoll, t + 1);
        HelperKinds(s');
        var w': nat :| t + 1 <= w' && actions(w') == Helper(s');
        u := AnswerBy(cfg, l, run, actions, t + 1, w');
      } else {
        SameHelper(s, s');
        u := AnswerBy(cfg, l, run, actions, t + 1, w);
      }
    }
  }

  lemma HelperKinds(s: Sys)
    ensures Helper(s) == Device || Helper(s) == InPoll
  {
  }

  lemma {:induction false} RunInv(cfg: Config, l: Link, run: nat -> Sys, actions: nat -> Action, t: nat)
    requires cfg.Valid() && IsRun(cfg, run, actions) && Quiet(l) && !l.dev.mode.Halted? && run(0) == Start(l)
    ensures Inv(cfg, l, run(t))
  {
    hide Inv, Next;
    if t == 0 {
      StartInv(cfg, l);
    } else {
      RunInv(cfg, l, run, actions, t - 1);
      assert run(t - 1 + 1) == Next(cfg, run(t - 1), actions(t - 1));
      NextKeepsInv(cfg, l, run(t - 1), actions(t - 1));
    }
  }

  /** In every fair run from an idle channel, an answer that is owed at any time arrives. */
  lemma EveryAnswerArrives(cfg: Config, l: Link, run: nat -> Sys, actions: nat -> Action, t: nat) returns (u: nat)
    requires cfg.Valid() && IsRun(cfg, run, actions) && Fair(actions)
    requires Quiet(l) && !l.dev.mode.Halted? && run(0) == Start(l) && Owed(cfg, l, run(t))
    ensures t < u && |run(u).received| == |run(t).received| + 1 && run(u).sent == run(t).sent
    ensures run(u).received <= Serve(cfg, l, run(u).sent).answers
  {
    hide Inv, Owed, Serve;
    RunInv(cfg, l, run, actions, t);
    u := AnswerArrives(cfg, l, run, actions, t);
    ReceivedInOrder(cfg, l, run(u));
  }

  lemma ReceivedInOrder(cfg: Config, l: Link, s: Sys)
    requires cfg.Valid() && Inv(cfg, l, s)
    ensures s.received <= Serve(cfg, l, s.sent).answers
  {
    hide Serve;
    ServePrefix(cfg, l, Processed(s), s.sent);
  }

  lemma SameHelper(s: Sys, s': Sys)
    requires Wait(s) == Wait(s')
    ensures Helper(s) == Helper(s')
  {
  }

  lemma OwedAlike(cfg: Config, l: Link, s: Sys, s1: Sys)
    requires cfg.Valid() && Owed(cfg, l, s) && s1.sent == s.sent && s1.received == s.received
    ensures Owed(cfg, l, s1)
  {
  }

  // ----- undisturbed, the accesses make up one pass of bootloader_task

  function FirmwareSteps(cfg: Config, s: Sys, k: nat): (r: Sys)
    requires cfg.Valid() && s.link.Valid()
    ensures r.link.Valid()
    decreases k
  {
    if k == 0 then s
    else
      NextKeepsValid(cfg, s, Device);
      FirmwareSteps(cfg, Firmware(cfg, s), k - 1)
  }

  lemma {:induction false} StepsAppend(cfg: Config, s: Sys, j: nat, k: nat)
    requires cfg.Valid() && s.link.Valid()
    ensures FirmwareSteps(cfg, s, j + k) == FirmwareSteps(cfg, FirmwareSteps(cfg, s, j), k)
    decreases j
  {
    if j > 0 {
      NextKeepsValid(cfg, s, Device);
      StepsAppend(cfg, Firmware(cfg, s), j - 1, k);
    }
  }

  lemma ReadSteps(cfg: Config, s: Sys) returns (k: nat)
    requires cfg.Valid() && s.link.Valid() && s.pc == TestOut
    ensures var r := FirmwareSteps(cfg, s, k);
            r.link == Read(s.link) && r.pc == Switch(ReadLength(s.link))
  {
    if s.link.ep.outNack {
      var s1 := Firmware(cfg, s);
      var s2 := Firmware(cfg, s1);
      var s3 := Firmware(cfg, s2);
      assert FirmwareSteps(cfg, s2, 1) == s3;
      assert FirmwareSteps(cfg, s1, 2) == s3;
      k := 3;
    } else {
      assert FirmwareSteps(cfg, s, 1) == Firmware(cfg, s);
      k := 1;
    }
  }

  lemma SendSteps(cfg: Config, s: Sys) returns (k: nat)
    requires cfg.Valid() && s.link.Valid() && s.pc == TestIn
    ensures var r := FirmwareSteps(cfg, s, k);
            r.link == Send(s.link) && r.pc == TestOut
  {
    if s.link.ep.inUnf && s.link.pending != [] {
      var s1 := Firmware(cfg, s);
      var s2 := Firmware(cfg, s1);
      var s3 := Firmware(cfg, s2);
      var s4 := Firmware(cfg, s3);
      var s5 := Firmware(cfg, s4);
      assert FirmwareSteps(cfg, s4, 1) == s5;
      assert FirmwareSteps(cfg, s3, 2) == s5;
      assert FirmwareSteps(cfg, s2, 3) == s5;
      assert FirmwareSteps(cfg, s1, 4) == s5;
      k := 5;
    } else {
      assert FirmwareSteps(cfg, s, 1) == Firmware(cfg, s);
      k := 1;
    }
  }

  /** Without interference the accesses from one TestOut to the next are exactly Task. */
  lemma PassIsTask(cfg: Config, s: Sys) returns (k: nat)
    requires cfg.Valid() && s.link.Valid() && s.pc == TestOut && !s.link.dev.mode.Halted?
    ensures var r := FirmwareSteps(cfg, s, k);
            r.link == Task(cfg, s.link) && (r.pc == TestOut || r.pc == Stopped)
  {
    hide Process, FirmwareSteps;
    var j := ReadSteps(cfg, s);
    var s1 := FirmwareSteps(cfg, s, j);
    StepsOne(cfg, s1);
    StepsAppend(cfg, s, j, 1);
    ProcessKeepsValid(cfg, s1.link, s1.pc.n);
    var s2 := Firmware(cfg, s1);
    if s2.pc == Stopped {
      k := j + 1;
    } else {
      var m := SendSteps(cfg, s2);
      StepsAppend(cfg, s, j + 1, m);
      k := j + 1 + m;
    }
  }

  lemma StepsOne(cfg: Config, s: Sys)
    requires cfg.Valid() && s.link.Valid()
    ensures FirmwareSteps(cfg, s, 1) == Firmware(cfg, s)
  {
    NextKeepsValid(cfg, s, Device);
  }

  /** A stale UNF flag on an armed buffer does occur: an IN token between the clearing of
      UNF and the clearing of BUSNACK0 sets UNF again. */
  lemma StaleUnfReachable(cfg: Config, l: Link, p: packet) returns (actions: seq<Action>)
    requires cfg.Valid() && Quiet(l) && l.dev.mode.Waiting? && |p| == 64 && p[0] == CMD_GET_BOOT_INFO
    ensures var ep := Execute(cfg, Start(l), actions).link.ep;
            ep.inUnf && !ep.inNack
  {
    var s;
    actions, s := AnswerReady(cfg, l, p);
    hide Process, Execute;
    actions, s := Extend(cfg, l, actions, s, InPoll);
    actions, s := Extend(cfg, l, actions, s, Device);
    actions, s := Extend(cfg, l, actions, s, Device);
    actions, s := Extend(cfg, l, actions, s, InPoll);
    actions, s := Extend(cfg, l, actions, s, Device);
    actions, s := Extend(cfg, l, actions, s, Device);
  }

  lemma AnswerReady(cfg: Config, l: Link, p: packet) returns (actions: seq<Action>, s: Sys)
    requires cfg.Valid() && Quiet(l) && l.dev.mode.Waiting? && |p| == 64 && p[0] == CMD_GET_BOOT_INFO
    ensures s.link.Valid() && s == Execute(cfg, Start(l), actions)
    ensures s.pc == TestIn && s.link.pending != [] && s.link.ep.inNack
  {
    hide Execute;
    actions, s := [], Start(l);
    NothingDone(cfg, s);
    actions, s := Extend(cfg, l, actions, s, OutPacket(p));
    actions, s := Extend(cfg, l, actions, s, Device);
    actions, s := Extend(cfg, l, actions, s, Device);
    actions, s := Extend(cfg, l, actions, s, Device);
    assert s.pc == Switch(64) && s.link.request == p;
    actions, s := Extend(cfg, l, actions, s, Device);
    assert s.link.pending == BootInfo(cfg);
  }

  lemma NothingDone(cfg: Config, s: Sys)
    requires cfg.Valid() && s.link.Valid()
    ensures Execute(cfg, s, []) == s
  {
  }

  lemma Extend(cfg: Config, l: Link, actions: seq<Action>, s: Sys, a: Action) returns (more: seq<Action>, s': Sys)
    requires cfg.Valid() && l.Valid() && s == Execute(cfg, Start(l), actions)
    ensures more == actions + [a] && s'.link.Valid() && s' == Next(cfg, s, a) == Execute(cfg, Start(l), more)
  {
    more := actions + [a];
    assert more[..|actions|] == actions;
    s' := Next(cfg, s, a);
    NextKeepsValid(cfg, s, a);
  }
}
