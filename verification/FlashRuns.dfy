/** The flashing script and the firmware, interleaved.

    Host.dfy runs the script against a device that polls exactly once between a packet and
    its report. Here the script, the host's driver and the firmware take turns in any fair
    order, the firmware one memory access at a time (Handshake.dfy). The script is given by its
    next move as a function of the reports it has received. It comes to the same verdict. */
module FlashRuns {
  import opened Bits
  import opened NvmChecksum
  import opened NvmController
  import opened Protocol
  import opened Channel
  import opened Multiples
  import opened Host
  import opened Schedules
  import Handshake

  // ----- the script

  /** Send a request and wait for a report; send a request and end; or end. */
  datatype Move = Ask(request: report) | Bid(request: report, result: Result<()>) | End(result: Result<()>)

  /** write_hexfile, once the given reports have been received. */
  function Script(image: map<nat, byte>, maxaddr: nat, got: seq<report>): Move {
    if got == [] then Ask(Request(CMD_GET_BOOT_INFO, []))
    else
      match InfoResult(got[0])
      case Raised(e) => End(Raised(e))
      case Done(info) =>
        if info.pageSize == 0 || !Aligned(info.pageSize, 64) then End(Raised(UnusablePages(info.pageSize)))
        else
          var end := EndOf(maxaddr, info.pageSize);
          EndIsCeiling(maxaddr, info.pageSize);
          Transitive(end, info.pageSize, 64);
          if end > info.flashSize then End(Raised(TooLarge(maxaddr)))
          else FlashMove(HexData(image, info.flashSize), end, got)
  }

  function FlashMove(hex: seq<byte>, end: nat, got: seq<report>): Move
    requires got != [] && end <= |hex| && Aligned(end, 64)
  {
    var n := |got|;
    if n == 1 then Ask(Request(CMD_ERASE, []))
    else if n == 2 then Unless(OkayResult(got[1]), Ask(Request(CMD_WRITE, Le32(0) + Le32(end))))
    else if n == 3 then Unless(WriteStartResult(got[2]), DataMove(hex, end, 0))
    else if 64 * (n - 4) < end then Unless(OkayResult(got[n - 1]), DataMove(hex, end, n - 3))
    else
      match CrcResult(got[n - 1])
      case Raised(e) => End(Raised(e))
      case Done(crc) =>
        if crc.0 != NvmCrc(hex) then End(Raised(CrcMismatch(crc.0, NvmCrc(hex))))
        else Bid(Request(CMD_RESET, []), Done(()))
  }

  function Unless(status: Result<()>, next: Move): Move {
    match status
    case Raised(e) => End(Raised(e))
    case Done(_) => next
  }

  /** Packet k of the region, or the checksum request behind the last one. */
  function DataMove(hex: seq<byte>, end: nat, k: nat): Move
    requires end <= |hex| && Aligned(end, 64)
  {
    SixtyFours(k);
    if 64 * k < end then
      Gap(64 * k, end, 64);
      Ask(hex[64 * k..64 * k + 64])
    else Ask(Request(CMD_CRC, []))
  }

  // ----- the conversation, served packet by packet

  /** Where the device and the script are after n requests and their answers. */
  ghost predicate Stage(cfg: Config, image: map<nat, byte>, maxaddr: nat, d0: Dev, v: Handshake.Served, n: nat)
    requires cfg.Valid() && IsMaxAddr(image, maxaddr)
  {
    var got, hex, end := v.answers, HexData(image, cfg.flashSize), EndOf(maxaddr, cfg.pageSize);
    && |got| == n && Inv(cfg, v.dev)
    && (n >= 1 ==> InfoResult(got[0]) == Done(InfoOf(cfg)))
    && (n >= 2 ==> end <= cfg.flashSize)
    && if n <= 1 then v.dev == d0
       else if n == 2 then
         && OkayResult(got[1]) == Done(())
         && v.dev.mode.Waiting?
         && v.dev.erased
         && v.dev.flash == Blank(cfg.flashSize)
       else if 64 * (n - 3) <= end then
         && InSession(cfg, Blank(cfg.flashSize), 0, end, hex[..64 * (n - 3)], v.dev)
         && (if n == 3 then WriteStartResult(got[2]) else OkayResult(got[n - 1])) == Done(())
       else 64 * (n - 4) == end && Decided(cfg, image, maxaddr, v.dev, got[n - 1])
  }

  /** The checksum report leads to the verdict. */
  ghost predicate Decided(cfg: Config, image: map<nat, byte>, maxaddr: nat, d: Dev, answer: report)
    requires cfg.Valid() && IsMaxAddr(image, maxaddr)
  {
    var hex, verdict := HexData(image, cfg.flashSize), Verdict(cfg, image, maxaddr);
    && (verdict.Done? ==> d.mode.Waiting? && d.flash == hex)
    && match CrcResult(answer)
       case Raised(e) => verdict == Raised(e)
       case Done(crc) => verdict == if crc.0 != NvmCrc(hex) then Raised(CrcMismatch(crc.0, NvmCrc(hex))) else Done(())
  }

  /** A packet of full length that the protocol answers. */
  lemma ServeAnswered(cfg: Config, v: Handshake.Served, p: report)
    requires cfg.Valid() && Step(cfg, v.dev, p).1 != []
    ensures var (dev, answer) := Step(cfg, v.dev, p);
            && |Received(v.buffer, answer)| == 64
            && Handshake.ServeOne(cfg, v, p) ==
                 Handshake.Served(dev, p, Received(v.buffer, answer), v.answers + [Received(v.buffer, answer)])
  {
    hide Step;
    assert Overlay(v.request, p) == p;
  }

  lemma StageNext(cfg: Config, image: map<nat, byte>, maxaddr: nat, d0: Dev, v: Handshake.Served, n: nat, p: report)
    requires cfg.Valid() && IsMaxAddr(image, maxaddr) && d0.mode.Waiting?
    requires Stage(cfg, image, maxaddr, d0, v, n) && Script(image, maxaddr, v.answers) == Ask(p)
    ensures Stage(cfg, image, maxaddr, d0, Handshake.ServeOne(cfg, v, p), n + 1)
  {
    StepKeepsInv(cfg, v.dev, p);
    hide Step, Script, Inv, IsMaxAddr, Handshake.ServeOne, InfoResult, EndOf, HexData, NvmCrc;
    if n == 0 {
      AskInfo(cfg, image, maxaddr, d0, v, p);
    } else {
      ScriptFlashes(cfg, image, maxaddr, v.answers);
      if n == 1 {
        AskErase(cfg, image, maxaddr, d0, v, p);
      } else if n == 2 {
        AskWrite(cfg, image, maxaddr, d0, v, p);
      } else {
        AskMore(cfg, image, maxaddr, d0, v, n, p);
      }
    }
  }

  /** With usable boot information the script flashes, or finds the image too large. */
  lemma ScriptFlashes(cfg: Config, image: map<nat, byte>, maxaddr: nat, got: seq<report>)
    requires cfg.Valid() && got != [] && InfoResult(got[0]) == Done(InfoOf(cfg))
    ensures var end := EndOf(maxaddr, cfg.pageSize);
            && Aligned(end, 64)
            && Script(image, maxaddr, got) ==
                 if end > cfg.flashSize then End(Raised(TooLarge(maxaddr)))
                 else FlashMove(HexData(image, cfg.flashSize), end, got)
  {
    hide InfoResult, FlashMove, EndOf, HexData, Aligned;
    EndIsCeiling(maxaddr, cfg.pageSize);
    Transitive(EndOf(maxaddr, cfg.pageSize), cfg.pageSize, 64);
  }

  lemma StatusReceived(cfg: Config, d: Dev, p: report, earlier: report)
    requires cfg.Valid()
    ensures var answer := Step(cfg, d, p).1;
            && OkayResult(Received(earlier, answer)) == OkayResult(answer)
            && WriteStartResult(Received(earlier, answer)) == WriteStartResult(answer)
  {
    hide Aligned, FromLe32, FromLe16, NvmCrc, Programmed;
  }

  lemma NoAnswerFails()
    ensures OkayResult([]).Raised? && WriteStartResult([]).Raised?
  {
  }

  lemma AskInfo(cfg: Config, image: map<nat, byte>, maxaddr: nat, d0: Dev, v: Handshake.Served, p: report)
    requires cfg.Valid() && IsMaxAddr(image, maxaddr) && d0.mode.Waiting?
    requires Stage(cfg, image, maxaddr, d0, v, 0) && p == Request(CMD_GET_BOOT_INFO, [])
    requires Inv(cfg, Step(cfg, v.dev, p).0)
    ensures Stage(cfg, image, maxaddr, d0, Handshake.ServeOne(cfg, v, p), 1)
  {
    BootInfoStep(cfg, d0);
    BootInfoAnswer(cfg, d0, p);
    BootInfoFields(cfg, v.buffer);
    hide Step, Inv, InfoResult, BootInfo, Handshake.ServeOne, IsMaxAddr;
    ServeAnswered(cfg, v, p);
  }

  lemma BootInfoAnswer(cfg: Config, d: Dev, p: report)
    requires cfg.Valid() && d.mode.Waiting? && p[0] == CMD_GET_BOOT_INFO
    ensures Step(cfg, d, p).1 == BootInfo(cfg)
  {
  }

  lemma AskErase(cfg: Config, image: map<nat, byte>, maxaddr: nat, d0: Dev, v: Handshake.Served, p: report)
    requires cfg.Valid() && IsMaxAddr(image, maxaddr) && d0.mode.Waiting?
    requires Stage(cfg, image, maxaddr, d0, v, 1) && EndOf(maxaddr, cfg.pageSize) <= cfg.flashSize
    requires p == Request(CMD_ERASE, []) && Inv(cfg, Step(cfg, v.dev, p).0)
    ensures Stage(cfg, image, maxaddr, d0, Handshake.ServeOne(cfg, v, p), 2)
  {
    EraseAnswer(cfg, d0);
    StatusReceived(cfg, d0, p, v.buffer);
    NoAnswerFails();
    hide Step, Inv, InfoResult, OkayResult, WriteStartResult, Handshake.ServeOne, IsMaxAddr, EndOf, Received;
    ServeAnswered(cfg, v, p);
  }

  lemma AskWrite(cfg: Config, image: map<nat, byte>, maxaddr: nat, d0: Dev, v: Handshake.Served, p: report)
    requires cfg.Valid() && IsMaxAddr(image, maxaddr)
    requires Stage(cfg, image, maxaddr, d0, v, 2)
    requires p == Request(CMD_WRITE, Le32(0) + Le32(EndOf(maxaddr, cfg.pageSize))) && Inv(cfg, Step(cfg, v.dev, p).0)
    ensures Stage(cfg, image, maxaddr, d0, Handshake.ServeOne(cfg, v, p), 3)
  {
    var end := EndOf(maxaddr, cfg.pageSize);
    EndIsCeiling(maxaddr, cfg.pageSize);
    WriteStartAnswer(cfg, v.dev, end);
    StatusReceived(cfg, v.dev, p, v.buffer);
    NoAnswerFails();
    hide Step, Inv, InfoResult, OkayResult, WriteStartResult, Handshake.ServeOne, IsMaxAddr, EndOf, Received, InSession;
    ServeAnswered(cfg, v, p);
    assert HexData(image, cfg.flashSize)[..0] == [];
  }

  lemma AskMore(cfg: Config, image: map<nat, byte>, maxaddr: nat, d0: Dev, v: Handshake.Served, n: nat, p: report)
    requires cfg.Valid() && IsMaxAddr(image, maxaddr) && n >= 3
    requires Stage(cfg, image, maxaddr, d0, v, n) && Inv(cfg, Step(cfg, v.dev, p).0)
    requires Aligned(EndOf(maxaddr, cfg.pageSize), 64)
    requires FlashMove(HexData(image, cfg.flashSize), EndOf(maxaddr, cfg.pageSize), v.answers) == Ask(p)
    ensures Stage(cfg, image, maxaddr, d0, Handshake.ServeOne(cfg, v, p), n + 1)
  {
    var hex, end, k := HexData(image, cfg.flashSize), EndOf(maxaddr, cfg.pageSize), n - 3;
    SixtyFours(k);
    if 64 * k < end {
      Gap(64 * k, end, 64);
      AskData(cfg, image, maxaddr, d0, v, n, p);
    } else {
      AskCrc(cfg, image, maxaddr, d0, v, n, p);
    }
  }

  lemma AskData(cfg: Config, image: map<nat, byte>, maxaddr: nat, d0: Dev, v: Handshake.Served, n: nat, p: report)
    requires cfg.Valid() && IsMaxAddr(image, maxaddr) && n >= 3
    requires Stage(cfg, image, maxaddr, d0, v, n) && Inv(cfg, Step(cfg, v.dev, p).0)
    requires 64 * (n - 3) + 64 <= EndOf(maxaddr, cfg.pageSize)
             && p == HexData(image, cfg.flashSize)[64 * (n - 3)..64 * (n - 3) + 64]
    ensures Stage(cfg, image, maxaddr, d0, Handshake.ServeOne(cfg, v, p), n + 1)
  {
    var end, flash := EndOf(maxaddr, cfg.pageSize), Blank(cfg.flashSize);
    var s := HexData(image, cfg.flashSize)[..64 * (n - 3)];
    SixtyFours(n - 3);
    FlashBound(cfg);
    StageWriting(cfg, image, maxaddr, d0, v, n);
    assert s + p == HexData(image, cfg.flashSize)[..64 * (n - 2)];
    hide *;
    ReplayStep(cfg, flash, v.dev, 0, end, s, p);
    InSessionWrites(cfg, flash, 0, end, s, v.dev);
    OkayAnswer(cfg, v.dev, p, v.buffer);
    NoAnswerFails();
    ServeAnswered(cfg, v, p);
    StageWritten(cfg, image, maxaddr, d0, v, n, Handshake.ServeOne(cfg, v, p),
                 Received(v.buffer, Step(cfg, v.dev, p).1));
  }

  lemma StageWriting(cfg: Config, image: map<nat, byte>, maxaddr: nat, d0: Dev, v: Handshake.Served, n: nat)
    requires cfg.Valid() && IsMaxAddr(image, maxaddr) && n >= 3
    requires Stage(cfg, image, maxaddr, d0, v, n) && 64 * (n - 3) <= EndOf(maxaddr, cfg.pageSize)
    ensures EndOf(maxaddr, cfg.pageSize) <= cfg.flashSize && Inv(cfg, v.dev)
    ensures InSession(cfg, Blank(cfg.flashSize), 0, EndOf(maxaddr, cfg.pageSize),
                      HexData(image, cfg.flashSize)[..64 * (n - 3)], v.dev)
  {
    hide Inv, InSession, EndOf, HexData, InfoResult, OkayResult, WriteStartResult, Decided, Blank, IsMaxAddr;
  }

  lemma StageWritten(cfg: Config, image: map<nat, byte>, maxaddr: nat, d0: Dev, v: Handshake.Served, n: nat,
                     v': Handshake.Served, answer: report)
    requires cfg.Valid() && IsMaxAddr(image, maxaddr) && n >= 3
    requires Stage(cfg, image, maxaddr, d0, v, n) && 64 * (n - 2) <= EndOf(maxaddr, cfg.pageSize) <= cfg.flashSize
    requires Inv(cfg, v'.dev) && v'.answers == v.answers + [answer] && OkayResult(answer) == Done(())
    requires InSession(cfg, Blank(cfg.flashSize), 0, EndOf(maxaddr, cfg.pageSize),
                       HexData(image, cfg.flashSize)[..64 * (n - 2)], v'.dev)
    ensures Stage(cfg, image, maxaddr, d0, v', n + 1)
  {
    hide Inv, InSession, EndOf, HexData, InfoResult, OkayResult, WriteStartResult, Decided, Blank, IsMaxAddr;
  }

  lemma FlashBound(cfg: Config)
    requires cfg.Valid()
    ensures cfg.flashSize < 0x1_0000_0000
  {
  }

  lemma AskCrc(cfg: Config, image: map<nat, byte>, maxaddr: nat, d0: Dev, v: Handshake.Served, n: nat, p: report)
    requires cfg.Valid() && IsMaxAddr(image, maxaddr) && n >= 3
    requires Stage(cfg, image, maxaddr, d0, v, n) && Inv(cfg, Step(cfg, v.dev, p).0)
    requires 64 * (n - 3) >= EndOf(maxaddr, cfg.pageSize) && Aligned(EndOf(maxaddr, cfg.pageSize), 64)
    requires FlashMove(HexData(image, cfg.flashSize), EndOf(maxaddr, cfg.pageSize), v.answers) == Ask(p)
    ensures Stage(cfg, image, maxaddr, d0, Handshake.ServeOne(cfg, v, p), n + 1)
  {
    var hex, end := HexData(image, cfg.flashSize), EndOf(maxaddr, cfg.pageSize);
    assert p == Request(CMD_CRC, []) && 64 * (n - 3) == end;
    hide FlashMove, EndOf;
    CrcDecides(cfg, image, maxaddr, v.dev, p, v.buffer);
    hide Step, Inv, InfoResult, OkayResult, WriteStartResult, Handshake.ServeOne, IsMaxAddr, HexData, Received,
         InSession, Aligned, Blank, Decided;
    ServeAnswered(cfg, v, p);
  }

  lemma CrcDecides(cfg: Config, image: map<nat, byte>, maxaddr: nat, d: Dev, p: report, earlier: report)
    requires cfg.Valid() && IsMaxAddr(image, maxaddr) && p == Request(CMD_CRC, [])
    requires var hex, end := HexData(image, cfg.flashSize), EndOf(maxaddr, cfg.pageSize);
             end <= cfg.flashSize && InSession(cfg, Blank(cfg.flashSize), 0, end, hex[..end], d)
    ensures Step(cfg, d, p).1 != [] && |Received(earlier, Step(cfg, d, p).1)| == 64
    ensures Decided(cfg, image, maxaddr, Step(cfg, d, p).0, Received(earlier, Step(cfg, d, p).1))
  {
    EndFits(cfg, maxaddr);
    VerdictReached(cfg, image, maxaddr, d);
    NotHalted(cfg, Blank(cfg.flashSize), EndOf(maxaddr, cfg.pageSize),
              HexData(image, cfg.flashSize)[..EndOf(maxaddr, cfg.pageSize)], d);
    CrcAnswers(cfg, d);
    CrcAnswer(cfg, d, p, earlier);
    CrcAnswered(cfg, d, p);
    hide Step, CrcResult, Received, InSession, IsMaxAddr, HexData, EndOf, Verdict, NvmCrc;
    ReceivedLength(earlier, Step(cfg, d, p).1);
  }

  lemma NotHalted(cfg: Config, flash: seq<byte>, r: nat, s: seq<byte>, d: Dev)
    requires cfg.Valid() && InSession(cfg, flash, 0, r, s, d)
    ensures !d.mode.Halted?
  {
  }

  lemma CrcAnswered(cfg: Config, d: Dev, p: report)
    requires cfg.Valid() && p[0] == CMD_CRC && !d.mode.Halted?
    ensures Step(cfg, d, p).1 != []
  {
    hide NvmCrc, Programmed, Aligned;
  }

  lemma ReceivedLength(earlier: report, answer: seq<byte>)
    requires 0 < |answer| <= 64
    ensures |Received(earlier, answer)| == 64
  {
  }

  /** When the script ends, it has come to the verdict; it asks for a reset exactly when that
      is success, and then the flash is complete. */
  lemma StageEnds(cfg: Config, image: map<nat, byte>, maxaddr: nat, d0: Dev, v: Handshake.Served, n: nat)
    requires cfg.Valid() && IsMaxAddr(image, maxaddr)
    requires Stage(cfg, image, maxaddr, d0, v, n)
    ensures match Script(image, maxaddr, v.answers)
            case Ask(_) => true
            case End(r) => r == Verdict(cfg, image, maxaddr) && r.Raised?
            case Bid(p, r) =>
              && r == Verdict(cfg, image, maxaddr) == Done(()) && p == Request(CMD_RESET, [])
              && v.dev.mode.Waiting? && v.dev.flash == HexData(image, cfg.flashSize)
  {
    assert 0 < cfg.pageSize;
    hide *;
    if n == 0 {
      ScriptStarts(cfg, image, maxaddr, d0, v);
    } else {
      StageInfo(cfg, image, maxaddr, d0, v, n);
      ScriptFlashes(cfg, image, maxaddr, v.answers);
      if EndOf(maxaddr, cfg.pageSize) > cfg.flashSize {
        TooLargeVerdict(cfg, image, maxaddr);
      } else {
        FlashEnds(cfg, image, maxaddr, d0, v, n);
      }
    }
  }

  lemma ScriptStarts(cfg: Config, image: map<nat, byte>, maxaddr: nat, d0: Dev, v: Handshake.Served)
    requires cfg.Valid() && IsMaxAddr(image, maxaddr) && Stage(cfg, image, maxaddr, d0, v, 0)
    ensures Script(image, maxaddr, v.answers).Ask?
  {
  }

  lemma StageInfo(cfg: Config, image: map<nat, byte>, maxaddr: nat, d0: Dev, v: Handshake.Served, n: nat)
    requires cfg.Valid() && IsMaxAddr(image, maxaddr) && Stage(cfg, image, maxaddr, d0, v, n) && n > 0
    ensures v.answers != [] && InfoResult(v.answers[0]) == Done(InfoOf(cfg))
  {
    hide Inv, InSession, EndOf, HexData, InfoResult, OkayResult, WriteStartResult, Decided;
  }

  lemma TooLargeVerdict(cfg: Config, image: map<nat, byte>, maxaddr: nat)
    requires cfg.Valid() && IsMaxAddr(image, maxaddr) && EndOf(maxaddr, cfg.pageSize) > cfg.flashSize
    ensures Verdict(cfg, image, maxaddr) == Raised(TooLarge(maxaddr))
  {
    EndFits(cfg, maxaddr);
  }

  lemma FlashEnds(cfg: Config, image: map<nat, byte>, maxaddr: nat, d0: Dev, v: Handshake.Served, n: nat)
    requires cfg.Valid() && IsMaxAddr(image, maxaddr)
    requires Stage(cfg, image, maxaddr, d0, v, n) && n > 0
    requires EndOf(maxaddr, cfg.pageSize) <= cfg.flashSize && Aligned(EndOf(maxaddr, cfg.pageSize), 64)
    ensures match FlashMove(HexData(image, cfg.flashSize), EndOf(maxaddr, cfg.pageSize), v.answers)
            case Ask(_) => true
            case End(r) => r == Verdict(cfg, image, maxaddr) && r.Raised?
            case Bid(p, r) =>
              && r == Verdict(cfg, image, maxaddr) == Done(()) && p == Request(CMD_RESET, [])
              && v.dev.mode.Waiting? && v.dev.flash == HexData(image, cfg.flashSize)
  {
    hide EndOf, HexData, Inv, InfoResult, OkayResult, WriteStartResult, CrcResult, InSession, NvmCrc, IsMaxAddr,
         Verdict, Aligned, Request;
  }

  // ----- the script, its driver and the firmware on one bus

  datatype Talk = Talking | Over(result: Result<()>)

  datatype Live = Live(sys: Handshake.Sys, talk: Talk)

  /** Who acts next: the firmware with one access, the driver with an IN token, or the script. */
  datatype Party = TheFirmware | TheDriver | TheScript

  /** The script makes its move when it has a report for every request. */
  predicate ScriptTurn(s: Live) {
    s.talk.Talking? && |s.sys.sent| == |s.sys.received|
  }

  function ActionOf(image: map<nat, byte>, maxaddr: nat, s: Live, who: Party): Handshake.Action {
    match who
    case TheFirmware => Handshake.Device
    case TheDriver => Handshake.InPoll
    case TheScript =>
      if !ScriptTurn(s) then Handshake.Idle
      else
        match Script(image, maxaddr, s.sys.received)
        case Ask(p) => Handshake.OutPacket(p)
        case Bid(p, _) => Handshake.OutPacket(p)
        case End(_) => Handshake.Idle
  }

  /** A farewell that is not accepted yet is repeated. */
  function TalkAfter(image: map<nat, byte>, maxaddr: nat, s: Live, who: Party, sys': Handshake.Sys): Talk {
    if !who.TheScript? || !ScriptTurn(s) then s.talk
    else
      match Script(image, maxaddr, s.sys.received)
      case Ask(_) => Talking
      case Bid(_, r) => if |sys'.sent| > |s.sys.sent| then Over(r) else Talking
      case End(r) => Over(r)
  }

  function LiveNext(cfg: Config, image: map<nat, byte>, maxaddr: nat, s: Live, who: Party): Live
    requires cfg.Valid() && s.sys.link.Valid()
  {
    var sys' := Handshake.Next(cfg, s.sys, ActionOf(image, maxaddr, s, who));
    Live(sys', TalkAfter(image, maxaddr, s, who, sys'))
  }

  /** The state after t turns of the given schedule. */
  function LiveAt(cfg: Config, image: map<nat, byte>, maxaddr: nat, l: Link, sched: nat -> Party, t: nat): (s: Live)
    requires cfg.Valid() && l.Valid()
    ensures s.sys.link.Valid()
  {
    if t == 0 then Live(Handshake.Start(l), Talking)
    else
      var s := LiveAt(cfg, image, maxaddr, l, sched, t - 1);
      Handshake.NextKeepsValid(cfg, s.sys, ActionOf(image, maxaddr, s, sched(t - 1)));
      LiveNext(cfg, image, maxaddr, s, sched(t - 1))
  }

  ghost predicate LiveInv(cfg: Config, image: map<nat, byte>, maxaddr: nat, l: Link, s: Live)
    requires cfg.Valid() && IsMaxAddr(image, maxaddr)
    ensures LiveInv(cfg, image, maxaddr, l, s) ==> Handshake.Inv(cfg, l, s.sys)
  {
    && Handshake.Inv(cfg, l, s.sys)
    && (s.sys.sent != [] ==> |s.sys.sent[|s.sys.sent| - 1]| == 64)
    && match s.talk
       case Talking => Stage(cfg, image, maxaddr, l.dev, Handshake.Serve(cfg, l, s.sys.sent), |s.sys.sent|)
       case Over(r) => r == Verdict(cfg, image, maxaddr) && (r.Done? ==> Farewell(cfg, image, l, s.sys.sent))
  }

  /** The last packet is the reset request, and before it the flash was complete. */
  ghost predicate Farewell(cfg: Config, image: map<nat, byte>, l: Link, sent: seq<Handshake.packet>)
    requires cfg.Valid()
  {
    sent != [] && sent[|sent| - 1] == Request(CMD_RESET, []) &&
    var v := Handshake.Serve(cfg, l, sent[..|sent| - 1]);
    v.dev.mode.Waiting? && v.dev.flash == HexData(image, cfg.flashSize) && |v.answers| == |sent| - 1
  }

  /** At its turn the script has received exactly the answers to what it has sent. */
  lemma AllReceived(cfg: Config, l: Link, s: Handshake.Sys)
    requires cfg.Valid() && Handshake.Inv(cfg, l, s)
    ensures s.received <= Handshake.Serve(cfg, l, s.sent).answers
    ensures |Handshake.Serve(cfg, l, s.sent).answers| == |s.sent| == |s.received| ==>
            s.received == Handshake.Serve(cfg, l, s.sent).answers
  {
    hide Handshake.Serve, Handshake.Inv;
    Handshake.ReceivedInOrder(cfg, l, s);
  }

  lemma LiveKeepsInv(cfg: Config, image: map<nat, byte>, maxaddr: nat, l: Link, s: Live, who: Party)
    requires cfg.Valid() && IsMaxAddr(image, maxaddr) && l.dev.mode.Waiting?
    requires LiveInv(cfg, image, maxaddr, l, s)
    ensures LiveInv(cfg, image, maxaddr, l, LiveNext(cfg, image, maxaddr, s, who))
  {
    var a := ActionOf(image, maxaddr, s, who);
    Handshake.NextKeepsInv(cfg, l, s.sys, a);
    hide Handshake.Inv, Handshake.Next, Handshake.Serve, Script, Stage, IsMaxAddr, Verdict, Farewell, Request;
    if who.TheScript? && ScriptTurn(s) {
      ScriptSpeaks(cfg, image, maxaddr, l, s);
    } else {
      SilentSends(cfg, s.sys, a);
    }
  }

  lemma SilentSends(cfg: Config, s: Handshake.Sys, a: Handshake.Action)
    requires cfg.Valid() && s.link.Valid() && !a.OutPacket?
    ensures Handshake.Next(cfg, s, a).sent == s.sent
  {
    hide Process;
  }

  lemma ScriptSpeaks(cfg: Config, image: map<nat, byte>, maxaddr: nat, l: Link, s: Live)
    requires cfg.Valid() && IsMaxAddr(image, maxaddr) && l.dev.mode.Waiting?
    requires LiveInv(cfg, image, maxaddr, l, s) && ScriptTurn(s)
    requires Handshake.Inv(cfg, l, LiveNext(cfg, image, maxaddr, s, TheScript).sys)
    ensures LiveInv(cfg, image, maxaddr, l, LiveNext(cfg, image, maxaddr, s, TheScript))
  {
    var sent, v := s.sys.sent, Handshake.Serve(cfg, l, s.sys.sent);
    AllReceived(cfg, l, s.sys);
    StageEnds(cfg, image, maxaddr, l.dev, v, |sent|);
    StageAnswers(cfg, image, maxaddr, l.dev, v, |sent|);
    var move := Script(image, maxaddr, s.sys.received);
    hide *;
    match move
    case Ask(p) => AskKeepsInv(cfg, image, maxaddr, l, s, p);
    case Bid(p, r) => BidKeepsInv(cfg, image, maxaddr, l, s, p, r);
    case End(r) => EndKeepsInv(cfg, image, maxaddr, l, s, r);
  }

  lemma AskKeepsInv(cfg: Config, image: map<nat, byte>, maxaddr: nat, l: Link, s: Live, p: report)
    requires cfg.Valid() && IsMaxAddr(image, maxaddr) && l.dev.mode.Waiting?
    requires LiveInv(cfg, image, maxaddr, l, s) && ScriptTurn(s)
    requires Script(image, maxaddr, s.sys.received) == Ask(p)
             && s.sys.received == Handshake.Serve(cfg, l, s.sys.sent).answers
    requires Handshake.Inv(cfg, l, LiveNext(cfg, image, maxaddr, s, TheScript).sys)
    ensures LiveInv(cfg, image, maxaddr, l, LiveNext(cfg, image, maxaddr, s, TheScript))
  {
    var sent := s.sys.sent;
    hide Handshake.Inv, Handshake.Serve, Script, Stage, IsMaxAddr, Verdict, Farewell;
    if !s.sys.link.ep.outNack {
      StageNext(cfg, image, maxaddr, l.dev, Handshake.Serve(cfg, l, sent), |sent|, p);
      ServeSnoc(cfg, l, sent, p);
    }
  }

  lemma BidKeepsInv(cfg: Config, image: map<nat, byte>, maxaddr: nat, l: Link, s: Live, p: report, r: Result<()>)
    requires cfg.Valid() && IsMaxAddr(image, maxaddr)
    requires LiveInv(cfg, image, maxaddr, l, s) && ScriptTurn(s)
    requires Script(image, maxaddr, s.sys.received) == Bid(p, r)
    requires var v := Handshake.Serve(cfg, l, s.sys.sent);
             && r == Verdict(cfg, image, maxaddr) && p == Request(CMD_RESET, []) && |v.answers| == |s.sys.sent|
             && v.dev.mode.Waiting? && v.dev.flash == HexData(image, cfg.flashSize)
    requires Handshake.Inv(cfg, l, LiveNext(cfg, image, maxaddr, s, TheScript).sys)
    ensures LiveInv(cfg, image, maxaddr, l, LiveNext(cfg, image, maxaddr, s, TheScript))
  {
    hide Handshake.Inv, Handshake.Serve, Script, Stage, IsMaxAddr, Verdict, HexData;
    assert (s.sys.sent + [p])[..|s.sys.sent|] == s.sys.sent;
  }

  lemma EndKeepsInv(cfg: Config, image: map<nat, byte>, maxaddr: nat, l: Link, s: Live, r: Result<()>)
    requires cfg.Valid() && IsMaxAddr(image, maxaddr)
    requires LiveInv(cfg, image, maxaddr, l, s) && ScriptTurn(s)
    requires Script(image, maxaddr, s.sys.received) == End(r) && r == Verdict(cfg, image, maxaddr) && r.Raised?
    ensures LiveInv(cfg, image, maxaddr, l, LiveNext(cfg, image, maxaddr, s, TheScript))
  {
    hide Handshake.Inv, Handshake.Serve, Script, Stage, IsMaxAddr, Verdict, Farewell;
  }

  lemma StageAnswers(cfg: Config, image: map<nat, byte>, maxaddr: nat, d0: Dev, v: Handshake.Served, n: nat)
    requires cfg.Valid() && IsMaxAddr(image, maxaddr)
    requires Stage(cfg, image, maxaddr, d0, v, n)
    ensures |v.answers| == n && (n <= 1 || 64 * (n - 4) <= EndOf(maxaddr, cfg.pageSize))
  {
    hide Inv, InSession, EndOf, HexData, InfoResult, OkayResult, WriteStartResult, Decided;
  }

  lemma ServeSnoc(cfg: Config, l: Link, ps: seq<Handshake.packet>, p: Handshake.packet)
    requires cfg.Valid()
    ensures Handshake.Serve(cfg, l, ps + [p]) == Handshake.ServeOne(cfg, Handshake.Serve(cfg, l, ps), p)
  {
    assert (ps + [p])[..|ps|] == ps;
  }

  // ----- every schedule: nothing goes wrong

  lemma {:induction false} LiveAtInv(cfg: Config, image: map<nat, byte>, maxaddr: nat, l: Link, sched: nat -> Party,
                                     t: nat)
    requires Prepared(cfg, image, maxaddr, l)
    ensures LiveInv(cfg, image, maxaddr, l, LiveAt(cfg, image, maxaddr, l, sched, t))
  {
    hide LiveInv, LiveNext, IsMaxAddr, Inv, Prepared;
    if t == 0 {
      LiveStart(cfg, image, maxaddr, l);
    } else {
      LiveAtInv(cfg, image, maxaddr, l, sched, t - 1);
      LiveKeepsInv(cfg, image, maxaddr, l, LiveAt(cfg, image, maxaddr, l, sched, t - 1), sched(t - 1));
    }
  }

  lemma LiveStart(cfg: Config, image: map<nat, byte>, maxaddr: nat, l: Link)
    requires Prepared(cfg, image, maxaddr, l)
    ensures LiveInv(cfg, image, maxaddr, l, Live(Handshake.Start(l), Talking))
  {
    Handshake.StartInv(cfg, l);
    hide Inv, IsMaxAddr, Handshake.Inv;
    assert Handshake.Serve(cfg, l, []).answers == [];
  }

  /** An image, and an idle channel to a device that waits for a command. */
  ghost predicate Prepared(cfg: Config, image: map<nat, byte>, maxaddr: nat, l: Link)
    ensures Prepared(cfg, image, maxaddr, l) ==>
            cfg.Valid() && IsMaxAddr(image, maxaddr) && l.Valid() && l.dev.mode.Waiting?
  {
    cfg.Valid() && IsMaxAddr(image, maxaddr) && Quiet(l) && l.dev.mode.Waiting? && Inv(cfg, l.dev)
  }

  /** Under every schedule, fair or not: when the script has ended, it has come to the verdict,
      and if that is success, the flash holds the padded image from then on. */
  lemma FlashingSafe(cfg: Config, image: map<nat, byte>, maxaddr: nat, l: Link, sched: nat -> Party, t: nat)
    requires Prepared(cfg, image, maxaddr, l)
    requires LiveAt(cfg, image, maxaddr, l, sched, t).talk.Over?
    ensures var s := LiveAt(cfg, image, maxaddr, l, sched, t);
            && s.talk.result == Verdict(cfg, image, maxaddr)
            && Expected(cfg.pageSize, cfg.flashSize, image, maxaddr, s.talk.result)
            && (s.talk.result.Done? ==>
                  && s.sys.link.dev.flash == HexData(image, cfg.flashSize)
                  && Padded(s.sys.link.dev.flash, cfg.flashSize, image))
  {
    VerdictExpected(cfg, image, maxaddr);
    HexDataPadded(image, cfg.flashSize);
    LiveAtInv(cfg, image, maxaddr, l, sched, t);
    var s := LiveAt(cfg, image, maxaddr, l, sched, t);
    hide LiveAt, Verdict;
    if s.talk.result.Done? { FarewellFlash(cfg, image, l, s.sys); }
  }

  /** The reset request has been acted on, or it is the only packet that has not. */
  lemma LastProcessed(cfg: Config, l: Link, s: Handshake.Sys)
    requires cfg.Valid() && Handshake.Inv(cfg, l, s) && s.sent != []
    ensures var ps := Handshake.Processed(s); ps == s.sent || ps == s.sent[..|s.sent| - 1]
  {
    Handshake.ServeBounds(cfg, l, Handshake.Processed(s));
    hide Handshake.Serve, Step;
  }

  lemma FarewellFlash(cfg: Config, image: map<nat, byte>, l: Link, s: Handshake.Sys)
    requires cfg.Valid() && Handshake.Inv(cfg, l, s) && Farewell(cfg, image, l, s.sent)
    ensures s.link.dev.flash == HexData(image, cfg.flashSize)
    ensures Handshake.Processed(s) == s.sent ==> s.link.dev.mode == Halted
    ensures Handshake.Serve(cfg, l, s.sent).answers == Handshake.Serve(cfg, l, s.sent[..|s.sent| - 1]).answers
  {
    var front, p := s.sent[..|s.sent| - 1], s.sent[|s.sent| - 1];
    var v := Handshake.Serve(cfg, l, front);
    assert front + [p] == s.sent;
    ServeSnoc(cfg, l, front, p);
    ServeReset(cfg, v, p);
    LastProcessed(cfg, l, s);
    DeviceServes(cfg, l, s);
    assert Handshake.Serve(cfg, l, s.sent) == v.(dev := v.dev.(mode := Halted), request := p);
    assert v.dev.flash == HexData(image, cfg.flashSize);
    hide *;
  }

  lemma DeviceServes(cfg: Config, l: Link, s: Handshake.Sys)
    requires cfg.Valid() && Handshake.Inv(cfg, l, s)
    ensures s.link.dev == Handshake.Serve(cfg, l, Handshake.Processed(s)).dev
  {
    hide Handshake.Serve;
  }

  lemma ServeReset(cfg: Config, v: Handshake.Served, p: report)
    requires cfg.Valid() && v.dev.mode.Waiting? && p == Request(CMD_RESET, [])
    ensures Handshake.ServeOne(cfg, v, p) == v.(dev := v.dev.(mode := Halted), request := p)
  {
    assert Overlay(v.request, p) == p;
    ResetStep(cfg, v.dev);
    hide Step;
  }

  // ----- every fair schedule: it comes to an end

  ghost predicate FairParties(sched: nat -> Party) {
    forall t: nat :: Again(sched, TheFirmware, t) && Again(sched, TheDriver, t) && Again(sched, TheScript, t)
  }

  /** At its turn the script finds the OUT endpoint free. */
  lemma OutFree(cfg: Config, l: Link, s: Handshake.Sys)
    requires cfg.Valid() && Handshake.Inv(cfg, l, s)
    requires |s.sent| == |s.received| && (s.sent != [] ==> s.sent[|s.sent| - 1] != [])
    ensures !s.link.ep.outNack
  {
    Handshake.ServeBounds(cfg, l, Handshake.Processed(s));
    hide Handshake.Serve, Step;
  }

  /** Until the script moves, nothing is sent or received. */
  lemma TurnStays(cfg: Config, image: map<nat, byte>, maxaddr: nat, l: Link, s: Live, who: Party)
    requires cfg.Valid() && IsMaxAddr(image, maxaddr) && l.dev.mode.Waiting?
    requires LiveInv(cfg, image, maxaddr, l, s) && ScriptTurn(s) && !who.TheScript?
    ensures ScriptTurn(LiveNext(cfg, image, maxaddr, s, who))
    ensures LiveNext(cfg, image, maxaddr, s, who).sys.sent == s.sys.sent
  {
    var s' := LiveNext(cfg, image, maxaddr, s, who);
    LiveKeepsInv(cfg, image, maxaddr, l, s, who);
    SilentSends(cfg, s.sys, ActionOf(image, maxaddr, s, who));
    StageAnswers(cfg, image, maxaddr, l.dev, Handshake.Serve(cfg, l, s.sys.sent), |s.sys.sent|);
    AllReceived(cfg, l, s'.sys);
    ReceivesMore(cfg, s.sys, ActionOf(image, maxaddr, s, who));
    hide Handshake.Inv, Handshake.Next, Handshake.Serve, Script, Stage, IsMaxAddr, Verdict, Farewell;
  }

  lemma ReceivesMore(cfg: Config, s: Handshake.Sys, a: Handshake.Action)
    requires cfg.Valid() && s.link.Valid()
    ensures s.received <= Handshake.Next(cfg, s, a).received
  {
    hide Process;
  }

  /** At its turn the script sends or ends. */
  lemma TurnMoves(cfg: Config, image: map<nat, byte>, maxaddr: nat, l: Link, s: Live)
    requires cfg.Valid() && IsMaxAddr(image, maxaddr)
    requires LiveInv(cfg, image, maxaddr, l, s) && ScriptTurn(s)
    ensures var s' := LiveNext(cfg, image, maxaddr, s, TheScript);
            s'.talk.Over? || |s'.sys.sent| == |s.sys.sent| + 1
  {
    OutFree(cfg, l, s.sys);
    hide Handshake.Inv, Handshake.Serve, Script, Stage, IsMaxAddr, Verdict, Farewell;
  }

  lemma {:induction false} ScriptMoves(cfg: Config, image: map<nat, byte>, maxaddr: nat, l: Link, sched: nat -> Party,
                                       t: nat, w: nat)
    returns (u: nat)
    requires Prepared(cfg, image, maxaddr, l)
    requires ScriptTurn(LiveAt(cfg, image, maxaddr, l, sched, t)) && t <= w && sched(w) == TheScript
    ensures t < u
    ensures var s, s' := LiveAt(cfg, image, maxaddr, l, sched, t), LiveAt(cfg, image, maxaddr, l, sched, u);
            s'.talk.Over? || |s'.sys.sent| == |s.sys.sent| + 1
    decreases w - t
  {
    hide *;
    LiveAtInv(cfg, image, maxaddr, l, sched, t);
    LiveAtNext(cfg, image, maxaddr, l, sched, t);
    var s := LiveAt(cfg, image, maxaddr, l, sched, t);
    if sched(t) == TheScript {
      TurnMoves(cfg, image, maxaddr, l, s);
      u := t + 1;
    } else {
      TurnStays(cfg, image, maxaddr, l, s, sched(t));
      u := ScriptMoves(cfg, image, maxaddr, l, sched, t + 1, w);
    }
  }

  lemma LiveAtNext(cfg: Config, image: map<nat, byte>, maxaddr: nat, l: Link, sched: nat -> Party, t: nat)
    requires cfg.Valid() && l.Valid()
    ensures LiveAt(cfg, image, maxaddr, l, sched, t + 1) ==
            LiveNext(cfg, image, maxaddr, LiveAt(cfg, image, maxaddr, l, sched, t), sched(t))
  {
  }

  /** While the script waits for a report, one arrives. */
  lemma ReportComes(cfg: Config, image: map<nat, byte>, maxaddr: nat, l: Link, sched: nat -> Party, t: nat)
    returns (u: nat)
    requires Prepared(cfg, image, maxaddr, l) && FairParties(sched)
    requires var s := LiveAt(cfg, image, maxaddr, l, sched, t); s.talk.Talking? && !ScriptTurn(s)
    ensures t < u
    ensures var s, s' := LiveAt(cfg, image, maxaddr, l, sched, t), LiveAt(cfg, image, maxaddr, l, sched, u);
            |s'.sys.received| == |s.sys.received| + 1 && s'.sys.sent == s.sys.sent
  {
    var run := (i: nat) => LiveAt(cfg, image, maxaddr, l, sched, i).sys;
    var actions := (i: nat) => ActionOf(image, maxaddr, LiveAt(cfg, image, maxaddr, l, sched, i), sched(i));
    RunOfLive(cfg, image, maxaddr, l, sched, run, actions);
    LiveAtInv(cfg, image, maxaddr, l, sched, t);
    WaitingIsOwed(cfg, image, maxaddr, l, LiveAt(cfg, image, maxaddr, l, sched, t));
    u := Handshake.AnswerArrives(cfg, l, run, actions, t);
  }

  lemma WaitingIsOwed(cfg: Config, image: map<nat, byte>, maxaddr: nat, l: Link, s: Live)
    requires cfg.Valid() && IsMaxAddr(image, maxaddr)
    requires LiveInv(cfg, image, maxaddr, l, s) && s.talk.Talking? && !ScriptTurn(s)
    ensures Handshake.Owed(cfg, l, s.sys)
  {
    StageAnswers(cfg, image, maxaddr, l.dev, Handshake.Serve(cfg, l, s.sys.sent), |s.sys.sent|);
    AllReceived(cfg, l, s.sys);
    hide Handshake.Inv, Handshake.Serve, Stage, IsMaxAddr;
  }

  lemma RunOfLive(cfg: Config, image: map<nat, byte>, maxaddr: nat, l: Link, sched: nat -> Party,
                  run: nat -> Handshake.Sys, actions: nat -> Handshake.Action)
    requires cfg.Valid() && l.Valid() && FairParties(sched)
    requires forall i: nat :: run(i) == LiveAt(cfg, image, maxaddr, l, sched, i).sys
    requires forall i: nat :: actions(i) == ActionOf(image, maxaddr, LiveAt(cfg, image, maxaddr, l, sched, i), sched(i))
    ensures Handshake.IsRun(cfg, run, actions) && Handshake.Fair(actions)
  {
    hide LiveAt, Handshake.Next;
    forall t: nat ensures run(t).link.Valid() && run(t + 1) == Handshake.Next(cfg, run(t), actions(t)) {
      LiveAtNext(cfg, image, maxaddr, l, sched, t);
    }
    forall t: nat ensures Again(actions, Handshake.Device, t) && Again(actions, Handshake.InPoll, t) {
      assert Again(sched, TheFirmware, t) && Again(sched, TheDriver, t);
      var u: nat, w: nat :| t <= u && sched(u) == TheFirmware && t <= w && sched(w) == TheDriver;
      assert actions(u) == Handshake.Device && actions(w) == Handshake.InPoll;
    }
  }

  lemma LiveNextSys(cfg: Config, image: map<nat, byte>, maxaddr: nat, s: Live, who: Party)
    requires cfg.Valid() && s.sys.link.Valid()
    ensures LiveNext(cfg, image, maxaddr, s, who).sys == Handshake.Next(cfg, s.sys, ActionOf(image, maxaddr, s, who))
  {
    hide Handshake.Next, Script;
  }

  /** How many more packets and reports the script can see. */
  function Remaining(cfg: Config, maxaddr: nat, s: Live): int
    requires cfg.Valid()
  {
    2 * (EndOf(maxaddr, cfg.pageSize) + 4) - |s.sys.sent| - |s.sys.received|
  }

  lemma RemainingBound(cfg: Config, image: map<nat, byte>, maxaddr: nat, l: Link, s: Live)
    requires cfg.Valid() && IsMaxAddr(image, maxaddr) && LiveInv(cfg, image, maxaddr, l, s) && s.talk.Talking?
    ensures 0 <= Remaining(cfg, maxaddr, s)
  {
    StageAnswers(cfg, image, maxaddr, l.dev, Handshake.Serve(cfg, l, s.sys.sent), |s.sys.sent|);
    AllReceived(cfg, l, s.sys);
    hide Handshake.Inv, Handshake.Serve, Stage, IsMaxAddr, EndOf;
  }

  lemma {:induction false} ScriptEnds(cfg: Config, image: map<nat, byte>, maxaddr: nat, l: Link, sched: nat -> Party,
                                      t: nat)
    returns (u: nat)
    requires Prepared(cfg, image, maxaddr, l) && FairParties(sched)
    ensures LiveAt(cfg, image, maxaddr, l, sched, u).talk.Over?
    decreases
      LiveAt(cfg, image, maxaddr, l, sched, t).talk.Talking?,
      Remaining(cfg, maxaddr, LiveAt(cfg, image, maxaddr, l, sched, t))
  {
    var s := LiveAt(cfg, image, maxaddr, l, sched, t);
    LiveAtInv(cfg, image, maxaddr, l, sched, t);
    if s.talk.Over? {
      u := t;
    } else {
      RemainingBound(cfg, image, maxaddr, l, s);
      assert Again(sched, TheScript, t);
      var w: nat :| t <= w && sched(w) == TheScript;
      u := NextExchange(cfg, image, maxaddr, l, sched, t, w);
      var s' := LiveAt(cfg, image, maxaddr, l, sched, u);
      LiveAtInv(cfg, image, maxaddr, l, sched, u);
      if s'.talk.Talking? {
        RemainingBound(cfg, image, maxaddr, l, s');
        u := ScriptEnds(cfg, image, maxaddr, l, sched, u);
      }
    }
  }

  /** One packet or one report further, or the end. */
  lemma NextExchange(cfg: Config, image: map<nat, byte>, maxaddr: nat, l: Link, sched: nat -> Party, t: nat, w: nat)
    returns (u: nat)
    requires Prepared(cfg, image, maxaddr, l) && FairParties(sched)
    requires LiveAt(cfg, image, maxaddr, l, sched, t).talk.Talking? && t <= w && sched(w) == TheScript
    ensures var s, s' := LiveAt(cfg, image, maxaddr, l, sched, t), LiveAt(cfg, image, maxaddr, l, sched, u);
            s'.talk.Over? || Remaining(cfg, maxaddr, s') < Remaining(cfg, maxaddr, s)
  {
    var s := LiveAt(cfg, image, maxaddr, l, sched, t);
    if ScriptTurn(s) {
      u := ScriptMoves(cfg, image, maxaddr, l, sched, t, w);
      ReceivedGrows(cfg, image, maxaddr, l, sched, t, u);
    } else {
      u := ReportComes(cfg, image, maxaddr, l, sched, t);
    }
  }

  lemma {:induction false} ReceivedGrows(cfg: Config, image: map<nat, byte>, maxaddr: nat, l: Link,
                                         sched: nat -> Party, t: nat, u: nat)
    requires cfg.Valid() && l.Valid() && t <= u
    ensures |LiveAt(cfg, image, maxaddr, l, sched, t).sys.received|
            <= |LiveAt(cfg, image, maxaddr, l, sched, u).sys.received|
  {
    hide *;
    if t < u {
      ReceivedGrows(cfg, image, maxaddr, l, sched, t, u - 1);
      LiveAtNext(cfg, image, maxaddr, l, sched, u - 1);
      var s := LiveAt(cfg, image, maxaddr, l, sched, u - 1);
      ReceivesMore(cfg, s.sys, ActionOf(image, maxaddr, s, sched(u - 1)));
      LiveNextSys(cfg, image, maxaddr, s, sched(u - 1));
    }
  }

  /** The number of accesses, at most, until the firmware acts on the last packet. */
  function Ahead(pc: Handshake.Pc): nat {
    match pc
    case Switch(n) => if n > 0 then 1 else 6
    case FreeOut(_) => 2
    case CopyOut => 3
    case TestOut => 4
    case TestIn => 5
    case ClearLen => 5
    case _ => 7
  }

  /** Nothing keeps the firmware from the reset request, as no answer is waiting. */
  lemma FirmwareReaches(cfg: Config, image: map<nat, byte>, l: Link, s: Handshake.Sys)
    requires cfg.Valid() && Handshake.Inv(cfg, l, s) && Farewell(cfg, image, l, s.sent)
    requires Handshake.Processed(s) != s.sent
    ensures var s' := Handshake.Next(cfg, s, Handshake.Device);
            Handshake.Processed(s') == s'.sent || Ahead(s'.pc) < Ahead(s.pc)
  {
    Unreached(cfg, image, l, s);
    hide Handshake.Inv, Farewell, Step, Process;
  }

  lemma Unreached(cfg: Config, image: map<nat, byte>, l: Link, s: Handshake.Sys)
    requires cfg.Valid() && Handshake.Inv(cfg, l, s) && Farewell(cfg, image, l, s.sent)
    requires Handshake.Processed(s) != s.sent
    ensures !(s.pc.Stopped? || s.pc.ClearUnf? || s.pc.CopyIn? || s.pc.ArmIn?)
    ensures s.pc.TestOut? ==> s.link.ep.outNack
    ensures s.pc.Switch? && s.pc.n > 0 ==> s.taken == s.sent
    ensures s.pc.FreeOut? ==> s.pc.n > 0
    ensures s.pc.CopyOut? ==> s.link.ep.outPacket != []
  {
    LastProcessed(cfg, l, s);
    hide Handshake.Serve, Step, Process, HexData;
  }

  lemma OthersLeave(cfg: Config, s: Handshake.Sys, a: Handshake.Action)
    requires cfg.Valid() && s.link.Valid() && (a.InPoll? || a.Idle?)
    ensures var s' := Handshake.Next(cfg, s, a);
            s'.pc == s.pc && s'.sent == s.sent && Handshake.Processed(s') == Handshake.Processed(s)
  {
    hide Process;
  }

  lemma {:induction false} ResetArrives(cfg: Config, image: map<nat, byte>, maxaddr: nat, l: Link,
                                        sched: nat -> Party, t: nat, w: nat)
    returns (u: nat)
    requires Prepared(cfg, image, maxaddr, l) && FairParties(sched) && t <= w && sched(w) == TheFirmware
    requires LiveAt(cfg, image, maxaddr, l, sched, t).talk == Over(Done(()))
    ensures t <= u
    ensures var s := LiveAt(cfg, image, maxaddr, l, sched, u);
            s.talk == Over(Done(())) && s.sys.link.dev.mode == Halted
    decreases Ahead(LiveAt(cfg, image, maxaddr, l, sched, t).sys.pc), w - t
  {
    hide *;
    var s, s' := LiveAt(cfg, image, maxaddr, l, sched, t), LiveAt(cfg, image, maxaddr, l, sched, t + 1);
    LiveAtInv(cfg, image, maxaddr, l, sched, t);
    LiveAtNext(cfg, image, maxaddr, l, sched, t);
    OverStays(cfg, image, maxaddr, l, s, sched(t));
    if Handshake.Processed(s.sys) == s.sys.sent {
      FarewellFlash(cfg, image, l, s.sys);
      u := t;
    } else if sched(t) == TheFirmware {
      FirmwareReaches(cfg, image, l, s.sys);
      if Handshake.Processed(s'.sys) == s'.sys.sent {
        LiveAtInv(cfg, image, maxaddr, l, sched, t + 1);
        OverStays(cfg, image, maxaddr, l, s', TheDriver);
        FarewellFlash(cfg, image, l, s'.sys);
        u := t + 1;
      } else {
        var w' := NextFirmware(sched, t + 1);
        u := ResetArrives(cfg, image, maxaddr, l, sched, t + 1, w');
      }
    } else {
      OthersLeave(cfg, s.sys, ActionOf(image, maxaddr, s, sched(t)));
      u := ResetArrives(cfg, image, maxaddr, l, sched, t + 1, w);
    }
  }

  lemma NextFirmware(sched: nat -> Party, t: nat) returns (w: nat)
    requires FairParties(sched)
    ensures t <= w && sched(w) == TheFirmware
  {
    assert Again(sched, TheFirmware, t);
    w :| t <= w && sched(w) == TheFirmware;
  }

  lemma OverStays(cfg: Config, image: map<nat, byte>, maxaddr: nat, l: Link, s: Live, who: Party)
    requires cfg.Valid() && IsMaxAddr(image, maxaddr) && LiveInv(cfg, image, maxaddr, l, s) && s.talk == Over(Done(()))
    ensures var a := ActionOf(image, maxaddr, s, who);
            && LiveNext(cfg, image, maxaddr, s, who) == Live(Handshake.Next(cfg, s.sys, a), s.talk)
            && (who.TheFirmware? ==> a == Handshake.Device) && (!who.TheFirmware? ==> a.InPoll? || a.Idle?)
    ensures Handshake.Inv(cfg, l, s.sys) && Farewell(cfg, image, l, s.sys.sent)
  {
    hide Handshake.Inv, Handshake.Next, Farewell, Stage;
  }

  /** Under every fair schedule the script ends with the verdict, and if that is success, the
      flash holds the padded image and the device has been reset. */
  lemma FlashingEnds(cfg: Config, image: map<nat, byte>, maxaddr: nat, l: Link, sched: nat -> Party) returns (t: nat)
    requires Prepared(cfg, image, maxaddr, l) && FairParties(sched)
    ensures var s, verdict := LiveAt(cfg, image, maxaddr, l, sched, t), Verdict(cfg, image, maxaddr);
            && s.talk == Over(verdict)
            && Expected(cfg.pageSize, cfg.flashSize, image, maxaddr, verdict)
            && (verdict.Done? ==>
                  && s.sys.link.dev.flash == HexData(image, cfg.flashSize) && s.sys.link.dev.mode == Halted
                  && Padded(s.sys.link.dev.flash, cfg.flashSize, image))
  {
    VerdictExpected(cfg, image, maxaddr);
    HexDataPadded(image, cfg.flashSize);
    assert Verdict(cfg, image, maxaddr).Done? ==> Verdict(cfg, image, maxaddr) == Done(());
    hide *;
    t := ScriptEnds(cfg, image, maxaddr, l, sched, 0);
    FlashingSafe(cfg, image, maxaddr, l, sched, t);
    if Verdict(cfg, image, maxaddr).Done? {
      var w := NextFirmware(sched, t);
      t := ResetArrives(cfg, image, maxaddr, l, sched, t, w);
      FlashingSafe(cfg, image, maxaddr, l, sched, t);
    }
  }
}
