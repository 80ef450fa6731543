/** The flashing protocol of the device (src/boot_protocol.c), without its buffers.

    `Step` says what one 64-byte request does to the device and what it answers. This
    state is smaller than the firmware's: the page being assembled is the sequence of the
    bytes received so far, and neither the controller's page buffer nor its busy flag
    appears. The class in Firmware.dfy implements it. */
module Protocol {
  import opened Bits
  import opened NvmChecksum
  import opened NvmController
  import opened Multiples

  const CMD_GET_BOOT_INFO: byte := 0
  const CMD_WRITE: byte := 1
  const CMD_CRC: byte := 2
  const CMD_RESET: byte := 3
  const CMD_ERASE: byte := 4
  const CMD_TEST: byte := 5

  const PACKET_ERROR_STATUS: byte := 0
  const PACKET_CRC: byte := 1

  const OKAY: byte := 0
  const ERROR_MISALIGNED: byte := 2
  const ERROR_NOT_ERASED: byte := 3


  type report = r: seq<byte> | |r| == 64 witness Blank(64)

  /** One build of the bootloader on one chip. `memory` is what CMD_TEST reads. */
  datatype Config = Config(
    pageSize: nat,
    flashSize: nat,
    version: (byte, byte),
    mcu: seq<byte>,
    bootCrc: nat,
    memory: nat -> byte,
    stray: StrayWrite)
  {
    /** The page size divides 2^32, being a power of two, and is a multiple of the report
        size, as the source insists. */
    predicate Valid() {
      && 0 < pageSize < 0x1_0000 && Aligned(pageSize, 64) && Aligned(0x1_0000_0000, pageSize)
      && 0 < flashSize < 0x1_0000_0000 && Aligned(flashSize, pageSize)
      && |mcu| == 32
      && bootCrc < 0x100_0000
    }
  }

  /** `Writing(a, n, page)`: the next page goes to address a, n bytes remain, and `page`
      holds the bytes received for it. `Halted`: CMD_RESET has left the program. */
  datatype Mode = Waiting | Writing(current: nat, remaining: nat, page: seq<byte>) | Halted

  datatype Dev = Dev(flash: seq<byte>, erased: bool, empty: bool, mode: Mode)

  /** A new state and the bytes of the answer; no bytes means no answer. */
  type Outcome = (Dev, seq<byte>)

  function Status(code: byte): seq<byte> {
    [PACKET_ERROR_STATUS, code]
  }

  function BootInfo(cfg: Config): (s: seq<byte>)
    ensures |cfg.mcu| == 32 ==> |s| == 64
  {
    [cfg.version.0, cfg.version.1] + cfg.mcu + Le32(cfg.flashSize) + Le16(cfg.pageSize) + seq(24, _ => 0)
  }

  function CrcReport(cfg: Config, flash: seq<byte>): (s: seq<byte>)
    ensures |s| == 9
  {
    [PACKET_CRC] + Le32(NvmCrc(flash)) + Le32(cfg.bootCrc)
  }

  function Peek(cfg: Config, address: nat): (s: seq<byte>)
    ensures |s| == 64
  {
    seq<byte>(64, i requires 0 <= i => cfg.memory(address + i))
  }

  function Command(cfg: Config, d: Dev, p: report): Outcome
    requires cfg.Valid()
  {
    if p[0] == CMD_GET_BOOT_INFO then (d, BootInfo(cfg))
    else if p[0] == CMD_ERASE then
      (if d.empty then d else d.(flash := Blank(|d.flash|), erased := true, empty := true), Status(OKAY))
    else if p[0] == CMD_WRITE then
      var current, remaining := FromLe32(p[1..5]), FromLe32(p[5..9]);
      if !d.erased then (d, Status(ERROR_NOT_ERASED))
      else if !Aligned(current, cfg.pageSize) || !Aligned(remaining, cfg.pageSize) then (d, Status(ERROR_MISALIGNED))
      else (d.(empty := false, mode := Writing(current, remaining, [])), Status(OKAY))
    else if p[0] == CMD_CRC then
      (d, if d.erased then CrcReport(cfg, d.flash) else Status(ERROR_NOT_ERASED))
    else if p[0] == CMD_TEST then
      (d, Peek(cfg, FromLe16(p[1..3])))
    else if p[0] == CMD_RESET then (d.(mode := Halted), [])
    else (d, [])
  }

  function Data(cfg: Config, d: Dev, p: report): Outcome
    requires cfg.Valid() && d.mode.Writing?
  {
    var Writing(current, remaining, page) := d.mode;
    if |page| + 64 != cfg.pageSize then (d.(mode := Writing(current, remaining, page + p)), Status(OKAY))
    else
      var left := (remaining - cfg.pageSize) % 0x1_0000_0000;
      (d.(flash := Programmed(d.flash, current, page + p, cfg.stray),
          mode := if left == 0 then Waiting else Writing((current + cfg.pageSize) % 0x1_0000_0000, left, [])),
       Status(OKAY))
  }

  function Step(cfg: Config, d: Dev, p: report): (o: Outcome)
    requires cfg.Valid()
    ensures |o.1| <= 64
  {
    match d.mode
    case Waiting => Command(cfg, d, p)
    case Writing(_, _, _) => Data(cfg, d, p)
    case Halted => (d, [])
  }

  // ----- the requests and their answers, byte by byte

  /** A number in four bytes of a packet, the first the least significant. */
  function Number(s: seq<byte>, i: nat): nat
    requires i + 4 <= |s|
  {
    s[i] as int + 0x100 * s[i + 1] as int + 0x1_0000 * s[i + 2] as int + 0x100_0000 * s[i + 3] as int
  }

  lemma NumberOf(s: seq<byte>, i: nat, x: nat)
    requires i + 4 <= |s| && s[i..i + 4] == Le32(x) && x < 0x1_0000_0000
    ensures Number(s, i) == x
  {
    Le32Value(x);
    hide Le32;
    assert s[i] == s[i..i + 4][0] && s[i + 1] == s[i..i + 4][1] && s[i + 2] == s[i..i + 4][2];
    assert s[i + 3] == s[i..i + 4][3];
  }

  lemma GetBootInfoRequest(cfg: Config, d: Dev, p: report)
    requires cfg.Valid() && d.mode.Waiting? && p[0] == 0
    ensures var (now, answer) := Step(cfg, d, p);
            && now == d && |answer| == 64
            && answer[0] == cfg.version.0 && answer[1] == cfg.version.1 && answer[2..34] == cfg.mcu
            && Number(answer, 34) == cfg.flashSize
            && answer[38] as int + 0x100 * answer[39] as int == cfg.pageSize
  {
    var s := BootInfo(cfg);
    Le16Value(cfg.pageSize);
    hide Le32, Le16, Aligned, Number;
    assert s[34..34 + 4] == Le32(cfg.flashSize) && s[38..40] == Le16(cfg.pageSize);
    assert s[38] == s[38..40][0] && s[39] == s[38..40][1];
    NumberOf(s, 34, cfg.flashSize);
  }

  /** An erase leaves blank flash, whether it is carried out or skipped. */
  lemma EraseRequest(cfg: Config, d: Dev, p: report)
    requires cfg.Valid() && Inv(cfg, d) && d.mode.Waiting? && p[0] == 4
    ensures var (now, answer) := Step(cfg, d, p);
            && answer == [0, 0] && now.mode.Waiting? && now.erased && now.empty
            && |now.flash| == cfg.flashSize && forall i :: 0 <= i < cfg.flashSize ==> now.flash[i] == 255
  {
  }

  lemma CrcRequest(cfg: Config, d: Dev, p: report)
    requires cfg.Valid() && d.mode.Waiting? && p[0] == 2
    ensures var (now, answer) := Step(cfg, d, p);
            && now == d
            && (!d.erased ==> answer == [0, 3])
            && (d.erased ==>
                  && |answer| == 9 && answer[0] == 1
                  && Number(answer, 1) == NvmCrc(d.flash) && Number(answer, 5) == cfg.bootCrc)
  {
    var s := CrcReport(cfg, d.flash);
    hide NvmCrc, Le32, Number, Aligned;
    assert s[1..1 + 4] == Le32(NvmCrc(d.flash)) && s[5..5 + 4] == Le32(cfg.bootCrc);
    NumberOf(s, 1, NvmCrc(d.flash));
    NumberOf(s, 5, cfg.bootCrc);
  }

  /** Bytes 1 to 4 are the start address and bytes 5 to 8 the length; a refused request changes
      nothing. */
  lemma WriteRequest(cfg: Config, d: Dev, p: report)
    requires cfg.Valid() && d.mode.Waiting? && p[0] == 1
    ensures var (now, answer) := Step(cfg, d, p);
            if !d.erased then now == d && answer == [0, 3]
            else if Number(p, 1) % cfg.pageSize != 0 || Number(p, 5) % cfg.pageSize != 0 then
              now == d && answer == [0, 2]
            else now == d.(empty := false, mode := Writing(Number(p, 1), Number(p, 5), [])) && answer == [0, 0]
  {
    assert FromLe32(p[1..5]) == Number(p, 1) && FromLe32(p[5..9]) == Number(p, 5);
    hide FromLe32, Aligned, Number;
    Remainder(Number(p, 1), cfg.pageSize);
    Remainder(Number(p, 5), cfg.pageSize);
  }

  /** A test request is answered with 64 bytes of memory from the address in bytes 1 and 2. */
  lemma TestRequest(cfg: Config, d: Dev, p: report)
    requires cfg.Valid() && d.mode.Waiting? && p[0] == 5
    ensures var (now, answer) := Step(cfg, d, p);
            && now == d && |answer| == 64
            && forall i :: 0 <= i < 64 ==> answer[i] == cfg.memory(p[1] as int + 0x100 * p[2] as int + i)
  {
    assert FromLe16(p[1..3]) == p[1] as int + 0x100 * p[2] as int;
    hide FromLe16;
  }

  /** A reset leaves the loop without an answer, and an unknown request has no effect and no
      answer. */
  lemma SilentRequest(cfg: Config, d: Dev, p: report)
    requires cfg.Valid() && d.mode.Waiting? && (p[0] == 3 || p[0] > 5)
    ensures Step(cfg, d, p) == (if p[0] == 3 then d.(mode := Halted) else d, [])
  {
  }

  // ----- runs

  function Boot(flash: seq<byte>): Dev {
    Dev(flash, false, false, Waiting)
  }

  function Run(cfg: Config, d: Dev, ps: seq<report>): Dev
    requires cfg.Valid()
  {
    if ps == [] then d else Step(cfg, Run(cfg, d, ps[..|ps| - 1]), ps[|ps| - 1]).0
  }

  /** What every reachable state satisfies. */
  ghost predicate Inv(cfg: Config, d: Dev)
    requires cfg.Valid()
  {
    && |d.flash| == cfg.flashSize
    && (d.empty ==> d.erased && d.flash == Blank(cfg.flashSize))
    && (d.mode.Writing? ==>
         && d.erased && !d.empty
         && Aligned(d.mode.current, cfg.pageSize) && d.mode.current < 0x1_0000_0000
         && Aligned(d.mode.remaining, cfg.pageSize) && d.mode.remaining < 0x1_0000_0000
         && Aligned(|d.mode.page|, 64) && |d.mode.page| < cfg.pageSize)
  }

  lemma StepKeepsInv(cfg: Config, d: Dev, p: report)
    requires cfg.Valid() && Inv(cfg, d)
    ensures Inv(cfg, Step(cfg, d, p).0)
  {
    match d.mode
    case Waiting => CommandKeepsInv(cfg, d, p);
    case Writing(_, _, _) => DataKeepsInv(cfg, d, p);
    case Halted =>
  }

  lemma CommandKeepsInv(cfg: Config, d: Dev, p: report)
    requires cfg.Valid() && Inv(cfg, d) && d.mode.Waiting?
    ensures Inv(cfg, Command(cfg, d, p).0)
  {
    FromLe32Bound(p[1..5]);
    FromLe32Bound(p[5..9]);
  }

  lemma DataKeepsInv(cfg: Config, d: Dev, p: report)
    requires cfg.Valid() && Inv(cfg, d) && d.mode.Writing?
    ensures Inv(cfg, Data(cfg, d, p).0)
  {
    hide Programmed;
    NextPage(cfg.pageSize, d.mode.current, d.mode.remaining);
    Gap(|d.mode.page|, cfg.pageSize, 64);
  }

  lemma FromLe32Bound(s: seq<byte>)
    requires |s| == 4
    ensures FromLe32(s) < 0x1_0000_0000
  {
  }

  /** A step from one page to the next, with the wrap-around of 32-bit counters: multiples
      of the page size stay multiples. */
  lemma NextPage(p: nat, current: nat, remaining: nat)
    requires 0 < p < 0x1_0000 && Aligned(0x1_0000_0000, p)
    requires current < 0x1_0000_0000 && Aligned(current, p)
    requires remaining < 0x1_0000_0000 && Aligned(remaining, p)
    ensures Aligned((current + p) % 0x1_0000_0000, p)
    ensures (current + p) % 0x1_0000_0000 == if current + p == 0x1_0000_0000 then 0 else current + p
    ensures Aligned((remaining - p) % 0x1_0000_0000, p)
    ensures (remaining - p) % 0x1_0000_0000 == if remaining == 0 then 0x1_0000_0000 - p else remaining - p
  {
    hide Aligned;
    Itself(p);
    Gap(current, 0x1_0000_0000, p);
    Add(current, p, p);
    StepUp(current, p);
    if remaining == 0 {
      Add(0x1_0000_0000, p, p);
    } else {
      Gap(0, remaining, p);
      Add(remaining, p, p);
    }
    StepDown(remaining, p);
  }

  lemma StepUp(x: nat, p: nat)
    requires 0 < p && x + p <= 0x1_0000_0000
    ensures (x + p) % 0x1_0000_0000 == if x + p == 0x1_0000_0000 then 0 else x + p
  {
  }

  lemma StepDown(x: nat, p: nat)
    requires 0 < p < 0x1_0000 && x < 0x1_0000_0000 && (x == 0 || p <= x)
    ensures (x - p) % 0x1_0000_0000 == if x == 0 then 0x1_0000_0000 - p else x - p
  {
  }

  // ----- every reachable state

  /** Erase elision is sound, writing is unlocked only by an erase, and before the first
      erase of the session no flash byte has changed. */
  lemma {:induction false} ReachableStates(cfg: Config, flash: seq<byte>, ps: seq<report>)
    requires cfg.Valid() && |flash| == cfg.flashSize
    ensures Inv(cfg, Run(cfg, Boot(flash), ps))
    ensures !Run(cfg, Boot(flash), ps).erased ==> Run(cfg, Boot(flash), ps).flash == flash
    ensures Run(cfg, Boot(flash), ps).erased <==> exists k :: 0 <= k < |ps| && Erases(cfg, flash, ps, k)
  {
    if ps != [] {
      var n := |ps| - 1;
      var d := Run(cfg, Boot(flash), ps[..n]);
      ReachableStates(cfg, flash, ps[..n]);
      StepKeepsInv(cfg, d, ps[n]);
      StepErases(cfg, d, ps[n]);
      hide Step, Inv, Boot;
      ErasesEarlier(cfg, flash, ps);
    }
  }

  lemma StepErases(cfg: Config, d: Dev, p: report)
    requires cfg.Valid() && Inv(cfg, d)
    ensures var d' := Step(cfg, d, p).0;
            && (d'.erased <==> d.erased || (d.mode.Waiting? && p[0] == CMD_ERASE))
            && (!d'.erased ==> d'.flash == d.flash)
  {
    hide Programmed, Aligned;
  }

  lemma ErasesEarlier(cfg: Config, flash: seq<byte>, ps: seq<report>)
    requires cfg.Valid() && ps != []
    ensures var n := |ps| - 1;
            (exists k :: 0 <= k < |ps| && Erases(cfg, flash, ps, k)) <==>
            (exists k :: 0 <= k < n && Erases(cfg, flash, ps[..n], k)) || Erases(cfg, flash, ps, n)
  {
    var n := |ps| - 1;
    hide Run, Boot;
    forall k | 0 <= k < n ensures Erases(cfg, flash, ps[..n], k) == Erases(cfg, flash, ps, k) {
      assert ps[..n][..k] == ps[..k];
    }
  }

  /** Request k of the session is an erase command met by a waiting device. */
  ghost predicate Erases(cfg: Config, flash: seq<byte>, ps: seq<report>, k: nat)
    requires cfg.Valid() && k < |ps|
  {
    Run(cfg, Boot(flash), ps[..k]).mode.Waiting? && ps[k][0] == CMD_ERASE
  }

  lemma {:induction false} RunKeepsInv(cfg: Config, d: Dev, ps: seq<report>)
    requires cfg.Valid() && Inv(cfg, d)
    ensures Inv(cfg, Run(cfg, d, ps))
  {
    if ps != [] {
      RunKeepsInv(cfg, d, ps[..|ps| - 1]);
      StepKeepsInv(cfg, Run(cfg, d, ps[..|ps| - 1]), ps[|ps| - 1]);
    }
  }

  // ----- write sessions

  function Concat(ps: seq<report>): (s: seq<byte>)
    ensures |s| == 64 * |ps|
  {
    if ps == [] then [] else Concat(ps[..|ps| - 1]) + ps[|ps| - 1]
  }

  /** The number of bytes a session of announced length r consumes. */
  function SessionBytes(r: nat): nat {
    if r == 0 then 0x1_0000_0000 else r
  }

  /** The state of a session that started at address a with length r after the bytes s. */
  function SessionMode(cfg: Config, a: nat, r: nat, s: seq<byte>): Mode
    requires cfg.Valid()
  {
    var n := Whole(|s|, cfg.pageSize);
    if n == SessionBytes(r) then Waiting
    else Writing((a + n) % 0x1_0000_0000, (r - n) % 0x1_0000_0000, s[n..])
  }

  /** The device d is in the session that started at address a with length r on the given
      flash, and has received the bytes s: its counters and the page being assembled are
      functions of s, and its flash is the old flash with all whole pages of s programmed
      from a on, unchanged everywhere else. */
  ghost predicate InSession(cfg: Config, flash: seq<byte>, a: nat, r: nat, s: seq<byte>, d: Dev)
    requires cfg.Valid()
  {
    var n := Whole(|s|, cfg.pageSize);
    && d.mode == SessionMode(cfg, a, r, s)
    && d.erased && !d.empty
    && (a + n <= cfg.flashSize ==> d.flash == AndAt(flash, a, s[..n]))
  }

  /** Replay: any number of data packets, up to the end of the session. */
  lemma {:induction false} Replay(cfg: Config, d: Dev, a: nat, r: nat, ps: seq<report>)
    requires cfg.Valid() && Inv(cfg, d) && d.mode == Writing(a, r, [])
    requires |Concat(ps)| <= SessionBytes(r)
    ensures InSession(cfg, d.flash, a, r, Concat(ps), Run(cfg, d, ps))
  {
    hide Step, InSession, Inv;
    if ps == [] {
      ReplayStart(cfg, d, a, r);
    } else {
      var front, p := ps[..|ps| - 1], ps[|ps| - 1];
      Replay(cfg, d, a, r, front);
      RunKeepsInv(cfg, d, front);
      ReplayStart(cfg, d, a, r);
      SixtyFours(|front|);
      ReplayStep(cfg, d.flash, Run(cfg, d, front), a, r, Concat(front), p);
    }
  }

  lemma ReplayStart(cfg: Config, d: Dev, a: nat, r: nat)
    requires cfg.Valid() && Inv(cfg, d) && d.mode == Writing(a, r, [])
    ensures InSession(cfg, d.flash, a, r, [], d)
    ensures r < 0x1_0000_0000
  {
    assert AndAt(d.flash, a, []) == d.flash;
  }

  lemma ReplayStep(cfg: Config, flash: seq<byte>, d: Dev, a: nat, r: nat, s: seq<byte>, p: report)
    requires cfg.Valid() && Inv(cfg, d) && InSession(cfg, flash, a, r, s, d)
    requires r < 0x1_0000_0000
    requires Aligned(|s|, 64) && |s| + 64 <= SessionBytes(r)
    ensures InSession(cfg, flash, a, r, s + p, Step(cfg, d, p).0)
  {
    hide Step, InSession;
    WholeGrows(|s|, 64, cfg.pageSize);
    if |s| - Whole(|s|, cfg.pageSize) + 64 == cfg.pageSize {
      ReplayPage(cfg, flash, d, a, r, s, p);
    } else {
      ReplayPart(cfg, flash, d, a, r, s, p);
    }
  }

  /** A packet that leaves the page incomplete. */
  lemma ReplayPart(cfg: Config, flash: seq<byte>, d: Dev, a: nat, r: nat, s: seq<byte>, p: report)
    requires cfg.Valid() && InSession(cfg, flash, a, r, s, d)
    requires |s| < SessionBytes(r)
    requires |s| - Whole(|s|, cfg.pageSize) + 64 < cfg.pageSize
    requires Whole(|s + p|, cfg.pageSize) == Whole(|s|, cfg.pageSize)
    ensures InSession(cfg, flash, a, r, s + p, Step(cfg, d, p).0)
  {
    hide AndAt;
    var n := Whole(|s|, cfg.pageSize);
    assert (s + p)[n..] == s[n..] + p;
    assert (s + p)[..n] == s[..n];
  }

  /** A packet that completes a page. */
  lemma ReplayPage(cfg: Config, flash: seq<byte>, d: Dev, a: nat, r: nat, s: seq<byte>, p: report)
    requires cfg.Valid() && InSession(cfg, flash, a, r, s, d)
    requires |d.flash| == cfg.flashSize && r < 0x1_0000_0000 && |s + p| <= SessionBytes(r)
    requires |s| - Whole(|s|, cfg.pageSize) + 64 == cfg.pageSize
    requires Whole(|s + p|, cfg.pageSize) == Whole(|s|, cfg.pageSize) + cfg.pageSize == |s + p|
    ensures InSession(cfg, flash, a, r, s + p, Step(cfg, d, p).0)
  {
    hide Programmed, AndAt, Command, SessionMode;
    var n := Whole(|s|, cfg.pageSize);
    PageMode(cfg, d, a, r, s, p);
    if a + n + cfg.pageSize <= cfg.flashSize {
      SessionModeInside(cfg, a, r, s);
      ProgrammedInside(d.flash, a + n, s[n..] + p, cfg.stray);
      AndAtAppend(flash, a, s[..n], s[n..] + p);
      assert s[..n] + (s[n..] + p) == s + p;
    }
    assert (s + p)[..n + cfg.pageSize] == s + p;
  }

  lemma SessionModeInside(cfg: Config, a: nat, r: nat, s: seq<byte>)
    requires cfg.Valid()
    ensures var n, m := Whole(|s|, cfg.pageSize), SessionMode(cfg, a, r, s);
            a + n < cfg.flashSize && m.Writing? ==> m.current == a + n && m.page == s[n..]
  {
    var n := Whole(|s|, cfg.pageSize);
    assert cfg.flashSize < 0x1_0000_0000;
    hide Aligned, Whole, SessionBytes, Config.Valid;
    if a + n < cfg.flashSize {
      assert a + n < 0x1_0000_0000;
      SmallRemainder(a + n);
    }
  }

  lemma SmallRemainder(x: nat)
    requires x < 0x1_0000_0000
    ensures x % 0x1_0000_0000 == x
  {
  }

  lemma PageMode(cfg: Config, d: Dev, a: nat, r: nat, s: seq<byte>, p: report)
    requires cfg.Valid() && d.mode == SessionMode(cfg, a, r, s)
    requires r < 0x1_0000_0000 && |s + p| <= SessionBytes(r)
    requires |s| - Whole(|s|, cfg.pageSize) + 64 == cfg.pageSize
    requires Whole(|s + p|, cfg.pageSize) == Whole(|s|, cfg.pageSize) + cfg.pageSize == |s + p|
    ensures d.mode.Writing? && Data(cfg, d, p).0.mode == SessionMode(cfg, a, r, s + p)
  {
    hide Programmed, Aligned, Whole;
    var n := Whole(|s|, cfg.pageSize);
    AddWraps(a + n, cfg.pageSize);
    SubtractWraps(r - n, cfg.pageSize);
    SessionEnds(r, n + cfg.pageSize);
    assert (s + p)[n + cfg.pageSize..] == [];
  }

  lemma AddWraps(x: int, p: int)
    ensures (x % 0x1_0000_0000 + p) % 0x1_0000_0000 == (x + p) % 0x1_0000_0000
  {
  }

  lemma SubtractWraps(x: int, p: int)
    ensures (x % 0x1_0000_0000 - p) % 0x1_0000_0000 == (x - p) % 0x1_0000_0000
  {
  }

  lemma SessionEnds(r: nat, n: nat)
    requires r < 0x1_0000_0000 && 0 < n <= SessionBytes(r)
    ensures (r - n) % 0x1_0000_0000 == 0 <==> n == SessionBytes(r)
  {
  }

  /** A session of announced length r takes exactly r/64 packets, or 2^32/64 if r is 0;
      until then every packet, whatever its first byte, is data and is answered OKAY. */
  lemma {:induction false} SessionLength(cfg: Config, d: Dev, a: nat, r: nat, ps: seq<report>)
    requires cfg.Valid() && Inv(cfg, d) && d.mode == Writing(a, r, [])
    requires 64 * |ps| <= SessionBytes(r)
    ensures Run(cfg, d, ps).mode.Waiting? <==> 64 * |ps| == if r == 0 then 0x1_0000_0000 else r
    ensures 64 * |ps| < SessionBytes(r) ==>
              && Run(cfg, d, ps).mode.Writing?
              && forall p :: Step(cfg, Run(cfg, d, ps), p).1 == [0, 0]
  {
    Replay(cfg, d, a, r, ps);
    assert Aligned(SessionBytes(r), cfg.pageSize);
    hide Run, Concat, Inv;
    WholeIsMultiple(64 * |ps|, cfg.pageSize);
  }

  // ----- a session from its request on

  lemma {:induction false} ConcatByte(ps: seq<report>, i: nat)
    requires i < 64 * |ps|
    ensures Concat(ps)[i] == Sent(ps, i)
  {
    var n := |ps| - 1;
    if i < 64 * n { ConcatByte(ps[..n], i); }
  }

  lemma {:induction false} RunFrom(cfg: Config, d: Dev, p: report, ps: seq<report>)
    requires cfg.Valid()
    ensures Run(cfg, d, [p] + ps) == Run(cfg, Step(cfg, d, p).0, ps)
  {
    hide Step;
    if ps == [] {
      assert [p] + ps == [p] && [p][..0] == [];
    } else {
      var n := |ps| - 1;
      RunFrom(cfg, d, p, ps[..n]);
      assert ([p] + ps)[..n + 1] == [p] + ps[..n];
    }
  }

  /** The device has the bytes of the packets of a session that started at address a with length
      r on the given flash. Of flash exactly the n bytes of whole pages have changed: a bit
      there is still set only where the packets have it set. The session is over when r bytes,
      or 2^32 if r is 0, have been received. */
  ghost predicate Follows(cfg: Config, flash: seq<byte>, a: nat, r: nat, ps: seq<report>, now: Dev)
    requires cfg.Valid()
  {
    var n := Whole(64 * |ps|, cfg.pageSize);
    && (now.mode.Waiting? <==> 64 * |ps| == if r == 0 then 0x1_0000_0000 else r)
    && (!now.mode.Waiting? ==>
          now.mode == Writing((a + n) % 0x1_0000_0000, (r - n) % 0x1_0000_0000, Concat(ps)[n..]))
    && (a + n <= cfg.flashSize ==> Programs(flash, now.flash, a, ps, n))
  }

  ghost predicate Programs(was: seq<byte>, now: seq<byte>, a: nat, ps: seq<report>, n: nat)
    requires n <= 64 * |ps|
  {
    && |now| == |was|
    && forall i :: 0 <= i < |was| ==>
         if a <= i < a + n then IsAnd(now[i], was[i], Sent(ps, i - a)) else now[i] == was[i]
  }

  /** Byte k of the packets. */
  function Sent(ps: seq<report>, k: nat): byte
    requires k < 64 * |ps|
  {
    ps[k / 64][k % 64]
  }

  /** A write request and the packets behind it. */
  lemma WriteSession(cfg: Config, d: Dev, p: report, ps: seq<report>)
    requires cfg.Valid() && Inv(cfg, d) && d.mode.Waiting? && d.erased && p[0] == 1
    requires Number(p, 1) % cfg.pageSize == 0 == Number(p, 5) % cfg.pageSize
    requires 64 * |ps| <= if Number(p, 5) == 0 then 0x1_0000_0000 else Number(p, 5)
    ensures Follows(cfg, d.flash, Number(p, 1), Number(p, 5), ps, Run(cfg, d, [p] + ps))
  {
    var a, r := Number(p, 1), Number(p, 5);
    var start := d.(empty := false, mode := Writing(a, r, []));
    WriteRequest(cfg, d, p);
    StepKeepsInv(cfg, d, p);
    hide *;
    RunFrom(cfg, d, p, ps);
    SessionFollows(cfg, start, a, r, ps);
  }

  lemma SessionFollows(cfg: Config, d: Dev, a: nat, r: nat, ps: seq<report>)
    requires cfg.Valid() && Inv(cfg, d) && d.mode == Writing(a, r, [])
    requires 64 * |ps| <= if r == 0 then 0x1_0000_0000 else r
    ensures Follows(cfg, d.flash, a, r, ps, Run(cfg, d, ps))
  {
    hide Step, Run, Aligned, Whole, Inv, Programs, Concat, AndAt;
    Replay(cfg, d, a, r, ps);
    SessionLength(cfg, d, a, r, ps);
    var n := Whole(64 * |ps|, cfg.pageSize);
    if a + n <= cfg.flashSize { SessionBits(cfg, d, a, ps, n); }
  }

  lemma SessionBits(cfg: Config, d: Dev, a: nat, ps: seq<report>, n: nat)
    requires cfg.Valid() && Inv(cfg, d) && n <= 64 * |ps| && a + n <= cfg.flashSize
    ensures Programs(d.flash, AndAt(d.flash, a, Concat(ps)[..n]), a, ps, n)
  {
    hide IsAnd, AndByte, Concat, Aligned, Sent;
    var now := AndAt(d.flash, a, Concat(ps)[..n]);
    forall i | 0 <= i < |d.flash|
      ensures if a <= i < a + n then IsAnd(now[i], d.flash[i], Sent(ps, i - a)) else now[i] == d.flash[i]
    {
      if a <= i < a + n {
        ConcatByte(ps, i - a);
        AndByteBits(d.flash[i], Concat(ps)[i - a]);
      }
    }
  }
}
