/** The host half of the protocol (scripts/xusbboot/bootloader.py), driving a device over a
    channel that loses nothing: the theorem that ties both halves and the checksum
    together is the contract of `WriteHexfile`. */
module Host {
  import opened Bits
  import opened NvmChecksum
  import opened NvmController
  import opened Protocol
  import opened Channel
  import opened Firmware
  import opened Multiples

  /** The reasons for which the script raises an exception. `NoAnswer` is a read that gets
      no report; `UnusablePages` is a division by zero or the assertion in write_page. */
  datatype HostError =
    | NoAnswer
    | UnexpectedPacket(kind: byte)
    | UnexpectedStatus(code: byte)
    | NotErased
    | Misaligned
    | WrongLength(length: nat)
    | UnusablePages(pageSize: nat)
    | TooLarge(maxaddr: nat)
    | CrcMismatch(deviceCrc: nat, hostCrc: nat)

  datatype Result<+T> = Done(value: T) | Raised(error: HostError)
  {
    predicate IsFailure() {
      Raised?
    }

    function PropagateFailure<U>(): Result<U>
      requires Raised?
    {
      Raised(error)
    }

    function Extract(): T
      requires Done?
    {
      value
    }

    /** The result without its value. */
    function Ignore(): Result<()> {
      match this
      case Done(_) => Done(())
      case Raised(e) => Raised(e)
    }
  }

  /** A device between two exchanges. */
  ghost predicate Sound(dev: Bootloader)
    reads dev, dev.Repr()
    ensures Sound(dev) ==> dev.Shape()
  {
    dev.Valid() && Quiet(dev.Link())
  }

  /** A device that the host can talk to: it has not been reset. */
  ghost predicate Ready(dev: Bootloader)
    reads dev, dev.Repr()
    ensures Ready(dev) ==> Sound(dev) && Inv(dev.cfg, dev.Device())
  {
    Sound(dev) && dev.running
  }

  /** The report for a command with arguments. */
  function Request(cmd: byte, data: seq<byte>): report
    requires |data| < 64
  {
    [cmd] + data + seq<byte>(64 - 1 - |data|, _ => 0)
  }

  /** device.write followed by device.read. */
  method Transact(dev: Bootloader, packet: report) returns (response: seq<byte>)
    requires Ready(dev)
    modifies dev.Repr()
    ensures Sound(dev)
    ensures dev.Device() == Step(dev.cfg, old(dev.Device()), packet).0
    ensures response == Received(old(dev.inBuf[..]), Step(dev.cfg, old(dev.Device()), packet).1)
  {
    ghost var link := dev.Link();
    ExchangeIsStep(dev.cfg, link, packet);
    dev.OutPacket(packet);
    var nak := dev.InReport();
    dev.BootloaderTask();
    response := dev.InReport();
    ghost var l := link.(ep := InToken(OutToken(link.ep, packet)));
    assert Read(l).request == packet;
  }

  /** Any sequence of requests to a bootloader that has just started: the firmware follows the
      protocol to the end, and `Sound` includes that the memory controller has never been
      misused on the way. */
  method Session(cfg: Config, nvm: Nvm, packets: seq<report>) returns (dev: Bootloader)
    requires cfg.Valid() && |nvm.flash| == cfg.flashSize && |nvm.buffer| == cfg.pageSize && !nvm.misused
    ensures fresh(dev.Repr()) && Sound(dev) && dev.cfg == cfg
    ensures dev.Device() == Run(cfg, Boot(nvm.flash), packets)
  {
    hide Inv, Boot, Quiet;
    dev := new Bootloader(cfg, nvm);
    for i := 0 to |packets|
      invariant fresh(dev.Repr()) && Sound(dev) && dev.cfg == cfg
      invariant dev.Device() == Run(cfg, Boot(nvm.flash), packets[..i])
    {
      RunNext(cfg, Boot(nvm.flash), packets, i);
      if dev.running {
        hide Sound, Run, Step;
        var response := Transact(dev, packets[i]);
      }
    }
    assert packets[..|packets|] == packets;
  }

  lemma RunNext(cfg: Config, d: Dev, packets: seq<report>, i: nat)
    requires cfg.Valid() && i < |packets|
    ensures Run(cfg, d, packets[..i + 1]) == Step(cfg, Run(cfg, d, packets[..i]), packets[i]).0
    ensures Run(cfg, d, packets[..i]).mode.Halted? ==> Run(cfg, d, packets[..i + 1]) == Run(cfg, d, packets[..i])
  {
    assert packets[..i + 1][..i] == packets[..i];
    hide Command, Data;
  }

  // ----- single commands

  method SimpleCommand(dev: Bootloader, cmd: byte, data: seq<byte>) returns (response: seq<byte>)
    requires Ready(dev) && |data| < 64
    modifies dev.Repr()
    ensures Sound(dev)
    ensures dev.Device() == Step(dev.cfg, old(dev.Device()), Request(cmd, data)).0
    ensures response == Received(old(dev.inBuf[..]), Step(dev.cfg, old(dev.Device()), Request(cmd, data)).1)
  {
    response := Transact(dev, Request(cmd, data));
  }

  /** unpack_status */
  function UnpackStatus(response: seq<byte>): Result<byte> {
    if |response| < 2 then Raised(NoAnswer)
    else if response[0] != PACKET_ERROR_STATUS then Raised(UnexpectedPacket(response[0]))
    else Done(response[1])
  }

  datatype Info = Info(version: (byte, byte), mcu: seq<byte>, flashSize: nat, pageSize: nat)

  /** The unpacked boot information; the kind of the report is not looked at. */
  function InfoResult(response: seq<byte>): Result<Info> {
    if |response| < 40 then Raised(NoAnswer)
    else Done(Info((response[0], response[1]), response[2..34], FromLe32(response[34..38]), FromLe16(response[38..40])))
  }

  method GetBootInfo(dev: Bootloader) returns (r: Result<Info>)
    requires Ready(dev)
    modifies dev.Repr()
    ensures Ready(dev)
    ensures dev.Device() == Step(dev.cfg, old(dev.Device()), Request(CMD_GET_BOOT_INFO, [])).0
    ensures r == InfoResult(Received(old(dev.inBuf[..]),
                                     Step(dev.cfg, old(dev.Device()), Request(CMD_GET_BOOT_INFO, [])).1))
    ensures old(dev.Device()).mode.Waiting? ==>
              r == Done(Info(dev.cfg.version, dev.cfg.mcu, dev.cfg.flashSize, dev.cfg.pageSize))
  {
    BootInfoFields(dev.cfg, dev.inBuf[..]);
    hide InfoResult;
    var response := SimpleCommand(dev, CMD_GET_BOOT_INFO, []);
    r := InfoResult(response);
  }

  function InfoOf(cfg: Config): Info {
    Info(cfg.version, cfg.mcu, cfg.flashSize, cfg.pageSize)
  }

  lemma BootInfoFields(cfg: Config, earlier: report)
    requires cfg.Valid()
    ensures |BootInfo(cfg)| == 64 && InfoResult(Received(earlier, BootInfo(cfg))) == Done(InfoOf(cfg))
  {
    var s := BootInfo(cfg);
    hide Le32, FromLe32, Le16, FromLe16, Aligned;
    assert s[34..38] == Le32(cfg.flashSize);
    assert s[38..40] == Le16(cfg.pageSize);
    assert s[2..34] == cfg.mcu;
    assert Received(earlier, s) == s;
    Le32RoundTrip(cfg.flashSize);
    Le16RoundTrip(cfg.pageSize);
  }

  /** The requests that only expect the status OKAY: an erase and a data packet. */
  function OkayResult(response: seq<byte>): Result<()> {
    var code :- UnpackStatus(response);
    if code == OKAY then Done(()) else Raised(UnexpectedStatus(code))
  }

  function WriteStartResult(response: seq<byte>): Result<()> {
    var code :- UnpackStatus(response);
    if code == ERROR_NOT_ERASED then Raised(NotErased)
    else if code == ERROR_MISALIGNED then Raised(Misaligned)
    else if code != OKAY then Raised(UnexpectedStatus(code))
    else Done(())
  }

  /** When a report is taken for a success: only a status packet (kind 0) with status 0 is one. */
  lemma StatusMeans(response: seq<byte>)
    ensures OkayResult(response).Done? <==> |response| >= 2 && response[0] == 0 && response[1] == 0
    ensures WriteStartResult(response).Done? <==> OkayResult(response).Done?
    ensures |response| >= 2 && response[0] == 0 && response[1] != 0 ==>
              && OkayResult(response) == Raised(UnexpectedStatus(response[1]))
              && WriteStartResult(response) ==
                 Raised(if response[1] == 2 then Misaligned
                        else if response[1] == 3 then NotErased
                        else UnexpectedStatus(response[1]))
    ensures |response| >= 2 && response[0] != 0 ==>
              OkayResult(response) == WriteStartResult(response) == Raised(UnexpectedPacket(response[0]))
    ensures |response| < 2 ==> OkayResult(response) == WriteStartResult(response) == Raised(NoAnswer)
  {
  }

  method Erase(dev: Bootloader) returns (r: Result<()>)
    requires Ready(dev)
    modifies dev.Repr()
    ensures Ready(dev)
    ensures dev.Device() == Step(dev.cfg, old(dev.Device()), Request(CMD_ERASE, [])).0
    ensures r == OkayResult(Step(dev.cfg, old(dev.Device()), Request(CMD_ERASE, [])).1)
    ensures r == Done(())
  {
    EraseResult(dev.cfg, dev.Device(), dev.inBuf[..]);
    hide Step;
    var response := SimpleCommand(dev, CMD_ERASE, []);
    r := OkayResult(response);
  }

  /** In a session the request is taken for data, and answered alike. */
  lemma EraseResult(cfg: Config, d: Dev, earlier: report)
    requires cfg.Valid() && Inv(cfg, d) && !d.mode.Halted?
    ensures var p := Request(CMD_ERASE, []);
            OkayResult(Step(cfg, d, p).1) == OkayResult(Received(earlier, Step(cfg, d, p).1)) == Done(())
  {
    var p := Request(CMD_ERASE, []);
    if d.mode.Waiting? { EraseRequest(cfg, d, p); } else { DataAnswer(cfg, d, p); }
    hide Step;
  }

  lemma DataAnswer(cfg: Config, d: Dev, p: report)
    requires cfg.Valid() && d.mode.Writing?
    ensures Step(cfg, d, p).1 == [0, 0]
  {
    hide Programmed, Aligned;
  }

  method WriteStart(dev: Bootloader, start: nat, size: nat) returns (r: Result<()>)
    requires Ready(dev)
    modifies dev.Repr()
    ensures Ready(dev)
    ensures dev.Device() == Step(dev.cfg, old(dev.Device()), Request(CMD_WRITE, Le32(start) + Le32(size))).0
    ensures r == WriteStartResult(Step(dev.cfg, old(dev.Device()), Request(CMD_WRITE, Le32(start) + Le32(size))).1)
    ensures Starts(dev.cfg, old(dev.Device()), start, size, r, dev.Device())
  {
    WriteStarts(dev.cfg, dev.Device(), start, size, dev.inBuf[..]);
    hide Step, Starts, Le32;
    var response := SimpleCommand(dev, CMD_WRITE, Le32(start) + Le32(size));
    r := WriteStartResult(response);
  }

  /** A waiting device refuses until it has been erased, and then what is not whole pages; else
      it is in a session of that start and length. In a session the request is data. */
  ghost predicate Starts(cfg: Config, d: Dev, start: nat, size: nat, r: Result<()>, now: Dev)
    requires cfg.Valid()
  {
    && (d.mode.Writing? ==> r == Done(()))
    && (d.mode.Waiting? && start < 0x1_0000_0000 && size < 0x1_0000_0000 ==>
          if !d.erased then r == Raised(NotErased) && now == d
          else if start % cfg.pageSize != 0 || size % cfg.pageSize != 0 then r == Raised(Misaligned) && now == d
          else r == Done(()) && now == d.(empty := false, mode := Writing(start, size, [])))
  }

  lemma WriteStarts(cfg: Config, d: Dev, start: nat, size: nat, earlier: report)
    requires cfg.Valid()
    ensures var (now, answer) := Step(cfg, d, Request(CMD_WRITE, Le32(start) + Le32(size)));
            && WriteStartResult(answer) == WriteStartResult(Received(earlier, answer))
            && Starts(cfg, d, start, size, WriteStartResult(answer), now)
  {
    var p := Request(CMD_WRITE, Le32(start) + Le32(size));
    if d.mode.Waiting? {
      WriteRequest(cfg, d, p);
      if start < 0x1_0000_0000 && size < 0x1_0000_0000 {
        hide Le32, Number, Step;
        assert p[1..1 + 4] == Le32(start) && p[5..5 + 4] == Le32(size);
        NumberOf(p, 1, start);
        NumberOf(p, 5, size);
      }
    } else if d.mode.Writing? {
      DataAnswer(cfg, d, p);
      hide Step;
    }
  }

  /** The application and boot checksums, if the answer is a CRC packet. */
  function CrcResult(response: seq<byte>): Result<(nat, nat)> {
    if |response| < 2 then Raised(NoAnswer)
    else if response[0] == PACKET_ERROR_STATUS then
      Raised(if response[1] == ERROR_NOT_ERASED then NotErased else UnexpectedStatus(response[1]))
    else if response[0] != PACKET_CRC then Raised(UnexpectedPacket(response[0]))
    else if |response| < 9 then Raised(NoAnswer)
    else Done((FromLe32(response[1..5]) % 0x100_0000, FromLe32(response[5..9]) % 0x100_0000))
  }

  /** The stale bytes behind a short answer are never looked at. */
  lemma CrcAnswer(cfg: Config, d: Dev, p: report, earlier: report)
    requires cfg.Valid() && p[0] == CMD_CRC
    ensures var answer := Step(cfg, d, p).1;
            CrcResult(Received(earlier, answer)) == CrcResult(answer)
  {
    CrcAnswerLength(cfg, d, p);
    hide Step;
    StaleBehind(earlier, Step(cfg, d, p).1);
  }

  lemma CrcAnswerLength(cfg: Config, d: Dev, p: report)
    requires cfg.Valid() && p[0] == CMD_CRC
    ensures var answer := Step(cfg, d, p).1;
            |answer| in {0, 2, 9} && (|answer| == 2 ==> answer[0] == PACKET_ERROR_STATUS)
  {
    hide NvmCrc, FromLe32, Aligned;
  }

  lemma StaleBehind(earlier: report, answer: seq<byte>)
    requires |answer| in {0, 2, 9} && (|answer| == 2 ==> answer[0] == PACKET_ERROR_STATUS)
    ensures CrcResult(Received(earlier, answer)) == CrcResult(answer)
  {
    hide FromLe32;
    if |answer| == 9 {
      var response := Received(earlier, answer);
      assert response[1..5] == answer[1..5] && response[5..9] == answer[5..9];
    }
  }

  method ComputeCrc(dev: Bootloader) returns (r: Result<(nat, nat)>)
    requires Ready(dev)
    modifies dev.Repr()
    ensures Ready(dev)
    ensures dev.Device() == Step(dev.cfg, old(dev.Device()), Request(CMD_CRC, [])).0
    ensures r == CrcResult(Step(dev.cfg, old(dev.Device()), Request(CMD_CRC, [])).1)
    ensures old(dev.Device()).mode.Writing? ==> r == Raised(UnexpectedStatus(0))
    ensures old(dev.Device()).mode.Waiting? && !old(dev.Device()).erased ==> r == Raised(NotErased)
    ensures old(dev.Device()).mode.Waiting? && old(dev.Device()).erased ==>
              r == Done((NvmCrc(old(dev.Device()).flash), dev.cfg.bootCrc))
  {
    if dev.Device().erased { CrcAnswers(dev.cfg, dev.Device()); } else { NoCrc(dev.cfg, dev.Device()); }
    CrcAnswer(dev.cfg, dev.Device(), Request(CMD_CRC, []), dev.inBuf[..]);
    hide CrcResult, Received, Step, NvmCrc;
    var response := SimpleCommand(dev, CMD_CRC, []);
    r := CrcResult(response);
  }

  lemma NoCrc(cfg: Config, d: Dev)
    requires cfg.Valid() && Inv(cfg, d) && d.mode.Waiting? && !d.erased
    ensures CrcResult(Step(cfg, d, Request(CMD_CRC, [])).1) == Raised(NotErased)
  {
    CrcRequest(cfg, d, Request(CMD_CRC, []));
    hide Step;
  }

  // ----- data

  lemma Sizes(cfg: Config)
    requires cfg.Valid()
    ensures 64 <= cfg.pageSize && Aligned(cfg.pageSize, 64) && Aligned(0, 64)
    ensures Aligned(0, cfg.pageSize) && cfg.flashSize < 0x1_0000_0000 && Aligned(cfg.flashSize, 2)
  {
    hide Aligned;
    Itself(64);
    Itself(cfg.pageSize);
    Gap(0, cfg.pageSize, 64);
    Transitive(cfg.flashSize, cfg.pageSize, 64);
    SixtyFourEven();
    Transitive(cfg.flashSize, 64, 2);
  }

  lemma SixtyFourEven()
    ensures Aligned(64, 2)
  {
    Remainder(64, 2);
  }

  method WriteDataPacket(dev: Bootloader, data: seq<byte>) returns (r: Result<()>)
    requires Ready(dev)
    modifies dev.Repr()
    ensures Sound(dev)
    ensures |data| != 64 ==> r == Raised(WrongLength(|data|)) && dev.Device() == old(dev.Device())
    ensures |data| == 64 ==> dev.Device() == Step(dev.cfg, old(dev.Device()), data).0
    ensures |data| == 64 ==> r == OkayResult(Step(dev.cfg, old(dev.Device()), data).1)
    ensures |data| == 64 && old(dev.Device()).mode.Writing? ==> r.Done? && Ready(dev)
  {
    if |data| != 64 { return Raised(WrongLength(|data|)); }
    OkayAnswer(dev.cfg, dev.Device(), data, dev.inBuf[..]);
    hide Command, Received, OkayResult;
    var response := Transact(dev, data);
    r := OkayResult(response);
  }

  lemma OkayAnswer(cfg: Config, d: Dev, p: report, earlier: report)
    requires cfg.Valid()
    ensures var answer := Step(cfg, d, p).1;
            && OkayResult(Received(earlier, answer)) == OkayResult(answer)
            && (d.mode.Writing? ==> OkayResult(answer) == Done(()))
  {
    hide Aligned, FromLe32, FromLe16, NvmCrc, Programmed;
  }

  /** write_page, in a session that still has room for a page. The ghost parameters say
      which session: its flash, start address and length, and the bytes received so far. */
  method WritePage(dev: Bootloader, data: seq<byte>, pageSize: nat,
                   ghost flash: seq<byte>, ghost a: nat, ghost n: nat, ghost s: seq<byte>)
    returns (r: Result<()>)
    requires Ready(dev) && pageSize == dev.cfg.pageSize == |data|
    requires InSession(dev.cfg, flash, a, n, s, dev.Device())
    requires n < 0x1_0000_0000 && Aligned(|s|, 64) && |s| + pageSize <= SessionBytes(n)
    modifies dev.Repr()
    ensures Ready(dev) && r.Done?
    ensures InSession(dev.cfg, flash, a, n, s + data, dev.Device())
  {
    hide *;
    Sizes(dev.cfg);
    r := Done(());
    var i := 0;
    assert s + data[..0] == s;
    while i < pageSize && r.Done?
      invariant Ready(dev) && r.Done?
      invariant 0 <= i <= pageSize && Aligned(i, 64)
      invariant InSession(dev.cfg, flash, a, n, s + data[..i], dev.Device())
    {
      Gap(i, pageSize, 64);
      Itself(64);
      Add(i, 64, 64);
      Add(|s|, i, 64);
      r := WriteSessionPacket(dev, data[i..i + 64], flash, a, n, s + data[..i]);
      assert s + data[..i] + data[i..i + 64] == s + data[..i + 64];
      i := i + 64;
    }
    assert data[..i] == data;
  }

  method WriteSessionPacket(dev: Bootloader, data: report,
                            ghost flash: seq<byte>, ghost a: nat, ghost n: nat, ghost s: seq<byte>)
    returns (r: Result<()>)
    requires Ready(dev) && InSession(dev.cfg, flash, a, n, s, dev.Device())
    requires n < 0x1_0000_0000 && Aligned(|s|, 64) && |s| + 64 <= SessionBytes(n)
    modifies dev.Repr()
    ensures Ready(dev) && r.Done?
    ensures InSession(dev.cfg, flash, a, n, s + data, dev.Device())
  {
    hide *;
    InSessionWrites(dev.cfg, flash, a, n, s, dev.Device());
    ReplayStep(dev.cfg, flash, dev.Device(), a, n, s, data);
    r := WriteDataPacket(dev, data);
  }

  lemma InSessionWrites(cfg: Config, flash: seq<byte>, a: nat, r: nat, s: seq<byte>, d: Dev)
    requires cfg.Valid() && InSession(cfg, flash, a, r, s, d)
    requires |s| < SessionBytes(r)
    ensures d.mode.Writing?
  {
  }

  // ----- a whole image

  /** The highest address of a hex file. */
  ghost predicate IsMaxAddr(image: map<nat, byte>, maxaddr: nat) {
    maxaddr in image && forall a :: a in image ==> a <= maxaddr
  }

  /** tobinarray(0, n - 1) with padding 0xFF */
  function HexData(image: map<nat, byte>, n: nat): (s: seq<byte>)
    ensures |s| == n
  {
    seq(n, i requires 0 <= i => if i in image then image[i] else 255)
  }

  /** ceil(maxaddr / page_size) * page_size; maxaddr is an address, not a length. */
  function EndOf(maxaddr: nat, pageSize: nat): nat
    requires 0 < pageSize
  {
    Whole(maxaddr + pageSize - 1, pageSize)
  }

  lemma EndIsCeiling(maxaddr: nat, p: nat)
    requires 0 < p
    ensures EndOf(maxaddr, p) == (maxaddr + p - 1) / p * p
    ensures Aligned(EndOf(maxaddr, p), p)
    ensures maxaddr <= EndOf(maxaddr, p) < maxaddr + p
  {
    var x := maxaddr + p - 1;
    Remainder(x, p);
    WholeIsMultiple(x, p);
  }

  /** What write_hexfile comes to, as a condition on the image and the device alone. The
      script computes the end of the region from the highest address as if it were a length.
      So an image whose only byte is at address 0 announces a session of length 0, in which
      the checksum request is taken for data; and when the highest address starts a page,
      that byte is not sent, and its loss goes unnoticed only where it is 0xFF anyway. */
  function Verdict(cfg: Config, image: map<nat, byte>, maxaddr: nat): Result<()>
    requires cfg.Valid()
    requires IsMaxAddr(image, maxaddr)
  {
    if maxaddr > cfg.flashSize then Raised(TooLarge(maxaddr))
    else if maxaddr == 0 then Raised(UnexpectedStatus(OKAY))
    else if maxaddr < cfg.flashSize && Aligned(maxaddr, cfg.pageSize) && image[maxaddr] != 255 then
      var hex := HexData(image, cfg.flashSize);
      Raised(CrcMismatch(NvmCrc(hex[maxaddr := 255]), NvmCrc(hex)))
    else Done(())
  }

  /** Every byte of the image is at its place in flash. */
  ghost predicate Holds(flash: seq<byte>, image: map<nat, byte>) {
    forall a :: a in image ==> a < |flash| && flash[a] == image[a]
  }

  /** The padded image holds the whole image unless its highest address is one past the end:
      the size check lets that byte through, and nothing misses it. */
  lemma SuccessKeepsImage(cfg: Config, image: map<nat, byte>, maxaddr: nat)
    requires cfg.Valid() && IsMaxAddr(image, maxaddr) && Verdict(cfg, image, maxaddr).Done?
    ensures Holds(HexData(image, cfg.flashSize), image) <==> maxaddr != cfg.flashSize
  {
    if maxaddr == cfg.flashSize {
      assert maxaddr in image && !(maxaddr < cfg.flashSize);
    }
  }

  /** The outcome in numbers: when it is success, and which error it is else. */
  ghost predicate Expected(pageSize: nat, flashSize: nat, image: map<nat, byte>, maxaddr: nat, r: Result<()>)
    requires 0 < pageSize && maxaddr in image
  {
    && (r.Done? <==>
          && 0 < maxaddr <= flashSize
          && (maxaddr < flashSize && maxaddr % pageSize == 0 ==> image[maxaddr] == 255))
    && (maxaddr > flashSize ==> r == Raised(TooLarge(maxaddr)))
    && (maxaddr == 0 ==> r == Raised(UnexpectedStatus(0)))
    && (0 < maxaddr <= flashSize && r.Raised? ==> r.error.CrcMismatch? && r.error.deviceCrc != r.error.hostCrc)
  }

  lemma VerdictExpected(cfg: Config, image: map<nat, byte>, maxaddr: nat)
    requires cfg.Valid() && IsMaxAddr(image, maxaddr)
    ensures Expected(cfg.pageSize, cfg.flashSize, image, maxaddr, Verdict(cfg, image, maxaddr))
  {
    Sizes(cfg);
    Remainder(maxaddr, cfg.pageSize);
    Itself(cfg.pageSize);
    hide NvmCrc, Aligned;
    var hex := HexData(image, cfg.flashSize);
    if maxaddr < cfg.flashSize {
      assert hex[maxaddr] == image[maxaddr];
      LastByte(hex, maxaddr);
    }
  }

  /** The flash holds the bytes of the image, and 0xFF at every address that is not in it. */
  ghost predicate Padded(flash: seq<byte>, flashSize: nat, image: map<nat, byte>) {
    && |flash| == flashSize
    && (forall a :: a in image && a < flashSize ==> flash[a] == image[a])
    && (forall a :: 0 <= a < flashSize && a !in image ==> flash[a] == 255)
  }

  lemma HexDataPadded(image: map<nat, byte>, n: nat)
    ensures Padded(HexData(image, n), n, image)
  {
  }

  /** Three images of one byte: one that fits but ends in an unexpected status, one that fits
      but ends in a mismatch, and one that does not fit but succeeds. */
  lemma OneByteImages(cfg: Config, b: byte)
    requires cfg.Valid() && cfg.pageSize < cfg.flashSize && b != 255
    ensures Verdict(cfg, map[0 := b], 0) == Raised(UnexpectedStatus(OKAY))
    ensures var r := Verdict(cfg, map[cfg.pageSize := b], cfg.pageSize);
            r.Raised? && r.error.CrcMismatch? && r.error.deviceCrc != r.error.hostCrc
    ensures Verdict(cfg, map[cfg.flashSize := b], cfg.flashSize) == Done(())
  {
    Sizes(cfg);
    Itself(cfg.pageSize);
    hide NvmCrc, Aligned;
    var hex := HexData(map[cfg.pageSize := b], cfg.flashSize);
    LastByte(hex, cfg.pageSize);
  }

  /** erase, write_start and the page loop of write_hexfile. */
  method WriteRegion(dev: Bootloader, hexData: seq<byte>, pageSize: nat, end: nat) returns (r: Result<()>)
    requires Ready(dev) && dev.Device().mode.Waiting?
    requires |hexData| == dev.cfg.flashSize && pageSize == dev.cfg.pageSize
    requires Aligned(end, pageSize) && end <= |hexData|
    modifies dev.Repr()
    ensures Ready(dev) && r.Done?
    ensures InSession(dev.cfg, Blank(dev.cfg.flashSize), 0, end, hexData[..end], dev.Device())
  {
    hide *;
    EraseAnswer(dev.cfg, dev.Device());
    r := Erase(dev);
    if r.Done? {
      WriteStartAnswer(dev.cfg, dev.Device(), end);
      r := WriteStart(dev, 0, end);
      if r.Done? {
        r := WritePages(dev, hexData, pageSize, end);
      }
    }
  }

  method WritePages(dev: Bootloader, hexData: seq<byte>, pageSize: nat, end: nat) returns (r: Result<()>)
    requires Ready(dev)
    requires |hexData| == dev.cfg.flashSize && pageSize == dev.cfg.pageSize
    requires Aligned(end, pageSize) && end <= |hexData|
    requires InSession(dev.cfg, Blank(dev.cfg.flashSize), 0, end, [], dev.Device())
    modifies dev.Repr()
    ensures Ready(dev) && r.Done?
    ensures InSession(dev.cfg, Blank(dev.cfg.flashSize), 0, end, hexData[..end], dev.Device())
  {
    hide *;
    Sizes(dev.cfg);
    ghost var erased := Blank(dev.cfg.flashSize);
    r := Done(());
    var i := 0;
    assert hexData[..0] == [];
    while i < end && r.Done?
      invariant Ready(dev) && r.Done?
      invariant 0 <= i <= end && Aligned(i, pageSize)
      invariant InSession(dev.cfg, erased, 0, end, hexData[..i], dev.Device())
    {
      Gap(i, end, pageSize);
      Itself(pageSize);
      Add(i, pageSize, pageSize);
      Transitive(i, pageSize, 64);
      SessionRoom(end, i + pageSize);
      r := WritePage(dev, hexData[i..i + pageSize], pageSize, erased, 0, end, hexData[..i]);
      assert hexData[..i] + hexData[i..i + pageSize] == hexData[..i + pageSize];
      i := i + pageSize;
    }
  }

  lemma SessionRoom(r: nat, n: nat)
    requires 0 < n <= r
    ensures n <= SessionBytes(r)
  {
  }

  /** An erase command leaves blank flash even where the device skips it. */
  lemma EraseAnswer(cfg: Config, d: Dev)
    requires cfg.Valid() && Inv(cfg, d) && d.mode.Waiting?
    ensures var (d', answer) := Step(cfg, d, Request(CMD_ERASE, []));
            && OkayResult(answer) == Done(())
            && d'.mode.Waiting? && d'.erased && d'.flash == Blank(cfg.flashSize)
  {
  }

  lemma WriteStartAnswer(cfg: Config, d: Dev, end: nat)
    requires cfg.Valid() && d.mode.Waiting? && d.erased && d.flash == Blank(cfg.flashSize)
    requires Aligned(end, cfg.pageSize) && end <= cfg.flashSize
    ensures var (d', answer) := Step(cfg, d, Request(CMD_WRITE, Le32(0) + Le32(end)));
            WriteStartResult(answer) == Done(()) && InSession(cfg, Blank(cfg.flashSize), 0, end, [], d')
  {
    hide Le32, FromLe32, AndAt, Aligned, Whole, InSession, BootInfo, CrcReport, Peek;
    var p := Request(CMD_WRITE, Le32(0) + Le32(end));
    assert p[1..5] == Le32(0) && p[5..9] == Le32(end);
    Le32RoundTrip(0);
    Le32RoundTrip(end);
    Itself(cfg.pageSize);
    ReplayStart(cfg, d.(empty := false, mode := Writing(0, end, [])), 0, end);
  }

  /** How the end of the region lies to the highest address and the flash size. */
  lemma EndFits(cfg: Config, maxaddr: nat)
    requires cfg.Valid()
    ensures var end := EndOf(maxaddr, cfg.pageSize);
            && (end > cfg.flashSize <==> maxaddr > cfg.flashSize)
            && (end == 0 <==> maxaddr == 0)
            && (maxaddr == end <==> Aligned(maxaddr, cfg.pageSize))
  {
    EndIsCeiling(maxaddr, cfg.pageSize);
    var end := EndOf(maxaddr, cfg.pageSize);
    if end > cfg.flashSize { Gap(cfg.flashSize, end, cfg.pageSize); }
    if maxaddr == 0 && end > 0 { Gap(0, end, cfg.pageSize); }
    if Aligned(maxaddr, cfg.pageSize) && maxaddr < end { Gap(maxaddr, end, cfg.pageSize); }
  }

  /** The flash after the region has been written: the padded image, except that a byte at
      the very end of the region is missing. */
  lemma RegionFlash(cfg: Config, image: map<nat, byte>, maxaddr: nat, d: Dev)
    requires cfg.Valid() && IsMaxAddr(image, maxaddr) && maxaddr <= cfg.flashSize
    requires var hex, end := HexData(image, cfg.flashSize), EndOf(maxaddr, cfg.pageSize);
             end <= cfg.flashSize && InSession(cfg, Blank(cfg.flashSize), 0, end, hex[..end], d)
    ensures var hex := HexData(image, cfg.flashSize);
            d.flash == if maxaddr < cfg.flashSize && Aligned(maxaddr, cfg.pageSize) then hex[maxaddr := 255] else hex
    ensures d.erased && d.mode == if maxaddr == 0 then Writing(0, 0, []) else Waiting
  {
    var hex, end := HexData(image, cfg.flashSize), EndOf(maxaddr, cfg.pageSize);
    EndFits(cfg, maxaddr);
    EndIsCeiling(maxaddr, cfg.pageSize);
    WholeIsMultiple(end, cfg.pageSize);
    PaddedTail(image, maxaddr, cfg.flashSize);
    hide Aligned, Whole, EndOf, HexData, AndAt;
    assert hex[..end][..end] == hex[..end];
    RegionImage(hex, maxaddr, end);
  }

  lemma PaddedTail(image: map<nat, byte>, maxaddr: nat, n: nat)
    requires IsMaxAddr(image, maxaddr)
    ensures forall i :: maxaddr < i < n ==> HexData(image, n)[i] == 255
  {
  }

  lemma RegionImage(hex: seq<byte>, maxaddr: nat, end: nat)
    requires maxaddr <= end <= |hex| && forall i :: maxaddr < i < |hex| ==> hex[i] == 255
    ensures AndAt(Blank(|hex|), 0, hex[..end]) == if maxaddr < |hex| && maxaddr == end then hex[maxaddr := 255] else hex
  {
    AndAtBlank(Blank(|hex|), 0, hex[..end]);
    hide AndAt;
    var blank := Blank(|hex|);
    assert blank[..0] == [] && AndAt(blank, 0, hex[..end]) == hex[..end] + blank[end..];
    hide *;
    BlankTail(hex, end, blank, if maxaddr < |hex| && maxaddr == end then hex[maxaddr := 255] else hex);
  }

  lemma BlankTail(hex: seq<byte>, end: nat, blank: seq<byte>, want: seq<byte>)
    requires end <= |hex| == |blank| == |want|
    requires forall i :: 0 <= i < end ==> want[i] == hex[i]
    requires forall i :: end <= i < |hex| ==> want[i] == blank[i]
    ensures hex[..end] + blank[end..] == want
  {
  }

  /** The checksum answer for a waiting device, and for one that takes it for data. */
  lemma CrcAnswers(cfg: Config, d: Dev)
    requires cfg.Valid() && d.erased && !d.mode.Halted?
    ensures CrcResult(Step(cfg, d, Request(CMD_CRC, [])).1) ==
              if d.mode.Waiting? then Done((NvmCrc(d.flash), cfg.bootCrc)) else Raised(UnexpectedStatus(OKAY))
    ensures d.mode.Waiting? ==> Step(cfg, d, Request(CMD_CRC, [])).0 == d
  {
    if d.mode.Waiting? {
      hide CrcResult;
      CrcReportValue(cfg, d.flash);
    }
  }

  lemma CrcReportValue(cfg: Config, flash: seq<byte>)
    requires cfg.Valid()
    ensures CrcResult(CrcReport(cfg, flash)) == Done((NvmCrc(flash), cfg.bootCrc))
  {
    hide NvmCrc, Le32, FromLe32;
    var s := CrcReport(cfg, flash);
    assert s[1..5] == Le32(NvmCrc(flash)) && s[5..9] == Le32(cfg.bootCrc);
    Le32RoundTrip(NvmCrc(flash));
    Le32RoundTrip(cfg.bootCrc);
  }

  /** write_hexfile: it succeeds exactly when the verdict says so, and then the application
      flash holds the padded image byte for byte. The device may be in any reachable waiting
      state; in particular its erase may have been skipped. */
  method WriteHexfile(dev: Bootloader, image: map<nat, byte>, maxaddr: nat) returns (r: Result<()>)
    requires Ready(dev) && dev.Device().mode.Waiting? && IsMaxAddr(image, maxaddr)
    modifies dev.Repr()
    ensures Sound(dev)
    ensures r == Verdict(dev.cfg, image, maxaddr)
    ensures Expected(dev.cfg.pageSize, dev.cfg.flashSize, image, maxaddr, r)
    ensures r.Done? ==> dev.Device().flash == HexData(image, dev.cfg.flashSize) && dev.Device().mode == Halted
    ensures r.Done? ==> Padded(dev.Device().flash, dev.cfg.flashSize, image)
    ensures r.Done? ==> (Holds(dev.Device().flash, image) <==> maxaddr != dev.cfg.flashSize)
    ensures maxaddr > dev.cfg.flashSize ==> dev.Device() == old(dev.Device())
  {
    assert 0 < dev.cfg.pageSize;
    VerdictExpected(dev.cfg, image, maxaddr);
    HexDataPadded(image, dev.cfg.flashSize);
    hide Padded, Expected, Sound, Ready, Step, Inv, NvmCrc, HexData, EndOf, IsMaxAddr, Holds, Aligned;
    if Verdict(dev.cfg, image, maxaddr).Done? {
      SuccessKeepsImage(dev.cfg, image, maxaddr);
    }
    BootInfoStep(dev.cfg, dev.Device());
    var info := GetBootInfo(dev);
    r := info.Ignore();
    if info.Done? {
      var flashSize, pageSize := info.value.flashSize, info.value.pageSize;
      var end := EndOf(maxaddr, pageSize);
      EndFits(dev.cfg, maxaddr);
      if end > flashSize { return Raised(TooLarge(maxaddr)); }
      r := WriteAndCheck(dev, image, maxaddr, flashSize, pageSize, end);
    }
  }

  /** write_hexfile from the conversion of the image on. */
  method WriteAndCheck(dev: Bootloader, image: map<nat, byte>, ghost maxaddr: nat,
                       flashSize: nat, pageSize: nat, end: nat) returns (r: Result<()>)
    requires Ready(dev) && dev.Device().mode.Waiting? && IsMaxAddr(image, maxaddr)
    requires flashSize == dev.cfg.flashSize && pageSize == dev.cfg.pageSize
    requires end == EndOf(maxaddr, pageSize) <= flashSize
    modifies dev.Repr()
    ensures Sound(dev)
    ensures r == Verdict(dev.cfg, image, maxaddr)
    ensures r.Done? ==> dev.Device().flash == HexData(image, dev.cfg.flashSize) && dev.Device().mode == Halted
  {
    EndIsCeiling(maxaddr, pageSize);
    Sizes(dev.cfg);
    hide *;
    var hexData := HexData(image, flashSize);
    r := WriteRegion(dev, hexData, pageSize, end);
    if r.Done? {
      VerdictReached(dev.cfg, image, maxaddr, dev.Device());
      r := CheckAndReset(dev, hexData);
    }
  }

  /** The outcome of the comparison that ends write_hexfile. */
  function CheckResult(d: Dev, hexData: seq<byte>): Result<()> {
    if !d.mode.Waiting? then Raised(UnexpectedStatus(OKAY))
    else if NvmCrc(d.flash) != NvmCrc(hexData) then Raised(CrcMismatch(NvmCrc(d.flash), NvmCrc(hexData)))
    else Done(())
  }

  /** The comparison of checksums tells exactly whether the flash holds the padded image. */
  lemma VerdictReached(cfg: Config, image: map<nat, byte>, maxaddr: nat, d: Dev)
    requires cfg.Valid() && IsMaxAddr(image, maxaddr) && maxaddr <= cfg.flashSize
    requires var hex, end := HexData(image, cfg.flashSize), EndOf(maxaddr, cfg.pageSize);
             end <= cfg.flashSize && InSession(cfg, Blank(cfg.flashSize), 0, end, hex[..end], d)
    ensures d.erased && CheckResult(d, HexData(image, cfg.flashSize)) == Verdict(cfg, image, maxaddr)
    ensures Verdict(cfg, image, maxaddr).Done? ==> d.flash == HexData(image, cfg.flashSize)
  {
    var hex := HexData(image, cfg.flashSize);
    assert maxaddr < cfg.flashSize ==> hex[maxaddr] == image[maxaddr];
    Sizes(cfg);
    RegionFlash(cfg, image, maxaddr, d);
    hide *;
    VerdictChecked(cfg, image, maxaddr, d, hex);
  }

  /** What the comparison comes to for the flash of RegionFlash. */
  lemma VerdictChecked(cfg: Config, image: map<nat, byte>, maxaddr: nat, d: Dev, hex: seq<byte>)
    requires cfg.Valid() && IsMaxAddr(image, maxaddr) && maxaddr <= cfg.flashSize == |hex|
             && hex == HexData(image, cfg.flashSize)
    requires Aligned(cfg.flashSize, 2) && (maxaddr < cfg.flashSize ==> hex[maxaddr] == image[maxaddr])
    requires d.mode == if maxaddr == 0 then Writing(0, 0, []) else Waiting
    requires d.flash == if maxaddr < cfg.flashSize && Aligned(maxaddr, cfg.pageSize) then hex[maxaddr := 255] else hex
    ensures CheckResult(d, hex) == Verdict(cfg, image, maxaddr)
    ensures Verdict(cfg, image, maxaddr).Done? ==> d.flash == hex
  {
    if maxaddr < cfg.flashSize && Aligned(maxaddr, cfg.pageSize) {
      LastByte(hex, maxaddr);
    }
    hide NvmCrc, IsMaxAddr, HexData, Aligned;
  }

  lemma LastByte(hex: seq<byte>, m: nat)
    requires m < |hex| && Aligned(|hex|, 2)
    ensures NvmCrc(hex[m := 255]) == NvmCrc(hex) <==> hex[m] == 255
    ensures hex[m] == 255 ==> hex[m := 255] == hex
  {
    Remainder(|hex|, 2);
    CrcDetectsByte(hex[m := 255], hex, m);
  }

  lemma BootInfoStep(cfg: Config, d: Dev)
    requires cfg.Valid() && d.mode.Waiting?
    ensures Step(cfg, d, Request(CMD_GET_BOOT_INFO, [])).0 == d
  {
  }

  lemma ResetStep(cfg: Config, d: Dev)
    requires cfg.Valid() && d.mode.Waiting?
    ensures Step(cfg, d, Request(CMD_RESET, [])) == (d.(mode := Halted), [])
  {
  }

  /** The end of write_hexfile: compare the checksums, and reset the device if they agree. */
  method CheckAndReset(dev: Bootloader, hexData: seq<byte>) returns (r: Result<()>)
    requires Ready(dev) && Aligned(|hexData|, 2) && dev.Device().erased
    modifies dev.Repr()
    ensures Sound(dev)
    ensures r == CheckResult(old(dev.Device()), hexData)
    ensures r.Done? ==> dev.Device() == old(dev.Device()).(mode := Halted)
  {
    hide Step, CrcResult, NvmCrc, Inv, Aligned;
    Remainder(|hexData|, 2);
    ghost var d := dev.Device();
    CrcAnswers(dev.cfg, d);
    if d.mode.Waiting? { ResetStep(dev.cfg, d); }
    var hexCrc := XmegaNvmCrc(hexData);
    var crc := ComputeCrc(dev);
    r := crc.Ignore();
    if crc.Done? {
      if Some(crc.value.0) != hexCrc {
        return Raised(CrcMismatch(crc.value.0, NvmCrc(hexData)));
      }
      var nothing := SimpleCommand(dev, CMD_RESET, []);
    }
  }
}
