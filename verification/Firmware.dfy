/** The firmware itself: the global variables of src/boot_protocol.c and
    src/vendor_report.c, updated in place.

    Every method is proved against the protocol (Protocol.dfy) and the channel
    (Channel.dfy), neither of which knows the page buffer array, the page position or the
    controller. `Valid` also carries the discipline of the controller through every run: it
    has never been misused, and during a write session its page buffer is blank. */
module Firmware {
  import opened Bits
  import opened NvmChecksum
  import opened NvmController
  import opened Protocol
  import opened Channel
  import opened Multiples
  import opened Memory

  datatype State = STATE_WAIT | STATE_WRITE

  class Bootloader {
    const cfg: Config

    // endpoint 1 and its two buffers
    var outNack: bool
    var inNack: bool
    var inUnf: bool
    var outCnt: nat
    const outBuf: array<byte>
    const inBuf: array<byte>

    // g_vendor_report_out, g_vendor_report_in
    const requestData: array<byte>
    const responseData: array<byte>
    var responseLen: nat

    // boot_protocol.c
    const pageBuffer: array<byte>
    var state: State
    var flashHasBeenErased: bool
    var flashEmpty: bool
    var current: nat
    var remaining: nat
    var pagePosition: nat
    var running: bool

    var nvm: Nvm

    /** Everything the firmware may write to. */
    ghost function Repr(): set<object> {
      {this, outBuf, inBuf, requestData, responseData, pageBuffer}
    }

    /** The parts are there and have the sizes declared in the source. */
    ghost predicate Shape()
      reads this
      ensures Shape() ==> cfg.Valid()
    {
      && cfg.Valid()
      && outBuf.Length == inBuf.Length == requestData.Length == responseData.Length == 64
      && pageBuffer.Length == cfg.pageSize
      && outBuf != inBuf && outBuf != requestData && outBuf != responseData && outBuf != pageBuffer
      && inBuf != requestData && inBuf != responseData && inBuf != pageBuffer
      && requestData != responseData && requestData != pageBuffer && responseData != pageBuffer
      && outCnt <= 64 && responseLen <= 64 && pagePosition <= cfg.pageSize
      && |nvm.buffer| == cfg.pageSize
    }

    ghost function Device(): Dev
      requires Shape()
      reads this, pageBuffer
    {
      Dev(nvm.flash, flashHasBeenErased, flashEmpty,
          if !running then Halted
          else if state.STATE_WRITE? then Writing(current, remaining, pageBuffer[..pagePosition])
          else Waiting)
    }

    ghost function Pending(): seq<byte>
      requires Shape()
      reads this, responseData
    {
      responseData[..responseLen]
    }

    ghost function Ep(): Endpoint
      requires Shape()
      reads this, outBuf, inBuf
    {
      Endpoint(outNack, outBuf[..outCnt], inNack, inUnf, inBuf[..])
    }

    ghost function Link(): Channel.Link
      requires Shape()
      reads this, outBuf, inBuf, requestData, responseData, pageBuffer
    {
      Channel.Link(Device(), requestData[..], Pending(), Ep())
    }

    ghost predicate Valid()
      reads this, pageBuffer
    {
      && Shape()
      && Inv(cfg, Device())
      && !nvm.misused
      && (running && state.STATE_WRITE? ==> nvm.buffer == Blank(cfg.pageSize))
    }

    /** run_bootloader up to its loop, on any flash contents and a controller in any
        unspoilt state. */
    constructor (cfg: Config, nvm: Nvm)
      requires cfg.Valid() && |nvm.flash| == cfg.flashSize && |nvm.buffer| == cfg.pageSize && !nvm.misused
      ensures Valid() && this.cfg == cfg
      ensures Device() == Boot(nvm.flash)
      ensures Quiet(Link()) && Ep() == Idle(inBuf[..])
      ensures fresh(Repr())
    {
      this.cfg := cfg;
      this.nvm := nvm;
      outNack, inNack, inUnf, outCnt := false, true, false, 0;
      outBuf := new byte[64];
      inBuf := new byte[64];
      requestData := new byte[64];
      responseData := new byte[64];
      responseLen := 0;
      pageBuffer := new byte[cfg.pageSize];
      state := STATE_WAIT;
      flashHasBeenErased, flashEmpty := false, false;
      current, remaining, pagePosition := 0, 0, 0;
      running := true;
    }

    // ----- src/vendor_report.c

    method ReadVendorReport() returns (length: nat)
      requires Shape()
      modifies this`outNack, requestData
      ensures Shape()
      ensures Link() == Read(old(Link()))
      ensures length == ReadLength(old(Link())) <= 64
    {
      length := 0;
      if !outNack { return; }
      length := outCnt;
      Memcpy(requestData, 0, outBuf[..length]);
      outNack := false;
    }

    method SendVendorReport()
      requires Shape()
      modifies this`inUnf, this`inNack, this`responseLen, inBuf
      ensures Shape()
      ensures Link() == Send(old(Link()))
    {
      if inUnf && responseLen > 0 {
        inUnf := false;
        Memcpy(inBuf, 0, responseData[..responseLen]);
        inNack := false;
        responseLen := 0;
      }
    }

    // ----- src/boot_protocol.c

    method Respond(answer: seq<byte>)
      requires Shape() && |answer| <= 64
      modifies this`responseLen, responseData
      ensures Shape() && Pending() == answer
    {
      Memcpy(responseData, 0, answer);
      responseLen := |answer|;
    }

    method SendResponse(response: byte)
      requires Shape()
      modifies this`responseLen, responseData
      ensures Shape() && Pending() == Status(response)
    {
      responseData[0] := PACKET_ERROR_STATUS;
      responseData[1] := response;
      responseLen := 2;
    }

    method ParseCmd()
      requires Valid() && running && state.STATE_WAIT?
      modifies this`nvm, this`flashEmpty, this`flashHasBeenErased, this`current, this`remaining,
               this`pagePosition, this`state, this`running, this`responseLen, responseData
      ensures Valid()
      ensures Device() == Command(cfg, old(Device()), requestData[..]).0
      ensures Pending() == var answer := Command(cfg, old(Device()), requestData[..]).1;
                           if answer == [] then old(Pending()) else answer
    {
      hide Inv, Aligned, Blank, FromLe32, FromLe16, BootInfo, CrcReport, Peek;
      CommandKeepsInv(cfg, Device(), requestData[..]);
      var data: report := requestData[..];
      var cmd := data[0];
      if cmd == CMD_GET_BOOT_INFO {
        Respond(BootInfo(cfg));
      } else if cmd == CMD_ERASE {
        EraseFlash();
      } else if cmd == CMD_WRITE {
        StartWrite(FromLe32(data[1..5]), FromLe32(data[5..9]));
      } else if cmd == CMD_CRC {
        ReportCrc();
      } else if cmd == CMD_TEST {
        Respond(Peek(cfg, FromLe16(data[1..3])));
      } else if cmd == CMD_RESET {
        running := false;
      }
    }

    /** The CMD_ERASE case of parse_cmd. */
    method EraseFlash()
      requires Shape() && !nvm.misused
      modifies this`nvm, this`flashEmpty, this`flashHasBeenErased, this`responseLen, responseData
      ensures Shape() && !nvm.misused && Pending() == Status(OKAY)
      ensures flashEmpty && flashHasBeenErased == (old(flashHasBeenErased) || !old(flashEmpty))
      ensures nvm.buffer == old(nvm.buffer)
      ensures nvm.flash == if old(flashEmpty) then old(nvm.flash) else Blank(|old(nvm.flash)|)
    {
      if !flashEmpty {
        nvm := nvm.WaitForSpm();
        nvm := nvm.EraseApplicationSection();
        nvm := nvm.WaitForSpm();
        flashEmpty := true;
        flashHasBeenErased := true;
      }
      SendResponse(OKAY);
    }

    /** The CMD_WRITE case of parse_cmd. A refused request still overwrites the counters. */
    method StartWrite(newCurrent: nat, newRemaining: nat)
      requires Shape() && !nvm.misused && state.STATE_WAIT?
      modifies this`nvm, this`flashEmpty, this`current, this`remaining,
               this`pagePosition, this`state, this`responseLen, responseData
      ensures Shape() && !nvm.misused
      ensures nvm.flash == old(nvm.flash)
      ensures var aligned := Aligned(newCurrent, cfg.pageSize) && Aligned(newRemaining, cfg.pageSize);
              if !flashHasBeenErased || !aligned then
                && state == STATE_WAIT && flashEmpty == old(flashEmpty)
                && Pending() == Status(if flashHasBeenErased then ERROR_MISALIGNED else ERROR_NOT_ERASED)
              else
                && state == STATE_WRITE && !flashEmpty && nvm.buffer == Blank(cfg.pageSize)
                && current == newCurrent && remaining == newRemaining && pagePosition == 0
                && Pending() == Status(OKAY)
    {
      if flashHasBeenErased {
        current, remaining := newCurrent, newRemaining;
        if !Aligned(current, cfg.pageSize) || !Aligned(remaining, cfg.pageSize) {
          SendResponse(ERROR_MISALIGNED);
          return;
        }
        nvm := nvm.WaitForSpm();
        nvm := nvm.EraseFlashBuffer();
        pagePosition := 0;
        state := STATE_WRITE;
        flashEmpty := false;
        SendResponse(OKAY);
      } else {
        SendResponse(ERROR_NOT_ERASED);
      }
    }

    /** The CMD_CRC case of parse_cmd. The second checksum is started without waiting. */
    method ReportCrc()
      requires Shape() && !nvm.misused
      modifies this`nvm, this`responseLen, responseData
      ensures Shape() && !nvm.misused && nvm.flash == old(nvm.flash) && nvm.buffer == old(nvm.buffer)
      ensures Pending() == if flashHasBeenErased then CrcReport(cfg, nvm.flash) else Status(ERROR_NOT_ERASED)
    {
      hide NvmCrc, Le32, Status, Aligned;
      if flashHasBeenErased {
        nvm := nvm.WaitForSpm();
        nvm := nvm.RunCrc();
        var crcApp := NvmCrc(nvm.flash);
        nvm := nvm.RunCrc();
        Respond([PACKET_CRC] + Le32(crcApp) + Le32(cfg.bootCrc));
      } else {
        SendResponse(ERROR_NOT_ERASED);
      }
    }

    /** The STATE_WRITE case of bootloader_task. */
    method TakeData()
      requires Valid() && running && state.STATE_WRITE?
      modifies this`nvm, this`current, this`remaining, this`pagePosition, this`state,
               this`responseLen, pageBuffer, responseData
      ensures Valid()
      ensures Device() == Data(cfg, old(Device()), requestData[..]).0
      ensures Pending() == Data(cfg, old(Device()), requestData[..]).1
    {
      DataKeepsInv(cfg, Device(), requestData[..]);
      Gap(pagePosition, cfg.pageSize, 64);
      assert Aligned(current, cfg.pageSize) && current < 0x1_0000_0000 && Aligned(remaining, cfg.pageSize)
             && remaining < 0x1_0000_0000;
      hide Inv, Programmed, Blank, Aligned, Status, NvmController.Nvm.LoadFlashPage;
      ghost var page := pageBuffer[..pagePosition] + requestData[..];
      StorePacket();
      if pagePosition == cfg.pageSize {
        assert pageBuffer[..] == page;
        WritePage();
        assert pageBuffer[..pagePosition] == [];
      }
      SendResponse(OKAY);
    }

    method StorePacket()
      requires Shape() && pagePosition + 64 <= cfg.pageSize
      modifies this`pagePosition, pageBuffer
      ensures Shape() && pagePosition == old(pagePosition) + 64
      ensures pageBuffer[..pagePosition] == old(pageBuffer[..pagePosition]) + requestData[..]
    {
      Memcpy(pageBuffer, pagePosition, requestData[..]);
      pagePosition := pagePosition + 64;
    }

    method WritePage()
      requires Shape() && running && state.STATE_WRITE? && !nvm.misused
      requires nvm.buffer == Blank(cfg.pageSize) && pagePosition == cfg.pageSize
      requires Aligned(current, cfg.pageSize) && current < 0x1_0000_0000
      requires Aligned(remaining, cfg.pageSize) && remaining < 0x1_0000_0000
      modifies this`nvm, this`current, this`remaining, this`pagePosition, this`state
      ensures Shape() && !nvm.misused && nvm.buffer == Blank(cfg.pageSize) && pagePosition == 0
      ensures nvm.flash == Programmed(old(nvm.flash), old(current), pageBuffer[..], cfg.stray)
      ensures current == (old(current) + cfg.pageSize) % 0x1_0000_0000
      ensures remaining == (old(remaining) - cfg.pageSize) % 0x1_0000_0000
      ensures state == if remaining == 0 then STATE_WAIT else STATE_WRITE
    {
      WholeIsMultiple(current, cfg.pageSize);
      LoadsBlank(pageBuffer[..]);
      hide Aligned, Whole, Programmed, AndAt;
      nvm := nvm.WaitForSpm();
      nvm := nvm.LoadFlashPage(pageBuffer[..]);
      nvm := nvm.WriteApplicationPage(current, cfg.stray);
      pagePosition := 0;
      current := (current + cfg.pageSize) % 0x1_0000_0000;
      remaining := (remaining - cfg.pageSize) % 0x1_0000_0000;
      if remaining == 0 {
        state := STATE_WAIT;
      }
    }

    /** One pass of the main loop. CMD_RESET does not return to it. */
    method BootloaderTask()
      requires Valid() && running
      modifies this, requestData, responseData, inBuf, pageBuffer
      ensures Valid()
      ensures Link() == Task(cfg, old(Link()))
    {
      var len := ReadVendorReport();
      hide Process, Step;
      if len != 0 {
        Act(len);
      }
      if !running { return; }
      SendVendorReport();
    }

    /** The switch of bootloader_task. */
    method Act(ghost len: nat)
      requires Valid() && running && len != 0
      modifies this`nvm, this`flashEmpty, this`flashHasBeenErased, this`current, this`remaining,
               this`pagePosition, this`state, this`running, this`responseLen, responseData, pageBuffer
      ensures Valid()
      ensures Link() == Process(cfg, old(Link()), len)
    {
      hide Command, Inv;
      match state {
        case STATE_WAIT => ParseCmd();
        case STATE_WRITE => TakeData();
      }
    }

    // ----- the USB hardware and a host that waits for each answer

    method OutPacket(packet: seq<byte>)
      requires Shape() && |packet| <= 64
      modifies this`outNack, this`outCnt, outBuf
      ensures Shape()
      ensures Link() == old(Link()).(ep := OutToken(old(Ep()), packet))
    {
      if !outNack {
        Memcpy(outBuf, 0, packet);
        outCnt := |packet|;
        outNack := true;
      }
    }

    /** The report is empty when the IN token is answered with NAK. */
    method InReport() returns (received: seq<byte>)
      requires Shape()
      modifies this`inNack, this`inUnf
      ensures Shape()
      ensures Link() == old(Link()).(ep := InToken(old(Ep())))
      ensures received == if old(inNack) then [] else inBuf[..]
    {
      if inNack {
        inUnf := true;
        received := [];
      } else {
        inNack := true;
        received := inBuf[..];
      }
    }
  }
}
