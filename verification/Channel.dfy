/** The report channel between the firmware and the USB hardware (src/vendor_report.c and
    the main loop of src/boot_protocol.c).

    Endpoint 1 has one buffer per direction. A buffer belongs to the firmware while its
    BUSNACK0 flag is set and to the hardware while the flag is clear. The USB hardware is
    assumed to accept an OUT packet only when the OUT flag is clear, and to set it then; to
    raise UNF on an IN token that meets a set IN flag; and otherwise to deliver the IN
    buffer and set the flag. */
module Channel {
  import opened Bits
  import opened Protocol

  /** `outPacket` is what the hardware last received: CNT bytes in the OUT buffer. */
  datatype Endpoint = Endpoint(outNack: bool, outPacket: seq<byte>, inNack: bool, inUnf: bool, inBuf: report)
  {
    predicate Valid() {
      |outPacket| <= 64
    }
  }

  /** The protocol state, the last request (g_vendor_report_out.data), the answer waiting to
      be sent (the first len bytes of g_vendor_report_in) and the endpoint. */
  datatype Link = Link(dev: Dev, request: report, pending: seq<byte>, ep: Endpoint)
  {
    predicate Valid() {
      ep.Valid() && |pending| <= 64
    }
  }

  /** A buffer after bytes have been copied to its start. */
  function Overlay(buffer: report, bytes: seq<byte>): (r: report)
    requires |bytes| <= 64
    ensures forall i :: 0 <= i < 64 ==> r[i] == if i < |bytes| then bytes[i] else buffer[i]
  {
    bytes + buffer[|bytes|..]
  }

  /** The report the host reads when the protocol gives an answer, after an earlier report: the
      answer at the start, and the earlier report behind it. No answer is no report. */
  function Received(earlier: report, answer: seq<byte>): seq<byte>
    requires |answer| <= 64
  {
    if answer == [] then [] else Overlay(earlier, answer)
  }

  // ----- the firmware

  /** read_vendor_report */
  function Read(l: Link): Link
    requires l.Valid()
  {
    if l.ep.outNack then
      l.(request := Overlay(l.request, l.ep.outPacket), ep := l.ep.(outNack := false))
    else l
  }

  /** The length read_vendor_report returns. */
  function ReadLength(l: Link): nat {
    if l.ep.outNack then |l.ep.outPacket| else 0
  }

  /** The switch of bootloader_task on a report of the given length. A command without an
      answer leaves the answer field as it was. */
  function Process(cfg: Config, l: Link, length: nat): Link
    requires cfg.Valid()
  {
    if length == 0 then l
    else
      var (dev, answer) := Step(cfg, l.dev, l.request);
      l.(dev := dev, pending := if answer == [] then l.pending else answer)
  }

  /** send_vendor_report */
  function Send(l: Link): Link
    requires l.Valid()
  {
    if l.ep.inUnf && l.pending != [] then
      l.(ep := l.ep.(inUnf := false, inBuf := Overlay(l.ep.inBuf, l.pending), inNack := false), pending := [])
    else l
  }

  /** One pass of bootloader_task; CMD_RESET never reaches its end. */
  function Task(cfg: Config, l: Link): Link
    requires cfg.Valid() && l.Valid()
  {
    if l.dev.mode.Halted? then l
    else
      var l' := Process(cfg, Read(l), ReadLength(l));
      ProcessKeepsValid(cfg, Read(l), ReadLength(l));
      if l'.dev.mode.Halted? then l' else Send(l')
  }

  lemma ProcessKeepsValid(cfg: Config, l: Link, length: nat)
    requires cfg.Valid() && l.Valid()
    ensures Process(cfg, l, length).Valid()
  {
  }

  // ----- the USB hardware

  /** An OUT token with a packet. */
  function OutToken(ep: Endpoint, packet: seq<byte>): Endpoint {
    if ep.outNack then ep else ep.(outNack := true, outPacket := packet)
  }

  /** An IN token; the host receives the IN buffer exactly when the flag was clear. */
  function InToken(ep: Endpoint): Endpoint {
    if ep.inNack then ep.(inUnf := true) else ep.(inNack := true)
  }

  /** The endpoint after usb_cb_reset. */
  function Idle(buffer: report): Endpoint {
    Endpoint(false, [], true, false, buffer)
  }

  // ----- one undisturbed exchange

  /** The channel between two exchanges: nothing in flight in either direction. */
  predicate Quiet(l: Link) {
    l.Valid() && !l.ep.outNack && l.ep.inNack && l.pending == []
  }

  /** A host that writes a packet, lets the device poll once, and reads. */
  function Exchange(cfg: Config, l: Link, packet: seq<byte>): Link
    requires cfg.Valid() && Quiet(l) && |packet| <= 64
  {
    var l1 := l.(ep := InToken(OutToken(l.ep, packet)));
    var l2 := Task(cfg, l1);
    if l2.ep.inNack then l2 else l2.(ep := InToken(l2.ep))
  }

  /** An exchange hands the request to the protocol exactly once, and if the protocol
      answers, the host has the answer at the start of the report it reads. */
  lemma ExchangeIsStep(cfg: Config, l: Link, packet: seq<byte>)
    requires cfg.Valid() && Quiet(l) && 0 < |packet| <= 64 && !l.dev.mode.Halted?
    ensures var request := Overlay(l.request, packet);
            var (dev, answer) := Step(cfg, l.dev, request);
            var l' := Exchange(cfg, l, packet);
            && Quiet(l') && l'.dev == dev && l'.request == request
            && (answer != [] && !dev.mode.Halted? ==> l'.ep.inBuf == Overlay(l.ep.inBuf, answer))
  {
  }

  /** A packet without any byte is taken off the endpoint, and nothing else happens. */
  lemma EmptyPacketIgnored(cfg: Config, l: Link)
    requires cfg.Valid() && Quiet(l) && !l.dev.mode.Halted?
    ensures var l' := Exchange(cfg, l, []);
            Quiet(l') && l'.dev == l.dev && l'.request == l.request && l'.ep.inBuf == l.ep.inBuf
  {
    assert Overlay(l.request, []) == l.request;
  }
}
