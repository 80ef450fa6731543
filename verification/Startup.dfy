/** What runs after a reset (src/main_pre_init.S, src/main.c): SRAM is wiped except for
    four bytes, and the reset cause and those bytes choose between the application and the
    bootloader.

    The hardware is assumed to set one flag of RST.STATUS per reset, and that of the button too
    if it is held during a power-on, to clear the others only on power-on, to clear a flag when
    a one is written to it, and to keep SRAM through every reset except power-on and brown-out,
    after which it holds anything. */
module Startup {
  import opened Bits

  const RST_PORF: bv8 := 0x01
  const RST_EXTRF: bv8 := 0x02
  const RST_BORF: bv8 := 0x04
  const RST_WDRF: bv8 := 0x08
  const RST_PDIRF: bv8 := 0x10
  const RST_SRF: bv8 := 0x20

  const SRAM_FILL_VALUE: byte := 0xCC
  const INTERNAL_SRAM_START: nat := 0x2000

  const BOOTLOADER_MAGIC: nat := 0x97e1e28e
  const BOOTLOADER_MAGIC_BOOT_RESET: nat := 0x36f51a68
  const BOOTMAGIC_BOOTLOADER_RESET_FLAG: nat := 0x200

  /** The SRAM size fits a 16-bit counter of four-byte steps, and boot_magic is inside. */
  ghost predicate Fits(size: nat, magic: nat) {
    0 < size && INTERNAL_SRAM_START + size < 0x1_0000 && size % 4 == 0 && magic + 4 <= size
  }

  // ----- the memory

  /** SRAM after the wipe. */
  function Wiped(memory: seq<byte>, magic: nat): (r: seq<byte>)
    ensures |r| == |memory|
  {
    seq(|memory|, i requires 0 <= i < |memory| => if magic <= i < magic + 4 then memory[i] else SRAM_FILL_VALUE)
  }

  /** The variable boot_magic. */
  function BootMagic(memory: seq<byte>, magic: nat): nat
    requires magic + 4 <= |memory|
  {
    FromLe32(memory[magic..magic + 4])
  }

  function SetBootMagic(memory: seq<byte>, magic: nat, x: nat): (r: seq<byte>)
    requires magic + 4 <= |memory|
    ensures |r| == |memory|
  {
    memory[..magic] + Le32(x) + memory[magic + 4..]
  }

  lemma LowByte(a: byte, b: byte, p: int, q: int)
    requires a as int + 256 * p == b as int + 256 * q
    ensures a == b && p == q
  {
  }

  lemma FromLe32Injective(s: seq<byte>, t: seq<byte>)
    requires |s| == |t| == 4 && FromLe32(s) == FromLe32(t)
    ensures s == t
  {
    var p, q := s[2] as int + 256 * s[3] as int, t[2] as int + 256 * t[3] as int;
    LowByte(s[0], t[0], s[1] as int + 256 * p, t[1] as int + 256 * q);
    LowByte(s[1], t[1], p, q);
    LowByte(s[2], t[2], s[3] as int, t[3] as int);
  }

  lemma BootMagicSet(memory: seq<byte>, magic: nat, x: nat)
    requires magic + 4 <= |memory| && x < 0x1_0000_0000
    ensures BootMagic(SetBootMagic(memory, magic, x), magic) == x
  {
    assert SetBootMagic(memory, magic, x)[magic..magic + 4] == Le32(x);
    Le32RoundTrip(x);
  }

  /** boot_magic survives the wipe, and nothing else does. */
  lemma WipeKeepsMagicOnly(memory: seq<byte>, other: seq<byte>, magic: nat)
    requires magic + 4 <= |memory| == |other|
    ensures BootMagic(Wiped(memory, magic), magic) == BootMagic(memory, magic)
    ensures Wiped(memory, magic) == Wiped(other, magic) <==> BootMagic(memory, magic) == BootMagic(other, magic)
  {
    assert Wiped(memory, magic)[magic..magic + 4] == memory[magic..magic + 4];
    assert Wiped(other, magic)[magic..magic + 4] == other[magic..magic + 4];
    if BootMagic(memory, magic) == BootMagic(other, magic) {
      FromLe32Injective(memory[magic..magic + 4], other[magic..magic + 4]);
      forall i | magic <= i < magic + 4 ensures memory[i] == other[i] {
        assert memory[i] == memory[magic..magic + 4][i - magic];
        assert other[i] == other[magic..magic + 4][i - magic];
      }
    }
  }

  // ----- a reset

  /** The microcontroller: RST.STATUS, SRAM and the first word of the application flash. */
  datatype Chip = Chip(status: bv8, sram: seq<byte>, word0: nat)

  /** The condition of pre_main_boot_check for the bootloader to run. */
  predicate EntersBootloader(status: bv8, bootMagic: nat, word0: nat, vbus: bool) {
    || (vbus && status & RST_EXTRF != 0 && status & RST_PORF == 0 && bootMagic != BOOTLOADER_MAGIC_BOOT_RESET)
    || word0 == 0xFFFF
    || (status & RST_SRF != 0 && bootMagic == BOOTLOADER_MAGIC)
  }

  function StatusValue(status: bv8): (v: nat)
    ensures v < 0x100
  {
    status as nat
  }

  lemma StatusBits(status: bv8)
    ensures var v := StatusValue(status);
            && (Bit(v, 0) <==> status & 0x01 != 0) && (Bit(v, 1) <==> status & 0x02 != 0)
            && (Bit(v, 2) <==> status & 0x04 != 0) && (Bit(v, 3) <==> status & 0x08 != 0)
            && (Bit(v, 4) <==> status & 0x10 != 0) && (Bit(v, 5) <==> status & 0x20 != 0)
            && (Bit(v, 6) <==> status & 0x40 != 0) && (Bit(v, 7) <==> status & 0x80 != 0)
  {
    DownBit(status, 0);
    DownBit(status, 1);
    DownBit(status, 2);
    DownBit(status, 3);
    DownBit(status, 4);
    DownBit(status, 5);
    DownBit(status, 6);
    DownBit(status, 7);
    hide StatusValue, Bit;
  }

  /** status >> n, one place at a time. */
  function Down(status: bv8, n: nat): bv8
    decreases n
  {
    if n == 0 then status else Down(status >> 1, n - 1)
  }

  lemma {:induction false} DownBit(status: bv8, n: nat)
    ensures Bit(StatusValue(status), n) == (Down(status, n) & 1 != 0)
    decreases n
  {
    Halves(status);
    hide StatusValue;
    if n > 0 { DownBit(status >> 1, n - 1); }
  }

  lemma Halves(s: bv8)
    ensures StatusValue(s) % 2 == 1 <==> s & 1 != 0
    ensures StatusValue(s) / 2 == StatusValue(s >> 1)
  {
  }

  /** What the check leaves in boot_magic for the application. */
  function Cause(status: bv8, bootMagic: nat): (r: nat)
    ensures r < 0x400
  {
    StatusValue(status) + if bootMagic == BOOTLOADER_MAGIC_BOOT_RESET then BOOTMAGIC_BOOTLOADER_RESET_FLAG else 0
  }

  /** What the application reads in boot_magic: the flags of RST.STATUS as they were, bit 9 if
      the reset cut a bootloader session short, and nothing else. */
  ghost predicate Reports(x: nat, status: bv8, bootMagic: nat) {
    && (Bit(x, 0) <==> status & 0x01 != 0) && (Bit(x, 1) <==> status & 0x02 != 0)
    && (Bit(x, 2) <==> status & 0x04 != 0) && (Bit(x, 3) <==> status & 0x08 != 0)
    && (Bit(x, 4) <==> status & 0x10 != 0) && (Bit(x, 5) <==> status & 0x20 != 0)
    && (Bit(x, 6) <==> status & 0x40 != 0) && (Bit(x, 7) <==> status & 0x80 != 0)
    && !Bit(x, 8) && (Bit(x, 9) <==> bootMagic == 0x36f51a68) && x < 0x400
  }

  lemma CauseReports(status: bv8, bootMagic: nat)
    ensures Reports(Cause(status, bootMagic), status, bootMagic)
  {
    hide StatusValue, Bit;
    StatusBits(status);
    forall i: nat | i <= 9 ensures Bit(StatusValue(status) + 0x200, i) == (i == 9 || Bit(StatusValue(status), i)) {
      FlagAdded(StatusValue(status), i);
    }
    FlagAdded(StatusValue(status), 9);
  }

  lemma FlagAdded(v: nat, i: nat)
    requires v < 0x100 && i <= 9
    ensures Bit(v + 0x200, i) == (i == 9 || Bit(v, i))
    ensures !Bit(v, 8) && !Bit(v, 9)
  {
    assert Pow2(8) == 0x100 && Pow2(9) == 0x200;
    hide Bit, Pow2;
    BitOfSum(v, 9, i);
    BitOfSum(v, 8, 8);
  }

  /** The decision for every content of RST.STATUS, also with several flags set. */
  ghost predicate Decides(bootloader: bool, status: bv8, bootMagic: nat, word0: nat, vbus: bool) {
    && (word0 == 0xFFFF ==> bootloader)
    && (bootloader && word0 != 0xFFFF ==>
          || (status & 0x20 != 0 && bootMagic == 0x97e1e28e)
          || (status & 0x02 != 0 && status & 0x01 == 0 && vbus && bootMagic != 0x36f51a68))
    && (status & 0x20 != 0 && bootMagic == 0x97e1e28e ==> bootloader)
    && (status & 0x03 == 0x02 && vbus && bootMagic != 0x36f51a68 ==> bootloader)
  }

  lemma DecisionDecides(status: bv8, bootMagic: nat, word0: nat, vbus: bool)
    ensures Decides(EntersBootloader(status, bootMagic, word0, vbus), status, bootMagic, word0, vbus)
  {
    assert status & 0x03 == 0x02 ==> status & 0x01 == 0 && status & 0x02 != 0;
  }

  /** The button held during a power-on does not start the bootloader of a programmed chip. */
  lemma ButtonAtPowerOn(bootMagic: nat, word0: nat, vbus: bool)
    ensures EntersBootloader(0x03, bootMagic, word0, vbus) <==> word0 == 0xFFFF
  {
    DecisionDecides(0x03, bootMagic, word0, vbus);
    assert RST_SRF == 0x20 && 0x03 as bv8 & 0x20 == 0 && 0x03 as bv8 & 0x01 != 0;
  }

  /** The chip once the start-up code has run. */
  function Started(c: Chip, magic: nat): Chip
    requires magic + 4 <= |c.sram|
  {
    Chip(c.status & !(RST_PORF | RST_SRF | RST_EXTRF),
         SetBootMagic(Wiped(c.sram, magic), magic, Cause(c.status, BootMagic(c.sram, magic))),
         c.word0)
  }

  /** What the decision and the new boot_magic mean. */
  lemma CheckMeans(c: Chip, magic: nat, vbus: bool)
    requires magic + 4 <= |c.sram|
    ensures var m := BootMagic(c.sram, magic);
            var sram := SetBootMagic(c.sram, magic, Cause(c.status, m));
            && Decides(EntersBootloader(c.status, m, c.word0, vbus), c.status, m, c.word0, vbus)
            && Reports(BootMagic(sram, magic), c.status, m)
  {
    var m := BootMagic(c.sram, magic);
    hide Decides, Reports, EntersBootloader, BootMagic, Cause;
    DecisionDecides(c.status, m, c.word0, vbus);
    CauseReports(c.status, m);
    BootMagicSet(c.sram, magic, Cause(c.status, m));
  }

  lemma StartedMeans(c: Chip, magic: nat)
    requires magic + 4 <= |c.sram|
    ensures var now := Started(c, magic);
            && (forall i :: 0 <= i < magic || magic + 4 <= i < |c.sram| ==> now.sram[i] == 0xCC)
            && now.status & 0x23 == 0 && now.status & 0xDC == c.status & 0xDC && now.word0 == c.word0
  {
    hide BootMagic, Cause;
    assert RST_PORF | RST_SRF | RST_EXTRF == 0x23;
  }

  /** The program that starts learns nothing of what SRAM held before the reset, beyond
      whether a bootloader session was cut short. */
  lemma NothingLeaks(c: Chip, other: Chip, magic: nat)
    requires magic + 4 <= |c.sram| == |other.sram| && c.status == other.status && c.word0 == other.word0
    ensures Started(c, magic) == Started(other, magic) <==>
            (BootMagic(c.sram, magic) == BOOTLOADER_MAGIC_BOOT_RESET <==>
             BootMagic(other.sram, magic) == BOOTLOADER_MAGIC_BOOT_RESET)
  {
    var x, y := Cause(c.status, BootMagic(c.sram, magic)), Cause(c.status, BootMagic(other.sram, magic));
    var s, t := Wiped(c.sram, magic), Wiped(other.sram, magic);
    assert s[..magic] == t[..magic] && s[magic + 4..] == t[magic + 4..];
    BootMagicSet(s, magic, x);
    BootMagicSet(t, magic, y);
  }

  // ----- the start-up code

  class Mcu {
    var status: bv8  // RST.STATUS
    const sram: array<byte>
    const magic: nat  // BOOTLOADER_MAGIC_ADDR - INTERNAL_SRAM_START
    var word0: nat
    const vbus: bool  // CHECK_PORT.IN & CHECK_PIN

    function State(): Chip
      reads this, sram
    {
      Chip(status, sram[..], word0)
    }

    /** The code of section .init3: X, Y and Z are r27:r26, r29:r28 and r31:r30. */
    method PreInit() returns (bootloader: bool)
      requires Fits(sram.Length, magic)
      modifies this, sram
      ensures State() == Started(old(State()), magic)
      ensures bootloader == EntersBootloader(old(status), BootMagic(old(sram[..]), magic), old(word0), vbus)
      ensures Decides(bootloader, old(status), BootMagic(old(sram[..]), magic), word0, vbus)
      ensures Reports(BootMagic(sram[..], magic), old(status), BootMagic(old(sram[..]), magic))
      ensures forall i :: 0 <= i < magic || magic + 4 <= i < sram.Length ==> sram[i] == 0xCC
      ensures status & 0x23 == 0 && status & 0xDC == old(status) & 0xDC && word0 == old(word0)
    {
      StartedMeans(State(), magic);
      hide Decides, Reports, EntersBootloader, Started, Cause, BootMagic;
      WipeSram();
      WipeKeepsMagicOnly(old(sram[..]), old(sram[..]), magic);
      bootloader := PreMainBootCheck();
    }

    method WipeSram()
      requires Fits(sram.Length, magic)
      modifies sram
      ensures sram[..] == Wiped(old(sram[..]), magic)
    {
      var z := INTERNAL_SRAM_START + magic;
      var r16 := sram[z - INTERNAL_SRAM_START];
      var r17 := sram[z + 1 - INTERNAL_SRAM_START];
      var r18 := sram[z + 2 - INTERNAL_SRAM_START];
      var r19 := sram[z + 3 - INTERNAL_SRAM_START];
      z := z + 4;
      EraseLoop();
      sram[z - 1 - INTERNAL_SRAM_START] := r19;
      sram[z - 2 - INTERNAL_SRAM_START] := r18;
      sram[z - 3 - INTERNAL_SRAM_START] := r17;
      sram[z - 4 - INTERNAL_SRAM_START] := r16;
    }

    /** erase_loop: the counter is compared with zero only after four bytes have been stored. */
    method EraseLoop()
      requires 0 < sram.Length && INTERNAL_SRAM_START + sram.Length < 0x1_0000 && sram.Length % 4 == 0
      modifies sram
      ensures forall i :: 0 <= i < sram.Length ==> sram[i] == SRAM_FILL_VALUE
    {
      var x, y := INTERNAL_SRAM_START, sram.Length;
      var zero := false;
      while !zero
        invariant INTERNAL_SRAM_START <= x && 0 <= y && y % 4 == 0 && zero == (y == 0)
        invariant x - INTERNAL_SRAM_START + y == sram.Length
        invariant forall i :: 0 <= i < x - INTERNAL_SRAM_START ==> sram[i] == SRAM_FILL_VALUE
        decreases y
      {
        sram[x - INTERNAL_SRAM_START] := SRAM_FILL_VALUE;
        sram[x + 1 - INTERNAL_SRAM_START] := SRAM_FILL_VALUE;
        sram[x + 2 - INTERNAL_SRAM_START] := SRAM_FILL_VALUE;
        sram[x + 3 - INTERNAL_SRAM_START] := SRAM_FILL_VALUE;
        x := x + 4;
        y := y - 4;
        zero := y == 0;
      }
    }

    method WriteBootMagic(x: nat)
      requires magic + 4 <= sram.Length && x < 0x1_0000_0000
      modifies sram
      ensures sram[..] == SetBootMagic(old(sram[..]), magic, x)
    {
      sram[magic] := x % 256;
      sram[magic + 1] := x / 256 % 256;
      sram[magic + 2] := x / 65536 % 256;
      sram[magic + 3] := x / 16777216 % 256;
    }

    /** True if control falls through to main and the bootloader. */
    method PreMainBootCheck() returns (bootloader: bool)
      requires magic + 4 <= sram.Length
      modifies this, sram
      ensures bootloader == EntersBootloader(old(status), BootMagic(old(sram[..]), magic), old(word0), vbus)
      ensures status == old(status) & !(RST_PORF | RST_SRF | RST_EXTRF) && word0 == old(word0)
      ensures sram[..] == SetBootMagic(old(sram[..]), magic, Cause(old(status), BootMagic(old(sram[..]), magic)))
      ensures Decides(bootloader, old(status), BootMagic(old(sram[..]), magic), word0, vbus)
      ensures Reports(BootMagic(sram[..], magic), old(status), BootMagic(old(sram[..]), magic))
    {
      hide StatusValue, BootMagic, SetBootMagic, Decides, Reports;
      CheckMeans(State(), magic, vbus);
      var powerOnReset := status & RST_PORF != 0;
      var extReset := status & RST_EXTRF != 0;
      var softwareReset := status & RST_SRF != 0;
      var bootMagic := BootMagic(sram[..], magic);
      var hasMagic := bootMagic == BOOTLOADER_MAGIC;
      var bootloaderReset := bootMagic == BOOTLOADER_MAGIC_BOOT_RESET;
      var cause := StatusValue(status);
      if bootloaderReset {
        cause := cause + BOOTMAGIC_BOOTLOADER_RESET_FLAG;
      }
      WriteBootMagic(cause);
      status := status & !(RST_PORF | RST_SRF | RST_EXTRF);
      bootloader :=
        (vbus && extReset && !powerOnReset && !bootloaderReset) || word0 == 0xFFFF || (softwareReset && hasMagic);
    }
  }

  // ----- runs of resets

  /** Power-on and brown-out name what SRAM then holds; the button may be held at power-on. */
  datatype Source =
    | PowerOn(noise: seq<byte>, button: bool)
    | BrownOut(noise: seq<byte>)
    | External
    | Watchdog
    | Debug
    | Software

  /** The running program, and in the bootloader whether it has got past the store of
      BOOTLOADER_MAGIC_BOOT_RESET in run_bootloader. */
  datatype Phase = Application | Starting | Session

  /** A reset, with or without bus power; the bootloader entering its main loop; the running
      program leaving something else in SRAM or in flash. */
  datatype Event =
    | Reset(source: Source, vbus: bool)
    | EnterLoop
    | Work(sram: seq<byte>, word0: nat)

  datatype Life = Life(chip: Chip, phase: Phase)

  /** The flags that a reset sets. */
  function Flag(source: Source): bv8 {
    match source
    case PowerOn(_, button) => if button then RST_PORF | RST_EXTRF else RST_PORF
    case BrownOut(_) => RST_BORF
    case External => RST_EXTRF
    case Watchdog => RST_WDRF
    case Debug => RST_PDIRF
    case Software => RST_SRF
  }

  /** What the reset itself does, before any code runs. */
  function ResetChip(c: Chip, source: Source): Chip {
    match source
    case PowerOn(noise, _) => c.(status := Flag(source), sram := noise)
    case BrownOut(noise) => c.(status := c.status | RST_BORF, sram := noise)
    case _ => c.(status := c.status | Flag(source))
  }

  /** An event that can happen: SRAM keeps its size, only the bootloader enters its loop,
      and only an application stores into boot_magic. */
  ghost predicate Possible(l: Life, e: Event, magic: nat)
    requires magic + 4 <= |l.chip.sram|
  {
    match e
    case Reset(source, _) =>
      ((source.PowerOn? || source.BrownOut?) ==> |source.noise| == |l.chip.sram|)
    case EnterLoop => l.phase == Starting
    case Work(sram, _) =>
      |sram| == |l.chip.sram| &&
      (l.phase != Application ==> BootMagic(sram, magic) == BootMagic(l.chip.sram, magic))
  }

  function Happen(l: Life, e: Event, magic: nat): (r: Life)
    requires magic + 4 <= |l.chip.sram| && Possible(l, e, magic)
    ensures |r.chip.sram| == |l.chip.sram|
  {
    match e
    case Reset(source, vbus) =>
      var c := ResetChip(l.chip, source);
      Life(Started(c, magic),
           if EntersBootloader(c.status, BootMagic(c.sram, magic), c.word0, vbus) then Starting else Application)
    case EnterLoop =>
      Life(l.chip.(sram := SetBootMagic(l.chip.sram, magic, BOOTLOADER_MAGIC_BOOT_RESET)), Session)
    case Work(sram, word0) => l.(chip := l.chip.(sram := sram, word0 := word0))
  }

  ghost predicate AllPossible(l: Life, events: seq<Event>, magic: nat)
    requires magic + 4 <= |l.chip.sram|
    decreases |events|
  {
    events != [] ==>
      Possible(l, events[0], magic) && AllPossible(Happen(l, events[0], magic), events[1..], magic)
  }

  function Lives(l: Life, events: seq<Event>, magic: nat): (r: Life)
    requires magic + 4 <= |l.chip.sram| && AllPossible(l, events, magic)
    ensures |r.chip.sram| == |l.chip.sram|
    decreases |events|
  {
    if events == [] then l else Lives(Happen(l, events[0], magic), events[1..], magic)
  }

  /** Between resets the three flags that the decision reads are clear, and outside the application
      boot_magic says whether the loop has been entered. */
  ghost predicate Inv(l: Life, magic: nat)
    requires magic + 4 <= |l.chip.sram|
  {
    && l.chip.status & (RST_PORF | RST_SRF | RST_EXTRF) == 0
    && (l.phase == Starting ==> BootMagic(l.chip.sram, magic) < 0x400)
    && (l.phase == Session ==> BootMagic(l.chip.sram, magic) == BOOTLOADER_MAGIC_BOOT_RESET)
  }

  lemma StartedMagic(c: Chip, magic: nat)
    requires magic + 4 <= |c.sram|
    ensures BootMagic(Started(c, magic).sram, magic) == Cause(c.status, BootMagic(c.sram, magic))
  {
    BootMagicSet(Wiped(c.sram, magic), magic, Cause(c.status, BootMagic(c.sram, magic)));
  }

  lemma HappenKeepsInv(l: Life, e: Event, magic: nat)
    requires magic + 4 <= |l.chip.sram| && Possible(l, e, magic)
    requires Inv(l, magic) || (e.Reset? && e.source.PowerOn?)
    ensures Inv(Happen(l, e, magic), magic)
  {
    match e
    case Reset(source, _) => StartedMagic(ResetChip(l.chip, source), magic);
    case EnterLoop => BootMagicSet(l.chip.sram, magic, BOOTLOADER_MAGIC_BOOT_RESET);
    case Work(_, _) =>
  }

  /** Every life that begins with a power-on keeps the invariant. */
  lemma {:induction false} LivesKeepInv(l: Life, events: seq<Event>, magic: nat)
    requires magic + 4 <= |l.chip.sram| && AllPossible(l, events, magic)
    requires Inv(l, magic) || (events != [] && events[0].Reset? && events[0].source.PowerOn?)
    ensures Inv(Lives(l, events, magic), magic)
    decreases |events|
  {
    if events != [] {
      HappenKeepsInv(l, events[0], magic);
      LivesKeepInv(Happen(l, events[0], magic), events[1..], magic);
    }
  }

  /** Whatever happened since power-on, and whatever flags earlier resets left in RST.STATUS,
      the program that runs depends on this reset's own cause, on flash word 0 and on
      boot_magic. */
  lemma ResetDecision(l: Life, source: Source, vbus: bool, magic: nat)
    requires magic + 4 <= |l.chip.sram| && Inv(l, magic) && Possible(l, Reset(source, vbus), magic)
    ensures var bootMagic := BootMagic(l.chip.sram, magic);
            Happen(l, Reset(source, vbus), magic).phase == Starting <==>
              || l.chip.word0 == 0xFFFF
              || (source == External && vbus && bootMagic != BOOTLOADER_MAGIC_BOOT_RESET)
              || (source == Software && bootMagic == BOOTLOADER_MAGIC)
  {
    var s := l.chip.status;
    assert s & RST_EXTRF == 0 && s & RST_SRF == 0 && s & RST_PORF == 0;
    assert (s | RST_EXTRF) & RST_EXTRF != 0 && (s | RST_EXTRF) & RST_PORF == 0 && (s | RST_EXTRF) & RST_SRF == 0;
    assert (s | RST_SRF) & RST_SRF != 0 && (s | RST_SRF) & RST_EXTRF == 0;
    assert (s | RST_BORF) & RST_EXTRF == 0 && (s | RST_BORF) & RST_SRF == 0;
    assert (s | RST_WDRF) & RST_EXTRF == 0 && (s | RST_WDRF) & RST_SRF == 0;
    assert (s | RST_PDIRF) & RST_EXTRF == 0 && (s | RST_PDIRF) & RST_SRF == 0;
  }

  /** Once the bootloader is in its main loop, any reset enters the application exactly when
      there is one. */
  lemma SessionReset(l: Life, events: seq<Event>, source: Source, vbus: bool, magic: nat)
    requires magic + 4 <= |l.chip.sram| && AllPossible(l, events, magic)
    requires events != [] && events[0].Reset? && events[0].source.PowerOn?
    requires Lives(l, events, magic).phase == Session
    requires Possible(Lives(l, events, magic), Reset(source, vbus), magic)
    ensures var now := Lives(l, events, magic);
            Happen(now, Reset(source, vbus), magic).phase == Application <==> now.chip.word0 != 0xFFFF
  {
    LivesKeepInv(l, events, magic);
    ResetDecision(Lives(l, events, magic), source, vbus, magic);
  }

  // ----- a programmed chip whose application leaves boot_magic alone

  ghost predicate Leaves(l: Life, e: Event, magic: nat)
    requires magic + 4 <= |l.chip.sram|
  {
    Possible(l, e, magic) &&
    (e.Work? ==> e.word0 != 0xFFFF && BootMagic(e.sram, magic) == BootMagic(l.chip.sram, magic))
  }

  ghost predicate AllLeave(l: Life, events: seq<Event>, magic: nat)
    requires magic + 4 <= |l.chip.sram|
    ensures AllLeave(l, events, magic) ==> AllPossible(l, events, magic)
    decreases |events|
  {
    events != [] ==>
      Leaves(l, events[0], magic) && AllLeave(Happen(l, events[0], magic), events[1..], magic)
  }

  ghost predicate Settled(l: Life, magic: nat)
    requires magic + 4 <= |l.chip.sram|
  {
    Inv(l, magic) && l.chip.word0 != 0xFFFF && (l.phase == Application ==> BootMagic(l.chip.sram, magic) < 0x400)
  }

  /** A programmed chip settles when it is powered on. */
  lemma PowerOnSettles(l: Life, noise: seq<byte>, button: bool, vbus: bool, magic: nat)
    requires magic + 4 <= |l.chip.sram| == |noise| && l.chip.word0 != 0xFFFF
    ensures var now := Happen(l, Reset(PowerOn(noise, button), vbus), magic);
            Settled(now, magic) && now.phase == Application
  {
    StartedMagic(ResetChip(l.chip, PowerOn(noise, button)), magic);
  }

  /** The reset behaviour as a three-state machine. */
  function Successor(phase: Phase, e: Event): Phase {
    match e
    case Reset(source, vbus) => if source == External && vbus && phase != Session then Starting else Application
    case EnterLoop => Session
    case Work(_, _) => phase
  }

  function Phases(phase: Phase, events: seq<Event>): Phase
    decreases |events|
  {
    if events == [] then phase else Phases(Successor(phase, events[0]), events[1..])
  }

  lemma SuccessorPhase(l: Life, e: Event, magic: nat)
    requires magic + 4 <= |l.chip.sram| && Settled(l, magic) && Leaves(l, e, magic)
    ensures Settled(Happen(l, e, magic), magic)
    ensures Happen(l, e, magic).phase == Successor(l.phase, e)
  {
    HappenKeepsInv(l, e, magic);
    if e.Reset? {
      ResetDecision(l, e.source, e.vbus, magic);
      StartedMagic(ResetChip(l.chip, e.source), magic);
    }
  }

  /** Over any life the start-up code implements the three-state machine. */
  lemma {:induction false} LivesFollow(l: Life, events: seq<Event>, magic: nat)
    requires magic + 4 <= |l.chip.sram| && Settled(l, magic) && AllLeave(l, events, magic)
    ensures Lives(l, events, magic).phase == Phases(l.phase, events)
    decreases |events|
  {
    if events != [] {
      SuccessorPhase(l, events[0], magic);
      LivesFollow(Happen(l, events[0], magic), events[1..], magic);
    }
  }

  function Resets(events: seq<Event>): nat {
    if events == [] then 0 else (if events[0].Reset? then 1 else 0) + Resets(events[1..])
  }

  /** Every reset is the button, with bus power, and not before the bootloader's main loop. */
  predicate Presses(phase: Phase, events: seq<Event>)
    decreases |events|
  {
    events != [] ==>
      && (events[0].Reset? ==> events[0].source == External && events[0].vbus && phase != Starting)
      && (events[0].EnterLoop? ==> phase == Starting)
      && Presses(Successor(phase, events[0]), events[1..])
  }

  lemma {:induction false} PhasesAlternate(phase: Phase, events: seq<Event>)
    requires Presses(phase, events)
    ensures Phases(phase, events) == Application <==>
            ((phase == Application) == (Resets(events) % 2 == 0))
    decreases |events|
  {
    if events != [] {
      PhasesAlternate(Successor(phase, events[0]), events[1..]);
    }
  }

  /** The button alternates between the bootloader and the application. */
  lemma ButtonAlternates(l: Life, events: seq<Event>, magic: nat)
    requires magic + 4 <= |l.chip.sram| && Settled(l, magic) && AllLeave(l, events, magic)
    requires Presses(l.phase, events)
    ensures Lives(l, events, magic).phase == Application <==>
            ((l.phase == Application) == (Resets(events) % 2 == 0))
  {
    LivesFollow(l, events, magic);
    PhasesAlternate(l.phase, events);
  }
}
