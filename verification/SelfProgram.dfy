/** The self-programming routines in assembly (src/sp_driver.S, src/spm_interface.S), one
    register at a time.

    Registers hold bytes; X and Z are the pairs r27:r26 and r31:r30, extended by RAMPX and
    RAMPZ to 24-bit pointers. Waiting for the controller is one step, since how long it
    takes is up to the hardware. The routines are proved to have the effect on the
    controller that the firmware's model (NvmController.dfy) takes them to have. */
module SelfProgram {
  import opened Bits
  import opened NvmController

  const NVM_CMD_NO_OPERATION: byte := 0x00
  const NVM_CMD_ERASE_APP_PAGE: byte := 0x22
  const NVM_CMD_LOAD_FLASH_BUFFER: byte := 0x23
  const NVM_CMD_WRITE_APP_PAGE: byte := 0x24
  const NVM_CMD_ERASE_FLASH_BUFFER: byte := 0x26
  const CCP_SPM: byte := 0x9D

  type word16 = w: int | 0 <= w < 0x1_0000

  function Pair(hi: byte, lo: byte): word16 {
    hi as int * 256 + lo as int
  }

  function Address(top: byte, hi: byte, lo: byte): nat {
    top as int * 0x1_0000 + Pair(hi, lo)
  }

  /** A 24-bit address and its registers are two forms of the same three bytes. */
  lemma AddressBytes(top: byte, hi: byte, lo: byte)
    ensures var a := Address(top, hi, lo);
            a < 0x100_0000 && a % 0x100 == lo as int && a / 0x100 % 0x100 == hi as int && a / 0x1_0000 == top as int
    ensures var a: int := Pair(hi, lo); a < 0x1_0000 && a % 0x100 == lo as int && a / 0x100 == hi as int
  {
  }

  /** What the spm instruction makes the controller do, for the command in NVM.CMD, the pointer
      RAMPZ:Z and the word in r1:r0. The page buffer is addressed by Z alone. */
  function Issue(n: Nvm, cmd: byte, rampZ: byte, z: word16, lo: byte, hi: byte, stray: StrayWrite): (r: Nvm)
    requires |n.buffer| > 0
    requires cmd == NVM_CMD_LOAD_FLASH_BUFFER ==> z as int + 1 < |n.buffer|
    ensures |r.buffer| == |n.buffer|
  {
    var address := rampZ as int * 0x1_0000 + z as int;
    if cmd == NVM_CMD_LOAD_FLASH_BUFFER then n.LoadFlashWord(z, lo, hi)
    else if cmd == NVM_CMD_ERASE_FLASH_BUFFER then n.EraseFlashBuffer()
    else if cmd == NVM_CMD_WRITE_APP_PAGE then n.WriteApplicationPage(address, stray)
    else if cmd == NVM_CMD_ERASE_APP_PAGE then n.EraseApplicationPage(address, stray)
    else n
  }

  lemma IssueAtPage(n: Nvm, top: byte, hi: byte, lo: byte, w: (byte, byte), stray: StrayWrite)
    requires |n.buffer| > 0
    ensures Issue(n, 0x24, top, Pair(hi, lo), w.0, w.1, stray) ==
            n.WriteApplicationPage(Address(top, hi, lo), stray)
    ensures Issue(n, 0x22, top, Pair(hi, lo), w.0, w.1, stray) ==
            n.EraseApplicationPage(Address(top, hi, lo), stray)
  {
    hide NvmController.Nvm.WriteApplicationPage, NvmController.Nvm.EraseApplicationPage;
  }

  class Avr {
    const pageSize: nat  // FLASH_PAGE_SIZE
    ghost const pageWords: nat
    const stray: StrayWrite

    var r0: byte
    var r1: byte
    var r18: byte
    var r19: byte
    var r20: byte
    var r21: byte
    var r22: byte
    var r23: byte
    var r24: byte
    var r25: byte
    var x: word16
    var z: word16
    var rampX: byte
    var rampZ: byte
    var stack: seq<byte>

    var nvmCmd: byte
    var spmEnabled: bool  // the window opened by writing CCP
    var nvm: Nvm
    const sram: array<byte>

    /** The page buffer has the page size, an even number that a page word counter holds. */
    ghost predicate Valid()
      reads `nvm
      ensures Valid() ==> 0 < pageSize < 0x1_0000 && pageSize == 2 * pageWords
      ensures Valid() ==> |nvm.buffer| == pageSize && sram.Length <= 0x1_0000
    {
      && 0 < pageSize < 0x1_0000 && pageSize == 2 * pageWords
      && |nvm.buffer| == pageSize
      && sram.Length <= 0x1_0000
    }

    /** The extended pointers RAMPX:X and RAMPZ:Z. */
    ghost predicate XAt(a: nat)
      reads `x, `rampX
    {
      rampX as int * 0x1_0000 + x as int == a
    }

    ghost predicate ZAt(a: nat)
      reads `z, `rampZ
    {
      rampZ as int * 0x1_0000 + z as int == a
    }

    // ----- instructions

    /** sts CCP, r18 */
    method EnableSpm()
      modifies `spmEnabled
      ensures spmEnabled == (r18 == CCP_SPM)
    {
      spmEnabled := r18 == CCP_SPM;
    }

    /** spm */
    method Spm()
      requires Valid()
      requires nvmCmd == NVM_CMD_LOAD_FLASH_BUFFER ==> z as int + 1 < pageSize
      modifies `spmEnabled, `nvm
      ensures Valid()
      ensures nvm == if old(spmEnabled) then Issue(old(nvm), nvmCmd, rampZ, z, r0, r1, stray) else old(nvm)
    {
      if spmEnabled {
        nvm := Issue(nvm, nvmCmd, rampZ, z, r0, r1, stray);
      }
      spmEnabled := false;
    }

    /** The load of a byte through X+; X carries into RAMPX. */
    method LoadX(ghost a: nat) returns (b: byte)
      requires XAt(a) && a < sram.Length <= 0x1_0000
      modifies `x, `rampX
      ensures b == sram[a] && XAt(a + 1)
    {
      b := sram[x];
      if x == 0xFFFF {
        x, rampX := 0, 1;
      } else {
        x := x + 1;
      }
    }

    /** dec r21: wraps around, and the Z flag tells whether the result is 0. */
    method DecR21() returns (zero: bool)
      modifies `r21
      ensures r21 as int == (old(r21) as int - 1) % 256
      ensures zero == (r21 == 0)
    {
      r21 := if r21 == 0 then 255 else r21 - 1;
      zero := r21 == 0;
    }

    /** subi r21, 1 and sbci r22, 0: the second instruction takes the borrow of the first
        and can only keep the Z flag or clear it. */
    method DecR22R21() returns (zero: bool)
      modifies `r21, `r22
      ensures Pair(r22, r21) == (Pair(old(r22), old(r21)) - 1) % 0x1_0000
      ensures zero == (Pair(r22, r21) == 0)
    {
      var borrow := r21 == 0;
      r21 := if r21 == 0 then 255 else r21 - 1;
      zero := r21 == 0;
      if borrow {
        r22 := if r22 == 0 then 255 else r22 - 1;
      }
      zero := zero && r22 == 0;
    }

    // ----- src/sp_driver.S

    method SpWaitForSpm()
      modifies `r18, `nvmCmd, `nvm
      ensures old(Valid()) ==> Valid()
      ensures nvm == old(nvm).WaitForSpm() && nvmCmd == NVM_CMD_NO_OPERATION
    {
      nvm := nvm.WaitForSpm();
      r18 := 0;
      nvmCmd := r18;
    }

    method SpCommonSpm()
      requires Valid()
      requires r20 == NVM_CMD_LOAD_FLASH_BUFFER ==> Pair(r25, r24) as int + 1 < pageSize
      modifies `r1, `r18, `z, `rampZ, `nvmCmd, `spmEnabled, `nvm
      ensures Valid() && r1 == 0 && rampZ == r19 && nvmCmd == r20
      ensures nvm == Issue(old(nvm), r20, old(rampZ), Pair(r25, r24), r0, old(r1), stray)
    {
      hide Issue;
      z := Pair(r25, r24);
      nvmCmd := r20;
      r18 := CCP_SPM;
      EnableSpm();
      Spm();
      r1 := 0;
      rampZ := r19;
    }

    /** The address in the page is r25:r24 and the word is r23:r22. */
    method SpLoadFlashWord()
      requires Valid() && Pair(r25, r24) as int + 1 < pageSize
      modifies `r0, `r1, `r18, `r19, `r20, `z, `rampZ, `nvmCmd, `spmEnabled, `nvm
      ensures Valid() && r1 == 0 && rampZ == old(rampZ)
      ensures nvm == old(nvm).LoadFlashWord(Pair(r25, r24), r22, r23)
    {
      hide NvmController.Nvm.LoadFlashWord;
      r19 := rampZ;
      r1, r0 := r23, r22;
      r20 := NVM_CMD_LOAD_FLASH_BUFFER;
      SpCommonSpm();
    }

    method SpEraseFlashBuffer()
      requires Valid()
      modifies `r1, `r18, `r19, `r20, `z, `rampZ, `nvmCmd, `spmEnabled, `nvm
      ensures Valid() && r1 == 0 && rampZ == old(rampZ)
      ensures nvm == old(nvm).EraseFlashBuffer()
    {
      r19 := rampZ;
      r20 := NVM_CMD_ERASE_FLASH_BUFFER;
      SpCommonSpm();
    }

    /** The first instructions of the page commands: RAMPZ is saved and RAMPZ and r25:r24 take
        the page address. */
    method PointToPage()
      modifies `r19, `r24, `r25, `rampZ
      ensures r19 == old(rampZ) && rampZ == old(r24) && r25 == r23 && r24 == r22
    {
      r19 := rampZ;
      rampZ := r24;
      r25, r24 := r23, r22;
    }

    /** The page address is r25:r24:r23:r22, of which the top byte is not used. */
    method SpWriteApplicationPage()
      requires Valid()
      modifies `r1, `r18, `r19, `r20, `r24, `r25, `z, `rampZ, `nvmCmd, `spmEnabled, `nvm
      ensures Valid() && r1 == 0 && rampZ == old(rampZ)
      ensures nvm == old(nvm).WriteApplicationPage(Address(old(r24), r23, r22), stray)
    {
      PointToPage();
      r20 := NVM_CMD_WRITE_APP_PAGE;
      IssueAtPage(nvm, rampZ, r25, r24, (r0, r1), stray);
      hide *;
      SpCommonSpm();
    }

    method SpEraseApplicationPage()
      requires Valid()
      modifies `r1, `r18, `r19, `r20, `r24, `r25, `z, `rampZ, `nvmCmd, `spmEnabled, `nvm
      ensures Valid() && r1 == 0 && rampZ == old(rampZ)
      ensures nvm == old(nvm).EraseApplicationPage(Address(old(r24), r23, r22), stray)
    {
      PointToPage();
      r20 := NVM_CMD_ERASE_APP_PAGE;
      IssueAtPage(nvm, rampZ, r25, r24, (r0, r1), stray);
      hide *;
      SpCommonSpm();
    }

    /** The words still to be transferred: the counter is the byte r21 for pages of up to 512
        bytes, where 256 words start it at 0, and r22:r21 for larger ones. */
    ghost predicate Counts(words: nat)
      reads `r21, `r22
    {
      if pageSize > 512 then Pair(r22, r21) == words else r21 as int == words % 256
    }

    method SetCounter()
      requires pageSize < 0x1_0000 && pageSize == 2 * pageWords
      modifies `r21, `r22
      ensures Counts(pageWords)
      ensures pageSize <= 512 ==> r22 == old(r22)
    {
      if pageSize > 512 {
        r22 := pageSize / 2 / 256;
      }
      r21 := pageSize / 2 % 256;
    }

    method CountDown(ghost words: nat) returns (zero: bool)
      requires Counts(words) && 0 < words <= (if pageSize > 512 then 0x1_0000 - 1 else 256)
      modifies `r21, `r22
      ensures Counts(words - 1) && zero == (words == 1)
      ensures pageSize <= 512 ==> r22 == old(r22)
    {
      if pageSize > 512 {
        zero := DecR22R21();
      } else {
        zero := DecR21();
      }
    }

    /** One word from X to the page buffer: the word behind the n bytes already loaded of
        the page `data` at address `at`. */
    method LoadWord(ghost start: Nvm, ghost data: seq<byte>, ghost at: nat, ghost n: nat)
      requires Valid() && n + 2 <= pageSize == |data| == |start.buffer|
      requires at + pageSize <= sram.Length && data == sram[at..at + pageSize]
      requires nvmCmd == NVM_CMD_LOAD_FLASH_BUFFER && r18 == CCP_SPM
      requires z as int == n && XAt(at + n) && nvm == Loading(start, data, n)
      modifies `r0, `r1, `x, `z, `rampX, `spmEnabled, `nvm
      ensures Valid() && z as int == n + 2 && XAt(at + n + 2)
      ensures nvm == Loading(start, data, n + 2)
    {
      hide Loading, XAt, Valid, NvmController.Nvm.LoadFlashWord;
      LoadNext(start, data, n);
      r0 := LoadX(at + n);
      r1 := LoadX(at + n + 1);
      EnableSpm();
      Spm();
      z := z + 2;
    }

    /** The buffer is at r25:r24. */
    method SpLoadFlashPage()
      requires Valid() && r1 == 0
      requires Pair(r25, r24) as int + pageSize <= sram.Length
      modifies `r0, `r1, `r18, `r20, `r21, `r22, `x, `z, `rampX, `nvmCmd, `spmEnabled, `nvm
      ensures Valid() && r1 == 0
      ensures pageSize <= 512 ==> r22 == old(r22)
      ensures var at := Pair(r25, r24) as int; nvm == old(nvm).LoadFlashPage(old(sram[at..at + pageSize]))
    {
      hide Valid, Counts, Pair, NvmController.Nvm.LoadFlashPage;
      z := 0;
      rampX := r1;
      x := Pair(r25, r24);
      r20 := NVM_CMD_LOAD_FLASH_BUFFER;
      nvmCmd := r20;
      SetCounter();
      r18 := CCP_SPM;
      ghost var at := Pair(r25, r24) as int;
      LoadWords(sram[at..at + pageSize], at);
      r1 := 0;
    }

    /** The loop of SP_LoadFlashPage. */
    method LoadWords(ghost data: seq<byte>, ghost at: nat)
      requires Valid() && at + pageSize <= sram.Length && data == sram[at..at + pageSize]
      requires nvmCmd == NVM_CMD_LOAD_FLASH_BUFFER && r18 == CCP_SPM && z == 0 && XAt(at)
      requires Counts(pageWords)
      modifies `r0, `r1, `r21, `r22, `x, `z, `rampX, `spmEnabled, `nvm
      ensures Valid() && nvm == old(nvm).LoadFlashPage(data)
      ensures pageSize <= 512 ==> r22 == old(r22)
    {
      ghost var start, words := nvm, pageWords;
      ghost var i := 0;
      var zero := false;
      StartLoading(nvm, data);
      FinishLoading(nvm, data);
      assert LoadingAt(start, data, at, 0);
      assert data == sram[at..at + pageSize] && pageSize == 2 * words;
      hide *;
      while !zero
        invariant 0 <= i <= words && zero == (i == words)
        invariant LoadingAt(start, data, at, 2 * i) && Counts(words - i)
        invariant pageSize <= 512 ==> r22 == old(r22)
        decreases words - i
      {
        zero := LoadOne(start, data, at, 2 * i, words - i);
        i := i + 1;
      }
    }

    /** The state of the loop after n bytes of the page `data` at address `at`. */
    ghost predicate LoadingAt(start: Nvm, data: seq<byte>, at: nat, n: nat)
      reads `nvm, `nvmCmd, `r18, `x, `z, `rampX
      requires n <= |data| == |start.buffer|
      ensures LoadingAt(start, data, at, n) ==> Valid() && nvm == Loading(start, data, n)
    {
      && Valid() && nvmCmd == NVM_CMD_LOAD_FLASH_BUFFER && r18 == CCP_SPM
      && z as int == n && XAt(at + n) && nvm == Loading(start, data, n)
    }

    method LoadOne(ghost start: Nvm, ghost data: seq<byte>, ghost at: nat, ghost n: nat, ghost words: nat)
        returns (zero: bool)
      requires Valid() && n + 2 <= pageSize == |data| == |start.buffer| && LoadingAt(start, data, at, n)
      requires at + pageSize <= sram.Length && data == sram[at..at + pageSize]
      requires Counts(words) && 0 < words <= pageWords
      modifies `r0, `r1, `r21, `r22, `x, `z, `rampX, `spmEnabled, `nvm
      ensures LoadingAt(start, data, at, n + 2)
      ensures Counts(words - 1) && zero == (words == 1)
      ensures pageSize <= 512 ==> r22 == old(r22)
    {
      hide Counts, Loading, XAt;
      LoadWord(start, data, at, n);
      zero := CountDown(words);
    }

    /** The flash address is r23:r22:r21:r20 and the buffer is at r25:r24; pages are read by
        the two-byte word, and the counter is loaded from the page size, not from its half,
        unless the page is larger than 512 bytes. */
    method SpReadFlashPage()
      requires Valid() && r1 == 0
      requires Pair(r25, r24) as int + 2 * ReadCount(pageSize) <= sram.Length
      requires Address(r22, r21, r20) + 2 * ReadCount(pageSize) <= |nvm.flash| <= 0x100_0000
      modifies `r19, `r20, `r21, `r22, `r24, `r25, `x, `z, `rampX, `rampZ, `nvmCmd, sram
      ensures rampZ == old(rampZ)
      ensures var n, at := 2 * ReadCount(pageSize), Pair(old(r25), old(r24)) as int;
              var a := Address(old(r22), old(r21), old(r20));
              sram[..] == Copied(old(sram[..]), nvm.flash, a, at, n)
    {
      r19 := rampZ;
      rampZ := r22;
      z := Pair(r21, r20);
      rampX := r1;
      x := Pair(r25, r24);
      r20 := NVM_CMD_NO_OPERATION;
      nvmCmd := r20;
      ghost var a, at := Address(rampZ, r21, old(r20)), x as int;
      SetReadCounter();
      ReadWords(a, at);
      rampZ := r19;
    }

    method SetReadCounter()
      requires 0 < pageSize < 0x1_0000
      modifies `r21, `r22
      ensures Counts(ReadCount(pageSize))
    {
      if pageSize > 512 {
        r22 := pageSize / 2 / 256;
      }
      r21 := pageSize % 256;
    }

    /** The loop of SP_ReadFlashPage. */
    method ReadWords(ghost a: nat, ghost at: nat)
      requires Valid() && Counts(ReadCount(pageSize))
      requires XAt(at) && at + 2 * ReadCount(pageSize) <= sram.Length
      requires ZAt(a) && a + 2 * ReadCount(pageSize) <= |nvm.flash| <= 0x100_0000
      modifies `r21, `r22, `r24, `r25, `x, `z, `rampX, `rampZ, sram
      ensures var n := 2 * ReadCount(pageSize);
              sram[..] == Copied(old(sram[..]), nvm.flash, a, at, n)
    {
      ghost var words, memory := ReadCount(pageSize), sram[..];
      ghost var i := 0;
      var zero := false;
      assert sram[..] == Copied(memory, nvm.flash, a, at, 0);
      assert 0 < words <= (if pageSize > 512 then 0x1_0000 - 1 else 256);
      assert at + 2 * words <= |memory| == sram.Length && a + 2 * words <= |nvm.flash|;
      hide *;
      while !zero
        invariant 0 <= i <= words && zero == (i == words)
        invariant XAt(at + 2 * i)
        invariant i < words ==> ZAt(a + 2 * i)
        invariant Counts(words - i)
        invariant sram[..] == Copied(memory, nvm.flash, a, at, 2 * i)
        decreases words - i
      {
        zero := ReadOne(memory, a, at, 2 * i, words - i);
        i := i + 1;
      }
    }

    method ReadOne(ghost memory: seq<byte>, ghost a: nat, ghost at: nat, ghost n: nat, ghost words: nat)
        returns (zero: bool)
      requires XAt(at + n) && at + n + 2 <= |memory| == sram.Length <= 0x1_0000
      requires ZAt(a + n) && a + n + 2 <= |nvm.flash| <= 0x100_0000
      requires sram[..] == Copied(memory, nvm.flash, a, at, n)
      requires Counts(words) && 0 < words <= (if pageSize > 512 then 0x1_0000 - 1 else 256)
      modifies `r21, `r22, `r24, `r25, `x, `z, `rampX, `rampZ, sram
      ensures XAt(at + n + 2) && (a + n + 2 < 0x100_0000 ==> ZAt(a + n + 2))
      ensures sram[..] == Copied(memory, nvm.flash, a, at, n + 2)
      ensures Counts(words - 1) && zero == (words == 1)
    {
      hide *;
      CopyWord(memory, a, at, n);
      zero := CountDown(words);
    }

    /** elpm through Z+; Z carries into RAMPZ, which wraps around at 24 bits. */
    method LoadZ(ghost a: nat) returns (b: byte)
      requires ZAt(a) && a < |nvm.flash|
      modifies `z, `rampZ
      ensures b == nvm.flash[a]
      ensures a + 1 < 0x100_0000 ==> ZAt(a + 1)
    {
      b := nvm.flash[rampZ as int * 0x1_0000 + z as int];
      if z == 0xFFFF {
        z := 0;
        rampZ := if rampZ == 255 then 0 else rampZ + 1;
      } else {
        z := z + 1;
      }
    }

    /** The store of a byte through X+. */
    method StoreX(b: byte, ghost a: nat)
      requires XAt(a) && a < sram.Length <= 0x1_0000
      modifies `x, `rampX, sram
      ensures sram[..] == old(sram[..])[a := b] && XAt(a + 1)
    {
      sram[x] := b;
      if x == 0xFFFF {
        x, rampX := 0, 1;
      } else {
        x := x + 1;
      }
    }

    method CopyWord(ghost memory: seq<byte>, ghost a: nat, ghost at: nat, ghost n: nat)
      requires XAt(at + n) && at + n + 2 <= |memory| == sram.Length <= 0x1_0000
      requires ZAt(a + n) && a + n + 2 <= |nvm.flash| <= 0x100_0000
      requires sram[..] == Copied(memory, nvm.flash, a, at, n)
      modifies `r24, `r25, `x, `z, `rampX, `rampZ, sram
      ensures XAt(at + n + 2) && (a + n + 2 < 0x100_0000 ==> ZAt(a + n + 2))
      ensures sram[..] == Copied(memory, nvm.flash, a, at, n + 2)
    {
      hide XAt, ZAt, Copied;
      r24 := LoadZ(a + n);
      r25 := LoadZ(a + n + 1);
      StoreX(r24, at + n);
      StoreX(r25, at + n + 1);
      CopyNext(memory, nvm.flash, a, at, n);
    }

    // ----- src/spm_interface.S

    method Push(r: byte)
      modifies `stack
      ensures stack == old(stack) + [r]
    {
      stack := stack + [r];
    }

    method Pop() returns (r: byte)
      requires stack != []
      modifies `stack
      ensures old(stack) == stack + [r]
    {
      r := stack[|stack| - 1];
      stack := stack[..|stack| - 1];
    }

    method PushAddress()
      modifies `stack
      ensures stack == old(stack) + [r23, r22, r21, r20]
    {
      Push(r23);
      Push(r22);
      Push(r21);
      Push(r20);
    }

    /** The pops of write_application_page_fn. */
    method PopAddress()
      requires |stack| >= 4
      modifies `stack, `r22, `r23, `r24, `r25
      ensures old(stack) == stack + [r25, r24, r23, r22]
    {
      r22 := Pop();
      r23 := Pop();
      r24 := Pop();
      r25 := Pop();
    }

    /** The calls of write_application_page_fn between the pushes and the pops. */
    method FlushAndLoad(ghost data: seq<byte>)
      requires Valid() && Pair(r25, r24) as int + pageSize <= sram.Length
      requires data == sram[Pair(r25, r24)..Pair(r25, r24) as int + pageSize]
      modifies `r0, `r1, `r18, `r19, `r20, `r21, `r22, `x, `z, `rampX, `rampZ, `nvmCmd, `spmEnabled, `nvm
      ensures Valid() && rampZ == old(rampZ)
      ensures nvm == Loaded(old(nvm), data)
    {
      hide Valid, Blank, Pair, NvmController.Nvm.LoadFlashPage, NvmController.Nvm.EraseFlashBuffer;
      SpEraseFlashBuffer();
      SpWaitForSpm();

      SpLoadFlashPage();
      SpWaitForSpm();
    }

    /** erase_application_page_fn: the flash address is r25:r24:r23:r22. */
    method EraseApplicationPageFn()
      requires Valid()
      modifies `r1, `r18, `r19, `r20, `r24, `r25, `z, `rampZ, `nvmCmd, `spmEnabled, `nvm
      ensures Valid() && rampZ == old(rampZ) && r1 == 0
      ensures nvmCmd == NVM_CMD_NO_OPERATION && !nvm.busy && nvm.buffer == old(nvm.buffer)
      ensures nvm.misused == (old(nvm.misused) || old(nvm.busy))
      ensures var a := Address(old(r24), old(r23), old(r22));
              nvm.flash == PageErased(old(nvm.flash), PageOf(a, pageSize), pageSize, stray)
      ensures var a := Address(old(r24), old(r23), old(r22));
              ErasesPage(old(nvm.flash), nvm.flash, a, pageSize)
    {
      ErasesOnePage(nvm.flash, Address(r24, r23, r22), pageSize, stray);
      hide PageErased, PageOf, ErasesPage, Address;
      SpEraseApplicationPage();
      SpWaitForSpm();
      r18 := NVM_CMD_NO_OPERATION;
      nvmCmd := r18;
    }

    /** write_application_page_fn: the buffer is at r25:r24 and the flash address, which may
        lie anywhere inside the page, is r23:r22:r21:r20. The calls in between clobber r18 to
        r22, X and Z, so the address travels over the stack and comes back two registers up. */
    method WriteApplicationPageFn()
      requires Valid() && Pair(r25, r24) as int + pageSize <= sram.Length
      modifies this
      ensures Valid() && rampZ == old(rampZ) && r1 == 0 && stack == old(stack) && nvmCmd == NVM_CMD_NO_OPERATION
      ensures var at, a := Pair(old(r25), old(r24)) as int, Address(old(r22), old(r21), old(r20));
              nvm == PageWritten(old(nvm), old(sram[at..at + pageSize]), a, stray)
      ensures var at, a := Pair(old(r25), old(r24)) as int, Address(old(r22), old(r21), old(r20));
              ProgramsPage(old(nvm.flash), nvm.flash, a, old(sram[at..at + pageSize]))
    {
      ghost var at, a := Pair(r25, r24) as int, Address(r22, r21, r20);
      ghost var data := sram[at..at + pageSize];
      WritePageSequence(nvm, data, a, stray);
      ProgramsOnePage(nvm, data, a, stray);
      hide *;
      PushAddress();
      assert Pair(r25, r24) as int == at && sram[at..at + pageSize] == data;
      FlushAndLoad(data);
      PopAndWrite(old(stack), old(r23), old(r22), old(r21), old(r20));
    }

    /** The rest of write_application_page_fn, with the pushed address on the stack. */
    method PopAndWrite(ghost under: seq<byte>, ghost b3: byte, ghost b2: byte, ghost b1: byte, ghost b0: byte)
      requires Valid() && stack == under + [b3, b2, b1, b0]
      modifies `r1, `r18, `r19, `r20, `r22, `r23, `r24, `r25, `z, `rampZ, `stack, `nvmCmd, `spmEnabled, `nvm
      ensures Valid() && r1 == 0 && rampZ == old(rampZ) && stack == under && nvmCmd == NVM_CMD_NO_OPERATION
      ensures nvm == old(nvm).WriteApplicationPage(Address(b2, b1, b0), stray).WaitForSpm()
    {
      hide *;
      PopAddress();
      SameParts(stack, [r25, r24, r23, r22], under, [b3, b2, b1, b0]);
      assert r25 == b3 && r24 == b2 && r23 == b1 && r22 == b0;
      SpWriteApplicationPage();
      SpWaitForSpm();

      r18 := NVM_CMD_NO_OPERATION;
      nvmCmd := r18;
    }
  }

  lemma SameParts(a: seq<byte>, b: seq<byte>, c: seq<byte>, d: seq<byte>)
    requires a + b == c + d && |b| == |d|
    ensures a == c && b == d
  {
    assert a == (a + b)[..|a|] && b == (a + b)[|a|..];
    assert c == (c + d)[..|c|] && d == (c + d)[|c|..];
  }

  /** The controller after a flush and the load of a page. */
  function Loaded(n: Nvm, data: seq<byte>): (r: Nvm)
    requires |data| == |n.buffer|
    ensures |r.buffer| == |n.buffer|
  {
    n.EraseFlashBuffer().WaitForSpm().LoadFlashPage(data).WaitForSpm()
  }

  /** The controller after a page has been written: the page that contains the address holds
      its old contents ANDed with the data, and the controller is idle and its buffer blank. It
      has been misused only if it was busy before. */
  function PageWritten(n: Nvm, data: seq<byte>, a: nat, stray: StrayWrite): Nvm
    requires |data| == |n.buffer| > 0
  {
    Nvm(Programmed(n.flash, PageOf(a, |data|), data, stray), Blank(|data|), false, n.misused || n.busy)
  }

  /** If the page that contains the address lies in the application section: its bytes are
      erased, and no other byte changes. */
  ghost predicate ErasesPage(was: seq<byte>, now: seq<byte>, a: nat, p: nat)
    requires 0 < p
  {
    a / p * p + p <= |was| ==>
      && |now| == |was|
      && forall i :: 0 <= i < |was| ==> now[i] == if i / p == a / p then 255 else was[i]
  }

  lemma ErasesOnePage(flash: seq<byte>, a: nat, p: nat, stray: StrayWrite)
    requires 0 < p
    ensures ErasesPage(flash, PageErased(flash, PageOf(a, p), p, stray), a, p)
  {
    if a / p * p + p <= |flash| { PageErasedExactly(flash, a, p, stray); }
  }

  /** If that page lies in the application section: a bit of it stays set only where the data has
      it set, and no other byte changes. */
  ghost predicate ProgramsPage(was: seq<byte>, now: seq<byte>, a: nat, data: seq<byte>)
    requires 0 < |data|
  {
    var p := |data|;
    a / p * p + p <= |was| ==>
      && |now| == |was|
      && forall i :: 0 <= i < |was| ==>
           if i / p == a / p then IsAnd(now[i], was[i], data[i % p]) else now[i] == was[i]
  }

  lemma ProgramsOnePage(n: Nvm, data: seq<byte>, a: nat, stray: StrayWrite)
    requires |data| == |n.buffer| > 0
    ensures ProgramsPage(n.flash, PageWritten(n, data, a, stray).flash, a, data)
  {
    if a / |data| * |data| + |data| <= |n.flash| { PageProgrammedExactly(n.flash, a, data, stray); }
  }

  /** Flush, load and write, each waited for, program exactly the loaded page. */
  lemma WritePageSequence(n: Nvm, data: seq<byte>, a: nat, stray: StrayWrite)
    requires |data| == |n.buffer| > 0
    ensures Loaded(n, data).WriteApplicationPage(a, stray).WaitForSpm() == PageWritten(n, data, a, stray)
  {
    hide Programmed, PageOf, AndAt;
    LoadsBlank(data);
  }

  /** The memory after n bytes of flash from address a have been copied to address `at`. */
  function Copied(memory: seq<byte>, flash: seq<byte>, a: nat, at: nat, n: nat): seq<byte>
    requires a + n <= |flash| && at + n <= |memory|
  {
    memory[..at] + flash[a..a + n] + memory[at + n..]
  }

  /** The copy byte by byte: nothing else in memory changes. */
  lemma CopiedBytes(memory: seq<byte>, flash: seq<byte>, a: nat, at: nat, n: nat)
    requires a + n <= |flash| && at + n <= |memory|
    ensures var r := Copied(memory, flash, a, at, n);
            && |r| == |memory|
            && forall i :: 0 <= i < |r| ==> r[i] == if at <= i < at + n then flash[a + (i - at)] else memory[i]
  {
  }

  lemma CopyNext(memory: seq<byte>, flash: seq<byte>, a: nat, at: nat, n: nat)
    requires a + n + 2 <= |flash| && at + n + 2 <= |memory|
    ensures Copied(memory, flash, a, at, n)[at + n := flash[a + n]][at + n + 1 := flash[a + n + 1]]
         == Copied(memory, flash, a, at, n + 2)
  {
  }

  /** The number of words SP_ReadFlashPage copies. */
  function ReadCount(pageSize: nat): (n: nat)
    requires 0 < pageSize < 0x1_0000
    ensures 0 < n
  {
    if pageSize > 512 then pageSize / 2 / 256 * 256 + pageSize % 256
    else if pageSize % 256 == 0 then 256
    else pageSize % 256
  }

  /** SP_ReadFlashPage copies exactly one page if and only if the page size is a multiple of
      512; of a page of up to 256 bytes it copies the double. */
  lemma ReadCountExact(pageSize: nat)
    requires 0 < pageSize < 0x1_0000 && pageSize % 2 == 0
    ensures 2 * ReadCount(pageSize) == pageSize <==> pageSize % 512 == 0
    ensures pageSize <= 256 ==> 2 * ReadCount(pageSize) == 2 * pageSize
    ensures pageSize > 512 ==> ReadCount(pageSize) == pageSize / 2 - pageSize / 2 % 256 + pageSize % 256
  {
    var q, r := pageSize / 512, pageSize % 512;
    assert pageSize / 2 / 256 == q;
    assert pageSize % 256 == if r < 256 then r else r - 256;
  }

  /** The controller after the first n bytes of a page have been loaded word by word. */
  function Loading(start: Nvm, data: seq<byte>, n: nat): Nvm
    requires n <= |data| == |start.buffer|
  {
    start.(buffer := AndAt(start.buffer, 0, data[..n]),
           misused := start.misused || (n > 0 && start.busy) || start.buffer[..n] != Blank(n))
  }

  lemma StartLoading(start: Nvm, data: seq<byte>)
    requires |data| == |start.buffer|
    ensures Loading(start, data, 0) == start
  {
    assert AndAt(start.buffer, 0, []) == start.buffer;
  }

  lemma LoadNext(start: Nvm, data: seq<byte>, n: nat)
    requires n + 2 <= |data| == |start.buffer|
    ensures Loading(start, data, n).LoadFlashWord(n, data[n], data[n + 1]) == Loading(start, data, n + 2)
  {
    BlankNext(start.buffer, n);
    AndAtNext(start.buffer, data, n);
    hide AndAt, AndByte, Blank;
    assert AndAt(start.buffer, 0, data[..n])[n] == start.buffer[n] by { AndAtBeyond(start.buffer, data, n); }
    assert AndAt(start.buffer, 0, data[..n])[n + 1] == start.buffer[n + 1] by { AndAtBeyond(start.buffer, data, n); }
  }

  lemma AndAtBeyond(buffer: seq<byte>, data: seq<byte>, n: nat)
    requires n + 2 <= |data| == |buffer|
    ensures AndAt(buffer, 0, data[..n])[n] == buffer[n]
    ensures AndAt(buffer, 0, data[..n])[n + 1] == buffer[n + 1]
  {
  }

  lemma AndAtNext(buffer: seq<byte>, data: seq<byte>, n: nat)
    requires n + 2 <= |data| == |buffer|
    ensures var b := AndAt(buffer, 0, data[..n]);
            b[n := AndByte(b[n], data[n])][n + 1 := AndByte(b[n + 1], data[n + 1])] == AndAt(buffer, 0, data[..n + 2])
  {
    hide AndByte;
  }

  lemma BlankNext(buffer: seq<byte>, n: nat)
    requires n + 2 <= |buffer|
    ensures buffer[..n + 2] == Blank(n + 2) <==> buffer[..n] == Blank(n) && buffer[n] == 255 && buffer[n + 1] == 255
  {
    var w := buffer[..n + 2];
    assert w[..n] == buffer[..n];
    if w == Blank(n + 2) {
      assert forall i | 0 <= i < n :: w[i] == 255;
      assert w[n] == 255 && w[n + 1] == 255;
    }
  }

  lemma FinishLoading(start: Nvm, data: seq<byte>)
    requires |data| == |start.buffer|
    ensures Loading(start, data, |data|) == start.LoadFlashPage(data)
  {
    assert data[..|data|] == data && start.buffer[..|data|] == start.buffer;
  }
}
