/** The non-volatile memory controller, as far as the bootloader uses it.

    The hardware assumptions of the whole model are stated here and nowhere else:
    - erasing the application section, or one of its pages, sets every byte to 0xFF;
    - loading a word into the page buffer and writing the page buffer to flash can only
      clear bits, so both need an erased target;
    - the page buffer is blank after it has been flushed and after each page write;
    - erasing, flushing and writing leave the controller busy until it has been waited
      for; the CRC command halts the CPU, so it ends idle.
    A command issued to a busy controller, or a load into a page buffer location that is
    not blank, is recorded in `misused`, which no operation ever clears. */
module NvmController {
  import opened Bits
  import opened Multiples

  /** `flash` is the application section and `buffer` the page buffer. */
  datatype Nvm = Nvm(flash: seq<byte>, buffer: seq<byte>, busy: bool, misused: bool)
  {
    /** SP_WaitForSPM */
    function WaitForSpm(): Nvm {
      this.(busy := false)
    }

    /** SP_EraseApplicationSection */
    function EraseApplicationSection(): Nvm {
      this.(flash := Blank(|flash|), busy := true, misused := misused || busy)
    }

    /** SP_EraseFlashBuffer */
    function EraseFlashBuffer(): Nvm {
      this.(buffer := Blank(|buffer|), busy := true, misused := misused || busy)
    }

    /** The load command on the word at byte offset z of the page buffer. */
    function LoadFlashWord(z: nat, lo: byte, hi: byte): Nvm
      requires z + 1 < |buffer|
    {
      this.(buffer := buffer[z := AndByte(buffer[z], lo)][z + 1 := AndByte(buffer[z + 1], hi)],
            misused := misused || busy || buffer[z] != 255 || buffer[z + 1] != 255)
    }

    /** SP_LoadFlashPage: one load command for every word of the page. */
    function LoadFlashPage(data: seq<byte>): Nvm
      requires |data| == |buffer|
    {
      this.(buffer := AndAt(buffer, 0, data),
            misused := misused || (|buffer| > 0 && busy) || buffer != Blank(|buffer|))
    }

    /** SP_EraseApplicationPage at any address inside the page. */
    function EraseApplicationPage(address: nat, stray: StrayWrite): Nvm
      requires |buffer| > 0
    {
      this.(flash := PageErased(flash, PageOf(address, |buffer|), |buffer|, stray),
            busy := true,
            misused := misused || busy)
    }

    /** SP_WriteApplicationPage at any address inside the page. What a write or
        an erase addressed beyond the application section does to it is left to the
        parameter `stray`. */
    function WriteApplicationPage(address: nat, stray: StrayWrite): Nvm
      requires |buffer| > 0
    {
      this.(flash := Programmed(flash, PageOf(address, |buffer|), buffer, stray),
            buffer := Blank(|buffer|), busy := true, misused := misused || busy)
    }

    /** SP_ApplicationCRC and SP_BootCRC */
    function RunCrc(): Nvm {
      this.(misused := misused || busy)
    }
  }

  /** A command issued to a busy controller is noticed, and so is a load over what has been loaded. */
  lemma MisuseNoticed(n: Nvm, z: nat, lo: byte, hi: byte, a: nat, stray: StrayWrite)
    requires z + 1 < |n.buffer|
    ensures var ok := !n.misused && !n.busy;
            && (!n.EraseApplicationSection().misused <==> ok) && (!n.EraseFlashBuffer().misused <==> ok)
            && (!n.EraseApplicationPage(a, stray).misused <==> ok)
            && (!n.WriteApplicationPage(a, stray).misused <==> ok)
            && (!n.RunCrc().misused <==> ok)
            && (!n.LoadFlashWord(z, lo, hi).misused <==> ok && n.buffer[z] == 255 && n.buffer[z + 1] == 255)
    ensures n.EraseApplicationSection().busy && n.EraseFlashBuffer().busy
    ensures n.EraseApplicationPage(a, stray).busy && n.WriteApplicationPage(a, stray).busy
    ensures !n.WaitForSpm().busy && n.WaitForSpm().misused == n.misused
  {
    hide PageErased, Programmed, PageOf, AndByte;
  }

  type StrayWrite = (seq<byte>, nat, seq<byte>) -> seq<byte>

  /** The first address of the page that contains an address. */
  function PageOf(address: nat, pageSize: nat): nat
    requires 0 < pageSize
  {
    Whole(address, pageSize)
  }

  /** It is the page that contains the address. */
  lemma PageContains(address: nat, p: nat)
    requires 0 < p
    ensures Aligned(PageOf(address, p), p) && PageOf(address, p) <= address < PageOf(address, p) + p
    ensures PageOf(address, p) == address / p * p
  {
    Remainder(address, p);
    WholeIsMultiple(address, p);
  }

  /** The addresses of a page are those with its number. */
  lemma SamePage(i: nat, address: nat, p: nat)
    requires 0 < p
    ensures i / p == address / p <==> PageOf(address, p) <= i < PageOf(address, p) + p
    ensures i / p == address / p ==> i - PageOf(address, p) == i % p
  {
    PageContains(address, p);
    PageContains(i, p);
    Remainder(i, p);
    hide PageOf, Aligned;
    if PageOf(address, p) <= i < PageOf(address, p) + p { OnePage(PageOf(i, p), PageOf(address, p), i, p); }
    if i / p != address / p { QuotientsDiffer(i / p, address / p, p); }
  }

  lemma OnePage(m: nat, n: nat, i: nat, p: nat)
    requires 0 < p && Aligned(m, p) && Aligned(n, p) && m <= i < m + p && n <= i < n + p
    ensures m == n
  {
    hide Aligned;
    if m < n { Gap(m, n, p); }
    if n < m { Gap(n, m, p); }
  }

  lemma QuotientsDiffer(a: nat, b: nat, p: nat)
    requires 0 < p && a != b
    ensures a * p != b * p
  {
    if a < b { Increasing(a, b, p); } else { Increasing(b, a, p); }
  }

  lemma {:induction false} Increasing(a: nat, b: nat, p: nat)
    requires 0 < p && a < b
    ensures a * p < b * p
  {
    assert (b - 1) * p == b * p - p;
    if a < b - 1 { Increasing(a, b - 1, p); }
  }

  /** The memory after data has been programmed from address a on. */
  function AndAt(memory: seq<byte>, a: nat, data: seq<byte>): (r: seq<byte>)
    ensures |r| == |memory|
  {
    seq(|memory|, i requires 0 <= i < |memory| =>
      if a <= i < a + |data| then AndByte(memory[i], data[i - a]) else memory[i])
  }

  function Programmed(flash: seq<byte>, page: nat, data: seq<byte>, stray: StrayWrite): (r: seq<byte>)
    ensures |r| == |flash|
  {
    if page + |data| <= |flash| then AndAt(flash, page, data)
    else
      var after := stray(flash, page, data);
      if |after| == |flash| then after else flash
  }

  function PageErased(flash: seq<byte>, page: nat, size: nat, stray: StrayWrite): (r: seq<byte>)
    ensures |r| == |flash|
  {
    if page + size <= |flash| then flash[..page] + Blank(size) + flash[page + size..]
    else
      var after := stray(flash, page, Blank(size));
      if |after| == |flash| then after else flash
  }

  /** A page that is erased and then programmed holds the data; all others are untouched. */
  lemma ErasedThenProgrammed(flash: seq<byte>, page: nat, data: seq<byte>, stray: StrayWrite)
    requires page + |data| <= |flash|
    ensures Programmed(PageErased(flash, page, |data|, stray), page, data, stray)
         == flash[..page] + data + flash[page + |data|..]
  {
    var erased := PageErased(flash, page, |data|, stray);
    ProgrammedInside(erased, page, data, stray);
    AndAtBlank(erased, page, data);
    assert erased[..page] == flash[..page] && erased[page + |data|..] == flash[page + |data|..];
  }

  /** Erasing the page of an address changes the bytes with its page number, and no others. */
  lemma PageErasedExactly(flash: seq<byte>, address: nat, p: nat, stray: StrayWrite)
    requires 0 < p && address / p * p + p <= |flash|
    ensures forall i :: 0 <= i < |flash| ==>
              PageErased(flash, PageOf(address, p), p, stray)[i] == if i / p == address / p then 255 else flash[i]
  {
    PageContains(address, p);
    hide PageOf;
    forall i | 0 <= i < |flash|
      ensures PageErased(flash, PageOf(address, p), p, stray)[i] == if i / p == address / p then 255 else flash[i]
    {
      SamePage(i, address, p);
    }
  }

  lemma PageProgrammedExactly(flash: seq<byte>, address: nat, data: seq<byte>, stray: StrayWrite)
    requires 0 < |data| && address / |data| * |data| + |data| <= |flash|
    ensures var p := |data|;
            forall i :: 0 <= i < |flash| ==>
              var b := Programmed(flash, PageOf(address, p), data, stray)[i];
              if i / p == address / p then IsAnd(b, flash[i], data[i % p]) else b == flash[i]
  {
    var p := |data|;
    PageContains(address, p);
    hide PageOf, AndByte, IsAnd;
    forall i | 0 <= i < |flash|
      ensures var b := Programmed(flash, PageOf(address, p), data, stray)[i];
              if i / p == address / p then IsAnd(b, flash[i], data[i % p]) else b == flash[i]
    {
      SamePage(i, address, p);
      if i / p == address / p { AndByteBits(flash[i], data[i % p]); }
    }
  }

  /** Inside the application section the page is programmed and nothing else changes. */
  lemma ProgrammedInside(flash: seq<byte>, a: nat, data: seq<byte>, stray: StrayWrite)
    requires a + |data| <= |flash|
    ensures Programmed(flash, a, data, stray) == AndAt(flash, a, data)
  {
  }

  /** Programming erased memory stores the data. */
  lemma AndAtBlank(memory: seq<byte>, a: nat, data: seq<byte>)
    requires a + |data| <= |memory|
    requires forall i :: a <= i < a + |data| ==> memory[i] == 255
    ensures AndAt(memory, a, data) == memory[..a] + data + memory[a + |data|..]
  {
    hide *;
    forall i | 0 <= i < |memory|
      ensures AndAt(memory, a, data)[i] == if a <= i < a + |data| then data[i - a] else memory[i]
    {
      AndAtByte(memory, a, data, i);
    }
    Spliced(AndAt(memory, a, data), memory, a, data);
  }

  lemma AndAtByte(memory: seq<byte>, a: nat, data: seq<byte>, i: nat)
    requires i < |memory| && (a <= i < a + |data| ==> memory[i] == 255)
    ensures AndAt(memory, a, data)[i] == if a <= i < a + |data| then data[i - a] else memory[i]
  {
    hide AndByte;
    if a <= i < a + |data| { AndErased(data[i - a]); }
  }

  lemma Spliced(r: seq<byte>, memory: seq<byte>, a: nat, data: seq<byte>)
    requires |r| == |memory| && a + |data| <= |memory|
    requires forall i :: 0 <= i < |r| ==> r[i] == if a <= i < a + |data| then data[i - a] else memory[i]
    ensures r == memory[..a] + data + memory[a + |data|..]
  {
  }

  /** Programming two adjacent stretches is programming their concatenation. */
  lemma AndAtAppend(memory: seq<byte>, a: nat, d: seq<byte>, e: seq<byte>)
    ensures AndAt(AndAt(memory, a, d), a + |d|, e) == AndAt(memory, a, d + e)
  {
  }

  /** Loading a page into the blank page buffer leaves the page there. */
  lemma LoadsBlank(page: seq<byte>)
    ensures AndAt(Blank(|page|), 0, page) == page
  {
    AndAtBlank(Blank(|page|), 0, page);
  }
}
