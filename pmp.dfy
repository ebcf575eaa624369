/**
 * Helpers for the RISC-V physical memory protection unit (section 3.7 of the
 * RISC-V Privileged Architecture, version 20211203), over the native register
 * file: sixteen 32-bit `pmpcfg` registers, each packing four one-byte
 * `pmpXcfg` fields, and the `pmpaddr` registers, which hold bits 33..2 of an
 * address. NAPOT ("naturally aligned power of two") regions encode their
 * size in the trailing one bits of the address register.
 */
module Pmp {

  type Word = bv32

  /** Permission and lock bits of a `pmpXcfg` byte. */
  const PMP_R: bv8 := 0x01
  const PMP_W: bv8 := 0x02
  const PMP_X: bv8 := 0x04
  const PMP_L: bv8 := 0x80
  /** The address-matching field A (bits 4..3) and its four values. */
  const PMP_A: bv8 := 0x18
  const PMP_OFF: bv8 := 0x00
  const PMP_TOR: bv8 := 0x08
  const PMP_NA4: bv8 := 0x10
  const PMP_NAPOT: bv8 := 0x18

  /** Size of the native `pmp_regs` and `pmp_addr` arrays. */
  const CFG_WORDS: nat := 16
  const ADDR_WORDS: nat := 64
  // The accessors accept register numbers below 16 and entry numbers below 64;
  // the bounds are written as literals in their preconditions.

  /** The bit offset `8 * k` of byte `k` (0 = least significant) of a 32-bit register. */
  function ByteShift(k: nat): (s: bv5)
    requires k < 4
    ensures s == 0 || s == 8 || s == 16 || s == 24
  {
    if k == 0 then 0 else if k == 1 then 8 else if k == 2 then 16 else 24
  }

  /** Different bytes sit at different offsets. */
  lemma ByteShiftInjective(k: nat, j: nat)
    requires k < 4 && j < 4 && k != j
    ensures ByteShift(k) != ByteShift(j)
  {
  }

  /** The byte at offset `s` of a `pmpcfg` word: the field of one entry. */
  function CfgByte(w: Word, s: bv5): (b: bv8)
  {
    ((w >> s) & 0xFF) as bv8
  }

  /** A `pmpcfg` word with the byte at offset `s` replaced by `mode`. */
  function SetByte(w: Word, s: bv5, mode: bv8): (r: Word)
  {
    (w & !((0xFF as Word) << s)) | ((mode as Word) << s)
  }

  /** Replacing one byte of a word puts `mode` there and keeps the other three bytes. */
  lemma SetByteReplacesOne(w: Word, s: bv5, t: bv5, mode: bv8)
    requires s in {0, 8, 16, 24} && t in {0, 8, 16, 24}
    ensures CfgByte(SetByte(w, s, mode), s) == mode
    ensures s != t ==> CfgByte(SetByte(w, s, mode), t) == CfgByte(w, t)
  {
  }

  /** A power of two, as a 32-bit value. */
  predicate IsPow2(x: Word) {
    x != 0 && x & (x - 1) == 0
  }

  /** Reference decoding of a NAPOT register value: the trailing one bits of `a >> 2` cleared, then shifted back. */
  function NapotBaseOf(a: Word): (r: Word)
  {
    ((a >> 2) & ((a >> 2) + 1)) << 2
  }

  /** Reference decoding of the NAPOT size: 8 times the lowest zero bit of `a >> 2`, in 32-bit arithmetic. */
  function NapotRangeOf(a: Word): (r: Word)
  {
    (!(a >> 2) & ((a >> 2) + 1)) << 3
  }

  /** Multiplying by 8 in 32-bit arithmetic is a shift by 3. */
  lemma TimesEight(x: Word)
    ensures x * 8 == x << 3
  {
  }

  /** The decoded base lies at or below the register value and is word aligned; the size is a power of two of at least 8, or has wrapped to 0. */
  lemma NapotDecodeShape(a: Word)
    ensures NapotBaseOf(a) <= a && NapotBaseOf(a) & 3 == 0
    ensures NapotRangeOf(a) == 0 || (IsPow2(NapotRangeOf(a)) && NapotRangeOf(a) >= 8)
  {
  }

  /** Loop state of `_NAPOT_base`: the one bits of `a0` below `mask` are all set and have been cleared in `a`. */
  ghost predicate BaseScan(a0: Word, a: Word, mask: Word) {
    IsPow2(mask) && mask <= 0x4000_0000 && a0 < 0x4000_0000
    && a0 & (mask - 1) == mask - 1 && a == a0 & !(mask - 1)
  }

  lemma BaseScanStart(addr: Word)
    ensures BaseScan(addr >> 2, addr >> 2, 1)
  {
  }

  lemma BaseScanStep(a0: Word, a: Word, mask: Word)
    requires BaseScan(a0, a, mask) && a & mask != 0
    ensures BaseScan(a0, a & !mask, mask << 1)
    ensures 0x8000_0000 - (mask << 1) < 0x8000_0000 - mask
  {
  }

  lemma BaseScanDone(addr: Word, a0: Word, a: Word, mask: Word)
    requires a0 == addr >> 2 && BaseScan(a0, a, mask) && a & mask == 0
    ensures a << 2 == NapotBaseOf(addr)
  {
    assert a0 & mask == 0;
    TrailingOnesCleared(a0, mask);
  }

  /** With the ones below `mask` set and the bit at `mask` clear, `a0 & (a0 + 1)` clears exactly those ones. */
  lemma TrailingOnesCleared(a0: Word, mask: Word)
    requires IsPow2(mask) && a0 & (mask - 1) == mask - 1 && a0 & mask == 0
    ensures a0 & (a0 + 1) == a0 & !(mask - 1)
  {
  }

  /** `_NAPOT_base`: clears the trailing ones of `addr >> 2` one bit at a time. */
  method NapotBase(addr: Word) returns (r: Word)
    ensures r == NapotBaseOf(addr)
  {
    var a := addr >> 2;
    ghost var a0 := a;
    var mask: Word := 1;
    BaseScanStart(addr);
    while a & mask != 0
      invariant BaseScan(a0, a, mask)
      decreases 0x8000_0000 - mask
    {
      BaseScanStep(a0, a, mask);
      a := a & !mask;
      mask := mask << 1;
    }
    BaseScanDone(addr, a0, a, mask);
    r := a << 2;
  }

  /** Loop state of `_NAPOT_range`: the bits of `a` below `mask` are all set. */
  ghost predicate RangeScan(a: Word, mask: Word) {
    IsPow2(mask) && mask <= 0x4000_0000 && a < 0x4000_0000 && a & (mask - 1) == mask - 1
  }

  lemma RangeScanStart(addr: Word)
    ensures RangeScan(addr >> 2, 1)
  {
  }

  lemma RangeScanStep(a: Word, mask: Word)
    requires RangeScan(a, mask) && a & mask != 0
    ensures RangeScan(a, mask << 1)
    ensures 0x8000_0000 - (mask << 1) < 0x8000_0000 - mask
  {
  }

  lemma RangeScanDone(addr: Word, mask: Word)
    requires RangeScan(addr >> 2, mask) && (addr >> 2) & mask == 0
    ensures mask << 3 == NapotRangeOf(addr)
  {
  }

  /** `_NAPOT_range`: doubles a one-bit mask across the trailing ones of `addr >> 2`, then scales by 8. */
  method NapotRange(addr: Word) returns (r: Word)
    ensures r == NapotRangeOf(addr)
    ensures r == 0 || (IsPow2(r) && r >= 8)
  {
    var mask: Word := 1;
    var a := addr >> 2;
    RangeScanStart(addr);
    while a & mask != 0
      invariant RangeScan(a, mask)
      decreases 0x8000_0000 - mask
    {
      RangeScanStep(a, mask);
      mask := mask << 1;
    }
    RangeScanDone(addr, mask);
    r := mask * 8;
    TimesEight(mask);
    NapotDecodeShape(addr);
  }

  /** The preconditions `make_napot` asserts: an even size of at least 8 that divides the address. */
  predicate NapotArgs(addr: Word, size: Word) {
    size % 2 == 0 && size >= 8 && addr % size == 0
  }

  /** `make_napot` as written: clears the size bit of the address, then sets the `size/2 - 1` low bits. */
  function MakeNapotAsWritten(addr: Word, size: Word): (r: Word)
    requires NapotArgs(addr, size)
  {
    (addr & !size) | (size / 2 - 1)
  }

  /** `make_napot` as evidently intended: the aligned address with the `size/2 - 1` low bits set. */
  function MakeNapot(addr: Word, size: Word): (r: Word)
    requires NapotArgs(addr, size)
  {
    addr | (size / 2 - 1)
  }

  /** For a power-of-two size, the corrected encoding decodes back to the address and the size. */
  lemma NapotRoundTrip(addr: Word, size: Word)
    requires NapotArgs(addr, size) && IsPow2(size)
    ensures NapotBaseOf(MakeNapot(addr, size)) == addr
    ensures NapotRangeOf(MakeNapot(addr, size)) == size
  {
    AlignedLowBits(addr, size);
    NapotDecodes(addr, size);
  }

  /** The decoding half of the round trip, for an address whose bits below the size are clear. */
  lemma NapotDecodes(addr: Word, size: Word)
    requires IsPow2(size) && size >= 8 && addr & (size - 1) == 0
    ensures NapotBaseOf(addr | (size / 2 - 1)) == addr
    ensures NapotRangeOf(addr | (size / 2 - 1)) == size
  {
  }

  /** Every 32-bit power of two, listed. */
  lemma Pow2Cases(size: Word)
    requires IsPow2(size)
    ensures size == 1 || size == 2 || size == 4 || size == 8 || size == 0x10 || size == 0x20 || size == 0x40 || size == 0x80
         || size == 0x100 || size == 0x200 || size == 0x400 || size == 0x800
         || size == 0x1000 || size == 0x2000 || size == 0x4000 || size == 0x8000
         || size == 0x1_0000 || size == 0x2_0000 || size == 0x4_0000 || size == 0x8_0000
         || size == 0x10_0000 || size == 0x20_0000 || size == 0x40_0000 || size == 0x80_0000
         || size == 0x100_0000 || size == 0x200_0000 || size == 0x400_0000 || size == 0x800_0000
         || size == 0x1000_0000 || size == 0x2000_0000 || size == 0x4000_0000 || size == 0x8000_0000
  {
  }

  /** A multiple of a power of two has no bits set below it. */
  lemma AlignedLowBits(addr: Word, size: Word)
    requires IsPow2(size) && addr % size == 0
    ensures addr & (size - 1) == 0
  {
    Pow2Cases(size);
    if size == 1 {} else if size == 2 {} else if size == 4 {} else if size == 8 {}
    else if size == 0x10 {} else if size == 0x20 {} else if size == 0x40 {} else if size == 0x80 {}
    else if size == 0x100 {} else if size == 0x200 {} else if size == 0x400 {} else if size == 0x800 {}
    else if size == 0x1000 {} else if size == 0x2000 {} else if size == 0x4000 {} else if size == 0x8000 {}
    else if size == 0x1_0000 {} else if size == 0x2_0000 {} else if size == 0x4_0000 {} else if size == 0x8_0000 {}
    else if size == 0x10_0000 {} else if size == 0x20_0000 {} else if size == 0x40_0000 {} else if size == 0x80_0000 {}
    else if size == 0x100_0000 {} else if size == 0x200_0000 {} else if size == 0x400_0000 {} else if size == 0x800_0000 {}
    else if size == 0x1000_0000 {} else if size == 0x2000_0000 {} else if size == 0x4000_0000 {} else {}
  }

  /** As written, the encoding round-trips only when the address is also aligned to twice the size. */
  lemma NapotAsWrittenRoundTrip(addr: Word, size: Word)
    requires NapotArgs(addr, size) && IsPow2(size) && addr & size == 0
    ensures MakeNapotAsWritten(addr, size) == MakeNapot(addr, size)
    ensures NapotBaseOf(MakeNapotAsWritten(addr, size)) == addr
  {
    NapotRoundTrip(addr, size);
  }

  /** A 16-byte region at 0x10: the encoding as written describes the region at 0 instead. */
  lemma NapotAsWrittenLosesBase()
    ensures NapotArgs(0x10, 0x10)
    ensures MakeNapotAsWritten(0x10, 0x10) == 0x7
    ensures NapotBaseOf(MakeNapotAsWritten(0x10, 0x10)) == 0
    ensures NapotRangeOf(MakeNapotAsWritten(0x10, 0x10)) == 0x10
    ensures NapotBaseOf(MakeNapot(0x10, 0x10)) == 0x10
  {
  }

  /** The application's region: 64 bytes at 0x8000_0000, where the two encodings agree. */
  lemma ApplicationRegion()
    ensures MakeNapotAsWritten(0x8000_0000, 64) == MakeNapot(0x8000_0000, 64) == 0x8000_001F
    ensures NapotBaseOf(0x8000_001F) == 0x8000_0000 && NapotRangeOf(0x8000_001F) == 64
  {
  }

  /** An address range as `print_pmpXcfg` reports it, with the mode field it came from. */
  datatype Region = Region(mode: bv8, start: Word, stop: Word)

  /**
   * The range an entry describes, from its config byte, its own address
   * register and (for TOR) the previous one, both read back as addresses:
   * TOR spans from the previous address (0 for entry 0) to its own; NA4 is
   * the 4 bytes at the address; NAPOT is decoded from the trailing ones; OFF
   * is [0, 0]. Sums are 32-bit.
   */
  function RegionOf(cfg: bv8, prev: Word, cur: Word): (g: Region)
  {
    var a := cfg & PMP_A;
    if a == PMP_TOR then Region(a, prev, cur)
    else if a == PMP_NA4 then Region(a, cur, cur + 3)
    else if a == PMP_NAPOT then Region(a, NapotBaseOf(cur), NapotBaseOf(cur) + NapotRangeOf(cur))
    else Region(a, 0, 0)
  }

  /** The mode is the A field of the config byte, and so one of its four values. */
  lemma RegionOfMode(cfg: bv8, prev: Word, cur: Word)
    ensures RegionOf(cfg, prev, cur).mode == cfg & PMP_A
    ensures RegionOf(cfg, prev, cur).mode in {PMP_OFF, PMP_TOR, PMP_NA4, PMP_NAPOT}
  {
  }

  /** An entry that is OFF describes no range: [0, 0]. */
  lemma RegionOfOff(cfg: bv8, prev: Word, cur: Word)
    requires cfg & PMP_A == PMP_OFF
    ensures RegionOf(cfg, prev, cur) == Region(PMP_OFF, 0, 0)
  {
  }

  /** A TOR entry spans from the previous address to its own. */
  lemma RegionOfTor(cfg: bv8, prev: Word, cur: Word)
    requires cfg & PMP_A == PMP_TOR
    ensures RegionOf(cfg, prev, cur) == Region(PMP_TOR, prev, cur)
  {
  }

  /** An NA4 entry is the four bytes at its address: the stop is 3 past the start. */
  lemma RegionOfNa4(cfg: bv8, prev: Word, cur: Word)
    requires cfg & PMP_A == PMP_NA4
    ensures RegionOf(cfg, prev, cur).mode == PMP_NA4
    ensures RegionOf(cfg, prev, cur).start == cur && RegionOf(cfg, prev, cur).stop - cur == 3
  {
  }

  /** A NAPOT entry starts at the decoded base and extends by the decoded size. */
  lemma RegionOfNapot(cfg: bv8, prev: Word, cur: Word)
    requires cfg & PMP_A == PMP_NAPOT
    ensures RegionOf(cfg, prev, cur).mode == PMP_NAPOT
    ensures RegionOf(cfg, prev, cur).start == NapotBaseOf(cur)
    ensures RegionOf(cfg, prev, cur).stop - NapotBaseOf(cur) == NapotRangeOf(cur)
  {
  }

  /**
   * The switch of `print_pmpXcfg`, given the config byte and the values
   * `read_pmpaddr` returns for the previous entry (0 for entry 0) and this
   * one: the range is the one the reference decoding describes.
   */
  method PrintRange(cfg: bv8, prev: Word, cur: Word) returns (g: Region)
    ensures g == RegionOf(cfg, prev, cur)
  {
    var m := cfg & PMP_A;
    if m == PMP_TOR {
      g := Region(m, prev, cur);
    } else if m == PMP_NA4 {
      g := Region(m, cur, cur + 3);
    } else if m == PMP_NAPOT {
      var start := NapotBase(cur);
      var size := NapotRange(cur);
      g := Region(m, start, start + size);
    } else {
      g := Region(m, 0, 0);
    }
  }

  /** The clear-then-set steps of `set_pmpXcfg` on the value read from the config register. */
  method ReplaceByte(w: Word, s: bv5, mode: bv8) returns (tmp: Word)
    ensures tmp == SetByte(w, s, mode)
  {
    tmp := w & !((0xFF as Word) << s);
    tmp := tmp | ((mode as Word) << s);
  }

  /** The native register file (the `NATIVE` variant of the accessor macros). */
  class Registers {
    const cfg: array<Word>
    const addr: array<Word>

    ghost predicate Valid()
      reads this
    {
      cfg.Length == CFG_WORDS && addr.Length == ADDR_WORDS && cfg != addr
    }

    constructor ()
      ensures Valid() && fresh(cfg) && fresh(addr)
      ensures forall i :: 0 <= i < CFG_WORDS ==> cfg[i] == 0
      ensures forall i :: 0 <= i < ADDR_WORDS ==> addr[i] == 0
    {
      cfg := new Word[CFG_WORDS](_ => 0);
      addr := new Word[ADDR_WORDS](_ => 0);
    }

    /** `read_pmpcfg`. */
    method ReadPmpcfg(reg: nat) returns (v: Word)
      requires Valid() && reg < 16
      ensures v == cfg[reg]
    {
      v := cfg[reg];
    }

    /** `write_pmpcfg`. */
    method WritePmpcfg(reg: nat, value: Word)
      requires Valid() && reg < 16
      modifies cfg
      ensures cfg[..] == old(cfg[..])[reg := value]
    {
      cfg[reg] := value;
    }

    /** `read_pmpaddr`: the register holds address bits 33..2, so it is shifted back by 2. */
    method ReadPmpaddr(reg: nat) returns (v: Word)
      requires Valid() && reg < 16
      ensures v == addr[reg] << 2
      ensures v & 3 == 0
    {
      v := addr[reg] << 2;
    }

    /** `write_pmpaddr`: stores `addr >> 2`. */
    method WritePmpaddr(reg: nat, a: Word)
      requires Valid() && reg < 16
      modifies addr
      ensures addr[..] == old(addr[..])[reg := a >> 2]
    {
      addr[reg] := a >> 2;
    }

    /** `read_pmpXcfg`: byte `x % 4` of `pmpcfg[x / 4]`. */
    method ReadXcfg(x: nat) returns (b: bv8)
      requires Valid() && x < 64
      ensures b == CfgByte(cfg[x / 4], ByteShift(x % 4))
    {
      var q, k := x / 4, x % 4;
      var value := ReadPmpcfg(q);
      value := value >> ByteShift(k);
      b := (value & 0xFF) as bv8;
    }

    /**
     * `set_pmpXcfg`: writes the address register of entry `r`, then replaces
     * its byte of the config register by read-modify-write.
     */
    method SetXcfg(r: nat, a: Word, mode: bv8)
      requires Valid() && r < 16
      modifies cfg, addr
      ensures addr[..] == old(addr[..])[r := a >> 2]
      ensures cfg[..] == old(cfg[..])[r / 4 := SetByte(old(cfg[r / 4]), ByteShift(r % 4), mode)]
    {
      WritePmpaddr(r, a);
      var q, k := r / 4, r % 4;
      var tmp := ReadPmpcfg(q);
      tmp := ReplaceByte(tmp, ByteShift(k), mode);
      WritePmpcfg(q, tmp);
    }

    /**
     * The range `print_pmpXcfg` reports for entry `r`: its config byte and
     * the address registers it needs, read back, decoded by `PrintRange`.
     */
    method EntryRegion(r: nat) returns (g: Region)
      requires Valid() && r < 16
      ensures g == RegionOf(CfgByte(cfg[r / 4], ByteShift(r % 4)), if r > 0 then addr[r - 1] << 2 else 0, addr[r] << 2)
    {
      var c := ReadXcfg(r);
      var prev: Word := if r > 0 then addr[r - 1] << 2 else 0;
      var cur := addr[r] << 2;
      g := PrintRange(c, prev, cur);
    }
  }

  /** After `write_pmpaddr(r, a)`, `read_pmpaddr(r)` gives `a` with its two low bits cleared. */
  lemma AddrReadBack(a: Word)
    ensures (a >> 2) << 2 == a & !3
  {
  }

  /**
   * After `set_pmpXcfg(r, a, mode)`, `read_pmpXcfg(r)` gives `mode`, and every
   * other entry whose config shares the register keeps its byte.
   */
  lemma SetThenRead(w: Word, r: nat, x: nat, mode: bv8)
    requires r < 16 && x < 64 && x / 4 == r / 4
    ensures CfgByte(SetByte(w, ByteShift(r % 4), mode), ByteShift(r % 4)) == mode
    ensures x != r ==> CfgByte(SetByte(w, ByteShift(r % 4), mode), ByteShift(x % 4)) == CfgByte(w, ByteShift(x % 4))
  {
    SetByteReplacesOne(w, ByteShift(r % 4), ByteShift(x % 4), mode);
    if x != r {
      ByteShiftInjective(r % 4, x % 4);
    }
  }
}
