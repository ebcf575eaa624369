/**
 * The 16-bit frame check sequence of RFC 1662 (Appendix C.2): CRC-16/CCITT
 * with the reflected polynomial 0x8408, an all-ones start value, the
 * complement transmitted low byte first, and the "good final value" 0xF0B8
 * left in the register after a frame and its own FCS have been run through.
 * The checksum library that computes it is not part of this model; this is
 * the algorithm it implements, bit by bit.
 */
module Fcs {
  import opened Bytes

  const INIT_FCS: bv16 := 0xFFFF
  const GOOD_FCS: bv16 := 0xF0B8

  /** The register after the CONFIGURATION_START byte 0xA9, used as the start value for CoAP frames. */
  const SPECIAL_INIT_FCS: bv16 := 0x374C

  /** One shift-and-conditionally-xor step: the register's low bit decides whether the polynomial is added. */
  function Round(f: bv16): bv16 {
    if f & 1 == 1 then (f >> 1) ^ 0x8408 else f >> 1
  }

  /** The register after one more byte: the byte is added in, then eight steps. */
  function UpdateByte(f: bv16, c: Byte): bv16 {
    var x := f ^ (c as bv16);
    Round(Round(Round(Round(Round(Round(Round(Round(x))))))))
  }

  /** crc16_ccitt_fcs_update: the register after a sequence of bytes, first byte first. */
  function Update(f: bv16, data: seq<Byte>): bv16
    decreases |data|
  {
    if data == [] then f else Update(UpdateByte(f, data[0]), data[1..])
  }

  /** crc16_ccitt_fcs_finish: the complement of the register, the value that is transmitted. */
  function Finish(f: bv16, data: seq<Byte>): (r: bv16)
    ensures r ^ Update(f, data) == 0xFFFF
  {
    !Update(f, data)
  }

  /** A 16-bit value as it is laid out in memory on a little-endian target: low byte first. */
  function Le16(x: bv16): (r: seq<Byte>)
    ensures |r| == 2
    ensures ((r[1] as bv16) << 8) | (r[0] as bv16) == x
  {
    [(x & 0xFF) as Byte, (x >> 8) as Byte]
  }

  lemma {:induction false} UpdateAppend(f: bv16, a: seq<Byte>, b: seq<Byte>)
    ensures Update(f, a + b) == Update(Update(f, a), b)
    decreases |a|
  {
    if a == [] {
      assert a + b == b;
    } else {
      assert (a + b)[0] == a[0];
      assert (a + b)[1..] == a[1..] + b;
      UpdateAppend(UpdateByte(f, a[0]), a[1..], b);
    }
  }

  lemma UpdateTwo(f: bv16, x: Byte, y: Byte)
    ensures Update(f, [x, y]) == UpdateByte(UpdateByte(f, x), y)
  {
    assert [x, y][1..] == [y];
    assert [y][1..] == [];
    assert Update(f, [x, y]) == Update(UpdateByte(f, x), [y]);
    assert Update(UpdateByte(f, x), [y]) == Update(UpdateByte(UpdateByte(f, x), y), []);
  }

  /** The special start value is the ordinary start value run over the 0xA9 marker. */
  lemma SpecialInitIsMarker()
    ensures Update(INIT_FCS, [0xA9]) == SPECIAL_INIT_FCS
  {
    assert [0xA9 as Byte][1..] == [];
  }

  /** Running the complemented register, low byte first, through the register lands on the good final value. */
  lemma ResidueByte(f: bv16)
    ensures UpdateByte(UpdateByte(f, ((!f) & 0xFF) as Byte), ((!f) >> 8) as Byte) == GOOD_FCS
  {
  }

  /** A frame followed by its own FCS passes the residue test, whatever the start value. */
  lemma FrameWithFcsPasses(f: bv16, data: seq<Byte>)
    ensures Update(f, data + Le16(Finish(f, data))) == GOOD_FCS
  {
    var g := Update(f, data);
    UpdateAppend(f, data, Le16(!g));
    var t := Le16(!g);
    assert t == [t[0], t[1]];
    UpdateTwo(g, t[0], t[1]);
    ResidueByte(g);
  }

  /** No CoAP chunk shorter than the FCS itself passes the residue test. */
  lemma ShortChunksFail(data: seq<Byte>)
    requires |data| < 2
    ensures Update(SPECIAL_INIT_FCS, data) != GOOD_FCS
  {
    if |data| == 1 {
      assert data[1..] == [];
      NoByteGivesGood(data[0]);
    }
  }

  /** Hence a chunk that passes the residue test is long enough to strip the FCS from. */
  lemma PassingChunkHoldsFcs(data: seq<Byte>)
    ensures Update(SPECIAL_INIT_FCS, data) == GOOD_FCS ==> |data| >= 2
  {
    if |data| < 2 {
      ShortChunksFail(data);
    }
  }

  lemma NoByteGivesGood(b: Byte)
    ensures UpdateByte(SPECIAL_INIT_FCS, b) != GOOD_FCS
  {
  }
}
