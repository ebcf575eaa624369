/**
 * SLIP framing (RFC 1055) as extended by draft-bormann-t2trg-slipmux-03:
 * the marker bytes shared by the C driver and both Rust prototypes, and the
 * escape code every transmit path applies to payload bytes.
 */
module Framing {
  import opened Bytes

  const END: Byte := 0xC0
  const ESC: Byte := 0xDB
  const END_ESC: Byte := 0xDC
  const ESC_ESC: Byte := 0xDD

  /** Start of a diagnostic (stdio) frame, section 4 of the slipmux draft. */
  const DIAGNOSTIC_START: Byte := 0x0A
  /** Start of a configuration (CoAP) frame, section 5 of the slipmux draft. */
  const CONFIGURATION_START: Byte := 0xA9

  /** First byte of an IPv4 (0x45..0x4F) or IPv6 (0x60..0x6F) packet. */
  predicate IsIpStart(b: Byte) {
    (0x45 <= b <= 0x4F) || (0x60 <= b <= 0x6F)
  }

  /** The escape codes and start markers never collide with the framing bytes or with a packet start. */
  lemma MarkersDistinct()
    ensures END_ESC != END && END_ESC != ESC && ESC_ESC != END && ESC_ESC != ESC
    ensures DIAGNOSTIC_START !in {END, ESC} && CONFIGURATION_START !in {END, ESC}
    ensures !IsIpStart(DIAGNOSTIC_START) && !IsIpStart(CONFIGURATION_START)
    ensures !IsIpStart(END) && !IsIpStart(ESC)
  {
  }

  /** The wire bytes for one payload byte. */
  function EscapeByte(b: Byte): (r: seq<Byte>)
    ensures 1 <= |r| <= 2 && END !in r
    ensures |r| == 2 <==> b in {END, ESC}
    ensures |r| == 1 ==> r == [b]
  {
    if b == END then [ESC, END_ESC]
    else if b == ESC then [ESC, ESC_ESC]
    else [b]
  }

  /** The wire bytes for a payload: every byte escaped, in order. */
  function Escape(data: seq<Byte>): seq<Byte>
  {
    if data == [] then [] else EscapeByte(data[0]) + Escape(data[1..])
  }

  /** The byte an escaped byte stands for; a code other than the two defined ones stands for itself. */
  function UnescapeByte(b: Byte): (r: Byte)
    ensures b == END_ESC ==> r == END
    ensures b == ESC_ESC ==> r == ESC
    ensures b !in {END_ESC, ESC_ESC} ==> r == b
  {
    if b == END_ESC then END else if b == ESC_ESC then ESC else b
  }

  /** Reference decoder for a frame body: ESC introduces one escaped byte; a trailing ESC is dropped. */
  function Unescape(wire: seq<Byte>): seq<Byte>
  {
    if wire == [] then []
    else if wire[0] == ESC then (if |wire| == 1 then [] else [UnescapeByte(wire[1])] + Unescape(wire[2..]))
    else [wire[0]] + Unescape(wire[1..])
  }

  lemma {:induction false} EscapeAppend(a: seq<Byte>, b: seq<Byte>)
    ensures Escape(a + b) == Escape(a) + Escape(b)
  {
    if a == [] {
      assert a + b == b;
    } else {
      assert (a + b)[0] == a[0];
      assert (a + b)[1..] == a[1..] + b;
      EscapeAppend(a[1..], b);
    }
  }

  lemma {:induction false} EscapeLength(data: seq<Byte>)
    ensures |data| <= |Escape(data)| <= 2 * |data|
  {
    if data != [] {
      EscapeLength(data[1..]);
    }
  }

  /** Escaped output never contains a raw END, so it cannot close a frame early. */
  lemma {:induction false} EscapeHasNoEnd(data: seq<Byte>)
    ensures END !in Escape(data)
  {
    if data != [] {
      EscapeHasNoEnd(data[1..]);
    }
  }

  /** Every raw ESC in escaped output is the first half of one of the two escape pairs. */
  lemma {:induction false} EscapeEscFollowed(data: seq<Byte>)
    ensures forall i :: 0 <= i < |Escape(data)| && Escape(data)[i] == ESC ==>
      i + 1 < |Escape(data)| && Escape(data)[i + 1] in {END_ESC, ESC_ESC}
  {
    if data != [] {
      EscapeEscFollowed(data[1..]);
      var h, t := EscapeByte(data[0]), Escape(data[1..]);
      assert Escape(data) == h + t;
      forall i | 0 <= i < |h + t| && (h + t)[i] == ESC
        ensures i + 1 < |h + t| && (h + t)[i + 1] in {END_ESC, ESC_ESC}
      {
        if i >= |h| {
          assert (h + t)[i] == t[i - |h|];
          assert (h + t)[i + 1] == t[i + 1 - |h|];
        }
      }
    }
  }

  /** Decoding what the escaper produced gives back the payload. */
  lemma {:induction false} UnescapeEscape(data: seq<Byte>)
    ensures Unescape(Escape(data)) == data
  {
    if data != [] {
      UnescapeEscape(data[1..]);
      var t := Escape(data[1..]);
      if data[0] == END {
        assert Escape(data) == [ESC, END_ESC] + t;
        assert (Escape(data))[2..] == t;
      } else if data[0] == ESC {
        assert Escape(data) == [ESC, ESC_ESC] + t;
        assert (Escape(data))[2..] == t;
      } else {
        assert Escape(data) == [data[0]] + t;
        assert (Escape(data))[1..] == t;
      }
    }
  }
}
