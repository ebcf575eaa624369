/**
 * The demonstration stdio backend: every byte written to stdout goes to the
 * UART ASCII-uppercased, and every received byte is echoed back as a line
 * "input: <byte>" through the same uppercasing path.
 */
module DemoUart {
  import opened Bytes
  import opened Transport

  /** `u8::to_ascii_uppercase`: 'a'..'z' (0x61..0x7A) become 'A'..'Z'; every other byte is kept. */
  function Upper(b: Byte): (r: Byte)
    ensures 0x61 <= b <= 0x7A ==> r == b - 0x20 && 0x41 <= r <= 0x5A
    ensures !(0x61 <= b <= 0x7A) ==> r == b
  {
    if 0x61 <= b <= 0x7A then b - 0x20 else b
  }

  /** Uppercasing once is enough: no byte comes out as a lower-case letter. */
  lemma UpperIdempotent(b: Byte)
    ensures Upper(Upper(b)) == Upper(b)
    ensures !(0x61 <= Upper(b) <= 0x7A)
  {
  }

  /** The bytes that reach the UART for a buffer: one output per input, in order. */
  function UpperAll(bytes: seq<Byte>): (r: seq<Byte>)
    ensures |r| == |bytes|
    ensures forall i :: 0 <= i < |bytes| ==> r[i] == Upper(bytes[i])
  {
    if bytes == [] then [] else [Upper(bytes[0])] + UpperAll(bytes[1..])
  }

  lemma {:induction false} UpperAllAppend(a: seq<Byte>, b: seq<Byte>)
    ensures UpperAll(a + b) == UpperAll(a) + UpperAll(b)
  {
    assert UpperAll(a + b) == UpperAll(a) + UpperAll(b) by {
      assert forall i :: 0 <= i < |a + b| ==> UpperAll(a + b)[i] == (UpperAll(a) + UpperAll(b))[i] by {
        forall i | 0 <= i < |a + b|
          ensures UpperAll(a + b)[i] == (UpperAll(a) + UpperAll(b))[i]
        {
          if i < |a| {
            assert (a + b)[i] == a[i];
          } else {
            assert (a + b)[i] == b[i - |a|];
          }
        }
      }
    }
  }

  /** Uppercasing a buffer twice gives what uppercasing it once gives. */
  lemma UpperAllIdempotent(bytes: seq<Byte>)
    ensures UpperAll(UpperAll(bytes)) == UpperAll(bytes)
  {
    forall i | 0 <= i < |bytes|
      ensures UpperAll(UpperAll(bytes))[i] == UpperAll(bytes)[i]
    {
      UpperIdempotent(bytes[i]);
    }
  }

  /** `write_bytes`: one UART write per byte, uppercased. */
  method WriteBytes(w: Wire, bytes: seq<Byte>)
    modifies w`trace
    ensures w.trace == old(w.trace) + Sent(UpperAll(bytes))
  {
    for i := 0 to |bytes|
      invariant w.trace == old(w.trace) + Sent(UpperAll(bytes[..i]))
    {
      ghost var before := Sent(UpperAll(bytes[..i]));
      w.Put(Upper(bytes[i]));
      assert bytes[..i + 1] == bytes[..i] + [bytes[i]];
      UpperAllAppend(bytes[..i], [bytes[i]]);
      assert UpperAll([bytes[i]]) == [Upper(bytes[i])];
      SentAppend(UpperAll(bytes[..i]), [Upper(bytes[i])]);
      SentOne(Upper(bytes[i]));
      assert Sent(UpperAll(bytes[..i + 1])) == before + [Tx(Upper(bytes[i]))];
    }
    assert bytes[..|bytes|] == bytes;
  }

  /** The count `write` reports: the length as a 32-bit value, or 0 when the UART was never set up. */
  function Written(initialised: bool, len: nat): (n: nat)
    ensures n < 0x1_0000_0000
    ensures !initialised ==> n == 0
    ensures initialised && len < 0x1_0000_0000 ==> n == len
  {
    if initialised then len % 0x1_0000_0000 else 0
  }

  /** `write`: the uppercased buffer and its length when the UART is initialised; nothing and 0 otherwise. */
  method Write(w: Wire, initialised: bool, data: seq<Byte>) returns (n: nat)
    modifies w`trace
    ensures n == Written(initialised, |data|)
    ensures w.trace == old(w.trace) + (if initialised then Sent(UpperAll(data)) else [])
  {
    if initialised {
      WriteBytes(w, data);
      n := |data| % 0x1_0000_0000;
    } else {
      n := 0;
    }
  }

  /** `stdio_write`: delegates to `write` (its write guard is dropped at once, so nothing is held). */
  method StdioWrite(w: Wire, initialised: bool, data: seq<Byte>) returns (n: nat)
    modifies w`trace
    ensures n == Written(initialised, |data|)
    ensures w.trace == old(w.trace) + (if initialised then Sent(UpperAll(data)) else [])
  {
    n := Write(w, initialised, data);
  }

  /** "input: " as bytes. */
  const PREFIX: seq<Byte> := [0x69, 0x6E, 0x70, 0x75, 0x74, 0x3A, 0x20]
  /** "\n". */
  const NEWLINE: Byte := 0x0A

  /** The receive callback: three writes, "input: ", the byte, "\n", each uppercased. */
  method Receive(w: Wire, initialised: bool, b: Byte)
    modifies w`trace
    ensures w.trace == old(w.trace) + (if initialised then Sent(UpperAll(PREFIX + [b] + [NEWLINE])) else [])
  {
    var _ := Write(w, initialised, PREFIX);
    var _ := Write(w, initialised, [b]);
    var _ := Write(w, initialised, [NEWLINE]);
    if initialised {
      UpperAllAppend(PREFIX + [b], [NEWLINE]);
      UpperAllAppend(PREFIX, [b]);
      SentAppend(UpperAll(PREFIX) + UpperAll([b]), UpperAll([NEWLINE]));
      SentAppend(UpperAll(PREFIX), UpperAll([b]));
    }
  }

  /** The echo line on the wire is "INPUT: ", the received byte uppercased, and a newline. */
  lemma EchoLine(b: Byte)
    ensures WireBytes(Sent(UpperAll(PREFIX + [b] + [NEWLINE])))
         == [0x49, 0x4E, 0x50, 0x55, 0x54, 0x3A, 0x20, Upper(b), NEWLINE]
  {
    WireBytesSent(UpperAll(PREFIX + [b] + [NEWLINE]));
    var r := UpperAll(PREFIX + [b] + [NEWLINE]);
    assert |r| == 9;
    assert (PREFIX + [b] + [NEWLINE])[7] == b;
  }
}
