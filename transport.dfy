/**
 * The byte transport (a UART) as seen by the framing code: an append-only
 * record of what happened on the transmit side, in order. Bytes that go out
 * and the transmit mutex being taken and given back are recorded in one
 * trace, so that "one frame is written under one lock" can be stated.
 */
module Transport {
  import opened Bytes

  datatype TxEvent = Tx(b: Byte) | Acquire | Release

  /** Which receive callback the UART has been given. */
  datatype RxHook = NoHook | RawToStdin | SlipmuxDecoder

  /** The trace a byte sequence leaves when written out one byte at a time. */
  function Sent(bytes: seq<Byte>): (r: seq<TxEvent>)
    ensures |r| == |bytes|
  {
    if bytes == [] then [] else [Tx(bytes[0])] + Sent(bytes[1..])
  }

  lemma SentOne(b: Byte)
    ensures Sent([b]) == [Tx(b)]
  {
    assert [b][1..] == [];
  }

  /** Byte i of the input is event i of the trace. */
  lemma {:induction false} SentAt(bytes: seq<Byte>)
    ensures forall i :: 0 <= i < |bytes| ==> Sent(bytes)[i] == Tx(bytes[i])
  {
    if bytes != [] {
      SentAt(bytes[1..]);
    }
  }

  /** The bytes that reached the wire, lock events left out. */
  function WireBytes(trace: seq<TxEvent>): seq<Byte>
  {
    if trace == [] then []
    else (if trace[0].Tx? then [trace[0].b] else []) + WireBytes(trace[1..])
  }

  lemma {:induction false} SentAppend(a: seq<Byte>, b: seq<Byte>)
    ensures Sent(a + b) == Sent(a) + Sent(b)
  {
    if a != [] {
      assert (a + b)[1..] == a[1..] + b;
      SentAppend(a[1..], b);
    } else {
      assert a + b == b;
    }
  }

  lemma {:induction false} WireBytesAppend(a: seq<TxEvent>, b: seq<TxEvent>)
    ensures WireBytes(a + b) == WireBytes(a) + WireBytes(b)
  {
    if a != [] {
      assert (a + b)[1..] == a[1..] + b;
      WireBytesAppend(a[1..], b);
    } else {
      assert a + b == b;
    }
  }

  lemma WireBytesOne(e: TxEvent)
    ensures WireBytes([e]) == (if e.Tx? then [e.b] else [])
  {
    assert [e][1..] == [];
  }

  /** Writing bytes puts exactly those bytes on the wire. */
  lemma {:induction false} WireBytesSent(bytes: seq<Byte>)
    ensures WireBytes(Sent(bytes)) == bytes
  {
    if bytes != [] {
      assert Sent(bytes)[1..] == Sent(bytes[1..]);
      WireBytesSent(bytes[1..]);
    }
  }

  class Wire {
    var trace: seq<TxEvent>
    var rxHook: RxHook

    constructor ()
      ensures trace == [] && rxHook == NoHook
    {
      trace := [];
      rxHook := NoHook;
    }

    /** uart_write of a single byte. */
    method Put(b: Byte)
      modifies this`trace
      ensures trace == old(trace) + [Tx(b)]
    {
      trace := trace + [Tx(b)];
    }

    method Lock()
      modifies this`trace
      ensures trace == old(trace) + [Acquire]
    {
      trace := trace + [Acquire];
    }

    method Unlock()
      modifies this`trace
      ensures trace == old(trace) + [Release]
    {
      trace := trace + [Release];
    }

    /** uart_init registering a receive callback. */
    method SetRxHook(h: RxHook)
      modifies this`rxHook
      ensures rxHook == h
    {
      rxHook := h;
    }
  }
}
