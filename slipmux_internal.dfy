/**
 * Internal definitions of the C slipmux driver: the receive-state enumeration,
 * the single-byte UART write, the escaped multi-byte write, the transmit-mutex
 * wrappers and the compile-time module selection they depend on.
 */
module SlipmuxInternal {
  import opened Bytes
  import opened Framing
  import opened Transport

  /** Default receive-buffer sizes (CONFIG_SLIPMUX_COAP_BUFSIZE, CONFIG_SLIPMUX_NET_BUFSIZE). */
  const COAP_BUFSIZE: nat := 512
  const NET_BUFSIZE: nat := 2048

  /**
   * Receive state of a device. Idle is SLIPMUX_STATE_NONE ("no frame in
   * progress"); Standby and Sleep are declared by the driver but no byte
   * ever leads to them.
   */
  datatype State = Idle | Net | NetEsc | Stdin | StdinEsc | Coap | CoapEsc | Standby | Sleep

  /** The value the enumeration gives each state; the zeroed device descriptor starts in Idle. */
  function Ordinal(s: State): (n: nat)
    ensures n < 9
    ensures n == 0 <==> s == Idle
  {
    match s
    case Idle => 0
    case Net => 1
    case NetEsc => 2
    case Stdin => 3
    case StdinEsc => 4
    case Coap => 5
    case CoapEsc => 6
    case Standby => 7
    case Sleep => 8
  }

  lemma OrdinalInjective(s: State, t: State)
    ensures Ordinal(s) == Ordinal(t) ==> s == t
  {
  }

  /** Which optional sub-modules (slipmux_stdio, slipmux_coap) are compiled in. */
  datatype Modules = Modules(stdio: bool, coap: bool)
  {
    predicate MutexUsed() {
      stdio || coap
    }
  }

  /** The trace one lock (or unlock) call leaves: the mutex event, or nothing when the mutex is compiled out. */
  function MutexEvent(m: Modules, e: TxEvent): (r: seq<TxEvent>)
    ensures m.MutexUsed() ==> r == [e]
    ensures !m.MutexUsed() ==> r == []
  {
    if m.MutexUsed() then [e] else []
  }

  /** slipmux_write_byte: exactly one byte, unchanged. */
  method WriteByte(w: Wire, b: Byte)
    modifies w`trace
    ensures w.trace == old(w.trace) + [Tx(b)]
  {
    w.Put(b);
  }

  /** One payload byte on the wire, escaped (the body of the slipmux_write_bytes loop). */
  method WriteEscaped(w: Wire, b: Byte)
    modifies w`trace
    ensures w.trace == old(w.trace) + Sent(EscapeByte(b))
  {
    if b == END {
      w.Put(ESC);
      w.Put(END_ESC);
    } else if b == ESC {
      w.Put(ESC);
      w.Put(ESC_ESC);
    } else {
      w.Put(b);
    }
  }

  lemma EscapePrefixStep(data: seq<Byte>, j: nat)
    requires j < |data|
    ensures Sent(Escape(data[..j + 1])) == Sent(Escape(data[..j])) + Sent(EscapeByte(data[j]))
  {
    assert data[..j + 1] == data[..j] + [data[j]];
    EscapeAppend(data[..j], [data[j]]);
    assert Escape([data[j]]) == EscapeByte(data[j]) + Escape([]) == EscapeByte(data[j]);
    SentAppend(Escape(data[..j]), EscapeByte(data[j]));
  }

  /** slipmux_write_bytes: every payload byte escaped, in order. */
  method WriteBytes(w: Wire, data: seq<Byte>)
    modifies w`trace
    ensures w.trace == old(w.trace) + Sent(Escape(data))
  {
    var j := 0;
    while j < |data|
      invariant 0 <= j <= |data|
      invariant w.trace == old(w.trace) + Sent(Escape(data[..j]))
    {
      WriteEscaped(w, data[j]);
      EscapePrefixStep(data, j);
      j := j + 1;
    }
    assert data[..j] == data;
  }

  /** slipmux_lock: takes the transmit mutex only when stdio or CoAP is compiled in. */
  method Lock(w: Wire, m: Modules)
    modifies w`trace
    ensures w.trace == old(w.trace) + MutexEvent(m, Acquire)
  {
    if m.MutexUsed() {
      w.Lock();
    }
  }

  /** slipmux_unlock: the matching release, again only when the mutex exists. */
  method Unlock(w: Wire, m: Modules)
    modifies w`trace
    ensures w.trace == old(w.trace) + MutexEvent(m, Release)
  {
    if m.MutexUsed() {
      w.Unlock();
    }
  }
}
