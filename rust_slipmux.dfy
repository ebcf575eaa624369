/**
 * The first Rust prototype of slipmux: a receive state machine with
 * diagnostic and configuration frames only (no IP channel), an unchecked
 * 256-byte configuration buffer handed to the network stack by a netdev
 * `recv`, the same escaping on transmit, and the RFC 1071 checksum fold.
 */
module RustSlipmux {
  import opened Bytes
  import opened Framing
  import opened Transport

  /** Size of the configuration receive buffer `rxbuf`. */
  const RXBUF_SIZE: nat := 256
  /** Size of the reply buffer of the configuration thread. */
  const SEC_BUFSIZE: nat := 512

  /** Receive state; NoFrame is the prototype's NONE. There is no packet state. */
  datatype FrameState = NoFrame | Diagnostic | DiagnosticEsc | Configuration | ConfigurationEsc

  /** What a received byte does besides moving the state. */
  datatype Effect = Ignore | ToStdin(b: Byte) | Store(b: Byte) | Trigger

  datatype Transition = Transition(next: FrameState, effect: Effect)

  /** The transition table of `fsm`: the new state and the one side effect of a byte. */
  function Fsm(s: FrameState, b: Byte): (t: Transition)
    ensures t.effect.Trigger? <==> s == Configuration && b == END
    ensures t.effect.Store? <==> s == ConfigurationEsc || (s == Configuration && b != ESC && b != END)
    ensures t.effect.ToStdin? <==> s == DiagnosticEsc || (s == Diagnostic && b != ESC && b != END)
    ensures s == NoFrame ==> t.effect == Ignore
  {
    match s
    case NoFrame =>
      if b == END then Transition(NoFrame, Ignore)
      else if b == DIAGNOSTIC_START then Transition(Diagnostic, Ignore)
      else if b == CONFIGURATION_START then Transition(Configuration, Ignore)
      else Transition(NoFrame, Ignore)
    case Diagnostic =>
      if b == ESC then Transition(DiagnosticEsc, Ignore)
      else if b == END then Transition(NoFrame, Ignore)
      else Transition(Diagnostic, ToStdin(b))
    case DiagnosticEsc =>
      if b == END_ESC then Transition(Diagnostic, ToStdin(END))
      else if b == ESC_ESC then Transition(Diagnostic, ToStdin(ESC))
      else Transition(Diagnostic, ToStdin(b))
    case Configuration =>
      if b == ESC then Transition(ConfigurationEsc, Ignore)
      else if b == END then Transition(NoFrame, Trigger)
      else Transition(Configuration, Store(b))
    case ConfigurationEsc =>
      if b == END_ESC then Transition(Configuration, Store(END))
      else if b == ESC_ESC then Transition(Configuration, Store(ESC))
      else Transition(Configuration, Store(b))
  }

  /** Outside a frame only the two start markers lead anywhere; IP packet starts are ignored. */
  lemma NoPacketState(b: Byte)
    ensures Fsm(NoFrame, b).next == Diagnostic <==> b == DIAGNOSTIC_START
    ensures Fsm(NoFrame, b).next == Configuration <==> b == CONFIGURATION_START
    ensures Fsm(NoFrame, b).next in {NoFrame, Diagnostic, Configuration}
    ensures IsIpStart(b) ==> Fsm(NoFrame, b) == Transition(NoFrame, Ignore)
  {
  }

  /** An escaped byte is always data, decoded by the shared rule: ESC followed by END does not close a frame. */
  lemma EscapedByteIsData(b: Byte)
    ensures Fsm(DiagnosticEsc, b) == Transition(Diagnostic, ToStdin(UnescapeByte(b)))
    ensures Fsm(ConfigurationEsc, b) == Transition(Configuration, Store(UnescapeByte(b)))
  {
  }

  /**
   * The decoder's observable state: the frame state, what went to stdin, the
   * bytes `rxbuf[..index]` not yet handed over, and how many netdev events
   * were triggered.
   */
  datatype Rx = Rx(state: FrameState, stdin: seq<Byte>, stored: seq<Byte>, events: nat)

  /** One byte applied to the decoder state. */
  function Apply(m: Rx, b: Byte): (r: Rx)
    ensures r.state == Fsm(m.state, b).next
    ensures |m.stored| <= |r.stored| <= |m.stored| + 1
    ensures m.events <= r.events <= m.events + 1
  {
    var t := Fsm(m.state, b);
    match t.effect
    case Ignore => m.(state := t.next)
    case ToStdin(c) => m.(state := t.next, stdin := m.stdin + [c])
    case Store(c) => m.(state := t.next, stored := m.stored + [c])
    case Trigger => m.(state := t.next, events := m.events + 1)
  }

  function Feed(m: Rx, bytes: seq<Byte>): Rx
    decreases |bytes|
  {
    if bytes == [] then m else Feed(Apply(m, bytes[0]), bytes[1..])
  }

  lemma {:induction false} FeedAppend(m: Rx, a: seq<Byte>, b: seq<Byte>)
    ensures Feed(m, a + b) == Feed(Feed(m, a), b)
    decreases |a|
  {
    if a == [] {
      assert a + b == b;
    } else {
      assert (a + b)[0] == a[0];
      assert (a + b)[1..] == a[1..] + b;
      FeedAppend(Apply(m, a[0]), a[1..], b);
    }
  }

  lemma FeedOne(m: Rx, x: Byte)
    ensures Feed(m, [x]) == Apply(m, x)
  {
    assert [x][1..] == [];
  }

  lemma FeedTwo(m: Rx, x: Byte, y: Byte)
    ensures Feed(m, [x, y]) == Apply(Apply(m, x), y)
  {
    assert [x, y][1..] == [y];
    FeedOne(Apply(m, x), y);
  }

  /** One escaped payload byte inside a configuration frame is stored as itself. */
  lemma ConfigurationByte(m: Rx, x: Byte)
    requires m.state == Configuration && |m.stored| < RXBUF_SIZE
    ensures Feed(m, EscapeByte(x)) == m.(stored := m.stored + [x])
  {
    if x == END || x == ESC {
      FeedTwo(m, ESC, EscapeByte(x)[1]);
    } else {
      FeedOne(m, x);
    }
  }

  lemma {:induction false} ConfigurationBody(m: Rx, p: seq<Byte>)
    requires m.state == Configuration && |m.stored| + |p| <= RXBUF_SIZE
    ensures Feed(m, Escape(p)) == m.(stored := m.stored + p)
    decreases |p|
  {
    if p == [] {
      assert m.stored + p == m.stored;
    } else {
      FeedAppend(m, EscapeByte(p[0]), Escape(p[1..]));
      ConfigurationByte(m, p[0]);
      var m1 := m.(stored := m.stored + [p[0]]);
      ConfigurationBody(m1, p[1..]);
      assert m1.stored + p[1..] == m.stored + p;
    }
  }

  /**
   * A configuration frame appends its payload to the bytes already waiting in
   * `rxbuf` and triggers one netdev event: neither the start marker nor END
   * resets `index`. Past 256 stored bytes the prototype's `rxbuf[index]` panics,
   * so the payload must fit what is left of the buffer.
   */
  lemma ConfigurationFrameStored(m: Rx, p: seq<Byte>)
    requires m.state == NoFrame && |m.stored| + |p| <= RXBUF_SIZE
    ensures Feed(m, [CONFIGURATION_START] + Escape(p) + [END])
         == m.(stored := m.stored + p, events := m.events + 1)
  {
    var m1 := m.(state := Configuration);
    var m2 := m1.(stored := m.stored + p);
    FeedAppend(m, [CONFIGURATION_START] + Escape(p), [END]);
    FeedAppend(m, [CONFIGURATION_START], Escape(p));
    FeedOne(m, CONFIGURATION_START);
    ConfigurationBody(m1, p);
    FeedOne(m2, END);
  }

  /** Two configuration frames without a handoff in between leave both payloads, back to back. */
  lemma FramesAccumulate(m: Rx, p: seq<Byte>, q: seq<Byte>)
    requires m.state == NoFrame && |m.stored| + |p| + |q| <= RXBUF_SIZE
    ensures Feed(m, ([CONFIGURATION_START] + Escape(p) + [END]) + ([CONFIGURATION_START] + Escape(q) + [END]))
         == m.(stored := m.stored + p + q, events := m.events + 2)
  {
    var f, g := [CONFIGURATION_START] + Escape(p) + [END], [CONFIGURATION_START] + Escape(q) + [END];
    FeedAppend(m, f, g);
    ConfigurationFrameStored(m, p);
    ConfigurationFrameStored(m.(stored := m.stored + p, events := m.events + 1), q);
  }

  lemma DiagnosticByte(m: Rx, x: Byte)
    requires m.state == Diagnostic
    ensures Feed(m, EscapeByte(x)) == m.(stdin := m.stdin + [x])
  {
    if x == END || x == ESC {
      FeedTwo(m, ESC, EscapeByte(x)[1]);
    } else {
      FeedOne(m, x);
    }
  }

  lemma {:induction false} DiagnosticBody(m: Rx, p: seq<Byte>)
    requires m.state == Diagnostic
    ensures Feed(m, Escape(p)) == m.(stdin := m.stdin + p)
    decreases |p|
  {
    if p == [] {
      assert m.stdin + p == m.stdin;
    } else {
      FeedAppend(m, EscapeByte(p[0]), Escape(p[1..]));
      DiagnosticByte(m, p[0]);
      var m1 := m.(stdin := m.stdin + [p[0]]);
      DiagnosticBody(m1, p[1..]);
      assert m1.stdin + p[1..] == m.stdin + p;
    }
  }

  /** A diagnostic frame puts its text on stdin and touches nothing else. */
  lemma DiagnosticFrameDelivered(m: Rx, p: seq<Byte>)
    requires m.state == NoFrame
    ensures Feed(m, [DIAGNOSTIC_START] + Escape(p) + [END]) == m.(stdin := m.stdin + p)
  {
    var m1 := m.(state := Diagnostic);
    var m2 := m1.(stdin := m.stdin + p);
    FeedAppend(m, [DIAGNOSTIC_START] + Escape(p), [END]);
    FeedAppend(m, [DIAGNOSTIC_START], Escape(p));
    FeedOne(m, DIAGNOSTIC_START);
    DiagnosticBody(m1, p);
    FeedOne(m2, END);
  }

  /** Between frames, bytes other than the two start markers change nothing. */
  lemma {:induction false} NoiseIgnored(m: Rx, bytes: seq<Byte>)
    requires m.state == NoFrame
    requires forall i :: 0 <= i < |bytes| ==> bytes[i] != DIAGNOSTIC_START && bytes[i] != CONFIGURATION_START
    ensures Feed(m, bytes) == m
    decreases |bytes|
  {
    if bytes != [] {
      assert bytes[0] != DIAGNOSTIC_START && bytes[0] != CONFIGURATION_START;
      assert Apply(m, bytes[0]) == m;
      NoiseIgnored(m, bytes[1..]);
    }
  }

  /** Outcome of the netdev `recv` with room for `len` bytes: the count it returns, the bytes handed over (if any), and the state left behind. */
  datatype Handoff = Handoff(ret: nat, data: Option<seq<Byte>>, after: Rx)

  function Recv(m: Rx, len: nat): (h: Handoff)
    ensures h.ret == |m.stored|
    ensures h.data.Some? <==> |m.stored| <= len
    ensures h.data.Some? ==> h.data.value == m.stored && h.after == m.(stored := [])
    ensures h.data.None? ==> h.after == m
  {
    if |m.stored| <= len then Handoff(|m.stored|, Some(m.stored), m.(stored := []))
    else Handoff(|m.stored|, None, m)
  }

  /**
   * A zero-length `recv` is a size query that changes nothing; asking again
   * with that size hands over exactly the waiting bytes, and the next
   * configuration frame then starts from an empty buffer.
   */
  lemma QueryThenFetch(m: Rx, p: seq<Byte>)
    requires m.stored != [] && m.state == NoFrame && |p| <= RXBUF_SIZE
    ensures Recv(m, 0) == Handoff(|m.stored|, None, m)
    ensures Recv(m, Recv(m, 0).ret).data == Some(m.stored)
    ensures Feed(Recv(m, |m.stored|).after, [CONFIGURATION_START] + Escape(p) + [END]).stored == p
  {
    var a := Recv(m, |m.stored|).after;
    ConfigurationFrameStored(a, p);
    assert a.stored + p == p;
  }

  /** The prototype's descriptor: frame state and buffer updated in place by the UART callback. */
  class Slipmux {
    var state: FrameState
    const rxbuf: array<Byte>
    var index: nat
    var stdin: seq<Byte>
    var events: nat

    ghost predicate Valid()
      reads this
    {
      rxbuf.Length == RXBUF_SIZE && index <= RXBUF_SIZE
    }

    function Model(): Rx
      reads this, rxbuf
      requires Valid()
    {
      Rx(state, stdin, rxbuf[..index], events)
    }

    /** The initial descriptor of `init`: state NONE, a zeroed buffer, index 0. */
    constructor ()
      ensures Valid() && fresh(rxbuf)
      ensures Model() == Rx(NoFrame, [], [], 0)
      ensures forall i :: 0 <= i < RXBUF_SIZE ==> rxbuf[i] == 0
    {
      state := NoFrame;
      rxbuf := new Byte[RXBUF_SIZE](_ => 0);
      index := 0;
      stdin := [];
      events := 0;
    }

    /** The stored byte at `rxbuf[index]`; the caller guarantees it is in bounds. */
    method Put(c: Byte)
      requires Valid() && index < RXBUF_SIZE
      modifies this`index, rxbuf
      ensures Valid() && index == old(index) + 1
      ensures rxbuf[..] == old(rxbuf[..])[old(index) := c]
      ensures rxbuf[..index] == old(rxbuf[..index]) + [c]
    {
      rxbuf[index] := c;
      index := index + 1;
    }

    /**
     * `fsm`: one received byte. The buffer write is unchecked in the
     * prototype, so a byte that would be stored needs `index < 256`.
     */
    method Step(b: Byte)
      requires Valid()
      requires Fsm(state, b).effect.Store? ==> index < RXBUF_SIZE
      modifies this, rxbuf
      ensures Valid()
      ensures Model() == Apply(old(Model()), b)
      ensures Fsm(old(state), b).effect.Store? ==> rxbuf[..] == old(rxbuf[..])[old(index) := Fsm(old(state), b).effect.b]
      ensures !Fsm(old(state), b).effect.Store? ==> rxbuf[..] == old(rxbuf[..])
    {
      match state
      case NoFrame =>
        if b == DIAGNOSTIC_START {
          state := Diagnostic;
        } else if b == CONFIGURATION_START {
          state := Configuration;
        }
      case Diagnostic =>
        if b == ESC {
          state := DiagnosticEsc;
        } else if b == END {
          state := NoFrame;
        } else {
          stdin := stdin + [b];
        }
      case DiagnosticEsc =>
        if b == END_ESC {
          stdin := stdin + [END];
        } else if b == ESC_ESC {
          stdin := stdin + [ESC];
        } else {
          stdin := stdin + [b];
        }
        state := Diagnostic;
      case Configuration =>
        if b == ESC {
          state := ConfigurationEsc;
        } else if b == END {
          events := events + 1;
          state := NoFrame;
        } else {
          Put(b);
        }
      case ConfigurationEsc =>
        if b == END_ESC {
          Put(END);
        } else if b == ESC_ESC {
          Put(ESC);
        } else {
          Put(b);
        }
        state := Configuration;
    }

    /**
     * `_recv` into a caller buffer of `buf.Length` bytes: always returns the
     * number of waiting bytes; copies them and resets `index` only when they fit.
     */
    method Receive(buf: array<Byte>) returns (ret: int)
      requires Valid() && buf != rxbuf
      modifies this`index, buf
      ensures Valid()
      ensures ret == Recv(old(Model()), buf.Length).ret
      ensures Model() == Recv(old(Model()), buf.Length).after
      ensures old(index) <= buf.Length ==>
        buf[..old(index)] == old(rxbuf[..index]) && buf[old(index)..] == old(buf[..])[old(index)..]
      ensures old(index) > buf.Length ==> buf[..] == old(buf[..])
    {
      ret := index;
      if index <= buf.Length {
        var i := 0;
        while i < index
          invariant 0 <= i <= index <= buf.Length && index == old(index) && Valid()
          invariant buf[..i] == rxbuf[..i]
          invariant buf[index..] == old(buf[index..])
        {
          buf[i] := rxbuf[i];
          i := i + 1;
        }
        index := 0;
      }
    }
  }

  /** Sum of 16-bit words, as an unbounded integer. */
  function WordSum(words: seq<bv16>): nat
  {
    if words == [] then 0 else WordSum(words[..|words| - 1]) + words[|words| - 1] as nat
  }

  /** One end-around-carry step keeps the value modulo 0xFFFF, since 0x10000 is 1 modulo 0xFFFF. */
  lemma FoldStep(x: nat)
    ensures (x % 0x1_0000 + x / 0x1_0000) % 0xFFFF == x % 0xFFFF
  {
    var h, l := x / 0x1_0000, x % 0x1_0000;
    assert x == 0x1_0000 * h + l;
    assert x == (h + l) + 0xFFFF * h;
    ModMultiple(h + l, h);
  }

  lemma ModMultiple(a: nat, k: nat)
    ensures (a + 0xFFFF * k) % 0xFFFF == a % 0xFFFF
  {
    var q, r := a / 0xFFFF, a % 0xFFFF;
    assert a + 0xFFFF * k == 0xFFFF * (q + k) + r;
  }

  /**
   * `_calc_csum`: the words summed in a 32-bit accumulator, then the carries
   * folded back in until the value fits in 16 bits. The result is the RFC 1071
   * one's-complement sum: below 2^16, zero only for a zero sum, and congruent
   * to the sum modulo 0xFFFF.
   */
  method CalcCsum(payload: seq<bv16>) returns (c: nat)
    requires WordSum(payload) < 0x1_0000_0000
    ensures c < 0x1_0000
    ensures c % 0xFFFF == WordSum(payload) % 0xFFFF
    ensures c == 0 <==> WordSum(payload) == 0
  {
    var csum: nat := 0;
    var i := 0;
    while i < |payload|
      invariant 0 <= i <= |payload|
      invariant csum == WordSum(payload[..i])
    {
      assert payload[..i + 1][..i] == payload[..i];
      csum := csum + payload[i] as nat;
      i := i + 1;
    }
    assert payload[..i] == payload;
    while csum / 0x1_0000 > 0
      invariant csum % 0xFFFF == WordSum(payload) % 0xFFFF
      invariant csum == 0 <==> WordSum(payload) == 0
      decreases csum
    {
      var carry := csum / 0x1_0000;
      FoldStep(csum);
      csum := csum % 0x1_0000 + carry;
    }
    c := csum;
  }

  /** The transmit trace of `stdio_write`: the guard is held across the whole frame, and without a UART nothing goes out. */
  function StdioTrace(stdout: bool, data: seq<Byte>): seq<TxEvent>
  {
    [Acquire] + (if stdout then [Tx(DIAGNOSTIC_START)] + Sent(Escape(data)) + [Tx(END)] else []) + [Release]
  }

  /** The transmit trace of one reply of the configuration thread: no FCS trailer. */
  function ReplyTrace(stdout: bool, payload: seq<Byte>): seq<TxEvent>
  {
    [Acquire] + (if stdout then [Tx(CONFIGURATION_START)] + Sent(Escape(payload)) + [Tx(END)] else []) + [Release]
  }

  method WriteByte(w: Wire, b: Byte)
    modifies w`trace
    ensures w.trace == old(w.trace) + [Tx(b)]
  {
    w.Put(b);
  }

  /** One byte of `write_escaping_bytes`: END and ESC as their two-byte escapes, any other byte as itself. */
  method WriteEscapedByte(w: Wire, b: Byte)
    modifies w`trace
    ensures w.trace == old(w.trace) + Sent(EscapeByte(b))
  {
    if b == END {
      WriteByte(w, ESC);
      WriteByte(w, END_ESC);
    } else if b == ESC {
      WriteByte(w, ESC);
      WriteByte(w, ESC_ESC);
    } else {
      WriteByte(w, b);
    }
  }

  /** `write_escaping_bytes`: every byte escaped, in order. */
  method WriteEscapingBytes(w: Wire, bytes: seq<Byte>)
    modifies w`trace
    ensures w.trace == old(w.trace) + Sent(Escape(bytes))
  {
    var j := 0;
    while j < |bytes|
      invariant 0 <= j <= |bytes|
      invariant w.trace == old(w.trace) + Sent(Escape(bytes[..j]))
    {
      EscapeStep(bytes, j);
      WriteEscapedByte(w, bytes[j]);
      ConcatAssoc(old(w.trace), Sent(Escape(bytes[..j])), Sent(EscapeByte(bytes[j])));
      j := j + 1;
    }
    assert bytes[..j] == bytes;
  }

  lemma EscapeStep(bytes: seq<Byte>, j: nat)
    requires j < |bytes|
    ensures Sent(Escape(bytes[..j + 1])) == Sent(Escape(bytes[..j])) + Sent(EscapeByte(bytes[j]))
    ensures Sent(EscapeByte(bytes[j])) == (if bytes[j] == END then [Tx(ESC), Tx(END_ESC)]
      else if bytes[j] == ESC then [Tx(ESC), Tx(ESC_ESC)] else [Tx(bytes[j])])
  {
    assert bytes[..j + 1] == bytes[..j] + [bytes[j]];
    EscapeAppend(bytes[..j], [bytes[j]]);
    assert Escape([bytes[j]]) == EscapeByte(bytes[j]) + Escape([]) == EscapeByte(bytes[j]);
    SentAppend(Escape(bytes[..j]), EscapeByte(bytes[j]));
  }

  /** A frame body between its marker and END, written while the guard is held. */
  method WriteFramed(w: Wire, marker: Byte, body: seq<Byte>)
    modifies w`trace
    ensures w.trace == old(w.trace) + ([Tx(marker)] + Sent(Escape(body)) + [Tx(END)])
  {
    ghost var t0 := w.trace;
    ghost var s := Sent(Escape(body));
    WriteByte(w, marker);
    WriteEscapingBytes(w, body);
    WriteByte(w, END);
    assert w.trace == t0 + [Tx(marker)] + s + [Tx(END)];
    ConcatAssoc(t0, [Tx(marker)] + s, [Tx(END)]);
    ConcatAssoc(t0, [Tx(marker)], s);
  }

  /** `stdio_write`: a diagnostic frame and the full length when the UART is set up, else nothing and 0. */
  method StdioWrite(w: Wire, stdout: bool, data: seq<Byte>) returns (n: nat)
    modifies w`trace
    ensures n == (if stdout then |data| else 0)
    ensures w.trace == old(w.trace) + StdioTrace(stdout, data)
  {
    w.Lock();
    if stdout {
      WriteFramed(w, DIAGNOSTIC_START, data);
      n := |data|;
    } else {
      n := 0;
    }
    w.Unlock();
  }

  /** The reply step of the configuration thread for `len` bytes of its 512-byte buffer. */
  method SendReply(w: Wire, stdout: bool, buffer: seq<Byte>, len: nat)
    requires |buffer| == SEC_BUFSIZE && len <= |buffer|
    modifies w`trace
    ensures w.trace == old(w.trace) + ReplyTrace(stdout, buffer[..len])
  {
    w.Lock();
    if stdout {
      WriteFramed(w, CONFIGURATION_START, buffer[..len]);
    }
    w.Unlock();
  }

  /** The bytes of a marked frame: marker, escaped body, END, with the guard events left out. */
  lemma FramedWireBytes(marker: Byte, stdout: bool, body: seq<Byte>)
    ensures WireBytes([Acquire] + (if stdout then [Tx(marker)] + Sent(Escape(body)) + [Tx(END)] else []) + [Release])
         == (if stdout then [marker] + Escape(body) + [END] else [])
  {
    var mid := if stdout then [Tx(marker)] + Sent(Escape(body)) + [Tx(END)] else [];
    WireBytesOne(Acquire);
    WireBytesOne(Release);
    WireBytesAppend([Acquire] + mid, [Release]);
    WireBytesAppend([Acquire], mid);
    if stdout {
      MarkedWireBytes(marker, body);
    } else {
      assert WireBytes(mid) == [];
    }
  }

  /** The bytes of the frame itself: marker, escaped body, END. */
  lemma MarkedWireBytes(marker: Byte, body: seq<Byte>)
    ensures WireBytes([Tx(marker)] + Sent(Escape(body)) + [Tx(END)]) == [marker] + Escape(body) + [END]
  {
    var s := Sent(Escape(body));
    WireBytesOne(Tx(marker));
    WireBytesOne(Tx(END));
    WireBytesAppend([Tx(marker)] + s, [Tx(END)]);
    WireBytesAppend([Tx(marker)], s);
    WireBytesSent(Escape(body));
  }

  /** A stdout write read back by this decoder: the text arrives on the peer's stdin. */
  lemma StdioReadBack(data: seq<Byte>, m: Rx)
    requires m.state == NoFrame
    ensures WireBytes(StdioTrace(true, data)) == [DIAGNOSTIC_START] + Escape(data) + [END]
    ensures Feed(m, WireBytes(StdioTrace(true, data))) == m.(stdin := m.stdin + data)
    ensures WireBytes(StdioTrace(false, data)) == []
  {
    FramedWireBytes(DIAGNOSTIC_START, true, data);
    FramedWireBytes(DIAGNOSTIC_START, false, data);
    DiagnosticFrameDelivered(m, data);
  }

  /** A configuration reply read back by this decoder: exactly the payload is stored, with no trailer. */
  lemma ReplyReadBack(payload: seq<Byte>, m: Rx)
    requires m.state == NoFrame && |m.stored| + |payload| <= RXBUF_SIZE
    ensures WireBytes(ReplyTrace(true, payload)) == [CONFIGURATION_START] + Escape(payload) + [END]
    ensures Feed(m, WireBytes(ReplyTrace(true, payload))) == m.(stored := m.stored + payload, events := m.events + 1)
    ensures WireBytes(ReplyTrace(false, payload)) == []
  {
    FramedWireBytes(CONFIGURATION_START, true, payload);
    FramedWireBytes(CONFIGURATION_START, false, payload);
    ConfigurationFrameStored(m, payload);
  }

  /** The netdev options `_get` distinguishes. */
  datatype NetOpt = IsWired | DeviceType | OtherOpt(code: nat)

  /** Result of `_get`: the return value and whether the SLIP device type was written to the destination. */
  datatype GetResult = GetResult(ret: int, wroteType: bool)

  /** `_get`: the link is wired, the device type is SLIP (a 2-byte answer), every other option is unsupported (-ENOTSUP). */
  function Get(opt: NetOpt): (r: GetResult)
    ensures r.ret > 0 <==> !opt.OtherOpt?
    ensures r.wroteType <==> opt == DeviceType
    ensures opt == IsWired ==> r.ret == 1
    ensures opt == DeviceType ==> r.ret == 2
    ensures opt.OtherOpt? ==> r.ret == -134
  {
    match opt
    case IsWired => GetResult(1, false)
    case DeviceType => GetResult(2, true)
    case OtherOpt(_) => GetResult(-134, false)
  }

  /** `_set`: no option can be set; every call is refused with -ENODATA. */
  function Set(opt: nat, value: seq<Byte>): (r: int)
    ensures r < 0
    ensures r == -61
  {
    -61
  }
}
