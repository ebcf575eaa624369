/**
 * The second Rust prototype of slipmux: decoding is left to a library
 * decoder, which drives a frame handler through begin/write/end calls; the
 * handler routes diagnostic bytes to stdin and configuration and IP bytes to
 * two fixed buffers. Transmit uses the same escaping as the other variants.
 */
module RustSlipmux2 {
  import opened Bytes
  import opened Framing
  import opened Transport
  import RustSlipmux

  datatype FrameType = DiagnosticFrame | ConfigurationFrame | IpFrame

  /** What the handler holds: current frame type and write offset, both buffers, and what went to stdin. */
  datatype Handler = Handler(frameType: Option<FrameType>, index: nat,
                             configuration: seq<Byte>, packet: seq<Byte>, stdin: seq<Byte>)

  /** The handler's room for a byte of the current frame: a buffer write needs `index` inside that buffer. */
  predicate CanWrite(h: Handler) {
    match h.frameType
    case None => false
    case Some(t) =>
      t == DiagnosticFrame
      || (t == ConfigurationFrame && h.index < |h.configuration|)
      || (t == IpFrame && h.index < |h.packet|)
  }

  function Begin(h: Handler, t: FrameType): (r: Handler)
    requires h.frameType == None
    ensures r.frameType == Some(t) && r.index == 0
    ensures r.configuration == h.configuration && r.packet == h.packet && r.stdin == h.stdin
  {
    h.(frameType := Some(t), index := 0)
  }

  function Write(h: Handler, b: Byte): (r: Handler)
    requires CanWrite(h)
    ensures r.frameType == h.frameType && r.index == h.index + 1
    ensures |r.configuration| == |h.configuration| && |r.packet| == |h.packet|
  {
    match h.frameType.value
    case DiagnosticFrame => h.(stdin := h.stdin + [b], index := h.index + 1)
    case ConfigurationFrame => h.(configuration := h.configuration[h.index := b], index := h.index + 1)
    case IpFrame => h.(packet := h.packet[h.index := b], index := h.index + 1)
  }

  function End(h: Handler): (r: Handler)
    ensures r.frameType == None && r.index == 0
    ensures r.configuration == h.configuration && r.packet == h.packet && r.stdin == h.stdin
  {
    h.(frameType := None, index := 0)
  }

  /** The bytes of one frame body written one after the other. */
  function WriteAll(h: Handler, p: seq<Byte>): Handler
    requires h.frameType.Some?
    requires h.frameType.value == ConfigurationFrame ==> h.index + |p| <= |h.configuration|
    requires h.frameType.value == IpFrame ==> h.index + |p| <= |h.packet|
    decreases |p|
  {
    if p == [] then h else WriteAll(Write(h, p[0]), p[1..])
  }

  /**
   * Writing a configuration frame body from offset `index` lays it into the
   * configuration buffer at `index`, leaves the rest of that buffer and the
   * other destinations alone, and advances `index` by its length.
   */
  lemma {:induction false} WriteAllConfiguration(h: Handler, p: seq<Byte>)
    requires h.frameType == Some(ConfigurationFrame) && h.index + |p| <= |h.configuration|
    ensures WriteAll(h, p) == h.(configuration := h.configuration[..h.index] + p + h.configuration[h.index + |p|..],
                                 index := h.index + |p|)
    decreases |p|
  {
    var i, c := h.index, h.configuration;
    if p == [] {
      assert c[..i] + p + c[i..] == c;
    } else {
      var h1 := Write(h, p[0]);
      assert h1 == h.(configuration := c[i := p[0]], index := i + 1);
      WriteAllConfiguration(h1, p[1..]);
      assert c[i := p[0]][..i + 1] + p[1..] + c[i := p[0]][i + 1 + |p[1..]|..] == c[..i] + p + c[i + |p|..];
    }
  }

  /** The same for an IP frame and the packet buffer. */
  lemma {:induction false} WriteAllIp(h: Handler, p: seq<Byte>)
    requires h.frameType == Some(IpFrame) && h.index + |p| <= |h.packet|
    ensures WriteAll(h, p) == h.(packet := h.packet[..h.index] + p + h.packet[h.index + |p|..],
                                 index := h.index + |p|)
    decreases |p|
  {
    var i, c := h.index, h.packet;
    if p == [] {
      assert c[..i] + p + c[i..] == c;
    } else {
      var h1 := Write(h, p[0]);
      assert h1 == h.(packet := c[i := p[0]], index := i + 1);
      WriteAllIp(h1, p[1..]);
      assert c[i := p[0]][..i + 1] + p[1..] + c[i := p[0]][i + 1 + |p[1..]|..] == c[..i] + p + c[i + |p|..];
    }
  }

  /** A diagnostic frame body goes to stdin, in order; no buffer is touched. */
  lemma {:induction false} WriteAllDiagnostic(h: Handler, p: seq<Byte>)
    requires h.frameType == Some(DiagnosticFrame)
    ensures WriteAll(h, p) == h.(stdin := h.stdin + p, index := h.index + |p|)
    decreases |p|
  {
    if p == [] {
      assert h.stdin + p == h.stdin;
    } else {
      var h1 := Write(h, p[0]);
      assert h1 == h.(stdin := h.stdin + [p[0]], index := h.index + 1);
      WriteAllDiagnostic(h1, p[1..]);
      assert h.stdin + [p[0]] + p[1..] == h.stdin + p;
    }
  }

  /**
   * A whole configuration frame, begun on an idle handler, lands at the
   * start of the configuration buffer; after `end_frame` the handler is idle
   * again, so the next `begin_frame` is legal.
   */
  lemma ConfigurationFrameLands(h: Handler, p: seq<Byte>)
    requires h.frameType == None && |p| <= |h.configuration|
    ensures End(WriteAll(Begin(h, ConfigurationFrame), p))
         == h.(configuration := p + h.configuration[|p|..], index := 0)
  {
    var h1 := Begin(h, ConfigurationFrame);
    var c := h.configuration;
    WriteAllConfiguration(h1, p);
    assert c[..0] + p == p;
    var h2 := h1.(configuration := p + c[|p|..], index := |p|);
    assert WriteAll(h1, p) == h2;
    assert End(h2) == h.(configuration := p + c[|p|..], index := 0);
  }

  lemma IpFrameLands(h: Handler, p: seq<Byte>)
    requires h.frameType == None && |p| <= |h.packet|
    ensures End(WriteAll(Begin(h, IpFrame), p)) == h.(packet := p + h.packet[|p|..], index := 0)
  {
    var h1 := Begin(h, IpFrame);
    var c := h.packet;
    WriteAllIp(h1, p);
    assert c[..0] + p == p;
    var h2 := h1.(packet := p + c[|p|..], index := |p|);
    assert WriteAll(h1, p) == h2;
    assert End(h2) == h.(packet := p + c[|p|..], index := 0);
  }

  lemma DiagnosticFrameLands(h: Handler, p: seq<Byte>)
    requires h.frameType == None
    ensures End(WriteAll(Begin(h, DiagnosticFrame), p)) == h.(stdin := h.stdin + p, index := 0)
  {
    WriteAllDiagnostic(Begin(h, DiagnosticFrame), p);
  }

  /** `RiotSlipmuxFramehandler`: the frame type and offset updated in place, the two buffers written in place. */
  class FrameHandler {
    var frameType: Option<FrameType>
    var index: nat
    const configurationBuffer: array<Byte>
    const packetBuffer: array<Byte>
    var stdin: seq<Byte>

    ghost predicate Valid()
      reads this
    {
      configurationBuffer != packetBuffer
    }

    function Model(): Handler
      reads this, configurationBuffer, packetBuffer
    {
      Handler(frameType, index, configurationBuffer[..], packetBuffer[..], stdin)
    }

    /** `new`: no frame in progress, offset 0, over two distinct buffers. */
    constructor (configurationBuffer: array<Byte>, packetBuffer: array<Byte>)
      requires configurationBuffer != packetBuffer
      ensures Valid() && frameType == None && index == 0 && stdin == []
      ensures this.configurationBuffer == configurationBuffer && this.packetBuffer == packetBuffer
    {
      this.configurationBuffer := configurationBuffer;
      this.packetBuffer := packetBuffer;
      frameType := None;
      index := 0;
      stdin := [];
    }

    /** `begin_frame`: only legal between frames (the prototype asserts it). */
    method BeginFrame(t: FrameType)
      requires frameType == None
      modifies this`frameType, this`index
      ensures Model() == Begin(old(Model()), t)
    {
      frameType := Some(t);
      index := 0;
    }

    /**
     * `write_byte`: the byte goes where the current frame type says, and the
     * offset always advances. Outside a frame the prototype panics; a buffer
     * write past the end panics too.
     */
    method WriteByte(b: Byte)
      requires Valid() && CanWrite(Model())
      modifies this`index, this`stdin, configurationBuffer, packetBuffer
      ensures Model() == Write(old(Model()), b)
    {
      match frameType.value {
        case DiagnosticFrame =>
          stdin := stdin + [b];
        case ConfigurationFrame =>
          configurationBuffer[index] := b;
        case IpFrame =>
          packetBuffer[index] := b;
      }
      index := index + 1;
    }

    /** `end_frame`: whatever error is reported, the handler is idle again. */
    method EndFrame(err: Option<nat>)
      modifies this`frameType, this`index
      ensures Model() == End(old(Model()))
    {
      frameType := None;
      index := 0;
    }
  }

  /** The transmit trace of `stdio_write`: the write guard is dropped at once, so no lock events appear. */
  function StdioTrace(stdout: bool, data: seq<Byte>): seq<TxEvent>
  {
    if stdout then [Tx(DIAGNOSTIC_START)] + Sent(Escape(data)) + [Tx(END)] else []
  }

  /** One payload byte of `write_escaping_bytes`: END and ESC as two-byte escapes, any other byte as itself. */
  method PutEscaped(w: Wire, b: Byte)
    modifies w`trace
    ensures w.trace == old(w.trace) + Sent(EscapeByte(b))
  {
    if b == END {
      w.Put(ESC);
      w.Put(END_ESC);
    } else if b == ESC {
      w.Put(ESC);
      w.Put(ESC_ESC);
    } else {
      w.Put(b);
    }
  }

  /** `write_escaping_bytes` over `uart.write` of one byte at a time. */
  method WriteEscapingBytes(w: Wire, bytes: seq<Byte>)
    modifies w`trace
    ensures w.trace == old(w.trace) + Sent(Escape(bytes))
  {
    var j := 0;
    while j < |bytes|
      invariant 0 <= j <= |bytes|
      invariant w.trace == old(w.trace) + Sent(Escape(bytes[..j]))
    {
      RustSlipmux.EscapeStep(bytes, j);
      PutEscaped(w, bytes[j]);
      ConcatAssoc(old(w.trace), Sent(Escape(bytes[..j])), Sent(EscapeByte(bytes[j])));
      j := j + 1;
    }
    assert bytes[..j] == bytes;
  }

  /** `stdio_write`: a diagnostic frame and the full length when the UART is set up, else nothing and 0. */
  method StdioWrite(w: Wire, stdout: bool, data: seq<Byte>) returns (n: nat)
    modifies w`trace
    ensures n == (if stdout then |data| else 0)
    ensures w.trace == old(w.trace) + StdioTrace(stdout, data)
  {
    if stdout {
      w.Put(DIAGNOSTIC_START);
      WriteEscapingBytes(w, data);
      w.Put(END);
      n := |data|;
    } else {
      n := 0;
    }
  }

  /** What a stdout write puts on the wire is exactly the diagnostic frame the first prototype's decoder reads back. */
  lemma StdioWireBytes(data: seq<Byte>, m: RustSlipmux.Rx)
    requires m.state == RustSlipmux.NoFrame
    ensures WireBytes(StdioTrace(true, data)) == [DIAGNOSTIC_START] + Escape(data) + [END]
    ensures WireBytes(StdioTrace(false, data)) == []
    ensures RustSlipmux.Feed(m, WireBytes(StdioTrace(true, data))) == m.(stdin := m.stdin + data)
  {
    var s := Sent(Escape(data));
    WireBytesOne(Tx(DIAGNOSTIC_START));
    WireBytesOne(Tx(END));
    WireBytesAppend([Tx(DIAGNOSTIC_START)] + s, [Tx(END)]);
    WireBytesAppend([Tx(DIAGNOSTIC_START)], s);
    WireBytesSent(Escape(data));
    RustSlipmux.DiagnosticFrameDelivered(m, data);
  }
}
