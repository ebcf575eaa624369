/**
 * The stdio side of the C slipmux driver: stdout goes out as diagnostic
 * frames, and until the driver proper takes the UART over, received bytes go
 * to stdin unframed.
 */
module SlipmuxStdio {
  import opened Bytes
  import opened Framing
  import opened Transport
  import opened SlipmuxInternal
  import opened SlipmuxRx
  import SlipmuxRxProps

  /** The transmit trace of one stdout write: marker, escaped text, END, all under one hold of the mutex. */
  function DiagnosticTrace(mods: Modules, text: seq<Byte>): seq<TxEvent>
  {
    MutexEvent(mods, Acquire) + [Tx(DIAGNOSTIC_START)] + Sent(Escape(text)) + [Tx(END)] + MutexEvent(mods, Release)
  }

  /** _write: the whole buffer goes out as one diagnostic frame, and its full length is reported. */
  method Write(w: Wire, mods: Modules, text: seq<Byte>) returns (n: nat)
    modifies w`trace
    ensures n == |text|
    ensures w.trace == old(w.trace) + DiagnosticTrace(mods, text)
  {
    Lock(w, mods);
    WriteByte(w, DIAGNOSTIC_START);
    WriteBytes(w, text);
    WriteByte(w, END);
    Unlock(w, mods);
    n := |text|;
  }

  /** _init: received bytes go straight to stdin, and an END flushes whatever the peer had half-received. */
  method Init(w: Wire)
    modifies w
    ensures w.rxHook == RawToStdin
    ensures w.trace == old(w.trace) + [Tx(END)]
  {
    w.SetRxHook(RawToStdin);
    WriteByte(w, END);
  }

  /** _isrpipe_write: the raw receive callback puts each byte into the stdin pipe as it is. */
  method RawReceive(d: Device, b: Byte)
    modifies d`stdin
    ensures d.stdin == old(d.stdin) + [b]
  {
    d.stdin := d.stdin + [b];
  }

  /** Leaving the mutex events out, a stdout write is the diagnostic frame of its text. */
  lemma DiagnosticWireBytes(mods: Modules, text: seq<Byte>)
    ensures WireBytes(DiagnosticTrace(mods, text)) == [DIAGNOSTIC_START] + Escape(text) + [END]
  {
    var a, r := MutexEvent(mods, Acquire), MutexEvent(mods, Release);
    var e := Escape(text);
    var s := Sent(e);
    var t := [Tx(DIAGNOSTIC_START)];
    var z := [Tx(END)];
    WireBytesOne(Acquire);
    WireBytesOne(Release);
    WireBytesOne(Tx(DIAGNOSTIC_START));
    WireBytesOne(Tx(END));
    assert WireBytes(a) == [] && WireBytes(r) == [];
    WireBytesAppend(a, t);
    assert WireBytes(a + t) == [DIAGNOSTIC_START];
    WireBytesAppend(a + t, s);
    WireBytesSent(e);
    assert WireBytes(a + t + s) == [DIAGNOSTIC_START] + e;
    WireBytesAppend(a + t + s, z);
    assert WireBytes(a + t + s + z) == [DIAGNOSTIC_START] + e + [END];
    WireBytesAppend(a + t + s + z, r);
  }

  /**
   * What a stdout write looks like to a receiver running the slipmux decoder:
   * the text arrives on its stdin (when that receiver delivers diagnostic
   * frames), and nothing else changes.
   */
  lemma DiagnosticReadBack(mods: Modules, text: seq<Byte>, cfg: RxConfig, m: RxModel)
    requires RxInv(cfg, m) && m.state == Idle
    ensures Feed(cfg, m, WireBytes(DiagnosticTrace(mods, text)))
         == m.(stdin := m.stdin + (if cfg.StdinDelivered() then text else []))
  {
    DiagnosticWireBytes(mods, text);
    SlipmuxRxProps.StdinFrameDelivered(cfg, m, text);
  }
}
