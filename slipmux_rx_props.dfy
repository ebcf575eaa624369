/**
 * Properties of the slipmux receive state machine over whole byte streams:
 * what each kind of frame delivers, that noise between frames is ignored,
 * that only complete frames are ever committed, and what a full ring does.
 */
module SlipmuxRxProps {
  import opened Bytes
  import opened Framing
  import opened ChunkRing
  import opened SlipmuxInternal
  import opened SlipmuxRx

  lemma {:induction false} FeedAppend(cfg: RxConfig, m: RxModel, a: seq<Byte>, b: seq<Byte>)
    requires RxInv(cfg, m)
    ensures Feed(cfg, m, a + b) == Feed(cfg, Feed(cfg, m, a), b)
    decreases |a|
  {
    if a == [] {
      assert a + b == b;
    } else {
      assert (a + b)[0] == a[0];
      assert (a + b)[1..] == a[1..] + b;
      FeedAppend(cfg, RxStep(cfg, m, a[0]), a[1..], b);
    }
  }

  lemma FeedOne(cfg: RxConfig, m: RxModel, x: Byte)
    requires RxInv(cfg, m)
    ensures Feed(cfg, m, [x]) == RxStep(cfg, m, x)
  {
    assert [x][1..] == [];
  }

  lemma FeedTwo(cfg: RxConfig, m: RxModel, x: Byte, y: Byte)
    requires RxInv(cfg, m)
    ensures Feed(cfg, m, [x, y]) == RxStep(cfg, RxStep(cfg, m, x), y)
  {
    assert [x, y][1..] == [y];
    FeedOne(cfg, RxStep(cfg, m, x), y);
  }

  /** A byte that starts no frame. */
  predicate IsNoise(b: Byte) {
    b != DIAGNOSTIC_START && b != CONFIGURATION_START && !IsIpStart(b)
  }

  /** Between frames, bytes that start no frame (END among them) change nothing. */
  lemma {:induction false} NoiseIgnored(cfg: RxConfig, m: RxModel, bytes: seq<Byte>)
    requires RxInv(cfg, m) && m.state == Idle
    requires forall i :: 0 <= i < |bytes| ==> IsNoise(bytes[i])
    ensures Feed(cfg, m, bytes) == m
    decreases |bytes|
  {
    if bytes != [] {
      assert IsNoise(bytes[0]);
      NoiseIgnored(cfg, m, bytes[1..]);
    }
  }

  /** One escaped payload byte inside a CoAP frame with room for it: stored as itself. */
  lemma CoapByte(cfg: RxConfig, m: RxModel, b: Byte)
    requires RxInv(cfg, m) && m.state == Coap && cfg.modules.coap
    requires m.coap.Used() < m.coap.capacity
    ensures Feed(cfg, m, EscapeByte(b)) == m.(coap := m.coap.(open := Some(m.coap.open.value + [b])))
  {
    if b == END || b == ESC {
      FeedTwo(cfg, m, ESC, if b == END then END_ESC else ESC_ESC);
    } else {
      FeedOne(cfg, m, b);
    }
  }

  /** The escaped body of a CoAP frame with room for it: appended to the open chunk, byte for byte. */
  lemma {:induction false} CoapBody(cfg: RxConfig, m: RxModel, p: seq<Byte>)
    requires RxInv(cfg, m) && m.state == Coap && cfg.modules.coap
    requires m.coap.Used() + |p| <= m.coap.capacity
    ensures Feed(cfg, m, Escape(p)) == m.(coap := m.coap.(open := Some(m.coap.open.value + p)))
    decreases |p|
  {
    if p == [] {
      assert m.coap.open.value + p == m.coap.open.value;
    } else {
      CoapByte(cfg, m, p[0]);
      FeedAppend(cfg, m, EscapeByte(p[0]), Escape(p[1..]));
      var m' := m.(coap := m.coap.(open := Some(m.coap.open.value + [p[0]])));
      CoapBody(cfg, m', p[1..]);
      assert m.coap.open.value + [p[0]] + p[1..] == m.coap.open.value + p;
    }
  }

  /**
   * A complete configuration frame that fits: exactly its payload is
   * committed to the CoAP ring, the CoAP thread is flagged, and the state
   * is back to NONE.
   */
  lemma CoapFrameDelivered(cfg: RxConfig, m: RxModel, p: seq<Byte>)
    requires RxInv(cfg, m) && m.state == Idle && cfg.modules.coap
    requires m.coap.Used() < m.coap.capacity && m.coap.Used() + |p| <= m.coap.capacity
    ensures Feed(cfg, m, [CONFIGURATION_START] + Escape(p) + [END])
         == m.(coap := m.coap.(committed := m.coap.committed + [p]), coapFlag := true)
  {
    var m1 := RxStep(cfg, m, CONFIGURATION_START);
    assert m1 == m.(state := Coap, coap := m.coap.(open := Some([])));
    FeedAppend(cfg, m, [CONFIGURATION_START] + Escape(p), [END]);
    FeedAppend(cfg, m, [CONFIGURATION_START], Escape(p));
    FeedOne(cfg, m, CONFIGURATION_START);
    CoapBody(cfg, m1, p);
    assert [] + p == p;
    var m2 := m1.(coap := m1.coap.(open := Some(p)));
    FeedOne(cfg, m2, END);
  }

  /** Without the CoAP module a configuration frame is swallowed whole. */
  lemma {:induction false} CoapFrameIgnored(cfg: RxConfig, m: RxModel, p: seq<Byte>)
    requires RxInv(cfg, m) && m.state == Idle && !cfg.modules.coap
    ensures Feed(cfg, m, [CONFIGURATION_START] + Escape(p) + [END]) == m
  {
    FeedAppend(cfg, m, [CONFIGURATION_START] + Escape(p), [END]);
    FeedAppend(cfg, m, [CONFIGURATION_START], Escape(p));
    FeedOne(cfg, m, CONFIGURATION_START);
    var m1 := m.(state := Coap);
    CoapBodyIgnored(cfg, m1, p);
    FeedOne(cfg, m1, END);
  }

  lemma {:induction false} CoapBodyIgnored(cfg: RxConfig, m: RxModel, p: seq<Byte>)
    requires RxInv(cfg, m) && m.state == Coap && !cfg.modules.coap
    ensures Feed(cfg, m, Escape(p)) == m
    decreases |p|
  {
    if p != [] {
      var b := p[0];
      if b == END || b == ESC {
        FeedTwo(cfg, m, ESC, if b == END then END_ESC else ESC_ESC);
      } else {
        FeedOne(cfg, m, b);
      }
      FeedAppend(cfg, m, EscapeByte(b), Escape(p[1..]));
      CoapBodyIgnored(cfg, m, p[1..]);
    }
  }

  /** One escaped payload byte inside an IP frame with room for it: stored as itself. */
  lemma NetByte(cfg: RxConfig, m: RxModel, b: Byte)
    requires RxInv(cfg, m) && m.state == Net
    requires m.net.Used() < m.net.capacity
    ensures Feed(cfg, m, EscapeByte(b)) == m.(net := m.net.(open := Some(m.net.open.value + [b])))
  {
    if b == END || b == ESC {
      FeedTwo(cfg, m, ESC, if b == END then END_ESC else ESC_ESC);
    } else {
      FeedOne(cfg, m, b);
    }
  }

  lemma {:induction false} NetBody(cfg: RxConfig, m: RxModel, p: seq<Byte>)
    requires RxInv(cfg, m) && m.state == Net
    requires m.net.Used() + |p| <= m.net.capacity
    ensures Feed(cfg, m, Escape(p)) == m.(net := m.net.(open := Some(m.net.open.value + p)))
    decreases |p|
  {
    if p == [] {
      assert m.net.open.value + p == m.net.open.value;
    } else {
      NetByte(cfg, m, p[0]);
      FeedAppend(cfg, m, EscapeByte(p[0]), Escape(p[1..]));
      var m' := m.(net := m.net.(open := Some(m.net.open.value + [p[0]])));
      NetBody(cfg, m', p[1..]);
      assert m.net.open.value + [p[0]] + p[1..] == m.net.open.value + p;
    }
  }

  /**
   * An IP packet that fits: its first byte is its own start marker, the whole
   * packet is committed to the network ring, one network event is raised, and
   * the state is back to NONE.
   */
  lemma NetFrameDelivered(cfg: RxConfig, m: RxModel, p: seq<Byte>)
    requires RxInv(cfg, m) && m.state == Idle
    requires p != [] && IsIpStart(p[0])
    requires m.net.Used() + |p| <= m.net.capacity
    ensures Feed(cfg, m, Escape(p) + [END])
         == m.(net := m.net.(committed := m.net.committed + [p]), netEvents := m.netEvents + 1)
  {
    assert Escape(p) == [p[0]] + Escape(p[1..]);
    NetFirstByte(cfg, m, p[0]);
    var m1 := m.(state := Net, net := m.net.(open := Some([p[0]])));
    FeedAppend(cfg, m, Escape(p), [END]);
    FeedAppend(cfg, m, [p[0]], Escape(p[1..]));
    NetBody(cfg, m1, p[1..]);
    assert [p[0]] + p[1..] == p;
    FeedOne(cfg, m1.(net := m1.net.(open := Some(p))), END);
  }

  /** The first byte of an IPv6 packet opens a network chunk holding that byte. */
  lemma NetFirstByte(cfg: RxConfig, m: RxModel, b: Byte)
    requires RxInv(cfg, m) && m.state == Idle && IsIpStart(b)
    requires m.net.Used() + 1 <= m.net.capacity
    ensures Feed(cfg, m, [b]) == m.(state := Net, net := m.net.(open := Some([b])))
  {
    var started := m.net.(open := Some([]));
    assert StartChunk(m.net) == (true, started);
    assert [] + [b] == [b];
    assert AddByte(started, b) == (true, m.net.(open := Some([b])));
    FeedOne(cfg, m, b);
  }

  /** One escaped byte inside a diagnostic frame delivers that byte (or nothing) and stays in the frame. */
  lemma StdinEscapedByte(cfg: RxConfig, m: RxModel, b: Byte)
    requires RxInv(cfg, m) && m.state == Stdin
    ensures Feed(cfg, m, EscapeByte(b)) == m.(stdin := m.stdin + StdinByte(cfg, b))
  {
    if b == END || b == ESC {
      FeedTwo(cfg, m, ESC, if b == END then END_ESC else ESC_ESC);
    } else {
      FeedOne(cfg, m, b);
    }
  }

  lemma {:induction false} StdinBody(cfg: RxConfig, m: RxModel, p: seq<Byte>)
    requires RxInv(cfg, m) && m.state == Stdin
    ensures Feed(cfg, m, Escape(p)) == m.(stdin := m.stdin + (if cfg.StdinDelivered() then p else []))
    decreases |p|
  {
    if p == [] {
      assert m.stdin + [] == m.stdin;
    } else {
      var b := p[0];
      StdinEscapedByte(cfg, m, b);
      FeedAppend(cfg, m, EscapeByte(b), Escape(p[1..]));
      var m' := m.(stdin := m.stdin + StdinByte(cfg, b));
      StdinBody(cfg, m', p[1..]);
      if cfg.StdinDelivered() {
        assert m.stdin + [b] + p[1..] == m.stdin + p;
      }
    }
  }

  /**
   * A diagnostic frame: its payload goes to the stdin pipe when the device
   * is the stdio UART and stdio is compiled in, and nowhere otherwise; no
   * ring is touched.
   */
  lemma StdinFrameDelivered(cfg: RxConfig, m: RxModel, p: seq<Byte>)
    requires RxInv(cfg, m) && m.state == Idle
    ensures Feed(cfg, m, [DIAGNOSTIC_START] + Escape(p) + [END])
         == m.(stdin := m.stdin + (if cfg.StdinDelivered() then p else []))
  {
    FeedAppend(cfg, m, [DIAGNOSTIC_START] + Escape(p), [END]);
    FeedAppend(cfg, m, [DIAGNOSTIC_START], Escape(p));
    FeedOne(cfg, m, DIAGNOSTIC_START);
    var m1 := m.(state := Stdin);
    StdinBody(cfg, m1, p);
    FeedOne(cfg, m1.(stdin := m.stdin + (if cfg.StdinDelivered() then p else [])), END);
  }

  /**
   * Only complete frames are committed: a step leaves both FIFOs as they
   * were, except an END that closes a CoAP (or IP) frame, which appends
   * exactly the open chunk.
   */
  lemma CommitOnlyAtEnd(cfg: RxConfig, m: RxModel, b: Byte)
    requires RxInv(cfg, m)
    ensures var r := RxStep(cfg, m, b);
      && (r.coap.committed == m.coap.committed
          || (b == END && m.state == Coap && r.coap.committed == m.coap.committed + [m.coap.open.value]))
      && (r.net.committed == m.net.committed
          || (b == END && m.state == Net && r.net.committed == m.net.committed + [m.net.open.value]))
  {
    CoapCommitOnlyAtEnd(cfg, m, b);
    NetCommitOnlyAtEnd(cfg, m, b);
  }

  lemma CoapCommitOnlyAtEnd(cfg: RxConfig, m: RxModel, b: Byte)
    requires RxInv(cfg, m)
    ensures var r := RxStep(cfg, m, b);
      r.coap.committed == m.coap.committed
      || (b == END && m.state == Coap && r.coap.committed == m.coap.committed + [m.coap.open.value])
  {
    match m.state
    case Idle =>
    case Stdin =>
    case StdinEsc =>
    case Coap =>
    case CoapEsc =>
    case Net =>
    case NetEsc =>
  }

  lemma NetCommitOnlyAtEnd(cfg: RxConfig, m: RxModel, b: Byte)
    requires RxInv(cfg, m)
    ensures var r := RxStep(cfg, m, b);
      r.net.committed == m.net.committed
      || (b == END && m.state == Net && r.net.committed == m.net.committed + [m.net.open.value])
  {
    match m.state
    case Idle =>
    case Stdin =>
    case StdinEsc =>
    case Coap =>
    case CoapEsc =>
    case Net =>
    case NetEsc =>
  }

  /** A payload byte that does not fit drops the whole CoAP frame: nothing of it is kept. */
  lemma CoapOverflowDrops(cfg: RxConfig, m: RxModel, b: Byte)
    requires RxInv(cfg, m) && m.state == Coap && cfg.modules.coap
    requires m.coap.Used() == m.coap.capacity && b != ESC && b != END
    ensures RxStep(cfg, m, b) == m.(state := Idle, coap := m.coap.(open := None))
  {
  }

  /**
   * After a dropped frame the rest of it is read as if between frames: with a
   * one-byte CoAP ring, the tail of [A9 01 02 60 C0] is taken for an IPv6
   * packet [60].
   */
  lemma OverflowTailReparsed(cfg: RxConfig)
    requires cfg.modules.coap
    ensures var m := RxModel(Idle, [], ChunkRing.Init(1), ChunkRing.Init(NET_BUFSIZE), false, 0);
      var r := Feed(cfg, m, [0xA9, 0x01, 0x02, 0x60, 0xC0]);
      r.coap.committed == [] && r.net.committed == [[0x60]] && r.netEvents == 1
  {
    var net0 := ChunkRing.Init(NET_BUFSIZE);
    var m := RxModel(Idle, [], ChunkRing.Init(1), net0, false, 0);
    var m1 := m.(state := Coap, coap := Ring(1, [], Some([])));
    assert RxStep(cfg, m, 0xA9) == m1;
    var m2 := m1.(coap := Ring(1, [], Some([0x01])));
    assert m1.coap.Used() == 0;
    assert [] + [0x01 as Byte] == [0x01];
    assert RxStep(cfg, m1, 0x01) == m2;
    var m3 := m2.(state := Idle, coap := Ring(1, [], None));
    assert m2.coap.Used() == 1;
    assert RxStep(cfg, m2, 0x02) == m3;
    var m4 := m3.(state := Net, net := net0.(open := Some([0x60])));
    assert [] + [0x60 as Byte] == [0x60];
    assert RxStep(cfg, m3, 0x60) == m4;
    var m5 := m4.(state := Idle, net := net0.(committed := [[0x60]]), netEvents := 1);
    assert RxStep(cfg, m4, 0xC0) == m5;
    var s: seq<Byte> := [0xA9, 0x01, 0x02, 0x60, 0xC0];
    FeedOne(cfg, m4, 0xC0);
    assert s[4..] == [0xC0];
    assert s[3..][1..] == s[4..];
    assert s[2..][1..] == s[3..];
    assert s[1..][1..] == s[2..];
    assert Feed(cfg, m3, s[3..]) == m5;
    assert Feed(cfg, m2, s[2..]) == m5;
    assert Feed(cfg, m1, s[1..]) == m5;
    assert Feed(cfg, m, s) == m5;
  }
}
