/**
 * The CoAP side of the C slipmux driver: the worker thread that takes
 * configuration frames out of the CoAP ring, checks their FCS, hands them to
 * the CoAP stack and writes each response back as a configuration frame.
 *
 * The CoAP stack itself (coap_parse, coap_handle_req) is a parameter: its
 * verdicts are inputs of the model, not computed by it.
 */
module SlipmuxCoap {
  import opened Bytes
  import opened Framing
  import opened Transport
  import opened ChunkRing
  import opened SlipmuxInternal
  import opened SlipmuxRx
  import SlipmuxRxProps
  import opened Fcs

  /** Size of the worker's static packet buffer. */
  const BUF_SIZE: nat := 512

  /** What coap_handle_req returned, and the buffer after it wrote its response to the front. */
  datatype Handled = Handled(ret: int, buf: seq<Byte>)

  /** The CoAP stack as the worker sees it: whether a packet parses, and what handling it yields. */
  datatype Stack = Stack(parses: seq<Byte> -> bool, handle: seq<Byte> -> Handled)

  /** coap_handle_req writes within the buffer it is given and reports a length within it. */
  ghost predicate Bounded(st: Stack) {
    forall pkt :: |st.handle(pkt).buf| == BUF_SIZE && st.handle(pkt).ret <= BUF_SIZE
  }

  /** The length of the response to send, if any: the handler's return value read as a signed length. */
  function ReplyLen(ret: int): (n: Option<nat>)
    ensures n.Some? <==> ret > 0
    ensures n.Some? ==> n.value == ret
  {
    if ret <= 0 then None else Some(ret)
  }

  /** The same decision as written: the int return value is stored in an unsigned int before the test. */
  function ReplyLenAsWritten(ret: int): (n: Option<nat>)
    ensures n.Some? <==> ret % 0x1_0000_0000 != 0
  {
    var res: nat := ret % 0x1_0000_0000;
    if res <= 0 then None else Some(res)
  }

  /** With the as-written test a failed handling (-1) is taken for a response of 4294967295 bytes. */
  lemma NegativeReturnSent()
    ensures ReplyLenAsWritten(-1) == Some(0xFFFF_FFFF) && 0xFFFF_FFFF > BUF_SIZE
    ensures ReplyLen(-1) == None
  {
  }

  /**
   * Every negative `ssize_t` result the as-written test lets through is read
   * as a length beyond the buffer, where the corrected test sends nothing.
   */
  lemma NegativeReturnsOverread(ret: int)
    requires -0x8000_0000 <= ret < 0
    ensures ReplyLenAsWritten(ret) == Some(ret + 0x1_0000_0000)
    ensures ReplyLenAsWritten(ret).value > BUF_SIZE
    ensures ReplyLen(ret) == None
  {
  }

  /** What one chunk in the worker loop leads to: it is dropped, the loop stops, or a response goes out. */
  datatype Verdict = Dropped | Stop | Reply(response: seq<Byte>)

  /**
   * A chunk that earns a response: its FCS residue is good, the packet without
   * the two FCS bytes parses, and handling it reports a positive length.
   */
  predicate Accepted(st: Stack, chunk: seq<Byte>) {
    && |chunk| >= 2
    && Update(SPECIAL_INIT_FCS, chunk) == GOOD_FCS
    && st.parses(chunk[..|chunk| - 2])
    && st.handle(chunk[..|chunk| - 2]).ret > 0
  }

  /** One chunk through the residue test, coap_parse and coap_handle_req. */
  function Serve(st: Stack, chunk: seq<Byte>): (v: Verdict)
    requires Bounded(st)
    ensures !v.Dropped?
    ensures v.Reply? <==> Accepted(st, chunk)
    ensures v.Reply? ==> |v.response| == st.handle(chunk[..|chunk| - 2]).ret
    ensures v.Reply? ==> 0 < |v.response| <= BUF_SIZE
    ensures v.Reply? ==> v.response == st.handle(chunk[..|chunk| - 2]).buf[..|v.response|]
  {
    if Update(SPECIAL_INIT_FCS, chunk) != GOOD_FCS then Stop
    else
      PassingChunkHoldsFcs(chunk);
      var pkt := chunk[..|chunk| - 2];
      if !st.parses(pkt) then Stop
      else
        var h := st.handle(pkt);
        match ReplyLen(h.ret)
        case None => Stop
        case Some(n) => Reply(h.buf[..n])
  }

  /** A chunk too large for the worker's buffer is dropped; any other is served. */
  function Examine(st: Stack, chunk: seq<Byte>): (v: Verdict)
    requires Bounded(st)
    ensures v.Dropped? <==> |chunk| > BUF_SIZE
  {
    if |chunk| > BUF_SIZE then Dropped else Serve(st, chunk)
  }

  /**
   * The worker loop over the committed chunks, corrected: a chunk too large
   * for the buffer is consumed and dropped (`PassAsWritten` shows the source
   * leaving it in the ring), and a handler failure is recognised by its sign
   * (`ReplyLenAsWritten` shows the unsigned test); a chunk that fails a check is consumed and ends the
   * loop, leaving the rest for the next wake-up; every other chunk yields a
   * response. Returns the responses and the chunks left over.
   */
  function Drain(st: Stack, q: seq<seq<Byte>>): (res: (seq<seq<Byte>>, seq<seq<Byte>>))
    requires Bounded(st)
    ensures |res.1| <= |q|
    ensures |res.0| <= |q|
    ensures forall i :: 0 <= i < |res.0| ==> 0 < |res.0[i]| <= BUF_SIZE
    decreases |q|
  {
    if q == [] then ([], [])
    else match Examine(st, q[0])
      case Dropped => Drain(st, q[1..])
      case Stop => ([], q[1..])
      case Reply(resp) =>
        var rest := Drain(st, q[1..]);
        ([resp] + rest.0, rest.1)
  }

  /** Drain, one chunk at a time, given the verdict on the oldest chunk. */
  lemma DrainStep(st: Stack, q: seq<seq<Byte>>, v: Verdict)
    requires Bounded(st) && q != [] && v == Examine(st, q[0])
    ensures v.Dropped? ==> Drain(st, q) == Drain(st, q[1..])
    ensures v.Stop? ==> Drain(st, q) == ([], q[1..])
    ensures v.Reply? ==> Drain(st, q) == ([v.response] + Drain(st, q[1..]).0, Drain(st, q[1..]).1)
  {
  }

  /** What the loop leaves queued is the tail of the queue it started with. */
  lemma {:induction false} DrainLeavesSuffix(st: Stack, q: seq<seq<Byte>>)
    requires Bounded(st)
    ensures Drain(st, q).1 == q[|q| - |Drain(st, q).1|..]
    decreases |q|
  {
    if q != [] && (|q[0]| > BUF_SIZE || Serve(st, q[0]).Reply?) {
      DrainLeavesSuffix(st, q[1..]);
      var n := |Drain(st, q[1..]).1|;
      assert q[1..][|q| - 1 - n..] == q[|q| - n..];
    }
  }

  /** When every chunk is accepted the ring is emptied and there is one response per chunk, in order. */
  lemma {:induction false} DrainAllAccepted(st: Stack, q: seq<seq<Byte>>)
    requires Bounded(st)
    requires forall i :: 0 <= i < |q| ==> |q[i]| <= BUF_SIZE && Accepted(st, q[i])
    ensures Drain(st, q).1 == []
    ensures |Drain(st, q).0| == |q|
    ensures forall i :: 0 <= i < |q| ==> Drain(st, q).0[i] == Serve(st, q[i]).response
    decreases |q|
  {
    if q != [] {
      var t := q[1..];
      assert |q[0]| <= BUF_SIZE && Serve(st, q[0]).Reply?;
      forall i | 0 <= i < |t|
        ensures |t[i]| <= BUF_SIZE && Accepted(st, t[i])
      {
        assert t[i] == q[i + 1];
      }
      DrainAllAccepted(st, t);
      var rest := Drain(st, t);
      assert Drain(st, q) == ([Serve(st, q[0]).response] + rest.0, rest.1);
      forall i | 0 <= i < |q|
        ensures Drain(st, q).0[i] == Serve(st, q[i]).response
      {
        if i > 0 {
          assert t[i - 1] == q[i];
        }
      }
    }
  }

  /** The first rejected chunk ends the loop: the responses before it are sent, the chunks after it stay queued. */
  lemma {:induction false} DrainStopsAtRejected(st: Stack, q: seq<seq<Byte>>, k: nat)
    requires Bounded(st) && k < |q|
    requires forall i :: 0 <= i < k ==> |q[i]| <= BUF_SIZE && Accepted(st, q[i])
    requires |q[k]| <= BUF_SIZE && !Accepted(st, q[k])
    ensures Drain(st, q).1 == q[k + 1..]
    ensures |Drain(st, q).0| == k
    decreases k
  {
    if k > 0 {
      assert |q[0]| <= BUF_SIZE && Serve(st, q[0]).Reply?;
      assert forall i :: 0 <= i < |q[1..]| ==> q[1..][i] == q[i + 1];
      DrainStopsAtRejected(st, q[1..], k - 1);
      assert q[1..][k..] == q[k + 1..];
    }
  }

  /** What a response frame carries between its marker and END: the response, then its FCS, low byte first. */
  function ReplyBody(resp: seq<Byte>): (body: seq<Byte>)
    ensures |body| == |resp| + 2 && body[..|resp|] == resp
  {
    var body := resp + Le16(Finish(SPECIAL_INIT_FCS, resp));
    assert body[..|resp|] == resp;
    body
  }

  /** Every response frame passes the residue test the worker applies to incoming frames. */
  lemma ReplyBodyPasses(resp: seq<Byte>)
    ensures Update(SPECIAL_INIT_FCS, ReplyBody(resp)) == GOOD_FCS
  {
    FrameWithFcsPasses(SPECIAL_INIT_FCS, resp);
  }

  /** The transmit trace of one configuration frame: marker, escaped payload, escaped FCS and END, all under one hold of the mutex. */
  function FrameTrace(mods: Modules, payload: seq<Byte>, fcs: bv16): seq<TxEvent>
  {
    MutexEvent(mods, Acquire)
    + [Tx(CONFIGURATION_START)]
    + Sent(Escape(payload))
    + Sent(Escape(Le16(fcs)))
    + [Tx(END)]
    + MutexEvent(mods, Release)
  }

  /** The transmit trace of one response, with the FCS the worker computes for it. */
  function ReplyTrace(mods: Modules, resp: seq<Byte>): seq<TxEvent>
  {
    FrameTrace(mods, resp, Finish(SPECIAL_INIT_FCS, resp))
  }

  function RepliesTrace(mods: Modules, resps: seq<seq<Byte>>): seq<TxEvent>
    decreases |resps|
  {
    if resps == [] then [] else ReplyTrace(mods, resps[0]) + RepliesTrace(mods, resps[1..])
  }

  lemma {:induction false} RepliesTraceAppend(mods: Modules, a: seq<seq<Byte>>, r: seq<Byte>)
    ensures RepliesTrace(mods, a + [r]) == RepliesTrace(mods, a) + ReplyTrace(mods, r)
    decreases |a|
  {
    if a == [] {
      assert [r][1..] == [];
    } else {
      assert (a + [r])[1..] == a[1..] + [r];
      RepliesTraceAppend(mods, a[1..], r);
    }
  }

  /**
   * A response frame read back by the slipmux receive state machine: the CoAP
   * ring of the receiver gets the response followed by its FCS, which passes
   * the residue test and strips back to the response.
   */
  lemma ReplyReadBack(mods: Modules, resp: seq<Byte>, cfg: RxConfig, m: RxModel)
    requires RxInv(cfg, m) && m.state == Idle && cfg.modules.coap
    requires m.coap.Used() < m.coap.capacity && m.coap.Used() + |resp| + 2 <= m.coap.capacity
    ensures var body := ReplyBody(resp);
      && Feed(cfg, m, Transport.WireBytes(ReplyTrace(mods, resp)))
         == m.(coap := m.coap.(committed := m.coap.committed + [body]), coapFlag := true)
      && Update(SPECIAL_INIT_FCS, body) == GOOD_FCS
      && body[..|body| - 2] == resp
  {
    ReplyWireBytes(mods, resp);
    SlipmuxRxProps.CoapFrameDelivered(cfg, m, ReplyBody(resp));
    ReplyBodyPasses(resp);
  }

  /** Leaving the mutex events out, a frame trace is the marker, the escaped payload and FCS, and END. */
  lemma FrameWireBytes(mods: Modules, payload: seq<Byte>, fcs: bv16)
    ensures WireBytes(FrameTrace(mods, payload, fcs)) == [CONFIGURATION_START] + Escape(payload + Le16(fcs)) + [END]
  {
    var a, r := MutexEvent(mods, Acquire), MutexEvent(mods, Release);
    var e1, e2 := Escape(payload), Escape(Le16(fcs));
    var s1, s2 := Sent(e1), Sent(e2);
    var t := [Tx(CONFIGURATION_START)];
    var z := [Tx(END)];
    var m := [CONFIGURATION_START];
    WireBytesOne(Acquire);
    WireBytesOne(Release);
    WireBytesOne(Tx(CONFIGURATION_START));
    WireBytesOne(Tx(END));
    assert WireBytes(a) == [] && WireBytes(r) == [];
    WireBytesAppend(a, t);
    assert WireBytes(a + t) == m;
    WireBytesAppend(a + t, s1);
    WireBytesSent(e1);
    assert WireBytes(a + t + s1) == m + e1;
    WireBytesAppend(a + t + s1, s2);
    WireBytesSent(e2);
    assert WireBytes(a + t + s1 + s2) == m + e1 + e2;
    WireBytesAppend(a + t + s1 + s2, z);
    WireBytesAppend(a + t + s1 + s2 + z, r);
    assert WireBytes(a + t + s1 + s2 + z + r) == m + e1 + e2 + [END];
    EscapeAppend(payload, Le16(fcs));
    ConcatAssoc(m, e1, e2);
  }

  lemma ReplyWireBytes(mods: Modules, resp: seq<Byte>)
    ensures WireBytes(ReplyTrace(mods, resp)) == [CONFIGURATION_START] + Escape(ReplyBody(resp)) + [END]
  {
    FrameWireBytes(mods, resp, Finish(SPECIAL_INIT_FCS, resp));
  }

  /** slipmux_lock, the four writes of one frame, slipmux_unlock. */
  method SendFrame(w: Wire, mods: Modules, payload: seq<Byte>, fcs: bv16)
    modifies w`trace
    ensures w.trace == old(w.trace) + FrameTrace(mods, payload, fcs)
  {
    Lock(w, mods);
    WriteByte(w, CONFIGURATION_START);
    WriteBytes(w, payload);
    WriteBytes(w, Le16(fcs));
    WriteByte(w, END);
    Unlock(w, mods);
    ConcatRegroup(old(w.trace), MutexEvent(mods, Acquire), [Tx(CONFIGURATION_START)], Sent(Escape(payload)),
                  Sent(Escape(Le16(fcs))), [Tx(END)], MutexEvent(mods, Release));
  }

  /** The reply to one request: its FCS computed over the response, then the frame written under the mutex. */
  method SendReply(w: Wire, mods: Modules, resp: seq<Byte>)
    modifies w`trace
    ensures w.trace == old(w.trace) + ReplyTrace(mods, resp)
  {
    var fcs := Finish(SPECIAL_INIT_FCS, resp);
    SendFrame(w, mods, resp, fcs);
  }

  /** One pass of the worker's inner loop: go on (perhaps with a response sent) or leave the loop. */
  datatype Pass = Next(ring: Ring, reply: Option<seq<Byte>>) | Done(ring: Ring)

  /** A pass as written: a chunk larger than the buffer is skipped without being consumed (the sign test is still `Serve`'s). */
  function PassAsWritten(st: Stack, r: Ring): Pass
    requires Bounded(st) && r.committed != []
  {
    if |r.committed[0]| > BUF_SIZE then Next(r, None)
    else
      var (chunk, rest) := Consume(r);
      match Serve(st, chunk)
      case Dropped => Next(rest, None)
      case Stop => Done(rest)
      case Reply(resp) => Next(rest, Some(resp))
  }

  /**
   * As written, an oversized chunk makes no progress: the pass leaves the
   * ring as it was and the loop condition still holds, so the loop never
   * ends and every chunk behind it waits for ever.
   */
  lemma OversizeChunkSpins(st: Stack, r: Ring)
    requires Bounded(st) && r.committed != [] && |r.committed[0]| > BUF_SIZE
    ensures PassAsWritten(st, r) == Next(r, None)
    ensures PeekSize(PassAsWritten(st, r).ring).Some?
  {
  }

  /** A concrete ring that shows it: a 1024-byte CoAP ring holding one 600-byte frame. */
  lemma OversizeExample(st: Stack)
    requires Bounded(st)
    ensures var r := Ring(1024, [seq(600, i => 0)], None);
      r.Valid() && PassAsWritten(st, r) == Next(r, None)
  {
    var r := Ring(1024, [seq(600, i => 0)], None);
    assert TotalLen(r.committed) == 600 + TotalLen([]);
  }

  /** With the default ring size (no larger than the buffer) every chunk fits, so the as-written pass always progresses. */
  lemma DefaultRingNeverSpins(st: Stack, r: Ring)
    requires Bounded(st) && r.Valid() && r.capacity <= BUF_SIZE && r.committed != []
    ensures |PassAsWritten(st, r).ring.committed| < |r.committed|
  {
    ChunksFit(r, 0);
  }

  /**
   * The inner loop of _slipmux_coap_server_thread, with an oversized chunk
   * consumed and dropped and a handler failure recognised by its sign: the
   * ring keeps the chunks Drain leaves, and exactly Drain's responses are
   * written, in order.
   */
  method ServePending(d: Device, w: Wire, st: Stack)
    requires d.Valid() && Bounded(st)
    modifies d`coapRb, w`trace
    ensures d.Valid()
    ensures d.coapRb == old(d.coapRb).(committed := Drain(st, old(d.coapRb.committed)).1)
    ensures w.trace == old(w.trace) + RepliesTrace(d.cfg.modules, Drain(st, old(d.coapRb.committed)).0)
  {
    ghost var q0 := d.coapRb.committed;
    ghost var done: seq<seq<Byte>> := [];
    while PeekSize(d.coapRb).Some?
      invariant d.Valid()
      invariant d.coapRb == old(d.coapRb).(committed := d.coapRb.committed)
      invariant Drain(st, q0).0 == done + Drain(st, d.coapRb.committed).0
      invariant Drain(st, q0).1 == Drain(st, d.coapRb.committed).1
      invariant w.trace == old(w.trace) + RepliesTrace(d.cfg.modules, done)
      decreases |d.coapRb.committed|
    {
      ghost var q := d.coapRb.committed;
      var v := ServeOne(d, w, st);
      DrainAdvance(st, q0, done, q, v);
      if v.Stop? {
        break;
      }
      TraceAdvance(old(w.trace), d.cfg.modules, done, v);
      done := Answered(done, v);
    }
    assert done + [] == done;
  }

  /** The responses sent so far, after one more verdict. */
  ghost function Answered(done: seq<seq<Byte>>, v: Verdict): seq<seq<Byte>>
  {
    if v.Reply? then done + [v.response] else done
  }

  /** One step of the worker loop keeps Drain's split into what was answered and what is still to come. */
  lemma DrainAdvance(st: Stack, q0: seq<seq<Byte>>, done: seq<seq<Byte>>, q: seq<seq<Byte>>, v: Verdict)
    requires Bounded(st) && q != [] && v == Examine(st, q[0])
    requires Drain(st, q0).0 == done + Drain(st, q).0 && Drain(st, q0).1 == Drain(st, q).1
    ensures v.Stop? ==> Drain(st, q0) == (done + [], q[1..])
    ensures !v.Stop? ==> Drain(st, q0).0 == Answered(done, v) + Drain(st, q[1..]).0
    ensures !v.Stop? ==> Drain(st, q0).1 == Drain(st, q[1..]).1
  {
    DrainStep(st, q, v);
    if v.Reply? {
      ConcatAssoc(done, [v.response], Drain(st, q[1..]).0);
    }
  }

  /** One step of the worker loop: the trace is the replies so far, now including this one's. */
  lemma TraceAdvance(t: seq<TxEvent>, mods: Modules, done: seq<seq<Byte>>, v: Verdict)
    ensures t + RepliesTrace(mods, done) + (if v.Reply? then ReplyTrace(mods, v.response) else [])
         == t + RepliesTrace(mods, Answered(done, v))
  {
    if v.Reply? {
      RepliesTraceAppend(mods, done, v.response);
      ConcatAssoc(t, RepliesTrace(mods, done), ReplyTrace(mods, v.response));
    } else {
      assert t + RepliesTrace(mods, done) + [] == t + RepliesTrace(mods, done);
    }
  }

  /** One pass of the corrected loop: the oldest chunk is consumed, and answered when it passes every check. */
  method ServeOne(d: Device, w: Wire, st: Stack) returns (v: Verdict)
    requires d.Valid() && Bounded(st) && d.coapRb.committed != []
    modifies d`coapRb, w`trace
    ensures d.Valid()
    ensures v == Examine(st, old(d.coapRb.committed[0]))
    ensures d.coapRb == old(d.coapRb).(committed := old(d.coapRb.committed[1..]))
    ensures w.trace == old(w.trace) + (if v.Reply? then ReplyTrace(d.cfg.modules, v.response) else [])
  {
    var len := PeekSize(d.coapRb).value;
    OperationsKeepValid(d.coapRb, 0, false);
    var chunk, rest := Consume(d.coapRb).0, Consume(d.coapRb).1;
    d.coapRb := rest;
    if len > BUF_SIZE {
      return Dropped;
    }
    if Update(SPECIAL_INIT_FCS, chunk) != GOOD_FCS {
      return Stop;
    }
    PassingChunkHoldsFcs(chunk);
    var pkt := chunk[..len - 2];
    if !st.parses(pkt) {
      return Stop;
    }
    var h := st.handle(pkt);
    if h.ret <= 0 {
      return Stop;
    }
    var resp := h.buf[..h.ret];
    SendReply(w, d.cfg.modules, resp);
    v := Reply(resp);
    assert w.trace == old(w.trace) + ReplyTrace(d.cfg.modules, resp);
  }

  /** One wake-up of the worker: the thread flag is taken, then the pending chunks are served. */
  method Wake(d: Device, w: Wire, st: Stack)
    requires d.Valid() && Bounded(st) && d.coapFlag
    modifies d`coapRb, d`coapFlag, w`trace
    ensures d.Valid() && !d.coapFlag
    ensures d.coapRb == old(d.coapRb).(committed := Drain(st, old(d.coapRb.committed)).1)
    ensures w.trace == old(w.trace) + RepliesTrace(d.cfg.modules, Drain(st, old(d.coapRb.committed)).0)
  {
    d.coapFlag := false;
    ServePending(d, w, st);
  }
}
