/**
 * The receive side of the C slipmux driver: the interrupt callback that
 * demultiplexes the byte stream into diagnostic (stdin), configuration (CoAP)
 * and IP frames. The callback is modelled twice: as a pure step function on a
 * record of everything it touches (RxStep, the specification), and as a
 * method on the device object that mutates the corresponding fields (Step),
 * proved equal to it.
 *
 * The network channel is always present: the NET-state branch adds bytes to
 * the network ring outside any module guard, and that ring only exists when
 * the network module is compiled in.
 */
module SlipmuxRx {
  import opened Bytes
  import opened Framing
  import opened ChunkRing
  import opened SlipmuxInternal

  /** The build and wiring facts the callback branches on. */
  datatype RxConfig = RxConfig(modules: Modules, onStdioUart: bool)
  {
    /** Diagnostic bytes reach the stdin pipe only with stdio compiled in and on the stdio UART. */
    predicate StdinDelivered() {
      modules.stdio && onStdioUart
    }
  }

  /**
   * Everything the callback reads or writes: the state, what has been written
   * to the stdin pipe, both rings, whether the CoAP thread has been flagged,
   * and how many network events have been raised.
   */
  datatype RxModel = RxModel(state: State, stdin: seq<Byte>, coap: Ring, net: Ring, coapFlag: bool, netEvents: nat)

  /**
   * The device invariant: both rings within capacity, and the state says
   * which ring has an open chunk (the CoAP ring only when CoAP is compiled in).
   */
  ghost predicate RxInv(cfg: RxConfig, m: RxModel) {
    && m.coap.Valid() && m.net.Valid()
    && m.state !in {Standby, Sleep}
    && (m.state in {Idle, Stdin, StdinEsc} ==> m.coap.open == None && m.net.open == None)
    && (m.state in {Coap, CoapEsc} ==> (m.coap.open.Some? <==> cfg.modules.coap) && m.net.open == None)
    && (m.state in {Net, NetEsc} ==> m.net.open.Some? && m.coap.open == None)
  }

  /** What one diagnostic byte adds to the stdin pipe. */
  function StdinByte(cfg: RxConfig, b: Byte): (r: seq<Byte>)
    ensures cfg.StdinDelivered() ==> r == [b]
    ensures !cfg.StdinDelivered() ==> r == []
  {
    if cfg.StdinDelivered() then [b] else []
  }

  /** A (decoded) payload byte of a CoAP frame: stored, or the whole frame dropped when the ring is full. */
  function CoapAdd(cfg: RxConfig, m: RxModel, b: Byte): (r: RxModel)
    requires RxInv(cfg, m) && m.state in {Coap, CoapEsc}
    ensures RxInv(cfg, r)
  {
    if !cfg.modules.coap then m.(state := Coap)
    else
      OperationsKeepValid(m.coap, b, false);
      var (ok, r) := AddByte(m.coap, b);
      OperationsKeepValid(r, b, false);
      if ok then m.(state := Coap, coap := r) else m.(state := Idle, coap := EndChunk(r, false))
  }

  /** A (decoded) payload byte of an IP frame: stored, or the whole frame dropped when the ring is full. */
  function NetAdd(cfg: RxConfig, m: RxModel, b: Byte): (r: RxModel)
    requires RxInv(cfg, m) && m.state in {Net, NetEsc}
    ensures RxInv(cfg, r)
  {
    OperationsKeepValid(m.net, b, false);
    var (ok, r) := AddByte(m.net, b);
    OperationsKeepValid(r, b, false);
    if ok then m.(state := Net, net := r) else m.(state := Idle, net := EndChunk(r, false))
  }

  /** A byte outside any frame: a start marker opens a frame (when the ring has room), anything else is ignored. */
  function IdleStep(cfg: RxConfig, m: RxModel, b: Byte): (r: RxModel)
    requires RxInv(cfg, m) && m.state == Idle
    ensures RxInv(cfg, r)
  {
    if b == DIAGNOSTIC_START then m.(state := Stdin)
    else if b == CONFIGURATION_START then
      (if !cfg.modules.coap then m.(state := Coap)
       else
         var (ok, r) := StartChunk(m.coap);
         if ok then m.(state := Coap, coap := r) else m)
    else if IsIpStart(b) then
      var (ok, r) := StartChunk(m.net);
      if !ok then m
      else
        OperationsKeepValid(r, b, false);
        var (ok2, r2) := AddByte(r, b);
        OperationsKeepValid(r2, b, false);
        if ok2 then m.(state := Net, net := r2) else m.(net := EndChunk(r2, false))
    else m
  }

  /** END in a CoAP frame: the frame is committed and the CoAP thread flagged (when CoAP is compiled in). */
  function CoapEnd(cfg: RxConfig, m: RxModel): (r: RxModel)
    requires RxInv(cfg, m) && m.state == Coap
    ensures RxInv(cfg, r)
  {
    OperationsKeepValid(m.coap, END, true);
    if cfg.modules.coap then m.(state := Idle, coap := EndChunk(m.coap, true), coapFlag := true)
    else m.(state := Idle)
  }

  /** END in an IP frame: the packet is committed and a network event raised. */
  function NetEnd(cfg: RxConfig, m: RxModel): (r: RxModel)
    requires RxInv(cfg, m) && m.state == Net
    ensures RxInv(cfg, r)
  {
    OperationsKeepValid(m.net, END, true);
    m.(state := Idle, net := EndChunk(m.net, true), netEvents := m.netEvents + 1)
  }

  /** _slipmux_rx_cb: the effect of one received byte. */
  function RxStep(cfg: RxConfig, m: RxModel, b: Byte): (r: RxModel)
    requires RxInv(cfg, m)
    ensures RxInv(cfg, r)
  {
    match m.state
    case Stdin =>
      if b == ESC then m.(state := StdinEsc)
      else if b == END then m.(state := Idle)
      else m.(stdin := m.stdin + StdinByte(cfg, b))
    case StdinEsc =>
      m.(state := Stdin, stdin := m.stdin + StdinByte(cfg, UnescapeByte(b)))
    case Coap =>
      if b == ESC then m.(state := CoapEsc)
      else if b == END then CoapEnd(cfg, m)
      else CoapAdd(cfg, m, b)
    case CoapEsc =>
      CoapAdd(cfg, m, UnescapeByte(b))
    case Net =>
      if b == ESC then m.(state := NetEsc)
      else if b == END then NetEnd(cfg, m)
      else NetAdd(cfg, m, b)
    case NetEsc =>
      NetAdd(cfg, m, UnescapeByte(b))
    case Idle =>
      IdleStep(cfg, m, b)
    case Standby => m
    case Sleep => m
  }

  /** The callback applied to each byte of a stream in turn. */
  function Feed(cfg: RxConfig, m: RxModel, bytes: seq<Byte>): (r: RxModel)
    requires RxInv(cfg, m)
    ensures RxInv(cfg, r)
    decreases |bytes|
  {
    if bytes == [] then m else Feed(cfg, RxStep(cfg, m, bytes[0]), bytes[1..])
  }

  /** The slipmux device descriptor: the fields the receive callback updates in place. */
  class Device {
    const cfg: RxConfig
    var state: State
    var stdin: seq<Byte>
    var coapRb: Ring
    var netRb: Ring
    var coapFlag: bool
    var netEvents: nat

    function Model(): RxModel
      reads this
    {
      RxModel(state, stdin, coapRb, netRb, coapFlag, netEvents)
    }

    ghost predicate Valid()
      reads this
    {
      RxInv(cfg, Model())
    }

    /** The zero-initialised static descriptor: state NONE, rings not yet given memory. */
    constructor (cfg: RxConfig)
      ensures Valid() && this.cfg == cfg
      ensures Model() == RxModel(Idle, [], ChunkRing.Init(0), ChunkRing.Init(0), false, 0)
    {
      this.cfg := cfg;
      state := Idle;
      stdin := [];
      coapRb := ChunkRing.Init(0);
      netRb := ChunkRing.Init(0);
      coapFlag := false;
      netEvents := 0;
    }

    /**
     * slipmux_init: registers the receive callback with the UART; when that
     * succeeds, gives the CoAP ring (slipmux_coap_init) and the network ring
     * their memory. A failed UART initialisation leaves the device untouched.
     */
    method Init(w: Transport.Wire, uartOk: bool)
      requires Valid() && state == Idle
      modifies this, w`rxHook
      ensures Valid()
      ensures uartOk ==> w.rxHook == Transport.SlipmuxDecoder
      ensures uartOk ==> Model() == old(Model()).(
        coap := if cfg.modules.coap then ChunkRing.Init(COAP_BUFSIZE) else old(coapRb),
        net := ChunkRing.Init(NET_BUFSIZE))
      ensures !uartOk ==> Model() == old(Model()) && w.rxHook == old(w.rxHook)
    {
      if !uartOk {
        return;
      }
      w.SetRxHook(Transport.SlipmuxDecoder);
      if cfg.modules.coap {
        coapRb := ChunkRing.Init(COAP_BUFSIZE);
      }
      netRb := ChunkRing.Init(NET_BUFSIZE);
    }

    /** _slipmux_rx_cb: one received byte, processed in place. */
    method Step(b: Byte)
      requires Valid()
      modifies this
      ensures Valid()
      ensures Model() == RxStep(cfg, old(Model()), b)
    {
      match state
      case Stdin =>
        if b == ESC {
          state := StdinEsc;
        } else if b == END {
          state := Idle;
        } else if cfg.StdinDelivered() {
          stdin := stdin + [b];
        }
      case StdinEsc =>
        var c := UnescapeByte(b);
        state := Stdin;
        if cfg.StdinDelivered() {
          stdin := stdin + [c];
        }
      case Coap =>
        if b == ESC {
          state := CoapEsc;
        } else if b == END {
          state := Idle;
          if cfg.modules.coap {
            OperationsKeepValid(coapRb, b, true);
            coapRb := EndChunk(coapRb, true);
            coapFlag := true;
          }
        } else {
          AddCoapByte(b);
        }
      case CoapEsc =>
        AddCoapByte(UnescapeByte(b));
      case Net =>
        if b == ESC {
          state := NetEsc;
        } else if b == END {
          OperationsKeepValid(netRb, b, true);
          netRb := EndChunk(netRb, true);
          netEvents := netEvents + 1;
          state := Idle;
        } else {
          AddNetByte(b);
        }
      case NetEsc =>
        AddNetByte(UnescapeByte(b));
      case Idle =>
        StartFrame(b);
      case Standby =>
      case Sleep =>
    }

    /** A payload byte in a CoAP frame: on a full ring the frame is dropped and the state returns to NONE. */
    method AddCoapByte(b: Byte)
      requires Valid() && state in {Coap, CoapEsc}
      modifies this
      ensures Valid()
      ensures Model() == CoapAdd(cfg, old(Model()), b)
    {
      if cfg.modules.coap {
        var ok, r := AddByte(coapRb, b).0, AddByte(coapRb, b).1;
        OperationsKeepValid(coapRb, b, false);
        if !ok {
          OperationsKeepValid(r, b, false);
          coapRb := EndChunk(r, false);
          state := Idle;
          return;
        }
        coapRb := r;
      }
      state := Coap;
    }

    /** A payload byte in an IP frame: on a full ring the frame is dropped and the state returns to NONE. */
    method AddNetByte(b: Byte)
      requires Valid() && state in {Net, NetEsc}
      modifies this
      ensures Valid()
      ensures Model() == NetAdd(cfg, old(Model()), b)
    {
      var ok, r := AddByte(netRb, b).0, AddByte(netRb, b).1;
      OperationsKeepValid(netRb, b, false);
      if !ok {
        OperationsKeepValid(r, b, false);
        netRb := EndChunk(r, false);
        state := Idle;
        return;
      }
      netRb := r;
      state := Net;
    }

    /** A byte outside any frame: a start marker opens a frame, anything else is ignored. */
    method StartFrame(b: Byte)
      requires Valid() && state == Idle
      modifies this
      ensures Valid()
      ensures Model() == IdleStep(cfg, old(Model()), b)
    {
      if b == DIAGNOSTIC_START {
        state := Stdin;
        return;
      }
      if b == CONFIGURATION_START {
        if cfg.modules.coap {
          var ok, r := StartChunk(coapRb).0, StartChunk(coapRb).1;
          if !ok {
            return;
          }
          coapRb := r;
        }
        state := Coap;
        return;
      }
      if IsIpStart(b) {
        var ok, r := StartChunk(netRb).0, StartChunk(netRb).1;
        if !ok {
          return;
        }
        var ok2, r2 := AddByte(r, b).0, AddByte(r, b).1;
        if !ok2 {
          // The driver drops the frame here, but a chunk that could be
          // started always has room for its first byte.
          assert false;
        }
        netRb := r2;
        state := Net;
        return;
      }
    }
  }
}
