/**
 * The SAM0 SERCOM UART driver: the baud-rate register computation in its
 * fractional and arithmetic variants, the register values `uart_init` and
 * `uart_mode` leave behind, the early exits of `uart_write`, and the
 * flow-control pin queries.
 *
 * CTRLA and CTRLB are modelled field by field, by the names the driver uses
 * for them; the vendor header that places the fields in the 32-bit words is
 * not part of this model. BAUD is the 16-bit register value. Integers are
 * unbounded, so every 32-bit wrap of the C code is written out with `Wrap32`.
 */
module Sam0Uart {
  import opened Bytes

  // ----- 32-bit arithmetic -----

  const U32: nat := 0x1_0000_0000

  /** A value reduced to `uint32_t`. */
  function Wrap32(x: int): (r: nat)
    ensures r < U32
    ensures 0 <= x < U32 ==> r == x
  {
    x % U32
  }

  function Pow2(n: nat): (p: nat)
    ensures p >= 1
  {
    if n == 0 then 1 else 2 * Pow2(n - 1)
  }

  lemma {:induction false} Pow2Add(a: nat, b: nat)
    ensures Pow2(a + b) == Pow2(a) * Pow2(b)
    decreases a
  {
    if a > 0 {
      Pow2Add(a - 1, b);
      assert Pow2(a + b) == 2 * Pow2(a - 1 + b);
    }
  }

  lemma {:induction false} Pow2Mono(a: nat, b: nat)
    requires a <= b
    ensures Pow2(a) <= Pow2(b)
    decreases b
  {
    if a < b {
      Pow2Mono(a, b - 1);
    }
  }

  /** `__builtin_clz`: the shift that brings the top one bit of a nonzero 32-bit value to bit 31. */
  function Clz(x: nat): (n: nat)
    requires 0 < x < U32
    ensures 0x8000_0000 <= x * Pow2(n) < U32
    decreases U32 - x
  {
    if x >= 0x8000_0000 then 0 else Clz(2 * x) + 1
  }

  lemma MulAtLeast(t: int, f: int)
    requires t >= 1 && f > 0
    ensures t * f >= f
  {
    assert t * f == (t - 1) * f + f;
    assert (t - 1) * f >= 0;
  }

  lemma MulMono(a: nat, b: nat, k: nat)
    requires a <= b
    ensures a * k <= b * k
  {
    assert b * k == a * k + (b - a) * k;
  }

  /** Quotient and remainder are the only ones with a remainder in range. */
  lemma DivUnique(x: int, f: int, d: int, m: int)
    requires f > 0 && 0 <= m < f && x == d * f + m
    ensures x / f == d && x % f == m
  {
    var D, M := x / f, x % f;
    if d < D {
      assert (D - d) * f == m - M;
      MulAtLeast(D - d, f);
    } else if d > D {
      assert (d - D) * f == M - m;
      MulAtLeast(d - D, f);
    }
  }

  lemma DivSplit(q: nat, r: nat, f: nat, k: nat)
    requires f > 0 && r < f
    ensures ((q * f + r) * k) / f == q * k + (r * k) / f
  {
    var d, m := (r * k) / f, (r * k) % f;
    assert (q * f + r) * k == (q * k + d) * f + m;
    DivUnique((q * f + r) * k, f, q * k + d, m);
  }

  lemma DivBound(x: nat, f: nat, k: nat)
    requires f > 0 && x <= f * k
    ensures x / f <= k
  {
    var d := x / f;
    assert d * f <= x;
    if d > k {
      MulAtLeast(d - k, f);
    }
  }

  /** Dividing twice is dividing by the product. */
  lemma DivDiv(x: nat, a: nat, c: nat)
    requires a > 0 && c > 0
    ensures (x / a) / c == x / (a * c)
  {
    var q1, r1 := x / a, x % a;
    var q2, r2 := q1 / c, q1 % c;
    assert x == q2 * (a * c) + (r2 * a + r1) by {
      assert x == q1 * a + r1;
      assert q1 * a == (q2 * c + r2) * a;
    }
    MulMono(r2, c - 1, a);
    assert (c - 1) * a == a * c - a;
    DivUnique(x, a * c, q2, r2 * a + r1);
  }

  /** A common factor cancels out of a quotient. */
  lemma DivCancel(k: nat, x: nat, y: nat)
    requires k > 0 && y > 0
    ensures (k * x) / (k * y) == x / y
  {
    var q, r := x / y, x % y;
    assert k * x == q * (k * y) + k * r by {
      assert x == q * y + r;
    }
    MulMono(r, y - 1, k);
    assert (y - 1) * k == k * y - k;
    DivUnique(k * x, k * y, q, k * r);
  }

  // ----- oversampling and fractional baud rate -----

  /** The CTRLA.SAMPR code `uart_init` picks and the clock it then hands to `_set_baud`. */
  datatype Sampling = Sampling(sampr: nat, fsrc: nat)

  /**
   * The fractional build's choice: 8x oversampling (SAMPR 3, clock doubled)
   * when `baudrate * 16 > f_src` in 32-bit arithmetic, 16x (SAMPR 1) otherwise.
   */
  function ChooseSampling(baudrate: nat, fsrc: nat): (s: Sampling)
    requires baudrate < U32 && fsrc < U32
    ensures s.sampr == 3 || s.sampr == 1
    ensures baudrate < 0x1000_0000 ==> (s.sampr == 3 <==> 16 * baudrate > fsrc)
    ensures s.sampr == 3 ==> s.fsrc == Wrap32(2 * fsrc)
    ensures s.sampr == 1 ==> s.fsrc == fsrc
  {
    if Wrap32(baudrate * 16) > fsrc then Sampling(3, Wrap32(fsrc * 2)) else Sampling(1, fsrc)
  }

  /**
   * The constraint `f_baud <= f_src / S` holds after the choice whenever 8x
   * oversampling can meet it at all: the clock `_set_baud` sees is at least
   * 16 times the baud rate.
   */
  lemma SamplingMeetsConstraint(baudrate: nat, fsrc: nat)
    requires baudrate < 0x1000_0000 && fsrc < 0x8000_0000 && 8 * baudrate <= fsrc
    ensures 16 * baudrate <= ChooseSampling(baudrate, fsrc).fsrc
  {
  }

  /** The two fields of the BAUD register in fractional mode: BAUD (13 bits) and FP (3 bits). */
  datatype FracBaud = FracBaud(baud: nat, fp: nat)

  /** `_set_baud`, fractional: `baud = f_src * 8 / baudrate` in 32 bits, FP = bits 6..4, BAUD = bits 19..7 (the field keeps 13 bits). */
  function FracBaudOf(baudrate: nat, fsrc: nat): (r: FracBaud)
    requires 0 < baudrate && fsrc < U32
    ensures r.fp < 8 && r.baud < 0x2000
  {
    var baud := Wrap32(fsrc * 8) / baudrate;
    FracBaud((baud / 128) % 0x2000, (baud / 16) % 8)
  }

  /** The BAUD register value of a fractional setting: FP in bits 15..13, BAUD in bits 12..0. */
  function FracRegister(r: FracBaud): (v: nat)
    requires r.fp < 8 && r.baud < 0x2000
    ensures v < 0x1_0000
  {
    r.fp * 0x2000 + r.baud
  }

  /**
   * The fractional setting meets its design equation `BAUD + FP/8 = f_src / (16 * f_baud)`,
   * rounded down to eighths: `8 * BAUD + FP == f_src / (2 * f_baud)`, as long as
   * `8 * f_src` fits in 32 bits and BAUD fits its 13-bit field.
   */
  lemma FracBaudEquation(baudrate: nat, fsrc: nat)
    requires 0 < baudrate && 8 * fsrc < U32 && (8 * fsrc / baudrate) / 128 < 0x2000
    ensures 8 * FracBaudOf(baudrate, fsrc).baud + FracBaudOf(baudrate, fsrc).fp == fsrc / (2 * baudrate)
  {
    var baud := (8 * fsrc) / baudrate;
    var y := baud / 16;
    DivDiv(baud, 16, 8);
    assert baud / 128 == y / 8;
    DivDiv(8 * fsrc, baudrate, 16);
    assert baudrate * 16 == 8 * (2 * baudrate);
    DivCancel(8, fsrc, 2 * baudrate);
    assert y == fsrc / (2 * baudrate);
  }

  // ----- arithmetic baud rate -----

  /**
   * The inputs for which `_set_baud`'s arithmetic mode is defined in C: a
   * nonzero clock, and a leading-zero count `pow` with `pow - 4 >= 0` (the
   * shift `1 << (pow - 4)`) and `20 - pow >= 0` (the `uint8_t` scale that
   * would otherwise wrap to a shift of 32 or more).
   */
  predicate ArithArgs(baudrate: nat, fsrc: nat) {
    0 < baudrate < U32 && 0 < fsrc < U32 && 4 <= Clz(baudrate) <= 20
  }

  /** The rates from 2048 up to 2^28 - 1 are exactly those the arithmetic mode is defined for. */
  lemma ClzRange(baudrate: nat)
    requires 2048 <= baudrate < 0x1000_0000
    ensures 4 <= Clz(baudrate) <= 20
  {
    var n := Clz(baudrate);
    var p := Pow2(n);
    assert 0x8000_0000 <= baudrate * p < U32;
    if n < 4 {
      Pow2Mono(n, 3);
      assert Pow2(3) == 8;
      MulMono(p, 8, baudrate);
    } else if n > 20 {
      Pow2Mono(21, n);
      Pow2Add(16, 5);
      assert Pow2(16) == 0x1_0000 && Pow2(5) == 32;
      MulMono(2048, baudrate, p);
    }
  }

  /**
   * `_set_baud`, arithmetic, as written: `rem << scale` is computed in 32
   * bits, and the result is stored into the 16-bit BAUD register.
   */
  function ArithBaudAsWritten(baudrate: nat, fsrc: nat): (r: nat)
    requires ArithArgs(baudrate, fsrc)
    ensures r < 0x1_0000
  {
    var pow := Clz(baudrate);
    var shifted := baudrate * Pow2(pow);
    var tmp := Wrap32(Pow2(pow - 4) - shifted / fsrc);
    var rem := shifted % fsrc;
    var scale := 20 - pow;
    Wrap32(Wrap32(tmp * Pow2(scale)) - Wrap32(rem * Pow2(scale)) / fsrc) % 0x1_0000
  }

  /** `_set_baud`, arithmetic, as evidently intended: `rem << scale` is not truncated. */
  function ArithBaud(baudrate: nat, fsrc: nat): (r: nat)
    requires ArithArgs(baudrate, fsrc)
    ensures r < 0x1_0000
  {
    var pow := Clz(baudrate);
    var shifted := baudrate * Pow2(pow);
    var tmp := Wrap32(Pow2(pow - 4) - shifted / fsrc);
    var rem := shifted % fsrc;
    var scale := 20 - pow;
    Wrap32(Wrap32(tmp * Pow2(scale)) - (rem * Pow2(scale)) / fsrc) % 0x1_0000
  }

  /** The two agree whenever `rem << scale` fits in 32 bits. */
  lemma ArithBaudAgrees(baudrate: nat, fsrc: nat)
    requires ArithArgs(baudrate, fsrc)
    requires ((baudrate * Pow2(Clz(baudrate))) % fsrc) * Pow2(20 - Clz(baudrate)) < U32
    ensures ArithBaudAsWritten(baudrate, fsrc) == ArithBaud(baudrate, fsrc)
  {
    var pow := Clz(baudrate);
    var rem := (baudrate * Pow2(pow)) % fsrc;
    var scale := 20 - pow;
    assert Wrap32(rem * Pow2(scale)) == rem * Pow2(scale);
  }

  lemma Pow2Values()
    ensures Pow2(4) == 16 && Pow2(16) == 0x1_0000 && Pow2(20) == 0x10_0000
  {
    assert Pow2(1) == 2;
    assert Pow2(2) == 4;
    assert Pow2(3) == 8;
    assert Pow2(4) == 16;
    assert Pow2(5) == 32;
    assert Pow2(6) == 64;
    assert Pow2(7) == 128;
    assert Pow2(8) == 256;
    assert Pow2(9) == 512;
    assert Pow2(10) == 1024;
    assert Pow2(11) == 2048;
    assert Pow2(12) == 4096;
    assert Pow2(13) == 8192;
    assert Pow2(14) == 0x4000;
    assert Pow2(15) == 0x8000;
    assert Pow2(16) == 0x1_0000;
    assert Pow2(17) == 0x2_0000;
    assert Pow2(18) == 0x4_0000;
    assert Pow2(19) == 0x8_0000;
  }

  /** The powers the arithmetic mode combines: 2^pow = 16 * 2^(pow-4), 2^(pow-4) * 2^scale = 2^16 and 2^scale * 2^pow = 2^20. */
  lemma ArithPowers(p: nat)
    requires 4 <= p <= 20
    ensures Pow2(p) == 16 * Pow2(p - 4)
    ensures Pow2(p - 4) * Pow2(20 - p) == 0x1_0000
    ensures Pow2(20 - p) * Pow2(p) == 0x10_0000
  {
    Pow2Values();
    Pow2Add(p - 4, 4);
    Pow2Add(20 - p, p);
    Pow2Add(p - 4, 20 - p);
  }

  /** For a feasible rate (16 * baud <= f), `2^pow * baud / f` does not exceed 2^(pow-4). */
  lemma QuotientBound(b: nat, f: nat, K: nat)
    requires 0 < f && 16 * b <= f
    ensures (16 * b * K) / f <= K
  {
    MulMono(16 * b, f, K);
    DivBound(16 * b * K, f, K);
  }

  /** Splitting a scaled dividend into its quotient and remainder parts. */
  lemma DivScaled(x: nat, f: nat, k: nat)
    requires f > 0
    ensures (x * k) / f == (x / f) * k + ((x % f) * k) / f
  {
    var q, r := x / f, x % f;
    assert x == q * f + r;
    DivSplit(q, r, f, k);
  }

  /** The arithmetic of the exactness proof, on plain numbers. */
  lemma ArithCore(b: nat, f: nat, K: nat, S: nat, B: nat)
    requires 0 < f && 16 * b <= f && S >= 1 && K * S == 0x1_0000
    requires B == 16 * b * K && B * S == b * 0x10_0000
    ensures K <= 0x1_0000 && B / f <= K
    ensures (K - B / f) * S == 0x1_0000 - (B / f) * S
    ensures (B / f) * S + ((B % f) * S) / f == (b * 0x10_0000) / f <= 0x1_0000
    ensures 0 <= (B / f) * S && 0 <= ((B % f) * S) / f
  {
    var Q, R := B / f, B % f;
    MulMono(0, Q, S);
    MulMono(0, R, S);
    MulMono(1, S, K);
    QuotientBound(b, f, K);
    assert (K - Q) * S == K * S - Q * S;
    DivScaled(B, f, S);
    QuotientBound(b, f, 0x1_0000);
    assert 16 * b * 0x1_0000 == b * 0x10_0000;
  }

  /** The three 32-bit steps of the corrected arithmetic mode never wrap for a feasible rate. */
  lemma WrapChain(K: nat, Q: nat, S: nat, T: nat, D: nat, E: nat)
    requires Q <= K <= 0x1_0000 && (K - Q) * S == T <= 0x1_0000 && T + E == 0x1_0000 + D && E <= 0x1_0000
    ensures Wrap32(Wrap32(Wrap32(K - Q) * S) - D) % 0x1_0000 == (0x1_0000 - E) % 0x1_0000
  {
    assert Wrap32(K - Q) == K - Q;
    assert Wrap32(T) == T;
    assert Wrap32(T - D) == T - D;
  }

  /** The body of the corrected arithmetic mode, on plain numbers. */
  lemma ArithBody(b: nat, f: nat, P: nat, K: nat, S: nat)
    requires 0 < f && 16 * b <= f && S >= 1 && K * S == 0x1_0000 && P == 16 * K && S * P == 0x10_0000
    ensures Wrap32(Wrap32(Wrap32(K - (b * P) / f) * S) - (((b * P) % f) * S) / f) % 0x1_0000
         == (0x1_0000 - (b * 0x10_0000) / f) % 0x1_0000
  {
    var B := b * P;
    assert B == 16 * b * K by {
      assert b * P == b * (16 * K);
    }
    assert B * S == b * (S * P);
    ArithCore(b, f, K, S, B);
    WrapChain(K, B / f, S, (K - B / f) * S, ((B % f) * S) / f, (b * 0x10_0000) / f);
  }

  /**
   * The corrected arithmetic mode meets its design equation
   * `BAUD = 2^16 * (1 - 16 * f_baud / f_src)`, rounded: for every feasible rate
   * the register holds `2^16 - 2^20 * f_baud / f_src` (in 16 bits).
   */
  lemma ArithBaudExact(b: nat, f: nat)
    requires ArithArgs(b, f) && 16 * b <= f
    ensures ArithBaud(b, f) == (0x1_0000 - (b * 0x10_0000) / f) % 0x1_0000
  {
    var p := Clz(b);
    var P, K, S := Pow2(p), Pow2(p - 4), Pow2(20 - p);
    ArithPowers(p);
    ArithBody(b, f, P, K, S);
  }

  /** 921600 baud from a 48 MHz clock: `rem << 8` wraps, and the register gets 45493 instead of 45404. */
  lemma ArithBaudOverflow()
    ensures ArithArgs(921600, 48_000_000) && 16 * 921600 <= 48_000_000
    ensures ArithBaudAsWritten(921600, 48_000_000) == 45493
    ensures ArithBaud(921600, 48_000_000) == 45404
    ensures ArithBaud(921600, 48_000_000) == 0x1_0000 - (921600 * 0x10_0000) / 48_000_000
  {
    assert Clz(921600) == 12;
    assert Pow2(12) == 4096 && Pow2(8) == 256;
    assert 921600 * 4096 == 3_774_873_600;
    assert 3_774_873_600 / 48_000_000 == 78 && 3_774_873_600 % 48_000_000 == 30_873_600;
    assert 30_873_600 * 256 == 7_903_641_600;
    assert Wrap32(7_903_641_600) == 3_608_674_304;
  }

  // ----- configuration, registers and status -----

  /** A GPIO pin, or `GPIO_UNDEF`. */
  datatype Pin = Undef | Gpio(id: nat)

  /** One entry of the board's `uart_config`: the pins, the pad selections and the two flags. */
  datatype UartConf = UartConf(
    rxPin: Pin, txPin: Pin, rtsPin: Pin, ctsPin: Pin,
    rxPad: nat, txPad: nat,
    runStandby: bool, wakeup: bool)

  /** The return codes of `uart_init` and `uart_mode`. */
  datatype Status = Ok | NoDev | NoMode

  datatype Parity = ParityNone | ParityEven | ParityOdd | ParityMark | ParitySpace

  /** `uart_stop_bits_t`: one or two stop bits, or any other value a caller passes. */
  datatype StopBits = Stop1 | Stop2 | StopOther(code: int)

  /**
   * CTRLA, field by field: the enable bit, the operating mode (1: USART with
   * internal clock), run in standby, the sample rate, the TX and RX pad
   * selections, the frame format (0: plain USART frame, 1: with parity), the
   * data order (set: LSB first) and the bits the driver never names.
   */
  datatype Ctrla = Ctrla(
    enable: bool, mode: bv3, runStandby: bool, sampr: bv3,
    txpo: bv2, rxpo: bv2, form: bv4, dord: bool, rest: bv32)

  /**
   * CTRLB, field by field: the character size, two stop bits, start-of-frame
   * detection, odd parity, the transmitter and receiver enables, and the bits
   * the driver never names.
   */
  datatype Ctrlb = Ctrlb(
    chsize: bv3, sbmode: bool, sfde: bool, pmode: bool, txen: bool, rxen: bool, rest: bv32)

  /** The parts of one SERCOM USART the driver sets: CTRLA, CTRLB, BAUD and the RXC interrupt enable. */
  datatype Regs = Regs(ctrla: Ctrla, ctrlb: Ctrlb, baud: nat, rxc: bool)

  /** The registers after a reset: every field zero. */
  const RESET_REGS := Regs(Ctrla(false, 0, false, 0, 0, 0, 0, false, 0), Ctrlb(0, false, false, false, false, false, 0), 0, false)

  /** The TX pad setting that routes RTS and CTS to pads 2 and 3. */
  const PAD_TX_0_RTS_2_CTS_3: nat := 2

  /** Whether `uart_write` gets past its two early exits: a TX pin is configured and the device is enabled. */
  predicate CanSend(c: UartConf, r: Regs) {
    c.txPin != Undef && r.ctrla.enable
  }

  // ----- uart_init -----

  /**
   * The arguments for which `uart_init` is defined in C: a nonzero baud rate that
   * fits `uint32_t` (fractional mode divides by it), a 32-bit source clock, and
   * in arithmetic mode the range `ArithArgs` describes.
   */
  predicate InitArgs(fractional: bool, baudrate: nat, fsrc: nat) {
    0 < baudrate < U32 && fsrc < U32 && (fractional || ArithArgs(baudrate, fsrc))
  }

  /** The BAUD register value `_set_baud` writes for the clock `uart_init` hands it. */
  function BaudRegister(fractional: bool, baudrate: nat, fsrc: nat): (v: nat)
    requires InitArgs(fractional, baudrate, fsrc)
    ensures v < 0x1_0000
  {
    if fractional then FracRegister(FracBaudOf(baudrate, ChooseSampling(baudrate, fsrc).fsrc))
    else ArithBaudAsWritten(baudrate, fsrc)
  }

  /** The SAMPR code `uart_init` writes: 3 or 1 as `ChooseSampling` picks in fractional mode, 0 in arithmetic mode. */
  function SamprCode(fractional: bool, baudrate: nat, fsrc: nat): (code: bv3)
    requires InitArgs(fractional, baudrate, fsrc)
    ensures !fractional ==> code == 0
    ensures fractional ==> code as nat == ChooseSampling(baudrate, fsrc).sampr
  {
    if !fractional then 0 else if ChooseSampling(baudrate, fsrc).sampr == 3 then 3 else 1
  }

  /** A pad selection as the 2-bit TXPO/RXPO field holds it. */
  function PadField(pad: nat): bv2 {
    (pad % 4) as bv2
  }

  /** Whether `uart_init` turns the receiver on: a callback is given and an RX pin is configured. */
  predicate RxOn(c: UartConf, rxCb: bool) {
    rxCb && c.rxPin != Undef
  }

  /**
   * The registers `uart_init` leaves behind for a known device. Writing 0 to
   * CTRLA and the software reset clear everything first, so the result does
   * not depend on the previous register contents.
   */
  function InitRegs(c: UartConf, fractional: bool, baudrate: nat, fsrc: nat, rxCb: bool): Regs
    requires InitArgs(fractional, baudrate, fsrc)
  {
    var rxOn := RxOn(c, rxCb);
    Regs(
      Ctrla(true, 1, c.runStandby, SamprCode(fractional, baudrate, fsrc),
            PadField(c.txPad), PadField(c.rxPad), 0, true, 0),
      Ctrlb(0, false, rxOn && c.wakeup, false, c.txPin != Undef, rxOn, 0),
      BaudRegister(fractional, baudrate, fsrc),
      rxOn)
  }

  /**
   * What `uart_init` configures: the device is enabled in USART mode with the
   * internal clock, LSB first, the board's pads, the oversampling
   * `ChooseSampling` picks (none in arithmetic mode) and run-in-standby exactly
   * when the board asks for it; the frame is 8N1 (no parity frame, character
   * size code 0, one stop bit); the transmitter is on exactly when a TX pin is
   * configured; the receiver and the RX interrupt exactly when a callback is
   * given and an RX pin is configured; start-of-frame wake-up only together
   * with the receiver and when the board asks for it; the previous register
   * contents play no part.
   */
  lemma InitConfigures(c: UartConf, fractional: bool, baudrate: nat, fsrc: nat, rxCb: bool, before: Regs)
    requires InitArgs(fractional, baudrate, fsrc)
    ensures var r := InitRegs(c, fractional, baudrate, fsrc, rxCb);
      r.ctrla.enable && r.ctrla.mode == 1 && r.ctrla.dord
      && r.ctrla.txpo as nat == c.txPad % 4 && r.ctrla.rxpo as nat == c.rxPad % 4
      && (r.ctrla.runStandby <==> c.runStandby)
      && (fractional ==> r.ctrla.sampr as nat == ChooseSampling(baudrate, fsrc).sampr)
      && (!fractional ==> r.ctrla.sampr == 0)
      && r.ctrla.form == 0 && r.ctrlb.chsize == 0 && !r.ctrlb.sbmode && !r.ctrlb.pmode
      && (r.ctrlb.txen <==> c.txPin != Undef)
      && (r.ctrlb.rxen <==> rxCb && c.rxPin != Undef)
      && (r.rxc <==> rxCb && c.rxPin != Undef)
      && (r.ctrlb.sfde <==> rxCb && c.rxPin != Undef && c.wakeup)
      && r.ctrla.rest == 0 && r.ctrlb.rest == 0
  {
  }

  /** After `uart_init`, `uart_write` transmits exactly when a TX pin is configured. */
  lemma InitEnablesWrite(c: UartConf, fractional: bool, baudrate: nat, fsrc: nat, rxCb: bool)
    requires InitArgs(fractional, baudrate, fsrc)
    ensures CanSend(c, InitRegs(c, fractional, baudrate, fsrc, rxCb)) <==> c.txPin != Undef
  {
  }

  /**
   * The BAUD register `uart_init` programs meets the design equation of its
   * mode: in arithmetic mode `2^16 - 2^20 * f_baud / f_src` for every rate the
   * 16x oversampling can carry whose `rem << scale` does not wrap (see
   * `InitBaudWraps` for one that does); in fractional mode `8 * BAUD + FP` is the
   * clock over twice the rate, with the clock doubled for 8x oversampling.
   */
  lemma InitBaudExact(fractional: bool, baudrate: nat, fsrc: nat)
    requires InitArgs(fractional, baudrate, fsrc)
    ensures !fractional && 16 * baudrate <= fsrc
        && ((baudrate * Pow2(Clz(baudrate))) % fsrc) * Pow2(20 - Clz(baudrate)) < U32
      ==> BaudRegister(fractional, baudrate, fsrc) == (0x1_0000 - (baudrate * 0x10_0000) / fsrc) % 0x1_0000
    ensures fractional && 8 * ChooseSampling(baudrate, fsrc).fsrc < U32
        && (8 * ChooseSampling(baudrate, fsrc).fsrc / baudrate) / 128 < 0x2000
      ==> 8 * FracBaudOf(baudrate, ChooseSampling(baudrate, fsrc).fsrc).baud
            + FracBaudOf(baudrate, ChooseSampling(baudrate, fsrc).fsrc).fp
          == ChooseSampling(baudrate, fsrc).fsrc / (2 * baudrate)
  {
    if !fractional && 16 * baudrate <= fsrc
      && ((baudrate * Pow2(Clz(baudrate))) % fsrc) * Pow2(20 - Clz(baudrate)) < U32
    {
      ArithBaudAgrees(baudrate, fsrc);
      ArithBaudExact(baudrate, fsrc);
    }
    var s := ChooseSampling(baudrate, fsrc);
    if fractional && 8 * s.fsrc < U32 && (8 * s.fsrc / baudrate) / 128 < 0x2000 {
      FracBaudEquation(baudrate, s.fsrc);
    }
  }

  /** At 921600 baud from 48 MHz `uart_init` programs 45493, not the 45404 of the design equation. */
  lemma InitBaudWraps()
    ensures InitArgs(false, 921600, 48_000_000)
    ensures BaudRegister(false, 921600, 48_000_000) == 45493
    ensures BaudRegister(false, 921600, 48_000_000) != 0x1_0000 - (921600 * 0x10_0000) / 48_000_000
  {
    ArithBaudOverflow();
  }

  /** `uart_init`'s register writes, in the order the driver makes them. */
  method InitRegisters(c: UartConf, fractional: bool, baudrate: nat, fsrc: nat, rxCb: bool) returns (r: Regs)
    requires InitArgs(fractional, baudrate, fsrc)
    ensures r == InitRegs(c, fractional, baudrate, fsrc, rxCb)
  {
    r := RESET_REGS;
    var f := fsrc;
    var sampr: bv3 := 0;
    if fractional {
      if Wrap32(baudrate * 16) > fsrc {
        sampr := 3;
        f := Wrap32(fsrc * 2);
      } else {
        sampr := 1;
      }
    }
    var ctrla := Ctrla(false, 1, false, sampr, PadField(c.txPad), PadField(c.rxPad), 0, true, 0);
    if c.runStandby {
      ctrla := ctrla.(runStandby := true);
    }
    var baud := if fractional then FracRegister(FracBaudOf(baudrate, f)) else ArithBaudAsWritten(baudrate, f);
    var ctrlb := if c.txPin != Undef then RESET_REGS.ctrlb.(txen := true) else RESET_REGS.ctrlb;
    var rxc := false;
    if rxCb && c.rxPin != Undef {
      ctrlb := ctrlb.(rxen := true);
      rxc := true;
      if c.wakeup {
        ctrlb := ctrlb.(sfde := true);
      }
    }
    ctrla := ctrla.(enable := true);
    r := Regs(ctrla, ctrlb, baud, rxc);
  }

  // ----- uart_mode -----

  /** Stop bits `uart_mode` accepts. */
  predicate ValidStop(stop: StopBits) {
    stop == Stop1 || stop == Stop2
  }

  /** Parity settings `uart_mode` accepts. */
  predicate ValidParity(parity: Parity) {
    parity == ParityNone || parity == ParityEven || parity == ParityOdd
  }

  /** `uart_mode`'s result: NODEV for an unknown device, then NOMODE for bad stop bits or parity, otherwise OK. */
  function ModeStatus(known: bool, parity: Parity, stop: StopBits): (st: Status)
    ensures st == Ok <==> known && ValidStop(stop) && ValidParity(parity)
    ensures !known ==> st == NoDev
    ensures known && !(ValidStop(stop) && ValidParity(parity)) ==> st == NoMode
  {
    if !known then NoDev
    else if !ValidStop(stop) then NoMode
    else if !ValidParity(parity) then NoMode
    else Ok
  }

  /** CHSIZE(data_bits): the data-bits code as the 3-bit field holds it. */
  function CharSize(dataBits: nat): bv3 {
    (dataBits % 8) as bv3
  }

  /** The registers after `uart_mode` accepted its arguments. */
  function ModeRegs(r: Regs, dataBits: nat, parity: Parity, stop: StopBits): Regs
    requires ValidStop(stop) && ValidParity(parity)
  {
    var form := if parity == ParityNone then 0 else r.ctrla.form | 1;
    var pmode := if parity == ParityNone then r.ctrlb.pmode else parity == ParityOdd;
    r.(ctrla := r.ctrla.(enable := true, form := form),
       ctrlb := r.ctrlb.(pmode := pmode, sbmode := stop == Stop2, chsize := CharSize(dataBits)))
  }

  /**
   * What `uart_mode` changes: the device ends up enabled; no parity clears the
   * frame format, even or odd selects the parity frame; odd sets and even
   * clears the odd-parity bit, no parity keeps it; two stop bits set SBMODE and
   * one clears it; CHSIZE takes the data-bits code. Every other field of CTRLA
   * and CTRLB, the baud rate and the RX interrupt keep their values.
   */
  lemma ModeEffect(r: Regs, dataBits: nat, parity: Parity, stop: StopBits)
    requires ValidStop(stop) && ValidParity(parity)
    ensures var m := ModeRegs(r, dataBits, parity, stop);
      m.ctrla.enable
      && m.ctrla.(enable := r.ctrla.enable, form := r.ctrla.form) == r.ctrla
      && (parity == ParityNone ==> m.ctrla.form == 0)
      && (parity != ParityNone ==> m.ctrla.form & 1 == 1 && m.ctrla.form & 0xE == r.ctrla.form & 0xE)
      && m.ctrlb.(chsize := r.ctrlb.chsize, sbmode := r.ctrlb.sbmode, pmode := r.ctrlb.pmode) == r.ctrlb
      && m.ctrlb.chsize as nat == dataBits % 8
      && (m.ctrlb.sbmode <==> stop == Stop2)
      && (parity == ParityOdd ==> m.ctrlb.pmode)
      && (parity == ParityEven ==> !m.ctrlb.pmode)
      && (parity == ParityNone ==> m.ctrlb.pmode == r.ctrlb.pmode)
      && m.baud == r.baud && m.rxc == r.rxc
  {
  }

  /** Setting the same mode twice is setting it once. */
  lemma ModeIdempotent(r: Regs, dataBits: nat, parity: Parity, stop: StopBits)
    requires ValidStop(stop) && ValidParity(parity)
    ensures ModeRegs(ModeRegs(r, dataBits, parity, stop), dataBits, parity, stop) == ModeRegs(r, dataBits, parity, stop)
  {
  }

  /** After a successful `uart_mode`, `uart_write` transmits exactly when a TX pin is configured, whatever the state before. */
  lemma ModeEnablesWrite(c: UartConf, r: Regs, dataBits: nat, parity: Parity, stop: StopBits)
    requires ValidStop(stop) && ValidParity(parity)
    ensures CanSend(c, ModeRegs(r, dataBits, parity, stop)) <==> c.txPin != Undef
  {
  }

  /** `uart_mode`'s register writes once its checks have passed, in the driver's order. */
  method ModeRegisters(r: Regs, dataBits: nat, parity: Parity, stop: StopBits) returns (m: Regs)
    requires ValidStop(stop) && ValidParity(parity)
    ensures m == ModeRegs(r, dataBits, parity, stop)
  {
    var ctrla := r.ctrla.(enable := false);
    var ctrlb := r.ctrlb;
    if parity == ParityNone {
      ctrla := ctrla.(form := 0);
    } else {
      ctrla := ctrla.(form := ctrla.form | 1);
      if parity == ParityOdd {
        ctrlb := ctrlb.(pmode := true);
      } else {
        ctrlb := ctrlb.(pmode := false);
      }
    }
    if stop == Stop1 {
      ctrlb := ctrlb.(sbmode := false);
    } else {
      ctrlb := ctrlb.(sbmode := true);
    }
    ctrlb := ctrlb.(chsize := CharSize(dataBits));
    ctrla := ctrla.(enable := true);
    m := r.(ctrla := ctrla, ctrlb := ctrlb);
  }

  // ----- flow-control pins -----

  /** `uart_pin_cts`: the CTS pin when hardware flow control is built in and the TX pad routes CTS; `GPIO_UNDEF` otherwise. */
  function PinCts(c: UartConf, hwFlowControl: bool): (p: Pin)
    ensures hwFlowControl && c.txPad == PAD_TX_0_RTS_2_CTS_3 ==> p == c.ctsPin
    ensures !(hwFlowControl && c.txPad == PAD_TX_0_RTS_2_CTS_3) ==> p == Undef
  {
    if hwFlowControl && c.txPad == PAD_TX_0_RTS_2_CTS_3 then c.ctsPin else Undef
  }

  /** `uart_pin_rts`: the RTS pin under the same condition. */
  function PinRts(c: UartConf, hwFlowControl: bool): (p: Pin)
    ensures hwFlowControl && c.txPad == PAD_TX_0_RTS_2_CTS_3 ==> p == c.rtsPin
    ensures !(hwFlowControl && c.txPad == PAD_TX_0_RTS_2_CTS_3) ==> p == Undef
  {
    if hwFlowControl && c.txPad == PAD_TX_0_RTS_2_CTS_3 then c.rtsPin else Undef
  }

  /** A defined flow-control pin of either kind means the TX pad routes both, so the other query answers too. */
  lemma FlowControlPinsTogether(c: UartConf, hwFlowControl: bool)
    ensures PinCts(c, hwFlowControl) != Undef ==> PinRts(c, hwFlowControl) == c.rtsPin
    ensures PinRts(c, hwFlowControl) != Undef ==> PinCts(c, hwFlowControl) == c.ctsPin
  {
  }

  // ----- the driver -----

  /**
   * The UART devices of a board: their configuration, their registers, whether
   * a receive callback is stored for each, and the bytes each has put into its
   * DATA register.
   */
  class Uart {
    const conf: seq<UartConf>
    /** Whether the build uses the fractional baud-rate mode. */
    const fractional: bool
    var regs: seq<Regs>
    var rxCb: seq<bool>
    var sent: seq<seq<Byte>>

    ghost predicate Valid()
      reads this
    {
      |regs| == |conf| && |rxCb| == |conf| && |sent| == |conf|
    }

    constructor(conf: seq<UartConf>, fractional: bool)
      ensures Valid()
      ensures this.conf == conf && this.fractional == fractional
      ensures forall i :: 0 <= i < |conf| ==> regs[i] == RESET_REGS && !rxCb[i] && sent[i] == []
    {
      this.conf := conf;
      this.fractional := fractional;
      regs := seq(|conf|, _ => RESET_REGS);
      rxCb := seq(|conf|, _ => false);
      sent := seq(|conf|, _ => []);
    }

    /**
     * `uart_init`: NODEV for an unknown device, with nothing touched;
     * otherwise the device gets `InitRegs`, and the receive callback is stored
     * when one is given and an RX pin is configured.
     */
    method Init(uart: nat, baudrate: nat, fsrc: nat, cb: bool) returns (st: Status)
      requires Valid() && (uart < |conf| ==> InitArgs(fractional, baudrate, fsrc))
      modifies this
      ensures Valid()
      ensures uart >= |conf| ==> st == NoDev && regs == old(regs) && rxCb == old(rxCb)
      ensures uart < |conf| ==>
        && st == Ok
        && regs == old(regs)[uart := InitRegs(conf[uart], fractional, baudrate, fsrc, cb)]
        && rxCb == old(rxCb)[uart := old(rxCb)[uart] || RxOn(conf[uart], cb)]
      ensures sent == old(sent)
    {
      if uart >= |conf| {
        return NoDev;
      }
      var r := InitRegisters(conf[uart], fractional, baudrate, fsrc, cb);
      regs := regs[uart := r];
      if cb && conf[uart].rxPin != Undef {
        rxCb := rxCb[uart := true];
      }
      st := Ok;
    }

    /** `uart_mode`: the status of `ModeStatus`; on OK the device gets `ModeRegs`, otherwise nothing changes. */
    method Mode(uart: nat, dataBits: nat, parity: Parity, stop: StopBits) returns (st: Status)
      requires Valid()
      modifies this
      ensures Valid()
      ensures st == ModeStatus(uart < |conf|, parity, stop)
      ensures st != Ok ==> regs == old(regs)
      ensures st == Ok ==> regs == old(regs)[uart := ModeRegs(old(regs)[uart], dataBits, parity, stop)]
      ensures rxCb == old(rxCb) && sent == old(sent)
    {
      if uart >= |conf| {
        return NoDev;
      }
      if stop != Stop1 && stop != Stop2 {
        return NoMode;
      }
      if parity != ParityNone && parity != ParityEven && parity != ParityOdd {
        return NoMode;
      }
      var m := ModeRegisters(regs[uart], dataBits, parity, stop);
      regs := regs[uart := m];
      st := Ok;
    }

    /** `uart_write` (blocking): every byte goes to DATA in order, unless there is no TX pin or the device is disabled. */
    method Write(uart: nat, data: seq<Byte>)
      requires Valid() && uart < |conf|
      modifies this`sent
      ensures Valid()
      ensures sent == old(sent)[uart := old(sent)[uart] + (if CanSend(conf[uart], regs[uart]) then data else [])]
    {
      if conf[uart].txPin == Undef || !regs[uart].ctrla.enable {
        assert old(sent)[uart] + [] == old(sent)[uart];
        assert sent == sent[uart := sent[uart]];
        return;
      }
      assert old(sent)[uart] + data[..0] == old(sent)[uart];
      assert sent == sent[uart := sent[uart]];
      for i := 0 to |data|
        invariant |sent| == |conf|
        invariant sent == old(sent)[uart := old(sent)[uart] + data[..i]]
      {
        assert data[..i + 1] == data[..i] + [data[i]];
        assert sent[uart] + [data[i]] == old(sent)[uart] + data[..i + 1];
        sent := sent[uart := sent[uart] + [data[i]]];
      }
      assert data[..|data|] == data;
    }
  }
}
