/**
 * Neighbour discovery of the music client: a multicast echo request to
 * all nodes, a table of the distinct sources of the replies, and the
 * scheduling rule of the pinger.
 *
 * `unsigned long` is 32 bits wide here, as on the microcontrollers the
 * client runs on; its wrap-around is written out with `Wrap32`.
 */
module FindNodes {
  import opened Bytes

  const NEIGHBOUR_LIMIT: nat := 10
  const EINVAL: int := 22
  /** The ICMPv6 type of an echo reply. */
  const ICMPV6_ECHO_REP: Byte := 129
  /** The duplicate-detection bit table: 64 bytes of 8 bits. */
  const CKTAB_SIZE: nat := 512
  const US_PER_SEC: nat := 1_000_000
  const U32: nat := 0x1_0000_0000

  /** `::`, the unspecified address, which marks an empty slot of the table. */
  const UNSPECIFIED: seq<Byte> := [0, 0, 0, 0, 0, 0, 0, 0, 0, 0, 0, 0, 0, 0, 0, 0]

  /** An IPv6 address: 16 bytes. */
  type Addr = a: seq<Byte> | |a| == 16 witness UNSPECIFIED

  function Wrap32(x: int): (r: nat)
    ensures r < U32
    ensures 0 <= x < U32 ==> r == x
  {
    x % U32
  }

  // ----- addresses -----

  /** `_compare_v6`: `memcmp` over the address bytes, reduced to its sign. */
  function Compare(a: seq<Byte>, b: seq<Byte>): (r: int)
    requires |a| == |b|
    ensures r == 0 <==> a == b
    ensures -1 <= r <= 1
  {
    if |a| == 0 then 0
    else if a[0] < b[0] then -1
    else if a[0] > b[0] then 1
    else
      assert a == [a[0]] + a[1..] && b == [b[0]] + b[1..];
      Compare(a[1..], b[1..])
  }

  /** Swapping the operands of `_compare_v6` flips the sign. */
  lemma {:induction false} CompareAntisymmetric(a: seq<Byte>, b: seq<Byte>)
    requires |a| == |b|
    ensures Compare(a, b) == -Compare(b, a)
  {
    if |a| > 0 && a[0] == b[0] {
      CompareAntisymmetric(a[1..], b[1..]);
    }
  }

  /** `ipv6_addr_is_multicast`: the first byte is 0xff. */
  predicate IsMulticast(a: Addr) {
    a[0] == 0xFF
  }

  // ----- the neighbour table -----

  /** Filled entries form a prefix of the table and are pairwise distinct. */
  ghost predicate WellFormed(t: seq<Addr>) {
    && (forall i, j :: 0 <= i < j < |t| && t[i] == UNSPECIFIED ==> t[j] == UNSPECIFIED)
    && (forall i, j :: 0 <= i < j < |t| && t[j] != UNSPECIFIED ==> t[i] != t[j])
  }

  /** Where the insertion scan starting at `i` stops: the first empty slot or the first entry equal to `src`, or the end. */
  function ScanStop(t: seq<Addr>, src: Addr, i: nat): (k: nat)
    requires i <= |t|
    ensures i <= k <= |t|
    ensures forall j :: i <= j < k ==> t[j] != UNSPECIFIED && t[j] != src
    ensures k < |t| ==> t[k] == UNSPECIFIED || t[k] == src
    decreases |t| - i
  {
    if i == |t| then i
    else if t[i] == UNSPECIFIED || t[i] == src then i
    else ScanStop(t, src, i + 1)
  }

  /** The table after the insertion loop of `_print_reply`: `src` goes into the slot the scan stops at if that slot is empty. */
  function Place(t: seq<Addr>, src: Addr): seq<Addr> {
    var k := ScanStop(t, src, 0);
    if k < |t| && t[k] == UNSPECIFIED then t[k := src] else t
  }

  /** The number of filled slots. */
  function FilledCount(t: seq<Addr>): (n: nat)
    ensures n <= |t|
  {
    if t == [] then 0 else FilledCount(t[..|t| - 1]) + (if t[|t| - 1] != UNSPECIFIED then 1 else 0)
  }

  /** Inserting keeps the table well formed: the prefix stays a prefix and no entry appears twice. */
  lemma PlaceWellFormed(t: seq<Addr>, src: Addr)
    requires WellFormed(t)
    ensures WellFormed(Place(t, src))
  {
    var k := ScanStop(t, src, 0);
    if k < |t| && t[k] == UNSPECIFIED && src != UNSPECIFIED {
      var u := t[k := src];
      forall i, j | 0 <= i < j < |u| && u[i] == UNSPECIFIED
        ensures u[j] == UNSPECIFIED
      {
        assert i > k;
      }
      forall i, j | 0 <= i < j < |u| && u[j] != UNSPECIFIED
        ensures u[i] != u[j]
      {
        if j == k {
          assert u[i] == t[i] && t[i] != src;
        }
      }
    }
  }

  /**
   * For a well-formed table and a specified source: afterwards the source is
   * in the table exactly when it was before or there was an empty slot;
   * every filled slot keeps its address; a full table that lacks the source
   * is left as it was.
   */
  lemma PlaceEffect(t: seq<Addr>, src: Addr)
    requires WellFormed(t) && src != UNSPECIFIED
    ensures src in Place(t, src) <==> src in t || UNSPECIFIED in t
    ensures forall i :: 0 <= i < |t| && t[i] != UNSPECIFIED ==> Place(t, src)[i] == t[i]
    ensures UNSPECIFIED !in t && src !in t ==> Place(t, src) == t
    ensures |Place(t, src)| == |t|
  {
    var k := ScanStop(t, src, 0);
    if src in t {
      var i :| 0 <= i < |t| && t[i] == src;
      assert k <= i;
    }
    if UNSPECIFIED in t {
      var i :| 0 <= i < |t| && t[i] == UNSPECIFIED;
      assert k <= i;
    }
  }

  /** Counting the filled slots of a table with one slot overwritten. */
  lemma {:induction false} FilledCountUpdate(t: seq<Addr>, k: nat, a: Addr)
    requires k < |t|
    ensures FilledCount(t[k := a]) + (if t[k] != UNSPECIFIED then 1 else 0)
         == FilledCount(t) + (if a != UNSPECIFIED then 1 else 0)
    decreases |t|
  {
    var u := t[k := a];
    var n := |t| - 1;
    if k < n {
      assert u[..n] == t[..n][k := a];
      FilledCountUpdate(t[..n], k, a);
    } else {
      assert u[..n] == t[..n];
    }
  }

  /** A new source that finds an empty slot adds one neighbour; otherwise the count stays. */
  lemma PlaceCount(t: seq<Addr>, src: Addr)
    requires WellFormed(t) && src != UNSPECIFIED
    ensures FilledCount(Place(t, src)) == FilledCount(t) + (if src !in t && UNSPECIFIED in t then 1 else 0)
  {
    PlaceEffect(t, src);
    var k := ScanStop(t, src, 0);
    if k < |t| && t[k] == UNSPECIFIED {
      FilledCountUpdate(t, k, src);
    }
  }

  /** In a well-formed table the filled slots are exactly those before the first empty one. */
  lemma {:induction false} FilledCountPrefix(t: seq<Addr>, n: nat)
    requires WellFormed(t) && n <= |t|
    requires forall i :: 0 <= i < n ==> t[i] != UNSPECIFIED
    requires forall i :: n <= i < |t| ==> t[i] == UNSPECIFIED
    ensures FilledCount(t) == n
    decreases |t|
  {
    if t != [] {
      var m := |t| - 1;
      if n <= m {
        FilledCountPrefix(t[..m], n);
      } else {
        FilledCountPrefix(t[..m], m);
      }
    }
  }

  /** The part of an echo reply `_print_reply` looks at. */
  datatype Reply = Reply(hasIpv6: bool, hasIcmpv6: bool, icmpType: Byte, id: nat, src: Addr)

  /**
   * `_print_reply`'s filters: both headers present, an echo reply, our
   * identifier, and, when the pinged host is unicast, that host as source.
   */
  predicate Accepted(p: Reply, host: Addr, id: nat) {
    p.hasIpv6 && p.hasIcmpv6 && p.icmpType == ICMPV6_ECHO_REP && p.id == id
      && (IsMulticast(host) || p.src == host)
  }

  /** The global `neighbours` table, zeroed at start-up. */
  class NeighbourTable {
    const slots: array<Addr>

    ghost predicate Valid()
      reads this
    {
      slots.Length == NEIGHBOUR_LIMIT
    }

    constructor()
      ensures Valid() && fresh(slots)
      ensures forall i :: 0 <= i < NEIGHBOUR_LIMIT ==> slots[i] == UNSPECIFIED
      ensures WellFormed(slots[..])
    {
      slots := new Addr[10](_ => UNSPECIFIED);
    }

    /** The insertion loop of `_print_reply`: stop at the first empty slot, writing the source there, or at the first equal entry. */
    method Insert(src: Addr)
      requires Valid()
      modifies slots
      ensures slots[..] == Place(old(slots[..]), src)
    {
      ghost var t := slots[..];
      for i := 0 to 10
        invariant slots[..] == t
        invariant ScanStop(t, src, i) == ScanStop(t, src, 0)
      {
        if Compare(slots[i], UNSPECIFIED) == 0 {
          slots[i] := src;
          return;
        }
        if Compare(slots[i], src) == 0 {
          return;
        }
      }
    }

    /** `_print_reply`: -EINVAL for a reply that fails a filter, leaving the table alone; otherwise 0 after the insertion. */
    method PrintReply(p: Reply, host: Addr, id: nat) returns (r: int)
      requires Valid()
      modifies slots
      ensures r == (if Accepted(p, host, id) then 0 else -EINVAL)
      ensures Accepted(p, host, id) ==> slots[..] == Place(old(slots[..]), p.src)
      ensures !Accepted(p, host, id) ==> slots[..] == old(slots[..])
      ensures WellFormed(old(slots[..])) ==> WellFormed(slots[..])
    {
      if !p.hasIpv6 || !p.hasIcmpv6 {
        return -EINVAL;
      }
      if p.icmpType != ICMPV6_ECHO_REP {
        return -EINVAL;
      }
      if p.id != id {
        return -EINVAL;
      }
      if !IsMulticast(host) && p.src != host {
        return -EINVAL;
      }
      ghost var t := slots[..];
      Insert(p.src);
      if WellFormed(t) {
        PlaceWellFormed(t, p.src);
      }
      r := 0;
    }

    /** The result of `ping_local_multicast`: the filled slots, less one. */
    method PingCount() returns (res: int)
      requires Valid()
      ensures res == FilledCount(slots[..]) - 1
      ensures -1 <= res < NEIGHBOUR_LIMIT
    {
      res := -1;
      for i := 0 to 10
        invariant res == FilledCount(slots[..i]) - 1
      {
        assert slots[..i + 1][..i] == slots[..i];
        if Compare(slots[i], UNSPECIFIED) != 0 {
          res := res + 1;
        }
      }
      assert slots[..10] == slots[..];
    }
  }

  // ----- the pinger -----

  datatype Event = SendNextPing | PingFinish

  /** The message `_pinger` schedules and the delay in microseconds. */
  datatype Schedule = Schedule(event: Event, timer: nat)

  /**
   * `_pinger`'s choice: the next ping after `interval` while pings remain;
   * otherwise the finish after `timeout`, or, once a reply has arrived, after
   * `tmax / (512 * 1024)` whole seconds (about two round trips), at least one.
   */
  function NextEvent(numSent: nat, count: nat, numRecv: nat, tmax: nat, interval: nat, timeout: nat): (s: Schedule)
    ensures s.event == SendNextPing <==> Wrap32(numSent + 1) < count
    ensures s.event == SendNextPing ==> s.timer == interval
    ensures s.event == PingFinish && numRecv == 0 ==> s.timer == timeout
  {
    if Wrap32(numSent + 1) < count then Schedule(SendNextPing, interval)
    else if numRecv == 0 then Schedule(PingFinish, timeout)
    else
      var timer := Wrap32((tmax / 524288) * US_PER_SEC);
      Schedule(PingFinish, if timer == 0 then US_PER_SEC else timer)
  }

  /**
   * Once a reply has arrived, the finish comes after `tmax / 2^19` seconds,
   * and never before one second, as long as that product fits in 32 bits.
   */
  lemma FinishAfterRoundTrips(numSent: nat, count: nat, numRecv: nat, tmax: nat, interval: nat, timeout: nat)
    requires Wrap32(numSent + 1) >= count && numRecv > 0 && tmax < 4295 * 524288
    ensures NextEvent(numSent, count, numRecv, tmax, interval, timeout).event == PingFinish
    ensures NextEvent(numSent, count, numRecv, tmax, interval, timeout).timer
         == if tmax < 524288 then US_PER_SEC else (tmax / 524288) * US_PER_SEC
    ensures NextEvent(numSent, count, numRecv, tmax, interval, timeout).timer >= US_PER_SEC
  {
    var q := tmax / 524288;
    assert q * 524288 <= tmax;
    assert q * US_PER_SEC <= 4294 * US_PER_SEC;
  }

  /** Past 4295 * 2^19 microseconds the product wraps: the finish then comes after 32704 us, well under a second. */
  lemma FinishTimerWraps()
    ensures NextEvent(2, 3, 1, 4295 * 524288, US_PER_SEC, US_PER_SEC) == Schedule(PingFinish, 32704)
  {
    assert (4295 * 524288) / 524288 == 4295;
    assert Wrap32(4295 * US_PER_SEC) == 32704;
  }

  /** The state `_pinger` works on: a part of `_ping_data_t`. */
  class Ping {
    var numSent: nat
    var numRecv: nat
    var tmax: nat
    var count: nat
    var timeout: nat
    var interval: nat
    /** The duplicate-detection table, one entry per bit. */
    const cktab: array<bool>
    /** The message and delay handed to the timer. */
    var sched: Schedule
    /** The sequence numbers of the echo requests sent so far. */
    var sentSeqs: seq<nat>

    ghost predicate Valid()
      reads this
    {
      cktab.Length == CKTAB_SIZE && numSent < U32
    }

    /** The initialiser of `ping_local_multicast`: three pings one second apart, a one-second timeout. */
    constructor()
      ensures Valid() && fresh(cktab)
      ensures numSent == 0 && numRecv == 0 && tmax == 0
      ensures count == 3 && timeout == US_PER_SEC && interval == US_PER_SEC
      ensures sentSeqs == []
    {
      numSent := 0;
      numRecv := 0;
      tmax := 0;
      count := 3;
      timeout := US_PER_SEC;
      interval := US_PER_SEC;
      cktab := new bool[512](_ => false);
      sched := Schedule(SendNextPing, 0);
      sentSeqs := [];
    }

    /**
     * `_pinger`: schedules by `NextEvent`, clears the table bit of the ping
     * about to go out, sends it with the low 16 bits of `num_sent` as sequence
     * number, and counts it.
     */
    method Pinger()
      requires Valid()
      modifies this, cktab
      ensures Valid()
      ensures sched == NextEvent(old(numSent), count, numRecv, tmax, interval, timeout)
      ensures cktab[..] == old(cktab[..])[old(numSent) % CKTAB_SIZE := false]
      ensures sentSeqs == old(sentSeqs) + [old(numSent) % 0x1_0000]
      ensures numSent == Wrap32(old(numSent) + 1)
      ensures numRecv == old(numRecv) && tmax == old(tmax) && count == old(count)
      ensures timeout == old(timeout) && interval == old(interval)
    {
      var timer: nat;
      var event: Event;
      if Wrap32(numSent + 1) < count {
        event := SendNextPing;
        timer := interval;
      } else {
        event := PingFinish;
        timer := timeout;
        if numRecv != 0 {
          timer := Wrap32((tmax / 524288) * US_PER_SEC);
          if timer == 0 {
            timer := US_PER_SEC;
          }
        }
      }
      sched := Schedule(event, timer);
      cktab[numSent % 512] := false;
      sentSeqs := sentSeqs + [numSent % 0x1_0000];
      numSent := Wrap32(numSent + 1);
    }
  }
}
