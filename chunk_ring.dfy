/**
 * The chunked ring buffer (chunk_ringbuf_t) through which the receive
 * interrupt hands whole frames to their consumers. Its implementation is not
 * part of this model; this module states the contract its call sites rely on:
 * a FIFO of committed chunks, at most one open chunk, and a fixed capacity
 * shared by both.
 */
module ChunkRing {
  import opened Bytes

  datatype Ring = Ring(capacity: nat, committed: seq<seq<Byte>>, open: Option<seq<Byte>>)
  {
    /** Bytes held: every committed chunk plus the chunk being written. */
    function Used(): nat {
      TotalLen(committed) + (if open.Some? then |open.value| else 0)
    }

    ghost predicate Valid() {
      Used() <= capacity
    }
  }

  /** crb_init over a memory area of `capacity` bytes. */
  function Init(capacity: nat): (r: Ring)
    ensures r.Valid() && r.Used() == 0 && r.capacity == capacity
  {
    Ring(capacity, [], None)
  }

  /** crb_start_chunk: opens an empty chunk while any room is left. */
  function StartChunk(r: Ring): (bool, Ring)
    requires r.open == None
  {
    if r.Used() < r.capacity then (true, r.(open := Some([]))) else (false, r)
  }

  /** crb_add_byte: appends to the open chunk while any room is left; no open chunk is a failure. */
  function AddByte(r: Ring, b: Byte): (bool, Ring)
  {
    if r.open.Some? && r.Used() < r.capacity then (true, r.(open := Some(r.open.value + [b])))
    else (false, r)
  }

  /** crb_end_chunk: `true` appends the open chunk to the FIFO, `false` throws it away. */
  function EndChunk(r: Ring, commit: bool): Ring
  {
    if r.open.Some? && commit then r.(committed := r.committed + [r.open.value], open := None)
    else r.(open := None)
  }

  /** crb_get_chunk_size: the length of the oldest committed chunk, if there is one. */
  function PeekSize(r: Ring): (n: Option<nat>)
    ensures n.Some? <==> r.committed != []
    ensures n.Some? ==> n.value == |r.committed[0]|
  {
    if r.committed == [] then None else Some(|r.committed[0]|)
  }

  /** crb_consume_chunk: hands out the oldest committed chunk and forgets it. */
  function Consume(r: Ring): (res: (seq<Byte>, Ring))
    requires r.committed != []
    ensures [res.0] + res.1.committed == r.committed
    ensures res.1.open == r.open && res.1.capacity == r.capacity
  {
    (r.committed[0], r.(committed := r.committed[1..]))
  }

  /** Appending p byte by byte, stopping the first time an add fails. */
  function AddAll(r: Ring, p: seq<Byte>): (bool, Ring)
    decreases |p|
  {
    if p == [] then (true, r)
    else
      var (ok, r') := AddByte(r, p[0]);
      if ok then AddAll(r', p[1..]) else (false, r')
  }

  lemma OperationsKeepValid(r: Ring, b: Byte, commit: bool)
    requires r.Valid()
    ensures r.open == None ==> StartChunk(r).1.Valid()
    ensures AddByte(r, b).1.Valid() && EndChunk(r, commit).Valid()
    ensures r.committed != [] ==> Consume(r).1.Valid()
  {
    if r.open.Some? && commit {
      TotalLenAppend(r.committed, r.open.value);
    }
  }

  /** Every committed chunk of a valid ring fits its capacity. */
  lemma {:induction false} ChunksFit(r: Ring, i: nat)
    requires r.Valid() && i < |r.committed|
    ensures |r.committed[i]| <= r.capacity
    decreases i
  {
    if i > 0 {
      ChunksFit(r.(committed := r.committed[1..]), i - 1);
    }
  }

  /** Room for the whole payload: every add succeeds and the open chunk grows by exactly p. */
  lemma {:induction false} AddAllFits(r: Ring, p: seq<Byte>)
    requires r.open.Some? && r.Used() + |p| <= r.capacity
    ensures AddAll(r, p) == (true, r.(open := Some(r.open.value + p)))
    decreases |p|
  {
    if p == [] {
      assert r.open.value + p == r.open.value;
    } else {
      var r' := r.(open := Some(r.open.value + [p[0]]));
      assert AddByte(r, p[0]) == (true, r');
      AddAllFits(r', p[1..]);
      assert r.open.value + [p[0]] + p[1..] == r.open.value + p;
    }
  }

  /** An aborted chunk never reaches the consumer: the FIFO is what it was before the chunk was started. */
  lemma {:induction false} AbortForgets(r: Ring, p: seq<Byte>)
    requires r.open.Some?
    ensures EndChunk(AddAll(r, p).1, false) == r.(open := None)
    decreases |p|
  {
    if p != [] {
      var (ok, r') := AddByte(r, p[0]);
      if ok {
        AbortForgets(r', p[1..]);
      }
    }
  }

  /** Chunks leave in the order they were committed. */
  lemma CommitIsFifo(r: Ring)
    requires r.open.Some?
    ensures EndChunk(r, true).committed == r.committed + [r.open.value]
    ensures r.committed == [] ==> Consume(EndChunk(r, true)).0 == r.open.value
    ensures r.committed != [] ==> Consume(EndChunk(r, true)).0 == Consume(r).0
  {
  }
}
