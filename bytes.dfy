/** Shared byte-level types used by every module of the model. */
module Bytes {

  /** One octet on the serial line or in a buffer. */
  type Byte = bv8

  datatype Option<+T> = None | Some(value: T)

  /** The number of bytes of a sequence of chunks, laid end to end. */
  function TotalLen(chunks: seq<seq<Byte>>): (n: nat)
    ensures chunks != [] ==> |chunks[0]| <= n
  {
    if chunks == [] then 0 else |chunks[0]| + TotalLen(chunks[1..])
  }

  lemma {:induction false} TotalLenAppend(a: seq<seq<Byte>>, c: seq<Byte>)
    ensures TotalLen(a + [c]) == TotalLen(a) + |c|
  {
    if a != [] {
      assert (a + [c])[1..] == a[1..] + [c];
      TotalLenAppend(a[1..], c);
    } else {
      assert [c][1..] == [];
    }
  }

  /** Regrouping a concatenation; stated once over any element type so that callers need not reason about contents. */
  lemma ConcatRegroup<T>(o: seq<T>, a: seq<T>, b: seq<T>, c: seq<T>, d: seq<T>, e: seq<T>, f: seq<T>)
    ensures o + (a + b + c + d + e + f) == o + a + b + c + d + e + f
  {
  }

  lemma ConcatAssoc<T>(a: seq<T>, b: seq<T>, c: seq<T>)
    ensures a + (b + c) == a + b + c
  {
  }
}
