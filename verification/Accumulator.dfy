/** The growable output accumulator: `struct acc` of the binding's pump and `struct buf` of
    the harness, whose append routines are the same code. */
module Accumulators {
  import opened Basics
  import opened CHeap

  /** First capacity, and the slice size of both pumps: 1 MiB. */
  const PUMP_SLICE: int := 1048576

  /** `c` is the base capacity doubled some number of times. */
  ghost predicate Doubled(c: nat) { Doublings(PUMP_SLICE, c) }

  /** Such a capacity is 1 MiB times a power of two, and every such product is one. */
  lemma DoubledIsPower(c: nat)
    ensures Doubled(c) <==> exists k: nat :: c == 1048576 * Pow2(k)
  {
    DoublingsArePowers(1048576, c);
  }

  /** What the capacity may be when the longest content so far had `peak` bytes: nothing yet,
      the base, or a doubling whose half would not have been enough. */
  ghost predicate Fits(cap: nat, peak: nat) {
    if cap == 0 then peak == 0
    else Doubled(cap) && peak <= cap && cap < WORD && (cap == PUMP_SLICE || cap < 2 * peak)
  }

  /** The doubling loop: the least doubling of the capacity that holds `need`, or a failure
      when the next doubling would not fit `size_t`. */
  method NextCapacity(cap: nat, need: nat) returns (ok: bool, grown: nat)
    requires cap == 0 || (Doubled(cap) && cap < WORD)
    requires cap < need < WORD
    ensures ok ==> Doubled(grown) && need <= grown < WORD
    ensures ok ==> grown == PUMP_SLICE || grown < 2 * need
    ensures ok && cap > 0 ==> grown >= 2 * cap
    ensures !ok ==> 2 * need > WORD
  {
    grown := if cap > 0 then cap else PUMP_SLICE;
    ok := true;
    while grown < need
      invariant Doubled(grown) && grown < WORD
      invariant grown == PUMP_SLICE || grown == cap || grown < 2 * need
      invariant cap > 0 ==> grown == cap || grown >= 2 * cap
      decreases need - grown
    {
      if grown > (WORD - 1) / 2 {
        return false, grown;
      }
      DoubleAgain(PUMP_SLICE, grown);
      grown := grown * 2;
    }
  }

  class Accumulator {
    const heap: Heap
    var data: array?<Byte>
    var len: nat
    var cap: nat
    ghost var peak: nat      // the largest length reached
    ghost var copied: nat    // bytes moved by all regrows so far

    ghost predicate Valid()
      reads this, heap, data
    {
      (if data == null then cap == 0 else cap == data.Length > 0 && data in heap.live) &&
      len <= peak && len <= cap && Fits(cap, peak) &&
      (if cap == 0 then copied == 0 else copied + PUMP_SLICE <= cap)
    }

    ghost function Contents(): Bytes
      requires Valid()
      reads this, heap, data
    {
      if data == null then [] else data[..len]
    }

    constructor (heap: Heap)
      ensures Valid() && Contents() == [] && this.heap == heap && data == null
    {
      this.heap := heap;
      data, len, cap, peak, copied := null, 0, 0, 0, 0;
    }

    /** Reuse keeps the block and forgets its contents. */
    method Reset()
      requires Valid()
      modifies this`len
      ensures Valid() && Contents() == []
    {
      len := 0;
    }

    /** The growing half of an append: room for `need` bytes in all, contents kept. */
    method Reserve(need: nat) returns (ok: bool)
      requires Valid() && len < need < WORD
      modifies this, heap
      ensures Valid() && len == old(len) && Contents() == old(Contents())
      ensures ok ==> need <= cap && peak == (if old(peak) < need then need else old(peak))
      ensures !ok ==> peak == old(peak) && data == old(data)
      ensures if ok then heap.refused == old(heap.refused) else Denied(heap, old(heap.refused), need)
      ensures copied == old(copied) + (if data == old(data) then 0 else old(cap))   // a regrow moves the old block
      ensures copied <= 2 * peak && (peak > 0 ==> copied < 2 * peak)                // all of them, amortised
      ensures data == old(data) || fresh(data)
      ensures heap.live == old(heap.live) - {old(data)} + (if data == null then {} else {data})
    {
      if need > cap {
        var fits, grown := NextCapacity(cap, need);
        if !fits {
          return false;
        }
        var block := heap.Realloc(data, grown);
        if block == null {
          return false;
        }
        assert len > 0 ==> block[..cap][..len] == data[..cap][..len];
        copied := copied + cap;
        data, cap := block, grown;
      }
      peak := if peak < need then need else peak;
      return true;
    }

    /** The copying half. */
    method Put(src: array<Byte>, n: nat)
      requires Valid() && data != null && len + n <= cap && len + n <= peak && n <= src.Length && src != data
      modifies this`len, data
      ensures Valid() && len == old(len) + n && Contents() == old(Contents()) + src[..n]
    {
      Copy(data, len, src, n);
      len := len + n;
      assert data[..len] == old(data[..len]) + src[..n];
    }

    /** `acc_append` / `buf_append`: the bytes are added, or nothing changes. */
    method Append(src: array<Byte>, n: nat) returns (ok: bool)
      requires Valid() && n <= src.Length && n < WORD && src != data
      modifies this, heap, data
      ensures Valid()
      ensures copied == old(copied) + (if data == old(data) then 0 else old(cap))
      ensures copied <= 2 * peak && (peak > 0 ==> copied < 2 * peak)
      ensures ok ==> Contents() == old(Contents()) + src[..n] && peak == (if old(peak) < len then len else old(peak))
      ensures !ok ==> data == old(data) && len == old(len) && Contents() == old(Contents())
      ensures if ok then heap.refused == old(heap.refused) else Denied(heap, old(heap.refused), len + n)
      ensures data == old(data) || fresh(data)
      ensures heap.live == old(heap.live) - {old(data)} + (if data == null then {} else {data})
    {
      if n == 0 {
        return true;
      }
      WrapDetected(len, n);
      if (len + n) % WORD < len {
        return false;
      }
      ok := Reserve(len + n);
      if ok {
        Put(src, n);
      }
    }

    /** `buf_free`. */
    method Release()
      requires Valid()
      modifies this, heap
      ensures Valid() && Contents() == [] && data == null
      ensures heap.live == old(heap.live) - {old(data)} && heap.refused == old(heap.refused)
    {
      if data != null {
        heap.Free(data);
      }
      data, len, cap, peak, copied := null, 0, 0, 0, 0;
    }
  }

  function Concatenated(chunks: seq<Bytes>): Bytes {
    if chunks == [] then [] else Concatenated(chunks[..|chunks| - 1]) + chunks[|chunks| - 1]
  }

  lemma {:induction false} PrefixShorter(chunks: seq<Bytes>, i: nat)
    requires i <= |chunks|
    ensures |Concatenated(chunks[..i])| <= |Concatenated(chunks)|
  {
    if i < |chunks| {
      assert chunks[..|chunks| - 1][..i] == chunks[..i];
      PrefixShorter(chunks[..|chunks| - 1], i);
    } else {
      assert chunks[..i] == chunks;
    }
  }

  lemma OneMoreChunk(chunks: seq<Bytes>, i: nat)
    requires i < |chunks|
    ensures Concatenated(chunks[..i + 1]) == Concatenated(chunks[..i]) + chunks[i]
    ensures |Concatenated(chunks[..i])| + |chunks[i]| <= |Concatenated(chunks)|
  {
    assert chunks[..i + 1][..i] == chunks[..i];
    PrefixShorter(chunks, i + 1);
  }

  /** The live blocks that are not the accumulator's. */
  ghost function Others(acc: Accumulator): set<array?<Byte>>
    reads acc, acc.heap
  {
    acc.heap.live - {acc.data}
  }

  /** One chunk, from a block of its own; `most` bounds the contents after it. */
  method AppendChunk(acc: Accumulator, chunk: Bytes, ghost most: nat) returns (ok: bool)
    requires acc.Valid() && |chunk| < WORD && acc.len + |chunk| <= most && acc.peak == acc.len
    modifies acc, acc.heap, acc.data
    ensures acc.Valid() && (acc.data == old(acc.data) || fresh(acc.data))
    ensures acc.copied <= 2 * acc.peak && (acc.peak > 0 ==> acc.copied < 2 * acc.peak)
    ensures if ok then acc.heap.refused == old(acc.heap.refused) else Denied(acc.heap, old(acc.heap.refused), most)
    ensures ok ==> acc.peak == acc.len && acc.Contents() == old(acc.Contents()) + chunk
    ensures Others(acc) == old(Others(acc))
  {
    var src := new Byte[|chunk|](k requires 0 <= k < |chunk| => chunk[k]);
    assert src[..|chunk|] == chunk;
    ok := acc.Append(src, |chunk|);
  }

  /** The next chunk of a sequence. */
  method AppendNext(acc: Accumulator, chunks: seq<Bytes>, i: nat) returns (ok: bool)
    requires i < |chunks| && |chunks[i]| < WORD
    requires acc.Valid() && acc.Contents() == Concatenated(chunks[..i]) && acc.peak == acc.len
    modifies acc, acc.heap, acc.data
    ensures acc.Valid() && (acc.data == old(acc.data) || fresh(acc.data))
    ensures acc.copied <= 2 * acc.peak && (acc.peak > 0 ==> acc.copied < 2 * acc.peak)
    ensures if ok then acc.heap.refused == old(acc.heap.refused)
            else Denied(acc.heap, old(acc.heap.refused), |Concatenated(chunks)|)
    ensures ok ==> acc.peak == acc.len && acc.Contents() == Concatenated(chunks[..i + 1])
    ensures Others(acc) == old(Others(acc))
  {
    OneMoreChunk(chunks, i);
    ok := AppendChunk(acc, chunks[i], |Concatenated(chunks)|);
  }

  /** Any sequence of appends to an accumulator that never held anything: the contents are the
      concatenation, and all regrows together moved less than twice its length; it fails only
      where room was denied. */
  method AppendAll(acc: Accumulator, chunks: seq<Bytes>) returns (ok: bool)
    requires acc.Valid() && acc.peak == 0
    requires forall c :: c in chunks ==> |c| < WORD
    modifies acc, acc.heap, acc.data
    ensures acc.Valid()
    ensures if ok then acc.Contents() == Concatenated(chunks)
            else Denied(acc.heap, old(acc.heap.refused), |Concatenated(chunks)|)
    ensures ok && acc.Contents() != [] ==> acc.copied < 2 * |acc.Contents()|
    ensures Others(acc) == old(Others(acc))
  {
    var i := 0;
    while i < |chunks|
      invariant i <= |chunks| && acc.Valid() && acc.Contents() == Concatenated(chunks[..i]) && acc.peak == acc.len
      invariant acc.heap.refused == old(acc.heap.refused) && (acc.data == old(acc.data) || fresh(acc.data))
      invariant acc.copied <= 2 * acc.peak && (acc.peak > 0 ==> acc.copied < 2 * acc.peak)
      invariant Others(acc) == old(Others(acc))
    {
      ok := AppendNext(acc, chunks, i);
      if !ok {
        return;
      }
      i := i + 1;
    }
    ok := true;
    assert chunks[..|chunks|] == chunks;
  }

  /** The unsigned comparison finds exactly the sums that wrap. */
  lemma WrapDetected(a: nat, b: nat)
    requires a < WORD && b < WORD
    ensures (a + b) % WORD < a <==> a + b >= WORD
  {
    if a + b >= WORD {
      assert (a + b) % WORD == a + b - WORD;
    }
  }
}
