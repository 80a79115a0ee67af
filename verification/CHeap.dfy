/** The C allocator as the binding sees it: any allocation may fail, a fresh block holds
    arbitrary bytes, and the ledger records what is live and what each freed block held. */
module CHeap {
  import opened Basics

  class Heap {
    var live: set<array<Byte>>
    ghost var freed: seq<Bytes>   // contents of every block at the moment of its free, in order
    ghost var refused: nat        // allocations that failed

    constructor ()
      ensures live == {} && freed == [] && refused == 0
    {
      live, freed, refused := {}, [], 0;
    }

    /** `malloc`. */
    method Malloc(n: nat) returns (b: array?<Byte>)
      modifies this`live, this`refused
      ensures b == null ==> live == old(live)
      ensures b != null ==> fresh(b) && b.Length == n && live == old(live) + {b}
      ensures refused == old(refused) + (if b == null then 1 else 0)
    {
      var ok: bool := *;
      if ok {
        b := new Byte[n];
        live := live + {b};
      } else {
        b, refused := null, refused + 1;
      }
    }

    /** `free` of a live block. */
    method Free(b: array<Byte>)
      requires b in live
      modifies this
      ensures live == old(live) - {b} && freed == old(freed) + [b[..]] && refused == old(refused)
    {
      live, freed := live - {b}, freed + [b[..]];
    }

    /** `realloc`: the common prefix moves to a block of the new size; a failure leaves the
        old block alone. */
    method Realloc(b: array?<Byte>, n: nat) returns (r: array?<Byte>)
      requires b != null ==> b in live
      modifies this
      ensures r == null ==> live == old(live) && freed == old(freed)
      ensures r != null ==> fresh(r) && r.Length == n && live == old(live) - {b} + {r}
      ensures refused == old(refused) + (if r == null then 1 else 0)
      ensures r != null && b != null ==> var m := Min(b.Length, n); r[..m] == b[..m]
    {
      r := Malloc(n);
      if r != null && b != null {
        var m := Min(b.Length, n);
        for i := 0 to m
          invariant r != null && fresh(r) && r.Length == n && live == old(live) + {r} && freed == old(freed) && refused == old(refused)
          invariant r[..i] == b[..i]
        {
          r[i] := b[i];
        }
        Free(b);
      }
    }
  }

  /** Why room for `need` bytes was not to be had: an allocation failed, or the doubling that
      would hold them does not fit `size_t`. */
  ghost predicate Denied(heap: Heap, before: nat, need: nat)
    reads heap
  {
    heap.refused > before || (heap.refused == before && 2 * need > WORD)
  }

  /** `c` is `base` doubled some number of times. */
  ghost predicate Doublings(base: nat, c: nat)
    decreases c
  {
    c == base || (c > base && c % 2 == 0 && Doublings(base, c / 2))
  }

  lemma DoubleAgain(base: nat, c: nat)
    requires base > 0 && Doublings(base, c)
    ensures Doublings(base, c * 2) && c >= base
  {
    assert c * 2 / 2 == c && c * 2 % 2 == 0;
  }

  lemma Twice(a: nat, b: nat)
    ensures a * (2 * b) == a * b * 2
  {
  }

  lemma {:induction false} PowersAreDoublings(base: nat, k: nat)
    requires base > 0
    ensures Doublings(base, base * Pow2(k))
  {
    if k > 0 {
      PowersAreDoublings(base, k - 1);
      DoubleAgain(base, base * Pow2(k - 1));
      Twice(base, Pow2(k - 1));
    }
  }

  lemma {:induction false} DoublingPower(base: nat, c: nat) returns (k: nat)
    requires base > 0 && Doublings(base, c)
    ensures c == base * Pow2(k)
    decreases c
  {
    if c == base {
      k := 0;
    } else {
      k := DoublingPower(base, c / 2);
      Twice(base, Pow2(k));
      k := k + 1;
    }
  }

  /** The doublings of a capacity are its products with the powers of two. */
  lemma DoublingsArePowers(base: nat, c: nat)
    requires base > 0
    ensures Doublings(base, c) <==> exists k: nat :: c == base * Pow2(k)
  {
    if Doublings(base, c) { var k := DoublingPower(base, c); }
    if k: nat :| c == base * Pow2(k) { PowersAreDoublings(base, k); }
  }

  function Min(a: nat, b: nat): nat { if a < b then a else b }

  predicate AllZero(bs: Bytes) { forall i :: 0 <= i < |bs| ==> bs[i] == 0 }

  /** `itb_internal_wipe`: zeroes the first `len` bytes and nothing else. */
  method Wipe(b: array<Byte>, len: nat)
    requires len <= b.Length
    modifies b
    ensures AllZero(b[..len]) && b[len..] == old(b[len..])
  {
    for i := 0 to len
      invariant forall j :: 0 <= j < i ==> b[j] == 0
      invariant forall j :: i <= j < b.Length ==> b[j] == old(b[j])
    {
      b[i] := 0;
    }
  }

  /** `memcpy` between two distinct blocks. */
  method Copy(dst: array<Byte>, at: nat, src: array<Byte>, n: nat)
    requires dst != src && n <= src.Length && at + n <= dst.Length
    modifies dst
    ensures dst[..at] == old(dst[..at]) && dst[at..at + n] == src[..n] && dst[at + n..] == old(dst[at + n..])
  {
    for i := 0 to n
      invariant forall j :: 0 <= j < i ==> dst[at + j] == src[j]
      invariant forall j :: 0 <= j < at || at + i <= j < dst.Length ==> dst[j] == old(dst[j])
    {
      dst[at + i] := src[i];
    }
  }
}
