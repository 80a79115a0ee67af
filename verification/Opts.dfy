/** The opts query builder: a NUL-terminated string in a growing buffer, written in two
    passes that must agree. */
module Opts {
  import opened Basics
  import opened CHeap
  import opened Percent

  /** `enc_len`: the measuring pass. */
  method EncLen(s: Bytes) returns (n: nat)
    ensures n == |Encode(s)|
  {
    n := 0;
    for i := 0 to |s|
      invariant n == |Encode(s[..i])|
    {
      EncodeNext(s, i);
      n := n + if UrlSafe(s[i]) then 1 else 3;
    }
    assert s[..|s|] == s;
  }

  method PutByte(dst: array<Byte>, at: nat, b: Byte)
    requires at < dst.Length
    modifies dst
    ensures dst[..at + 1] == old(dst[..at]) + [b]
  {
    dst[at] := b;
  }

  /** The formatted write of one escape: three bytes and, for a moment, a terminator. */
  method PutEscape(dst: array<Byte>, at: nat, b: Byte)
    requires at + 3 < dst.Length
    modifies dst
    ensures dst[..at + 4] == old(dst[..at]) + [PERCENT, Hex(b / 16), Hex(b % 16), 0]
  {
    dst[at] := PERCENT;
    dst[at + 1] := Hex(b / 16);
    dst[at + 2] := Hex(b % 16);
    dst[at + 3] := 0;
  }

  /** One byte, as it is or escaped. */
  method PutEncoded(dst: array<Byte>, at: nat, b: Byte) returns (w: nat)
    requires at + |EncodeByte(b)| < dst.Length
    modifies dst
    ensures w == |EncodeByte(b)| && dst[..at + w] == old(dst[..at]) + EncodeByte(b)
  {
    if UrlSafe(b) {
      PutByte(dst, at, b);
      w := 1;
    } else {
      PutEscape(dst, at, b);
      w := 3;
    }
  }

  lemma Regroup(a: Bytes, b: Bytes, c: Bytes)
    ensures a + (b + c) == a + b + c
  {
  }

  /** `enc_write`: the writing pass. It writes exactly the measured bytes and needs one place
      more, for the terminator of the last escape. */
  method EncWrite(dst: array<Byte>, at: nat, s: Bytes) returns (n: nat)
    requires at + |Encode(s)| < dst.Length
    modifies dst
    ensures n == |Encode(s)| && dst[..at + n] == old(dst[..at]) + Encode(s)
  {
    n := 0;
    ghost var base := dst[..at];
    for i := 0 to |s|
      invariant n == |Encode(s[..i])| && at + n < dst.Length
      invariant dst[..at + n] == base + Encode(s[..i])
    {
      EncodePrefix(s, i);
      EncodeNext(s, i);
      Regroup(base, Encode(s[..i]), EncodeByte(s[i]));
      var w := PutEncoded(dst, at + n, s[i]);
      n := n + w;
    }
    assert s[..|s|] == s;
  }

  /** One pair behind the first `at` bytes. */
  method PutPair(dst: array<Byte>, at: nat, key: Bytes, value: Bytes) returns (n: nat)
    requires at + |PairText((key, value))| < dst.Length
    modifies dst
    ensures n == at + |PairText((key, value))| && dst[..n] == old(dst[..at]) + PairText((key, value))
  {
    var k := EncWrite(dst, at, key);
    n := at + k;
    PutByte(dst, n, EQUALS);
    n := n + 1;
    Regroup(old(dst[..at]), Encode(key), [EQUALS]);
    assert dst[..n] == old(dst[..at]) + (Encode(key) + [EQUALS]);
    var v := EncWrite(dst, n, value);
    n := n + v;
    Regroup(old(dst[..at]), Encode(key) + [EQUALS], Encode(value));
  }

  /** The final terminator. */
  method Terminate(dst: array<Byte>, at: nat)
    requires at < dst.Length
    modifies dst
    ensures dst[..at] == old(dst[..at]) && dst[at] == 0
  {
    dst[at] := 0;
  }

  /** The guarded size computation of `itb_opts_set`, in 64-bit arithmetic. */
  function SizeNeeded(len: nat, klen: nat, vlen: nat): Option<nat> {
    var extra := ((if len > 0 then 1 else 0) + klen + 1 + vlen + 1) % WORD;
    if extra < klen || (len + extra) % WORD < len then None else Some(len + extra)
  }

  /** The size itself, or None when `size_t` cannot hold it. */
  function SizeWanted(len: nat, klen: nat, vlen: nat): Option<nat> {
    var total := len + (if len > 0 then 1 else 0) + klen + 1 + vlen + 1;
    if total < WORD then Some(total) else None
  }

  /** The two comparisons catch every overflow, and nothing else, as long as the encoded value
      leaves room for the separators. */
  lemma SizeExact(len: nat, klen: nat, vlen: nat)
    requires len < WORD && klen < WORD && vlen + 3 < WORD
    ensures SizeNeeded(len, klen, vlen) == SizeWanted(len, klen, vlen)
  {
    var sum := (if len > 0 then 1 else 0) + klen + 1 + vlen + 1;
    if sum >= WORD {
      assert sum % WORD == sum - WORD;
    } else {
      assert sum % WORD == sum;
      if len + sum >= WORD { assert (len + sum) % WORD == len + sum - WORD; }
    }
  }

  /** That condition is exact: only the key's length is compared with the wrapped sum, so a
      value within three bytes of 2^64 slips through. */
  lemma SizeGuardExactly(vlen: nat)
    requires vlen < WORD
    ensures (forall len: nat, klen: nat :: len < WORD && klen < WORD ==>
               SizeNeeded(len, klen, vlen) == SizeWanted(len, klen, vlen))
            <==> vlen + 3 < WORD
  {
    if vlen + 3 < WORD {
      forall len: nat, klen: nat | len < WORD && klen < WORD
        ensures SizeNeeded(len, klen, vlen) == SizeWanted(len, klen, vlen)
      {
        SizeExact(len, klen, vlen);
      }
    } else {
      assert (vlen + 3) % WORD == vlen + 3 - WORD;
      assert SizeNeeded(1, 0, vlen) != SizeWanted(1, 0, vlen);
    }
  }

  /** The writing pass of one call: a separator behind what is there, the pair, a terminator. */
  method PutText(dst: array<Byte>, at: nat, key: Bytes, value: Bytes) returns (n: nat)
    requires at + (if at > 0 then 1 else 0) + |PairText((key, value))| < dst.Length
    modifies dst
    ensures n < dst.Length && dst[n] == 0
    ensures dst[..n] == old(dst[..at]) + (if at > 0 then [AMP] else []) + PairText((key, value))
  {
    n := at;
    if n > 0 {
      PutByte(dst, n, AMP);
      n := n + 1;
    }
    n := PutPair(dst, n, key, value);
    Terminate(dst, n);
  }

  /** The capacity for `need` bytes: the one there was if it holds them, else its least doubling
      that does. */
  ghost predicate Tight(cap: nat, before: nat, need: nat) {
    if need <= before then cap == before else Doublings(before, cap) && need <= cap < 2 * need
  }

  /** The doubling loop. */
  method NextRoom(cap: nat, need: nat) returns (ok: bool, grown: nat)
    requires 0 < cap < need < WORD
    ensures ok ==> Tight(grown, cap, need) && grown < WORD
    ensures !ok ==> 2 * need > WORD
  {
    grown := cap;
    while grown < need
      invariant cap <= grown < WORD && Doublings(cap, grown) && (grown == cap || grown < 2 * need)
      decreases need - grown
    {
      if grown > (WORD - 1) / 2 {
        return false, grown;
      }
      DoubleAgain(cap, grown);
      grown := grown * 2;
    }
    ok := true;
  }

  class Builder {
    const heap: Heap
    var buf: array<Byte>
    var len: nat
    var cap: nat
    ghost var pairs: seq<(Bytes, Bytes)>

    /** `len` is the string length of the buffer, the terminator fits, and the text is the query
        of the pairs set so far. */
    ghost predicate Valid()
      reads this, heap, buf
    {
      buf in heap.live && cap == buf.Length && 64 <= cap && len < cap < WORD &&
      buf[len] == 0 && buf[..len] == Query(pairs)
    }

    constructor (heap: Heap, buf: array<Byte>)
      requires buf in heap.live && buf.Length == 64 && buf[0] == 0
      ensures Valid() && pairs == [] && this.heap == heap && this.buf == buf
    {
      this.heap, this.buf, len, cap, pairs := heap, buf, 0, 64, [];
    }

    /** The length is that of the string: no terminator inside, one right behind. */
    lemma LengthIsStrlen()
      requires Valid()
      ensures 0 !in buf[..len] && buf[len] == 0 && (len == 0 <==> pairs == [])
    {
      QueryBytes(pairs);
    }

    /** Room for `need` bytes; the text moves, the old block is wiped over the text and freed. */
    method Grow(need: nat) returns (st: Status)
      requires Valid() && len < need < WORD
      modifies this`buf, this`cap, heap, buf
      ensures Valid() && (buf == old(buf) || fresh(buf))
      ensures st == OK ==> need <= cap && Tight(cap, old(cap), need) && (need <= old(cap) ==> buf == old(buf))
      ensures st != OK ==> st == INTERNAL && buf == old(buf) && buf[..] == old(buf[..])
      ensures if st == OK then heap.refused == old(heap.refused) else Denied(heap, old(heap.refused), need)
      ensures heap.live == old(heap.live) - {old(buf)} + {buf}
      ensures heap.freed == old(heap.freed) ||
              (|heap.freed| == |old(heap.freed)| + 1 && old(heap.freed) <= heap.freed &&
               len <= |heap.freed[|old(heap.freed)|]| && AllZero(heap.freed[|old(heap.freed)|][..len]))
    {
      if need <= cap {
        return OK;
      }
      var ok, grown := NextRoom(cap, need);
      if !ok {
        return INTERNAL;
      }
      var block := heap.Malloc(grown);
      if block == null {
        return INTERNAL;
      }
      Copy(block, 0, buf, len + 1);
      assert block[..len] == block[..len + 1][..len] && block[len] == block[..len + 1][len];
      assert buf[..len] == buf[..len + 1][..len] && buf[len] == buf[..len + 1][len];
      Wipe(buf, len);
      heap.Free(buf);
      buf, cap := block, grown;
      return OK;
    }

    /** `itb_opts_set`: appends one pair to the query, or changes nothing. It refuses exactly the
        missing arguments and the sizes beyond `size_t`, and fails otherwise only where the room
        for the longer query was denied. */
    method Set(key: Option<Bytes>, value: Option<Bytes>) returns (st: Status)
      requires Valid()
      requires key.Some? ==> |Encode(key.value)| < WORD
      requires value.Some? ==> |Encode(value.value)| + 3 < WORD
      modifies this, heap, buf
      ensures Valid() && (buf == old(buf) || fresh(buf))
      ensures heap.live == old(heap.live) - {old(buf)} + {buf}
      ensures st == OK ==> key.Some? && value.Some? && pairs == old(pairs) + [(key.value, value.value)]
      ensures st == OK ==> Tight(cap, old(cap), len + 1)
      ensures st != OK ==> pairs == old(pairs) && len == old(len)
      ensures st == OK || st == BAD_INPUT ==> heap.refused == old(heap.refused)
      ensures st != OK && st != BAD_INPUT ==>
                st == INTERNAL && key.Some? && value.Some? &&
                Denied(heap, old(heap.refused), |Query(old(pairs) + [(key.value, value.value)])| + 1)
      ensures st == BAD_INPUT <==> key.None? || value.None? || |Query(old(pairs) + [(key.value, value.value)])| + 1 >= WORD
    {
      if key.None? || value.None? {
        return BAD_INPUT;
      }
      QueryBytes(pairs);
      ghost var p := (key.value, value.value);
      QueryNext(pairs, p);
      var klen := EncLen(key.value);
      var vlen := EncLen(value.value);
      SizeExact(len, klen, vlen);
      var need := SizeNeeded(len, klen, vlen);
      if need.None? {
        return BAD_INPUT;
      }
      st := Grow(need.value);
      if st != OK {
        return;
      }
      Write(key.value, value.value);
    }

    /** The writing pass, once there is room for the pair, its separators and the terminator. */
    method Write(key: Bytes, value: Bytes)
      requires Valid() && len + (if len > 0 then 1 else 0) + |Encode(key)| + 1 + |Encode(value)| + 1 <= cap
      modifies this`len, this`pairs, buf
      ensures Valid() && pairs == old(pairs) + [(key, value)]
      ensures len == old(len) + (if old(len) > 0 then 1 else 0) + |Encode(key)| + 1 + |Encode(value)|
    {
      QueryBytes(pairs);
      QueryNext(pairs, (key, value));
      len := PutText(buf, len, key, value);
      pairs := pairs + [(key, value)];
    }

    /** `itb_opts_free`: the text is wiped before the buffer is freed. */
    method Free()
      requires Valid()
      modifies heap, buf
      ensures heap.live == old(heap.live) - {buf} && heap.refused == old(heap.refused)
      ensures |heap.freed| == |old(heap.freed)| + 1 && old(heap.freed) <= heap.freed
      ensures len <= |heap.freed[|old(heap.freed)|]| && AllZero(heap.freed[|old(heap.freed)|][..len])
    {
      Wipe(buf, len);
      heap.Free(buf);
    }
  }

  /** One more pair: a separator only between pairs. */
  lemma QueryNext(ps: seq<(Bytes, Bytes)>, p: (Bytes, Bytes))
    ensures Query(ps + [p]) == (if ps == [] then [] else Query(ps) + [AMP]) + PairText(p)
  {
    var qs := ps + [p];
    assert qs[..|qs| - 1] == ps && qs[|qs| - 1] == p;
  }

  /** `itb_opts_new`. (The builder struct is allocated before its buffer; either may fail.) */
  method NewBuilder(heap: Heap) returns (b: Builder?)
    modifies heap
    ensures b == null ==> heap.live == old(heap.live)
    ensures heap.refused == old(heap.refused) + (if b == null then 1 else 0)
    ensures b != null ==> fresh(b) && fresh(b.buf) && b.Valid() && b.heap == heap && b.pairs == [] && heap.live == old(heap.live) + {b.buf}
  {
    b := null;
    var buf := heap.Malloc(64);
    if buf != null {
      buf[0] := 0;
      b := new Builder(heap, buf);
    }
  }

  /** The query only gets longer. */
  lemma {:induction false} PrefixShorter(ps: seq<(Bytes, Bytes)>, i: nat)
    requires i <= |ps|
    ensures |Query(ps[..i])| <= |Query(ps)|
  {
    if i < |ps| {
      var qs := ps[..|ps| - 1];
      assert qs[..i] == ps[..i];
      PrefixShorter(qs, i);
    } else {
      assert ps[..i] == ps;
    }
  }

  lemma Extend(ps: seq<(Bytes, Bytes)>, i: nat)
    requires i < |ps|
    ensures ps[..i + 1] == ps[..i] + [(ps[i].0, ps[i].1)]
    ensures |Query(ps[..i] + [(ps[i].0, ps[i].1)])| <= |Query(ps)|
  {
    assert ps[..i + 1] == ps[..i] + [(ps[i].0, ps[i].1)];
    PrefixShorter(ps, i + 1);
  }

  /** Every pair of a list into an empty builder, until one is refused. */
  method SetAll(b: Builder, ps: seq<(Bytes, Bytes)>) returns (ok: bool)
    requires b.Valid() && b.pairs == []
    requires forall p :: p in ps ==> |Encode(p.0)| < WORD && |Encode(p.1)| + 3 < WORD
    modifies b, b.heap, b.buf
    ensures b.Valid() && (b.buf == old(b.buf) || fresh(b.buf))
    ensures b.heap.live == old(b.heap.live) - {old(b.buf)} + {b.buf}
    ensures if ok then b.pairs == ps else Denied(b.heap, old(b.heap.refused), |Query(ps)| + 1)
  {
    var i := 0;
    while i < |ps|
      invariant i <= |ps| && b.Valid() && b.pairs == ps[..i] && b.heap.refused == old(b.heap.refused)
      invariant b.buf == old(b.buf) || fresh(b.buf)
      invariant b.heap.live == old(b.heap.live) - {old(b.buf)} + {b.buf}
    {
      var st := b.Set(Some(ps[i].0), Some(ps[i].1));
      Extend(ps, i);
      if st != OK {
        return false;
      }
      i := i + 1;
    }
    assert ps[..|ps|] == ps;
    return true;
  }

  /** Building from a list of pairs: reading the finished query gives the list back, and there
      is one unless room for it was denied. */
  method BuildAll(heap: Heap, ps: seq<(Bytes, Bytes)>) returns (ok: bool, query: Bytes)
    requires forall p :: p in ps ==> |Encode(p.0)| < WORD && |Encode(p.1)| + 3 < WORD
    modifies heap
    ensures if ok then ReadQuery(query) == Some(ps) else Denied(heap, old(heap.refused), |Query(ps)| + 1)
    ensures heap.live == old(heap.live)
  {
    ok, query := false, [];
    var b := NewBuilder(heap);
    if b == null {
      return;
    }
    ok := SetAll(b, ps);
    if ok {
      query := b.buf[..b.len];
      QueryRoundTrip(ps);
    }
    b.Free();
  }
}
