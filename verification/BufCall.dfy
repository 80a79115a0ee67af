/** The retry-once protocol over caller-allocated buffers. */
module BufCall {
  import opened Basics
  import opened CHeap
  import opened Engine

  /** Floor capacity of blob and JSON buffers. */
  const BLOB_CAP: int := 65536

  /** Every block freed since `old` held only zeros when it was freed. */
  predicate WipedSince(freed: seq<Bytes>, mark: nat) {
    mark <= |freed| && forall i :: mark <= i < |freed| ==> AllZero(freed[i])
  }

  /** Wipes and frees a block of `len` bytes; the caller keeps account of the length. */
  method WipeAndFree(heap: Heap, b: array<Byte>, len: nat)
    requires b in heap.live && len == b.Length
    modifies heap, b
    ensures heap.live == old(heap.live) - {b} && heap.refused == old(heap.refused)
    ensures |heap.freed| == |old(heap.freed)| + 1 && heap.freed[..|old(heap.freed)|] == old(heap.freed)
    ensures AllZero(heap.freed[|old(heap.freed)|])
  {
    Wipe(b, len);
    assert b[..len] == b[..];
    heap.Free(b);
  }

  /** The spare bytes behind the payload. */
  method ZeroTail(buf: array<Byte>, n: nat, extra: nat)
    requires n + extra <= buf.Length
    modifies buf
    ensures buf[..n] == old(buf[..n]) && AllZero(buf[n..n + extra])
  {
    for i := 0 to extra
      invariant forall j :: 0 <= j < n ==> buf[j] == old(buf[j])
      invariant forall j :: n <= j < n + i ==> buf[j] == 0
    {
      buf[n + i] := 0;
    }
  }

  /** Room for exactly so many bytes; a block never has none. */
  predicate ExactRoom(length: nat, size: nat) { length == size || (size == 0 && length == 1) }

  /** The shrink step: the payload moves to a block of its exact size, or stays where it is
      when that block cannot be had. */
  method Shrink(heap: Heap, buf: array<Byte>, cap: nat, n: nat, extra: nat) returns (out: array<Byte>)
    requires buf in heap.live && n <= cap && buf.Length == cap + extra
    modifies heap, buf
    ensures heap.live == old(heap.live) - {buf} + {out} && (out == buf || fresh(out)) && n + extra <= out.Length
    ensures out[..n] == old(buf[..n]) && heap.refused >= old(heap.refused)
    ensures heap.refused > old(heap.refused) || ExactRoom(out.Length, n + extra)
    ensures old(heap.freed) <= heap.freed && WipedSince(heap.freed, |old(heap.freed)|)
  {
    out := buf;
    var size := if n + extra > 0 then n + extra else 1;
    var shrunk := heap.Malloc(size);
    if shrunk != null {
      if n > 0 {
        Copy(shrunk, 0, buf, n);
      }
      assert shrunk[..n] == old(buf[..n]);
      WipeAndFree(heap, buf, cap + extra);
      out := shrunk;
    }
  }

  /** The answer asks for a larger buffer. */
  predicate Undersized(a: Answer) { a.rc == 5 && a.n > a.cap }

  /** The retry-once convention, from the answers a call site got and the allocations it was
      refused: a first call at the planned capacity, a second one of the same kind at exactly
      the reported size if and only if the first asked for it, and the status of the last call,
      or an internal error where an allocation stood in the way of the next one. */
  predicate Exchange(ask: Ask, st: Status, answers: seq<Answer>, cap0: nat, refused: int) {
    refused >= 0 &&
    match |answers|
    case 0 => st == INTERNAL && refused > 0
    case 1 =>
      answers[0].ask == ask && answers[0].cap == cap0 &&
      if Undersized(answers[0]) then st == INTERNAL && refused > 0 else st == Narrow(answers[0].rc)
    case 2 =>
      answers[0].ask == ask && answers[0].cap == cap0 && Undersized(answers[0]) &&
      answers[1].ask == ask && answers[1].cap == answers[0].n && st == Narrow(answers[1].rc)
    case _ => false
  }

  /** The calls of `buf_call`: at most two, whatever they answer; no block where an allocation
      failed. */
  method Converse(heap: Heap, lib: Library, req: Request, cap0: nat, extra: nat)
    returns (rc: int, buf: array?<Byte>, cap: nat, n: nat, h: Handle)
    requires cap0 + extra <= OBJECT_MAX
    modifies heap, lib`open, lib`log
    ensures old(lib.log) <= lib.log
    ensures Exchange(Buffer(req), if buf == null then INTERNAL else Narrow(rc), lib.log[|old(lib.log)|..], cap0,
                     heap.refused - old(heap.refused))
    ensures buf == null ==> rc != OK && heap.live == old(heap.live)
    ensures buf != null ==> fresh(buf) && buf.Length == cap + extra && heap.live == old(heap.live) + {buf}
    ensures buf != null ==> heap.refused == old(heap.refused) && lib.log != [] && lib.log[|lib.log| - 1].cap == cap
    ensures rc == OK ==> n <= cap && buf[..n] == lib.Written() && Effect(req, old(lib.open), lib.open, buf[..n], h)
    ensures rc != OK ==> lib.open == old(lib.open)
    ensures old(heap.freed) <= heap.freed && WipedSince(heap.freed, |old(heap.freed)|)
  {
    cap := cap0;
    buf := heap.Malloc(cap + extra);
    if buf == null {
      return INTERNAL, null, cap, 0, 0;
    }
    rc, n, h := lib.Call(req, buf, cap);
    if rc == BUFFER_TOO_SMALL && n > cap {
      WipeAndFree(heap, buf, cap + extra);
      buf := heap.Malloc(n + extra);
      if buf == null {
        return INTERNAL, null, cap, 0, 0;
      }
      cap := n;
      rc, n, h := lib.Call(req, buf, cap);
    }
  }

  /** `buf_call`. Success hands over one block with exactly the payload of the successful call
      and `extra` zero bytes behind it; failure hands over nothing and changed no handle. Every
      other block is freed, wiped. */
  method Dispatch(heap: Heap, lib: Library, req: Request, cap0: nat, extra: nat)
    returns (st: Status, out: array?<Byte>, n: nat, h: Handle)
    requires cap0 + extra <= OBJECT_MAX
    modifies heap, lib`open, lib`log
    ensures old(lib.log) <= lib.log
    ensures Exchange(Buffer(req), st, lib.log[|old(lib.log)|..], cap0, heap.refused - old(heap.refused))
    ensures st == OK ==> out != null && fresh(out) && n + extra <= out.Length && heap.live == old(heap.live) + {out}
    ensures st == OK ==> out[..n] == lib.Written() && AllZero(out[n..n + extra])
    ensures st == OK ==> heap.refused > old(heap.refused) || ExactRoom(out.Length, n + extra)
    ensures st == OK && n == lib.log[|lib.log| - 1].cap ==> heap.refused == old(heap.refused)
    ensures st == OK ==> Effect(req, old(lib.open), lib.open, out[..n], h)
    ensures st != OK ==> out == null && n == 0 && heap.live == old(heap.live) && lib.open == old(lib.open)
    ensures old(heap.freed) <= heap.freed && WipedSince(heap.freed, |old(heap.freed)|)
  {
    var rc, buf, cap;
    rc, buf, cap, n, h := Converse(heap, lib, req, cap0, extra);
    if buf == null {
      return INTERNAL, null, 0, 0;
    }
    if rc != OK {
      WipeAndFree(heap, buf, cap + extra);
      return Narrow(rc), null, 0, 0;
    }
    if n + extra < cap + extra {
      buf := Shrink(heap, buf, cap, n, extra);
    }
    ZeroTail(buf, n, extra);
    return OK, buf, n, h;
  }

  // ---------------------------------------------------------------- cipher calls

  /** `itb_internal_out_cap` on 64-bit `size_t`. */
  function OutCap(payload: nat): (cap: nat)
    requires payload < WORD
  {
    var floor := 131072;
    var cap := (payload + payload / 4) % WORD;
    if cap < payload || (cap + floor) % WORD < cap then payload
    else
      var sum := (cap + floor) % WORD;
      if sum > floor then sum else floor
  }

  /** The capacity is five quarters of the payload plus 128 KiB whenever that fits `size_t`,
      and the bare payload exactly when it does not; it never falls below the payload. */
  lemma OutCapExact(payload: nat)
    requires payload < WORD
    ensures OutCap(payload) ==
            if payload + payload / 4 + 131072 < WORD then payload + payload / 4 + 131072 else payload
    ensures payload <= OutCap(payload) < WORD
  {
    var sum := payload + payload / 4;
    if sum >= WORD {
      assert sum % WORD == sum - WORD;
    } else {
      assert sum % WORD == sum;
      if sum + 131072 >= WORD { assert (sum + 131072) % WORD == sum + 131072 - WORD; }
    }
  }

  /** The calls of `cipher_call`, growing the block with `realloc`; no block where an
      allocation failed. */
  method ConverseCipher(heap: Heap, lib: Library, pipe: Handle, cap0: nat)
    returns (rc: int, buf: array?<Byte>, cap: nat, n: nat)
    modifies heap, lib`log
    ensures old(lib.log) <= lib.log
    ensures Exchange(Cipher(pipe), if buf == null then INTERNAL else Narrow(rc), lib.log[|old(lib.log)|..], cap0,
                     heap.refused - old(heap.refused))
    ensures buf == null ==> rc != OK && heap.live == old(heap.live)
    ensures buf != null ==> fresh(buf) && buf.Length == cap && heap.live == old(heap.live) + {buf}
    ensures buf != null ==> heap.refused == old(heap.refused) && lib.log != [] && lib.log[|lib.log| - 1].cap == cap
    ensures rc == OK ==> n <= cap && buf[..n] == lib.Written() && pipe in lib.open
  {
    cap := cap0;
    buf := heap.Malloc(cap);
    if buf == null {
      return INTERNAL, null, cap, 0;
    }
    rc, n := lib.Crypt(pipe, buf, cap);
    if rc == BUFFER_TOO_SMALL && n > cap {
      var grown := heap.Realloc(buf, n);
      if grown == null {
        heap.Free(buf);
        return INTERNAL, null, cap, 0;
      }
      buf, cap := grown, n;
      rc, n := lib.Crypt(pipe, buf, cap);
    }
  }

  /** `cipher_call`: the same two-call protocol with `realloc`, for message and one-shot calls. */
  method CipherCall(heap: Heap, lib: Library, pipe: Handle, srcLen: nat)
    returns (st: Status, out: array?<Byte>, n: nat)
    requires srcLen <= OBJECT_MAX
    modifies heap, lib`log
    ensures old(lib.log) <= lib.log
    ensures Exchange(Cipher(pipe), st, lib.log[|old(lib.log)|..], OutCap(srcLen), heap.refused - old(heap.refused))
    ensures st == OK ==> out != null && fresh(out) && n <= out.Length && heap.live == old(heap.live) + {out}
    ensures st == OK ==> out[..n] == lib.Written() && pipe in lib.open
    ensures st == OK ==> heap.refused > old(heap.refused) || ExactRoom(out.Length, n)
    ensures st == OK && n == lib.log[|lib.log| - 1].cap ==> heap.refused == old(heap.refused)
    ensures st != OK ==> out == null && n == 0 && heap.live == old(heap.live)
  {
    var rc, buf, cap;
    rc, buf, cap, n := ConverseCipher(heap, lib, pipe, OutCap(srcLen));
    if buf == null {
      return INTERNAL, null, 0;
    }
    if rc != OK {
      heap.Free(buf);
      return Narrow(rc), null, 0;
    }
    if n < cap {
      var shrunk := heap.Realloc(buf, if n > 0 then n else 1);
      if shrunk != null {
        assert shrunk[..n] == buf[..n];
        buf := shrunk;
      }
    }
    return OK, buf, n;
  }
}
