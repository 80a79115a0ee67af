/** Incremental stream sessions and the two pumps that drive them: the binding's
    whole-buffer pump and the harness's own pump into a reused accumulator. */
module StreamPump {
  import opened Basics
  import opened CHeap
  import opened Accumulators

  /** One session's cipher chain under its keying and its randomness: what it can have
      produced after the bytes fed so far, and its whole output once those were all. */
  datatype Transducer = Transducer(ready: Bytes -> Bytes, whole: Bytes -> Bytes)

  ghost predicate Prefix(a: Bytes, b: Bytes) { |a| <= |b| && b[..|a|] == a }

  /** Output once produced is never revised by later input. */
  ghost predicate Causal(t: Transducer) {
    (forall a, b :: Prefix(a, b) ==> Prefix(t.ready(a), t.ready(b))) &&
    (forall a, b :: Prefix(a, b) ==> Prefix(t.ready(a), t.whole(b)))
  }

  // ---------------------------------------------------------------- the conversation with a session

  /** A call on a session that went well. */
  datatype Call = Wrote(n: nat) | Took(n: nat, fin: bool) | Closed

  /** The calls from `from` on are reads, of which the last and only the last got nothing. */
  ghost predicate Drained(calls: seq<Call>, from: nat) {
    from < |calls| && forall i :: from <= i < |calls| ==> calls[i].Took? && (calls[i].n == 0 <==> i == |calls| - 1)
  }

  /** The calls from `from` on are reads, of which the last and only the last reported the finish. */
  ghost predicate Finished(calls: seq<Call>, from: nat) {
    from < |calls| && forall i :: from <= i < |calls| ==> calls[i].Took? && (calls[i].fin <==> i == |calls| - 1)
  }

  /** The first `done` of `total` bytes were written in slices of 1 MiB, the last of which may be
      shorter, and after each the session was read until nothing came. */
  ghost predicate Rounds(calls: seq<Call>, done: nat, total: nat)
    decreases done
  {
    if done == 0 then calls == []
    else
      exists k :: 0 <= k < |calls| && calls[k].Wrote? && 0 < calls[k].n <= done <= total &&
                  calls[k].n == Min(1048576, total - (done - calls[k].n)) &&
                  Drained(calls, k + 1) && Rounds(calls[..k], done - calls[k].n, total)
  }

  lemma NextRound(before: seq<Call>, calls: seq<Call>, done: nat, n: nat, total: nat)
    requires Rounds(before, done, total) && 0 < n == Min(1048576, total - done) && done + n <= total
    requires before + [Wrote(n)] <= calls && Drained(calls, |before| + 1)
    ensures Rounds(calls, done + n, total)
  {
    assert calls[|before|] == Wrote(n) && calls[..|before|] == before;
  }

  /** All bytes written in rounds, the end, and then reads up to the finish. */
  ghost predicate Conversation(calls: seq<Call>, total: nat) {
    exists k :: 0 <= k < |calls| && calls[k] == Closed && Rounds(calls[..k], total, total) && Finished(calls, k + 1)
  }

  lemma Concluded(before: seq<Call>, calls: seq<Call>, total: nat)
    requires Rounds(before, total, total) && before + [Closed] <= calls && Finished(calls, |before| + 1)
    ensures Conversation(calls, total)
  {
    assert calls[|before|] == Closed && calls[..|before|] == before;
  }

  // ---------------------------------------------------------------- sessions

  /** The session as its contract describes it. How much of the produced output a read
      releases, and every failure, is up to the environment. */
  class Session {
    const t: Transducer
    var fed: Bytes
    var ended: bool
    var sent: Bytes
    ghost var status: Status     // of the latest call
    ghost var calls: seq<Call>   // those that went well, in order

    constructor (t: Transducer)
      requires Causal(t)
      ensures this.t == t && New() && Valid()
    {
      this.t := t;
      fed, ended, sent, status, calls := [], false, [], OK, [];
    }

    function Produced(): Bytes
      reads this
    {
      if ended then t.whole(fed) else t.ready(fed)
    }

    ghost predicate Valid()
      reads this
    {
      Causal(t) && Prefix(sent, Produced())
    }

    /** Nothing has been asked of it yet. */
    ghost predicate New()
      reads this
    {
      fed == [] && !ended && sent == [] && status == OK && calls == []
    }

    /** `itb_stream_write`: the chain accepts the bytes, or the session fails. */
    method Write(src: array?<Byte>, off: nat, n: nat) returns (st: Status)
      requires Valid() && !ended && (src == null ==> n == 0) && (src != null ==> off + n <= src.Length)
      modifies this
      ensures Valid() && !ended && sent == old(sent) && status == st
      ensures st == OK ==> fed == old(fed) + (if src == null then [] else src[off..off + n])
      ensures calls == old(calls) + (if st == OK then [Wrote(n)] else [])
    {
      st :| true;
      if st == OK && src != null {
        var more := fed + src[off..off + n];
        assert Prefix(fed, more) && Prefix(t.ready(fed), t.ready(more));
        assert sent == t.ready(more)[..|t.ready(fed)|][..|sent|];
        fed := more;
      }
      status := st;
      calls := calls + if st == OK then [Wrote(n)] else [];
    }

    /** `itb_stream_end`. */
    method End() returns (st: Status)
      requires Valid() && !ended
      modifies this
      ensures Valid() && sent == old(sent) && fed == old(fed) && status == st
      ensures st == OK ==> ended
      ensures calls == old(calls) + (if st == OK then [Closed] else [])
    {
      st :| true;
      if st == OK {
        assert Prefix(fed, fed) && Prefix(t.ready(fed), t.whole(fed));
        assert sent == t.whole(fed)[..|t.ready(fed)|][..|sent|];
        ended := true;
      }
      status := st;
      calls := calls + if st == OK then [Closed] else [];
    }

    /** `itb_stream_read`: releases the next bytes of the output, any number up to the buffer.
        Before the end an empty read is always possible; after it, a read that releases
        nothing reports the finish, and the finish means all output was released. */
    method Read(dst: array<Byte>) returns (st: Status, n: nat, fin: bool)
      requires Valid()
      modifies this`sent, this`status, this`calls, dst
      ensures Valid() && status == st
      ensures st != OK ==> n == 0 && !fin && sent == old(sent)
      ensures n <= dst.Length && sent == old(sent) + dst[..n]
      ensures fin ==> ended && sent == t.whole(fed)
      ensures st == OK && ended && n == 0 ==> fin
      ensures calls == old(calls) + (if st == OK then [Took(n, fin)] else [])
    {
      st, n, fin := *, 0, false;
      status := st;
      if st == OK {
        var rest := Produced()[|sent|..];
        if ended && |rest| > 0 && dst.Length > 0 {
          n :| 0 < n <= |rest| && n <= dst.Length;
        } else {
          n :| 0 <= n <= |rest| && n <= dst.Length;
        }
        if ended && n == 0 && |rest| > 0 {
          // a buffer of no bytes drains nothing; the library reports it as an error
          status := INTERNAL;
          return INTERNAL, 0, false;
        }
        for i := 0 to n
          invariant dst[..i] == rest[..i] && sent == old(sent) && Valid() && fed == old(fed) && ended == old(ended) && status == OK && calls == old(calls)
        {
          dst[i] := rest[i];
        }
        sent := sent + dst[..n];
        fin := *;
        fin := ended && n == |rest| && (fin || n == 0);
        calls := calls + [Took(n, fin)];
        assert Prefix(sent, Produced());
      }
    }
  }

  /** The answer to a begin. */
  datatype Begun = Begun(status: Status, session: Session?)

  /** The library's table of open sessions. */
  class Library {
    var sessions: set<Session>
    ghost var begins: seq<Begun>   // every session asked for, in order

    constructor ()
      ensures sessions == {}
    {
      sessions, begins := {}, [];
    }

    /** `stream_begin`. */
    method Begin(t: Transducer) returns (st: Status, s: Session?)
      requires Causal(t)
      modifies this
      ensures st == OK <==> s != null
      ensures begins == old(begins) + [Begun(st, s)]
      ensures s == null ==> sessions == old(sessions)
      ensures s != null ==> fresh(s) && s.Valid() && s.New() && s.t == t && sessions == old(sessions) + {s}
    {
      st, s := *, null;
      if st == OK {
        s := new Session(t);
        sessions := sessions + {s};
      }
      begins := begins + [Begun(st, s)];
    }

    /** `itb_stream_free`, from any state. */
    method Free(s: Session)
      requires s in sessions
      modifies this`sessions
      ensures sessions == old(sessions) - {s}
    {
      sessions := sessions - {s};
    }
  }

  /** Why driving a session ended with this status: it is that of the latest session call, and
      an internal error after a call that went well only where room for the output was denied. */
  ghost predicate Because(st: Status, s: Session, heap: Heap, before: nat)
    reads s, heap
  {
    if st == s.status then heap.refused == before
    else st == INTERNAL && s.status == OK && Denied(heap, before, |s.sent|)
  }

  /** The drain after a write: append whatever the session releases until a read is empty. */
  method DrainReady(s: Session, scratch: array<Byte>, acc: Accumulator) returns (st: Status)
    requires s.Valid() && !s.ended && acc.Valid() && acc.data != scratch && scratch.Length == PUMP_SLICE
    requires acc.Contents() == s.sent
    modifies s`sent, s`status, s`calls, scratch, acc, acc.heap, acc.data
    ensures s.Valid() && acc.Valid() && (st == OK ==> acc.Contents() == s.sent)
    ensures st == OK ==> old(s.calls) <= s.calls && Drained(s.calls, |old(s.calls)|)
    ensures Because(st, s, acc.heap, old(acc.heap.refused))
    ensures acc.data == old(acc.data) || fresh(acc.data)
    ensures Others(acc) == old(Others(acc))
  {
    st := OK;
    while true
      invariant s.Valid() && acc.Valid() && acc.Contents() == s.sent && acc.data != scratch
      invariant acc.heap.refused == old(acc.heap.refused)
      invariant acc.data == old(acc.data) || fresh(acc.data)
      invariant Others(acc) == old(Others(acc))
      invariant old(s.calls) <= s.calls
      invariant forall i :: |old(s.calls)| <= i < |s.calls| ==> s.calls[i].Took? && s.calls[i].n > 0
      decreases |s.Produced()| - |s.sent|
    {
      var n, fin;
      st, n, fin := s.Read(scratch);
      if st != OK || n == 0 {
        return;
      }
      var ok := acc.Append(scratch, n);
      if !ok {
        st := INTERNAL;
        return;
      }
    }
  }

  /** The drain after the end: append until the session reports that it has finished. */
  method DrainRest(s: Session, scratch: array<Byte>, acc: Accumulator) returns (st: Status)
    requires s.Valid() && s.ended && s.status == OK && acc.Valid() && acc.data != scratch && scratch.Length == PUMP_SLICE
    requires acc.Contents() == s.sent
    modifies s`sent, s`status, s`calls, scratch, acc, acc.heap, acc.data
    ensures s.Valid() && acc.Valid() && (st == OK ==> acc.Contents() == s.t.whole(s.fed))
    ensures st == OK ==> old(s.calls) <= s.calls && Finished(s.calls, |old(s.calls)|)
    ensures Because(st, s, acc.heap, old(acc.heap.refused))
    ensures acc.data == old(acc.data) || fresh(acc.data)
    ensures Others(acc) == old(Others(acc))
  {
    st := OK;
    var fin := false;
    while !fin
      invariant s.Valid() && acc.Valid() && acc.Contents() == s.sent && acc.data != scratch
      invariant fin ==> s.sent == s.t.whole(s.fed)
      invariant acc.heap.refused == old(acc.heap.refused) && st == s.status == OK
      invariant acc.data == old(acc.data) || fresh(acc.data)
      invariant Others(acc) == old(Others(acc))
      invariant old(s.calls) <= s.calls && (fin ==> |s.calls| > |old(s.calls)|)
      invariant forall i :: |old(s.calls)| <= i < |s.calls| ==>
                  s.calls[i].Took? && (s.calls[i].fin <==> fin && i == |s.calls| - 1)
      decreases |s.Produced()| - |s.sent|, !fin
    {
      var n;
      st, n, fin := s.Read(scratch);
      if st != OK {
        return;
      }
      var ok := acc.Append(scratch, n);
      if !ok {
        st := INTERNAL;
        return;
      }
    }
  }

  lemma Slices(b: Bytes, off: nat, n: nat)
    requires off + n <= |b|
    ensures b[..off] + b[off..off + n] == b[..off + n]
  {
  }

  /** One slice of at most 1 MiB, and the drain after it. */
  method FeedSlice(s: Session, src: array<Byte>, srcLen: nat, off: nat, scratch: array<Byte>, acc: Accumulator)
    returns (st: Status, next: nat)
    requires s.Valid() && !s.ended && acc.Valid() && acc.Contents() == s.sent
    requires off < srcLen <= src.Length && s.fed == Input(src, off)
    requires scratch.Length == PUMP_SLICE && acc.data != scratch && src != scratch && src != acc.data
    modifies s, scratch, acc, acc.heap, acc.data
    ensures s.Valid() && acc.Valid()
    ensures next == off + Min(1048576, srcLen - off)
    ensures st == OK ==> !s.ended && s.fed == Input(src, next) && acc.Contents() == s.sent
    ensures st == OK ==> old(s.calls) + [Wrote(next - off)] <= s.calls && Drained(s.calls, |old(s.calls)| + 1)
    ensures Because(st, s, acc.heap, old(acc.heap.refused))
    ensures acc.data == old(acc.data) || fresh(acc.data)
    ensures Others(acc) == old(Others(acc))
  {
    var slice := srcLen - off;
    if slice > PUMP_SLICE {
      slice := PUMP_SLICE;
    }
    next := off + slice;
    st := s.Write(src, off, slice);
    if st != OK {
      return;
    }
    Slices(src[..], off, slice);
    assert s.fed == src[..next];
    st := DrainReady(s, scratch, acc);
  }

  /** The same, as one more round of the conversation. */
  method FeedRound(s: Session, src: array<Byte>, srcLen: nat, off: nat, scratch: array<Byte>, acc: Accumulator)
    returns (st: Status, next: nat)
    requires s.Valid() && !s.ended && acc.Valid() && acc.Contents() == s.sent
    requires off < srcLen <= src.Length && s.fed == Input(src, off) && Rounds(s.calls, off, srcLen)
    requires scratch.Length == PUMP_SLICE && acc.data != scratch && src != scratch && src != acc.data
    modifies s, scratch, acc, acc.heap, acc.data
    ensures s.Valid() && acc.Valid()
    ensures st == OK ==> !s.ended && off < next <= srcLen && s.fed == Input(src, next) && acc.Contents() == s.sent
    ensures st == OK ==> Rounds(s.calls, next, srcLen)
    ensures Because(st, s, acc.heap, old(acc.heap.refused))
    ensures acc.data == old(acc.data) || fresh(acc.data)
    ensures Others(acc) == old(Others(acc))
  {
    ghost var before := s.calls;
    st, next := FeedSlice(s, src, srcLen, off, scratch, acc);
    if st == OK { NextRound(before, s.calls, off, next - off, srcLen); }
  }

  /** Feeds `src` slice by slice, draining after each. */
  method Feed(s: Session, src: array?<Byte>, srcLen: nat, scratch: array<Byte>, acc: Accumulator) returns (st: Status)
    requires s.Valid() && s.New() && acc.Valid() && acc.Contents() == []
    requires (if src == null then srcLen == 0 else srcLen <= src.Length)
    requires scratch.Length == PUMP_SLICE && acc.data != scratch && src != scratch && (src != null ==> src != acc.data)
    modifies s, scratch, acc, acc.heap, acc.data
    ensures s.Valid() && acc.Valid() && acc.data != scratch
    ensures st == OK ==> !s.ended && s.fed == Input(src, srcLen) && acc.Contents() == s.sent
    ensures st == OK ==> Rounds(s.calls, srcLen, srcLen)
    ensures Because(st, s, acc.heap, old(acc.heap.refused))
    ensures acc.data == old(acc.data) || fresh(acc.data)
    ensures Others(acc) == old(Others(acc))
  {
    st := OK;
    var off := 0;
    while off < srcLen
      invariant off <= srcLen && s.Valid() && !s.ended && acc.Valid() && acc.Contents() == s.sent
      invariant acc.data != scratch && s.fed == Input(src, off) && Rounds(s.calls, off, srcLen)
      invariant acc.heap.refused == old(acc.heap.refused) && st == s.status == OK
      invariant acc.data == old(acc.data) || fresh(acc.data)
      invariant Others(acc) == old(Others(acc))
    {
      st, off := FeedRound(s, src, srcLen, off, scratch, acc);
      if st != OK {
        return;
      }
    }
  }

  /** Feeds the whole input, ends the session and drains the rest: the loop both pumps run. */
  method Drive(s: Session, src: array?<Byte>, srcLen: nat, scratch: array<Byte>, acc: Accumulator) returns (st: Status)
    requires s.Valid() && s.New() && acc.Valid() && acc.Contents() == []
    requires (if src == null then srcLen == 0 else srcLen <= src.Length)
    requires scratch.Length == PUMP_SLICE && acc.data != scratch && src != scratch && (src != null ==> src != acc.data)
    modifies s, scratch, acc, acc.heap, acc.data
    ensures s.Valid() && acc.Valid()
    ensures st == OK ==> s.fed == Input(src, srcLen) && acc.Contents() == s.t.whole(s.fed)
    ensures st == OK ==> Conversation(s.calls, srcLen)
    ensures Because(st, s, acc.heap, old(acc.heap.refused))
    ensures acc.data == old(acc.data) || fresh(acc.data)
    ensures Others(acc) == old(Others(acc))
  {
    st := Feed(s, src, srcLen, scratch, acc);
    if st != OK {
      return;
    }
    ghost var before := s.calls;
    st := s.End();
    if st != OK {
      return;
    }
    st := DrainRest(s, scratch, acc);
    if st == OK { Concluded(before, s.calls, srcLen); }
  }

  /** The same loop, and the scratch block is freed after it. */
  method DriveOut(s: Session, src: array?<Byte>, srcLen: nat, scratch: array<Byte>, acc: Accumulator) returns (st: Status)
    requires s.Valid() && s.New() && acc.Valid() && acc.Contents() == []
    requires (if src == null then srcLen == 0 else srcLen <= src.Length)
    requires scratch.Length == PUMP_SLICE && acc.data != scratch && src != scratch && (src != null ==> src != acc.data)
    requires scratch in acc.heap.live
    modifies s, scratch, acc, acc.heap, acc.data
    ensures s.Valid() && acc.Valid()
    ensures Because(st, s, acc.heap, old(acc.heap.refused))
    ensures st == OK ==> s.fed == Input(src, srcLen) && acc.Contents() == s.t.whole(s.fed)
    ensures st == OK ==> Conversation(s.calls, srcLen)
    ensures acc.data == old(acc.data) || fresh(acc.data)
    ensures acc.heap.live == old(acc.heap.live) - {scratch} - {old(acc.data)} + (if acc.data == null then {} else {acc.data})
  {
    st := Drive(s, src, srcLen, scratch, acc);
    ghost var block := if acc.data == null then {} else {acc.data};
    Give(old(acc.heap.live), old(acc.data), block, scratch);
    acc.heap.Free(scratch);
  }

  /** The scratch block leaves the live ones; nothing else does. */
  lemma Give(live: set<array?<Byte>>, gone: array?<Byte>, block: set<array?<Byte>>, scratch: array<Byte>)
    requires scratch !in block && scratch != gone
    ensures live - {gone} + block - {scratch} == live - {scratch} - {gone} + block
  {
  }

  ghost function Input(src: array?<Byte>, n: nat): Bytes
    requires if src == null then n == 0 else n <= src.Length
    reads src
  {
    if src == null then [] else src[..n]
  }

  /** The accumulated block, or one byte's room where nothing was ever appended. */
  method HandOver(heap: Heap, acc: Accumulator) returns (st: Status, out: array?<Byte>, outLen: nat)
    requires acc.Valid() && acc.heap == heap
    modifies heap`live, heap`refused
    ensures st == if out == null then INTERNAL else OK
    ensures out == null ==> outLen == 0 && acc.data == null && heap.live == old(heap.live) && heap.refused > old(heap.refused)
    ensures out != null ==> outLen <= out.Length && out[..outLen] == old(acc.Contents()) && (out == acc.data || fresh(out))
    ensures out != null ==> heap.live == old(heap.live) - {acc.data} + {out} && heap.refused == old(heap.refused)
    ensures out != null && acc.data == null ==> out.Length == 1 && outLen == 0
  {
    if acc.data == null {
      out := heap.Malloc(1);
      return if out == null then INTERNAL else OK, out, 0;
    }
    return OK, acc.data, acc.len;
  }

  /** Why a pump over the session it asked for ended with this status: the begin failed with
      it, or a call on the session did, or memory was denied. */
  ghost predicate Cause(st: Status, b: Begun, heap: Heap, refused: nat)
    reads b.session, heap
  {
    refused <= heap.refused &&
    if b.session == null then st == b.status != OK
    else
      st == b.session.status ||
      (st == INTERNAL && b.session.status == OK && (refused < heap.refused || 2 * |b.session.sent| > WORD))
  }

  /** One session has been asked for since, and explains the status. */
  ghost predicate Pumped(st: Status, begins: seq<Begun>, before: seq<Begun>, heap: Heap, refused: nat)
    reads set b | b in begins :: b.session, heap
  {
    before <= begins && |begins| == |before| + 1 && Cause(st, begins[|before|], heap, refused)
  }

  /** One pump has failed since, or it went well and a second one explains the status. */
  ghost predicate PumpedTwice(st: Status, begins: seq<Begun>, before: seq<Begun>, heap: Heap, refused: nat)
    reads set b | b in begins :: b.session, heap
  {
    before <= begins &&
    if |begins| == |before| + 1 then st != OK && Cause(st, begins[|before|], heap, refused)
    else
      |begins| == |before| + 2 && Cause(OK, begins[|before|], heap, refused) && Cause(st, begins[|before| + 1], heap, refused)
  }

  /** The body of the binding's pump: an accumulator and a scratch block of its own. */
  method DriveFresh(s: Session, heap: Heap, src: array?<Byte>, srcLen: nat) returns (st: Status, acc: Accumulator)
    requires s.Valid() && s.New() && (if src == null then srcLen == 0 else srcLen <= src.Length)
    modifies s, heap
    ensures fresh(acc) && acc.heap == heap && acc.Valid() && (acc.data != null ==> fresh(acc.data))
    ensures st == OK ==> acc.Contents() == s.t.whole(Input(src, srcLen)) && Conversation(s.calls, srcLen)
    ensures Cause(st, Begun(OK, s), heap, old(heap.refused))
    ensures heap.live == old(heap.live) + (if acc.data == null then {} else {acc.data})
  {
    acc := new Accumulator(heap);
    var scratch := heap.Malloc(PUMP_SLICE);
    if scratch == null {
      st := INTERNAL;
    } else {
      st := DriveOut(s, src, srcLen, scratch, acc);
    }
  }

  /** The binding's pump. Whatever the session releases when, success hands over exactly the
      whole output of the session over `src` in one block; failure hands over nothing; either
      way the session, the scratch buffer and any partial output are released. */
  method BindingPump(lib: Library, heap: Heap, t: Transducer, src: array?<Byte>, srcLen: nat)
    returns (st: Status, out: array?<Byte>, outLen: nat)
    requires Causal(t) && (src != null ==> srcLen <= src.Length)
    modifies lib, heap
    ensures lib.sessions == old(lib.sessions)
    ensures if src == null && srcLen > 0 then st == BAD_INPUT && lib.begins == old(lib.begins)
            else Pumped(st, lib.begins, old(lib.begins), heap, old(heap.refused))
    ensures st == OK ==> out != null && fresh(out) && outLen <= out.Length && heap.live == old(heap.live) + {out}
    ensures st == OK ==> out[..outLen] == t.whole(Input(src, srcLen))
    ensures st == OK ==> Conversation(lib.begins[|old(lib.begins)|].session.calls, srcLen)
    ensures st != OK ==> out == null && outLen == 0 && heap.live == old(heap.live)
  {
    out, outLen := null, 0;
    if src == null && srcLen > 0 {
      return BAD_INPUT, null, 0;
    }
    var s;
    st, s := lib.Begin(t);
    if st != OK {
      return;
    }
    var acc;
    st, acc := DriveFresh(s, heap, src, srcLen);
    lib.Free(s);
    if st != OK {
      acc.Release();
      return;
    }
    st, out, outLen := HandOver(heap, acc);
  }

  /** The body of the harness's pump: a scratch block, and the accumulator started over. */
  method DriveInto(s: Session, src: array?<Byte>, srcLen: nat, acc: Accumulator) returns (st: Status)
    requires s.Valid() && s.New() && acc.Valid()
    requires (if src == null then srcLen == 0 else srcLen <= src.Length) && (src != null ==> src != acc.data)
    modifies s, acc, acc.heap, acc.data
    ensures acc.Valid() && (st == OK ==> acc.Contents() == s.t.whole(old(Input(src, srcLen))))
    ensures st == OK ==> Conversation(s.calls, srcLen)
    ensures Cause(st, Begun(OK, s), acc.heap, old(acc.heap.refused))
    ensures acc.data == old(acc.data) || fresh(acc.data)
    ensures acc.heap.live == old(acc.heap.live) - {old(acc.data)} + (if acc.data == null then {} else {acc.data})
  {
    var scratch := acc.heap.Malloc(PUMP_SLICE);
    if scratch == null {
      return INTERNAL;
    }
    acc.Reset();
    st := DriveOut(s, src, srcLen, scratch, acc);
  }

  /** The harness's pump, into a worker's accumulator whose earlier contents do not matter. */
  method HarnessPump(lib: Library, heap: Heap, t: Transducer, src: array?<Byte>, srcLen: nat, acc: Accumulator)
    returns (st: Status)
    requires Causal(t) && (if src == null then srcLen == 0 else srcLen <= src.Length)
    requires acc.Valid() && acc.heap == heap && (src != null ==> src != acc.data)
    modifies lib, heap, acc, acc.data
    ensures lib.sessions == old(lib.sessions)
    ensures Pumped(st, lib.begins, old(lib.begins), heap, old(heap.refused))
    ensures st == OK ==> Conversation(lib.begins[|old(lib.begins)|].session.calls, srcLen)
    ensures acc.Valid() && (st == OK ==> acc.Contents() == t.whole(old(Input(src, srcLen))))
    ensures acc.data == old(acc.data) || fresh(acc.data)
    ensures heap.live == old(heap.live) - {old(acc.data)} + (if acc.data == null then {} else {acc.data})
  {
    var s;
    st, s := lib.Begin(t);
    if st != OK {
      return;
    }
    st := DriveInto(s, src, srcLen, acc);
    lib.Free(s);
  }

  /** The two pumps over the same input, each against its own session with its own slicing and
      scheduling: when both succeed their outputs are the same bytes. */
  method PumpsAgree(lib: Library, heap: Heap, t: Transducer, src: array?<Byte>, srcLen: nat, acc: Accumulator)
    returns (st: Status, out: array?<Byte>, outLen: nat)
    requires Causal(t) && (if src == null then srcLen == 0 else srcLen <= src.Length)
    requires acc.Valid() && acc.heap == heap && (src != null ==> src != acc.data)
    modifies lib, heap, acc, acc.data
    ensures lib.sessions == old(lib.sessions) && acc.Valid()
    ensures PumpedTwice(st, lib.begins, old(lib.begins), heap, old(heap.refused))
    ensures if st == OK then out != null && outLen <= out.Length && out[..outLen] == acc.Contents() else out == null && outLen == 0
  {
    out, outLen := null, 0;
    st := HarnessPump(lib, heap, t, src, srcLen, acc);
    if st == OK {
      assert Input(src, srcLen) == old(Input(src, srcLen));
      st, out, outLen := BindingPump(lib, heap, t, src, srcLen);
    }
  }

  /** The stream surface of one harness iteration: encrypt into one accumulator, decrypt from it
      into the other. With a decrypt session that inverts the encrypt session, what arrives is
      the plaintext, for every slicing on either side. */
  method StreamRoundTrip(lib: Library, heap: Heap, enc: Transducer, dec: Transducer, plaintext: array<Byte>,
                         wire: Accumulator, plain: Accumulator) returns (st: Status)
    requires Causal(enc) && Causal(dec) && (forall p: Bytes :: dec.whole(enc.whole(p)) == p)
    requires wire.Valid() && plain.Valid() && wire.heap == heap && plain.heap == heap && wire != plain
    requires plaintext != wire.data && plaintext != plain.data
    requires wire.data != null ==> wire.data != plain.data
    modifies lib, heap, wire, wire.data, plain, plain.data
    ensures lib.sessions == old(lib.sessions) && wire.Valid() && plain.Valid()
    ensures PumpedTwice(st, lib.begins, old(lib.begins), heap, old(heap.refused))
    ensures st == OK ==> plain.Contents() == plaintext[..]
  {
    st := HarnessPump(lib, heap, enc, plaintext, plaintext.Length, wire);
    if st != OK {
      return;
    }
    assert plaintext[..plaintext.Length] == plaintext[..];
    st := HarnessPump(lib, heap, dec, wire.data, wire.len, plain);
  }
}
