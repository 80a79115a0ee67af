/** The maintenance operations as the harness performs them on its run state, call by call
    against the binding, and their agreement with the write-locked steps of the protocol. */
module HarnessOps {
  import opened Basics
  import opened CHeap
  import E = Engine
  import opened Lifecycle
  import opened M = HarnessModel

  // ---------------------------------------------------------------- whole mutations of the protocol

  /** A rotation of one side, from the library call to the stored blob. */
  function Rotated(hs: Handles, side: Side, key: Key): Handles {
    match Slot(hs, side)
    case None => hs
    case Some(p) => Stored(hs.(live := hs.live[p.handle := key]), side, key)
  }

  /** A reopen of one side, from the load to the swap. */
  function Reopened(hs: Handles, side: Side, h: Handle): Handles {
    match Slot(hs, side)
    case None => hs
    case Some(p) => Swapped(Closed(hs.(live := hs.live[h := p.blob]), side), side, h)
  }

  /** A rotation to the keying of the pipe the side ends with. */
  function RotatedTo(hs: Handles, side: Side, p: Option<Pipe>): Handles {
    if p.None? then hs else Rotated(hs, side, p.value.blob)
  }

  /** A reopen to the handle of the pipe the side ends with. */
  function ReopenedTo(hs: Handles, side: Side, p: Option<Pipe>): Handles {
    if p.None? then hs else Reopened(hs, side, p.value.handle)
  }

  /** The two in-lock steps of a successful rotation have exactly that effect, and leave the
      handles clean. */
  lemma RotationSteps(cfg: Config, sh: Shared, i: nat, w: Worker, side: Side, ch: Choice)
    requires w.pc == M.Rekey(RkCall(side)) && ch.ok && Clean(cfg, sh.hs) && Slot(sh.hs, side).Some?
    ensures var (sh1, w1) := StepRekey(cfg, sh, i, w, RkCall(side), ch);
            w1.pc == M.Rekey(RkStore(side, ch.key)) &&
            var (sh2, w2) := StepRekey(cfg, sh1, i, w1, RkStore(side, ch.key), ch);
            sh2.hs == Rotated(sh.hs, side, ch.key) && Clean(cfg, sh2.hs)
  {
  }

  /** Likewise the three in-lock steps of a successful reopen. */
  lemma ReopenSteps(cfg: Config, sh: Shared, i: nat, w: Worker, side: Side, ch: Choice)
    requires w.pc == M.Reopen(RoLoad(side)) && ch.ok && Clean(cfg, sh.hs) && Slot(sh.hs, side).Some? && ch.handle !in sh.hs.live
    ensures var (sh1, w1) := StepReopen(cfg, sh, i, w, RoLoad(side), ch);
            w1.pc == M.Reopen(RoFree(side, ch.handle)) &&
            var (sh2, w2) := StepReopen(cfg, sh1, i, w1, RoFree(side, ch.handle), ch);
            w2.pc == M.Reopen(RoAssign(side, ch.handle)) &&
            var (sh3, w3) := StepReopen(cfg, sh2, i, w2, RoAssign(side, ch.handle), ch);
            sh3.hs == Reopened(sh.hs, side, ch.handle) && Clean(cfg, sh3.hs)
  {
  }

  // ---------------------------------------------------------------- the run state

  /** What happened underneath since the log was `log` and `refused` allocations had failed: an
      operation that did not go well had an allocation refused, or its last library call failed. */
  ghost predicate Accounts(well: bool, lib: E.Library, log: seq<E.Answer>, heap: Heap, structs: Structs, refused: nat)
    reads lib, heap, structs
  {
    log <= lib.log && refused <= heap.refused + structs.refused &&
    (well || refused < heap.refused + structs.refused || (|log| < |lib.log| && lib.log[|lib.log| - 1].rc != OK))
  }

  lemma Undone<V>(m: map<Handle, V>, h: Handle, v: V)
    requires h !in m
    ensures m[h := v] - {h} == m
  {
  }

  /** The calls of `build_pipeline`: construction, then one save. */
  method Construct(heap: Heap, lib: E.Library, structs: Structs)
    returns (rc: int, pipe: Wrapper?, blob: array?<Byte>, len: nat)
    requires OneToOne(lib.open.Keys, structs)
    modifies heap, lib`open, lib`log, structs
    ensures OneToOne(lib.open.Keys, structs)
    ensures Accounts(rc == 0, lib, old(lib.log), heap, structs, old(heap.refused + structs.refused))
    ensures rc == 0 ==>
              pipe != null && pipe.handle !in old(lib.open) && structs.live == old(structs.live)[pipe.handle := pipe] &&
              pipe.handle in lib.open && lib.open == old(lib.open)[pipe.handle := lib.open[pipe.handle]]
    ensures rc == 0 ==>
              blob != null && fresh(blob) && heap.live == old(heap.live) + {blob} &&
              len <= blob.Length && blob[..len] == lib.open[pipe.handle]
    ensures rc != 0 ==>
              rc == -1 && heap.live == old(heap.live) && structs.live == old(structs.live) && lib.open == old(lib.open)
  {
    var st;
    st, pipe := PipelineInit(heap, lib, structs);
    if st != OK {
      return -1, null, null, 0;
    }
    Undone(old(lib.open), pipe.handle, lib.open[pipe.handle]);
    Undone(old(structs.live), pipe.handle, pipe);
    st, blob, len := PipelineSave(heap, lib, pipe);
    if st != OK {
      PipelineFree(lib, structs, pipe);
      return -1, null, null, 0;
    }
    rc := 0;
  }

  /** The library has answered a rotation of the handle with this blob since the log had
      `mark` entries. */
  ghost predicate RotatedSince(log: seq<E.Answer>, mark: nat, h: Handle, key: Key) {
    exists k :: mark <= k < |log| && IsRotation(log[k], h, key)
  }

  predicate IsRotation(a: E.Answer, h: Handle, key: Key) {
    a.ask == E.Buffer(E.Rekey(h)) && a.rc == OK && a.bytes == key
  }

  /** A filled side holds the blob of a rotation answered since. */
  ghost predicate FreshSide(p: Option<Pipe>, log: seq<E.Answer>, mark: nat) {
    p.Some? ==> RotatedSince(log, mark, p.value.handle, p.value.blob)
  }

  /** One side went from `before` to the keying of a rotation the library has answered since the
      log had `mark` entries, or nothing changed. */
  ghost predicate OneRotated(before: Handles, now: Handles, side: Side, log: seq<E.Answer>, mark: nat, well: bool) {
    if well then now == RotatedTo(before, side, Slot(now, side)) && FreshSide(Slot(now, side), log, mark)
    else now == before
  }

  /** Both sides did, or after a failure none or the first. */
  ghost predicate BothRotated(before: Handles, now: Handles, log: seq<E.Answer>, mark: nat, well: bool) {
    if well then
      now == RotatedTo(RotatedTo(before, StreamSide, now.stream), MessageSide, now.msg) &&
      FreshSide(now.stream, log, mark) && FreshSide(now.msg, log, mark)
    else now == before || OneRotated(before, now, StreamSide, log, mark, true)
  }

  lemma ComposeRotations(before: Handles, between: Handles, now: Handles, mark: nat, log: seq<E.Answer>,
                         longer: seq<E.Answer>, well: bool)
    requires mark <= |log| && log <= longer
    requires OneRotated(before, between, StreamSide, log, mark, true)
    requires OneRotated(between, now, MessageSide, longer, |log|, well)
    ensures BothRotated(before, now, longer, mark, well)
  {
    assert FreshSide(between.stream, longer, mark);
    assert now.stream == between.stream;
  }

  /** One side swapped its handle for a fresh one of the same keying, or nothing changed. */
  predicate OneReopened(before: Handles, now: Handles, side: Side, well: bool) {
    now == (if well then ReopenedTo(before, side, Slot(now, side)) else before) &&
    (Slot(now, side).None? <==> Slot(before, side).None?)
  }

  /** Both sides did, or after a failure none or the first. */
  predicate BothReopened(before: Handles, now: Handles, well: bool) {
    (now.stream.None? <==> before.stream.None?) && (now.msg.None? <==> before.msg.None?) &&
    if well then now == ReopenedTo(ReopenedTo(before, StreamSide, now.stream), MessageSide, now.msg)
    else now == before || OneReopened(before, now, StreamSide, true)
  }

  lemma ComposeReopens(before: Handles, between: Handles, now: Handles, well: bool)
    requires OneReopened(before, between, StreamSide, true) && OneReopened(between, now, MessageSide, well)
    ensures BothReopened(before, now, well)
  {
    assert now.stream == between.stream;
  }

  /** One side of the run state: the live pipeline and the blob retained for its reopen
      (`stream_pipe`, `stream_blob`, `stream_blob_len`, and the same three for messages). */
  class PipeSlot {
    var pipe: Wrapper?
    var blob: array?<Byte>
    var len: nat

    constructor ()
      ensures pipe == null && blob == null
    {
      pipe, blob, len := null, null, 0;
    }

    /** A filled side is open and keyed exactly as its retained blob. */
    ghost predicate Keyed(heap: Heap, lib: E.Library, structs: Structs)
      reads this, heap, lib, structs, blob
    {
      pipe != null ==>
        Owns(structs, pipe) && pipe.handle in lib.open &&
        blob != null && blob in heap.live && len <= blob.Length && blob[..len] == lib.open[pipe.handle]
    }

    /** The side as the protocol sees it. */
    ghost function View(): Option<Pipe>
      reads this, blob
    {
      if pipe == null then None
      else Some(Pipe(pipe.handle, if blob == null || len > blob.Length then [] else blob[..len]))
    }

    /** `build_pipeline`: construction, then one save for the retained blob. A failure of either
        leaves no handle, no struct and no block behind. */
    method Build(heap: Heap, lib: E.Library, structs: Structs) returns (rc: int)
      requires pipe == null && OneToOne(lib.open.Keys, structs)
      modifies this, heap, lib`open, lib`log, structs
      ensures Keyed(heap, lib, structs) && OneToOne(lib.open.Keys, structs)
      ensures Accounts(rc == 0, lib, old(lib.log), heap, structs, old(heap.refused + structs.refused))
      ensures rc == 0 ==>
                pipe != null && blob != null && fresh(blob) && heap.live == old(heap.live) + {blob} &&
                pipe.handle !in old(lib.open) && structs.live == old(structs.live)[pipe.handle := pipe] &&
                lib.open == old(lib.open)[pipe.handle := lib.open[pipe.handle]]
      ensures rc != 0 ==>
                rc == -1 && pipe == null && heap.live == old(heap.live) &&
                structs.live == old(structs.live) && lib.open == old(lib.open)
    {
      var built, saved, n;
      rc, built, saved, n := Construct(heap, lib, structs);
      if rc == 0 {
        pipe, blob, len := built, saved, n;
      }
    }

    /** Rotation of one side: a success retains the fresh blob in place of the old one, a
        failure changes nothing. */
    method Rekey(heap: Heap, lib: E.Library, ghost structs: Structs) returns (st: Status)
      requires Keyed(heap, lib, structs)
      modifies this`blob, this`len, heap, lib`open, lib`log
      ensures Keyed(heap, lib, structs)
      ensures pipe == null ==> st == OK
      ensures Accounts(st == OK, lib, old(lib.log), heap, structs, old(heap.refused + structs.refused))
      ensures pipe == null || st != OK ==> lib.open == old(lib.open) && blob == old(blob) && heap.live == old(heap.live)
      ensures pipe != null && st == OK ==>
                lib.open == old(lib.open)[pipe.handle := lib.open[pipe.handle]] && fresh(blob) &&
                heap.live == old(heap.live) + {blob} - {old(blob)}
      ensures st == OK ==> FreshSide(View(), lib.log, |old(lib.log)|)
    {
      if pipe == null {
        return OK;
      }
      var next, n;
      st, next, n := PipelineRekey(heap, lib, pipe, true);
      if st != OK {
        return;
      }
      heap.Free(blob);
      blob, len := next, n;
      assert IsRotation(lib.log[|lib.log| - 1], pipe.handle, blob[..len]);
    }

    /** Reopen of one side: a success swaps in a handle loaded from the retained blob, with the
        same keying, and releases the old one; a failure keeps the running handle. */
    method Reopen(ghost heap: Heap, lib: E.Library, structs: Structs) returns (st: Status)
      requires Keyed(heap, lib, structs) && OneToOne(lib.open.Keys, structs)
      modifies this`pipe, lib`open, lib`log, structs
      ensures Keyed(heap, lib, structs) && OneToOne(lib.open.Keys, structs)
      ensures old(pipe) == null ==> st == OK
      ensures Accounts(st == OK, lib, old(lib.log), heap, structs, old(heap.refused + structs.refused))
      ensures old(pipe) == null || st != OK ==> pipe == old(pipe) && lib.open == old(lib.open) && structs.live == old(structs.live)
      ensures old(pipe) != null && st == OK ==>
                pipe != null && pipe.handle !in old(lib.open) &&
                structs.live == old(structs.live)[pipe.handle := pipe] - {old(pipe).handle} &&
                lib.open == old(lib.open)[pipe.handle := old(lib.open)[old(pipe).handle]] - {old(pipe).handle}
    {
      if pipe == null {
        return OK;
      }
      var loaded;
      st, loaded := PipelineLoad(lib, structs, blob, len);
      if st == OK {
        PipelineFree(lib, structs, pipe);
        pipe := loaded;
      }
    }
  }

  /** Another handle's entry survives the swap of one handle for a fresh one. */
  lemma Survives<V>(m: map<Handle, V>, gone: Handle, loaded: Handle, v: V, h: Handle)
    requires h in m && h != gone && loaded !in m
    ensures var n := m[loaded := v] - {gone}; h in n && n[h] == m[h]
  {
  }

  /** Two sides over one library: both keyed as their blobs, distinct, and no handle open
      beside theirs. */
  ghost predicate Pair(heap: Heap, lib: E.Library, structs: Structs, a: PipeSlot, b: PipeSlot)
    reads heap, lib, structs, a, b, a.blob, b.blob
  {
    a != b && OneToOne(lib.open.Keys, structs) && a.Keyed(heap, lib, structs) && b.Keyed(heap, lib, structs) &&
    (a.pipe != null && b.pipe != null ==> a.pipe.handle != b.pipe.handle && a.blob != b.blob) &&
    forall h :: h in lib.open ==> (a.pipe != null && a.pipe.handle == h) || (b.pipe != null && b.pipe.handle == h)
  }

  /** The handles of the run state and its maintenance counters. */
  class RunState {
    const heap: Heap
    const lib: E.Library
    const structs: Structs
    const stream: PipeSlot
    const msg: PipeSlot
    var rekeys: nat
    var cycles: nat
    var stop: bool

    constructor (heap: Heap, lib: E.Library, structs: Structs, stream: PipeSlot, msg: PipeSlot)
      ensures this.heap == heap && this.lib == lib && this.structs == structs && this.stream == stream && this.msg == msg
      ensures rekeys == 0 && cycles == 0 && !stop
    {
      this.heap, this.lib, this.structs, this.stream, this.msg := heap, lib, structs, stream, msg;
      rekeys, cycles, stop := 0, 0, false;
    }

    ghost predicate Valid()
      reads heap, lib, structs, stream, msg, stream.blob, msg.blob
    {
      Pair(heap, lib, structs, stream, msg)
    }

    /** The handle state of the protocol that this run state stands for. */
    ghost function View(): Handles
      reads lib, stream, msg, stream.blob, msg.blob
    {
      Handles(lib.open, stream.View(), msg.View())
    }

    /** Valid run states stand for clean handle states. */
    lemma ValidIsClean(cfg: Config)
      requires Valid() && (stream.pipe != null <==> Active(cfg, StreamSide)) && (msg.pipe != null <==> Active(cfg, MessageSide))
      ensures Clean(cfg, View())
    {
      assert lib.open.Keys == SlotHandles(View());
    }

    /** The construction part of `run`: the sides the shape exercises, and no others, are open
        and keyed as their blobs, which is where the protocol starts. */
    method BuildPipes(cfg: Config) returns (rc: int)
      requires stream != msg && stream.pipe == null && msg.pipe == null && lib.open == map[] && OneToOne({}, structs)
      modifies stream, msg, heap, lib`open, lib`log, structs
      ensures Valid()
      ensures rc == 0 ==> (stream.pipe != null <==> Active(cfg, StreamSide)) && (msg.pipe != null <==> Active(cfg, MessageSide))
      ensures rc == 0 ==> Clean(cfg, View())
      ensures Accounts(rc == 0, lib, old(lib.log), heap, structs, old(heap.refused + structs.refused))
    {
      rc := 0;
      if Active(cfg, StreamSide) {
        rc := stream.Build(heap, lib, structs);
      }
      assert Valid();
      if rc == 0 && Active(cfg, MessageSide) {
        rc := msg.Build(heap, lib, structs);
      }
      assert Valid();
      if rc == 0 {
        ValidIsClean(cfg);
      }
    }

    function SlotOf(side: Side): PipeSlot { if side == StreamSide then stream else msg }

    /** One side of `rekey_pipes`. */
    method RekeySide(side: Side) returns (st: Status)
      requires Valid()
      modifies SlotOf(side)`blob, SlotOf(side)`len, heap, lib`open, lib`log
      ensures Valid() && lib.open.Keys == old(lib.open.Keys)
      ensures OneRotated(old(View()), View(), side, lib.log, |old(lib.log)|, st == OK)
      ensures Accounts(st == OK, lib, old(lib.log), heap, structs, old(heap.refused + structs.refused))
    {
      var slot, other := SlotOf(side), SlotOf(if side == StreamSide then MessageSide else StreamSide);
      st := slot.Rekey(heap, lib, structs);
      assert other.Keyed(heap, lib, structs) && other.View() == old(other.View());
    }

    /** One side of `blob_cycle_pipes`. */
    method ReopenSide(side: Side) returns (st: Status)
      requires Valid()
      modifies SlotOf(side)`pipe, lib`open, lib`log, structs
      ensures Valid()
      ensures OneReopened(old(View()), View(), side, st == OK)
      ensures Accounts(st == OK, lib, old(lib.log), heap, structs, old(heap.refused + structs.refused))
    {
      var slot, other := SlotOf(side), SlotOf(if side == StreamSide then MessageSide else StreamSide);
      st := slot.Reopen(heap, lib, structs);
      if st == OK && slot.pipe != null && other.pipe != null {
        Survives(old(lib.open), old(slot.pipe).handle, slot.pipe.handle, old(lib.open[slot.pipe.handle]), other.pipe.handle);
        Survives(old(structs.live), old(slot.pipe).handle, slot.pipe.handle, slot.pipe, other.pipe.handle);
      }
      assert other.Keyed(heap, lib, structs);
    }

    /** Both sides, the message side only when the stream side went well. */
    method RekeySides() returns (st: Status)
      requires Valid()
      modifies stream`blob, stream`len, msg`blob, msg`len, heap, lib`open, lib`log
      ensures Valid() && lib.open.Keys == old(lib.open.Keys)
      ensures BothRotated(old(View()), View(), lib.log, |old(lib.log)|, st == OK)
      ensures Accounts(st == OK, lib, old(lib.log), heap, structs, old(heap.refused + structs.refused))
    {
      st := RekeySide(StreamSide);
      if st == OK {
        ghost var view, log := View(), lib.log;
        st := RekeySide(MessageSide);
        ComposeRotations(old(View()), view, View(), |old(lib.log)|, log, lib.log, st == OK);
      }
    }

    method ReopenSides() returns (st: Status)
      requires Valid()
      modifies stream`pipe, msg`pipe, lib`open, lib`log, structs
      ensures Valid()
      ensures BothReopened(old(View()), View(), st == OK)
      ensures Accounts(st == OK, lib, old(lib.log), heap, structs, old(heap.refused + structs.refused))
    {
      st := ReopenSide(StreamSide);
      if st == OK {
        ghost var view := View();
        st := ReopenSide(MessageSide);
        ComposeReopens(old(View()), view, View(), st == OK);
      }
    }

    /** The end of a rotation: counted when it went well, a stop requested when not. */
    method CountRekey(st: Status) returns (rc: int)
      requires Valid()
      modifies this`rekeys, this`stop
      ensures Valid() && View() == old(View())
      ensures rc == if st == OK then 0 else -1
      ensures rekeys == old(rekeys) + (if st == OK then 1 else 0) && stop == (old(stop) || st != OK)
    {
      if st != OK {
        stop := true;
        return -1;
      }
      rekeys := rekeys + 1;
      return 0;
    }

    /** Likewise of a reopen. */
    method CountCycle(st: Status) returns (rc: int)
      requires Valid()
      modifies this`cycles, this`stop
      ensures Valid() && View() == old(View())
      ensures rc == if st == OK then 0 else -1
      ensures cycles == old(cycles) + (if st == OK then 1 else 0) && stop == (old(stop) || st != OK)
    {
      if st != OK {
        stop := true;
        return -1;
      }
      cycles := cycles + 1;
      return 0;
    }

    /** `rekey_pipes`. Whichever rotation fails, each side is left open and keyed as its
        retained blob, on the handles it had. */
    method RekeyPipes() returns (rc: int)
      requires Valid()
      modifies this`rekeys, this`stop, stream`blob, stream`len, msg`blob, msg`len, heap, lib`open, lib`log
      ensures Valid() && lib.open.Keys == old(lib.open.Keys)
      ensures BothRotated(old(View()), View(), lib.log, |old(lib.log)|, rc == 0)
      ensures Accounts(rc == 0, lib, old(lib.log), heap, structs, old(heap.refused + structs.refused))
      ensures rc == 0 ==> rekeys == old(rekeys) + 1 && stop == old(stop)
      ensures rc != 0 ==> rc == -1 && rekeys == old(rekeys) && stop
    {
      var st := RekeySides();
      rc := CountRekey(st);
    }

    /** `blob_cycle_pipes`. Whichever load fails, each side is open and keyed as its retained
        blob, with the keying it had before. */
    method BlobCyclePipes() returns (rc: int)
      requires Valid()
      modifies this`cycles, this`stop, stream`pipe, msg`pipe, lib`open, lib`log, structs
      ensures Valid()
      ensures BothReopened(old(View()), View(), rc == 0)
      ensures Accounts(rc == 0, lib, old(lib.log), heap, structs, old(heap.refused + structs.refused))
      ensures rc == 0 ==> cycles == old(cycles) + 1 && stop == old(stop)
      ensures rc != 0 ==> rc == -1 && cycles == old(cycles) && stop
    {
      var st := ReopenSides();
      rc := CountCycle(st);
    }
  }
}
