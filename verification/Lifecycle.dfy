/** The lifecycle of the wrapper structs and the library handles behind them: construction,
    load, rotation, stream sessions and release, over any failure. */
module Lifecycle {
  import opened Basics
  import opened CHeap
  import opened Engine
  import opened BufCall

  /** `struct itb_pipeline` and `struct itb_stream`: the library handle they carry is written
      once, when the struct has been allocated and the handle opened. */
  class Wrapper {
    const handle: Handle

    constructor (handle: Handle)
      ensures this.handle == handle
    {
      this.handle := handle;
    }
  }

  /** The struct allocations of one kind: those that carry a handle, by that handle, and those
      allocated but not filled in yet. */
  class Structs {
    var live: map<Handle, Wrapper>
    var blank: nat
    ghost var refused: nat   // allocations that failed

    constructor ()
      ensures live == map[] && blank == 0
    {
      live, blank, refused := map[], 0, 0;
    }

    /** `calloc`, which may fail. */
    method Alloc() returns (ok: bool)
      modifies this
      ensures live == old(live) && blank == old(blank) + (if ok then 1 else 0) && refused == old(refused) + (if ok then 0 else 1)
    {
      ok := *;
      if ok {
        blank := blank + 1;
      } else {
        refused := refused + 1;
      }
    }

    /** The allocated struct gets its handle. */
    method Fill(h: Handle) returns (w: Wrapper)
      requires blank > 0 && h !in live
      modifies this
      ensures fresh(w) && w.handle == h && live == old(live)[h := w] && blank == old(blank) - 1 && refused == old(refused)
    {
      w := new Wrapper(h);
      live, blank := live[h := w], blank - 1;
    }

    /** `free` of a struct that never got its handle. */
    method Discard()
      requires blank > 0
      modifies this
      ensures live == old(live) && blank == old(blank) - 1 && refused == old(refused)
    {
      blank := blank - 1;
    }

    /** `free` of a struct whose handle has been released. */
    method Retire(w: Wrapper)
      requires w.handle in live
      modifies this
      ensures live == old(live) - {w.handle} && blank == old(blank) && refused == old(refused)
    {
      live := live - {w.handle};
    }
  }

  /** Open library handles and live wrappers correspond one to one: each open handle has one
      live wrapper carrying it, and there is no other struct. */
  ghost predicate OneToOne(open: set<Handle>, structs: Structs)
    reads structs
  {
    structs.live.Keys == open && structs.blank == 0 &&
    forall h :: h in structs.live ==> h != 0 && structs.live[h].handle == h
  }

  predicate Owns(structs: Structs, w: Wrapper)
    reads structs
  {
    w.handle in structs.live && structs.live[w.handle] == w
  }

  /** A call of the blob convention, with everything it was answered since the log was `before`. */
  ghost predicate Exchanged(req: Request, st: Status, lib: Library, before: seq<Answer>, heap: Heap, refused: nat)
    reads lib, heap
  {
    before <= lib.log && Exchange(Buffer(req), st, lib.log[|before|..], 65536, heap.refused - refused)
  }

  /** `itb_pipeline_init` / `itb_pipeline_init_keys`. The blob is wiped and dropped; a failure
      anywhere, the retry included, leaves no handle, struct or block behind. */
  method PipelineInit(heap: Heap, lib: Library, structs: Structs) returns (st: Status, pipe: Wrapper?)
    requires OneToOne(lib.open.Keys, structs)
    modifies heap, lib`open, lib`log, structs
    ensures OneToOne(lib.open.Keys, structs) && heap.live == old(heap.live)
    ensures structs.refused >= old(structs.refused) && heap.refused >= old(heap.refused)
    ensures if structs.refused > old(structs.refused) then st == INTERNAL && lib.log == old(lib.log)
            else Exchanged(Init, st, lib, old(lib.log), heap, old(heap.refused))
    ensures st == OK ==> pipe != null && fresh(pipe) && structs.live == old(structs.live)[pipe.handle := pipe]
    ensures st == OK ==> Effect(Init, old(lib.open), lib.open, lib.Written(), pipe.handle)
    ensures st != OK ==> pipe == null && structs.live == old(structs.live) && lib.open == old(lib.open)
    ensures if st == OK then BlobDropped(heap.freed, |old(heap.freed)|, |lib.Written()|)
            else WipedSince(heap.freed, |old(heap.freed)|)
  {
    var ok := structs.Alloc();
    if !ok {
      return INTERNAL, null;
    }
    var blob, n, h;
    st, blob, n, h := Dispatch(heap, lib, Init, BLOB_CAP, 0);
    if st != OK {
      structs.Discard();
      return st, null;
    }
    WipeBlob(heap, blob, n, |old(heap.freed)|);
    pipe := structs.Fill(h);
  }

  /** The last block freed is the blob, wiped over its payload; every block before it was
      wiped whole. (A block that could not be shrunk is longer than its payload.) */
  predicate BlobDropped(freed: seq<Bytes>, mark: nat, n: nat) {
    mark < |freed| && WipedSince(freed[..|freed| - 1], mark) &&
    n <= |freed[|freed| - 1]| && AllZero(freed[|freed| - 1][..n])
  }

  method WipeBlob(heap: Heap, blob: array<Byte>, n: nat, ghost mark: nat)
    requires blob in heap.live && n <= blob.Length && WipedSince(heap.freed, mark)
    modifies heap, blob
    ensures heap.live == old(heap.live) - {blob} && heap.refused == old(heap.refused) && BlobDropped(heap.freed, mark, n)
  {
    Wipe(blob, n);
    heap.Free(blob);
    assert heap.freed[..|heap.freed| - 1] == old(heap.freed);
  }

  /** `wrap_handle`, the tail of `itb_pipeline_load` and `itb_pipeline_load_f`: a handle the
      library has opened is wrapped, or released again when the struct cannot be had. */
  method WrapHandle(lib: Library, structs: Structs, rc: int, h: Handle, ghost before: map<Handle, Key>)
    returns (st: Status, pipe: Wrapper?)
    requires OneToOne(before.Keys, structs)
    requires if rc == OK then h != 0 && h !in before && h in lib.open && lib.open == before[h := lib.open[h]] else lib.open == before
    modifies lib`open, structs
    ensures OneToOne(lib.open.Keys, structs)
    ensures structs.refused >= old(structs.refused)
    ensures st == if rc != OK then Narrow(rc) else if structs.refused > old(structs.refused) then INTERNAL else OK
    ensures st == OK ==> pipe != null && fresh(pipe) && pipe.handle == h
    ensures st == OK ==> structs.live == old(structs.live)[h := pipe] && lib.open == old(lib.open)
    ensures st != OK ==> pipe == null && structs.live == old(structs.live) && lib.open == before
  {
    if rc != OK {
      return Narrow(rc), null;
    }
    var ok := structs.Alloc();
    if !ok {
      lib.Free(h);
      assert lib.open == before;
      return INTERNAL, null;
    }
    pipe := structs.Fill(h);
    st := OK;
  }

  /** Exactly one call has been answered since the log was `before`, of this kind. */
  predicate Asked(ask: Ask, log: seq<Answer>, before: seq<Answer>) {
    before <= log && |log| == |before| + 1 && log[|before|].ask == ask
  }

  /** `itb_pipeline_load` with the embedded masters: the new handle has the keying of the blob. */
  method PipelineLoad(lib: Library, structs: Structs, blob: array?<Byte>, n: nat) returns (st: Status, pipe: Wrapper?)
    requires OneToOne(lib.open.Keys, structs) && (blob != null ==> n <= blob.Length)
    modifies lib`open, lib`log, structs
    ensures OneToOne(lib.open.Keys, structs) && structs.refused >= old(structs.refused)
    ensures blob == null ==> st == 4 && lib.log == old(lib.log)
    ensures blob != null ==> Asked(Load, lib.log, old(lib.log)) && var rc := lib.log[|old(lib.log)|].rc;
                             st == if rc != OK then Narrow(rc) else if structs.refused > old(structs.refused) then INTERNAL else OK
    ensures st == OK ==> pipe != null && fresh(pipe) && pipe.handle !in old(lib.open) &&
                         structs.live == old(structs.live)[pipe.handle := pipe] && lib.open == old(lib.open)[pipe.handle := blob[..n]]
    ensures st != OK ==> pipe == null && structs.live == old(structs.live) && lib.open == old(lib.open)
  {
    if blob == null {
      return BAD_INPUT, null;
    }
    var rc, h := lib.Load(blob[..n]);
    st, pipe := WrapHandle(lib, structs, rc, h, old(lib.open));
  }

  /** `itb_pipeline_free`, NULL-safe. */
  method PipelineFree(lib: Library, structs: Structs, pipe: Wrapper?)
    requires OneToOne(lib.open.Keys, structs) && (pipe != null ==> Owns(structs, pipe))
    modifies lib`open, structs
    ensures OneToOne(lib.open.Keys, structs) && structs.refused == old(structs.refused)
    ensures structs.live == if pipe == null then old(structs.live) else old(structs.live) - {pipe.handle}
    ensures lib.open == if pipe == null then old(lib.open) else old(lib.open) - {pipe.handle}
  {
    if pipe == null {
      return;
    }
    if pipe.handle != 0 {
      lib.Free(pipe.handle);
    }
    structs.Retire(pipe);
  }

  /** `itb_pipeline_rekey`: a rotation either hands over the blob of the keying its handle now
      has, or drops it wiped when the caller gave no place for it (`wanted`), or fails and
      leaves every keying as it was. */
  method PipelineRekey(heap: Heap, lib: Library, pipe: Wrapper?, wanted: bool)
    returns (st: Status, blob: array?<Byte>, n: nat)
    modifies heap, lib`open, lib`log
    ensures if pipe == null then st == BAD_INPUT else Exchanged(Rekey(pipe.handle), st, lib, old(lib.log), heap, old(heap.refused))
    ensures st == OK ==> pipe != null && Effect(Rekey(pipe.handle), old(lib.open), lib.open, lib.Written(), pipe.handle)
    ensures st == OK && wanted ==> blob != null && fresh(blob) && n <= blob.Length && heap.live == old(heap.live) + {blob}
    ensures st == OK && wanted ==> blob[..n] == lib.Written()
    ensures st == OK && wanted ==> heap.refused > old(heap.refused) || ExactRoom(blob.Length, n)
    ensures st != OK || !wanted ==> blob == null && n == 0 && heap.live == old(heap.live)
    ensures st != OK ==> lib.open == old(lib.open)
    ensures if st == OK && !wanted then BlobDropped(heap.freed, |old(heap.freed)|, |lib.Written()|)
            else old(heap.freed) <= heap.freed && WipedSince(heap.freed, |old(heap.freed)|)
  {
    if pipe == null {
      return BAD_INPUT, null, 0;
    }
    var h;
    st, blob, n, h := Dispatch(heap, lib, Rekey(pipe.handle), BLOB_CAP, 0);
    if st == OK && !wanted {
      WipeBlob(heap, blob, n, |old(heap.freed)|);
      blob, n := null, 0;
    }
  }

  /** `itb_pipeline_save`: the blob of the present keying; nothing changes. */
  method PipelineSave(heap: Heap, lib: Library, pipe: Wrapper?) returns (st: Status, blob: array?<Byte>, n: nat)
    modifies heap, lib`open, lib`log
    ensures if pipe == null then st == BAD_INPUT else Exchanged(Save(pipe.handle), st, lib, old(lib.log), heap, old(heap.refused))
    ensures lib.open == old(lib.open)
    ensures st == OK ==> pipe != null && blob != null && fresh(blob) && n <= blob.Length && heap.live == old(heap.live) + {blob}
    ensures st == OK ==> pipe.handle in lib.open && blob[..n] == lib.open[pipe.handle]
    ensures st == OK ==> heap.refused > old(heap.refused) || ExactRoom(blob.Length, n)
    ensures st != OK ==> blob == null && n == 0 && heap.live == old(heap.live)
  {
    if pipe == null {
      return BAD_INPUT, null, 0;
    }
    var h;
    st, blob, n, h := Dispatch(heap, lib, Save(pipe.handle), BLOB_CAP, 0);
  }

  /** `stream_begin`: the session handle is wrapped, or the struct is given back. */
  method StreamBegin(lib: Library, structs: Structs, pipe: Wrapper?) returns (st: Status, stream: Wrapper?)
    requires OneToOne(lib.sessions.Keys, structs)
    modifies lib`sessions, lib`log, structs
    ensures OneToOne(lib.sessions.Keys, structs)
    ensures if pipe == null then st == BAD_INPUT && lib.log == old(lib.log)
            else if structs.refused > old(structs.refused) then st == INTERNAL && lib.log == old(lib.log)
            else Asked(Begin(pipe.handle), lib.log, old(lib.log)) && st == Narrow(lib.log[|old(lib.log)|].rc)
    ensures st == OK ==> pipe != null && stream != null && fresh(stream) && stream.handle !in old(lib.sessions) &&
                         structs.live == old(structs.live)[stream.handle := stream] && lib.sessions == old(lib.sessions)[stream.handle := pipe.handle]
    ensures st != OK ==> stream == null && structs.live == old(structs.live) && lib.sessions == old(lib.sessions)
  {
    if pipe == null {
      return BAD_INPUT, null;
    }
    var ok := structs.Alloc();
    if !ok {
      return INTERNAL, null;
    }
    var rc, h := lib.StreamBegin(pipe.handle);
    if rc != OK {
      structs.Discard();
      return Narrow(rc), null;
    }
    stream := structs.Fill(h);
    st := OK;
  }

  /** `itb_stream_free`, NULL-safe. */
  method StreamFree(lib: Library, structs: Structs, stream: Wrapper?)
    requires OneToOne(lib.sessions.Keys, structs) && (stream != null ==> Owns(structs, stream))
    modifies lib`sessions, structs
    ensures OneToOne(lib.sessions.Keys, structs)
    ensures structs.live == if stream == null then old(structs.live) else old(structs.live) - {stream.handle}
  {
    if stream == null {
      return;
    }
    if stream.handle != 0 {
      lib.StreamFree(stream.handle);
    }
    structs.Retire(stream);
  }

  /** Pipelines and stream sessions, each with its structs. */
  ghost predicate Matched(lib: Library, pipes: Structs, streams: Structs)
    reads lib, pipes, streams
  {
    pipes != streams && OneToOne(lib.open.Keys, pipes) && OneToOne(lib.sessions.Keys, streams)
  }

  /** One pipeline call of a client, on any wrapper, with any outcome. */
  method AnyPipelineCall(heap: Heap, lib: Library, pipes: Structs, streams: Structs)
    requires Matched(lib, pipes, streams)
    modifies heap, lib, pipes
    ensures Matched(lib, pipes, streams)
  {
    var pick: int := *;
    if pick == 0 {
      var _, _ := PipelineInit(heap, lib, pipes);
    } else if pick == 1 {
      var blob := heap.Malloc(BLOB_CAP);
      var _, _ := PipelineLoad(lib, pipes, blob, if blob == null then 0 else blob.Length);
    } else if pipes.live.Keys != {} {
      var h :| h in pipes.live;
      if pick == 2 {
        var wanted: bool := *;
        var _, _, _ := PipelineRekey(heap, lib, pipes.live[h], wanted);
      } else {
        PipelineFree(lib, pipes, pipes.live[h]);
      }
    }
  }

  /** One session call of a client: begin on any pipeline, or release of any session. */
  method AnyStreamCall(lib: Library, pipes: Structs, streams: Structs)
    requires Matched(lib, pipes, streams)
    modifies lib, streams
    ensures Matched(lib, pipes, streams)
  {
    var begin: bool := *;
    if begin {
      if pipes.live.Keys != {} {
        var h :| h in pipes.live;
        var _, _ := StreamBegin(lib, streams, pipes.live[h]);
      }
    } else if streams.live.Keys != {} {
      var h :| h in streams.live;
      StreamFree(lib, streams, streams.live[h]);
    }
  }

  /** Releases every session that is left. */
  method ReleaseStreams(lib: Library, streams: Structs)
    requires OneToOne(lib.sessions.Keys, streams)
    modifies lib`sessions, streams
    ensures streams.live == map[] && streams.blank == 0 && lib.sessions == map[]
  {
    while streams.live.Keys != {}
      invariant OneToOne(lib.sessions.Keys, streams)
      decreases streams.live.Keys
    {
      var h :| h in streams.live;
      StreamFree(lib, streams, streams.live[h]);
    }
    assert lib.sessions.Keys == {};
  }

  /** Releases every pipeline that is left. */
  method ReleasePipes(lib: Library, pipes: Structs)
    requires OneToOne(lib.open.Keys, pipes)
    modifies lib`open, pipes
    ensures pipes.live == map[] && pipes.blank == 0 && lib.open == map[]
  {
    while pipes.live.Keys != {}
      invariant OneToOne(lib.open.Keys, pipes)
      decreases pipes.live.Keys
    {
      var h :| h in pipes.live;
      PipelineFree(lib, pipes, pipes.live[h]);
    }
    assert lib.open.Keys == {};
  }

  /** After any sequence of constructions, loads, rotations, session begins and releases, by
      any client, live handles and sessions correspond one to one with live structs. */
  method AnyHistory(heap: Heap, lib: Library, pipes: Structs, streams: Structs, steps: nat)
    requires Matched(lib, pipes, streams)
    modifies heap, lib, pipes, streams
    ensures Matched(lib, pipes, streams)
  {
    for i := 0 to steps
      invariant Matched(lib, pipes, streams)
    {
      var stream: bool := *;
      if stream {
        AnyStreamCall(lib, pipes, streams);
      } else {
        AnyPipelineCall(heap, lib, pipes, streams);
      }
    }
  }

  /** And releasing every wrapper that is left then closes every handle and every session. */
  method WholeLifetime(heap: Heap, lib: Library, pipes: Structs, streams: Structs, steps: nat)
    requires Matched(lib, pipes, streams)
    modifies heap, lib, pipes, streams
    ensures pipes.live == map[] && pipes.blank == 0 && lib.open == map[]
    ensures streams.live == map[] && streams.blank == 0 && lib.sessions == map[]
  {
    AnyHistory(heap, lib, pipes, streams, steps);
    ReleaseStreams(lib, streams);
    ReleasePipes(lib, pipes);
  }
}
