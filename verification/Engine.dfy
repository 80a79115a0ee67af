/** libitb3 as the binding's call sites see it: handles, their keying, and the convention
    of caller-allocated output buffers. Every status, size and byte is the environment's. */
module Engine {
  import opened Basics

  /** Largest size of an object; the library reports sizes of objects. */
  const OBJECT_MAX: int := 0x7FFF_FFFF_FFFF_FFFF

  /** The variable-size-output entries. */
  datatype Request = Init | Rekey(h: Handle) | Save(h: Handle) | Lookup

  /** The codes `enum itb_status` names. */
  const NAMED: set<int> :=
    {0, 1, 2, 3, 4, 5, 6, 7, 8, 9, 10, 11, 12, 13, 14, 15, 16, 17, 19, 20, 21, 22, 23, 24, 25, 26, 99}

  /** `itb_internal_status`: the codes of the enumeration pass, anything else reads as an
      internal error; a failure never reads as success. */
  function Narrow(rc: int): (st: Status)
    ensures st in NAMED && (rc in NAMED ==> st == rc) && (rc !in NAMED ==> st == 99)
    ensures st == 0 <==> rc == 0
  {
    if (0 <= rc <= 17) || (19 <= rc <= 26) || rc == 99 then rc else INTERNAL
  }

  /** What one request did to the open handles, given the bytes it produced. Nothing but the
      named handle changes, and a blob handed out is the keying its handle then has. */
  predicate Effect(req: Request, before: map<Handle, Key>, after: map<Handle, Key>, bytes: Bytes, h: Handle) {
    match req
    case Init => h != 0 && h !in before && after == before[h := bytes]
    case Rekey(r) => r in before && after == before[r := bytes]
    case Save(r) => r in before && bytes == before[r] && after == before
    case Lookup => after == before
  }

  /** A handle that is not open. */
  method FreshHandle<V>(open: map<Handle, V>) returns (h: Handle)
    ensures h != 0 && h !in open
  {
    h := 1;
    ghost var seen: set<Handle> := {};
    while h in open
      invariant h > 0 && (forall x :: x in seen <==> 1 <= x < h) && seen <= open.Keys
      decreases open.Keys - seen
    {
      seen := seen + {h};
      h := h + 1;
    }
  }

  /** What a call that can fail asks for. */
  datatype Ask = Buffer(req: Request) | Cipher(pipe: Handle) | Load | Begin(pipe: Handle)

  /** What it was answered: the return code, the reported size for the capacity offered, and
      the bytes of a success. */
  datatype Answer = Answer(ask: Ask, rc: int, cap: nat, n: nat, bytes: Bytes)

  class Library {
    var open: map<Handle, Key>
    var sessions: map<Handle, Handle>   // open stream sessions and the pipeline each runs on
    ghost var log: seq<Answer>          // the answers of all calls that can fail, in order

    constructor ()
      ensures open == map[] && sessions == map[]
    {
      open, sessions, log := map[], map[], [];
    }

    /** What the latest call wrote. */
    ghost function Written(): Bytes
      reads this`log
    {
      if log == [] then [] else log[|log| - 1].bytes
    }

    /** One foreign call. A failing call changes no handle: an undersized Init closes what it
        built, a failed Rekey leaves the keying as it was. Only `cap` bytes are ever written. */
    method Call(req: Request, out: array<Byte>, cap: nat) returns (rc: int, n: nat, h: Handle)
      requires cap <= out.Length
      modifies this`open, this`log, out
      ensures n <= OBJECT_MAX && (rc == OK ==> n <= cap) && out[cap..] == old(out[cap..])
      ensures log == old(log) + [Answer(Buffer(req), rc, cap, n, if rc == OK then out[..n] else [])]
      ensures rc != OK ==> open == old(open)
      ensures rc == OK ==> Effect(req, old(open), open, out[..n], h)
    {
      rc, h := *, 0;
      n :| 0 <= n <= OBJECT_MAX;
      if rc == OK && n > cap {
        rc := BUFFER_TOO_SMALL;
      }
      if rc == OK {
        var bytes := Scribble(out, n);
        match req
        case Init =>
          h := FreshHandle(open);
          open := open[h := bytes];
        case Rekey(r) =>
          if r in open { open := open[r := bytes]; } else { rc := INTERNAL; }
        case Save(r) =>
          if !(r in open && bytes == open[r]) { rc := INTERNAL; }
        case Lookup =>
      }
      log := log + [Answer(Buffer(req), rc, cap, n, if rc == OK then out[..n] else [])];
    }

    /** One message or one-shot cipher call: same buffer convention, no effect on any handle. */
    method Crypt(pipe: Handle, out: array<Byte>, cap: nat) returns (rc: int, n: nat)
      requires cap <= out.Length
      modifies this`log, out
      ensures n <= OBJECT_MAX && (rc == OK ==> n <= cap) && out[cap..] == old(out[cap..])
      ensures log == old(log) + [Answer(Cipher(pipe), rc, cap, n, if rc == OK then out[..n] else [])]
      ensures rc == OK ==> pipe in open
    {
      rc := *;
      n :| 0 <= n <= OBJECT_MAX;
      if rc == OK && (n > cap || pipe !in open) {
        rc := BUFFER_TOO_SMALL;
      }
      if rc == OK {
        var _ := Scribble(out, n);
      }
      log := log + [Answer(Cipher(pipe), rc, cap, n, if rc == OK then out[..n] else [])];
    }

    /** Arbitrary bytes into the first `n` places. */
    method Scribble(out: array<Byte>, n: nat) returns (bytes: Bytes)
      requires n <= out.Length
      modifies out
      ensures out[n..] == old(out[n..]) && bytes == out[..n]
    {
      for i := 0 to n
        invariant forall j :: n <= j < out.Length ==> out[j] == old(out[j])
      {
        out[i] := *;
      }
      bytes := out[..n];
    }

    /** `ITB_Triple_Load` / `ITB_Triple_LoadF`. */
    method Load(blob: Bytes) returns (rc: int, h: Handle)
      modifies this`open, this`log
      ensures log == old(log) + [Answer(Ask.Load, rc, 0, 0, [])]
      ensures rc != OK ==> open == old(open)
      ensures rc == OK ==> h != 0 && h !in old(open) && open == old(open)[h := blob]
    {
      rc, h := *, 0;
      if rc == OK {
        h := FreshHandle(open);
        open := open[h := blob];
      }
      log := log + [Answer(Ask.Load, rc, 0, 0, [])];
    }

    /** `ITB_Triple_Free`. */
    method Free(h: Handle)
      requires h in open
      modifies this`open
      ensures open == old(open) - {h}
    {
      open := open - {h};
    }

    /** `ITB_Triple_EncryptStreamBegin` / `DecryptStreamBegin`. */
    method StreamBegin(pipe: Handle) returns (rc: int, h: Handle)
      modifies this`sessions, this`log
      ensures log == old(log) + [Answer(Begin(pipe), rc, 0, 0, [])]
      ensures rc != OK ==> sessions == old(sessions)
      ensures rc == OK ==> h != 0 && h !in old(sessions) && sessions == old(sessions)[h := pipe]
    {
      rc, h := *, 0;
      if rc == OK {
        h := FreshHandle(sessions);
        sessions := sessions[h := pipe];
      }
      log := log + [Answer(Begin(pipe), rc, 0, 0, [])];
    }

    /** `ITB_Triple_StreamFree`. */
    method StreamFree(h: Handle)
      requires h in sessions
      modifies this`sessions
      ensures sessions == old(sessions) - {h}
    {
      sessions := sessions - {h};
    }
  }
}
