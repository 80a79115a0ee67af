/** The per-thread diagnostic slot (src/itb_status.c) as a machine: any number of threads
    fetch the library's diagnostic, which any of them may overwrite at any moment, and exit.
    One move is one library, allocator or key call of one thread. */
module LastError {
  import opened Basics

  type Block = nat

  /** Size of the inline buffer of each thread. */
  const INLINE_CAP: nat := 2048

  /** Where a thread is inside the fetch. */
  datatype PC =
    | User                        // not in a fetch
    | Freeing                     // before the release of the previous wide block
    | Clearing                    // before the slot is set to NULL
    | Asking                      // before the query into the inline buffer
    | Allocating(need: nat)       // the library asked for `need` bytes
    | Refilling(wide: Block)      // before the second query
    | Storing(wide: Block)        // before the slot takes the block
    | Dropping(wide: Block)       // before the unneeded block is freed
    | Blanking                    // before the inline buffer is emptied and returned
    | Exited

  datatype Pointer = Inline | Wide(block: Block)

  /** `answer` is the diagnostic the library gave in the last fetch, or empty if it gave none. */
  datatype Thread = Thread(pc: PC, slot: Option<Block>, inline: Bytes, returned: Option<Pointer>, answer: Bytes)

  datatype Content = Content(cap: nat, text: Bytes)

  datatype World = World(threads: seq<Thread>, heap: map<Block, Content>, next: Block, diagnostic: Bytes)

  datatype Move =
    | Overwrite(text: Bytes)
    | Fetch(t: nat)
    | Advance(t: nat, ok: bool)   // `ok` decides what may fail: query, allocation, key store
    | Exit(t: nat)

  function Initial(n: nat): World {
    World(seq(n, i => Thread(User, None, [], None, [])), map[], 0, [])
  }

  function SetThread(w: World, t: nat, th: Thread): World
    requires t < |w.threads|
  {
    w.(threads := w.threads[t := th])
  }

  /** `free`. */
  function Free(w: World, b: Block): World { w.(heap := w.heap - {b}) }

  /** One step of the fetch. The library writes the diagnostic with its terminator when it
      fits and otherwise reports the size needed. */
  function AdvanceThread(w: World, t: nat, ok: bool): World
    requires t < |w.threads|
  {
    var th := w.threads[t];
    match th.pc
    case User => w
    case Exited => w
    case Freeing =>
      var freed := if th.slot.Some? then Free(w, th.slot.value) else w;
      SetThread(freed, t, th.(pc := Clearing))
    case Clearing => SetThread(w, t, th.(pc := Asking, slot := None))
    case Asking =>
      if !ok then SetThread(w, t, th.(pc := Blanking))
      else if |w.diagnostic| < INLINE_CAP then
        SetThread(w, t, th.(pc := User, inline := w.diagnostic, returned := Some(Inline), answer := w.diagnostic))
      else SetThread(w, t, th.(pc := Allocating(|w.diagnostic| + 1)))
    case Allocating(need) =>
      if !ok then SetThread(w, t, th.(pc := Blanking))
      else
        SetThread(w.(heap := w.heap[w.next := Content(need, [])], next := w.next + 1), t,
                  th.(pc := Refilling(w.next)))
    case Refilling(wide) =>
      if ok && wide in w.heap && |w.diagnostic| < w.heap[wide].cap then
        SetThread(w.(heap := w.heap[wide := w.heap[wide].(text := w.diagnostic)]), t,
                  th.(pc := Storing(wide), answer := w.diagnostic))
      else SetThread(w, t, th.(pc := Dropping(wide)))
    case Storing(wide) =>
      if ok then SetThread(w, t, th.(pc := User, slot := Some(wide), returned := Some(Wide(wide))))
      else SetThread(w, t, th.(pc := Dropping(wide)))
    case Dropping(wide) => SetThread(Free(w, wide), t, th.(pc := Blanking))
    case Blanking =>
      SetThread(w, t, th.(pc := User, inline := [], returned := Some(Inline), answer := []))
  }

  /** One move; a move that is not possible changes nothing. Exit runs the key's destructor on
      a non-NULL slot. */
  function Step(w: World, m: Move): World {
    match m
    case Overwrite(text) => w.(diagnostic := text)
    case Fetch(t) =>
      if t < |w.threads| && w.threads[t].pc.User?
      then SetThread(w, t, w.threads[t].(pc := Freeing, returned := None)) else w
    case Advance(t, ok) => if t < |w.threads| then AdvanceThread(w, t, ok) else w
    case Exit(t) =>
      if t < |w.threads| && w.threads[t].pc.User? then
        var th := w.threads[t];
        var freed := if th.slot.Some? then Free(w, th.slot.value) else w;
        SetThread(freed, t, th.(pc := Exited, slot := None, returned := None))
      else w
  }

  function Run(w: World, moves: seq<Move>): World
    decreases |moves|
  {
    if moves == [] then w else Run(Step(w, moves[0]), moves[1..])
  }

  // ---------------------------------------------------------------- ownership

  /** The wide block a thread is responsible for, if any. */
  function Owned(th: Thread): Option<Block> {
    match th.pc
    case Refilling(wide) => Some(wide)
    case Storing(wide) => Some(wide)
    case Dropping(wide) => Some(wide)
    case Clearing => None
    case _ => th.slot
  }

  /** The text behind the returned pointer, if that memory is live. */
  function ReadBack(w: World, th: Thread): Option<Bytes> {
    match th.returned
    case None => None
    case Some(Inline) => Some(th.inline)
    case Some(Wide(b)) => if b in w.heap then Some(w.heap[b].text) else None
  }

  ghost predicate ThreadInv(w: World, th: Thread) {
    && (Owned(th).Some? ==> Owned(th).value in w.heap && Owned(th).value < w.next)
    && (th.slot.Some? ==> th.pc.User? || th.pc.Freeing? || th.pc.Clearing?)
    && (th.returned.Some? ==> th.pc.User? && ReadBack(w, th) == Some(th.answer))
    && (th.returned.Some? && th.returned.value.Wide? ==> th.slot == Some(th.returned.value.block))
    && (th.pc.Storing? ==> th.pc.wide in w.heap && w.heap[th.pc.wide].text == th.answer)
  }

  ghost predicate Inv(w: World) {
    && (forall t :: 0 <= t < |w.threads| ==> ThreadInv(w, w.threads[t]))
    && (forall t, u :: 0 <= t < u < |w.threads| && Owned(w.threads[t]).Some? ==>
          Owned(w.threads[t]) != Owned(w.threads[u]))
    && (forall b :: b in w.heap ==> b < w.next && exists t :: 0 <= t < |w.threads| && Owned(w.threads[t]) == Some(b))
  }

  /** What a move of thread `t` does to everyone else. */
  ghost predicate Others(w: World, v: World, t: nat)
    requires t < |w.threads|
  {
    && |v.threads| == |w.threads| && v.next >= w.next
    && (forall u :: 0 <= u < |w.threads| && u != t ==> v.threads[u] == w.threads[u])
    && (forall b :: b in w.heap && Owned(w.threads[t]) != Some(b) ==> b in v.heap && v.heap[b] == w.heap[b])
    && (forall b :: b in v.heap ==> b in w.heap || (w.next <= b < v.next && Owned(v.threads[t]) == Some(b)))
  }

  function Mover(m: Move): Option<nat> {
    match m
    case Overwrite(_) => None
    case Fetch(t) => Some(t)
    case Advance(t, _) => Some(t)
    case Exit(t) => Some(t)
  }

  /** A thread's own move keeps its own clauses and touches no other thread's block; a block
      it owned stays its own or is gone, and a new one is fresh. */
  ghost predicate OwnKept(w: World, v: World, t: nat)
    requires t < |w.threads|
  {
    && Others(w, v, t) && ThreadInv(v, v.threads[t])
    && (forall b :: b in v.heap && Owned(w.threads[t]) == Some(b) ==> Owned(v.threads[t]) == Some(b))
    && (Owned(v.threads[t]) == Owned(w.threads[t]) || Owned(v.threads[t]).None?
        || Owned(v.threads[t]) == Some(w.next))
  }

  /** A move that only changes the thread itself. */
  lemma ThreadOnly(w: World, t: nat, th: Thread)
    requires Inv(w) && t < |w.threads| && Owned(th) == Owned(w.threads[t])
    requires ThreadInv(w, th)
    ensures OwnKept(w, SetThread(w, t, th), t)
  {
  }

  /** A move that releases the block the thread owns: never an error. */
  lemma AfterFree(w: World, t: nat, th: Thread)
    requires Inv(w) && t < |w.threads| && Owned(w.threads[t]).Some? && Owned(th).None?
    requires th.returned.None? && (th.slot.Some? ==> th.pc.Clearing?)
    ensures OwnKept(w, SetThread(Free(w, Owned(w.threads[t]).value), t, th), t)
  {
    assert ThreadInv(w, w.threads[t]);
  }

  /** A move that obtains a block, which nobody can own yet. */
  lemma AfterAlloc(w: World, t: nat, th: Thread, c: Content)
    requires Inv(w) && t < |w.threads| && Owned(w.threads[t]).None?
    requires th.pc == Refilling(w.next) && th.slot.None? && th.returned.None?
    ensures OwnKept(w, SetThread(w.(heap := w.heap[w.next := c], next := w.next + 1), t, th), t)
  {
    var v := SetThread(w.(heap := w.heap[w.next := c], next := w.next + 1), t, th);
    assert w.next !in w.heap && v.threads[t] == th;
    assert ThreadInv(v, th);
  }

  /** A move that writes into the block the thread owns. */
  lemma AfterWrite(w: World, t: nat, th: Thread, c: Content)
    requires Inv(w) && t < |w.threads| && w.threads[t].pc.Refilling? && w.threads[t].pc.wide in w.heap
    requires th.pc == Storing(w.threads[t].pc.wide) && th.slot.None? && th.returned.None? && th.answer == c.text
    ensures OwnKept(w, SetThread(w.(heap := w.heap[w.threads[t].pc.wide := c]), t, th), t)
  {
    assert ThreadInv(w, w.threads[t]);
  }

  lemma AllocKept(w: World, t: nat, ok: bool)
    requires Inv(w) && t < |w.threads| && w.threads[t].pc.Allocating?
    ensures OwnKept(w, AdvanceThread(w, t, ok), t)
  {
    var th := w.threads[t];
    assert ThreadInv(w, th);
    if ok {
      AfterAlloc(w, t, th.(pc := Refilling(w.next)), Content(th.pc.need, []));
    } else {
      ThreadOnly(w, t, th.(pc := Blanking));
    }
  }

  lemma RefillKept(w: World, t: nat, ok: bool)
    requires Inv(w) && t < |w.threads| && w.threads[t].pc.Refilling?
    ensures OwnKept(w, AdvanceThread(w, t, ok), t)
  {
    var th, wide := w.threads[t], w.threads[t].pc.wide;
    assert ThreadInv(w, th);
    if ok && |w.diagnostic| < w.heap[wide].cap {
      AfterWrite(w, t, th.(pc := Storing(wide), answer := w.diagnostic), w.heap[wide].(text := w.diagnostic));
    } else {
      ThreadOnly(w, t, th.(pc := Dropping(wide)));
    }
  }

  lemma AdvanceKept(w: World, t: nat, ok: bool)
    requires Inv(w) && t < |w.threads|
    ensures OwnKept(w, AdvanceThread(w, t, ok), t)
  {
    var th := w.threads[t];
    assert ThreadInv(w, th);
    match th.pc
    case Allocating(_) => AllocKept(w, t, ok);
    case Refilling(_) => RefillKept(w, t, ok);
    case Dropping(_) => AfterFree(w, t, th.(pc := Blanking));
    case Freeing =>
      if th.slot.Some? { AfterFree(w, t, th.(pc := Clearing)); } else { ThreadOnly(w, t, th.(pc := Clearing)); }
    case _ => ThreadOnly(w, t, AdvanceThread(w, t, ok).threads[t]);
  }

  lemma OwnMove(w: World, m: Move, t: nat)
    requires Inv(w) && Mover(m) == Some(t) && t < |w.threads|
    ensures OwnKept(w, Step(w, m), t)
  {
    var th := w.threads[t];
    assert ThreadInv(w, th);
    match m
    case Fetch(_) => ThreadOnly(w, t, Step(w, m).threads[t]);
    case Advance(_, ok) => AdvanceKept(w, t, ok);
    case Exit(_) =>
      if th.slot.Some? && th.pc.User? {
        AfterFree(w, t, th.(pc := Exited, slot := None, returned := None));
      } else {
        ThreadOnly(w, t, Step(w, m).threads[t]);
      }
  }

  lemma MoveKeeps(w: World, m: Move, t: nat)
    requires Inv(w) && Mover(m) == Some(t) && t < |w.threads|
    ensures Inv(Step(w, m))
  {
    OwnMove(w, m, t);
    InvFollows(w, Step(w, m), t);
  }

  lemma InvFollows(w: World, v: World, t: nat)
    requires Inv(w) && t < |w.threads| && OwnKept(w, v, t)
    ensures Inv(v)
  {
    forall u | 0 <= u < |v.threads| ensures ThreadInv(v, v.threads[u]) {
      if u != t { OtherKept(w, v, t, u); }
    }
    forall a, u | 0 <= a < u < |v.threads| && Owned(v.threads[a]).Some?
      ensures Owned(v.threads[a]) != Owned(v.threads[u])
    {
      assert ThreadInv(w, w.threads[a]) && ThreadInv(w, w.threads[u]);
    }
    forall b | b in v.heap
      ensures b < v.next && exists u :: 0 <= u < |v.threads| && Owned(v.threads[u]) == Some(b)
    {
      if b in w.heap {
        var u :| 0 <= u < |w.threads| && Owned(w.threads[u]) == Some(b);
        assert Owned(v.threads[u]) == Some(b);
      } else {
        assert Owned(v.threads[t]) == Some(b);
      }
    }
  }

  lemma OtherKept(w: World, v: World, t: nat, u: nat)
    requires Inv(w) && t < |w.threads| && u < |w.threads| && u != t && Others(w, v, t)
    ensures ThreadInv(v, v.threads[u])
    ensures ReadBack(v, v.threads[u]) == ReadBack(w, w.threads[u])
  {
    assert ThreadInv(w, w.threads[u]);
    assert Owned(w.threads[u]).Some? ==> Owned(w.threads[u]) != Owned(w.threads[t]);
  }

  lemma StepKeeps(w: World, m: Move)
    requires Inv(w)
    ensures Inv(Step(w, m)) && |Step(w, m).threads| == |w.threads|
  {
    if Mover(m).Some? && Mover(m).value < |w.threads| {
      MoveKeeps(w, m, Mover(m).value);
      OwnMove(w, m, Mover(m).value);
    } else {
      var v := Step(w, m);
      assert v.threads == w.threads && v.heap == w.heap;
      forall u | 0 <= u < |v.threads| ensures ThreadInv(v, v.threads[u]) {
        assert ThreadInv(w, w.threads[u]);
      }
    }
  }

  lemma {:induction false} RunKeeps(w: World, moves: seq<Move>)
    requires Inv(w)
    ensures Inv(Run(w, moves)) && |Run(w, moves).threads| == |w.threads|
    decreases |moves|
  {
    if moves != [] {
      StepKeeps(w, moves[0]);
      RunKeeps(Step(w, moves[0]), moves[1..]);
    }
  }

  /** The block a move hands to `free`: the previous one at the head of a fetch, the one given up,
      and at exit the one in the slot. */
  function Freed(w: World, m: Move): Option<Block> {
    match m
    case Overwrite(_) => None
    case Fetch(_) => None
    case Advance(t, _) =>
      if t >= |w.threads| then None
      else if w.threads[t].pc.Freeing? then w.threads[t].slot
      else if w.threads[t].pc.Dropping? then Some(w.threads[t].pc.wide)
      else None
    case Exit(t) => if t < |w.threads| && w.threads[t].pc.User? then w.threads[t].slot else None
  }

  lemma FreesLive(w: World, m: Move)
    requires Inv(w) && Freed(w, m).Some?
    ensures Freed(w, m).value in w.heap && Freed(w, m).value !in Step(w, m).heap
  {
    assert ThreadInv(w, w.threads[Mover(m).value]);
  }

  // ---------------------------------------------------------------- the promises

  /** Whatever the threads do: only live blocks are freed, and then they are gone, the live blocks are exactly those owned
      by some thread, each by one thread, at most one per thread and none by an exited one, and
      a returned pointer reads the diagnostic its fetch obtained (or the empty text). */
  lemma Conservation(n: nat, moves: seq<Move>)
    ensures var w := Run(Initial(n), moves);
            && |w.threads| == n
            && (forall m :: Freed(w, m).Some? ==> Freed(w, m).value in w.heap && Freed(w, m).value !in Step(w, m).heap)
            && (forall b :: b in w.heap <==> exists t :: 0 <= t < n && Owned(w.threads[t]) == Some(b))
            && (forall t, u :: 0 <= t < u < n && Owned(w.threads[t]).Some? ==>
                  Owned(w.threads[t]) != Owned(w.threads[u]))
            && (forall t :: 0 <= t < n && w.threads[t].pc.Exited? ==> Owned(w.threads[t]).None?)
            && (forall t :: 0 <= t < n && w.threads[t].returned.Some? ==>
                  ReadBack(w, w.threads[t]) == Some(w.threads[t].answer))
  {
    RunKeeps(Initial(n), moves);
    var w := Run(Initial(n), moves);
    forall m | Freed(w, m).Some? ensures Freed(w, m).value in w.heap && Freed(w, m).value !in Step(w, m).heap {
      FreesLive(w, m);
    }
    forall t | 0 <= t < n
      ensures Owned(w.threads[t]).Some? ==> Owned(w.threads[t]).value in w.heap
      ensures w.threads[t].pc.Exited? ==> Owned(w.threads[t]).None?
      ensures w.threads[t].returned.Some? ==> ReadBack(w, w.threads[t]) == Some(w.threads[t].answer)
    {
      assert ThreadInv(w, w.threads[t]);
    }
  }

  /** Every answer is one of `texts` or a whole text the moves put in place. */
  ghost predicate Answered(w: World, texts: set<Bytes>, moves: seq<Move>) {
    forall th :: th in w.threads ==> th.answer in texts || Overwrite(th.answer) in moves
  }

  function Texts(m: Move): set<Bytes> { if m.Overwrite? then {m.text} else {} }

  /** A thread's move changes no other thread and answers nothing but the diagnostic or the
      empty text. */
  predicate OwnAnswer(w: World, v: World, t: nat)
    requires t < |w.threads|
  {
    && v.diagnostic == w.diagnostic && |v.threads| == |w.threads| && v.threads == w.threads[t := v.threads[t]]
    && (v.threads[t].answer == w.threads[t].answer || v.threads[t].answer == w.diagnostic || v.threads[t].answer == [])
  }

  lemma AdvanceAnswers(w: World, t: nat, ok: bool)
    requires t < |w.threads|
    ensures OwnAnswer(w, AdvanceThread(w, t, ok), t)
  {
    match w.threads[t].pc
    case User =>
    case Exited =>
    case Freeing =>
    case Clearing =>
    case Asking =>
    case Allocating(_) =>
    case Refilling(_) =>
    case Storing(_) =>
    case Dropping(_) =>
    case Blanking =>
  }

  lemma StepThread(w: World, m: Move, t: nat)
    requires Mover(m) == Some(t) && t < |w.threads|
    ensures OwnAnswer(w, Step(w, m), t)
  {
    match m
    case Fetch(_) =>
    case Advance(_, ok) => AdvanceAnswers(w, t, ok);
    case Exit(_) =>
  }

  lemma StepAnswers(w: World, texts: set<Bytes>, m: Move)
    requires w.diagnostic in texts && [] in texts && Answered(w, texts, [])
    ensures Step(w, m).diagnostic in texts + Texts(m) && Answered(Step(w, m), texts + Texts(m), [])
  {
    var v := Step(w, m);
    if Mover(m).Some? && Mover(m).value < |w.threads| {
      var t := Mover(m).value;
      StepThread(w, m, t);
      assert w.threads[t] in w.threads;
    } else {
      assert v.threads == w.threads;
    }
  }

  lemma {:induction false} AnswersFollow(w: World, texts: set<Bytes>, moves: seq<Move>)
    requires w.diagnostic in texts && [] in texts && Answered(w, texts, [])
    ensures Answered(Run(w, moves), texts, moves)
    decreases |moves|
  {
    if moves != [] {
      var m, rest := moves[0], moves[1..];
      StepAnswers(w, texts, m);
      AnswersFollow(Step(w, m), texts + Texts(m), rest);
      WholeBefore(Run(w, moves), texts, m, rest);
      assert moves == [m] + rest;
    }
  }

  lemma WholeBefore(w: World, texts: set<Bytes>, m: Move, rest: seq<Move>)
    requires Answered(w, texts + Texts(m), rest)
    ensures Answered(w, texts, [m] + rest)
  {
    forall th | th in w.threads ensures th.answer in texts || Overwrite(th.answer) in [m] + rest {
      if th.answer in Texts(m) { assert m == Overwrite(th.answer); }
    }
  }

  /** What a thread was answered is empty or a whole diagnostic of the library, never a part or
      a mixture of two. */
  lemma AnswersWhole(n: nat, moves: seq<Move>)
    ensures forall th :: th in Run(Initial(n), moves).threads ==> th.answer == [] || Overwrite(th.answer) in moves
  {
    AnswersFollow(Initial(n), {[]}, moves);
    assert Answered(Run(Initial(n), moves), {[]}, moves);
  }

  /** When every thread has left, no block is left behind. */
  lemma NothingLeaks(n: nat, moves: seq<Move>)
    requires forall t :: 0 <= t < n && t < |Run(Initial(n), moves).threads| ==>
               Run(Initial(n), moves).threads[t].pc.Exited?
    ensures Run(Initial(n), moves).heap == map[]
  {
    Conservation(n, moves);
    var w := Run(Initial(n), moves);
    assert forall t :: 0 <= t < n ==> Owned(w.threads[t]).None?;
  }

  /** Every thread that is in no fetch can leave, and once all have left nothing is live. */
  lemma {:induction false} Leave(w: World, k: nat) returns (v: World, moves: seq<Move>)
    requires Inv(w) && k <= |w.threads|
    requires forall t :: 0 <= t < |w.threads| ==> if t < k then w.threads[t].pc.User? else w.threads[t].pc.Exited?
    ensures v == Run(w, moves) && Inv(v) && |v.threads| == |w.threads|
    ensures forall t :: 0 <= t < |v.threads| ==> v.threads[t].pc.Exited?
    decreases k
  {
    if k == 0 {
      v, moves := w, [];
    } else {
      var m := Exit(k - 1);
      StepKeeps(w, m);
      StepThread(w, m, k - 1);
      assert Step(w, m).threads[k - 1].pc.Exited?;
      var rest;
      v, rest := Leave(Step(w, m), k - 1);
      moves := [m] + rest;
      RunSteps(w, m, rest);
    }
  }

  lemma EveryoneLeaves(w: World) returns (moves: seq<Move>)
    requires Inv(w) && forall t :: 0 <= t < |w.threads| ==> w.threads[t].pc.User?
    ensures var v := Run(w, moves);
            v.heap == map[] && forall t :: 0 <= t < |v.threads| ==> v.threads[t].pc.Exited?
  {
    var v;
    v, moves := Leave(w, |w.threads|);
    forall t | 0 <= t < |v.threads| ensures Owned(v.threads[t]).None? {
      assert ThreadInv(v, v.threads[t]);
    }
  }

  // ---------------------------------------------------------------- one fetch

  /** Moves a fetch may still need. */
  function MovesLeft(pc: PC): nat {
    match pc
    case User => 0 case Exited => 0 case Blanking => 1 case Dropping(_) => 2 case Storing(_) => 3
    case Refilling(_) => 4 case Allocating(_) => 5 case Asking => 6 case Clearing => 7 case Freeing => 8
  }

  /** Every move of a thread in a fetch brings the fetch nearer its end, whatever fails: after at
      most eight moves it has returned. */
  lemma FetchEnds(w: World, t: nat, ok: bool)
    requires t < |w.threads| && MovesLeft(w.threads[t].pc) > 0
    ensures var v := Step(w, Advance(t, ok));
            |v.threads| == |w.threads| && MovesLeft(v.threads[t].pc) < MovesLeft(w.threads[t].pc) <= 8
            && !v.threads[t].pc.Exited?
  {
    match w.threads[t].pc
    case Freeing =>
    case Clearing =>
    case Asking =>
    case Allocating(_) =>
    case Refilling(_) =>
    case Storing(_) =>
    case Dropping(_) =>
    case Blanking =>
  }

  /** The diagnostics the library held during a run, its start included. */
  function Diagnostics(w: World, moves: seq<Move>): set<Bytes>
    decreases |moves|
  {
    {w.diagnostic} + if moves == [] then {} else Diagnostics(Step(w, moves[0]), moves[1..])
  }

  predicate Fresh(th: Thread, seen: set<Bytes>) { th.pc.User? || th.pc.Storing? ==> th.answer == [] || th.answer in seen }

  lemma StepFresh(w: World, m: Move, t: nat, seen: set<Bytes>)
    requires t < |w.threads| && Fresh(w.threads[t], seen) && m != Fetch(t) && m != Exit(t)
    ensures t < |Step(w, m).threads| && Fresh(Step(w, m).threads[t], seen + {w.diagnostic})
  {
    match m
    case Overwrite(_) =>
    case Fetch(_) =>
    case Exit(_) =>
    case Advance(u, ok) =>
      if u < |w.threads| { AdvanceAnswers(w, u, ok); }
      if u == t { OwnFresh(w, t, ok, seen); }
  }

  lemma OwnFresh(w: World, t: nat, ok: bool, seen: set<Bytes>)
    requires t < |w.threads| && Fresh(w.threads[t], seen)
    ensures |AdvanceThread(w, t, ok).threads| == |w.threads|
    ensures Fresh(AdvanceThread(w, t, ok).threads[t], seen + {w.diagnostic})
  {
    match w.threads[t].pc
    case User =>
    case Exited =>
    case Freeing =>
    case Clearing =>
    case Asking =>
    case Allocating(_) =>
    case Refilling(_) =>
    case Storing(_) =>
    case Dropping(_) =>
    case Blanking =>
  }

  lemma {:induction false} FreshFollows(w: World, moves: seq<Move>, t: nat, seen: set<Bytes>)
    requires t < |w.threads| && Fresh(w.threads[t], seen)
    requires forall m :: m in moves ==> m != Fetch(t) && m != Exit(t)
    ensures t < |Run(w, moves).threads| && Fresh(Run(w, moves).threads[t], seen + Diagnostics(w, moves))
    decreases |moves|
  {
    if moves != [] {
      assert moves[0] in moves && forall m :: m in moves[1..] ==> m in moves;
      StepFresh(w, moves[0], t, seen);
      FreshFollows(Step(w, moves[0]), moves[1..], t, seen + {w.diagnostic});
    }
  }

  /** A fetch answers with the empty text or with a diagnostic the library held during that fetch,
      never with what an earlier one left behind. */
  lemma AnswersOfThisFetch(w: World, moves: seq<Move>, t: nat)
    requires t < |w.threads| && w.threads[t].pc.Freeing?
    requires forall m :: m in moves ==> m != Fetch(t) && m != Exit(t)
    ensures var v := Run(w, moves);
            t < |v.threads| && (v.threads[t].pc.User? ==> v.threads[t].answer == [] || v.threads[t].answer in Diagnostics(w, moves))
  {
    FreshFollows(w, moves, t, {});
  }

  // ---------------------------------------------------------------- nothing is written out of bounds

  /** Every text, with its terminator, fits the buffer it is in. */
  ghost predicate Fits(w: World) {
    (forall b :: b in w.heap ==> |w.heap[b].text| < w.heap[b].cap) &&
    (forall t :: 0 <= t < |w.threads| ==> |w.threads[t].inline| < 2048)
  }

  /** No move asks for a block of no bytes. */
  ghost predicate Needs(w: World) {
    forall t :: 0 <= t < |w.threads| && w.threads[t].pc.Allocating? ==> w.threads[t].pc.need > 2048
  }

  lemma AdvanceFits(w: World, t: nat, ok: bool)
    requires Fits(w) && Needs(w) && t < |w.threads|
    ensures Fits(AdvanceThread(w, t, ok)) && Needs(AdvanceThread(w, t, ok))
  {
    match w.threads[t].pc
    case User =>
    case Exited =>
    case Freeing =>
    case Clearing =>
    case Asking =>
    case Allocating(_) =>
    case Refilling(_) =>
    case Storing(_) =>
    case Dropping(_) =>
    case Blanking =>
  }

  lemma {:induction false} RunFits(w: World, moves: seq<Move>)
    requires Fits(w) && Needs(w)
    ensures Fits(Run(w, moves)) && Needs(Run(w, moves))
    decreases |moves|
  {
    if moves != [] {
      if moves[0].Advance? && moves[0].t < |w.threads| { AdvanceFits(w, moves[0].t, moves[0].ok); }
      RunFits(Step(w, moves[0]), moves[1..]);
    }
  }

  /** Whatever the threads do, no buffer ever holds more than it has room for, and a block is asked
      for only where the inline buffer would be too small. */
  lemma InBounds(n: nat, moves: seq<Move>)
    ensures Fits(Run(Initial(n), moves)) && Needs(Run(Initial(n), moves))
  {
    RunFits(Initial(n), moves);
  }

  /** The returned pointer is good until the same thread fetches again or exits, through any
      fetches, overwrites and exits of the others. */
  lemma {:induction false} PointerStays(w: World, moves: seq<Move>, t: nat)
    requires Inv(w) && t < |w.threads| && w.threads[t].returned.Some?
    requires forall m :: m in moves ==> m != Fetch(t) && m != Exit(t)
    ensures |Run(w, moves).threads| == |w.threads| && Run(w, moves).threads[t] == w.threads[t]
    ensures ReadBack(Run(w, moves), Run(w, moves).threads[t]) == ReadBack(w, w.threads[t])
    ensures ReadBack(w, w.threads[t]) == Some(w.threads[t].answer)
    decreases |moves|
  {
    assert ThreadInv(w, w.threads[t]);
    if moves != [] {
      var m := moves[0];
      assert m in moves;
      StepKeeps(w, m);
      if Mover(m).Some? && Mover(m).value < |w.threads| && Mover(m) != Some(t) {
        OwnMove(w, m, Mover(m).value);
        OtherKept(w, Step(w, m), Mover(m).value, t);
      }
      assert forall x :: x in moves[1..] ==> x in moves;
      PointerStays(Step(w, m), moves[1..], t);
    }
  }

  /** An undisturbed fetch returns the whole diagnostic, short or long: one of less than 2048 bytes
      from the inline buffer, with no allocation, a longer one after three moves more. */
  lemma FetchAnswers(w: World, t: nat, text: Bytes)
    requires Inv(w) && t < |w.threads| && w.threads[t].pc.User?
    ensures var a := Advance(t, true);
            var v := Run(w, [Overwrite(text)] + ([Fetch(t), a, a, a] + if |text| < 2048 then [] else [a, a, a]));
            && t < |v.threads| && v.threads[t].pc.User?
            && ReadBack(v, v.threads[t]) == Some(text)
  {
    var a := Advance(t, true);
    var v := Step(w, Overwrite(text));
    StepKeeps(w, Overwrite(text));
    RunSteps(w, Overwrite(text), [Fetch(t), a, a, a] + if |text| < 2048 then [] else [a, a, a]);
    FetchReads(v, t);
  }

  lemma FetchReads(w: World, t: nat)
    requires Inv(w) && t < |w.threads| && w.threads[t].pc.User?
    ensures var a := Advance(t, true);
            var v := Run(w, [Fetch(t), a, a, a] + if |w.diagnostic| < 2048 then [] else [a, a, a]);
            && t < |v.threads| && v.threads[t].pc.User?
            && ReadBack(v, v.threads[t]) == Some(w.diagnostic)
  {
    var a := Advance(t, true);
    var v := Step(Step(Step(w, Fetch(t)), a), a);
    ReachAsking(w, t);
    if |w.diagnostic| < 2048 {
      assert [Fetch(t), a, a, a] + [] == [Fetch(t)] + ([a] + ([a] + ([a] + [])));
      RunSteps(v, a, []);
    } else {
      assert [Fetch(t), a, a, a] + [a, a, a] == [Fetch(t)] + ([a] + ([a] + ([a] + ([a] + ([a] + ([a] + []))))));
      LongAnswer(v, t);
    }
  }

  lemma ReachAsking(w: World, t: nat)
    requires Inv(w) && t < |w.threads| && w.threads[t].pc.User?
    ensures var a := Advance(t, true); var v := Step(Step(Step(w, Fetch(t)), a), a);
            && Inv(v) && |v.threads| == |w.threads| && v.threads[t].pc.Asking? && v.diagnostic == w.diagnostic
            && forall moves :: Run(w, [Fetch(t)] + ([a] + ([a] + moves))) == Run(v, moves)
  {
    var a := Advance(t, true);
    var w1 := Step(w, Fetch(t));
    StepKeeps(w, Fetch(t));
    assert w1.threads[t].pc.Freeing? && w1.diagnostic == w.diagnostic;
    var w2 := Step(w1, a);
    StepKeeps(w1, a);
    assert w2.threads[t].pc.Clearing? && w2.diagnostic == w.diagnostic;
    StepKeeps(w2, a);
    forall moves ensures Run(w, [Fetch(t)] + ([a] + ([a] + moves))) == Run(Step(w2, a), moves) {
      ThreeSteps(w, Fetch(t), a, a, moves);
    }
  }

  lemma ThreeSteps(w: World, a: Move, b: Move, c: Move, moves: seq<Move>)
    ensures Run(w, [a] + ([b] + ([c] + moves))) == Run(Step(Step(Step(w, a), b), c), moves)
  {
    RunSteps(w, a, [b] + ([c] + moves));
    RunSteps(Step(w, a), b, [c] + moves);
    RunSteps(Step(Step(w, a), b), c, moves);
  }

  /** A fetch whose query fails, or that gets no memory for a long diagnostic, returns the empty
      text, whatever the thread was answered before. */
  lemma RefusedIsEmpty(w: World, t: nat, ok: bool)
    requires t < |w.threads| && (w.threads[t].pc.Asking? || w.threads[t].pc.Allocating?)
    ensures var v := Run(w, [Advance(t, false)] + ([Advance(t, ok)] + []));
            && t < |v.threads| && v.threads[t].pc.User? && v.threads[t].answer == []
            && ReadBack(v, v.threads[t]) == Some([])
  {
    RunSteps(w, Advance(t, false), [Advance(t, ok)] + []);
    RunSteps(Step(w, Advance(t, false)), Advance(t, ok), []);
  }

  /** A fetch that gives up its block returns the empty text too. */
  lemma DroppedIsEmpty(w: World, t: nat, a: bool, b: bool)
    requires t < |w.threads| && w.threads[t].pc.Dropping?
    ensures var v := Run(w, [Advance(t, a)] + ([Advance(t, b)] + []));
            && t < |v.threads| && v.threads[t].pc.User? && v.threads[t].answer == []
            && ReadBack(v, v.threads[t]) == Some([])
  {
    RunSteps(w, Advance(t, a), [Advance(t, b)] + []);
    RunSteps(Step(w, Advance(t, a)), Advance(t, b), []);
  }

  lemma LongAnswer(w: World, t: nat)
    requires t < |w.threads| && w.threads[t].pc.Asking? && |w.diagnostic| >= INLINE_CAP
    ensures var a := Advance(t, true);
            var v := Run(w, [a] + ([a] + ([a] + ([a] + []))));
            && t < |v.threads| && v.threads[t].pc.User? && ReadBack(v, v.threads[t]) == Some(w.diagnostic)
  {
    var a := Advance(t, true);
    var w1 := Step(w, a);
    assert w1.threads[t].pc == Allocating(|w.diagnostic| + 1);
    var w2 := Step(w1, a);
    assert w2.threads[t].pc == Refilling(w.next) && w2.heap[w.next].cap == |w.diagnostic| + 1;
    var w3 := Step(w2, a);
    assert w3.threads[t].pc == Storing(w.next) && w3.heap[w.next].text == w.diagnostic;
    RunSteps(w, a, [a] + ([a] + ([a] + [])));
    RunSteps(w1, a, [a] + ([a] + []));
    RunSteps(w2, a, [a] + []);
    RunSteps(w3, a, []);
  }

  lemma RunSteps(w: World, m: Move, moves: seq<Move>)
    ensures Run(w, [m] + moves) == Run(Step(w, m), moves)
  {
    assert ([m] + moves)[1..] == moves;
  }
}
