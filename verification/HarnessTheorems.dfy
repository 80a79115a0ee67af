/** The safety theorems of the harness, over every configuration, every run and every
    decision of the environment. */
module HarnessTheorems {
  import opened Basics
  import opened HarnessModel
  import opened HarnessSafety
  import opened HarnessCounts
  import opened HarnessRun
  import opened HarnessHistory

  lemma ReachableInv(cfg: Config, s0: State, steps: seq<Step>)
    requires Initial(cfg, s0) && Ideal(cfg.cipher) && IsRun(cfg, s0, steps)
    ensures Inv(cfg, After(cfg, s0, steps))
  {
    InitialInv(cfg, s0);
    RunKeeps(cfg, s0, steps);
  }

  /** A decrypt runs on the handle and under the keying of its encrypt, so the comparison
      always succeeds and the process never exits with a data mismatch. */
  lemma NoDataMismatch(cfg: Config, s0: State, steps: seq<Step>)
    requires Initial(cfg, s0) && Ideal(cfg.cipher) && IsRun(cfg, s0, steps)
    ensures var s := After(cfg, s0, steps);
            !s.sh.mismatch &&
            forall i, e, d, got :: 0 <= i < |s.ws| && s.ws[i].pc == Iterate(Compare(e, d, got)) ==>
              e == d && got == s.ws[i].plain
  {
    ReachableInv(cfg, s0, steps);
    var s := After(cfg, s0, steps);
    forall i, e, d, got | 0 <= i < |s.ws| && s.ws[i].pc == Iterate(Compare(e, d, got))
      ensures e == d && got == s.ws[i].plain
    {
      assert Local(cfg, s.sh, i, s.ws[i]);
    }
  }

  /** The call or session a worker has open, if any. */
  function OpenCall(pc: PC): Option<Epoch> {
    if pc.Iterate? && pc.it.EncEnd? then Some(pc.it.e)
    else if pc.Iterate? && pc.it.DecEnd? then Some(pc.it.d)
    else None
  }

  /** A mutation of the handles is under way: a worker holds the write side, or main releases them. */
  predicate Mutating(s: State) { s.sh.writer.Some? || MainReleasing(s.m) }

  /** Outside a mutation every active slot is filled, open, and keyed as its blob would load,
      and no other handle is open, also after a mutation that failed half way. Whatever happens,
      an open call or session is on an open handle with the keying it started under. */
  lemma HandlesStayKeyed(cfg: Config, s0: State, steps: seq<Step>)
    requires Initial(cfg, s0) && Ideal(cfg.cipher) && IsRun(cfg, s0, steps)
    ensures var s := After(cfg, s0, steps);
            (!Mutating(s) ==> Clean(cfg, s.sh.hs)) &&
            (forall i, e :: 0 <= i < |s.ws| && OpenCall(s.ws[i].pc) == Some(e) ==>
               StillKeyed(s.sh.hs, e) && !Mutating(s))
  {
    ReachableInv(cfg, s0, steps);
    var s := After(cfg, s0, steps);
    AllReturned(s);
    forall i, e | 0 <= i < |s.ws| && OpenCall(s.ws[i].pc) == Some(e)
      ensures StillKeyed(s.sh.hs, e) && !Mutating(s)
    {
      assert Local(cfg, s.sh, i, s.ws[i]);
    }
  }

  /** The lock discipline: a writer is alone, each side is held exactly by the workers inside
      the matching section, and nobody queues for the write side while reading. */
  lemma LockDiscipline(cfg: Config, s0: State, steps: seq<Step>)
    requires Initial(cfg, s0) && Ideal(cfg.cipher) && IsRun(cfg, s0, steps)
    ensures var s := After(cfg, s0, steps);
            (!MainReleasing(s.m) && s.sh.writer.Some? ==> s.sh.readers == {}) &&
            (forall i :: 0 <= i < |s.ws| ==>
               (i in s.sh.readers <==> HoldsRead(s.ws[i].pc)) &&
               (s.sh.writer == Some(i) <==> HoldsWrite(s.ws[i].pc)) &&
               (Queued(s.ws[i].pc) || s.ws[i].pc.Return? ==> i !in s.sh.readers && s.sh.writer != Some(i)))
  {
    ReachableInv(cfg, s0, steps);
    var s := After(cfg, s0, steps);
    forall i | 0 <= i < |s.ws|
      ensures (i in s.sh.readers <==> HoldsRead(s.ws[i].pc)) && (s.sh.writer == Some(i) <==> HoldsWrite(s.ws[i].pc)) &&
              (Queued(s.ws[i].pc) || s.ws[i].pc.Return? ==> i !in s.sh.readers && s.sh.writer != Some(i))
    {
      assert Local(cfg, s.sh, i, s.ws[i]);
    }
  }

  /** When main returns: every worker has passed both barriers and returned, no lock is held,
      every handle has been released, and the finish was stamped exactly once, not before
      the start. The start is the reading of step `p`, main's stamp, and the finish that of step
      `q`, in which the last worker returned. */
  lemma CleanFinish(cfg: Config, s0: State, steps: seq<Step>) returns (p: nat, q: nat)
    requires Initial(cfg, s0) && Ideal(cfg.cipher) && IsRun(cfg, s0, steps)
    requires Final(After(cfg, s0, steps))
    ensures var s := After(cfg, s0, steps);
            s.sh.hs.live == map[] && s.sh.stamps == 1 && s.sh.finishNs - s.sh.startNs >= 0 &&
            s.sh.readers == {} && s.sh.writer == None &&
            s.sh.arrivedA == cfg.workers + 1 && s.sh.arrivedB == cfg.workers + 1 &&
            (forall i :: 0 <= i < |s.ws| ==> s.ws[i].pc == Return(Done)) &&
            IsStart(cfg, s0, steps, p, s.sh.startNs) && IsFinish(cfg, s0, steps, q, s.sh.finishNs) && p < q
  {
    ReachableInv(cfg, s0, steps);
    p, q := StampsExactly(cfg, s0, steps);
    var s := After(cfg, s0, steps);
    AllReturned(s);
    NoWriterLeft(cfg, s);
    SumConstant(s.ws, PassedA, 1);
    SumConstant(s.ws, PassedB, 1);
    assert s.sh.hs.live.Keys == {};
  }

  // ---------------------------------------------------------------- the finish stamp

  lemma StampStep(cfg: Config, s: State, step: Step)
    requires Inv(cfg, s) && Enabled(cfg, s, step) && s.sh.stamps == 1
    ensures var s' := Apply(cfg, s, step);
            s'.sh.stamps == 1 && s'.sh.finishNs == s.sh.finishNs && s'.sh.startNs == s.sh.startNs
  {
    StepKeeps(cfg, s, step);
    AllReturned(s);
    assert forall i :: 0 <= i < |s.ws| ==> s.ws[i].pc == Return(Done);
    if s.m.MStamp? { StampBeforeRelease(cfg, s); }
  }

  /** Once stamped, neither end of the elapsed time is written again. */
  lemma {:induction false} StampIsFinal(cfg: Config, s: State, steps: seq<Step>)
    requires Inv(cfg, s) && IsRun(cfg, s, steps) && s.sh.stamps == 1
    ensures var s' := After(cfg, s, steps);
            s'.sh.stamps == 1 && s'.sh.finishNs == s.sh.finishNs && s'.sh.startNs == s.sh.startNs
    decreases |steps|
  {
    if steps != [] {
      StepKeeps(cfg, s, steps[0]);
      StampStep(cfg, s, steps[0]);
      StampIsFinal(cfg, Apply(cfg, s, steps[0]), steps[1..]);
    }
  }

  // ---------------------------------------------------------------- exact counts

  function ItersOf(w: Worker): int { w.iters }

  /** A run of N iterations that ends without a stop: every worker did exactly N round trips,
      and the maintenance counters are the product of the workers and the quotients. */
  lemma ExactCounts(cfg: Config, s0: State, steps: seq<Step>)
    requires Initial(cfg, s0) && Ideal(cfg.cipher) && IsRun(cfg, s0, steps)
    requires Final(After(cfg, s0, steps)) && !After(cfg, s0, steps).sh.stop
    ensures var s := After(cfg, s0, steps); var n := cfg.iterations;
            n >= 1 && |s.ws| == cfg.workers &&
            (forall i :: 0 <= i < |s.ws| ==> s.ws[i].iters == n && !s.ws[i].failed) &&
            Sum(s.ws, ItersOf) == cfg.workers * n &&
            s.sh.rekeys == cfg.workers * (if cfg.rekeyEvery == 0 then 0 else (n - 1) / cfg.rekeyEvery) &&
            s.sh.cycles == cfg.workers * (if cfg.cycleEvery == 0 then 0 else (n - 1) / cfg.cycleEvery)
  {
    ReachableInv(cfg, s0, steps);
    var s, n := After(cfg, s0, steps), cfg.iterations;
    AllReturned(s);
    forall i | 0 <= i < |s.ws| ensures s.ws[i].iters == n && s.ws[i].iter == n && !s.ws[i].failed && n >= 1 {
      assert Local(cfg, s.sh, i, s.ws[i]);
    }
    assert s.ws[0].iters == n;
    if cfg.rekeyEvery > 0 { MultiplesQuotient(cfg.rekeyEvery, n); }
    if cfg.cycleEvery > 0 { MultiplesQuotient(cfg.cycleEvery, n); }
    SumConstant(s.ws, ItersOf, n);
    SumConstant(s.ws, RekeyTerm(cfg), Multiples(cfg.rekeyEvery, n));
    SumConstant(s.ws, CycleTerm(cfg), Multiples(cfg.cycleEvery, n));
  }

  /** A worker has an error if and only if one of its calls was answered with failure, and its
      counter is the number of comparisons that found the plaintext. */
  lemma OutcomesExactly(cfg: Config, s0: State, steps: seq<Step>, i: nat)
    requires Initial(cfg, s0) && Ideal(cfg.cipher) && IsRun(cfg, s0, steps) && i < cfg.workers
    ensures |After(cfg, s0, steps).ws| == cfg.workers
    ensures After(cfg, s0, steps).ws[i].failed <==> Times(cfg, s0, steps, RefusedEvent(i)) > 0
    ensures Times(cfg, s0, steps, RefusedEvent(i)) <= 1
    ensures After(cfg, s0, steps).ws[i].iters == Times(cfg, s0, steps, ComparedEvent(i))
  {
    InitialInv(cfg, s0);
    FailedExactly(cfg, s0, steps, i);
    ItersExactly(cfg, s0, steps, i);
  }

  /** The run is asked to stop if and only if a worker has an error, or main's poll saw a signal
      or, without a budget, the deadline. */
  lemma StopsExactly(cfg: Config, s0: State, steps: seq<Step>)
    requires Initial(cfg, s0) && Ideal(cfg.cipher) && IsRun(cfg, s0, steps)
    ensures var s := After(cfg, s0, steps);
            s.sh.stop <==> (exists i :: 0 <= i < |s.ws| && s.ws[i].failed) || Times(cfg, s0, steps, PolledEvent(cfg)) > 0
  {
    InitialInv(cfg, s0);
    StopExactly(cfg, s0, steps);
  }

  /** A cipher call runs on the handle of its surface: the message pipe in message mode and in
      every third iteration, from the second, when the surfaces rotate; the stream pipe
      otherwise. */
  lemma CallsOnTheirSide(cfg: Config, s0: State, steps: seq<Step>)
    requires Initial(cfg, s0) && Ideal(cfg.cipher) && IsRun(cfg, s0, steps)
    ensures var s := After(cfg, s0, steps);
            forall i, e :: 0 <= i < |s.ws| && OpenCall(s.ws[i].pc) == Some(e) ==>
              var slot := if cfg.shape == Message || (cfg.shape == Both && s.ws[i].iter % 3 == 1)
                          then s.sh.hs.msg else s.sh.hs.stream;
              slot.Some? && slot.value.handle == e.handle
  {
    ReachableInv(cfg, s0, steps);
    var s := After(cfg, s0, steps);
    forall i, e | 0 <= i < |s.ws| && OpenCall(s.ws[i].pc) == Some(e) ensures Current(cfg, s.sh.hs, s.ws[i].iter, e) {
      assert Local(cfg, s.sh, i, s.ws[i]);
    }
  }

  /** An error always stops the run, and the worker that had it never counts another round trip. */
  lemma ErrorsStop(cfg: Config, s0: State, steps: seq<Step>)
    requires Initial(cfg, s0) && Ideal(cfg.cipher) && IsRun(cfg, s0, steps)
    ensures var s := After(cfg, s0, steps);
            forall i :: 0 <= i < |s.ws| && s.ws[i].failed ==>
              s.sh.stop && (Failing(s.ws[i].pc) || s.ws[i].pc.Return?)
  {
    ReachableInv(cfg, s0, steps);
    var s := After(cfg, s0, steps);
    forall i | 0 <= i < |s.ws| && s.ws[i].failed ensures s.sh.stop && (Failing(s.ws[i].pc) || s.ws[i].pc.Return?) {
      assert Local(cfg, s.sh, i, s.ws[i]);
    }
  }

  // ---------------------------------------------------------------- after a stop

  /** One when the worker is inside a round trip it has not counted yet. */
  function InFlight(w: Worker): nat { if w.pc.Iterate? && !w.pc.it.RdUnlock? then 1 else 0 }

  lemma StopStep(cfg: Config, sh: Shared, i: nat, w: Worker, ch: Choice)
    requires sh.stop
    ensures var (sh', w') := StepWorker(cfg, sh, i, w, ch);
            sh'.stop && w'.iters + InFlight(w') <= w.iters + InFlight(w)
  {
    match w.pc
    case Iterate(at) =>
    case Gate(at) =>
    case Rekey(at) =>
    case Reopen(at) =>
    case Return(at) =>
  }

  /** After the stop request a worker completes at most the round trip it is in. */
  lemma {:induction false} AtMostOneMore(cfg: Config, s: State, steps: seq<Step>, i: nat)
    requires IsRun(cfg, s, steps) && s.sh.stop && i < |s.ws|
    ensures var s' := After(cfg, s, steps);
            s'.sh.stop && i < |s'.ws| &&
            s'.ws[i].iters + InFlight(s'.ws[i]) <= s.ws[i].iters + InFlight(s.ws[i]) <= s.ws[i].iters + 1
    decreases |steps|
  {
    if steps != [] {
      if steps[0].ByWorker? { StopStep(cfg, s.sh, steps[0].i, s.ws[steps[0].i], steps[0].ch); }
      AtMostOneMore(cfg, Apply(cfg, s, steps[0]), steps[1..], i);
    }
  }
}
