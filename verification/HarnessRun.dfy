/** The whole invariant of the harness, that every step keeps it, and the safety theorems
    over every run. */
module HarnessRun {
  import opened Basics
  import opened HarnessModel
  import opened HarnessSafety
  import opened HarnessCounts

  // ---------------------------------------------------------------- invariant

  predicate MainArrivedB(m: MainPC) {
    !m.MArriveA? && !m.MWaitA? && !m.MStamp? && !m.MArriveB?
  }

  /** Main has left the wait loop. */
  predicate MainLeft(m: MainPC) { m.MUnlock? || m.MJoin? || m.MFree? || m.MFinal? }

  predicate MainReleasing(m: MainPC) { m.MFree? || m.MFinal? }

  predicate Workers(cfg: Config, s: State) {
    |s.ws| == cfg.workers &&
    (forall i :: 0 <= i < |s.ws| ==> Local(cfg, s.sh, i, s.ws[i]))
  }

  /** Locks are only ever held by threads of the run. */
  predicate Owners(s: State) {
    (s.sh.writer.Some? ==> s.sh.writer.value < |s.ws|) &&
    (forall j :: j in s.sh.readers ==> j < |s.ws|) &&
    (s.sh.doneMu.Some? && s.sh.doneMu.value.WorkerThread? ==> s.sh.doneMu.value.id < |s.ws|) &&
    (s.sh.doneMu == Some(MainThread) <==> s.m.MCheck? || s.m.MUnlock?)
  }

  predicate Counters(cfg: Config, s: State) {
    s.sh.arrivedA == Sum(s.ws, PassedA) + (if s.m.MArriveA? then 0 else 1) &&
    s.sh.arrivedB == Sum(s.ws, PassedB) + (if MainArrivedB(s.m) then 1 else 0) &&
    s.sh.active == Sum(s.ws, Unreturned) &&
    (!s.sh.stop ==>
       s.sh.rekeys == Sum(s.ws, RekeyTerm(cfg)) && s.sh.cycles == Sum(s.ws, CycleTerm(cfg)))
  }

  predicate Stamps(s: State) {
    s.sh.stamps == (if s.sh.active == 0 then 1 else 0) &&
    (MainLeft(s.m) ==> s.sh.active == 0) &&
    (MainArrivedB(s.m) || s.m.MArriveB? ==> s.sh.startNs <= s.sh.finishNs <= s.sh.clock) &&
    ((MainArrivedB(s.m) || s.m.MArriveB?) && s.sh.stamps == 0 ==> s.sh.finishNs == s.sh.startNs)
  }

  /** The handles, up to the point main has reached in releasing them. */
  predicate Release(cfg: Config, s: State) {
    match s.m
    case MFree(StreamSide) => Quiet(cfg, s.sh) && s.sh.writer == None
    case MFree(MessageSide) =>
      !s.sh.mismatch && s.sh.hs.live.Keys == (if s.sh.hs.msg.Some? then {s.sh.hs.msg.value.handle} else {})
    case MFinal => !s.sh.mismatch && s.sh.hs.live.Keys == {}
    case _ => Quiet(cfg, s.sh)
  }

  ghost predicate Inv(cfg: Config, s: State) {
    ValidConfig(cfg) && Ideal(cfg.cipher) &&
    Workers(cfg, s) && Owners(s) && Counters(cfg, s) && Stamps(s) && Release(cfg, s)
  }

  // ---------------------------------------------------------------- initially

  /** Every shape with one to ten workers has a state to start from. */
  lemma SomeStart(cfg: Config) returns (s: State)
    requires 1 <= cfg.workers <= 10
    ensures Initial(cfg, s)
  {
    var stream := if cfg.shape == Message then None else Some(Pipe(1, []));
    var msg := if cfg.shape == Message || cfg.shape == Both then Some(Pipe(2, [])) else None;
    var live: map<Handle, Key> :=
      (if cfg.shape == Message then map[] else map[1 := []]) + (if msg.Some? then map[2 := []] else map[]);
    var sh := Shared(Handles(live, stream, msg), {}, None, 0, 0, false, 0, 0, None, cfg.workers, 0, 0, 0, 0, false);
    s := State(sh, seq(cfg.workers, i => Worker(Iterate(Fill), 0, [], 0, false)), MArriveA);
  }

  lemma InitialInv(cfg: Config, s: State)
    requires Initial(cfg, s) && Ideal(cfg.cipher)
    ensures Inv(cfg, s)
  {
    SumConstant(s.ws, PassedA, 0);
    SumConstant(s.ws, PassedB, 0);
    SumConstant(s.ws, Unreturned, 1);
    SumConstant(s.ws, RekeyTerm(cfg), 0);
    SumConstant(s.ws, CycleTerm(cfg), 0);
  }

  // ---------------------------------------------------------------- a worker steps

  /** Main has arrived at the release barrier once any worker is past it. */
  lemma ReleasedByMain(cfg: Config, s: State)
    requires Counters(cfg, s) && |s.ws| == cfg.workers && s.sh.arrivedB >= cfg.workers + 1
    ensures MainArrivedB(s.m)
  {
    SumBound(s.ws, PassedB, 1);
  }

  /** With no worker left to return, every worker has returned; and conversely. */
  lemma AllReturned(s: State)
    ensures s.sh.active == Sum(s.ws, Unreturned) ==>
            (s.sh.active == 0 <==> forall i :: 0 <= i < |s.ws| ==> s.ws[i].pc == Return(Done)) && s.sh.active >= 0
  {
    SumNonNegative(s.ws, Unreturned);
    if forall i :: 0 <= i < |s.ws| ==> s.ws[i].pc == Return(Done) {
      SumConstant(s.ws, Unreturned, 0);
    }
    if s.sh.active == Sum(s.ws, Unreturned) == 0 {
      forall i | 0 <= i < |s.ws| ensures s.ws[i].pc == Return(Done) {
        assert Unreturned(s.ws[i]) <= 0;
      }
    }
  }

  lemma WorkersKept(cfg: Config, s: State, i: nat, ch: Choice)
    requires Ideal(cfg.cipher) && Workers(cfg, s) && Quiet(cfg, s.sh)
    requires i < |s.ws| && WorkerMay(cfg, s.sh, s.ws[i], ch)
    ensures var (sh', w') := StepWorker(cfg, s.sh, i, s.ws[i], ch);
            Workers(cfg, s.(sh := sh', ws := s.ws[i := w'])) && Quiet(cfg, sh') && Guarantee(i, s.sh, sh')
  {
    var (sh', w') := StepWorker(cfg, s.sh, i, s.ws[i], ch);
    OwnStep(cfg, s.sh, i, s.ws[i], ch);
    forall j | 0 <= j < |s.ws| && j != i ensures Local(cfg, sh', j, s.ws[j]) {
      Stable(cfg, s.sh, sh', i, j, s.ws[j]);
    }
  }

  lemma CountersKept(cfg: Config, s: State, i: nat, ch: Choice)
    requires Workers(cfg, s) && Counters(cfg, s)
    requires i < |s.ws| && WorkerMay(cfg, s.sh, s.ws[i], ch)
    ensures var (sh', w') := StepWorker(cfg, s.sh, i, s.ws[i], ch);
            Counters(cfg, s.(sh := sh', ws := s.ws[i := w']))
  {
    var (sh', w') := StepWorker(cfg, s.sh, i, s.ws[i], ch);
    StepTracks(cfg, s.sh, i, s.ws[i], ch);
    SumUpdate(s.ws, i, w', PassedA);
    SumUpdate(s.ws, i, w', PassedB);
    SumUpdate(s.ws, i, w', Unreturned);
    SumUpdate(s.ws, i, w', RekeyTerm(cfg));
    SumUpdate(s.ws, i, w', CycleTerm(cfg));
  }

  /** Only the last returning worker reads the clock and stamps the finish. */
  predicate ClockFrame(sh: Shared, w: Worker, sh': Shared) {
    sh'.startNs == sh.startNs &&
    (sh'.active != sh.active ==> sh'.active == sh.active - 1 && w.pc == Return(DoneCrit)) &&
    (if sh'.active != sh.active && sh'.active == 0
     then sh'.clock >= sh.clock && sh'.finishNs == sh'.clock && sh'.stamps == sh.stamps + 1
     else sh'.clock == sh.clock && sh'.finishNs == sh.finishNs && sh'.stamps == sh.stamps)
  }

  lemma IterateClock(cfg: Config, sh: Shared, i: nat, w: Worker, at: IterateAt, ch: Choice)
    requires w.pc == Iterate(at)
    ensures ClockFrame(sh, w, StepIterate(cfg, sh, i, w, at, ch).0)
  {
  }

  lemma ReopenClock(cfg: Config, sh: Shared, i: nat, w: Worker, at: ReopenAt, ch: Choice)
    requires w.pc == Reopen(at)
    ensures ClockFrame(sh, w, StepReopen(cfg, sh, i, w, at, ch).0)
  {
  }

  lemma ClockKept(cfg: Config, sh: Shared, i: nat, w: Worker, ch: Choice)
    requires WorkerMay(cfg, sh, w, ch)
    ensures ClockFrame(sh, w, StepWorker(cfg, sh, i, w, ch).0)
  {
    match w.pc
    case Iterate(at) => IterateClock(cfg, sh, i, w, at, ch);
    case Reopen(at) => ReopenClock(cfg, sh, i, w, at, ch);
    case _ =>
  }

  lemma OwnersKept(s: State, i: nat, sh': Shared, ws': seq<Worker>)
    requires Owners(s) && Guarantee(i, s.sh, sh') && i < |s.ws| == |ws'|
    ensures Owners(s.(sh := sh', ws := ws'))
  {
    if sh'.writer.Some? && sh'.writer.value != i { assert sh'.writer == Some(sh'.writer.value); }
    if sh'.doneMu.Some? && sh'.doneMu.value.WorkerThread? && sh'.doneMu.value.id != i {
      assert sh'.doneMu == Some(WorkerThread(sh'.doneMu.value.id));
    }
  }

  lemma WorkerStepKeeps(cfg: Config, s: State, i: nat, ch: Choice)
    requires Inv(cfg, s) && Enabled(cfg, s, ByWorker(i, ch))
    ensures Inv(cfg, Apply(cfg, s, ByWorker(i, ch)))
  {
    AllReturned(s);
    assert s.ws[i].pc != Return(Done);
    assert Local(cfg, s.sh, i, s.ws[i]);
    var s' := Apply(cfg, s, ByWorker(i, ch));
    WorkersKept(cfg, s, i, ch);
    CountersKept(cfg, s, i, ch);
    ClockKept(cfg, s.sh, i, s.ws[i], ch);
    OwnersKept(s, i, s'.sh, s'.ws);
    if s.ws[i].pc == Return(DoneCrit) { ReleasedByMain(cfg, s); }
    AllReturned(s');
  }

  // ---------------------------------------------------------------- main steps

  /** Only a worker inside a mutation holds the write side. */
  lemma NoWriterLeft(cfg: Config, s: State)
    requires Workers(cfg, s) && Owners(s)
    requires forall i :: 0 <= i < |s.ws| ==> s.ws[i].pc == Return(Done)
    ensures s.sh.writer == None && s.sh.readers == {}
  {
    forall j | 0 <= j < |s.ws| ensures s.sh.writer != Some(j) && j !in s.sh.readers {
      assert Local(cfg, s.sh, j, s.ws[j]);
    }
  }

  lemma MainWorkers(cfg: Config, s: State, ch: Choice)
    requires Inv(cfg, s) && MainMay(cfg, s, ch)
    ensures Workers(cfg, StepMain(cfg, s, ch))
  {
    var s' := StepMain(cfg, s, ch);
    AllReturned(s);
    forall j | 0 <= j < |s.ws| ensures Local(cfg, s'.sh, j, s.ws[j]) {
      assert Local(cfg, s.sh, j, s.ws[j]);
    }
  }

  lemma MainRelease(cfg: Config, s: State, ch: Choice)
    requires Inv(cfg, s) && MainMay(cfg, s, ch)
    ensures Release(cfg, StepMain(cfg, s, ch))
  {
    if s.m.MJoin? { NoWriterLeft(cfg, s); }
  }

  lemma MainCounters(cfg: Config, s: State, ch: Choice)
    requires Inv(cfg, s) && MainMay(cfg, s, ch)
    ensures Owners(StepMain(cfg, s, ch)) && Counters(cfg, StepMain(cfg, s, ch))
  {
  }

  lemma MainStamps(cfg: Config, s: State, ch: Choice)
    requires Inv(cfg, s) && MainMay(cfg, s, ch)
    ensures Stamps(StepMain(cfg, s, ch))
  {
    AllReturned(s);
    if s.m.MStamp? { StampBeforeRelease(cfg, s); }
  }

  lemma MainStepKeeps(cfg: Config, s: State, ch: Choice)
    requires Inv(cfg, s) && Enabled(cfg, s, ByMain(ch))
    ensures Inv(cfg, Apply(cfg, s, ByMain(ch)))
  {
    MainWorkers(cfg, s, ch);
    MainRelease(cfg, s, ch);
    MainCounters(cfg, s, ch);
    MainStamps(cfg, s, ch);
  }

  /** No worker has returned while main is still before the release barrier. */
  lemma StampBeforeRelease(cfg: Config, s: State)
    requires Inv(cfg, s) && !MainArrivedB(s.m)
    ensures s.sh.active == cfg.workers
  {
    forall i | 0 <= i < |s.ws| ensures Unreturned(s.ws[i]) == 1 {
      assert Local(cfg, s.sh, i, s.ws[i]);
      if s.ws[i].pc.Return? { ReleasedByMain(cfg, s); }
    }
    SumConstant(s.ws, Unreturned, 1);
  }

  // ---------------------------------------------------------------- runs

  /** Every step of every thread keeps the invariant. */
  lemma StepKeeps(cfg: Config, s: State, step: Step)
    requires Inv(cfg, s) && Enabled(cfg, s, step)
    ensures Inv(cfg, Apply(cfg, s, step))
  {
    match step
    case ByWorker(i, ch) => WorkerStepKeeps(cfg, s, i, ch);
    case ByMain(ch) => MainStepKeeps(cfg, s, ch);
  }

  lemma {:induction false} RunKeeps(cfg: Config, s: State, steps: seq<Step>)
    requires Inv(cfg, s) && IsRun(cfg, s, steps)
    ensures Inv(cfg, After(cfg, s, steps))
    decreases |steps|
  {
    if steps != [] {
      StepKeeps(cfg, s, steps[0]);
      RunKeeps(cfg, Apply(cfg, s, steps[0]), steps[1..]);
    }
  }
}
