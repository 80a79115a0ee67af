/** Progress of the harness: no reachable state is stuck, and once the work is bounded, by
    an iteration budget or by a stop request, every run can only go on to its end. */
module HarnessLiveness {
  import opened Basics
  import opened HarnessModel
  import opened HarnessSafety
  import opened HarnessCounts
  import opened HarnessRun

  // ---------------------------------------------------------------- measure

  function IterateRank(at: IterateAt): nat {
    match at
    case Fill => 32 case RdLock => 31 case EncBegin => 30 case EncEnd(_) => 29
    case DecBegin(_, _) => 28 case DecEnd(_, _, _) => 27 case Compare(_, _, _) => 26 case RdUnlock(_) => 25
  }

  function GateRank(at: GateAt): nat {
    match at
    case ArriveA(_) => 24 case WaitA(_) => 23 case ArriveB(_) => 22 case WaitB(_) => 21 case LoopTop => 3
  }

  function RekeyRank(at: RekeyAt): nat {
    match at
    case Draw => 20 case RkLock => 19
    case RkCall(side) => if side == StreamSide then 18 else 16
    case RkStore(side, _) => if side == StreamSide then 17 else 15
    case RkCount => 14 case RkUnlock(_) => 13
  }

  function ReopenRank(at: ReopenAt): nat {
    match at
    case RoLock => 12
    case RoLoad(side) => if side == StreamSide then 11 else 8
    case RoFree(side, _) => if side == StreamSide then 10 else 7
    case RoAssign(side, _) => if side == StreamSide then 9 else 6
    case RoCount => 5 case RoUnlock(_) => 4
  }

  function ReturnRank(at: ReturnAt): nat {
    match at case DoneLock => 2 case DoneCrit => 1 case Done => 0
  }

  /** Steps left inside the present loop iteration, at most. */
  function Rank(pc: PC): nat {
    match pc
    case Iterate(at) => IterateRank(at)
    case Gate(at) => GateRank(at)
    case Rekey(at) => RekeyRank(at)
    case Reopen(at) => ReopenRank(at)
    case Return(at) => ReturnRank(at)
  }

  const ROUND: int := 33

  /** Loop iterations a worker may still start. */
  function Left(cfg: Config, stop: bool, w: Worker): int {
    if stop || w.pc.Return? then 0
    else if w.pc == Gate(LoopTop) then cfg.iterations - w.iter
    else cfg.iterations - w.iter - 1
  }

  function Cost(cfg: Config, stop: bool, w: Worker): int { Left(cfg, stop, w) * ROUND + Rank(w.pc) }

  function CostTerm(cfg: Config, stop: bool): Worker -> int { (w: Worker) => Cost(cfg, stop, w) }

  /** Worker steps left, at most. */
  function Work(cfg: Config, s: State): int { Sum(s.ws, CostTerm(cfg, s.sh.stop)) }

  /** The work ahead is bounded: by the iteration budget, or because a stop was requested. */
  predicate Bounded(cfg: Config, s: State) { cfg.iterations > 0 || s.sh.stop }

  lemma CostNonNegative(cfg: Config, sh: Shared, w: Worker)
    requires PhaseLocal(cfg, sh, w) && (cfg.iterations > 0 || sh.stop)
    ensures 0 <= Cost(cfg, sh.stop, w)
  {
  }

  lemma IterateDrops(cfg: Config, sh: Shared, i: nat, w: Worker, at: IterateAt, ch: Choice)
    requires w.pc == Iterate(at) && PhaseLocal(cfg, sh, w) && (cfg.iterations > 0 || sh.stop)
    requires !StepIterate(cfg, sh, i, w, at, ch).0.mismatch
    ensures var (sh', w') := StepIterate(cfg, sh, i, w, at, ch); Cost(cfg, sh.stop, w') < Cost(cfg, sh.stop, w)
  {
  }

  lemma RekeyDrops(cfg: Config, sh: Shared, i: nat, w: Worker, at: RekeyAt, ch: Choice)
    requires w.pc == Rekey(at) && PhaseLocal(cfg, sh, w) && (cfg.iterations > 0 || sh.stop)
    ensures var (sh', w') := StepRekey(cfg, sh, i, w, at, ch); Cost(cfg, sh.stop, w') < Cost(cfg, sh.stop, w)
  {
  }

  lemma ReopenDrops(cfg: Config, sh: Shared, i: nat, w: Worker, at: ReopenAt, ch: Choice)
    requires w.pc == Reopen(at) && PhaseLocal(cfg, sh, w) && (cfg.iterations > 0 || sh.stop)
    ensures var (sh', w') := StepReopen(cfg, sh, i, w, at, ch); Cost(cfg, sh.stop, w') < Cost(cfg, sh.stop, w)
  {
  }

  /** Every step of a worker uses up some of its work. */
  lemma StepDrops(cfg: Config, sh: Shared, i: nat, w: Worker, ch: Choice)
    requires PhaseLocal(cfg, sh, w) && WorkerMay(cfg, sh, w, ch) && (cfg.iterations > 0 || sh.stop)
    requires !StepWorker(cfg, sh, i, w, ch).0.mismatch
    ensures var (sh', w') := StepWorker(cfg, sh, i, w, ch); Cost(cfg, sh.stop, w') < Cost(cfg, sh.stop, w)
  {
    match w.pc
    case Iterate(at) => IterateDrops(cfg, sh, i, w, at, ch);
    case Gate(at) =>
    case Rekey(at) => RekeyDrops(cfg, sh, i, w, at, ch);
    case Reopen(at) => ReopenDrops(cfg, sh, i, w, at, ch);
    case Return(at) =>
  }

  /** A stop request only removes work. */
  lemma {:induction false} StopRemovesWork(cfg: Config, sh: Shared, ws: seq<Worker>)
    requires forall i :: 0 <= i < |ws| ==> cfg.iterations > 0 ==> PhaseLocal(cfg, sh, ws[i])
    requires cfg.iterations > 0
    ensures Sum(ws, CostTerm(cfg, true)) <= Sum(ws, CostTerm(cfg, false))
  {
    if ws != [] {
      assert forall i :: 0 <= i < |ws[1..]| ==> ws[1..][i] == ws[i + 1];
      StopRemovesWork(cfg, sh, ws[1..]);
    }
  }

  lemma WorkNonNegative(cfg: Config, s: State)
    requires Inv(cfg, s) && Bounded(cfg, s)
    ensures Work(cfg, s) >= 0
  {
    forall i | 0 <= i < |s.ws| ensures CostTerm(cfg, s.sh.stop)(s.ws[i]) >= 0 {
      assert Local(cfg, s.sh, i, s.ws[i]);
      CostNonNegative(cfg, s.sh, s.ws[i]);
    }
    SumNonNegative(s.ws, CostTerm(cfg, s.sh.stop));
  }

  /** Worker steps use up work; main steps never add any. */
  lemma WorkDrops(cfg: Config, s: State, step: Step)
    requires Inv(cfg, s) && Bounded(cfg, s) && Enabled(cfg, s, step)
    ensures var s' := Apply(cfg, s, step);
            Bounded(cfg, s') && Work(cfg, s') <= Work(cfg, s) - (if step.ByWorker? then 1 else 0)
  {
    StepKeeps(cfg, s, step);
    var s' := Apply(cfg, s, step);
    if step.ByWorker? {
      var (sh', w') := StepWorker(cfg, s.sh, step.i, s.ws[step.i], step.ch);
      assert Local(cfg, s.sh, step.i, s.ws[step.i]);
      assert !sh'.mismatch;
      StepDrops(cfg, s.sh, step.i, s.ws[step.i], step.ch);
      StepTracks(cfg, s.sh, step.i, s.ws[step.i], step.ch);
      SumUpdate(s.ws, step.i, w', CostTerm(cfg, s.sh.stop));
    }
    if s'.sh.stop && !s.sh.stop {
      forall i | 0 <= i < |s'.ws| ensures PhaseLocal(cfg, s'.sh, s'.ws[i]) {
        assert Local(cfg, s'.sh, i, s'.ws[i]);
      }
      StopRemovesWork(cfg, s'.sh, s'.ws);
    }
  }

  function WorkerSteps(steps: seq<Step>): nat {
    if steps == [] then 0 else (if steps[0].ByWorker? then 1 else 0) + WorkerSteps(steps[1..])
  }

  lemma {:induction false} WorkIsSpent(cfg: Config, s: State, steps: seq<Step>)
    requires Inv(cfg, s) && Bounded(cfg, s) && IsRun(cfg, s, steps)
    ensures WorkerSteps(steps) <= Work(cfg, s)
    decreases |steps|
  {
    WorkNonNegative(cfg, s);
    if steps != [] {
      StepKeeps(cfg, s, steps[0]);
      WorkDrops(cfg, s, steps[0]);
      WorkIsSpent(cfg, Apply(cfg, s, steps[0]), steps[1..]);
    }
  }

  /** With an iteration budget the workers take a bounded number of steps in any run, so no
      schedule keeps them going for ever. */
  lemma BoundedWork(cfg: Config, s0: State, steps: seq<Step>)
    requires Initial(cfg, s0) && Ideal(cfg.cipher) && cfg.iterations >= 1 && IsRun(cfg, s0, steps)
    ensures WorkerSteps(steps) <= cfg.workers * (ROUND * cfg.iterations - 1)
  {
    InitialInv(cfg, s0);
    WorkIsSpent(cfg, s0, steps);
    SumConstant(s0.ws, CostTerm(cfg, false), ROUND * cfg.iterations - 1);
  }

  // ---------------------------------------------------------------- some step is always possible

  /** A handle the library does not have open. */
  ghost function Above(hs: set<Handle>): (h: Handle)
    ensures forall x :: x in hs ==> x < h
  {
    if hs == {} then 0
    else
      var x :| x in hs;
      var h := Above(hs - {x});
      assert forall y :: y in hs ==> y == x || y in hs - {x};
      if x < h then h else x + 1
  }

  /** The environment answers every call with success. */
  ghost function Smooth(s: State, plain: Bytes): Choice {
    Choice(true, 0, plain, [], Above(s.sh.hs.live.Keys), s.sh.clock, false)
  }

  /** The worker may have to wait here. */
  predicate Blocking(pc: PC) {
    pc == Iterate(RdLock) || (pc.Gate? && (pc.gate.WaitA? || pc.gate.WaitB?)) || Queued(pc) ||
    pc == Return(DoneLock) || pc == Return(Done)
  }

  predicate AllBlocking(s: State) { forall i :: 0 <= i < |s.ws| ==> Blocking(s.ws[i].pc) }

  lemma FreeStep(cfg: Config, s: State, i: nat)
    requires i < |s.ws| && !s.sh.mismatch && !Blocking(s.ws[i].pc)
    ensures Enabled(cfg, s, ByWorker(i, Smooth(s, s.ws[i].plain)))
  {
    match s.ws[i].pc
    case Iterate(at) =>
    case Gate(at) =>
    case Rekey(at) =>
    case Reopen(at) =>
    case Return(at) =>
  }

  function OwnerId(owner: Option<Thread>): nat {
    match owner
    case Some(WorkerThread(id)) => id
    case _ => 0
  }

  /** With every worker at a waiting point, no worker holds a lock. */
  lemma NobodyHolds(cfg: Config, s: State)
    requires Workers(cfg, s) && Owners(s) && AllBlocking(s)
    ensures s.sh.writer == None && s.sh.readers == {}
    ensures s.sh.doneMu == None || s.m.MCheck? || s.m.MUnlock?
  {
    forall i: nat ensures s.sh.writer != Some(i) && i !in s.sh.readers && s.sh.doneMu != Some(WorkerThread(i)) {
      if i < |s.ws| {
        assert Local(cfg, s.sh, i, s.ws[i]) && Blocking(s.ws[i].pc);
      }
    }
    assert s.sh.doneMu != Some(WorkerThread(OwnerId(s.sh.doneMu)));
  }

  predicate AtBarrier(pc: PC) { pc.Gate? && (pc.gate.WaitA? || pc.gate.WaitB?) }

  /** Every worker waits at a barrier or has returned. */
  predicate AllWaiting(s: State) {
    forall i :: 0 <= i < |s.ws| ==> AtBarrier(s.ws[i].pc) || s.ws[i].pc == Return(Done)
  }

  /** Then the warmup barrier is full up to main, and the release barrier as well once nobody
      is left at the warmup barrier. */
  lemma BarriersFull(cfg: Config, s: State)
    requires Counters(cfg, s) && |s.ws| == cfg.workers && AllWaiting(s)
    ensures s.sh.arrivedA == cfg.workers + (if s.m.MArriveA? then 0 else 1)
    ensures (forall i :: 0 <= i < |s.ws| ==> !(s.ws[i].pc.Gate? && s.ws[i].pc.gate.WaitA?)) ==>
            s.sh.arrivedB == cfg.workers + (if MainArrivedB(s.m) then 1 else 0)
  {
    SumConstant(s.ws, PassedA, 1);
    if forall i :: 0 <= i < |s.ws| ==> !(s.ws[i].pc.Gate? && s.ws[i].pc.gate.WaitA?) {
      SumConstant(s.ws, PassedB, 1);
    }
  }

  /** Main's way to the end; waiting counts down only while a worker is out. */
  function MainRank(s: State): nat {
    match s.m
    case MArriveA => 20 case MWaitA => 19 case MStamp => 18 case MArriveB => 17 case MWaitB => 16 case MLock => 15
    case MCheck => if s.sh.active > 0 then 11 else 8
    case MWait => if s.sh.active > 0 then 10 else 9
    case MUnlock => 7 case MJoin => 6
    case MFree(side) => if side == StreamSide then 5 else 4
    case MFinal => 0
  }

  /** The step moves the run on: some work is used up, or main gets nearer its end. */
  predicate Advances(cfg: Config, s: State, step: Step)
    requires Enabled(cfg, s, step)
  {
    step.ByWorker? || MainRank(Apply(cfg, s, step)) < MainRank(s)
  }

  /** While main is out of the poll, or nobody is left to wait for, its step moves it on. */
  lemma MainAdvances(cfg: Config, s: State, ch: Choice)
    requires Enabled(cfg, s, ByMain(ch)) && (s.m.MWait? ==> s.sh.active <= 0)
    ensures Advances(cfg, s, ByMain(ch))
  {
  }

  /** A worker at the lock or the done mutex, or main holding that mutex, can go on. */
  lemma LockStep(cfg: Config, s: State) returns (step: Step)
    requires Inv(cfg, s) && !s.sh.mismatch && AllBlocking(s) && !AllWaiting(s)
    ensures Enabled(cfg, s, step) && Advances(cfg, s, step)
  {
    NobodyHolds(cfg, s);
    if WriterQueued(s) {
      var i :| 0 <= i < |s.ws| && Queued(s.ws[i].pc);
      return ByWorker(i, Smooth(s, s.ws[i].plain));
    }
    var i :| 0 <= i < |s.ws| && !AtBarrier(s.ws[i].pc) && s.ws[i].pc != Return(Done);
    assert Blocking(s.ws[i].pc);
    if s.ws[i].pc == Return(DoneLock) && s.sh.doneMu != None {
      step := ByMain(Smooth(s, []));
      MainAdvances(cfg, s, step.ch);
      return;
    }
    return ByWorker(i, Smooth(s, s.ws[i].plain));
  }

  /** With everybody at the barriers or returned, a barrier opens or main goes on. */
  lemma BarrierStep(cfg: Config, s: State) returns (step: Step)
    requires Inv(cfg, s) && !s.sh.mismatch && AllWaiting(s) && !Final(s)
    ensures Enabled(cfg, s, step) && Advances(cfg, s, step)
  {
    NobodyHolds(cfg, s);
    BarriersFull(cfg, s);
    AllReturned(s);
    step := ByMain(Smooth(s, []));
    if !s.m.MArriveA? && exists i :: 0 <= i < |s.ws| && s.ws[i].pc.Gate? && s.ws[i].pc.gate.WaitA? {
      var i :| 0 <= i < |s.ws| && s.ws[i].pc.Gate? && s.ws[i].pc.gate.WaitA?;
      return ByWorker(i, Smooth(s, s.ws[i].plain));
    }
    if MainArrivedB(s.m) && exists i :: 0 <= i < |s.ws| && s.ws[i].pc.Gate? && s.ws[i].pc.gate.WaitB? {
      var i :| 0 <= i < |s.ws| && s.ws[i].pc.Gate? && s.ws[i].pc.gate.WaitB?;
      return ByWorker(i, Smooth(s, s.ws[i].plain));
    }
    if MainArrivedB(s.m) {
      forall i | 0 <= i < |s.ws| ensures s.ws[i].pc == Return(Done) {
        assert AtBarrier(s.ws[i].pc) || s.ws[i].pc == Return(Done);
      }
    }
    MainAdvances(cfg, s, step.ch);
  }

  lemma NeverStuck(cfg: Config, s: State) returns (step: Step)
    requires Inv(cfg, s) && !Final(s)
    ensures Enabled(cfg, s, step) && Advances(cfg, s, step)
  {
    assert !s.sh.mismatch;
    if i :| 0 <= i < |s.ws| && !Blocking(s.ws[i].pc) {
      FreeStep(cfg, s, i);
      return ByWorker(i, Smooth(s, s.ws[i].plain));
    }
    if AllWaiting(s) {
      step := BarrierStep(cfg, s);
    } else {
      step := LockStep(cfg, s);
    }
  }

  lemma {:induction false} CanFinish(cfg: Config, s: State) returns (steps: seq<Step>)
    requires Inv(cfg, s) && Bounded(cfg, s)
    ensures IsRun(cfg, s, steps) && Final(After(cfg, s, steps))
    decreases Work(cfg, s), MainRank(s)
  {
    WorkNonNegative(cfg, s);
    if Final(s) { return []; }
    var step := NeverStuck(cfg, s);
    StepKeeps(cfg, s, step);
    WorkDrops(cfg, s, step);
    var s' := Apply(cfg, s, step);
    WorkNonNegative(cfg, s');
    var rest := CanFinish(cfg, s');
    steps := [step] + rest;
    assert steps[1..] == rest;
  }

  /** No deadlock: in every reachable state that is not final some thread can take a step that
      moves the run on, in every mode and under either rwlock policy. */
  lemma NoDeadlock(cfg: Config, s0: State, steps: seq<Step>) returns (step: Step)
    requires Initial(cfg, s0) && Ideal(cfg.cipher) && IsRun(cfg, s0, steps) && !Final(After(cfg, s0, steps))
    ensures Enabled(cfg, After(cfg, s0, steps), step) && Advances(cfg, After(cfg, s0, steps), step)
  {
    InitialInv(cfg, s0);
    RunKeeps(cfg, s0, steps);
    step := NeverStuck(cfg, After(cfg, s0, steps));
  }

  // ---------------------------------------------------------------- the stop can always come

  /** Every step but that of the loop head brings a worker nearer the end of its iteration. */
  lemma RankDrops(cfg: Config, sh: Shared, i: nat, w: Worker, ch: Choice)
    requires WorkerMay(cfg, sh, w, ch) && w.pc != Gate(LoopTop) && !StepWorker(cfg, sh, i, w, ch).0.mismatch
    ensures Rank(StepWorker(cfg, sh, i, w, ch).1.pc) < Rank(w.pc)
  {
    match w.pc
    case Iterate(at) => IterateRankDrops(cfg, sh, i, w, at, ch);
    case Gate(at) =>
    case Rekey(at) => RekeyRankDrops(cfg, sh, i, w, at, ch);
    case Reopen(at) => ReopenRankDrops(cfg, sh, i, w, at, ch);
    case Return(at) =>
  }

  lemma IterateRankDrops(cfg: Config, sh: Shared, i: nat, w: Worker, at: IterateAt, ch: Choice)
    requires w.pc == Iterate(at) && !StepIterate(cfg, sh, i, w, at, ch).0.mismatch
    ensures Rank(StepIterate(cfg, sh, i, w, at, ch).1.pc) < Rank(w.pc)
  {
  }

  lemma RekeyRankDrops(cfg: Config, sh: Shared, i: nat, w: Worker, at: RekeyAt, ch: Choice)
    requires w.pc == Rekey(at)
    ensures Rank(StepRekey(cfg, sh, i, w, at, ch).1.pc) < Rank(w.pc)
  {
  }

  lemma ReopenRankDrops(cfg: Config, sh: Shared, i: nat, w: Worker, at: ReopenAt, ch: Choice)
    requires w.pc == Reopen(at)
    ensures Rank(StepReopen(cfg, sh, i, w, at, ch).1.pc) < Rank(w.pc)
  {
  }

  const RANK_OF: Worker -> int := (w: Worker) => Rank(w.pc)

  function RankSum(s: State): int { Sum(s.ws, RANK_OF) }

  predicate AtHead(s: State, i: nat) { i < |s.ws| && s.ws[i].pc == Gate(LoopTop) }

  /** The step brings some worker nearer the end of its iteration, or main nearer its end. */
  predicate Approaches(cfg: Config, s: State, step: Step)
    requires Enabled(cfg, s, step)
  {
    if step.ByWorker? then !AtHead(s, step.i) else MainRank(Apply(cfg, s, step)) < MainRank(s)
  }

  lemma RankSumDrops(cfg: Config, s: State, step: Step)
    requires Inv(cfg, s) && Enabled(cfg, s, step) && Approaches(cfg, s, step)
    ensures var s' := Apply(cfg, s, step);
            0 <= RankSum(s') <= RankSum(s) &&
            if step.ByWorker? then RankSum(s') < RankSum(s) else MainRank(s') < MainRank(s)
  {
    var s' := Apply(cfg, s, step);
    StepKeeps(cfg, s, step);
    assert !s'.sh.mismatch;
    SumNonNegative(s'.ws, RANK_OF);
    if step.ByWorker? {
      RankDrops(cfg, s.sh, step.i, s.ws[step.i], step.ch);
      SumUpdate(s.ws, step.i, s'.ws[step.i], RANK_OF);
    } else {
      assert s'.ws == s.ws;
    }
  }

  /** While a worker stands at the head of the loop, main is on its way to the poll or in it, and
      only a returning worker can hold it up. */
  lemma TowardsPoll(cfg: Config, s: State, i: nat) returns (step: Step)
    requires Inv(cfg, s) && AtHead(s, i) && !s.m.MCheck? && !(s.m.MWait? && s.sh.doneMu == None)
    ensures Enabled(cfg, s, step) && Approaches(cfg, s, step)
  {
    assert Local(cfg, s.sh, i, s.ws[i]);
    ReleasedByMain(cfg, s);
    AllReturned(s);
    if s.sh.doneMu.Some? {
      var id := OwnerId(s.sh.doneMu);
      assert Local(cfg, s.sh, id, s.ws[id]);
      step := ByWorker(id, Smooth(s, []));
    } else {
      step := ByMain(Smooth(s, []));
    }
  }

  /** A signal in the poll. */
  function Signal(s: State): Choice { Choice(true, 0, [], [], 0, s.sh.clock, true) }

  /** Out of its wait main can go on to request the stop. */
  lemma StopInPoll(cfg: Config, s: State) returns (steps: seq<Step>)
    requires !s.sh.mismatch && s.m.MWait? && s.sh.doneMu == None && s.sh.active > 0
    ensures IsRun(cfg, s, steps) && After(cfg, s, steps).sh.stop
  {
    var wake := ByMain(Signal(s));
    var t := Apply(cfg, s, wake);
    var ask := ByMain(Signal(t));
    assert t.m.MCheck? && Apply(cfg, t, ask).sh.stop;
    assert IsRun(cfg, Apply(cfg, t, ask), []) && [ask][1..] == [];
    assert IsRun(cfg, t, [ask]) && After(cfg, t, [ask]) == Apply(cfg, t, ask);
    steps := [wake, ask];
    assert steps[1..] == [ask];
  }

  /** In every mode, from every state, the run can come to a stop request, unless it has a budget
      or is over anyway. */
  lemma {:induction false} CanBound(cfg: Config, s: State) returns (steps: seq<Step>)
    requires Inv(cfg, s)
    ensures IsRun(cfg, s, steps) && (Bounded(cfg, After(cfg, s, steps)) || Final(After(cfg, s, steps)))
    decreases RankSum(s), MainRank(s)
  {
    SumNonNegative(s.ws, RANK_OF);
    if Bounded(cfg, s) || Final(s) { return []; }
    if s.m.MCheck? && s.sh.active > 0 { return [ByMain(Signal(s))]; }
    if s.m.MWait? && s.sh.doneMu == None && s.sh.active > 0 {
      steps := StopInPoll(cfg, s);
      return;
    }
    AllReturned(s);
    var step;
    if i: nat :| AtHead(s, i) {
      step := TowardsPoll(cfg, s, i);
    } else {
      step := NeverStuck(cfg, s);
    }
    StepKeeps(cfg, s, step);
    RankSumDrops(cfg, s, step);
    var rest := CanBound(cfg, Apply(cfg, s, step));
    steps := [step] + rest;
    assert steps[1..] == rest;
  }

  /** A run and a continuation of it are one run. */
  lemma {:induction false} Joined(cfg: Config, s: State, a: seq<Step>, b: seq<Step>)
    requires IsRun(cfg, s, a) && IsRun(cfg, After(cfg, s, a), b)
    ensures IsRun(cfg, s, a + b) && After(cfg, s, a + b) == After(cfg, After(cfg, s, a), b)
    decreases |a|
  {
    if a == [] {
      assert a + b == b;
    } else {
      assert (a + b)[1..] == a[1..] + b;
      Joined(cfg, Apply(cfg, s, a[0]), a[1..], b);
    }
  }

  /** No trap: in every mode, with or without a budget, every run can be continued to main's
      return. */
  lemma EveryRunCanFinish(cfg: Config, s0: State, steps: seq<Step>) returns (rest: seq<Step>)
    requires Initial(cfg, s0) && Ideal(cfg.cipher) && IsRun(cfg, s0, steps)
    ensures IsRun(cfg, After(cfg, s0, steps), rest) && Final(After(cfg, After(cfg, s0, steps), rest))
  {
    InitialInv(cfg, s0);
    RunKeeps(cfg, s0, steps);
    var s := After(cfg, s0, steps);
    rest := CanBound(cfg, s);
    var t := After(cfg, s, rest);
    RunKeeps(cfg, s, rest);
    if !Final(t) {
      var more := CanFinish(cfg, t);
      Joined(cfg, s, rest, more);
      rest := rest + more;
    }
  }
}
