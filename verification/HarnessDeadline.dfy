/** A run without a budget ends at its deadline: there is no infinite run that is fair to every
    thread while the clock goes on. */
module HarnessDeadline {
  import opened Basics
  import opened HarnessModel
  import opened HarnessSafety
  import opened HarnessCounts
  import opened HarnessRun
  import opened HarnessLiveness
  import opened HarnessFair

  ghost predicate MainCan(cfg: Config, s: State) { exists ch :: Enabled(cfg, s, ByMain(ch)) }

  /** If main can step again and again, it does. */
  ghost predicate FairToMain(cfg: Config, at: nat -> State, taken: nat -> Step) {
    AgainAndAgain((k: nat) => MainCan(cfg, at(k))) ==> AgainAndAgain((k: nat) => taken(k).ByMain?)
  }

  /** Whatever the instant, the clock main reads in its poll is past it in the end. */
  ghost predicate TimePasses(at: nat -> State, taken: nat -> Step) {
    forall t: int :: GetsPast(at, taken, t)
  }

  ghost predicate GetsPast(at: nat -> State, taken: nat -> Step, t: int) {
    exists k: nat :: PastFrom(at, taken, k, t)
  }

  ghost predicate PastFrom(at: nat -> State, taken: nat -> Step, k: nat, t: int) {
    forall m: nat :: k <= m && at(m).m.MCheck? && taken(m).ByMain? ==> taken(m).ch.time >= t
  }

  /** Nothing bounds the run: it has no budget and is never asked to stop. */
  ghost predicate Endless(cfg: Config, at: nat -> State) {
    cfg.iterations == 0 && forall k: nat :: !at(k).sh.stop
  }

  lemma StillOut(cfg: Config, sh: Shared, i: nat, w: Worker)
    requires Local(cfg, sh, i, w) && cfg.iterations == 0 && !sh.stop
    ensures !w.pc.Return? && sh.doneMu != Some(WorkerThread(i))
  {
  }

  /** As long as nothing bounds the run, no worker is on its way out. */
  lemma NobodyReturns(cfg: Config, s: State)
    requires Inv(cfg, s) && cfg.iterations == 0 && !s.sh.stop
    ensures s.sh.active == cfg.workers > 0
    ensures s.sh.doneMu == None || s.m.MCheck? || s.m.MUnlock?
  {
    forall i: nat | i < |s.ws| ensures Unreturned(s.ws[i]) == 1 && s.sh.doneMu != Some(WorkerThread(i)) {
      StillOut(cfg, s.sh, i, s.ws[i]);
    }
    SumConstant(s.ws, Unreturned, 1);
    assert s.sh.doneMu != Some(WorkerThread(OwnerId(s.sh.doneMu)));
  }

  /** Main waits for arrivals at a barrier. */
  predicate AtMainBarrier(m: MainPC) { m.MWaitA? || m.MWaitB? }

  /** Away from the barriers main can always step. */
  lemma MainFree(cfg: Config, s: State)
    requires Inv(cfg, s) && cfg.iterations == 0 && !s.sh.stop && !AtMainBarrier(s.m)
    ensures MainCan(cfg, s)
  {
    NobodyReturns(cfg, s);
    assert Enabled(cfg, s, ByMain(Smooth(s, [])));
  }

  /** While main cannot pass its barrier every worker is still in its warmup, and each step brings
      it nearer the barriers. */
  lemma WarmupDrops(cfg: Config, s: State, step: Step)
    requires Inv(cfg, s) && AtMainBarrier(s.m) && !MainCan(cfg, s) && Enabled(cfg, s, step) && step.ByWorker?
    ensures 0 <= RankSum(Apply(cfg, s, step)) < RankSum(s)
  {
    InWarmupYet(cfg, s, step.i);
    RankSumDrops(cfg, s, step);
  }

  /** No worker is past the release barrier while main cannot pass its own. */
  lemma InWarmupYet(cfg: Config, s: State, i: nat)
    requires Inv(cfg, s) && AtMainBarrier(s.m) && !MainCan(cfg, s)
    ensures !AtHead(s, i)
  {
    if AtHead(s, i) {
      assert Local(cfg, s.sh, i, s.ws[i]);
      ReleasedByMain(cfg, s);
      assert Enabled(cfg, s, ByMain(Smooth(s, [])));
    }
  }

  /** Main comes to be able to step. */
  lemma {:induction false} MainCanSoon(cfg: Config, at: nat -> State, taken: nat -> Step, k: nat) returns (n: nat)
    requires IsInfinite(cfg, at, taken) && Inv(cfg, at(k)) && AtMainBarrier(at(k).m)
    ensures k <= n && (MainCan(cfg, at(n)) || taken(n).ByMain?)
    decreases RankSum(at(k))
  {
    SumNonNegative(at(k).ws, RANK_OF);
    if MainCan(cfg, at(k)) || taken(k).ByMain? {
      n := k;
    } else {
      StepKeeps(cfg, at(k), taken(k));
      WarmupDrops(cfg, at(k), taken(k));
      n := MainCanSoon(cfg, at, taken, k + 1);
    }
  }

  /** Main steps later, or else can step again and again. */
  lemma MainCanAgain(cfg: Config, at: nat -> State, taken: nat -> Step, k: nat)
    requires IsInfinite(cfg, at, taken) && Inv(cfg, at(0)) && Endless(cfg, at)
    ensures Later((j: nat) => taken(j).ByMain?, k) || AgainAndAgain((j: nat) => MainCan(cfg, at(j)))
  {
    var does := (j: nat) => taken(j).ByMain?;
    var can := (j: nat) => MainCan(cfg, at(j));
    forall j: nat ensures Later(does, k) || Later(can, j) {
      var from := if j < k then k else j;
      InvHolds(cfg, at, taken, from);
      var found := from;
      if AtMainBarrier(at(from).m) { found := MainCanSoon(cfg, at, taken, from); } else { MainFree(cfg, at(from)); }
      assert can(found) || does(found);
    }
  }

  /** Main steps again and again. */
  lemma MainSteps(cfg: Config, at: nat -> State, taken: nat -> Step, k: nat) returns (n: nat)
    requires IsInfinite(cfg, at, taken) && Inv(cfg, at(0)) && Endless(cfg, at) && FairToMain(cfg, at, taken)
    ensures k <= n && taken(n).ByMain?
  {
    var does := (j: nat) => taken(j).ByMain?;
    MainCanAgain(cfg, at, taken, k);
    assert Later(does, k);
    n :| k <= n && does(n);
  }

  /** The first step of main from `k` on. */
  lemma {:induction false} NextMain(cfg: Config, at: nat -> State, taken: nat -> Step, k: nat, n: nat) returns (f: nat)
    requires IsInfinite(cfg, at, taken) && k <= n && taken(n).ByMain?
    ensures k <= f && taken(f).ByMain? && at(f).m == at(k).m
    decreases n - k
  {
    if taken(k).ByMain? { f := k; } else { f := NextMain(cfg, at, taken, k + 1, n); }
  }

  function Way(m: MainPC): nat {
    match m
    case MArriveA => 7 case MWaitA => 6 case MStamp => 5 case MArriveB => 4 case MWaitB => 3 case MLock => 2
    case MWait => 1
    case _ => 0
  }

  /** Main's step on the way to its check. */
  lemma WayDrops(cfg: Config, s: State, ch: Choice)
    requires Inv(cfg, s) && cfg.iterations == 0 && !s.sh.stop && Enabled(cfg, s, ByMain(ch)) && !s.m.MCheck?
    ensures Way(StepMain(cfg, s, ch).m) < Way(s.m)
  {
    NobodyReturns(cfg, s);
  }

  /** Main comes to the check of its poll again and again. */
  lemma {:induction false} NextCheck(cfg: Config, at: nat -> State, taken: nat -> Step, k: nat) returns (f: nat)
    requires IsInfinite(cfg, at, taken) && Inv(cfg, at(0)) && Endless(cfg, at) && FairToMain(cfg, at, taken)
    ensures k <= f && taken(f).ByMain? && at(f).m.MCheck? && at(f).sh.active > 0
    decreases Way(at(k).m)
  {
    var n := MainSteps(cfg, at, taken, k);
    f := NextMain(cfg, at, taken, k, n);
    InvHolds(cfg, at, taken, f);
    if at(f).m.MCheck? {
      NobodyReturns(cfg, at(f));
    } else {
      WayDrops(cfg, at(f), taken(f).ch);
      f := NextCheck(cfg, at, taken, f + 1);
    }
  }

  /** Once stamped, the start does not change any more. */
  lemma StartKept(cfg: Config, s: State, step: Step)
    requires Enabled(cfg, s, step) && MainArrivedB(s.m)
    ensures Apply(cfg, s, step).sh.startNs == s.sh.startNs && MainArrivedB(Apply(cfg, s, step).m)
  {
    if step.ByWorker? { ClockKept(cfg, s.sh, step.i, s.ws[step.i], step.ch); }
  }

  lemma {:induction false} StartStays(cfg: Config, at: nat -> State, taken: nat -> Step, k: nat, n: nat)
    requires IsInfinite(cfg, at, taken) && k <= n && MainArrivedB(at(k).m)
    ensures at(n).sh.startNs == at(k).sh.startNs && MainArrivedB(at(n).m)
    decreases n - k
  {
    if k < n {
      StartStays(cfg, at, taken, k, n - 1);
      StartKept(cfg, at(n - 1), taken(n - 1));
    }
  }

  /** Past the deadline main's check turns into the stop request. */
  lemma LateCheck(cfg: Config, s: State, ch: Choice)
    requires Enabled(cfg, s, ByMain(ch)) && s.m.MCheck? && s.sh.active > 0
    requires cfg.iterations == 0 && ch.time >= s.sh.startNs + cfg.duration
    ensures StepMain(cfg, s, ch).sh.stop
  {
  }

  /** A run that is fair to main while the clock goes on comes to be bounded: by its budget, by an
      error or a signal, or else by the deadline. */
  lemma ComesToStop(cfg: Config, at: nat -> State, taken: nat -> Step) returns (k: nat)
    requires IsInfinite(cfg, at, taken) && Inv(cfg, at(0)) && TimePasses(at, taken) && FairToMain(cfg, at, taken)
    ensures Bounded(cfg, at(k))
  {
    if n: nat :| Bounded(cfg, at(n)) {
      k := n;
    } else {
      assert cfg.iterations == 0 by { assert !Bounded(cfg, at(0)); }
      forall n: nat ensures !at(n).sh.stop { assert !Bounded(cfg, at(n)); }
      var f := NextCheck(cfg, at, taken, 0);
      var t := at(f).sh.startNs + cfg.duration;
      assert GetsPast(at, taken, t);
      var late: nat :| PastFrom(at, taken, late, t);
      var g := NextCheck(cfg, at, taken, if f < late then late else f);
      StartStays(cfg, at, taken, f, g);
      LateCheck(cfg, at(g), taken(g).ch);
      k := g + 1;
    }
  }

  /** In every mode, no infinite run is fair to every thread while the clock goes on: with an
      iteration budget the work runs out, and without one the deadline comes. */
  lemma EveryTimedRunEnds(cfg: Config, at: nat -> State, taken: nat -> Step)
    requires IsInfinite(cfg, at, taken) && Inv(cfg, at(0)) && TimePasses(at, taken)
    ensures !(Fair(cfg, at, taken) && FairToMain(cfg, at, taken))
  {
    if FairToMain(cfg, at, taken) {
      var k := ComesToStop(cfg, at, taken);
      EveryFairRunEnds(cfg, at, taken, k);
    }
  }
}
