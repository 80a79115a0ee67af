/** Every fairly scheduled run of the harness ends: once its work is bounded, no infinite run
    lets every worker step that can step again and again. */
module HarnessFair {
  import opened Basics
  import opened HarnessModel
  import opened HarnessSafety
  import opened HarnessRun
  import opened HarnessLiveness

  /** An infinite run: the state and the step at every instant. */
  ghost predicate IsInfinite(cfg: Config, at: nat -> State, taken: nat -> Step) {
    forall k: nat :: Enabled(cfg, at(k), taken(k)) && at(k + 1) == Apply(cfg, at(k), taken(k))
  }

  ghost predicate CanStep(cfg: Config, s: State, i: nat) {
    exists ch :: Enabled(cfg, s, ByWorker(i, ch))
  }

  predicate StepsOf(step: Step, i: nat) { step.ByWorker? && step.i == i }

  ghost predicate Later(p: nat -> bool, k: nat) { exists m: nat :: k <= m && p(m) }

  ghost predicate AgainAndAgain(p: nat -> bool) { forall k: nat :: Later(p, k) }

  /** If the worker can step again and again, it does. (Main's poll takes and gives back the
      done mutex, so a worker waiting for it can step only now and then.) */
  ghost predicate FairTo(cfg: Config, at: nat -> State, taken: nat -> Step, i: nat) {
    AgainAndAgain((k: nat) => CanStep(cfg, at(k), i)) ==> AgainAndAgain((k: nat) => StepsOf(taken(k), i))
  }

  ghost predicate Fair(cfg: Config, at: nat -> State, taken: nat -> Step) {
    forall i: nat :: FairTo(cfg, at, taken, i)
  }

  // ---------------------------------------------------------------- the workers come to rest

  lemma {:induction false} StaysBounded(cfg: Config, at: nat -> State, taken: nat -> Step, k: nat, m: nat)
    requires IsInfinite(cfg, at, taken) && k <= m && Inv(cfg, at(k)) && Bounded(cfg, at(k))
    ensures Inv(cfg, at(m)) && Bounded(cfg, at(m)) && Work(cfg, at(m)) <= Work(cfg, at(k))
    decreases m - k
  {
    if k < m {
      StepKeeps(cfg, at(k), taken(k));
      WorkDrops(cfg, at(k), taken(k));
      StaysBounded(cfg, at, taken, k + 1, m);
    }
  }

  /** From some instant on only main steps. */
  lemma {:induction false} WorkersRest(cfg: Config, at: nat -> State, taken: nat -> Step, k: nat) returns (r: nat)
    requires IsInfinite(cfg, at, taken) && Inv(cfg, at(k)) && Bounded(cfg, at(k))
    ensures k <= r && forall m: nat :: r <= m ==> taken(m).ByMain?
    decreases Work(cfg, at(k))
  {
    if m: nat :| k <= m && taken(m).ByWorker? {
      StaysBounded(cfg, at, taken, k, m);
      WorkDrops(cfg, at(m), taken(m));
      StaysBounded(cfg, at, taken, m, m + 1);
      WorkNonNegative(cfg, at(m + 1));
      r := WorkersRest(cfg, at, taken, m + 1);
    } else {
      r := k;
    }
  }

  // ---------------------------------------------------------------- main comes to its poll

  /** Main is in its poll, waiting for a worker that is out. */
  predicate Polls(s: State) { (s.m.MCheck? || s.m.MWait?) && s.sh.active > 0 }

  lemma MainLeaves(cfg: Config, s: State, ch: Choice)
    requires Enabled(cfg, s, ByMain(ch)) && !Polls(s)
    ensures MainRank(StepMain(cfg, s, ch)) < MainRank(s)
  {
  }

  lemma {:induction false} ReachesPoll(cfg: Config, at: nat -> State, taken: nat -> Step, k: nat) returns (p: nat)
    requires IsInfinite(cfg, at, taken) && forall m: nat :: k <= m ==> taken(m).ByMain?
    ensures k <= p && Polls(at(p))
    decreases MainRank(at(k))
  {
    if Polls(at(k)) {
      p := k;
    } else {
      MainLeaves(cfg, at(k), taken(k).ch);
      p := ReachesPoll(cfg, at, taken, k + 1);
    }
  }

  // ---------------------------------------------------------------- a worker is passed over

  /** In the poll main changes nothing but the stop flag, the done mutex and the clock reading. */
  predicate SamePoll(s: State, t: State) {
    && t.ws == s.ws && Polls(t)
    && t.sh == s.sh.(stop := t.sh.stop, doneMu := t.sh.doneMu, clock := t.sh.clock)
    && (t.m.MWait? ==> t.sh.doneMu != Some(MainThread))
  }

  lemma PollStep(cfg: Config, s: State, t: State, ch: Choice)
    requires SamePoll(s, t) && Enabled(cfg, t, ByMain(ch))
    ensures SamePoll(s, StepMain(cfg, t, ch))
    ensures t.m.MCheck? ==> StepMain(cfg, t, ch).m.MWait? && StepMain(cfg, t, ch).sh.doneMu == None
    ensures t.m.MWait? ==> StepMain(cfg, t, ch).m.MCheck?
  {
  }

  lemma {:induction false} StaysInPoll(cfg: Config, at: nat -> State, taken: nat -> Step, p: nat, k: nat)
    requires IsInfinite(cfg, at, taken) && p <= k && SamePoll(at(p), at(p))
    requires forall m: nat :: p <= m ==> taken(m).ByMain?
    ensures SamePoll(at(p), at(k))
    decreases k - p
  {
    if p < k {
      StaysInPoll(cfg, at, taken, p, k - 1);
      PollStep(cfg, at(p), at(k - 1), taken(k - 1).ch);
    }
  }

  /** Main lets go of the done mutex again and again. */
  lemma NextWait(cfg: Config, at: nat -> State, taken: nat -> Step, p: nat, k: nat) returns (w: nat)
    requires IsInfinite(cfg, at, taken) && p <= k && SamePoll(at(p), at(p))
    requires forall m: nat :: p <= m ==> taken(m).ByMain?
    ensures k <= w && SamePoll(at(p), at(w)) && at(w).m.MWait? && at(w).sh.doneMu == None
  {
    StaysInPoll(cfg, at, taken, p, k);
    PollStep(cfg, at(p), at(k), taken(k).ch);
    if at(k).m.MCheck? {
      w := k + 1;
    } else {
      StaysInPoll(cfg, at, taken, p, k + 1);
      PollStep(cfg, at(p), at(k + 1), taken(k + 1).ch);
      w := k + 2;
    }
  }

  /** What one worker can do while main waits, it can do whenever main waits. */
  lemma SameChance(cfg: Config, s: State, t: State, i: nat, ch: Choice) returns (again: Choice)
    requires SamePoll(s, t) && s.m.MWait? && t.m.MWait? && s.sh.doneMu == None && t.sh.doneMu == None
    requires Enabled(cfg, s, ByWorker(i, ch))
    ensures Enabled(cfg, t, ByWorker(i, again))
  {
    again := ch.(time := if ch.time < t.sh.clock then t.sh.clock else ch.time);
    assert t.sh == s.sh.(stop := t.sh.stop, clock := t.sh.clock);
    match s.ws[i].pc
    case Iterate(at) =>
    case Gate(at) =>
    case Rekey(at) =>
    case Reopen(at) =>
    case Return(at) =>
  }

  /** While main waits some worker can step. */
  lemma SomeWorker(cfg: Config, s: State) returns (i: nat, ch: Choice)
    requires Inv(cfg, s) && s.m.MWait? && s.sh.active > 0
    ensures Enabled(cfg, s, ByWorker(i, ch))
  {
    var step := NeverStuck(cfg, s);
    i, ch := step.i, step.ch;
  }

  lemma {:induction false} InvHolds(cfg: Config, at: nat -> State, taken: nat -> Step, k: nat)
    requires IsInfinite(cfg, at, taken) && Inv(cfg, at(0))
    ensures Inv(cfg, at(k))
  {
    if k > 0 {
      InvHolds(cfg, at, taken, k - 1);
      StepKeeps(cfg, at(k - 1), taken(k - 1));
    }
  }

  /** Past the start of the poll, some worker could step again and again. */
  lemma Overtaken(cfg: Config, at: nat -> State, taken: nat -> Step, p: nat) returns (i: nat)
    requires IsInfinite(cfg, at, taken) && Inv(cfg, at(0)) && SamePoll(at(p), at(p))
    requires forall m: nat :: p <= m ==> taken(m).ByMain?
    ensures AgainAndAgain((k: nat) => CanStep(cfg, at(k), i))
  {
    var w := NextWait(cfg, at, taken, p, p);
    InvHolds(cfg, at, taken, w);
    var ch;
    i, ch := SomeWorker(cfg, at(w));
    var can := (k: nat) => CanStep(cfg, at(k), i);
    forall m: nat ensures Later(can, m) {
      var n := NextWait(cfg, at, taken, p, if p <= m then m else p);
      var again := SameChance(cfg, at(w), at(n), i, ch);
      assert can(n);
    }
  }

  /** No fair run goes on for ever: there is no infinite run, from a state of the harness whose
      work is or becomes bounded, that is fair to every worker. With `NoDeadlock`, which lets a
      run stop only where main has returned, every fairly scheduled run ends there. */
  lemma EveryFairRunEnds(cfg: Config, at: nat -> State, taken: nat -> Step, k: nat)
    requires IsInfinite(cfg, at, taken) && Inv(cfg, at(0)) && Bounded(cfg, at(k))
    ensures !Fair(cfg, at, taken)
  {
    InvHolds(cfg, at, taken, k);
    var r := WorkersRest(cfg, at, taken, k);
    var p := ReachesPoll(cfg, at, taken, r);
    InvHolds(cfg, at, taken, p);
    var i := Overtaken(cfg, at, taken, p);
    var does := (m: nat) => StepsOf(taken(m), i);
    assert forall m: nat :: r <= m ==> !does(m);
    assert !Later(does, r);
    assert !FairTo(cfg, at, taken, i);
  }
}
