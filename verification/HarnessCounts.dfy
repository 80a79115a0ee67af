/** How the shared counters of the harness follow the workers: barrier arrivals, the
    active count, and the two maintenance counters, step by step. */
module HarnessCounts {
  import opened Basics
  import opened HarnessModel
  import opened HarnessSafety

  /** Number of multiples of `every` among 1 .. iter-1; zero when the interval is zero. */
  function Multiples(every: nat, iter: nat): nat {
    if every == 0 || iter <= 1 then 0
    else Multiples(every, iter - 1) + (if (iter - 1) % every == 0 then 1 else 0)
  }

  /** In closed form: the quotient. */
  lemma {:induction false} MultiplesQuotient(every: nat, iter: nat)
    requires every > 0 && iter >= 1
    ensures Multiples(every, iter) == (iter - 1) / every
  {
    if iter == 1 {
      Quotient(0, every, 0, 0);
    } else {
      MultiplesQuotient(every, iter - 1);
      QuotientNext(iter - 2, every);
    }
  }

  lemma QuotientNext(n: nat, d: nat)
    requires d > 0
    ensures (n + 1) / d == n / d + (if (n + 1) % d == 0 then 1 else 0)
  {
    var q, r := n / d, n % d;
    assert n == d * q + r;
    if r + 1 == d {
      assert d * (q + 1) == d * q + d;
      Quotient(n + 1, d, q + 1, 0);
    } else {
      Quotient(n + 1, d, q, r + 1);
    }
  }

  /** Division by a positive divisor is determined by its equation. */
  lemma Quotient(n: nat, d: nat, q: nat, r: nat)
    requires d > 0 && n == d * q + r && r < d
    ensures n / d == q && n % d == r
  {
    var q', r' := n / d, n % d;
    assert n == d * q' + r' && 0 <= r' < d;
    if q < q' { Distribute(d, q, q'); }
    if q' < q { Distribute(d, q', q); }
  }

  lemma {:induction false} Distribute(d: nat, a: nat, b: nat)
    requires a < b
    ensures d * b >= d * a + d
  {
    assert d * b == d * (b - 1) + d;
    if b > a + 1 { Distribute(d, a, b - 1); }
  }

  // ---------------------------------------------------------------- per-worker terms

  function PassedA(w: Worker): int {
    if PastRelease(w) || (Barriers(w.pc) && !w.pc.gate.ArriveA?) then 1 else 0
  }

  function PassedB(w: Worker): int {
    if PastRelease(w) || (Barriers(w.pc) && w.pc.gate.WaitB?) then 1 else 0
  }

  function Unreturned(w: Worker): int { if w.pc == Return(Done) then 0 else 1 }

  /** The rotations one worker has completed, read off its program counter. */
  function RekeysBy(cfg: Config, w: Worker): int {
    Multiples(cfg.rekeyEvery, w.iter) +
    (if (w.pc.Rekey? && w.pc.rk.RkUnlock?) || (w.pc.Reopen? && RekeyDue(cfg, w.iter)) then 1 else 0)
  }

  function CyclesBy(cfg: Config, w: Worker): int {
    Multiples(cfg.cycleEvery, w.iter) + (if w.pc.Reopen? && w.pc.ro.RoUnlock? then 1 else 0)
  }

  function RekeyTerm(cfg: Config): Worker -> int { (w: Worker) => RekeysBy(cfg, w) }

  function CycleTerm(cfg: Config): Worker -> int { (w: Worker) => CyclesBy(cfg, w) }

  /** The counters move by the change of the worker that stepped, as long as no error has
      stopped the run for the two maintenance counters. */
  predicate Tracks(cfg: Config, sh: Shared, w: Worker, sh': Shared, w': Worker) {
    sh'.arrivedA - sh.arrivedA == PassedA(w') - PassedA(w) &&
    sh'.arrivedB - sh.arrivedB == PassedB(w') - PassedB(w) &&
    sh'.active - sh.active == Unreturned(w') - Unreturned(w) &&
    (sh.stop ==> sh'.stop) &&
    (!sh'.stop ==>
       sh'.rekeys - sh.rekeys == RekeysBy(cfg, w') - RekeysBy(cfg, w) &&
       sh'.cycles - sh.cycles == CyclesBy(cfg, w') - CyclesBy(cfg, w))
  }

  lemma StepTracks(cfg: Config, sh: Shared, i: nat, w: Worker, ch: Choice)
    requires PhaseLocal(cfg, sh, w) && OutcomeLocal(cfg, sh, w) && WorkerMay(cfg, sh, w, ch)
    ensures var (sh', w') := StepWorker(cfg, sh, i, w, ch); Tracks(cfg, sh, w, sh', w')
  {
    match w.pc
    case Iterate(at) => IterateTracks(cfg, sh, i, w, at, ch);
    case Gate(at) => GateTracks(cfg, sh, w, at);
    case Rekey(at) => RekeyTracks(cfg, sh, i, w, at, ch);
    case Reopen(at) => ReopenTracks(cfg, sh, i, w, at, ch);
    case Return(at) =>
  }

  lemma IterateTracks(cfg: Config, sh: Shared, i: nat, w: Worker, at: IterateAt, ch: Choice)
    requires w.pc == Iterate(at) && PhaseLocal(cfg, sh, w) && OutcomeLocal(cfg, sh, w) && IterateMay(cfg, sh, w, at, ch)
    ensures var (sh', w') := StepIterate(cfg, sh, i, w, at, ch); Tracks(cfg, sh, w, sh', w')
  {
  }

  lemma GateTracks(cfg: Config, sh: Shared, w: Worker, at: GateAt)
    requires w.pc == Gate(at) && PhaseLocal(cfg, sh, w) && OutcomeLocal(cfg, sh, w)
    ensures var (sh', w') := StepGate(cfg, sh, w, at); Tracks(cfg, sh, w, sh', w')
  {
  }

  lemma RekeyTracks(cfg: Config, sh: Shared, i: nat, w: Worker, at: RekeyAt, ch: Choice)
    requires w.pc == Rekey(at) && PhaseLocal(cfg, sh, w) && OutcomeLocal(cfg, sh, w) && RekeyMay(cfg, sh, at, ch)
    ensures var (sh', w') := StepRekey(cfg, sh, i, w, at, ch); Tracks(cfg, sh, w, sh', w')
  {
  }

  lemma ReopenTracks(cfg: Config, sh: Shared, i: nat, w: Worker, at: ReopenAt, ch: Choice)
    requires w.pc == Reopen(at) && PhaseLocal(cfg, sh, w) && OutcomeLocal(cfg, sh, w) && ReopenMay(sh, at, ch)
    ensures var (sh', w') := StepReopen(cfg, sh, i, w, at, ch); Tracks(cfg, sh, w, sh', w')
  {
  }
}
