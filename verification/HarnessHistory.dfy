/** What happened in a run, read off its steps: which answers made workers fail, which round
    trips were counted, who asked for the stop, what was encrypted, and which instants the two
    stamps are. */
module HarnessHistory {
  import opened Basics
  import opened HarnessModel
  import opened HarnessSafety
  import opened HarnessCounts
  import opened HarnessRun

  // ---------------------------------------------------------------- counting steps of a run

  type Event = (State, Step) -> bool

  /** How often an event happens in a run. */
  function Times(cfg: Config, s: State, steps: seq<Step>, p: Event): nat
    requires IsRun(cfg, s, steps)
    decreases |steps|
  {
    if steps == [] then 0
    else (if p(s, steps[0]) then 1 else 0) + Times(cfg, Apply(cfg, s, steps[0]), steps[1..], p)
  }

  predicate Steps(s: State, step: Step, i: nat) { step.ByWorker? && step.i == i && i < |s.ws| }

  // ---------------------------------------------------------------- answers

  /** The environment answers here, with success or failure: a refill, the ends of a cipher
      call or session, the draw of masters, a rotation or load on a side that is in use. */
  predicate Asks(sh: Shared, pc: PC) {
    match pc
    case Iterate(at) => at.Fill? || at.EncBegin? || at.EncEnd? || at.DecBegin? || at.DecEnd?
    case Rekey(at) => at.Draw? || (at.RkCall? && Slot(sh.hs, at.side).Some?)
    case Reopen(at) => at.RoLoad? && Slot(sh.hs, at.side).Some?
    case Gate(_) => false
    case Return(_) => false
  }

  predicate Refused(sh: Shared, w: Worker, ch: Choice) { Asks(sh, w.pc) && !ch.ok }

  /** The slot a cipher call uses is filled. */
  predicate CallFilled(cfg: Config, sh: Shared, w: Worker) {
    w.pc == Iterate(EncBegin) || (w.pc.Iterate? && w.pc.it.DecBegin?) ==> Slot(sh.hs, CallSide(cfg, w.iter)).Some?
  }

  /** A step fails its worker and asks for the stop exactly when it is refused; a refused worker
      counts nothing and is on its way out. */
  predicate AnswerDecides(sh: Shared, w: Worker, ch: Choice, sh': Shared, w': Worker) {
    && (w'.failed <==> w.failed || Refused(sh, w, ch))
    && (sh'.stop <==> sh.stop || Refused(sh, w, ch))
    && (Refused(sh, w, ch) ==> w'.iters == w.iters && (Failing(w'.pc) || w'.pc == Return(DoneLock)))
  }

  lemma IterateAnswer(cfg: Config, sh: Shared, i: nat, w: Worker, at: IterateAt, ch: Choice)
    requires w.pc == Iterate(at) && CallFilled(cfg, sh, w)
    ensures var (sh', w') := StepIterate(cfg, sh, i, w, at, ch); AnswerDecides(sh, w, ch, sh', w')
  {
  }

  lemma RekeyAnswer(cfg: Config, sh: Shared, i: nat, w: Worker, at: RekeyAt, ch: Choice)
    requires w.pc == Rekey(at)
    ensures var (sh', w') := StepRekey(cfg, sh, i, w, at, ch); AnswerDecides(sh, w, ch, sh', w')
  {
  }

  lemma ReopenAnswer(cfg: Config, sh: Shared, i: nat, w: Worker, at: ReopenAt, ch: Choice)
    requires w.pc == Reopen(at)
    ensures var (sh', w') := StepReopen(cfg, sh, i, w, at, ch); AnswerDecides(sh, w, ch, sh', w')
  {
  }

  lemma StepAnswer(cfg: Config, sh: Shared, i: nat, w: Worker, ch: Choice)
    requires CallFilled(cfg, sh, w)
    ensures var (sh', w') := StepWorker(cfg, sh, i, w, ch); AnswerDecides(sh, w, ch, sh', w')
  {
    match w.pc
    case Iterate(at) => IterateAnswer(cfg, sh, i, w, at, ch);
    case Gate(at) =>
    case Rekey(at) => RekeyAnswer(cfg, sh, i, w, at, ch);
    case Reopen(at) => ReopenAnswer(cfg, sh, i, w, at, ch);
    case Return(at) =>
  }

  lemma InvFilled(cfg: Config, s: State, i: nat)
    requires Inv(cfg, s) && i < |s.ws|
    ensures CallFilled(cfg, s.sh, s.ws[i])
  {
    assert Local(cfg, s.sh, i, s.ws[i]);
    AllReturned(s);
  }

  /** The event that worker `i` is refused. */
  function RefusedEvent(i: nat): Event {
    (s: State, step: Step) => Steps(s, step, i) && Refused(s.sh, s.ws[i], step.ch)
  }

  /** A failed worker asks for nothing any more. */
  lemma FailedAsksNothing(cfg: Config, s: State, i: nat)
    requires Inv(cfg, s) && i < |s.ws| && s.ws[i].failed
    ensures !Asks(s.sh, s.ws[i].pc)
  {
    assert Local(cfg, s.sh, i, s.ws[i]);
  }

  function Bit(b: bool): nat { if b then 1 else 0 }

  /** A worker has failed if and only if one of its calls was answered with failure, and then
      exactly one was. */
  lemma {:induction false} FailedExactly(cfg: Config, s: State, steps: seq<Step>, i: nat)
    requires Inv(cfg, s) && IsRun(cfg, s, steps) && i < |s.ws|
    ensures |After(cfg, s, steps).ws| == |s.ws|
    ensures Bit(After(cfg, s, steps).ws[i].failed) == Bit(s.ws[i].failed) + Times(cfg, s, steps, RefusedEvent(i))
    decreases |steps|
  {
    if steps != [] {
      var s' := Apply(cfg, s, steps[0]);
      StepKeeps(cfg, s, steps[0]);
      if Steps(s, steps[0], i) {
        InvFilled(cfg, s, i);
        StepAnswer(cfg, s.sh, i, s.ws[i], steps[0].ch);
        if s.ws[i].failed { FailedAsksNothing(cfg, s, i); }
      }
      FailedExactly(cfg, s', steps[1..], i);
    }
  }

  /** Every call that is asked can be answered with success or with failure, except that a refill
      fails only where it draws from the operating system and a draw only where there are masters
      to draw; a refill keeps the length, and a load opens a handle that is not open. */
  lemma AnswersPossible(cfg: Config, s: State, i: nat, ch: Choice)
    requires i < |s.ws| && !s.sh.mismatch && Asks(s.sh, s.ws[i].pc)
    ensures var w := s.ws[i];
            Enabled(cfg, s, ByWorker(i, ch)) <==>
              && (!ch.ok && w.pc == Iterate(Fill) ==> cfg.rotating && !cfg.seeded)
              && (!ch.ok && w.pc == Rekey(Draw) ==> cfg.parallax || cfg.wrapper)
              && (ch.ok && w.pc == Iterate(Fill) && cfg.rotating ==> |ch.bytes| == |w.plain|)
              && (w.pc.Reopen? ==> ch.handle !in s.sh.hs.live)
  {
  }

  // ---------------------------------------------------------------- round trips

  /** The comparison sets the mismatch exactly when other bytes came back, and counts the round
      trip exactly when not; no other step does either. */
  lemma StepCounts(cfg: Config, sh: Shared, i: nat, w: Worker, ch: Choice)
    ensures var (sh', w') := StepWorker(cfg, sh, i, w, ch);
            var compares := w.pc.Iterate? && w.pc.it.Compare?;
            && (sh'.mismatch <==> sh.mismatch || (compares && w.pc.it.got != w.plain))
            && w'.iters == w.iters + Bit(compares && w.pc.it.got == w.plain)
  {
    match w.pc
    case Iterate(at) =>
    case Gate(at) =>
    case Rekey(at) =>
    case Reopen(at) =>
    case Return(at) =>
  }

  /** The event that worker `i` gets its plaintext back. */
  function ComparedEvent(i: nat): Event {
    (s: State, step: Step) =>
      Steps(s, step, i) && s.ws[i].pc.Iterate? && s.ws[i].pc.it.Compare? && s.ws[i].pc.it.got == s.ws[i].plain
  }

  /** The counter of a worker is the number of its comparisons that found the plaintext. */
  lemma {:induction false} ItersExactly(cfg: Config, s: State, steps: seq<Step>, i: nat)
    requires IsRun(cfg, s, steps) && i < |s.ws|
    ensures |After(cfg, s, steps).ws| == |s.ws|
    ensures After(cfg, s, steps).ws[i].iters == s.ws[i].iters + Times(cfg, s, steps, ComparedEvent(i))
    decreases |steps|
  {
    if steps != [] {
      if Steps(s, steps[0], i) { StepCounts(cfg, s.sh, i, s.ws[i], steps[0].ch); }
      ItersExactly(cfg, Apply(cfg, s, steps[0]), steps[1..], i);
    }
  }

  // ---------------------------------------------------------------- the stop request

  /** Main finds a reason to stop in its poll: a signal, or the deadline of a run without a
      budget. */
  function PolledEvent(cfg: Config): Event {
    (s: State, step: Step) =>
      step.ByMain? && s.m.MCheck? && s.sh.active > 0 &&
      (step.ch.stop || (cfg.iterations == 0 && step.ch.time - s.sh.startNs >= cfg.duration))
  }

  lemma MainStop(cfg: Config, s: State, ch: Choice)
    ensures StepMain(cfg, s, ch).sh.stop <==> s.sh.stop || PolledEvent(cfg)(s, ByMain(ch))
  {
  }

  predicate SomeFailed(s: State) { exists i :: 0 <= i < |s.ws| && s.ws[i].failed }

  /** One step sets the stop flag if and only if a worker fails in it or main's poll finds a reason. */
  lemma StopMoves(cfg: Config, s: State, step: Step)
    requires Inv(cfg, s) && Enabled(cfg, s, step) && (SomeFailed(s) ==> s.sh.stop)
    ensures var s' := Apply(cfg, s, step);
            && (s'.sh.stop <==> s.sh.stop || SomeFailed(s') || PolledEvent(cfg)(s, step))
            && (SomeFailed(s) ==> SomeFailed(s'))
  {
    var s' := Apply(cfg, s, step);
    if step.ByWorker? {
      var i := step.i;
      InvFilled(cfg, s, i);
      StepAnswer(cfg, s.sh, i, s.ws[i], step.ch);
      if j :| 0 <= j < |s.ws| && s.ws[j].failed { assert s'.ws[j].failed; }
      assert forall j :: 0 <= j < |s.ws| && j != i ==> s'.ws[j] == s.ws[j];
      if Refused(s.sh, s.ws[i], step.ch) { assert s'.ws[i].failed; }
    } else {
      MainStop(cfg, s, step.ch);
      assert s'.ws == s.ws;
    }
  }

  lemma {:induction false} StaysFailed(cfg: Config, s: State, steps: seq<Step>)
    requires Inv(cfg, s) && IsRun(cfg, s, steps) && SomeFailed(s)
    ensures SomeFailed(After(cfg, s, steps))
  {
    var i :| 0 <= i < |s.ws| && s.ws[i].failed;
    FailedExactly(cfg, s, steps, i);
    assert After(cfg, s, steps).ws[i].failed;
  }

  /** The stop flag is set if and only if a worker has failed or a poll found a reason. */
  lemma {:induction false} StopExactly(cfg: Config, s: State, steps: seq<Step>)
    requires Inv(cfg, s) && IsRun(cfg, s, steps) && (SomeFailed(s) ==> s.sh.stop)
    ensures After(cfg, s, steps).sh.stop <==>
              s.sh.stop || SomeFailed(After(cfg, s, steps)) || Times(cfg, s, steps, PolledEvent(cfg)) > 0
    decreases |steps|
  {
    if steps != [] {
      var s' := Apply(cfg, s, steps[0]);
      StepKeeps(cfg, s, steps[0]);
      StopMoves(cfg, s, steps[0]);
      if SomeFailed(s') { StaysFailed(cfg, s', steps[1..]); }
      StopExactly(cfg, s', steps[1..]);
    }
  }

  // ---------------------------------------------------------------- the plaintext

  predicate Refills(cfg: Config, s: State, step: Step, i: nat) {
    Steps(s, step, i) && s.ws[i].pc == Iterate(Fill) && cfg.rotating && step.ch.ok
  }

  /** What worker `i` holds after a run that starts with `plain`: the bytes of its last refill. */
  function Held(cfg: Config, s: State, steps: seq<Step>, i: nat, plain: Bytes): Bytes
    requires IsRun(cfg, s, steps)
    decreases |steps|
  {
    if steps == [] then plain
    else Held(cfg, Apply(cfg, s, steps[0]), steps[1..], i, if Refills(cfg, s, steps[0], i) then steps[0].ch.bytes else plain)
  }

  lemma StepPlain(cfg: Config, sh: Shared, i: nat, w: Worker, ch: Choice)
    ensures StepWorker(cfg, sh, i, w, ch).1.plain == if w.pc == Iterate(Fill) && cfg.rotating && ch.ok then ch.bytes else w.plain
  {
    match w.pc
    case Iterate(at) =>
    case Gate(at) =>
    case Rekey(at) =>
    case Reopen(at) =>
    case Return(at) =>
  }

  /** A rotating worker holds what its last refill delivered, any other worker the buffer it
      started with. */
  lemma {:induction false} PlainExactly(cfg: Config, s: State, steps: seq<Step>, i: nat)
    requires IsRun(cfg, s, steps) && i < |s.ws|
    ensures |After(cfg, s, steps).ws| == |s.ws|
    ensures After(cfg, s, steps).ws[i].plain == Held(cfg, s, steps, i, s.ws[i].plain)
    decreases |steps|
  {
    if steps != [] {
      if Steps(s, steps[0], i) { StepPlain(cfg, s.sh, i, s.ws[i], steps[0].ch); }
      PlainExactly(cfg, Apply(cfg, s, steps[0]), steps[1..], i);
    }
  }

  // ---------------------------------------------------------------- the warmup

  predicate InWarmup(w: Worker) { w.pc.Iterate? && w.iter == 0 }

  /** The worker has come to the warmup barrier, or to the release barrier. */
  predicate ReachedA(w: Worker) { !InWarmup(w) && !(w.pc.Gate? && w.pc.gate.ArriveA?) }

  predicate ReachedB(w: Worker) { ReachedA(w) && !(w.pc.Gate? && (w.pc.gate.WaitA? || w.pc.gate.ArriveB?)) }

  /** It has gone on behind that barrier. */
  predicate LeftA(w: Worker) { ReachedA(w) && !(w.pc.Gate? && w.pc.gate.WaitA?) }

  predicate LeftB(w: Worker) { ReachedB(w) && !(w.pc.Gate? && w.pc.gate.WaitB?) }

  predicate MainLeftA(m: MainPC) { !m.MArriveA? && !m.MWaitA? }

  predicate MainLeftB(m: MainPC) { MainArrivedB(m) && !m.MWaitB? }

  /** Nobody is behind a barrier that is not full. */
  predicate Opened(cfg: Config, s: State) {
    && (MainLeftA(s.m) ==> s.sh.arrivedA >= cfg.workers + 1)
    && (MainLeftB(s.m) ==> s.sh.arrivedB >= cfg.workers + 1)
    && forall i :: 0 <= i < |s.ws| ==>
         (LeftA(s.ws[i]) ==> s.sh.arrivedA >= cfg.workers + 1) && (LeftB(s.ws[i]) ==> s.sh.arrivedB >= cfg.workers + 1)
  }

  lemma ArrivalsGrow(cfg: Config, sh: Shared, i: nat, w: Worker, ch: Choice)
    ensures var (sh', w') := StepWorker(cfg, sh, i, w, ch);
            sh'.arrivedA >= sh.arrivedA && sh'.arrivedB >= sh.arrivedB
  {
    match w.pc
    case Iterate(at) =>
    case Gate(at) =>
    case Rekey(at) =>
    case Reopen(at) =>
    case Return(at) =>
  }

  /** A worker goes on behind a barrier only where it is full. */
  lemma LeavesOpen(cfg: Config, sh: Shared, i: nat, w: Worker, ch: Choice)
    requires WorkerMay(cfg, sh, w, ch)
    ensures var (sh', w') := StepWorker(cfg, sh, i, w, ch);
            && (LeftA(w') ==> LeftA(w) || sh'.arrivedA >= cfg.workers + 1)
            && (LeftB(w') ==> LeftB(w) || sh'.arrivedB >= cfg.workers + 1)
  {
    match w.pc
    case Iterate(at) =>
    case Gate(at) =>
    case Rekey(at) =>
    case Reopen(at) =>
    case Return(at) =>
  }

  lemma OpenedStep(cfg: Config, s: State, step: Step)
    requires Opened(cfg, s) && Enabled(cfg, s, step)
    ensures Opened(cfg, Apply(cfg, s, step))
  {
    if step.ByWorker? {
      ArrivalsGrow(cfg, s.sh, step.i, s.ws[step.i], step.ch);
      LeavesOpen(cfg, s.sh, step.i, s.ws[step.i], step.ch);
    }
  }

  lemma {:induction false} StaysOpened(cfg: Config, s: State, steps: seq<Step>)
    requires Opened(cfg, s) && IsRun(cfg, s, steps)
    ensures Opened(cfg, After(cfg, s, steps))
    decreases |steps|
  {
    if steps != [] {
      OpenedStep(cfg, s, steps[0]);
      StaysOpened(cfg, Apply(cfg, s, steps[0]), steps[1..]);
    }
  }

  /** What the counters of full barriers say of the threads. */
  lemma FullBarriers(cfg: Config, s: State)
    requires Counters(cfg, s) && |s.ws| == cfg.workers
    ensures s.sh.arrivedA >= cfg.workers + 1 ==> !s.m.MArriveA? && forall i :: 0 <= i < |s.ws| ==> ReachedA(s.ws[i])
    ensures s.sh.arrivedB >= cfg.workers + 1 ==> MainArrivedB(s.m) && forall i :: 0 <= i < |s.ws| ==> ReachedB(s.ws[i])
  {
    SumBound(s.ws, PassedA, 1);
    SumBound(s.ws, PassedB, 1);
  }

  /** The two barriers: no thread goes on behind one before every worker and main have come to it. */
  lemma BarriersSeparate(cfg: Config, s0: State, steps: seq<Step>)
    requires Initial(cfg, s0) && Ideal(cfg.cipher) && IsRun(cfg, s0, steps)
    ensures var s := After(cfg, s0, steps);
            && (MainLeftA(s.m) || (exists i :: 0 <= i < |s.ws| && LeftA(s.ws[i])) ==>
                  !s.m.MArriveA? && forall j :: 0 <= j < |s.ws| ==> ReachedA(s.ws[j]))
            && (MainLeftB(s.m) || (exists i :: 0 <= i < |s.ws| && LeftB(s.ws[i])) ==>
                  MainArrivedB(s.m) && forall j :: 0 <= j < |s.ws| ==> ReachedB(s.ws[j]))
  {
    InitialInv(cfg, s0);
    RunKeeps(cfg, s0, steps);
    StaysOpened(cfg, s0, steps);
    FullBarriers(cfg, After(cfg, s0, steps));
  }

  /** When main stamps the start every worker has completed its warmup iteration or failed in it,
      and no worker begins its second iteration before that. */
  lemma WarmupFirst(cfg: Config, s0: State, steps: seq<Step>)
    requires Initial(cfg, s0) && Ideal(cfg.cipher) && IsRun(cfg, s0, steps)
    ensures var s := After(cfg, s0, steps);
            && (MainLeftA(s.m) ==> forall i :: 0 <= i < |s.ws| ==> s.ws[i].iters >= 1 || s.ws[i].failed)
            && ((exists i :: 0 <= i < |s.ws| && s.ws[i].iter >= 1) ==> MainArrivedB(s.m))
  {
    InitialInv(cfg, s0);
    RunKeeps(cfg, s0, steps);
    BarriersSeparate(cfg, s0, steps);
    var s := After(cfg, s0, steps);
    if MainLeftA(s.m) {
      forall i | 0 <= i < |s.ws| ensures s.ws[i].iters >= 1 || s.ws[i].failed {
        assert ReachedA(s.ws[i]) && Local(cfg, s.sh, i, s.ws[i]);
      }
    }
    if i :| 0 <= i < |s.ws| && s.ws[i].iter >= 1 {
      assert Local(cfg, s.sh, i, s.ws[i]);
      ReleasedByMain(cfg, s);
    }
  }

  // ---------------------------------------------------------------- the two stamps

  predicate Stamped(m: MainPC) { !m.MArriveA? && !m.MWaitA? && !m.MStamp? }

  /** One more step at the end of a run. */
  lemma {:induction false} OneMore(cfg: Config, s: State, steps: seq<Step>, step: Step)
    requires IsRun(cfg, s, steps + [step])
    ensures IsRun(cfg, s, steps) && Enabled(cfg, After(cfg, s, steps), step)
    ensures After(cfg, s, steps + [step]) == Apply(cfg, After(cfg, s, steps), step)
    decreases |steps|
  {
    var all := steps + [step];
    if steps == [] {
      assert all[1..] == [];
    } else {
      assert all[1..] == steps[1..] + [step];
      OneMore(cfg, Apply(cfg, s, steps[0]), steps[1..], step);
    }
  }

  lemma {:induction false} Prefix(cfg: Config, s: State, steps: seq<Step>, k: nat)
    requires IsRun(cfg, s, steps) && k <= |steps|
    ensures IsRun(cfg, s, steps[..k])
    decreases |steps|
  {
    if k > 0 {
      Prefix(cfg, Apply(cfg, s, steps[0]), steps[1..], k - 1);
      assert steps[..k][1..] == steps[1..][..k - 1];
    }
  }

  /** The state before step `k` of a run. */
  function At(cfg: Config, s: State, steps: seq<Step>, k: nat): State
    requires IsRun(cfg, s, steps) && k <= |steps|
  {
    Prefix(cfg, s, steps, k);
    After(cfg, s, steps[..k])
  }

  lemma AtNext(cfg: Config, s: State, steps: seq<Step>, k: nat)
    requires IsRun(cfg, s, steps) && k < |steps|
    ensures Enabled(cfg, At(cfg, s, steps, k), steps[k])
    ensures At(cfg, s, steps, k + 1) == Apply(cfg, At(cfg, s, steps, k), steps[k])
  {
    Prefix(cfg, s, steps, k + 1);
    assert steps[..k + 1] == steps[..k] + [steps[k]];
    OneMore(cfg, s, steps[..k], steps[k]);
  }

  /** The step reads the clock: main's stamp, its poll in a run without a budget, and the return
      of the last worker. */
  predicate ReadsClock(cfg: Config, s: State, step: Step) {
    match step
    case ByMain(_) => s.m.MStamp? || (s.m.MCheck? && s.sh.active > 0 && cfg.iterations == 0)
    case ByWorker(i, _) => i < |s.ws| && s.ws[i].pc == Return(DoneCrit) && s.sh.active == 1
  }

  /** The clock stands at the last reading, and no reading is before it. */
  lemma ClockMoves(cfg: Config, s: State, step: Step)
    requires Enabled(cfg, s, step)
    ensures Apply(cfg, s, step).sh.clock == if ReadsClock(cfg, s, step) then step.ch.time else s.sh.clock
    ensures ReadsClock(cfg, s, step) ==> step.ch.time >= s.sh.clock
  {
    if step.ByWorker? { ClockKept(cfg, s.sh, step.i, s.ws[step.i], step.ch); }
  }

  /** The instants read in a run never go back. */
  lemma {:induction false} ReadingsInOrder(cfg: Config, s: State, steps: seq<Step>, p: nat, q: nat)
    requires IsRun(cfg, s, steps) && p < q <= |steps| && ReadsClock(cfg, At(cfg, s, steps, p), steps[p])
    ensures steps[p].ch.time <= At(cfg, s, steps, q).sh.clock
    ensures q < |steps| && ReadsClock(cfg, At(cfg, s, steps, q), steps[q]) ==> steps[p].ch.time <= steps[q].ch.time
    decreases q
  {
    if p + 1 < q { ReadingsInOrder(cfg, s, steps, p, q - 1); }
    AtNext(cfg, s, steps, q - 1);
    ClockMoves(cfg, At(cfg, s, steps, q - 1), steps[q - 1]);
    if q < |steps| {
      AtNext(cfg, s, steps, q);
      ClockMoves(cfg, At(cfg, s, steps, q), steps[q]);
    }
  }

  /** Step `p` is main's stamp of the start, at the instant kept. */
  predicate IsStart(cfg: Config, s: State, steps: seq<Step>, p: nat, startNs: int)
    requires IsRun(cfg, s, steps)
  {
    p < |steps| && steps[p].ByMain? && At(cfg, s, steps, p).m.MStamp? && steps[p].ch.time == startNs
  }

  /** Step `q` is that of the last worker that was out, at the instant kept. */
  predicate IsFinish(cfg: Config, s: State, steps: seq<Step>, q: nat, finishNs: int)
    requires IsRun(cfg, s, steps)
  {
    q < |steps| && steps[q].ByWorker? && steps[q].ch.time == finishNs &&
    var t := At(cfg, s, steps, q);
    t.sh.active == 1 && steps[q].i < |t.ws| && t.ws[steps[q].i].pc == Return(DoneCrit) &&
    forall j :: 0 <= j < |t.ws| && j != steps[q].i ==> t.ws[j].pc == Return(Done)
  }

  /** The other workers have returned once one is left. */
  lemma LastOut(cfg: Config, s: State, i: nat)
    requires Inv(cfg, s) && s.sh.active == 1 && i < |s.ws| && s.ws[i].pc == Return(DoneCrit)
    ensures forall j :: 0 <= j < |s.ws| && j != i ==> s.ws[j].pc == Return(Done)
  {
    var done := s.ws[i].(pc := Return(Done));
    var ws := s.ws[i := done];
    SumUpdate(s.ws, i, done, Unreturned);
    AllReturned(s.(ws := ws, sh := s.sh.(active := 0)));
    forall j | 0 <= j < |s.ws| && j != i ensures s.ws[j].pc == Return(Done) {
      assert ws[j] == s.ws[j];
    }
  }

  lemma SameAt(cfg: Config, s: State, steps: seq<Step>, step: Step, k: nat)
    requires IsRun(cfg, s, steps + [step]) && IsRun(cfg, s, steps) && k <= |steps|
    ensures At(cfg, s, steps + [step], k) == At(cfg, s, steps, k)
  {
    assert (steps + [step])[..k] == steps[..k];
  }

  /** The start kept is the reading of main's stamp step, and the finish kept that of the step
      in which the last worker returned. */
  lemma {:induction false} StampsExactly(cfg: Config, s: State, steps: seq<Step>) returns (p: nat, q: nat)
    requires Initial(cfg, s) && Ideal(cfg.cipher) && IsRun(cfg, s, steps)
    ensures var t := After(cfg, s, steps);
            && (Stamped(t.m) ==> IsStart(cfg, s, steps, p, t.sh.startNs))
            && (t.sh.active == 0 ==> IsFinish(cfg, s, steps, q, t.sh.finishNs) && p < q)
    decreases |steps|
  {
    InitialInv(cfg, s);
    p, q := 0, 0;
    if steps != [] {
      var n := |steps| - 1;
      var init, step := steps[..n], steps[n];
      assert steps == init + [step];
      OneMore(cfg, s, init, step);
      p, q := StampsExactly(cfg, s, init);
      RunKeeps(cfg, s, init);
      var t := After(cfg, s, init);
      assert steps[..n] == init;
      forall k | 0 <= k <= n ensures At(cfg, s, steps, k) == At(cfg, s, init, k) { SameAt(cfg, s, init, step, k); }
      StampChange(cfg, t, step);
      if step.ByMain? && t.m.MStamp? { p := n; }
      if step.ByWorker? && t.sh.active == 1 && t.ws[step.i].pc == Return(DoneCrit) {
        LastOut(cfg, t, step.i);
        ReleasedByMain(cfg, t);
        q := n;
      }
    }
  }

  /** How one step moves the two stamps. */
  lemma StampChange(cfg: Config, s: State, step: Step)
    requires Inv(cfg, s) && Enabled(cfg, s, step)
    ensures var t := Apply(cfg, s, step);
            if step.ByMain? && s.m.MStamp? then t.sh.startNs == step.ch.time && t.sh.active == s.sh.active > 0
            else
              && t.sh.startNs == s.sh.startNs && (Stamped(t.m) <==> Stamped(s.m))
              && (if step.ByWorker? && s.sh.active == 1 && s.ws[step.i].pc == Return(DoneCrit)
                  then t.sh.finishNs == step.ch.time && t.sh.active == 0 && Stamped(s.m)
                  else t.sh.finishNs == s.sh.finishNs && (t.sh.active == 0 <==> s.sh.active == 0))
  {
    if step.ByWorker? {
      assert Local(cfg, s.sh, step.i, s.ws[step.i]);
      ClockKept(cfg, s.sh, step.i, s.ws[step.i], step.ch);
      StepTracks(cfg, s.sh, step.i, s.ws[step.i], step.ch);
      AllReturned(s);
      if s.ws[step.i].pc == Return(DoneCrit) {
        ReleasedByMain(cfg, s);
        if s.sh.active == 1 { FinishRead(cfg, s.sh, step.i, s.ws[step.i], step.ch); }
      }
    } else if s.m.MStamp? {
      StampBeforeRelease(cfg, s);
    }
  }

  lemma FinishRead(cfg: Config, sh: Shared, i: nat, w: Worker, ch: Choice)
    requires w.pc == Return(DoneCrit) && sh.active == 1
    ensures StepWorker(cfg, sh, i, w, ch).0.finishNs == ch.time
  {
  }
}
