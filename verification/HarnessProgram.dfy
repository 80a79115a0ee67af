/** The program of a worker as its source orders it: which steps belong to an iteration, and
    that a worker without an error has taken exactly those, each in its place. */
module HarnessProgram {
  import opened Basics
  import opened HarnessModel
  import opened HarnessSafety
  import opened HarnessCounts
  import opened HarnessRun
  import opened HarnessLiveness
  import opened HarnessHistory

  /** The place of a step in its iteration, counted down: the loop head, the eight of the round
      trip, the four of the barriers, the eight of a rotation, the nine of a reopen, and the
      two of the return. */
  function Place(pc: PC): nat { if pc == Gate(LoopTop) then 33 else Rank(pc) }

  /** The step at this place is due in iteration `k`. */
  predicate Due(cfg: Config, k: nat, place: nat) {
    if place == 33 then k >= 1
    else if 25 <= place <= 32 then true
    else if 21 <= place <= 24 then k == 0
    else if 13 <= place <= 20 then
      // a rotation calls for both sides and stores what an active side was handed
      k >= 1 && cfg.rekeyEvery > 0 && k % cfg.rekeyEvery == 0 &&
      (place == 17 ==> cfg.shape != Message) && (place == 15 ==> cfg.shape == Message || cfg.shape == Both)
    else if 4 <= place <= 12 then
      // a reopen loads for both sides, and frees and swaps an active side
      k >= 1 && cfg.cycleEvery > 0 && k % cfg.cycleEvery == 0 &&
      (place == 10 || place == 9 ==> cfg.shape != Message) &&
      (place == 7 || place == 6 ==> cfg.shape == Message || cfg.shape == Both)
    else false
  }

  /** How often the step at this place is due in the iterations before `n`. */
  function DueBefore(cfg: Config, n: nat, place: nat): nat {
    if n == 0 then 0 else DueBefore(cfg, n - 1, place) + Bit(Due(cfg, n - 1, place))
  }

  /** How often a worker at `w` has taken the step at this place: in every finished iteration
      where it is due, and in the present one if it lies behind. A returning worker has only
      looked at the head of the loop in its last iteration. */
  function Taken(cfg: Config, w: Worker, place: nat): nat {
    DueBefore(cfg, w.iter, place) +
    if w.pc.Return? then Bit(place == 33 || (1 <= place <= 2 && Place(w.pc) < place))
    else Bit(Due(cfg, w.iter, place) && Place(w.pc) < place)
  }

  lemma IteratePlace(cfg: Config, sh: Shared, i: nat, w: Worker, at: IterateAt, ch: Choice, place: nat)
    requires w.pc == Iterate(at) && PhaseLocal(cfg, sh, w) && OutcomeLocal(cfg, sh, w)
    ensures var (sh', w') := StepIterate(cfg, sh, i, w, at, ch);
            !w'.failed && !sh'.mismatch ==> Taken(cfg, w', place) == Taken(cfg, w, place) + Bit(Place(w.pc) == place)
  {
  }

  lemma GatePlace(cfg: Config, sh: Shared, w: Worker, at: GateAt, place: nat)
    requires w.pc == Gate(at) && PhaseLocal(cfg, sh, w) && OutcomeLocal(cfg, sh, w)
    ensures var (sh', w') := StepGate(cfg, sh, w, at);
            !w'.failed ==> Taken(cfg, w', place) == Taken(cfg, w, place) + Bit(Place(w.pc) == place)
  {
  }

  /** Every side the shape exercises is filled while a worker mutates. */
  predicate SidesFilled(cfg: Config, hs: Handles) {
    (hs.stream.Some? <==> cfg.shape != Message) && (hs.msg.Some? <==> cfg.shape == Message || cfg.shape == Both)
  }

  lemma RekeyPlace(cfg: Config, sh: Shared, i: nat, w: Worker, at: RekeyAt, ch: Choice, place: nat)
    requires w.pc == Rekey(at) && PhaseLocal(cfg, sh, w) && OutcomeLocal(cfg, sh, w)
    requires at.RkCall? || at.RkStore? ==> SidesFilled(cfg, sh.hs)
    requires at.RkStore? ==> Slot(sh.hs, at.side).Some?
    ensures var (sh', w') := StepRekey(cfg, sh, i, w, at, ch);
            !w'.failed ==> Taken(cfg, w', place) == Taken(cfg, w, place) + Bit(Place(w.pc) == place)
  {
  }

  lemma ReopenPlace(cfg: Config, sh: Shared, i: nat, w: Worker, at: ReopenAt, ch: Choice, place: nat)
    requires w.pc == Reopen(at) && PhaseLocal(cfg, sh, w) && OutcomeLocal(cfg, sh, w)
    requires at.RoLoad? || at.RoFree? || at.RoAssign? ==> SidesFilled(cfg, sh.hs)
    requires at.RoFree? || at.RoAssign? ==> Slot(sh.hs, at.side).Some?
    ensures var (sh', w') := StepReopen(cfg, sh, i, w, at, ch);
            !w'.failed ==> Taken(cfg, w', place) == Taken(cfg, w, place) + Bit(Place(w.pc) == place)
  {
  }

  lemma ReturnPlace(cfg: Config, sh: Shared, i: nat, w: Worker, at: ReturnAt, ch: Choice, place: nat)
    requires w.pc == Return(at) && ReturnMay(sh, at, ch)
    ensures var (sh', w') := StepReturn(sh, i, w, at, ch);
            Taken(cfg, w', place) == Taken(cfg, w, place) + Bit(Place(w.pc) == place)
  {
  }

  lemma SidesInMutation(cfg: Config, sh: Shared, w: Worker)
    requires DataLocal(cfg, sh, w)
    ensures w.pc.Rekey? && (w.pc.rk.RkCall? || w.pc.rk.RkStore?) ==> SidesFilled(cfg, sh.hs)
    ensures w.pc.Reopen? && (w.pc.ro.RoLoad? || w.pc.ro.RoFree? || w.pc.ro.RoAssign?) ==> SidesFilled(cfg, sh.hs)
  {
  }

  /** One step without an error is taken in its place and counts for that place alone. */
  lemma StepPlace(cfg: Config, sh: Shared, i: nat, w: Worker, ch: Choice, place: nat)
    requires Local(cfg, sh, i, w) && WorkerMay(cfg, sh, w, ch)
    ensures var (sh', w') := StepWorker(cfg, sh, i, w, ch);
            !w'.failed && !sh'.mismatch ==> Taken(cfg, w', place) == Taken(cfg, w, place) + Bit(Place(w.pc) == place)
  {
    SidesInMutation(cfg, sh, w);
    match w.pc
    case Iterate(at) => IteratePlace(cfg, sh, i, w, at, ch, place);
    case Gate(at) => GatePlace(cfg, sh, w, at, place);
    case Rekey(at) => RekeyPlace(cfg, sh, i, w, at, ch, place);
    case Reopen(at) => ReopenPlace(cfg, sh, i, w, at, ch, place);
    case Return(at) => ReturnPlace(cfg, sh, i, w, at, ch, place);
  }

  /** The event that worker `i` takes the step at this place. */
  function PlaceEvent(i: nat, place: nat): Event {
    (s: State, step: Step) => Steps(s, step, i) && Place(s.ws[i].pc) == place
  }

  /** One step of a run moves the count of the worker that takes it, and of no other. */
  lemma CountMoves(cfg: Config, s: State, step: Step, i: nat, place: nat)
    requires Inv(cfg, s) && Enabled(cfg, s, step) && i < |s.ws|
    ensures var s' := Apply(cfg, s, step);
            |s'.ws| == |s.ws| &&
            (!s'.ws[i].failed ==>
               Taken(cfg, s'.ws[i], place) == Taken(cfg, s.ws[i], place) + Bit(PlaceEvent(i, place)(s, step)))
  {
    StepKeeps(cfg, s, step);
    assert !Apply(cfg, s, step).sh.mismatch;
    if Steps(s, step, i) {
      assert Local(cfg, s.sh, i, s.ws[i]);
      StepPlace(cfg, s.sh, i, s.ws[i], step.ch, place);
    }
  }

  lemma {:induction false} StepsFrom(cfg: Config, s: State, steps: seq<Step>, i: nat, place: nat)
    requires Inv(cfg, s) && IsRun(cfg, s, steps) && i < |s.ws|
    ensures |After(cfg, s, steps).ws| == |s.ws|
    ensures !After(cfg, s, steps).ws[i].failed ==>
              Taken(cfg, After(cfg, s, steps).ws[i], place) == Taken(cfg, s.ws[i], place) + Times(cfg, s, steps, PlaceEvent(i, place))
    decreases |steps|
  {
    if steps != [] {
      var s' := Apply(cfg, s, steps[0]);
      StepKeeps(cfg, s, steps[0]);
      CountMoves(cfg, s, steps[0], i, place);
      FailedExactly(cfg, s', steps[1..], i);
      StepsFrom(cfg, s', steps[1..], i, place);
    }
  }

  /** A worker without an error has taken, in every iteration it has finished, exactly the steps
      that are due there, each once, and in its present iteration exactly those that lie behind
      it: no step of the source is skipped, repeated or taken out of order. */
  lemma StepsInPlace(cfg: Config, s0: State, steps: seq<Step>, i: nat, place: nat)
    requires Initial(cfg, s0) && Ideal(cfg.cipher) && IsRun(cfg, s0, steps) && i < cfg.workers
    ensures |After(cfg, s0, steps).ws| == cfg.workers
    ensures !After(cfg, s0, steps).ws[i].failed ==>
              Times(cfg, s0, steps, PlaceEvent(i, place)) == Taken(cfg, After(cfg, s0, steps).ws[i], place)
  {
    InitialInv(cfg, s0);
    StepsFrom(cfg, s0, steps, i, place);
  }
}
