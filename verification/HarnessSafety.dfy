/** The inductive invariant of the harness and what it gives in every reachable state:
    lock discipline, handles keyed as their blobs, no use of a freed or rekeyed handle,
    and the unreachability of the data mismatch. */
module HarnessSafety {
  import opened Basics
  import opened HarnessModel

  // ---------------------------------------------------------------- per-worker part

  predicate HoldsRead(pc: PC) { pc.Iterate? && !pc.it.Fill? && !pc.it.RdLock? }

  predicate HoldsWrite(pc: PC) {
    (pc.Rekey? && !pc.rk.Draw? && !pc.rk.RkLock?) || (pc.Reopen? && !pc.ro.RoLock?)
  }

  /** A worker owns a lock exactly between its acquire and its release. */
  predicate LockLocal(sh: Shared, i: nat, w: Worker) {
    (i in sh.readers <==> HoldsRead(w.pc)) &&
    (sh.writer == Some(i) <==> HoldsWrite(w.pc)) &&
    (sh.doneMu == Some(WorkerThread(i)) <==> w.pc == Return(DoneCrit))
  }

  /** The epoch is the present one of the handle this iteration uses. */
  predicate Current(cfg: Config, hs: Handles, iter: nat, e: Epoch) {
    var slot := Slot(hs, CallSide(cfg, iter));
    slot.Some? && slot.value.handle == e.handle && StillKeyed(hs, e)
  }

  /** An encrypt and its decrypt share the current epoch, and the wire decrypts to the plaintext. */
  predicate IterateData(cfg: Config, hs: Handles, w: Worker, at: IterateAt) {
    match at
    case EncEnd(e) => Current(cfg, hs, w.iter, e)
    case DecBegin(e, wire) => Current(cfg, hs, w.iter, e) && cfg.cipher.dec(e.key, wire) == w.plain
    case DecEnd(e, wire, d) => d == e && Current(cfg, hs, w.iter, e) && cfg.cipher.dec(e.key, wire) == w.plain
    case Compare(e, d, got) => d == e && Current(cfg, hs, w.iter, e) && got == w.plain
    case _ => true
  }

  /** A rotation in flight ends clean once the new blob is stored. */
  predicate RekeyData(cfg: Config, hs: Handles, at: RekeyAt) {
    match at
    case Draw => true
    case RkLock => true
    case RkStore(side, key) => Slot(hs, side).Some? && Clean(cfg, Stored(hs, side, key))
    case _ => Clean(cfg, hs)
  }

  /** A reopen in flight ends clean once the old handle is freed and the loaded one swapped in. */
  predicate ReopenData(cfg: Config, hs: Handles, at: ReopenAt) {
    match at
    case RoLock => true
    case RoFree(side, loaded) =>
      Slot(hs, side).Some? && Slot(hs, side).value.handle in hs.live && Slot(hs, side).value.handle != loaded &&
      Clean(cfg, Swapped(Closed(hs, side), side, loaded))
    case RoAssign(side, loaded) => Slot(hs, side).Some? && Clean(cfg, Swapped(hs, side, loaded))
    case _ => Clean(cfg, hs)
  }

  /** What the data a worker carries means. */
  predicate DataLocal(cfg: Config, sh: Shared, w: Worker) {
    match w.pc
    case Iterate(at) => IterateData(cfg, sh.hs, w, at)
    case Rekey(at) => RekeyData(cfg, sh.hs, at)
    case Reopen(at) => ReopenData(cfg, sh.hs, at)
    case _ => true
  }

  predicate Barriers(pc: PC) { pc.Gate? && !pc.gate.LoopTop? }

  /** The worker has recorded an error and is on its way out. */
  predicate Failing(pc: PC) {
    match pc
    case Iterate(at) => at.RdUnlock? && !at.ok
    case Gate(at) => !at.LoopTop? && !at.ok
    case Rekey(at) => at.RkUnlock? && !at.ok
    case Reopen(at) => at.RoUnlock? && !at.ok
    case Return(_) => false
  }

  predicate PastRelease(w: Worker) { if w.pc.Iterate? then w.iter >= 1 else !Barriers(w.pc) }

  /** The round trip of iteration `w.iter` has been counted. */
  predicate Counted(pc: PC) {
    match pc
    case Iterate(at) => at.RdUnlock? && at.ok
    case Gate(at) => !at.LoopTop? && at.ok
    case Rekey(_) => true
    case Reopen(_) => true
    case Return(_) => false
  }

  predicate PhaseLocal(cfg: Config, sh: Shared, w: Worker) {
    (PastRelease(w) ==> sh.arrivedB >= cfg.workers + 1) &&
    (Barriers(w.pc) ==> w.iter == 0) &&
    (w.pc == Gate(LoopTop) || w.pc.Rekey? || w.pc.Reopen? ==> w.iter >= 1) &&
    (cfg.iterations > 0 ==> w.iter <= cfg.iterations) &&
    (cfg.iterations > 0 && w.pc != Gate(LoopTop) && !w.pc.Return? ==> w.iter < cfg.iterations) &&
    (w.pc.Rekey? ==> RekeyDue(cfg, w.iter)) &&
    (w.pc.Reopen? ==> CycleDue(cfg, w.iter))
  }

  predicate OutcomeLocal(cfg: Config, sh: Shared, w: Worker) {
    (Failing(w.pc) ==> w.failed) &&
    (w.failed ==> sh.stop && (Failing(w.pc) || w.pc.Return?)) &&
    (w.pc.Return? && !sh.stop ==> cfg.iterations > 0 && w.iter == cfg.iterations) &&
    (w.pc.Return? && !w.failed ==> w.iter >= 1) &&
    (!w.failed ==> w.iters == w.iter + if Counted(w.pc) then 1 else 0) &&
    w.iter <= w.iters <= w.iter + 1
  }

  predicate Local(cfg: Config, sh: Shared, i: nat, w: Worker) {
    LockLocal(sh, i, w) && DataLocal(cfg, sh, w) && PhaseLocal(cfg, sh, w) && OutcomeLocal(cfg, sh, w)
  }

  /** The shared part: a writer excludes readers, and outside a mutation the handles are clean. */
  predicate Quiet(cfg: Config, sh: Shared) {
    !sh.mismatch &&
    (sh.writer.Some? ==> sh.readers == {}) &&
    (sh.writer.None? ==> Clean(cfg, sh.hs))
  }

  // ---------------------------------------------------------------- interference

  /** What worker `i` may do to the state the others rely on. */
  ghost predicate Guarantee(i: nat, sh: Shared, sh': Shared) {
    (forall j: nat :: j != i ==> (j in sh'.readers <==> j in sh.readers)) &&
    (forall j: nat :: j != i ==> (sh'.writer == Some(j) <==> sh.writer == Some(j))) &&
    (forall j: nat :: j != i ==> (sh'.doneMu == Some(WorkerThread(j)) <==> sh.doneMu == Some(WorkerThread(j)))) &&
    (sh'.doneMu == Some(MainThread) <==> sh.doneMu == Some(MainThread)) &&
    (sh'.hs == sh.hs || sh.writer == Some(i)) &&
    sh'.arrivedB >= sh.arrivedB && (sh.stop ==> sh'.stop)
  }

  /** Every other worker keeps its invariant: whoever changes handles holds the write side. */
  lemma Stable(cfg: Config, sh: Shared, sh': Shared, i: nat, j: nat, v: Worker)
    requires i != j && Local(cfg, sh, j, v) && Guarantee(i, sh, sh')
    requires sh.writer.Some? ==> sh.readers == {}
    ensures Local(cfg, sh', j, v)
  {
  }

  // ---------------------------------------------------------------- one worker's own step

  lemma IterateLock(cfg: Config, sh: Shared, i: nat, w: Worker, at: IterateAt, ch: Choice)
    requires w.pc == Iterate(at) && IterateMay(cfg, sh, w, at, ch) && LockLocal(sh, i, w)
    ensures var (sh', w') := StepIterate(cfg, sh, i, w, at, ch); LockLocal(sh', i, w') && Guarantee(i, sh, sh')
  {
  }

  lemma IterateControl(cfg: Config, sh: Shared, i: nat, w: Worker, at: IterateAt, ch: Choice)
    requires w.pc == Iterate(at) && IterateMay(cfg, sh, w, at, ch) && PhaseLocal(cfg, sh, w) && OutcomeLocal(cfg, sh, w)
    ensures var (sh', w') := StepIterate(cfg, sh, i, w, at, ch);
            sh'.mismatch || (PhaseLocal(cfg, sh', w') && OutcomeLocal(cfg, sh', w'))
  {
  }

  lemma IterateKeeps(cfg: Config, sh: Shared, i: nat, w: Worker, at: IterateAt, ch: Choice)
    requires w.pc == Iterate(at) && IterateMay(cfg, sh, w, at, ch) && LockLocal(sh, i, w) && DataLocal(cfg, sh, w) && Quiet(cfg, sh) && Ideal(cfg.cipher)
    ensures var (sh', w') := StepIterate(cfg, sh, i, w, at, ch); DataLocal(cfg, sh', w') && Quiet(cfg, sh')
  {
  }

  lemma GateLock(cfg: Config, sh: Shared, i: nat, w: Worker, at: GateAt, ch: Choice)
    requires w.pc == Gate(at) && GateMay(cfg, sh, at) && LockLocal(sh, i, w)
    ensures var (sh', w') := StepGate(cfg, sh, w, at); LockLocal(sh', i, w') && Guarantee(i, sh, sh')
  {
  }

  lemma GateControl(cfg: Config, sh: Shared, i: nat, w: Worker, at: GateAt, ch: Choice)
    requires w.pc == Gate(at) && GateMay(cfg, sh, at) && PhaseLocal(cfg, sh, w) && OutcomeLocal(cfg, sh, w)
    ensures var (sh', w') := StepGate(cfg, sh, w, at);
            sh'.mismatch || (PhaseLocal(cfg, sh', w') && OutcomeLocal(cfg, sh', w'))
  {
  }

  lemma GateKeeps(cfg: Config, sh: Shared, i: nat, w: Worker, at: GateAt, ch: Choice)
    requires w.pc == Gate(at) && GateMay(cfg, sh, at) && LockLocal(sh, i, w) && DataLocal(cfg, sh, w) && Quiet(cfg, sh) && Ideal(cfg.cipher)
    ensures var (sh', w') := StepGate(cfg, sh, w, at); DataLocal(cfg, sh', w') && Quiet(cfg, sh')
  {
  }

  lemma RekeyLock(cfg: Config, sh: Shared, i: nat, w: Worker, at: RekeyAt, ch: Choice)
    requires w.pc == Rekey(at) && RekeyMay(cfg, sh, at, ch) && LockLocal(sh, i, w)
    ensures var (sh', w') := StepRekey(cfg, sh, i, w, at, ch); LockLocal(sh', i, w') && Guarantee(i, sh, sh')
  {
  }

  lemma RekeyControl(cfg: Config, sh: Shared, i: nat, w: Worker, at: RekeyAt, ch: Choice)
    requires w.pc == Rekey(at) && RekeyMay(cfg, sh, at, ch) && PhaseLocal(cfg, sh, w) && OutcomeLocal(cfg, sh, w)
    ensures var (sh', w') := StepRekey(cfg, sh, i, w, at, ch);
            sh'.mismatch || (PhaseLocal(cfg, sh', w') && OutcomeLocal(cfg, sh', w'))
  {
  }

  lemma RekeyKeeps(cfg: Config, sh: Shared, i: nat, w: Worker, at: RekeyAt, ch: Choice)
    requires w.pc == Rekey(at) && RekeyMay(cfg, sh, at, ch) && LockLocal(sh, i, w) && DataLocal(cfg, sh, w) && Quiet(cfg, sh) && Ideal(cfg.cipher)
    ensures var (sh', w') := StepRekey(cfg, sh, i, w, at, ch); DataLocal(cfg, sh', w') && Quiet(cfg, sh')
  {
  }

  lemma ReopenLock(cfg: Config, sh: Shared, i: nat, w: Worker, at: ReopenAt, ch: Choice)
    requires w.pc == Reopen(at) && ReopenMay(sh, at, ch) && LockLocal(sh, i, w)
    ensures var (sh', w') := StepReopen(cfg, sh, i, w, at, ch); LockLocal(sh', i, w') && Guarantee(i, sh, sh')
  {
  }

  lemma ReopenControl(cfg: Config, sh: Shared, i: nat, w: Worker, at: ReopenAt, ch: Choice)
    requires w.pc == Reopen(at) && ReopenMay(sh, at, ch) && PhaseLocal(cfg, sh, w) && OutcomeLocal(cfg, sh, w)
    ensures var (sh', w') := StepReopen(cfg, sh, i, w, at, ch);
            sh'.mismatch || (PhaseLocal(cfg, sh', w') && OutcomeLocal(cfg, sh', w'))
  {
  }

  lemma ReopenKeeps(cfg: Config, sh: Shared, i: nat, w: Worker, at: ReopenAt, ch: Choice)
    requires w.pc == Reopen(at) && ReopenMay(sh, at, ch) && LockLocal(sh, i, w) && DataLocal(cfg, sh, w) && Quiet(cfg, sh) && Ideal(cfg.cipher)
    ensures var (sh', w') := StepReopen(cfg, sh, i, w, at, ch); DataLocal(cfg, sh', w') && Quiet(cfg, sh')
  {
  }

  lemma ReturnLock(cfg: Config, sh: Shared, i: nat, w: Worker, at: ReturnAt, ch: Choice)
    requires w.pc == Return(at) && ReturnMay(sh, at, ch) && LockLocal(sh, i, w)
    ensures var (sh', w') := StepReturn(sh, i, w, at, ch); LockLocal(sh', i, w') && Guarantee(i, sh, sh')
  {
  }

  lemma ReturnControl(cfg: Config, sh: Shared, i: nat, w: Worker, at: ReturnAt, ch: Choice)
    requires w.pc == Return(at) && ReturnMay(sh, at, ch) && PhaseLocal(cfg, sh, w) && OutcomeLocal(cfg, sh, w)
    ensures var (sh', w') := StepReturn(sh, i, w, at, ch);
            sh'.mismatch || (PhaseLocal(cfg, sh', w') && OutcomeLocal(cfg, sh', w'))
  {
  }

  lemma ReturnKeeps(cfg: Config, sh: Shared, i: nat, w: Worker, at: ReturnAt, ch: Choice)
    requires w.pc == Return(at) && ReturnMay(sh, at, ch) && LockLocal(sh, i, w) && DataLocal(cfg, sh, w) && Quiet(cfg, sh) && Ideal(cfg.cipher)
    ensures var (sh', w') := StepReturn(sh, i, w, at, ch); DataLocal(cfg, sh', w') && Quiet(cfg, sh')
  {
  }

  /** One step of a worker keeps its own invariant and the handle invariant, and disturbs
      no other worker. */
  lemma OwnStep(cfg: Config, sh: Shared, i: nat, w: Worker, ch: Choice)
    requires Ideal(cfg.cipher) && Local(cfg, sh, i, w) && Quiet(cfg, sh) && WorkerMay(cfg, sh, w, ch)
    ensures var (sh', w') := StepWorker(cfg, sh, i, w, ch);
            Local(cfg, sh', i, w') && Quiet(cfg, sh') && Guarantee(i, sh, sh')
  {
    match w.pc
    case Iterate(at) =>
      IterateLock(cfg, sh, i, w, at, ch); IterateControl(cfg, sh, i, w, at, ch); IterateKeeps(cfg, sh, i, w, at, ch);
    case Gate(at) =>
      GateLock(cfg, sh, i, w, at, ch); GateControl(cfg, sh, i, w, at, ch); GateKeeps(cfg, sh, i, w, at, ch);
    case Rekey(at) =>
      RekeyLock(cfg, sh, i, w, at, ch); RekeyControl(cfg, sh, i, w, at, ch); RekeyKeeps(cfg, sh, i, w, at, ch);
    case Reopen(at) =>
      ReopenLock(cfg, sh, i, w, at, ch); ReopenControl(cfg, sh, i, w, at, ch); ReopenKeeps(cfg, sh, i, w, at, ch);
    case Return(at) =>
      ReturnLock(cfg, sh, i, w, at, ch); ReturnControl(cfg, sh, i, w, at, ch); ReturnKeeps(cfg, sh, i, w, at, ch);
  }
}
