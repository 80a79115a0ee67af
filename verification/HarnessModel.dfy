/** The stress harness as an interleaving state machine: N workers and the main
    thread over one shared run state. Every step is one atomic action of one thread;
    the adversary picks the thread, every status code, every fresh key, handle and
    random byte, the clock readings and the arrival of a signal. */
module HarnessModel {
  import opened Basics

  // ---------------------------------------------------------------- configuration

  datatype Shape = Stream | Message | StreamOneShot | Both

  /** The library's cipher under a keying; `enc` takes the randomness of the call. */
  datatype Cipher = Cipher(enc: (Key, nat, Bytes) -> Bytes, dec: (Key, Bytes) -> Bytes)

  /** What the library promises: decrypting under the keying of the encrypt undoes it. */
  ghost predicate Ideal(c: Cipher) {
    forall k: Key, r: nat, p: Bytes :: c.dec(k, c.enc(k, r, p)) == p
  }

  datatype Config = Config(
    workers: nat,
    iterations: nat,      // 0 = duration-based
    duration: int,        // nanoseconds, the deadline of a duration-based run
    shape: Shape,
    rekeyEvery: nat,      // 0 = never
    cycleEvery: nat,      // 0 = never
    rotating: bool,
    seeded: bool,
    parallax: bool,
    wrapper: bool,
    writerFirst: bool,    // whether the rwlock holds new readers back behind a waiting writer
    cipher: Cipher)

  /** The flag parser admits 1..10 workers. */
  predicate ValidConfig(cfg: Config) { 1 <= cfg.workers <= 10 }

  /** The two handle slots of the run state. */
  datatype Side = StreamSide | MessageSide

  predicate Active(cfg: Config, side: Side) {
    match side
    case StreamSide => cfg.shape != Message
    case MessageSide => cfg.shape == Message || cfg.shape == Both
  }

  /** The side an iteration exercises. Under `Both` the three surfaces rotate by iteration:
      stream session, message, one-shot call on the stream side. */
  function CallSide(cfg: Config, iter: nat): Side {
    if cfg.shape == Message || (cfg.shape == Both && iter % 3 == 1) then MessageSide else StreamSide
  }

  predicate RekeyDue(cfg: Config, iter: nat) { cfg.rekeyEvery > 0 && iter % cfg.rekeyEvery == 0 }

  predicate CycleDue(cfg: Config, iter: nat) { cfg.cycleEvery > 0 && iter % cfg.cycleEvery == 0 }

  // ---------------------------------------------------------------- state

  /** A slot in use: the live handle, and the keying its retained blob would load. */
  datatype Pipe = Pipe(handle: Handle, blob: Key)

  datatype Thread = MainThread | WorkerThread(id: nat)

  /** The part of the run state that `pipe_lock` guards, with the library behind it. */
  datatype Handles = Handles(
    live: map<Handle, Key>,       // the library's open handles and their keying
    stream: Option<Pipe>,
    msg: Option<Pipe>)

  datatype Shared = Shared(
    hs: Handles,
    readers: set<nat>,            // rwlock: workers on the read side
    writer: Option<nat>,          // rwlock: the worker on the write side
    rekeys: nat,
    cycles: nat,
    stop: bool,
    arrivedA: nat,                // arrivals at the warmup barrier
    arrivedB: nat,                // arrivals at the release barrier
    doneMu: Option<Thread>,
    active: int,
    clock: int,
    startNs: int,
    finishNs: int,
    stamps: nat,                  // how often a worker stamped the finish instant
    mismatch: bool)               // the process has exited with code 3

  /** The handle a cipher call runs on and the keying that handle has. */
  datatype Epoch = Epoch(handle: Handle, key: Key)

  /** Where a worker stands inside `iterate`. */
  datatype IterateAt =
    | Fill
    | RdLock
    | EncBegin
    | EncEnd(e: Epoch)                              // the encrypt call or session is open
    | DecBegin(e: Epoch, wire: Bytes)
    | DecEnd(e: Epoch, wire: Bytes, d: Epoch)       // the decrypt call or session is open
    | Compare(e: Epoch, d: Epoch, got: Bytes)
    | RdUnlock(ok: bool)

  /** The two barriers and the loop head of `worker_main`. */
  datatype GateAt = ArriveA(ok: bool) | WaitA(ok: bool) | ArriveB(ok: bool) | WaitB(ok: bool) | LoopTop

  /** Inside `rekey_pipes`. */
  datatype RekeyAt = Draw | RkLock | RkCall(side: Side) | RkStore(side: Side, key: Key) | RkCount | RkUnlock(ok: bool)

  /** Inside `blob_cycle_pipes`. */
  datatype ReopenAt =
    | RoLock
    | RoLoad(side: Side)
    | RoFree(side: Side, loaded: Handle)
    | RoAssign(side: Side, loaded: Handle)
    | RoCount
    | RoUnlock(ok: bool)

  /** Inside `worker_done`, and after it. */
  datatype ReturnAt = DoneLock | DoneCrit | Done

  datatype PC = Iterate(it: IterateAt) | Gate(gate: GateAt) | Rekey(rk: RekeyAt) | Reopen(ro: ReopenAt) | Return(ret: ReturnAt)

  datatype Worker = Worker(pc: PC, iter: nat, plain: Bytes, iters: nat, failed: bool)

  datatype MainPC =
    | MArriveA | MWaitA | MStamp | MArriveB | MWaitB
    | MLock | MCheck | MWait | MUnlock | MJoin
    | MFree(side: Side) | MFinal

  datatype State = State(sh: Shared, ws: seq<Worker>, m: MainPC)

  /** Everything the environment decides in one step. */
  datatype Choice = Choice(ok: bool, rand: nat, bytes: Bytes, key: Key, handle: Handle, time: int, stop: bool)

  function Slot(hs: Handles, side: Side): Option<Pipe> {
    match side
    case StreamSide => hs.stream
    case MessageSide => hs.msg
  }

  function SetSlot(hs: Handles, side: Side, p: Pipe): Handles {
    match side
    case StreamSide => hs.(stream := Some(p))
    case MessageSide => hs.(msg := Some(p))
  }

  /** The slot with `key` as the keying of its retained blob. */
  function Stored(hs: Handles, side: Side, key: Key): Handles {
    match Slot(hs, side)
    case None => hs
    case Some(p) => SetSlot(hs, side, p.(blob := key))
  }

  /** The slot with another live handle. */
  function Swapped(hs: Handles, side: Side, h: Handle): Handles {
    match Slot(hs, side)
    case None => hs
    case Some(p) => SetSlot(hs, side, p.(handle := h))
  }

  /** The library closes and releases the handle of a slot. */
  function Closed(hs: Handles, side: Side): Handles {
    match Slot(hs, side)
    case None => hs
    case Some(p) => hs.(live := hs.live - {p.handle})
  }

  /** The handle still carries the keying the call started under. */
  predicate StillKeyed(hs: Handles, e: Epoch) {
    e.handle in hs.live && hs.live[e.handle] == e.key
  }

  // ---------------------------------------------------------------- worker steps

  /** A worker error: the first one is recorded, the whole run is asked to stop. */
  function Fail(sh: Shared, w: Worker, pc: PC): (Shared, Worker) {
    (sh.(stop := true), w.(failed := true, pc := pc))
  }

  function Go(sh: Shared, w: Worker, pc: PC): (Shared, Worker) { (sh, w.(pc := pc)) }

  /** The next loop iteration. */
  function NextIter(sh: Shared, w: Worker): (Shared, Worker) {
    (sh, w.(iter := w.iter + 1, pc := Gate(LoopTop)))
  }

  /** The reopen half of maintenance. */
  function AfterRekey(cfg: Config, sh: Shared, w: Worker): (Shared, Worker) {
    if CycleDue(cfg, w.iter) then Go(sh, w, Reopen(RoLock)) else NextIter(sh, w)
  }

  function AfterIterate(cfg: Config, sh: Shared, w: Worker, ok: bool): (Shared, Worker) {
    if w.iter == 0 then Go(sh, w, Gate(ArriveA(ok)))
    else if !ok then Go(sh, w, Return(DoneLock))
    else if RekeyDue(cfg, w.iter) then Go(sh, w, Rekey(Draw))
    else AfterRekey(cfg, sh, w)
  }

  /** The keying a call on `h` starts under; a freed handle could have any. */
  function KeyOf(hs: Handles, h: Handle, any: Key): Key {
    if h in hs.live then hs.live[h] else any
  }

  /** `iterate`. A call whose handle was freed or rekeyed under it produces arbitrary bytes. */
  function StepIterate(cfg: Config, sh: Shared, i: nat, w: Worker, at: IterateAt, ch: Choice): (Shared, Worker) {
    match at
    case Fill =>
      if !ch.ok then AfterIterate(cfg, sh.(stop := true), w.(failed := true), false)
      else (sh, w.(plain := if cfg.rotating then ch.bytes else w.plain, pc := Iterate(RdLock)))
    case RdLock => (sh.(readers := sh.readers + {i}), w.(pc := Iterate(EncBegin)))
    case EncBegin =>
      var slot := Slot(sh.hs, CallSide(cfg, w.iter));
      if slot.None? || !ch.ok then Fail(sh, w, Iterate(RdUnlock(false)))
      else
        var h := slot.value.handle;
        Go(sh, w, Iterate(EncEnd(Epoch(h, KeyOf(sh.hs, h, ch.key)))))
    case EncEnd(e) =>
      if !ch.ok then Fail(sh, w, Iterate(RdUnlock(false)))
      else
        var wire := if StillKeyed(sh.hs, e) then cfg.cipher.enc(e.key, ch.rand, w.plain) else ch.bytes;
        Go(sh, w, Iterate(DecBegin(e, wire)))
    case DecBegin(e, wire) =>
      var slot := Slot(sh.hs, CallSide(cfg, w.iter));
      if slot.None? || !ch.ok then Fail(sh, w, Iterate(RdUnlock(false)))
      else
        var h := slot.value.handle;
        Go(sh, w, Iterate(DecEnd(e, wire, Epoch(h, KeyOf(sh.hs, h, ch.key)))))
    case DecEnd(e, wire, d) =>
      if !ch.ok then Fail(sh, w, Iterate(RdUnlock(false)))
      else
        var got := if StillKeyed(sh.hs, d) then cfg.cipher.dec(d.key, wire) else ch.bytes;
        Go(sh, w, Iterate(Compare(e, d, got)))
    case Compare(e, d, got) =>
      if got != w.plain then (sh.(mismatch := true), w)
      else (sh, w.(iters := w.iters + 1, pc := Iterate(RdUnlock(true))))
    case RdUnlock(ok) => AfterIterate(cfg, sh.(readers := sh.readers - {i}), w, ok)
  }

  /** The barriers and the loop head of `worker_main`. */
  function StepGate(cfg: Config, sh: Shared, w: Worker, at: GateAt): (Shared, Worker) {
    match at
    case ArriveA(ok) => (sh.(arrivedA := sh.arrivedA + 1), w.(pc := Gate(WaitA(ok))))
    case WaitA(ok) => Go(sh, w, Gate(ArriveB(ok)))
    case ArriveB(ok) => (sh.(arrivedB := sh.arrivedB + 1), w.(pc := Gate(WaitB(ok))))
    case WaitB(ok) => if ok then NextIter(sh, w) else Go(sh, w, Return(DoneLock))
    case LoopTop =>
      if cfg.iterations > 0 && w.iter >= cfg.iterations then Go(sh, w, Return(DoneLock))
      else if sh.stop then Go(sh, w, Return(DoneLock))
      else Go(sh, w, Iterate(Fill))
  }

  function NextRekey(sh: Shared, w: Worker, side: Side): (Shared, Worker) {
    Go(sh, w, Rekey(if side == StreamSide then RkCall(MessageSide) else RkCount))
  }

  /** `rekey_pipes`: a failed rotation leaves the keying of its handle unchanged. */
  function StepRekey(cfg: Config, sh: Shared, i: nat, w: Worker, at: RekeyAt, ch: Choice): (Shared, Worker) {
    match at
    case Draw => if ch.ok then Go(sh, w, Rekey(RkLock)) else Fail(sh, w, Return(DoneLock))
    case RkLock => (sh.(writer := Some(i)), w.(pc := Rekey(RkCall(StreamSide))))
    case RkCall(side) =>
      var slot := Slot(sh.hs, side);
      if slot.None? then NextRekey(sh, w, side)
      else if !ch.ok then Fail(sh, w, Rekey(RkUnlock(false)))
      else (sh.(hs := sh.hs.(live := sh.hs.live[slot.value.handle := ch.key])), w.(pc := Rekey(RkStore(side, ch.key))))
    case RkStore(side, key) => NextRekey(sh.(hs := Stored(sh.hs, side, key)), w, side)
    case RkCount => (sh.(rekeys := sh.rekeys + 1), w.(pc := Rekey(RkUnlock(true))))
    case RkUnlock(ok) =>
      var sh' := sh.(writer := None);
      if ok then AfterRekey(cfg, sh', w) else Go(sh', w, Return(DoneLock))
  }

  function NextReopen(sh: Shared, w: Worker, side: Side): (Shared, Worker) {
    Go(sh, w, Reopen(if side == StreamSide then RoLoad(MessageSide) else RoCount))
  }

  /** `blob_cycle_pipes`: load a fresh handle, free the running one, swap. */
  function StepReopen(cfg: Config, sh: Shared, i: nat, w: Worker, at: ReopenAt, ch: Choice): (Shared, Worker) {
    match at
    case RoLock => (sh.(writer := Some(i)), w.(pc := Reopen(RoLoad(StreamSide))))
    case RoLoad(side) =>
      var slot := Slot(sh.hs, side);
      if slot.None? then NextReopen(sh, w, side)
      else if !ch.ok then Fail(sh, w, Reopen(RoUnlock(false)))
      else (sh.(hs := sh.hs.(live := sh.hs.live[ch.handle := slot.value.blob])), w.(pc := Reopen(RoFree(side, ch.handle))))
    case RoFree(side, loaded) => Go(sh.(hs := Closed(sh.hs, side)), w, Reopen(RoAssign(side, loaded)))
    case RoAssign(side, loaded) => NextReopen(sh.(hs := Swapped(sh.hs, side, loaded)), w, side)
    case RoCount => (sh.(cycles := sh.cycles + 1), w.(pc := Reopen(RoUnlock(true))))
    case RoUnlock(ok) =>
      var sh' := sh.(writer := None);
      if ok then NextIter(sh', w) else Go(sh', w, Return(DoneLock))
  }

  /** `worker_done`. */
  function StepReturn(sh: Shared, i: nat, w: Worker, at: ReturnAt, ch: Choice): (Shared, Worker) {
    match at
    case DoneLock => (sh.(doneMu := Some(WorkerThread(i))), w.(pc := Return(DoneCrit)))
    case DoneCrit =>
      var sh' := sh.(active := sh.active - 1, doneMu := None);
      (if sh'.active == 0 then sh'.(clock := ch.time, finishNs := ch.time, stamps := sh.stamps + 1) else sh',
       w.(pc := Return(Done)))
    case Done => (sh, w)
  }

  function StepWorker(cfg: Config, sh: Shared, i: nat, w: Worker, ch: Choice): (Shared, Worker) {
    match w.pc
    case Iterate(at) => StepIterate(cfg, sh, i, w, at, ch)
    case Gate(at) => StepGate(cfg, sh, w, at)
    case Rekey(at) => StepRekey(cfg, sh, i, w, at, ch)
    case Reopen(at) => StepReopen(cfg, sh, i, w, at, ch)
    case Return(at) => StepReturn(sh, i, w, at, ch)
  }

  predicate IterateMay(cfg: Config, sh: Shared, w: Worker, at: IterateAt, ch: Choice) {
    match at
    case Fill =>
      // only an unseeded rotating refill draws from the operating system, and only that can fail
      (ch.ok || (cfg.rotating && !cfg.seeded)) && (ch.ok && cfg.rotating ==> |ch.bytes| == |w.plain|)
    case RdLock => sh.writer == None
    case _ => true
  }

  predicate GateMay(cfg: Config, sh: Shared, at: GateAt) {
    match at
    case WaitA(_) => sh.arrivedA >= cfg.workers + 1
    case WaitB(_) => sh.arrivedB >= cfg.workers + 1
    case _ => true
  }

  predicate RekeyMay(cfg: Config, sh: Shared, at: RekeyAt, ch: Choice) {
    match at
    case Draw => ch.ok || cfg.parallax || cfg.wrapper
    case RkLock => sh.writer == None && sh.readers == {}
    case _ => true
  }

  predicate ReopenMay(sh: Shared, at: ReopenAt, ch: Choice) {
    match at
    case RoLock => sh.writer == None && sh.readers == {}
    case RoLoad(_) => ch.handle !in sh.hs.live
    case _ => true
  }

  predicate ReturnMay(sh: Shared, at: ReturnAt, ch: Choice) {
    match at
    case DoneLock => sh.doneMu == None
    case DoneCrit => ch.time >= sh.clock
    case Done => false
  }

  /** When the step of one worker may happen, as far as the shared state decides. */
  predicate WorkerMay(cfg: Config, sh: Shared, w: Worker, ch: Choice) {
    match w.pc
    case Iterate(at) => IterateMay(cfg, sh, w, at, ch)
    case Gate(at) => GateMay(cfg, sh, at)
    case Rekey(at) => RekeyMay(cfg, sh, at, ch)
    case Reopen(at) => ReopenMay(sh, at, ch)
    case Return(at) => ReturnMay(sh, at, ch)
  }

  /** The worker waits for the write side. */
  predicate Queued(pc: PC) { pc == Rekey(RkLock) || pc == Reopen(RoLock) }

  /** Some worker is queued for the write side. */
  predicate WriterQueued(s: State) {
    exists j :: 0 <= j < |s.ws| && Queued(s.ws[j].pc)
  }

  // ---------------------------------------------------------------- main steps

  predicate MainMay(cfg: Config, s: State, ch: Choice) {
    match s.m
    case MWaitA => s.sh.arrivedA >= cfg.workers + 1
    case MWaitB => s.sh.arrivedB >= cfg.workers + 1
    case MStamp => ch.time >= s.sh.clock
    case MCheck => ch.time >= s.sh.clock
    case MLock => s.sh.doneMu == None
    case MWait => s.sh.doneMu == None
    case MJoin => forall j :: 0 <= j < |s.ws| ==> s.ws[j].pc == Return(Done)
    case MFinal => false
    case _ => true
  }

  /** The launcher from the warmup barrier to the release of the handles. */
  function StepMain(cfg: Config, s: State, ch: Choice): State {
    var sh := s.sh;
    match s.m
    case MArriveA => s.(sh := sh.(arrivedA := sh.arrivedA + 1), m := MWaitA)
    case MWaitA => s.(m := MStamp)
    case MStamp => s.(sh := sh.(clock := ch.time, startNs := ch.time, finishNs := ch.time), m := MArriveB)
    case MArriveB => s.(sh := sh.(arrivedB := sh.arrivedB + 1), m := MWaitB)
    case MWaitB => s.(m := MLock)
    case MLock => s.(sh := sh.(doneMu := Some(MainThread)), m := MCheck)
    case MCheck =>
      // a signal, or in duration mode the deadline, turns into the stop request; the timed wait releases the mutex
      if sh.active > 0 then
        var late := cfg.iterations == 0 && ch.time - sh.startNs >= cfg.duration;
        s.(sh := sh.(stop := sh.stop || ch.stop || late, doneMu := None,
                     clock := if cfg.iterations == 0 then ch.time else sh.clock), m := MWait)
      else s.(m := MUnlock)
    case MWait => s.(sh := sh.(doneMu := Some(MainThread)), m := MCheck)
    case MUnlock => s.(sh := sh.(doneMu := None), m := MJoin)
    case MJoin => s.(m := MFree(StreamSide))
    case MFree(side) =>
      s.(sh := sh.(hs := Closed(sh.hs, side)), m := if side == StreamSide then MFree(MessageSide) else MFinal)
    case MFinal => s
  }

  // ---------------------------------------------------------------- runs

  datatype Step = ByWorker(i: nat, ch: Choice) | ByMain(ch: Choice)

  predicate Enabled(cfg: Config, s: State, step: Step) {
    !s.sh.mismatch &&
    match step
    case ByWorker(i, ch) =>
      i < |s.ws| && WorkerMay(cfg, s.sh, s.ws[i], ch) &&
      (s.ws[i].pc == Iterate(RdLock) && cfg.writerFirst ==> !WriterQueued(s))
    case ByMain(ch) => MainMay(cfg, s, ch)
  }

  function Apply(cfg: Config, s: State, step: Step): State
    requires Enabled(cfg, s, step)
  {
    match step
    case ByWorker(i, ch) =>
      var (sh', w') := StepWorker(cfg, s.sh, i, s.ws[i], ch);
      s.(sh := sh', ws := s.ws[i := w'])
    case ByMain(ch) => StepMain(cfg, s, ch)
  }

  /** The steps can be taken one after the other from `s`. */
  predicate IsRun(cfg: Config, s: State, steps: seq<Step>)
    decreases |steps|
  {
    steps != [] ==> Enabled(cfg, s, steps[0]) && IsRun(cfg, Apply(cfg, s, steps[0]), steps[1..])
  }

  function After(cfg: Config, s: State, steps: seq<Step>): State
    requires IsRun(cfg, s, steps)
    decreases |steps|
  {
    if steps == [] then s else After(cfg, Apply(cfg, s, steps[0]), steps[1..])
  }

  /** The state `run` has built when it creates the threads: one open handle per active
      side, keyed as its blob, every worker before its warmup iteration. */
  predicate Initial(cfg: Config, s: State) {
    ValidConfig(cfg) &&
    |s.ws| == cfg.workers &&
    (forall i :: 0 <= i < |s.ws| ==> s.ws[i].pc == Iterate(Fill) && s.ws[i].iter == 0 && s.ws[i].iters == 0 && !s.ws[i].failed) &&
    s.m == MArriveA &&
    InitialShared(cfg, s.sh)
  }

  predicate InitialShared(cfg: Config, sh: Shared) {
    Clean(cfg, sh.hs) &&
    sh.readers == {} && sh.writer == None && sh.rekeys == 0 && sh.cycles == 0 && !sh.stop &&
    sh.arrivedA == 0 && sh.arrivedB == 0 && sh.doneMu == None && sh.active == cfg.workers &&
    sh.stamps == 0 && !sh.mismatch
  }

  /** One slot holds an open handle keyed exactly as its retained blob would load. */
  predicate SlotKeyed(hs: Handles, p: Pipe) {
    p.handle in hs.live && hs.live[p.handle] == p.blob
  }

  function SlotHandles(hs: Handles): set<Handle> {
    (if hs.stream.Some? then {hs.stream.value.handle} else {}) +
    (if hs.msg.Some? then {hs.msg.value.handle} else {})
  }

  predicate SlotsDistinct(hs: Handles) {
    hs.stream.Some? && hs.msg.Some? ==> hs.stream.value.handle != hs.msg.value.handle
  }

  predicate SlotsActive(cfg: Config, hs: Handles) {
    (hs.stream.Some? <==> Active(cfg, StreamSide)) && (hs.msg.Some? <==> Active(cfg, MessageSide))
  }

  /** The handle invariant outside a mutation: every active slot is filled, open and keyed
      as its blob, the two slots differ, and the library has no other handle open. */
  predicate Clean(cfg: Config, hs: Handles) {
    SlotsActive(cfg, hs) && SlotsDistinct(hs) &&
    (hs.stream.Some? ==> SlotKeyed(hs, hs.stream.value)) &&
    (hs.msg.Some? ==> SlotKeyed(hs, hs.msg.value)) &&
    hs.live.Keys == SlotHandles(hs)
  }

  /** Main returns from `run`. */
  predicate Final(s: State) { s.m.MFinal? }
}
