/** When two encrypt calls of a seeded run see the same plaintext: any two workers at any two
    points of the run, the exact distance that is safe, and calls that collide below it. */
module Distinct {
  import opened Basics
  import opened Bits
  import opened Payload
  import opened Worked

  /** Draws that ten seeded workers can make before two of them meet: 2^64 less the inverse of
      the increment. */
  const SAFE: int := 0x0E21_7C1E_66C8_8CC3

  // ---------------------------------------------------------------- two workers, two points

  /** Two fills of any two generator states at any two indices. */
  lemma TwoFills(s: Word, i: nat, t: Word, j: nat, n: nat)
    requires n >= 8
    ensures NthFill(s, i, n) == NthFill(t, j, n) <==>
            (s - t + (i * DrawsPerFill(n) - j * DrawsPerFill(n)) * GAMMA) % WORD == 0
  {
    var d := DrawsPerFill(n);
    FillDetermines(StateAfter(s, i * d), StateAfter(t, j * d), n);
    StatesMeet(s, i * d, t, j * d);
  }

  /** How far apart two generators are: `e` steps of the seed and `m` draws. */
  function Offset(e: int, m: int): int { (e + m * GAMMA) % WORD }

  lemma SeedOffset(seed: Word, a: nat, b: nat, m: int)
    ensures (SeedWorker(seed, a) - SeedWorker(seed, b) + m * GAMMA) % WORD == Offset(a - b, m)
  {
    var s, t := SeedWorker(seed, a), SeedWorker(seed, b);
    var p, q := (seed + a + 1) / WORD, (seed + b + 1) / WORD;
    assert s - t + m * GAMMA == a - b + m * GAMMA + (q - p) * WORD;
    ModEqual(s - t + m * GAMMA, a - b + m * GAMMA);
    ModShift(0, q - p);
  }

  /** An offset vanishes exactly when the draws make up for the seeds. */
  lemma OffsetVanishes(e: int, m: int)
    ensures Offset(e, m) == 0 <==> (m - e * SAFE) % WORD == 0
  {
    assert SAFE * GAMMA == (GAMMA - 10771413168148108919) * WORD - 1;
    var x, y := (m - e * SAFE) * GAMMA, e + m * GAMMA;
    assert y - x == e * (GAMMA - 10771413168148108919) * WORD;
    ModEqual(y, x);
    ModShift(0, e * (GAMMA - 10771413168148108919));
    GammaCancels(m - e * SAFE);
  }

  // ---------------------------------------------------------------- all calls of a run

  /** What a worker of a rotating run sees at its encrypt call `k`: one fill is drawn before the
      threads start and one before each call. */
  function CallSees(seed: Word, worker: nat, k: nat, n: nat): Bytes { NthFill(SeedWorker(seed, worker), k + 1, n) }

  /** No two encrypt calls of the run see the same plaintext. */
  ghost predicate CallsDiffer(seed: Word, workers: nat, calls: nat, n: nat) {
    forall a: nat, i: nat, b: nat, j: nat ::
      a < workers && b < workers && i < calls && j < calls && (a != b || i != j) ==>
        CallSees(seed, a, i, n) != CallSees(seed, b, j, n)
  }

  predicate Within(x: int, bound: int) { -bound < x < bound }

  /** Workers `e` ids apart meet over `k` calls of `d` draws each. */
  predicate Meet(e: int, k: int, d: int) { Offset(e, k * d) == 0 }

  /** No two different calls of the run meet. */
  ghost predicate Apart(workers: nat, calls: nat, d: nat) {
    forall e: int, k: int :: Within(e, workers) && Within(k, calls) && (e != 0 || k != 0) ==> !Meet(e, k, d)
  }

  lemma CallsMeet(seed: Word, a: nat, i: nat, b: nat, j: nat, n: nat)
    requires n >= 8
    ensures CallSees(seed, a, i, n) == CallSees(seed, b, j, n) <==> Meet(a - b, i - j, DrawsPerFill(n))
  {
    var d := DrawsPerFill(n);
    TwoFills(SeedWorker(seed, a), i + 1, SeedWorker(seed, b), j + 1, n);
    assert (i + 1) * d - (j + 1) * d == (i - j) * d;
    SeedOffset(seed, a, b, (i - j) * d);
  }

  /** From eight bytes on the whole question is one of arithmetic, the same for every seed. */
  lemma CallsDifferExactly(seed: Word, workers: nat, calls: nat, n: nat)
    requires n >= 8
    ensures CallsDiffer(seed, workers, calls, n) <==> Apart(workers, calls, DrawsPerFill(n))
  {
    var d := DrawsPerFill(n);
    if CallsDiffer(seed, workers, calls, n) {
      forall e: int, k: int | Within(e, workers) && Within(k, calls) && (e != 0 || k != 0)
        ensures !Meet(e, k, d)
      {
        var a: nat, b: nat := if e >= 0 then e else 0, if e >= 0 then 0 else -e;
        var i: nat, j: nat := if k >= 0 then k else 0, if k >= 0 then 0 else -k;
        CallsMeet(seed, a, i, b, j, n);
      }
    }
    if Apart(workers, calls, d) {
      forall a: nat, i: nat, b: nat, j: nat
        | a < workers && b < workers && i < calls && j < calls && (a != b || i != j)
        ensures CallSees(seed, a, i, n) != CallSees(seed, b, j, n)
      {
        CallsMeet(seed, a, i, b, j, n);
        assert !Meet(a - b, i - j, d);
      }
    }
  }

  /** Up to ten workers are apart while fewer than `SAFE` draws separate their calls. */
  lemma SafeDistance(workers: nat, calls: nat, d: nat)
    requires workers <= 10 && calls >= 1 && d >= 1 && (calls - 1) * d < SAFE
    ensures Apart(workers, calls, d)
  {
    forall e: int, k: int | Within(e, workers) && Within(k, calls) && (e != 0 || k != 0)
      ensures !Meet(e, k, d)
    {
      Stretch(k, calls - 1, d);
      OffsetVanishes(e, k * d);
      SmallMultiple(k * d - e * SAFE);
    }
  }

  lemma Stretch(k: int, most: int, d: nat)
    requires -most <= k <= most && d >= 1
    ensures -(most * d) <= k * d <= most * d && (k * d == 0 <==> k == 0)
  {
  }

  lemma SmallMultiple(x: int)
    requires -WORD < x < WORD
    ensures x % WORD == 0 <==> x == 0
  {
  }

  /** The distance is exact: with eight bytes, two to ten workers and any seed, no two calls
      see the same plaintext if and only if no worker makes more than `SAFE` calls. */
  lemma EightBytes(seed: Word, workers: nat, calls: nat)
    requires 2 <= workers <= 10 && calls >= 1
    ensures CallsDiffer(seed, workers, calls, 8) <==> calls <= SAFE
  {
    CallsDifferExactly(seed, workers, calls, 8);
    assert DrawsPerFill(8) == 1;
    if calls <= SAFE {
      SafeDistance(workers, calls, 1);
    } else {
      OffsetVanishes(1, SAFE * 1);
      assert Meet(1, SAFE, 1);
    }
  }

  lemma MeetAtSafe()
    ensures Meet(0 - 1, 0 - SAFE, DrawsPerFill(8))
  {
    OffsetVanishes(-1, -SAFE);
    assert DrawsPerFill(8) == 1 && -SAFE * 1 == -SAFE;
  }

  /** The pair that meets there: worker 0 at its first call and worker 1 at call `SAFE`. */
  lemma FirstMeeting(seed: Word)
    ensures CallSees(seed, 0, 0, 8) == CallSees(seed, 1, SAFE, 8)
  {
    CallsMeet(seed, 0, 0, 1, SAFE, 8);
    MeetAtSafe();
  }

  // ---------------------------------------------------------------- short payloads

  /** Seeds under which short buffers coincide: of workers 0 and 2 at their first fill and at
      their first call, and of workers 0 and 1 likewise. */
  const FILL_SEED: Word := 5696591281308509160
  const CALL_SEED: Word := 12742620535694862291
  const START_SEED: Word := 15451677511428227785
  const SECOND_SEED: Word := 4050962692105029300

  /** The state of a worker before its draw `k`; `q` counts the wraps. */
  predicate Reaches(seed: Word, worker: nat, k: nat, q: nat, z: Word) {
    seed + worker + 1 < WORD && seed + worker + 1 + (k + 1) * GAMMA == q * WORD + z
  }

  lemma StateReached(seed: Word, worker: nat, k: nat, q: nat, z: Word)
    requires Reaches(seed, worker, k, q, z)
    ensures StateAfter(SeedWorker(seed, worker), k + 1) == z
  {
    ModShift(z, q);
  }

  lemma DrawReached(seed: Word, worker: nat, k: nat, q: nat, z: Word)
    requires Reaches(seed, worker, k, q, z)
    ensures Draw(SeedWorker(seed, worker), k) == Mix(z)
  {
    StateReached(seed, worker, k, q, z);
  }

  /** Bytes above a short fill do not show in it. */
  lemma {:induction false} HighPart(low: nat, high: nat, m: nat, k: nat)
    requires k < m
    ensures ByteOf(low + high * Pow2(8 * m), k) == ByteOf(low, k)
    decreases k
  {
    Pow2Byte(8 * (m - 1));
    var h := high * Pow2(8 * (m - 1));
    assert high * Pow2(8 * m) == 256 * h;
    assert (low + 256 * h) % 256 == low % 256 && (low + 256 * h) / 256 == low / 256 + h;
    if k > 0 { HighPart(low / 256, high, m - 1, k - 1); }
  }

  /** 256 to the power of six or seven. */
  function Span(m: nat): nat { if m == 7 then 0x100_0000_0000_0000 else 0x1_0000_0000_0000 }

  lemma TailPowers()
    ensures Pow2(8 * 6) == 0x1_0000_0000_0000 && Pow2(8 * 7) == 0x100_0000_0000_0000
  {
    WordPow();
    FourMore(48);
    FourMore(52);
    FourMore(56);
    FourMore(60);
  }

  lemma SameLowBytes(s: Word, i: nat, t: Word, j: nat, n: nat, m: nat, low: nat, p: nat, q: nat)
    requires 1 <= n <= m < 8
    requires Draw(s, i) == low + p * Pow2(8 * m) && Draw(t, j) == low + q * Pow2(8 * m)
    ensures NthFill(s, i, n) == NthFill(t, j, n)
  {
    forall k | 0 <= k < n ensures ByteOf(Draw(s, i), k) == ByteOf(Draw(t, j), k) {
      HighPart(low, p, m, k);
      HighPart(low, q, m, k);
    }
    SameShortFill(s, i, t, j, n);
  }

  /** Two draws that agree in their low bytes give equal short fills. */
  lemma DrawsMeet(seed: Word, a: nat, i: nat, p: nat, y: Word, b: nat, j: nat, q: nat, z: Word,
                  n: nat, m: nat, low: nat, g: nat, h: nat)
    requires Reaches(seed, a, i, p, y) && Mix(y) == low + g * Span(m)
    requires Reaches(seed, b, j, q, z) && Mix(z) == low + h * Span(m)
    requires 1 <= n <= m && (m == 6 || m == 7)
    ensures NthFill(SeedWorker(seed, a), i, n) == NthFill(SeedWorker(seed, b), j, n)
  {
    DrawReached(seed, a, i, p, y);
    DrawReached(seed, b, j, q, z);
    TailPowers();
    SameLowBytes(SeedWorker(seed, a), i, SeedWorker(seed, b), j, n, m, low, g, h);
  }

  /** At most seven bytes: under this seed workers 0 and 2 hold the same buffer from the start. */
  lemma ShortFillsMeet(n: nat)
    requires 1 <= n <= 7
    ensures NthFill(SeedWorker(FILL_SEED, 0), 0, n) == NthFill(SeedWorker(FILL_SEED, 2), 0, n)
  {
    var y, _ := FirstFill();
    var z, _ := SecondFill();
    DrawsMeet(FILL_SEED, 0, 0, 0, y, 2, 0, 0, z, n, 7, 0xB_A95D_910D_9A74, 0x27, 0x79);
  }

  /** And under this one the same two workers see the same plaintext at their first calls. */
  lemma ShortCallsMeet(n: nat)
    requires 1 <= n <= 7
    ensures CallSees(CALL_SEED, 0, 0, n) == CallSees(CALL_SEED, 2, 0, n)
  {
    var y, _ := FirstFill();
    var z, _ := SecondFill();
    DrawsMeet(CALL_SEED, 0, 1, 1, y, 2, 1, 1, z, n, 7, 0xB_A95D_910D_9A74, 0x27, 0x79);
  }

  /** Only two workers, at most seven bytes: seed 5 has them see the same plaintext later on. */
  lemma TwoWorkersMeet(n: nat)
    requires 1 <= n <= 7
    ensures CallSees(5, 0, 28109709, n) == CallSees(5, 1, 37924538, n)
  {
    var y, _ := FirstCall();
    var z, _ := SecondCall();
    DrawsMeet(5, 0, 28109710, 17372756, y, 1, 37924539, 23438654, z, n, 7, 0xD7_482D_B789_A85F, 0xAA, 0xCB);
  }

  /** Only two workers, at most six bytes: under this seed they hold the same buffer from the
      start. */
  lemma FirstTwoMeet(n: nat)
    requires 1 <= n <= 6
    ensures NthFill(SeedWorker(START_SEED, 0), 0, n) == NthFill(SeedWorker(START_SEED, 1), 0, n)
  {
    var y, _ := FirstStart();
    var z, _ := SecondStart();
    DrawsMeet(START_SEED, 0, 0, 1, y, 1, 0, 1, z, n, 6, 0xD9F5_783F_EFD1, 0xC4B6, 0xFFB3);
  }

  /** And under this one they see the same plaintext at their first calls. */
  lemma FirstTwoCallsMeet(n: nat)
    requires 1 <= n <= 6
    ensures CallSees(SECOND_SEED, 0, 0, n) == CallSees(SECOND_SEED, 1, 0, n)
  {
    var y, _ := FirstStart();
    var z, _ := SecondStart();
    DrawsMeet(SECOND_SEED, 0, 1, 1, y, 1, 1, 1, z, n, 6, 0xD9F5_783F_EFD1, 0xC4B6, 0xFFB3);
  }

  // ---------------------------------------------------------------- the exact conditions

  /** The calls two workers make before they meet under seed 5. */
  const MEETING: nat := 37924539

  /** "No two encrypt calls see the same plaintext", for every seed and any run within the safe
      distance: exactly from eight bytes on. (Two workers with seven bytes: only for runs that
      reach the calls of `TwoWorkersMeet`.) */
  lemma EncryptCallsExactly(workers: nat, calls: nat, n: nat)
    requires n >= 1 && 2 <= workers <= 10 && calls >= 1 && (calls - 1) * DrawsPerFill(n) < SAFE
    requires workers > 2 || n != 7 || calls >= MEETING
    ensures (forall seed: Word :: seed != 0 ==> CallsDiffer(seed, workers, calls, n)) <==> n >= 8
  {
    if n >= 8 {
      forall seed: Word | seed != 0 ensures CallsDiffer(seed, workers, calls, n) {
        CallsDifferExactly(seed, workers, calls, n);
        SafeDistance(workers, calls, DrawsPerFill(n));
      }
    } else if workers > 2 {
      ShortCallsMeet(n);
      assert !CallsDiffer(CALL_SEED, workers, calls, n);
    } else if n < 7 {
      FirstTwoCallsMeet(n);
      assert !CallsDiffer(SECOND_SEED, workers, calls, n);
    } else {
      TwoWorkersMeet(n);
      assert !CallsDiffer(5, workers, calls, n);
    }
  }

  /** The workers of a run hold different buffers at every equal fill index. */
  ghost predicate WorkersDistinct(seed: Word, workers: nat, n: nat) {
    forall a: nat, b: nat, i: nat :: a < b < workers ==>
      NthFill(SeedWorker(seed, a), i, n) != NthFill(SeedWorker(seed, b), i, n)
  }

  /** "Seeded workers hold pairwise-distinct buffers" at every equal fill index, for every seed
      and any number of workers: exactly from eight bytes on. (Two workers with seven bytes
      are left open.) */
  lemma WorkersExactly(workers: nat, n: nat)
    requires n >= 1 && 2 <= workers <= 0x8000_0000 && (workers > 2 || n != 7)
    ensures (forall seed: Word :: seed != 0 ==> WorkersDistinct(seed, workers, n)) <==> n >= 8
  {
    if n >= 8 {
      forall seed: Word, a: nat, b: nat, i: nat | seed != 0 && a < b < workers
        ensures NthFill(SeedWorker(seed, a), i, n) != NthFill(SeedWorker(seed, b), i, n)
      {
        WorkersDiffer(seed, a, b, i, n);
      }
    } else if workers > 2 {
      ShortFillsMeet(n);
      assert !WorkersDistinct(FILL_SEED, workers, n);
    } else {
      FirstTwoMeet(n);
      assert !WorkersDistinct(START_SEED, workers, n);
    }
  }
}
