/** Seeded plaintext (loop/payload.c): the splitmix64 step, the payload fill, and what the
    comments promise about distinct buffers, with the exact payload size from which it holds. */
module Payload {
  import opened Basics
  import opened Bits

  const GAMMA: int := 0x9E3779B97F4A7C15

  // Inverses modulo 2^64 of the three odd constants, used only to state what undoes a step.
  const GAMMA_INVERSE: int := 0xF1DE83E19937733D
  const FIRST_INVERSE: int := 0x96DE1B173F119089
  const SECOND_INVERSE: int := 0x319642B2D24D8EC3

  // ---------------------------------------------------------------- the mixing step

  function Mix(z: Word): Word {
    XorShiftWord(z, 30);
    var a := Mul(XorShift(z, 30), FIRST_MULTIPLIER);
    XorShiftWord(a, 27);
    var b := Mul(XorShift(a, 27), SECOND_MULTIPLIER);
    XorShiftWord(b, 31);
    XorShift(b, 31)
  }

  /** The same with a name for every intermediate word. */
  lemma MixSteps(z: Word, x: Word, a: Word, y: Word, b: Word, v: Word)
    requires XorShift(z, 30) == x && Mul(x, FIRST_MULTIPLIER) == a
    requires XorShift(a, 27) == y && Mul(y, SECOND_MULTIPLIER) == b
    requires XorShift(b, 31) == v
    ensures Mix(z) == v
  {
  }

  /** The state that mixes to `v`. */
  function Unmix(v: Word): Word {
    XorShiftWord(v, 31);
    var b := Mul(UndoXorShift(v, 31), SECOND_INVERSE);
    XorShiftWord(b, 27);
    var a := Mul(UndoXorShift(b, 27), FIRST_INVERSE);
    XorShiftWord(a, 30);
    UndoXorShift(a, 30)
  }

  lemma UndoFirst(z: Word)
    ensures Mul(Mul(z, FIRST_MULTIPLIER), FIRST_INVERSE) == z
    ensures Mul(Mul(z, FIRST_INVERSE), FIRST_MULTIPLIER) == z
  {
    MulUndo(z, FIRST_MULTIPLIER, FIRST_INVERSE, 8125545580553827436);
    MulUndo(z, FIRST_INVERSE, FIRST_MULTIPLIER, 8125545580553827436);
  }

  lemma UndoSecond(z: Word)
    ensures Mul(Mul(z, SECOND_MULTIPLIER), SECOND_INVERSE) == z
    ensures Mul(Mul(z, SECOND_INVERSE), SECOND_MULTIPLIER) == z
  {
    MulUndo(z, SECOND_MULTIPLIER, SECOND_INVERSE, 2077064247507883091);
    MulUndo(z, SECOND_INVERSE, SECOND_MULTIPLIER, 2077064247507883091);
  }

  /** The output step is a bijection on 64-bit words. */
  lemma MixBijective(z: Word)
    ensures Unmix(Mix(z)) == z
    ensures Mix(Unmix(z)) == z
  {
    MixThenUnmix(z);
    UnmixThenMix(z);
  }

  lemma MixInjective(a: Word, b: Word)
    ensures Mix(a) == Mix(b) <==> a == b
  {
    MixBijective(a);
    MixBijective(b);
  }

  lemma MixThenUnmix(z: Word)
    ensures Unmix(Mix(z)) == z
  {
    XorShiftWord(z, 30);
    var a0 := XorShift(z, 30);
    var a := Mul(a0, FIRST_MULTIPLIER);
    XorShiftWord(a, 27);
    var b0 := XorShift(a, 27);
    var b := Mul(b0, SECOND_MULTIPLIER);
    UndoAfter(b, 31);
    UndoSecond(b0);
    UndoAfter(a, 27);
    UndoFirst(a0);
    UndoAfter(z, 30);
  }

  lemma UnmixThenMix(v: Word)
    ensures Mix(Unmix(v)) == v
  {
    XorShiftWord(v, 31);
    var b0 := UndoXorShift(v, 31);
    var b := Mul(b0, SECOND_INVERSE);
    XorShiftWord(b, 27);
    var a0 := UndoXorShift(b, 27);
    var a := Mul(a0, FIRST_INVERSE);
    UndoBefore(a, 30);
    UndoFirst(a0);
    UndoBefore(b, 27);
    UndoSecond(b0);
    UndoBefore(v, 31);
  }

  // ---------------------------------------------------------------- the state sequence

  /** The generator state after `k` draws from state `s`. */
  function StateAfter(s: Word, k: nat): Word { (s + k * GAMMA) % WORD }

  /** The `k`-th value drawn from state `s`, counting from zero. */
  function Draw(s: Word, k: nat): Word { Mix(StateAfter(s, k + 1)) }

  lemma ModSum(a: int, b: int)
    ensures (a % WORD + b) % WORD == (a + b) % WORD
  {
    ModShift((a % WORD + b) % WORD, (a % WORD + b) / WORD + a / WORD);
  }

  lemma StateAfterAfter(s: Word, j: nat, k: nat)
    ensures StateAfter(StateAfter(s, j), k) == StateAfter(s, j + k)
  {
    ModSum(s + j * GAMMA, k * GAMMA);
    assert (j + k) * GAMMA == j * GAMMA + k * GAMMA;
  }

  lemma ModEqual(a: int, b: int)
    ensures a % WORD == b % WORD <==> (a - b) % WORD == 0
  {
    if (a - b) % WORD == 0 {
      ModShift(b % WORD, b / WORD + (a - b) / WORD);
    }
  }

  /** Multiples of the odd increment vanish only with their factor. */
  lemma GammaCancels(d: int)
    ensures d * GAMMA % WORD == 0 <==> d % WORD == 0
  {
    var r, t := d % WORD, d / WORD;
    assert d * GAMMA == r * GAMMA + t * GAMMA * WORD;
    assert d * GAMMA % WORD == Mul(r, GAMMA) by {
      ModShift(Mul(r, GAMMA), r * GAMMA / WORD + t * GAMMA);
    }
    MulUndo(r, GAMMA, GAMMA_INVERSE, 10771413168148108919);
    MulUndo(0, GAMMA, GAMMA_INVERSE, 10771413168148108919);
    assert Mul(0, GAMMA) == 0;
  }

  /** When two positions in two sequences hold the same state. */
  lemma StatesMeet(s: Word, j: nat, t: Word, k: nat)
    ensures StateAfter(s, j) == StateAfter(t, k) <==> (s - t + (j - k) * GAMMA) % WORD == 0
  {
    ModEqual(s + j * GAMMA, t + k * GAMMA);
    assert s + j * GAMMA - (t + k * GAMMA) == s - t + (j - k) * GAMMA;
  }

  lemma StatesRecur(s: Word, j: nat, k: nat)
    ensures StateAfter(s, j) == StateAfter(s, k) <==> (j - k) % WORD == 0
  {
    StatesMeet(s, j, s, k);
    GammaCancels(j - k);
  }

  lemma StatesStayApart(s: Word, t: Word, k: nat)
    ensures StateAfter(s, k) == StateAfter(t, k) <==> s == t
  {
    StatesMeet(s, k, t, k);
    assert (k - k) * GAMMA == 0;
  }

  /** Full period: two draws from the same state agree exactly when their indices agree
      modulo 2^64. */
  lemma FullPeriod(s: Word, j: nat, k: nat)
    ensures Draw(s, j) == Draw(s, k) <==> (j - k) % WORD == 0
  {
    MixInjective(StateAfter(s, j + 1), StateAfter(s, k + 1));
    StatesRecur(s, j + 1, k + 1);
  }

  /** How many draws lead from state `s` to state `target`. */
  function Distance(s: Word, target: Word): nat { Mul((target - s) % WORD, GAMMA_INVERSE) }

  /** Which of the next 2^64 draws yields `v`. */
  function IndexOf(s: Word, v: Word): nat { IndexTo(s, Unmix(v)) }

  /** The draw whose state is `target`. */
  function IndexTo(s: Word, target: Word): nat { (Distance(s, target) - 1) % WORD }

  lemma DistanceReaches(s: Word, target: Word, k: nat)
    requires k % WORD == Distance(s, target)
    ensures StateAfter(s, k) == target
  {
    var d := (target - s) % WORD;
    MulUndo(d, GAMMA_INVERSE, GAMMA, 10771413168148108919);
    var m := Distance(s, target);
    assert m * GAMMA % WORD == d;
    MultipleMod(k, GAMMA);
    ModSum(k * GAMMA, s);
    ModSum(target - s, s);
    assert (s + k * GAMMA) % WORD == target % WORD;
  }

  lemma MultipleMod(k: nat, g: nat)
    ensures k * g % WORD == k % WORD * g % WORD
  {
    var r, t := k % WORD, k / WORD;
    assert k * g == r * g + t * g * WORD;
    ModEqual(k * g, r * g);
    ModShift(0, t * g);
  }

  lemma Predecessor(d: Word)
    ensures 0 <= (d - 1) % WORD < WORD && ((d - 1) % WORD + 1) % WORD == d
  {
    ModSum(d - 1, 1);
  }

  lemma IndexReaches(s: Word, target: Word)
    ensures IndexTo(s, target) < WORD && StateAfter(s, IndexTo(s, target) + 1) == target
  {
    Predecessor(Distance(s, target));
    DistanceReaches(s, target, IndexTo(s, target) + 1);
  }

  lemma DrawReaches(s: Word, target: Word, v: Word, k: nat)
    requires Mix(target) == v && StateAfter(s, k + 1) == target
    ensures Draw(s, k) == v
  {
  }

  /** Every word is drawn within one period. */
  lemma EveryWordDrawn(s: Word, v: Word)
    ensures IndexOf(s, v) < WORD && Draw(s, IndexOf(s, v)) == v
  {
    MixBijective(v);
    IndexReaches(s, Unmix(v));
    DrawReaches(s, Unmix(v), v, IndexOf(s, v));
  }

  // ---------------------------------------------------------------- the fill

  /** Byte `k` of a word in memory, least significant first. */
  function ByteOf(v: nat, k: nat): Byte
    decreases k
  {
    if k == 0 then v % 256 else ByteOf(v / 256, k - 1)
  }

  /** Number of draws one fill of `n` bytes uses. */
  function DrawsPerFill(n: nat): nat { (n + 7) / 8 }

  /** The seeded buffer of `n` bytes drawn from state `s`: byte `i` is byte `i % 8` of draw
      `i / 8`. */
  function FillBytes(s: Word, n: nat): Bytes { seq(n, i requires 0 <= i < n => ByteOf(Draw(s, i / 8), i % 8)) }

  /** A word is determined by its bytes. */
  lemma {:induction false} BytesDetermine(v: nat, w: nat, k: nat)
    requires v < Pow2(8 * k) && w < Pow2(8 * k)
    requires forall i :: 0 <= i < k ==> ByteOf(v, i) == ByteOf(w, i)
    ensures v == w
    decreases k
  {
    if k > 0 {
      Pow2Byte(8 * (k - 1));
      assert v % 256 == ByteOf(v, 0) == ByteOf(w, 0) == w % 256;
      forall i | 0 <= i < k - 1 ensures ByteOf(v / 256, i) == ByteOf(w / 256, i) {
        assert ByteOf(v, i + 1) == ByteOf(w, i + 1);
      }
      BytesDetermine(v / 256, w / 256, k - 1);
    }
  }

  lemma WordBytesDetermine(v: Word, w: Word)
    requires forall i :: 0 <= i < 8 ==> ByteOf(v, i) == ByteOf(w, i)
    ensures v == w
  {
    WordPow();
    BytesDetermine(v, w, 8);
  }

  lemma Pow2Byte(k: nat)
    ensures Pow2(k + 8) == 256 * Pow2(k)
  {
    assert Pow2(k + 2) == 4 * Pow2(k);
    assert Pow2(k + 4) == 4 * Pow2(k + 2);
    assert Pow2(k + 6) == 4 * Pow2(k + 4);
    assert Pow2(k + 8) == 4 * Pow2(k + 6);
  }

  lemma StateAfterZero(s: Word)
    ensures StateAfter(s, 0) == s
  {
    assert 0 * GAMMA == 0;
  }

  datatype Mode = Fixed | Rotating | PatternZero | PatternFf | PatternAscii

  /** Each worker's stream starts one further than its predecessor's. */
  function SeedWorker(seed: Word, workerId: nat): Word { (seed + workerId + 1) % WORD }

  /** One worker's generator. */
  class Generator {
    var state: Word

    constructor (seed: Word, workerId: nat)
      ensures state == SeedWorker(seed, workerId)
    {
      state := SeedWorker(seed, workerId);
    }

    method Next() returns (v: Word)
      modifies this
      ensures state == StateAfter(old(state), 1)
      ensures v == Draw(old(state), 0)
    {
      state := (state + GAMMA) % WORD;
      v := Mix(state);
    }
  }

  /** The operating system's generator: each call delivers some bytes or fails; `given` is
      everything delivered so far. */
  class Csprng {
    ghost var given: Bytes
    ghost var failures: nat   // calls that failed or delivered nothing

    constructor () { given, failures := [], 0; }

    /** `getrandom(buf + off, n - off, 0)`. */
    method GetRandom(buf: array<Byte>, off: nat) returns (r: int)
      requires off < buf.Length
      modifies this, buf
      ensures r <= buf.Length - off && failures == old(failures) + (if r <= 0 then 1 else 0)
      ensures r <= 0 ==> given == old(given)
      ensures r > 0 ==> given == old(given) + buf[off..off + r]
      ensures buf[..off] == old(buf[..off])
    {
      var delivered: seq<Byte> := *;
      var failed: bool := *;
      r := if failed then -1 else if |delivered| <= buf.Length - off then |delivered| else buf.Length - off;
      forall i | 0 <= i < r { buf[off + i] := delivered[i]; }
      given := given + if r > 0 then buf[off..off + r] else [];
      failures := failures + if r <= 0 then 1 else 0;
    }
  }

  /** Success leaves exactly the bytes the system delivered during the call, in order,
      however the reads were split; it fails exactly where a read does, and at once. */
  method FillRandom(source: Csprng, buf: array<Byte>) returns (ok: bool)
    modifies source, buf
    ensures ok ==> source.given == old(source.given) + buf[..]
    ensures source.failures == old(source.failures) + (if ok then 0 else 1)
  {
    var off := 0;
    ok := true;
    assert buf[..0] == [];
    while off < buf.Length
      invariant off <= buf.Length
      invariant source.given == old(source.given) + buf[..off] && source.failures == old(source.failures)
    {
      ghost var done := buf[..off];
      var r := source.GetRandom(buf, off);
      if r <= 0 { return false; }
      assert buf[..off + r] == done + buf[off..off + r];
      off := off + r;
    }
    assert buf[..off] == buf[..];
  }

  method FillPayload(mode: Mode, seeded: bool, rng: Generator, source: Csprng, buf: array<Byte>)
    returns (ok: bool)
    modifies rng, source, buf
    ensures mode.PatternZero? ==> ok && forall i :: 0 <= i < buf.Length ==> buf[i] == 0
    ensures mode.PatternFf? ==> ok && forall i :: 0 <= i < buf.Length ==> buf[i] == 255
    ensures mode.PatternAscii? ==> ok && forall i :: 0 <= i < buf.Length ==> buf[i] == 65 + i % 26
    ensures (mode.Fixed? || mode.Rotating?) && seeded ==>
              ok && buf[..] == FillBytes(old(rng.state), buf.Length)
    ensures (mode.Fixed? || mode.Rotating?) && !seeded && ok ==>
              source.given == old(source.given) + buf[..]
    ensures rng.state == if (mode.Fixed? || mode.Rotating?) && seeded
                         then StateAfter(old(rng.state), DrawsPerFill(buf.Length)) else old(rng.state)
    ensures (seeded || !(mode.Fixed? || mode.Rotating?)) ==> source.given == old(source.given)
    ensures source.failures == old(source.failures) + (if ok then 0 else 1)
  {
    match mode
    case Fixed =>
      ok := FillDrawn(seeded, rng, source, buf);
    case Rotating =>
      ok := FillDrawn(seeded, rng, source, buf);
    case PatternZero =>
      forall i | 0 <= i < buf.Length { buf[i] := 0; }
      ok := true;
    case PatternFf =>
      forall i | 0 <= i < buf.Length { buf[i] := 255; }
      ok := true;
    case PatternAscii =>
      for i := 0 to buf.Length
        modifies buf
        invariant forall j :: 0 <= j < i ==> buf[j] == 65 + j % 26
      {
        buf[i] := 65 + i % 26;
      }
      ok := true;
  }

  /** The shared branch of the fixed and rotating modes. */
  method FillDrawn(seeded: bool, rng: Generator, source: Csprng, buf: array<Byte>) returns (ok: bool)
    modifies rng, source, buf
    ensures seeded ==> ok && buf[..] == FillBytes(old(rng.state), buf.Length)
    ensures !seeded && ok ==> source.given == old(source.given) + buf[..]
    ensures rng.state == if seeded then StateAfter(old(rng.state), DrawsPerFill(buf.Length)) else old(rng.state)
    ensures seeded ==> source.given == old(source.given)
    ensures source.failures == old(source.failures) + (if ok then 0 else 1)
  {
    if !seeded {
      ok := FillRandom(source, buf);
      return;
    }
    FillSeeded(rng, buf);
    ok := true;
  }

  /** Where the fill stands after `m` draws of `n` bytes in all. */
  predicate FillAt(i: nat, m: nat, n: nat) {
    i == (if 8 * m <= n then 8 * m else n) && (i < n || m == DrawsPerFill(n))
  }

  lemma FillNone(n: nat)
    ensures FillAt(0, 0, n)
  {
  }

  lemma FillOn(i: nat, m: nat, n: nat, take: nat)
    requires FillAt(i, m, n) && i < n && take == (if n - i < 8 then n - i else 8)
    ensures i == 8 * m && take <= 8 && FillAt(i + take, m + 1, n)
  {
  }

  lemma FilledWhole(b: Bytes, s: Word)
    requires Filled(b, s, |b|)
    ensures b == FillBytes(s, |b|)
  {
  }

  /** The next draw of a fill goes into the next `take` places. */
  method FillNext(rng: Generator, buf: array<Byte>, i: nat, take: nat, ghost s: Word, ghost m: nat)
    requires take <= 8 && i + take <= buf.Length && i == 8 * m
    requires rng.state == StateAfter(s, m) && Filled(buf[..], s, i)
    modifies rng, buf
    ensures rng.state == StateAfter(s, m + 1) && Filled(buf[..], s, i + take)
  {
    ghost var before := buf[..];
    var v := rng.Next();
    DrawOf(s, m);
    CopyWord(buf, i, v, take);
    FillStep(before, buf[..], s, m, take);
  }

  /** Eight bytes per draw, the last draw cut short. */
  method FillSeeded(rng: Generator, buf: array<Byte>)
    modifies rng, buf
    ensures buf[..] == FillBytes(old(rng.state), buf.Length)
    ensures rng.state == StateAfter(old(rng.state), DrawsPerFill(buf.Length))
  {
    var n := buf.Length;
    var i := 0;
    ghost var m: nat := 0;
    ghost var s := rng.state;
    StateAfterZero(s);
    FillNone(n);
    while i < n
      invariant i <= n && FillAt(i, m, n)
      invariant rng.state == StateAfter(s, m)
      invariant Filled(buf[..], s, i)
    {
      var take := if n - i < 8 then n - i else 8;
      FillOn(i, m, n, take);
      FillNext(rng, buf, i, take, s, m);
      i := i + take;
      m := m + 1;
    }
    FilledWhole(buf[..], s);
  }

  /** The first `i` bytes are those of the fill from state `s`. */
  ghost predicate Filled(b: Bytes, s: Word, i: nat) {
    i <= |b| && forall j :: 0 <= j < i ==> b[j] == ByteOf(Draw(s, j / 8), j % 8)
  }

  lemma DrawOf(s: Word, m: nat)
    ensures Draw(StateAfter(s, m), 0) == Draw(s, m)
    ensures StateAfter(StateAfter(s, m), 1) == StateAfter(s, m + 1)
  {
    StateAfterAfter(s, m, 1);
  }

  lemma ByteIndex(j: nat, m: nat)
    requires 8 * m <= j < 8 * m + 8
    ensures j / 8 == m && j % 8 == j - 8 * m
  {
  }

  lemma FillStep(before: Bytes, after: Bytes, s: Word, m: nat, take: nat)
    requires take <= 8 && 8 * m + take <= |after| == |before|
    requires Filled(before, s, 8 * m)
    requires forall j :: 0 <= j < |after| ==>
               after[j] == if 8 * m <= j < 8 * m + take then ByteOf(Draw(s, m), j - 8 * m) else before[j]
    ensures Filled(after, s, 8 * m + take)
  {
    forall j | 0 <= j < 8 * m + take ensures after[j] == ByteOf(Draw(s, j / 8), j % 8) {
      if j >= 8 * m { ByteIndex(j, m); }
    }
  }

  /** `memcpy(buf + i, &v, take)` on a little-endian machine. */
  method CopyWord(buf: array<Byte>, i: nat, v: Word, take: nat)
    requires take <= 8 && i + take <= buf.Length
    modifies buf
    ensures forall j :: 0 <= j < buf.Length ==>
              buf[j] == if i <= j < i + take then ByteOf(v, j - i) else old(buf[j])
  {
    forall j | 0 <= j < take { buf[i + j] := ByteOf(v, j); }
  }

  // ---------------------------------------------------------------- what the comments promise

  lemma FillByte(s: Word, n: nat, i: nat)
    requires i < n
    ensures FillBytes(s, n)[i] == ByteOf(Draw(s, i / 8), i % 8)
  {
  }

  lemma FirstBytes(s: Word, n: nat, i: nat)
    requires i < 8 <= n
    ensures FillBytes(s, n)[i] == ByteOf(Draw(s, 0), i)
  {
    FillByte(s, n, i);
    ByteIndex(i, 0);
  }

  lemma FillStart(s: Word, t: Word, n: nat)
    requires n >= 8 && FillBytes(s, n) == FillBytes(t, n)
    ensures Draw(s, 0) == Draw(t, 0)
  {
    forall i | 0 <= i < 8 ensures ByteOf(Draw(s, 0), i) == ByteOf(Draw(t, 0), i) {
      FirstBytes(s, n, i);
      FirstBytes(t, n, i);
    }
    WordBytesDetermine(Draw(s, 0), Draw(t, 0));
  }

  /** From eight bytes on, the buffer determines the generator state. */
  lemma FillDetermines(s: Word, t: Word, n: nat)
    requires n >= 8
    ensures FillBytes(s, n) == FillBytes(t, n) <==> s == t
  {
    if FillBytes(s, n) == FillBytes(t, n) {
      FillStart(s, t, n);
      MixInjective(StateAfter(s, 1), StateAfter(t, 1));
      StatesStayApart(s, t, 1);
    }
  }

  /** The `i`-th fill of `n` bytes by a worker whose generator starts at `s`. */
  function NthFill(s: Word, i: nat, n: nat): Bytes { FillBytes(StateAfter(s, i * DrawsPerFill(n)), n) }

  /** Where one fill leaves the generator, the next one starts. */
  lemma FillsFollow(s: Word, i: nat, n: nat)
    ensures StateAfter(StateAfter(s, i * DrawsPerFill(n)), DrawsPerFill(n)) == StateAfter(s, (i + 1) * DrawsPerFill(n))
  {
    var d := DrawsPerFill(n);
    StateAfterAfter(s, i * d, d);
    assert i * d + d == (i + 1) * d;
  }

  /** Two fills of one rotating worker of at least eight bytes agree exactly when a multiple
      of 2^64 draws lies between them. */
  lemma RotatingRepeats(s: Word, i: nat, j: nat, n: nat)
    requires n >= 8
    ensures NthFill(s, i, n) == NthFill(s, j, n) <==> (i - j) * DrawsPerFill(n) % WORD == 0
  {
    var d := DrawsPerFill(n);
    FillDetermines(StateAfter(s, i * d), StateAfter(s, j * d), n);
    StatesRecur(s, i * d, j * d);
    assert i * d - j * d == (i - j) * d;
  }

  /** No buffer is repeated while fewer than 2^64 draws separate the two fills. */
  ghost predicate NeverRepeats(s: Word, n: nat) {
    forall i: nat, j: nat :: i < j && (j - i) * DrawsPerFill(n) < WORD ==> NthFill(s, i, n) != NthFill(s, j, n)
  }

  /** "No two encrypt calls see the same plaintext" holds of a seeded rotating worker exactly
      for payloads of at least eight bytes (or none): shorter ones drop bytes of the draw. */
  lemma RotatingExactly(s: Word, n: nat)
    requires n >= 1
    ensures NeverRepeats(s, n) <==> n >= 8
  {
    if n >= 8 {
      forall i: nat, j: nat | i < j && (j - i) * DrawsPerFill(n) < WORD
        ensures NthFill(s, i, n) != NthFill(s, j, n)
      {
        RotatingRepeats(s, j, i, n);
        PositiveProduct(j - i, DrawsPerFill(n));
      }
    } else {
      var i, j := ShortFillsCollide(s, n);
      assert DrawsPerFill(n) == 1;
      assert NthFill(s, i, n) == NthFill(s, j, n);
    }
  }

  lemma {:induction false} LowBytesZero(k: nat, i: nat)
    requires i < k
    ensures ByteOf(Pow2(8 * k), i) == 0 && ByteOf(0, i) == 0
    decreases i
  {
    Pow2Byte(8 * (k - 1));
    if i > 0 { LowBytesZero(k - 1, i - 1); }
  }

  /** A fill of less than a word is one draw, cut short. */
  lemma ShortFill(s: Word, i: nat, n: nat, k: nat)
    requires 1 <= n < 8 && k < n
    ensures NthFill(s, i, n)[k] == ByteOf(Draw(s, i), k)
  {
    assert i * DrawsPerFill(n) == i by { assert DrawsPerFill(n) == 1; }
    DrawOf(s, i);
    FillByte(StateAfter(s, i), n, k);
    ByteIndex(k, 0);
  }

  lemma PositiveProduct(a: int, b: int)
    requires a > 0 && b > 0
    ensures a * b > 0
  {
  }

  lemma SameShortFill(s: Word, i: nat, t: Word, j: nat, n: nat)
    requires 1 <= n < 8
    requires forall k :: 0 <= k < n ==> ByteOf(Draw(s, i), k) == ByteOf(Draw(t, j), k)
    ensures NthFill(s, i, n) == NthFill(t, j, n)
  {
    forall k | 0 <= k < n ensures NthFill(s, i, n)[k] == NthFill(t, j, n)[k] {
      ShortFill(s, i, n, k);
      ShortFill(t, j, n, k);
    }
  }

  lemma IndexDrawing(s: Word, v: Word) returns (k: nat)
    ensures k < WORD && Draw(s, k) == v
  {
    EveryWordDrawn(s, v);
    k := IndexOf(s, v);
  }

  /** The draws 0 and 2^56 both occur within one period, and differ only in the byte a short
      fill drops. */
  lemma ShortFillsCollide(s: Word, n: nat) returns (i: nat, j: nat)
    requires 1 <= n < 8
    ensures i < j < WORD && NthFill(s, i, n) == NthFill(s, j, n)
  {
    var v := TopByte();
    i := IndexDrawing(s, 0);
    j := IndexDrawing(s, v);
    forall k | 0 <= k < n ensures ByteOf(Draw(s, i), k) == ByteOf(Draw(s, j), k) {
      LowBytesZero(7, k);
    }
    SameShortFill(s, i, s, j, n);
    if j < i { i, j := j, i; }
  }

  lemma TopByte() returns (v: Word)
    ensures v == Pow2(56) && v != 0
  {
    WordPow();
    Pow2Byte(56);
    Pow2Monotone(56, 56);
    v := Pow2(56);
  }

  /** Workers of one seeded run hold different buffers at every equal fill index. */
  lemma WorkersDiffer(seed: Word, a: nat, b: nat, i: nat, n: nat)
    requires a < b < 0x8000_0000 && n >= 8
    ensures NthFill(SeedWorker(seed, a), i, n) != NthFill(SeedWorker(seed, b), i, n)
  {
    var s, t := SeedWorker(seed, a), SeedWorker(seed, b);
    ModEqual(seed + b + 1, seed + a + 1);
    var k := i * DrawsPerFill(n);
    StatesStayApart(s, t, k);
    FillDetermines(StateAfter(s, k), StateAfter(t, k), n);
  }
}
