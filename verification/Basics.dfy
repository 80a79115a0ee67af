/** Vocabulary shared by every module: optional values, bytes, and sums over a
    sequence of workers. */
module Basics {

  datatype Option<+T> = None | Some(value: T)

  /** One unsigned byte, `uint8_t` in the source. */
  type Byte = b: int | 0 <= b < 256

  type Bytes = seq<Byte>

  /** Number of values of `size_t` and `uint64_t` on the 64-bit targets of the source. */
  const WORD: int := 0x1_0000_0000_0000_0000

  /** The multipliers of splitmix64. */
  const FIRST_MULTIPLIER: nat := 0xBF58476D1CE4E5B9
  const SECOND_MULTIPLIER: nat := 0x94D049BB133111EB

  function Pow2(k: nat): nat { if k == 0 then 1 else 2 * Pow2(k - 1) }

  /** A handle of the library; 0 is the null handle. */
  type Handle = nat

  /** The keying of a pipeline, identified with the session blob the library hands out for it:
      the bytes the construction or the latest rotation produced, which a save repeats and a
      load rebuilds from. */
  type Key = Bytes

  /** Value of one hexadecimal digit, either case. */
  function HexValue(b: Byte): (v: Option<nat>)
    ensures v.Some? ==> v.value < 16
  {
    if 48 <= b <= 57 then Some(b - 48)
    else if 97 <= b <= 102 then Some(b - 87)
    else if 65 <= b <= 70 then Some(b - 55)
    else None
  }

  /** Status codes as the binding returns them. */
  type Status = int
  const OK: Status := 0
  const BAD_INPUT: Status := 4
  const BUFFER_TOO_SMALL: Status := 5
  const INTERNAL: Status := 99

  /** `f(xs[0]) + ... + f(xs[|xs|-1])`. */
  function Sum<T>(xs: seq<T>, f: T -> int): int {
    if xs == [] then 0 else f(xs[0]) + Sum(xs[1..], f)
  }

  /** Replacing one element moves the sum by exactly the change of its term. */
  lemma {:induction false} SumUpdate<T>(xs: seq<T>, i: nat, x: T, f: T -> int)
    requires i < |xs|
    ensures Sum(xs[i := x], f) == Sum(xs, f) - f(xs[i]) + f(x)
  {
    if i == 0 {
      assert xs[i := x][1..] == xs[1..];
    } else {
      assert xs[i := x][1..] == xs[1..][i - 1 := x];
      SumUpdate(xs[1..], i - 1, x, f);
    }
  }

  lemma {:induction false} SumConstant<T>(xs: seq<T>, f: T -> int, c: int)
    requires forall i :: 0 <= i < |xs| ==> f(xs[i]) == c
    ensures Sum(xs, f) == |xs| * c
  {
    if xs != [] {
      assert forall i :: 0 <= i < |xs[1..]| ==> xs[1..][i] == xs[i + 1];
      SumConstant(xs[1..], f, c);
    }
  }

  /** A sum of terms bounded by `c`; when the bound is met, every term meets it. */
  lemma {:induction false} SumBound<T>(xs: seq<T>, f: T -> int, c: int)
    requires forall i :: 0 <= i < |xs| ==> f(xs[i]) <= c
    ensures Sum(xs, f) <= |xs| * c
    ensures Sum(xs, f) == |xs| * c ==> forall i :: 0 <= i < |xs| ==> f(xs[i]) == c
  {
    if xs != [] {
      assert forall i :: 0 <= i < |xs[1..]| ==> xs[1..][i] == xs[i + 1];
      SumBound(xs[1..], f, c);
      if Sum(xs, f) == |xs| * c {
        forall i | 0 <= i < |xs| ensures f(xs[i]) == c {
          if i > 0 { assert xs[i] == xs[1..][i - 1]; }
        }
      }
    }
  }

  /** A sum of non-negative terms bounds each of them. */
  lemma {:induction false} SumNonNegative<T>(xs: seq<T>, f: T -> int)
    requires forall i :: 0 <= i < |xs| ==> f(xs[i]) >= 0
    ensures Sum(xs, f) >= 0
    ensures forall i :: 0 <= i < |xs| ==> f(xs[i]) <= Sum(xs, f)
  {
    if xs != [] {
      assert forall i :: 0 <= i < |xs[1..]| ==> xs[1..][i] == xs[i + 1];
      SumNonNegative(xs[1..], f);
      forall i | 0 <= i < |xs| ensures f(xs[i]) <= Sum(xs, f) {
        if i > 0 { assert xs[i] == xs[1..][i - 1]; }
      }
    }
  }
}
