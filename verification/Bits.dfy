/** The 64-bit word operations of the generator on integers: exclusive or, right shift,
    wrapping multiplication, and why each mixing step can be undone. */
module Bits {
  import opened Basics

  type Word = w: int | 0 <= w < 0x1_0000_0000_0000_0000

  /** Bitwise exclusive or. */
  function Xor(a: nat, b: nat): nat
    decreases a + b
  {
    if a == 0 && b == 0 then 0
    else (if a % 2 == b % 2 then 0 else 1) + 2 * Xor(a / 2, b / 2)
  }

  /** Right shift by `k` places. */
  function Shr(a: nat, k: nat): nat
    decreases a
  {
    if k == 0 || a == 0 then a else Shr(a / 2, k - 1)
  }

  lemma {:induction false} XorZero(a: nat)
    ensures Xor(a, 0) == a && Xor(0, a) == a
  {
    if a > 0 { XorZero(a / 2); }
  }

  lemma {:induction false} XorSelf(a: nat)
    ensures Xor(a, a) == 0
  {
    if a > 0 { XorSelf(a / 2); }
  }

  lemma {:induction false} XorAssociative(a: nat, b: nat, c: nat)
    ensures Xor(Xor(a, b), c) == Xor(a, Xor(b, c))
    decreases a + b + c
  {
    if a + b + c > 0 {
      XorAssociative(a / 2, b / 2, c / 2);
      XorBits(a, b);
      XorBits(b, c);
      XorBits(Xor(a, b), c);
      XorBits(a, Xor(b, c));
    }
  }

  lemma XorBits(a: nat, b: nat)
    ensures Xor(a, b) % 2 == (if a % 2 == b % 2 then 0 else 1) && Xor(a, b) / 2 == Xor(a / 2, b / 2)
  {
  }

  lemma {:induction false} XorBound(a: nat, b: nat, k: nat)
    requires a < Pow2(k) && b < Pow2(k)
    ensures Xor(a, b) < Pow2(k)
  {
    if k > 0 { XorBound(a / 2, b / 2, k - 1); }
  }

  lemma {:induction false} ShrXor(a: nat, b: nat, k: nat)
    ensures Shr(Xor(a, b), k) == Xor(Shr(a, k), Shr(b, k))
    decreases k
  {
    if k > 0 {
      XorBits(a, b);
      ShrXor(a / 2, b / 2, k - 1);
    }
  }

  lemma {:induction false} ShrShr(a: nat, j: nat, k: nat)
    ensures Shr(Shr(a, j), k) == Shr(a, j + k)
    decreases j
  {
    if j > 0 { ShrShr(a / 2, j - 1, k); }
  }

  lemma {:induction false} ShrSmall(a: nat, k: nat)
    requires a < Pow2(k)
    ensures Shr(a, k) == 0
    decreases k
  {
    if k > 0 { ShrSmall(a / 2, k - 1); }
  }

  lemma {:induction false} ShrBelow(a: nat, k: nat)
    ensures Shr(a, k) <= a
    decreases k
  {
    if k > 0 { ShrBelow(a / 2, k - 1); }
  }

  lemma {:induction false} Pow2Monotone(j: nat, k: nat)
    requires j <= k
    ensures 1 <= Pow2(j) <= Pow2(k)
    decreases k
  {
    if j < k { Pow2Monotone(j, k - 1); } else if j > 0 { Pow2Monotone(j - 1, j - 1); }
  }

  lemma WordPow()
    ensures Pow2(64) == WORD
  {
    assert Pow2(8) == 256;
    assert Pow2(16) == 65536 by { assert Pow2(12) == 4096; }
    assert Pow2(24) == 16777216 by { assert Pow2(20) == 1048576; }
    assert Pow2(32) == 0x1_0000_0000 by { assert Pow2(28) == 0x1000_0000; }
    assert Pow2(40) == 0x100_0000_0000 by { assert Pow2(36) == 0x10_0000_0000; }
    assert Pow2(48) == 0x1_0000_0000_0000 by { assert Pow2(44) == 0x1000_0000_0000; }
    assert Pow2(56) == 0x100_0000_0000_0000 by { assert Pow2(52) == 0x10_0000_0000_0000; }
    assert Pow2(60) == 0x1000_0000_0000_0000;
  }

  // ---------------------------------------------------------------- one xor-shift

  /** `z ^ (z >> k)`. */
  function XorShift(z: nat, k: nat): nat { Xor(z, Shr(z, k)) }

  /** Its inverse for shifts of at least a third of the word. */
  function UndoXorShift(y: nat, k: nat): nat { Xor(Xor(y, Shr(y, k)), Shr(y, 2 * k)) }

  lemma XorShiftWord(z: Word, k: nat)
    ensures XorShift(z, k) < WORD && UndoXorShift(z, k) < WORD
  {
    WordPow();
    ShrBelow(z, k);
    ShrBelow(z, 2 * k);
    XorBound(z, Shr(z, k), 64);
    XorBound(Xor(z, Shr(z, k)), Shr(z, 2 * k), 64);
  }

  /** Three shifts empty the word. */
  lemma ShrThrice(z: Word, k: nat)
    requires 3 * k >= 64
    ensures Shr(z, 3 * k) == 0
  {
    WordPow();
    Pow2Monotone(64, 3 * k);
    ShrSmall(z, 3 * k);
  }

  /** x ^ x>>k, then y ^ y>>k ^ y>>2k: the middle terms cancel and the last one is empty. */
  lemma UndoAfter(x: Word, k: nat)
    requires 3 * k >= 64
    ensures UndoXorShift(XorShift(x, k), k) == x
  {
    var a, b := Shr(x, k), Shr(x, 2 * k);
    var y := XorShift(x, k);
    ShrXor(x, a, k);
    ShrXor(x, a, 2 * k);
    ShrShr(x, k, k);
    ShrShr(x, k, 2 * k);
    ShrThrice(x, k);
    assert Shr(y, k) == Xor(a, b) && Shr(y, 2 * k) == Xor(b, 0);
    XorZero(b);
    XorAssociative(x, a, Xor(a, b));
    XorAssociative(a, a, b);
    XorSelf(a);
    XorAssociative(x, b, b);
    XorSelf(b);
    XorZero(x);
  }

  lemma UndoBefore(y: Word, k: nat)
    requires 3 * k >= 64
    ensures XorShift(UndoXorShift(y, k), k) == y
  {
    var a, b := Shr(y, k), Shr(y, 2 * k);
    var x := UndoXorShift(y, k);
    ShrXor(Xor(y, a), b, k);
    ShrXor(y, a, k);
    ShrShr(y, k, k);
    ShrShr(y, 2 * k, k);
    ShrThrice(y, k);
    assert Shr(x, k) == Xor(Xor(a, b), 0);
    XorZero(Xor(a, b));
    XorAssociative(Xor(y, a), b, Xor(a, b));
    XorCommutative(a, b);
    XorAssociative(b, b, a);
    XorSelf(b);
    XorZero(a);
    XorAssociative(y, a, a);
    XorSelf(a);
    XorZero(y);
  }

  lemma {:induction false} XorCommutative(a: nat, b: nat)
    ensures Xor(a, b) == Xor(b, a)
    decreases a + b
  {
    if a + b > 0 { XorCommutative(a / 2, b / 2); }
  }

  // ---------------------------------------------------------------- wrapping multiplication

  function Mul(z: nat, m: nat): Word { (z * m) % WORD }

  lemma ModShift(a: int, t: int)
    requires 0 <= a < WORD
    ensures (a + t * WORD) % WORD == a
  {
  }

  /** Multiplying by `m` is undone by `m`'s inverse modulo 2^64; `q` witnesses the inverse. */
  lemma MulUndo(z: Word, m: nat, inverse: nat, q: nat)
    requires m * inverse == 1 + q * WORD
    ensures Mul(Mul(z, m), inverse) == z
  {
    var a := z * m / WORD;
    var r := Mul(z, m);
    assert z * m == a * WORD + r;
    assert r * inverse == z + (z * q - a * inverse) * WORD by {
      assert r * inverse == z * m * inverse - a * WORD * inverse;
      assert z * m * inverse == z * (m * inverse) == z * (1 + q * WORD) == z + z * q * WORD;
      assert (z * q - a * inverse) * WORD == z * q * WORD - a * WORD * inverse;
    }
    ModShift(z, z * q - a * inverse);
  }

  /** Shifting a split number returns its upper part. */
  lemma ShrSplit(a: nat, r: nat, k: nat)
    requires r < Pow2(k)
    ensures Shr(a * Pow2(k) + r, k) == a
  {
    ShrSum(a, a * Pow2(k), r, k);
  }

  lemma {:induction false} ShrSum(a: nat, h: nat, r: nat, k: nat)
    requires r < Pow2(k) && h == a * Pow2(k)
    ensures Shr(h + r, k) == a
    decreases k
  {
    if k > 0 {
      var half := a * Pow2(k - 1);
      TwiceProduct(a, Pow2(k - 1));
      HalfSum(half, r);
      ShrSum(a, half, r / 2, k - 1);
    }
  }

  lemma TwiceProduct(a: nat, p: nat)
    ensures a * (2 * p) == 2 * (a * p)
  {
  }

  lemma HalfSum(h: nat, r: nat)
    ensures (2 * h + r) / 2 == h + r / 2
  {
  }

  lemma ShiftPowers()
    ensures Pow2(4) == 16 && Pow2(8) == 256 && Pow2(16) == 0x1_0000
    ensures Pow2(27) == 0x800_0000 && Pow2(30) == 0x4000_0000 && Pow2(31) == 0x8000_0000
  {
    FourMore(8);
    FourMore(12);
    FourMore(16);
    FourMore(20);
    FourMore(24);
  }

  lemma FourMore(k: nat)
    ensures Pow2(k + 4) == 16 * Pow2(k) && Pow2(k + 3) == 8 * Pow2(k)
  {
    assert Pow2(k + 2) == 4 * Pow2(k);
  }
}
