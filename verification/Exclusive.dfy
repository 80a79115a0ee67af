/** Exclusive or on numbers works digit by digit. */
module Exclusive {
  import Bits
  import opened Basics
  import opened Hexadecimal

  type Op = (nat, nat) -> nat

  predicate Step(f: Op, m: nat, n: nat) { f(m, n) == 2 * f(m / 2, n / 2) + if m % 2 == n % 2 then 0 else 1 }

  /** What makes an operation the exclusive or. */
  ghost predicate IsXor(f: Op) {
    f(0, 0) == 0 && forall m: nat, n: nat :: Step(f, m, n)
  }

  lemma XorIsXor()
    ensures IsXor(Bits.Xor)
  {
    forall m: nat, n: nat ensures Step(Bits.Xor, m, n) {
      Bits.XorBits(m, n);
    }
  }

  /** The lower `k` bits and those above them do not interfere. */
  lemma {:induction false} Concat(f: Op, a: nat, x: nat, b: nat, y: nat, k: nat)
    requires IsXor(f) && x < Pow2(k) && y < Pow2(k)
    ensures f(a * Pow2(k) + x, b * Pow2(k) + y) == f(a, b) * Pow2(k) + f(x, y)
    decreases k
  {
    if k > 0 {
      var h := Pow2(k - 1);
      Concat(f, a, x / 2, b, y / 2, k - 1);
      Halved(a, h, x);
      Halved(b, h, y);
      var m, n := a * Pow2(k) + x, b * Pow2(k) + y;
      assert Step(f, m, n) && Step(f, x, y);
      Regroup(f(a, b), h, f(x / 2, y / 2), f(m / 2, n / 2), if x % 2 == y % 2 then 0 else 1);
    }
  }

  lemma Regroup(c: nat, h: nat, z: nat, w: nat, bit: nat)
    requires w == c * h + z
    ensures 2 * w + bit == c * (2 * h) + (2 * z + bit)
  {
    assert c * (2 * h) == 2 * (c * h);
  }

  lemma Halved(a: nat, h: nat, x: nat)
    ensures (a * (2 * h) + x) / 2 == a * h + x / 2 && (a * (2 * h) + x) % 2 == x % 2
  {
    assert a * (2 * h) == 2 * (a * h);
  }

  /** Two parts of a number, each with its exclusive or. */
  lemma Both(f: Op, a: nat, b: nat, c: nat, x: nat, y: nat, z: nat, k: nat, p: nat)
    requires IsXor(f) && p == Pow2(k) && x < p && y < p && f(a, b) == c && f(x, y) == z
    ensures f(On(a, x, p), On(b, y, p)) == On(c, z, p)
  {
    Concat(f, a, x, b, y, k);
  }

  lemma BitXor(f: Op, x: bool, y: bool)
    requires IsXor(f)
    ensures f(Bit(x), Bit(y)) == Bit(x != y)
  {
    assert Step(f, Bit(x), Bit(y));
    assert Bit(x) / 2 == 0 && Bit(y) / 2 == 0;
  }

  lemma PairXor(f: Op, p: bool, q: bool, r: bool, s: bool)
    requires IsXor(f)
    ensures f(Bit(p) * 2 + Bit(q), Bit(r) * 2 + Bit(s)) == Bit(p != r) * 2 + Bit(q != s)
  {
    BitXor(f, p, r);
    BitXor(f, q, s);
    assert Pow2(1) == 2;
    Both(f, Bit(p), Bit(r), Bit(p != r), Bit(q), Bit(s), Bit(q != s), 1, 2);
  }

  function Pair(p: bool, q: bool): nat { Bit(p) * 2 + Bit(q) }

  lemma DigitPairs(d: Digit)
    ensures d.n == Pair(d.p, d.q) * 4 + Pair(d.r, d.s) < 16
  {
  }

  lemma DigitXor(f: Op, c: Digit, d: Digit, e: Digit)
    requires IsXor(f) && XorDigit(c, d, e)
    ensures d.n < 16 && e.n < 16 && f(d.n, e.n) == c.n
  {
    PairXor(f, d.p, d.q, e.p, e.q);
    PairXor(f, d.r, d.s, e.r, e.s);
    assert Pow2(2) == 4;
    Both(f, Pair(d.p, d.q), Pair(e.p, e.q), Pair(c.p, c.q), Pair(d.r, d.s), Pair(e.r, e.s), Pair(c.r, c.s), 2, 4);
    DigitPairs(d);
    DigitPairs(e);
    DigitPairs(c);
  }

  function On(a: nat, b: nat, p: nat): nat { a * p + b }

  function Join(a: nat, b: nat, c: nat, d: nat, p: nat): nat { On(On(On(a, b, p), c, p), d, p) }

  /** Four parts of `k` bits each. */
  lemma Quarters(f: Op, k: nat, p: nat, a1: nat, a2: nat, a3: nat, a4: nat, b1: nat, b2: nat, b3: nat, b4: nat,
                 c1: nat, c2: nat, c3: nat, c4: nat)
    requires IsXor(f) && p == Pow2(k)
    requires a2 < p && a3 < p && a4 < p && b2 < p && b3 < p && b4 < p
    requires f(a1, b1) == c1 && f(a2, b2) == c2 && f(a3, b3) == c3 && f(a4, b4) == c4
    ensures f(Join(a1, a2, a3, a4, p), Join(b1, b2, b3, b4, p)) == Join(c1, c2, c3, c4, p)
  {
    var a, b, c := On(a1, a2, p), On(b1, b2, p), On(c1, c2, p);
    Both(f, a1, b1, c1, a2, b2, c2, k, p);
    Both(f, a, b, c, a3, b3, c3, k, p);
    Both(f, On(a, a3, p), On(b, b3, p), On(c, c3, p), a4, b4, c4, k, p);
  }

  lemma FourJoin(f: Four)
    ensures f.Value() == Join(f.a.n, f.b.n, f.c.n, f.d.n, 16) < 0x1_0000
  {
  }

  lemma FourXor(f: Op, i: Four, g: Four, h: Four)
    requires IsXor(f) && i.XorOf(g, h)
    ensures f(g.Value(), h.Value()) == i.Value()
  {
    FourJoin(g);
    FourJoin(h);
    FourJoin(i);
    DigitXor(f, i.a, g.a, h.a);
    DigitXor(f, i.b, g.b, h.b);
    DigitXor(f, i.c, g.c, h.c);
    DigitXor(f, i.d, g.d, h.d);
    Bits.ShiftPowers();
    Quarters(f, 4, 16, g.a.n, g.b.n, g.c.n, g.d.n, h.a.n, h.b.n, h.c.n, h.d.n, i.a.n, i.b.n, i.c.n, i.d.n);
  }

  lemma HexJoin(h: Hex)
    ensures h.Value() == Join(h.p.Value(), h.q.Value(), h.r.Value(), h.s.Value(), 0x1_0000)
  {
  }

  lemma HexXor(f: Op, i: Hex, g: Hex, h: Hex)
    requires IsXor(f) && i.XorOf(g, h)
    ensures f(g.Value(), h.Value()) == i.Value()
  {
    HexJoin(g);
    HexJoin(h);
    HexJoin(i);
    FourXor(f, i.p, g.p, h.p);
    FourXor(f, i.q, g.q, h.q);
    FourXor(f, i.r, g.r, h.r);
    FourXor(f, i.s, g.s, h.s);
    SmallFours(g);
    SmallFours(h);
    Bits.ShiftPowers();
    Quarters(f, 16, 0x1_0000, g.p.Value(), g.q.Value(), g.r.Value(), g.s.Value(), h.p.Value(), h.q.Value(), h.r.Value(),
             h.s.Value(), i.p.Value(), i.q.Value(), i.r.Value(), i.s.Value());
  }

  lemma SmallFours(h: Hex)
    ensures h.p.Value() < 0x1_0000 && h.q.Value() < 0x1_0000 && h.r.Value() < 0x1_0000 && h.s.Value() < 0x1_0000
    ensures h.Value() < WORD
  {
    FourJoin(h.p);
    FourJoin(h.q);
    FourJoin(h.r);
    FourJoin(h.s);
  }

  /** Exclusive or works digit by digit. */
  lemma ValueXor(i: Hex, g: Hex, h: Hex)
    requires i.XorOf(g, h)
    ensures Bits.Xor(g.Value(), h.Value()) == i.Value()
  {
    XorIsXor();
    HexXor(Bits.Xor, i, g, h);
  }
}
