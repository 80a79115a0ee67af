/** 64-bit words as hexadecimal digits, for working out the generator on given words. */
module Hexadecimal {
  import opened Basics

  function Bit(b: bool): nat { if b then 1 else 0 }

  /** A digit with its four bits. */
  datatype Nibble = Nibble(p: bool, q: bool, r: bool, s: bool, n: nat)

  type Digit = d: Nibble | d.n == (if d.p then 8 else 0) + (if d.q then 4 else 0) + (if d.r then 2 else 0) + (if d.s then 1 else 0)
    witness Nibble(false, false, false, false, 0)

  const X0: Digit := Nibble(false, false, false, false, 0)
  const X1: Digit := Nibble(false, false, false, true, 1)
  const X2: Digit := Nibble(false, false, true, false, 2)
  const X3: Digit := Nibble(false, false, true, true, 3)
  const X4: Digit := Nibble(false, true, false, false, 4)
  const X5: Digit := Nibble(false, true, false, true, 5)
  const X6: Digit := Nibble(false, true, true, false, 6)
  const X7: Digit := Nibble(false, true, true, true, 7)
  const X8: Digit := Nibble(true, false, false, false, 8)
  const X9: Digit := Nibble(true, false, false, true, 9)
  const XA: Digit := Nibble(true, false, true, false, 10)
  const XB: Digit := Nibble(true, false, true, true, 11)
  const XC: Digit := Nibble(true, true, false, false, 12)
  const XD: Digit := Nibble(true, true, false, true, 13)
  const XE: Digit := Nibble(true, true, true, false, 14)
  const XF: Digit := Nibble(true, true, true, true, 15)

  /** `c` is the exclusive or of `d` and `e`. */
  predicate XorDigit(c: Digit, d: Digit, e: Digit) {
    c.p == (d.p != e.p) && c.q == (d.q != e.q) && c.r == (d.r != e.r) && c.s == (d.s != e.s)
  }

  datatype Four = Four(a: Digit, b: Digit, c: Digit, d: Digit) {
    predicate XorOf(f: Four, g: Four) {
      XorDigit(a, f.a, g.a) && XorDigit(b, f.b, g.b) && XorDigit(c, f.c, g.c) && XorDigit(d, f.d, g.d)
    }

    function Value(): nat { 0x1000 * a.n + 0x100 * b.n + 0x10 * c.n + d.n }
  }

  datatype Hex = Hex(p: Four, q: Four, r: Four, s: Four) {
    predicate XorOf(f: Hex, g: Hex) { p.XorOf(f.p, g.p) && q.XorOf(f.q, g.q) && r.XorOf(f.r, g.r) && s.XorOf(f.s, g.s) }

    function Value(): nat { ((p.Value() * 0x1_0000 + q.Value()) * 0x1_0000 + r.Value()) * 0x1_0000 + s.Value() }
  }

  /** One xor-shift and product of the generator: `s` is `z` shifted, `r` what the shift drops,
      `x` the exclusive or, `a` its product and `q` the quotient by 2^64. */
  datatype Step = Step(z: Hex, s: Hex, r: nat, x: Hex, q: nat, a: Hex) {
    predicate Works(p: nat, m: nat) {
      r < p && z.Value() == s.Value() * p + r && x.XorOf(z, s)
      && x.Value() * m == q * 0x1_0000_0000_0000_0000 + a.Value()
    }
  }
}
