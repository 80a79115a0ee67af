/** Six draws of the generator, worked out step by step. */
module Worked {
  import opened Basics
  import opened Bits
  import opened Exclusive
  import opened Hexadecimal
  import opened Payload

  function Num(h: Hex): Word {
    SmallFours(h);
    h.Value()
  }

  /** A word by its two halves. */
  predicate Halves(w: nat, high: nat, low: nat) { w == high * 0x1_0000_0000 + low }

  lemma Shifted(z: Word, s: nat, r: nat, k: nat, p: nat)
    requires p == Pow2(k) && r < p && z == s * p + r
    ensures XorShift(z, k) == Xor(z, s)
  {
    ShrSplit(s, r, k);
  }

  lemma StepWorked(w: Step, k: nat, p: nat, m: nat)
    requires p == Pow2(k) && w.Works(p, m)
    ensures XorShift(Num(w.z), k) == Num(w.x) && Mul(Num(w.x), m) == Num(w.a)
  {
    ValueXor(w.x, w.z, w.s);
    Shifted(Num(w.z), Num(w.s), w.r, k, p);
    ModShift(Num(w.a), w.q);
  }

  /** Three steps in a row are a draw; the last one has no product. */
  lemma MixWorked(u: Step, v: Step, w: Step)
    requires Num(v.z) == Num(u.a) && Num(w.z) == Num(v.a)
    requires u.Works(0x4000_0000, FIRST_MULTIPLIER) && v.Works(0x800_0000, SECOND_MULTIPLIER) && w.Works(0x8000_0000, 1)
    ensures Mix(Num(u.z)) == Num(w.a)
  {
    ShiftPowers();
    StepWorked(u, 30, 0x4000_0000, FIRST_MULTIPLIER);
    StepWorked(v, 27, 0x800_0000, SECOND_MULTIPLIER);
    StepWorked(w, 31, 0x8000_0000, 1);
    MixSteps(Num(u.z), Num(u.x), Num(u.a), Num(v.x), Num(v.a), Num(w.x));
    LastStep(Num(w.x), Num(w.a));
  }

  lemma LastStep(x: Word, a: Word)
    requires Mul(x, 1) == a
    ensures x == a
  {
    ModShift(x, 0);
  }

  lemma FirstFill1() returns (w: Step)
    ensures w.Works(0x4000_0000, FIRST_MULTIPLIER)
    ensures Halves(Num(w.z), 0xED45_D550, 0x2845_9FFE) && Halves(Num(w.a), 0x78C3_25F7, 0x1968_794E)
  {
    w := Step(
      Hex(Four(XE, XD, X4, X5), Four(XD, X5, X5, X0), Four(X2, X8, X4, X5), Four(X9, XF, XF, XE)),
      Hex(Four(X0, X0, X0, X0), Four(X0, X0, X0, X3), Four(XB, X5, X1, X7), Four(X5, X5, X4, X0)), 675651582,
      Hex(Four(XE, XD, X4, X5), Four(XD, X5, X5, X3), Four(X9, XD, X5, X2), Four(XC, XA, XB, XE)), 12779223832054245735,
      Hex(Four(X7, X8, XC, X3), Four(X2, X5, XF, X7), Four(X1, X9, X6, X8), Four(X7, X9, X4, XE)));
  }

  lemma FirstFill2() returns (w: Step)
    ensures w.Works(0x800_0000, SECOND_MULTIPLIER)
    ensures Halves(Num(w.z), 0x78C3_25F7, 0x1968_794E) && Halves(Num(w.a), 0x270B_A95D, 0xDF1A_C8CF)
  {
    w := Step(
      Hex(Four(X7, X8, XC, X3), Four(X2, X5, XF, X7), Four(X1, X9, X6, X8), Four(X7, X9, X4, XE)),
      Hex(Four(X0, X0, X0, X0), Four(X0, X0, X0, XF), Four(X1, X8, X6, X4), Four(XB, XE, XE, X3)), 23624014,
      Hex(Four(X7, X8, XC, X3), Four(X2, X5, XF, X8), Four(X0, X1, X0, XC), Four(XC, X7, XA, XD)), 5058408015544865767,
      Hex(Four(X2, X7, X0, XB), Four(XA, X9, X5, XD), Four(XD, XF, X1, XA), Four(XC, X8, XC, XF)));
  }

  lemma FirstFill3() returns (w: Step)
    ensures w.Works(0x8000_0000, 1)
    ensures Halves(Num(w.z), 0x270B_A95D, 0xDF1A_C8CF) && Halves(Num(w.a), 0x270B_A95D, 0x910D_9A74)
  {
    w := Step(
      Hex(Four(X2, X7, X0, XB), Four(XA, X9, X5, XD), Four(XD, XF, X1, XA), Four(XC, X8, XC, XF)),
      Hex(Four(X0, X0, X0, X0), Four(X0, X0, X0, X0), Four(X4, XE, X1, X7), Four(X5, X2, XB, XB)), 1595590863,
      Hex(Four(X2, X7, X0, XB), Four(XA, X9, X5, XD), Four(X9, X1, X0, XD), Four(X9, XA, X7, X4)), 0,
      Hex(Four(X2, X7, X0, XB), Four(XA, X9, X5, XD), Four(X9, X1, X0, XD), Four(X9, XA, X7, X4)));
  }

  lemma FirstFill() returns (z: Word, v: Word)
    ensures Mix(z) == v && Halves(z, 0xED45_D550, 0x2845_9FFE) && Halves(v, 0x270B_A95D, 0x910D_9A74)
  {
    var u := FirstFill1();
    var m := FirstFill2();
    var w := FirstFill3();
    MixWorked(u, m, w);
    z, v := Num(u.z), Num(w.a);
  }

  lemma SecondFill1() returns (w: Step)
    ensures w.Works(0x4000_0000, FIRST_MULTIPLIER)
    ensures Halves(Num(w.z), 0xED45_D550, 0x2845_A000) && Halves(Num(w.a), 0x1F4F_521D, 0x5355_7B40)
  {
    w := Step(
      Hex(Four(XE, XD, X4, X5), Four(XD, X5, X5, X0), Four(X2, X8, X4, X5), Four(XA, X0, X0, X0)),
      Hex(Four(X0, X0, X0, X0), Four(X0, X0, X0, X3), Four(XB, X5, X1, X7), Four(X5, X5, X4, X0)), 675651584,
      Hex(Four(XE, XD, X4, X5), Four(XD, X5, X5, X3), Four(X9, XD, X5, X2), Four(XF, X5, X4, X0)), 12779223832054253869,
      Hex(Four(X1, XF, X4, XF), Four(X5, X2, X1, XD), Four(X5, X3, X5, X5), Four(X7, XB, X4, X0)));
    assert w.x.XorOf(w.z, w.s);
  }

  lemma SecondFill2() returns (w: Step)
    ensures w.Works(0x800_0000, SECOND_MULTIPLIER)
    ensures Halves(Num(w.z), 0x1F4F_521D, 0x5355_7B40) && Halves(Num(w.a), 0x790B_A95D, 0x631A_C8CE)
  {
    w := Step(
      Hex(Four(X1, XF, X4, XF), Four(X5, X2, X1, XD), Four(X5, X3, X5, X5), Four(X7, XB, X4, X0)),
      Hex(Four(X0, X0, X0, X0), Four(X0, X0, X0, X3), Four(XE, X9, XE, XA), Four(X4, X3, XA, XA)), 55933760,
      Hex(Four(X1, XF, X4, XF), Four(X5, X2, X1, XE), Four(XB, XA, XB, XF), Four(X3, X8, XE, XA)), 1311485310502366064,
      Hex(Four(X7, X9, X0, XB), Four(XA, X9, X5, XD), Four(X6, X3, X1, XA), Four(XC, X8, XC, XE)));
  }

  lemma SecondFill3() returns (w: Step)
    ensures w.Works(0x8000_0000, 1)
    ensures Halves(Num(w.z), 0x790B_A95D, 0x631A_C8CE) && Halves(Num(w.a), 0x790B_A95D, 0x910D_9A74)
  {
    w := Step(
      Hex(Four(X7, X9, X0, XB), Four(XA, X9, X5, XD), Four(X6, X3, X1, XA), Four(XC, X8, XC, XE)),
      Hex(Four(X0, X0, X0, X0), Four(X0, X0, X0, X0), Four(XF, X2, X1, X7), Four(X5, X2, XB, XA)), 1662699726,
      Hex(Four(X7, X9, X0, XB), Four(XA, X9, X5, XD), Four(X9, X1, X0, XD), Four(X9, XA, X7, X4)), 0,
      Hex(Four(X7, X9, X0, XB), Four(XA, X9, X5, XD), Four(X9, X1, X0, XD), Four(X9, XA, X7, X4)));
  }

  lemma SecondFill() returns (z: Word, v: Word)
    ensures Mix(z) == v && Halves(z, 0xED45_D550, 0x2845_A000) && Halves(v, 0x790B_A95D, 0x910D_9A74)
  {
    var u := SecondFill1();
    var m := SecondFill2();
    var w := SecondFill3();
    MixWorked(u, m, w);
    z, v := Num(u.z), Num(w.a);
  }

  lemma FirstCall1() returns (w: Step)
    ensures w.Works(0x4000_0000, FIRST_MULTIPLIER)
    ensures Halves(Num(w.z), 0xCFDB_16FE, 0xED9E_96C1) && Halves(Num(w.a), 0x6843_9183, 0xC2B3_30EA)
  {
    w := Step(
      Hex(Four(XC, XF, XD, XB), Four(X1, X6, XF, XE), Four(XE, XD, X9, XE), Four(X9, X6, XC, X1)),
      Hex(Four(X0, X0, X0, X0), Four(X0, X0, X0, X3), Four(X3, XF, X6, XC), Four(X5, XB, XF, XB)), 765368001,
      Hex(Four(XC, XF, XD, XB), Four(X1, X6, XF, XD), Four(XD, X2, XF, X2), Four(XC, XD, X3, XA)), 11194861761885022802,
      Hex(Four(X6, X8, X4, X3), Four(X9, X1, X8, X3), Four(XC, X2, XB, X3), Four(X3, X0, XE, XA)));
  }

  lemma FirstCall2() returns (w: Step)
    ensures w.Works(0x800_0000, SECOND_MULTIPLIER)
    ensures Halves(Num(w.z), 0x6843_9183, 0xC2B3_30EA) && Halves(Num(w.a), 0xAAD7_482C, 0xE227_3806)
  {
    w := Step(
      Hex(Four(X6, X8, X4, X3), Four(X9, X1, X8, X3), Four(XC, X2, XB, X3), Four(X3, X0, XE, XA)),
      Hex(Four(X0, X0, X0, X0), Four(X0, X0, X0, XD), Four(X0, X8, X7, X2), Four(X3, X0, X7, X8)), 45297898,
      Hex(Four(X6, X8, X4, X3), Four(X9, X1, X8, XE), Four(XC, XA, XC, X1), Four(X0, X0, X9, X2)), 4367336138917698636,
      Hex(Four(XA, XA, XD, X7), Four(X4, X8, X2, XC), Four(XE, X2, X2, X7), Four(X3, X8, X0, X6)));
  }

  lemma FirstCall3() returns (w: Step)
    ensures w.Works(0x8000_0000, 1)
    ensures Halves(Num(w.z), 0xAAD7_482C, 0xE227_3806) && Halves(Num(w.a), 0xAAD7_482D, 0xB789_A85F)
  {
    w := Step(
      Hex(Four(XA, XA, XD, X7), Four(X4, X8, X2, XC), Four(XE, X2, X2, X7), Four(X3, X8, X0, X6)),
      Hex(Four(X0, X0, X0, X0), Four(X0, X0, X0, X1), Four(X5, X5, XA, XE), Four(X9, X0, X5, X9)), 1646737414,
      Hex(Four(XA, XA, XD, X7), Four(X4, X8, X2, XD), Four(XB, X7, X8, X9), Four(XA, X8, X5, XF)), 0,
      Hex(Four(XA, XA, XD, X7), Four(X4, X8, X2, XD), Four(XB, X7, X8, X9), Four(XA, X8, X5, XF)));
  }

  lemma FirstCall() returns (z: Word, v: Word)
    ensures Mix(z) == v && Halves(z, 0xCFDB_16FE, 0xED9E_96C1) && Halves(v, 0xAAD7_482D, 0xB789_A85F)
  {
    var u := FirstCall1();
    var m := FirstCall2();
    var w := FirstCall3();
    MixWorked(u, m, w);
    z, v := Num(u.z), Num(w.a);
  }

  lemma SecondCall1() returns (w: Step)
    ensures w.Works(0x4000_0000, FIRST_MULTIPLIER)
    ensures Halves(Num(w.z), 0xBA4A_DEEA, 0x4273_6573) && Halves(Num(w.a), 0x397B_0E16, 0xF86F_4D8A)
  {
    w := Step(
      Hex(Four(XB, XA, X4, XA), Four(XD, XE, XE, XA), Four(X4, X2, X7, X3), Four(X6, X5, X7, X3)),
      Hex(Four(X0, X0, X0, X0), Four(X0, X0, X0, X2), Four(XE, X9, X2, XB), Four(X7, XB, XA, X9)), 41117043,
      Hex(Four(XB, XA, X4, XA), Four(XD, XE, XE, X8), Four(XA, XB, X5, X8), Four(X1, XE, XD, XA)), 10033485634553501729,
      Hex(Four(X3, X9, X7, XB), Four(X0, XE, X1, X6), Four(XF, X8, X6, XF), Four(X4, XD, X8, XA)));
  }

  lemma SecondCall2() returns (w: Step)
    ensures w.Works(0x800_0000, SECOND_MULTIPLIER)
    ensures Halves(Num(w.z), 0x397B_0E16, 0xF86F_4D8A) && Halves(Num(w.a), 0xCBD7_482C, 0x2027_3807)
  {
    w := Step(
      Hex(Four(X3, X9, X7, XB), Four(X0, XE, X1, X6), Four(XF, X8, X6, XF), Four(X4, XD, X8, XA)),
      Hex(Four(X0, X0, X0, X0), Four(X0, X0, X0, X7), Four(X2, XF, X6, X1), Four(XC, X2, XD, XF)), 7294346,
      Hex(Four(X3, X9, X7, XB), Four(X0, XE, X1, X1), Four(XD, X7, X0, XE), Four(X8, XF, X5, X5)), 2407711300550961835,
      Hex(Four(XC, XB, XD, X7), Four(X4, X8, X2, XC), Four(X2, X0, X2, X7), Four(X3, X8, X0, X7)));
  }

  lemma SecondCall3() returns (w: Step)
    ensures w.Works(0x8000_0000, 1)
    ensures Halves(Num(w.z), 0xCBD7_482C, 0x2027_3807) && Halves(Num(w.a), 0xCBD7_482D, 0xB789_A85F)
  {
    w := Step(
      Hex(Four(XC, XB, XD, X7), Four(X4, X8, X2, XC), Four(X2, X0, X2, X7), Four(X3, X8, X0, X7)),
      Hex(Four(X0, X0, X0, X0), Four(X0, X0, X0, X1), Four(X9, X7, XA, XE), Four(X9, X0, X5, X8)), 539441159,
      Hex(Four(XC, XB, XD, X7), Four(X4, X8, X2, XD), Four(XB, X7, X8, X9), Four(XA, X8, X5, XF)), 0,
      Hex(Four(XC, XB, XD, X7), Four(X4, X8, X2, XD), Four(XB, X7, X8, X9), Four(XA, X8, X5, XF)));
  }

  lemma SecondCall() returns (z: Word, v: Word)
    ensures Mix(z) == v && Halves(z, 0xBA4A_DEEA, 0x4273_6573) && Halves(v, 0xCBD7_482D, 0xB789_A85F)
  {
    var u := SecondCall1();
    var m := SecondCall2();
    var w := SecondCall3();
    MixWorked(u, m, w);
    z, v := Num(u.z), Num(w.a);
  }

  lemma FirstStart1() returns (w: Step)
    ensures w.Works(0x4000_0000, FIRST_MULTIPLIER)
    ensures Halves(Num(w.z), 0x74A6_DC8E, 0x3DC_BEDF) && Halves(Num(w.a), 0x88AA_97DA, 0x38E9_B5EF)
  {
    w := Step(
      Hex(Four(X7, X4, XA, X6), Four(XD, XC, X8, XE), Four(X0, X3, XD, XC), Four(XB, XE, XD, XF)),
      Hex(Four(X0, X0, X0, X0), Four(X0, X0, X0, X1), Four(XD, X2, X9, XB), Four(X7, X2, X3, X8)), 64798431,
      Hex(Four(X7, X4, XA, X6), Four(XD, XC, X8, XF), Four(XD, X1, X4, X7), Four(XC, XC, XE, X7)), 6282724301925178431,
      Hex(Four(X8, X8, XA, XA), Four(X9, X7, XD, XA), Four(X3, X8, XE, X9), Four(XB, X5, XE, XF)));
  }

  lemma FirstStart2() returns (w: Step)
    ensures w.Works(0x800_0000, SECOND_MULTIPLIER)
    ensures Halves(Num(w.z), 0x88AA_97DA, 0x38E9_B5EF) && Halves(Num(w.a), 0xC4B6_D9F4, 0xF152_5C38)
  {
    w := Step(
      Hex(Four(X8, X8, XA, XA), Four(X9, X7, XD, XA), Four(X3, X8, XE, X9), Four(XB, X5, XE, XF)),
      Hex(Four(X0, X0, X0, X0), Four(X0, X0, X1, X1), Four(X1, X5, X5, X2), Four(XF, XB, X4, X7)), 15316463,
      Hex(Four(X8, X8, XA, XA), Four(X9, X7, XC, XB), Four(X2, XD, XB, XB), Four(X4, XE, XA, X8)), 5724587195200315033,
      Hex(Four(XC, X4, XB, X6), Four(XD, X9, XF, X4), Four(XF, X1, X5, X2), Four(X5, XC, X3, X8)));
  }

  lemma FirstStart3() returns (w: Step)
    ensures w.Works(0x8000_0000, 1)
    ensures Halves(Num(w.z), 0xC4B6_D9F4, 0xF152_5C38) && Halves(Num(w.a), 0xC4B6_D9F5, 0x783F_EFD1)
  {
    w := Step(
      Hex(Four(XC, X4, XB, X6), Four(XD, X9, XF, X4), Four(XF, X1, X5, X2), Four(X5, XC, X3, X8)),
      Hex(Four(X0, X0, X0, X0), Four(X0, X0, X0, X1), Four(X8, X9, X6, XD), Four(XB, X3, XE, X9)), 1901222968,
      Hex(Four(XC, X4, XB, X6), Four(XD, X9, XF, X5), Four(X7, X8, X3, XF), Four(XE, XF, XD, X1)), 0,
      Hex(Four(XC, X4, XB, X6), Four(XD, X9, XF, X5), Four(X7, X8, X3, XF), Four(XE, XF, XD, X1)));
  }

  lemma FirstStart() returns (z: Word, v: Word)
    ensures Mix(z) == v && Halves(z, 0x74A6_DC8E, 0x3DC_BEDF) && Halves(v, 0xC4B6_D9F5, 0x783F_EFD1)
  {
    var u := FirstStart1();
    var m := FirstStart2();
    var w := FirstStart3();
    MixWorked(u, m, w);
    z, v := Num(u.z), Num(w.a);
  }

  lemma SecondStart1() returns (w: Step)
    ensures w.Works(0x4000_0000, FIRST_MULTIPLIER)
    ensures Halves(Num(w.z), 0x74A6_DC8E, 0x3DC_BEE0) && Halves(Num(w.a), 0x527E_6875, 0x8780_4018)
  {
    w := Step(
      Hex(Four(X7, X4, XA, X6), Four(XD, XC, X8, XE), Four(X0, X3, XD, XC), Four(XB, XE, XE, X0)),
      Hex(Four(X0, X0, X0, X0), Four(X0, X0, X0, X1), Four(XD, X2, X9, XB), Four(X7, X2, X3, X8)), 64798432,
      Hex(Four(X7, X4, XA, X6), Four(XD, XC, X8, XF), Four(XD, X1, X4, X7), Four(XC, XC, XD, X8)), 6282724301925178420,
      Hex(Four(X5, X2, X7, XE), Four(X6, X8, X7, X5), Four(X8, X7, X8, X0), Four(X4, X0, X1, X8)));
  }

  lemma SecondStart2() returns (w: Step)
    ensures w.Works(0x800_0000, SECOND_MULTIPLIER)
    ensures Halves(Num(w.z), 0x527E_6875, 0x8780_4018) && Halves(Num(w.a), 0xFFB3_D9F4, 0x8758_5C38)
  {
    w := Step(
      Hex(Four(X5, X2, X7, XE), Four(X6, X8, X7, X5), Four(X8, X7, X8, X0), Four(X4, X0, X1, X8)),
      Hex(Four(X0, X0, X0, X0), Four(X0, X0, X0, XA), Four(X4, XF, XC, XD), Four(X0, XE, XB, X0)), 125845528,
      Hex(Four(X5, X2, X7, XE), Four(X6, X8, X7, XF), Four(XC, X8, X4, XD), Four(X4, XE, XA, X8)), 3455442756517848951,
      Hex(Four(XF, XF, XB, X3), Four(XD, X9, XF, X4), Four(X8, X7, X5, X8), Four(X5, XC, X3, X8)));
  }

  lemma SecondStart3() returns (w: Step)
    ensures w.Works(0x8000_0000, 1)
    ensures Halves(Num(w.z), 0xFFB3_D9F4, 0x8758_5C38) && Halves(Num(w.a), 0xFFB3_D9F5, 0x783F_EFD1)
  {
    w := Step(
      Hex(Four(XF, XF, XB, X3), Four(XD, X9, XF, X4), Four(X8, X7, X5, X8), Four(X5, XC, X3, X8)),
      Hex(Four(X0, X0, X0, X0), Four(X0, X0, X0, X1), Four(XF, XF, X6, X7), Four(XB, X3, XE, X9)), 123231288,
      Hex(Four(XF, XF, XB, X3), Four(XD, X9, XF, X5), Four(X7, X8, X3, XF), Four(XE, XF, XD, X1)), 0,
      Hex(Four(XF, XF, XB, X3), Four(XD, X9, XF, X5), Four(X7, X8, X3, XF), Four(XE, XF, XD, X1)));
  }

  lemma SecondStart() returns (z: Word, v: Word)
    ensures Mix(z) == v && Halves(z, 0x74A6_DC8E, 0x3DC_BEE0) && Halves(v, 0xFFB3_D9F5, 0x783F_EFD1)
  {
    var u := SecondStart1();
    var m := SecondStart2();
    var w := SecondStart3();
    MixWorked(u, m, w);
    z, v := Num(u.z), Num(w.a);
  }
}
