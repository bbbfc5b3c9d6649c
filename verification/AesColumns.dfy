/**
 The column step of the decryption code. Its macro for doubling is not parenthesised, and it is applied
 to sums, so the step is not InvMixColumns. Which mixed columns it restores is determined exactly.
 */
module AesColumns {
  import opened AesField
  import opened AesInverse

  // ---------------------------------------------------------------- the step as written

  /** The reduction that the macro makes of p ^ q: the shift to the right takes in q only. */
  function WrongReduction(p: bv8, q: bv8): bv8 {
    if (p ^ (q >> 7)) & 1 != 0 then 0x1b else 0
  }

  /** `aes_xtime(p ^ q)` after textual expansion: both shifts take in q only. */
  function MacroXtime(p: bv8, q: bv8): bv8 {
    Plus(Plus(p, Double(q)), WrongReduction(p, q))
  }

  function CodeSum(t: Column): bv8 {
    Plus(Plus(Plus(Xtime(t.a), Xtime(t.b)), Xtime(t.c)), Xtime(t.d))
  }

  /** One output byte: the input byte, the three powers of the sum, and the macro's value. */
  function CodeByte(x: bv8, x2: bv8, m: bv8): bv8 {
    Plus(Plus(Plus(Plus(x, x2), Xtime(x2)), X4(x2)), m)
  }

  /** `aes_inv_mix_columns` on one column. */
  function CodeInv(t: Column): Column {
    var x2, even, odd := CodeSum(t), MacroXtime(t.a, t.c), MacroXtime(t.b, t.d);
    Column(CodeByte(t.a, x2, even), CodeByte(t.b, x2, odd), CodeByte(t.c, x2, even), CodeByte(t.d, x2, odd))
  }

  /** The column comes back from mixing and the code's step. */
  predicate Restored(t: Column) {
    CodeInv(Mix(t)) == t
  }

  lemma MixUnit()
    ensures Mix(Column(1, 0, 0, 0)) == Column(2, 1, 1, 3)
  {
  }

  lemma BackUnit()
    ensures CodeInv(Column(2, 1, 1, 3)) == Column(0x0c, 0x13, 0x0f, 0x11)
  {
  }

  /** The first column of the identity does not come back. */
  lemma UnitNotRestored()
    ensures Mix(Column(1, 0, 0, 0)) == Column(2, 1, 1, 3)
    ensures CodeInv(Column(2, 1, 1, 3)) == Column(0x0c, 0x13, 0x0f, 0x11)
    ensures !Restored(Column(1, 0, 0, 0))
  {
    hide Mix, CodeInv;
    MixUnit();
    BackUnit();
  }

  // ---------------------------------------------------------------- the step is additive

  lemma WrongReductionAdds(p: bv8, q: bv8, p': bv8, q': bv8)
    ensures WrongReduction(Plus(p, p'), Plus(q, q')) == Plus(WrongReduction(p, q), WrongReduction(p', q'))
  {
  }

  lemma MacroAdds(p: bv8, q: bv8, p': bv8, q': bv8)
    ensures MacroXtime(Plus(p, p'), Plus(q, q')) == Plus(MacroXtime(p, q), MacroXtime(p', q'))
  {
    hide Plus, Double, WrongReduction;
    WrongReductionAdds(p, q, p', q');
    DoubleAdds(q, q');
    Interchange(p, p', Double(q), Double(q'));
    Interchange(Plus(p, Double(q)), Plus(p', Double(q')), WrongReduction(p, q), WrongReduction(p', q'));
  }

  lemma CodeSumAdds(s: Column, t: Column)
    ensures CodeSum(Add(s, t)) == Plus(CodeSum(s), CodeSum(t))
  {
    hide Plus, Xtime;
    XtimeAdds(s.a, t.a);
    XtimeAdds(s.b, t.b);
    XtimeAdds(s.c, t.c);
    XtimeAdds(s.d, t.d);
    var p, p' := Plus(Xtime(s.a), Xtime(s.b)), Plus(Xtime(t.a), Xtime(t.b));
    Interchange(Xtime(s.a), Xtime(t.a), Xtime(s.b), Xtime(t.b));
    Interchange(p, p', Xtime(s.c), Xtime(t.c));
    Interchange(Plus(p, Xtime(s.c)), Plus(p', Xtime(t.c)), Xtime(s.d), Xtime(t.d));
  }

  lemma CodeByteAdds(x: bv8, x2: bv8, m: bv8, y: bv8, y2: bv8, n: bv8)
    ensures CodeByte(Plus(x, y), Plus(x2, y2), Plus(m, n)) == Plus(CodeByte(x, x2, m), CodeByte(y, y2, n))
  {
    hide Plus, Xtime, X4;
    XtimeAdds(x2, y2);
    X4Adds(x2, y2);
    var p, p' := Plus(x, x2), Plus(y, y2);
    var q, q' := Plus(p, Xtime(x2)), Plus(p', Xtime(y2));
    Interchange(x, y, x2, y2);
    Interchange(p, p', Xtime(x2), Xtime(y2));
    Interchange(q, q', X4(x2), X4(y2));
    Interchange(Plus(q, X4(x2)), Plus(q', X4(y2)), m, n);
  }

  lemma CodeInvAdds(s: Column, t: Column)
    ensures CodeInv(Add(s, t)) == Add(CodeInv(s), CodeInv(t))
  {
    hide Plus, CodeSum, MacroXtime, CodeByte;
    CodeSumAdds(s, t);
    MacroAdds(s.a, s.c, t.a, t.c);
    MacroAdds(s.b, s.d, t.b, t.d);
    var x2, y2 := CodeSum(s), CodeSum(t);
    CodeByteAdds(s.a, x2, MacroXtime(s.a, s.c), t.a, y2, MacroXtime(t.a, t.c));
    CodeByteAdds(s.b, x2, MacroXtime(s.b, s.d), t.b, y2, MacroXtime(t.b, t.d));
    CodeByteAdds(s.c, x2, MacroXtime(s.a, s.c), t.c, y2, MacroXtime(t.a, t.c));
    CodeByteAdds(s.d, x2, MacroXtime(s.b, s.d), t.d, y2, MacroXtime(t.b, t.d));
  }

  lemma RestoredAdds(s: Column, t: Column)
    requires Restored(s) && Restored(t)
    ensures Restored(Add(s, t))
  {
    hide Mix, CodeInv, Add;
    MixAdds(s, t);
    CodeInvAdds(Mix(s), Mix(t));
  }

  // ---------------------------------------------------------------- the columns that come back

  /** m, if x has the bit k. */
  function MaskIf(x: bv8, k: bv8, m: bv8): bv8 {
    if x & k != 0 then m else 0
  }

  /** The sum of the masks that the bits of x select. */
  function Select(x: bv8, m0: bv8, m1: bv8, m2: bv8, m3: bv8, m4: bv8, m5: bv8, m6: bv8, m7: bv8): bv8 {
    Plus(Plus(Plus(MaskIf(x, 1, m0), MaskIf(x, 2, m1)), Plus(MaskIf(x, 4, m2), MaskIf(x, 8, m3))),
         Plus(Plus(MaskIf(x, 16, m4), MaskIf(x, 32, m5)), Plus(MaskIf(x, 64, m6), MaskIf(x, 128, m7))))
  }

  /** The one column with this first byte that comes back. */
  function Restorable(x: bv8): Column {
    Column(x,
           Select(x, 0x73, 0x75, 0x9b, 0x7a, 0xf4, 0xd5, 0xe6, 0xf1),
           Select(x, 0xe9, 0xef, 0xa7, 0xe0, 0x5b, 0x61, 0xf7, 0xa2),
           Select(x, 0x9b, 0x98, 0x38, 0x92, 0xbf, 0x94, 0x51, 0xd3))
  }

  predicate OneBit(k: bv8) {
    k == 1 || k == 2 || k == 4 || k == 8 || k == 16 || k == 32 || k == 64 || k == 128
  }

  lemma PickAdds(x: bv8, y: bv8, k: bv8, m: bv8)
    requires OneBit(k)
    ensures MaskIf(Plus(x, y), k, m) == Plus(MaskIf(x, k, m), MaskIf(y, k, m))
  {
    BitAdds(x, y, k);
    hide OneBit;
    PlusZero(m);
    PlusZero(0);
    PlusTwice(0, m);
  }

  lemma BitAdds(x: bv8, y: bv8, k: bv8)
    requires OneBit(k)
    ensures Plus(x, y) & k != 0 <==> (x & k != 0) != (y & k != 0)
  {
  }

  lemma SelectAdds(x: bv8, y: bv8, m0: bv8, m1: bv8, m2: bv8, m3: bv8, m4: bv8, m5: bv8, m6: bv8, m7: bv8)
    ensures Select(Plus(x, y), m0, m1, m2, m3, m4, m5, m6, m7)
         == Plus(Select(x, m0, m1, m2, m3, m4, m5, m6, m7), Select(y, m0, m1, m2, m3, m4, m5, m6, m7))
  {
    hide Plus, MaskIf;
    PickAdds(x, y, 1, m0);
    PickAdds(x, y, 2, m1);
    PickAdds(x, y, 4, m2);
    PickAdds(x, y, 8, m3);
    PickAdds(x, y, 16, m4);
    PickAdds(x, y, 32, m5);
    PickAdds(x, y, 64, m6);
    PickAdds(x, y, 128, m7);
    EightAdd(MaskIf(x, 1, m0), MaskIf(x, 2, m1), MaskIf(x, 4, m2), MaskIf(x, 8, m3),
             MaskIf(y, 1, m0), MaskIf(y, 2, m1), MaskIf(y, 4, m2), MaskIf(y, 8, m3));
    EightAdd(MaskIf(x, 16, m4), MaskIf(x, 32, m5), MaskIf(x, 64, m6), MaskIf(x, 128, m7),
             MaskIf(y, 16, m4), MaskIf(y, 32, m5), MaskIf(y, 64, m6), MaskIf(y, 128, m7));
    Interchange(Plus(Plus(MaskIf(x, 1, m0), MaskIf(x, 2, m1)), Plus(MaskIf(x, 4, m2), MaskIf(x, 8, m3))),
                Plus(Plus(MaskIf(y, 1, m0), MaskIf(y, 2, m1)), Plus(MaskIf(y, 4, m2), MaskIf(y, 8, m3))),
                Plus(Plus(MaskIf(x, 16, m4), MaskIf(x, 32, m5)), Plus(MaskIf(x, 64, m6), MaskIf(x, 128, m7))),
                Plus(Plus(MaskIf(y, 16, m4), MaskIf(y, 32, m5)), Plus(MaskIf(y, 64, m6), MaskIf(y, 128, m7))));
  }

  lemma EightAdd(a: bv8, b: bv8, c: bv8, d: bv8, a': bv8, b': bv8, c': bv8, d': bv8)
    ensures Plus(Plus(Plus(a, a'), Plus(b, b')), Plus(Plus(c, c'), Plus(d, d')))
         == Plus(Plus(Plus(a, b), Plus(c, d)), Plus(Plus(a', b'), Plus(c', d')))
  {
    hide Plus;
    Interchange(a, a', b, b');
    Interchange(c, c', d, d');
    Interchange(Plus(a, b), Plus(a', b'), Plus(c, d), Plus(c', d'));
  }

  lemma RestorableAdds(x: bv8, y: bv8)
    ensures Restorable(Plus(x, y)) == Add(Restorable(x), Restorable(y))
  {
    hide Select, Plus;
    SelectAdds(x, y, 0x73, 0x75, 0x9b, 0x7a, 0xf4, 0xd5, 0xe6, 0xf1);
    SelectAdds(x, y, 0xe9, 0xef, 0xa7, 0xe0, 0x5b, 0x61, 0xf7, 0xa2);
    SelectAdds(x, y, 0x9b, 0x98, 0x38, 0x92, 0xbf, 0x94, 0x51, 0xd3);
  }

  lemma SelectBit0(m0: bv8, m1: bv8, m2: bv8, m3: bv8, m4: bv8, m5: bv8, m6: bv8, m7: bv8)
    ensures Select(1, m0, m1, m2, m3, m4, m5, m6, m7) == m0
  {
    hide Plus;
    PlusZero(0);
    PlusZero(m0);
  }

  lemma SelectBit1(m0: bv8, m1: bv8, m2: bv8, m3: bv8, m4: bv8, m5: bv8, m6: bv8, m7: bv8)
    ensures Select(2, m0, m1, m2, m3, m4, m5, m6, m7) == m1
  {
    hide Plus;
    PlusZero(0);
    PlusZero(m1);
  }

  lemma SelectBit2(m0: bv8, m1: bv8, m2: bv8, m3: bv8, m4: bv8, m5: bv8, m6: bv8, m7: bv8)
    ensures Select(4, m0, m1, m2, m3, m4, m5, m6, m7) == m2
  {
    hide Plus;
    PlusZero(0);
    PlusZero(m2);
  }

  lemma SelectBit3(m0: bv8, m1: bv8, m2: bv8, m3: bv8, m4: bv8, m5: bv8, m6: bv8, m7: bv8)
    ensures Select(8, m0, m1, m2, m3, m4, m5, m6, m7) == m3
  {
    hide Plus;
    PlusZero(0);
    PlusZero(m3);
  }

  lemma SelectBit4(m0: bv8, m1: bv8, m2: bv8, m3: bv8, m4: bv8, m5: bv8, m6: bv8, m7: bv8)
    ensures Select(16, m0, m1, m2, m3, m4, m5, m6, m7) == m4
  {
    hide Plus;
    PlusZero(0);
    PlusZero(m4);
  }

  lemma SelectBit5(m0: bv8, m1: bv8, m2: bv8, m3: bv8, m4: bv8, m5: bv8, m6: bv8, m7: bv8)
    ensures Select(32, m0, m1, m2, m3, m4, m5, m6, m7) == m5
  {
    hide Plus;
    PlusZero(0);
    PlusZero(m5);
  }

  lemma SelectBit6(m0: bv8, m1: bv8, m2: bv8, m3: bv8, m4: bv8, m5: bv8, m6: bv8, m7: bv8)
    ensures Select(64, m0, m1, m2, m3, m4, m5, m6, m7) == m6
  {
    hide Plus;
    PlusZero(0);
    PlusZero(m6);
  }

  lemma SelectBit7(m0: bv8, m1: bv8, m2: bv8, m3: bv8, m4: bv8, m5: bv8, m6: bv8, m7: bv8)
    ensures Select(128, m0, m1, m2, m3, m4, m5, m6, m7) == m7
  {
    hide Plus;
    PlusZero(0);
    PlusZero(m7);
  }

  /** A byte with one bit selects one mask. */
  lemma SelectOne(m0: bv8, m1: bv8, m2: bv8, m3: bv8, m4: bv8, m5: bv8, m6: bv8, m7: bv8)
    ensures Select(1, m0, m1, m2, m3, m4, m5, m6, m7) == m0
    ensures Select(2, m0, m1, m2, m3, m4, m5, m6, m7) == m1
    ensures Select(4, m0, m1, m2, m3, m4, m5, m6, m7) == m2
    ensures Select(8, m0, m1, m2, m3, m4, m5, m6, m7) == m3
    ensures Select(16, m0, m1, m2, m3, m4, m5, m6, m7) == m4
    ensures Select(32, m0, m1, m2, m3, m4, m5, m6, m7) == m5
    ensures Select(64, m0, m1, m2, m3, m4, m5, m6, m7) == m6
    ensures Select(128, m0, m1, m2, m3, m4, m5, m6, m7) == m7
  {
    hide Select;
    SelectBit0(m0, m1, m2, m3, m4, m5, m6, m7);
    SelectBit1(m0, m1, m2, m3, m4, m5, m6, m7);
    SelectBit2(m0, m1, m2, m3, m4, m5, m6, m7);
    SelectBit3(m0, m1, m2, m3, m4, m5, m6, m7);
    SelectBit4(m0, m1, m2, m3, m4, m5, m6, m7);
    SelectBit5(m0, m1, m2, m3, m4, m5, m6, m7);
    SelectBit6(m0, m1, m2, m3, m4, m5, m6, m7);
    SelectBit7(m0, m1, m2, m3, m4, m5, m6, m7);
  }

  lemma RestorableBits()
    ensures Restorable(1) == Column(0x01, 0x73, 0xe9, 0x9b)
    ensures Restorable(2) == Column(0x02, 0x75, 0xef, 0x98)
    ensures Restorable(4) == Column(0x04, 0x9b, 0xa7, 0x38)
    ensures Restorable(8) == Column(0x08, 0x7a, 0xe0, 0x92)
    ensures Restorable(16) == Column(0x10, 0xf4, 0x5b, 0xbf)
    ensures Restorable(32) == Column(0x20, 0xd5, 0x61, 0x94)
    ensures Restorable(64) == Column(0x40, 0xe6, 0xf7, 0x51)
    ensures Restorable(128) == Column(0x80, 0xf1, 0xa2, 0xd3)
  {
    hide Select;
    SelectOne(0x73, 0x75, 0x9b, 0x7a, 0xf4, 0xd5, 0xe6, 0xf1);
    SelectOne(0xe9, 0xef, 0xa7, 0xe0, 0x5b, 0x61, 0xf7, 0xa2);
    SelectOne(0x9b, 0x98, 0x38, 0x92, 0xbf, 0x94, 0x51, 0xd3);
  }

  lemma MixBit0()
    ensures Mix(Column(0x01, 0x73, 0xe9, 0x9b)) == Column(0xe5, 0x5c, 0x0d, 0xb4)
  {
  }

  lemma BackBit0()
    ensures CodeInv(Column(0xe5, 0x5c, 0x0d, 0xb4)) == Column(0x01, 0x73, 0xe9, 0x9b)
  {
  }

  lemma MixBit1()
    ensures Mix(Column(0x02, 0x75, 0xef, 0x98)) == Column(0xec, 0x5a, 0x01, 0xb7)
  {
  }

  lemma BackBit1()
    ensures CodeInv(Column(0xec, 0x5a, 0x01, 0xb7)) == Column(0x02, 0x75, 0xef, 0x98)
  {
  }

  lemma MixBit2()
    ensures Mix(Column(0x04, 0x9b, 0xa7, 0x38)) == Column(0x21, 0xe3, 0x82, 0x40)
  {
  }

  lemma BackBit2()
    ensures CodeInv(Column(0x21, 0xe3, 0x82, 0x40)) == Column(0x04, 0x9b, 0xa7, 0x38)
  {
  }

  lemma MixBit3()
    ensures Mix(Column(0x08, 0x7a, 0xe0, 0x92)) == Column(0xec, 0x55, 0x04, 0xbd)
  {
  }

  lemma BackBit3()
    ensures CodeInv(Column(0xec, 0x55, 0x04, 0xbd)) == Column(0x08, 0x7a, 0xe0, 0x92)
  {
  }

  lemma MixBit4()
    ensures Mix(Column(0x10, 0xf4, 0x5b, 0xbf)) == Column(0xc3, 0xb1, 0x88, 0xfa)
  {
  }

  lemma BackBit4()
    ensures CodeInv(Column(0xc3, 0xb1, 0x88, 0xfa)) == Column(0x10, 0xf4, 0x5b, 0xbf)
  {
  }

  lemma MixBit5()
    ensures Mix(Column(0x20, 0xd5, 0x61, 0x94)) == Column(0xd1, 0xa6, 0x90, 0xe7)
  {
  }

  lemma BackBit5()
    ensures CodeInv(Column(0xd1, 0xa6, 0x90, 0xe7)) == Column(0x20, 0xd5, 0x61, 0x94)
  {
  }

  lemma MixBit6()
    ensures Mix(Column(0x40, 0xe6, 0xf7, 0x51)) == Column(0x17, 0xc4, 0xa0, 0x73)
  {
  }

  lemma BackBit6()
    ensures CodeInv(Column(0x17, 0xc4, 0xa0, 0x73)) == Column(0x40, 0xe6, 0xf7, 0x51)
  {
  }

  lemma MixBit7()
    ensures Mix(Column(0x80, 0xf1, 0xa2, 0xd3)) == Column(0x62, 0x57, 0x40, 0x75)
  {
  }

  lemma BackBit7()
    ensures CodeInv(Column(0x62, 0x57, 0x40, 0x75)) == Column(0x80, 0xf1, 0xa2, 0xd3)
  {
  }

  lemma BitsRestored()
    ensures Restored(Restorable(1)) && Restored(Restorable(2)) && Restored(Restorable(4)) && Restored(Restorable(8))
    ensures Restored(Restorable(16)) && Restored(Restorable(32)) && Restored(Restorable(64))
    ensures Restored(Restorable(128))
  {
    hide Mix, CodeInv, Restorable;
    RestorableBits();
    MixBit0();
    BackBit0();
    MixBit1();
    BackBit1();
    MixBit2();
    BackBit2();
    MixBit3();
    BackBit3();
    MixBit4();
    BackBit4();
    MixBit5();
    BackBit5();
    MixBit6();
    BackBit6();
    MixBit7();
    BackBit7();
  }

  lemma NothingRestored()
    ensures Restored(Restorable(0))
  {
    hide Restored, Restorable;
    BitsRestored();
    SumRestored(1, 1);
    assert Plus(1, 1) == 0;
  }

  function Bit(x: bv8, k: bv8): bv8 {
    x & k
  }

  lemma OneBitRestored(x: bv8, k: bv8)
    requires OneBit(k)
    ensures Restored(Restorable(Bit(x, k)))
  {
    hide Restored, Restorable;
    NothingRestored();
    BitsRestored();
    assert Bit(x, k) == 0 || Bit(x, k) == k;
  }

  lemma SumRestored(x: bv8, y: bv8)
    requires Restored(Restorable(x)) && Restored(Restorable(y))
    ensures Restored(Restorable(Plus(x, y)))
  {
    hide Restored, Restorable, Plus;
    RestorableAdds(x, y);
    RestoredAdds(Restorable(x), Restorable(y));
  }

  function LowBits(x: bv8): bv8 {
    Plus(Plus(Bit(x, 1), Bit(x, 2)), Plus(Bit(x, 4), Bit(x, 8)))
  }

  function HighBits(x: bv8): bv8 {
    Plus(Plus(Bit(x, 16), Bit(x, 32)), Plus(Bit(x, 64), Bit(x, 128)))
  }

  lemma InBits(x: bv8)
    ensures x == Plus(LowBits(x), HighBits(x))
  {
  }

  lemma RestorableRestored(x: bv8)
    ensures Restored(Restorable(x))
  {
    hide Restored, Restorable, Plus, Bit, OneBit;
    InBits(x);
    FourRestored(x);
    SumRestored(LowBits(x), HighBits(x));
  }

  lemma FourRestored(x: bv8)
    ensures Restored(Restorable(LowBits(x))) && Restored(Restorable(HighBits(x)))
  {
    hide Restored, Restorable, Plus, Bit;
    OneBitRestored(x, 1);
    OneBitRestored(x, 2);
    OneBitRestored(x, 4);
    OneBitRestored(x, 8);
    OneBitRestored(x, 16);
    OneBitRestored(x, 32);
    OneBitRestored(x, 64);
    OneBitRestored(x, 128);
    SumRestored(Bit(x, 1), Bit(x, 2));
    SumRestored(Bit(x, 4), Bit(x, 8));
    SumRestored(Bit(x, 16), Bit(x, 32));
    SumRestored(Bit(x, 64), Bit(x, 128));
    SumRestored(Plus(Bit(x, 1), Bit(x, 2)), Plus(Bit(x, 4), Bit(x, 8)));
    SumRestored(Plus(Bit(x, 16), Bit(x, 32)), Plus(Bit(x, 64), Bit(x, 128)));
  }

  // ---------------------------------------------------------------- no other column comes back

  function Total(t: Column): bv8 {
    Plus(Plus(t.a, t.c), Plus(t.b, t.d))
  }

  /** The code's step leaves the sum of opposite bytes alone. */
  lemma CodeKeepsPairs(t: Column)
    ensures Plus(CodeInv(t).a, CodeInv(t).c) == Plus(t.a, t.c)
  {
    hide Plus, Xtime, X4, CodeSum, MacroXtime;
    var x2, m := CodeSum(t), MacroXtime(t.a, t.c);
    var y, z := Xtime(x2), X4(x2);
    Cancel(t.a, t.c, x2);
    Cancel(Plus(t.a, x2), Plus(t.c, x2), y);
    Cancel(Plus(Plus(t.a, x2), y), Plus(Plus(t.c, x2), y), z);
    Cancel(Plus(Plus(Plus(t.a, x2), y), z), Plus(Plus(Plus(t.c, x2), y), z), m);
  }

  lemma Cancel(x: bv8, y: bv8, m: bv8)
    ensures Plus(Plus(x, m), Plus(y, m)) == Plus(x, y)
  {
  }

  lemma PairSum(xa: bv8, yb: bv8, b: bv8, xc: bv8, yd: bv8, d: bv8, a: bv8, c: bv8)
    ensures Plus(Plus(Plus(Plus(xa, Plus(yb, b)), c), d), Plus(Plus(Plus(xc, Plus(yd, d)), a), b))
         == Plus(Plus(Plus(xa, xc), Plus(yb, yd)), Plus(a, c))
  {
    hide Plus;
    var p, q := Plus(yb, b), Plus(yd, d);
    Interchange(Plus(Plus(xa, p), c), d, Plus(Plus(xc, q), a), b);
    Interchange(Plus(xa, p), c, Plus(xc, q), a);
    Interchange(xa, p, xc, q);
    Interchange(yb, b, yd, d);
    PlusCommutes(d, b);
    PlusCommutes(c, a);
    var e, f, g, h := Plus(xa, xc), Plus(yb, yd), Plus(b, d), Plus(a, c);
    // ((e + (f + g)) + h) + g
    PlusAssociates(e, f, g);
    PlusAssociates(Plus(e, f), g, h);
    PlusCommutes(g, h);
    PlusAssociates(Plus(e, f), h, g);
    PlusTwice(Plus(Plus(e, f), h), g);
  }

  /** Mixing changes the sum of opposite bytes by twice the total. */
  lemma MixMovesPairs(t: Column)
    ensures Plus(Mix(t).a, Mix(t).c) == Plus(Xtime(Total(t)), Plus(t.a, t.c))
  {
    hide Plus, Xtime, Mix;
    MixByBytes(t);
    PairSum(Xtime(t.a), Xtime(t.b), t.b, Xtime(t.c), Xtime(t.d), t.d, t.a, t.c);
    XtimeAdds(t.a, t.c);
    XtimeAdds(t.b, t.d);
    XtimeAdds(Plus(t.a, t.c), Plus(t.b, t.d));
  }

  lemma XtimeZero(x: bv8)
    requires Xtime(x) == 0
    ensures x == 0
  {
  }

  lemma SumZero(x: bv8, y: bv8)
    requires Plus(x, y) == y
    ensures x == 0
  {
  }

  /** A column that comes back has total zero. */
  lemma RestoredTotal(t: Column)
    requires Restored(t)
    ensures Total(t) == 0
  {
    hide Plus, Xtime, Mix, CodeInv, Total;
    CodeKeepsPairs(Mix(t));
    MixMovesPairs(t);
    SumZero(Xtime(Total(t)), Plus(t.a, t.c));
    XtimeZero(Total(t));
  }

  /** A column of total zero whose first byte is zero, mixed. */
  lemma MixFlat(b: bv8, c: bv8)
    ensures Mix(Column(0, b, c, Plus(b, c))) ==
            Column(Xtime(b), Plus(Xtime(Plus(b, c)), b), Plus(Xtime(b), c), Plus(Xtime(Plus(b, c)), Plus(b, c)))
  {
    hide Plus, Xtime, Mix;
    XtimeAdds(b, c);
    MixByBytes(Column(0, b, c, Plus(b, c)));
    assert Xtime(0) == 0 by { Zeros(); }
    FlatA(b, c, Xtime(b));
    FlatB(b, c, Xtime(b), Xtime(c));
    FlatC(b, c, Xtime(b), Xtime(c));
    FlatD(b, c, Xtime(b), Xtime(c));
  }

  lemma FlatA(b: bv8, c: bv8, x: bv8)
    ensures Plus(Plus(Plus(0, Plus(x, b)), c), Plus(b, c)) == x
  {
  }

  lemma FlatB(b: bv8, c: bv8, x: bv8, y: bv8)
    ensures Plus(Plus(Plus(x, Plus(y, c)), Plus(b, c)), 0) == Plus(Plus(x, y), b)
  {
  }

  lemma FlatC(b: bv8, c: bv8, x: bv8, y: bv8)
    ensures Plus(Plus(Plus(y, Plus(Plus(x, y), Plus(b, c))), 0), b) == Plus(x, c)
  {
  }

  lemma FlatD(b: bv8, c: bv8, x: bv8, y: bv8)
    ensures Plus(Plus(Plus(Plus(x, y), Plus(0, 0)), b), c) == Plus(Plus(x, y), Plus(b, c))
  {
  }

  lemma CodeSumIs(t: Column)
    ensures CodeSum(t) == Xtime(Total(t))
  {
    hide Plus, Xtime;
    XtimeAdds(t.a, t.c);
    XtimeAdds(t.b, t.d);
    XtimeAdds(Plus(t.a, t.c), Plus(t.b, t.d));
    var a, b, c, d := Xtime(t.a), Xtime(t.b), Xtime(t.c), Xtime(t.d);
    PlusAssociates(Plus(a, b), c, d);
    Interchange(a, b, c, d);
  }

  lemma FlatTotal(x: bv8, v: bv8, b: bv8, c: bv8)
    ensures Plus(Plus(x, Plus(x, c)), Plus(Plus(v, b), Plus(v, Plus(b, c)))) == 0
  {
  }

  lemma ByteOfZero(x: bv8, m: bv8)
    ensures CodeByte(x, 0, m) == Plus(x, m)
  {
    hide Plus;
    assert Xtime(0) == 0 by { Zeros(); }
    PlusZero(x);
  }

  /** What is left of the code's step on such a column. */
  lemma CodeFlat(b: bv8, c: bv8)
    ensures var r, x, v := CodeInv(Mix(Column(0, b, c, Plus(b, c)))), Xtime(b), Xtime(Plus(b, c));
            && r.a == Plus(x, MacroXtime(x, Plus(x, c)))
            && r.b == Plus(Plus(v, b), MacroXtime(Plus(v, b), Plus(v, Plus(b, c))))
  {
    hide Plus, Xtime, Mix, MacroXtime, CodeByte, CodeSum;
    MixFlat(b, c);
    var u, x, v := Mix(Column(0, b, c, Plus(b, c))), Xtime(b), Xtime(Plus(b, c));
    FlatTotal(x, v, b, c);
    assert Total(u) == 0;
    CodeSumIs(u);
    assert Xtime(0) == 0 by { Zeros(); }
    ByteOfZero(u.a, MacroXtime(u.a, u.c));
    ByteOfZero(u.b, MacroXtime(u.b, u.d));
  }

  /** The first byte determines c from b. */
  lemma FirstByte(x: bv8, c: bv8)
    requires Plus(x, MacroXtime(x, Plus(x, c))) == 0
    ensures c == Plus(x, if x & 1 != 0 then 0x80 else 0)
  {
  }

  /** Then the second byte leaves only zero. */
  lemma SecondByte(b: bv8, c: bv8)
    requires var x, v := Xtime(b), Xtime(Plus(b, c));
             && c == Plus(x, if x & 1 != 0 then 0x80 else 0)
             && Plus(Plus(v, b), MacroXtime(Plus(v, b), Plus(v, Plus(b, c)))) == b
    ensures b == 0 && c == 0
  {
  }

  lemma OnlyZero(t: Column)
    requires Restored(t) && t.a == 0
    ensures t == Column(0, 0, 0, 0)
  {
    hide Mix, CodeInv, Xtime, MacroXtime;
    RestoredTotal(t);
    LastIs(t.b, t.c, t.d);
    CodeFlat(t.b, t.c);
    FirstByte(Xtime(t.b), t.c);
    SecondByte(t.b, t.c);
    assert Plus(0, 0) == 0;
  }

  lemma LastIs(b: bv8, c: bv8, d: bv8)
    requires Plus(Plus(0, c), Plus(b, d)) == 0
    ensures d == Plus(b, c)
  {
  }

  lemma AddTwice(s: Column, t: Column)
    requires Add(s, t) == Column(0, 0, 0, 0)
    ensures s == t
  {
    SameBytes(s.a, t.a);
    SameBytes(s.b, t.b);
    SameBytes(s.c, t.c);
    SameBytes(s.d, t.d);
  }

  lemma SameBytes(x: bv8, y: bv8)
    ensures Plus(x, y) == 0 <==> x == y
  {
  }

  /** The code's step restores a mixed column if and only if the column is the one that belongs to its
      first byte: 256 of the 2^32 columns come back. */
  lemma RestoredIff(t: Column)
    ensures Restored(t) <==> t == Restorable(t.a)
  {
    hide Restored, Plus;
    RestorableRestored(t.a);
    if Restored(t) {
      RestoredAdds(t, Restorable(t.a));
      SameBytes(t.a, t.a);
      OnlyZero(Add(t, Restorable(t.a)));
      AddTwice(t, Restorable(t.a));
    }
  }

  // ---------------------------------------------------------------- the step loses nothing

  lemma CodeKeepsOtherPairs(t: Column)
    ensures Plus(CodeInv(t).b, CodeInv(t).d) == Plus(t.b, t.d)
  {
    hide Plus, Xtime, X4, CodeSum, MacroXtime;
    var x2, m := CodeSum(t), MacroXtime(t.b, t.d);
    var y, z := Xtime(x2), X4(x2);
    Cancel(t.b, t.d, x2);
    Cancel(Plus(t.b, x2), Plus(t.d, x2), y);
    Cancel(Plus(Plus(t.b, x2), y), Plus(Plus(t.d, x2), y), z);
    Cancel(Plus(Plus(Plus(t.b, x2), y), z), Plus(Plus(Plus(t.d, x2), y), z), m);
  }

  lemma MacroOfTwin(x: bv8)
    requires Plus(x, MacroXtime(x, x)) == 0
    ensures x == 0
  {
  }

  /** Only the zero column goes to the zero column. */
  lemma CodeInvKernel(t: Column)
    requires CodeInv(t) == Column(0, 0, 0, 0)
    ensures t == Column(0, 0, 0, 0)
  {
    CodeKeepsPairs(t);
    CodeKeepsOtherPairs(t);
    assert Plus(0, 0) == 0;
    SameBytes(t.a, t.c);
    SameBytes(t.b, t.d);
    CodeSumIs(t);
    assert Xtime(0) == 0 by { Zeros(); }
    hide Plus, Xtime, MacroXtime, CodeSum, CodeByte;
    PlusZero(0);
    ByteOfZero(t.a, MacroXtime(t.a, t.c));
    ByteOfZero(t.b, MacroXtime(t.b, t.d));
    MacroOfTwin(t.a);
    MacroOfTwin(t.b);
  }

  /** Two different columns never go to the same column. */
  lemma CodeInvInjective(s: Column, t: Column)
    ensures CodeInv(s) == CodeInv(t) ==> s == t
  {
    hide CodeInv, Plus;
    CodeInvAdds(s, t);
    if CodeInv(s) == CodeInv(t) {
      var r := CodeInv(s);
      SameBytes(r.a, r.a);
      SameBytes(r.b, r.b);
      SameBytes(r.c, r.c);
      SameBytes(r.d, r.d);
      CodeInvKernel(Add(s, t));
      AddTwice(s, t);
    }
  }
}
