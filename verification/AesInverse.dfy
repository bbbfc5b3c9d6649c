/**
 The inverse of MixColumns: what FIPS 197 section 5.3.3 defines, and what the column step of the
 decryption code computes instead.
 */
module AesInverse {
  import opened AesField

  // ---------------------------------------------------------------- the standard's inverse

  function X8(x: bv8): bv8 {
    Xtime(X4(x))
  }

  function Times9(x: bv8): bv8 { Plus(X8(x), x) }
  function TimesB(x: bv8): bv8 { Plus(Plus(X8(x), Xtime(x)), x) }
  function TimesD(x: bv8): bv8 { Plus(Plus(X8(x), X4(x)), x) }
  function TimesE(x: bv8): bv8 { Plus(Plus(X8(x), X4(x)), Xtime(x)) }

  /** One row of the matrix, turned to start at its own place. */
  function Row(a: bv8, b: bv8, c: bv8, d: bv8): bv8 {
    Plus(Plus(TimesE(a), TimesB(b)), Plus(TimesD(c), Times9(d)))
  }

  /** InvMixColumns on a column: the matrix with rows 0e 0b 0d 09 and its rotations. */
  function InvMix(t: Column): Column {
    Column(Row(t.a, t.b, t.c, t.d), Row(t.b, t.c, t.d, t.a), Row(t.c, t.d, t.a, t.b), Row(t.d, t.a, t.b, t.c))
  }

  function Mix3(t: Column): Column {
    Mix(Mix(Mix(t)))
  }

  lemma X8Adds(x: bv8, y: bv8)
    ensures X8(Plus(x, y)) == Plus(X8(x), X8(y))
  {
    hide Xtime, X4, Plus;
    X4Adds(x, y);
    XtimeAdds(X4(x), X4(y));
  }

  lemma TimesAdd(x: bv8, y: bv8)
    ensures Times9(Plus(x, y)) == Plus(Times9(x), Times9(y)) && TimesB(Plus(x, y)) == Plus(TimesB(x), TimesB(y))
    ensures TimesD(Plus(x, y)) == Plus(TimesD(x), TimesD(y)) && TimesE(Plus(x, y)) == Plus(TimesE(x), TimesE(y))
  {
    hide Xtime, X4, X8, Plus;
    XtimeAdds(x, y);
    X4Adds(x, y);
    X8Adds(x, y);
    Interchange(X8(x), X8(y), x, y);
    Interchange(X8(x), X8(y), Xtime(x), Xtime(y));
    Interchange(X8(x), X8(y), X4(x), X4(y));
    Interchange(Plus(X8(x), Xtime(x)), Plus(X8(y), Xtime(y)), x, y);
    Interchange(Plus(X8(x), X4(x)), Plus(X8(y), X4(y)), x, y);
    Interchange(Plus(X8(x), X4(x)), Plus(X8(y), X4(y)), Xtime(x), Xtime(y));
  }

  lemma RowAdds(a: bv8, b: bv8, c: bv8, d: bv8, a': bv8, b': bv8, c': bv8, d': bv8)
    ensures Row(Plus(a, a'), Plus(b, b'), Plus(c, c'), Plus(d, d')) == Plus(Row(a, b, c, d), Row(a', b', c', d'))
  {
    hide Times9, TimesB, TimesD, TimesE, Plus;
    TimesAdd(a, a');
    TimesAdd(b, b');
    TimesAdd(c, c');
    TimesAdd(d, d');
    Interchange(TimesE(a), TimesE(a'), TimesB(b), TimesB(b'));
    Interchange(TimesD(c), TimesD(c'), Times9(d), Times9(d'));
    Interchange(Plus(TimesE(a), TimesB(b)), Plus(TimesE(a'), TimesB(b')), Plus(TimesD(c), Times9(d)),
        Plus(TimesD(c'), Times9(d')));
  }

  lemma InvMixAdds(s: Column, t: Column)
    ensures InvMix(Add(s, t)) == Add(InvMix(s), InvMix(t))
  {
    hide Row, Plus;
    RowAdds(s.a, s.b, s.c, s.d, t.a, t.b, t.c, t.d);
    RowAdds(s.b, s.c, s.d, s.a, t.b, t.c, t.d, t.a);
    RowAdds(s.c, s.d, s.a, s.b, t.c, t.d, t.a, t.b);
    RowAdds(s.d, s.a, s.b, s.c, t.d, t.a, t.b, t.c);
  }

  lemma Mix3Adds(s: Column, t: Column)
    ensures Mix3(Add(s, t)) == Add(Mix3(s), Mix3(t))
  {
    hide Mix, Add;
    MixAdds(s, t);
    MixAdds(Mix(s), Mix(t));
    MixAdds(Mix(Mix(s)), Mix(Mix(t)));
  }

  lemma Mix3Turns(t: Column)
    ensures Mix3(Turn(t)) == Turn(Mix3(t))
  {
    hide Mix, Turn;
    MixTurns(t);
    MixTurns(Mix(t));
    MixTurns(Mix(Mix(t)));
  }

  lemma Zeros()
    ensures Xtime(0) == 0 && Times9(0) == 0 && TimesB(0) == 0 && TimesD(0) == 0 && TimesE(0) == 0
  {
  }

  lemma SumE(x2: bv8, x4: bv8, x8: bv8)
    ensures Plus(Plus(x2, x8), x4) == Plus(Plus(x8, x4), x2)
  {
  }

  lemma Sum9(a: bv8, x4: bv8, x8: bv8)
    ensures Plus(Plus(x8, x4), Plus(a, x4)) == Plus(x8, a)
  {
  }

  lemma SumD(a: bv8, x4: bv8, x8: bv8)
    ensures Plus(x8, Plus(a, x4)) == Plus(Plus(x8, x4), a)
  {
  }

  lemma SumB(a: bv8, x2: bv8, x4: bv8, x8: bv8)
    ensures Plus(Plus(Plus(x2, x8), Plus(a, x4)), x4) == Plus(Plus(x8, x2), a)
  {
  }

  /** Three times mixed, a single byte appears in all four places, as the first column of the matrix says. */
  lemma SingleThird(a: bv8)
    ensures Mix(Column(Plus(a, X4(a)), 0, X4(a), 0)) == Column(TimesE(a), Times9(a), TimesD(a), TimesB(a))
  {
    Zeros();
    hide Xtime, X4, Plus, Mix;
    var x2, x4, x8 := Xtime(a), X4(a), X8(a);
    var p := Plus(a, x4);
    XtimeAdds(a, x4);
    MixByBytes(Column(p, 0, x4, 0));
    PlusZero(0);
    PlusZero(Xtime(p));
    PlusZero(Plus(Xtime(p), x4));
    PlusZero(Plus(x8, x4));
    PlusZero(Plus(Plus(x8, x4), p));
    PlusZero(x8);
    PlusZero(Plus(x8, p));
    PlusZero(Plus(Xtime(p), p));
    SumE(x2, x4, x8);
    Sum9(a, x4, x8);
    SumD(a, x4, x8);
    SumB(a, x2, x4, x8);
  }

  lemma SingleInv(a: bv8)
    ensures InvMix(Column(a, 0, 0, 0)) == Column(TimesE(a), Times9(a), TimesD(a), TimesB(a))
  {
    Zeros();
    hide Times9, TimesB, TimesD, TimesE, Plus;
    PlusZero(0);
    PlusZero(TimesE(a));
    PlusZero(Times9(a));
    PlusZero(TimesD(a));
    PlusZero(TimesB(a));
  }

  lemma SingleThree(a: bv8)
    ensures Mix3(Column(a, 0, 0, 0)) == InvMix(Column(a, 0, 0, 0))
    ensures Mix3(Column(0, a, 0, 0)) == InvMix(Column(0, a, 0, 0))
    ensures Mix3(Column(0, 0, a, 0)) == InvMix(Column(0, 0, a, 0))
    ensures Mix3(Column(0, 0, 0, a)) == InvMix(Column(0, 0, 0, a))
  {
    hide Mix, Row, Plus, X4, TimesE, Times9, TimesD, TimesB;
    SingleTwice(a);
    SingleThird(a);
    SingleInv(a);
    var first := Column(a, 0, 0, 0);
    assert Mix3(first) == InvMix(first);
    hide Mix3;
    Mix3Turns(first);
    Mix3Turns(Turn(first));
    Mix3Turns(Turn(Turn(first)));
  }

  /** The column as the sum of its four bytes, each alone. */
  lemma InBytes(t: Column)
    ensures t == Add(Add(Column(t.a, 0, 0, 0), Column(0, t.b, 0, 0)), Add(Column(0, 0, t.c, 0), Column(0, 0, 0, t.d)))
  {
    hide Plus;
    PlusZero(0);
    PlusZero(t.a);
    PlusZero(t.b);
    PlusZero(t.c);
    PlusZero(t.d);
  }

  /** Three more MixColumns are the InvMixColumns of the standard, on every column. */
  lemma ThreeMixesInvert(t: Column)
    ensures Mix3(t) == InvMix(t)
  {
    hide Mix3, InvMix, Add;
    var a, b := Column(t.a, 0, 0, 0), Column(0, t.b, 0, 0);
    var c, d := Column(0, 0, t.c, 0), Column(0, 0, 0, t.d);
    SingleThree(t.a);
    SingleThree(t.b);
    SingleThree(t.c);
    SingleThree(t.d);
    Mix3Adds(a, b);
    Mix3Adds(c, d);
    Mix3Adds(Add(a, b), Add(c, d));
    InvMixAdds(a, b);
    InvMixAdds(c, d);
    InvMixAdds(Add(a, b), Add(c, d));
    InBytes(t);
  }
}
