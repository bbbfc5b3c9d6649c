/** The arithmetic of MixColumns (FIPS 197 sections 4.2 and 5.1.3), on its own: the column transformation has order
    four. */
module AesField {

  /** Addition in GF(2^8). */
  function Plus(x: bv8, y: bv8): bv8 {
    x ^ y
  }

  /** The reduction by the field polynomial that a doubling needs. */
  function Reduction(x: bv8): bv8 {
    if x & 0x80 != 0 then 0x1b else 0
  }

  function Double(x: bv8): bv8 {
    x << 1
  }

  /** Multiplication by x in GF(2^8). */
  function Xtime(x: bv8): bv8 {
    Plus(Double(x), Reduction(x))
  }

  datatype Column = Column(a: bv8, b: bv8, c: bv8, d: bv8)

  function Mix(t: Column): Column {
    Column(Plus(Plus(Plus(Xtime(t.a), Plus(Xtime(t.b), t.b)), t.c), t.d),
           Plus(Plus(Plus(t.a, Xtime(t.b)), Plus(Xtime(t.c), t.c)), t.d),
           Plus(Plus(Plus(t.a, t.b), Xtime(t.c)), Plus(Xtime(t.d), t.d)),
           Plus(Plus(Plus(Plus(Xtime(t.a), t.a), t.b), t.c), Xtime(t.d)))
  }

  // MixColumns is linear, so it is enough to follow a column with a single non-zero byte.

  lemma PlusCommutes(a: bv8, b: bv8)
    ensures Plus(a, b) == Plus(b, a)
  {
  }

  lemma PlusAssociates(a: bv8, b: bv8, c: bv8)
    ensures Plus(Plus(a, b), c) == Plus(a, Plus(b, c))
  {
  }

  lemma PlusTwice(a: bv8, k: bv8)
    ensures Plus(Plus(a, k), k) == a
  {
  }

  lemma Interchange(a: bv8, b: bv8, c: bv8, d: bv8)
    ensures Plus(Plus(a, b), Plus(c, d)) == Plus(Plus(a, c), Plus(b, d))
  {
    hide Plus;
    PlusAssociates(a, b, Plus(c, d));
    PlusAssociates(b, c, d);
    PlusCommutes(b, c);
    PlusAssociates(c, b, d);
    PlusAssociates(a, c, Plus(b, d));
  }

  lemma FirstToLast(p: bv8, q: bv8, r: bv8, s: bv8)
    ensures Plus(Plus(Plus(p, q), r), s) == Plus(Plus(Plus(q, r), s), p)
  {
    hide Plus;
    PlusAssociates(p, q, r);
    PlusAssociates(p, Plus(q, r), s);
    PlusCommutes(p, Plus(Plus(q, r), s));
  }

  /** One output byte of a mixed column, from the four input bytes starting at its own place. */
  function Mix1(a: bv8, b: bv8, c: bv8, d: bv8): bv8 {
    Plus(Plus(Plus(Xtime(a), Plus(Xtime(b), b)), c), d)
  }

  lemma MixByBytes(t: Column)
    ensures Mix(t) == Column(Mix1(t.a, t.b, t.c, t.d), Mix1(t.b, t.c, t.d, t.a),
                             Mix1(t.c, t.d, t.a, t.b), Mix1(t.d, t.a, t.b, t.c))
  {
    hide Plus, Xtime;
    var ya, yc, yd := Plus(Xtime(t.a), t.a), Plus(Xtime(t.c), t.c), Plus(Xtime(t.d), t.d);
    FirstToLast(t.a, Xtime(t.b), yc, t.d);
    FirstToLast(t.a, t.b, Xtime(t.c), yd);
    FirstToLast(t.b, Xtime(t.c), yd, t.a);
    FirstToLast(ya, t.b, t.c, Xtime(t.d));
    FirstToLast(t.b, t.c, Xtime(t.d), ya);
    FirstToLast(t.c, Xtime(t.d), ya, t.b);
  }

  lemma ReductionAdds(x: bv8, y: bv8)
    ensures Reduction(Plus(x, y)) == Plus(Reduction(x), Reduction(y))
  {
  }

  lemma DoubleAdds(x: bv8, y: bv8)
    ensures Double(Plus(x, y)) == Plus(Double(x), Double(y))
  {
  }

  lemma XtimeAdds(x: bv8, y: bv8)
    ensures Xtime(Plus(x, y)) == Plus(Xtime(x), Xtime(y))
  {
    hide Plus, Double, Reduction;
    ReductionAdds(x, y);
    DoubleAdds(x, y);
    Interchange(Double(x), Double(y), Reduction(x), Reduction(y));
  }

  lemma Mix1Adds(a: bv8, b: bv8, c: bv8, d: bv8, a': bv8, b': bv8, c': bv8, d': bv8)
    ensures Mix1(Plus(a, a'), Plus(b, b'), Plus(c, c'), Plus(d, d')) == Plus(Mix1(a, b, c, d), Mix1(a', b', c', d'))
  {
    hide Plus, Xtime;
    XtimeAdds(a, a');
    XtimeAdds(b, b');
    Interchange(Xtime(b), Xtime(b'), b, b');
    var p, p' := Plus(Xtime(b), b), Plus(Xtime(b'), b');
    Interchange(Xtime(a), Xtime(a'), p, p');
    var q, q' := Plus(Xtime(a), p), Plus(Xtime(a'), p');
    Interchange(q, q', c, c');
    Interchange(Plus(q, c), Plus(q', c'), d, d');
  }

  function Add(s: Column, t: Column): Column {
    Column(Plus(s.a, t.a), Plus(s.b, t.b), Plus(s.c, t.c), Plus(s.d, t.d))
  }

  lemma MixAdds(s: Column, t: Column)
    ensures Mix(Add(s, t)) == Add(Mix(s), Mix(t))
  {
    hide Mix, Mix1, Plus;
    MixByBytes(s);
    MixByBytes(t);
    MixByBytes(Add(s, t));
    Mix1Adds(s.a, s.b, s.c, s.d, t.a, t.b, t.c, t.d);
    Mix1Adds(s.b, s.c, s.d, s.a, t.b, t.c, t.d, t.a);
    Mix1Adds(s.c, s.d, s.a, s.b, t.c, t.d, t.a, t.b);
    Mix1Adds(s.d, s.a, s.b, s.c, t.d, t.a, t.b, t.c);
  }

  function Turn(t: Column): Column {
    Column(t.b, t.c, t.d, t.a)
  }

  lemma MixTurns(t: Column)
    ensures Mix(Turn(t)) == Turn(Mix(t))
  {
    hide Mix, Mix1;
    MixByBytes(t);
    MixByBytes(Turn(t));
  }

  function Mix4(t: Column): Column {
    Mix(Mix(Mix(Mix(t))))
  }

  lemma Mix4Adds(s: Column, t: Column)
    ensures Mix4(Add(s, t)) == Add(Mix4(s), Mix4(t))
  {
    hide Mix, Add;
    MixAdds(s, t);
    MixAdds(Mix(s), Mix(t));
    MixAdds(Mix(Mix(s)), Mix(Mix(t)));
    MixAdds(Mix(Mix(Mix(s))), Mix(Mix(Mix(t))));
  }

  lemma Mix4Turns(t: Column)
    ensures Mix4(Turn(t)) == Turn(Mix4(t))
  {
    hide Mix, Turn;
    MixTurns(t);
    MixTurns(Mix(t));
    MixTurns(Mix(Mix(t)));
    MixTurns(Mix(Mix(Mix(t))));
  }

  function X4(x: bv8): bv8 {
    Xtime(Xtime(x))
  }

  lemma X4Adds(x: bv8, y: bv8)
    ensures X4(Plus(x, y)) == Plus(X4(x), X4(y))
  {
    hide Xtime, Plus;
    XtimeAdds(x, y);
    XtimeAdds(Xtime(x), Xtime(y));
  }

  lemma XtimeOfZero()
    ensures Xtime(0) == 0 && X4(0) == 0
  {
  }

  lemma SingleOnce(a: bv8)
    ensures Mix(Column(a, 0, 0, 0)) == Column(Xtime(a), a, a, Plus(Xtime(a), a))
  {
    XtimeOfZero();
    hide Xtime, Plus;
    PlusZero(0);
    PlusZero(a);
    PlusZero(Xtime(a));
    PlusZero(Plus(Xtime(a), a));
  }

  lemma TwiceSums(a: bv8, x: bv8, y: bv8)
    ensures Plus(Plus(Plus(y, Plus(x, a)), a), Plus(x, a)) == Plus(a, y)
    ensures Plus(Plus(Plus(x, Plus(x, a)), Plus(x, a)), x) == 0
  {
  }

  lemma MoreTwiceSums(a: bv8, x: bv8, y: bv8)
    ensures Plus(Plus(Plus(x, Plus(Plus(y, x), Plus(x, a))), x), a) == y
    ensures Plus(Plus(Plus(Plus(y, x), Plus(y, x)), a), a) == 0
  {
  }

  /** Twice mixed, a single byte appears in its own place and in the opposite one. */
  lemma SingleTwice(a: bv8)
    ensures Mix(Mix(Column(a, 0, 0, 0))) == Column(Plus(a, X4(a)), 0, X4(a), 0)
  {
    hide Mix, Xtime, Plus;
    var x, y := Xtime(a), X4(a);
    SingleOnce(a);
    MixByBytes(Column(x, a, a, Plus(x, a)));
    XtimeAdds(x, a);
    TwiceSums(a, x, y);
    MoreTwiceSums(a, x, y);
  }

  lemma MixTwiceAdds(s: Column, t: Column)
    ensures Mix(Mix(Add(s, t))) == Add(Mix(Mix(s)), Mix(Mix(t)))
  {
    hide Mix, Add;
    MixAdds(s, t);
    MixAdds(Mix(s), Mix(t));
  }

  lemma PairTwice(p: bv8, q: bv8)
    ensures Mix(Mix(Column(p, 0, q, 0))) == Column(Plus(Plus(p, X4(p)), X4(q)), 0, Plus(X4(p), Plus(q, X4(q))), 0)
  {
    hide Mix, Plus, X4;
    var first, third := Column(p, 0, 0, 0), Column(0, 0, q, 0);
    SingleTwice(p);
    SingleTwice(q);
    MixTurns(Column(q, 0, 0, 0));
    MixTurns(Mix(Column(q, 0, 0, 0)));
    MixTurns(Turn(Column(q, 0, 0, 0)));
    MixTurns(Turn(Mix(Column(q, 0, 0, 0))));
    assert Mix(Mix(third)) == Column(X4(q), 0, Plus(q, X4(q)), 0);
    MixTwiceAdds(first, third);
    PlusZero(0);
    PlusZero(p);
    PlusZero(q);
  }

  lemma SumsBack(a: bv8, y: bv8, z: bv8)
    ensures Plus(Plus(Plus(a, y), Plus(y, z)), z) == a && Plus(Plus(y, z), Plus(y, z)) == 0
  {
  }

  lemma SingleBack(a: bv8)
    ensures Mix(Mix(Column(Plus(a, X4(a)), 0, X4(a), 0))) == Column(a, 0, 0, 0)
  {
    hide Mix, Plus, X4;
    PairTwice(Plus(a, X4(a)), X4(a));
    X4Adds(a, X4(a));
    SumsBack(a, X4(a), X4(X4(a)));
  }

  lemma SingleFour(a: bv8)
    ensures Mix4(Column(a, 0, 0, 0)) == Column(a, 0, 0, 0)
    ensures Mix4(Column(0, a, 0, 0)) == Column(0, a, 0, 0)
    ensures Mix4(Column(0, 0, a, 0)) == Column(0, 0, a, 0)
    ensures Mix4(Column(0, 0, 0, a)) == Column(0, 0, 0, a)
  {
    hide Mix, Plus, X4;
    SingleTwice(a);
    SingleBack(a);
    var first := Column(a, 0, 0, 0);
    assert Mix4(first) == first;
    hide Mix4;
    Mix4Turns(first);
    Mix4Turns(Turn(first));
    Mix4Turns(Turn(Turn(first)));
  }

  lemma PlusZero(a: bv8)
    ensures Plus(a, 0) == a && Plus(0, a) == a
  {
  }

  /** MixColumns, applied four times, gives the column back. */
  lemma MixOrderFour(t: Column)
    ensures Mix4(t) == t
  {
    hide Mix4, Plus;
    var a, b := Column(t.a, 0, 0, 0), Column(0, t.b, 0, 0);
    var c, d := Column(0, 0, t.c, 0), Column(0, 0, 0, t.d);
    SingleFour(t.a);
    SingleFour(t.b);
    SingleFour(t.c);
    SingleFour(t.d);
    Mix4Adds(a, b);
    Mix4Adds(c, d);
    Mix4Adds(Add(a, b), Add(c, d));
    PlusZero(0);
    PlusZero(t.a);
    PlusZero(t.b);
    PlusZero(t.c);
    PlusZero(t.d);
  }
}
