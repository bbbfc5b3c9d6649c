/** Byte strings: exclusive or, and fixed-width encodings of numbers. */
module ByteStrings {

  type Bytes = seq<bv8>

  /** The byte with the given value, reached by counting up: the solver knows little about int-to-bv8. */
  function ByteOf(k: nat): (b: bv8)
    requires k < 256
    ensures b as int == k
  {
    if k == 0 then 0
    else
      var p := ByteOf(k - 1);
      assert (p + 1) as int == p as int + 1 by { IncrementByte(p); }
      p + 1
  }

  lemma IncrementByte(b: bv8)
    ensures (b + 1) as int == if b == 0xff then 0 else b as int + 1
  {
  }

  function Byte(x: int): (b: bv8)
    ensures b as int == x % 256
  {
    ByteOf(x % 256)
  }

  lemma SameByte(x: nat, y: bv8)
    requires x % 256 == y as int
    ensures Byte(x) == y
  {
    assert Byte(x) as int == y as int;
  }

  function Xor(a: Bytes, b: Bytes): (r: Bytes)
    requires |a| == |b|
    ensures |r| == |a| && forall i :: 0 <= i < |a| ==> r[i] == a[i] ^ b[i]
  {
    seq(|a|, i requires 0 <= i < |a| => a[i] ^ b[i])
  }

  function Repeat(x: bv8, n: nat): (r: Bytes)
    ensures |r| == n && forall i :: 0 <= i < n ==> r[i] == x
  {
    seq(n, i => x)
  }

  /** The number as `n` bytes, most significant first; higher digits are dropped. */
  function BigEndian(x: nat, n: nat): (r: Bytes)
    ensures |r| == n
  {
    if n == 0 then [] else BigEndian(x / 256, n - 1) + [Byte(x)]
  }

  /** The number as `n` bytes, least significant first; higher digits are dropped. */
  function LittleEndian(x: nat, n: nat): (r: Bytes)
    ensures |r| == n
  {
    if n == 0 then [] else [Byte(x)] + LittleEndian(x / 256, n - 1)
  }

  function Power256(n: nat): nat {
    if n == 0 then 1 else 256 * Power256(n - 1)
  }

  /** Two numbers below 256^n with the same encoding are equal. */
  lemma {:induction false} LittleEndianInjective(x: nat, y: nat, n: nat)
    requires x < Power256(n) && y < Power256(n) && LittleEndian(x, n) == LittleEndian(y, n)
    ensures x == y
  {
    if n > 0 {
      var a, b := LittleEndian(x, n), LittleEndian(y, n);
      assert a[0] == b[0] && a[1..] == b[1..];
      LittleEndianInjective(x / 256, y / 256, n - 1);
    }
  }

  /** Reading `n` bytes back, most significant first. */
  function Value(b: Bytes): nat {
    if b == [] then 0 else 256 * Value(b[..|b| - 1]) + b[|b| - 1] as int
  }

  lemma {:induction false} ValueBound(b: Bytes)
    ensures Value(b) < Power256(|b|)
  {
    if b != [] {
      ValueBound(b[..|b| - 1]);
    }
  }

  /** The low bytes of a number do not depend on its higher digits. */
  lemma {:induction false} BigEndianMod(x: nat, n: nat)
    ensures Power256(n) > 0 && BigEndian(x % Power256(n), n) == BigEndian(x, n)
  {
    if n > 0 {
      BigEndianMod(x / 256, n - 1);
      DigitMod(x, Power256(n - 1));
    }
  }

  lemma DigitMod(x: nat, p: nat)
    requires p > 0
    ensures (x % (256 * p)) / 256 == (x / 256) % p && (x % (256 * p)) % 256 == x % 256
  {
    var q := (x / 256) / p;
    var r := (x / 256) % p;
    assert x / 256 == p * q + r;
    assert x == 256 * (p * q + r) + x % 256;
    assert x == (256 * p) * q + (256 * r + x % 256);
    assert 0 <= 256 * r + x % 256 < 256 * p;
    ModUnique(x, 256 * p, q, 256 * r + x % 256);
  }

  lemma ModUnique(x: nat, m: nat, q: nat, r: nat)
    requires m > 0 && r < m && x == m * q + r
    ensures x % m == r && x / m == q
  {
    var q' := x / m;
    if q' > q {
      MulLess(m, q, q');
    } else if q' < q {
      MulLess(m, q', q);
    }
  }

  lemma {:induction false} MulLess(m: nat, a: nat, b: nat)
    requires a < b
    ensures m * a + m <= m * b
    decreases b
  {
    assert m * b == m * (b - 1) + m;
    if a < b - 1 {
      MulLess(m, a, b - 1);
    }
  }

  /** A number in `n + k` bytes is its high part in `n` bytes followed by its low part in `k`. */
  lemma {:induction false} BigEndianSplit(x: nat, n: nat, k: nat, high: nat)
    requires Power256(k) > 0 && high == x / Power256(k)
    ensures BigEndian(x, n + k) == BigEndian(high, n) + BigEndian(x, k)
  {
    if k == 0 {
      assert BigEndian(x, n) == BigEndian(x, n) + [];
    } else {
      var p := Power256(k - 1);
      DivDiv(x, p);
      BigEndianSplit(x / 256, n, k - 1, high);
      SnocSplit(x, n, k, BigEndian(high, n), BigEndian(x / 256, k - 1));
    }
  }

  lemma SnocSplit(x: nat, n: nat, k: nat, high: Bytes, low: Bytes)
    requires k > 0 && BigEndian(x / 256, n + (k - 1)) == high + low && BigEndian(x / 256, k - 1) == low
    ensures BigEndian(x, n + k) == high + BigEndian(x, k)
  {
    assert (high + low) + [Byte(x)] == high + (low + [Byte(x)]);
  }

  lemma DivDiv(x: nat, p: nat)
    requires p > 0
    ensures (x / 256) / p == x / (256 * p)
  {
    var q, r := (x / 256) / p, (x / 256) % p;
    assert x == (256 * p) * q + (256 * r + x % 256);
    ModUnique(x, 256 * p, q, 256 * r + x % 256);
  }

  lemma LastByte(b: Bytes, x: bv8)
    ensures Value(b + [x]) == 256 * Value(b) + x as int
  {
    assert (b + [x])[..|b|] == b;
  }

  lemma LastDigit(front: Bytes, x: nat)
    ensures Value(front + [Byte(x)]) == 256 * Value(front) + x % 256
  {
    hide Byte, Value;
    LastByte(front, Byte(x));
  }

  lemma Associates(a: Bytes, b: Bytes, c: Bytes)
    ensures (a + b) + c == a + (b + c)
  {
  }

  lemma DigitSum(x: nat, p: nat)
    requires p > 0
    ensures 256 * (x / 256 % p) + x % 256 == x % (256 * p)
  {
    DigitMod(x, p);
    var r := x % (256 * p);
    assert r == 256 * (r / 256) + r % 256;
  }

  /** Reading an encoded number back gives it modulo 256^n. */
  lemma {:induction false} ValueOfBigEndian(x: nat, n: nat)
    ensures Power256(n) > 0 && Value(BigEndian(x, n)) == x % Power256(n)
  {
    if n == 0 {
      assert x % 1 == 0;
    } else {
      var p, front := Power256(n - 1), BigEndian(x / 256, n - 1);
      ValueOfBigEndian(x / 256, n - 1);
      assert BigEndian(x, n) == front + [Byte(x)] && Power256(n) == 256 * p;
      hide Value, BigEndian, Power256, Byte;
      LastDigit(front, x);
      DigitSum(x, p);
    }
  }

  /** A byte string is the encoding of its value. */
  lemma {:induction false} BigEndianOfValue(b: Bytes)
    ensures BigEndian(Value(b), |b|) == b
  {
    if b != [] {
      var n := |b| - 1;
      BigEndianOfValue(b[..n]);
      var v := Value(b[..n]);
      assert Value(b) / 256 == v && Value(b) % 256 == b[n] as int;
      SameByte(Value(b), b[n]);
    }
  }

  lemma ValueOfNothing()
    ensures Value([]) == 0
  {
  }

  lemma ValueOn(b: Bytes, x: bv8, v: nat)
    requires Value(b) == v
    ensures Value(b + [x]) == 256 * v + x as int
  {
    LastByte(b, x);
  }

  function FourOn(v: nat, a: nat, b: nat, c: nat, d: nat): nat {
    256 * (256 * (256 * (256 * v + a) + b) + c) + d
  }

  lemma FourBytesOn(front: Bytes, s: Bytes)
    requires |s| == 4
    ensures Value(front + s) == FourOn(Value(front), s[0] as int, s[1] as int, s[2] as int, s[3] as int)
  {
    hide Value;
    var p, q, r := front + [s[0]], front + [s[0]] + [s[1]], front + [s[0]] + [s[1]] + [s[2]];
    ValueOn(front, s[0], Value(front));
    ValueOn(p, s[1], Value(p));
    ValueOn(q, s[2], Value(q));
    ValueOn(r, s[3], Value(r));
    assert front + s == r + [s[3]];
  }

  // ---------------------------------------------------------------- words

  /** Four bytes as a word, first byte on top. */
  function Join(a: bv8, b: bv8, c: bv8, d: bv8): bv32 {
    ((a as bv32) << 24) | ((b as bv32) << 16) | ((c as bv32) << 8) | (d as bv32)
  }

  lemma JoinInjective(a: bv8, b: bv8, c: bv8, d: bv8, e: bv8, f: bv8, g: bv8, h: bv8)
    ensures Join(a, b, c, d) == Join(e, f, g, h) <==> a == e && b == f && c == g && d == h
  {
  }
}
