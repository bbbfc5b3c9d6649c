/**
 SHA-512 (FIPS 180-4): the hash of a whole message as a function, and the streaming context
 (`sha512_init`, `sha512_update`, `sha512_final`) that takes the message in pieces.
 */
module Sha512 {
  import opened ByteStrings

  const BLOCK: nat := 128
  const WORD_RANGE: nat := 0x1_0000_0000_0000_0000

  /** The compression function on a chaining value and a block; chaining values are written as the 64
      bytes that `sha512_final` prints. Its 80 rounds play no part in what follows. */
  type Compression = (Bytes, Bytes) -> Bytes

  function Compress(f: Compression, chain: Bytes, block: Bytes): (r: Bytes)
    ensures |r| == 64
  {
    var r := f(chain, block);
    if |r| >= 64 then r[..64] else r + Repeat(0, 64 - |r|)
  }

  // The words of the initial value.
  const H0: Bytes := [0x6a, 0x09, 0xe6, 0x67, 0xf3, 0xbc, 0xc9, 0x08]
  const H1: Bytes := [0xbb, 0x67, 0xae, 0x85, 0x84, 0xca, 0xa7, 0x3b]
  const H2: Bytes := [0x3c, 0x6e, 0xf3, 0x72, 0xfe, 0x94, 0xf8, 0x2b]
  const H3: Bytes := [0xa5, 0x4f, 0xf5, 0x3a, 0x5f, 0x1d, 0x36, 0xf1]
  const H4: Bytes := [0x51, 0x0e, 0x52, 0x7f, 0xad, 0xe6, 0x82, 0xd1]
  const H5: Bytes := [0x9b, 0x05, 0x68, 0x8c, 0x2b, 0x3e, 0x6c, 0x1f]
  const H6: Bytes := [0x1f, 0x83, 0xd9, 0xab, 0xfb, 0x41, 0xbd, 0x6b]
  const H7: Bytes := [0x5b, 0xe0, 0xcd, 0x19, 0x13, 0x7e, 0x21, 0x79]

  const INITIAL: Bytes := H0 + H1 + H2 + H3 + H4 + H5 + H6 + H7

  // ------------------------------------------------ the hash of a message (FIPS 180-4 sections 5.1.2 and 6.4)

  /** The chaining value after a whole number of blocks. */
  function Fold(f: Compression, m: Bytes): (r: Bytes)
    requires |m| % BLOCK == 0
    ensures |r| == 64
  {
    if m == [] then INITIAL else Compress(f, Fold(f, m[..|m| - BLOCK]), m[|m| - BLOCK..])
  }

  /** How many padding bytes, the 0x80 included, bring `n` bytes to 16 short of a block. */
  function PadLength(n: nat): (p: nat)
    ensures 1 <= p <= BLOCK && (n + p + 16) % BLOCK == 0
  {
    BLOCK - (n + 16) % BLOCK
  }

  function Pad(m: Bytes): (r: Bytes)
    ensures |r| % BLOCK == 0
  {
    m + ([0x80] + Repeat(0, PadLength(|m|) - 1)) + BigEndian(8 * |m|, 16)
  }

  function Hash(f: Compression, m: Bytes): (r: Bytes)
    ensures |r| == 64
  {
    Fold(f, Pad(m))
  }

  lemma PadSize(m: Bytes)
    ensures |Pad(m)| == |m| + PadLength(|m|) + 16
  {
    hide BigEndian;
  }

  /** FIPS 180-4 section 5.1.2: the message, a one bit, the fewest zeros that make whole blocks, and the length in
      bits as sixteen bytes. */
  lemma PadParts(m: Bytes)
    ensures |Pad(m)| % 128 == 0 && |m| + 17 <= |Pad(m)| < |m| + 17 + 128
    ensures var r := Pad(m);
            r[..|m|] == m && r[|m|] == 0x80 && forall i :: |m| < i < |r| - 16 ==> r[i] == 0
    ensures Power256(16) > 0 && Value(Pad(m)[|Pad(m)| - 16..]) == 8 * |m| % Power256(16)
  {
    hide BigEndian, Value, Power256;
    PadSize(m);
    var n, r := PadLength(|m|), Pad(m);
    ValueOfBigEndian(8 * |m|, 16);
    assert r[|r| - 16..] == BigEndian(8 * |m|, 16);
    assert forall i :: |m| < i < |r| - 16 ==> r[i] == ([0x80] + Repeat(0, n - 1))[i - |m|];
  }

  /** A message that fits one block with its padding is compressed once, from the initial value. */
  lemma ShortHash(f: Compression, m: Bytes)
    requires |m| < 112 && |f(INITIAL, Pad(m))| == 64
    ensures Hash(f, m) == f(INITIAL, Pad(m))
  {
    hide Pad, INITIAL;
    PadSize(m);
    FoldOnce(f, Pad(m));
  }

  lemma FoldOnce(f: Compression, p: Bytes)
    requires |p| == BLOCK
    ensures Fold(f, p) == Compress(f, INITIAL, p)
  {
    hide Compress, INITIAL;
    assert p[..0] == [] && p[0..] == p;
  }

  // ---------------------------------------------------------------- streaming

  /** `chain` has taken in all whole blocks of `fed`, and `pending` is the rest. */
  predicate Absorbed(f: Compression, chain: Bytes, pending: Bytes, fed: Bytes) {
    && |pending| < BLOCK && |pending| <= |fed|
    && (|fed| - |pending|) % BLOCK == 0
    && chain == Fold(f, fed[..|fed| - |pending|])
    && pending == fed[|fed| - |pending|..]
  }

  lemma AbsorbShort(f: Compression, chain: Bytes, pending: Bytes, fed: Bytes, x: bv8)
    requires Absorbed(f, chain, pending, fed) && |pending| + 1 < BLOCK
    ensures Absorbed(f, chain, pending + [x], fed + [x])
  {
    var whole := |fed| - |pending|;
    assert (fed + [x])[..whole] == fed[..whole];
    assert (fed + [x])[whole..] == pending + [x];
  }

  lemma AbsorbFull(f: Compression, chain: Bytes, pending: Bytes, fed: Bytes, x: bv8)
    requires Absorbed(f, chain, pending, fed) && |pending| + 1 == BLOCK
    ensures Absorbed(f, Compress(f, chain, pending + [x]), [], fed + [x])
  {
    hide Compress;
    var whole := |fed| - |pending|;
    var fed' := fed + [x];
    assert fed'[..|fed'| - BLOCK] == fed[..whole];
    assert fed'[|fed'| - BLOCK..] == pending + [x];
    assert fed'[..|fed'|] == fed';
  }

  /** The two 64-bit halves of the bit count. */
  predicate Counted(low: nat, high: nat, n: nat) {
    low == 8 * n % WORD_RANGE && high == 8 * n / WORD_RANGE % WORD_RANGE
  }

  class Context {
    const f: Compression
    var chain: Bytes
    var bitLow: nat
    var bitHigh: nat
    const buffer: array<bv8>
    var bufLen: nat
    ghost var fed: Bytes     // everything taken in so far

    ghost predicate Valid()
      reads this, buffer
    {
      && buffer.Length == BLOCK && bufLen < BLOCK
      && Absorbed(f, chain, buffer[..bufLen], fed)
      && Counted(bitLow, bitHigh, |fed|)
    }

    constructor (f: Compression)
      ensures Valid() && fresh(buffer) && fed == [] && this.f == f
    {
      this.f := f;
      chain := INITIAL;
      bitLow, bitHigh, bufLen := 0, 0, 0;
      buffer := new bv8[BLOCK](_ => 0);
      fed := [];
    }

    /** Takes in another piece of the message, however the message is cut. */
    method Update(data: Bytes)
      requires Valid() && |data| < 0x1_0000_0000     // size_t
      modifies this, buffer
      ensures Valid() && fed == old(fed) + data
    {
      hide Absorbed, Counted;
      AddCount(|data|);
      var i := 0;
      ghost var start := fed;
      while i < |data|
        invariant i <= |data| && bufLen < BLOCK && fed == start + data[..i]
        invariant Absorbed(f, chain, buffer[..bufLen], fed)
        invariant Counted(bitLow, bitHigh, |start| + |data|)
      {
        TakeByte(data[i]);
        assert data[..i + 1] == data[..i] + [data[i]];
        i := i + 1;
      }
      assert data[..|data|] == data;
    }

    /** The bit count in two halves, with its carry. */
    method AddCount(len: nat)
      requires Counted(bitLow, bitHigh, |fed|) && len < 0x1_0000_0000
      modifies `bitLow, `bitHigh
      ensures Counted(bitLow, bitHigh, |fed| + len)
    {
      CountMore(bitLow, bitHigh, |fed|, len);
      var before := bitLow;
      bitLow := (bitLow + 8 * len) % WORD_RANGE;
      if bitLow < before {
        bitHigh := (bitHigh + 1) % WORD_RANGE;
      }
      bitHigh := (bitHigh + len / 0x2000_0000_0000_0000) % WORD_RANGE;
    }

    method TakeByte(x: bv8)
      requires buffer.Length == BLOCK && bufLen < BLOCK && Absorbed(f, chain, buffer[..bufLen], fed)
      modifies `chain, `bufLen, `fed, buffer
      ensures bufLen < BLOCK && Absorbed(f, chain, buffer[..bufLen], fed) && fed == old(fed) + [x]
    {
      ghost var pending := buffer[..bufLen];
      buffer[bufLen] := x;
      assert buffer[..bufLen + 1] == pending + [x];
      bufLen := bufLen + 1;
      if bufLen == BLOCK {
        AbsorbFull(f, chain, pending, fed, x);
        assert buffer[..] == pending + [x];
        chain := Compress(f, chain, buffer[..]);
        bufLen := 0;
        assert buffer[..bufLen] == [];
      } else {
        AbsorbShort(f, chain, pending, fed, x);
      }
      fed := fed + [x];
    }

    /** The digest is the hash of everything taken in. */
    method Final() returns (digest: Bytes)
      requires Valid()
      modifies this, buffer
      ensures digest == Hash(f, old(fed))
    {
      hide Absorbed, Counted, BigEndian, Fold, PadLength, Pad;
      var count := BigEndian(bitHigh, 8) + BigEndian(bitLow, 8);
      CountBytes(bitLow, bitHigh, |fed|);
      var padLen := if bufLen < 112 then 112 - bufLen else 240 - bufLen;
      PadAbsorbed(f, chain, buffer[..bufLen], fed);
      var pad := [0x80] + Repeat(0, padLen - 1);
      PadIs(fed, pad, count);
      Update(pad);
      Update(count);
      WholeAbsorbed(f, chain, buffer[..bufLen], fed);
      digest := chain;
    }
  }

  lemma PadLengthIs(n: nat, pending: nat)
    requires pending < BLOCK && pending <= n && (n - pending) % BLOCK == 0
    ensures PadLength(n) == if pending < 112 then 112 - pending else 240 - pending
  {
  }

  lemma PadAbsorbed(f: Compression, chain: Bytes, pending: Bytes, fed: Bytes)
    requires Absorbed(f, chain, pending, fed)
    ensures PadLength(|fed|) == if |pending| < 112 then 112 - |pending| else 240 - |pending|
  {
    hide Fold, PadLength;
    PadLengthIs(|fed|, |pending|);
  }

  lemma PadIs(m: Bytes, pad: Bytes, count: Bytes)
    requires pad == [0x80] + Repeat(0, PadLength(|m|) - 1) && count == BigEndian(8 * |m|, 16)
    ensures m + pad + count == Pad(m) && |Pad(m)| % BLOCK == 0
  {
    hide BigEndian, PadLength;
  }

  lemma WholeAbsorbed(f: Compression, chain: Bytes, pending: Bytes, fed: Bytes)
    requires Absorbed(f, chain, pending, fed) && |fed| % BLOCK == 0
    ensures chain == Fold(f, fed)
  {
    NothingPending(|fed|, |pending|);
    assert fed[..|fed|] == fed;
  }

  lemma NothingPending(n: nat, pending: nat)
    requires pending < BLOCK && pending <= n && (n - pending) % BLOCK == 0 && n % BLOCK == 0
    ensures pending == 0
  {
  }

  /** The carry of the split bit counter. */
  lemma CountMore(low: nat, high: nat, n: nat, len: nat)
    requires Counted(low, high, n) && len < 0x1_0000_0000
    ensures var low' := (low + 8 * len) % WORD_RANGE;
            var carried := if low' < low then (high + 1) % WORD_RANGE else high;
            Counted(low', (carried + len / 0x2000_0000_0000_0000) % WORD_RANGE, n + len)
  {
    Carry(WORD_RANGE, 8 * n, 8 * len);
    var total := (8 * n + 8 * len) / WORD_RANGE;
    ModUnique(total % WORD_RANGE, WORD_RANGE, 0, total % WORD_RANGE);
  }

  lemma Carry(range: nat, x: nat, more: nat)
    requires more < range
    ensures var low, high := x % range, x / range % range;
            var low' := (low + more) % range;
            && low' == (x + more) % range
            && (if low' < low then (high + 1) % range else high) == (x + more) / range % range
  {
    var q, low := x / range, x % range;
    assert x == range * q + low;
    if low + more < range {
      ModUnique(x + more, range, q, low + more);
      ModUnique(low + more, range, 0, low + more);
    } else {
      CarryOut(range, x, q, low, more);
    }
  }

  lemma CarryOut(range: nat, x: nat, q: nat, low: nat, more: nat)
    requires low < range && more < range && low + more >= range && x == range * q + low
    ensures (low + more) % range == (x + more) % range == low + more - range < low
    ensures (q % range + 1) % range == (x + more) / range % range
  {
    var rest := low + more - range;
    assert range * (q + 1) == range * q + range;
    ModUnique(x + more, range, q + 1, rest);
    ModUnique(low + more, range, 1, rest);
    NextMod(range, q);
  }

  lemma NextMod(range: nat, q: nat)
    requires range > 0
    ensures (q % range + 1) % range == (q + 1) % range
  {
    var k, r := q / range, q % range;
    if r + 1 < range {
      ModUnique(q + 1, range, k, r + 1);
      ModUnique(r + 1, range, 0, r + 1);
    } else {
      assert q + 1 == range * (k + 1);
      ModUnique(q + 1, range, k + 1, 0);
      ModUnique(range, range, 1, 0);
    }
  }

  /** The sixteen length bytes. */
  lemma CountBytes(low: nat, high: nat, n: nat)
    requires Counted(low, high, n)
    ensures BigEndian(high, 8) + BigEndian(low, 8) == BigEndian(8 * n, 16)
  {
    PowerEight();
    BigEndianSplit(8 * n, 8, 8, 8 * n / WORD_RANGE);
    BigEndianMod(8 * n, 8);
    BigEndianMod(8 * n / WORD_RANGE, 8);
  }

  lemma PowerEight()
    ensures Power256(8) == WORD_RANGE
  {
    assert Power256(2) == 65536;
    assert Power256(4) == 0x1_0000_0000;
    assert Power256(6) == 0x1_0000_0000_0000;
  }

  /** The hash of two pieces, one after the other. */
  method HashTwo(f: Compression, a: Bytes, b: Bytes) returns (digest: Bytes)
    requires |a| < 0x1_0000_0000 && |b| < 0x1_0000_0000
    ensures digest == Hash(f, a + b)
  {
    var ctx := new Context(f);
    ctx.Update(a);
    assert ctx.fed == a;
    ctx.Update(b);
    digest := ctx.Final();
  }

  /** `sha512`. */
  method HashOne(f: Compression, a: Bytes) returns (digest: Bytes)
    requires |a| < 0x1_0000_0000
    ensures digest == Hash(f, a)
  {
    var ctx := new Context(f);
    ctx.Update(a);
    assert ctx.fed == a;
    digest := ctx.Final();
  }

  // ------------------------------------------------ the initial value (FIPS 180-4 section 5.3.5)

  /** The number w is the first 64 bits of the fraction of the square root of p, whose whole part is k. */
  predicate RootFraction(p: nat, k: nat, w: nat) {
    var x := k * WORD_RANGE + w;
    w < WORD_RANGE && x * x <= p * WORD_RANGE * WORD_RANGE < (x + 1) * (x + 1)
  }

  lemma EightBytes(s: Bytes)
    requires |s| == 8
    ensures Value(s) == FourOn(FourOn(0, s[0] as int, s[1] as int, s[2] as int, s[3] as int),
                               s[4] as int, s[5] as int, s[6] as int, s[7] as int)
  {
    hide Value, FourOn;
    ValueOfNothing();
    FourBytesOn([], s[..4]);
    assert [] + s[..4] == s[..4];
    FourBytesOn(s[..4], s[4..]);
    assert s[..4] + s[4..] == s;
  }

  /** The eight words are the fractions of the square roots of the first eight primes. */
  lemma InitialRoots()
    ensures RootFraction(2, 1, Value(H0))
    ensures RootFraction(3, 1, Value(H1))
    ensures RootFraction(5, 2, Value(H2))
    ensures RootFraction(7, 2, Value(H3))
    ensures RootFraction(11, 3, Value(H4))
    ensures RootFraction(13, 3, Value(H5))
    ensures RootFraction(17, 4, Value(H6))
    ensures RootFraction(19, 4, Value(H7))
  {
    hide RootFraction, Value;
    Root0();
    Root1();
    Root2();
    Root3();
    Root4();
    Root5();
    Root6();
    Root7();
  }

  lemma Root0()
    ensures RootFraction(2, 1, Value(H0))
  {
    hide Value;
    EightBytes(H0);
    assert Value(H0) == 0x6a09e667f3bcc908;
  }

  lemma Root1()
    ensures RootFraction(3, 1, Value(H1))
  {
    hide Value;
    EightBytes(H1);
    assert Value(H1) == 0xbb67ae8584caa73b;
  }

  lemma Root2()
    ensures RootFraction(5, 2, Value(H2))
  {
    hide Value;
    EightBytes(H2);
    assert Value(H2) == 0x3c6ef372fe94f82b;
  }

  lemma Root3()
    ensures RootFraction(7, 2, Value(H3))
  {
    hide Value;
    EightBytes(H3);
    assert Value(H3) == 0xa54ff53a5f1d36f1;
  }

  lemma Root4()
    ensures RootFraction(11, 3, Value(H4))
  {
    hide Value;
    EightBytes(H4);
    assert Value(H4) == 0x510e527fade682d1;
  }

  lemma Root5()
    ensures RootFraction(13, 3, Value(H5))
  {
    hide Value;
    EightBytes(H5);
    assert Value(H5) == 0x9b05688c2b3e6c1f;
  }

  lemma Root6()
    ensures RootFraction(17, 4, Value(H6))
  {
    hide Value;
    EightBytes(H6);
    assert Value(H6) == 0x1f83d9abfb41bd6b;
  }

  lemma Root7()
    ensures RootFraction(19, 4, Value(H7))
  {
    hide Value;
    EightBytes(H7);
    assert Value(H7) == 0x5be0cd19137e2179;
  }
}
