/** PBKDF2-HMAC-SHA512 (RFC 2898 section 5.2). */
module Pbkdf2 {
  import opened ByteStrings
  import Sha512
  import Hmac

  const SIZE_RANGE: nat := 0x1_0000_0000

  /** What stays fixed during one derivation. */
  datatype Job = Job(f: Sha512.Compression, password: Bytes, salt: Bytes, iterations: nat)

  /** U_j of block `i`. */
  function U(q: Job, i: nat, j: nat): (r: Bytes)
    requires j >= 1
    ensures |r| == Hmac.OUTPUT
  {
    if j == 1 then Hmac.Mac(q.f, q.password, q.salt + BigEndian(i, 4))
    else Hmac.Mac(q.f, q.password, U(q, i, j - 1))
  }

  /** U_1 xor ... xor U_c. */
  function Sum(q: Job, i: nat, c: nat): (r: Bytes)
    requires c >= 1
    ensures |r| == Hmac.OUTPUT
  {
    if c == 1 then U(q, i, 1) else Xor(Sum(q, i, c - 1), U(q, i, c))
  }

  /** T_i; a count of zero does the work of one. */
  function T(q: Job, i: nat): (r: Bytes)
    ensures |r| == Hmac.OUTPUT
  {
    Sum(q, i, Rounds(q))
  }

  function Rounds(q: Job): nat {
    if q.iterations == 0 then 1 else q.iterations
  }

  /** The derived key: T_1, T_2, ..., as many as it takes, cut to length. */
  function Derived(q: Job, n: nat): (r: Bytes)
    ensures |r| == n
  {
    Cut((i: nat) => T(q, i), n)
  }

  // ---------------------------------------------------------------- cutting a row of blocks

  ghost predicate Sized(t: nat -> Bytes) {
    forall i: nat :: |t(i)| == 64
  }

  /** t(1), t(2), ..., t(n), one after the other. */
  function Row(t: nat -> Bytes, n: nat): (r: Bytes)
    requires Sized(t)
    ensures |r| == n * 64
  {
    if n == 0 then [] else Row(t, n - 1) + t(n)
  }

  function Cut(t: nat -> Bytes, n: nat): (r: Bytes)
    requires Sized(t)
    ensures |r| == n
  {
    Row(t, (n + 63) / 64)[..n]
  }

  lemma {:induction false} RowPrefix(t: nat -> Bytes, m: nat, n: nat)
    requires Sized(t) && m <= n
    ensures Row(t, m) == Row(t, n)[..m * 64]
  {
    if m < n {
      RowPrefix(t, m, n - 1);
      assert Row(t, n)[..m * 64] == Row(t, n - 1)[..m * 64];
    } else {
      assert Row(t, m)[..m * 64] == Row(t, m);
    }
  }

  lemma CutPrefix(t: nat -> Bytes, m: nat, n: nat)
    requires Sized(t) && m <= n
    ensures Cut(t, m) == Cut(t, n)[..m]
  {
    var a, b := (m + 63) / 64, (n + 63) / 64;
    RowPrefix(t, a, b);
    assert Row(t, b)[..a * 64][..m] == Row(t, b)[..m] == Row(t, b)[..n][..m];
  }

  lemma CutByte(t: nat -> Bytes, n: nat, j: nat)
    requires Sized(t) && j < n
    ensures Cut(t, n)[j] == t(j / 64 + 1)[j % 64]
  {
    var k, b := j / 64 + 1, (n + 63) / 64;
    RowPrefix(t, k, b);
    assert Row(t, b)[j] == Row(t, b)[..k * 64][j] == Row(t, k)[j];
    assert Row(t, k) == Row(t, k - 1) + t(k);
  }

  lemma CutGrows(t: nat -> Bytes, i: nat, n: nat)
    requires Sized(t) && i >= 1 && 0 < n <= 64
    ensures Cut(t, 64 * (i - 1) + n) == Cut(t, 64 * (i - 1)) + t(i)[..n]
  {
    var start := 64 * (i - 1);
    assert (start + n + 63) / 64 == i && (start + 63) / 64 == i - 1;
    assert Row(t, i) == Row(t, i - 1) + t(i);
    assert Row(t, i - 1)[..start] == Row(t, i - 1);
  }

  // ---------------------------------------------------------------- what RFC 2898 promises of the key

  /** A shorter key is a prefix of a longer one. */
  lemma ShorterIsPrefix(q: Job, m: nat, n: nat)
    requires m <= n
    ensures Derived(q, m) == Derived(q, n)[..m]
  {
    CutPrefix((i: nat) => T(q, i), m, n);
  }

  /** Byte j of the derived key is byte j mod 64 of T_(j/64 + 1). */
  lemma DerivedByte(q: Job, n: nat, j: nat)
    requires j < n
    ensures Derived(q, n)[j] == T(q, j / 64 + 1)[j % 64]
  {
    CutByte((i: nat) => T(q, i), n, j);
  }

  /** Byte j of all the strings, added up. */
  function ByteSum(us: seq<Bytes>, j: nat): bv8
    requires forall k :: 0 <= k < |us| ==> j < |us[k]|
  {
    if us == [] then 0 else ByteSum(us[..|us| - 1], j) ^ us[|us| - 1][j]
  }

  /** The strings U_1, U_2, ... of block i: the MAC of the salt and the block number as four bytes, big end first,
      and then each the MAC of the one before, all under the password. */
  ghost predicate Chained(q: Job, i: nat, us: seq<Bytes>) {
    && (us != [] ==> us[0] == Hmac.Mac(q.f, q.password, q.salt + BigEndian(i, 4)))
    && (forall k :: 0 < k < |us| ==> us[k] == Hmac.Mac(q.f, q.password, us[k - 1]))
    && (forall k :: 0 <= k < |us| ==> |us[k]| == 64)
  }

  lemma {:induction false} SumIs(q: Job, i: nat, us: seq<Bytes>, j: nat)
    requires us != [] && Chained(q, i, us) && j < 64
    ensures us[|us| - 1] == U(q, i, |us|) && Sum(q, i, |us|)[j] == ByteSum(us, j)
  {
    hide Hmac.Mac;
    var n := |us| - 1;
    var front := us[..n];
    if n > 0 {
      assert Chained(q, i, front);
      SumIs(q, i, front, j);
    } else {
      assert ByteSum(front, j) == 0;
      ZeroPlus(us[0][j]);
    }
  }

  lemma ZeroPlus(x: bv8)
    ensures 0 ^ x == x
  {
  }

  /** RFC 2898 section 5.2: byte j of the key is the sum of the bytes in its place over the chained MACs of its
      block, as many as there are iterations. */
  lemma DerivedIsSum(q: Job, n: nat, j: nat, us: seq<Bytes>)
    requires j < n && Chained(q, j / 64 + 1, us) && |us| == if q.iterations == 0 then 1 else q.iterations
    ensures Derived(q, n)[j] == ByteSum(us, j % 64)
  {
    hide Derived, Sum, Chained;
    DerivedByte(q, n, j);
    SumIs(q, j / 64 + 1, us, j % 64);
  }

  lemma DerivedGrows(q: Job, i: nat, n: nat)
    requires i >= 1 && 0 < n <= 64
    ensures Derived(q, 64 * (i - 1) + n) == Derived(q, 64 * (i - 1)) + T(q, i)[..n]
  {
    CutGrows((i: nat) => T(q, i), i, n);
  }

  /** U_1 of block `i`: the salt and the block number, authenticated in two pieces. */
  method FirstMac(q: Job, i: nat) returns (u: Bytes)
    requires |q.password| < SIZE_RANGE && |q.salt| < SIZE_RANGE
    ensures u == U(q, i, 1) == Sum(q, i, 1)
  {
    var ctx := new Hmac.Context(q.f, q.password);
    ctx.Update(q.salt);
    assert ctx.msg == q.salt;
    ctx.Update(BigEndian(i, 4));
    u := ctx.Final();
  }

  method NextRound(q: Job, i: nat, j: nat, temp: Bytes, block: Bytes) returns (temp': Bytes, block': Bytes)
    requires |q.password| < SIZE_RANGE && j >= 1 && temp == U(q, i, j) && block == Sum(q, i, j)
    ensures temp' == U(q, i, j + 1) && block' == Sum(q, i, j + 1)
  {
    temp' := Hmac.MacOf(q.f, q.password, temp);
    block' := XorLoop(block, temp');
  }

  /** The i-th block T_i. */
  method DeriveBlock(q: Job, i: nat) returns (block: Bytes)
    requires |q.password| < SIZE_RANGE && |q.salt| < SIZE_RANGE
    ensures block == T(q, i)
  {
    hide Hmac.Mac, Xor;
    block := FirstMac(q, i);
    var temp, j := block, 1;
    while j < q.iterations
      invariant 1 <= j <= Rounds(q)
      invariant temp == U(q, i, j)
      invariant block == Sum(q, i, j)
    {
      temp, block := NextRound(q, i, j, temp, block);
      j := j + 1;
    }
  }

  method XorLoop(a: Bytes, b: Bytes) returns (r: Bytes)
    requires |a| == |b|
    ensures r == Xor(a, b)
  {
    var out := new bv8[|a|];
    var j := 0;
    while j < |a|
      invariant j <= |a| && forall k :: 0 <= k < j ==> out[k] == a[k] ^ b[k]
    {
      out[j] := a[j] ^ b[j];
      j := j + 1;
    }
    r := out[..];
  }

  /** Writes the first bytes of a block into the key buffer. */
  method CopyInto(dk: array<bv8>, offset: nat, block: Bytes, n: nat)
    requires n <= |block| && offset + n <= dk.Length
    modifies dk
    ensures dk[..] == old(dk[..offset]) + block[..n] + old(dk[offset + n..])
  {
    var k := 0;
    while k < n
      invariant k <= n
      invariant dk[..offset] == old(dk[..offset]) && dk[offset + n..] == old(dk[offset + n..])
      invariant dk[offset..offset + k] == block[..k]
    {
      dk[offset + k] := block[k];
      k := k + 1;
    }
    assert dk[..] == dk[..offset] + dk[offset..offset + n] + dk[offset + n..];
  }

  /** `pbkdf2_hmac_sha512`. */
  method Derive(q: Job, dk: array<bv8>, keyLen: nat)
    requires |q.password| < SIZE_RANGE && |q.salt| < SIZE_RANGE && keyLen < SIZE_RANGE && keyLen <= dk.Length
    modifies dk
    ensures dk[..keyLen] == Derived(q, keyLen)
    ensures dk[keyLen..] == old(dk[keyLen..])
  {
    hide T, Cut;
    var blockIndex, offset, left := 1, 0, keyLen;
    while left > 0
      invariant 0 <= offset && 0 <= left && offset + left == keyLen <= dk.Length && blockIndex >= 1
      invariant left > 0 ==> offset == 64 * (blockIndex - 1)
      invariant dk[..offset] == Derived(q, offset)
      invariant dk[keyLen..] == old(dk[keyLen..])
    {
      assert blockIndex < SIZE_RANGE;     // the 32-bit index does not wrap
      var block := DeriveBlock(q, blockIndex);
      var n := if left < Hmac.OUTPUT then left else Hmac.OUTPUT;
      DerivedGrows(q, blockIndex, n);
      ghost var done := dk[..offset];
      CopyInto(dk, offset, block, n);
      assert dk[..offset + n] == done + block[..n];
      offset := offset + n;
      left := left - n;
      blockIndex := blockIndex + 1;
    }
  }
}
