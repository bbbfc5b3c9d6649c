/** Counter mode (NIST SP 800-38A section 6.5, with the incrementing function of Appendix B.1 over the whole block). */
module AesCtr {
  import opened ByteStrings
  import opened Aes
  import AesCode

  // ---------------------------------------------------------------- the counter

  /** The big-endian counter block of position `k`: (iv + k) mod 2^128. */
  function CounterAt(iv: Bytes, k: nat): (r: Bytes)
    requires |iv| == BLOCK
    ensures |r| == BLOCK
  {
    BigEndian(Value(iv) + k, BLOCK)
  }

  /** What the increment loop does to a block: the last byte up by one, and a carry on overflow. */
  function Increment(b: Bytes): (r: Bytes)
    ensures |r| == |b|
  {
    if b == [] then []
    else
      var n := |b| - 1;
      if b[n] + 1 != 0 then b[..n] + [b[n] + 1] else Increment(b[..n]) + [0]
  }

  lemma IncrementAt(b: Bytes, j: nat)
    requires j < |b|
    ensures Increment(b[..j + 1]) == if b[j] + 1 != 0 then b[..j] + [b[j] + 1] else Increment(b[..j]) + [0]
  {
    assert b[..j + 1][..j] == b[..j];
  }

  lemma {:induction false} IncrementCounts(b: Bytes)
    ensures Power256(|b|) > 0 && Value(Increment(b)) == (Value(b) + 1) % Power256(|b|)
  {
    if b != [] {
      var n := |b| - 1;
      var front, x := b[..n], b[n];
      IncrementCounts(front);
      ValueBound(front);
      IncrementAt(b, n);
      assert b[..n + 1] == b == front + [x];
      assert Power256(|b|) == 256 * Power256(n);
      hide Value, Increment, Power256;
      if x + 1 != 0 {
        StepInside(front, x, Power256(n));
      } else {
        StepOver(front, x, Power256(n));
      }
    }
  }

  lemma StepInside(front: Bytes, x: bv8, p: nat)
    requires x + 1 != 0 && Value(front) < p
    ensures Value(front + [x + 1]) == (Value(front + [x]) + 1) % (256 * p)
  {
    hide Value;
    LastByte(front, x);
    LastByte(front, x + 1);
    IncrementByte(x);
    InRange(Value(front), x as int + 1, p);
  }

  lemma StepOver(front: Bytes, x: bv8, p: nat)
    requires x + 1 == 0 && Value(front) < p && Value(Increment(front)) == (Value(front) + 1) % p
    ensures Value(Increment(front) + [0]) == (Value(front + [x]) + 1) % (256 * p)
  {
    hide Value, Increment;
    LastByte(front, x);
    LastByte(Increment(front), 0);
    Overflow(x);
    CarryIn(Value(front), p);
  }

  lemma Overflow(x: bv8)
    requires x + 1 == 0
    ensures x as int == 255
  {
  }

  lemma InRange(v: nat, d: nat, p: nat)
    requires v < p && d < 256
    ensures (256 * v + d) % (256 * p) == 256 * v + d
  {
    ModUnique(256 * v + d, 256 * p, 0, 256 * v + d);
  }

  lemma CarryIn(v: nat, p: nat)
    requires v < p
    ensures (256 * v + 255 + 1) % (256 * p) == 256 * ((v + 1) % p)
  {
    if v + 1 < p {
      ModUnique(256 * (v + 1), 256 * p, 0, 256 * (v + 1));
      ModUnique(v + 1, p, 0, v + 1);
    } else {
      ModUnique(256 * p, 256 * p, 1, 0);
      ModUnique(p, p, 1, 0);
    }
  }

  /** Incrementing the counter of position k gives the counter of position k + 1, also across 2^128. */
  lemma CounterStep(iv: Bytes, k: nat)
    requires |iv| == BLOCK
    ensures Increment(CounterAt(iv, k)) == CounterAt(iv, k + 1)
  {
    hide Power256, BigEndian, Value, Increment;
    var c, x := CounterAt(iv, k), Value(iv) + k;
    IncrementCounts(c);
    BigEndianOfValue(Increment(c));
    ValueOfBigEndian(x, BLOCK);
    var m := Power256(BLOCK);
    ModNext(x, m);
    BigEndianMod(x + 1, BLOCK);
  }

  lemma ModNext(x: nat, m: nat)
    requires m > 0
    ensures (x % m + 1) % m == (x + 1) % m
  {
    var q, r := x / m, x % m;
    assert x == m * q + r;
    if r + 1 < m {
      ModUnique(x + 1, m, q, r + 1);
      ModUnique(r + 1, m, 0, r + 1);
    } else {
      assert m * (q + 1) == m * q + m;
      ModUnique(x + 1, m, q + 1, 0);
      ModUnique(m, m, 1, 0);
    }
  }

  // ---------------------------------------------------------------- the mode

  datatype Cipher = Cipher(keys: seq<bv32>, rounds: nat, iv: Bytes)

  predicate Usable(c: Cipher) {
    |c.keys| >= 4 * (c.rounds + 1) && |c.iv| == BLOCK
  }

  function KeystreamByte(c: Cipher, j: nat): bv8
    requires Usable(c)
  {
    Encrypt(c.keys, c.rounds, CounterAt(c.iv, j / BLOCK))[j % BLOCK]
  }

  function Crypt(c: Cipher, data: Bytes): (r: Bytes)
    requires Usable(c)
    ensures |r| == |data|
  {
    seq(|data|, j requires 0 <= j < |data| => data[j] ^ KeystreamByte(c, j))
  }

  /** Applying the mode twice restores the data, for every length. */
  lemma CryptTwice(c: Cipher, data: Bytes)
    requires Usable(c)
    ensures Crypt(c, Crypt(c, data)) == data
  {
    hide KeystreamByte;
    forall j | 0 <= j < |data| ensures Crypt(c, Crypt(c, data))[j] == data[j] {
      XorBack(data[j], KeystreamByte(c, j));
    }
  }

  lemma XorBack(x: bv8, k: bv8)
    ensures (x ^ k) ^ k == x
  {
  }

  /** A prefix encrypts to the prefix of the ciphertext. */
  lemma CryptPrefix(c: Cipher, data: Bytes, n: nat)
    requires Usable(c) && n <= |data|
    ensures Crypt(c, data[..n]) == Crypt(c, data)[..n]
  {
    hide KeystreamByte;
    forall j | 0 <= j < n ensures Crypt(c, data[..n])[j] == Crypt(c, data)[..n][j] {
    }
  }

  /** SP 800-38A section 6.5, byte by byte: the data, plus the cipher of the counter, which goes up by one with each
      block and starts at the initial vector. */
  lemma CryptByte(c: Cipher, data: Bytes, j: nat)
    requires Usable(c) && j < |data|
    ensures Power256(16) > 0
    ensures var counter := BigEndian((Value(c.iv) + j / 16) % Power256(16), 16);
            Crypt(c, data)[j] == data[j] ^ Encrypt(c.keys, c.rounds, counter)[j % 16]
  {
    hide Encrypt, BigEndian, Value, Power256;
    BigEndianMod(Value(c.iv) + j / 16, 16);
    assert CounterAt(c.iv, j / BLOCK) == BigEndian(Value(c.iv) + j / 16, 16);
    hide CounterAt;
    assert Crypt(c, data)[j] == data[j] ^ KeystreamByte(c, j);
  }

  /** Two counters that are less than 2^128 apart are different blocks. */
  lemma CountersDiffer(iv: Bytes, i: nat, k: nat)
    requires |iv| == BLOCK && i < k && k - i < Power256(16)
    ensures CounterAt(iv, i) != CounterAt(iv, k)
  {
    hide BigEndian, Value, Power256;
    ValueOfBigEndian(Value(iv) + i, BLOCK);
    ValueOfBigEndian(Value(iv) + k, BLOCK);
    ModApart(Value(iv) + i, Value(iv) + k, Power256(16));
  }

  lemma ModApart(x: nat, y: nat, m: nat)
    requires x < y && y - x < m
    ensures x % m != y % m
  {
    var q, p := x / m, y / m;
    if x % m == y % m {
      assert y - x == m * p - m * q;
      if p > q {
        MulLess(m, q, p);
      } else if p < q {
        MulLess(m, p, q);
      }
    }
  }

  /** No two blocks of the keystream within 2^128 are the same. */
  lemma KeystreamBlocksDiffer(c: Cipher, i: nat, k: nat) returns (t: nat)
    requires Usable(c) && i < k && k - i < Power256(16)
    ensures t < 16 && KeystreamByte(c, 16 * i + t) != KeystreamByte(c, 16 * k + t)
  {
    hide CounterAt, Encrypt, Power256;
    CountersDiffer(c.iv, i, k);
    EncryptInjective(c.keys, c.rounds, CounterAt(c.iv, i), CounterAt(c.iv, k));
    var a, b := Encrypt(c.keys, c.rounds, CounterAt(c.iv, i)), Encrypt(c.keys, c.rounds, CounterAt(c.iv, k));
    t :| 0 <= t < 16 && a[t] != b[t];
    assert (16 * i + t) / BLOCK == i && (16 * i + t) % BLOCK == t;
    assert (16 * k + t) / BLOCK == k && (16 * k + t) % BLOCK == t;
  }

  // ---------------------------------------------------------------- the code

  /** One turn of the loop: the byte at j goes up by one, and a carry goes on to the left. */
  lemma CarryAt(b: Bytes, j: nat, done: Bytes)
    requires j < |b| && Increment(b) == Increment(b[..j + 1]) + done
    ensures b[j] + 1 != 0 ==> Increment(b) == b[..j] + ([b[j] + 1] + done)
    ensures b[j] + 1 == 0 ==> Increment(b) == Increment(b[..j]) + ([0] + done)
  {
    hide Increment;
    IncrementAt(b, j);
    Associates(b[..j], [b[j] + 1], done);
    Associates(Increment(b[..j]), [0], done);
  }

  lemma Bumped(s: Bytes, j: nat, v: bv8)
    requires j < |s|
    ensures s[j := v] == s[..j] + ([v] + s[j + 1..]) && s[j := v][..j] == s[..j]
    ensures s[j := v][j..] == [v] + s[j + 1..]
  {
  }

  lemma Rest(s: Bytes, j: nat)
    requires j < |s|
    ensures s[..j + 1][j] == s[j] && s[..j + 1][..j] == s[..j] && s[j + 1..] == s[j..][1..]
  {
  }

  /** The increment loop, from the last byte to the first until one does not overflow. */
  method IncrementInPlace(counter: array<bv8>)
    requires counter.Length == BLOCK
    modifies counter
    ensures counter[..] == Increment(old(counter[..]))
  {
    hide Increment;
    var j := BLOCK;
    ghost var b, now := counter[..], counter[..];
    assert b[..BLOCK] == b && now[BLOCK..] == [];
    while j > 0
      invariant 0 <= j <= BLOCK && now == counter[..] && |b| == BLOCK
      invariant now[..j] == b[..j]
      invariant Increment(b) == Increment(b[..j]) + now[j..]
      decreases j
    {
      j := j - 1;
      Rest(now, j);
      Rest(b, j);
      CarryAt(b, j, now[j + 1..]);
      Bumped(now, j, counter[j] + 1);
      counter[j] := counter[j] + 1;
      now := now[j := counter[j]];
      assert now == counter[..];
      if counter[j] != 0 {
        return;
      }
    }
    assert Increment([]) == [] && b[..0] == [] && now[0..] == now;
  }

  /** Flips one block of data, or the part of it that is left, with the keystream. */
  method FlipBlock(c: Cipher, keystream: array<bv8>, plaintext: array<bv8>, ciphertext: array<bv8>, i: nat, n: nat,
      ghost k: nat)
    requires Usable(c) && keystream.Length == BLOCK && keystream != plaintext && keystream != ciphertext
    requires keystream[..] == Encrypt(c.keys, c.rounds, CounterAt(c.iv, k)) && i == BLOCK * k && n <= BLOCK
    requires i + n <= plaintext.Length && i + n <= ciphertext.Length
    modifies ciphertext
    ensures forall j :: i <= j < i + n ==> ciphertext[j] == old(plaintext[j]) ^ KeystreamByte(c, j)
    ensures forall j :: (0 <= j < i || i + n <= j < ciphertext.Length) ==> ciphertext[j] == old(ciphertext[j])
  {
    hide Encrypt, CounterAt;
    var j := 0;
    while j < n
      invariant 0 <= j <= n
      invariant keystream[..] == Encrypt(c.keys, c.rounds, CounterAt(c.iv, k))
      invariant forall x :: i <= x < i + j ==> ciphertext[x] == old(plaintext[x]) ^ KeystreamByte(c, x)
      invariant forall x :: (0 <= x < i || i + j <= x < ciphertext.Length) ==> ciphertext[x] == old(ciphertext[x])
    {
      assert (i + j) / BLOCK == k && (i + j) % BLOCK == j;
      assert keystream[j] == keystream[..][j] == KeystreamByte(c, i + j);
      assert plaintext[i + j] == old(plaintext[i + j]);
      ciphertext[i + j] := plaintext[i + j] ^ keystream[j];
      j := j + 1;
    }
  }

  const WORD: nat := 0x1_0000_0000

  /** The loop index after k blocks is at or past the end of the data. */
  predicate Past(k: nat, len: nat) {
    BLOCK * k % WORD >= len
  }

  /** The 32-bit loop index gets to the end of the data if and only if the data is 16 bytes short of 2^32. */
  lemma LoopEndsIff(len: nat)
    ensures (exists k :: Past(k, len)) <==> len <= WORD - BLOCK
  {
    if len <= WORD - BLOCK {
      assert Past(0x0FFF_FFFF, len);
    }
    forall k: nat ensures BLOCK * k % WORD <= WORD - BLOCK {
      IndexBelow(k);
    }
  }

  lemma IndexBelow(k: nat)
    ensures BLOCK * k % WORD <= WORD - BLOCK
  {
    var q, r := k / 0x1000_0000, k % 0x1000_0000;
    assert BLOCK * k == WORD * q + BLOCK * r;
    ModUnique(BLOCK * k, WORD, q, BLOCK * r);
  }

  /** `aes_ctr_encrypt`; `plaintext` and `ciphertext` may be the same buffer. For longer data the source's
      loop does not end. */
  method CryptBuffer(c: Cipher, plaintext: array<bv8>, ciphertext: array<bv8>, len: nat)
    requires Usable(c) && len <= plaintext.Length && len <= ciphertext.Length && len <= WORD - BLOCK
    modifies ciphertext
    ensures ciphertext[..len] == Crypt(c, old(plaintext[..len]))
    ensures ciphertext[len..] == old(ciphertext[len..])
  {
    hide Encrypt, KeystreamByte, CounterAt;
    var counter := new bv8[BLOCK](x requires 0 <= x < |c.iv| => c.iv[x]);
    assert counter[..] == c.iv;
    FirstCounter(c.iv);
    var keystream := new bv8[BLOCK];
    var i := 0;
    ghost var k := 0;
    while i < len
      invariant i == BLOCK * k < WORD
      invariant counter[..] == CounterAt(c.iv, k)
      invariant forall j :: 0 <= j < i && j < len ==> ciphertext[j] == old(plaintext[j]) ^ KeystreamByte(c, j)
      invariant forall j :: i <= j < ciphertext.Length ==> ciphertext[j] == old(ciphertext[j])
      invariant forall j :: len <= j < ciphertext.Length ==> ciphertext[j] == old(ciphertext[j])
      invariant forall j :: i <= j < plaintext.Length ==> plaintext[j] == old(plaintext[j])
    {
      AesCode.EncryptBlock(c.keys, c.rounds, counter, keystream);
      var n := if len - i < BLOCK then len - i else BLOCK;
      FlipBlock(c, keystream, plaintext, ciphertext, i, n, k);
      IncrementInPlace(counter);
      CounterStep(c.iv, k);
      i := (i + BLOCK) % WORD;
      k := k + 1;
    }
  }

  lemma FirstCounter(iv: Bytes)
    requires |iv| == BLOCK
    ensures CounterAt(iv, 0) == iv
  {
    BigEndianOfValue(iv);
  }
}
