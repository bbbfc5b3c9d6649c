/** HMAC-SHA512 (RFC 2104) over the streaming hash. */
module Hmac {
  import opened ByteStrings
  import Sha512

  const BLOCK: nat := 128
  const OUTPUT: nat := 64
  const IPAD: bv8 := 0x36
  const OPAD: bv8 := 0x5c

  // ---------------------------------------------------------------- RFC 2104 section 2

  /** The key brought to the block size: hashed first when longer, then filled up with zeros. */
  function BlockKey(f: Sha512.Compression, key: Bytes): (k: Bytes)
    ensures |k| == BLOCK
  {
    var short := if |key| > BLOCK then Sha512.Hash(f, key) else key;
    short + Repeat(0, BLOCK - |short|)
  }

  function Padded(k: Bytes, pad: bv8): (r: Bytes)
    ensures |r| == |k|
  {
    Xor(k, Repeat(pad, |k|))
  }

  function Mac(f: Sha512.Compression, key: Bytes, msg: Bytes): (r: Bytes)
    ensures |r| == OUTPUT
  {
    var k := BlockKey(f, key);
    Sha512.Hash(f, Padded(k, OPAD) + Sha512.Hash(f, Padded(k, IPAD) + msg))
  }

  /** RFC 2104 section 2, byte by byte: K is the key, or its hash if it is longer than a block, filled up with zeros,
      and the tag is H((K xor 5c5c..) || H((K xor 3636..) || text)). */
  lemma MacByBytes(f: Sha512.Compression, key: Bytes, msg: Bytes, k: Bytes, inner: Bytes, outer: Bytes)
    requires |key| <= 128 ==> key <= k
    requires |key| > 128 ==> Sha512.Hash(f, key) <= k
    requires forall i :: (if |key| <= 128 then |key| else 64) <= i < |k| ==> k[i] == 0
    requires |k| == 128 && |inner| == 128 && |outer| == 128
    requires forall i :: 0 <= i < 128 ==> inner[i] == k[i] ^ 0x36 && outer[i] == k[i] ^ 0x5c
    ensures Mac(f, key, msg) == Sha512.Hash(f, outer + Sha512.Hash(f, inner + msg))
  {
    hide Sha512.Hash;
    assert k == BlockKey(f, key);
    assert inner == Padded(k, IPAD) && outer == Padded(k, OPAD);
  }

  /** Zeros behind a key that fits the block do not matter, and a longer key is the same as its hash. */
  lemma KeysAlike(f: Sha512.Compression, key: Bytes, n: nat, msg: Bytes)
    ensures |key| + n <= 128 ==> Mac(f, key + Repeat(0, n), msg) == Mac(f, key, msg)
    ensures |key| > 128 ==> Mac(f, key, msg) == Mac(f, Sha512.Hash(f, key), msg)
  {
    hide Sha512.Hash, Padded;
    if |key| + n <= 128 {
      assert BlockKey(f, key + Repeat(0, n)) == BlockKey(f, key);
    }
    if |key| > 128 {
      assert BlockKey(f, Sha512.Hash(f, key)) == BlockKey(f, key);
    }
  }

  // ---------------------------------------------------------------- the streaming context

  /** The key block with the pad byte flipped into every byte. */
  method FlipAll(k: Bytes, pad: bv8) returns (r: Bytes)
    ensures r == Padded(k, pad)
  {
    var a := new bv8[|k|];
    var i := 0;
    while i < a.Length
      invariant i <= a.Length
      invariant forall j :: 0 <= j < i ==> a[j] == k[j] ^ pad
    {
      a[i] := k[i] ^ pad;
      i := i + 1;
    }
    r := a[..];
  }

  method PrepareKey(f: Sha512.Compression, key: Bytes) returns (k: Bytes)
    requires |key| < 0x1_0000_0000
    ensures k == BlockKey(f, key)
  {
    if |key| > BLOCK {
      var digest := Sha512.HashOne(f, key);
      k := digest + Repeat(0, BLOCK - OUTPUT);
    } else {
      k := key + Repeat(0, BLOCK - |key|);
    }
  }

  class Context {
    const f: Sha512.Compression
    const key: Bytes
    const hash: Sha512.Context
    ghost const userKey: Bytes
    ghost var msg: Bytes      // everything authenticated so far

    ghost predicate Valid()
      reads this, hash, hash.buffer
    {
      && key == BlockKey(f, userKey)
      && hash.f == f && hash.Valid()
      && hash.fed == Padded(key, IPAD) + msg
    }

    constructor (f: Sha512.Compression, key: Bytes)
      requires |key| < 0x1_0000_0000
      ensures Valid() && fresh(hash) && fresh(hash.buffer)
      ensures this.f == f && userKey == key && msg == []
    {
      var block := PrepareKey(f, key);
      var inner := new Sha512.Context(f);
      var flipped := FlipAll(block, IPAD);
      inner.Update(flipped);
      this.f := f;
      this.key := block;
      this.hash := inner;
      this.userKey := key;
      this.msg := [];
      assert inner.fed == Padded(block, IPAD) + [];
    }

    method Update(data: Bytes)
      requires Valid() && |data| < 0x1_0000_0000
      modifies this, hash, hash.buffer
      ensures Valid() && msg == old(msg) + data
    {
      hide BlockKey, Padded, Sha512.Absorbed, Sha512.Counted;
      hash.Update(data);
      msg := msg + data;
      assert hash.fed == Padded(key, IPAD) + msg;
    }

    /** The tag is the RFC 2104 value of everything passed to Update, however it was cut. */
    method Final() returns (mac: Bytes)
      requires Valid()
      modifies hash, hash.buffer
      ensures mac == Mac(f, userKey, msg)
    {
      var innerHash := hash.Final();
      var flipped := FlipAll(key, OPAD);
      mac := Sha512.HashTwo(f, flipped, innerHash);
    }
  }

  /** `hmac_sha512`. */
  method MacOf(f: Sha512.Compression, key: Bytes, data: Bytes) returns (mac: Bytes)
    requires |key| < 0x1_0000_0000 && |data| < 0x1_0000_0000
    ensures mac == Mac(f, key, data)
  {
    var ctx := new Context(f, key);
    ctx.Update(data);
    assert ctx.msg == data;
    mac := ctx.Final();
  }
}
