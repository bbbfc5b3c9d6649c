/** The ChaCha20-based generator, one call at a time: what bytes come out, and what a reseed keeps of the old key. */
module Csprng {
  import opened ByteStrings
  import opened Critical
  import opened Cpus
  import opened CsprngSizes
  import Sha512
  import Hmac

  /** The ChaCha20 block function on 16 state words. Its rounds play no part in what follows. */
  type BlockFunction = seq<nat> -> Bytes

  function Block(f: BlockFunction, words: seq<nat>): (r: Bytes)
    ensures |r| == BLOCK
  {
    var r := f(words);
    if |r| >= BLOCK then r[..BLOCK] else r + Repeat(0, BLOCK - |r|)
  }

  // ---------------------------------------------------------------- specification

  /** The generator between two calls. */
  datatype Gen = Gen(key: seq<nat>, counter: nat, bytes: nat)

  const CONSTANTS: seq<nat> := [0x61707865, 0x3320646e, 0x79622d32, 0x6b206574]

  /** The state words from which block number `c` is made: RFC 8439 section 2.3 with a 64-bit counter in words 12 and
      13. */
  function Words(key: seq<nat>, c: nat): seq<nat> {
    CONSTANTS + key + [c % WORD, c / WORD % WORD, 0, 0]
  }

  function KeystreamByte(f: BlockFunction, g: Gen, j: nat): bv8 {
    Block(f, Words(g.key, (g.counter + j / BLOCK) % COUNTER_RANGE))[j % BLOCK]
  }

  function LittleValue(b: Bytes): nat {
    if b == [] then 0 else b[0] as int + 256 * LittleValue(b[1..])
  }

  /** The eight key words of a seed. */
  function KeyWords(seed: Bytes): (r: seq<nat>)
    requires |seed| >= 32
    ensures |r| == 8
  {
    seq(8, i requires 0 <= i < 8 => LittleValue(seed[4*i..4*i + 4]))
  }

  /** The key as the 32 bytes that a reseed mixes with fresh entropy. */
  function KeyBytes(key: seq<nat>, n: nat): (r: Bytes)
    requires n <= |key|
    ensures |r| == 4 * n
  {
    if n == 0 then [] else KeyBytes(key, n - 1) + LittleEndian(key[n - 1], 4)
  }

  function Seeded(seed: Bytes): Gen
    requires |seed| >= 32
  {
    Gen(KeyWords(seed), 0, 0)
  }

  function Reseeded(h: Sha512.Compression, g: Gen, entropy: Bytes): Gen
    requires |g.key| == 8
  {
    Seeded(Hmac.Mac(h, KeyBytes(g.key, 8), entropy))
  }

  datatype Entropy = Failed | Collected(bytes: Bytes)

  /** The generator from which a request is served. */
  function Ready(h: Sha512.Compression, g: Gen, e: Entropy): (r: Gen)
    requires |g.key| == 8
    ensures |r.key| == 8
    ensures e.Collected? ==> r.bytes < RESEED_LIMIT
  {
    if g.bytes >= RESEED_LIMIT && e.Collected? then Reseeded(h, g, e.bytes) else g
  }

  function Blocks(len: nat): nat {
    (len + 63) / BLOCK
  }

  function Served(g: Gen, len: nat): Gen {
    g.(counter := (g.counter + Blocks(len)) % COUNTER_RANGE, bytes := (g.bytes + len) % WORD)
  }

  // ---------------------------------------------------------------- properties

  lemma {:induction false} LittleEndianOfValue(b: Bytes)
    ensures LittleEndian(LittleValue(b), |b|) == b
  {
    if b != [] {
      var rest := LittleValue(b[1..]);
      LittleEndianOfValue(b[1..]);
      Digits(LittleValue(b), b[0], rest);
      hide LittleValue, Byte;
      assert LittleEndian(LittleValue(b), |b|) == [b[0]] + LittleEndian(rest, |b| - 1) == [b[0]] + b[1..];
    }
  }

  lemma Digits(x: nat, y: bv8, rest: nat)
    requires x == y as int + 256 * rest
    ensures Byte(x) == y && x / 256 == rest
  {
    assert 0 <= y as int < 256;
    SameByte(x, y);
  }

  /** A reseed mixes in exactly the 32 bytes the generator was last seeded with. */
  lemma {:induction false} KeyBytesOfSeed(seed: Bytes, n: nat)
    requires |seed| >= 32 && n <= 8
    ensures KeyBytes(KeyWords(seed), n) == seed[..4*n]
  {
    hide LittleValue, LittleEndian;
    if n > 0 {
      KeyBytesOfSeed(seed, n - 1);
      LittleEndianOfValue(seed[4*(n - 1)..4*n]);
      assert seed[..4*n] == seed[..4*(n - 1)] + seed[4*(n - 1)..4*n];
    }
  }

  /** Two requests one after the other read one stream: the second continues at the next whole block. */
  lemma RequestsContinue(f: BlockFunction, g: Gen, len: nat, j: nat)
    ensures KeystreamByte(f, Served(g, len), j) == KeystreamByte(f, g, BLOCK * Blocks(len) + j)
  {
    var k := Blocks(len);
    assert (BLOCK * k + j) / BLOCK == k + j / BLOCK && (BLOCK * k + j) % BLOCK == j % BLOCK;
    AddMod(g.counter + k, j / BLOCK);
  }

  lemma AddMod(x: nat, y: nat)
    ensures (x % COUNTER_RANGE + y) % COUNTER_RANGE == (x + y) % COUNTER_RANGE
  {
  }

  /** The generator after requests for which no entropy could be collected. */
  function Starved(h: Sha512.Compression, g: Gen, lens: seq<nat>): (r: Gen)
    requires |g.key| == 8
    ensures |r.key| == 8
  {
    if lens == [] then g
    else Served(Ready(h, Starved(h, g, lens[..|lens| - 1]), Failed), lens[|lens| - 1])
  }

  function Sum(lens: seq<nat>): nat {
    if lens == [] then 0 else Sum(lens[..|lens| - 1]) + lens[|lens| - 1]
  }

  lemma {:induction false} StarvedCount(h: Sha512.Compression, g: Gen, lens: seq<nat>)
    requires |g.key| == 8 && g.bytes < WORD
    ensures Starved(h, g, lens).bytes == (g.bytes + Sum(lens)) % WORD && Starved(h, g, lens).key == g.key
  {
    if lens != [] {
      StarvedCount(h, g, lens[..|lens| - 1]);
      BytesOn(g.bytes, Sum(lens[..|lens| - 1]), lens[|lens| - 1]);
    }
  }

  /** After any number of requests without entropy, the next request with entropy goes on under the old key
      if and only if the bytes generated, counted modulo 2^32, fall below the limit: at a multiple of
      2^32 bytes a due reseed is skipped. */
  lemma LimitMissed(h: Sha512.Compression, g: Gen, lens: seq<nat>, entropy: Bytes)
    requires |g.key| == 8 && g.bytes < WORD
    ensures var g' := Starved(h, g, lens);
            Ready(h, g', Collected(entropy)) == g' <==> (g.bytes + Sum(lens)) % WORD < RESEED_LIMIT
    ensures g.bytes + Sum(lens) == WORD ==> Ready(h, Starved(h, g, lens), Collected(entropy)).key == g.key
  {
    hide Starved, Sum, Hmac.Mac, KeyWords;
    StarvedCount(h, g, lens);
  }

  // ---------------------------------------------------------------- the code

  /** `csprng_ctx_t`. */
  class Generator {
    const cpu: Cpu
    const f: BlockFunction
    const h: Sha512.Compression
    var state: seq<nat>
    var counter: nat
    var bytes: nat
    var initialized: bool

    ghost predicate Valid()
      reads this
    {
      && |state| == 16 && counter < COUNTER_RANGE && bytes < WORD
      && state[..4] == CONSTANTS && state[14] == 0 && state[15] == 0
    }

    ghost function Now(): Gen
      reads this
      requires Valid()
    {
      Gen(state[4..12], counter, bytes)
    }

    constructor (cpu: Cpu, f: BlockFunction, h: Sha512.Compression)
      ensures Valid() && !initialized && this.cpu == cpu && this.f == f && this.h == h
    {
      this.cpu, this.f, this.h := cpu, f, h;
      state, counter, bytes, initialized := CONSTANTS + seq(12, _ => 0), 0, 0, false;
    }

    /** `csprng_init`. */
    method Init(seed: Bytes)
      requires |seed| >= 32
      modifies this
      ensures Valid() && initialized && Now() == Seeded(seed)
    {
      hide LittleValue;
      state := CONSTANTS;
      var i := 0;
      while i < 8
        invariant i <= 8 && |state| == 4 + i && state[..4] == CONSTANTS
        invariant forall k :: 0 <= k < i ==> state[4 + k] == LittleValue(seed[4*k..4*k + 4])
      {
        state := state + [LittleValue(seed[4*i..4*i + 4])];
        i := i + 1;
      }
      counter := 0;
      state := state + [0, 0, 0, 0];
      bytes := 0;
      initialized := true;
      assert state[4..12] == KeyWords(seed);
    }

    /** `csprng_reseed`: the new key is a MAC of the entropy under the old key. */
    method Reseed(entropy: Bytes)
      requires Valid() && |entropy| < WORD && Consistent(cpu.State()) && cpu.depth < UINT32_MAX
      modifies this, cpu
      ensures Valid() && initialized && Now() == Reseeded(h, old(Now()), entropy)
      ensures Balanced(old(cpu.State()), cpu.State())
    {
      hide Hmac.Mac, KeyWords, LittleEndian;
      EnterExitBalances(cpu.State());
      cpu.CriticalSectionEnter();
      var oldState: Bytes := [];
      ghost var key := state[4..12];
      var i := 0;
      while i < 8
        invariant i <= 8 && oldState == KeyBytes(key, i)
      {
        assert key[i] == state[4 + i];
        oldState := oldState + LittleEndian(state[4 + i], 4);
        i := i + 1;
      }
      var seed := Hmac.MacOf(h, oldState, entropy);
      Init(seed);
      cpu.CriticalSectionExit();
    }

    /** `csprng_random_bytes`; false stands for the panic on an unseeded generator. */
    method RandomBytes(output: array<bv8>, len: nat, entropy: Entropy) returns (served: bool)
      requires Valid() && len <= output.Length && len < WORD
      requires entropy.Collected? ==> |entropy.bytes| < WORD
      requires Consistent(cpu.State()) && cpu.depth < UINT32_MAX - 1
      modifies this, cpu, output
      ensures Valid() && served == old(initialized)
      ensures !served ==> output[..] == old(output[..]) && Now() == old(Now()) && cpu.State() == old(cpu.State())
      ensures served ==>
        var g := Ready(h, old(Now()), entropy);
        && (forall j :: 0 <= j < len ==> output[j] == KeystreamByte(f, g, j))
        && output[len..] == old(output[len..])
        && Now() == Served(g, len)
        && Balanced(old(cpu.State()), cpu.State())
    {
      hide Reseeded, KeystreamByte, Served;
      if !initialized {
        return false;
      }
      EnterExitBalances(cpu.State());
      cpu.CriticalSectionEnter();
      if bytes >= RESEED_LIMIT {
        if entropy.Collected? {
          Reseed(entropy.bytes);
        }
      }
      Generate(output, len);
      cpu.CriticalSectionExit();
      served := true;
    }

    /** The generation loop. */
    method Generate(output: array<bv8>, len: nat)
      requires Valid() && len <= output.Length
      modifies this, output
      ensures Valid() && Now() == Served(old(Now()), len) && initialized == old(initialized)
      ensures forall j :: 0 <= j < len ==> output[j] == KeystreamByte(f, old(Now()), j)
      ensures output[len..] == old(output[len..])
    {
      hide KeystreamByte, Blocks;
      ghost var g := Now();
      BlocksAre(0, 0);
      var offset, left := 0, len;
      ghost var k := 0;
      while left > 0
        invariant 0 <= left && 0 <= offset && offset + left == len
        invariant if left > 0 then offset == BLOCK * k else k == Blocks(len)
        invariant Valid() && initialized == old(initialized) && state[4..12] == g.key
        invariant counter == (g.counter + k) % COUNTER_RANGE && bytes == (g.bytes + offset) % WORD
        invariant forall j :: 0 <= j < offset ==> output[j] == KeystreamByte(f, g, j)
        invariant forall j :: len <= j < output.Length ==> output[j] == old(output[j])
      {
        var n := if left < BLOCK then left else BLOCK;
        OneBlock(output, offset, n, g, k);
        counter := (counter + 1) % COUNTER_RANGE;
        bytes := (bytes + n) % WORD;
        CountedOn(g.counter, k);
        BytesOn(g.bytes, offset, n);
        BlocksAre(k, n);
        offset := offset + n;
        left := left - n;
        k := k + 1;
      }
    }

    /** One block: the counter goes into words 12 and 13, and the block into the output. */
    method OneBlock(output: array<bv8>, offset: nat, n: nat, ghost g: Gen, ghost k: nat)
      requires Valid() && n <= BLOCK && offset + n <= output.Length && offset == BLOCK * k
      requires state[4..12] == g.key && counter == (g.counter + k) % COUNTER_RANGE
      modifies `state, output
      ensures Valid() && state[4..12] == g.key
      ensures forall j :: offset <= j < offset + n ==> output[j] == KeystreamByte(f, g, j)
      ensures forall j :: (0 <= j < offset || offset + n <= j < output.Length) ==> output[j] == old(output[j])
    {
      state := state[12 := counter % WORD][13 := counter / WORD % WORD];
      assert state == Words(g.key, counter);
      var block := Block(f, state);
      assert forall j :: offset <= j < offset + n ==> block[j - offset] == KeystreamByte(f, g, j) by {
        hide Block;
        forall j | offset <= j < offset + n ensures block[j - offset] == KeystreamByte(f, g, j) {
          assert j / BLOCK == k && j % BLOCK == j - offset;
        }
      }
      forall i | 0 <= i < n {
        output[offset + i] := block[i];
      }
    }
  }

  lemma BlocksAre(k: nat, n: nat)
    requires n <= BLOCK
    ensures Blocks(BLOCK * k + n) == if n == 0 then k else k + 1
  {
  }

  lemma CountedOn(c: nat, k: nat)
    ensures ((c + k) % COUNTER_RANGE + 1) % COUNTER_RANGE == (c + (k + 1)) % COUNTER_RANGE
  {
    AddMod(c + k, 1);
  }

  lemma BytesOn(b: nat, offset: nat, n: nat)
    ensures ((b + offset) % WORD + n) % WORD == (b + (offset + n)) % WORD
  {
  }
}
