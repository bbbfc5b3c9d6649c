/**
 What feeds the generator: the state words of every block, and the seeds behind the keys. No block of a key is
 made from the same words twice, one call at a time and under every interleaving.
 */
module Keystream {
  import opened ByteStrings
  import opened CsprngSizes
  import opened Csprng
  import Sha512
  import Hmac
  import LockedRuns

  // ---------------------------------------------------------------- the words of a block

  /** The words hold the constants, the key and the whole counter, low half first. */
  lemma WordsHold(key: seq<nat>, c: nat)
    requires |key| == 8 && c < COUNTER_RANGE
    ensures var w := Words(key, c);
            && |w| == 16 && w[..4] == CONSTANTS && w[4..12] == key && w[14] == 0 && w[15] == 0
            && w[12] < WORD && w[13] < WORD && w[12] + WORD * w[13] == c
  {
  }

  /** Two counters never give the same words. */
  lemma WordsDiffer(key: seq<nat>, c: nat, c': nat)
    requires |key| == 8 && c < COUNTER_RANGE && c' < COUNTER_RANGE && c != c'
    ensures Words(key, c) != Words(key, c')
  {
    hide Words;
    WordsHold(key, c);
    WordsHold(key, c');
  }

  /** The constants are "expand 32-byte k" in little-endian order (RFC 8439 section 2.3). */
  lemma ConstantsSpell()
    ensures LittleEndian(CONSTANTS[0], 4) == [0x65, 0x78, 0x70, 0x61]
    ensures LittleEndian(CONSTANTS[1], 4) == [0x6e, 0x64, 0x20, 0x33]
    ensures LittleEndian(CONSTANTS[2], 4) == [0x32, 0x2d, 0x62, 0x79]
    ensures LittleEndian(CONSTANTS[3], 4) == [0x74, 0x65, 0x20, 0x6b]
  {
    hide LittleEndian;
    FourBytes(0x61707865, 0x65, 0x78, 0x70, 0x61);
    FourBytes(0x3320646e, 0x6e, 0x64, 0x20, 0x33);
    FourBytes(0x79622d32, 0x32, 0x2d, 0x62, 0x79);
    FourBytes(0x6b206574, 0x74, 0x65, 0x20, 0x6b);
  }

  lemma DigitOn(x: nat, y: bv8, rest: nat, n: nat, tail: Bytes)
    requires x == y as int + 256 * rest && LittleEndian(rest, n) == tail
    ensures LittleEndian(x, n + 1) == [y] + tail
  {
    Digits(x, y, rest);
    hide Byte;
  }

  lemma FourBytes(x: nat, a: bv8, b: bv8, c: bv8, d: bv8)
    requires x == a as int + 256 * (b as int + 256 * (c as int + 256 * d as int))
    ensures LittleEndian(x, 4) == [a, b, c, d]
  {
    hide LittleEndian;
    var z := d as int;
    var y := c as int + 256 * z;
    var w := b as int + 256 * y;
    NoDigits();
    DigitOn(z, d, 0, 0, []);
    DigitOn(y, c, z, 1, [d]);
    DigitOn(w, b, y, 2, [c] + [d]);
    DigitOn(x, a, w, 3, [b] + ([c] + [d]));
    assert [d] + [] == [d] && [a] + ([b] + ([c] + [d])) == [a, b, c, d];
  }

  lemma NoDigits()
    ensures LittleEndian(0, 0) == []
  {
  }

  /** Key word i is made of bytes 4i to 4i + 3 of the seed, least significant first. */
  lemma KeyWordBytes(seed: Bytes, i: nat)
    requires |seed| >= 32 && i < 8
    ensures KeyWords(seed)[i] == seed[4*i] as int + 256 * (seed[4*i + 1] as int
                                 + 256 * (seed[4*i + 2] as int + 256 * seed[4*i + 3] as int))
  {
    var b := seed[4*i..4*i + 4];
    assert b[1..][0] == b[1] && b[1..][1..] == b[2..];
    assert b[2..][0] == b[2] && b[2..][1..] == b[3..];
    assert b[3..][0] == b[3] && b[3..][1..] == [];
    assert LittleValue(b[3..]) == b[3] as int;
    assert LittleValue(b[2..]) == b[2] as int + 256 * LittleValue(b[3..]);
    assert LittleValue(b[1..]) == b[1] as int + 256 * LittleValue(b[2..]);
  }

  // ---------------------------------------------------------------- one call after the other

  /** The words of the blocks that a row of requests makes, when no reseed comes between. */
  function Inputs(h: Sha512.Compression, g: Gen, lens: seq<nat>): (r: seq<seq<nat>>)
    requires |g.key| == 8
  {
    if lens == [] then []
    else
      var n := |lens| - 1;
      Inputs(h, g, lens[..n]) + More(Starved(h, g, lens[..n]), Blocks(lens[n]))
  }

  /** The words of the next m blocks. */
  function More(g: Gen, m: nat): (r: seq<seq<nat>>)
    ensures |r| == m
  {
    seq(m, i requires 0 <= i < m => Words(g.key, (g.counter + i) % COUNTER_RANGE))
  }

  /** The requests read one row of blocks, with the counter going up by one from each to the next. */
  lemma {:induction false} InputsInOrder(h: Sha512.Compression, g: Gen, lens: seq<nat>)
    requires |g.key| == 8 && g.counter < COUNTER_RANGE
    ensures var all := Inputs(h, g, lens);
            && Starved(h, g, lens).key == g.key
            && Starved(h, g, lens).counter == (g.counter + |all|) % COUNTER_RANGE
            && forall k :: 0 <= k < |all| ==> all[k] == Words(g.key, (g.counter + k) % COUNTER_RANGE)
  {
    hide Words, Blocks;
    if lens != [] {
      var n := |lens| - 1;
      InputsInOrder(h, g, lens[..n]);
      var before, g' := Inputs(h, g, lens[..n]), Starved(h, g, lens[..n]);
      assert Inputs(h, g, lens) == before + More(g', Blocks(lens[n]));
      assert Starved(h, g, lens) == Served(g', lens[n]);
      hide Inputs, Starved, More;
      MoreInOrder(g, before, g', Blocks(lens[n]));
    }
  }

  lemma MoreInOrder(g: Gen, before: seq<seq<nat>>, g': Gen, m: nat)
    requires g'.key == g.key && g'.counter == (g.counter + |before|) % COUNTER_RANGE
    requires forall k :: 0 <= k < |before| ==> before[k] == Words(g.key, (g.counter + k) % COUNTER_RANGE)
    ensures var all := before + More(g', m);
            && (g'.counter + m) % COUNTER_RANGE == (g.counter + |all|) % COUNTER_RANGE
            && forall k :: 0 <= k < |all| ==> all[k] == Words(g.key, (g.counter + k) % COUNTER_RANGE)
  {
    hide Words;
    var all, more := before + More(g', m), More(g', m);
    AddMod(g.counter + |before|, m);
    forall k | |before| <= k < |all| ensures all[k] == Words(g.key, (g.counter + k) % COUNTER_RANGE) {
      AddMod(g.counter + |before|, k - |before|);
      assert all[k] == more[k - |before|];
    }
  }

  /** Over any row of requests under one key, no two blocks within 2^64 are made from the same words. */
  lemma NoBlockTwice(h: Sha512.Compression, g: Gen, lens: seq<nat>, i: nat, j: nat)
    requires |g.key| == 8 && g.counter < COUNTER_RANGE
    requires i < j < |Inputs(h, g, lens)| && j - i < COUNTER_RANGE
    ensures Inputs(h, g, lens)[i] != Inputs(h, g, lens)[j]
  {
    hide Inputs, Starved, Words;
    InputsInOrder(h, g, lens);
    Apart(g.counter, i, j);
    WordsDiffer(g.key, (g.counter + i) % COUNTER_RANGE, (g.counter + j) % COUNTER_RANGE);
  }

  lemma Apart(c: nat, i: nat, j: nat)
    requires i < j && j - i < COUNTER_RANGE
    ensures (c + i) % COUNTER_RANGE != (c + j) % COUNTER_RANGE
  {
  }

  /** Byte j of a request comes out of block j/64 of those that the request adds to the row. */
  lemma ByteFromInputs(h: Sha512.Compression, f: BlockFunction, g: Gen, lens: seq<nat>, len: nat, j: nat)
    requires |g.key| == 8 && j < len
    ensures var first, all := |Inputs(h, g, lens)|, Inputs(h, g, lens + [len]);
            && first + j / BLOCK < |all|
            && KeystreamByte(f, Starved(h, g, lens), j) == Block(f, all[first + j / BLOCK])[j % BLOCK]
  {
    hide Block, Inputs, Starved, More, Blocks, KeystreamByte;
    BlockOfByte(len, j);
    InputsMore(h, g, lens, len);
    ByteOfBlock(f, Starved(h, g, lens), Blocks(len), j);
  }

  lemma ByteOfBlock(f: BlockFunction, g: Gen, m: nat, j: nat)
    requires j / BLOCK < m
    ensures KeystreamByte(f, g, j) == Block(f, More(g, m)[j / BLOCK])[j % BLOCK]
  {
    hide Words, Block;
  }

  lemma BlockOfByte(len: nat, j: nat)
    requires j < len
    ensures j / BLOCK < Blocks(len)
  {
  }

  lemma InputsMore(h: Sha512.Compression, g: Gen, lens: seq<nat>, len: nat)
    requires |g.key| == 8
    ensures Inputs(h, g, lens + [len]) == Inputs(h, g, lens) + More(Starved(h, g, lens), Blocks(len))
  {
    hide More, Blocks, Starved;
    assert (lens + [len])[..|lens|] == lens;
  }

  // ---------------------------------------------------------------- under every interleaving

  /** Over every run of threads and handlers, two blocks of one key that are less than 2^64 blocks apart are made
      from different words, whatever the keys of the epochs are. */
  lemma NoBlockTwiceInterleaved(s: LockedRuns.System, events: seq<LockedRuns.Event>, keys: nat -> seq<nat>,
      i: nat, j: nat)
    requires LockedRuns.Start(s) && LockedRuns.Runnable(s, events) && forall e: nat :: |keys(e)| == 8
    requires i < j < |LockedRuns.RunAll(s, events).l.log| && j - i < COUNTER_RANGE
    ensures var log := LockedRuns.RunAll(s, events).l.log;
            && log[i].index < COUNTER_RANGE && log[j].index < COUNTER_RANGE
            && (log[i].epoch == log[j].epoch ==>
                  Words(keys(log[i].epoch), log[i].index) != Words(keys(log[j].epoch), log[j].index))
  {
    hide LockedRuns.RunAll, LockedRuns.Runnable, Words;
    LockedRuns.StartInv(s);
    LockedRuns.RunAllKeepsInv(s, events);
    var log := LockedRuns.RunAll(s, events).l.log;
    LockedRuns.GoodPair(log, i, j);
    LockedRuns.LogDistance(log, i, i);
    LockedRuns.LogDistance(log, j, j);
    if log[i].epoch == log[j].epoch {
      WordsDiffer(keys(log[i].epoch), log[i].index, log[j].index);
    }
  }

  // ---------------------------------------------------------------- the seeds

  /** The seed after a row of reseeds: each is the MAC of the entropy, keyed with the first 32 bytes of the seed
      before it. */
  function SeedAfter(h: Sha512.Compression, seed: Bytes, row: seq<Bytes>): (r: Bytes)
    requires |seed| >= 32
    ensures |r| >= 32
  {
    if row == [] then seed
    else Hmac.Mac(h, SeedAfter(h, seed, row[..|row| - 1])[..32], row[|row| - 1])
  }

  function Reseeds(h: Sha512.Compression, g: Gen, row: seq<Bytes>): (r: Gen)
    requires |g.key| == 8
    ensures |r.key| == 8
  {
    if row == [] then g else Reseeded(h, Reseeds(h, g, row[..|row| - 1]), row[|row| - 1])
  }

  /** After any row of reseeds the generator is that of the chained seed: nothing of the old key is lost, and the
      entropy is the message, not the key, of each MAC. */
  lemma {:induction false} SeedsChain(h: Sha512.Compression, seed: Bytes, row: seq<Bytes>)
    requires |seed| >= 32
    ensures Reseeds(h, Seeded(seed), row) == Gen(KeyWords(SeedAfter(h, seed, row)), 0, 0)
  {
    hide Hmac.Mac, KeyWords;
    if row != [] {
      var front := row[..|row| - 1];
      SeedsChain(h, seed, front);
      KeyBytesOfSeed(SeedAfter(h, seed, front), 8);
    }
  }
}
