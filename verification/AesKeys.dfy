/** The key schedule of AES-256 (FIPS 197 section 5.2). */
module AesKeys {
  import opened ByteStrings
  import opened AesTables
  import Aes

  const KEY_BYTES: nat := 32
  const WORDS: nat := 60

  // ---------------------------------------------------------------- the schedule

  function ByteAt(w: bv32, shift: bv5): bv8 {
    ((w >> shift) & 0xff) as bv8
  }

  function SubWord(w: bv32): bv32 {
    Join(SubByte(ByteAt(w, 24)), SubByte(ByteAt(w, 16)), SubByte(ByteAt(w, 8)), SubByte(ByteAt(w, 0)))
  }

  function RotWord(w: bv32): bv32 {
    Join(ByteAt(w, 16), ByteAt(w, 8), ByteAt(w, 0), ByteAt(w, 24))
  }

  const RCON: seq<bv32> := [0x00, 0x01, 0x02, 0x04, 0x08, 0x10, 0x20, 0x40, 0x80, 0x1b, 0x36]

  function Rcon(n: nat): bv32
    requires n < 11
  {
    RCON[n] << 24
  }

  function Plus32(x: bv32, y: bv32): bv32 {
    x ^ y
  }

  /** What is added to word i - 8 to make word i. */
  function Temp(previous: bv32, i: nat): bv32
    requires i < WORDS
  {
    if i % 8 == 0 then Plus32(SubWord(RotWord(previous)), Rcon(i / 8))
    else if i % 8 == 4 then SubWord(previous)
    else previous
  }

  function KeyWord(key: Bytes, i: nat): bv32
    requires |key| == KEY_BYTES && i < 8
  {
    Join(key[4*i], key[4*i + 1], key[4*i + 2], key[4*i + 3])
  }

  /** Word i of the schedule. */
  function Word(key: Bytes, i: nat): bv32
    requires |key| == KEY_BYTES && i < WORDS
  {
    if i < 8 then KeyWord(key, i) else Plus32(Word(key, i - 8), Temp(Word(key, i - 1), i))
  }

  function Expanded(key: Bytes): (keys: seq<bv32>)
    requires |key| == KEY_BYTES
    ensures |keys| == WORDS
  {
    seq(WORDS, i requires 0 <= i < WORDS => Word(key, i))
  }

  lemma BytesOfJoin(a: bv8, b: bv8, c: bv8, d: bv8)
    ensures Aes.WordBytes(Join(a, b, c, d)) == [a, b, c, d]
  {
  }

  lemma KeyByte(key: Bytes, k: nat, j: nat)
    requires |key| == KEY_BYTES && k < 8 && j < 4
    ensures Aes.WordBytes(Expanded(key)[k])[j] == key[4*k + j]
  {
    hide Join, Aes.WordBytes, Temp;
    BytesOfJoin(key[4*k], key[4*k + 1], key[4*k + 2], key[4*k + 3]);
  }

  /** The first two round keys, as the cipher takes them apart, are the key itself. */
  lemma FirstRoundKeys(key: Bytes)
    requires |key| == KEY_BYTES
    ensures Aes.RoundKey(Expanded(key), 0) == key[..16] && Aes.RoundKey(Expanded(key), 1) == key[16..]
  {
    hide Expanded, Aes.WordBytes;
    forall i | 0 <= i < 16
      ensures Aes.RoundKey(Expanded(key), 0)[i] == key[i] && Aes.RoundKey(Expanded(key), 1)[i] == key[16 + i]
    {
      KeyByte(key, i / 4, i % 4);
      KeyByte(key, 4 + i / 4, i % 4);
    }
  }

  // ---------------------------------------------------------------- no part of the schedule loses the key

  lemma Plus32Back(x: bv32, y: bv32)
    ensures Plus32(Plus32(x, y), y) == x
  {
  }

  /** The schedule can be run backwards. */
  lemma StepBack(key: Bytes, i: nat)
    requires |key| == KEY_BYTES && 8 <= i < WORDS
    ensures Word(key, i - 8) == Plus32(Word(key, i), Temp(Word(key, i - 1), i))
  {
    hide Temp, Plus32;
    Plus32Back(Word(key, i - 8), Temp(Word(key, i - 1), i));
  }

  /** The two schedules agree on the eight words from i on. */
  predicate Agree(key: Bytes, key': Bytes, i: nat)
    requires |key| == KEY_BYTES && |key'| == KEY_BYTES && i + 8 <= WORDS
  {
    forall j :: i <= j < i + 8 ==> Word(key, j) == Word(key', j)
  }

  lemma {:induction false} AgreeBack(key: Bytes, key': Bytes, i: nat)
    requires |key| == KEY_BYTES && |key'| == KEY_BYTES && i + 8 <= WORDS && Agree(key, key', i)
    ensures Agree(key, key', 0)
  {
    hide Word, Temp, Plus32;
    if i > 0 {
      StepBack(key, i + 7);
      StepBack(key', i + 7);
      assert Word(key, i + 7) == Word(key', i + 7) && Word(key, i + 6) == Word(key', i + 6);
      AgreeBack(key, key', i - 1);
    }
  }

  lemma SameQuarter(key: Bytes, key': Bytes, i: nat)
    requires |key| == KEY_BYTES && |key'| == KEY_BYTES && i < 8 && KeyWord(key, i) == KeyWord(key', i)
    ensures forall j :: 4*i <= j < 4*i + 4 ==> key[j] == key'[j]
  {
    JoinInjective(key[4*i], key[4*i + 1], key[4*i + 2], key[4*i + 3],
                  key'[4*i], key'[4*i + 1], key'[4*i + 2], key'[4*i + 3]);
    hide Join;
  }

  /** Any eight consecutive words determine the key: different keys never agree on two whole round keys in a row. */
  lemma WindowDeterminesKey(key: Bytes, key': Bytes, i: nat)
    requires |key| == KEY_BYTES && |key'| == KEY_BYTES && i + 8 <= WORDS
    ensures Agree(key, key', i) ==> key == key'
  {
    if Agree(key, key', i) {
      AgreeBack(key, key', i);
      hide KeyWord;
      forall j | 0 <= j < KEY_BYTES ensures key[j] == key'[j] {
        assert Word(key, j / 4) == Word(key', j / 4);
        SameQuarter(key, key', j / 4);
      }
    }
  }

  // ---------------------------------------------------------------- the code

  lemma WordIs(key: Bytes, i: nat)
    requires |key| == KEY_BYTES && i < WORDS
    ensures i < 8 ==> Word(key, i) == KeyWord(key, i)
    ensures i >= 8 ==> Word(key, i) == Plus32(Word(key, i - 8), Temp(Word(key, i - 1), i))
  {
    hide KeyWord, Temp, Plus32;
  }

  method NextTemp(previous: bv32, i: nat) returns (temp: bv32)
    requires i < WORDS
    ensures temp == Temp(previous, i)
  {
    hide SubWord, RotWord, Plus32, Rcon;
    temp := previous;
    if i % 8 == 0 {
      temp := SubWord(RotWord(temp));
      temp := Plus32(temp, Rcon(i / 8));
    } else if i % 8 == 4 {
      temp := SubWord(temp);
    }
  }

  /** `aes_key_expansion`. */
  method ExpandKey(key: Bytes, roundKeys: array<bv32>)
    requires |key| == KEY_BYTES && roundKeys.Length == WORDS
    modifies roundKeys
    ensures roundKeys[..] == Expanded(key)
  {
    hide KeyWord, Word, Temp, Plus32;
    var i := 0;
    while i < 8
      invariant i <= 8 && forall j :: 0 <= j < i ==> roundKeys[j] == Word(key, j)
    {
      WordIs(key, i);
      roundKeys[i] := KeyWord(key, i);
      i := i + 1;
    }
    while i < WORDS
      invariant 8 <= i <= WORDS && forall j :: 0 <= j < i ==> roundKeys[j] == Word(key, j)
    {
      WordIs(key, i);
      var temp := NextTemp(roundKeys[i - 1], i);
      roundKeys[i] := Plus32(roundKeys[i - 8], temp);
      i := i + 1;
    }
  }
}
