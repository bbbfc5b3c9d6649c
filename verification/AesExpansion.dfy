/** The key expansion, byte by byte for every key, and word for word for the key of FIPS 197 appendix A.3. */
module AesExpansion {
  import opened ByteStrings
  import opened AesTables
  import opened AesField
  import opened AesKeys
  import opened AesSbox
  import Aes

  // ---------------------------------------------------------------- every key (section 5.2)

  /** The round constants are the powers of x in GF(2^8), in the top byte. */
  lemma RconPowers(n: nat)
    requires 1 <= n < 11
    ensures n == 1 ==> Aes.WordBytes(Rcon(n)) == [1, 0, 0, 0]
    ensures n > 1 ==> Aes.WordBytes(Rcon(n)) == [Xtime(Aes.WordBytes(Rcon(n - 1))[0]), 0, 0, 0]
  {
  }

  /** The four bytes of a word, each by its place. */
  function B0(w: bv32): bv8 { ((w >> 24) & 0xff) as bv8 }
  function B1(w: bv32): bv8 { ((w >> 16) & 0xff) as bv8 }
  function B2(w: bv32): bv8 { ((w >> 8) & 0xff) as bv8 }
  function B3(w: bv32): bv8 { (w & 0xff) as bv8 }

  lemma ByPlace(w: bv32)
    ensures Aes.WordBytes(w) == [B0(w), B1(w), B2(w), B3(w)]
    ensures B0(w) == ByteAt(w, 24) && B1(w) == ByteAt(w, 16) && B2(w) == ByteAt(w, 8) && B3(w) == ByteAt(w, 0)
  {
  }

  lemma Plus0(x: bv32, y: bv32)
    ensures B0(Plus32(x, y)) == Plus(B0(x), B0(y))
  {
  }

  lemma Plus1(x: bv32, y: bv32)
    ensures B1(Plus32(x, y)) == Plus(B1(x), B1(y))
  {
  }

  lemma Plus2(x: bv32, y: bv32)
    ensures B2(Plus32(x, y)) == Plus(B2(x), B2(y))
  {
  }

  lemma Plus3(x: bv32, y: bv32)
    ensures B3(Plus32(x, y)) == Plus(B3(x), B3(y))
  {
  }

  lemma PlusBytes(x: bv32, y: bv32, j: nat)
    requires j < 4
    ensures Aes.WordBytes(Plus32(x, y))[j] == Plus(Aes.WordBytes(x)[j], Aes.WordBytes(y)[j])
  {
    hide B0, B1, B2, B3, Plus32, Plus, Aes.WordBytes, ByteAt;
    ByPlace(x);
    ByPlace(y);
    ByPlace(Plus32(x, y));
    Plus0(x, y);
    Plus1(x, y);
    Plus2(x, y);
    Plus3(x, y);
  }

  lemma SubBytesOf(w: bv32, j: nat)
    requires j < 4
    ensures Aes.WordBytes(SubWord(w))[j] == SubByte(Aes.WordBytes(w)[j])
  {
    hide SubByte, Join, ByteAt, Aes.WordBytes, B0, B1, B2, B3;
    ByPlace(w);
    BytesOfJoin(SubByte(ByteAt(w, 24)), SubByte(ByteAt(w, 16)), SubByte(ByteAt(w, 8)), SubByte(ByteAt(w, 0)));
  }

  lemma RotBytesOf(w: bv32, j: nat)
    requires j < 4
    ensures Aes.WordBytes(RotWord(w))[j] == Aes.WordBytes(w)[(j + 1) % 4]
  {
    hide Join, ByteAt, Aes.WordBytes, B0, B1, B2, B3;
    ByPlace(w);
    BytesOfJoin(ByteAt(w, 16), ByteAt(w, 8), ByteAt(w, 0), ByteAt(w, 24));
  }

  lemma RconBytes(n: nat, j: nat)
    requires n < 11 && j < 4
    ensures j > 0 ==> Aes.WordBytes(Rcon(n))[j] == 0
  {
  }

  lemma TempBytes(w: bv32, i: nat, j: nat)
    requires i < WORDS && j < 4
    ensures var before := Aes.WordBytes(w);
            Aes.WordBytes(Temp(w, i))[j] ==
            if i % 8 == 0 then Plus(SubByte(before[(j + 1) % 4]), if j == 0 then Aes.WordBytes(Rcon(i / 8))[0] else 0)
            else if i % 8 == 4 then SubByte(before[j])
            else before[j]
  {
    hide SubByte, SubWord, RotWord, Rcon, Plus32, Plus, Aes.WordBytes;
    if i % 8 == 0 {
      PlusBytes(SubWord(RotWord(w)), Rcon(i / 8), j);
      SubBytesOf(RotWord(w), j);
      RotBytesOf(w, j);
      RconBytes(i / 8, j);
    } else if i % 8 == 4 {
      SubBytesOf(w, j);
    }
  }

  /** Byte j of word i: the byte above it in word i - 8, plus the byte of word i - 1 in the same place, which is
      substituted when i is a multiple of four, and taken one place on with the round constant added when i is a
      multiple of eight. */
  lemma WordByBytes(key: Bytes, i: nat, j: nat)
    requires |key| == KEY_BYTES && 8 <= i < WORDS && j < 4
    ensures var above, before := Aes.WordBytes(Word(key, i - 8)), Aes.WordBytes(Word(key, i - 1));
            Aes.WordBytes(Word(key, i))[j] ==
            Plus(above[j],
                 if i % 8 == 0
                 then Plus(SubByte(before[(j + 1) % 4]), if j == 0 then Aes.WordBytes(Rcon(i / 8))[0] else 0)
                 else if i % 8 == 4 then SubByte(before[j])
                 else before[j])
  {
    hide SubByte, Word, Plus;
    WordIs(key, i);
    TempBytes(Word(key, i - 1), i, j);
    hide Temp, Rcon, Plus32, Aes.WordBytes;
    PlusBytes(Word(key, i - 8), Temp(Word(key, i - 1), i), j);
  }

  // ---------------------------------------------------------------- appendix A.3

  const KEY: Bytes := [
    0x60, 0x3d, 0xeb, 0x10, 0x15, 0xca, 0x71, 0xbe, 0x2b, 0x73, 0xae, 0xf0, 0x85, 0x7d, 0x77, 0x81,
    0x1f, 0x35, 0x2c, 0x07, 0x3b, 0x61, 0x08, 0xd7, 0x2d, 0x98, 0x10, 0xa3, 0x09, 0x14, 0xdf, 0xf4]

  lemma Key0(key: Bytes)
    requires |key| == KEY_BYTES && key == KEY
    ensures KeyWord(key, 0) == 0x603deb10
  {
  }

  lemma Key1(key: Bytes)
    requires |key| == KEY_BYTES && key == KEY
    ensures KeyWord(key, 1) == 0x15ca71be
  {
  }

  lemma Key2(key: Bytes)
    requires |key| == KEY_BYTES && key == KEY
    ensures KeyWord(key, 2) == 0x2b73aef0
  {
  }

  lemma Key3(key: Bytes)
    requires |key| == KEY_BYTES && key == KEY
    ensures KeyWord(key, 3) == 0x857d7781
  {
  }

  lemma Key4(key: Bytes)
    requires |key| == KEY_BYTES && key == KEY
    ensures KeyWord(key, 4) == 0x1f352c07
  {
  }

  lemma Key5(key: Bytes)
    requires |key| == KEY_BYTES && key == KEY
    ensures KeyWord(key, 5) == 0x3b6108d7
  {
  }

  lemma Key6(key: Bytes)
    requires |key| == KEY_BYTES && key == KEY
    ensures KeyWord(key, 6) == 0x2d9810a3
  {
  }

  lemma Key7(key: Bytes)
    requires |key| == KEY_BYTES && key == KEY
    ensures KeyWord(key, 7) == 0x0914dff4
  {
  }

  /** The words from i on. */
  predicate Holds(key: Bytes, i: nat, words: seq<bv32>)
    requires |key| == KEY_BYTES && i + |words| <= WORDS
  {
    forall k :: 0 <= k < |words| ==> Word(key, i + k) == words[k]
  }

  lemma HoldsFour(key: Bytes, i: nat, w0: bv32, w1: bv32, w2: bv32, w3: bv32)
    requires |key| == KEY_BYTES && i + 4 <= WORDS
    ensures Holds(key, i, [w0, w1, w2, w3]) <==>
      Word(key, i) == w0 && Word(key, i + 1) == w1 && Word(key, i + 2) == w2 && Word(key, i + 3) == w3
  {
    hide Word;
    var words := [w0, w1, w2, w3];
    if Holds(key, i, words) {
      assert Word(key, i + 0) == words[0] && Word(key, i + 1) == words[1];
      assert Word(key, i + 2) == words[2] && Word(key, i + 3) == words[3];
    }
  }

  lemma KeyWords(key: Bytes)
    requires |key| == KEY_BYTES && key == KEY
    ensures Holds(key, 0, [0x603deb10, 0x15ca71be, 0x2b73aef0, 0x857d7781])
    ensures Holds(key, 4, [0x1f352c07, 0x3b6108d7, 0x2d9810a3, 0x0914dff4])
  {
    hide Word, KeyWord, Holds;
    Key0(key);
    WordIs(key, 0);
    Key1(key);
    WordIs(key, 1);
    Key2(key);
    WordIs(key, 2);
    Key3(key);
    WordIs(key, 3);
    Key4(key);
    WordIs(key, 4);
    Key5(key);
    WordIs(key, 5);
    Key6(key);
    WordIs(key, 6);
    Key7(key);
    WordIs(key, 7);
    HoldsFour(key, 0, 0x603deb10, 0x15ca71be, 0x2b73aef0, 0x857d7781);
    HoldsFour(key, 4, 0x1f352c07, 0x3b6108d7, 0x2d9810a3, 0x0914dff4);
  }

  lemma PlainWord(key: Bytes, i: nat)
    requires |key| == KEY_BYTES && 8 <= i < WORDS && i % 4 != 0
    ensures Word(key, i) == Plus32(Word(key, i - 8), Word(key, i - 1))
  {
    hide Word, Plus32, SubWord, RotWord, Rcon;
    WordIs(key, i);
  }

  lemma FirstWord(key: Bytes, i: nat)
    requires |key| == KEY_BYTES && 8 <= i < WORDS
    ensures Word(key, i) == Plus32(Word(key, i - 8), Temp(Word(key, i - 1), i))
  {
    hide Word, Plus32, Temp;
    WordIs(key, i);
  }

  /** Four words from the four above them and what is added to the first. */
  lemma Quarter(key: Bytes, i: nat, t: bv32)
    requires |key| == KEY_BYTES && 8 <= i && i + 4 <= WORDS && i % 4 == 0 && Temp(Word(key, i - 1), i) == t
    ensures Word(key, i) == Plus32(Word(key, i - 8), t) && Word(key, i + 1) == Plus32(Word(key, i - 7), Word(key, i))
    ensures Word(key, i + 2) == Plus32(Word(key, i - 6), Word(key, i + 1))
    ensures Word(key, i + 3) == Plus32(Word(key, i - 5), Word(key, i + 2))
  {
    hide Word, Plus32, Temp;
    FirstWord(key, i);
    PlainWord(key, i + 1);
    PlainWord(key, i + 2);
    PlainWord(key, i + 3);
  }

  lemma SubWordOf(w: bv32, a: bv8, b: bv8, c: bv8, d: bv8)
    requires w == Join(a, b, c, d)
    ensures SubWord(w) == Join(SubByte(a), SubByte(b), SubByte(c), SubByte(d))
  {
    hide SubByte;
  }

  lemma Subs8()
    ensures SubByte(0x14) == 0xfa && SubByte(0xdf) == 0x9e && SubByte(0xf4) == 0xbf && SubByte(0x09) == 0x01
  {
    hide SubByte;
    RowIs(0x14);
    RowIs(0xdf);
    RowIs(0xf4);
    RowIs(0x09);
  }

  lemma Temp8()
    ensures Temp(0x0914dff4, 8) == 0xfb9ebf01
  {
    hide SubByte, SubWord;
    Subs8();
    assert RotWord(0x0914dff4) == 0x14dff409;
    SubWordOf(0x14dff409, 0x14, 0xdf, 0xf4, 0x09);
  }

  lemma Subs12()
    ensures SubByte(0x20) == 0xb7 && SubByte(0x67) == 0x85 && SubByte(0xfc) == 0xb0 && SubByte(0xde) == 0x1d
  {
    hide SubByte;
    RowIs(0x20);
    RowIs(0x67);
    RowIs(0xfc);
    RowIs(0xde);
  }

  lemma Temp12()
    ensures Temp(0x2067fcde, 12) == 0xb785b01d
  {
    hide SubByte, SubWord;
    Subs12();
    SubWordOf(0x2067fcde, 0x20, 0x67, 0xfc, 0xde);
  }

  lemma Subs16()
    ensures SubByte(0x5d) == 0x4c && SubByte(0x5b) == 0x39 && SubByte(0x9a) == 0xb8 && SubByte(0xb7) == 0xa9
  {
    hide SubByte;
    RowIs(0x5d);
    RowIs(0x5b);
    RowIs(0x9a);
    RowIs(0xb7);
  }

  lemma Temp16()
    ensures Temp(0xb75d5b9a, 16) == 0x4e39b8a9
  {
    hide SubByte, SubWord;
    Subs16();
    assert RotWord(0xb75d5b9a) == 0x5d5b9ab7;
    SubWordOf(0x5d5b9ab7, 0x5d, 0x5b, 0x9a, 0xb7);
  }

  lemma Subs20()
    ensures SubByte(0xde) == 0x1d && SubByte(0x8e) == 0x19 && SubByte(0xbe) == 0xae && SubByte(0x96) == 0x90
  {
    hide SubByte;
    RowIs(0xde);
    RowIs(0x8e);
    RowIs(0xbe);
    RowIs(0x96);
  }

  lemma Temp20()
    ensures Temp(0xde8ebe96, 20) == 0x1d19ae90
  {
    hide SubByte, SubWord;
    Subs20();
    SubWordOf(0xde8ebe96, 0xde, 0x8e, 0xbe, 0x96);
  }

  lemma Words8(key: Bytes)
    requires |key| == KEY_BYTES && key == KEY
    ensures Holds(key, 8, [0x9ba35411, 0x8e6925af, 0xa51a8b5f, 0x2067fcde])
  {
    hide Word, Temp, Holds;
    KeyWords(key);
    HoldsFour(key, 0, 0x603deb10, 0x15ca71be, 0x2b73aef0, 0x857d7781);
    HoldsFour(key, 4, 0x1f352c07, 0x3b6108d7, 0x2d9810a3, 0x0914dff4);
    Temp8();
    Quarter(key, 8, 0xfb9ebf01);
    HoldsFour(key, 8, 0x9ba35411, 0x8e6925af, 0xa51a8b5f, 0x2067fcde);
  }

  lemma Words12(key: Bytes)
    requires |key| == KEY_BYTES && key == KEY
    ensures Holds(key, 12, [0xa8b09c1a, 0x93d194cd, 0xbe49846e, 0xb75d5b9a])
  {
    hide Word, Temp, Holds;
    KeyWords(key);
    Words8(key);
    HoldsFour(key, 4, 0x1f352c07, 0x3b6108d7, 0x2d9810a3, 0x0914dff4);
    HoldsFour(key, 8, 0x9ba35411, 0x8e6925af, 0xa51a8b5f, 0x2067fcde);
    Temp12();
    Quarter(key, 12, 0xb785b01d);
    HoldsFour(key, 12, 0xa8b09c1a, 0x93d194cd, 0xbe49846e, 0xb75d5b9a);
  }

  lemma Words16(key: Bytes)
    requires |key| == KEY_BYTES && key == KEY
    ensures Holds(key, 16, [0xd59aecb8, 0x5bf3c917, 0xfee94248, 0xde8ebe96])
  {
    hide Word, Temp, Holds;
    Words8(key);
    Words12(key);
    HoldsFour(key, 8, 0x9ba35411, 0x8e6925af, 0xa51a8b5f, 0x2067fcde);
    HoldsFour(key, 12, 0xa8b09c1a, 0x93d194cd, 0xbe49846e, 0xb75d5b9a);
    Temp16();
    Quarter(key, 16, 0x4e39b8a9);
    HoldsFour(key, 16, 0xd59aecb8, 0x5bf3c917, 0xfee94248, 0xde8ebe96);
  }

  lemma Words20(key: Bytes)
    requires |key| == KEY_BYTES && key == KEY
    ensures Holds(key, 20, [0xb5a9328a, 0x2678a647, 0x98312229, 0x2f6c79b3])
  {
    hide Word, Temp, Holds;
    Words12(key);
    Words16(key);
    HoldsFour(key, 12, 0xa8b09c1a, 0x93d194cd, 0xbe49846e, 0xb75d5b9a);
    HoldsFour(key, 16, 0xd59aecb8, 0x5bf3c917, 0xfee94248, 0xde8ebe96);
    Temp20();
    Quarter(key, 20, 0x1d19ae90);
    HoldsFour(key, 20, 0xb5a9328a, 0x2678a647, 0x98312229, 0x2f6c79b3);
  }

  /** Words 8 to 23: both substitutions, under the first two round constants. */
  lemma AppendixA3(key: Bytes)
    requires |key| == KEY_BYTES && key == KEY
    ensures Holds(key, 8, [0x9ba35411, 0x8e6925af, 0xa51a8b5f, 0x2067fcde])
    ensures Holds(key, 12, [0xa8b09c1a, 0x93d194cd, 0xbe49846e, 0xb75d5b9a])
    ensures Holds(key, 16, [0xd59aecb8, 0x5bf3c917, 0xfee94248, 0xde8ebe96])
    ensures Holds(key, 20, [0xb5a9328a, 0x2678a647, 0x98312229, 0x2f6c79b3])
  {
    hide Holds;
    Words8(key);
    Words12(key);
    Words16(key);
    Words20(key);
  }
}
