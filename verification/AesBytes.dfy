/** The forward cipher byte by byte, as FIPS 197 sections 5.1.1 to 5.1.4 write it down. */
module AesBytes {
  import opened ByteStrings
  import opened AesTables
  import opened AesField
  import opened Aes

  lemma KeyByteOf(keys: seq<bv32>, n: nat, c: nat, r: nat)
    requires |keys| >= 4 * (n + 1) && c < 4 && r < 4
    ensures RoundKey(keys, n)[4*c + r] == WordBytes(keys[4*n + c])[r]
  {
    hide WordBytes;
    assert (4*c + r) / 4 == c && (4*c + r) % 4 == r;
  }

  /** Before the first round: the block plus the first four key words. */
  lemma FirstByBytes(keys: seq<bv32>, block: Bytes, c: nat, r: nat)
    requires |keys| >= 4 && |block| == BLOCK && c < 4 && r < 4
    ensures MainRounds(keys, block, 0)[4*c + r] == block[4*c + r] ^ WordBytes(keys[c])[r]
  {
    hide WordBytes, RoundKey;
    KeyByteOf(keys, 0, c, r);
  }

  /** The byte that substitution and row shift bring to row r of column c. */
  function Shifted(s: Bytes, c: nat, r: nat): bv8
    requires |s| == BLOCK && c < 4 && r < 4
  {
    SubByte(s[4 * ((c + r) % 4) + r])
  }

  lemma ShiftedAt(s: Bytes, c: nat, r: nat)
    requires |s| == BLOCK && c < 4 && r < 4
    ensures ShiftRows(SubBytes(s))[4*c + r] == Shifted(s, c, r)
  {
    hide SubByte, ShiftRows;
    ShiftRowsRule(SubBytes(s), r, c);
  }

  lemma ShiftedColumn(s: Bytes, c: nat)
    requires |s| == BLOCK && c < 4
    ensures ColumnAt(ShiftRows(SubBytes(s)), c)
         == Column(Shifted(s, c, 0), Shifted(s, c, 1), Shifted(s, c, 2), Shifted(s, c, 3))
  {
    hide SubBytes, ShiftRows, Shifted;
    ShiftedAt(s, c, 0);
    ShiftedAt(s, c, 1);
    ShiftedAt(s, c, 2);
    ShiftedAt(s, c, 3);
  }

  lemma AddedColumn(s: Bytes, keys: seq<bv32>, n: nat, c: nat, r: nat)
    requires |s| == BLOCK && |keys| >= 4 * (n + 1) && c < 4 && r < 4
    ensures AddRoundKey(s, RoundKey(keys, n))[4*c + r] == Plus(s[4*c + r], WordBytes(keys[4*n + c])[r])
  {
    hide WordBytes, RoundKey, Plus;
    KeyByteOf(keys, n, c, r);
  }

  /** Column c of a mixed state, plus the key. */
  lemma MixedAndAdded(u: Bytes, keys: seq<bv32>, n: nat, c: nat)
    requires |u| == BLOCK && |keys| >= 4 * (n + 1) && c < 4
    ensures var m, k := Mix(ColumnAt(u, c)), WordBytes(keys[4*n + c]);
            ColumnAt(AddRoundKey(MixColumns(u), RoundKey(keys, n)), c)
            == Column(Plus(m.a, k[0]), Plus(m.b, k[1]), Plus(m.c, k[2]), Plus(m.d, k[3]))
  {
    hide MixColumns, AddRoundKey, RoundKey, WordBytes, Plus, Mix;
    var v := MixColumns(u);
    MixedColumn(u, c);
    AddedColumn(v, keys, n, c, 0);
    AddedColumn(v, keys, n, c, 1);
    AddedColumn(v, keys, n, c, 2);
    AddedColumn(v, keys, n, c, 3);
  }

  /** A column of the shifted state mixed, plus a key word: each byte is twice one byte, three times the next, and the
      other two, plus its key byte. */
  function RoundColumn(x: Column, k: Bytes): Column
    requires |k| == 4
  {
    Column(Sum(Xtime(x.a), Thrice(x.b), x.c, x.d, k[0]),
           Sum(x.a, Xtime(x.b), Thrice(x.c), x.d, k[1]),
           Sum(x.a, x.b, Xtime(x.c), Thrice(x.d), k[2]),
           Sum(Thrice(x.a), x.b, x.c, Xtime(x.d), k[3]))
  }

  function Thrice(x: bv8): bv8 {
    Plus(Xtime(x), x)
  }

  function Sum(p: bv8, q: bv8, r: bv8, s: bv8, t: bv8): bv8 {
    Plus(Plus(Plus(Plus(p, q), r), s), t)
  }

  lemma RoundColumnIs(x: Column, k: Bytes)
    requires |k| == 4
    ensures RoundColumn(x, k)
         == Column(Plus(Mix(x).a, k[0]), Plus(Mix(x).b, k[1]), Plus(Mix(x).c, k[2]), Plus(Mix(x).d, k[3]))
  {
    hide Xtime, Plus;
  }

  /** Column c after round n. */
  lemma RoundByBytes(keys: seq<bv32>, block: Bytes, n: nat, c: nat)
    requires |keys| >= 4 * (n + 1) && |block| == BLOCK && n >= 1 && c < 4
    ensures var s := MainRounds(keys, block, n - 1);
            ColumnAt(MainRounds(keys, block, n), c)
            == RoundColumn(Column(Shifted(s, c, 0), Shifted(s, c, 1), Shifted(s, c, 2), Shifted(s, c, 3)),
                           WordBytes(keys[4*n + c]))
  {
    hide SubBytes, ShiftRows, MixColumns, AddRoundKey, RoundKey, WordBytes, Shifted, ColumnAt, RoundColumn, Mix, Plus;
    var s := MainRounds(keys, block, n - 1);
    var u := ShiftRows(SubBytes(s));
    ShiftedColumn(s, c);
    MixedAndAdded(u, keys, n, c);
    RoundColumnIs(ColumnAt(u, c), WordBytes(keys[4*n + c]));
  }

  /** The ciphertext: the last state substituted and shifted, plus the last four key words. */
  lemma LastByBytes(keys: seq<bv32>, rounds: nat, block: Bytes, c: nat, r: nat)
    requires |keys| >= 4 * (rounds + 1) && |block| == BLOCK && rounds >= 1 && c < 4 && r < 4
    ensures Encrypt(keys, rounds, block)[4*c + r] ==
            Shifted(MainRounds(keys, block, rounds - 1), c, r) ^ WordBytes(keys[4*rounds + c])[r]
  {
    hide MainRounds, SubBytes, ShiftRows, AddRoundKey, RoundKey, WordBytes, Shifted;
    var s := MainRounds(keys, block, rounds - 1);
    ShiftedAt(s, c, r);
    AddedColumn(ShiftRows(SubBytes(s)), keys, rounds, c, r);
  }
}
