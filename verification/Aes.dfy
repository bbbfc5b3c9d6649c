/**
 The AES forward cipher (FIPS 197 section 5.1): each round step as the source performs it on the
 16-byte state, and the proof that encryption loses nothing, whatever the round keys are.
 */
module Aes {
  import opened ByteStrings
  import opened AesTables
  import opened AesField

  const BLOCK: nat := 16

  // ---------------------------------------------------------------- round steps

  function SubBytes(s: Bytes): (r: Bytes)
    requires |s| == BLOCK
    ensures |r| == BLOCK
  {
    seq(BLOCK, i requires 0 <= i < BLOCK => SubByte(s[i]))
  }

  /** The state is stored column by column; row k moves left by k. */
  function ShiftRows(s: Bytes): (r: Bytes)
    requires |s| == BLOCK
    ensures |r| == BLOCK
  {
    [s[0], s[5], s[10], s[15], s[4], s[9], s[14], s[3], s[8], s[13], s[2], s[7], s[12], s[1], s[6], s[11]]
  }

  function ColumnAt(s: Bytes, i: nat): Column
    requires |s| == BLOCK && i < 4
  {
    Column(s[i*4], s[i*4 + 1], s[i*4 + 2], s[i*4 + 3])
  }

  function Flat(t: Column): Bytes {
    [t.a, t.b, t.c, t.d]
  }

  function MixColumns(s: Bytes): (r: Bytes)
    requires |s| == BLOCK
    ensures |r| == BLOCK
  {
    Flat(Mix(ColumnAt(s, 0))) + Flat(Mix(ColumnAt(s, 1))) + Flat(Mix(ColumnAt(s, 2))) + Flat(Mix(ColumnAt(s, 3)))
  }

  /** A round-key word as its four bytes, most significant first. */
  function WordBytes(w: bv32): (r: Bytes)
    ensures |r| == 4
  {
    [((w >> 24) & 0xff) as bv8, ((w >> 16) & 0xff) as bv8, ((w >> 8) & 0xff) as bv8, (w & 0xff) as bv8]
  }

  /** The 16 key bytes of a round. */
  function RoundKey(keys: seq<bv32>, round: nat): (r: Bytes)
    requires |keys| >= 4 * (round + 1)
    ensures |r| == BLOCK
  {
    seq(BLOCK, i requires 0 <= i < BLOCK => WordBytes(keys[4*round + i / 4])[i % 4])
  }

  function AddRoundKey(s: Bytes, k: Bytes): (r: Bytes)
    requires |s| == BLOCK && |k| == BLOCK
    ensures |r| == BLOCK
  {
    seq(BLOCK, i requires 0 <= i < BLOCK => Plus(s[i], k[i]))
  }

  // ---------------------------------------------------------------- the cipher

  /** The state after the initial key addition and `n` main rounds. */
  function MainRounds(keys: seq<bv32>, block: Bytes, n: nat): (r: Bytes)
    requires |keys| >= 4 * (n + 1) && |block| == BLOCK
    ensures |r| == BLOCK
  {
    if n == 0 then AddRoundKey(block, RoundKey(keys, 0))
    else AddRoundKey(MixColumns(ShiftRows(SubBytes(MainRounds(keys, block, n - 1)))), RoundKey(keys, n))
  }

  /** How many main rounds there are before the final one. */
  function Mains(rounds: nat): nat {
    if rounds == 0 then 0 else rounds - 1
  }

  function Encrypt(keys: seq<bv32>, rounds: nat, block: Bytes): (r: Bytes)
    requires |keys| >= 4 * (rounds + 1) && |block| == BLOCK
    ensures |r| == BLOCK
  {
    AddRoundKey(ShiftRows(SubBytes(MainRounds(keys, block, Mains(rounds)))), RoundKey(keys, rounds))
  }

  // ---------------------------------------------------------------- inverses

  function InvSubBytes(s: Bytes): (r: Bytes)
    requires |s| == BLOCK
    ensures |r| == BLOCK
  {
    seq(BLOCK, i requires 0 <= i < BLOCK => InvSubByte(s[i]))
  }

  function InvShiftRows(s: Bytes): (r: Bytes)
    requires |s| == BLOCK
    ensures |r| == BLOCK
  {
    [s[0], s[13], s[10], s[7], s[4], s[1], s[14], s[11], s[8], s[5], s[2], s[15], s[12], s[9], s[6], s[3]]
  }

  /** MixColumns has order four, so three more applications undo it. */
  function InvMixColumns(s: Bytes): (r: Bytes)
    requires |s| == BLOCK
    ensures |r| == BLOCK
  {
    MixColumns(MixColumns(MixColumns(s)))
  }

  lemma SubBytesUndone(s: Bytes)
    requires |s| == BLOCK
    ensures InvSubBytes(SubBytes(s)) == s
  {
    hide SubByte, InvSubByte;
    forall i | 0 <= i < BLOCK ensures InvSubBytes(SubBytes(s))[i] == s[i] {
      InvSubUndoes(s[i]);
    }
  }

  lemma AddRoundKeyUndone(s: Bytes, k: Bytes)
    requires |s| == BLOCK && |k| == BLOCK
    ensures AddRoundKey(AddRoundKey(s, k), k) == s
  {
    hide Plus;
    forall i | 0 <= i < BLOCK ensures AddRoundKey(AddRoundKey(s, k), k)[i] == s[i] {
      PlusTwice(s[i], k[i]);
    }
  }

  lemma ShiftRowsUndone(s: Bytes)
    requires |s| == BLOCK
    ensures InvShiftRows(ShiftRows(s)) == s
  {
  }

  /** FIPS 197 section 5.1.2: the byte in row `row` and column `col` comes from column (col + row) mod 4. */
  lemma ShiftRowsRule(s: Bytes, row: nat, col: nat)
    requires |s| == BLOCK && row < 4 && col < 4
    ensures ShiftRows(s)[row + 4 * col] == s[row + 4 * ((col + row) % 4)]
  {
  }

  lemma MixedColumn(s: Bytes, i: nat)
    requires |s| == BLOCK && i < 4
    ensures ColumnAt(MixColumns(s), i) == Mix(ColumnAt(s, i))
  {
    hide Mix;
    FlatBack(Mix(ColumnAt(s, 0)), Mix(ColumnAt(s, 1)), Mix(ColumnAt(s, 2)), Mix(ColumnAt(s, 3)));
  }

  lemma FlatBack(p: Column, q: Column, r: Column, t: Column)
    ensures var s := Flat(p) + Flat(q) + Flat(r) + Flat(t);
            ColumnAt(s, 0) == p && ColumnAt(s, 1) == q && ColumnAt(s, 2) == r && ColumnAt(s, 3) == t
  {
  }

  lemma MixColumnsUndone(s: Bytes)
    requires |s| == BLOCK
    ensures InvMixColumns(MixColumns(s)) == s
  {
    hide Mix, MixColumns;
    var s1 := MixColumns(s);
    var s2 := MixColumns(s1);
    var s3 := MixColumns(s2);
    var s4 := MixColumns(s3);
    forall i | 0 <= i < 4 ensures ColumnAt(s4, i) == ColumnAt(s, i) {
      MixedColumn(s, i);
      MixedColumn(s1, i);
      MixedColumn(s2, i);
      MixedColumn(s3, i);
      MixOrderFour(ColumnAt(s, i));
    }
    SameColumns(s4, s);
  }

  lemma SameColumns(s: Bytes, t: Bytes)
    requires |s| == BLOCK && |t| == BLOCK
    requires forall i :: 0 <= i < 4 ==> ColumnAt(s, i) == ColumnAt(t, i)
    ensures s == t
  {
    assert ColumnAt(s, 0) == ColumnAt(t, 0) && ColumnAt(s, 1) == ColumnAt(t, 1);
    assert ColumnAt(s, 2) == ColumnAt(t, 2) && ColumnAt(s, 3) == ColumnAt(t, 3);
  }

  // ---------------------------------------------------------------- encryption loses nothing

  /** Undoes the main rounds, last one first. */
  function UndoMain(keys: seq<bv32>, s: Bytes, n: nat): (r: Bytes)
    requires |keys| >= 4 * (n + 1) && |s| == BLOCK
    ensures |r| == BLOCK
    decreases n
  {
    if n == 0 then AddRoundKey(s, RoundKey(keys, 0))
    else UndoMain(keys, InvSubBytes(InvShiftRows(InvMixColumns(AddRoundKey(s, RoundKey(keys, n))))), n - 1)
  }

  /** The inverse cipher of FIPS 197 section 5.3, which is not what `aes_decrypt_block` computes. */
  function Decrypt(keys: seq<bv32>, rounds: nat, s: Bytes): (r: Bytes)
    requires |keys| >= 4 * (rounds + 1) && |s| == BLOCK
    ensures |r| == BLOCK
  {
    UndoMain(keys, InvSubBytes(InvShiftRows(AddRoundKey(s, RoundKey(keys, rounds)))), Mains(rounds))
  }

  lemma {:induction false} MainRoundsUndone(keys: seq<bv32>, block: Bytes, n: nat)
    requires |keys| >= 4 * (n + 1) && |block| == BLOCK
    ensures UndoMain(keys, MainRounds(keys, block, n), n) == block
  {
    hide SubBytes, ShiftRows, MixColumns, InvSubBytes, InvShiftRows, InvMixColumns, RoundKey, AddRoundKey;
    if n == 0 {
      AddRoundKeyUndone(block, RoundKey(keys, 0));
    } else {
      var s := MainRounds(keys, block, n - 1);
      AddRoundKeyUndone(MixColumns(ShiftRows(SubBytes(s))), RoundKey(keys, n));
      MixColumnsUndone(ShiftRows(SubBytes(s)));
      ShiftRowsUndone(SubBytes(s));
      SubBytesUndone(s);
      MainRoundsUndone(keys, block, n - 1);
    }
  }

  /** Every block can be recovered from its ciphertext, for every round-key schedule and round count. */
  lemma EncryptUndone(keys: seq<bv32>, rounds: nat, block: Bytes)
    requires |keys| >= 4 * (rounds + 1) && |block| == BLOCK
    ensures Decrypt(keys, rounds, Encrypt(keys, rounds, block)) == block
  {
    hide SubBytes, ShiftRows, InvSubBytes, InvShiftRows, RoundKey, AddRoundKey, MainRounds, UndoMain;
    var s := MainRounds(keys, block, Mains(rounds));
    AddRoundKeyUndone(ShiftRows(SubBytes(s)), RoundKey(keys, rounds));
    ShiftRowsUndone(SubBytes(s));
    SubBytesUndone(s);
    MainRoundsUndone(keys, block, Mains(rounds));
  }

  /** Two different blocks never encrypt to the same ciphertext. */
  lemma EncryptInjective(keys: seq<bv32>, rounds: nat, p: Bytes, q: Bytes)
    requires |keys| >= 4 * (rounds + 1) && |p| == BLOCK && |q| == BLOCK
    ensures Encrypt(keys, rounds, p) == Encrypt(keys, rounds, q) ==> p == q
  {
    hide Encrypt, Decrypt;
    EncryptUndone(keys, rounds, p);
    EncryptUndone(keys, rounds, q);
  }
}
