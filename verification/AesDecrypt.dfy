/** The decryption code: on which blocks it undoes encryption. */
module AesDecrypt {
  import opened ByteStrings
  import opened AesTables
  import opened AesField
  import opened AesInverse
  import opened AesColumns
  import opened Aes

  /** The inverse used for encryption is the InvMixColumns of FIPS 197 section 5.3.3, column by column. */
  lemma InvMixedColumn(s: Bytes, i: nat)
    requires |s| == BLOCK && i < 4
    ensures ColumnAt(InvMixColumns(s), i) == InvMix(ColumnAt(s, i))
  {
    hide Mix, MixColumns, InvMix, ColumnAt;
    MixedColumn(s, i);
    MixedColumn(MixColumns(s), i);
    MixedColumn(MixColumns(MixColumns(s)), i);
    ThreeMixesInvert(ColumnAt(s, i));
  }

  // ---------------------------------------------------------------- what the code computes

  /** `aes_inv_mix_columns`. */
  function CodeInvColumns(s: Bytes): (r: Bytes)
    requires |s| == BLOCK
    ensures |r| == BLOCK
  {
    Flat(CodeInv(ColumnAt(s, 0))) + Flat(CodeInv(ColumnAt(s, 1))) + Flat(CodeInv(ColumnAt(s, 2))) +
        Flat(CodeInv(ColumnAt(s, 3)))
  }

  /** InvShiftRows and InvSubBytes, which every round starts with. */
  function Unshift(s: Bytes): (r: Bytes)
    requires |s| == BLOCK
    ensures |r| == BLOCK
  {
    InvSubBytes(InvShiftRows(s))
  }

  /** One main round of decryption, up to where the next one adds its key. */
  function OneBack(keys: seq<bv32>, s: Bytes, i: nat): (r: Bytes)
    requires |keys| >= 4 * (i + 1) && |s| == BLOCK
    ensures |r| == BLOCK
  {
    Unshift(CodeInvColumns(AddRoundKey(s, RoundKey(keys, i))))
  }

  /** The state after the rounds from `from` down to `to + 1`, each ready for the next. */
  function CodeRounds(keys: seq<bv32>, s: Bytes, from: nat, to: nat): (r: Bytes)
    requires |keys| >= 4 * (from + 1) && |s| == BLOCK && to <= from
    ensures |r| == BLOCK
    decreases from - to
  {
    if from == to then s
    else CodeRounds(keys, OneBack(keys, s, from), from - 1, to)
  }

  /** `aes_decrypt_block`. */
  function CodeDecrypt(keys: seq<bv32>, rounds: nat, s: Bytes): (r: Bytes)
    requires |keys| >= 4 * (rounds + 1) && |s| == BLOCK
    ensures |r| == BLOCK
  {
    AddRoundKey(CodeRounds(keys, Unshift(AddRoundKey(s, RoundKey(keys, rounds))), Mains(rounds), 0), RoundKey(keys, 0))
  }

  // ---------------------------------------------------------------- when it gives the block back

  lemma CodeColumn(s: Bytes, i: nat)
    requires |s| == BLOCK && i < 4
    ensures ColumnAt(CodeInvColumns(s), i) == CodeInv(ColumnAt(s, i))
  {
    hide CodeInv;
    FlatBack(CodeInv(ColumnAt(s, 0)), CodeInv(ColumnAt(s, 1)), CodeInv(ColumnAt(s, 2)), CodeInv(ColumnAt(s, 3)));
  }

  /** Each column is the one that belongs to its first byte. */
  predicate AllRestorable(s: Bytes)
    requires |s| == BLOCK
  {
    forall i :: 0 <= i < 4 ==> ColumnAt(s, i) == Restorable(ColumnAt(s, i).a)
  }

  /** The column step gives a mixed state back if and only if all its columns are restorable. */
  lemma ColumnsBackIff(s: Bytes)
    requires |s| == BLOCK
    ensures CodeInvColumns(MixColumns(s)) == s <==> AllRestorable(s)
  {
    hide Mix, CodeInv, MixColumns, CodeInvColumns, ColumnAt, Restorable;
    var r := CodeInvColumns(MixColumns(s));
    forall i | 0 <= i < 4 ensures ColumnAt(r, i) == ColumnAt(s, i) <==> ColumnAt(s, i) == Restorable(ColumnAt(s, i).a) {
      MixedColumn(s, i);
      CodeColumn(MixColumns(s), i);
      RestoredIff(ColumnAt(s, i));
    }
    if AllRestorable(s) {
      SameColumns(r, s);
    }
  }

  /** The state of a block before MixColumns in main round i. */
  function Unmixed(keys: seq<bv32>, block: Bytes, i: nat): (r: Bytes)
    requires 1 <= i && |keys| >= 4 * i && |block| == BLOCK
    ensures |r| == BLOCK
  {
    ShiftRows(SubBytes(MainRounds(keys, block, i - 1)))
  }

  lemma UnshiftUndoes(s: Bytes)
    requires |s| == BLOCK
    ensures Unshift(ShiftRows(SubBytes(s))) == s
  {
    hide SubBytes, ShiftRows, InvSubBytes, InvShiftRows;
    ShiftRowsUndone(SubBytes(s));
    SubBytesUndone(s);
  }

  lemma UnshiftUndone(s: Bytes)
    requires |s| == BLOCK
    ensures ShiftRows(SubBytes(Unshift(s))) == s
  {
    hide SubByte, InvSubByte;
    forall i | 0 <= i < BLOCK ensures SubBytes(Unshift(s))[i] == InvShiftRows(s)[i] {
      SubUndoes(InvShiftRows(s)[i]);
    }
    assert SubBytes(Unshift(s)) == InvShiftRows(s);
  }

  lemma UnshiftInjective(s: Bytes, t: Bytes)
    requires |s| == BLOCK && |t| == BLOCK && Unshift(s) == Unshift(t)
    ensures s == t
  {
    hide Unshift, SubBytes, ShiftRows;
    UnshiftUndone(s);
    UnshiftUndone(t);
  }

  /** One round of decryption on the state that encryption left. */
  lemma OneRound(keys: seq<bv32>, block: Bytes, i: nat)
    requires 1 <= i && |keys| >= 4 * (i + 1) && |block| == BLOCK
    ensures OneBack(keys, MainRounds(keys, block, i), i) == MainRounds(keys, block, i - 1) <==>
      AllRestorable(Unmixed(keys, block, i))
  {
    hide SubBytes, ShiftRows, MixColumns, CodeInvColumns, Unshift, RoundKey, AddRoundKey, AllRestorable;
    var u := Unmixed(keys, block, i);
    AddRoundKeyUndone(MixColumns(u), RoundKey(keys, i));
    ColumnsBackIff(u);
    UnshiftUndoes(MainRounds(keys, block, i - 1));
    if Unshift(CodeInvColumns(MixColumns(u))) == Unshift(u) {
      UnshiftInjective(CodeInvColumns(MixColumns(u)), u);
    }
  }

  /** The rounds `to + 1` to `from` restore all their columns. */
  predicate RoundsRestorable(keys: seq<bv32>, block: Bytes, from: nat, to: nat)
    requires |keys| >= 4 * (from + 1) && |block| == BLOCK
  {
    forall i :: to < i <= from ==> AllRestorable(Unmixed(keys, block, i))
  }

  lemma {:induction false} RoundsBack(keys: seq<bv32>, block: Bytes, from: nat, to: nat)
    requires |keys| >= 4 * (from + 1) && |block| == BLOCK && to <= from && RoundsRestorable(keys, block, from, to)
    ensures CodeRounds(keys, MainRounds(keys, block, from), from, to) == MainRounds(keys, block, to)
    decreases from - to
  {
    hide MainRounds, Unmixed, OneBack, AllRestorable;
    if to < from {
      OneRound(keys, block, from);
      RoundsBack(keys, block, from - 1, to);
    }
  }

  /** The rounds can be followed in two stretches. */
  lemma {:induction false} RoundsSplit(keys: seq<bv32>, s: Bytes, from: nat, mid: nat, to: nat)
    requires |keys| >= 4 * (from + 1) && |s| == BLOCK && to <= mid <= from
    ensures CodeRounds(keys, s, from, to) == CodeRounds(keys, CodeRounds(keys, s, from, mid), mid, to)
    decreases from - mid
  {
    hide OneBack;
    if mid < from {
      RoundsSplit(keys, OneBack(keys, s, from), from - 1, mid, to);
    }
  }

  lemma Entry(keys: seq<bv32>, rounds: nat, block: Bytes)
    requires |keys| >= 4 * (rounds + 1) && |block| == BLOCK
    ensures Unshift(AddRoundKey(Encrypt(keys, rounds, block), RoundKey(keys, rounds)))
         == MainRounds(keys, block, Mains(rounds))
  {
    hide SubBytes, ShiftRows, Unshift, RoundKey, AddRoundKey, MainRounds;
    var s := MainRounds(keys, block, Mains(rounds));
    AddRoundKeyUndone(ShiftRows(SubBytes(s)), RoundKey(keys, rounds));
    UnshiftUndoes(s);
  }

  /** Decryption gives the block back when every main round restores its columns. */
  lemma DecryptsRestorable(keys: seq<bv32>, rounds: nat, block: Bytes)
    requires |keys| >= 4 * (rounds + 1) && |block| == BLOCK && RoundsRestorable(keys, block, Mains(rounds), 0)
    ensures CodeDecrypt(keys, rounds, Encrypt(keys, rounds, block)) == block
  {
    hide Encrypt, CodeRounds, Unshift, RoundKey, AddRoundKey, RoundsRestorable;
    Entry(keys, rounds, block);
    RoundsBack(keys, block, Mains(rounds), 0);
    AddRoundKeyUndone(block, RoundKey(keys, 0));
  }

  lemma CodeColumnsInjective(s: Bytes, t: Bytes)
    requires |s| == BLOCK && |t| == BLOCK && CodeInvColumns(s) == CodeInvColumns(t)
    ensures s == t
  {
    hide CodeInv, CodeInvColumns, ColumnAt;
    forall i | 0 <= i < 4 ensures ColumnAt(s, i) == ColumnAt(t, i) {
      CodeColumn(s, i);
      CodeColumn(t, i);
      CodeInvInjective(ColumnAt(s, i), ColumnAt(t, i));
    }
    SameColumns(s, t);
  }

  lemma OneBackInjective(keys: seq<bv32>, s: Bytes, t: Bytes, i: nat)
    requires |keys| >= 4 * (i + 1) && |s| == BLOCK && |t| == BLOCK && OneBack(keys, s, i) == OneBack(keys, t, i)
    ensures s == t
  {
    hide CodeInvColumns, Unshift, RoundKey, AddRoundKey;
    var k := RoundKey(keys, i);
    UnshiftInjective(CodeInvColumns(AddRoundKey(s, k)), CodeInvColumns(AddRoundKey(t, k)));
    CodeColumnsInjective(AddRoundKey(s, k), AddRoundKey(t, k));
    AddRoundKeyUndone(s, k);
    AddRoundKeyUndone(t, k);
  }

  lemma {:induction false} RoundsInjective(keys: seq<bv32>, s: Bytes, t: Bytes, from: nat, to: nat)
    requires |keys| >= 4 * (from + 1) && |s| == BLOCK && |t| == BLOCK && to <= from
    requires CodeRounds(keys, s, from, to) == CodeRounds(keys, t, from, to)
    ensures s == t
    decreases from - to
  {
    hide OneBack;
    if to < from {
      RoundsInjective(keys, OneBack(keys, s, from), OneBack(keys, t, from), from - 1, to);
      OneBackInjective(keys, s, t, from);
    }
  }

  /** Decryption is injective, for every round-key schedule and round count. */
  lemma DecryptInjective(keys: seq<bv32>, rounds: nat, s: Bytes, t: Bytes)
    requires |keys| >= 4 * (rounds + 1) && |s| == BLOCK && |t| == BLOCK
    ensures CodeDecrypt(keys, rounds, s) == CodeDecrypt(keys, rounds, t) ==> s == t
  {
    hide CodeRounds, Unshift, RoundKey, AddRoundKey;
    if CodeDecrypt(keys, rounds, s) == CodeDecrypt(keys, rounds, t) {
      var k, last, n := RoundKey(keys, 0), RoundKey(keys, rounds), Mains(rounds);
      var a, b := Unshift(AddRoundKey(s, last)), Unshift(AddRoundKey(t, last));
      AddRoundKeyUndone(CodeRounds(keys, a, n, 0), k);
      AddRoundKeyUndone(CodeRounds(keys, b, n, 0), k);
      RoundsInjective(keys, a, b, n, 0);
      UnshiftInjective(AddRoundKey(s, last), AddRoundKey(t, last));
      AddRoundKeyUndone(s, last);
      AddRoundKeyUndone(t, last);
    }
  }

  /** All main rounds but possibly round i restore their columns. */
  predicate OthersRestorable(keys: seq<bv32>, rounds: nat, block: Bytes, i: nat)
    requires |keys| >= 4 * (rounds + 1) && |block| == BLOCK
  {
    forall j :: 0 < j <= Mains(rounds) && j != i ==> AllRestorable(Unmixed(keys, block, j))
  }

  /** What all backward main rounds make of the state that encryption left. */
  function AllBack(keys: seq<bv32>, rounds: nat, block: Bytes): (r: Bytes)
    requires |keys| >= 4 * (rounds + 1) && |block| == BLOCK
    ensures |r| == BLOCK
  {
    CodeRounds(keys, MainRounds(keys, block, Mains(rounds)), Mains(rounds), 0)
  }

  /** The main rounds give the state back exactly when the one round in question does. */
  lemma RoundsBackIff(keys: seq<bv32>, rounds: nat, block: Bytes, i: nat)
    requires |keys| >= 4 * (rounds + 1) && |block| == BLOCK && 1 <= i <= Mains(rounds)
    requires OthersRestorable(keys, rounds, block, i)
    ensures AllBack(keys, rounds, block) == MainRounds(keys, block, 0) <==> AllRestorable(Unmixed(keys, block, i))
  {
    hide MainRounds, OneBack, AllRestorable, Unmixed;
    var n, s := Mains(rounds), MainRounds(keys, block, i - 1);
    var t := OneBack(keys, MainRounds(keys, block, i), i);
    RoundsBack(keys, block, n, i);
    RoundsBack(keys, block, i - 1, 0);
    RoundsSplit(keys, MainRounds(keys, block, n), n, i, 0);
    assert CodeRounds(keys, MainRounds(keys, block, i), i, 0) == CodeRounds(keys, t, i - 1, 0);
    OneRound(keys, block, i);
    if CodeRounds(keys, t, i - 1, 0) == MainRounds(keys, block, 0) {
      RoundsInjective(keys, t, s, i - 1, 0);
    }
  }

  /** When all main rounds but possibly one restore their columns, the block comes back exactly when that
      round does too, whichever it is. */
  lemma DecryptsIff(keys: seq<bv32>, rounds: nat, block: Bytes, i: nat)
    requires |keys| >= 4 * (rounds + 1) && |block| == BLOCK && 1 <= i <= Mains(rounds)
    requires OthersRestorable(keys, rounds, block, i)
    ensures CodeDecrypt(keys, rounds, Encrypt(keys, rounds, block)) == block <==> AllRestorable(Unmixed(keys, block, i))
  {
    hide Encrypt, Unshift, CodeRounds, RoundKey, AddRoundKey, OthersRestorable, AllRestorable, Unmixed;
    var k := RoundKey(keys, 0);
    Entry(keys, rounds, block);
    RoundsBackIff(keys, rounds, block, i);
    AddRoundKeyUndone(block, k);
    AddRoundKeyUndone(AllBack(keys, rounds, block), k);
  }

  // ---------------------------------------------------------------- a block that does not come back

  const TEXT: Bytes := [0x09] + Repeat(0x52, 15)
  const FULL: Bytes := Repeat(0x52, 16)

  /** A schedule under which every state after the first main round is 0x52 throughout, the byte that
      the S-box takes to zero. */
  function Schedule(rounds: nat): (keys: seq<bv32>)
    ensures |keys| == 8 + 4 * rounds
  {
    [0, 0, 0, 0, 0x5053_5351, 0x5252_5252, 0x5252_5252, 0x5252_5252] + seq(4 * rounds, _ => 0x5252_5252)
  }

  lemma KeyWords()
    ensures WordBytes(0) == [0, 0, 0, 0] && WordBytes(0x5053_5351) == [0x50, 0x53, 0x53, 0x51]
    ensures WordBytes(0x5252_5252) == [0x52, 0x52, 0x52, 0x52]
  {
  }

  lemma ScheduleKeys(rounds: nat, i: nat)
    requires i <= rounds + 1
    ensures i == 0 ==> RoundKey(Schedule(rounds), i) == Repeat(0, 16)
    ensures i == 1 ==> RoundKey(Schedule(rounds), i) == [0x50, 0x53, 0x53, 0x51] + Repeat(0x52, 12)
    ensures i >= 2 ==> RoundKey(Schedule(rounds), i) == FULL
  {
    KeyWords();
    hide WordBytes;
  }

  lemma Substituted()
    ensures SubByte(0x09) == 1 && SubByte(0x52) == 0
  {
  }

  const ZEROS: Bytes := Repeat(0, 16)
  const UNIT: Bytes := [1] + Repeat(0, 15)

  lemma ZeroColumn()
    ensures Mix(Column(0, 0, 0, 0)) == Column(0, 0, 0, 0)
  {
  }

  lemma ZeroRestorable()
    ensures Restorable(0) == Column(0, 0, 0, 0)
  {
    hide Select;
    SelectZero(0x73, 0x75, 0x9b, 0x7a, 0xf4, 0xd5, 0xe6, 0xf1);
    SelectZero(0xe9, 0xef, 0xa7, 0xe0, 0x5b, 0x61, 0xf7, 0xa2);
    SelectZero(0x9b, 0x98, 0x38, 0x92, 0xbf, 0x94, 0x51, 0xd3);
  }

  lemma SelectZero(m0: bv8, m1: bv8, m2: bv8, m3: bv8, m4: bv8, m5: bv8, m6: bv8, m7: bv8)
    ensures Select(0, m0, m1, m2, m3, m4, m5, m6, m7) == 0
  {
  }

  lemma ColumnsOf(x: bv8, s: Bytes)
    requires s == [x] + Repeat(0, 15)
    ensures ColumnAt(s, 0) == Column(x, 0, 0, 0) && ColumnAt(s, 1) == Column(0, 0, 0, 0)
    ensures ColumnAt(s, 2) == Column(0, 0, 0, 0) && ColumnAt(s, 3) == Column(0, 0, 0, 0)
  {
  }

  lemma ShiftsAway(x: bv8)
    ensures ShiftRows([x] + Repeat(0, 15)) == [x] + Repeat(0, 15)
  {
  }

  lemma SubbedFull()
    ensures SubBytes(FULL) == ZEROS == [0] + Repeat(0, 15)
  {
    Substituted();
    hide SubByte;
  }

  lemma SubbedText()
    ensures SubBytes(TEXT) == UNIT
  {
    Substituted();
    hide SubByte;
  }

  lemma ZeroState()
    ensures ShiftRows(SubBytes(FULL)) == ZEROS && MixColumns(ZEROS) == ZEROS && AllRestorable(ZEROS)
  {
    hide SubBytes, ShiftRows, Mix, Restorable, ColumnAt;
    SubbedFull();
    ShiftsAway(0);
    ColumnsOf(0, ZEROS);
    ZeroColumn();
    ZeroRestorable();
    assert AllRestorable(ZEROS) by { hide MixColumns; FourColumns(ZEROS); }
  }

  lemma FourColumns(s: Bytes)
    requires |s| == BLOCK
    ensures AllRestorable(s) <==>
      && ColumnAt(s, 0) == Restorable(ColumnAt(s, 0).a) && ColumnAt(s, 1) == Restorable(ColumnAt(s, 1).a)
      && ColumnAt(s, 2) == Restorable(ColumnAt(s, 2).a) && ColumnAt(s, 3) == Restorable(ColumnAt(s, 3).a)
  {
    hide Restorable, ColumnAt;
  }

  lemma FirstState()
    ensures ShiftRows(SubBytes(TEXT)) == UNIT && MixColumns(UNIT) == [2, 1, 1, 3] + Repeat(0, 12)
    ensures !AllRestorable(UNIT)
  {
    hide SubBytes, ShiftRows, Mix, Restorable, ColumnAt, CodeInv, Restored;
    SubbedText();
    ShiftsAway(1);
    ColumnsOf(1, UNIT);
    ZeroColumn();
    UnitNotRestored();
    RestoredIff(Column(1, 0, 0, 0));
    FourColumns(UNIT);
  }

  lemma {:induction false} StatesAre(rounds: nat, i: nat)
    requires i <= rounds + 1
    ensures MainRounds(Schedule(rounds), TEXT, i) == if i == 0 then TEXT else FULL
  {
    hide SubBytes, ShiftRows, MixColumns, RoundKey;
    ScheduleKeys(rounds, i);
    if i == 0 {
      assert AddRoundKey(TEXT, Repeat(0, 16)) == TEXT;
    } else {
      StatesAre(rounds, i - 1);
      FirstState();
      ZeroState();
      assert AddRoundKey([2, 1, 1, 3] + Repeat(0, 12), [0x50, 0x53, 0x53, 0x51] + Repeat(0x52, 12)) == FULL;
      assert AddRoundKey(ZEROS, FULL) == FULL;
    }
  }

  lemma UnmixedAre(rounds: nat, i: nat)
    requires 1 <= i <= rounds + 1
    ensures Unmixed(Schedule(rounds), TEXT, i) == if i == 1 then UNIT else ZEROS
  {
    hide MainRounds, SubBytes, ShiftRows, MixColumns, AllRestorable, Schedule;
    StatesAre(rounds, i - 1);
    FirstState();
    ZeroState();
  }

  /** For every number of rounds from two up, the 14 of AES-256 among them, there are round keys and a
      block that decryption does not give back. */
  lemma DecryptionFails(rounds: nat)
    requires rounds >= 2
    ensures CodeDecrypt(Schedule(rounds), rounds, Encrypt(Schedule(rounds), rounds, TEXT)) != TEXT
  {
    hide Unmixed, AllRestorable, CodeDecrypt, Encrypt, Schedule, MixColumns, ShiftRows, SubBytes;
    FirstState();
    ZeroState();
    UnmixedAre(rounds, 1);
    forall i | 0 < i <= Mains(rounds) && i != 1 ensures AllRestorable(Unmixed(Schedule(rounds), TEXT, i)) {
      UnmixedAre(rounds, i);
    }
    DecryptsIff(Schedule(rounds), rounds, TEXT, 1);
  }
}
