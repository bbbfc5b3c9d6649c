/** The forward cipher as the source runs it: in place on a 16-byte state, round by round. */
module AesCode {
  import opened ByteStrings
  import opened AesTables
  import opened AesField
  import opened Aes

  method SubBytesInPlace(state: array<bv8>)
    requires state.Length == BLOCK
    modifies state
    ensures state[..] == SubBytes(old(state[..]))
  {
    hide SubByte;
    var i := 0;
    while i < 16
      invariant i <= 16
      invariant forall j :: 0 <= j < i ==> state[j] == SubByte(old(state[j]))
      invariant forall j :: i <= j < 16 ==> state[j] == old(state[j])
    {
      state[i] := SubByte(state[i]);
      i := i + 1;
    }
  }

  /** Row 1: left by 1. */
  method ShiftRow1(state: array<bv8>)
    requires state.Length == BLOCK
    modifies state
    ensures state[1] == old(state[5]) && state[5] == old(state[9]) && state[9] == old(state[13])
    ensures state[13] == old(state[1])
    ensures forall j :: 0 <= j < BLOCK && j % 4 != 1 ==> state[j] == old(state[j])
  {
    var temp := state[1];
    state[1] := state[5];
    state[5] := state[9];
    state[9] := state[13];
    state[13] := temp;
  }

  /** Row 2: left by 2. */
  method ShiftRow2(state: array<bv8>)
    requires state.Length == BLOCK
    modifies state
    ensures state[2] == old(state[10]) && state[10] == old(state[2]) && state[6] == old(state[14])
    ensures state[14] == old(state[6])
    ensures forall j :: 0 <= j < BLOCK && j % 4 != 2 ==> state[j] == old(state[j])
  {
    var temp := state[2];
    state[2] := state[10];
    state[10] := temp;
    temp := state[6];
    state[6] := state[14];
    state[14] := temp;
  }

  /** Row 3: left by 3. */
  method ShiftRow3(state: array<bv8>)
    requires state.Length == BLOCK
    modifies state
    ensures state[15] == old(state[11]) && state[11] == old(state[7]) && state[7] == old(state[3])
    ensures state[3] == old(state[15])
    ensures forall j :: 0 <= j < BLOCK && j % 4 != 3 ==> state[j] == old(state[j])
  {
    var temp := state[15];
    state[15] := state[11];
    state[11] := state[7];
    state[7] := state[3];
    state[3] := temp;
  }

  method ShiftRowsInPlace(state: array<bv8>)
    requires state.Length == BLOCK
    modifies state
    ensures state[..] == ShiftRows(old(state[..]))
  {
    ShiftRow1(state);
    ShiftRow2(state);
    ShiftRow3(state);
  }

  method MixColumnInPlace(state: array<bv8>, i: nat)
    requires state.Length == BLOCK && i < 4
    modifies state
    ensures ColumnAt(state[..], i) == Mix(ColumnAt(old(state[..]), i))
    ensures forall j :: 0 <= j < 4 && j != i ==> ColumnAt(state[..], j) == ColumnAt(old(state[..]), j)
  {
    hide Mix;
    var mixed := Mix(Column(state[i*4], state[i*4 + 1], state[i*4 + 2], state[i*4 + 3]));
    state[i*4] := mixed.a;
    state[i*4 + 1] := mixed.b;
    state[i*4 + 2] := mixed.c;
    state[i*4 + 3] := mixed.d;
  }

  method MixColumnsInPlace(state: array<bv8>)
    requires state.Length == BLOCK
    modifies state
    ensures state[..] == MixColumns(old(state[..]))
  {
    hide Mix, ColumnAt, MixColumns;
    ghost var s := state[..];
    var i := 0;
    while i < 4
      invariant i <= 4
      invariant forall j :: 0 <= j < i ==> ColumnAt(state[..], j) == Mix(ColumnAt(s, j))
      invariant forall j :: i <= j < 4 ==> ColumnAt(state[..], j) == ColumnAt(s, j)
    {
      MixColumnInPlace(state, i);
      i := i + 1;
    }
    forall j | 0 <= j < 4 ensures ColumnAt(state[..], j) == ColumnAt(MixColumns(s), j) {
      MixedColumn(s, j);
    }
    SameColumns(state[..], MixColumns(s));
  }

  method AddWordInPlace(state: array<bv8>, i: nat, w: Bytes)
    requires state.Length == BLOCK && i < 4 && |w| == 4
    modifies state
    ensures state[i*4] == Plus(old(state[i*4]), w[0]) && state[i*4 + 1] == Plus(old(state[i*4 + 1]), w[1])
    ensures state[i*4 + 2] == Plus(old(state[i*4 + 2]), w[2]) && state[i*4 + 3] == Plus(old(state[i*4 + 3]), w[3])
    ensures forall j :: (0 <= j < i*4 || i*4 + 4 <= j < BLOCK) ==> state[j] == old(state[j])
  {
    hide Plus;
    state[i*4] := Plus(state[i*4], w[0]);
    state[i*4 + 1] := Plus(state[i*4 + 1], w[1]);
    state[i*4 + 2] := Plus(state[i*4 + 2], w[2]);
    state[i*4 + 3] := Plus(state[i*4 + 3], w[3]);
  }

  /** Word i of a round key. */
  lemma KeyWord(keys: seq<bv32>, round: nat, i: nat)
    requires |keys| >= 4 * (round + 1) && i < 4
    ensures var key, w := RoundKey(keys, round), WordBytes(keys[4*round + i]);
            key[i*4] == w[0] && key[i*4 + 1] == w[1] && key[i*4 + 2] == w[2] && key[i*4 + 3] == w[3]
  {
    hide WordBytes;
  }

  method AddRoundKeyInPlace(state: array<bv8>, keys: seq<bv32>, round: nat)
    requires state.Length == BLOCK && |keys| >= 4 * (round + 1)
    modifies state
    ensures state[..] == AddRoundKey(old(state[..]), RoundKey(keys, round))
  {
    hide WordBytes, Plus, RoundKey;
    ghost var key := RoundKey(keys, round);
    var i := 0;
    while i < 4
      invariant i <= 4
      invariant forall j :: 0 <= j < 4 * i ==> state[j] == Plus(old(state[j]), key[j])
      invariant forall j :: 4 * i <= j < 16 ==> state[j] == old(state[j])
    {
      var w := WordBytes(keys[4*round + i]);
      KeyWord(keys, round, i);
      AddWordInPlace(state, i, w);
      i := i + 1;
    }
  }

  /** `aes_encrypt_block`; input and output may be the same buffer. */
  method EncryptBlock(keys: seq<bv32>, rounds: nat, plaintext: array<bv8>, ciphertext: array<bv8>)
    requires |keys| >= 4 * (rounds + 1) && plaintext.Length == BLOCK && ciphertext.Length == BLOCK
    modifies ciphertext
    ensures ciphertext[..] == Encrypt(keys, rounds, old(plaintext[..]))
  {
    hide SubBytes, ShiftRows, MixColumns, AddRoundKey, RoundKey;
    ghost var block := plaintext[..];
    var state := new bv8[BLOCK](i requires 0 <= i < BLOCK reads plaintext => plaintext[i]);
    assert state[..] == block;
    AddRoundKeyInPlace(state, keys, 0);
    var round := 1;
    while round < rounds
      invariant 1 <= round && (round <= rounds || round == 1)
      invariant state[..] == MainRounds(keys, block, round - 1)
    {
      SubBytesInPlace(state);
      ShiftRowsInPlace(state);
      MixColumnsInPlace(state);
      AddRoundKeyInPlace(state, keys, round);
      round := round + 1;
    }
    SubBytesInPlace(state);
    ShiftRowsInPlace(state);
    AddRoundKeyInPlace(state, keys, rounds);
    forall i | 0 <= i < BLOCK {
      ciphertext[i] := state[i];
    }
    assert ciphertext[..] == state[..];
  }
}
