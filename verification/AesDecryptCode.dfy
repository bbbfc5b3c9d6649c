/** The decryption code as the source runs it, in place on a 16-byte state. */
module AesDecryptCode {
  import opened ByteStrings
  import opened AesTables
  import opened AesField
  import opened AesColumns
  import opened Aes
  import opened AesCode
  import opened AesDecrypt

  method InvSubBytesInPlace(state: array<bv8>)
    requires state.Length == BLOCK
    modifies state
    ensures state[..] == InvSubBytes(old(state[..]))
  {
    hide InvSubByte;
    var i := 0;
    while i < 16
      invariant i <= 16
      invariant forall j :: 0 <= j < i ==> state[j] == InvSubByte(old(state[j]))
      invariant forall j :: i <= j < 16 ==> state[j] == old(state[j])
    {
      state[i] := InvSubByte(state[i]);
      i := i + 1;
    }
  }

  /** Row 1: right by 1. */
  method UnshiftRow1(state: array<bv8>)
    requires state.Length == BLOCK
    modifies state
    ensures state[13] == old(state[9]) && state[9] == old(state[5]) && state[5] == old(state[1])
    ensures state[1] == old(state[13])
    ensures forall j :: 0 <= j < BLOCK && j % 4 != 1 ==> state[j] == old(state[j])
  {
    var temp := state[13];
    state[13] := state[9];
    state[9] := state[5];
    state[5] := state[1];
    state[1] := temp;
  }

  /** Row 3: right by 3. */
  method UnshiftRow3(state: array<bv8>)
    requires state.Length == BLOCK
    modifies state
    ensures state[3] == old(state[7]) && state[7] == old(state[11]) && state[11] == old(state[15])
    ensures state[15] == old(state[3])
    ensures forall j :: 0 <= j < BLOCK && j % 4 != 3 ==> state[j] == old(state[j])
  {
    var temp := state[3];
    state[3] := state[7];
    state[7] := state[11];
    state[11] := state[15];
    state[15] := temp;
  }

  /** Row 2 moves by two either way, so it is the same exchange as in encryption. */
  method InvShiftRowsInPlace(state: array<bv8>)
    requires state.Length == BLOCK
    modifies state
    ensures state[..] == InvShiftRows(old(state[..]))
  {
    UnshiftRow1(state);
    ShiftRow2(state);
    UnshiftRow3(state);
  }

  method InvMixColumnInPlace(state: array<bv8>, i: nat)
    requires state.Length == BLOCK && i < 4
    modifies state
    ensures ColumnAt(state[..], i) == CodeInv(ColumnAt(old(state[..]), i))
    ensures forall j :: 0 <= j < 4 && j != i ==> ColumnAt(state[..], j) == ColumnAt(old(state[..]), j)
  {
    hide CodeSum, CodeByte, MacroXtime;
    var temp := Column(state[i*4], state[i*4 + 1], state[i*4 + 2], state[i*4 + 3]);
    var x2, even, odd := CodeSum(temp), MacroXtime(temp.a, temp.c), MacroXtime(temp.b, temp.d);
    state[i*4] := CodeByte(temp.a, x2, even);
    state[i*4 + 1] := CodeByte(temp.b, x2, odd);
    state[i*4 + 2] := CodeByte(temp.c, x2, even);
    state[i*4 + 3] := CodeByte(temp.d, x2, odd);
  }

  method InvMixColumnsInPlace(state: array<bv8>)
    requires state.Length == BLOCK
    modifies state
    ensures state[..] == CodeInvColumns(old(state[..]))
  {
    hide CodeInv, ColumnAt, CodeInvColumns;
    ghost var s := state[..];
    var i := 0;
    while i < 4
      invariant i <= 4
      invariant forall j :: 0 <= j < i ==> ColumnAt(state[..], j) == CodeInv(ColumnAt(s, j))
      invariant forall j :: i <= j < 4 ==> ColumnAt(state[..], j) == ColumnAt(s, j)
    {
      InvMixColumnInPlace(state, i);
      i := i + 1;
    }
    forall j | 0 <= j < 4 ensures ColumnAt(state[..], j) == ColumnAt(CodeInvColumns(s), j) {
      CodeColumn(s, j);
    }
    SameColumns(state[..], CodeInvColumns(s));
  }

  /** `aes_decrypt_block`; input and output may be the same buffer. */
  method DecryptBlock(keys: seq<bv32>, rounds: nat, ciphertext: array<bv8>, plaintext: array<bv8>)
    requires rounds >= 1 && |keys| >= 4 * (rounds + 1) && plaintext.Length == BLOCK && ciphertext.Length == BLOCK
    modifies plaintext
    ensures plaintext[..] == CodeDecrypt(keys, rounds, old(ciphertext[..]))
  {
    hide InvSubBytes, InvShiftRows, CodeInvColumns, AddRoundKey, RoundKey;
    ghost var block := ciphertext[..];
    var state := new bv8[BLOCK](i requires 0 <= i < BLOCK reads ciphertext => ciphertext[i]);
    assert state[..] == block;
    AddRoundKeyInPlace(state, keys, rounds);
    ghost var entry := Unshift(state[..]);
    var round := rounds - 1;
    while round > 0
      invariant 0 <= round < rounds
      invariant Unshift(state[..]) == CodeRounds(keys, entry, rounds - 1, round)
    {
      InvShiftRowsInPlace(state);
      InvSubBytesInPlace(state);
      AddRoundKeyInPlace(state, keys, round);
      InvMixColumnsInPlace(state);
      RoundsSplit(keys, entry, rounds - 1, round, round - 1);
      round := round - 1;
    }
    InvShiftRowsInPlace(state);
    InvSubBytesInPlace(state);
    AddRoundKeyInPlace(state, keys, 0);
    forall i | 0 <= i < BLOCK {
      plaintext[i] := state[i];
    }
    assert plaintext[..] == state[..];
  }
}
