/** The AES cipher, its inverse and its key expansion as FIPS 197 writes them, on states of four columns. */
module Fips197 {
  import opened Buffers
  import opened GaloisField
  import opened SBoxTables
  import opened Words

  datatype State = State(c0: word, c1: word, c2: word, c3: word)

  // ---- transformations of one column

  function SubWord(w: word): word {
    Word(SBox(Byte3(w)), SBox(Byte2(w)), SBox(Byte1(w)), SBox(Byte0(w)))
  }

  function InvSubWord(w: word): word {
    Word(InvSBox(Byte3(w)), InvSBox(Byte2(w)), InvSBox(Byte1(w)), InvSBox(Byte0(w)))
  }

  /** The matrix of section 5.1.3. */
  function MixBytes(a: byte, b: byte, c: byte, d: byte): word {
    Word(Terms(Mul(a, 2), Mul(b, 3), c, d),
         Terms(a, Mul(b, 2), Mul(c, 3), d),
         Terms(a, b, Mul(c, 2), Mul(d, 3)),
         Terms(Mul(a, 3), b, c, Mul(d, 2)))
  }

  function MixColumn(w: word): word {
    MixBytes(Byte3(w), Byte2(w), Byte1(w), Byte0(w))
  }

  /** The matrix of section 5.3.3. */
  function InvMixBytes(a: byte, b: byte, c: byte, d: byte): word {
    Word(Terms(Mul(a, 14), Mul(b, 11), Mul(c, 13), Mul(d, 9)),
         Terms(Mul(a, 9), Mul(b, 14), Mul(c, 11), Mul(d, 13)),
         Terms(Mul(a, 13), Mul(b, 9), Mul(c, 14), Mul(d, 11)),
         Terms(Mul(a, 11), Mul(b, 13), Mul(c, 9), Mul(d, 14)))
  }

  function InvMixColumn(w: word): word {
    InvMixBytes(Byte3(w), Byte2(w), Byte1(w), Byte0(w))
  }

  // ---- transformations of the state

  function SubBytes(s: State): State {
    State(SubWord(s.c0), SubWord(s.c1), SubWord(s.c2), SubWord(s.c3))
  }

  function InvSubBytes(s: State): State {
    State(InvSubWord(s.c0), InvSubWord(s.c1), InvSubWord(s.c2), InvSubWord(s.c3))
  }

  function ShiftRows(s: State): State {
    State(Word(Byte3(s.c0), Byte2(s.c1), Byte1(s.c2), Byte0(s.c3)),
          Word(Byte3(s.c1), Byte2(s.c2), Byte1(s.c3), Byte0(s.c0)),
          Word(Byte3(s.c2), Byte2(s.c3), Byte1(s.c0), Byte0(s.c1)),
          Word(Byte3(s.c3), Byte2(s.c0), Byte1(s.c1), Byte0(s.c2)))
  }

  function InvShiftRows(s: State): State {
    State(Word(Byte3(s.c0), Byte2(s.c3), Byte1(s.c2), Byte0(s.c1)),
          Word(Byte3(s.c1), Byte2(s.c0), Byte1(s.c3), Byte0(s.c2)),
          Word(Byte3(s.c2), Byte2(s.c1), Byte1(s.c0), Byte0(s.c3)),
          Word(Byte3(s.c3), Byte2(s.c2), Byte1(s.c1), Byte0(s.c0)))
  }

  function MixColumns(s: State): State {
    State(MixColumn(s.c0), MixColumn(s.c1), MixColumn(s.c2), MixColumn(s.c3))
  }

  function InvMixColumns(s: State): State {
    State(InvMixColumn(s.c0), InvMixColumn(s.c1), InvMixColumn(s.c2), InvMixColumn(s.c3))
  }

  /** The round key of round `i`: four words of a schedule. */
  function RoundKey(w: seq<word>, i: nat): State
    requires 4 * i + 4 <= |w|
  {
    State(w[4 * i], w[4 * i + 1], w[4 * i + 2], w[4 * i + 3])
  }

  function AddRoundKey(s: State, k: State): State {
    State(XorW(s.c0, k.c0), XorW(s.c1, k.c1), XorW(s.c2, k.c2), XorW(s.c3, k.c3))
  }

  // ---- the cipher, section 5.1

  function Round(s: State, k: State): State {
    AddRoundKey(MixColumns(ShiftRows(SubBytes(s))), k)
  }

  function Rounds(s: State, w: seq<word>, n: nat): State
    requires 4 * n + 4 <= |w|
  {
    if n == 0 then AddRoundKey(s, RoundKey(w, 0)) else Round(Rounds(s, w, n - 1), RoundKey(w, n))
  }

  function Cipher(s: State, w: seq<word>, nr: nat): State
    requires 1 <= nr && 4 * nr + 4 <= |w|
  {
    AddRoundKey(ShiftRows(SubBytes(Rounds(s, w, nr - 1))), RoundKey(w, nr))
  }

  // ---- the inverse cipher, section 5.3

  function InvRound(s: State, k: State): State {
    InvMixColumns(AddRoundKey(InvSubBytes(InvShiftRows(s)), k))
  }

  /** The state after `n` rounds of the inverse cipher, which takes its round keys from the last to the first. */
  function InvRounds(s: State, w: seq<word>, nr: nat, n: nat): State
    requires n <= nr && 4 * nr + 4 <= |w|
  {
    if n == 0 then AddRoundKey(s, RoundKey(w, nr)) else InvRound(InvRounds(s, w, nr, n - 1), RoundKey(w, nr - n))
  }

  function InvCipher(s: State, w: seq<word>, nr: nat): State
    requires 1 <= nr && 4 * nr + 4 <= |w|
  {
    AddRoundKey(InvSubBytes(InvShiftRows(InvRounds(s, w, nr, nr - 1))), RoundKey(w, 0))
  }

  // ---- the equivalent inverse cipher, section 5.3.5, on a schedule stored in the order of its use

  function EqInvRound(s: State, k: State): State {
    AddRoundKey(InvMixColumns(InvShiftRows(InvSubBytes(s))), k)
  }

  function EqInvRounds(s: State, dw: seq<word>, n: nat): State
    requires 4 * n + 4 <= |dw|
  {
    if n == 0 then AddRoundKey(s, RoundKey(dw, 0)) else EqInvRound(EqInvRounds(s, dw, n - 1), RoundKey(dw, n))
  }

  function EqInvCipher(s: State, dw: seq<word>, nr: nat): State
    requires 1 <= nr && 4 * nr + 4 <= |dw|
  {
    AddRoundKey(InvShiftRows(InvSubBytes(EqInvRounds(s, dw, nr - 1))), RoundKey(dw, nr))
  }

  /** Round key `i` of the schedule of the equivalent inverse cipher: the round keys of `w` in reverse, all but the
      first and the last put through InvMixColumns. */
  ghost predicate InverseAt(dw: seq<word>, w: seq<word>, nr: nat, i: nat)
    requires i <= nr && 4 * nr + 4 <= |w| && 4 * nr + 4 <= |dw|
  {
    RoundKey(dw, i) == if i == 0 || i == nr then RoundKey(w, nr - i) else InvMixColumns(RoundKey(w, nr - i))
  }

  ghost predicate IsInverseSchedule(dw: seq<word>, w: seq<word>, nr: nat)
    requires 4 * nr + 4 <= |w| && 4 * nr + 4 <= |dw|
  {
    forall i: nat :: i <= nr ==> InverseAt(dw, w, nr, i)
  }

  // ---- key expansion, section 5.2

  function RotWord(w: word): word {
    Word(Byte2(w), Byte1(w), Byte0(w), Byte3(w))
  }

  /** x^(i-1), the only non-zero byte of Rcon[i]. */
  function RconByte(i: nat): byte
    requires 1 <= i
  {
    if i == 1 then 1 else XTime(RconByte(i - 1))
  }

  function Rcon(i: nat): word
    requires 1 <= i
  {
    Word(RconByte(i), 0, 0, 0)
  }

  /** Word `i` of the expanded key. */
  function ExpandedWord(key: seq<word>, i: nat): word
    requires |key| in {4, 6, 8}
  {
    var nk := |key|;
    if i < nk then key[i]
    else
      var temp := ExpandedWord(key, i - 1);
      var mixed :=
        if i % nk == 0 then XorW(SubWord(RotWord(temp)), Rcon(i / nk))
        else if nk > 6 && i % nk == 4 then SubWord(temp)
        else temp;
      XorW(ExpandedWord(key, i - nk), mixed)
  }

  ghost predicate IsExpansion(w: seq<word>, key: seq<word>, n: nat)
    requires |key| in {4, 6, 8}
  {
    n <= |w| && forall i: nat :: i < n ==> w[i] == ExpandedWord(key, i)
  }

  // ---- blocks of bytes

  function LoadWord(b: seq<byte>, i: nat): word
    requires i + 4 <= |b|
  {
    Word(b[i], b[i + 1], b[i + 2], b[i + 3])
  }

  function LoadState(b: seq<byte>): State
    requires |b| == 16
  {
    State(LoadWord(b, 0), LoadWord(b, 4), LoadWord(b, 8), LoadWord(b, 12))
  }

  function StoreState(s: State): (b: seq<byte>)
    ensures |b| == 16
  {
    StoreWord(s.c0) + StoreWord(s.c1) + StoreWord(s.c2) + StoreWord(s.c3)
  }

  function KeyWords(key: seq<byte>): (ws: seq<word>)
    requires |key| % 4 == 0
    ensures |ws| == |key| / 4
  {
    seq(|key| / 4, i requires 0 <= i < |key| / 4 => LoadWord(key, 4 * i))
  }

  /** The number of rounds that belongs to a key of `n` bytes. */
  function NumRounds(n: nat): nat
    requires n in {16, 24, 32}
  {
    n / 4 + 6
  }

  function Expansion(key: seq<byte>): (w: seq<word>)
    requires |key| in {16, 24, 32}
    ensures |w| == 4 * NumRounds(|key|) + 4
    ensures IsExpansion(w, KeyWords(key), |w|)
  {
    seq(4 * NumRounds(|key|) + 4, i requires 0 <= i => ExpandedWord(KeyWords(key), i))
  }

  /** AES encryption of one block of bytes. */
  function Encrypt(key: seq<byte>, block: seq<byte>): (ct: seq<byte>)
    requires |key| in {16, 24, 32} && |block| == 16
    ensures |ct| == 16
  {
    StoreState(Cipher(LoadState(block), Expansion(key), NumRounds(|key|)))
  }

  function Decrypt(key: seq<byte>, block: seq<byte>): (pt: seq<byte>)
    requires |key| in {16, 24, 32} && |block| == 16
    ensures |pt| == 16
  {
    StoreState(InvCipher(LoadState(block), Expansion(key), NumRounds(|key|)))
  }
}
