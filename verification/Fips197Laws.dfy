/** What FIPS 197 promises of its own definitions: the inverse cipher undoes the cipher, and the equivalent inverse
    cipher is the inverse cipher. */
module Fips197Laws {
  import opened Buffers
  import opened GaloisField
  import opened SBoxTables
  import opened Words
  import opened Fips197

  // ---- columns

  lemma InvSubOfSub(w: word)
    ensures InvSubWord(SubWord(w)) == w
    ensures SubWord(InvSubWord(w)) == w
  {
    hide Word, Byte3, Byte2, Byte1, Byte0, SBox, InvSBox;
    var a, b, c, d := Byte3(w), Byte2(w), Byte1(w), Byte0(w);
    WordOfBytes(w);
    BytesOfWord(SBox(a), SBox(b), SBox(c), SBox(d));
    BytesOfWord(InvSBox(a), InvSBox(b), InvSBox(c), InvSBox(d));
    InvSBoxOfSBox(a);
    InvSBoxOfSBox(b);
    InvSBoxOfSBox(c);
    InvSBoxOfSBox(d);
    SBoxOfInvSBox(a);
    SBoxOfInvSBox(b);
    SBoxOfInvSBox(c);
    SBoxOfInvSBox(d);
  }

  lemma MulOfTerms(a: byte, b: byte, c: byte, d: byte, k: byte)
    ensures Mul(Terms(a, b, c, d), k) == Terms(Mul(a, k), Mul(b, k), Mul(c, k), Mul(d, k))
  {
    hide Xor, Mul;
    MulLinear(Xor(a, b), Xor(c, d), k);
    MulLinear(a, b, k);
    MulLinear(c, d, k);
  }

  lemma TermsRotate(a: byte, b: byte, c: byte, d: byte)
    ensures Terms(b, c, d, a) == Terms(a, b, c, d)
  {
    assert Xor(b ^ c, d ^ a) == Xor(a ^ b, c ^ d);
  }

  lemma TermsUnit(a: byte)
    ensures Terms(a, 0, 0, 0) == a
  {
    hide Xor;
    XorZero(a);
    XorZero(0);
  }

  /** A sum of four rows is the sum of their columns. */
  lemma TermsTranspose(p: byte, p1: byte, p2: byte, p3: byte, q: byte, q1: byte, q2: byte, q3: byte,
      r: byte, r1: byte, r2: byte, r3: byte, s: byte, s1: byte, s2: byte, s3: byte)
    ensures Terms(Terms(p, p1, p2, p3), Terms(q, q1, q2, q3), Terms(r, r1, r2, r3), Terms(s, s1, s2, s3))
         == Terms(Terms(p, q, r, s), Terms(p1, q1, r1, s1), Terms(p2, q2, r2, s2), Terms(p3, q3, r3, s3))
  {
    TermsXor(Xor(p, p1), Xor(q, q1), Xor(r, r1), Xor(s, s1), Xor(p2, p3), Xor(q2, q3), Xor(r2, r3), Xor(s2, s3));
    TermsXor(p, q, r, s, p1, q1, r1, s1);
    TermsXor(p2, q2, r2, s2, p3, q3, r3, s3);
    hide Xor;
  }

  /** The first byte of InvMixColumns after MixColumns. */
  lemma InvMixOfMixRow(a: byte, b: byte, c: byte, d: byte)
    ensures Terms(Mul(Terms(Mul(a, 2), Mul(b, 3), c, d), 14), Mul(Terms(a, Mul(b, 2), Mul(c, 3), d), 11),
                  Mul(Terms(a, b, Mul(c, 2), Mul(d, 3)), 13), Mul(Terms(Mul(a, 3), b, c, Mul(d, 2)), 9)) == a
  {
    hide Mul, Terms;
    MulOfTerms(Mul(a, 2), Mul(b, 3), c, d, 14);
    MulOfTerms(a, Mul(b, 2), Mul(c, 3), d, 11);
    MulOfTerms(a, b, Mul(c, 2), Mul(d, 3), 13);
    MulOfTerms(Mul(a, 3), b, c, Mul(d, 2), 9);
    TermsTranspose(Mul(Mul(a, 2), 14), Mul(Mul(b, 3), 14), Mul(c, 14), Mul(d, 14),
                   Mul(a, 11), Mul(Mul(b, 2), 11), Mul(Mul(c, 3), 11), Mul(d, 11),
                   Mul(a, 13), Mul(b, 13), Mul(Mul(c, 2), 13), Mul(Mul(d, 3), 13),
                   Mul(Mul(a, 3), 9), Mul(b, 9), Mul(c, 9), Mul(Mul(d, 2), 9));
    InverseTimesMix(a);
    InverseTimesMix(b);
    InverseTimesMix(c);
    InverseTimesMix(d);
    TermsUnit(a);
  }

  /** The first byte of MixColumns after InvMixColumns. */
  lemma MixOfInvMixRow(a: byte, b: byte, c: byte, d: byte)
    ensures Terms(Mul(Terms(Mul(a, 14), Mul(b, 11), Mul(c, 13), Mul(d, 9)), 2),
                  Mul(Terms(Mul(a, 9), Mul(b, 14), Mul(c, 11), Mul(d, 13)), 3),
                  Terms(Mul(a, 13), Mul(b, 9), Mul(c, 14), Mul(d, 11)),
                  Terms(Mul(a, 11), Mul(b, 13), Mul(c, 9), Mul(d, 14))) == a
  {
    hide Mul, Terms;
    MulOfTerms(Mul(a, 14), Mul(b, 11), Mul(c, 13), Mul(d, 9), 2);
    MulOfTerms(Mul(a, 9), Mul(b, 14), Mul(c, 11), Mul(d, 13), 3);
    TermsTranspose(Mul(Mul(a, 14), 2), Mul(Mul(b, 11), 2), Mul(Mul(c, 13), 2), Mul(Mul(d, 9), 2),
                   Mul(Mul(a, 9), 3), Mul(Mul(b, 14), 3), Mul(Mul(c, 11), 3), Mul(Mul(d, 13), 3),
                   Mul(a, 13), Mul(b, 9), Mul(c, 14), Mul(d, 11),
                   Mul(a, 11), Mul(b, 13), Mul(c, 9), Mul(d, 14));
    MixTimesInverse(a);
    MixTimesInverse(b);
    MixTimesInverse(c);
    MixTimesInverse(d);
    TermsUnit(a);
  }

  lemma RotateMixed(a: byte, b: byte, c: byte, d: byte)
    ensures Terms(Mul(b, 2), Mul(c, 3), d, a) == Terms(a, Mul(b, 2), Mul(c, 3), d)
    ensures Terms(b, Mul(c, 2), Mul(d, 3), a) == Terms(a, b, Mul(c, 2), Mul(d, 3))
    ensures Terms(b, c, Mul(d, 2), Mul(a, 3)) == Terms(Mul(a, 3), b, c, Mul(d, 2))
    ensures Terms(Mul(b, 3), c, d, Mul(a, 2)) == Terms(Mul(a, 2), Mul(b, 3), c, d)
  {
    hide Mul, Terms;
    TermsRotate(a, Mul(b, 2), Mul(c, 3), d);
    TermsRotate(a, b, Mul(c, 2), Mul(d, 3));
    TermsRotate(Mul(a, 3), b, c, Mul(d, 2));
    TermsRotate(Mul(a, 2), Mul(b, 3), c, d);
  }

  lemma RotateInvMixed(a: byte, b: byte, c: byte, d: byte)
    ensures Terms(Mul(b, 14), Mul(c, 11), Mul(d, 13), Mul(a, 9)) == Terms(Mul(a, 9), Mul(b, 14), Mul(c, 11), Mul(d, 13))
    ensures Terms(Mul(b, 9), Mul(c, 14), Mul(d, 11), Mul(a, 13)) == Terms(Mul(a, 13), Mul(b, 9), Mul(c, 14), Mul(d, 11))
    ensures Terms(Mul(b, 13), Mul(c, 9), Mul(d, 14), Mul(a, 11)) == Terms(Mul(a, 11), Mul(b, 13), Mul(c, 9), Mul(d, 14))
    ensures Terms(Mul(b, 11), Mul(c, 13), Mul(d, 9), Mul(a, 14)) == Terms(Mul(a, 14), Mul(b, 11), Mul(c, 13), Mul(d, 9))
  {
    hide Mul, Terms;
    TermsRotate(Mul(a, 9), Mul(b, 14), Mul(c, 11), Mul(d, 13));
    TermsRotate(Mul(a, 13), Mul(b, 9), Mul(c, 14), Mul(d, 11));
    TermsRotate(Mul(a, 11), Mul(b, 13), Mul(c, 9), Mul(d, 14));
    TermsRotate(Mul(a, 14), Mul(b, 11), Mul(c, 13), Mul(d, 9));
  }

  lemma InvMixOfMix(w: word)
    ensures InvMixColumn(MixColumn(w)) == w
  {
    hide Word, Byte3, Byte2, Byte1, Byte0, Mul, Terms;
    var a, b, c, d := Byte3(w), Byte2(w), Byte1(w), Byte0(w);
    var a', b' := Terms(Mul(a, 2), Mul(b, 3), c, d), Terms(a, Mul(b, 2), Mul(c, 3), d);
    var c', d' := Terms(a, b, Mul(c, 2), Mul(d, 3)), Terms(Mul(a, 3), b, c, Mul(d, 2));
    BytesOfWord(a', b', c', d');
    RotateMixed(a, b, c, d);
    InvMixOfMixRow(a, b, c, d);
    RotateMixed(b, c, d, a);
    InvMixOfMixRow(b, c, d, a);
    RotateMixed(c, d, a, b);
    InvMixOfMixRow(c, d, a, b);
    InvMixOfMixRow(d, a, b, c);
    RotateInvMixed(a', b', c', d');
    RotateInvMixed(b', c', d', a');
    RotateInvMixed(c', d', a', b');
    WordOfBytes(w);
  }

  lemma MixOfInvMix(w: word)
    ensures MixColumn(InvMixColumn(w)) == w
  {
    hide Word, Byte3, Byte2, Byte1, Byte0, Mul, Terms;
    var a, b, c, d := Byte3(w), Byte2(w), Byte1(w), Byte0(w);
    var a', b' := Terms(Mul(a, 14), Mul(b, 11), Mul(c, 13), Mul(d, 9)),
      Terms(Mul(a, 9), Mul(b, 14), Mul(c, 11), Mul(d, 13));
    var c', d' := Terms(Mul(a, 13), Mul(b, 9), Mul(c, 14), Mul(d, 11)),
      Terms(Mul(a, 11), Mul(b, 13), Mul(c, 9), Mul(d, 14));
    BytesOfWord(a', b', c', d');
    MixOfInvMixRow(a, b, c, d);
    RotateInvMixed(a, b, c, d);
    MixOfInvMixRow(b, c, d, a);
    RotateInvMixed(b, c, d, a);
    MixOfInvMixRow(c, d, a, b);
    RotateInvMixed(c, d, a, b);
    MixOfInvMixRow(d, a, b, c);
    RotateMixed(a', b', c', d');
    RotateMixed(b', c', d', a');
    RotateMixed(c', d', a', b');
    WordOfBytes(w);
  }

  lemma InvMixLinear(v: word, w: word)
    ensures InvMixColumn(XorW(v, w)) == XorW(InvMixColumn(v), InvMixColumn(w))
  {
    var a, b, c, d := Byte3(v), Byte2(v), Byte1(v), Byte0(v);
    var a', b', c', d' := Byte3(w), Byte2(w), Byte1(w), Byte0(w);
    WordOfBytes(v);
    WordOfBytes(w);
    XorWord(a, b, c, d, a', b', c', d');
    hide Xor, XorW, Word, Byte3, Byte2, Byte1, Byte0, Mul, Terms;
    BytesOfWord(Xor(a, a'), Xor(b, b'), Xor(c, c'), Xor(d, d'));
    InvMixRowLinear(a, b, c, d, a', b', c', d', 14, 11, 13, 9);
    InvMixRowLinear(a, b, c, d, a', b', c', d', 9, 14, 11, 13);
    InvMixRowLinear(a, b, c, d, a', b', c', d', 13, 9, 14, 11);
    InvMixRowLinear(a, b, c, d, a', b', c', d', 11, 13, 9, 14);
    XorWord(Terms(Mul(a, 14), Mul(b, 11), Mul(c, 13), Mul(d, 9)), Terms(Mul(a, 9), Mul(b, 14), Mul(c, 11), Mul(d, 13)),
            Terms(Mul(a, 13), Mul(b, 9), Mul(c, 14), Mul(d, 11)), Terms(Mul(a, 11), Mul(b, 13), Mul(c, 9), Mul(d, 14)),
            Terms(Mul(a', 14), Mul(b', 11), Mul(c', 13), Mul(d', 9)),
              Terms(Mul(a', 9), Mul(b', 14), Mul(c', 11), Mul(d', 13)),
            Terms(Mul(a', 13), Mul(b', 9), Mul(c', 14), Mul(d', 11)),
              Terms(Mul(a', 11), Mul(b', 13), Mul(c', 9), Mul(d', 14)));
  }

  lemma InvMixRowLinear(a: byte, b: byte, c: byte, d: byte, a': byte, b': byte, c': byte, d': byte,
      k0: byte, k1: byte, k2: byte, k3: byte)
    ensures Terms(Mul(Xor(a, a'), k0), Mul(Xor(b, b'), k1), Mul(Xor(c, c'), k2), Mul(Xor(d, d'), k3))
         == Xor(Terms(Mul(a, k0), Mul(b, k1), Mul(c, k2), Mul(d, k3)),
           Terms(Mul(a', k0), Mul(b', k1), Mul(c', k2), Mul(d', k3)))
  {
    hide Xor, Mul, Terms;
    MulLinear(a, a', k0);
    MulLinear(b, b', k1);
    MulLinear(c, c', k2);
    MulLinear(d, d', k3);
    TermsXor(Mul(a, k0), Mul(b, k1), Mul(c, k2), Mul(d, k3), Mul(a', k0), Mul(b', k1), Mul(c', k2), Mul(d', k3));
  }

  // ---- states

  lemma AddRoundKeyTwice(s: State, k: State)
    ensures AddRoundKey(AddRoundKey(s, k), k) == s
  {
    hide XorW;
    XorWCancel(s.c0, k.c0);
    XorWCancel(s.c1, k.c1);
    XorWCancel(s.c2, k.c2);
    XorWCancel(s.c3, k.c3);
  }

  lemma InvShiftOfShift(s: State)
    ensures InvShiftRows(ShiftRows(s)) == s
    ensures ShiftRows(InvShiftRows(s)) == s
  {
    hide Word, Byte3, Byte2, Byte1, Byte0;
    var State(p, q, r, t) := s;
    WordOfBytes(p);
    WordOfBytes(q);
    WordOfBytes(r);
    WordOfBytes(t);
    BytesOfWord(Byte3(p), Byte2(q), Byte1(r), Byte0(t));
    BytesOfWord(Byte3(q), Byte2(r), Byte1(t), Byte0(p));
    BytesOfWord(Byte3(r), Byte2(t), Byte1(p), Byte0(q));
    BytesOfWord(Byte3(t), Byte2(p), Byte1(q), Byte0(r));
    BytesOfWord(Byte3(p), Byte2(t), Byte1(r), Byte0(q));
    BytesOfWord(Byte3(q), Byte2(p), Byte1(t), Byte0(r));
    BytesOfWord(Byte3(r), Byte2(q), Byte1(p), Byte0(t));
    BytesOfWord(Byte3(t), Byte2(r), Byte1(q), Byte0(p));
  }

  lemma BytesOfState(s: State)
    ensures StoreState(s) == [Byte3(s.c0), Byte2(s.c0), Byte1(s.c0), Byte0(s.c0),
                              Byte3(s.c1), Byte2(s.c1), Byte1(s.c1), Byte0(s.c1),
                              Byte3(s.c2), Byte2(s.c2), Byte1(s.c2), Byte0(s.c2),
                              Byte3(s.c3), Byte2(s.c3), Byte1(s.c3), Byte0(s.c3)]
  {
    hide Byte3, Byte2, Byte1, Byte0;
  }

  /** ShiftRows on the sixteen bytes of the state, byte r + 4c coming from row r and column c + r mod 4. */
  lemma ShiftRowsBytes(s: State)
    ensures var b := StoreState(s);
            StoreState(ShiftRows(s)) == [b[0], b[5], b[10], b[15], b[4], b[9], b[14], b[3],
                                         b[8], b[13], b[2], b[7], b[12], b[1], b[6], b[11]]
  {
    hide Word, Byte3, Byte2, Byte1, Byte0, StoreState;
    var State(p, q, u, t) := s;
    BytesOfState(s);
    BytesOfState(ShiftRows(s));
    BytesOfWord(Byte3(p), Byte2(q), Byte1(u), Byte0(t));
    BytesOfWord(Byte3(q), Byte2(u), Byte1(t), Byte0(p));
    BytesOfWord(Byte3(u), Byte2(t), Byte1(p), Byte0(q));
    BytesOfWord(Byte3(t), Byte2(p), Byte1(q), Byte0(u));
  }

  lemma InvSubBytesOfSubBytes(s: State)
    ensures InvSubBytes(SubBytes(s)) == s
    ensures SubBytes(InvSubBytes(s)) == s
  {
    hide SubWord, InvSubWord;
    InvSubOfSub(s.c0);
    InvSubOfSub(s.c1);
    InvSubOfSub(s.c2);
    InvSubOfSub(s.c3);
  }

  lemma InvMixColumnsOfMixColumns(s: State)
    ensures InvMixColumns(MixColumns(s)) == s
    ensures MixColumns(InvMixColumns(s)) == s
  {
    hide MixColumn, InvMixColumn;
    InvMixOfMix(s.c0);
    InvMixOfMix(s.c1);
    InvMixOfMix(s.c2);
    InvMixOfMix(s.c3);
    MixOfInvMix(s.c0);
    MixOfInvMix(s.c1);
    MixOfInvMix(s.c2);
    MixOfInvMix(s.c3);
  }

  lemma InvMixColumnsLinear(s: State, k: State)
    ensures InvMixColumns(AddRoundKey(s, k)) == AddRoundKey(InvMixColumns(s), InvMixColumns(k))
  {
    hide XorW, InvMixColumn;
    InvMixLinear(s.c0, k.c0);
    InvMixLinear(s.c1, k.c1);
    InvMixLinear(s.c2, k.c2);
    InvMixLinear(s.c3, k.c3);
  }

  lemma InvShiftCommutesWithInvSub(s: State)
    ensures InvShiftRows(InvSubBytes(s)) == InvSubBytes(InvShiftRows(s))
  {
    hide Word, Byte3, Byte2, Byte1, Byte0, InvSBox;
    var State(p, q, r, t) := s;
    InvSubWordBytes(p);
    InvSubWordBytes(q);
    InvSubWordBytes(r);
    InvSubWordBytes(t);
    BytesOfWord(Byte3(p), Byte2(t), Byte1(r), Byte0(q));
    BytesOfWord(Byte3(q), Byte2(p), Byte1(t), Byte0(r));
    BytesOfWord(Byte3(r), Byte2(q), Byte1(p), Byte0(t));
    BytesOfWord(Byte3(t), Byte2(r), Byte1(q), Byte0(p));
  }

  lemma InvSubWordBytes(w: word)
    ensures var v := InvSubWord(w);
            && Byte3(v) == InvSBox(Byte3(w)) && Byte2(v) == InvSBox(Byte2(w))
            && Byte1(v) == InvSBox(Byte1(w)) && Byte0(v) == InvSBox(Byte0(w))
  {
    hide Word, Byte3, Byte2, Byte1, Byte0, InvSBox;
    BytesOfWord(InvSBox(Byte3(w)), InvSBox(Byte2(w)), InvSBox(Byte1(w)), InvSBox(Byte0(w)));
  }

  // ---- the cipher and its inverse

  lemma {:induction false} InvRoundsUndoRounds(s: State, w: seq<word>, nr: nat, n: nat)
    requires 1 <= nr && n < nr && 4 * nr + 4 <= |w|
    ensures InvRounds(Cipher(s, w, nr), w, nr, n) == ShiftRows(SubBytes(Rounds(s, w, nr - 1 - n)))
  {
    hide SubBytes, InvSubBytes, ShiftRows, InvShiftRows, MixColumns, InvMixColumns, AddRoundKey;
    if n == 0 {
      AddRoundKeyTwice(ShiftRows(SubBytes(Rounds(s, w, nr - 1))), RoundKey(w, nr));
    } else {
      InvRoundsUndoRounds(s, w, nr, n - 1);
      var m := nr - n;
      var before := Rounds(s, w, m - 1);
      InvShiftOfShift(SubBytes(Rounds(s, w, m)));
      InvSubBytesOfSubBytes(Rounds(s, w, m));
      AddRoundKeyTwice(MixColumns(ShiftRows(SubBytes(before))), RoundKey(w, m));
      InvMixColumnsOfMixColumns(ShiftRows(SubBytes(before)));
    }
  }

  lemma InvCipherOfCipher(s: State, w: seq<word>, nr: nat)
    requires 1 <= nr && 4 * nr + 4 <= |w|
    ensures InvCipher(Cipher(s, w, nr), w, nr) == s
  {
    hide SubBytes, InvSubBytes, ShiftRows, InvShiftRows, MixColumns, InvMixColumns, AddRoundKey;
    InvRoundsUndoRounds(s, w, nr, nr - 1);
    InvShiftOfShift(SubBytes(Rounds(s, w, 0)));
    InvSubBytesOfSubBytes(Rounds(s, w, 0));
    AddRoundKeyTwice(s, RoundKey(w, 0));
  }

  lemma {:induction false} RoundsUndoInvRounds(s: State, w: seq<word>, nr: nat, n: nat)
    requires 1 <= nr && n < nr && 4 * nr + 4 <= |w|
    ensures Rounds(InvCipher(s, w, nr), w, n) == InvSubBytes(InvShiftRows(InvRounds(s, w, nr, nr - 1 - n)))
  {
    hide SubBytes, InvSubBytes, ShiftRows, InvShiftRows, MixColumns, InvMixColumns, AddRoundKey;
    if n == 0 {
      AddRoundKeyTwice(InvSubBytes(InvShiftRows(InvRounds(s, w, nr, nr - 1))), RoundKey(w, 0));
    } else {
      RoundsUndoInvRounds(s, w, nr, n - 1);
      var m := nr - n;
      var before := InvSubBytes(InvShiftRows(InvRounds(s, w, nr, m - 1)));
      InvSubBytesOfSubBytes(InvShiftRows(InvRounds(s, w, nr, m)));
      InvShiftOfShift(InvRounds(s, w, nr, m));
      InvMixColumnsOfMixColumns(AddRoundKey(before, RoundKey(w, n)));
      AddRoundKeyTwice(before, RoundKey(w, n));
    }
  }

  lemma CipherOfInvCipher(s: State, w: seq<word>, nr: nat)
    requires 1 <= nr && 4 * nr + 4 <= |w|
    ensures Cipher(InvCipher(s, w, nr), w, nr) == s
  {
    hide SubBytes, InvSubBytes, ShiftRows, InvShiftRows, MixColumns, InvMixColumns, AddRoundKey;
    RoundsUndoInvRounds(s, w, nr, nr - 1);
    InvSubBytesOfSubBytes(InvShiftRows(InvRounds(s, w, nr, 0)));
    InvShiftOfShift(InvRounds(s, w, nr, 0));
    AddRoundKeyTwice(s, RoundKey(w, nr));
  }

  // ---- the equivalent inverse cipher

  lemma {:induction false} EqInvRoundsAreInvRounds(s: State, dw: seq<word>, w: seq<word>, nr: nat, n: nat)
    requires 1 <= nr && n < nr && 4 * nr + 4 <= |w| && 4 * nr + 4 <= |dw|
    requires IsInverseSchedule(dw, w, nr)
    ensures EqInvRounds(s, dw, n) == InvRounds(s, w, nr, n)
  {
    hide SubBytes, InvSubBytes, ShiftRows, InvShiftRows, MixColumns, InvMixColumns, AddRoundKey, RoundKey;
    assert InverseAt(dw, w, nr, n);
    if n == 0 {
    } else {
      EqInvRoundsAreInvRounds(s, dw, w, nr, n - 1);
      var before := InvRounds(s, w, nr, n - 1);
      InvShiftCommutesWithInvSub(before);
      InvMixColumnsLinear(InvSubBytes(InvShiftRows(before)), RoundKey(w, nr - n));
    }
  }

  lemma EqInvCipherIsInvCipher(s: State, dw: seq<word>, w: seq<word>, nr: nat)
    requires 1 <= nr && 4 * nr + 4 <= |w| && 4 * nr + 4 <= |dw|
    requires IsInverseSchedule(dw, w, nr)
    ensures EqInvCipher(s, dw, nr) == InvCipher(s, w, nr)
  {
    hide SubBytes, InvSubBytes, ShiftRows, InvShiftRows, MixColumns, InvMixColumns, AddRoundKey, RoundKey;
    assert InverseAt(dw, w, nr, nr);
    EqInvRoundsAreInvRounds(s, dw, w, nr, nr - 1);
    InvShiftCommutesWithInvSub(InvRounds(s, w, nr, nr - 1));
  }

  // ---- blocks of bytes

  lemma LoadOfStore(s: State)
    ensures LoadState(StoreState(s)) == s
  {
    hide Word, Byte3, Byte2, Byte1, Byte0;
    WordOfBytes(s.c0);
    WordOfBytes(s.c1);
    WordOfBytes(s.c2);
    WordOfBytes(s.c3);
  }

  lemma StoreOfLoad(b: seq<byte>)
    requires |b| == 16
    ensures StoreState(LoadState(b)) == b
  {
    hide Word, Byte3, Byte2, Byte1, Byte0;
    BytesOfWord(b[0], b[1], b[2], b[3]);
    BytesOfWord(b[4], b[5], b[6], b[7]);
    BytesOfWord(b[8], b[9], b[10], b[11]);
    BytesOfWord(b[12], b[13], b[14], b[15]);
  }

  /** For every key and every block, decryption inverts encryption ... */
  lemma DecryptOfEncrypt(key: seq<byte>, block: seq<byte>)
    requires |key| in {16, 24, 32} && |block| == 16
    ensures Decrypt(key, Encrypt(key, block)) == block
  {
    hide LoadState, StoreState, Cipher, InvCipher, Expansion;
    var w, nr := Expansion(key), NumRounds(|key|);
    LoadOfStore(Cipher(LoadState(block), w, nr));
    InvCipherOfCipher(LoadState(block), w, nr);
    StoreOfLoad(block);
  }

  /** ... and encryption inverts decryption. */
  lemma EncryptOfDecrypt(key: seq<byte>, block: seq<byte>)
    requires |key| in {16, 24, 32} && |block| == 16
    ensures Encrypt(key, Decrypt(key, block)) == block
  {
    hide LoadState, StoreState, Cipher, InvCipher, Expansion;
    var w, nr := Expansion(key), NumRounds(|key|);
    LoadOfStore(InvCipher(LoadState(block), w, nr));
    CipherOfInvCipher(LoadState(block), w, nr);
    StoreOfLoad(block);
  }
}
