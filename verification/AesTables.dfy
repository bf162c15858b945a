/** The tables of the fast AES code, each entry by the formula that heads the table file, and what a sum of four
    table entries computes. */
module AesTables {
  import opened Buffers
  import opened GaloisField
  import opened SBoxTables
  import opened Words
  import opened Fips197
  import opened Fips197Laws

  // ---- tables of the cipher

  function Te0(x: byte): word { var s := SBox(x); Word(Mul(s, 2), s, s, Mul(s, 3)) }
  function Te1(x: byte): word { var s := SBox(x); Word(Mul(s, 3), Mul(s, 2), s, s) }
  function Te2(x: byte): word { var s := SBox(x); Word(s, Mul(s, 3), Mul(s, 2), s) }
  function Te3(x: byte): word { var s := SBox(x); Word(s, s, Mul(s, 3), Mul(s, 2)) }

  // Te4_3 down to Te4_0: the S-box in one byte of the word
  function Te43(x: byte): word { Word(SBox(x), 0, 0, 0) }
  function Te42(x: byte): word { Word(0, SBox(x), 0, 0) }
  function Te41(x: byte): word { Word(0, 0, SBox(x), 0) }
  function Te40(x: byte): word { Word(0, 0, 0, SBox(x)) }

  // ---- tables of the inverse cipher

  function Td0(x: byte): word { Tks0(InvSBox(x)) }
  function Td1(x: byte): word { Tks1(InvSBox(x)) }
  function Td2(x: byte): word { Tks2(InvSBox(x)) }
  function Td3(x: byte): word { Tks3(InvSBox(x)) }
  function Td4(x: byte): word { var s := InvSBox(x); Word(s, s, s, s) }

  function Tks0(x: byte): word { Word(Mul(x, 14), Mul(x, 9), Mul(x, 13), Mul(x, 11)) }
  function Tks1(x: byte): word { Word(Mul(x, 11), Mul(x, 14), Mul(x, 9), Mul(x, 13)) }
  function Tks2(x: byte): word { Word(Mul(x, 13), Mul(x, 11), Mul(x, 14), Mul(x, 9)) }
  function Tks3(x: byte): word { Word(Mul(x, 9), Mul(x, 13), Mul(x, 11), Mul(x, 14)) }

  function RconTable(i: nat): word
    requires i < 10
  {
    [0x01000000, 0x02000000, 0x04000000, 0x08000000, 0x10000000,
     0x20000000, 0x40000000, 0x80000000, 0x1B000000, 0x36000000][i]
  }

  /** RORc: the other configuration reads Te1, Te2, Te3 (Td1, ...) as rotations of one table. */
  function Ror8(w: word): word { (w >> 8) | (w << 24) }

  lemma TablesAreRotations(x: byte)
    ensures Te1(x) == Ror8(Te0(x)) && Te2(x) == Ror8(Te1(x)) && Te3(x) == Ror8(Te2(x))
    ensures Td1(x) == Ror8(Td0(x)) && Td2(x) == Ror8(Td1(x)) && Td3(x) == Ror8(Td2(x))
    ensures Tks1(x) == Ror8(Tks0(x)) && Tks2(x) == Ror8(Tks1(x)) && Tks3(x) == Ror8(Tks2(x))
  {
    hide SBox, InvSBox, Mul, Ror8, Word;
    var s, t := SBox(x), InvSBox(x);
    Ror8OfWord(Mul(s, 2), s, s, Mul(s, 3));
    Ror8OfWord(Mul(s, 3), Mul(s, 2), s, s);
    Ror8OfWord(s, Mul(s, 3), Mul(s, 2), s);
    TksAreRotations(t);
    TksAreRotations(x);
  }

  lemma TksAreRotations(x: byte)
    ensures Tks1(x) == Ror8(Tks0(x)) && Tks2(x) == Ror8(Tks1(x)) && Tks3(x) == Ror8(Tks2(x))
  {
    hide Mul, Ror8, Word;
    Ror8OfWord(Mul(x, 14), Mul(x, 9), Mul(x, 13), Mul(x, 11));
    Ror8OfWord(Mul(x, 11), Mul(x, 14), Mul(x, 9), Mul(x, 13));
    Ror8OfWord(Mul(x, 13), Mul(x, 11), Mul(x, 14), Mul(x, 9));
  }

  lemma Ror8OfWord(a: byte, b: byte, c: byte, d: byte)
    ensures Ror8(Word(a, b, c, d)) == Word(d, a, b, c)
  {
  }

  // ---- sums of table entries, as the code writes them

  function And(a: word, mask: word): word { a & mask }
  function Xor4(a: word, b: word, c: word, d: word): word { a ^ b ^ c ^ d }
  function Xor5(a: word, b: word, c: word, d: word, e: word): word { a ^ b ^ c ^ d ^ e }

  /** One column of a full round of the cipher. */
  function EncColumn(a: word, b: word, c: word, d: word, k: word): word {
    Xor5(Te0(Byte3(a)), Te1(Byte2(b)), Te2(Byte1(c)), Te3(Byte0(d)), k)
  }

  /** One column of its last round. */
  function EncLastColumn(a: word, b: word, c: word, d: word, k: word): word {
    Xor5(Te43(Byte3(a)), Te42(Byte2(b)), Te41(Byte1(c)), Te40(Byte0(d)), k)
  }

  function DecColumn(a: word, b: word, c: word, d: word, k: word): word {
    Xor5(Td0(Byte3(a)), Td1(Byte2(b)), Td2(Byte1(c)), Td3(Byte0(d)), k)
  }

  function DecLastColumn(a: word, b: word, c: word, d: word, k: word): word {
    Xor5(And(Td4(Byte3(a)), 0xff000000), And(Td4(Byte2(b)), 0x00ff0000),
         And(Td4(Byte1(c)), 0x0000ff00), And(Td4(Byte0(d)), 0x000000ff), k)
  }

  /** One word of the inverse key schedule. */
  function InvKeyWord(w: word): word {
    Xor4(Tks0(Byte3(w)), Tks1(Byte2(w)), Tks2(Byte1(w)), Tks3(Byte0(w)))
  }

  function SetupMix(temp: word): word {
    Xor4(Te43(Byte2(temp)), Te42(Byte1(temp)), Te41(Byte0(temp)), Te40(Byte3(temp)))
  }

  // ---- what the sums compute

  lemma Xor4Pairs(a: word, b: word, c: word, d: word)
    ensures Xor4(a, b, c, d) == XorW(XorW(a, b), XorW(c, d))
  {
    assert XorW(a ^ b, c ^ d) == Xor4(a, b, c, d);
  }

  lemma Xor5Pairs(a: word, b: word, c: word, d: word, k: word)
    ensures Xor5(a, b, c, d, k) == XorW(XorW(XorW(a, b), XorW(c, d)), k)
  {
    assert XorW((a ^ b) ^ (c ^ d), k) == Xor5(a, b, c, d, k);
    assert XorW(a ^ b, c ^ d) == (a ^ b) ^ (c ^ d);
  }

  lemma XorOfFourWords(a0: byte, a1: byte, a2: byte, a3: byte, b0: byte, b1: byte, b2: byte, b3: byte,
      c0: byte, c1: byte, c2: byte, c3: byte, d0: byte, d1: byte, d2: byte, d3: byte)
    ensures XorW(XorW(Word(a0, a1, a2, a3), Word(b0, b1, b2, b3)), XorW(Word(c0, c1, c2, c3), Word(d0, d1, d2, d3)))
         == Word(Terms(a0, b0, c0, d0), Terms(a1, b1, c1, d1), Terms(a2, b2, c2, d2), Terms(a3, b3, c3, d3))
  {
    XorWord(a0, a1, a2, a3, b0, b1, b2, b3);
    XorWord(c0, c1, c2, c3, d0, d1, d2, d3);
    XorWord(Xor(a0, b0), Xor(a1, b1), Xor(a2, b2), Xor(a3, b3), Xor(c0, d0), Xor(c1, d1), Xor(c2, d2), Xor(c3, d3));
    hide Xor, XorW, Word;
  }

  lemma EncColumnMixes(a: word, b: word, c: word, d: word, k: word)
    ensures EncColumn(a, b, c, d, k)
         == XorW(MixBytes(SBox(Byte3(a)), SBox(Byte2(b)), SBox(Byte1(c)), SBox(Byte0(d))), k)
  {
    hide SBox, Mul, Terms, XorW, Xor5, Word, Byte3, Byte2, Byte1, Byte0;
    var p, q, r, s := SBox(Byte3(a)), SBox(Byte2(b)), SBox(Byte1(c)), SBox(Byte0(d));
    Xor5Pairs(Te0(Byte3(a)), Te1(Byte2(b)), Te2(Byte1(c)), Te3(Byte0(d)), k);
    XorOfFourWords(Mul(p, 2), p, p, Mul(p, 3), Mul(q, 3), Mul(q, 2), q, q,
                   r, Mul(r, 3), Mul(r, 2), r, s, s, Mul(s, 3), Mul(s, 2));
  }

  lemma InvMixOfTks(p: byte, q: byte, r: byte, s: byte)
    ensures XorW(XorW(Tks0(p), Tks1(q)), XorW(Tks2(r), Tks3(s))) == InvMixBytes(p, q, r, s)
  {
    hide Mul, Terms, XorW, Word;
    XorOfFourWords(Mul(p, 14), Mul(p, 9), Mul(p, 13), Mul(p, 11), Mul(q, 11), Mul(q, 14), Mul(q, 9), Mul(q, 13),
                   Mul(r, 13), Mul(r, 11), Mul(r, 14), Mul(r, 9), Mul(s, 9), Mul(s, 13), Mul(s, 11), Mul(s, 14));
  }

  lemma DecColumnMixes(a: word, b: word, c: word, d: word, k: word)
    ensures DecColumn(a, b, c, d, k)
         == XorW(InvMixBytes(InvSBox(Byte3(a)), InvSBox(Byte2(b)), InvSBox(Byte1(c)), InvSBox(Byte0(d))), k)
  {
    hide InvSBox, XorW, Xor5, Tks0, Tks1, Tks2, Tks3, InvMixBytes, Byte3, Byte2, Byte1, Byte0;
    Xor5Pairs(Td0(Byte3(a)), Td1(Byte2(b)), Td2(Byte1(c)), Td3(Byte0(d)), k);
    InvMixOfTks(InvSBox(Byte3(a)), InvSBox(Byte2(b)), InvSBox(Byte1(c)), InvSBox(Byte0(d)));
  }

  lemma InvKeyWordMixes(w: word)
    ensures InvKeyWord(w) == InvMixColumn(w)
  {
    hide XorW, Xor4, Tks0, Tks1, Tks2, Tks3, InvMixBytes, Byte3, Byte2, Byte1, Byte0;
    Xor4Pairs(Tks0(Byte3(w)), Tks1(Byte2(w)), Tks2(Byte1(w)), Tks3(Byte0(w)));
    InvMixOfTks(Byte3(w), Byte2(w), Byte1(w), Byte0(w));
  }

  lemma Xor4OfBytes(p: byte, q: byte, r: byte, s: byte)
    ensures Xor4(Word(p, 0, 0, 0), Word(0, q, 0, 0), Word(0, 0, r, 0), Word(0, 0, 0, s)) == Word(p, q, r, s)
  {
  }

  lemma Xor5Last(a: word, b: word, c: word, d: word, k: word)
    ensures Xor5(a, b, c, d, k) == XorW(Xor4(a, b, c, d), k)
  {
    assert XorW(a ^ b ^ c ^ d, k) == Xor5(a, b, c, d, k);
  }

  lemma EncLastColumnSubstitutes(a: word, b: word, c: word, d: word, k: word)
    ensures EncLastColumn(a, b, c, d, k)
         == XorW(Word(SBox(Byte3(a)), SBox(Byte2(b)), SBox(Byte1(c)), SBox(Byte0(d))), k)
  {
    hide SBox, XorW, Xor4, Xor5, Word, Byte3, Byte2, Byte1, Byte0;
    Xor5Last(Te43(Byte3(a)), Te42(Byte2(b)), Te41(Byte1(c)), Te40(Byte0(d)), k);
    Xor4OfBytes(SBox(Byte3(a)), SBox(Byte2(b)), SBox(Byte1(c)), SBox(Byte0(d)));
  }

  lemma MaskedBytes(s: byte)
    ensures And(Word(s, s, s, s), 0xff000000) == Word(s, 0, 0, 0)
    ensures And(Word(s, s, s, s), 0x00ff0000) == Word(0, s, 0, 0)
    ensures And(Word(s, s, s, s), 0x0000ff00) == Word(0, 0, s, 0)
    ensures And(Word(s, s, s, s), 0x000000ff) == Word(0, 0, 0, s)
  {
  }

  lemma DecLastColumnSubstitutes(a: word, b: word, c: word, d: word, k: word)
    ensures DecLastColumn(a, b, c, d, k)
         == XorW(Word(InvSBox(Byte3(a)), InvSBox(Byte2(b)), InvSBox(Byte1(c)), InvSBox(Byte0(d))), k)
  {
    hide InvSBox, And, XorW, Xor4, Xor5, Word, Byte3, Byte2, Byte1, Byte0;
    var p, q, r, s := InvSBox(Byte3(a)), InvSBox(Byte2(b)), InvSBox(Byte1(c)), InvSBox(Byte0(d));
    MaskedBytes(p);
    MaskedBytes(q);
    MaskedBytes(r);
    MaskedBytes(s);
    Xor5Last(And(Td4(Byte3(a)), 0xff000000), And(Td4(Byte2(b)), 0x00ff0000),
             And(Td4(Byte1(c)), 0x0000ff00), And(Td4(Byte0(d)), 0x000000ff), k);
    Xor4OfBytes(p, q, r, s);
  }

  /** The mixing step of the key expansion is SubWord(RotWord(..)); after a rotation to the right it is SubWord. */
  lemma SetupMixSubstitutes(w: word)
    ensures SetupMix(w) == SubWord(RotWord(w))
    ensures SetupMix(Ror8(w)) == SubWord(w)
  {
    hide SBox, Xor4, Word, Byte3, Byte2, Byte1, Byte0, Ror8;
    var a, b, c, d := Byte3(w), Byte2(w), Byte1(w), Byte0(w);
    WordOfBytes(w);
    BytesOfWord(b, c, d, a);
    Ror8OfWord(a, b, c, d);
    BytesOfWord(d, a, b, c);
    Xor4OfBytes(SBox(b), SBox(c), SBox(d), SBox(a));
    Xor4OfBytes(SBox(a), SBox(b), SBox(c), SBox(d));
  }

  lemma RconTableIsRcon(i: nat)
    requires i < 10
    ensures RconTable(i) == Rcon(i + 1)
  {
    assert RconByte(2) == 0x02 && RconByte(3) == 0x04 && RconByte(4) == 0x08 && RconByte(5) == 0x10;
    assert RconByte(6) == 0x20 && RconByte(7) == 0x40 && RconByte(8) == 0x80 && RconByte(9) == 0x1b;
    assert RconByte(10) == 0x36;
  }

  // ---- rounds

  function EncRound(s: State, k: State): State {
    State(EncColumn(s.c0, s.c1, s.c2, s.c3, k.c0), EncColumn(s.c1, s.c2, s.c3, s.c0, k.c1),
          EncColumn(s.c2, s.c3, s.c0, s.c1, k.c2), EncColumn(s.c3, s.c0, s.c1, s.c2, k.c3))
  }

  function EncLastRound(s: State, k: State): State {
    State(EncLastColumn(s.c0, s.c1, s.c2, s.c3, k.c0), EncLastColumn(s.c1, s.c2, s.c3, s.c0, k.c1),
          EncLastColumn(s.c2, s.c3, s.c0, s.c1, k.c2), EncLastColumn(s.c3, s.c0, s.c1, s.c2, k.c3))
  }

  function DecRound(s: State, k: State): State {
    State(DecColumn(s.c0, s.c3, s.c2, s.c1, k.c0), DecColumn(s.c1, s.c0, s.c3, s.c2, k.c1),
          DecColumn(s.c2, s.c1, s.c0, s.c3, k.c2), DecColumn(s.c3, s.c2, s.c1, s.c0, k.c3))
  }

  function DecLastRound(s: State, k: State): State {
    State(DecLastColumn(s.c0, s.c3, s.c2, s.c1, k.c0), DecLastColumn(s.c1, s.c0, s.c3, s.c2, k.c1),
          DecLastColumn(s.c2, s.c1, s.c0, s.c3, k.c2), DecLastColumn(s.c3, s.c2, s.c1, s.c0, k.c3))
  }

  lemma SubWordBytes(w: word)
    ensures var v := SubWord(w);
            && Byte3(v) == SBox(Byte3(w)) && Byte2(v) == SBox(Byte2(w))
            && Byte1(v) == SBox(Byte1(w)) && Byte0(v) == SBox(Byte0(w))
  {
    hide Word, Byte3, Byte2, Byte1, Byte0, SBox;
    BytesOfWord(SBox(Byte3(w)), SBox(Byte2(w)), SBox(Byte1(w)), SBox(Byte0(w)));
  }

  /** A column of SubBytes and ShiftRows, and MixColumn of it. */
  lemma ShiftedSub(a: word, b: word, c: word, d: word)
    ensures var w := Word(Byte3(SubWord(a)), Byte2(SubWord(b)), Byte1(SubWord(c)), Byte0(SubWord(d)));
            && w == Word(SBox(Byte3(a)), SBox(Byte2(b)), SBox(Byte1(c)), SBox(Byte0(d)))
            && MixColumn(w) == MixBytes(SBox(Byte3(a)), SBox(Byte2(b)), SBox(Byte1(c)), SBox(Byte0(d)))
  {
    hide Word, Byte3, Byte2, Byte1, Byte0, SBox, SubWord, MixBytes;
    SubWordBytes(a);
    SubWordBytes(b);
    SubWordBytes(c);
    SubWordBytes(d);
    BytesOfWord(SBox(Byte3(a)), SBox(Byte2(b)), SBox(Byte1(c)), SBox(Byte0(d)));
  }

  lemma InvShiftedSub(a: word, b: word, c: word, d: word)
    ensures var w := Word(Byte3(InvSubWord(a)), Byte2(InvSubWord(b)), Byte1(InvSubWord(c)), Byte0(InvSubWord(d)));
            && w == Word(InvSBox(Byte3(a)), InvSBox(Byte2(b)), InvSBox(Byte1(c)), InvSBox(Byte0(d)))
            && InvMixColumn(w) == InvMixBytes(InvSBox(Byte3(a)), InvSBox(Byte2(b)), InvSBox(Byte1(c)),
              InvSBox(Byte0(d)))
  {
    hide Word, Byte3, Byte2, Byte1, Byte0, InvSBox, InvSubWord, InvMixBytes;
    InvSubWordBytes(a);
    InvSubWordBytes(b);
    InvSubWordBytes(c);
    InvSubWordBytes(d);
    BytesOfWord(InvSBox(Byte3(a)), InvSBox(Byte2(b)), InvSBox(Byte1(c)), InvSBox(Byte0(d)));
  }

  /** A round of sixteen table look-ups is a round of the standard. */
  lemma EncRoundIsRound(s: State, k: State)
    ensures EncRound(s, k) == Round(s, k)
    ensures EncLastRound(s, k) == AddRoundKey(ShiftRows(SubBytes(s)), k)
  {
    hide EncColumn, EncLastColumn, MixColumn, MixBytes, XorW, SubWord, SBox, Word, Byte3, Byte2, Byte1, Byte0;
    var State(p, q, r, t) := s;
    ShiftedSub(p, q, r, t);
    ShiftedSub(q, r, t, p);
    ShiftedSub(r, t, p, q);
    ShiftedSub(t, p, q, r);
    EncColumnMixes(p, q, r, t, k.c0);
    EncColumnMixes(q, r, t, p, k.c1);
    EncColumnMixes(r, t, p, q, k.c2);
    EncColumnMixes(t, p, q, r, k.c3);
    EncLastColumnSubstitutes(p, q, r, t, k.c0);
    EncLastColumnSubstitutes(q, r, t, p, k.c1);
    EncLastColumnSubstitutes(r, t, p, q, k.c2);
    EncLastColumnSubstitutes(t, p, q, r, k.c3);
  }

  lemma DecRoundIsEqInvRound(s: State, k: State)
    ensures DecRound(s, k) == EqInvRound(s, k)
    ensures DecLastRound(s, k) == AddRoundKey(InvShiftRows(InvSubBytes(s)), k)
  {
    hide DecColumn, DecLastColumn, InvMixColumn, InvMixBytes, XorW, InvSubWord, InvSBox, Word;
    hide Byte3, Byte2, Byte1, Byte0;
    var State(p, q, r, t) := s;
    InvShiftedSub(p, t, r, q);
    InvShiftedSub(q, p, t, r);
    InvShiftedSub(r, q, p, t);
    InvShiftedSub(t, r, q, p);
    DecColumnMixes(p, t, r, q, k.c0);
    DecColumnMixes(q, p, t, r, k.c1);
    DecColumnMixes(r, q, p, t, k.c2);
    DecColumnMixes(t, r, q, p, k.c3);
    DecLastColumnSubstitutes(p, t, r, q, k.c0);
    DecLastColumnSubstitutes(q, p, t, r, k.c1);
    DecLastColumnSubstitutes(r, q, p, t, k.c2);
    DecLastColumnSubstitutes(t, r, q, p, k.c3);
  }
}
