/** FIPS 197 once more, in the words of its pseudo-code: numbers instead of names, and loops instead of recursion. */
module Fips197Standard {
  import opened Buffers
  import opened Fips197
  import opened Fips197Laws
  import opened GaloisField
  import opened SBoxTables
  import opened Words

  // ---- the field and the S-box

  /** Section 4.2.1: multiplication by x, and by x + 1. */
  lemma Doubling(a: byte)
    ensures XTime(a) == if a < 0x80 then a + a else (a + a) ^ 0x1b
    ensures Mul(a, 1) == a && Mul(a, 2) == XTime(a) && Mul(a, 3) == a ^ XTime(a)
  {
    SmallMultiples(a);
    hide Mul;
    assert XTime(a) == if a < 0x80 then a + a else (a + a) ^ 0x1b;
  }

  /** Section 5.1.1: the first entry, the example that the section gives, and the last. */
  lemma SBoxEntries()
    ensures SBox(0x00) == 0x63 && SBox(0x53) == 0xed && SBox(0xff) == 0x16
  {
  }

  // ---- the transformations

  /** Section 5.1.1: every byte of a word through the S-box. */
  lemma SubWordForm(a: byte, b: byte, c: byte, d: byte)
    ensures SubWord(Word(a, b, c, d)) == Word(SBox(a), SBox(b), SBox(c), SBox(d))
  {
    BytesOfWord(a, b, c, d);
    hide SBox;
  }

  /** Section 5.1.3: a column times {02} {03} {01} {01} and the rotations of that row. */
  lemma MixColumnForm(a: byte, b: byte, c: byte, d: byte)
    ensures MixColumn(Word(a, b, c, d))
         == Word(Terms(XTime(a), XTime(b) ^ b, c, d), Terms(a, XTime(b), XTime(c) ^ c, d),
                 Terms(a, b, XTime(c), XTime(d) ^ d), Terms(XTime(a) ^ a, b, c, XTime(d)))
  {
    hide Mul, XTime, Terms;
    BytesOfWord(a, b, c, d);
    SmallMultiples(a);
    SmallMultiples(b);
    SmallMultiples(c);
    SmallMultiples(d);
  }

  lemma XorWIs(a: word, b: word)
    ensures XorW(a, b) == a ^ b
  {
  }

  /** Section 5.1.4. */
  lemma AddRoundKeyForm(s: State, k: State)
    ensures var t := AddRoundKey(s, k);
            && t.c0 == XorW(s.c0, k.c0) && t.c1 == XorW(s.c1, k.c1)
            && t.c2 == XorW(s.c2, k.c2) && t.c3 == XorW(s.c3, k.c3)
  {
    hide XorW;
  }

  // ---- the cipher

  /** Figure 5: `st` are the states of the loop over the rounds but the last. */
  ghost predicate IsCipherRun(s: State, w: seq<word>, nr: nat, st: seq<State>) {
    && 1 <= nr == |st| && 4 * nr + 4 <= |w|
    && st[0] == AddRoundKey(s, State(w[0], w[1], w[2], w[3]))
    && forall i: nat :: 1 <= i < nr ==> IsCipherRound(st[i - 1], w, i, st[i])
  }

  ghost predicate IsCipherRound(s: State, w: seq<word>, i: nat, t: State) {
    && 4 * i + 4 <= |w|
    && t == AddRoundKey(MixColumns(ShiftRows(SubBytes(s))), State(w[4 * i], w[4 * i + 1], w[4 * i + 2], w[4 * i + 3]))
  }

  lemma {:induction false} RunRounds(s: State, w: seq<word>, nr: nat, st: seq<State>, n: nat)
    requires IsCipherRun(s, w, nr, st) && n < nr
    ensures Rounds(s, w, n) == st[n]
  {
    hide AddRoundKey, MixColumns, ShiftRows, SubBytes;
    if n > 0 {
      RunRounds(s, w, nr, st, n - 1);
      assert IsCipherRound(st[n - 1], w, n, st[n]);
    }
  }

  /** The cipher is any such run with the last round, which does not mix columns. */
  lemma CipherIsRun(s: State, w: seq<word>, nr: nat, st: seq<State>)
    requires IsCipherRun(s, w, nr, st)
    ensures Cipher(s, w, nr)
         == AddRoundKey(ShiftRows(SubBytes(st[nr - 1])),
                        State(w[4 * nr], w[4 * nr + 1], w[4 * nr + 2], w[4 * nr + 3]))
  {
    hide Rounds, IsCipherRound, AddRoundKey, ShiftRows, SubBytes;
    RunRounds(s, w, nr, st, nr - 1);
  }

  /** 10, 12 and 14 rounds; and the bytes of a block fill the columns of the state one after the other. */
  lemma EncryptIsRun(key: seq<byte>, block: seq<byte>, st: seq<State>)
    requires |key| in {16, 24, 32} && |block| == 16
    requires var nr := if |key| == 16 then 10 else if |key| == 24 then 12 else 14;
             var start := State(Word(block[0], block[1], block[2], block[3]),
                                Word(block[4], block[5], block[6], block[7]),
                                Word(block[8], block[9], block[10], block[11]),
                                Word(block[12], block[13], block[14], block[15]));
             IsCipherRun(start, Expansion(key), nr, st)
    ensures var nr := if |key| == 16 then 10 else if |key| == 24 then 12 else 14;
            var w, last := Expansion(key), ShiftRows(SubBytes(st[nr - 1]));
            Encrypt(key, block)
              == StoreWord(XorW(last.c0, w[4 * nr])) + StoreWord(XorW(last.c1, w[4 * nr + 1]))
                 + StoreWord(XorW(last.c2, w[4 * nr + 2])) + StoreWord(XorW(last.c3, w[4 * nr + 3]))
  {
    hide Word, StoreWord, Expansion, IsCipherRound, Cipher, ShiftRows, SubBytes, AddRoundKey, XorW;
    var nr := if |key| == 16 then 10 else if |key| == 24 then 12 else 14;
    var w := Expansion(key);
    CipherIsRun(LoadState(block), w, nr, st);
    AddRoundKeyForm(ShiftRows(SubBytes(st[nr - 1])), State(w[4 * nr], w[4 * nr + 1], w[4 * nr + 2], w[4 * nr + 3]));
  }

  // ---- the key expansion

  /** The round constants of section 5.2. */
  function RoundConstant(i: nat): word
    requires 1 <= i <= 10
  {
    [0x01000000, 0x02000000, 0x04000000, 0x08000000, 0x10000000,
     0x20000000, 0x40000000, 0x80000000, 0x1b000000, 0x36000000][i - 1]
  }

  lemma RconIsConstant(i: nat)
    requires 1 <= i <= 10
    ensures Rcon(i) == RoundConstant(i)
  {
    assert RconByte(2) == 0x02 && RconByte(3) == 0x04 && RconByte(4) == 0x08 && RconByte(5) == 0x10;
    assert RconByte(6) == 0x20 && RconByte(7) == 0x40 && RconByte(8) == 0x80 && RconByte(9) == 0x1b;
    assert RconByte(10) == 0x36;
  }

  function TurnedLeft(w: word): word { (w << 8) | (w >> 24) }

  lemma RotWordTurns(w: word)
    ensures RotWord(w) == TurnedLeft(w)
  {
  }

  /** Figure 11: the word `i` of the schedule, from the ones before it. */
  ghost predicate IsNextWord(w: seq<word>, nk: nat, i: nat)
    requires 4 <= nk <= i < |w| && i / nk <= 10
  {
    var temp := w[i - 1];
    w[i] == XorW(w[i - nk], if i % nk == 0 then XorW(SubWord(TurnedLeft(temp)), RoundConstant(i / nk))
                            else if nk == 8 && i % nk == 4 then SubWord(temp)
                            else temp)
  }

  lemma NextWord(w: seq<word>, key: seq<word>, i: nat)
    requires |key| in {4, 6, 8} && |key| <= i < |w| && i / |key| <= 10 && IsExpansion(w, key, |w|)
    ensures IsNextWord(w, |key|, i)
  {
    hide SubWord, RotWord, Rcon, RoundConstant, XorW, TurnedLeft;
    var nk, temp := |key|, w[i - 1];
    assert w[i] == ExpandedWord(key, i) && temp == ExpandedWord(key, i - 1) && w[i - nk] == ExpandedWord(key, i - nk);
    if i % nk == 0 {
      RotWordTurns(temp);
      RconIsConstant(i / nk);
    }
  }

  lemma KeyWordsAre(key: seq<byte>, i: nat)
    requires |key| % 4 == 0 && 4 * i + 4 <= |key|
    ensures KeyWords(key)[i] == Word(key[4 * i], key[4 * i + 1], key[4 * i + 2], key[4 * i + 3])
  {
    hide Word;
  }

  /** The schedule begins with the words of the key, and goes on word by word. */
  lemma ExpansionIsRun(key: seq<byte>, i: nat)
    requires |key| in {16, 24, 32} && i < |Expansion(key)|
    ensures |Expansion(key)| == if |key| == 16 then 44 else if |key| == 24 then 52 else 60
    ensures if i < |key| / 4
            then Expansion(key)[i] == Word(key[4 * i], key[4 * i + 1], key[4 * i + 2], key[4 * i + 3])
            else IsNextWord(Expansion(key), |key| / 4, i)
  {
    hide Word, IsNextWord;
    if i < |key| / 4 {
      KeyWordsAre(key, i);
    } else {
      NextWord(Expansion(key), KeyWords(key), i);
    }
  }
}
