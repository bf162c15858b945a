/** The AES block cipher of aes.c: the key set-up, and encryption and decryption of one block, in the unrolled and in
    the rolled form of their loops. */
module Aes {
  import opened Buffers
  import opened Errors
  import opened GaloisField
  import opened SBoxTables
  import opened Words
  import opened Fips197
  import opened Fips197Laws
  import opened AesTables

  /** struct rijndael_key */
  class RijndaelKey {
    const eK: array<word>
    const dK: array<word>
    var nr: int

    constructor ()
      ensures fresh(eK) && fresh(dK) && eK != dK && eK.Length == dK.Length == 60
    {
      eK := new word[60];
      dK := new word[60];
      nr := 0;
    }

    ghost predicate Shaped()
    {
      eK != dK && eK.Length == dK.Length == 60
    }

    /** What `Setup` establishes for `key`. */
    ghost predicate Scheduled(key: seq<byte>)
      reads this, eK, dK
      requires Shaped() && |key| in {16, 24, 32}
    {
      && nr == NumRounds(|key|)
      && eK[..4 * nr + 4] == Expansion(key)
      && IsInverseSchedule(dK[..], eK[..], nr)
    }
  }

  // ---- LOAD32H and STORE32H

  function Load32H(a: array<byte>, i: nat): word
    requires i + 4 <= a.Length
    reads a
    ensures Load32H(a, i) == LoadWord(a[..], i)
  {
    Word(a[i], a[i + 1], a[i + 2], a[i + 3])
  }

  method Store32H(w: word, a: array<byte>, i: nat)
    requires i + 4 <= a.Length
    modifies a
    ensures Written(a[..], old(a[..]), i, StoreWord(w))
  {
    a[i] := Byte3(w);
    a[i + 1] := Byte2(w);
    a[i + 2] := Byte1(w);
    a[i + 3] := Byte0(w);
  }

  // ---- key expansion

  lemma ExpandedAtMultiple(key: seq<word>, i: nat)
    requires |key| in {4, 6, 8} && i >= |key| && i % |key| == 0 && i / |key| <= 10
    ensures ExpandedWord(key, i)
         == XorW(XorW(ExpandedWord(key, i - |key|), SetupMix(ExpandedWord(key, i - 1))), RconTable(i / |key| - 1))
  {
    hide XorW, SubWord, RotWord, SetupMix, Rcon, RconTable;
    var temp := ExpandedWord(key, i - 1);
    SetupMixSubstitutes(temp);
    assert i / |key| >= 1;
    RconTableIsRcon(i / |key| - 1);
    XorWAssociative(ExpandedWord(key, i - |key|), SetupMix(temp), Rcon(i / |key|));
  }

  lemma ExpandedAtMiddle(key: seq<word>, i: nat)
    requires |key| == 8 && i >= 8 && i % 8 == 4
    ensures ExpandedWord(key, i) == XorW(ExpandedWord(key, i - 8), SetupMix(Ror8(ExpandedWord(key, i - 1))))
  {
    hide XorW, SubWord, SetupMix, Ror8;
    SetupMixSubstitutes(ExpandedWord(key, i - 1));
  }

  lemma ExpandedElsewhere(key: seq<word>, i: nat)
    requires |key| in {4, 6, 8} && i >= |key| && i % |key| != 0 && (|key| == 8 ==> i % 8 != 4)
    ensures ExpandedWord(key, i) == XorW(ExpandedWord(key, i - |key|), ExpandedWord(key, i - 1))
  {
    hide XorW;
  }

  lemma XorWAssociative(a: word, b: word, c: word)
    ensures XorW(XorW(a, b), c) == XorW(a, XorW(b, c))
  {
    assert XorW(a ^ b, c) == XorW(a, b ^ c);
  }

  /** Only the words from `lo` to `hi` have been written. */
  ghost predicate OnlyWords(now: seq<word>, before: seq<word>, lo: nat, hi: nat) {
    |now| == |before| && forall m :: 0 <= m < |now| && (m < lo || m >= hi) ==> now[m] == before[m]
  }

  lemma NothingWritten(w: seq<word>, n: nat)
    ensures OnlyWords(w, w, n, n)
  {
  }

  lemma OnlyWordsTwice(now: seq<word>, middle: seq<word>, before: seq<word>, lo: nat, m: nat, hi: nat)
    requires lo <= m <= hi && OnlyWords(middle, before, lo, m) && OnlyWords(now, middle, m, hi)
    ensures OnlyWords(now, before, lo, hi)
  {
  }

  /** One store into the schedule, which extends what is expanded by one word. */
  method Put(eK: array<word>, n: nat, w: word, ghost key: seq<word>)
    requires |key| in {4, 6, 8} && n < eK.Length
    requires IsExpansion(eK[..], key, n) && w == ExpandedWord(key, n)
    modifies eK
    ensures IsExpansion(eK[..], key, n + 1) && OnlyWords(eK[..], old(eK[..]), n, n + 1)
  {
    hide ExpandedWord;
    eK[n] := w;
  }

  /** Four words in a row: the first is given, each of the others is the sum of its predecessor and the word `nk`
      back. */
  method PutFour(eK: array<word>, n: nat, nk: nat, w: word, ghost key: seq<word>)
    requires |key| == nk && nk in {4, 6, 8} && nk <= n && n + 4 <= eK.Length
    requires IsExpansion(eK[..], key, n) && w == ExpandedWord(key, n)
    requires ExpandedWord(key, n + 1) == XorW(ExpandedWord(key, n + 1 - nk), ExpandedWord(key, n))
    requires ExpandedWord(key, n + 2) == XorW(ExpandedWord(key, n + 2 - nk), ExpandedWord(key, n + 1))
    requires ExpandedWord(key, n + 3) == XorW(ExpandedWord(key, n + 3 - nk), ExpandedWord(key, n + 2))
    modifies eK
    ensures IsExpansion(eK[..], key, n + 4) && OnlyWords(eK[..], old(eK[..]), n, n + 4)
  {
    hide XorW, ExpandedWord, OnlyWords;
    ghost var w0 := eK[..];
    Put(eK, n, w, key);
    ghost var w1 := eK[..];
    Put(eK, n + 1, XorW(eK[n + 1 - nk], eK[n]), key);
    ghost var w2 := eK[..];
    OnlyWordsTwice(w2, w1, w0, n, n + 1, n + 2);
    Put(eK, n + 2, XorW(eK[n + 2 - nk], eK[n + 1]), key);
    ghost var w3 := eK[..];
    OnlyWordsTwice(w3, w2, w0, n, n + 2, n + 3);
    Put(eK, n + 3, XorW(eK[n + 3 - nk], eK[n + 2]), key);
    OnlyWordsTwice(eK[..], w3, w0, n, n + 3, n + 4);
  }

  lemma Expansion128(key: seq<word>, i: nat)
    requires |key| == 4 && i < 10
    ensures var rk := 4 * i;
            && ExpandedWord(key, rk + 4)
              == XorW(XorW(ExpandedWord(key, rk), SetupMix(ExpandedWord(key, rk + 3))), RconTable(i))
            && ExpandedWord(key, rk + 5) == XorW(ExpandedWord(key, rk + 1), ExpandedWord(key, rk + 4))
            && ExpandedWord(key, rk + 6) == XorW(ExpandedWord(key, rk + 2), ExpandedWord(key, rk + 5))
            && ExpandedWord(key, rk + 7) == XorW(ExpandedWord(key, rk + 3), ExpandedWord(key, rk + 6))
  {
    hide XorW, SetupMix, RconTable, ExpandedWord;
    var rk := 4 * i;
    ExpandedAtMultiple(key, rk + 4);
    ExpandedElsewhere(key, rk + 5);
    ExpandedElsewhere(key, rk + 6);
    ExpandedElsewhere(key, rk + 7);
  }

  method Expand128(eK: array<word>, ghost key: seq<word>)
    requires |key| == 4 && eK.Length == 60 && IsExpansion(eK[..], key, 4)
    modifies eK
    ensures IsExpansion(eK[..], key, 44) && OnlyWords(eK[..], old(eK[..]), 4, 44)
  {
    hide XorW, SetupMix, RconTable, ExpandedWord, OnlyWords;
    ghost var before := eK[..];
    NothingWritten(before, 4);
    var i, rk := 0, 0;
    while true
      invariant 0 <= i < 10 && rk == 4 * i
      invariant IsExpansion(eK[..], key, rk + 4) && OnlyWords(eK[..], before, 4, rk + 4)
      decreases 10 - i
    {
      Expansion128(key, i);
      ghost var middle := eK[..];
      var temp := eK[rk + 3];
      PutFour(eK, rk + 4, 4, XorW(XorW(eK[rk], SetupMix(temp)), RconTable(i)), key);
      OnlyWordsTwice(eK[..], middle, before, 4, rk + 4, rk + 8);
      i := i + 1;
      if i == 10 {
        break;
      }
      rk := rk + 4;
    }
  }

  lemma Expansion192(key: seq<word>, i: nat)
    requires |key| == 6 && i < 8
    ensures var rk := 6 * i;
            && ExpandedWord(key, rk + 6)
              == XorW(XorW(ExpandedWord(key, rk), SetupMix(ExpandedWord(key, rk + 5))), RconTable(i))
            && ExpandedWord(key, rk + 7) == XorW(ExpandedWord(key, rk + 1), ExpandedWord(key, rk + 6))
            && ExpandedWord(key, rk + 8) == XorW(ExpandedWord(key, rk + 2), ExpandedWord(key, rk + 7))
            && ExpandedWord(key, rk + 9) == XorW(ExpandedWord(key, rk + 3), ExpandedWord(key, rk + 8))
            && ExpandedWord(key, rk + 10) == XorW(ExpandedWord(key, rk + 4), ExpandedWord(key, rk + 9))
            && ExpandedWord(key, rk + 11) == XorW(ExpandedWord(key, rk + 5), ExpandedWord(key, rk + 10))
  {
    hide XorW, SetupMix, RconTable, ExpandedWord;
    var rk := 6 * i;
    ExpandedAtMultiple(key, rk + 6);
    ExpandedElsewhere(key, rk + 7);
    ExpandedElsewhere(key, rk + 8);
    ExpandedElsewhere(key, rk + 9);
    ExpandedElsewhere(key, rk + 10);
    ExpandedElsewhere(key, rk + 11);
  }

  method Expand192(eK: array<word>, ghost key: seq<word>)
    requires |key| == 6 && eK.Length == 60 && IsExpansion(eK[..], key, 6)
    modifies eK
    ensures IsExpansion(eK[..], key, 52) && OnlyWords(eK[..], old(eK[..]), 6, 52)
  {
    hide XorW, SetupMix, RconTable, ExpandedWord, OnlyWords;
    ghost var before := eK[..];
    NothingWritten(before, 6);
    var i, rk := 0, 0;
    while true
      invariant 0 <= i < 8 && rk == 6 * i
      invariant IsExpansion(eK[..], key, rk + 6) && OnlyWords(eK[..], before, 6, rk + 6)
      decreases 8 - i
    {
      Expansion192(key, i);
      ghost var middle := eK[..];
      var temp := eK[rk + 5];
      PutFour(eK, rk + 6, 6, XorW(XorW(eK[rk], SetupMix(temp)), RconTable(i)), key);
      OnlyWordsTwice(eK[..], middle, before, 6, rk + 6, rk + 10);
      i := i + 1;
      if i == 8 {
        break;
      }
      ghost var w0 := eK[..];
      Put(eK, rk + 10, XorW(eK[rk + 4], eK[rk + 9]), key);
      ghost var w1 := eK[..];
      OnlyWordsTwice(w1, w0, before, 6, rk + 10, rk + 11);
      Put(eK, rk + 11, XorW(eK[rk + 5], eK[rk + 10]), key);
      OnlyWordsTwice(eK[..], w1, before, 6, rk + 11, rk + 12);
      rk := rk + 6;
    }
  }

  lemma Expansion256(key: seq<word>, i: nat)
    requires |key| == 8 && i < 7
    ensures var rk := 8 * i;
            && ExpandedWord(key, rk + 8)
              == XorW(XorW(ExpandedWord(key, rk), SetupMix(ExpandedWord(key, rk + 7))), RconTable(i))
            && ExpandedWord(key, rk + 9) == XorW(ExpandedWord(key, rk + 1), ExpandedWord(key, rk + 8))
            && ExpandedWord(key, rk + 10) == XorW(ExpandedWord(key, rk + 2), ExpandedWord(key, rk + 9))
            && ExpandedWord(key, rk + 11) == XorW(ExpandedWord(key, rk + 3), ExpandedWord(key, rk + 10))
  {
    hide XorW, SetupMix, RconTable, ExpandedWord, Ror8;
    var rk := 8 * i;
    ExpandedAtMultiple(key, rk + 8);
    ExpandedElsewhere(key, rk + 9);
    ExpandedElsewhere(key, rk + 10);
    ExpandedElsewhere(key, rk + 11);
  }

  lemma Expansion256Middle(key: seq<word>, i: nat)
    requires |key| == 8 && i < 7
    ensures var rk := 8 * i;
            && ExpandedWord(key, rk + 12) == XorW(ExpandedWord(key, rk + 4), SetupMix(Ror8(ExpandedWord(key, rk + 11))))
            && ExpandedWord(key, rk + 13) == XorW(ExpandedWord(key, rk + 5), ExpandedWord(key, rk + 12))
            && ExpandedWord(key, rk + 14) == XorW(ExpandedWord(key, rk + 6), ExpandedWord(key, rk + 13))
            && ExpandedWord(key, rk + 15) == XorW(ExpandedWord(key, rk + 7), ExpandedWord(key, rk + 14))
  {
    hide XorW, SetupMix, RconTable, ExpandedWord, Ror8;
    var rk := 8 * i;
    ExpandedAtMiddle(key, rk + 12);
    ExpandedElsewhere(key, rk + 13);
    ExpandedElsewhere(key, rk + 14);
    ExpandedElsewhere(key, rk + 15);
  }

  /** The two halves of a turn of the loop for 32-byte keys. */
  method FirstHalf256(eK: array<word>, i: nat, rk: nat, ghost key: seq<word>, ghost before: seq<word>)
    requires |key| == 8 && eK.Length == 60 && i < 7 && rk == 8 * i
    requires IsExpansion(eK[..], key, rk + 8) && OnlyWords(eK[..], before, 8, rk + 8)
    modifies eK
    ensures IsExpansion(eK[..], key, rk + 12) && OnlyWords(eK[..], before, 8, rk + 12)
  {
    hide XorW, SetupMix, RconTable, ExpandedWord, OnlyWords;
    ghost var middle := eK[..];
    Expansion256(key, i);
    var temp := eK[rk + 7];
    PutFour(eK, rk + 8, 8, XorW(XorW(eK[rk], SetupMix(temp)), RconTable(i)), key);
    OnlyWordsTwice(eK[..], middle, before, 8, rk + 8, rk + 12);
  }

  method SecondHalf256(eK: array<word>, i: nat, rk: nat, ghost key: seq<word>, ghost before: seq<word>)
    requires |key| == 8 && eK.Length == 60 && i < 6 && rk == 8 * i
    requires IsExpansion(eK[..], key, rk + 12) && OnlyWords(eK[..], before, 8, rk + 12)
    modifies eK
    ensures IsExpansion(eK[..], key, rk + 16) && OnlyWords(eK[..], before, 8, rk + 16)
  {
    hide XorW, SetupMix, ExpandedWord, Ror8, OnlyWords;
    ghost var middle := eK[..];
    Expansion256Middle(key, i);
    var temp := eK[rk + 11];
    PutFour(eK, rk + 12, 8, XorW(eK[rk + 4], SetupMix(Ror8(temp))), key);
    OnlyWordsTwice(eK[..], middle, before, 8, rk + 12, rk + 16);
  }

  method Expand256(eK: array<word>, ghost key: seq<word>)
    requires |key| == 8 && eK.Length == 60 && IsExpansion(eK[..], key, 8)
    modifies eK
    ensures IsExpansion(eK[..], key, 60) && OnlyWords(eK[..], old(eK[..]), 8, 60)
  {
    hide IsExpansion, OnlyWords;
    ghost var before := eK[..];
    NothingWritten(before, 8);
    var i, rk := 0, 0;
    while true
      invariant 0 <= i < 7 && rk == 8 * i
      invariant IsExpansion(eK[..], key, rk + 8) && OnlyWords(eK[..], before, 8, rk + 8)
      decreases 7 - i
    {
      FirstHalf256(eK, i, rk, key, before);
      i := i + 1;
      if i == 7 {
        break;
      }
      SecondHalf256(eK, i - 1, rk, key, before);
      rk := rk + 8;
    }
  }

  // ---- the inverse schedule

  /** `now` differs from `before` in round key `j` only. */
  ghost predicate OnlyRoundKey(now: seq<word>, before: seq<word>, j: nat)
  {
    && |now| == |before|
    && forall n: nat :: n != j && 4 * n + 4 <= |now| ==> RoundKey(now, n) == RoundKey(before, n)
  }

  /** Four stores at round key `j`. */
  lemma FourStores(now: seq<word>, before: seq<word>, j: nat, k: State)
    requires 4 * j + 4 <= |before|
    requires now == before[4 * j := k.c0][4 * j + 1 := k.c1][4 * j + 2 := k.c2][4 * j + 3 := k.c3]
    ensures RoundKey(now, j) == k && OnlyRoundKey(now, before, j)
  {
  }

  method CopyRoundKey(eK: array<word>, rrk0: nat, dK: array<word>, rk0: nat, ghost m: nat, ghost j: nat)
    requires eK != dK && rrk0 == 4 * m && 4 * m + 4 <= eK.Length && rk0 == 4 * j && 4 * j + 4 <= dK.Length
    modifies dK
    ensures eK[..] == old(eK[..])
    ensures RoundKey(dK[..], j) == RoundKey(eK[..], m)
    ensures OnlyRoundKey(dK[..], old(dK[..]), j)
  {
    ghost var before, k := dK[..], RoundKey(eK[..], m);
    var rk, rrk := rk0, rrk0;
    dK[rk], rk, rrk := eK[rrk], rk + 1, rrk + 1;
    dK[rk], rk, rrk := eK[rrk], rk + 1, rrk + 1;
    dK[rk], rk, rrk := eK[rrk], rk + 1, rrk + 1;
    dK[rk] := eK[rrk];
    FourStores(dK[..], before, j, k);
  }

  method MixRoundKey(eK: array<word>, rrk: nat, dK: array<word>, rk: nat, ghost m: nat, ghost j: nat)
    requires eK != dK && rrk == 4 * m && 4 * m + 4 <= eK.Length && rk == 4 * j && 4 * j + 4 <= dK.Length
    modifies dK
    ensures eK[..] == old(eK[..])
    ensures RoundKey(dK[..], j) == InvMixColumns(RoundKey(eK[..], m))
    ensures OnlyRoundKey(dK[..], old(dK[..]), j)
  {
    hide InvMixColumn, InvKeyWord, OnlyRoundKey;
    ghost var before, k := dK[..], InvMixColumns(RoundKey(eK[..], m));
    InvKeyWordMixes(eK[rrk]);
    InvKeyWordMixes(eK[rrk + 1]);
    InvKeyWordMixes(eK[rrk + 2]);
    InvKeyWordMixes(eK[rrk + 3]);
    var temp := eK[rrk];
    dK[rk] := InvKeyWord(temp);
    temp := eK[rrk + 1];
    dK[rk + 1] := InvKeyWord(temp);
    temp := eK[rrk + 2];
    dK[rk + 2] := InvKeyWord(temp);
    temp := eK[rrk + 3];
    dK[rk + 3] := InvKeyWord(temp);
    FourStores(dK[..], before, j, k);
  }

  /** Writing round key `i` extends the part of the inverse schedule that is done. */
  lemma InverseExtends(now: seq<word>, before: seq<word>, w: seq<word>, nr: nat, i: nat)
    requires i <= nr && 4 * nr + 4 <= |w| && 4 * nr + 4 <= |now|
    requires OnlyRoundKey(now, before, i) && InverseAt(now, w, nr, i)
    requires forall n: nat :: n < i ==> InverseAt(before, w, nr, n)
    ensures forall n: nat :: n <= i ==> InverseAt(now, w, nr, n)
  {
    hide InvMixColumns, RoundKey;
    forall n: nat | n < i
      ensures InverseAt(now, w, nr, n)
    {
      assert InverseAt(before, w, nr, n);
    }
  }

  /** `now` differs from `before` in the first nr + 1 round keys only. */
  ghost predicate OnlyFirstKeys(now: seq<word>, before: seq<word>, nr: nat) {
    |now| == |before| == 60 && forall n: nat :: nr < n < 15 ==> RoundKey(now, n) == RoundKey(before, n)
  }

  lemma NothingButFirst(w: seq<word>, nr: nat)
    requires |w| == 60
    ensures OnlyFirstKeys(w, w, nr)
  {
  }

  lemma OnlyFirstKeysKept(now: seq<word>, middle: seq<word>, before: seq<word>, nr: nat, j: nat)
    requires j <= nr && OnlyFirstKeys(middle, before, nr) && OnlyRoundKey(now, middle, j)
    ensures OnlyFirstKeys(now, before, nr)
  {
    hide RoundKey;
  }

  lemma OnlyFirstWords(now: seq<word>, before: seq<word>, nr: nat)
    requires OnlyFirstKeys(now, before, nr)
    ensures OnlyWords(now, before, 0, 4 * nr + 4)
  {
    forall m: nat | 4 * nr + 4 <= m < 60
      ensures now[m] == before[m]
    {
      assert RoundKey(now, m / 4) == RoundKey(before, m / 4);
      assert m == 4 * (m / 4) + m % 4;
    }
  }

  method InverseSchedule(eK: array<word>, dK: array<word>, keylen: nat, nr: nat)
    requires keylen in {16, 24, 32} && nr == NumRounds(keylen)
    requires eK != dK && eK.Length == dK.Length == 60
    modifies dK
    ensures eK[..] == old(eK[..])
    ensures IsInverseSchedule(dK[..], eK[..], nr)
    ensures OnlyWords(dK[..], old(dK[..]), 0, 4 * nr + 4)
  {
    hide InvMixColumns, RoundKey, OnlyRoundKey, OnlyWords, OnlyFirstKeys;
    ghost var w, d0 := eK[..], dK[..];
    NothingButFirst(d0, nr);
    var rk, rrk := 0, (28 + keylen) - 4;
    CopyRoundKey(eK, rrk, dK, rk, nr, 0);
    OnlyFirstKeysKept(dK[..], d0, d0, nr, 0);
    var i := 1;
    while i < nr
      invariant 1 <= i <= nr && rk == 4 * (i - 1) && rrk == 4 * (nr - (i - 1))
      invariant eK[..] == w && OnlyFirstKeys(dK[..], d0, nr)
      invariant forall n: nat :: n < i ==> InverseAt(dK[..], w, nr, n)
    {
      rrk, rk := rrk - 4, rk + 4;
      ghost var before := dK[..];
      MixRoundKey(eK, rrk, dK, rk, nr - i, i);
      InverseExtends(dK[..], before, w, nr, i);
      OnlyFirstKeysKept(dK[..], before, d0, nr, i);
      i := i + 1;
    }
    rrk, rk := rrk - 4, rk + 4;
    ghost var before := dK[..];
    CopyRoundKey(eK, rrk, dK, rk, 0, nr);
    InverseExtends(dK[..], before, w, nr, nr);
    OnlyFirstKeysKept(dK[..], before, d0, nr, nr);
    OnlyFirstWords(dK[..], d0, nr);
  }

  // ---- SETUP

  method Setup(key: array<byte>, keylen: int, numRounds: int, skey: RijndaelKey) returns (status: Status)
    requires skey.Shaped()
    requires keylen in {16, 24, 32} ==> keylen <= key.Length
    modifies skey, skey.eK, skey.dK
    ensures status == (if keylen !in {16, 24, 32} then InvalidKeySize
                       else if numRounds !in {0, NumRounds(keylen)} then InvalidRounds
                       else Ok)
    ensures status == Ok ==> skey.Scheduled(key[..keylen])
    ensures status == Ok ==> OnlyWords(skey.eK[..], old(skey.eK[..]), 0, 4 * skey.nr + 4)
    ensures status == Ok ==> OnlyWords(skey.dK[..], old(skey.dK[..]), 0, 4 * skey.nr + 4)
    ensures status != Ok ==> unchanged(skey) && unchanged(skey.eK) && unchanged(skey.dK)
  {
    hide LoadWord, ExpandedWord, Word, IsInverseSchedule, OnlyWords, KeyWords, Expansion;
    if keylen != 16 && keylen != 24 && keylen != 32 {
      return InvalidKeySize;
    }
    if numRounds != 0 && numRounds != 10 + (keylen / 8 - 2) * 2 {
      return InvalidRounds;
    }
    skey.nr := 10 + (keylen / 8 - 2) * 2;
    ExpandKey(key, keylen, skey.eK);
    InverseSchedule(skey.eK, skey.dK, keylen, skey.nr);
    return Ok;
  }

  /** The part of SETUP that fills the schedule for encryption, and writes nothing behind it. */
  method ExpandKey(key: array<byte>, keylen: nat, eK: array<word>)
    requires keylen in {16, 24, 32} && keylen <= key.Length && eK.Length == 60
    modifies eK
    ensures key[..] == old(key[..])
    ensures eK[..4 * NumRounds(keylen) + 4] == Expansion(key[..keylen])
    ensures OnlyWords(eK[..], old(eK[..]), 0, 4 * NumRounds(keylen) + 4)
  {
    hide LoadWord, ExpandedWord, Word, OnlyWords, KeyWords, Expansion;
    ghost var bytes := key[..keylen];
    ghost var words, before := KeyWords(bytes), eK[..];
    LoadKey(key, keylen, eK);
    ghost var loaded := eK[..];
    FirstWords(loaded, words);
    if keylen == 16 {
      Expand128(eK, words);
    } else if keylen == 24 {
      Expand192(eK, words);
    } else {
      Expand256(eK, words);
    }
    OnlyWordsTwice(eK[..], loaded, before, 0, keylen / 4, 4 * NumRounds(keylen) + 4);
    ExpansionIs(eK[..], bytes);
  }

  lemma ExpansionIs(w: seq<word>, key: seq<byte>)
    requires |key| in {16, 24, 32} && IsExpansion(w, KeyWords(key), 4 * NumRounds(|key|) + 4)
    ensures w[..4 * NumRounds(|key|) + 4] == Expansion(key)
  {
    hide ExpandedWord, KeyWords;
  }

  lemma FirstWords(w: seq<word>, key: seq<word>)
    requires |key| in {4, 6, 8} && key <= w
    ensures IsExpansion(w, key, |key|)
  {
  }

  /** The words that SETUP loads from the key before it expands them. */
  method LoadKey(key: array<byte>, keylen: nat, eK: array<word>)
    requires keylen in {16, 24, 32} && keylen <= key.Length && eK.Length == 60
    modifies eK
    ensures key[..] == old(key[..])
    ensures KeyWords(key[..keylen]) <= eK[..] && OnlyWords(eK[..], old(eK[..]), 0, keylen / 4)
  {
    hide LoadWord, Word, OnlyWords, KeyWords;
    ghost var b, w0 := key[..], eK[..];
    NothingWritten(w0, 0);
    LoadTwo(key, 0, eK, 0, b, w0);
    LoadTwo(key, 8, eK, 2, b, w0);
    if keylen == 16 {
      LoadedWords(b, keylen, eK[..]);
      return;
    }
    LoadTwo(key, 16, eK, 4, b, w0);
    if keylen == 24 {
      LoadedWords(b, keylen, eK[..]);
      return;
    }
    LoadTwo(key, 24, eK, 6, b, w0);
    LoadedWords(b, keylen, eK[..]);
  }

  /** The first `k` words of `w` are those of the bytes. */
  ghost predicate Loaded(w: seq<word>, b: seq<byte>, k: nat) {
    k <= |w| && 4 * k <= |b| && forall n: nat :: n < k ==> w[n] == LoadWord(b, 4 * n)
  }

  /** LOAD32H into two words in a row. */
  method LoadTwo(key: array<byte>, i: nat, eK: array<word>, k: nat, ghost b: seq<byte>, ghost w0: seq<word>)
    requires i == 4 * k && i + 8 <= key.Length && k + 2 <= eK.Length
    requires b == key[..] && Loaded(eK[..], b, k) && OnlyWords(eK[..], w0, 0, k)
    modifies eK
    ensures key[..] == b && Loaded(eK[..], b, k + 2) && OnlyWords(eK[..], w0, 0, k + 2)
  {
    hide LoadWord, Word;
    eK[k] := Load32H(key, i);
    eK[k + 1] := Load32H(key, i + 4);
  }

  lemma LoadedWords(b: seq<byte>, keylen: nat, w: seq<word>)
    requires keylen in {16, 24, 32} && keylen <= |b| && |w| == 60 && Loaded(w, b, keylen / 4)
    ensures KeyWords(b[..keylen]) <= w
  {
    hide LoadWord;
    forall i: nat | i < keylen / 4
      ensures KeyWords(b[..keylen])[i] == w[i]
    {
      LoadWordOfPrefix(b, keylen, 4 * i);
    }
  }

  lemma LoadWordOfPrefix(b: seq<byte>, n: nat, i: nat)
    requires i + 4 <= n <= |b|
    ensures LoadWord(b[..n], i) == LoadWord(b, i)
  {
  }

  // ---- ECB_ENC and ECB_DEC

  /** The table rounds of the code, from a state to which the first round key has been added. */
  lemma EncRoundStep(start: State, w: seq<word>, n: nat)
    requires 4 * n + 8 <= |w|
    ensures Rounds(start, w, n + 1) == EncRound(Rounds(start, w, n), RoundKey(w, n + 1))
  {
    hide EncRound, Round, RoundKey, AddRoundKey;
    EncRoundIsRound(Rounds(start, w, n), RoundKey(w, n + 1));
  }

  lemma DecRoundStep(start: State, dw: seq<word>, n: nat)
    requires 4 * n + 8 <= |dw|
    ensures EqInvRounds(start, dw, n + 1) == DecRound(EqInvRounds(start, dw, n), RoundKey(dw, n + 1))
  {
    hide DecRound, EqInvRound, RoundKey, AddRoundKey;
    DecRoundIsEqInvRound(EqInvRounds(start, dw, n), RoundKey(dw, n + 1));
  }

  method StoreBlock(s0: word, s1: word, s2: word, s3: word, a: array<byte>, i: nat)
    requires i + 16 <= a.Length
    modifies a
    ensures Written(a[..], old(a[..]), i, StoreState(State(s0, s1, s2, s3)))
  {
    hide StoreWord, Written;
    ghost var a0 := a[..];
    Store32H(s0, a, i);
    ghost var a1 := a[..];
    Store32H(s1, a, i + 4);
    ghost var a2 := a[..];
    WrittenTwice(a2, a1, a0, i, StoreWord(s0), StoreWord(s1));
    Store32H(s2, a, i + 8);
    ghost var a3 := a[..];
    WrittenTwice(a3, a2, a0, i, StoreWord(s0) + StoreWord(s1), StoreWord(s2));
    Store32H(s3, a, i + 12);
    WrittenTwice(a[..], a3, a0, i, StoreWord(s0) + StoreWord(s1) + StoreWord(s2), StoreWord(s3));
  }

  /** The unrolled loop: from the state of round 0 to that of the last round but one. */
  method EncryptRounds(s: State, eK: array<word>, nr: nat, ghost start: State) returns (t: State, rk: nat)
    requires 2 <= nr && 8 * (nr / 2) + 4 <= eK.Length && s == Rounds(start, eK[..], 0)
    ensures rk == 8 * (nr / 2) && t == Rounds(start, eK[..], 2 * (nr / 2) - 1)
  {
    hide EncColumn, Rounds;
    var s0, s1, s2, s3 := s.c0, s.c1, s.c2, s.c3;
    var t0, t1, t2, t3;
    var r := nr / 2;
    rk := 0;
    while true
      invariant 1 <= r <= nr / 2 && rk == 8 * (nr / 2 - r)
      invariant State(s0, s1, s2, s3) == Rounds(start, eK[..], 2 * (nr / 2 - r))
      decreases r
    {
      EncRoundStep(start, eK[..], 2 * (nr / 2 - r));
      t0 := EncColumn(s0, s1, s2, s3, eK[rk + 4]);
      t1 := EncColumn(s1, s2, s3, s0, eK[rk + 5]);
      t2 := EncColumn(s2, s3, s0, s1, eK[rk + 6]);
      t3 := EncColumn(s3, s0, s1, s2, eK[rk + 7]);
      rk := rk + 8;
      r := r - 1;
      if r == 0 {
        break;
      }
      EncRoundStep(start, eK[..], 2 * (nr / 2 - r) - 1);
      s0 := EncColumn(t0, t1, t2, t3, eK[rk]);
      s1 := EncColumn(t1, t2, t3, t0, eK[rk + 1]);
      s2 := EncColumn(t2, t3, t0, t1, eK[rk + 2]);
      s3 := EncColumn(t3, t0, t1, t2, eK[rk + 3]);
    }
    t := State(t0, t1, t2, t3);
  }

  /** The rolled loop of the small code, from and to the same states. */
  method EncryptRoundsRolled(s: State, eK: array<word>, nr: nat, ghost start: State) returns (t: State, rk: nat)
    requires 2 <= nr && 4 * nr + 4 <= eK.Length && s == Rounds(start, eK[..], 0)
    ensures rk == 4 * nr && t == Rounds(start, eK[..], nr - 1)
  {
    hide EncColumn, Rounds;
    var s0, s1, s2, s3 := s.c0, s.c1, s.c2, s.c3;
    var t0, t1, t2, t3;
    var r := 0;
    rk := 0;
    while true
      invariant 0 <= r <= nr - 2 && rk == 4 * r
      invariant State(s0, s1, s2, s3) == Rounds(start, eK[..], r)
      decreases nr - r
    {
      EncRoundStep(start, eK[..], r);
      rk := rk + 4;
      t0 := EncColumn(s0, s1, s2, s3, eK[rk]);
      t1 := EncColumn(s1, s2, s3, s0, eK[rk + 1]);
      t2 := EncColumn(s2, s3, s0, s1, eK[rk + 2]);
      t3 := EncColumn(s3, s0, s1, s2, eK[rk + 3]);
      if r == nr - 2 {
        break;
      }
      s0, s1, s2, s3 := t0, t1, t2, t3;
      r := r + 1;
    }
    rk := rk + 4;
    t := State(t0, t1, t2, t3);
  }

  /** The unrolled loop of decryption: from the state of round 0 to that of the last round but one. */
  method DecryptRounds(s: State, dK: array<word>, nr: nat, ghost start: State) returns (t: State, rk: nat)
    requires 2 <= nr && 8 * (nr / 2) + 4 <= dK.Length && s == EqInvRounds(start, dK[..], 0)
    ensures rk == 8 * (nr / 2) && t == EqInvRounds(start, dK[..], 2 * (nr / 2) - 1)
  {
    hide DecColumn, EqInvRounds;
    var s0, s1, s2, s3 := s.c0, s.c1, s.c2, s.c3;
    var t0, t1, t2, t3;
    var r := nr / 2;
    rk := 0;
    while true
      invariant 1 <= r <= nr / 2 && rk == 8 * (nr / 2 - r)
      invariant State(s0, s1, s2, s3) == EqInvRounds(start, dK[..], 2 * (nr / 2 - r))
      decreases r
    {
      DecRoundStep(start, dK[..], 2 * (nr / 2 - r));
      t0 := DecColumn(s0, s3, s2, s1, dK[rk + 4]);
      t1 := DecColumn(s1, s0, s3, s2, dK[rk + 5]);
      t2 := DecColumn(s2, s1, s0, s3, dK[rk + 6]);
      t3 := DecColumn(s3, s2, s1, s0, dK[rk + 7]);
      rk := rk + 8;
      r := r - 1;
      if r == 0 {
        break;
      }
      DecRoundStep(start, dK[..], 2 * (nr / 2 - r) - 1);
      s0 := DecColumn(t0, t3, t2, t1, dK[rk]);
      s1 := DecColumn(t1, t0, t3, t2, dK[rk + 1]);
      s2 := DecColumn(t2, t1, t0, t3, dK[rk + 2]);
      s3 := DecColumn(t3, t2, t1, t0, dK[rk + 3]);
    }
    t := State(t0, t1, t2, t3);
  }

  /** The rolled loop of decryption. */
  method DecryptRoundsRolled(s: State, dK: array<word>, nr: nat, ghost start: State) returns (t: State, rk: nat)
    requires 2 <= nr && 4 * nr + 4 <= dK.Length && s == EqInvRounds(start, dK[..], 0)
    ensures rk == 4 * nr && t == EqInvRounds(start, dK[..], nr - 1)
  {
    hide DecColumn, EqInvRounds;
    var s0, s1, s2, s3 := s.c0, s.c1, s.c2, s.c3;
    var t0, t1, t2, t3;
    var r := 0;
    rk := 0;
    while true
      invariant 0 <= r <= nr - 2 && rk == 4 * r
      invariant State(s0, s1, s2, s3) == EqInvRounds(start, dK[..], r)
      decreases nr - r
    {
      DecRoundStep(start, dK[..], r);
      rk := rk + 4;
      t0 := DecColumn(s0, s3, s2, s1, dK[rk]);
      t1 := DecColumn(s1, s0, s3, s2, dK[rk + 1]);
      t2 := DecColumn(s2, s1, s0, s3, dK[rk + 2]);
      t3 := DecColumn(s3, s2, s1, s0, dK[rk + 3]);
      if r == nr - 2 {
        break;
      }
      s0, s1, s2, s3 := t0, t1, t2, t3;
      r := r + 1;
    }
    rk := rk + 4;
    t := State(t0, t1, t2, t3);
  }

  lemma FirstRound(b: seq<byte>, i: nat, w: seq<word>)
    requires i + 16 <= |b| && 4 <= |w|
    ensures var s := State(XorW(LoadWord(b, i), w[0]), XorW(LoadWord(b, i + 4), w[1]),
                           XorW(LoadWord(b, i + 8), w[2]), XorW(LoadWord(b, i + 12), w[3]));
            s == Rounds(LoadState(b[i..i + 16]), w, 0) == EqInvRounds(LoadState(b[i..i + 16]), w, 0)
  {
    hide XorW, Word;
  }

  lemma LastRound(start: State, w: seq<word>, nr: nat, t: State)
    requires 1 <= nr && 4 * nr + 4 <= |w|
    ensures var k := State(w[4 * nr], w[4 * nr + 1], w[4 * nr + 2], w[4 * nr + 3]);
            && (t == Rounds(start, w, nr - 1) ==> EncLastRound(t, k) == Cipher(start, w, nr))
            && (t == EqInvRounds(start, w, nr - 1) ==> DecLastRound(t, k) == EqInvCipher(start, w, nr))
  {
    hide EncLastRound, DecLastRound, EncRound, DecRound, Rounds, EqInvRounds, Round, EqInvRound, AddRoundKey,
         SubBytes, ShiftRows, InvSubBytes, InvShiftRows;
    EncRoundIsRound(t, RoundKey(w, nr));
    DecRoundIsEqInvRound(t, RoundKey(w, nr));
  }

  /** ECB_ENC, two rounds an iteration. The output may lie anywhere, also over the input. */
  method EcbEncrypt(pt: array<byte>, pi: nat, ct: array<byte>, ci: nat, skey: RijndaelKey) returns (status: Status)
    requires pi + 16 <= pt.Length && ci + 16 <= ct.Length
    requires skey.Shaped() && skey.nr != 16
    modifies ct
    ensures status == if 2 <= skey.nr <= 16 then Ok else InvalidRounds
    ensures status == Ok ==>
              Written(ct[..], old(ct[..]), ci,
                      StoreState(Cipher(LoadState(old(pt[pi..pi + 16])), old(skey.eK[..]), 2 * (skey.nr / 2))))
    ensures status != Ok ==> unchanged(ct)
  {
    hide EncLastColumn, XorW, Word, LoadWord, StoreState, LoadState, Rounds, EqInvRounds, Cipher, EqInvCipher, Written;
    if skey.nr < 2 || skey.nr > 16 {
      return InvalidRounds;
    }
    var eK := skey.eK;
    ghost var start, w := LoadState(pt[pi..pi + 16]), eK[..];
    var s := State(XorW(Load32H(pt, pi), eK[0]), XorW(Load32H(pt, pi + 4), eK[1]),
                   XorW(Load32H(pt, pi + 8), eK[2]), XorW(Load32H(pt, pi + 12), eK[3]));
    FirstRound(pt[..], pi, w);
    var t, rk := EncryptRounds(s, eK, skey.nr, start);
    LastRound(start, w, 2 * (skey.nr / 2), t);
    var t0, t1, t2, t3 := t.c0, t.c1, t.c2, t.c3;
    StoreBlock(EncLastColumn(t0, t1, t2, t3, eK[rk]), EncLastColumn(t1, t2, t3, t0, eK[rk + 1]),
               EncLastColumn(t2, t3, t0, t1, eK[rk + 2]), EncLastColumn(t3, t0, t1, t2, eK[rk + 3]), ct, ci);
    return Ok;
  }

  /** ECB_ENC of the small code, one round an iteration. */
  method EcbEncryptRolled(pt: array<byte>, pi: nat, ct: array<byte>, ci: nat, skey: RijndaelKey)
    returns (status: Status)
    requires pi + 16 <= pt.Length && ci + 16 <= ct.Length
    requires skey.Shaped() && (2 <= skey.nr <= 16 ==> 4 * skey.nr + 4 <= 60)
    modifies ct
    ensures status == if 2 <= skey.nr <= 16 then Ok else InvalidRounds
    ensures status == Ok ==>
              Written(ct[..], old(ct[..]), ci,
                      StoreState(Cipher(LoadState(old(pt[pi..pi + 16])), old(skey.eK[..]), skey.nr)))
    ensures status != Ok ==> unchanged(ct)
  {
    hide EncLastColumn, XorW, Word, LoadWord, StoreState, LoadState, Rounds, EqInvRounds, Cipher, EqInvCipher, Written;
    if skey.nr < 2 || skey.nr > 16 {
      return InvalidRounds;
    }
    var eK := skey.eK;
    ghost var start, w := LoadState(pt[pi..pi + 16]), eK[..];
    var s := State(XorW(Load32H(pt, pi), eK[0]), XorW(Load32H(pt, pi + 4), eK[1]),
                   XorW(Load32H(pt, pi + 8), eK[2]), XorW(Load32H(pt, pi + 12), eK[3]));
    FirstRound(pt[..], pi, w);
    var t, rk := EncryptRoundsRolled(s, eK, skey.nr, start);
    LastRound(start, w, skey.nr, t);
    var t0, t1, t2, t3 := t.c0, t.c1, t.c2, t.c3;
    StoreBlock(EncLastColumn(t0, t1, t2, t3, eK[rk]), EncLastColumn(t1, t2, t3, t0, eK[rk + 1]),
               EncLastColumn(t2, t3, t0, t1, eK[rk + 2]), EncLastColumn(t3, t0, t1, t2, eK[rk + 3]), ct, ci);
    return Ok;
  }

  /** ECB_DEC, two rounds an iteration. */
  method EcbDecrypt(ct: array<byte>, ci: nat, pt: array<byte>, pi: nat, skey: RijndaelKey) returns (status: Status)
    requires ci + 16 <= ct.Length && pi + 16 <= pt.Length
    requires skey.Shaped() && skey.nr != 16
    modifies pt
    ensures status == if 2 <= skey.nr <= 16 then Ok else InvalidRounds
    ensures status == Ok ==>
              Written(pt[..], old(pt[..]), pi,
                      StoreState(EqInvCipher(LoadState(old(ct[ci..ci + 16])), old(skey.dK[..]), 2 * (skey.nr / 2))))
    ensures status != Ok ==> unchanged(pt)
  {
    hide DecLastColumn, XorW, Word, LoadWord, StoreState, LoadState, Rounds, EqInvRounds, Cipher, EqInvCipher, Written;
    if skey.nr < 2 || skey.nr > 16 {
      return InvalidRounds;
    }
    var dK := skey.dK;
    ghost var start, w := LoadState(ct[ci..ci + 16]), dK[..];
    var s := State(XorW(Load32H(ct, ci), dK[0]), XorW(Load32H(ct, ci + 4), dK[1]),
                   XorW(Load32H(ct, ci + 8), dK[2]), XorW(Load32H(ct, ci + 12), dK[3]));
    FirstRound(ct[..], ci, w);
    var t, rk := DecryptRounds(s, dK, skey.nr, start);
    LastRound(start, w, 2 * (skey.nr / 2), t);
    var t0, t1, t2, t3 := t.c0, t.c1, t.c2, t.c3;
    StoreBlock(DecLastColumn(t0, t3, t2, t1, dK[rk]), DecLastColumn(t1, t0, t3, t2, dK[rk + 1]),
               DecLastColumn(t2, t1, t0, t3, dK[rk + 2]), DecLastColumn(t3, t2, t1, t0, dK[rk + 3]), pt, pi);
    return Ok;
  }

  /** ECB_DEC of the small code. */
  method EcbDecryptRolled(ct: array<byte>, ci: nat, pt: array<byte>, pi: nat, skey: RijndaelKey)
    returns (status: Status)
    requires ci + 16 <= ct.Length && pi + 16 <= pt.Length
    requires skey.Shaped() && (2 <= skey.nr <= 16 ==> 4 * skey.nr + 4 <= 60)
    modifies pt
    ensures status == if 2 <= skey.nr <= 16 then Ok else InvalidRounds
    ensures status == Ok ==>
              Written(pt[..], old(pt[..]), pi,
                      StoreState(EqInvCipher(LoadState(old(ct[ci..ci + 16])), old(skey.dK[..]), skey.nr)))
    ensures status != Ok ==> unchanged(pt)
  {
    hide DecLastColumn, XorW, Word, LoadWord, StoreState, LoadState, Rounds, EqInvRounds, Cipher, EqInvCipher, Written;
    if skey.nr < 2 || skey.nr > 16 {
      return InvalidRounds;
    }
    var dK := skey.dK;
    ghost var start, w := LoadState(ct[ci..ci + 16]), dK[..];
    var s := State(XorW(Load32H(ct, ci), dK[0]), XorW(Load32H(ct, ci + 4), dK[1]),
                   XorW(Load32H(ct, ci + 8), dK[2]), XorW(Load32H(ct, ci + 12), dK[3]));
    FirstRound(ct[..], ci, w);
    var t, rk := DecryptRoundsRolled(s, dK, skey.nr, start);
    LastRound(start, w, skey.nr, t);
    var t0, t1, t2, t3 := t.c0, t.c1, t.c2, t.c3;
    StoreBlock(DecLastColumn(t0, t3, t2, t1, dK[rk]), DecLastColumn(t1, t0, t3, t2, dK[rk + 1]),
               DecLastColumn(t2, t1, t0, t3, dK[rk + 2]), DecLastColumn(t3, t2, t1, t0, dK[rk + 3]), pt, pi);
    return Ok;
  }

  // ---- the block cipher under a schedule of SETUP

  lemma {:induction false} RoundsOfPrefix(s: State, w: seq<word>, w': seq<word>, n: nat)
    requires 4 * n + 4 <= |w| && w <= w'
    ensures Rounds(s, w, n) == Rounds(s, w', n)
  {
    hide Round, AddRoundKey;
    if n > 0 {
      RoundsOfPrefix(s, w, w', n - 1);
    }
  }

  lemma {:induction false} InvRoundsOfPrefix(s: State, w: seq<word>, w': seq<word>, nr: nat, n: nat)
    requires n <= nr && 4 * nr + 4 <= |w| && w <= w'
    ensures InvRounds(s, w, nr, n) == InvRounds(s, w', nr, n)
  {
    hide InvRound, AddRoundKey;
    if n > 0 {
      InvRoundsOfPrefix(s, w, w', nr, n - 1);
    }
  }

  /** Under a schedule that SETUP made for a key, the cipher on the words in `eK` is AES under that key ... */
  lemma ScheduledEncrypts(key: seq<byte>, eK: seq<word>, block: seq<byte>)
    requires |key| in {16, 24, 32} && |block| == 16
    requires Expansion(key) <= eK
    ensures StoreState(Cipher(LoadState(block), eK, NumRounds(|key|))) == Encrypt(key, block)
  {
    hide SubBytes, ShiftRows, AddRoundKey, Rounds, LoadState, StoreState, Expansion;
    RoundsOfPrefix(LoadState(block), Expansion(key), eK, NumRounds(|key|) - 1);
  }

  /** ... and the equivalent inverse cipher on the words in `dK` is its inverse. */
  lemma ScheduledDecrypts(key: seq<byte>, eK: seq<word>, dK: seq<word>, block: seq<byte>)
    requires |key| in {16, 24, 32} && |block| == 16
    requires Expansion(key) <= eK && |dK| >= 4 * NumRounds(|key|) + 4
    requires IsInverseSchedule(dK, eK, NumRounds(|key|))
    ensures StoreState(EqInvCipher(LoadState(block), dK, NumRounds(|key|))) == Decrypt(key, block)
  {
    hide InvSubBytes, InvShiftRows, AddRoundKey, InvRounds, LoadState, StoreState, Expansion, EqInvCipher;
    EqInvCipherIsInvCipher(LoadState(block), dK, eK, NumRounds(|key|));
    InvRoundsOfPrefix(LoadState(block), Expansion(key), eK, NumRounds(|key|), NumRounds(|key|) - 1);
  }

  /** The block operations on a scheduled key, in terms of the key alone. */
  method EncryptBlock(pt: array<byte>, pi: nat, ct: array<byte>, ci: nat, skey: RijndaelKey, ghost key: seq<byte>)
    requires pi + 16 <= pt.Length && ci + 16 <= ct.Length
    requires skey.Shaped() && |key| in {16, 24, 32} && skey.Scheduled(key)
    modifies ct
    ensures Written(ct[..], old(ct[..]), ci, Encrypt(key, old(pt[pi..pi + 16])))
  {
    hide Expansion, LoadState, StoreState, Cipher, Encrypt, Written, IsInverseSchedule;
    ghost var block := pt[pi..pi + 16];
    ScheduledEncrypts(key, skey.eK[..], block);
    var status := EcbEncrypt(pt, pi, ct, ci, skey);
  }

  method DecryptBlock(ct: array<byte>, ci: nat, pt: array<byte>, pi: nat, skey: RijndaelKey, ghost key: seq<byte>)
    requires pi + 16 <= pt.Length && ci + 16 <= ct.Length
    requires skey.Shaped() && |key| in {16, 24, 32} && skey.Scheduled(key)
    modifies pt
    ensures Written(pt[..], old(pt[..]), pi, Decrypt(key, old(ct[ci..ci + 16])))
  {
    hide Expansion, LoadState, StoreState, EqInvCipher, Decrypt, Written, IsInverseSchedule;
    ghost var block := ct[ci..ci + 16];
    ScheduledDecrypts(key, skey.eK[..], skey.dK[..], block);
    var status := EcbDecrypt(ct, ci, pt, pi, skey);
  }

  function EncryptTimes(key: seq<byte>, block: seq<byte>, n: nat): (r: seq<byte>)
    requires |key| in {16, 24, 32} && |block| == 16
    ensures |r| == 16
  {
    if n == 0 then block else Encrypt(key, EncryptTimes(key, block, n - 1))
  }

  /** The loop of the self-test: any number of encryptions in place and as many decryptions restore the block. */
  method ThereAndBack(key: array<byte>, keylen: nat, skey: RijndaelKey, tmp: array<byte>, times: nat)
    requires keylen in {16, 24, 32} && keylen <= key.Length && key != tmp
    requires skey.Shaped() && tmp.Length == 16
    modifies skey, skey.eK, skey.dK, tmp
    ensures tmp[..] == old(tmp[..])
  {
    hide Encrypt, Decrypt, Expansion, IsInverseSchedule;
    ghost var k, block := key[..keylen], tmp[..];
    var status := Setup(key, keylen, 0, skey);
    var y := 0;
    while y < times
      invariant y <= times && tmp[..] == EncryptTimes(k, block, y) && skey.Scheduled(k)
    {
      assert tmp[0..16] == tmp[..];
      EncryptBlock(tmp, 0, tmp, 0, skey, k);
      y := y + 1;
    }
    y := 0;
    while y < times
      invariant y <= times && tmp[..] == EncryptTimes(k, block, times - y) && skey.Scheduled(k)
    {
      assert tmp[0..16] == tmp[..];
      DecryptOfEncrypt(k, EncryptTimes(k, block, times - y - 1));
      DecryptBlock(tmp, 0, tmp, 0, skey, k);
      y := y + 1;
    }
  }
}
