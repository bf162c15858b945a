/** SHA-1: the rounds of section 6.1.2 of FIPS 180-4, the compressor whose five variables change their names instead of
    their places, and the hash that HASH_PROCESS and done make of it. */
module Sha1 {
  import opened Buffers
  import opened HashCore
  import opened Words

  datatype Vars = Vars(a: word, b: word, c: word, d: word, e: word)

  function Add(x: word, y: word): word { x + y }

  // ---- FIPS 180-4

  function Rotl1(x: word): word { x.RotateLeft(1) }
  function Rotl5(x: word): word { x.RotateLeft(5) }
  function Rotl30(x: word): word { x.RotateLeft(30) }

  function Ch(x: word, y: word, z: word): word { (x & y) ^ (!x & z) }
  function Parity(x: word, y: word, z: word): word { x ^ y ^ z }
  function Maj(x: word, y: word, z: word): word { (x & y) ^ (x & z) ^ (y & z) }

  function F(t: nat, x: word, y: word, z: word): word {
    if t < 20 then Ch(x, y, z) else if 40 <= t < 60 then Maj(x, y, z) else Parity(x, y, z)
  }

  function K(t: nat): word {
    if t < 20 then 0x5a827999 else if t < 40 then 0x6ed9eba1 else if t < 60 then 0x8f1bbcdc else 0xca62c1d6
  }

  function ScheduleWord(block: seq<word>, t: nat): word
    requires |block| == 16
  {
    if t < 16 then block[t]
    else Rotl1(XorW(XorW(XorW(ScheduleWord(block, t - 3), ScheduleWord(block, t - 8)), ScheduleWord(block, t - 14)),
                    ScheduleWord(block, t - 16)))
  }

  function Step(v: Vars, t: nat, w: word): Vars {
    Vars(Add(Add(Add(Add(Rotl5(v.a), F(t, v.b, v.c, v.d)), v.e), K(t)), w), v.a, Rotl30(v.b), v.c, v.d)
  }

  /** The working variables after `n` rounds. */
  function Rounds(block: seq<word>, v: Vars, n: nat): Vars
    requires |block| == 16
  {
    if n == 0 then v else Step(Rounds(block, v, n - 1), n - 1, ScheduleWord(block, n - 1))
  }

  function Compress(v: Vars, block: seq<word>): Vars
    requires |block| == 16
  {
    var r := Rounds(block, v, 80);
    Vars(Add(r.a, v.a), Add(r.b, v.b), Add(r.c, v.c), Add(r.d, v.d), Add(r.e, v.e))
  }

  // ---- the standard, step by step

  /** The computation of section 6.1.2 as the standard writes it: the words `w` of the message schedule, and the working
      variables `st` before each round and after the last. */
  ghost predicate IsRun(v: Vars, block: seq<word>, w: seq<word>, st: seq<Vars>) {
    && |block| == 16 && |w| == 80 && |st| == 81 && st[0] == v
    && (forall t: nat :: t < 80 ==> IsWord(block, w, t))
    && (forall t: nat :: t < 80 ==> IsRound(st[t], t, w[t], st[t + 1]))
  }

  ghost predicate IsWord(block: seq<word>, w: seq<word>, t: nat)
    requires |block| == 16 && t < |w|
  {
    w[t] == if t < 16 then block[t] else Rotl1(XorW(XorW(XorW(w[t - 3], w[t - 8]), w[t - 14]), w[t - 16]))
  }

  ghost predicate IsRound(v: Vars, t: nat, w: word, u: Vars) {
    && u.e == v.d && u.d == v.c && u.c == Rotl30(v.b) && u.b == v.a
    && u.a == Add(Add(Add(Add(Rotl5(v.a), F(t, v.b, v.c, v.d)), v.e), K(t)), w)
  }

  lemma {:induction false} RunSchedules(v: Vars, block: seq<word>, w: seq<word>, st: seq<Vars>, t: nat)
    requires IsRun(v, block, w, st) && t < 80
    ensures ScheduleWord(block, t) == w[t]
  {
    hide IsRound, Rotl1, XorW;
    assert IsWord(block, w, t);
    if t >= 16 {
      RunSchedules(v, block, w, st, t - 3);
      RunSchedules(v, block, w, st, t - 8);
      RunSchedules(v, block, w, st, t - 14);
      RunSchedules(v, block, w, st, t - 16);
    }
  }

  lemma RoundIsStep(v: Vars, t: nat, w: word, u: Vars)
    requires IsRound(v, t, w, u)
    ensures u == Step(v, t, w)
  {
    hide Add, F, K, Rotl5, Rotl30;
  }

  lemma {:induction false} RunRounds(v: Vars, block: seq<word>, w: seq<word>, st: seq<Vars>, n: nat)
    requires IsRun(v, block, w, st) && n <= 80
    ensures Rounds(block, v, n) == st[n]
  {
    hide ScheduleWord, IsWord, IsRound, Step;
    if n > 0 {
      RunRounds(v, block, w, st, n - 1);
      RunSchedules(v, block, w, st, n - 1);
      RoundIsStep(st[n - 1], n - 1, w[n - 1], st[n]);
    }
  }

  /** The compression of a block is what any such computation ends with, added to the chaining value. */
  lemma CompressBlockIsRun(v: Vars, block: seq<byte>, w: seq<word>, st: seq<Vars>)
    requires |block| == 64 && IsRun(v, WordsOf(block), w, st)
    ensures var r, u := CompressBlock(v, block), st[80];
            && r.a == Add(u.a, v.a) && r.b == Add(u.b, v.b) && r.c == Add(u.c, v.c) && r.d == Add(u.d, v.d)
            && r.e == Add(u.e, v.e)
  {
    hide Rounds, IsWord, IsRound, Add, WordsOf;
    RunRounds(v, WordsOf(block), w, st, 80);
  }

  /** The bits of y where those of x are set, and of z elsewhere; and the bits that most of the three have. */
  lemma ChoiceAndMajority(x: word, y: word, z: word)
    ensures Ch(x, y, z) == (x & y) | (!x & z)
    ensures Maj(x, y, z) == (x & y) | (x & z) | (y & z)
    ensures Parity(x, y, z) == x ^ y ^ z
  {
    assert (x & y) ^ (!x & z) == (x & y) | (!x & z);
    assert (x & y) ^ (x & z) ^ (y & z) == (x & y) | (x & z) | (y & z);
  }

  /** Section 4.1.1: choice, parity, majority and parity, for 20 rounds each. */
  lemma RoundFunctions(t: nat, x: word, y: word, z: word)
    requires t < 80
    ensures F(t, x, y, z) == match t / 20
                             case 0 => Ch(x, y, z)
                             case 2 => Maj(x, y, z)
                             case _ => Parity(x, y, z)
  {
    hide Ch, Maj, Parity;
  }

  /** Sections 3.2 and 6.1.2: the rotations to the left, and addition. */
  lemma Rotations(x: word, y: word)
    ensures Rotl1(x) == (x << 1) | (x >> 31)
    ensures Rotl5(x) == (x << 5) | (x >> 27)
    ensures Rotl30(x) == (x << 30) | (x >> 2)
    ensures Add(x, y) == x + y
  {
  }

  /** Section 4.2.1: the constants are the square roots of 2, 3, 5 and 10, in units of 2^-30. */
  lemma KIsSquareRoots(t: nat)
    requires t < 80
    ensures var n, k := if t < 20 then 2 else if t < 40 then 3 else if t < 60 then 5 else 10, K(t) as nat;
            k * k <= n * 0x1000_0000_0000_0000 < (k + 1) * (k + 1)
  {
  }

  // ---- the macros

  function Rol1(x: word): word { (x << 1) | (x >> 31) }
  function Rol5(x: word): word { (x << 5) | (x >> 27) }
  function Rol30(x: word): word { (x << 30) | (x >> 2) }

  function F0(x: word, y: word, z: word): word { z ^ (x & (y ^ z)) }
  function F1(x: word, y: word, z: word): word { x ^ y ^ z }
  function F2(x: word, y: word, z: word): word { (x & y) | (z & (x | y)) }
  function F3(x: word, y: word, z: word): word { x ^ y ^ z }

  /** The new `e` of FF0, FF1, FF2 and FF3. */
  function FF(q: nat, a: word, b: word, c: word, d: word, e: word, w: word): word {
    if q == 0 then Add(Add(Add(Add(Rol5(a), F0(b, c, d)), e), w), 0x5a827999)
    else if q == 1 then Add(Add(Add(Add(Rol5(a), F1(b, c, d)), e), w), 0x6ed9eba1)
    else if q == 2 then Add(Add(Add(Add(Rol5(a), F2(b, c, d)), e), w), 0x8f1bbcdc)
    else Add(Add(Add(Add(Rol5(a), F3(b, c, d)), e), w), 0xca62c1d6)
  }

  lemma RotationsAgree(x: word)
    ensures Rol1(x) == Rotl1(x) && Rol5(x) == Rotl5(x) && Rol30(x) == Rotl30(x)
  {
  }

  lemma F0IsCh(x: word, y: word, z: word)
    ensures F0(x, y, z) == Ch(x, y, z)
  {
    assert z ^ (x & (y ^ z)) == (x & y) ^ (!x & z);
  }

  lemma F2IsMaj(x: word, y: word, z: word)
    ensures F2(x, y, z) == Maj(x, y, z)
  {
    assert (x & y) | (z & (x | y)) == (x & y) ^ (x & z) ^ (y & z);
  }

  lemma AddThree(x: word, y: word, z: word)
    ensures Add(x + y, z) == x + y + z
  {
  }

  lemma AddTwo(x: word, y: word)
    ensures Add(x, y) == x + y
  {
  }

  lemma AddSwap(x: word, w: word, k: word)
    ensures Add(Add(x, w), k) == Add(Add(x, k), w)
  {
    hide Add;
    AddTwo(x, w);
    AddThree(x, w, k);
    AddTwo(x, k);
    AddThree(x, k, w);
    assert x + w + k == x + k + w;
  }

  lemma AddCommutes(x: word, y: word)
    ensures Add(x, y) == Add(y, x)
  {
  }

  lemma F1AndF3AreParity(x: word, y: word, z: word)
    ensures F1(x, y, z) == Parity(x, y, z) == F3(x, y, z)
  {
  }

  /** The macros of the quarter that round t is in make the round of FIPS 180-4. */
  lemma MacroIsStep(v: Vars, t: nat, w: word)
    requires t < 80
    ensures Step(v, t, w) == Vars(FF(t / 20, v.a, v.b, v.c, v.d, v.e, w), v.a, Rol30(v.b), v.c, v.d)
  {
    hide F0, F1, F2, F3, Ch, Maj, Parity, Rol5, Rotl5, Rol30, Rotl30, Add;
    RotationsAgree(v.a);
    RotationsAgree(v.b);
    F0IsCh(v.b, v.c, v.d);
    F1AndF3AreParity(v.b, v.c, v.d);
    F2IsMaj(v.b, v.c, v.d);
    AddSwap(Add(Add(Rotl5(v.a), F(t, v.b, v.c, v.d)), v.e), w, K(t));
  }

  // ---- the compressor

  function CompressBlock(v: Vars, block: seq<byte>): Vars {
    if |block| == 64 then Compress(v, WordsOf(block)) else v
  }

  function VarsOf(s: seq<word>): Vars
    requires |s| == 5
  {
    Vars(s[0], s[1], s[2], s[3], s[4])
  }

  predicate IsSchedule(block: seq<word>, w: seq<word>, n: nat)
    requires |block| == 16
  {
    n <= |w| && forall t :: 0 <= t < n ==> w[t] == ScheduleWord(block, t)
  }

  /** After `n` rounds. */
  ghost predicate After(block: seq<word>, v: Vars, n: nat, a: word, b: word, c: word, d: word, e: word)
    requires |block| == 16
  {
    Vars(a, b, c, d, e) == Rounds(block, v, n)
  }

  method Expand(w: array<word>)
    requires w.Length == 80
    modifies w
    ensures IsSchedule(old(w[..16]), w[..], 80)
  {
    hide XorW, Rol1, Rotl1;
    ghost var block := w[..16];
    var i := 16;
    while i < 80
      invariant 16 <= i <= 80 && IsSchedule(block, w[..], i)
    {
      var x := XorW(XorW(XorW(w[i - 3], w[i - 8]), w[i - 14]), w[i - 16]);
      RotationsAgree(x);
      w[i] := Rol1(x);
      i := i + 1;
    }
  }

  /** One use of an FF macro; after it every variable has the next one's name. */
  method Rnd(q: nat, a: word, b: word, c: word, d: word, e: word, i: nat, w: array<word>, ghost block: seq<word>,
      ghost v: Vars)
    returns (e': word, b': word)
    requires i < 80 && q == i / 20 && |block| == 16 && IsSchedule(block, w[..], 80)
    requires After(block, v, i, a, b, c, d, e)
    ensures After(block, v, i + 1, e', a, b', c, d)
  {
    hide FF, Step, Rol30;
    MacroIsStep(Rounds(block, v, i), i, w[i]);
    e', b' := FF(q, a, b, c, d, e, w[i]), Rol30(b);
  }

  /** A pass of one of the four loops: five rounds, after which the variables have their own names again. */
  method FiveRounds(q: nat, a0: word, b0: word, c0: word, d0: word, e0: word, i: nat, w: array<word>,
      ghost block: seq<word>, ghost v: Vars)
    returns (a: word, b: word, c: word, d: word, e: word)
    requires i + 5 <= 80 && q == i / 20 == (i + 4) / 20 && |block| == 16 && IsSchedule(block, w[..], 80)
    requires After(block, v, i, a0, b0, c0, d0, e0)
    ensures After(block, v, i + 5, a, b, c, d, e)
  {
    hide After, IsSchedule;
    a, b, c, d, e := a0, b0, c0, d0, e0;
    e, b := Rnd(q, a, b, c, d, e, i, w, block, v);
    d, a := Rnd(q, e, a, b, c, d, i + 1, w, block, v);
    c, e := Rnd(q, d, e, a, b, c, i + 2, w, block, v);
    b, d := Rnd(q, c, d, e, a, b, i + 3, w, block, v);
    a, c := Rnd(q, b, c, d, e, a, i + 4, w, block, v);
  }

  /** Loop `q` of the four. */
  method Quarter(q: nat, a0: word, b0: word, c0: word, d0: word, e0: word, w: array<word>, ghost block: seq<word>,
      ghost v: Vars)
    returns (a: word, b: word, c: word, d: word, e: word)
    requires q < 4 && |block| == 16 && IsSchedule(block, w[..], 80)
    requires After(block, v, 20 * q, a0, b0, c0, d0, e0)
    ensures After(block, v, 20 * q + 20, a, b, c, d, e)
  {
    hide After, IsSchedule;
    a, b, c, d, e := a0, b0, c0, d0, e0;
    var i := 20 * q;
    while i < 20 * q + 20
      invariant 20 * q <= i <= 20 * q + 20 && i % 5 == 0 && After(block, v, i, a, b, c, d, e)
    {
      a, b, c, d, e := FiveRounds(q, a, b, c, d, e, i, w, block, v);
      i := i + 5;
    }
  }

  /** s_sha1_compress. */
  method CompressAt(state: array<word>, block: array<byte>, at: nat)
    requires state.Length == 5 && at + 64 <= block.Length
    modifies state
    ensures VarsOf(state[..]) == CompressBlock(VarsOf(old(state[..])), block[at..at + 64])
  {
    hide After, Rounds, WordsOf, Add, IsSchedule;
    var w := new word[80];
    LoadBlock(block, at, w);
    ghost var v, words := VarsOf(state[..]), w[..16];
    var a, b, c, d, e := state[0], state[1], state[2], state[3], state[4];
    Expand(w);
    AfterEnds(words, v, a, b, c, d, e);
    a, b, c, d, e := Quarter(0, a, b, c, d, e, w, words, v);
    a, b, c, d, e := Quarter(1, a, b, c, d, e, w, words, v);
    a, b, c, d, e := Quarter(2, a, b, c, d, e, w, words, v);
    a, b, c, d, e := Quarter(3, a, b, c, d, e, w, words, v);
    AfterEnds(words, v, a, b, c, d, e);
    FedBack(v, a, b, c, d, e);
    state[0], state[1], state[2] := Add(state[0], a), Add(state[1], b), Add(state[2], c);
    state[3], state[4] := Add(state[3], d), Add(state[4], e);
  }

  lemma AfterEnds(block: seq<word>, v: Vars, a: word, b: word, c: word, d: word, e: word)
    requires |block| == 16
    ensures Vars(a, b, c, d, e) == v ==> After(block, v, 0, a, b, c, d, e)
    ensures After(block, v, 80, a, b, c, d, e) ==> Vars(a, b, c, d, e) == Rounds(block, v, 80)
  {
  }

  lemma FedBack(v: Vars, a: word, b: word, c: word, d: word, e: word)
    ensures Add(v.a, a) == Add(a, v.a) && Add(v.b, b) == Add(b, v.b) && Add(v.c, c) == Add(c, v.c)
    ensures Add(v.d, d) == Add(d, v.d) && Add(v.e, e) == Add(e, v.e)
  {
    hide Add;
    AddCommutes(v.a, a);
    AddCommutes(v.b, b);
    AddCommutes(v.c, c);
    AddCommutes(v.d, d);
    AddCommutes(v.e, e);
  }

  // ---- the hash

  const INITIAL: Vars := Vars(0x67452301, 0xefcdab89, 0x98badcfe, 0x10325476, 0xc3d2e1f0)

  function Output(v: Vars): (b: seq<byte>)
    ensures |b| == 20
  {
    StoreWord(v.a) + StoreWord(v.b) + StoreWord(v.c) + StoreWord(v.d) + StoreWord(v.e)
  }

  function Sha1(): Hash<Vars> { Hash(64, 56, 20, INITIAL, CompressBlock, Output) }

  lemma Sha1IsHash()
    ensures IsHash(Sha1()) && Sha1().blockSize == 64 && Sha1().lengthAt == 56 && Sha1().hashSize == 20
  {
    hide CompressBlock, Output;
  }

  /** Section 5.3.1: the bytes of the initial hash value, from the lowest of each word on, count up and down. */
  lemma InitialBytes()
    ensures Byte0(INITIAL.a) == 0x01 && Byte1(INITIAL.a) == 0x23 && Byte2(INITIAL.a) == 0x45 && Byte3(INITIAL.a) == 0x67
    ensures Byte0(INITIAL.b) == 0x89 && Byte1(INITIAL.b) == 0xab && Byte2(INITIAL.b) == 0xcd && Byte3(INITIAL.b) == 0xef
    ensures Byte0(INITIAL.c) == 0xfe && Byte1(INITIAL.c) == 0xdc && Byte2(INITIAL.c) == 0xba && Byte3(INITIAL.c) == 0x98
    ensures Byte0(INITIAL.d) == 0x76 && Byte1(INITIAL.d) == 0x54 && Byte2(INITIAL.d) == 0x32 && Byte3(INITIAL.d) == 0x10
    ensures Byte0(INITIAL.e) == 0xf0 && Byte1(INITIAL.e) == 0xe1 && Byte2(INITIAL.e) == 0xd2 && Byte3(INITIAL.e) == 0xc3
  {
  }

  /** Section 5.2.1: the words of the hash in order. */
  lemma OutputInOrder(v: Vars, j: nat)
    requires j < 4
    ensures var b := Output(v);
            && b[j] == StoreWord(v.a)[j] && b[4 + j] == StoreWord(v.b)[j] && b[8 + j] == StoreWord(v.c)[j]
            && b[12 + j] == StoreWord(v.d)[j] && b[16 + j] == StoreWord(v.e)[j]
  {
    hide StoreWord;
  }
}
