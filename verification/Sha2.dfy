/** The compression function that SHA-256 and SHA-512 share, over any kind of word: the working variables of section
    6.2.2 of FIPS 180-4, and the in-place form whose variables change their names instead of their places. */
module Sha2 {
  datatype Functions<!W> = Functions(
    ch: (W, W, W) -> W,
    maj: (W, W, W) -> W,
    sum0: W -> W,
    sum1: W -> W,
    gamma0: W -> W,
    gamma1: W -> W)

  /** There is one round for each constant. */
  datatype Algorithm<!W> = Algorithm(f: Functions<W>, add: (W, W) -> W, k: seq<W>)

  datatype Vars<+W> = Vars(a: W, b: W, c: W, d: W, e: W, f: W, g: W, h: W)

  /** Two ways to write the functions. */
  ghost predicate Same<W(!new)>(f: Functions<W>, g: Functions<W>) {
    && (forall x, y, z :: f.ch(x, y, z) == g.ch(x, y, z))
    && (forall x, y, z :: f.maj(x, y, z) == g.maj(x, y, z))
    && (forall x :: f.sum0(x) == g.sum0(x))
    && (forall x :: f.sum1(x) == g.sum1(x))
    && (forall x :: f.gamma0(x) == g.gamma0(x))
    && (forall x :: f.gamma1(x) == g.gamma1(x))
  }

  ghost predicate Commutes<W(!new)>(alg: Algorithm<W>) {
    forall x, y :: alg.add(x, y) == alg.add(y, x)
  }

  // ---- FIPS 180-4

  /** The word t of the message schedule. */
  function ScheduleWord<W>(alg: Algorithm<W>, block: seq<W>, t: nat): W
    requires |block| == 16
  {
    if t < 16 then block[t]
    else alg.add(alg.add(alg.add(alg.f.gamma1(ScheduleWord(alg, block, t - 2)), ScheduleWord(alg, block, t - 7)),
                         alg.f.gamma0(ScheduleWord(alg, block, t - 15))),
                 ScheduleWord(alg, block, t - 16))
  }

  function Step<W>(alg: Algorithm<W>, v: Vars<W>, k: W, w: W): Vars<W> {
    var t1 := alg.add(alg.add(alg.add(alg.add(v.h, alg.f.sum1(v.e)), alg.f.ch(v.e, v.f, v.g)), k), w);
    var t2 := alg.add(alg.f.sum0(v.a), alg.f.maj(v.a, v.b, v.c));
    Vars(alg.add(t1, t2), v.a, v.b, v.c, alg.add(v.d, t1), v.e, v.f, v.g)
  }

  /** The working variables after `n` rounds. */
  function Rounds<W>(alg: Algorithm<W>, block: seq<W>, v: Vars<W>, n: nat): Vars<W>
    requires |block| == 16 && n <= |alg.k|
  {
    if n == 0 then v
    else Step(alg, Rounds(alg, block, v, n - 1), alg.k[n - 1], ScheduleWord(alg, block, n - 1))
  }

  function Compress<W>(alg: Algorithm<W>, v: Vars<W>, block: seq<W>): Vars<W>
    requires |block| == 16
  {
    var r := Rounds(alg, block, v, |alg.k|);
    Vars(alg.add(r.a, v.a), alg.add(r.b, v.b), alg.add(r.c, v.c), alg.add(r.d, v.d),
         alg.add(r.e, v.e), alg.add(r.f, v.f), alg.add(r.g, v.g), alg.add(r.h, v.h))
  }

  /** The computation of section 6.2.2 as the standard writes it, step by step: the words `w` of the message schedule,
      and the working variables `st` before each round and after the last. */
  ghost predicate IsRun<W>(alg: Algorithm<W>, v: Vars<W>, block: seq<W>, w: seq<W>, st: seq<Vars<W>>) {
    && |block| == 16 && |w| == |alg.k| && |st| == |alg.k| + 1 && st[0] == v
    && (forall t: nat :: t < |w| ==> IsWord(alg, block, w, t))
    && (forall t: nat :: t < |w| ==> IsRound(alg, st[t], alg.k[t], w[t], st[t + 1]))
  }

  /** A word of the message schedule: one of the block, or made of four earlier ones. */
  ghost predicate IsWord<W>(alg: Algorithm<W>, block: seq<W>, w: seq<W>, t: nat)
    requires |block| == 16 && t < |w|
  {
    w[t] == if t < 16 then block[t]
            else alg.add(alg.add(alg.add(alg.f.gamma1(w[t - 2]), w[t - 7]), alg.f.gamma0(w[t - 15])), w[t - 16])
  }

  /** One round: T1, T2, and the moves of the variables. */
  ghost predicate IsRound<W>(alg: Algorithm<W>, v: Vars<W>, k: W, w: W, u: Vars<W>) {
    var t1 := alg.add(alg.add(alg.add(alg.add(v.h, alg.f.sum1(v.e)), alg.f.ch(v.e, v.f, v.g)), k), w);
    var t2 := alg.add(alg.f.sum0(v.a), alg.f.maj(v.a, v.b, v.c));
    && u.h == v.g && u.g == v.f && u.f == v.e && u.e == alg.add(v.d, t1)
    && u.d == v.c && u.c == v.b && u.b == v.a && u.a == alg.add(t1, t2)
  }

  lemma {:induction false} RunSchedules<W>(alg: Algorithm<W>, v: Vars<W>, block: seq<W>, w: seq<W>, st: seq<Vars<W>>,
      t: nat)
    requires IsRun(alg, v, block, w, st) && t < |w|
    ensures ScheduleWord(alg, block, t) == w[t]
  {
    hide IsRound;
    assert IsWord(alg, block, w, t);
    if t >= 16 {
      RunSchedules(alg, v, block, w, st, t - 2);
      RunSchedules(alg, v, block, w, st, t - 7);
      RunSchedules(alg, v, block, w, st, t - 15);
      RunSchedules(alg, v, block, w, st, t - 16);
    }
  }

  lemma RoundIsStep<W>(alg: Algorithm<W>, v: Vars<W>, k: W, w: W, u: Vars<W>)
    requires IsRound(alg, v, k, w, u)
    ensures u == Step(alg, v, k, w)
  {
  }

  lemma {:induction false} RunRounds<W>(alg: Algorithm<W>, v: Vars<W>, block: seq<W>, w: seq<W>, st: seq<Vars<W>>,
      n: nat)
    requires IsRun(alg, v, block, w, st) && n <= |w|
    ensures Rounds(alg, block, v, n) == st[n]
  {
    hide ScheduleWord, IsWord, IsRound, Step;
    if n > 0 {
      RunRounds(alg, v, block, w, st, n - 1);
      RunSchedules(alg, v, block, w, st, n - 1);
      RoundIsStep(alg, st[n - 1], alg.k[n - 1], w[n - 1], st[n]);
    }
  }

  /** Compress is what any such computation ends with, added to the chaining value. */
  lemma CompressIsRun<W>(alg: Algorithm<W>, v: Vars<W>, block: seq<W>, w: seq<W>, st: seq<Vars<W>>)
    requires IsRun(alg, v, block, w, st)
    ensures var u, r := st[|w|], Compress(alg, v, block);
            && r.a == alg.add(u.a, v.a) && r.b == alg.add(u.b, v.b) && r.c == alg.add(u.c, v.c)
            && r.d == alg.add(u.d, v.d) && r.e == alg.add(u.e, v.e) && r.f == alg.add(u.f, v.f)
            && r.g == alg.add(u.g, v.g) && r.h == alg.add(u.h, v.h)
  {
    hide IsRun, Rounds;
    RunRounds(alg, v, block, w, st, |w|);
    RunIsWhole(alg, v, block, w, st);
  }

  lemma RunIsWhole<W>(alg: Algorithm<W>, v: Vars<W>, block: seq<W>, w: seq<W>, st: seq<Vars<W>>)
    requires IsRun(alg, v, block, w, st)
    ensures |w| == |alg.k|
  {
  }

  // ---- constants

  /** The primes number 8 * r to 8 * r + 7. */
  function PrimeRow(r: nat): (p: seq<nat>)
    requires r < 10
    ensures |p| == 8
  {
    if r == 0 then [2, 3, 5, 7, 11, 13, 17, 19]
    else if r == 1 then [23, 29, 31, 37, 41, 43, 47, 53]
    else if r == 2 then [59, 61, 67, 71, 73, 79, 83, 89]
    else if r == 3 then [97, 101, 103, 107, 109, 113, 127, 131]
    else if r == 4 then [137, 139, 149, 151, 157, 163, 167, 173]
    else if r == 5 then [179, 181, 191, 193, 197, 199, 211, 223]
    else if r == 6 then [227, 229, 233, 239, 241, 251, 257, 263]
    else if r == 7 then [269, 271, 277, 281, 283, 293, 307, 311]
    else if r == 8 then [313, 317, 331, 337, 347, 349, 353, 359]
    else [367, 373, 379, 383, 389, 397, 401, 409]
  }

  /** Prime number t, from 0 on. */
  function Prime(t: nat): nat
    requires t < 80
  {
    PrimeRow(t / 8)[t % 8]
  }

  /** `k` is the first bits, of which there are `scale`, of the fractional part of the cube root of `p`. */
  predicate IsCubeRootBits(p: nat, k: nat, scale: nat) {
    var root := if p < 8 then 1 else if p < 27 then 2 else if p < 64 then 3 else if p < 125 then 4
                else if p < 216 then 5 else if p < 343 then 6 else 7;
    var x := root * scale + k;
    k < scale && x * x * x <= p * scale * scale * scale < (x + 1) * (x + 1) * (x + 1)
  }

  /** And of its square root. */
  predicate IsSquareRootBits(p: nat, k: nat, scale: nat) {
    var root := if p < 4 then 1 else if p < 9 then 2 else if p < 16 then 3 else 4;
    var x := root * scale + k;
    k < scale && x * x <= p * scale * scale < (x + 1) * (x + 1)
  }

  // ---- the code

  /** The working variables, which are in the named slots. */
  function VarsAt<W>(s: seq<W>, a: nat, b: nat, c: nat, d: nat, e: nat, f: nat, g: nat, h: nat): Vars<W>
    requires a < |s| && b < |s| && c < |s| && d < |s| && e < |s| && f < |s| && g < |s| && h < |s|
  {
    Vars(s[a], s[b], s[c], s[d], s[e], s[f], s[g], s[h])
  }

  function VarsOf<W>(s: seq<W>): Vars<W>
    requires |s| == 8
  {
    VarsAt(s, 0, 1, 2, 3, 4, 5, 6, 7)
  }

  predicate IsSchedule<W(==)>(alg: Algorithm<W>, block: seq<W>, w: seq<W>, n: nat)
    requires |block| == 16
  {
    n <= |w| && forall t :: 0 <= t < n ==> w[t] == ScheduleWord(alg, block, t)
  }

  method FillSchedule<W(!new)>(alg: Algorithm<W>, fast: Functions<W>, w: array<W>)
    requires w.Length == |alg.k| >= 16 && Same(alg.f, fast)
    modifies w
    ensures IsSchedule(alg, old(w[..16]), w[..], |alg.k|)
  {
    ghost var block := w[..16];
    var i := 16;
    while i < |alg.k|
      invariant 16 <= i <= |alg.k| && IsSchedule(alg, block, w[..], i)
    {
      w[i] := alg.add(alg.add(alg.add(fast.gamma1(w[i - 2]), w[i - 7]), fast.gamma0(w[i - 15])), w[i - 16]);
      i := i + 1;
    }
  }

  /** The slots hold the working variables after `n` rounds. */
  ghost predicate After<W>(alg: Algorithm<W>, block: seq<W>, v: Vars<W>, n: nat, s: seq<W>, a: nat, b: nat, c: nat,
      d: nat, e: nat, f: nat, g: nat, h: nat)
    requires |block| == 16 && |s| == 8
    requires a < 8 && b < 8 && c < 8 && d < 8 && e < 8 && f < 8 && g < 8 && h < 8
  {
    n <= |alg.k| && VarsAt(s, a, b, c, d, e, f, g, h) == Rounds(alg, block, v, n)
  }

  /** RND: the round that replaces only variables d and h, after which every variable has the next one's slot. */
  method Rnd<W(!new)>(alg: Algorithm<W>, fast: Functions<W>, s: array<W>, a: nat, b: nat, c: nat, d: nat, e: nat,
      f: nat, g: nat, h: nat, i: nat, w: array<W>, ghost block: seq<W>, ghost v: Vars<W>)
    requires s.Length == 8 && s != w && i < |alg.k| && Same(alg.f, fast)
    requires |block| == 16 && IsSchedule(alg, block, w[..], |alg.k|)
    requires a < 8 && b < 8 && c < 8 && d < 8 && e < 8 && f < 8 && g < 8 && h < 8
    requires d != h && a != d && b != d && c != d && e != d && f != d && g != d
    requires a != h && b != h && c != h && e != h && f != h && g != h
    requires After(alg, block, v, i, s[..], a, b, c, d, e, f, g, h)
    modifies s
    ensures After(alg, block, v, i + 1, s[..], h, a, b, c, d, e, f, g)
  {
    var t0 := alg.add(alg.add(alg.add(alg.add(s[h], fast.sum1(s[e])), fast.ch(s[e], s[f], s[g])), alg.k[i]), w[i]);
    var t1 := alg.add(fast.sum0(s[a]), fast.maj(s[a], s[b], s[c]));
    s[d] := alg.add(s[d], t0);
    s[h] := alg.add(t0, t1);
  }

  /** A pass of the loop: eight rounds, after which the variables are back in their slots. */
  method EightRounds<W(!new)>(alg: Algorithm<W>, fast: Functions<W>, s: array<W>, w: array<W>, i: nat,
      ghost block: seq<W>, ghost v: Vars<W>)
    requires s.Length == 8 && s != w && i + 8 <= |alg.k| && Same(alg.f, fast)
    requires |block| == 16 && IsSchedule(alg, block, w[..], |alg.k|)
    requires After(alg, block, v, i, s[..], 0, 1, 2, 3, 4, 5, 6, 7)
    modifies s
    ensures After(alg, block, v, i + 8, s[..], 0, 1, 2, 3, 4, 5, 6, 7)
  {
    hide After, Same, IsSchedule;
    Rnd(alg, fast, s, 0, 1, 2, 3, 4, 5, 6, 7, i, w, block, v);
    Rnd(alg, fast, s, 7, 0, 1, 2, 3, 4, 5, 6, i + 1, w, block, v);
    Rnd(alg, fast, s, 6, 7, 0, 1, 2, 3, 4, 5, i + 2, w, block, v);
    Rnd(alg, fast, s, 5, 6, 7, 0, 1, 2, 3, 4, i + 3, w, block, v);
    Rnd(alg, fast, s, 4, 5, 6, 7, 0, 1, 2, 3, i + 4, w, block, v);
    Rnd(alg, fast, s, 3, 4, 5, 6, 7, 0, 1, 2, i + 5, w, block, v);
    Rnd(alg, fast, s, 2, 3, 4, 5, 6, 7, 0, 1, i + 6, w, block, v);
    Rnd(alg, fast, s, 1, 2, 3, 4, 5, 6, 7, 0, i + 7, w, block, v);
  }

  lemma AfterEnds<W(!new)>(alg: Algorithm<W>, block: seq<W>, v: Vars<W>, s: seq<W>)
    requires |block| == 16 && |s| == 8
    ensures VarsOf(s) == v ==> After(alg, block, v, 0, s, 0, 1, 2, 3, 4, 5, 6, 7)
    ensures After(alg, block, v, |alg.k|, s, 0, 1, 2, 3, 4, 5, 6, 7) ==> VarsOf(s) == Rounds(alg, block, v, |alg.k|)
  {
  }

  method AllRounds<W(!new)>(alg: Algorithm<W>, fast: Functions<W>, s: array<W>, w: array<W>, ghost block: seq<W>,
      ghost v: Vars<W>)
    requires s.Length == 8 && s != w && |alg.k| % 8 == 0 && Same(alg.f, fast)
    requires |block| == 16 && IsSchedule(alg, block, w[..], |alg.k|)
    requires v == VarsOf(s[..])
    modifies s
    ensures VarsOf(s[..]) == Rounds(alg, block, v, |alg.k|)
  {
    hide Same, IsSchedule, After, Rounds, VarsOf;
    AfterEnds(alg, block, v, s[..]);
    var i := 0;
    while i < |alg.k|
      invariant i <= |alg.k| && i % 8 == 0 && After(alg, block, v, i, s[..], 0, 1, 2, 3, 4, 5, 6, 7)
    {
      EightRounds(alg, fast, s, w, i, block, v);
      i := i + 8;
    }
    AfterEnds(alg, block, v, s[..]);
  }

  method Copy<W(!new)>(state: array<W>, s: array<W>)
    requires state.Length == s.Length == 8 && state != s
    modifies s
    ensures s[..] == state[..]
  {
    var i := 0;
    while i < 8
      invariant i <= 8 && forall j :: 0 <= j < i ==> s[j] == state[j]
    {
      s[i] := state[i];
      i := i + 1;
    }
  }

  method FeedBack<W(!new)>(alg: Algorithm<W>, state: array<W>, s: array<W>)
    requires state.Length == s.Length == 8 && state != s
    modifies state
    ensures forall j :: 0 <= j < 8 ==> state[j] == alg.add(old(state[j]), s[j])
  {
    var i := 0;
    while i < 8
      invariant i <= 8
      invariant forall j :: 0 <= j < 8 ==> state[j] == if j < i then alg.add(old(state[j]), s[j]) else old(state[j])
    {
      state[i] := alg.add(state[i], s[i]);
      i := i + 1;
    }
  }

  lemma FedBack<W(!new)>(alg: Algorithm<W>, before: seq<W>, s: seq<W>, now: seq<W>, block: seq<W>)
    requires |before| == |s| == |now| == 8 && |block| == 16 && Commutes(alg)
    requires forall j :: 0 <= j < 8 ==> now[j] == alg.add(before[j], s[j])
    requires VarsOf(s) == Rounds(alg, block, VarsOf(before), |alg.k|)
    ensures VarsOf(now) == Compress(alg, VarsOf(before), block)
  {
    hide Rounds;
  }

  /** The compression in place: `w` holds the block, and `state` the chaining value. */
  method CompressInPlace<W(0,!new)>(alg: Algorithm<W>, fast: Functions<W>, state: array<W>, w: array<W>)
    requires state.Length == 8 && state != w && w.Length == |alg.k| >= 16 && |alg.k| % 8 == 0
    requires Same(alg.f, fast) && Commutes(alg)
    modifies state, w
    ensures VarsOf(state[..]) == Compress(alg, VarsOf(old(state[..])), old(w[..16]))
  {
    hide Same, Commutes, Compress, Rounds, IsSchedule, VarsOf;
    ghost var before, block := state[..], w[..16];
    var s := new W[8];
    Copy(state, s);
    FillSchedule(alg, fast, w);
    AllRounds(alg, fast, s, w, block, VarsOf(before));
    FeedBack(alg, state, s);
    FedBack(alg, before, s[..], state[..], block);
  }
}
