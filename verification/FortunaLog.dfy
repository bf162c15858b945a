/** What happens to the entropy that Fortuna is given, over a whole run: which pools a reseed drains, and which events
    are in a pool; and the counter that Fortuna encrypts. */
module FortunaLog {
  import opened Blocks
  import opened Buffers
  import opened HashCore

  const POOLS: nat := 32

  // ---- which pools a reseed drains

  function Pow2(n: nat): (p: nat)
    ensures p > 0
  {
    if n == 0 then 1 else 2 * Pow2(n - 1)
  }

  /** Reseed number `r` drains pool `x`. */
  predicate Drains(r: nat, x: nat) {
    r % Pow2(x) == 0
  }

  /** The test of the loop in s_fortuna_reseed. */
  predicate BitClear(r: nat, x: nat) {
    x == 0 || r / Pow2(x - 1) % 2 == 0
  }

  lemma Division(r: nat, p: nat)
    requires p > 0
    ensures r == p * (r / p) + r % p && 0 <= r % p < p
  {
  }

  lemma UniqueDivision(r: nat, p: nat, q: nat, m: nat)
    requires p > 0 && m < p && r == p * q + m
    ensures r / p == q && r % p == m
  {
    Division(r, p);
    var d := r / p - q;
    assert p * d == m - r % p;
    ProductBound(p, d);
  }

  lemma Regroup(p: int, t: int, b: int)
    ensures p * (2 * t + b) == 2 * p * t + p * b
  {
  }

  lemma HalvingBy(r: nat, p: nat, t: nat, b: nat, m: nat)
    requires m < p && b < 2 && r == 2 * p * t + p * b + m
    ensures r % (2 * p) == if b == 0 then m else p + m
  {
    UniqueDivision(r, 2 * p, t, if b == 0 then m else p + m);
  }

  lemma Halving(r: nat, p: nat)
    requires p > 0
    ensures r % (2 * p) == r % p + if r / p % 2 == 0 then 0 else p
  {
    var q := r / p;
    Division(r, p);
    Division(q, 2);
    Regroup(p, q / 2, q % 2);
    HalvingBy(r, p, q / 2, q % 2, r % p);
  }

  /** Once the bits below are clear, the next bit decides the next power. */
  lemma NextPower(r: nat, x: nat)
    ensures Drains(r, x + 1) <==> Drains(r, x) && BitClear(r, x + 1)
  {
    Halving(r, Pow2(x));
  }

  /** The scan of the bits from the lowest one finds the powers of two that divide `r`. */
  lemma {:induction false} ScanIsDivisibility(r: nat, x: nat)
    ensures Drains(r, x) <==> forall y :: 0 <= y <= x ==> BitClear(r, y)
  {
    if x > 0 {
      ScanIsDivisibility(r, x - 1);
      NextPower(r, x - 1);
    }
  }

  lemma {:induction false} DrainsFewer(r: nat, x: nat, y: nat)
    requires x <= y && Drains(r, y)
    ensures Drains(r, x)
    decreases y
  {
    if x < y {
      NextPower(r, y - 1);
      DrainsFewer(r, x, y - 1);
    }
  }

  /** Pool x is drained once in 2^x reseeds. */
  lemma Pow2Is(x: nat)
    requires x < 32
    ensures Pow2(x) == [0x1, 0x2, 0x4, 0x8, 0x10, 0x20, 0x40, 0x80, 0x100, 0x200, 0x400, 0x800, 0x1000, 0x2000, 0x4000,
                        0x8000, 0x1_0000, 0x2_0000, 0x4_0000, 0x8_0000, 0x10_0000, 0x20_0000, 0x40_0000, 0x80_0000,
                        0x100_0000, 0x200_0000, 0x400_0000, 0x800_0000, 0x1000_0000, 0x2000_0000, 0x4000_0000,
                        0x8000_0000][x]
  {
    if x > 0 {
      Pow2Is(x - 1);
    }
  }

  // ---- the log of a run

  datatype Event = Frame(pool: nat, source: byte, data: seq<byte>) | Reseed(number: nat)

  function FrameBytes(source: byte, data: seq<byte>): seq<byte>
    requires |data| <= 32
  {
    [source, |data| as byte] + data
  }

  /** A frame is its source, the number of its data bytes, and the data. */
  lemma FrameForm(source: byte, data: seq<byte>)
    requires |data| <= 32
    ensures var f := FrameBytes(source, data);
            |f| == 2 + |data| && f[0] == source && f[1] as nat == |data| && f[2..] == data
  {
    ByteValue(|data|);
  }

  predicate IsLog(log: seq<Event>) {
    forall i :: 0 <= i < |log| && log[i].Frame? ==> log[i].pool < POOLS && |log[i].data| <= 32
  }

  /** The events in pool `k` at the end of the log. */
  function InPool(log: seq<Event>, k: nat): seq<nat> {
    if |log| == 0 then []
    else
      var n := |log| - 1;
      var before := InPool(log[..n], k);
      match log[n]
      case Frame(p, _, _) => if p == k then before + [n] else before
      case Reseed(r) => if Drains(r, k) then [] else before
  }

  /** The bytes in pool `k` at the end of the log. */
  function Content(log: seq<Event>, k: nat): seq<byte>
    requires IsLog(log)
  {
    if |log| == 0 then []
    else
      var n := |log| - 1;
      var before := Content(log[..n], k);
      match log[n]
      case Frame(p, source, data) => if p == k then before + FrameBytes(source, data) else before
      case Reseed(r) => if Drains(r, k) then [] else before
  }

  predicate AreFrames(log: seq<Event>, events: seq<nat>) {
    forall e :: 0 <= e < |events| ==> events[e] < |log| && log[events[e]].Frame?
  }

  /** The frames of the listed events, one after the other. */
  function Frames(log: seq<Event>, events: seq<nat>): seq<byte>
    requires IsLog(log) && AreFrames(log, events)
  {
    if |events| == 0 then []
    else
      var e := log[events[|events| - 1]];
      Frames(log, events[..|events| - 1]) + FrameBytes(e.source, e.data)
  }

  /** Pool `k` holds an event exactly when it went to pool `k` and no later reseed drained that pool. */
  lemma {:induction false} InPoolIff(log: seq<Event>, k: nat, j: nat)
    ensures j in InPool(log, k) <==>
      && j < |log| && log[j].Frame? && log[j].pool == k
      && !exists i :: j < i < |log| && log[i].Reseed? && Drains(log[i].number, k)
  {
    if |log| > 0 {
      var n := |log| - 1;
      InPoolIff(log[..n], k, j);
      assert forall i :: 0 <= i < n ==> log[..n][i] == log[i];
    }
  }

  /** Event `j` is folded into the key by the reseed `i`: it is in its pool, which that reseed drains. */
  predicate FoldedBy(log: seq<Event>, j: nat, i: nat)
    requires j < |log| && log[j].Frame?
  {
    j < i < |log| && log[i].Reseed? && Drains(log[i].number, log[j].pool) && j in InPool(log[..i], log[j].pool)
  }

  /** Nothing is lost, and nothing is used twice: every event is in exactly one pool, its own, and not folded, or it
      is in no pool, and folded by exactly one reseed. */
  lemma {:induction false} ExactlyOnce(log: seq<Event>, j: nat)
    requires j < |log| && log[j].Frame?
    ensures j in InPool(log, log[j].pool) <==> !exists i :: FoldedBy(log, j, i)
    ensures forall k :: j in InPool(log, k) ==> k == log[j].pool
    ensures forall i, i' :: FoldedBy(log, j, i) && FoldedBy(log, j, i') ==> i == i'
  {
    var k := log[j].pool;
    InPoolIff(log, k, j);
    forall l
      ensures j in InPool(log, l) ==> l == k
    {
      InPoolIff(log, l, j);
    }
    forall i, i' | FoldedBy(log, j, i) && FoldedBy(log, j, i')
      ensures i == i'
    {
      NotFoldedBefore(log, j, i, i');
      NotFoldedBefore(log, j, i', i);
    }
    if exists i :: j < i < |log| && log[i].Reseed? && Drains(log[i].number, k) {
      var i :| j < i < |log| && log[i].Reseed? && Drains(log[i].number, k);
      var first := FirstDrain(log, k, j, i);
      InPoolIff(log[..first], k, j);
      assert FoldedBy(log, j, first);
    }
  }

  lemma NotFoldedBefore(log: seq<Event>, j: nat, i: nat, i': nat)
    requires j < |log| && log[j].Frame? && FoldedBy(log, j, i) && FoldedBy(log, j, i')
    ensures i' >= i
  {
    if i' < i {
      Undrained(log, log[j].pool, j, i, i');
    }
  }

  lemma Undrained(log: seq<Event>, k: nat, j: nat, i: nat, l: nat)
    requires i <= |log| && j in InPool(log[..i], k) && j < l < i && log[l].Reseed?
    ensures !Drains(log[l].number, k)
  {
    InPoolIff(log[..i], k, j);
    assert log[..i][l] == log[l];
  }

  /** The first reseed after `j` that drains pool `k`, at or before `i`. */
  lemma {:induction false} FirstDrain(log: seq<Event>, k: nat, j: nat, i: nat) returns (first: nat)
    requires j < i < |log| && log[i].Reseed? && Drains(log[i].number, k)
    ensures j < first <= i && log[first].Reseed? && Drains(log[first].number, k)
    ensures forall l :: j < l < first && log[l].Reseed? ==> !Drains(log[l].number, k)
    decreases i
  {
    if l :| j < l < i && log[l].Reseed? && Drains(log[l].number, k) {
      first := FirstDrain(log, k, j, l);
    } else {
      first := i;
    }
  }

  lemma {:induction false} ContentIsFrames(log: seq<Event>, k: nat)
    requires IsLog(log)
    ensures AreFrames(log, InPool(log, k))
    ensures Content(log, k) == Frames(log, InPool(log, k))
  {
    hide Drains, FrameBytes;
    if |log| > 0 {
      var n := |log| - 1;
      var before := InPool(log[..n], k);
      ContentIsFrames(log[..n], k);
      FramesOfPrefix(log, n, before);
      if log[n].Frame? {
        assert (before + [n])[..|before|] == before;
      }
    }
  }

  lemma {:induction false} FramesOfPrefix(log: seq<Event>, n: nat, events: seq<nat>)
    requires IsLog(log) && n <= |log| && AreFrames(log[..n], events)
    ensures AreFrames(log, events) && Frames(log[..n], events) == Frames(log, events)
  {
    if |events| > 0 {
      FramesOfPrefix(log, n, events[..|events| - 1]);
    }
  }
}
