/** The Fortuna generator. A pool is represented by the bytes that its hash has absorbed; hashing and encryption are the
    functions that the other modules compute. */
module Fortuna {
  import opened Blocks
  import opened Buffers
  import opened Errors
  import opened FortunaCounter
  import opened FortunaLog
  import opened HashCore
  import Fips197
  import Sha256

  /** SHA-256 */
  function Sha(message: seq<byte>): (d: seq<byte>)
    ensures |d| == 32
  {
    Digest(Sha256.Sha256(), message)
  }

  /** rijndael_ecb_encrypt under the schedule of a 32-byte key. */
  function Encrypt(key: seq<byte>, block: seq<byte>): (c: seq<byte>)
    requires |key| == 32 && |block| == 16
    ensures |c| == 16
  {
    Fips197.Encrypt(key, block)
  }

  /** What reseed `r` hashes after the old key: the digests of the first `n` pools, as far as it drains them. */
  function Seed(pools: seq<seq<byte>>, r: nat, n: nat): seq<byte>
    requires n <= |pools|
  {
    if n == 0 then []
    else if Drains(r, n - 1) then Seed(pools, r, n - 1) + Sha(pools[n - 1])
    else Seed(pools, r, n - 1)
  }

  /** The pools that a log leaves. */
  function Pools(log: seq<Event>): (p: seq<seq<byte>>)
    requires IsLog(log)
    ensures |p| == POOLS
  {
    seq(POOLS, k requires 0 <= k < POOLS => Content(log, k))
  }

  /** The first `n` bytes of the key stream from counter `c` on. */
  function Stream(key: seq<byte>, c: nat, n: nat): (s: seq<byte>)
    requires |key| == 32
    ensures |s| == n
    decreases n
  {
    if n <= 16 then Encrypt(key, Block(c))[..n] else Encrypt(key, Block(c)) + Stream(key, c + 1, n - 16)
  }

  /** The number of blocks that a read of `n` bytes takes. */
  function BlocksFor(n: nat): nat {
    (n + 15) / 16
  }

  lemma BlocksForParts(q: nat, rest: nat)
    requires rest < 16
    ensures BlocksFor(16 * q + rest) == q + if rest > 0 then 1 else 0
  {
  }

  /** The bytes of data that pool 0 got since it was drained. */
  function Pool0Data(log: seq<Event>): nat {
    if |log| == 0 then 0
    else
      var before := Pool0Data(log[..|log| - 1]);
      match log[|log| - 1]
      case Frame(p, _, data) => if p == 0 then before + |data| else before
      case Reseed(_) => 0
  }

  /** How often the run has reseeded. */
  function Reseeds(log: seq<Event>): nat {
    if |log| == 0 then 0 else Reseeds(log[..|log| - 1]) + if log[|log| - 1].Reseed? then 1 else 0
  }

  /** The reseeds are numbered from 1 on. */
  predicate Numbered(log: seq<Event>) {
    forall i :: 0 <= i < |log| && log[i].Reseed? ==> log[i].number == Mod64(Reseeds(log[..i + 1]))
  }

  /** Every element is above the ones before it, and below `limit`. */
  predicate Rising(s: seq<nat>, limit: nat) {
    && (forall i, j :: 0 <= i < j < |s| ==> s[i] < s[j])
    && (forall i :: 0 <= i < |s| ==> s[i] < limit)
  }

  /** The pools and the counts are those that the log leaves. */
  ghost predicate Tally(log: seq<Event>, pools: seq<seq<byte>>, pool0Len: nat, resetCnt: nat) {
    && IsLog(log) && Numbered(log)
    && pools == Pools(log)
    && pool0Len == Mod64(Pool0Data(log))
    && resetCnt == Mod64(Reseeds(log))
  }

  /** Reseed `r` takes a run from `before` to `after`, and the key from `k` to `key`: the hash of the old key and of the
      digests of the pools that it drains. */
  ghost predicate FoldedIn(before: seq<Event>, after: seq<Event>, r: nat, k: seq<byte>, key: seq<byte>) {
    && IsLog(before)
    && after == before + [Event.Reseed(r)] && r == Mod64(Reseeds(before) + 1)
    && key == Sha(k + Seed(Pools(before), r, POOLS))
  }

  /** In any state of any run: a pool holds exactly the frames that went to it and that no reseed has drained since, in
      order. */
  lemma PoolHoldsPending(log: seq<Event>, pools: seq<seq<byte>>, pool0Len: nat, resetCnt: nat, k: nat)
    requires Tally(log, pools, pool0Len, resetCnt) && k < POOLS
    ensures AreFrames(log, InPool(log, k)) && pools[k] == Frames(log, InPool(log, k))
  {
    ContentIsFrames(log, k);
  }

  /** In any state of any run that has not counted to 2^128: no counter block has been encrypted twice. */
  lemma NoBlockTwice(used: seq<nat>, counter: nat, i: nat, j: nat)
    requires Rising(used, counter) && counter <= TWO_128 && i < j < |used|
    ensures Block(used[i]) != Block(used[j])
  {
    BlocksDiffer(used[i], used[j]);
  }

  lemma TallyStart(pools: seq<seq<byte>>)
    requires |pools| == POOLS && forall x :: 0 <= x < POOLS ==> pools[x] == []
    ensures Tally([], pools, 0, 0)
  {
    hide Mod64;
    Mod64Small(0);
  }

  lemma TallyFrame(log: seq<Event>, pools: seq<seq<byte>>, pool0Len: nat, resetCnt: nat, p: nat, source: byte,
      data: seq<byte>)
    requires Tally(log, pools, pool0Len, resetCnt) && p < POOLS && |data| <= 32
    ensures Tally(log + [Frame(p, source, data)], pools[p := pools[p] + FrameBytes(source, data)],
                  if p == 0 then Mod64(pool0Len + |data|) else pool0Len, resetCnt)
  {
    hide FrameBytes, Mod64, Drains;
    var now := log + [Frame(p, source, data)];
    assert now[..|log|] == log;
    Mod64Sum(Pool0Data(log), |data|);
    assert forall i {:trigger log[i]} :: 0 <= i < |log| ==> now[i] == log[i] && now[..i + 1] == log[..i + 1];
  }

  lemma TallyReseed(log: seq<Event>, pools: seq<seq<byte>>, pool0Len: nat, resetCnt: nat, r: nat,
      drained: seq<seq<byte>>)
    requires Tally(log, pools, pool0Len, resetCnt) && r == Mod64(resetCnt + 1)
    requires |drained| == |pools|
    requires forall k :: 0 <= k < |pools| ==> drained[k] == if Drains(r, k) then [] else pools[k]
    ensures Tally(log + [Reseed(r)], drained, 0, r)
  {
    hide FrameBytes, Mod64, Drains;
    var now := log + [Reseed(r)];
    assert now[..|log|] == log && now[..|now|] == now;
    Mod64Sum(Reseeds(log), 1);
    Mod64Small(0);
    assert forall i {:trigger log[i]} :: 0 <= i < |log| ==> now[i] == log[i] && now[..i + 1] == log[..i + 1];
  }

  lemma UsedNext(used: seq<nat>, c: nat)
    requires Rising(used, c)
    ensures Rising(used, c + 1) && Rising(used + [c], c + 1)
  {
  }

  /** The counters that a run of `n` encryptions from `c` on uses. */
  function Range(c: nat, n: nat): (r: seq<nat>)
    ensures |r| == n
    decreases n
  {
    if n == 0 then [] else [c] + Range(c + 1, n - 1)
  }

  /** zeromem */
  method ZeroBytes(a: array<byte>)
    modifies a
    ensures a[..] == Zeros(a.Length)
  {
    forall k | 0 <= k < a.Length {
      a[k] := 0;
    }
  }

  lemma SeedBeyond(pools: seq<seq<byte>>, r: nat, x: nat, n: nat)
    requires x <= n <= |pools| && (x < |pools| ==> !Drains(r, x))
    ensures Seed(pools, r, n) == Seed(pools, r, x)
    ensures forall y :: x <= y < n ==> !Drains(r, y)
    decreases n
  {
    hide Sha;
    if x < n {
      SeedBeyond(pools, r, x, n - 1);
      if Drains(r, n - 1) {
        DrainsFewer(r, x, n - 1);
      }
    }
  }

  lemma {:induction false} RangeNext(c: nat, n: nat)
    ensures Range(c, n) + [c + n] == Range(c, n + 1)
    decreases n
  {
    if n > 0 {
      RangeNext(c + 1, n - 1);
    }
  }

  /** `done` has been written by a read of `n` bytes from the counter `c` on, and the next counter is `d`. */
  ghost predicate Streamed(key: seq<byte>, c: nat, d: nat, done: seq<byte>, n: nat, now: seq<byte>, before: seq<byte>)
    requires |key| == 32
  {
    && |done| <= n
    && Written(now, before, 0, done)
    && Stream(key, c, n) == done + Stream(key, d, n - |done|)
  }

  lemma StreamUnfold(key: seq<byte>, d: nat, n: nat, m: nat)
    requires |key| == 32 && m == if n < 16 then n else 16
    ensures Stream(key, d, n) == Encrypt(key, Block(d))[..m] + Stream(key, d + 1, n - m)
  {
    hide Encrypt, Block;
  }

  lemma StreamStep(key: seq<byte>, c: nat, d: nat, done: seq<byte>, n: nat, now: seq<byte>, middle: seq<byte>,
      before: seq<byte>, m: nat)
    requires |key| == 32 && Streamed(key, c, d, done, n, middle, before)
    requires m == if n - |done| < 16 then n - |done| else 16
    requires Written(now, middle, |done|, Encrypt(key, Block(d))[..m])
    ensures Streamed(key, c, d + 1, done + Encrypt(key, Block(d))[..m], n, now, before)
  {
    hide Encrypt, Block, Stream;
    var bytes, rest := Encrypt(key, Block(d))[..m], Stream(key, d + 1, n - |done| - m);
    StreamUnfold(key, d, n - |done|, m);
    WrittenTwice(now, middle, before, 0, done, bytes);
    assert done + (bytes + rest) == done + bytes + rest;
  }

  lemma StreamEnds(key: seq<byte>, c: nat, d: nat, done: seq<byte>, n: nat, now: seq<byte>, before: seq<byte>)
    requires |key| == 32 && n <= |before|
    ensures Streamed(key, c, c, [], n, before, before)
    ensures |done| == n && Streamed(key, c, d, done, n, now, before) ==> Written(now, before, 0, Stream(key, c, n))
  {
    hide Encrypt, Block, Stream;
  }

  /** fortuna_prng, with `ready`. */
  class Prng {
    const pool: array<seq<byte>>
    const K: array<byte>
    const IV: array<byte>
    /** The key whose schedule is in place. */
    var skey: seq<byte>
    var poolIdx: nat
    var pool0Len: nat
    var wd: nat
    var resetCnt: nat
    var ready: bool
    /** What has been done since start. */
    ghost var log: seq<Event>
    /** How often add_entropy has succeeded since start. */
    ghost var added: nat
    /** The increments of the counter since start, and the counters that were encrypted. */
    ghost var counter: nat
    ghost var used: seq<nat>
    /** update_seed has changed K since the schedule was made. */
    ghost var stale: bool

    ghost predicate Shaped()
      reads this
    {
      pool.Length == POOLS && K.Length == 32 && IV.Length == 16 && K != IV && pool as object != K
        && pool as object != IV
    }

    ghost predicate Valid()
      reads this, pool, K, IV
    {
      && Shaped()
      && Tally(log, pool[..], pool0Len, resetCnt)
      && poolIdx == added % POOLS
      && IV[..] == Block(counter) && Rising(used, counter)
      && |skey| == 32 && (!stale ==> skey == K[..])
    }

    constructor ()
      ensures Valid() && fresh(pool) && fresh(K) && fresh(IV)
      ensures !ready && log == [] && added == 0 && counter == 0 && used == [] && !stale
    {
      pool, K, IV := new seq<byte>[POOLS], new byte[32], new byte[16];
      new;
      Start();
    }

    /** fortuna_start */
    method Start()
      requires Shaped()
      modifies this, pool, K, IV
      ensures Valid() && !ready && log == [] && added == 0 && counter == 0 && used == [] && resetCnt == wd == 0
        && !stale
      ensures K[..] == Zeros(32) && IV[..] == Zeros(16)
    {
      hide Tally, Zeros, Block;
      FirstBlock();
      ready := false;
      EmptyPools();
      poolIdx, pool0Len, resetCnt, wd := 0, 0, 0, 0;
      ZeroBytes(K);
      skey := K[..];
      ZeroBytes(IV);
      log, added, counter, used, stale := [], 0, 0, [], false;
      TallyStart(pool[..]);
    }

    method EmptyPools()
      requires Shaped()
      modifies pool
      ensures forall x :: 0 <= x < POOLS ==> pool[x] == []
    {
      for x := 0 to POOLS
        invariant forall y :: 0 <= y < x ==> pool[y] == []
      {
        pool[x] := [];
      }
    }

    /** s_fortuna_add: the frame goes to pool `p`. Two bytes and at most 32 more never make a hash overflow. */
    method Add(source: byte, p: nat, input: array<byte>, inlen: nat)
      requires Valid() && p < POOLS && inlen <= input.Length
      modifies this`pool0Len, this`log, pool
      ensures Valid()
      ensures log == old(log) + [Frame(p, source, old(input[..])[..if inlen > 32 then 32 else inlen])]
    {
      hide Tally, Rising, Block, FrameBytes;
      var n := if inlen > 32 then 32 else inlen;
      ghost var data := input[..][..n];
      TallyFrame(log, pool[..], pool0Len, resetCnt, p, source, data);
      assert FrameBytes(source, input[..n]) == FrameBytes(source, data);
      pool[p] := pool[p] + FrameBytes(source, input[..n]);
      if p == 0 {
        pool0Len := Mod64(pool0Len + n);
      }
      log := log + [Frame(p, source, data)];
    }

    /** fortuna_add_random_event */
    method AddRandomEvent(source: byte, p: nat, input: array<byte>, inlen: nat)
      requires Valid() && p < POOLS && 0 < inlen <= input.Length
      modifies this`pool0Len, this`log, pool
      ensures Valid()
      ensures log == old(log) + [Frame(p, source, old(input[..])[..if inlen > 32 then 32 else inlen])]
    {
      Add(source, p, input, inlen);
    }

    /** fortuna_add_entropy: the pools take turns. */
    method AddEntropy(input: array<byte>, inlen: nat)
      requires Valid() && 0 < inlen <= input.Length
      modifies this`poolIdx, this`pool0Len, this`log, this`added, pool
      ensures Valid() && added == old(added) + 1
      ensures log == old(log) + [Frame(old(added) % POOLS, 0, old(input[..])[..if inlen > 32 then 32 else inlen])]
    {
      hide Tally, Rising, Block;
      Add(0, poolIdx, input, inlen);
      poolIdx := poolIdx + 1;
      poolIdx := poolIdx % POOLS;
      added := added + 1;
    }

    /** The loop of s_fortuna_reseed over the pools, which stops at the first bit that is set. */
    method DrainPools(r: nat) returns (seed: seq<byte>)
      requires pool.Length == POOLS
      modifies pool
      ensures seed == Seed(old(pool[..]), r, POOLS)
      ensures forall k :: 0 <= k < POOLS ==> pool[k] == if Drains(r, k) then [] else old(pool[k])
    {
      hide Drains, BitClear, Seed, Sha;
      ghost var before := pool[..];
      seed := [];
      SeedStart(before, r);
      var x := 0;
      while x < POOLS
        invariant x <= POOLS && seed == Seed(before, r, x)
        invariant x > 0 ==> Drains(r, x - 1)
        invariant forall k :: 0 <= k < x ==> pool[k] == [] && Drains(r, k)
        invariant forall k :: x <= k < POOLS ==> pool[k] == before[k]
      {
        SeedStep(before, r, x);
        if !BitClear(r, x) {
          break;
        }
        seed := seed + Sha(pool[x]);
        pool[x] := [];
        x := x + 1;
      }
      SeedBeyond(before, r, x, POOLS);
    }

    /** s_fortuna_update_iv */
    method Step()
      requires Shaped() && IV[..] == Block(counter)
      modifies this`counter, IV
      ensures IV[..] == Block(counter) && counter == old(counter) + 1
    {
      hide Block, Increment;
      UpdateIv(IV);
      NextBlock(counter);
      counter := counter + 1;
    }

    /** s_fortuna_reseed, when the clock shows `now`. It succeeds, and does nothing if the last reseed was at `now`. */
    method Reseed(now: nat)
      requires Valid() && now < TWO_64
      modifies this, pool, K, IV
      ensures Valid()
      ensures now == old(wd) ==> unchanged(this, pool, K, IV)
      ensures now != old(wd) ==> Reseeded(old(log), old(K[..]), old(counter), now)
      ensures poolIdx == old(poolIdx) && added == old(added) && ready == old(ready) && used == old(used)
    {
      hide Tally, Block, Increment, Rising, Seed, Sha, Drains;
      if now == wd {
        return;
      }
      var r := Mod64(resetCnt + 1);
      ghost var pools := pool[..];
      var seed := DrainPools(r);
      SetKey(Sha(K[..] + seed));
      UsedNext(used, counter);
      Step();
      TallyReseed(log, pools, pool0Len, resetCnt, r, pool[..]);
      TallyPools(log, pools, pool0Len, resetCnt);
      pool0Len, wd, resetCnt := 0, now, r;
      log := log + [Event.Reseed(r)];
    }

    /** What a reseed does. */
    ghost predicate Reseeded(log0: seq<Event>, k: seq<byte>, c: nat, now: nat)
      reads this, K
    {
      && FoldedIn(log0, log, resetCnt, k, K[..])
      && skey == K[..] && !stale && counter == c + 1 && pool0Len == 0 && wd == now
    }

    /** A new key, and its schedule. */
    method SetKey(k: seq<byte>)
      requires Shaped() && |k| == 32
      modifies this`skey, this`stale, K
      ensures K[..] == k == skey && !stale
    {
      Put(k, K, 0);
      skey, stale := K[..], false;
    }

    /** What encryption and the counter need, and keep. */
    ghost predicate Running()
      reads this, IV
    {
      Shaped() && IV[..] == Block(counter) && Rising(used, counter) && |skey| == 32
    }

    /** One block of the key stream. */
    method NextKeyBlock() returns (block: seq<byte>)
      requires Running()
      modifies this`counter, this`used, IV
      ensures Running() && counter == old(counter) + 1 && used == old(used) + [old(counter)]
      ensures block == Encrypt(skey, Block(old(counter)))
    {
      hide Block, Increment, Rising, Encrypt;
      block := Encrypt(skey, IV[..]);
      UsedNext(used, counter);
      used := used + [counter];
      Step();
    }

    /** The next key block, or the first `m` bytes of it at the end of a read, goes to `out`. */
    method Emit(out: array<byte>, at: nat, m: nat, outlen: nat, ghost c: nat, ghost done: seq<byte>,
        ghost before: seq<byte>, ghost u: seq<nat>)
      requires Running() && outlen <= out.Length && out != K && out != IV
      requires Streamed(skey, c, counter, done, outlen, out[..], before)
      requires |done| == at && m == if outlen - at < 16 then outlen - at else 16
      requires c <= counter && used == u + Range(c, counter - c)
      modifies this`counter, this`used, IV, out
      ensures Running() && counter == old(counter) + 1 && used == u + Range(c, counter - c)
      ensures Streamed(skey, c, counter, done + Encrypt(skey, Block(old(counter)))[..m], outlen, out[..], before)
    {
      hide Block, Rising, Encrypt, Stream, Range;
      RangeNext(c, counter - c);
      ghost var middle := out[..];
      var block := NextKeyBlock();
      Put(block[..m], out, at);
      StreamStep(skey, c, counter - 1, done, outlen, out[..], middle, before, m);
    }

    /** The whole blocks of a read, and then the rest from one more block. */
    method Fill(out: array<byte>, outlen: nat)
      requires Running() && outlen <= out.Length && out != K && out != IV
      modifies this`counter, this`used, IV, out
      ensures Running() && counter == old(counter) + BlocksFor(outlen)
      ensures used == old(used) + Range(old(counter), BlocksFor(outlen))
      ensures Written(out[..], old(out[..]), 0, Stream(skey, old(counter), outlen))
    {
      hide Block, Rising, Encrypt, Written, Stream, Streamed;
      ghost var c, u, before, done := counter, used, out[..], [];
      StreamEnds(skey, c, c, [], outlen, before, before);
      var at: nat, left: nat := 0, outlen;
      while left >= 16
        invariant Running() && |done| == at && at + left == outlen && counter >= c && at == 16 * (counter - c)
        invariant Streamed(skey, c, counter, done, outlen, out[..], before)
        invariant used == u + Range(c, counter - c)
      {
        ghost var block := Encrypt(skey, Block(counter));
        Emit(out, at, 16, outlen, c, done, before, u);
        done := done + block[..16];
        at, left := at + 16, left - 16;
      }
      if left > 0 {
        ghost var block := Encrypt(skey, Block(counter));
        Emit(out, at, left, outlen, c, done, before, u);
        done := done + block[..left];
      }
      assert |done| == outlen;
      StreamEnds(skey, c, counter, done, outlen, out[..], before);
      BlocksForParts(at / 16, outlen - at);
    }

    /** The new key after a read. */
    method Rekey()
      requires Running()
      modifies this`counter, this`used, this`skey, this`stale, IV, K
      ensures Running() && counter == old(counter) + 2 && used == old(used) + [old(counter), old(counter) + 1]
      ensures K[..] == Encrypt(old(skey), Block(old(counter))) + Encrypt(old(skey), Block(old(counter) + 1))
      ensures skey == K[..] && !stale
    {
      hide Block, Rising, Encrypt;
      var first := NextKeyBlock();
      var second := NextKeyBlock();
      SetKey(first + second);
    }

    /** fortuna_ready; `first` and `second` are what the clock shows to it and to the reseed. */
    method Ready(first: nat, second: nat)
      requires Valid() && first < TWO_64 && second < TWO_64
      modifies this, pool, K, IV
      ensures Valid() && ready && poolIdx == old(poolIdx) && added == old(added) && used == old(used)
      ensures if second == Mod64(first + TWO_64 - 1)
              then log == old(log) && counter == old(counter) && resetCnt == old(resetCnt)
              else Reseeded(old(log), old(K[..]), old(counter), second)
    {
      hide Tally, Block, Rising, Seed, Sha;
      wd := Mod64(first + TWO_64 - 1);
      Reseed(second);
      ready := true;
    }

    /** fortuna_read; `now` is what the clock shows to a reseed. The bytes are the key stream of `key` from the counter
        `c` on: those of the reseed if there is one, and otherwise those in place. */
    method Read(out: array<byte>, outlen: nat, now: nat) returns (tlen: nat, ghost key: seq<byte>, ghost c: nat)
      requires Valid() && outlen <= out.Length && now < TWO_64 && out != K && out != IV && pool as object != out
      modifies this, pool, K, IV, out
      ensures Valid() && |key| == 32 && poolIdx == old(poolIdx) && added == old(added) && ready == old(ready)
      ensures if outlen > 0 && old(ready) && old(pool0Len) >= 64 && now != old(wd)
              then wd == now && c == old(counter) + 1 && FoldedIn(old(log), log, resetCnt, old(K[..]), key)
              else (wd == old(wd) && log == old(log) && resetCnt == old(resetCnt) && c == old(counter)
                    && key == old(skey))
      ensures tlen == if outlen > 0 && old(ready) && resetCnt != 0 then outlen else 0
      ensures tlen == 0 ==> out[..] == old(out[..]) && counter == c && used == old(used)
      ensures tlen > 0 ==> Written(out[..], old(out[..]), 0, Stream(key, c, outlen))
      ensures tlen > 0 ==>
        skey == K[..]
             == Encrypt(key, Block(c + BlocksFor(outlen))) + Encrypt(key, Block(c + BlocksFor(outlen) + 1))
      ensures tlen > 0 ==> counter == c + BlocksFor(outlen) + 2 && !stale
      ensures tlen > 0 ==> used == old(used) + Range(c, BlocksFor(outlen) + 2)
    {
      hide Tally, Block, Rising, Seed, Sha, Encrypt, Stream, Written, Pools, BlocksFor, Range;
      tlen, key, c := 0, skey, counter;
      if outlen == 0 {
        return;
      }
      if !ready {
        return;
      }
      if pool0Len >= 64 {
        Reseed(now);
        key, c := skey, counter;
      }
      if resetCnt == 0 {
        return;
      }
      tlen := outlen;
      Fill(out, outlen);
      RangeNext(c, BlocksFor(outlen));
      RangeNext(c, BlocksFor(outlen) + 1);
      Rekey();
    }

    /** fortuna_update_seed changes the key, but not the schedule. */
    method UpdateSeed(input: array<byte>, inlen: nat)
      requires Valid() && inlen <= input.Length && input != K && input != IV
      modifies this`counter, this`stale, K, IV
      ensures Valid() && counter == old(counter) + 1 && stale
      ensures K[..] == Sha(old(K[..]) + input[..][..inlen])
    {
      hide Tally, Block, Rising, Sha;
      Put(Sha(K[..] + input[..][..inlen]), K, 0);
      stale := true;
      UsedNext(used, counter);
      Step();
    }
  }

  lemma TallyPools(log: seq<Event>, pools: seq<seq<byte>>, pool0Len: nat, resetCnt: nat)
    requires Tally(log, pools, pool0Len, resetCnt)
    ensures IsLog(log) && pools == Pools(log) && Mod64(resetCnt + 1) == Mod64(Reseeds(log) + 1)
  {
    hide Mod64, Numbered;
    Mod64Sum(Reseeds(log), 1);
  }

  lemma SeedStart(pools: seq<seq<byte>>, r: nat)
    ensures Seed(pools, r, 0) == []
  {
  }

  /** One turn of the loop: below `x` the pool is drained, and the bit decides about pool `x`. */
  lemma SeedStep(pools: seq<seq<byte>>, r: nat, x: nat)
    requires x < |pools| && (x > 0 ==> Drains(r, x - 1))
    ensures BitClear(r, x) <==> Drains(r, x)
    ensures Drains(r, x) ==> Seed(pools, r, x + 1) == Seed(pools, r, x) + Sha(pools[x])
  {
    hide Sha;
    if x > 0 {
      NextPower(r, x - 1);
    }
  }
}
