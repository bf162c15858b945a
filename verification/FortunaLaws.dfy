/** What the output and the keys of Fortuna are, in terms of AES, SHA-256 and the events of the run alone. */
module FortunaLaws {
  import opened Buffers
  import opened FortunaCounter
  import opened FortunaLog
  import opened Fortuna
  import opened HashCore
  import Fips197
  import Fips197Laws
  import Sha256

  // ---- the output

  /** `ct` is a block that AES decrypts to `pt`. */
  ghost predicate DecryptsTo(key: seq<byte>, ct: seq<byte>, pt: seq<byte>)
    requires |key| == 32
  {
    |ct| == 16 && Fips197.Decrypt(key, ct) == pt
  }

  lemma EncryptionDecrypts(key: seq<byte>, block: seq<byte>)
    requires |key| == 32 && |block| == 16
    ensures DecryptsTo(key, Encrypt(key, block), block)
  {
    hide Fips197.Decrypt, Fips197.Encrypt;
    Fips197Laws.DecryptOfEncrypt(key, block);
  }

  /** Every whole block of the key stream decrypts to its counter. */
  lemma {:induction false} StreamDecrypts(key: seq<byte>, c: nat, n: nat, q: nat)
    requires |key| == 32 && 16 * q + 16 <= n
    ensures DecryptsTo(key, Stream(key, c, n)[16 * q..16 * q + 16], Block(c + q))
    decreases q
  {
    hide DecryptsTo, Encrypt, Block, Stream;
    var first := Encrypt(key, Block(c));
    StreamUnfold(key, c, n, 16);
    assert first[..16] == first;
    if q == 0 {
      EncryptionDecrypts(key, Block(c));
      assert Stream(key, c, n)[0..16] == first;
    } else {
      StreamDecrypts(key, c + 1, n - 16, q - 1);
      assert Stream(key, c, n)[16 * q..16 * q + 16] == Stream(key, c + 1, n - 16)[16 * (q - 1)..16 * (q - 1) + 16];
    }
  }

  /** A shorter stream is the start of a longer one. */
  lemma {:induction false} StreamStarts(key: seq<byte>, c: nat, m: nat, n: nat)
    requires |key| == 32 && m <= n
    ensures Stream(key, c, m) == Stream(key, c, n)[..m]
    decreases m
  {
    hide Encrypt, Block;
    if m > 16 {
      StreamStarts(key, c + 1, m - 16, n - 16);
    }
  }

  /** The halves of the key that a read leaves decrypt to the next two counters. */
  lemma NextKeyDecrypts(key: seq<byte>, c: nat, next: seq<byte>)
    requires |key| == 32 && next == Encrypt(key, Block(c)) + Encrypt(key, Block(c + 1))
    ensures DecryptsTo(key, next[..16], Block(c)) && DecryptsTo(key, next[16..], Block(c + 1))
  {
    hide DecryptsTo, Encrypt, Block;
    EncryptionDecrypts(key, Block(c));
    EncryptionDecrypts(key, Block(c + 1));
    assert next[..16] == Encrypt(key, Block(c)) && next[16..] == Encrypt(key, Block(c + 1));
  }

  /** A read takes the least number of blocks that holds its bytes. */
  lemma BlocksHold(n: nat)
    ensures 16 * BlocksFor(n) >= n && (BlocksFor(n) > 0 ==> 16 * (BlocksFor(n) - 1) < n)
  {
  }

  // ---- the keys

  lemma ShaIs(message: seq<byte>)
    ensures Sha(message) == Digest(Sha256.Sha256(), message)
  {
    hide Digest;
  }

  function Joined(parts: seq<seq<byte>>): seq<byte> {
    if |parts| == 0 then [] else Joined(parts[..|parts| - 1]) + parts[|parts| - 1]
  }

  /** Byte i of part x, in its place. */
  lemma {:induction false} JoinedByte(parts: seq<seq<byte>>, x: nat, i: nat)
    requires (forall y :: 0 <= y < |parts| ==> |parts[y]| == 32) && x < |parts| && i < 32
    ensures |Joined(parts)| == 32 * |parts| && Joined(parts)[32 * x + i] == parts[x][i]
    decreases |parts|
  {
    var front := parts[..|parts| - 1];
    if |front| > 0 {
      JoinedByte(front, if x < |front| then x else 0, i);
    }
  }

  lemma {:induction false} SeedIsJoined(pools: seq<seq<byte>>, r: nat, digests: seq<seq<byte>>, n: nat)
    requires n == |digests| <= |pools|
    requires forall x :: 0 <= x < n ==> Drains(r, x) && digests[x] == Digest(Sha256.Sha256(), pools[x])
    ensures Seed(pools, r, n) == Joined(digests)
  {
    hide Digest, Drains;
    if n > 0 {
      SeedIsJoined(pools, r, digests[..n - 1], n - 1);
      ShaIs(pools[n - 1]);
    }
  }

  /** The key after reseed `r` is the SHA-256 digest of the old key and of the digests of the first `t` pools, each of
      the frames pending in it, where 2^(t-1) is the largest of the 32 powers that divides `r`. */
  lemma KeyOfReseed(before: seq<Event>, after: seq<Event>, r: nat, k: seq<byte>, key: seq<byte>, t: nat,
      digests: seq<seq<byte>>)
    requires FoldedIn(before, after, r, k, key)
    requires 1 <= t <= 32 && r % Pow2(t - 1) == 0 && (t < 32 ==> r % Pow2(t) != 0)
    requires |digests| == t
    requires forall x :: 0 <= x < t ==> IsPoolDigest(before, x, digests[x])
    ensures key == Digest(Sha256.Sha256(), k + Joined(digests))
  {
    hide Sha, Digest, Pow2, IsPoolDigest, Seed, Content;
    var pools := Pools(before);
    SeedBeyond(pools, r, t, 32);
    forall x | 0 <= x < t
      ensures Drains(r, x) && digests[x] == Digest(Sha256.Sha256(), pools[x])
    {
      DrainsFewer(r, x, t - 1);
      PoolDigest(before, x, digests[x]);
    }
    SeedUpTo(pools, r, digests, t);
    ShaIs(k + Joined(digests));
  }

  /** The digest of the frames that are pending in pool `x`. */
  ghost predicate IsPoolDigest(log: seq<Event>, x: nat, digest: seq<byte>) {
    && IsLog(log) && AreFrames(log, InPool(log, x))
    && digest == Digest(Sha256.Sha256(), Frames(log, InPool(log, x)))
  }

  lemma PoolDigest(log: seq<Event>, x: nat, digest: seq<byte>)
    requires IsPoolDigest(log, x, digest) && x < 32
    ensures digest == Digest(Sha256.Sha256(), Pools(log)[x])
  {
    hide Digest, Frames, Content;
    ContentIsFrames(log, x);
  }

  lemma SeedUpTo(pools: seq<seq<byte>>, r: nat, digests: seq<seq<byte>>, t: nat)
    requires t == |digests| <= |pools| == 32
    requires forall x :: 0 <= x < t ==> Drains(r, x) && digests[x] == Digest(Sha256.Sha256(), pools[x])
    requires Seed(pools, r, 32) == Seed(pools, r, t)
    ensures Seed(pools, r, 32) == Joined(digests)
  {
    hide Digest, Drains;
    SeedIsJoined(pools, r, digests, t);
  }

  // ---- the counts

  /** The bytes of data in pool 0 are those of its frames without their heads. */
  lemma {:induction false} Pool0DataIs(log: seq<Event>)
    requires IsLog(log)
    ensures Pool0Data(log) + 2 * |InPool(log, 0)| == |Content(log, 0)|
  {
    hide Drains;
    if |log| > 0 {
      Pool0DataIs(log[..|log| - 1]);
      AlwaysDrained(log[|log| - 1]);
    }
  }

  lemma AlwaysDrained(e: Event)
    ensures e.Reseed? ==> Drains(e.number, 0)
  {
  }

  /** The reseeds are counted. */
  lemma {:induction false} ReseedsAre(log: seq<Event>)
    ensures Reseeds(log) == |set i | 0 <= i < |log| && log[i].Reseed?|
  {
    var all := set i | 0 <= i < |log| && log[i].Reseed?;
    if |log| > 0 {
      var n := |log| - 1;
      var fewer := set i | 0 <= i < n && log[..n][i].Reseed?;
      ReseedsAre(log[..n]);
      assert all == if log[n].Reseed? then fewer + {n} else fewer;
    } else {
      assert all == {};
    }
  }

  /** The counters of a read, one by one. */
  lemma {:induction false} RangeCounts(c: nat, n: nat, i: nat)
    requires i < n
    ensures Range(c, n)[i] == c + i
    decreases n
  {
    if i > 0 {
      RangeCounts(c + 1, n - 1, i - 1);
    }
  }

  /** The events of a pool are in the order of the run ... */
  lemma {:induction false} InPoolRises(log: seq<Event>, k: nat, i: nat, j: nat)
    requires i < j < |InPool(log, k)|
    ensures InPool(log, k)[i] < InPool(log, k)[j] < |log|
  {
    hide Drains;
    var n := |log| - 1;
    if j < |InPool(log[..n], k)| {
      InPoolRises(log[..n], k, i, j);
    } else {
      InPoolIff(log[..n], k, InPool(log[..n], k)[i]);
    }
  }

  /** ... and so are the bytes of their frames. */
  lemma FramesInOrder(log: seq<Event>, events: seq<nat>, e: nat)
    requires IsLog(log) && AreFrames(log, events + [e]) && e < |log| && log[e].Frame?
    ensures AreFrames(log, events)
    ensures Frames(log, events + [e]) == Frames(log, events) + FrameBytes(log[e].source, log[e].data)
  {
    hide FrameBytes;
    assert (events + [e])[..|events|] == events && (events + [e])[|events|] == e;
    assert forall i :: 0 <= i < |events| ==> events[i] == (events + [e])[i];
  }
}
