/** PKCS #5 algorithm 2 with HMAC as the pseudorandom function, against section 5.2 of RFC 8018. */
module Pbkdf2 {
  import opened Blocks
  import opened Buffers
  import opened Errors
  import opened GaloisField
  import opened HashCore
  import opened Hmac

  const TWO_32: nat := 0x1_0000_0000

  // ---- RFC 8018

  /** INT(i); the code counts blocks in 32 bits. */
  function Int(i: nat): (b: seq<byte>)
    ensures |b| == 4
  {
    BigEndian(i % TWO_32, 4)
  }

  /** U_j of block i, for j from 1 on. */
  ghost function U<S(!new)>(h: Hash<S>, p: seq<byte>, s: seq<byte>, i: nat, j: nat): (u: seq<byte>)
    requires IsHash(h)
    ensures |u| == h.hashSize
  {
    if j <= 1 then Mac(h, p, s + Int(i)) else Mac(h, p, U(h, p, s, i, j - 1))
  }

  /** T_i: the sum of U_1 to U_c. */
  ghost function T<S(!new)>(h: Hash<S>, p: seq<byte>, s: seq<byte>, c: int, i: nat): (t: seq<byte>)
    requires IsHash(h)
    ensures |t| == h.hashSize
    decreases if c <= 1 then 0 else c
  {
    if c <= 1 then U(h, p, s, i, 1) else XorBytes(T(h, p, s, c - 1, i), U(h, p, s, i, c))
  }

  /** The first `n` bytes of T_i, T_i+1, and so on. */
  ghost function Key<S(!new)>(h: Hash<S>, p: seq<byte>, s: seq<byte>, c: int, i: nat, n: nat): (k: seq<byte>)
    requires IsHash(h)
    ensures |k| == n
    decreases n
  {
    var t := T(h, p, s, c, i);
    if n <= h.hashSize then t[..n] else t + Key(h, p, s, c, i + 1, n - h.hashSize)
  }

  /** T_i to T_i+n-1, one after the other. */
  ghost function Stream<S(!new)>(h: Hash<S>, p: seq<byte>, s: seq<byte>, c: int, i: nat, n: nat): seq<byte>
    requires IsHash(h)
    decreases n
  {
    if n == 0 then [] else T(h, p, s, c, i) + Stream(h, p, s, c, i + 1, n - 1)
  }

  lemma {:induction false} KeyStartsStream<S(!new)>(h: Hash<S>, p: seq<byte>, s: seq<byte>, c: int, i: nat, n: nat,
      blocks: nat)
    requires IsHash(h) && n <= blocks * h.hashSize
    ensures Key(h, p, s, c, i, n) <= Stream(h, p, s, c, i, blocks)
    decreases blocks
  {
    hide T, U;
    if blocks > 0 && n > h.hashSize {
      assert (blocks - 1) * h.hashSize == blocks * h.hashSize - h.hashSize;
      KeyStartsStream(h, p, s, c, i + 1, n - h.hashSize, blocks - 1);
    }
  }

  /** A shorter key is the start of a longer one. */
  lemma {:induction false} ShorterKey<S(!new)>(h: Hash<S>, p: seq<byte>, s: seq<byte>, c: int, i: nat, m: nat, n: nat)
    requires IsHash(h) && m <= n
    ensures Key(h, p, s, c, i, m) == Key(h, p, s, c, i, n)[..m]
    decreases n
  {
    hide T, U;
    if m > h.hashSize {
      ShorterKey(h, p, s, c, i + 1, m - h.hashSize, n - h.hashSize);
    }
  }

  /** The low 32 bits of a number, the most significant ones first. */
  function FourBytes(i: nat): seq<byte> {
    var n := i % 0x1_0000_0000;
    [(n / 0x100_0000 % 256) as byte, (n / 0x1_0000 % 256) as byte, (n / 0x100 % 256) as byte, (n % 256) as byte]
  }

  /** Section 5.2 as the standard writes it: `us` are U_1 to U_c for block `i`, of the salt and the four bytes of the
      block number; and `ts` are their sums, byte by byte. */
  ghost predicate IsBlockRun<S(!new)>(h: Hash<S>, p: seq<byte>, s: seq<byte>, i: nat, us: seq<seq<byte>>,
      ts: seq<seq<byte>>)
    requires IsHash(h)
  {
    && |us| == |ts| > 0
    && us[0] == ts[0] == Mac(h, p, s + FourBytes(i))
    && forall j: nat :: j + 1 < |us| ==> us[j + 1] == Mac(h, p, us[j]) && IsSum(ts[j + 1], ts[j], us[j + 1])
  }

  ghost predicate IsSum(t: seq<byte>, a: seq<byte>, b: seq<byte>) {
    |t| == |a| == |b| && forall k :: 0 <= k < |t| ==> t[k] == a[k] ^ b[k]
  }

  lemma IntBytes(i: nat)
    ensures Int(i) == FourBytes(i)
  {
    hide BigEndian, Power256;
    Powers();
    var n := i % TWO_32;
    BigEndianByte(n, 4, 0);
    BigEndianByte(n, 4, 1);
    BigEndianByte(n, 4, 2);
    BigEndianByte(n, 4, 3);
  }

  lemma Powers()
    ensures Power256(0) == 1 && Power256(1) == 0x100 && Power256(2) == 0x1_0000 && Power256(3) == 0x100_0000
  {
    assert Power256(2) == 0x1_0000;
  }

  lemma {:induction false} BlockIsRun<S(!new)>(h: Hash<S>, p: seq<byte>, s: seq<byte>, i: nat, us: seq<seq<byte>>,
      ts: seq<seq<byte>>, c: nat)
    requires IsHash(h) && IsBlockRun(h, p, s, i, us, ts) && 1 <= c <= |us|
    ensures U(h, p, s, i, c) == us[c - 1] && T(h, p, s, c, i) == ts[c - 1]
  {
    hide Mac, Int;
    IntBytes(i);
    if c > 1 {
      BlockIsRun(h, p, s, i, us, ts, c - 1);
      assert us[c - 2 + 1] == Mac(h, p, us[c - 2]) && IsSum(ts[c - 2 + 1], ts[c - 2], us[c - 2 + 1]);
      assert XorBytes(ts[c - 2], us[c - 1]) == ts[c - 1];
    }
  }

  lemma KeyUnfold<S(!new)>(h: Hash<S>, p: seq<byte>, s: seq<byte>, c: int, i: nat, n: nat, m: nat)
    requires IsHash(h) && m < n
    ensures Key(h, p, s, c, i, n)[m]
         == if m < h.hashSize then T(h, p, s, c, i)[m] else Key(h, p, s, c, i + 1, n - h.hashSize)[m - h.hashSize]
  {
    hide T;
  }

  /** The key is the bytes of the blocks, one block after the other: byte m is byte r of block i + q. */
  lemma {:induction false} KeyByte<S(!new)>(h: Hash<S>, p: seq<byte>, s: seq<byte>, c: int, i: nat, n: nat, m: nat,
      q: nat, r: nat)
    requires IsHash(h) && m == q * h.hashSize + r && m < n && r < h.hashSize
    ensures Key(h, p, s, c, i, n)[m] == T(h, p, s, c, i + q)[r]
    decreases q
  {
    hide T, Key, IsHash;
    KeyUnfold(h, p, s, c, i, n, m);
    if q > 0 {
      assert m - h.hashSize == (q - 1) * h.hashSize + r;
      KeyByte(h, p, s, c, i + 1, n - h.hashSize, m - h.hashSize, q - 1, r);
    }
  }

  /** INT(i) is the number i exactly for the block numbers that fit into 32 bits, which are those that RFC 8018
      allows. */
  lemma IntIsNumber(i: nat)
    ensures Number(Int(i)) == i <==> i < TWO_32
  {
    hide BigEndian, Number;
    assert Power256(2) == 0x1_0000;
    NumberOfBigEndian(i % TWO_32, 4);
  }

  lemma {:induction false} PrfsRepeat<S(!new)>(h: Hash<S>, p: seq<byte>, s: seq<byte>, i: nat, j: nat)
    requires IsHash(h)
    ensures U(h, p, s, i + TWO_32, j) == U(h, p, s, i, j)
  {
    hide BigEndian;
    if j > 1 {
      PrfsRepeat(h, p, s, i, j - 1);
    } else {
      assert (i + TWO_32) % TWO_32 == i % TWO_32;
    }
  }

  /** Past them the blocks come again from the first number on, with block 0 between the last and the first. */
  lemma {:induction false} BlocksRepeat<S(!new)>(h: Hash<S>, p: seq<byte>, s: seq<byte>, c: int, i: nat)
    requires IsHash(h)
    ensures T(h, p, s, c, i + TWO_32) == T(h, p, s, c, i)
    decreases if c <= 1 then 0 else c
  {
    hide U;
    PrfsRepeat(h, p, s, i, if c <= 1 then 1 else c);
    if c > 1 {
      BlocksRepeat(h, p, s, c - 1, i);
    }
  }

  // ---- the code

  /** U_1 of block `i` goes to `buf0`; `buf1` holds the block number. */
  method FirstPrf<S(!new)>(hmac: HmacState<S>, password: array<byte>, passwordLen: nat, salt: array<byte>, saltLen: nat,
      buf0: array<byte>, buf1: array<byte>, ghost i: nat)
    returns (status: Status, x: nat)
    requires hmac.Shaped() && passwordLen <= password.Length && saltLen <= salt.Length
    requires buf0.Length == buf1.Length == MAX_BLOCK_SIZE && Int(i) == buf1[..][..4] && buf0 != buf1
    requires password != hmac.key && password != hmac.md.buf && salt != hmac.key && salt != hmac.md.buf
    requires buf0 != hmac.key && buf0 != hmac.md.buf && buf1 != hmac.key && buf1 != hmac.md.buf
    requires buf0 != password && buf0 != salt
    modifies hmac, hmac.md, hmac.md.buf, hmac.key, buf0
    ensures hmac.Shaped()
    ensures status ==
      if passwordLen == 0 then InvalidKeySize
      else if Overflows(8 * hmac.h.blockSize, saltLen) then HashOverflow
      else Ok
    ensures status == Ok ==> x == hmac.h.hashSize
    ensures status == Ok ==> buf0[..][..x] == U(hmac.h, password[..][..passwordLen], salt[..][..saltLen], i, 1)
  {
    hide Mac, Mod64, Overflows, XorAll, KeyBlock, Fold, Whole, Int;
    x := 0;
    status := hmac.Init(password, passwordLen);
    if status != Ok {
      return;
    }
    status := hmac.Process(salt, 0, saltLen);
    if status != Ok {
      return;
    }
    assert hmac.Text() == salt[..][..saltLen];
    BlocksLeaveRoom(|hmac.md.whole|, hmac.h.blockSize, 4);
    status := hmac.Process(buf1, 0, 4);
    assert hmac.Text() == salt[..][..saltLen] + Int(i);
    status, x := hmac.Done(buf0, 0, MAX_BLOCK_SIZE);
  }

  lemma NextTerm<S(!new)>(h: Hash<S>, p: seq<byte>, s: seq<byte>, i: nat, j: nat)
    requires IsHash(h) && j >= 1
    ensures T(h, p, s, 1, i) == U(h, p, s, i, 1)
    ensures U(h, p, s, i, j + 1) == Mac(h, p, U(h, p, s, i, j))
    ensures T(h, p, s, j + 1, i) == XorBytes(T(h, p, s, j, i), U(h, p, s, i, j + 1))
  {
  }

  /** The front of `sum` becomes its sum with the front of `term`. */
  method AddInto(sum: array<byte>, term: array<byte>, x: nat)
    requires x <= sum.Length == term.Length && sum != term
    modifies sum
    ensures sum[..][..x] == XorBytes(old(sum[..])[..x], term[..][..x])
  {
    var y := 0;
    while y < x
      invariant y <= x
      invariant forall k :: 0 <= k < x ==> sum[k] == if k < y then Xor(old(sum[k]), term[k]) else old(sum[k])
    {
      sum[y] := Xor(sum[y], term[y]);
      y := y + 1;
    }
  }

  /** hmac_memory from a buffer into itself. */
  method MacInPlace<S(!new)>(h: Hash<S>, password: array<byte>, passwordLen: nat, buf: array<byte>)
    requires IsHash(h) && 0 < passwordLen <= password.Length && buf != password && buf.Length == MAX_BLOCK_SIZE
    modifies buf
    ensures buf[..][..h.hashSize] == Mac(h, password[..][..passwordLen], old(buf[..])[..h.hashSize])
  {
    hide Mac, Mod64, Overflows;
    SmallIsAccepted(h.blockSize, h.hashSize);
    var status, x := HmacMemory(h, password, passwordLen, buf, h.hashSize, buf, h.hashSize);
  }

  /** The next U in `buf0`, and the sum with it in `buf1`. */
  method AddTerm<S(!new)>(h: Hash<S>, password: array<byte>, passwordLen: nat, buf0: array<byte>, buf1: array<byte>,
      ghost s: seq<byte>, ghost i: nat, ghost j: nat)
    requires IsHash(h) && 0 < passwordLen <= password.Length && buf0 != buf1 && buf0 != password && buf1 != password
    requires buf0.Length == buf1.Length == MAX_BLOCK_SIZE && j >= 1
    requires buf0[..][..h.hashSize] == U(h, password[..][..passwordLen], s, i, j)
    requires buf1[..][..h.hashSize] == T(h, password[..][..passwordLen], s, j, i)
    modifies buf0, buf1
    ensures buf0[..][..h.hashSize] == U(h, password[..][..passwordLen], s, i, j + 1)
    ensures buf1[..][..h.hashSize] == T(h, password[..][..passwordLen], s, j + 1, i)
  {
    hide Mac, T, U, XorBytes;
    NextTerm(h, password[..][..passwordLen], s, i, j);
    MacInPlace(h, password, passwordLen, buf0);
    AddInto(buf1, buf0, h.hashSize);
  }

  /** U_1 is in `buf0`; T_i goes to `buf1`. Every further U is computed in `buf0`, over the one before. */
  method Iterate<S(!new)>(h: Hash<S>, password: array<byte>, passwordLen: nat, c: int, buf0: array<byte>,
      buf1: array<byte>, ghost s: seq<byte>, ghost i: nat)
    requires IsHash(h) && 0 < passwordLen <= password.Length && buf0 != buf1 && buf0 != password && buf1 != password
    requires buf0.Length == buf1.Length == MAX_BLOCK_SIZE
    requires buf0[..][..h.hashSize] == U(h, password[..][..passwordLen], s, i, 1)
    modifies buf0, buf1
    ensures buf1[..][..h.hashSize] == T(h, password[..][..passwordLen], s, c, i)
  {
    hide Mac, T, U;
    ghost var p := password[..][..passwordLen];
    Put(buf0[..][..h.hashSize], buf1, 0);
    NextTerm(h, p, s, i, 1);
    var itts := 1;
    ghost var n := if c <= 1 then 1 else c;
    while itts < c
      invariant 1 <= itts <= n && p == password[..][..passwordLen]
      invariant buf0[..][..h.hashSize] == U(h, p, s, i, itts)
      invariant buf1[..][..h.hashSize] == T(h, p, s, itts, i)
    {
      AddTerm(h, password, passwordLen, buf0, buf1, s, i, itts);
      itts := itts + 1;
    }
    AtLeastOnce(h, p, s, c, i);
  }

  /** No count and a negative one give what a count of one gives. */
  lemma AtLeastOnce<S(!new)>(h: Hash<S>, p: seq<byte>, s: seq<byte>, c: int, i: nat)
    requires IsHash(h)
    ensures c <= 1 ==> T(h, p, s, c, i) == T(h, p, s, 1, i)
  {
  }

  /** One pass of the main loop: the next bytes of the key go to `out` at `stored`. */
  method NextBlock<S(!new)>(hmac: HmacState<S>, password: array<byte>, passwordLen: nat, salt: array<byte>,
      saltLen: nat, c: int, buf0: array<byte>, buf1: array<byte>, blkno: nat, ghost i: nat)
    returns (status: Status)
    requires hmac.Shaped() && passwordLen <= password.Length && saltLen <= salt.Length && blkno == i % TWO_32
    requires buf0.Length == buf1.Length == MAX_BLOCK_SIZE && buf0 != buf1
    requires password != hmac.key && password != hmac.md.buf && salt != hmac.key && salt != hmac.md.buf
    requires buf0 != hmac.key && buf0 != hmac.md.buf && buf1 != hmac.key && buf1 != hmac.md.buf
    requires buf0 != password && buf0 != salt && buf1 != password && buf1 != salt
    modifies hmac, hmac.md, hmac.md.buf, hmac.key, buf0, buf1
    ensures hmac.Shaped()
    ensures status ==
      if passwordLen == 0 then InvalidKeySize
      else if Overflows(8 * hmac.h.blockSize, saltLen) then HashOverflow
      else Ok
    ensures status == Ok ==>
      buf1[..][..hmac.h.hashSize] == T(hmac.h, password[..][..passwordLen], salt[..][..saltLen], c, i)
  {
    hide Mac, Mod64, Overflows, XorAll, KeyBlock, Fold, Whole, T, U, BigEndian;
    forall k | 0 <= k < MAX_BLOCK_SIZE {
      buf0[k] := 0;
    }
    forall k | 0 <= k < MAX_BLOCK_SIZE {
      buf1[k] := 0;
    }
    Put(BigEndian(blkno, 4), buf1, 0);
    var x;
    status, x := FirstPrf(hmac, password, passwordLen, salt, saltLen, buf0, buf1, i);
    if status != Ok {
      return;
    }
    Iterate(hmac.h, password, passwordLen, c, buf0, buf1, salt[..][..saltLen], i);
  }

  /** Emit up to `x` bytes of `buf1`. */
  method Emit(buf1: array<byte>, x: nat, out: array<byte>, stored: nat, left: nat) returns (stored': nat, left': nat)
    requires x <= buf1.Length && stored + left <= out.Length && buf1 != out
    modifies out
    ensures stored' + left' == stored + left && left' == if left < x then 0 else left - x
    ensures Written(out[..], old(out[..]), stored, buf1[..][..left - left'])
  {
    var y := 0;
    stored', left' := stored, left;
    while y < x && left' != 0
      invariant y <= x && y <= left && stored' == stored + y && left' == left - y
      invariant forall k :: 0 <= k < out.Length ==>
                  out[k] == if stored <= k < stored' then buf1[k - stored] else old(out[k])
    {
      out[stored'] := buf1[y];
      stored', left', y := stored' + 1, left' - 1, y + 1;
    }
    StoredRun(out[..], old(out[..]), stored, buf1[..][..y]);
  }

  lemma NextBytes<S(!new)>(h: Hash<S>, p: seq<byte>, s: seq<byte>, c: int, i: nat, n: nat)
    requires IsHash(h)
    ensures var m := if n < h.hashSize then n else h.hashSize;
            Key(h, p, s, c, i, n) == T(h, p, s, c, i)[..m] + Key(h, p, s, c, i + 1, n - m)
  {
    hide T, U;
  }

  /** The blocks before `i` are `done`, at the front of the output, and `left` bytes are still to come. */
  ghost predicate Emitted<S(!new)>(h: Hash<S>, p: seq<byte>, s: seq<byte>, c: int, outlen: nat, i: nat, left: nat,
      done: seq<byte>, now: seq<byte>, before: seq<byte>)
    requires IsHash(h)
  {
    && |done| + left == outlen
    && Written(now, before, 0, done)
    && done + Key(h, p, s, c, i, left) == Key(h, p, s, c, 1, outlen)
  }

  lemma EmittedNext<S(!new)>(h: Hash<S>, p: seq<byte>, s: seq<byte>, c: int, outlen: nat, i: nat, left: nat,
      done: seq<byte>, middle: seq<byte>, before: seq<byte>, now: seq<byte>, m: nat)
    requires IsHash(h) && Emitted(h, p, s, c, outlen, i, left, done, middle, before)
    requires m == if left < h.hashSize then left else h.hashSize
    requires Written(now, middle, |done|, T(h, p, s, c, i)[..m])
    ensures Emitted(h, p, s, c, outlen, i + 1, left - m, done + T(h, p, s, c, i)[..m], now, before)
  {
    hide T, Key;
    var bytes := T(h, p, s, c, i)[..m];
    NextBytes(h, p, s, c, i, left);
    WrittenTwice(now, middle, before, 0, done, bytes);
    assert done + (bytes + Key(h, p, s, c, i + 1, left - m)) == done + bytes + Key(h, p, s, c, i + 1, left - m);
  }

  /** pkcs_5_alg2 */
  method Alg2<S(!new)>(h: Hash<S>, password: array<byte>, passwordLen: nat, salt: array<byte>, saltLen: nat, c: int,
      out: array<byte>, outlen: nat)
    returns (status: Status, written: nat)
    requires IsHash(h) && passwordLen <= password.Length && saltLen <= salt.Length && outlen <= out.Length
    requires out != password && out != salt
    modifies out
    ensures status == if outlen == 0 then Ok else if passwordLen == 0 then InvalidKeySize
                      else if Overflows(8 * h.blockSize, saltLen) then HashOverflow else Ok
    ensures written == outlen && (status != Ok ==> unchanged(out))
    ensures status == Ok ==> Written(out[..], old(out[..]), 0,
      Key(h, password[..][..passwordLen], salt[..][..saltLen], c, 1, outlen))
  {
    hide T, U, Mod64, Overflows, Int, Key, Written, Emitted;
    var buf0, buf1 := new byte[MAX_BLOCK_SIZE], new byte[MAX_BLOCK_SIZE];
    var hmac := new HmacState(h);
    ghost var p, s, before, i := password[..][..passwordLen], salt[..][..saltLen], out[..], 1;
    var left: nat, blkno: nat, stored: nat := outlen, 1, 0;
    ghost var done: seq<byte> := [];
    EmittedEnds(h, p, s, c, outlen, 1, outlen, [], before, before);
    status := Ok;
    while left != 0
      invariant hmac.Shaped() && hmac.h == h && fresh(hmac) && fresh(hmac.md) && fresh(hmac.md.buf) && fresh(hmac.key)
      invariant status == Ok && blkno == i % TWO_32 && |done| == stored && stored + left == outlen
      invariant Emitted(h, p, s, c, outlen, i, left, done, out[..], before)
      invariant stored > 0 ==> passwordLen != 0 && !Overflows(8 * h.blockSize, saltLen)
      invariant stored == 0 ==> unchanged(out)
      decreases left
    {
      status := NextBlock(hmac, password, passwordLen, salt, saltLen, c, buf0, buf1, blkno, i);
      if status != Ok {
        return status, outlen;
      }
      blkno := (blkno + 1) % TWO_32;
      ghost var middle, m := out[..], if left < h.hashSize then left else h.hashSize;
      assert buf1[..][..m] == T(h, p, s, c, i)[..m];
      stored, left := Emit(buf1, h.hashSize, out, stored, left);
      EmittedNext(h, p, s, c, outlen, i, left + m, done, middle, before, out[..], m);
      done, i := done + T(h, p, s, c, i)[..m], i + 1;
    }
    EmittedEnds(h, p, s, c, outlen, i, 0, done, out[..], before);
    written := stored;
  }

  lemma EmittedEnds<S(!new)>(h: Hash<S>, p: seq<byte>, s: seq<byte>, c: int, outlen: nat, i: nat, left: nat,
      done: seq<byte>, now: seq<byte>, before: seq<byte>)
    requires IsHash(h) && outlen <= |before|
    ensures i == 1 && left == outlen && now == before && done == []
      ==> Emitted(h, p, s, c, outlen, i, left, done, now, before)
    ensures left == 0 && Emitted(h, p, s, c, outlen, i, left, done, now, before)
      ==> Written(now, before, 0, Key(h, p, s, c, 1, outlen))
  {
    hide T;
  }
}
