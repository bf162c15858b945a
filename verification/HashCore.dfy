/** The streaming interface that the SHA functions share: HASH_PROCESS and the padding in `done`, for any compression
    function, against the hash of a whole message in the manner of FIPS 180-4. */
module HashCore {
  import opened Blocks
  import opened Buffers
  import opened Errors

  const TWO_64: nat := 0x1_0000_0000_0000_0000

  /** hash_descriptor, with the parameters of the HASH_PROCESS macro. The length field of the padding starts at
      `lengthAt`: eight bytes before the end of a 64-byte block, sixteen before the end of a 128-byte block. */
  datatype Hash<!S> = Hash(
    blockSize: nat,
    lengthAt: nat,
    hashSize: nat,
    initial: S,
    compress: (S, seq<byte>) -> S,
    output: S -> seq<byte>)

  ghost predicate IsHash<S(!new)>(h: Hash<S>) {
    && ((h.blockSize == 64 && h.lengthAt == 56) || (h.blockSize == 128 && h.lengthAt == 112))
    && 0 < h.hashSize <= h.blockSize
    && forall s :: |h.output(s)| == h.hashSize
  }

  // ---- the hash of a message, sections 5.1, 5.2 and 6 of FIPS 180-4

  /** Compress the whole blocks of `data`. */
  function Fold<S>(h: Hash<S>, s: S, data: seq<byte>): S
    requires 0 < h.blockSize
    decreases |data|
  {
    if |data| < h.blockSize then s
    else Fold(h, h.compress(s, data[..h.blockSize]), data[h.blockSize..])
  }

  function Zeros(n: nat): (z: seq<byte>)
    ensures |z| == n
  {
    seq(n, i => 0)
  }

  /** The low `k` bytes of `n`, most significant first. */
  function BigEndian(n: nat, k: nat): (b: seq<byte>)
    ensures |b| == k
  {
    if k == 0 then [] else BigEndian(n / 256, k - 1) + [(n % 256) as byte]
  }

  /** The number that a run of bytes denotes, most significant first. */
  function Number(b: seq<byte>): nat {
    if |b| == 0 then 0 else 256 * Number(b[..|b| - 1]) + b[|b| - 1] as nat
  }

  /** The number of zero bytes between the `1` bit, with seven zero bits, and the length: the least that makes the
      length end a block. */
  function ZeroCount<S>(h: Hash<S>, n: nat): nat
    requires 0 < h.blockSize
  {
    (h.lengthAt - 1 - n) % h.blockSize
  }

  /** The value of an unsigned 64-bit integer. */
  function Mod64(n: nat): (r: nat)
    ensures r < TWO_64
  {
    n % TWO_64
  }

  /** The `1` bit and the zeros. */
  function Fill<S>(h: Hash<S>, n: nat): seq<byte>
    requires 0 < h.blockSize && h.lengthAt + 8 <= h.blockSize
  {
    [0x80] + Zeros(ZeroCount(h, n) + (h.blockSize - h.lengthAt - 8))
  }

  /** What follows a message of `n` bytes. The length field holds the low 64 bits of the bit length, which is all of it
      for the messages that the code is meant for. */
  function Padding<S>(h: Hash<S>, n: nat): seq<byte>
    requires 0 < h.blockSize && h.lengthAt + 8 <= h.blockSize
  {
    Fill(h, n) + BigEndian(Mod64(8 * n), 8)
  }

  function Digest<S>(h: Hash<S>, msg: seq<byte>): seq<byte>
    requires 0 < h.blockSize && h.lengthAt + 8 <= h.blockSize
  {
    h.output(Fold(h, h.initial, msg + Padding(h, |msg|)))
  }

  // ---- laws

  lemma DigestLength<S(!new)>(h: Hash<S>, msg: seq<byte>)
    requires IsHash(h)
    ensures |Digest(h, msg)| == h.hashSize
  {
  }

  lemma {:induction false} FoldSum<S>(h: Hash<S>, s: S, a: seq<byte>, b: seq<byte>)
    requires 0 < h.blockSize && Whole(|a|, h.blockSize)
    ensures Fold(h, s, a + b) == Fold(h, Fold(h, s, a), b)
    decreases |a|
  {
    if |a| == 0 {
      assert a + b == b;
    } else {
      var first, rest := a[..h.blockSize], a[h.blockSize..];
      assert (a + b)[..h.blockSize] == first && (a + b)[h.blockSize..] == rest + b;
      FoldSum(h, h.compress(s, first), rest, b);
    }
  }

  lemma FoldBlock<S>(h: Hash<S>, s: S, a: seq<byte>, block: seq<byte>)
    requires 0 < h.blockSize == |block| && Whole(|a|, h.blockSize)
    ensures Fold(h, s, a + block) == h.compress(Fold(h, s, a), block)
  {
    FoldSum(h, s, a, block);
    assert block[..h.blockSize] == block && block[h.blockSize..] == [];
  }

  lemma RoundUp64(q: nat, c: nat)
    requires c < 64
    ensures (55 - (64 * q + c)) % 64 == 55 - c + if c < 56 then 0 else 64
  {
  }

  lemma RoundUp128(q: nat, c: nat)
    requires c < 128
    ensures (111 - (128 * q + c)) % 128 == 111 - c + if c < 112 then 0 else 128
  {
  }

  lemma Multiple64(q: int)
    ensures 64 * q % 64 == 0
  {
  }

  lemma Multiple128(q: int)
    ensures 128 * q % 128 == 0
  {
  }

  lemma RoundUp(la: nat, k: nat, n: nat, z: nat)
    requires (la == 56 && k == 64) || (la == 112 && k == 128)
    requires z == (la - 1 - n) % k
    ensures z == la - 1 - n % k + if n % k < la then 0 else k
    ensures (n + 1 + z + k - la) % k == 0
  {
    var q, c := n / k, n % k;
    if k == 64 {
      RoundUp64(q, c);
      Multiple64(q + if c < 56 then 1 else 2);
    } else {
      RoundUp128(q, c);
      Multiple128(q + if c < 112 then 1 else 2);
    }
  }

  /** The padding completes the last block, or the last but one. */
  lemma PaddingLength<S(!new)>(h: Hash<S>, n: nat)
    requires IsHash(h)
    ensures ZeroCount(h, n)
      == h.lengthAt - 1 - n % h.blockSize + if n % h.blockSize < h.lengthAt then 0 else h.blockSize
    ensures |Padding(h, n)| == 1 + ZeroCount(h, n) + h.blockSize - h.lengthAt
    ensures Whole(n + |Padding(h, n)|, h.blockSize)
  {
    var z := ZeroCount(h, n);
    RoundUp(h.lengthAt, h.blockSize, n, z);
    WholeIsMultiple(n + 1 + z + h.blockSize - h.lengthAt, h.blockSize);
  }

  lemma Mod64Sum(a: nat, b: nat)
    ensures Mod64(Mod64(a) + b) == Mod64(a + b)
  {
  }

  lemma Mod64Small(a: nat)
    requires a < TWO_64
    ensures Mod64(a) == a
  {
  }

  // ---- the length field, and the padding as a whole, tell messages apart

  function Power256(k: nat): (p: nat)
    ensures p > 0
  {
    if k == 0 then 1 else 256 * Power256(k - 1)
  }

  lemma {:induction false} NumberOfBigEndian(n: nat, k: nat)
    requires n < Power256(k)
    ensures Number(BigEndian(n, k)) == n
  {
    if k > 0 {
      var b, high := BigEndian(n, k), BigEndian(n / 256, k - 1);
      assert b[..k - 1] == high;
      ByteValue(n % 256);
      NumberOfBigEndian(n / 256, k - 1);
    }
  }

  lemma LengthField(n: nat)
    requires n < TWO_64
    ensures Number(BigEndian(n, 8)) == n
  {
    assert Power256(3) == 0x100_0000 && Power256(6) == 0x1_0000_0000_0000;
    NumberOfBigEndian(n, 8);
  }

  lemma LastBytes(a: seq<byte>, b: seq<byte>, c: seq<byte>)
    ensures (a + (b + c))[|a + b|..] == c
  {
  }

  lemma EndOfPadding<S(!new)>(h: Hash<S>, a: seq<byte>, t: seq<byte>)
    requires IsHash(h) && 8 * |a| < TWO_64 && t == a + Padding(h, |a|)
    ensures |t| >= 8 && t[|t| - 8..] == BigEndian(8 * |a|, 8)
  {
    hide Fill, Mod64;
    Mod64Small(8 * |a|);
    LastBytes(a, Fill(h, |a|), BigEndian(8 * |a|, 8));
  }

  lemma {:induction false} PaddingTellsMessagesApart<S(!new)>(h: Hash<S>, a: seq<byte>, b: seq<byte>)
    requires IsHash(h) && 8 * |a| < TWO_64 && 8 * |b| < TWO_64
    requires a + Padding(h, |a|) == b + Padding(h, |b|)
    ensures a == b
  {
    hide Padding;
    var t := a + Padding(h, |a|);
    EndOfPadding(h, a, t);
    EndOfPadding(h, b, t);
    LengthField(8 * |a|);
    LengthField(8 * |b|);
    assert t[..|a|] == a && t[..|b|] == b;
  }

  // ---- the hash as the standard describes it, without the functions above

  lemma Quotient(n: nat, d: nat, q: nat, m: nat)
    requires d > 0 && m < d && n == d * q + m
    ensures n / d == q
  {
    var k := n / d - q;
    assert d * k == m - n % d;
    ProductBound(d, k);
  }

  lemma QuotientTwice(n: nat, p: nat)
    requires p > 0
    ensures n / 256 / p == n / (256 * p)
  {
    var q := n / 256;
    var s := q / p;
    assert q == p * s + q % p;
    assert 256 * (p * s) == 256 * p * s;
    Quotient(n, 256 * p, s, 256 * (q % p) + n % 256);
  }

  /** Byte j of a number, counted from the last. */
  lemma {:induction false} BigEndianByte(n: nat, k: nat, j: nat)
    requires j < k
    ensures BigEndian(n, k)[k - 1 - j] == (n / Power256(j) % 256) as byte
  {
    if j > 0 {
      BigEndianByte(n / 256, k - 1, j - 1);
      QuotientTwice(n, Power256(j - 1));
    }
  }

  /** Section 5.1: `p` is the message, a 1 bit, zeros, and the bit length of the message in as many bytes as are left in
      a block from `lengthAt` on, of which the code fills eight; it is the shortest such that makes whole blocks. */
  ghost predicate IsPadded<S(!new)>(h: Hash<S>, msg: seq<byte>, p: seq<byte>)
    requires IsHash(h)
  {
    var least := |msg| + 1 + h.blockSize - h.lengthAt;
    && least <= |p| < least + h.blockSize && |p| % h.blockSize == 0
    && p[..|msg|] == msg && p[|msg|] == 0x80
    && (forall i :: |msg| < i < |p| - 8 ==> p[i] == 0)
    && (forall i :: |p| - 8 <= i < |p| ==> p[i] == (8 * |msg| / Power256(|p| - 1 - i) % 256) as byte)
  }

  lemma PaddingIsPadded<S(!new)>(h: Hash<S>, msg: seq<byte>)
    requires IsHash(h) && 8 * |msg| < 0x1_0000_0000_0000_0000
    ensures IsPadded(h, msg, msg + Padding(h, |msg|))
  {
    hide BigEndian, Power256, Mod64, ZeroCount;
    var n := |msg|;
    var p, field := msg + Padding(h, n), BigEndian(8 * n, 8);
    Mod64Small(8 * n);
    PaddingLength(h, n);
    WholeIsMultiple(|p|, h.blockSize);
    assert p == msg + (Fill(h, n) + field);
    forall i | |p| - 8 <= i < |p|
      ensures p[i] == (8 * n / Power256(|p| - 1 - i) % 256) as byte
    {
      BigEndianByte(8 * n, 8, |p| - 1 - i);
      assert p[i] == field[i - (|p| - 8)];
    }
  }

  lemma SameMultiple(a: nat, b: nat, least: nat, k: nat)
    requires k > 0 && a % k == 0 && b % k == 0
    requires least <= a < least + k && least <= b < least + k
    ensures a == b
  {
    var d := a / k - b / k;
    assert k * d == a - b;
    ProductBound(k, d);
  }

  /** The padded message is the only one of that form. */
  lemma PaddedIs<S(!new)>(h: Hash<S>, msg: seq<byte>, p: seq<byte>)
    requires IsHash(h) && 8 * |msg| < 0x1_0000_0000_0000_0000
    ensures IsPadded(h, msg, p) <==> p == msg + Padding(h, |msg|)
  {
    hide Padding, Power256;
    PaddingIsPadded(h, msg);
    var q := msg + Padding(h, |msg|);
    if IsPadded(h, msg, p) {
      SameMultiple(|p|, |q|, |msg| + 1 + h.blockSize - h.lengthAt, h.blockSize);
      forall i | 0 <= i < |p|
        ensures p[i] == q[i]
      {
        if i < |msg| {
          assert p[..|msg|][i] == q[..|msg|][i];
        }
      }
    }
  }

  /** Section 6: `st` are the chaining values before each block of `p` and after the last. */
  ghost predicate IsChain<S>(h: Hash<S>, s: S, p: seq<byte>, st: seq<S>) {
    && 0 < h.blockSize && |st| > 0 && |p| == (|st| - 1) * h.blockSize && st[0] == s
    && forall i: nat :: i < |st| - 1 ==> IsLink(h, p, st, i)
  }

  ghost predicate IsLink<S>(h: Hash<S>, p: seq<byte>, st: seq<S>, i: nat) {
    && i + 1 < |st| && i * h.blockSize <= (i + 1) * h.blockSize <= |p|
    && st[i + 1] == h.compress(st[i], p[i * h.blockSize..(i + 1) * h.blockSize])
  }

  lemma {:induction false} FoldIsChain<S>(h: Hash<S>, s: S, p: seq<byte>, st: seq<S>, i: nat)
    requires IsChain(h, s, p, st) && i < |st|
    ensures i * h.blockSize <= |p| && Whole(i * h.blockSize, h.blockSize)
    ensures Fold(h, s, p[..i * h.blockSize]) == st[i]
  {
    hide Fold, Whole;
    if i == 0 {
      FoldNothing(h, s);
    } else {
      var k := h.blockSize;
      FoldIsChain(h, s, p, st, i - 1);
      assert IsLink(h, p, st, i - 1);
      assert (i - 1) * k + k == i * k;
      WholeOne(k);
      WholeSum((i - 1) * k, k, k);
      assert p[..i * k] == p[..(i - 1) * k] + p[(i - 1) * k..i * k];
      FoldBlock(h, s, p[..(i - 1) * k], p[(i - 1) * k..i * k]);
    }
  }

  lemma FoldNothing<S>(h: Hash<S>, s: S)
    requires 0 < h.blockSize
    ensures Fold(h, s, []) == s && Whole(0, h.blockSize)
  {
  }

  lemma WholeOne(k: nat)
    requires k > 0
    ensures Whole(k, k)
  {
  }

  /** The digest is the output for the last chaining value over the padded message. */
  lemma DigestIsChain<S(!new)>(h: Hash<S>, msg: seq<byte>, p: seq<byte>, st: seq<S>)
    requires IsHash(h) && 8 * |msg| < 0x1_0000_0000_0000_0000
    requires IsPadded(h, msg, p) && IsChain(h, h.initial, p, st)
    ensures Digest(h, msg) == h.output(st[|st| - 1])
  {
    hide Fold, Padding, IsPadded, IsLink;
    PaddedIs(h, msg, p);
    FoldIsChain(h, h.initial, p, st, |st| - 1);
    assert p[..(|st| - 1) * h.blockSize] == p;
  }

  lemma Extended(p: seq<byte>, data: seq<byte>, at: nat, i: nat, j: nat)
    requires at <= i <= j <= |data|
    ensures p + data[at..i] + data[i..j] == p + data[at..j]
  {
  }

  /** The blocks that done compresses are the rest of the padded message: one block if the length fits behind the `1`
      bit, otherwise two. */
  lemma PaddedInPlace<S(!new)>(h: Hash<S>, whole: seq<byte>, pending: seq<byte>, bytes: seq<byte>, field: seq<byte>)
    requires IsHash(h) && |pending| < h.blockSize && Whole(|whole|, h.blockSize)
    requires bytes == if |pending| < h.lengthAt then pending + [0x80] else []
    ensures var first := if |pending| < h.lengthAt then [] else pending + [0x80] + Zeros(h.blockSize - 1 - |pending|);
            whole + first + (bytes + Zeros(h.blockSize - 8 - |bytes|) + field)
              == whole + pending + (Fill(h, |whole + pending|) + field)
  {
    hide Whole, Zeros, ZeroCount;
    var n, fill := |whole + pending|, h.blockSize - 9 - |pending|;
    Remainder(|whole|, |pending|, h.blockSize);
    PaddingLength(h, n);
    if |pending| < h.lengthAt {
      OneBlockLeft(whole, pending, Zeros(fill), field);
    } else {
      ZerosSum(fill + 8, h.blockSize - 8);
      TwoBlocksLeft(whole, pending, Zeros(fill + 8), Zeros(h.blockSize - 8), field);
    }
  }

  lemma ZerosSum(m: nat, n: nat)
    ensures Zeros(m + n) == Zeros(m) + Zeros(n)
  {
  }

  lemma OneBlockLeft(whole: seq<byte>, pending: seq<byte>, z: seq<byte>, field: seq<byte>)
    ensures whole + [] + (pending + [0x80] + z + field) == whole + pending + ([0x80] + z + field)
  {
  }

  lemma TwoBlocksLeft(whole: seq<byte>, pending: seq<byte>, y: seq<byte>, z: seq<byte>, field: seq<byte>)
    ensures whole + (pending + [0x80] + y) + ([] + z + field) == whole + pending + ([0x80] + (y + z) + field)
  {
  }

  // ---- the overflow test

  /** The test refuses a chunk, in arithmetic mod 2^64. */
  predicate Overflows(length: nat, inlen: nat) {
    Mod64(length + 8 * inlen) < length
  }

  /** What the test decides: the bits of the chunk, mod 2^64, do not fit above the bits of the whole blocks so far. */
  lemma OverflowTest(length: nat, inlen: nat)
    requires length < TWO_64
    ensures Overflows(length, inlen) <==> length + Mod64(8 * inlen) >= TWO_64
  {
    var bits := Mod64(8 * inlen);
    Mod64Sum(8 * inlen, length);
    assert Mod64(bits + length) == if bits + length < TWO_64 then bits + length else bits + length - TWO_64;
  }

  /** No message shorter than 2^64 bits is refused. */
  lemma InRangeIsAccepted(whole: nat, pending: nat, inlen: nat)
    requires 8 * (whole + pending + inlen) < 0x1_0000_0000_0000_0000
    ensures !Overflows(Mod64(8 * whole), inlen)
  {
  }

  /** Below 2^61 bytes in whole blocks and in the chunk, the test tells whether the message is in range, except
      exactly when only the bytes that wait in the buffer take it out of range. */
  lemma TestIsRight(whole: nat, pending: nat, inlen: nat)
    requires 8 * (whole + pending) < TWO_64 && 8 * inlen < TWO_64
    ensures (Overflows(Mod64(8 * whole), inlen) <==> 8 * (whole + pending + inlen) >= TWO_64)
       <==> !(8 * (whole + inlen) < TWO_64 <= 8 * (whole + pending + inlen))
  {
    Mod64Small(8 * whole);
    Mod64Small(8 * inlen);
    OverflowTest(8 * whole, inlen);
  }

  /** Some longer ones are accepted: the bytes waiting in the buffer are not counted, and a chunk of 2^61 bytes counts
      for none. */
  lemma OutOfRangeCanBeAccepted(length: nat)
    requires length < TWO_64
    ensures var whole: nat := 0x2000_0000_0000_0000 - 64; 8 * (whole + 63 + 63) > TWO_64 && !Overflows(8 * whole, 63)
    ensures !Overflows(length, 0x2000_0000_0000_0000)
  {
    OverflowTest(length, 0x2000_0000_0000_0000);
  }

  /** Less than a block always fits after whole blocks: only a long chunk can be refused. */
  lemma BlocksLeaveRoom(n: nat, k: nat, m: nat)
    requires (k == 64 || k == 128) && Whole(n, k) && m < 64
    ensures !Overflows(Mod64(8 * n), m)
  {
    WholeIsMultiple(n, k);
    var q := n / 64;
    assert n == 64 * q;
    RoomAfterBlocks(q, Mod64(8 * n), m);
  }

  lemma RoomAfterBlocks(q: nat, r: nat, m: nat)
    requires r == Mod64(512 * q) && m < 64
    ensures !Overflows(r, m)
  {
    var t := q - 0x80_0000_0000_0000 * (512 * q / TWO_64);
    assert r == 512 * t;
    assert t < 0x80_0000_0000_0000;
    Mod64Small(r + 8 * m);
  }

  // ---- the state

  /** hash_state: sha1_state, sha256_state and sha512_state differ only in the hash. */
  class HashState<S(!new)> {
    const h: Hash<S>
    const buf: array<byte>
    var length: nat
    var curlen: nat
    var state: S
    ghost var whole: seq<byte>

    ghost predicate Shaped()
      reads this
    {
      IsHash(h) && buf.Length == h.blockSize && length < TWO_64 && Whole(|whole|, h.blockSize)
    }

    /** `whole` is what has been compressed since init. */
    ghost predicate Holds()
      reads this
    {
      Shaped() && curlen <= buf.Length && length == Mod64(8 * |whole|) && state == Fold(h, h.initial, whole)
    }

    ghost predicate Valid()
      reads this
    {
      Holds() && curlen < h.blockSize
    }

    /** What has been hashed since init. */
    ghost function Absorbed(): seq<byte>
      requires curlen <= buf.Length
      reads this, buf
    {
      whole + buf[..curlen]
    }

    constructor (hash: Hash<S>)
      requires IsHash(hash)
      ensures Valid() && fresh(buf) && h == hash && length == 0 && Absorbed() == []
    {
      h, buf, length, curlen, state, whole := hash, new byte[hash.blockSize], 0, 0, hash.initial, [];
    }

    method Init()
      requires Shaped()
      modifies this
      ensures Valid() && length == 0 && Absorbed() == []
    {
      length, curlen, state, whole := 0, 0, h.initial, [];
    }

    /** A compression. */
    method FoldIn(block: seq<byte>)
      requires Shaped() && state == Fold(h, h.initial, whole) && |block| == h.blockSize
      modifies this`state, this`whole
      ensures Shaped() && state == Fold(h, h.initial, whole) && whole == old(whole) + block
    {
      FoldBlock(h, h.initial, whole, block);
      WholeSum(|whole|, h.blockSize, h.blockSize);
      state := h.compress(state, block);
      whole := whole + block;
    }

    /** A compression, and the count of its bits. */
    method Compress(block: seq<byte>)
      requires Holds() && |block| == h.blockSize
      modifies this`state, this`length, this`whole
      ensures Holds() && whole == old(whole) + block
    {
      FoldIn(block);
      Mod64Sum(8 * (|whole| - |block|), 8 * h.blockSize);
      length := Mod64(length + 8 * h.blockSize);
    }

    /** The branch of HASH_PROCESS that hashes a block where it lies. */
    method Direct(block: seq<byte>)
      requires Holds() && curlen == 0 && |block| == h.blockSize
      modifies this`state, this`length, this`whole
      ensures Valid() && Absorbed() == old(Absorbed()) + block
    {
      Compress(block);
    }

    /** The branch of HASH_PROCESS that goes through the buffer. */
    method Buffer(chunk: seq<byte>)
      requires Holds() && curlen + |chunk| <= h.blockSize
      modifies this, buf
      ensures Valid() && Absorbed() == old(Absorbed()) + chunk
    {
      Put(chunk, buf, curlen);
      ghost var before := old(buf[..]);
      assert buf[..][..curlen + |chunk|] == before[..curlen] + chunk;
      curlen := curlen + |chunk|;
      if curlen == h.blockSize {
        Compress(buf[..]);
        curlen := 0;
      }
    }

    /** One pass of the loop of HASH_PROCESS, which consumes `n` of the `left` bytes at `i`. */
    method Advance(input: array<byte>, i: nat, left: nat) returns (n: nat)
      requires Holds() && left > 0 && i + left <= input.Length && input != buf
      modifies this, buf
      ensures Valid() && n <= left && (n == 0 ==> old(curlen) == h.blockSize)
      ensures Absorbed() == old(Absorbed()) + input[..][i..i + n]
    {
      if curlen == 0 && left >= h.blockSize {
        n := h.blockSize;
        Direct(input[..][i..i + n]);
      } else {
        n := if left < h.blockSize - curlen then left else h.blockSize - curlen;
        Buffer(input[..][i..i + n]);
      }
    }

    /** HASH_PROCESS: `inlen` bytes of `input` from `at` on. */
    method Process(input: array<byte>, at: nat, inlen: nat) returns (status: Status)
      requires Shaped() && (curlen <= buf.Length ==> Holds())
      requires at + inlen <= input.Length && input != buf
      modifies this, buf
      ensures status ==
        if old(curlen) > buf.Length then InvalidArg
        else if Overflows(old(length), inlen) then HashOverflow
        else Ok
      ensures status != Ok ==> unchanged(this, buf)
      ensures status == Ok ==> Holds() && Absorbed() == old(Absorbed()) + input[..][at..at + inlen]
      ensures status == Ok && old(curlen) < h.blockSize ==> Valid()
    {
      hide Fold, Whole, Mod64;
      if curlen > buf.Length {
        return InvalidArg;
      }
      if Overflows(length, inlen) {
        return HashOverflow;
      }
      ghost var data, before := input[..], Absorbed();
      var i, left := at, inlen;
      while left > 0
        invariant at <= i <= i + left == at + inlen && input[..] == data
        invariant Holds() && (old(curlen) < h.blockSize ==> Valid())
        invariant Absorbed() == before + data[at..i]
        decreases left, curlen
      {
        var n := Advance(input, i, left);
        Extended(before, data, at, i, i + n);
        i, left := i + n, left - n;
      }
      return Ok;
    }

    /** A zero-padding loop of done; `bytes` are at the front of the buffer. */
    method ZeroTo(limit: nat, ghost bytes: seq<byte>)
      requires |bytes| == curlen <= limit <= buf.Length && bytes <= buf[..]
      modifies this`curlen, buf
      ensures curlen == limit && bytes + Zeros(limit - |bytes|) <= buf[..]
    {
      while curlen < limit
        invariant |bytes| <= curlen <= limit
        invariant forall k :: 0 <= k < curlen ==> buf[k] == if k < |bytes| then bytes[k] else 0
      {
        buf[curlen] := 0;
        curlen := curlen + 1;
      }
    }

    /** STORE64H into the last eight bytes, which completes the block. */
    method StoreLength(ghost bytes: seq<byte>)
      requires |bytes| + 8 == buf.Length && bytes <= buf[..]
      modifies buf
      ensures buf[..] == bytes + BigEndian(length, 8)
    {
      Put(BigEndian(length, 8), buf, buf.Length - 8);
    }

    /** Append the `1` bit; if the length does not fit behind it, fill up and compress. */
    method Mark(ghost pending: seq<byte>) returns (ghost bytes: seq<byte>)
      requires Shaped() && curlen < h.blockSize && state == Fold(h, h.initial, whole) && pending == buf[..][..curlen]
      modifies this`curlen, this`state, this`whole, buf
      ensures Shaped() && state == Fold(h, h.initial, whole)
      ensures |bytes| == curlen <= h.lengthAt && bytes <= buf[..]
      ensures bytes == if |pending| < h.lengthAt then pending + [0x80] else []
      ensures var first := pending + [0x80] + Zeros(h.blockSize - 1 - |pending|);
              whole == old(whole) + if |pending| < h.lengthAt then [] else first
    {
      Put([0x80], buf, curlen);
      curlen := curlen + 1;
      bytes := pending + [0x80];
      if curlen > h.lengthAt {
        ZeroTo(h.blockSize, bytes);
        assert buf[..] == bytes + Zeros(h.blockSize - |bytes|);
        FoldIn(buf[..]);
        curlen, bytes := 0, [];
      }
    }

    /** The padding of done. */
    method Pad()
      requires Valid()
      modifies this, buf
      ensures Shaped() && curlen == h.blockSize - 8 && length == Mod64(8 * |old(Absorbed())|)
      ensures whole == old(Absorbed()) + Padding(h, |old(Absorbed())|) && state == Fold(h, h.initial, whole)
    {
      hide Fold, ZeroCount, Zeros, BigEndian, Mod64, Whole;
      ghost var before, pending := whole, buf[..][..curlen];
      Mod64Sum(8 * |whole|, 8 * curlen);
      length := Mod64(length + 8 * curlen);
      ghost var bytes := Mark(pending);
      ZeroTo(h.blockSize - 8, bytes);
      StoreLength(bytes + Zeros(h.blockSize - 8 - |bytes|));
      FoldIn(buf[..]);
      PaddedInPlace(h, before, pending, bytes, BigEndian(length, 8));
    }

    /** done: the digest of what has been hashed since init goes to `out` at `at`. */
    method Done(out: array<byte>, at: nat) returns (status: Status)
      requires Shaped() && (curlen < buf.Length ==> Valid())
      requires at + h.hashSize <= out.Length && out != buf
      modifies this, buf, out
      ensures status == if old(curlen) >= buf.Length then InvalidArg else Ok
      ensures status != Ok ==> unchanged(this, buf, out)
      ensures status == Ok ==> Written(out[..], old(out[..]), at, Digest(h, old(Absorbed())))
      ensures status == Ok ==> Shaped() && curlen == h.blockSize - 8 && length == Mod64(8 * |old(Absorbed())|)
      ensures status == Ok ==> whole == old(Absorbed()) + Padding(h, |old(Absorbed())|)
      ensures status == Ok ==> state == Fold(h, h.initial, whole)
    {
      if curlen >= buf.Length {
        return InvalidArg;
      }
      Pad();
      Put(h.output(state), out, at);
      return Ok;
    }
  }

  // ---- whole runs

  function Sum(lengths: seq<nat>): nat {
    if |lengths| == 0 then 0 else Sum(lengths[..|lengths| - 1]) + lengths[|lengths| - 1]
  }

  lemma {:induction false} SumOfPrefix(lengths: seq<nat>, i: nat)
    requires i <= |lengths|
    ensures Sum(lengths[..i]) <= Sum(lengths)
    decreases |lengths| - i
  {
    if i < |lengths| {
      assert lengths[..i + 1][..i] == lengths[..i];
      SumOfPrefix(lengths, i + 1);
    } else {
      assert lengths[..i] == lengths;
    }
  }

  /** A call of process on the next piece of a message that is in range. */
  method NextPiece<S(!new)>(md: HashState<S>, message: array<byte>, at: nat, n: nat)
    requires md.Valid() && message != md.buf && at + n <= message.Length && 8 * message.Length < TWO_64
    requires md.Absorbed() == message[..][..at]
    modifies md, md.buf
    ensures md.Valid() && md.Absorbed() == message[..][..at + n]
  {
    hide Fold, Mod64, Overflows;
    InRangeIsAccepted(|md.whole|, md.curlen, n);
    var status := md.Process(message, at, n);
  }

  /** init, one call of process for each piece, and done. However the message is cut, nothing is refused, and the digest
      is that of the message. */
  method HashPieces<S(!new)>(h: Hash<S>, message: array<byte>, lengths: seq<nat>, out: array<byte>)
    requires IsHash(h) && Sum(lengths) == message.Length && 8 * message.Length < TWO_64 && out.Length == h.hashSize
    modifies out
    ensures out[..] == Digest(h, old(message[..]))
  {
    hide Digest, Fold, Mod64, Padding;
    var md := new HashState(h);
    ghost var data := message[..];
    var i, at := 0, 0;
    while i < |lengths|
      invariant i <= |lengths| && at == Sum(lengths[..i]) <= |data| == message.Length && message[..] == data
      invariant md.Valid() && md.h == h && fresh(md) && fresh(md.buf) && md.Absorbed() == data[..at]
    {
      assert lengths[..i + 1][..i] == lengths[..i];
      SumOfPrefix(lengths, i + 1);
      NextPiece(md, message, at, lengths[i]);
      at := at + lengths[i];
      i := i + 1;
    }
    assert lengths[..i] == lengths && data[..at] == data;
    DigestLength(h, data);
    var status := md.Done(out, 0);
  }
}
