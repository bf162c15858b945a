/** The 128-bit little-endian counter that Fortuna encrypts. */
module FortunaCounter {
  import opened Blocks
  import opened Buffers
  import opened FortunaLog
  import opened HashCore

  const TWO_128: nat := 0x1_0000_0000_0000_0000_0000_0000_0000_0000

  /** The number that a run of bytes denotes, least significant first. */
  function LittleEndian(b: seq<byte>): nat {
    if |b| == 0 then 0 else b[0] as nat + 256 * LittleEndian(b[1..])
  }

  /** Add one, and carry. */
  function Increment(b: seq<byte>): (r: seq<byte>)
    ensures |r| == |b|
  {
    if |b| == 0 then [] else if b[0] == 255 then [0] + Increment(b[1..]) else [b[0] + 1] + b[1..]
  }

  /** The counter after `c` increments. */
  function Block(c: nat): (b: seq<byte>)
    ensures |b| == 16
  {
    if c == 0 then Zeros(16) else Increment(Block(c - 1))
  }

  lemma {:induction false} LittleEndianBound(b: seq<byte>)
    ensures LittleEndian(b) < Power256(|b|)
  {
    if |b| > 0 {
      LittleEndianBound(b[1..]);
      assert b[0] as nat < 256;
    }
  }

  lemma ByteSuccessor(b: byte)
    ensures b != 255 ==> (b + 1) as nat == b as nat + 1
    ensures b == 255 ==> b as nat == 255
  {
  }

  lemma {:induction false} IncrementCounts(b: seq<byte>)
    ensures LittleEndian(Increment(b)) == if LittleEndian(b) + 1 == Power256(|b|) then 0 else LittleEndian(b) + 1
  {
    if |b| > 0 {
      ByteSuccessor(b[0]);
      LittleEndianBound(b[1..]);
      IncrementCounts(b[1..]);
      assert Increment(b)[1..] == if b[0] == 255 then Increment(b[1..]) else b[1..];
    }
  }

  lemma {:induction false} ZerosCountNothing(n: nat)
    ensures LittleEndian(Zeros(n)) == 0
  {
    if n > 0 {
      ZerosCountNothing(n - 1);
      assert Zeros(n)[1..] == Zeros(n - 1);
    }
  }

  lemma SuccessorMod(c: nat, p: nat)
    requires p > 0
    ensures (c + 1) % p == if c % p + 1 == p then 0 else c % p + 1
  {
    Division(c, p);
    if c % p + 1 == p {
      assert p * (c / p + 1) == p * (c / p) + p;
      UniqueDivision(c + 1, p, c / p + 1, 0);
    } else {
      UniqueDivision(c + 1, p, c / p, c % p + 1);
    }
  }

  lemma Sixteen()
    ensures Power256(16) == TWO_128
  {
    assert Power256(2) == 0x1_0000;
    assert Power256(4) == 0x1_0000_0000;
    assert Power256(8) == TWO_64;
    assert Power256(12) == 0x1_0000_0000 * TWO_64;
  }

  /** After `c` increments the counter is c mod 2^128. */
  lemma {:induction false} BlockCounts(c: nat)
    ensures LittleEndian(Block(c)) == c % TWO_128
  {
    hide Increment, LittleEndian, Power256, Zeros;
    if c == 0 {
      ZerosCountNothing(16);
    } else {
      BlockCounts(c - 1);
      IncrementCounts(Block(c - 1));
      SuccessorMod(c - 1, TWO_128);
      Sixteen();
    }
  }

  lemma {:induction false} LittleEndianByte(b: seq<byte>, i: nat)
    requires i < |b|
    ensures b[i] as nat == LittleEndian(b) / Power256(i) % 256
  {
    var first, rest := b[0] as nat, LittleEndian(b[1..]);
    Quotient(LittleEndian(b), 256, rest, first);
    if i > 0 {
      LittleEndianByte(b[1..], i - 1);
      QuotientTwice(LittleEndian(b), Power256(i - 1));
    }
  }

  /** The bytes of the counter, the least significant one first. */
  lemma BlockByte(c: nat, i: nat)
    requires i < 16
    ensures Block(c)[i] as nat == c % 0x1_0000_0000_0000_0000_0000_0000_0000_0000 / Power256(i) % 256
  {
    hide Block, LittleEndian, Power256;
    BlockCounts(c);
    LittleEndianByte(Block(c), i);
  }

  lemma SameRemainder(i: nat, j: nat, p: nat)
    requires p > 0 && i < j && i % p == j % p
    ensures j >= i + p
  {
    Division(i, p);
    Division(j, p);
    var d := j / p - i / p;
    assert p * d == j - i;
    ProductBound(p, d);
  }

  /** Within 2^128 increments no counter block comes twice. */
  lemma BlocksDiffer(i: nat, j: nat)
    requires i < j < i + TWO_128
    ensures Block(i) != Block(j)
  {
    hide Block, LittleEndian;
    BlockCounts(i);
    BlockCounts(j);
    if i % TWO_128 == j % TWO_128 {
      SameRemainder(i, j, TWO_128);
    }
  }

  lemma FirstBlock()
    ensures Block(0) == Zeros(16)
  {
  }

  lemma NextBlock(c: nat)
    ensures Block(c + 1) == Increment(Block(c))
  {
  }

  /** `x` bytes carry. */
  lemma {:induction false} Carried(before: seq<byte>, now: seq<byte>, x: nat)
    requires x <= |before| == |now|
    requires forall k :: 0 <= k < x ==> before[k] == 255 && now[k] == 0
    requires x < |before| ==> before[x] != 255 && now[x] == before[x] + 1
    requires forall k :: x < k < |now| ==> now[k] == before[k]
    ensures now == Increment(before)
  {
    if x > 0 {
      Carried(before[1..], now[1..], x - 1);
    }
  }

  /** s_fortuna_update_iv: add one, and go on only while bytes become zero. */
  method UpdateIv(iv: array<byte>)
    requires iv.Length == 16
    modifies iv
    ensures iv[..] == Increment(old(iv[..]))
  {
    ghost var before := iv[..];
    var x := 0;
    while x < 16
      invariant x <= 16
      invariant forall k :: 0 <= k < x ==> before[k] == 255 && iv[k] == 0
      invariant forall k :: x <= k < 16 ==> iv[k] == before[k]
    {
      iv[x] := iv[x] + 1;
      if iv[x] != 0 {
        break;
      }
      x := x + 1;
    }
    Carried(before, iv[..], x);
  }
}
