/** Writing into part of a byte buffer. */
module Buffers {
  type byte = bv8

  /** A byte keeps a number below 256: the solver converts bit by bit, so it is given the binary digits. */
  lemma ByteValue(n: nat)
    requires n < 256
    ensures (n as byte) as nat == n
  {
    TwoDigits(n);
    TwoDigits(n / 4);
    TwoDigits(n / 16);
    TwoDigits(n / 64);
    NestedQuotient(n, 4);
    NestedQuotient(n, 16);
    NestedQuotient(n, 64);
  }

  lemma TwoDigits(n: nat)
    ensures n == n % 2 + 2 * (n / 2 % 2) + 4 * (n / 4)
  {
  }

  lemma NestedQuotient(n: nat, k: nat)
    requires k == 4 || k == 16 || k == 64
    ensures n / (2 * k) == n / k / 2 && n / (4 * k) == n / k / 4
  {
  }

  /** `now` is `before` with `block` written at `i`. */
  ghost predicate Written(now: seq<byte>, before: seq<byte>, i: nat, block: seq<byte>)
  {
    i + |block| <= |before| && now == before[..i] + block + before[i + |block|..]
  }

  lemma WrittenTwice(now: seq<byte>, middle: seq<byte>, before: seq<byte>, i: nat, x: seq<byte>, y: seq<byte>)
    requires Written(middle, before, i, x) && Written(now, middle, i + |x|, y)
    ensures Written(now, before, i, x + y)
  {
  }

  /** The written part, and a part that the write does not touch. */
  lemma WrittenParts(now: seq<byte>, before: seq<byte>, i: nat, block: seq<byte>, lo: nat, hi: nat)
    requires Written(now, before, i, block) && lo <= hi <= |before|
    ensures |now| == |before|
    ensures now[i..i + |block|] == block
    ensures hi <= i || i + |block| <= lo ==> now[lo..hi] == before[lo..hi]
  {
  }

  lemma StoredRun(now: seq<byte>, before: seq<byte>, i: nat, block: seq<byte>)
    requires |now| == |before| && i + |block| <= |before|
    requires forall k :: 0 <= k < |now| ==> now[k] == if i <= k < i + |block| then block[k - i] else before[k]
    ensures Written(now, before, i, block)
  {
  }

  /** A run of stores, as XMEMCPY or a copying loop makes them. */
  method Put(b: seq<byte>, a: array<byte>, i: nat)
    requires i + |b| <= a.Length
    modifies a
    ensures Written(a[..], old(a[..]), i, b)
  {
    forall k | 0 <= k < |b| {
      a[i + k] := b[k];
    }
  }
}
