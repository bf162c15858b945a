/** HMAC over any of the hashes, as a keyed state, against section 2 of RFC 2104. */
module Hmac {
  import opened Blocks
  import opened Buffers
  import opened Errors
  import opened HashCore

  /** MAXBLOCKSIZE, the size of the key buffer in an hmac_state. */
  const MAX_BLOCK_SIZE: nat := 144

  // ---- RFC 2104

  /** The key as one block: hashed if it is longer than a block, and filled up with zeros. */
  ghost function KeyBlock<S(!new)>(h: Hash<S>, key: seq<byte>): (k: seq<byte>)
    requires IsHash(h)
    ensures |k| == h.blockSize
  {
    var short := if |key| > h.blockSize then Digest(h, key) else key;
    short + Zeros(h.blockSize - |short|)
  }

  function XorAll(k: seq<byte>, pad: byte): (r: seq<byte>)
    ensures |r| == |k|
  {
    seq(|k|, i requires 0 <= i < |k| => k[i] ^ pad)
  }

  /** H(K xor opad, H(K xor ipad, text)) */
  ghost function Mac<S(!new)>(h: Hash<S>, key: seq<byte>, text: seq<byte>): (m: seq<byte>)
    requires IsHash(h)
    ensures |m| == h.hashSize
  {
    var k := KeyBlock(h, key);
    Digest(h, XorAll(k, 0x5C) + Digest(h, XorAll(k, 0x36) + text))
  }

  /** Section 2, for a key of one block: the key with every byte changed by 0x36 goes before the text, and with every
      byte changed by 0x5c before the digest of that. */
  lemma MacOfBlock<S(!new)>(h: Hash<S>, key: seq<byte>, text: seq<byte>, inner: seq<byte>, outer: seq<byte>)
    requires IsHash(h) && |key| == |inner| == |outer| == h.blockSize
    requires forall i :: 0 <= i < |key| ==> inner[i] == key[i] ^ 0x36 && outer[i] == key[i] ^ 0x5c
    ensures Mac(h, key, text) == Digest(h, outer + Digest(h, inner + text))
  {
    hide Digest;
    assert KeyBlock(h, key) == key;
    assert XorAll(key, 0x36) == inner && XorAll(key, 0x5C) == outer;
  }

  /** Zeros behind a short key make no difference. */
  lemma MacOfShort<S(!new)>(h: Hash<S>, key: seq<byte>, text: seq<byte>)
    requires IsHash(h) && |key| < h.blockSize
    ensures Mac(h, key, text) == Mac(h, key + [0], text)
  {
    hide Digest, XorAll;
    assert KeyBlock(h, key) == KeyBlock(h, key + [0]);
  }

  /** A key of more than a block is as good as its digest. */
  lemma MacOfLong<S(!new)>(h: Hash<S>, key: seq<byte>, text: seq<byte>)
    requires IsHash(h) && |key| > h.blockSize
    ensures Mac(h, key, text) == Mac(h, Digest(h, key), text)
  {
    hide Digest, XorAll;
    DigestLength(h, key);
  }

  // ---- hash_memory

  /** hash_memory, of the first `inlen` bytes of `input`. Nothing is refused: the state is new. */
  method HashMemory<S(!new)>(h: Hash<S>, input: array<byte>, inlen: nat, out: array<byte>, outlen: nat)
    returns (status: Status, written: nat)
    requires IsHash(h) && inlen <= input.Length && outlen <= out.Length
    modifies out
    ensures status == if outlen < h.hashSize then BufferOverflow else Ok
    ensures written == h.hashSize
    ensures status != Ok ==> unchanged(out)
    ensures status == Ok ==> Written(out[..], old(out[..]), 0, Digest(h, old(input[..])[..inlen]))
  {
    hide Digest, Fold, Padding, Mod64;
    if outlen < h.hashSize {
      return BufferOverflow, h.hashSize;
    }
    var md := new HashState(h);
    ghost var message := input[..][..inlen];
    status := md.Process(input, 0, inlen);
    assert md.Absorbed() == message;
    status := md.Done(out, 0);
    written := h.hashSize;
  }

  // ---- the keyed state

  /** hmac_state. `secret` is the key it was initialised with. */
  class HmacState<S(!new)> {
    const h: Hash<S>
    const md: HashState<S>
    const key: array<byte>
    ghost var secret: seq<byte>

    ghost predicate Shaped()
      reads this, md
    {
      md.Shaped() && md.h == h && key != md.buf && key.Length == MAX_BLOCK_SIZE
    }

    ghost predicate Keyed()
      reads this, md, md.buf, key
    {
      Shaped() && key[..h.blockSize] == KeyBlock(h, secret)
    }

    ghost predicate Valid()
      reads this, md, md.buf, key
    {
      Keyed() && md.Valid() && XorAll(KeyBlock(h, secret), 0x36) <= md.Absorbed()
    }

    /** What has been authenticated since init. */
    ghost function Text(): seq<byte>
      requires Valid()
      reads this, md, md.buf, key
    {
      md.Absorbed()[h.blockSize..]
    }

    constructor (hash: Hash<S>)
      requires IsHash(hash)
      ensures Shaped() && h == hash && fresh(md) && fresh(md.buf) && fresh(key)
    {
      h, key := hash, new byte[MAX_BLOCK_SIZE];
      md := new HashState(hash);
    }

    /** The key, or its hash, at the front of `key`, and zeros up to the size of a block. */
    method NormaliseKey(k: array<byte>, keylen: nat)
      requires Shaped() && keylen <= k.Length && k != key
      modifies key
      ensures key[..h.blockSize] == KeyBlock(h, k[..][..keylen])
    {
      hide Digest;
      var length := keylen;
      ghost var short := k[..][..keylen];
      if keylen > h.blockSize {
        var status, written := HashMemory(h, k, keylen, key, h.blockSize);
        DigestLength(h, short);
        length, short := h.hashSize, Digest(h, short);
      } else {
        Put(k[..keylen], key, 0);
      }
      assert key[..][..length] == short;
      ZeroFrom(length, h.blockSize, short);
    }

    /** zeromem */
    method ZeroFrom(i: nat, j: nat, ghost front: seq<byte>)
      requires i <= j <= key.Length && key[..][..i] == front
      modifies key
      ensures key[..j] == front + Zeros(j - i)
    {
      forall k | i <= k < j {
        key[k] := 0;
      }
    }

    /** Start the state with the block K xor `pad`. */
    method HashPad(pad: byte) returns (status: Status)
      requires Keyed()
      modifies md, md.buf
      ensures status == Ok && Keyed() && md.Valid() && md.length == 8 * h.blockSize
      ensures md.Absorbed() == XorAll(KeyBlock(h, secret), pad)
    {
      hide KeyBlock, Fold, Mod64;
      var block := new byte[h.blockSize](i requires 0 <= i < h.blockSize <= key.Length reads key => key[i] ^ pad);
      assert block[..] == XorAll(KeyBlock(h, secret), pad);
      md.Init();
      status := md.Process(block, 0, h.blockSize);
      assert md.Absorbed() == block[..];
      OneBlock(|md.whole|, md.curlen, h.blockSize);
      Mod64Small(8 * h.blockSize);
    }

    /** hmac_init */
    method Init(k: array<byte>, keylen: nat) returns (status: Status)
      requires Shaped() && keylen <= k.Length && k != key && k != md.buf
      modifies this, md, md.buf, key
      ensures Shaped() && status == if keylen == 0 then InvalidKeySize else Ok
      ensures status != Ok ==> unchanged(this, md, md.buf, key)
      ensures status == Ok ==> Valid() && secret == k[..][..keylen] && Text() == [] && md.length == 8 * h.blockSize
    {
      hide KeyBlock;
      if keylen == 0 {
        return InvalidKeySize;
      }
      NormaliseKey(k, keylen);
      secret := k[..][..keylen];
      status := HashPad(0x36);
    }

    /** hmac_process */
    method Process(input: array<byte>, at: nat, inlen: nat) returns (status: Status)
      requires Valid() && at + inlen <= input.Length && input != key && input != md.buf
      modifies md, md.buf
      ensures Valid() && status == if Overflows(old(md.length), inlen) then HashOverflow else Ok
      ensures Text() == old(Text()) + if status == Ok then input[..][at..at + inlen] else []
    {
      hide KeyBlock, Fold, Mod64;
      status := md.Process(input, at, inlen);
    }

    /** The outer hash, of the inner digest, into `buf`. */
    method Outer(inner: array<byte>, buf: array<byte>)
      requires Keyed() && inner.Length == h.hashSize <= buf.Length && buf != key && buf != md.buf && inner != md.buf
      modifies md, md.buf, buf
      ensures Keyed()
      ensures buf[..][..h.hashSize] == Digest(h, XorAll(KeyBlock(h, secret), 0x5C) + old(inner[..]))
    {
      hide KeyBlock, Fold, Mod64, Digest, Overflows, Padding;
      var status := HashPad(0x5C);
      SmallIsAccepted(h.blockSize, h.hashSize);
      status := md.Process(inner, 0, h.hashSize);
      assert inner[..][0..h.hashSize] == inner[..];
      DigestLength(h, md.Absorbed());
      status := md.Done(buf, 0);
    }

    /** hmac_done: as much of the code as fits goes to `out` at `at`. None of the calls that it makes can fail. */
    method Done(out: array<byte>, at: nat, outlen: nat) returns (status: Status, written: nat)
      requires Valid() && at + outlen <= out.Length && out != key && out != md.buf
      modifies md, md.buf, out
      ensures Keyed() && status == Ok && written == if h.hashSize < outlen then h.hashSize else outlen
      ensures Written(out[..], old(out[..]), at, Mac(h, secret, old(Text()))[..written])
    {
      hide KeyBlock, Fold, Mod64, Digest, Padding;
      ghost var message, before := md.Absorbed(), out[..];
      assert message == XorAll(KeyBlock(h, secret), 0x36) + Text();
      var inner, buf := new byte[h.hashSize], new byte[h.blockSize];
      DigestLength(h, message);
      status := md.Done(inner, 0);
      assert inner[..] == Digest(h, message);
      Outer(inner, buf);
      assert buf[..][..h.hashSize] == Mac(h, secret, old(Text()));
      written := if h.hashSize < outlen then h.hashSize else outlen;
      Put(buf[..][..h.hashSize][..written], out, at);
    }
  }

  lemma SmallIsAccepted(length: nat, inlen: nat)
    requires length <= 128 && inlen <= 128
    ensures !Overflows(8 * length, inlen)
  {
  }

  lemma OneBlock(whole: nat, curlen: nat, k: nat)
    requires curlen < k && whole + curlen == k && Whole(whole, k)
    ensures whole == k && curlen == 0
  {
  }

  // ---- hmac_memory

  /** hmac_memory; `out` may be the input. */
  method HmacMemory<S(!new)>(h: Hash<S>, k: array<byte>, keylen: nat, input: array<byte>, inlen: nat, out: array<byte>,
      outlen: nat)
    returns (status: Status, written: nat)
    requires IsHash(h) && keylen <= k.Length && inlen <= input.Length && outlen <= out.Length
    modifies out
    ensures status ==
      if keylen == 0 then InvalidKeySize
      else if Overflows(8 * h.blockSize, inlen) then HashOverflow
      else Ok
    ensures status != Ok ==> unchanged(out) && written == outlen
    ensures status == Ok ==> written == if h.hashSize < outlen then h.hashSize else outlen
    ensures status == Ok ==> Written(out[..], old(out[..]), 0,
      Mac(h, old(k[..])[..keylen], old(input[..])[..inlen])[..written])
  {
    hide Mac, Mod64, Overflows, XorAll, KeyBlock;
    ghost var text := input[..][..inlen];
    written := outlen;
    var hmac := new HmacState(h);
    status := hmac.Init(k, keylen);
    if status != Ok {
      return;
    }
    status := hmac.Process(input, 0, inlen);
    if status != Ok {
      return;
    }
    assert hmac.Text() == text;
    status, written := hmac.Done(out, 0, outlen);
  }

  // ---- whole runs

  /** init, one call of process for each piece, and done: however the text is cut, the code is that of the text. */
  method MacPieces<S(!new)>(h: Hash<S>, k: array<byte>, text: array<byte>, lengths: seq<nat>, out: array<byte>)
    requires IsHash(h) && k.Length > 0 && out.Length == h.hashSize && out != k
    requires Sum(lengths) == text.Length && 8 * (h.blockSize + text.Length) < TWO_64
    modifies out
    ensures out[..] == Mac(h, k[..], old(text[..]))
  {
    hide Mac, Mod64, Overflows, XorAll, KeyBlock;
    var hmac := new HmacState(h);
    var status := hmac.Init(k, k.Length);
    assert k[..][..k.Length] == k[..];
    ghost var data := text[..];
    var i, at := 0, 0;
    while i < |lengths|
      invariant i <= |lengths| && at == Sum(lengths[..i]) <= |data| == text.Length && text[..] == data
      invariant hmac.Valid() && hmac.h == h && hmac.secret == k[..] && hmac.Text() == data[..at]
      invariant fresh(hmac) && fresh(hmac.md) && fresh(hmac.md.buf) && fresh(hmac.key)
    {
      assert lengths[..i + 1][..i] == lengths[..i];
      SumOfPrefix(lengths, i + 1);
      NextPieceOfText(hmac, text, at, lengths[i]);
      at := at + lengths[i];
      i := i + 1;
    }
    assert lengths[..i] == lengths && data[..at] == data;
    var written;
    status, written := hmac.Done(out, 0, out.Length);
  }

  /** A call of process on the next piece of a text that is in range. */
  method NextPieceOfText<S(!new)>(hmac: HmacState<S>, text: array<byte>, at: nat, n: nat)
    requires hmac.Valid() && text != hmac.md.buf && text != hmac.key && at + n <= text.Length
    requires 8 * (hmac.h.blockSize + text.Length) < TWO_64 && hmac.Text() == text[..][..at]
    modifies hmac.md, hmac.md.buf
    ensures hmac.Valid() && hmac.Text() == text[..][..at + n]
  {
    hide Mac, Mod64, Overflows, XorAll, KeyBlock, Fold;
    assert |hmac.md.Absorbed()| == hmac.h.blockSize + at;
    InRangeIsAccepted(|hmac.md.whole|, hmac.md.curlen, n);
    var status := hmac.Process(text, at, n);
  }
}
