/** Cipher block chaining over any block cipher. */
module Cbc {
  import opened Blocks
  import opened Buffers
  import opened Errors
  import opened GaloisField

  /** The block functions of a cipher_descriptor entry under a scheduled key. */
  datatype BlockCipher = BlockCipher(
    blockLength: nat,
    encrypt: seq<byte> -> seq<byte>,
    decrypt: seq<byte> -> seq<byte>)

  ghost predicate IsCipher(c: BlockCipher) {
    && 1 <= c.blockLength
    && forall b: seq<byte> :: |b| == c.blockLength ==>
         |c.encrypt(b)| == c.blockLength && |c.decrypt(b)| == c.blockLength
  }

  /** Decryption of a block inverts its encryption. */
  ghost predicate Invertible(c: BlockCipher) {
    forall b: seq<byte> :: |b| == c.blockLength ==> c.decrypt(c.encrypt(b)) == b
  }

  /** cipher_descriptor, as far as chaining needs it; the set-up may refuse the key or the number of rounds. */
  datatype CipherDescriptor = CipherDescriptor(blockLength: nat, setup: (seq<byte>, int) -> SetupResult)
  datatype SetupResult = Scheduled(cipher: BlockCipher) | Refused

  ghost predicate IsDescriptor(d: CipherDescriptor) {
    && 1 <= d.blockLength <= 16
    && forall key: seq<byte>, rounds: int :: d.setup(key, rounds).Scheduled? ==>
         var c := d.setup(key, rounds).cipher;
         IsCipher(c) && c.blockLength == d.blockLength
  }

  lemma XorBytesTwice(a: seq<byte>, b: seq<byte>)
    requires |a| == |b|
    ensures XorBytes(XorBytes(a, b), b) == a
  {
    forall i | 0 <= i < |a|
      ensures XorBytes(XorBytes(a, b), b)[i] == a[i]
    {
      assert Xor(a[i] ^ b[i], b[i]) == a[i];
    }
  }

  // ---- section 6.2 of NIST SP 800-38A

  /** The ciphertext of the whole blocks of `pt`. */
  function Encrypted(c: BlockCipher, iv: seq<byte>, pt: seq<byte>): (ct: seq<byte>)
    requires IsCipher(c) && |iv| == c.blockLength && Whole(|pt|, c.blockLength)
    ensures |ct| == |pt|
    decreases |pt|
  {
    if |pt| == 0 then []
    else
      var x := c.encrypt(XorBytes(iv, pt[..c.blockLength]));
      x + Encrypted(c, x, pt[c.blockLength..])
  }

  function Decrypted(c: BlockCipher, iv: seq<byte>, ct: seq<byte>): (pt: seq<byte>)
    requires IsCipher(c) && |iv| == c.blockLength && Whole(|ct|, c.blockLength)
    ensures |pt| == |ct|
    decreases |ct|
  {
    if |ct| == 0 then []
    else XorBytes(c.decrypt(ct[..c.blockLength]), iv) + Decrypted(c, ct[..c.blockLength], ct[c.blockLength..])
  }

  /** The chaining value after ciphertext `ct`: its last block, or `iv` when there is none. */
  function NextIv(iv: seq<byte>, ct: seq<byte>): (r: seq<byte>)
    requires |ct| == 0 || |ct| >= |iv|
    ensures |r| == |iv|
  {
    if |ct| == 0 then iv else ct[|ct| - |iv|..]
  }

  lemma NextIvOfSum(iv: seq<byte>, x: seq<byte>, rest: seq<byte>)
    requires |x| == |iv| && (|rest| == 0 || |rest| >= |iv|)
    ensures NextIv(iv, x + rest) == NextIv(x, rest)
  {
  }

  lemma XorCommutes(a: seq<byte>, b: seq<byte>)
    requires |a| == |b|
    ensures XorBytes(a, b) == XorBytes(b, a)
  {
  }

  lemma EncryptedFirst(c: BlockCipher, iv: seq<byte>, b: seq<byte>, r: seq<byte>)
    requires IsCipher(c) && |iv| == c.blockLength == |b| && Whole(|r|, c.blockLength)
    ensures Whole(|b + r|, c.blockLength)
    ensures var x := c.encrypt(XorBytes(iv, b)); Encrypted(c, iv, b + r) == x + Encrypted(c, x, r)
  {
    hide XorBytes;
    assert (b + r)[..c.blockLength] == b && (b + r)[c.blockLength..] == r;
  }

  lemma DecryptedFirst(c: BlockCipher, iv: seq<byte>, b: seq<byte>, r: seq<byte>)
    requires IsCipher(c) && |iv| == c.blockLength == |b| && Whole(|r|, c.blockLength)
    ensures Whole(|b + r|, c.blockLength)
    ensures Decrypted(c, iv, b + r) == XorBytes(c.decrypt(b), iv) + Decrypted(c, b, r)
  {
    hide XorBytes;
    assert (b + r)[..c.blockLength] == b && (b + r)[c.blockLength..] == r;
  }

  /** Decryption inverts encryption, for any number of blocks. */
  lemma {:induction false} DecryptedOfEncrypted(c: BlockCipher, iv: seq<byte>, pt: seq<byte>)
    requires IsCipher(c) && Invertible(c) && |iv| == c.blockLength && Whole(|pt|, c.blockLength)
    ensures Decrypted(c, iv, Encrypted(c, iv, pt)) == pt
    decreases |pt|
  {
    if |pt| > 0 {
      var b, r := pt[..c.blockLength], pt[c.blockLength..];
      assert pt == b + r;
      var x := c.encrypt(XorBytes(iv, b));
      EncryptedFirst(c, iv, b, r);
      DecryptedFirst(c, iv, x, Encrypted(c, x, r));
      DecryptedOfEncrypted(c, x, r);
      XorCommutes(iv, b);
      XorBytesTwice(b, iv);
      hide XorBytes, Encrypted, Decrypted;
    }
  }

  lemma Nothing(c: BlockCipher, iv: seq<byte>)
    requires IsCipher(c) && |iv| == c.blockLength
    ensures Encrypted(c, iv, []) == [] && Decrypted(c, iv, []) == [] && NextIv(iv, []) == iv
  {
  }

  /** Encrypting a message in two calls, the second starting from the chaining value of the first, changes nothing. */
  lemma {:induction false} EncryptedInParts(c: BlockCipher, iv: seq<byte>, p: seq<byte>, q: seq<byte>)
    requires IsCipher(c) && |iv| == c.blockLength && Whole(|p|, c.blockLength) && Whole(|q|, c.blockLength)
    ensures Whole(|p + q|, c.blockLength)
    ensures Encrypted(c, iv, p + q) == Encrypted(c, iv, p) + Encrypted(c, NextIv(iv, Encrypted(c, iv, p)), q)
    decreases |p|
  {
    hide XorBytes, Encrypted, NextIv;
    Nothing(c, iv);
    WholeSum(|p|, |q|, c.blockLength);
    if |p| == 0 {
      assert p == [] && p + q == q;
    } else {
      var b, r := p[..c.blockLength], p[c.blockLength..];
      assert p == b + r;
      assert p + q == b + (r + q);
      var x := c.encrypt(XorBytes(iv, b));
      EncryptedInParts(c, x, r, q);
      EncryptedFirst(c, iv, b, r);
      EncryptedFirst(c, iv, b, r + q);
      NextIvOfSum(iv, x, Encrypted(c, x, r));
    }
  }

  lemma {:induction false} DecryptedInParts(c: BlockCipher, iv: seq<byte>, p: seq<byte>, q: seq<byte>)
    requires IsCipher(c) && |iv| == c.blockLength && Whole(|p|, c.blockLength) && Whole(|q|, c.blockLength)
    ensures Whole(|p + q|, c.blockLength)
    ensures Decrypted(c, iv, p + q) == Decrypted(c, iv, p) + Decrypted(c, NextIv(iv, p), q)
    decreases |p|
  {
    hide XorBytes, Decrypted, NextIv;
    Nothing(c, iv);
    WholeSum(|p|, |q|, c.blockLength);
    if |p| == 0 {
      assert p == [] && p + q == q;
    } else {
      var b, r := p[..c.blockLength], p[c.blockLength..];
      assert p == b + r;
      assert p + q == b + (r + q);
      DecryptedInParts(c, b, r, q);
      DecryptedFirst(c, iv, b, r);
      DecryptedFirst(c, iv, b, r + q);
      NextIvOfSum(iv, b, r);
    }
  }

  // ---- block by block

  lemma XorBytesAre(a: seq<byte>, b: seq<byte>, i: nat)
    requires |a| == |b| && i < |a|
    ensures XorBytes(a, b)[i] == a[i] ^ b[i]
  {
  }

  /** The block at `at` of a text, and the block before it, which is `iv` for the first one. */
  function BlockAt(text: seq<byte>, n: nat, at: nat): seq<byte>
    requires at + n <= |text|
  {
    text[at..at + n]
  }

  function Before(iv: seq<byte>, text: seq<byte>, n: nat, at: nat): seq<byte>
    requires at == 0 || n <= at <= |text|
  {
    if at == 0 then iv else text[at - n..at]
  }

  lemma LaterBlock(iv: seq<byte>, x: seq<byte>, rest: seq<byte>, n: nat, at: nat)
    requires |x| == n > 0 && n <= at && at + n <= n + |rest| && (at - n == 0 || n <= at - n)
    ensures BlockAt(x + rest, n, at) == BlockAt(rest, n, at - n)
    ensures Before(iv, x + rest, n, at) == Before(x, rest, n, at - n)
  {
  }

  lemma FirstBlock(iv: seq<byte>, x: seq<byte>, rest: seq<byte>, n: nat)
    requires |x| == n > 0
    ensures BlockAt(x + rest, n, 0) == x && Before(iv, x + rest, n, 0) == iv
  {
  }

  /** Every ciphertext block is the encryption of the plaintext block plus the ciphertext block before it. */
  lemma {:induction false} EncryptedBlock(c: BlockCipher, iv: seq<byte>, pt: seq<byte>, at: nat)
    requires IsCipher(c) && |iv| == c.blockLength && Whole(|pt|, c.blockLength) && Whole(at, c.blockLength)
    requires at + c.blockLength <= |pt|
    ensures var ct, n := Encrypted(c, iv, pt), c.blockLength;
            && |Before(iv, ct, n, at)| == n
            && BlockAt(ct, n, at) == c.encrypt(XorBytes(Before(iv, ct, n, at), BlockAt(pt, n, at)))
    decreases at
  {
    hide XorBytes, Encrypted, BlockAt, Before;
    var n := c.blockLength;
    var b, r := pt[..n], pt[n..];
    assert pt == b + r;
    var x := c.encrypt(XorBytes(iv, b));
    EncryptedFirst(c, iv, b, r);
    FirstBlock(iv, x, Encrypted(c, x, r), n);
    FirstBlock(iv, b, r, n);
    if at > 0 {
      EncryptedBlock(c, x, r, at - n);
      LaterBlock(iv, x, Encrypted(c, x, r), n, at);
      LaterBlock(iv, b, r, n, at);
    }
  }

  /** Every plaintext block is the decryption of the ciphertext block, plus the ciphertext block before it. */
  lemma {:induction false} DecryptedBlock(c: BlockCipher, iv: seq<byte>, ct: seq<byte>, at: nat)
    requires IsCipher(c) && |iv| == c.blockLength && Whole(|ct|, c.blockLength) && Whole(at, c.blockLength)
    requires at + c.blockLength <= |ct|
    ensures var pt, n := Decrypted(c, iv, ct), c.blockLength;
            && |Before(iv, ct, n, at)| == n
            && BlockAt(pt, n, at) == XorBytes(c.decrypt(BlockAt(ct, n, at)), Before(iv, ct, n, at))
    decreases at
  {
    hide XorBytes, Decrypted, BlockAt, Before;
    var n := c.blockLength;
    var b, r := ct[..n], ct[n..];
    assert ct == b + r;
    var x := XorBytes(c.decrypt(b), iv);
    DecryptedFirst(c, iv, b, r);
    FirstBlock(iv, x, Decrypted(c, b, r), n);
    FirstBlock(iv, b, r, n);
    if at > 0 {
      DecryptedBlock(c, b, r, at - n);
      LaterBlock(iv, x, Decrypted(c, b, r), n, at);
      LaterBlock(iv, b, r, n, at);
    }
  }

  // ---- the chaining state and its operations

  /** symmetric_CBC; `key` holds the scheduled cipher. */
  class SymmetricCbc {
    const IV: array<byte>
    var cipher: BlockCipher
    var blocklen: int

    constructor (c: BlockCipher)
      ensures fresh(IV) && IV.Length == 144 && cipher == c && blocklen == 0
    {
      IV := new byte[144];
      cipher := c;
      blocklen := 0;
    }

    /** What `Start` establishes: a usable block length, which is the cipher's. */
    ghost predicate Started()
      reads this
    {
      && IV.Length == 144
      && IsCipher(cipher)
      && blocklen == cipher.blockLength <= IV.Length
    }

    function Chain(): seq<byte>
      requires Started()
      reads this, IV
    {
      IV[..blocklen]
    }

    /** cbc_start */
    method Start(d: CipherDescriptor, iv: array<byte>, key: seq<byte>, rounds: int) returns (status: Status)
      requires IV.Length == 144 && IsDescriptor(d) && d.blockLength <= iv.Length && iv != IV
      modifies this, IV
      ensures status == if d.setup(key, rounds).Scheduled? then Ok else SetupFailed
      ensures status == Ok ==>
                Started() && cipher == d.setup(key, rounds).cipher && Chain() == iv[..d.blockLength]
      ensures status != Ok ==> unchanged(this) && unchanged(IV)
      ensures iv[..] == old(iv[..])
    {
      var r := d.setup(key, rounds);
      if r.Refused? {
        return SetupFailed;
      }
      cipher := r.cipher;
      blocklen := d.blockLength;
      var x := 0;
      while x < blocklen
        invariant 0 <= x <= blocklen == d.blockLength && cipher == r.cipher
        invariant IV[..x] == iv[..x]
      {
        IV[x] := iv[x];
        x := x + 1;
      }
      return Ok;
    }

    ghost predicate Usable()
      reads this
    {
      IV.Length == 144 && (1 <= blocklen <= IV.Length ==> IsCipher(cipher) && blocklen == cipher.blockLength)
    }

    /** cbc_encrypt. The output may be the input, or lie before it in the same buffer. */
    method Encrypt(pt: array<byte>, pi: nat, ct: array<byte>, ci: nat, len: nat) returns (status: Status)
      requires Usable()
      requires pi + len <= pt.Length && ci + len <= ct.Length && IV != pt && IV != ct
      requires pt != ct || ci <= pi || pi + len <= ci
      modifies IV, ct
      ensures status == if 1 <= blocklen <= IV.Length && len % blocklen == 0 then Ok else InvalidArg
      ensures status == Ok ==> Started() && Whole(len, blocklen)
      ensures status == Ok ==> Written(ct[..], old(ct[..]), ci, Encrypted(cipher, old(Chain()), old(pt[pi..pi + len])))
      ensures status == Ok ==> Chain() == NextIv(old(Chain()), Encrypted(cipher, old(Chain()), old(pt[pi..pi + len])))
      ensures status != Ok ==> unchanged(IV) && unchanged(ct)
    {
      hide Written, Encrypted, NextIv, Whole;
      if blocklen < 1 || blocklen > IV.Length {
        return InvalidArg;
      }
      if len % blocklen != 0 {
        return InvalidArg;
      }
      WholeIsMultiple(len, blocklen);
      EncryptBlocks(pt, pi, ct, ci, len);
      return Ok;
    }

    method EncryptBlocks(pt: array<byte>, pi: nat, ct: array<byte>, ci: nat, len: nat)
      requires Started() && Whole(len, blocklen)
      requires pi + len <= pt.Length && ci + len <= ct.Length && IV != pt && IV != ct
      requires pt != ct || ci <= pi || pi + len <= ci
      modifies IV, ct
      ensures Written(ct[..], old(ct[..]), ci, Encrypted(cipher, old(Chain()), old(pt[pi..pi + len])))
      ensures Chain() == NextIv(old(Chain()), Encrypted(cipher, old(Chain()), old(pt[pi..pi + len])))
    {
      hide Written, EncryptedSoFar, Encrypted, NextIv, XorBytes;
      ghost var iv, input, before := Chain(), pt[pi..pi + len], ct[..];
      var done, left: nat := 0, len;
      EncryptedNothing(cipher, iv, input, ct[..], ci);
      while left > 0
        invariant done + left == len && Whole(left, blocklen)
        invariant Unread(pt[..], pi, input, done)
        invariant EncryptedSoFar(cipher, iv, input, done, before, ct[..], ci, Chain())
      {
        EncryptTurn(pt, pi, ct, ci, done, iv, input, before);
        done, left := done + blocklen, left - blocklen;
      }
      EncryptedAll(cipher, iv, input, before, ct[..], ci, Chain());
    }

    /** One turn of the loop of cbc_encrypt. */
    method EncryptTurn(pt: array<byte>, pi: nat, ct: array<byte>, ci: nat, done: nat,
        ghost iv: seq<byte>, ghost input: seq<byte>, ghost before: seq<byte>)
      requires Started() && done + blocklen <= |input|
      requires pi + |input| <= pt.Length && ci + |input| <= ct.Length && IV != pt && IV != ct
      requires pt != ct || ci <= pi || pi + |input| <= ci
      requires Unread(pt[..], pi, input, done)
      requires EncryptedSoFar(cipher, iv, input, done, before, ct[..], ci, Chain())
      modifies IV, ct
      ensures Unread(pt[..], pi, input, done + blocklen)
      ensures EncryptedSoFar(cipher, iv, input, done + blocklen, before, ct[..], ci, Chain())
    {
      hide Written, Unread, EncryptedSoFar, Encrypted, NextIv, XorBytes;
      ghost var middle, chain, source := ct[..], Chain(), pt[..];
      XorInto(pt, pi + done);
      var block := cipher.encrypt(IV[..blocklen]);
      Put(block, ct, ci + done);
      EncryptedStep(cipher, iv, input, done, before, middle, ct[..], source, pi, ci, chain, block);
      WrittenParts(ct[..], middle, ci + done, block, 0, 0);
      assert pt != ct ==> pt[..] == source;
      UnreadAfter(source, pt[..], pi, input, done, ct[..], middle, ci, block);
      Load(ct, ci + done);
    }

    /** The loop that adds a block of `a` to the chaining value. */
    method XorInto(a: array<byte>, i: nat)
      requires Started() && i + blocklen <= a.Length && IV != a
      modifies IV
      ensures Chain() == XorBytes(old(Chain()), a[..][i..i + blocklen]) && a[..] == old(a[..])
    {
      hide Xor;
      var x := 0;
      while x < blocklen
        invariant 0 <= x <= blocklen
        invariant forall k :: 0 <= k < x ==> IV[k] == Xor(old(IV[k]), a[i + k])
        invariant forall k :: x <= k < blocklen ==> IV[k] == old(IV[k])
      {
        IV[x] := Xor(IV[x], a[i + x]);
        x := x + 1;
      }
    }

    /** cbc_decrypt, under the same conditions on its buffers. */
    method Decrypt(ct: array<byte>, ci: nat, pt: array<byte>, pi: nat, len: nat) returns (status: Status)
      requires Usable()
      requires ci + len <= ct.Length && pi + len <= pt.Length && IV != pt && IV != ct
      requires pt != ct || pi <= ci || ci + len <= pi
      modifies IV, pt
      ensures status == if 1 <= blocklen <= 16 && len % blocklen == 0 then Ok else InvalidArg
      ensures status == Ok ==> Started() && Whole(len, blocklen)
      ensures status == Ok ==> Written(pt[..], old(pt[..]), pi, Decrypted(cipher, old(Chain()), old(ct[ci..ci + len])))
      ensures status == Ok ==> Chain() == NextIv(old(Chain()), old(ct[ci..ci + len]))
      ensures status != Ok ==> unchanged(IV) && unchanged(pt)
    {
      hide Written, Decrypted, NextIv, Whole;
      if blocklen < 1 || blocklen > IV.Length || blocklen > 16 {
        return InvalidArg;
      }
      if len % blocklen != 0 {
        return InvalidArg;
      }
      WholeIsMultiple(len, blocklen);
      DecryptBlocks(ct, ci, pt, pi, len);
      return Ok;
    }

    method DecryptBlocks(ct: array<byte>, ci: nat, pt: array<byte>, pi: nat, len: nat)
      requires Started() && Whole(len, blocklen)
      requires ci + len <= ct.Length && pi + len <= pt.Length && IV != pt && IV != ct
      requires pt != ct || pi <= ci || ci + len <= pi
      modifies IV, pt
      ensures Written(pt[..], old(pt[..]), pi, Decrypted(cipher, old(Chain()), old(ct[ci..ci + len])))
      ensures Chain() == NextIv(old(Chain()), old(ct[ci..ci + len]))
    {
      hide Written, Decrypted, NextIv, XorBytes;
      ghost var iv, input, before := Chain(), ct[ci..ci + len], pt[..];
      var done, left: nat := 0, len;
      DecryptedNothing(cipher, iv, input, pt[..], pi);
      while left > 0
        invariant done + left == len && Whole(left, blocklen)
        invariant Unread(ct[..], ci, input, done)
        invariant DecryptedSoFar(cipher, iv, input, done, before, pt[..], pi, Chain())
      {
        DecryptTurn(ct, ci, pt, pi, done, iv, input, before);
        done, left := done + blocklen, left - blocklen;
      }
      DecryptedAll(cipher, iv, input, before, pt[..], pi, Chain());
    }

    /** One turn of the loop of cbc_decrypt. */
    method DecryptTurn(ct: array<byte>, ci: nat, pt: array<byte>, pi: nat, done: nat,
        ghost iv: seq<byte>, ghost input: seq<byte>, ghost before: seq<byte>)
      requires Started() && done + blocklen <= |input|
      requires ci + |input| <= ct.Length && pi + |input| <= pt.Length && IV != pt && IV != ct
      requires pt != ct || pi <= ci || ci + |input| <= pi
      requires Unread(ct[..], ci, input, done)
      requires DecryptedSoFar(cipher, iv, input, done, before, pt[..], pi, Chain())
      modifies IV, pt
      ensures Unread(ct[..], ci, input, done + blocklen)
      ensures DecryptedSoFar(cipher, iv, input, done + blocklen, before, pt[..], pi, Chain())
    {
      hide Written, Unread, DecryptedSoFar, Decrypted, NextIv, XorBytes;
      ghost var middle, chain, source := pt[..], Chain(), ct[..];
      var tmp := cipher.decrypt(ct[..][ci + done..ci + done + blocklen]);
      Unchain(ct, ci + done, pt, pi + done, tmp);
      DecryptedStep(cipher, iv, input, done, before, middle, pt[..], source, ci, pi, chain, Chain());
      assert ct != pt ==> ct[..] == source;
      UnreadAfter(source, ct[..], ci, input, done, pt[..], middle, pi, XorBytes(tmp, chain));
    }

    /** The loop that adds the chaining value to `tmp`, stores the sum and keeps the ciphertext for the next block. */
    method Unchain(ct: array<byte>, ci: nat, pt: array<byte>, pi: nat, tmp: seq<byte>)
      requires Started() && |tmp| == blocklen
      requires ci + blocklen <= ct.Length && pi + blocklen <= pt.Length && IV != pt && IV != ct
      requires pt != ct || pi <= ci || ci + blocklen <= pi
      modifies IV, pt
      ensures Chain() == old(ct[..])[ci..ci + blocklen]
      ensures Written(pt[..], old(pt[..]), pi, XorBytes(tmp, old(Chain())))
      ensures pt != ct ==> ct[..] == old(ct[..])
    {
      hide Xor, Written;
      ghost var iv, block, before := Chain(), ct[ci..ci + blocklen], pt[..];
      ghost var sum := XorBytes(tmp, iv);
      var x := 0;
      while x < blocklen
        invariant 0 <= x <= blocklen
        invariant forall k :: 0 <= k < blocklen ==> IV[k] == if k < x then block[k] else iv[k]
        invariant forall k :: x <= k < blocklen ==> ct[ci + k] == block[k]
        invariant forall k :: 0 <= k < pt.Length ==>
                    pt[k] == if pi <= k < pi + x then sum[k - pi] else before[k]
        invariant pt != ct ==> ct[..] == old(ct[..])
      {
        var tmpy := Xor(tmp[x], IV[x]);
        IV[x] := ct[ci + x];
        pt[pi + x] := tmpy;
        x := x + 1;
      }
      StoredRun(pt[..], before, pi, sum);
    }

    /** The loop that copies a block of `a` into the chaining value. */
    method Load(a: array<byte>, i: nat)
      requires Started() && i + blocklen <= a.Length && IV != a
      modifies IV
      ensures Chain() == a[..][i..i + blocklen] && a[..] == old(a[..])
    {
      var x := 0;
      while x < blocklen
        invariant 0 <= x <= blocklen && IV[..x] == a[i..i + x]
      {
        IV[x] := a[i + x];
        x := x + 1;
      }
    }
  }

  /** The part of the input that the loop has yet to read is still in the buffer `b`, whose input starts at `i`. */
  ghost predicate Unread(b: seq<byte>, i: nat, input: seq<byte>, done: nat)
  {
    done <= |input| && i + |input| <= |b| && b[i + done..i + |input|] == input[done..]
  }

  /** ... and one turn of the loop does not overwrite what the next turns read. */
  lemma UnreadAfter(source: seq<byte>, source': seq<byte>, i: nat, input: seq<byte>, done: nat,
      target': seq<byte>, target: seq<byte>, j: nat, block: seq<byte>)
    requires Unread(source, i, input, done) && done + |block| <= |input|
    requires Written(target', target, j + done, block)
    requires source' == source || (source == target && source' == target' && (j <= i || i + |input| <= j))
    ensures Unread(source', i, input, done + |block|)
  {
    var lo, hi := i + done + |block|, i + |input|;
    assert source[lo..hi] == source[i + done..hi][|block|..];
    if source' != source {
      WrittenParts(target', target, j + done, block, lo, hi);
    }
  }

  /** `done` bytes of `input` are encrypted into `now` at `i`, and the chaining value is `chain`. */
  ghost predicate EncryptedSoFar(c: BlockCipher, iv: seq<byte>, input: seq<byte>, done: nat,
      before: seq<byte>, now: seq<byte>, i: nat, chain: seq<byte>)
  {
    && IsCipher(c) && |iv| == c.blockLength && done <= |input| && Whole(done, c.blockLength)
    && Written(now, before, i, Encrypted(c, iv, input[..done]))
    && chain == NextIv(iv, Encrypted(c, iv, input[..done]))
  }

  lemma EncryptedNothing(c: BlockCipher, iv: seq<byte>, input: seq<byte>, buffer: seq<byte>, i: nat)
    requires IsCipher(c) && |iv| == c.blockLength && i <= |buffer|
    ensures EncryptedSoFar(c, iv, input, 0, buffer, buffer, i, iv)
  {
  }

  lemma EncryptedAll(c: BlockCipher, iv: seq<byte>, input: seq<byte>, before: seq<byte>, now: seq<byte>, i: nat,
      chain: seq<byte>)
    requires EncryptedSoFar(c, iv, input, |input|, before, now, i, chain)
    ensures Written(now, before, i, Encrypted(c, iv, input)) && chain == NextIv(iv, Encrypted(c, iv, input))
  {
    assert input[..|input|] == input;
  }

  /** One more block at the end. */
  lemma EncryptedNext(c: BlockCipher, iv: seq<byte>, p: seq<byte>, block: seq<byte>)
    requires IsCipher(c) && |iv| == c.blockLength == |block| && Whole(|p|, c.blockLength)
    ensures Whole(|block|, c.blockLength) && Whole(|p + block|, c.blockLength)
    ensures var chain := NextIv(iv, Encrypted(c, iv, p));
            && Encrypted(c, chain, block) == c.encrypt(XorBytes(chain, block))
            && Encrypted(c, iv, p + block) == Encrypted(c, iv, p) + Encrypted(c, chain, block)
            && NextIv(iv, Encrypted(c, iv, p + block)) == Encrypted(c, chain, block)
  {
    EncryptedInParts(c, iv, p, block);
    var chain := NextIv(iv, Encrypted(c, iv, p));
    assert block[..c.blockLength] == block && block[c.blockLength..] == [];
    hide XorBytes;
  }

  /** What one turn of the loop adds to the output. */
  lemma EncryptedStep(c: BlockCipher, iv: seq<byte>, input: seq<byte>, done: nat, before: seq<byte>, middle: seq<byte>,
      now: seq<byte>, source: seq<byte>, i: nat, j: nat, chain: seq<byte>, x: seq<byte>)
    requires EncryptedSoFar(c, iv, input, done, before, middle, j, chain) && done + c.blockLength <= |input|
    requires Unread(source, i, input, done)
    requires x == c.encrypt(XorBytes(chain, source[i + done..i + done + c.blockLength]))
    requires Written(now, middle, j + done, x)
    ensures EncryptedSoFar(c, iv, input, done + c.blockLength, before, now, j, x)
  {
    hide Written, XorBytes, Encrypted, NextIv;
    var block := input[done..done + c.blockLength];
    NextInput(source, i, input, done, c.blockLength);
    EncryptedNext(c, iv, input[..done], block);
    assert input[..done + c.blockLength] == input[..done] + block;
    WrittenTwice(now, middle, before, j, Encrypted(c, iv, input[..done]), x);
  }

  lemma NextInput(source: seq<byte>, i: nat, input: seq<byte>, done: nat, n: nat)
    requires Unread(source, i, input, done) && done + n <= |input|
    ensures source[i + done..i + done + n] == input[done..done + n]
  {
    assert source[i + done..i + |input|][..n] == source[i + done..i + done + n];
    assert input[done..][..n] == input[done..done + n];
  }

  // ---- the same for decryption

  ghost predicate DecryptedSoFar(c: BlockCipher, iv: seq<byte>, input: seq<byte>, done: nat,
      before: seq<byte>, now: seq<byte>, i: nat, chain: seq<byte>)
  {
    && IsCipher(c) && |iv| == c.blockLength && done <= |input| && Whole(done, c.blockLength)
    && Written(now, before, i, Decrypted(c, iv, input[..done]))
    && chain == NextIv(iv, input[..done])
  }

  lemma DecryptedNothing(c: BlockCipher, iv: seq<byte>, input: seq<byte>, buffer: seq<byte>, i: nat)
    requires IsCipher(c) && |iv| == c.blockLength && i <= |buffer|
    ensures DecryptedSoFar(c, iv, input, 0, buffer, buffer, i, iv)
  {
  }

  lemma DecryptedAll(c: BlockCipher, iv: seq<byte>, input: seq<byte>, before: seq<byte>, now: seq<byte>, i: nat,
      chain: seq<byte>)
    requires DecryptedSoFar(c, iv, input, |input|, before, now, i, chain)
    ensures Written(now, before, i, Decrypted(c, iv, input)) && chain == NextIv(iv, input)
  {
    assert input[..|input|] == input;
  }

  lemma DecryptedNext(c: BlockCipher, iv: seq<byte>, p: seq<byte>, block: seq<byte>)
    requires IsCipher(c) && |iv| == c.blockLength == |block| && Whole(|p|, c.blockLength)
    ensures Whole(|block|, c.blockLength) && Whole(|p + block|, c.blockLength)
    ensures Decrypted(c, iv, p + block) == Decrypted(c, iv, p) + XorBytes(c.decrypt(block), NextIv(iv, p))
    ensures NextIv(iv, p + block) == block
  {
    hide XorBytes;
    DecryptedInParts(c, iv, p, block);
    assert block[..c.blockLength] == block && block[c.blockLength..] == [];
  }

  lemma DecryptedStep(c: BlockCipher, iv: seq<byte>, input: seq<byte>, done: nat, before: seq<byte>, middle: seq<byte>,
      now: seq<byte>, source: seq<byte>, i: nat, j: nat, chain: seq<byte>, chain': seq<byte>)
    requires DecryptedSoFar(c, iv, input, done, before, middle, j, chain) && done + c.blockLength <= |input|
    requires Unread(source, i, input, done)
    requires chain' == source[i + done..i + done + c.blockLength]
    requires Written(now, middle, j + done, XorBytes(c.decrypt(chain'), chain))
    ensures DecryptedSoFar(c, iv, input, done + c.blockLength, before, now, j, chain')
  {
    hide Written, XorBytes, Decrypted, NextIv;
    var block := input[done..done + c.blockLength];
    NextInput(source, i, input, done, c.blockLength);
    DecryptedNext(c, iv, input[..done], block);
    assert input[..done + c.blockLength] == input[..done] + block;
    WrittenTwice(now, middle, before, j, Decrypted(c, iv, input[..done]), XorBytes(c.decrypt(block), chain));
  }
}
