/** 32-bit words as four bytes, most significant first: a column of the AES state, a word of a key schedule or of a
    hash. */
module Words {
  import opened Buffers
  import opened GaloisField

  type word = bv32

  function XorW(a: word, b: word): word { a ^ b }

  /** `a` is the most significant byte. */
  function Word(a: byte, b: byte, c: byte, d: byte): word {
    (a as word << 24) | (b as word << 16) | (c as word << 8) | (d as word)
  }

  // LTC_BYTE(w, 3) down to LTC_BYTE(w, 0)
  function Byte3(w: word): byte { ((w >> 24) & 255) as byte }
  function Byte2(w: word): byte { ((w >> 16) & 255) as byte }
  function Byte1(w: word): byte { ((w >> 8) & 255) as byte }
  function Byte0(w: word): byte { (w & 255) as byte }

  /** The word is the number that its bytes make, the first one counting most. */
  lemma WordCounts(a: byte, b: byte, c: byte, d: byte)
    ensures Word(a, b, c, d) == 0x100_0000 * (a as word) + 0x1_0000 * (b as word) + 0x100 * (c as word) + (d as word)
  {
  }

  lemma BytesOfWord(a: byte, b: byte, c: byte, d: byte)
    ensures var w := Word(a, b, c, d);
            Byte3(w) == a && Byte2(w) == b && Byte1(w) == c && Byte0(w) == d
  {
  }

  lemma WordOfBytes(w: word)
    ensures Word(Byte3(w), Byte2(w), Byte1(w), Byte0(w)) == w
  {
  }

  lemma XorWord(a: byte, b: byte, c: byte, d: byte, a': byte, b': byte, c': byte, d': byte)
    ensures XorW(Word(a, b, c, d), Word(a', b', c', d')) == Word(Xor(a, a'), Xor(b, b'), Xor(c, c'), Xor(d, d'))
  {
  }

  lemma XorWCancel(a: word, k: word)
    ensures XorW(XorW(a, k), k) == a
  {
    assert XorW(a ^ k, k) == a;
  }

  function StoreWord(w: word): (b: seq<byte>)
    ensures |b| == 4
  {
    [Byte3(w), Byte2(w), Byte1(w), Byte0(w)]
  }

  /** The words of a block, most significant byte first. */
  function WordsOf(block: seq<byte>): (w: seq<word>)
    requires |block| == 64
    ensures |w| == 16
  {
    seq(16, i requires 0 <= i < 16 => Word(block[4 * i], block[4 * i + 1], block[4 * i + 2], block[4 * i + 3]))
  }

  method LoadBlock(block: array<byte>, at: nat, w: array<word>)
    requires at + 64 <= block.Length && w.Length >= 16
    modifies w
    ensures w[..16] == WordsOf(block[at..at + 64])
  {
    var i := 0;
    while i < 16
      invariant i <= 16
      invariant forall j :: 0 <= j < i ==> w[j] == WordsOf(block[at..at + 64])[j]
    {
      w[i] := Word(block[at + 4 * i], block[at + 4 * i + 1], block[at + 4 * i + 2], block[at + 4 * i + 3]);
      i := i + 1;
    }
  }

  type word64 = bv64

  /** `a` is the most significant byte. */
  function Word64(a: byte, b: byte, c: byte, d: byte, e: byte, f: byte, g: byte, h: byte): word64 {
    (a as word64 << 56) | (b as word64 << 48) | (c as word64 << 40) | (d as word64 << 32)
    | (e as word64 << 24) | (f as word64 << 16) | (g as word64 << 8) | (h as word64)
  }

  // the bytes that STORE64H writes, first to last
  function Byte7Of(w: word64): byte { ((w >> 56) & 255) as byte }
  function Byte6Of(w: word64): byte { ((w >> 48) & 255) as byte }
  function Byte5Of(w: word64): byte { ((w >> 40) & 255) as byte }
  function Byte4Of(w: word64): byte { ((w >> 32) & 255) as byte }
  function Byte3Of(w: word64): byte { ((w >> 24) & 255) as byte }
  function Byte2Of(w: word64): byte { ((w >> 16) & 255) as byte }
  function Byte1Of(w: word64): byte { ((w >> 8) & 255) as byte }
  function Byte0Of(w: word64): byte { (w & 255) as byte }

  /** The word is the number that its bytes make, the first one counting most; and they are the ones that are stored. */
  lemma Word64Counts(a: byte, b: byte, c: byte, d: byte, e: byte, f: byte, g: byte, h: byte)
    ensures var w := Word64(a, b, c, d, e, f, g, h);
            && w == 0x1_0000_0000 * (Word(a, b, c, d) as word64) + (Word(e, f, g, h) as word64)
            && Byte7Of(w) == a && Byte6Of(w) == b && Byte5Of(w) == c && Byte4Of(w) == d
            && Byte3Of(w) == e && Byte2Of(w) == f && Byte1Of(w) == g && Byte0Of(w) == h
  {
  }
}
