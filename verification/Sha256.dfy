/** SHA-256: its functions and constants (sections 4.1.2, 4.2.2 and 5.3.3 of FIPS 180-4), the compressor, and the hash
    that HASH_PROCESS and done make of it. */
module Sha256 {
  import opened Buffers
  import opened HashCore
  import opened Sha2
  import opened Words

  // ---- the functions as FIPS 180-4 writes them

  function ChStandard(x: word, y: word, z: word): word { (x & y) ^ (!x & z) }
  function MajStandard(x: word, y: word, z: word): word { (x & y) ^ (x & z) ^ (y & z) }
  function Sum0Standard(x: word): word { x.RotateRight(2) ^ x.RotateRight(13) ^ x.RotateRight(22) }
  function Sum1Standard(x: word): word { x.RotateRight(6) ^ x.RotateRight(11) ^ x.RotateRight(25) }
  function Gamma0Standard(x: word): word { x.RotateRight(7) ^ x.RotateRight(18) ^ (x >> 3) }
  function Gamma1Standard(x: word): word { x.RotateRight(17) ^ x.RotateRight(19) ^ (x >> 10) }

  // ---- and as the macros write them

  function Ch(x: word, y: word, z: word): word { z ^ (x & (y ^ z)) }
  function Maj(x: word, y: word, z: word): word { ((x | y) & z) | (x & y) }
  function Sum0(x: word): word { ((x >> 2) | (x << 30)) ^ ((x >> 13) | (x << 19)) ^ ((x >> 22) | (x << 10)) }
  function Sum1(x: word): word { ((x >> 6) | (x << 26)) ^ ((x >> 11) | (x << 21)) ^ ((x >> 25) | (x << 7)) }
  function Gamma0(x: word): word { ((x >> 7) | (x << 25)) ^ ((x >> 18) | (x << 14)) ^ (x >> 3) }
  function Gamma1(x: word): word { ((x >> 17) | (x << 15)) ^ ((x >> 19) | (x << 13)) ^ (x >> 10) }

  function Add(x: word, y: word): word { x + y }

  function Standard(): Functions<word> {
    Functions(ChStandard, MajStandard, Sum0Standard, Sum1Standard, Gamma0Standard, Gamma1Standard)
  }

  function Rewritten(): Functions<word> { Functions(Ch, Maj, Sum0, Sum1, Gamma0, Gamma1) }

  lemma ChIsChoice(x: word, y: word, z: word)
    ensures Ch(x, y, z) == ChStandard(x, y, z)
  {
    assert z ^ (x & (y ^ z)) == (x & y) ^ (!x & z);
  }

  lemma MajIsMajority(x: word, y: word, z: word)
    ensures Maj(x, y, z) == MajStandard(x, y, z)
  {
    assert ((x | y) & z) | (x & y) == (x & y) ^ (x & z) ^ (y & z);
  }

  lemma RotationsAgree(x: word)
    ensures Sum0(x) == Sum0Standard(x) && Sum1(x) == Sum1Standard(x)
    ensures Gamma0(x) == Gamma0Standard(x) && Gamma1(x) == Gamma1Standard(x)
  {
  }

  lemma FunctionsAgree()
    ensures Same(Standard(), Rewritten())
  {
    hide Ch, ChStandard, Maj, MajStandard, Sum0, Sum0Standard, Sum1, Sum1Standard, Gamma0, Gamma0Standard, Gamma1,
      Gamma1Standard;
    forall x, y, z
      ensures Standard().ch(x, y, z) == Rewritten().ch(x, y, z)
    {
      ChIsChoice(x, y, z);
    }
    forall x, y, z
      ensures Standard().maj(x, y, z) == Rewritten().maj(x, y, z)
    {
      MajIsMajority(x, y, z);
    }
    forall x
      ensures Standard().sum0(x) == Rewritten().sum0(x) && Standard().sum1(x) == Rewritten().sum1(x)
      ensures Standard().gamma0(x) == Rewritten().gamma0(x) && Standard().gamma1(x) == Rewritten().gamma1(x)
    {
      RotationsAgree(x);
    }
  }

  /** The constants number 8 * r to 8 * r + 7. */
  function KRow(r: nat): (k: seq<word>)
    requires r < 8
    ensures |k| == 8
  {
    if r == 0 then [0x428a2f98, 0x71374491, 0xb5c0fbcf, 0xe9b5dba5, 0x3956c25b, 0x59f111f1, 0x923f82a4, 0xab1c5ed5]
    else if r == 1 then
      [0xd807aa98, 0x12835b01, 0x243185be, 0x550c7dc3, 0x72be5d74, 0x80deb1fe, 0x9bdc06a7, 0xc19bf174]
    else if r == 2 then
      [0xe49b69c1, 0xefbe4786, 0x0fc19dc6, 0x240ca1cc, 0x2de92c6f, 0x4a7484aa, 0x5cb0a9dc, 0x76f988da]
    else if r == 3 then
      [0x983e5152, 0xa831c66d, 0xb00327c8, 0xbf597fc7, 0xc6e00bf3, 0xd5a79147, 0x06ca6351, 0x14292967]
    else if r == 4 then
      [0x27b70a85, 0x2e1b2138, 0x4d2c6dfc, 0x53380d13, 0x650a7354, 0x766a0abb, 0x81c2c92e, 0x92722c85]
    else if r == 5 then
      [0xa2bfe8a1, 0xa81a664b, 0xc24b8b70, 0xc76c51a3, 0xd192e819, 0xd6990624, 0xf40e3585, 0x106aa070]
    else if r == 6 then
      [0x19a4c116, 0x1e376c08, 0x2748774c, 0x34b0bcb5, 0x391c0cb3, 0x4ed8aa4a, 0x5b9cca4f, 0x682e6ff3]
    else [0x748f82ee, 0x78a5636f, 0x84c87814, 0x8cc70208, 0x90befffa, 0xa4506ceb, 0xbef9a3f7, 0xc67178f2]
  }

  function K(): (k: seq<word>)
    ensures |k| == 64
  {
    seq(64, t requires 0 <= t < 64 => KRow(t / 8)[t % 8])
  }

  lemma CubeRoots0(c: nat)
    requires c < 8
    ensures IsCubeRootBits(PrimeRow(0)[c], KRow(0)[c] as nat, 0x1_0000_0000)
  {
  }

  lemma CubeRoots1(c: nat)
    requires c < 8
    ensures IsCubeRootBits(PrimeRow(1)[c], KRow(1)[c] as nat, 0x1_0000_0000)
  {
  }

  lemma CubeRoots2(c: nat)
    requires c < 8
    ensures IsCubeRootBits(PrimeRow(2)[c], KRow(2)[c] as nat, 0x1_0000_0000)
  {
  }

  lemma CubeRoots3(c: nat)
    requires c < 8
    ensures IsCubeRootBits(PrimeRow(3)[c], KRow(3)[c] as nat, 0x1_0000_0000)
  {
  }

  lemma CubeRoots4(c: nat)
    requires c < 8
    ensures IsCubeRootBits(PrimeRow(4)[c], KRow(4)[c] as nat, 0x1_0000_0000)
  {
  }

  lemma CubeRoots5(c: nat)
    requires c < 8
    ensures IsCubeRootBits(PrimeRow(5)[c], KRow(5)[c] as nat, 0x1_0000_0000)
  {
  }

  lemma CubeRoots6(c: nat)
    requires c < 8
    ensures IsCubeRootBits(PrimeRow(6)[c], KRow(6)[c] as nat, 0x1_0000_0000)
  {
  }

  lemma CubeRoots7(c: nat)
    requires c < 8
    ensures IsCubeRootBits(PrimeRow(7)[c], KRow(7)[c] as nat, 0x1_0000_0000)
  {
  }

  /** Section 4.2.2: the constants are the first 32 bits of the fractional parts of the cube roots of the primes. */
  lemma KIsCubeRoots(t: nat)
    requires t < 64
    ensures IsCubeRootBits(Prime(t), K()[t] as nat, 0x1_0000_0000)
  {
    hide IsCubeRootBits, PrimeRow, KRow;
    var c := t % 8;
    match t / 8
    case 0 => CubeRoots0(c);
    case 1 => CubeRoots1(c);
    case 2 => CubeRoots2(c);
    case 3 => CubeRoots3(c);
    case 4 => CubeRoots4(c);
    case 5 => CubeRoots5(c);
    case 6 => CubeRoots6(c);
    case _ => CubeRoots7(c);
  }

  function Sha(): Algorithm<word> { Algorithm(Standard(), Add, K()) }

  /** The bits of y where those of x are set, and of z elsewhere; and the bits that most of the three have. */
  lemma ChoiceAndMajority(x: word, y: word, z: word)
    ensures ChStandard(x, y, z) == (x & y) | (!x & z)
    ensures MajStandard(x, y, z) == (x & y) | (x & z) | (y & z)
  {
    assert (x & y) ^ (!x & z) == (x & y) | (!x & z);
    assert (x & y) ^ (x & z) ^ (y & z) == (x & y) | (x & z) | (y & z);
  }

  /** The others are sums of rotations and shifts. */
  lemma Rotations(x: word)
    ensures Sum0Standard(x) == ((x >> 2) | (x << 30)) ^ ((x >> 13) | (x << 19)) ^ ((x >> 22) | (x << 10))
    ensures Sum1Standard(x) == ((x >> 6) | (x << 26)) ^ ((x >> 11) | (x << 21)) ^ ((x >> 25) | (x << 7))
    ensures Gamma0Standard(x) == ((x >> 7) | (x << 25)) ^ ((x >> 18) | (x << 14)) ^ (x >> 3)
    ensures Gamma1Standard(x) == ((x >> 17) | (x << 15)) ^ ((x >> 19) | (x << 13)) ^ (x >> 10)
  {
  }

  lemma ShaFunctions(x: word, y: word, z: word)
    ensures Sha().f.ch(x, y, z) == ChStandard(x, y, z) && Sha().f.maj(x, y, z) == MajStandard(x, y, z)
    ensures Sha().f.sum0(x) == Sum0Standard(x) && Sha().f.sum1(x) == Sum1Standard(x)
    ensures Sha().f.gamma0(x) == Gamma0Standard(x) && Sha().f.gamma1(x) == Gamma1Standard(x)
    ensures Sha().add(x, y) == x + y && Sha().k == K()
  {
    hide K, ChStandard, MajStandard, Sum0Standard, Sum1Standard, Gamma0Standard, Gamma1Standard;
  }

  lemma AddCommutes()
    ensures Commutes(Sha())
  {
  }

  // ---- the hash

  const INITIAL: Vars<word> := Vars(0x6a09e667, 0xbb67ae85, 0x3c6ef372, 0xa54ff53a, 0x510e527f, 0x9b05688c,
    0x1f83d9ab, 0x5be0cd19)

  function CompressBlock(v: Vars<word>, block: seq<byte>): Vars<word> {
    if |block| == 64 then Compress(Sha(), v, WordsOf(block)) else v
  }

  function Output(v: Vars<word>): (b: seq<byte>)
    ensures |b| == 32
  {
    StoreWord(v.a) + StoreWord(v.b) + StoreWord(v.c) + StoreWord(v.d) + StoreWord(v.e) + StoreWord(v.f)
      + StoreWord(v.g) + StoreWord(v.h)
  }

  function Sha256(): Hash<Vars<word>> { Hash(64, 56, 32, INITIAL, CompressBlock, Output) }

  lemma Sha256IsHash()
    ensures IsHash(Sha256())
    ensures Sha256().blockSize == 64 && Sha256().lengthAt == 56 && Sha256().hashSize == 32
  {
    hide CompressBlock, Output;
  }

  // ---- the words of the standard

  /** Section 5.3.3: the initial hash value is made of the square roots of the first eight primes. */
  lemma InitialIsSquareRoots()
    ensures var scale := 0x1_0000_0000;
            && IsSquareRootBits(2, INITIAL.a as nat, scale) && IsSquareRootBits(3, INITIAL.b as nat, scale)
            && IsSquareRootBits(5, INITIAL.c as nat, scale) && IsSquareRootBits(7, INITIAL.d as nat, scale)
            && IsSquareRootBits(11, INITIAL.e as nat, scale) && IsSquareRootBits(13, INITIAL.f as nat, scale)
            && IsSquareRootBits(17, INITIAL.g as nat, scale) && IsSquareRootBits(19, INITIAL.h as nat, scale)
  {
  }

  /** Section 5.2.1: the words of a block, and the words of the hash, each in order. */
  lemma WordsInOrder(block: seq<byte>, i: nat, v: Vars<word>, j: nat)
    requires |block| == 64 && i < 16
    ensures WordsOf(block)[i] == Word(block[4 * i], block[4 * i + 1], block[4 * i + 2], block[4 * i + 3])
    ensures j < 4 ==>
              var b := Output(v);
              && b[j] == StoreWord(v.a)[j] && b[4 + j] == StoreWord(v.b)[j] && b[8 + j] == StoreWord(v.c)[j]
              && b[12 + j] == StoreWord(v.d)[j] && b[16 + j] == StoreWord(v.e)[j] && b[20 + j] == StoreWord(v.f)[j]
              && b[24 + j] == StoreWord(v.g)[j] && b[28 + j] == StoreWord(v.h)[j]
  {
    hide Word, StoreWord;
  }

  /** Section 6: the compression of a block is any computation that follows the standard. */
  lemma CompressBlockIsRun(v: Vars<word>, block: seq<byte>, w: seq<word>, st: seq<Vars<word>>)
    requires |block| == 64 && IsRun(Sha(), v, WordsOf(block), w, st)
    ensures var r, u := CompressBlock(v, block), st[64];
            && r.a == Add(u.a, v.a) && r.b == Add(u.b, v.b) && r.c == Add(u.c, v.c) && r.d == Add(u.d, v.d)
            && r.e == Add(u.e, v.e) && r.f == Add(u.f, v.f) && r.g == Add(u.g, v.g) && r.h == Add(u.h, v.h)
  {
    hide IsRun, Compress, WordsOf, K, Standard, Add;
    CompressIsRun(Sha(), v, WordsOf(block), w, st);
    RunIsWhole(Sha(), v, WordsOf(block), w, st);
  }

  // ---- the compressor

  /** s_sha256_compress. */
  method CompressAt(state: array<word>, block: array<byte>, at: nat)
    requires state.Length == 8 && at + 64 <= block.Length
    modifies state
    ensures VarsOf(state[..]) == CompressBlock(VarsOf(old(state[..])), block[at..at + 64])
  {
    hide K, Compress, WordsOf, VarsOf, Rewritten, Standard;
    FunctionsAgree();
    AddCommutes();
    var w := new word[64];
    LoadBlock(block, at, w);
    CompressInPlace(Sha(), Rewritten(), state, w);
  }
}
