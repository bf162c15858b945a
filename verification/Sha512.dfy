/** SHA-512: its functions and constants (sections 4.1.3, 4.2.3 and 5.3.5 of FIPS 180-4), the compressor, and the hash
    that HASH_PROCESS and done make of it. */
module Sha512 {
  import opened Buffers
  import opened HashCore
  import opened Sha2
  import opened Words

  // ---- the functions as FIPS 180-4 writes them

  function ChStandard(x: word64, y: word64, z: word64): word64 { (x & y) ^ (!x & z) }
  function MajStandard(x: word64, y: word64, z: word64): word64 { (x & y) ^ (x & z) ^ (y & z) }
  function Sum0Standard(x: word64): word64 { x.RotateRight(28) ^ x.RotateRight(34) ^ x.RotateRight(39) }
  function Sum1Standard(x: word64): word64 { x.RotateRight(14) ^ x.RotateRight(18) ^ x.RotateRight(41) }
  function Gamma0Standard(x: word64): word64 { x.RotateRight(1) ^ x.RotateRight(8) ^ (x >> 7) }
  function Gamma1Standard(x: word64): word64 { x.RotateRight(19) ^ x.RotateRight(61) ^ (x >> 6) }

  // ---- and as the macros write them

  function Ch(x: word64, y: word64, z: word64): word64 { z ^ (x & (y ^ z)) }
  function Maj(x: word64, y: word64, z: word64): word64 { ((x | y) & z) | (x & y) }
  function Sum0(x: word64): word64 { ((x >> 28) | (x << 36)) ^ ((x >> 34) | (x << 30)) ^ ((x >> 39) | (x << 25)) }
  function Sum1(x: word64): word64 { ((x >> 14) | (x << 50)) ^ ((x >> 18) | (x << 46)) ^ ((x >> 41) | (x << 23)) }
  function Gamma0(x: word64): word64 { ((x >> 1) | (x << 63)) ^ ((x >> 8) | (x << 56)) ^ (x >> 7) }
  function Gamma1(x: word64): word64 { ((x >> 19) | (x << 45)) ^ ((x >> 61) | (x << 3)) ^ (x >> 6) }

  function Add(x: word64, y: word64): word64 { x + y }

  function Standard(): Functions<word64> {
    Functions(ChStandard, MajStandard, Sum0Standard, Sum1Standard, Gamma0Standard, Gamma1Standard)
  }

  function Rewritten(): Functions<word64> { Functions(Ch, Maj, Sum0, Sum1, Gamma0, Gamma1) }

  lemma ChIsChoice(x: word64, y: word64, z: word64)
    ensures Ch(x, y, z) == ChStandard(x, y, z)
  {
    assert z ^ (x & (y ^ z)) == (x & y) ^ (!x & z);
  }

  lemma MajIsMajority(x: word64, y: word64, z: word64)
    ensures Maj(x, y, z) == MajStandard(x, y, z)
  {
    assert ((x | y) & z) | (x & y) == (x & y) ^ (x & z) ^ (y & z);
  }

  lemma RotationsAgree(x: word64)
    ensures Sum0(x) == Sum0Standard(x) && Sum1(x) == Sum1Standard(x)
    ensures Gamma0(x) == Gamma0Standard(x) && Gamma1(x) == Gamma1Standard(x)
  {
  }

  lemma FunctionsAgree()
    ensures Same(Standard(), Rewritten())
  {
    hide Ch, ChStandard, Maj, MajStandard, Sum0, Sum0Standard, Sum1, Sum1Standard, Gamma0, Gamma0Standard, Gamma1,
      Gamma1Standard;
    forall x, y, z
      ensures Standard().ch(x, y, z) == Rewritten().ch(x, y, z)
    {
      ChIsChoice(x, y, z);
    }
    forall x, y, z
      ensures Standard().maj(x, y, z) == Rewritten().maj(x, y, z)
    {
      MajIsMajority(x, y, z);
    }
    forall x
      ensures Standard().sum0(x) == Rewritten().sum0(x) && Standard().sum1(x) == Rewritten().sum1(x)
      ensures Standard().gamma0(x) == Rewritten().gamma0(x) && Standard().gamma1(x) == Rewritten().gamma1(x)
    {
      RotationsAgree(x);
    }
  }

  /** The constants number 8 * r to 8 * r + 7. */
  function KRow(r: nat): (k: seq<word64>)
    requires r < 10
    ensures |k| == 8
  {
    if r == 0 then
      [0x428a2f98d728ae22, 0x7137449123ef65cd, 0xb5c0fbcfec4d3b2f, 0xe9b5dba58189dbbc,
       0x3956c25bf348b538, 0x59f111f1b605d019, 0x923f82a4af194f9b, 0xab1c5ed5da6d8118]
    else if r == 1 then
      [0xd807aa98a3030242, 0x12835b0145706fbe, 0x243185be4ee4b28c, 0x550c7dc3d5ffb4e2,
       0x72be5d74f27b896f, 0x80deb1fe3b1696b1, 0x9bdc06a725c71235, 0xc19bf174cf692694]
    else if r == 2 then
      [0xe49b69c19ef14ad2, 0xefbe4786384f25e3, 0x0fc19dc68b8cd5b5, 0x240ca1cc77ac9c65,
       0x2de92c6f592b0275, 0x4a7484aa6ea6e483, 0x5cb0a9dcbd41fbd4, 0x76f988da831153b5]
    else if r == 3 then
      [0x983e5152ee66dfab, 0xa831c66d2db43210, 0xb00327c898fb213f, 0xbf597fc7beef0ee4,
       0xc6e00bf33da88fc2, 0xd5a79147930aa725, 0x06ca6351e003826f, 0x142929670a0e6e70]
    else if r == 4 then
      [0x27b70a8546d22ffc, 0x2e1b21385c26c926, 0x4d2c6dfc5ac42aed, 0x53380d139d95b3df,
       0x650a73548baf63de, 0x766a0abb3c77b2a8, 0x81c2c92e47edaee6, 0x92722c851482353b]
    else if r == 5 then
      [0xa2bfe8a14cf10364, 0xa81a664bbc423001, 0xc24b8b70d0f89791, 0xc76c51a30654be30,
       0xd192e819d6ef5218, 0xd69906245565a910, 0xf40e35855771202a, 0x106aa07032bbd1b8]
    else if r == 6 then
      [0x19a4c116b8d2d0c8, 0x1e376c085141ab53, 0x2748774cdf8eeb99, 0x34b0bcb5e19b48a8,
       0x391c0cb3c5c95a63, 0x4ed8aa4ae3418acb, 0x5b9cca4f7763e373, 0x682e6ff3d6b2b8a3]
    else if r == 7 then
      [0x748f82ee5defb2fc, 0x78a5636f43172f60, 0x84c87814a1f0ab72, 0x8cc702081a6439ec,
       0x90befffa23631e28, 0xa4506cebde82bde9, 0xbef9a3f7b2c67915, 0xc67178f2e372532b]
    else if r == 8 then
      [0xca273eceea26619c, 0xd186b8c721c0c207, 0xeada7dd6cde0eb1e, 0xf57d4f7fee6ed178,
       0x06f067aa72176fba, 0x0a637dc5a2c898a6, 0x113f9804bef90dae, 0x1b710b35131c471b]
    else
      [0x28db77f523047d84, 0x32caab7b40c72493, 0x3c9ebe0a15c9bebc, 0x431d67c49c100d4c,
       0x4cc5d4becb3e42b6, 0x597f299cfc657e2a, 0x5fcb6fab3ad6faec, 0x6c44198c4a475817]
  }

  function K(): (k: seq<word64>)
    ensures |k| == 80
  {
    seq(80, t requires 0 <= t < 80 => KRow(t / 8)[t % 8])
  }

  lemma CubeRoots0(c: nat)
    requires c < 8
    ensures IsCubeRootBits(PrimeRow(0)[c], KRow(0)[c] as nat, 0x1_0000_0000_0000_0000)
  {
  }

  lemma CubeRoots1(c: nat)
    requires c < 8
    ensures IsCubeRootBits(PrimeRow(1)[c], KRow(1)[c] as nat, 0x1_0000_0000_0000_0000)
  {
  }

  lemma CubeRoots2(c: nat)
    requires c < 8
    ensures IsCubeRootBits(PrimeRow(2)[c], KRow(2)[c] as nat, 0x1_0000_0000_0000_0000)
  {
  }

  lemma CubeRoots3(c: nat)
    requires c < 8
    ensures IsCubeRootBits(PrimeRow(3)[c], KRow(3)[c] as nat, 0x1_0000_0000_0000_0000)
  {
  }

  lemma CubeRoots4(c: nat)
    requires c < 8
    ensures IsCubeRootBits(PrimeRow(4)[c], KRow(4)[c] as nat, 0x1_0000_0000_0000_0000)
  {
  }

  lemma CubeRoots5(c: nat)
    requires c < 8
    ensures IsCubeRootBits(PrimeRow(5)[c], KRow(5)[c] as nat, 0x1_0000_0000_0000_0000)
  {
  }

  lemma CubeRoots6(c: nat)
    requires c < 8
    ensures IsCubeRootBits(PrimeRow(6)[c], KRow(6)[c] as nat, 0x1_0000_0000_0000_0000)
  {
  }

  lemma CubeRoots7(c: nat)
    requires c < 8
    ensures IsCubeRootBits(PrimeRow(7)[c], KRow(7)[c] as nat, 0x1_0000_0000_0000_0000)
  {
  }

  lemma CubeRoots8(c: nat)
    requires c < 8
    ensures IsCubeRootBits(PrimeRow(8)[c], KRow(8)[c] as nat, 0x1_0000_0000_0000_0000)
  {
  }

  lemma CubeRoots9(c: nat)
    requires c < 8
    ensures IsCubeRootBits(PrimeRow(9)[c], KRow(9)[c] as nat, 0x1_0000_0000_0000_0000)
  {
  }

  /** Section 4.2.3: the constants are the first 64 bits of the fractional parts of the cube roots of the primes. */
  lemma KIsCubeRoots(t: nat)
    requires t < 80
    ensures IsCubeRootBits(Prime(t), K()[t] as nat, 0x1_0000_0000_0000_0000)
  {
    hide IsCubeRootBits, PrimeRow, KRow;
    var c := t % 8;
    match t / 8
    case 0 => CubeRoots0(c);
    case 1 => CubeRoots1(c);
    case 2 => CubeRoots2(c);
    case 3 => CubeRoots3(c);
    case 4 => CubeRoots4(c);
    case 5 => CubeRoots5(c);
    case 6 => CubeRoots6(c);
    case 7 => CubeRoots7(c);
    case 8 => CubeRoots8(c);
    case _ => CubeRoots9(c);
  }

  function Sha(): Algorithm<word64> { Algorithm(Standard(), Add, K()) }

  /** The bits of y where those of x are set, and of z elsewhere; and the bits that most of the three have. */
  lemma ChoiceAndMajority(x: word64, y: word64, z: word64)
    ensures ChStandard(x, y, z) == (x & y) | (!x & z)
    ensures MajStandard(x, y, z) == (x & y) | (x & z) | (y & z)
  {
    assert (x & y) ^ (!x & z) == (x & y) | (!x & z);
    assert (x & y) ^ (x & z) ^ (y & z) == (x & y) | (x & z) | (y & z);
  }

  /** The others are sums of rotations and shifts. */
  lemma Rotations(x: word64)
    ensures Sum0Standard(x) == ((x >> 28) | (x << 36)) ^ ((x >> 34) | (x << 30)) ^ ((x >> 39) | (x << 25))
    ensures Sum1Standard(x) == ((x >> 14) | (x << 50)) ^ ((x >> 18) | (x << 46)) ^ ((x >> 41) | (x << 23))
    ensures Gamma0Standard(x) == ((x >> 1) | (x << 63)) ^ ((x >> 8) | (x << 56)) ^ (x >> 7)
    ensures Gamma1Standard(x) == ((x >> 19) | (x << 45)) ^ ((x >> 61) | (x << 3)) ^ (x >> 6)
  {
  }

  lemma ShaFunctions(x: word64, y: word64, z: word64)
    ensures Sha().f.ch(x, y, z) == ChStandard(x, y, z) && Sha().f.maj(x, y, z) == MajStandard(x, y, z)
    ensures Sha().f.sum0(x) == Sum0Standard(x) && Sha().f.sum1(x) == Sum1Standard(x)
    ensures Sha().f.gamma0(x) == Gamma0Standard(x) && Sha().f.gamma1(x) == Gamma1Standard(x)
    ensures Sha().add(x, y) == x + y && Sha().k == K()
  {
    hide K, ChStandard, MajStandard, Sum0Standard, Sum1Standard, Gamma0Standard, Gamma1Standard;
  }

  lemma AddCommutes()
    ensures Commutes(Sha())
  {
  }

  // ---- the hash

  const INITIAL: Vars<word64> := Vars(0x6a09e667f3bcc908, 0xbb67ae8584caa73b, 0x3c6ef372fe94f82b, 0xa54ff53a5f1d36f1,
    0x510e527fade682d1, 0x9b05688c2b3e6c1f, 0x1f83d9abfb41bd6b, 0x5be0cd19137e2179)

  /** The words of a block, most significant byte first. */
  function WordsOf(block: seq<byte>): (w: seq<word64>)
    requires |block| == 128
    ensures |w| == 16
  {
    seq(16, i requires 0 <= i < 16 => Word64(block[8 * i], block[8 * i + 1], block[8 * i + 2], block[8 * i + 3],
      block[8 * i + 4], block[8 * i + 5], block[8 * i + 6], block[8 * i + 7]))
  }

  function CompressBlock(v: Vars<word64>, block: seq<byte>): Vars<word64> {
    if |block| == 128 then Compress(Sha(), v, WordsOf(block)) else v
  }

  function Bytes(w: word64): (b: seq<byte>)
    ensures |b| == 8
  {
    [Byte7Of(w), Byte6Of(w), Byte5Of(w), Byte4Of(w), Byte3Of(w), Byte2Of(w), Byte1Of(w), Byte0Of(w)]
  }

  function Output(v: Vars<word64>): (b: seq<byte>)
    ensures |b| == 64
  {
    Bytes(v.a) + Bytes(v.b) + Bytes(v.c) + Bytes(v.d) + Bytes(v.e) + Bytes(v.f) + Bytes(v.g) + Bytes(v.h)
  }

  function Sha512(): Hash<Vars<word64>> { Hash(128, 112, 64, INITIAL, CompressBlock, Output) }

  lemma Sha512IsHash()
    ensures IsHash(Sha512())
    ensures Sha512().blockSize == 128 && Sha512().lengthAt == 112 && Sha512().hashSize == 64
  {
    hide CompressBlock, Output;
  }

  // ---- the words of the standard

  /** Section 5.3.5: the initial hash value is made of the square roots of the first eight primes. */
  lemma InitialIsSquareRoots()
    ensures var scale := 0x1_0000_0000_0000_0000;
            && IsSquareRootBits(2, INITIAL.a as nat, scale) && IsSquareRootBits(3, INITIAL.b as nat, scale)
            && IsSquareRootBits(5, INITIAL.c as nat, scale) && IsSquareRootBits(7, INITIAL.d as nat, scale)
            && IsSquareRootBits(11, INITIAL.e as nat, scale) && IsSquareRootBits(13, INITIAL.f as nat, scale)
            && IsSquareRootBits(17, INITIAL.g as nat, scale) && IsSquareRootBits(19, INITIAL.h as nat, scale)
  {
  }

  /** Section 5.2.2: the words of a block, and the words of the hash, each in order. */
  lemma WordsInOrder(block: seq<byte>, i: nat, v: Vars<word64>, j: nat)
    requires |block| == 128 && i < 16
    ensures WordsOf(block)[i] == Word64(block[8 * i], block[8 * i + 1], block[8 * i + 2], block[8 * i + 3],
                                    block[8 * i + 4], block[8 * i + 5], block[8 * i + 6], block[8 * i + 7])
    ensures j < 8 ==>
              var b := Output(v);
              && b[j] == Bytes(v.a)[j] && b[8 + j] == Bytes(v.b)[j] && b[16 + j] == Bytes(v.c)[j]
              && b[24 + j] == Bytes(v.d)[j] && b[32 + j] == Bytes(v.e)[j] && b[40 + j] == Bytes(v.f)[j]
              && b[48 + j] == Bytes(v.g)[j] && b[56 + j] == Bytes(v.h)[j]
  {
    hide Word64, Bytes;
  }

  /** Section 6: the compression of a block is any computation that follows the standard. */
  lemma CompressBlockIsRun(v: Vars<word64>, block: seq<byte>, w: seq<word64>, st: seq<Vars<word64>>)
    requires |block| == 128 && IsRun(Sha(), v, WordsOf(block), w, st)
    ensures var r, u := CompressBlock(v, block), st[80];
            && r.a == Add(u.a, v.a) && r.b == Add(u.b, v.b) && r.c == Add(u.c, v.c) && r.d == Add(u.d, v.d)
            && r.e == Add(u.e, v.e) && r.f == Add(u.f, v.f) && r.g == Add(u.g, v.g) && r.h == Add(u.h, v.h)
  {
    hide IsRun, Compress, WordsOf, K, Standard, Add;
    CompressIsRun(Sha(), v, WordsOf(block), w, st);
    RunIsWhole(Sha(), v, WordsOf(block), w, st);
  }

  // ---- the compressor

  method LoadBlock(block: array<byte>, at: nat, w: array<word64>)
    requires at + 128 <= block.Length && w.Length >= 16
    modifies w
    ensures w[..16] == WordsOf(block[at..at + 128])
  {
    var i := 0;
    while i < 16
      invariant i <= 16
      invariant forall j :: 0 <= j < i ==> w[j] == WordsOf(block[at..at + 128])[j]
    {
      w[i] := Word64(block[at + 8 * i], block[at + 8 * i + 1], block[at + 8 * i + 2], block[at + 8 * i + 3],
        block[at + 8 * i + 4], block[at + 8 * i + 5], block[at + 8 * i + 6], block[at + 8 * i + 7]);
      i := i + 1;
    }
  }

  /** s_sha512_compress. */
  method CompressAt(state: array<word64>, block: array<byte>, at: nat)
    requires state.Length == 8 && at + 128 <= block.Length
    modifies state
    ensures VarsOf(state[..]) == CompressBlock(VarsOf(old(state[..])), block[at..at + 128])
  {
    hide K, Compress, WordsOf, VarsOf, Rewritten, Standard;
    FunctionsAgree();
    AddCommutes();
    var w := new word64[80];
    LoadBlock(block, at, w);
    CompressInPlace(Sha(), Rewritten(), state, w);
  }
}
