/** Arithmetic in GF(2^8) modulo x^8 + x^4 + x^3 + x + 1, as section 4.2 of FIPS 197 defines it.

    Bit-vector operators are wrapped in named functions: a proof hides the ones whose bits it does not need and
    reasons with the algebraic laws below instead. */
module GaloisField {
  import opened Buffers

  function Xor(a: byte, b: byte): byte { a ^ b }

  /** Byte strings, byte by byte. */
  function XorBytes(a: seq<byte>, b: seq<byte>): (r: seq<byte>)
    requires |a| == |b|
    ensures |r| == |a|
  {
    seq(|a|, i requires 0 <= i < |a| => Xor(a[i], b[i]))
  }

  function XTime(a: byte): byte {
    (a << 1) ^ (if a & 0x80 != 0 then 0x1b else 0)
  }

  /** `a` when the coefficient `bit` is present, the zero polynomial otherwise. */
  function Term(bit: byte, a: byte): byte {
    if bit != 0 then a else 0
  }

  function Terms(a: byte, b: byte, c: byte, d: byte): byte {
    Xor(Xor(a, b), Xor(c, d))
  }

  /** The terms of `a * b` for the four coefficients of `b` selected by the masks, `a` being already shifted. */
  function NibbleMul(a: byte, b: byte, m0: byte, m1: byte, m2: byte, m3: byte): byte {
    Terms(Term(b & m0, a),
          Term(b & m1, XTime(a)),
          Term(b & m2, XTime(XTime(a))),
          Term(b & m3, XTime(XTime(XTime(a)))))
  }

  function XTime4(a: byte): byte {
    XTime(XTime(XTime(XTime(a))))
  }

  function Mul(a: byte, b: byte): byte {
    Xor(NibbleMul(a, b, 0x01, 0x02, 0x04, 0x08), NibbleMul(XTime4(a), b, 0x10, 0x20, 0x40, 0x80))
  }

  lemma XorSwap(a: byte, b: byte, c: byte, d: byte)
    ensures Xor(Xor(a, b), Xor(c, d)) == Xor(Xor(a, c), Xor(b, d))
  {
    assert Xor(a ^ b, c ^ d) == Xor(a ^ c, b ^ d);
  }

  lemma TermsXor(a: byte, b: byte, c: byte, d: byte, a': byte, b': byte, c': byte, d': byte)
    ensures Terms(Xor(a, a'), Xor(b, b'), Xor(c, c'), Xor(d, d')) == Xor(Terms(a, b, c, d), Terms(a', b', c', d'))
  {
    hide Xor;
    XorSwap(a, a', b, b');
    XorSwap(c, c', d, d');
    XorSwap(Xor(a, b), Xor(a', b'), Xor(c, d), Xor(c', d'));
  }

  lemma XTimeLinear(a: byte, b: byte)
    ensures XTime(Xor(a, b)) == Xor(XTime(a), XTime(b))
  {
    if (a & 0x80 != 0) == (b & 0x80 != 0) {
      assert (a ^ b) & 0x80 == 0;
    } else {
      assert (a ^ b) & 0x80 != 0;
    }
  }

  lemma TermLinear(bit: byte, a: byte, b: byte)
    ensures Term(bit, Xor(a, b)) == Xor(Term(bit, a), Term(bit, b))
  {
  }

  lemma TermDistributes(m: byte, j: byte, k: byte, a: byte)
    requires m in {0x01, 0x02, 0x04, 0x08, 0x10, 0x20, 0x40, 0x80}
    ensures Term(Xor(j, k) & m, a) == Xor(Term(j & m, a), Term(k & m, a))
  {
    if (j & m != 0) == (k & m != 0) {
      assert (j ^ k) & m == 0;
    } else {
      assert (j ^ k) & m != 0;
    }
  }

  lemma NibbleMulLinear(a: byte, b: byte, k: byte, m0: byte, m1: byte, m2: byte, m3: byte)
    ensures NibbleMul(Xor(a, b), k, m0, m1, m2, m3)
         == Xor(NibbleMul(a, k, m0, m1, m2, m3), NibbleMul(b, k, m0, m1, m2, m3))
  {
    hide Xor, XTime, Term, Terms;
    var a1, b1 := XTime(a), XTime(b);
    var a2, b2 := XTime(a1), XTime(b1);
    XTimeLinear(a, b);
    XTimeLinear(a1, b1);
    XTimeLinear(a2, b2);
    TermLinear(k & m0, a, b);
    TermLinear(k & m1, a1, b1);
    TermLinear(k & m2, a2, b2);
    TermLinear(k & m3, XTime(a2), XTime(b2));
    TermsXor(Term(k & m0, a), Term(k & m1, a1), Term(k & m2, a2), Term(k & m3, XTime(a2)),
             Term(k & m0, b), Term(k & m1, b1), Term(k & m2, b2), Term(k & m3, XTime(b2)));
  }

  lemma XTime4Linear(a: byte, b: byte)
    ensures XTime4(Xor(a, b)) == Xor(XTime4(a), XTime4(b))
  {
    hide Xor, XTime;
    XTimeLinear(a, b);
    XTimeLinear(XTime(a), XTime(b));
    XTimeLinear(XTime(XTime(a)), XTime(XTime(b)));
    XTimeLinear(XTime(XTime(XTime(a))), XTime(XTime(XTime(b))));
  }

  /** Multiplication distributes over addition on the left ... */
  lemma MulLinear(a: byte, b: byte, k: byte)
    ensures Mul(Xor(a, b), k) == Xor(Mul(a, k), Mul(b, k))
  {
    hide Xor, XTime4, NibbleMul;
    XTime4Linear(a, b);
    NibbleMulLinear(a, b, k, 0x01, 0x02, 0x04, 0x08);
    NibbleMulLinear(XTime4(a), XTime4(b), k, 0x10, 0x20, 0x40, 0x80);
    XorSwap(NibbleMul(a, k, 0x01, 0x02, 0x04, 0x08), NibbleMul(b, k, 0x01, 0x02, 0x04, 0x08),
            NibbleMul(XTime4(a), k, 0x10, 0x20, 0x40, 0x80), NibbleMul(XTime4(b), k, 0x10, 0x20, 0x40, 0x80));
  }

  lemma NibbleMulDistributes(a: byte, j: byte, k: byte, m0: byte, m1: byte, m2: byte, m3: byte)
    requires {m0, m1, m2, m3} <= {0x01, 0x02, 0x04, 0x08, 0x10, 0x20, 0x40, 0x80}
    ensures NibbleMul(a, Xor(j, k), m0, m1, m2, m3)
         == Xor(NibbleMul(a, j, m0, m1, m2, m3), NibbleMul(a, k, m0, m1, m2, m3))
  {
    hide Xor, XTime, Term, Terms;
    var a1 := XTime(a);
    var a2 := XTime(a1);
    var a3 := XTime(a2);
    assert m0 in {m0, m1, m2, m3} && m1 in {m0, m1, m2, m3} && m2 in {m0, m1, m2, m3} && m3 in {m0, m1, m2, m3};
    TermDistributes(m0, j, k, a);
    TermDistributes(m1, j, k, a1);
    TermDistributes(m2, j, k, a2);
    TermDistributes(m3, j, k, a3);
    TermsXor(Term(j & m0, a), Term(j & m1, a1), Term(j & m2, a2), Term(j & m3, a3),
             Term(k & m0, a), Term(k & m1, a1), Term(k & m2, a2), Term(k & m3, a3));
  }

  /** ... and on the right. */
  lemma MulDistributes(a: byte, j: byte, k: byte)
    ensures Mul(a, Xor(j, k)) == Xor(Mul(a, j), Mul(a, k))
  {
    hide Xor, XTime4, NibbleMul;
    NibbleMulDistributes(a, j, k, 0x01, 0x02, 0x04, 0x08);
    NibbleMulDistributes(XTime4(a), j, k, 0x10, 0x20, 0x40, 0x80);
    XorSwap(NibbleMul(a, j, 0x01, 0x02, 0x04, 0x08), NibbleMul(a, k, 0x01, 0x02, 0x04, 0x08),
            NibbleMul(XTime4(a), j, 0x10, 0x20, 0x40, 0x80), NibbleMul(XTime4(a), k, 0x10, 0x20, 0x40, 0x80));
  }

  lemma XorZero(a: byte)
    ensures Xor(a, 0) == a && Xor(0, a) == a
  {
  }

  lemma XorAssociative(a: byte, b: byte, c: byte, d: byte)
    ensures Xor(Xor(a, b), Xor(c, d)) == Xor(Xor(a, Xor(b, c)), d)
  {
    assert Xor(a ^ b, c ^ d) == Xor(a ^ (b ^ c), d);
    assert Xor(a, b ^ c) == a ^ (b ^ c);
  }

  lemma MulByNibble(a: byte, k: byte)
    requires k & 0x10 == 0 && k & 0x20 == 0 && k & 0x40 == 0 && k & 0x80 == 0
    ensures Mul(a, k) == NibbleMul(a, k, 0x01, 0x02, 0x04, 0x08)
  {
    hide XTime, Xor;
    XorZero(0);
    XorZero(NibbleMul(a, k, 0x01, 0x02, 0x04, 0x08));
  }

  lemma SmallMultiples(a: byte)
    ensures Mul(a, 0) == 0 && Mul(a, 1) == a && Mul(a, 2) == XTime(a) && Mul(a, 3) == Xor(a, XTime(a))
  {
    hide XTime, Xor, Mul;
    MulByNibble(a, 0);
    MulByNibble(a, 1);
    MulByNibble(a, 2);
    MulByNibble(a, 3);
    XorZero(0);
    XorZero(a);
    XorZero(XTime(a));
    XorZero(Xor(a, XTime(a)));
  }

  lemma TermXTime(bit: byte, a: byte)
    ensures Term(bit, XTime(a)) == XTime(Term(bit, a))
  {
  }

  /** `(x * a) * k == x * (a * k)`. */
  lemma MulXTime(a: byte, k: byte)
    requires k & 0x10 == 0 && k & 0x20 == 0 && k & 0x40 == 0 && k & 0x80 == 0
    ensures Mul(XTime(a), k) == XTime(Mul(a, k))
  {
    MulByNibble(a, k);
    MulByNibble(XTime(a), k);
    hide Xor, XTime, Term, Mul;
    var a1 := XTime(a);
    var a2 := XTime(a1);
    var a3 := XTime(a2);
    TermXTime(k & 0x01, a);
    TermXTime(k & 0x02, a1);
    TermXTime(k & 0x04, a2);
    TermXTime(k & 0x08, a3);
    var p, q, r, s := Term(k & 0x01, a), Term(k & 0x02, a1), Term(k & 0x04, a2), Term(k & 0x08, a3);
    XTimeLinear(p, q);
    XTimeLinear(r, s);
    XTimeLinear(Xor(p, q), Xor(r, s));
  }

  lemma TermShift(k: byte, m: byte, a: byte)
    requires m in {0x01, 0x02, 0x04, 0x08}
    ensures Term((k << 1) & (m << 1), a) == Term(k & m, a)
  {
  }

  /** `(x * a) * k == a * (x * k)` when the degree of `k` is at most 3. */
  lemma MulDouble(a: byte, k: byte)
    requires k & 0x10 == 0 && k & 0x20 == 0 && k & 0x40 == 0 && k & 0x80 == 0
    ensures Mul(XTime(a), k) == Mul(a, k << 1)
  {
    MulByNibble(XTime(a), k);
    var a1 := XTime(a);
    var a2 := XTime(a1);
    var a3 := XTime(a2);
    var a4 := XTime(a3);
    TermShift(k, 0x01, a1);
    TermShift(k, 0x02, a2);
    TermShift(k, 0x04, a3);
    TermShift(k, 0x08, a4);
    assert Term((k << 1) & 0x01, a) == 0;
    assert Term((k << 1) & 0x20, XTime(a4)) == 0;
    assert Term((k << 1) & 0x40, XTime(XTime(a4))) == 0;
    assert Term((k << 1) & 0x80, XTime(XTime(XTime(a4)))) == 0;
    hide XTime, Xor, Term;
    var p, q, r, s := Term(k & 0x01, a1), Term(k & 0x02, a2), Term(k & 0x04, a3), Term(k & 0x08, a4);
    XorZero(0);
    XorZero(p);
    XorZero(s);
    XorAssociative(p, q, r, s);
  }

  lemma MulTerms(a: byte, j: byte, k: byte, l: byte, m: byte)
    ensures Terms(Mul(a, j), Mul(a, k), Mul(a, l), Mul(a, m)) == Mul(a, Terms(j, k, l, m))
  {
    hide Xor, Mul;
    MulDistributes(a, j, k);
    MulDistributes(a, l, m);
    MulDistributes(a, Xor(j, k), Xor(l, m));
  }

  /** Products with an entry `k` of the InvMixColumns matrix and an entry 2 or 3 of the MixColumns matrix. */
  lemma MulTower(a: byte, k: byte)
    requires k in {9, 11, 13, 14}
    ensures Mul(Mul(a, 2), k) == Mul(Mul(a, k), 2) == Mul(a, k << 1)
    ensures Mul(Mul(a, 3), k) == Mul(Mul(a, k), 3) == Mul(a, Xor(k, k << 1))
  {
    MulDouble(a, k);
    MulXTime(a, k);
    hide XTime, Xor, Mul;
    SmallMultiples(a);
    SmallMultiples(Mul(a, k));
    MulLinear(a, XTime(a), k);
    MulDistributes(a, k, k << 1);
  }

  /** The product of the two matrices is the identity, in either order: its first row is 1, 0, 0, 0. */
  lemma InverseTimesMix(a: byte)
    ensures Terms(Mul(Mul(a, 2), 14), Mul(a, 11), Mul(a, 13), Mul(Mul(a, 3), 9)) == a
    ensures Terms(Mul(Mul(a, 3), 14), Mul(Mul(a, 2), 11), Mul(a, 13), Mul(a, 9)) == 0
    ensures Terms(Mul(a, 14), Mul(Mul(a, 3), 11), Mul(Mul(a, 2), 13), Mul(a, 9)) == 0
    ensures Terms(Mul(a, 14), Mul(a, 11), Mul(Mul(a, 3), 13), Mul(Mul(a, 2), 9)) == 0
  {
    MulTower(a, 9);
    MulTower(a, 11);
    MulTower(a, 13);
    MulTower(a, 14);
    hide Mul;
    SmallMultiples(a);
    MulTerms(a, 28, 11, 13, 27);
    MulTerms(a, 18, 22, 13, 9);
    MulTerms(a, 14, 29, 26, 9);
    MulTerms(a, 14, 11, 23, 18);
  }

  lemma MixTimesInverse(a: byte)
    ensures Terms(Mul(Mul(a, 14), 2), Mul(Mul(a, 9), 3), Mul(a, 13), Mul(a, 11)) == a
    ensures Terms(Mul(Mul(a, 11), 2), Mul(Mul(a, 14), 3), Mul(a, 9), Mul(a, 13)) == 0
    ensures Terms(Mul(Mul(a, 13), 2), Mul(Mul(a, 11), 3), Mul(a, 14), Mul(a, 9)) == 0
    ensures Terms(Mul(Mul(a, 9), 2), Mul(Mul(a, 13), 3), Mul(a, 11), Mul(a, 14)) == 0
  {
    MulTower(a, 9);
    MulTower(a, 11);
    MulTower(a, 13);
    MulTower(a, 14);
    hide Mul;
    SmallMultiples(a);
    MulTerms(a, 28, 27, 13, 11);
    MulTerms(a, 22, 18, 9, 13);
    MulTerms(a, 26, 29, 14, 9);
    MulTerms(a, 18, 23, 11, 14);
  }
}
