/** The S-box of FIPS 197 and its inverse, entry by entry as the literals of the AES tables give them. Each table is
    a tree of selections on the bits of the index, so that the verifier can read an entry without a search. */
module SBoxTables {
  import opened Buffers
  import opened GaloisField

  /** One byte of a Te4 entry. */
  function SBox(x: byte): byte {
    var b7, b6, b5, b4 := x & 0x80 != 0, x & 0x40 != 0, x & 0x20 != 0, x & 0x10 != 0;
    var b3, b2, b1, b0 := x & 0x08 != 0, x & 0x04 != 0, x & 0x02 != 0, x & 0x01 != 0;
    if b7 then
      if b6 then
        if b5 then
          if b4 then
            if b3 then
              if b2 then (if b1 then (if b0 then 0x16 else 0xbb) else if b0 then 0x54 else 0xb0)
              else if b1 then (if b0 then 0x0f else 0x2d) else if b0 then 0x99 else 0x41
            else
              if b2 then (if b1 then (if b0 then 0x68 else 0x42) else if b0 then 0xe6 else 0xbf)
              else if b1 then (if b0 then 0x0d else 0x89) else if b0 then 0xa1 else 0x8c
          else
            if b3 then
              if b2 then (if b1 then (if b0 then 0xdf else 0x28) else if b0 then 0x55 else 0xce)
              else if b1 then (if b0 then 0xe9 else 0x87) else if b0 then 0x1e else 0x9b
            else
              if b2 then (if b1 then (if b0 then 0x94 else 0x8e) else if b0 then 0xd9 else 0x69)
              else if b1 then (if b0 then 0x11 else 0x98) else if b0 then 0xf8 else 0xe1
        else
          if b4 then
            if b3 then
              if b2 then (if b1 then (if b0 then 0x9e else 0x1d) else if b0 then 0xc1 else 0x86)
              else if b1 then (if b0 then 0xb9 else 0x57) else if b0 then 0x35 else 0x61
            else
              if b2 then (if b1 then (if b0 then 0x0e else 0xf6) else if b0 then 0x03 else 0x48)
              else if b1 then (if b0 then 0x66 else 0xb5) else if b0 then 0x3e else 0x70
          else
            if b3 then
              if b2 then (if b1 then (if b0 then 0x8a else 0x8b) else if b0 then 0xbd else 0x4b)
              else if b1 then (if b0 then 0x1f else 0x74) else if b0 then 0xdd else 0xe8
            else
              if b2 then (if b1 then (if b0 then 0xc6 else 0xb4) else if b0 then 0xa6 else 0x1c)
              else if b1 then (if b0 then 0x2e else 0x25) else if b0 then 0x78 else 0xba
      else
        if b5 then
          if b4 then
            if b3 then
              if b2 then (if b1 then (if b0 then 0x08 else 0xae) else if b0 then 0x7a else 0x65)
              else if b1 then (if b0 then 0xea else 0xf4) else if b0 then 0x56 else 0x6c
            else
              if b2 then (if b1 then (if b0 then 0xa9 else 0x4e) else if b0 then 0xd5 else 0x8d)
              else if b1 then (if b0 then 0x6d else 0x37) else if b0 then 0xc8 else 0xe7
          else
            if b3 then
              if b2 then (if b1 then (if b0 then 0x79 else 0xe4) else if b0 then 0x95 else 0x91)
              else if b1 then (if b0 then 0x62 else 0xac) else if b0 then 0xd3 else 0xc2
            else
              if b2 then (if b1 then (if b0 then 0x5c else 0x24) else if b0 then 0x06 else 0x49)
              else if b1 then (if b0 then 0x0a else 0x3a) else if b0 then 0x32 else 0xe0
        else
          if b4 then
            if b3 then
              if b2 then (if b1 then (if b0 then 0xdb else 0x0b) else if b0 then 0x5e else 0xde)
              else if b1 then (if b0 then 0x14 else 0xb8) else if b0 then 0xee else 0x46
            else
              if b2 then (if b1 then (if b0 then 0x88 else 0x90) else if b0 then 0x2a else 0x22)
              else if b1 then (if b0 then 0xdc else 0x4f) else if b0 then 0x81 else 0x60
          else
            if b3 then
              if b2 then (if b1 then (if b0 then 0x73 else 0x19) else if b0 then 0x5d else 0x64)
              else if b1 then (if b0 then 0x3d else 0x7e) else if b0 then 0xa7 else 0xc4
            else
              if b2 then (if b1 then (if b0 then 0x17 else 0x44) else if b0 then 0x97 else 0x5f)
              else if b1 then (if b0 then 0xec else 0x13) else if b0 then 0x0c else 0xcd
    else
      if b6 then
        if b5 then
          if b4 then
            if b3 then
              if b2 then (if b1 then (if b0 then 0xd2 else 0xf3) else if b0 then 0xff else 0x10)
              else if b1 then (if b0 then 0x21 else 0xda) else if b0 then 0xb6 else 0xbc
            else
              if b2 then (if b1 then (if b0 then 0xf5 else 0x38) else if b0 then 0x9d else 0x92)
              else if b1 then (if b0 then 0x8f else 0x40) else if b0 then 0xa3 else 0x51
          else
            if b3 then
              if b2 then (if b1 then (if b0 then 0xa8 else 0x9f) else if b0 then 0x3c else 0x50)
              else if b1 then (if b0 then 0x7f else 0x02) else if b0 then 0xf9 else 0x45
            else
              if b2 then (if b1 then (if b0 then 0x85 else 0x33) else if b0 then 0x4d else 0x43)
              else if b1 then (if b0 then 0xfb else 0xaa) else if b0 then 0xef else 0xd0
        else
          if b4 then
            if b3 then
              if b2 then (if b1 then (if b0 then 0xcf else 0x58) else if b0 then 0x4c else 0x4a)
              else if b1 then (if b0 then 0x39 else 0xbe) else if b0 then 0xcb else 0x6a
            else
              if b2 then (if b1 then (if b0 then 0x5b else 0xb1) else if b0 then 0xfc else 0x20)
              else if b1 then (if b0 then 0xed else 0x00) else if b0 then 0xd1 else 0x53
          else
            if b3 then
              if b2 then (if b1 then (if b0 then 0x84 else 0x2f) else if b0 then 0xe3 else 0x29)
              else if b1 then (if b0 then 0xb3 else 0xd6) else if b0 then 0x3b else 0x52
            else
              if b2 then (if b1 then (if b0 then 0xa0 else 0x5a) else if b0 then 0x6e else 0x1b)
              else if b1 then (if b0 then 0x1a else 0x2c) else if b0 then 0x83 else 0x09
      else
        if b5 then
          if b4 then
            if b3 then
              if b2 then (if b1 then (if b0 then 0x75 else 0xb2) else if b0 then 0x27 else 0xeb)
              else if b1 then (if b0 then 0xe2 else 0x80) else if b0 then 0x12 else 0x07
            else
              if b2 then (if b1 then (if b0 then 0x9a else 0x05) else if b0 then 0x96 else 0x18)
              else if b1 then (if b0 then 0xc3 else 0x23) else if b0 then 0xc7 else 0x04
          else
            if b3 then
              if b2 then (if b1 then (if b0 then 0x15 else 0x31) else if b0 then 0xd8 else 0x71)
              else if b1 then (if b0 then 0xf1 else 0xe5) else if b0 then 0xa5 else 0x34
            else
              if b2 then (if b1 then (if b0 then 0xcc else 0xf7) else if b0 then 0x3f else 0x36)
              else if b1 then (if b0 then 0x26 else 0x93) else if b0 then 0xfd else 0xb7
        else
          if b4 then
            if b3 then
              if b2 then (if b1 then (if b0 then 0xc0 else 0x72) else if b0 then 0xa4 else 0x9c)
              else if b1 then (if b0 then 0xaf else 0xa2) else if b0 then 0xd4 else 0xad
            else
              if b2 then (if b1 then (if b0 then 0xf0 else 0x47) else if b0 then 0x59 else 0xfa)
              else if b1 then (if b0 then 0x7d else 0xc9) else if b0 then 0x82 else 0xca
          else
            if b3 then
              if b2 then (if b1 then (if b0 then 0x76 else 0xab) else if b0 then 0xd7 else 0xfe)
              else if b1 then (if b0 then 0x2b else 0x67) else if b0 then 0x01 else 0x30
            else
              if b2 then (if b1 then (if b0 then 0xc5 else 0x6f) else if b0 then 0x6b else 0xf2)
              else if b1 then (if b0 then 0x7b else 0x77) else if b0 then 0x7c else 0x63
  }

  /** One byte of a Td4 entry. */
  function InvSBox(x: byte): byte {
    var b7, b6, b5, b4 := x & 0x80 != 0, x & 0x40 != 0, x & 0x20 != 0, x & 0x10 != 0;
    var b3, b2, b1, b0 := x & 0x08 != 0, x & 0x04 != 0, x & 0x02 != 0, x & 0x01 != 0;
    if b7 then
      if b6 then
        if b5 then
          if b4 then
            if b3 then
              if b2 then (if b1 then (if b0 then 0x7d else 0x0c) else if b0 then 0x21 else 0x55)
              else if b1 then (if b0 then 0x63 else 0x14) else if b0 then 0x69 else 0xe1
            else
              if b2 then (if b1 then (if b0 then 0x26 else 0xd6) else if b0 then 0x77 else 0xba)
              else if b1 then (if b0 then 0x7e else 0x04) else if b0 then 0x2b else 0x17
          else
            if b3 then
              if b2 then (if b1 then (if b0 then 0x61 else 0x99) else if b0 then 0x53 else 0x83)
              else if b1 then (if b0 then 0x3c else 0xbb) else if b0 then 0xeb else 0xc8
            else
              if b2 then (if b1 then (if b0 then 0xb0 else 0xf5) else if b0 then 0x2a else 0xae)
              else if b1 then (if b0 then 0x4d else 0x3b) else if b0 then 0xe0 else 0xa0
        else
          if b4 then
            if b3 then
              if b2 then (if b1 then (if b0 then 0xef else 0x9c) else if b0 then 0xc9 else 0x93)
              else if b1 then (if b0 then 0x9f else 0x7a) else if b0 then 0xe5 else 0x2d
            else
              if b2 then (if b1 then (if b0 then 0x0d else 0x4a) else if b0 then 0xb5 else 0x19)
              else if b1 then (if b0 then 0xa9 else 0x7f) else if b0 then 0x51 else 0x60
          else
            if b3 then
              if b2 then (if b1 then (if b0 then 0x5f else 0xec) else if b0 then 0x80 else 0x27)
              else if b1 then (if b0 then 0x59 else 0x10) else if b0 then 0x12 else 0xb1
            else
              if b2 then (if b1 then (if b0 then 0x31 else 0xc7) else if b0 then 0x07 else 0x88)
              else if b1 then (if b0 then 0x33 else 0xa8) else if b0 then 0xdd else 0x1f
      else
        if b5 then
          if b4 then
            if b3 then
              if b2 then (if b1 then (if b0 then 0xf4 else 0x5a) else if b0 then 0xcd else 0x78)
              else if b1 then (if b0 then 0xfe else 0xc0) else if b0 then 0xdb else 0x9a
            else
              if b2 then (if b1 then (if b0 then 0x20 else 0x79) else if b0 then 0xd2 else 0xc6)
              else if b1 then (if b0 then 0x4b else 0x3e) else if b0 then 0x56 else 0xfc
          else
            if b3 then
              if b2 then (if b1 then (if b0 then 0x1b else 0xbe) else if b0 then 0x18 else 0xaa)
              else if b1 then (if b0 then 0x0e else 0x62) else if b0 then 0xb7 else 0x6f
            else
              if b2 then (if b1 then (if b0 then 0x89 else 0xc5) else if b0 then 0x29 else 0x1d)
              else if b1 then (if b0 then 0x71 else 0x1a) else if b0 then 0xf1 else 0x47
        else
          if b4 then
            if b3 then
              if b2 then (if b1 then (if b0 then 0x6e else 0xdf) else if b0 then 0x75 else 0x1c)
              else if b1 then (if b0 then 0xe8 else 0x37) else if b0 then 0xf9 else 0xe2
            else
              if b2 then (if b1 then (if b0 then 0x85 else 0x35) else if b0 then 0xad else 0xe7)
              else if b1 then (if b0 then 0x22 else 0x74) else if b0 then 0xac else 0x96
          else
            if b3 then
              if b2 then (if b1 then (if b0 then 0x73 else 0xe6) else if b0 then 0xb4 else 0xf0)
              else if b1 then (if b0 then 0xce else 0xcf) else if b0 then 0xf2 else 0x97
            else
              if b2 then (if b1 then (if b0 then 0xea else 0xdc) else if b0 then 0x67 else 0x4f)
              else if b1 then (if b0 then 0x41 else 0x11) else if b0 then 0x91 else 0x3a
    else
      if b6 then
        if b5 then
          if b4 then
            if b3 then
              if b2 then (if b1 then (if b0 then 0x6b else 0x8a) else if b0 then 0x13 else 0x01)
              else if b1 then (if b0 then 0x03 else 0xbd) else if b0 then 0xaf else 0xc1
            else
              if b2 then (if b1 then (if b0 then 0x02 else 0x0f) else if b0 then 0x3f else 0xca)
              else if b1 then (if b0 then 0x8f else 0x1e) else if b0 then 0x2c else 0xd0
          else
            if b3 then
              if b2 then (if b1 then (if b0 then 0x06 else 0x45) else if b0 then 0xb3 else 0xb8)
              else if b1 then (if b0 then 0x05 else 0x58) else if b0 then 0xe4 else 0xf7
            else
              if b2 then (if b1 then (if b0 then 0x0a else 0xd3) else if b0 then 0xbc else 0x8c)
              else if b1 then (if b0 then 0x00 else 0xab) else if b0 then 0xd8 else 0x90
        else
          if b4 then
            if b3 then
              if b2 then (if b1 then (if b0 then 0x84 else 0x9d) else if b0 then 0x8d else 0xa7)
              else if b1 then (if b0 then 0x57 else 0x46) else if b0 then 0x15 else 0x5e
            else
              if b2 then (if b1 then (if b0 then 0xda else 0xb9) else if b0 then 0xed else 0xfd)
              else if b1 then (if b0 then 0x50 else 0x48) else if b0 then 0x70 else 0x6c
          else
            if b3 then
              if b2 then (if b1 then (if b0 then 0x92 else 0xb6) else if b0 then 0x65 else 0x5d)
              else if b1 then (if b0 then 0xcc else 0x5c) else if b0 then 0xa4 else 0xd4
            else
              if b2 then (if b1 then (if b0 then 0x16 else 0x98) else if b0 then 0x68 else 0x86)
              else if b1 then (if b0 then 0x64 else 0xf6) else if b0 then 0xf8 else 0x72
      else
        if b5 then
          if b4 then
            if b3 then
              if b2 then (if b1 then (if b0 then 0x25 else 0xd1) else if b0 then 0x8b else 0x6d)
              else if b1 then (if b0 then 0x49 else 0xa2) else if b0 then 0x5b else 0x76
            else
              if b2 then (if b1 then (if b0 then 0xb2 else 0x24) else if b0 then 0xd9 else 0x28)
              else if b1 then (if b0 then 0x66 else 0xa1) else if b0 then 0x2e else 0x08
          else
            if b3 then
              if b2 then (if b1 then (if b0 then 0x4e else 0xc3) else if b0 then 0xfa else 0x42)
              else if b1 then (if b0 then 0x0b else 0x95) else if b0 then 0x4c else 0xee
            else
              if b2 then (if b1 then (if b0 then 0x3d else 0x23) else if b0 then 0xc2 else 0xa6)
              else if b1 then (if b0 then 0x32 else 0x94) else if b0 then 0x7b else 0x54
        else
          if b4 then
            if b3 then
              if b2 then (if b1 then (if b0 then 0xcb else 0xe9) else if b0 then 0xde else 0xc4)
              else if b1 then (if b0 then 0x44 else 0x43) else if b0 then 0x8e else 0x34
            else
              if b2 then (if b1 then (if b0 then 0x87 else 0xff) else if b0 then 0x2f else 0x9b)
              else if b1 then (if b0 then 0x82 else 0x39) else if b0 then 0xe3 else 0x7c
          else
            if b3 then
              if b2 then (if b1 then (if b0 then 0xfb else 0xd7) else if b0 then 0xf3 else 0x81)
              else if b1 then (if b0 then 0x9e else 0xa3) else if b0 then 0x40 else 0xbf
            else
              if b2 then (if b1 then (if b0 then 0x38 else 0xa5) else if b0 then 0x36 else 0x30)
              else if b1 then (if b0 then 0xd5 else 0x6a) else if b0 then 0x09 else 0x52
  }

  lemma InvSBoxOfSBox(x: byte)
    ensures InvSBox(SBox(x)) == x
  {
  }

  lemma SBoxOfInvSBox(x: byte)
    ensures SBox(InvSBox(x)) == x
  {
  }

  /** The affine transformation of section 5.1.1 of FIPS 197. */
  function Affine(b: byte): byte {
    b ^ b.RotateLeft(4) ^ b.RotateLeft(3) ^ b.RotateLeft(2) ^ b.RotateLeft(1) ^ 0x63
  }

  function AffineInverse(b: byte): byte {
    b.RotateLeft(6) ^ b.RotateLeft(3) ^ b.RotateLeft(1) ^ 0x05
  }

  lemma AffineOfInverse(b: byte)
    ensures Affine(AffineInverse(b)) == b
  {
  }

  lemma SBoxInvertsHigh(x: byte)
    requires x & 0x80 != 0
    ensures Mul(x, AffineInverse(SBox(x))) == 1
  {
  }

  lemma SBoxInvertsMiddle(x: byte)
    requires x & 0x80 == 0 && x & 0x40 != 0
    ensures Mul(x, AffineInverse(SBox(x))) == 1
  {
  }

  lemma SBoxInvertsLow(x: byte)
    requires x & 0x80 == 0 && x & 0x40 == 0 && x & 0x20 != 0
    ensures Mul(x, AffineInverse(SBox(x))) == 1
  {
  }

  lemma SBoxInvertsLowest(x: byte)
    requires x & 0x80 == 0 && x & 0x40 == 0 && x & 0x20 == 0 && x != 0
    ensures Mul(x, AffineInverse(SBox(x))) == 1
  {
  }

  /** The literals are the S-box of the standard: the inverse in GF(2^8), zero standing for itself, made affine. */
  lemma SBoxIsStandard(x: byte)
    ensures x == 0 ==> SBox(x) == Affine(0)
    ensures x != 0 ==> exists inverse :: Mul(x, inverse) == 1 && SBox(x) == Affine(inverse)
  {
    if x == 0 {
    } else {
      if x & 0x80 != 0 {
        SBoxInvertsHigh(x);
      } else if x & 0x40 != 0 {
        SBoxInvertsMiddle(x);
      } else if x & 0x20 != 0 {
        SBoxInvertsLow(x);
      } else {
        SBoxInvertsLowest(x);
      }
      AffineOfInverse(SBox(x));
    }
  }
}
