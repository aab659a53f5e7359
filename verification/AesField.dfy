/** The bytes of AES: the field GF(2^8) and the S-box (sections 4.2 and 5.1.1 of FIPS 197). */
module AesField {
  /** Addition in the field. */
  function Add(x: bv8, y: bv8): bv8 {
    x ^ y
  }

  /** Multiplication by x: a carry out of the top bit comes back as the low part of x^8. */
  function XTime(x: bv8): bv8 {
    var carry := x >> 7;
    (x << 1) ^ carry ^ (carry << 1) ^ (carry << 3) ^ (carry << 4)
  }

  /** x times the polynomial that the low four bits of c stand for. */
  function Times(x: bv8, c: bv8): bv8 {
    var x2 := XTime(x);
    var x4 := XTime(x2);
    var x8 := XTime(x4);
    (if c & 1 != 0 then x else 0) ^ (if c & 2 != 0 then x2 else 0)
    ^ (if c & 4 != 0 then x4 else 0) ^ (if c & 8 != 0 then x8 else 0)
  }

  /** Multiplication in GF(2^8). */
  function Mul(x: bv8, y: bv8): bv8 {
    Times(x, y) ^ Times(XTime(XTime(XTime(XTime(x)))), y >> 4)
  }

  // The products of MixColumns and its inverse.

  function By2(x: bv8): bv8 { XTime(x) }
  function By3(x: bv8): bv8 { Add(XTime(x), x) }
  function By4(x: bv8): bv8 { XTime(XTime(x)) }
  function By8(x: bv8): bv8 { XTime(XTime(XTime(x))) }
  function By9(x: bv8): bv8 { Add(By8(x), x) }
  function ByB(x: bv8): bv8 { Add(By8(x), By3(x)) }
  function ByD(x: bv8): bv8 { Add(Add(By8(x), By4(x)), x) }
  function ByE(x: bv8): bv8 { Add(Add(By8(x), By4(x)), By2(x)) }

  function Rot(x: bv8, k: bv8): bv8
    requires 0 < k < 8
  {
    (x << k) | (x >> (8 - k))
  }

  /** The affine transformation of the S-box. */
  function Affine(x: bv8): bv8 {
    x ^ Rot(x, 1) ^ Rot(x, 2) ^ Rot(x, 3) ^ Rot(x, 4) ^ 0x63
  }

  function InvAffine(x: bv8): bv8 {
    Rot(x, 1) ^ Rot(x, 3) ^ Rot(x, 6) ^ 0x05
  }

  /** The sixteen entries of Te4 beginning at x with its low four bits cleared. */
  function SRow(x: bv8): bv128 {
    if x & 0x80 == 0 then
      if x & 0x40 == 0 then
        if x & 0x20 == 0 then
          if x & 0x10 == 0 then
            0x637c777bf26b6fc53001672bfed7ab76
          else
            0xca82c97dfa5947f0add4a2af9ca472c0
        else
          if x & 0x10 == 0 then
            0xb7fd9326363ff7cc34a5e5f171d83115
          else
            0x04c723c31896059a071280e2eb27b275
      else
        if x & 0x20 == 0 then
          if x & 0x10 == 0 then
            0x09832c1a1b6e5aa0523bd6b329e32f84
          else
            0x53d100ed20fcb15b6acbbe394a4c58cf
        else
          if x & 0x10 == 0 then
            0xd0efaafb434d338545f9027f503c9fa8
          else
            0x51a3408f929d38f5bcb6da2110fff3d2
    else
      if x & 0x40 == 0 then
        if x & 0x20 == 0 then
          if x & 0x10 == 0 then
            0xcd0c13ec5f974417c4a77e3d645d1973
          else
            0x60814fdc222a908846eeb814de5e0bdb
        else
          if x & 0x10 == 0 then
            0xe0323a0a4906245cc2d3ac629195e479
          else
            0xe7c8376d8dd54ea96c56f4ea657aae08
      else
        if x & 0x20 == 0 then
          if x & 0x10 == 0 then
            0xba78252e1ca6b4c6e8dd741f4bbd8b8a
          else
            0x703eb5664803f60e613557b986c11d9e
        else
          if x & 0x10 == 0 then
            0xe1f8981169d98e949b1e87e9ce5528df
          else
            0x8ca1890dbfe6426841992d0fb054bb16
  }

  /** One byte of Te4. */
  function S(x: bv8): bv8 {
    ((SRow(x) >> ((15 - (x & 0xf)) * 8)) & 0xff) as bv8
  }

  /** The sixteen entries of Td4 beginning at x with its low four bits cleared. */
  function SiRow(x: bv8): bv128 {
    if x & 0x80 == 0 then
      if x & 0x40 == 0 then
        if x & 0x20 == 0 then
          if x & 0x10 == 0 then
            0x52096ad53036a538bf40a39e81f3d7fb
          else
            0x7ce339829b2fff87348e4344c4dee9cb
        else
          if x & 0x10 == 0 then
            0x547b9432a6c2233dee4c950b42fac34e
          else
            0x082ea16628d924b2765ba2496d8bd125
      else
        if x & 0x20 == 0 then
          if x & 0x10 == 0 then
            0x72f8f66486689816d4a45ccc5d65b692
          else
            0x6c704850fdedb9da5e154657a78d9d84
        else
          if x & 0x10 == 0 then
            0x90d8ab008cbcd30af7e45805b8b34506
          else
            0xd02c1e8fca3f0f02c1afbd0301138a6b
    else
      if x & 0x40 == 0 then
        if x & 0x20 == 0 then
          if x & 0x10 == 0 then
            0x3a9111414f67dcea97f2cfcef0b4e673
          else
            0x96ac7422e7ad3585e2f937e81c75df6e
        else
          if x & 0x10 == 0 then
            0x47f11a711d29c5896fb7620eaa18be1b
          else
            0xfc563e4bc6d279209adbc0fe78cd5af4
      else
        if x & 0x20 == 0 then
          if x & 0x10 == 0 then
            0x1fdda8338807c731b11210592780ec5f
          else
            0x60517fa919b54a0d2de57a9f93c99cef
        else
          if x & 0x10 == 0 then
            0xa0e03b4dae2af5b0c8ebbb3c83539961
          else
            0x172b047eba77d626e169146355210c7d
  }

  /** One byte of Td4. */
  function Si(x: bv8): bv8 {
    ((SiRow(x) >> ((15 - (x & 0xf)) * 8)) & 0xff) as bv8
  }

  /** Td4 inverts Te4. */
  lemma SiS(x: bv8)
    ensures Si(S(x)) == x
  {
  }

  lemma SSi(x: bv8)
    ensures S(Si(x)) == x
  {
  }

  /** Te4 is the S-box: the affine image of the inverse in the field, and of zero for zero. */
  lemma SIsInverse(x: bv8, y: bv8)
    ensures S(0) == Affine(0)
    ensures x != 0 ==> Mul(x, InvAffine(S(x))) == 1
    ensures Affine(InvAffine(y)) == y
  {
  }

  /** XTime in the words of section 4.2.1. */
  lemma XTimeIs(x: bv8)
    ensures XTime(x) == (x << 1) ^ (if x & 0x80 != 0 then 0x1b else 0)
  {
  }

  /** The products are multiplications. */
  lemma Products(x: bv8)
    ensures By2(x) == Mul(x, 2) && By3(x) == Mul(x, 3) && By9(x) == Mul(x, 9)
    ensures ByB(x) == Mul(x, 0xb) && ByD(x) == Mul(x, 0xd) && ByE(x) == Mul(x, 0xe)
  {
  }

  lemma Swap2(a: bv8, b: bv8, c: bv8, d: bv8)
    ensures Add(Add(a, b), Add(c, d)) == Add(Add(a, c), Add(b, d))
  {
    assert (a ^ b) ^ (c ^ d) == (a ^ c) ^ (b ^ d);
  }

  lemma XTimeAdd(x: bv8, y: bv8)
    ensures XTime(Add(x, y)) == Add(XTime(x), XTime(y))
  {
  }

  lemma PowersAdd(x: bv8, y: bv8)
    ensures By2(Add(x, y)) == Add(By2(x), By2(y)) && By4(Add(x, y)) == Add(By4(x), By4(y))
            && By8(Add(x, y)) == Add(By8(x), By8(y))
  {
    hide XTime, Add;
    XTimeAdd(x, y);
    XTimeAdd(XTime(x), XTime(y));
    XTimeAdd(XTime(XTime(x)), XTime(XTime(y)));
  }

  /** Every product distributes over addition. */
  lemma ProductsAdd(x: bv8, y: bv8)
    ensures By2(Add(x, y)) == Add(By2(x), By2(y)) && By3(Add(x, y)) == Add(By3(x), By3(y))
    ensures By9(Add(x, y)) == Add(By9(x), By9(y)) && ByB(Add(x, y)) == Add(ByB(x), ByB(y))
    ensures ByD(Add(x, y)) == Add(ByD(x), ByD(y)) && ByE(Add(x, y)) == Add(ByE(x), ByE(y))
  {
    PowersAdd(x, y);
    Swap2(XTime(x), XTime(y), x, y);
    Swap2(By8(x), By8(y), x, y);
    Swap2(By8(x), By8(y), By3(x), By3(y));
    Swap2(By8(x), By8(y), By4(x), By4(y));
    Swap2(Add(By8(x), By4(x)), Add(By8(y), By4(y)), x, y);
    Swap2(Add(By8(x), By4(x)), Add(By8(y), By4(y)), By2(x), By2(y));
    hide XTime, By4, By8, Add;
  }
}
