/** The tables and words of aes.c. */
module AesTables {
  import opened AesField
  import opened AesSpec

  // A word holds a column, row 0 in its top byte.

  function B3(x: bv32): bv8 { ((x >> 24) & 0xff) as bv8 }
  function B2(x: bv32): bv8 { ((x >> 16) & 0xff) as bv8 }
  function B1(x: bv32): bv8 { ((x >> 8) & 0xff) as bv8 }
  function B0(x: bv32): bv8 { (x & 0xff) as bv8 }
  function M3(x: bv32): bv32 { x & 0xff000000 }
  function M2(x: bv32): bv32 { x & 0x00ff0000 }
  function M1(x: bv32): bv32 { x & 0x0000ff00 }
  function M0(x: bv32): bv32 { x & 0x000000ff }

  /** The word of four bytes, as be32toh reads them. */
  function Pack(a: bv8, b: bv8, c: bv8, d: bv8): bv32 {
    (a as bv32 << 24) | (b as bv32 << 16) | (c as bv32 << 8) | (d as bv32)
  }

  function ColOf(x: bv32): Col {
    Col(B3(x), B2(x), B1(x), B0(x))
  }

  function Te0(x: bv8): bv32 { Pack(By2(S(x)), S(x), S(x), By3(S(x))) }
  function Te1(x: bv8): bv32 { Pack(By3(S(x)), By2(S(x)), S(x), S(x)) }
  function Te2(x: bv8): bv32 { Pack(S(x), By3(S(x)), By2(S(x)), S(x)) }
  function Te3(x: bv8): bv32 { Pack(S(x), S(x), By3(S(x)), By2(S(x))) }
  function Te4(x: bv8): bv32 { Pack(S(x), S(x), S(x), S(x)) }
  function Td0(x: bv8): bv32 { Pack(ByE(Si(x)), By9(Si(x)), ByD(Si(x)), ByB(Si(x))) }
  function Td1(x: bv8): bv32 { Pack(ByB(Si(x)), ByE(Si(x)), By9(Si(x)), ByD(Si(x))) }
  function Td2(x: bv8): bv32 { Pack(ByD(Si(x)), ByB(Si(x)), ByE(Si(x)), By9(Si(x))) }
  function Td3(x: bv8): bv32 { Pack(By9(Si(x)), ByD(Si(x)), ByB(Si(x)), ByE(Si(x))) }
  function Td4(x: bv8): bv32 { Pack(Si(x), Si(x), Si(x), Si(x)) }

  function Xor(x: bv32, y: bv32): bv32 {
    x ^ y
  }

  function Xor4(a: bv32, b: bv32, c: bv32, d: bv32): bv32 {
    Xor(Xor(Xor(a, b), c), d)
  }

  /** One line of AES_ENC_ROUND. */
  function EncWord(a: bv32, b: bv32, c: bv32, d: bv32, k: bv32): bv32 {
    Xor(Xor4(Te0(B3(a)), Te1(B2(b)), Te2(B1(c)), Te3(B0(d))), k)
  }

  /** One line of the last round. */
  function EncLast(a: bv32, b: bv32, c: bv32, d: bv32, k: bv32): bv32 {
    Xor(Xor4(M3(Te4(B3(a))), M2(Te4(B2(b))), M1(Te4(B1(c))), M0(Te4(B0(d)))), k)
  }

  /** One line of AES_DEC_ROUND. */
  function DecWord(a: bv32, b: bv32, c: bv32, d: bv32, k: bv32): bv32 {
    Xor(Xor4(Td0(B3(a)), Td1(B2(b)), Td2(B1(c)), Td3(B0(d))), k)
  }

  function DecLast(a: bv32, b: bv32, c: bv32, d: bv32, k: bv32): bv32 {
    Xor(Xor4(M3(Td4(B3(a))), M2(Td4(B2(b))), M1(Td4(B1(c))), M0(Td4(B0(d)))), k)
  }

  /** INVMIXCOLRK: Te4 undoes the Si in the tables. */
  function InvMixWord(x: bv32): bv32 {
    Xor4(Td0(B0(Te4(B3(x)))), Td1(B0(Te4(B2(x)))), Td2(B0(Te4(B1(x)))), Td3(B0(Te4(B0(x)))))
  }

  /** rcon[i] */
  function RconAt(i: nat): bv32
    requires i < 10
  {
    [0x01000000, 0x02000000, 0x04000000, 0x08000000, 0x10000000,
     0x20000000, 0x40000000, 0x80000000, 0x1b000000, 0x36000000][i]
  }

  /** The first word of a step of the key schedule. */
  function TurnWord(a: bv32, temp: bv32, rcon: bv32): bv32 {
    Xor(Xor(a, Xor4(M3(Te4(B2(temp))), M2(Te4(B1(temp))), M1(Te4(B0(temp))), M0(Te4(B3(temp))))), rcon)
  }

  /** The middle word of a step with eight words. */
  function MiddleWord(a: bv32, temp: bv32): bv32 {
    Xor(a, Xor4(M3(Te4(B3(temp))), M2(Te4(B2(temp))), M1(Te4(B1(temp))), M0(Te4(B0(temp)))))
  }

  lemma PackCol(a: bv8, b: bv8, c: bv8, d: bv8)
    ensures ColOf(Pack(a, b, c, d)) == Col(a, b, c, d)
  {
  }

  lemma XorCol(x: bv32, y: bv32)
    ensures ColOf(Xor(x, y)) == AddCol(ColOf(x), ColOf(y))
  {
  }

  /** Words added are columns added. */
  lemma XorFour(a: bv32, b: bv32, c: bv32, d: bv32)
    ensures ColOf(Xor4(a, b, c, d)) == AddCol(AddCol(AddCol(ColOf(a), ColOf(b)), ColOf(c)), ColOf(d))
  {
  }

  lemma TeCols(x: bv8)
    ensures ColOf(Te0(x)) == Col(By2(S(x)), S(x), S(x), By3(S(x)))
            && ColOf(Te1(x)) == Col(By3(S(x)), By2(S(x)), S(x), S(x))
    ensures ColOf(Te2(x)) == Col(S(x), By3(S(x)), By2(S(x)), S(x))
            && ColOf(Te3(x)) == Col(S(x), S(x), By3(S(x)), By2(S(x)))
    ensures ColOf(Te4(x)) == Col(S(x), S(x), S(x), S(x))
  {
    hide ColOf, By2, By3, S, Pack;
    PackCol(By2(S(x)), S(x), S(x), By3(S(x)));
    PackCol(By3(S(x)), By2(S(x)), S(x), S(x));
    PackCol(S(x), By3(S(x)), By2(S(x)), S(x));
    PackCol(S(x), S(x), By3(S(x)), By2(S(x)));
    PackCol(S(x), S(x), S(x), S(x));
  }

  lemma TdCols(x: bv8)
    ensures ColOf(Td0(x)) == Col(ByE(Si(x)), By9(Si(x)), ByD(Si(x)), ByB(Si(x)))
    ensures ColOf(Td1(x)) == Col(ByB(Si(x)), ByE(Si(x)), By9(Si(x)), ByD(Si(x)))
    ensures ColOf(Td2(x)) == Col(ByD(Si(x)), ByB(Si(x)), ByE(Si(x)), By9(Si(x)))
    ensures ColOf(Td3(x)) == Col(By9(Si(x)), ByD(Si(x)), ByB(Si(x)), ByE(Si(x)))
    ensures ColOf(Td4(x)) == Col(Si(x), Si(x), Si(x), Si(x))
  {
    hide ColOf, By9, ByB, ByD, ByE, Si, Pack;
    PackCol(ByE(Si(x)), By9(Si(x)), ByD(Si(x)), ByB(Si(x)));
    PackCol(ByB(Si(x)), ByE(Si(x)), By9(Si(x)), ByD(Si(x)));
    PackCol(ByD(Si(x)), ByB(Si(x)), ByE(Si(x)), By9(Si(x)));
    PackCol(By9(Si(x)), ByD(Si(x)), ByB(Si(x)), ByE(Si(x)));
    PackCol(Si(x), Si(x), Si(x), Si(x));
  }

  /** The bytes that a round picks from four columns, one from each row. */
  function Pick(a: Col, b: Col, c: Col, d: Col): Col {
    Col(a.b0, b.b1, c.b2, d.b3)
  }

  /** A table line is SubBytes, MixColumns and AddRoundKey on one column. */
  lemma EncWordOk(a: bv32, b: bv32, c: bv32, d: bv32, k: bv32)
    ensures ColOf(EncWord(a, b, c, d, k))
            == AddCol(MixCol(SubCol(Pick(ColOf(a), ColOf(b), ColOf(c), ColOf(d)))), ColOf(k))
  {
    hide Te0, Te1, Te2, Te3, Te4, B0, B1, B2, B3, Add, S, By2, By3, Xor, Xor4;
    XorFour(Te0(B3(a)), Te1(B2(b)), Te2(B1(c)), Te3(B0(d)));
    XorCol(Xor4(Te0(B3(a)), Te1(B2(b)), Te2(B1(c)), Te3(B0(d))), k);
    TeCols(B3(a));
    TeCols(B2(b));
    TeCols(B1(c));
    TeCols(B0(d));
  }

  lemma DecWordOk(a: bv32, b: bv32, c: bv32, d: bv32, k: bv32)
    ensures ColOf(DecWord(a, b, c, d, k))
            == AddCol(InvMixCol(InvSubCol(Pick(ColOf(a), ColOf(b), ColOf(c), ColOf(d)))), ColOf(k))
  {
    hide Td0, Td1, Td2, Td3, Td4, B0, B1, B2, B3, Add, Si, By9, ByB, ByD, ByE, Xor, Xor4;
    XorFour(Td0(B3(a)), Td1(B2(b)), Td2(B1(c)), Td3(B0(d)));
    XorCol(Xor4(Td0(B3(a)), Td1(B2(b)), Td2(B1(c)), Td3(B0(d))), k);
    TdCols(B3(a));
    TdCols(B2(b));
    TdCols(B1(c));
    TdCols(B0(d));
  }

  /** Masked bytes of four words make one column. */
  lemma MaskFour(a: bv32, b: bv32, c: bv32, d: bv32)
    ensures ColOf(Xor4(M3(a), M2(b), M1(c), M0(d))) == Pick(ColOf(a), ColOf(b), ColOf(c), ColOf(d))
  {
  }

  /** The last round has no MixColumns. */
  lemma EncLastOk(a: bv32, b: bv32, c: bv32, d: bv32, k: bv32)
    ensures ColOf(EncLast(a, b, c, d, k)) == AddCol(SubCol(Pick(ColOf(a), ColOf(b), ColOf(c), ColOf(d))), ColOf(k))
  {
  }

  lemma DecLastOk(a: bv32, b: bv32, c: bv32, d: bv32, k: bv32)
    ensures ColOf(DecLast(a, b, c, d, k)) == AddCol(InvSubCol(Pick(ColOf(a), ColOf(b), ColOf(c), ColOf(d))), ColOf(k))
  {
  }

  /** Td[Te4[x]] holds products of x itself. */
  lemma TdOfS(x: bv8)
    ensures ColOf(Td0(B0(Te4(x)))) == Col(ByE(x), By9(x), ByD(x), ByB(x))
    ensures ColOf(Td1(B0(Te4(x)))) == Col(ByB(x), ByE(x), By9(x), ByD(x))
    ensures ColOf(Td2(B0(Te4(x)))) == Col(ByD(x), ByB(x), ByE(x), By9(x))
    ensures ColOf(Td3(B0(Te4(x)))) == Col(By9(x), ByD(x), ByB(x), ByE(x))
  {
    hide Td0, Td1, Td2, Td3, Te4, B0, B1, B2, B3, S, Si, By9, ByB, ByD, ByE;
    TeCols(x);
    TdCols(S(x));
    SiS(x);
  }

  lemma InvMixWordOk(x: bv32)
    ensures ColOf(InvMixWord(x)) == InvMixCol(ColOf(x))
  {
    hide Td0, Td1, Td2, Td3, Te4, B0, B1, B2, B3, Add, By9, ByB, ByD, ByE, Xor, Xor4;
    XorFour(Td0(B0(Te4(B3(x)))), Td1(B0(Te4(B2(x)))), Td2(B0(Te4(B1(x)))), Td3(B0(Te4(B0(x)))));
    TdOfS(B3(x));
    TdOfS(B2(x));
    TdOfS(B1(x));
    TdOfS(B0(x));
  }

  lemma {:induction false} RconIs(i: nat)
    requires i < 10
    ensures ColOf(RconAt(i)) == Col(Rcon(i + 1), 0, 0, 0)
  {
    assert Rcon(1) == 1 && Rcon(2) == 2 && Rcon(3) == 4 && Rcon(4) == 8 && Rcon(5) == 0x10;
    assert Rcon(6) == 0x20 && Rcon(7) == 0x40 && Rcon(8) == 0x80 && Rcon(9) == 0x1b && Rcon(10) == 0x36;
  }

  /** The words of the key schedule. */
  lemma {:induction false} TurnWordOk(a: bv32, temp: bv32, i: nat)
    requires i < 10
    ensures ColOf(TurnWord(a, temp, RconAt(i))) ==
            AddCol(ColOf(a), AddCol(SubCol(RotWord(ColOf(temp))), Col(Rcon(i + 1), 0, 0, 0)))
  {
    hide Te4, B0, B1, B2, B3, M0, M1, M2, M3, S, Xor, Xor4, AddCol, RconAt, Rcon;
    var e, f, g, h := Te4(B2(temp)), Te4(B1(temp)), Te4(B0(temp)), Te4(B3(temp));
    var turned := Xor4(M3(e), M2(f), M1(g), M0(h));
    MaskFour(e, f, g, h);
    XorCol(a, turned);
    XorCol(Xor(a, turned), RconAt(i));
    TeCols(B3(temp));
    TeCols(B2(temp));
    TeCols(B1(temp));
    TeCols(B0(temp));
    RconIs(i);
    AddColAssoc(ColOf(a), ColOf(turned), ColOf(RconAt(i)));
  }

  lemma AddColAssoc(a: Col, b: Col, c: Col)
    ensures AddCol(AddCol(a, b), c) == AddCol(a, AddCol(b, c))
  {
  }

  lemma MiddleWordOk(a: bv32, temp: bv32)
    ensures ColOf(MiddleWord(a, temp)) == AddCol(ColOf(a), SubCol(ColOf(temp)))
  {
    hide Te4, B0, B1, B2, B3, M0, M1, M2, M3, S, Xor, Xor4, AddCol;
    var e, f, g, h := Te4(B3(temp)), Te4(B2(temp)), Te4(B1(temp)), Te4(B0(temp));
    MaskFour(e, f, g, h);
    XorCol(a, Xor4(M3(e), M2(f), M1(g), M0(h)));
    TeCols(B3(temp));
    TeCols(B2(temp));
    TeCols(B1(temp));
    TeCols(B0(temp));
  }
}
