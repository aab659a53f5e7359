/** Examples from the standards that the ciphers, the checksum and the codec follow. */
module KnownAnswers {
  import C = ChaChaSpec
  import opened ChaChaRows
  import V = ChaCha
  import A = AesSpec
  import Z = LzoFormat
  import S = Adler

  // ---------------------------------------------------------------- ChaCha20, RFC 8439

  /** Section 2.1.1. */
  lemma QuarterExample()
    ensures C.Quarter(C.Four(0x11111111, 0x01020304, 0x9b8d6f43, 0x01234567))
            == C.Four(0xea2a92f4, 0xcb1cf8ce, 0x4581472e, 0x5881c4bb)
  {
  }

  // The state of section 2.3.2 after each double round, and the block.

  const R0 := Rows(Vec(0x61707865, 0x3320646e, 0x79622d32, 0x6b206574),
                   Vec(0x03020100, 0x07060504, 0x0b0a0908, 0x0f0e0d0c),
                   Vec(0x13121110, 0x17161514, 0x1b1a1918, 0x1f1e1d1c),
                   Vec(0x00000001, 0x09000000, 0x4a000000, 0x00000000))
  const R1 := Rows(Vec(0xcd52e917, 0x85ab03b4, 0xb3457395, 0xf96de7dd),
                   Vec(0xc4b7cd22, 0x5c2e187a, 0xc95eb461, 0x316c801a),
                   Vec(0x7bf7d740, 0x7eddd644, 0xf1a1bdf5, 0x761246ca),
                   Vec(0x6b0d58a3, 0x6798471a, 0xd737f167, 0xf173888d))
  const R2 := Rows(Vec(0xcf1a7584, 0x048927ec, 0x54051fda, 0xc244ff28),
                   Vec(0x901d2f40, 0x7974b81c, 0x378dcfb4, 0xcd47fd0e),
                   Vec(0x2dafb216, 0x27c89cd6, 0xcd3c9aa0, 0x79fc89c7),
                   Vec(0x10aef18d, 0x16218765, 0x68f76705, 0x04d6ee22))
  const R3 := Rows(Vec(0x03a14032, 0x66b15927, 0x9d6b6b42, 0xb84c4109),
                   Vec(0xa7143ae0, 0xa09b33dd, 0xa5daaf88, 0x2fd91a73),
                   Vec(0xc90c6b18, 0x5a202413, 0xc20e01b6, 0x72cd6b74),
                   Vec(0xba35d777, 0xb360f1bf, 0x8178315b, 0x2cd11b1a))
  const R4 := Rows(Vec(0x9a2d3589, 0x0b23fc4e, 0x40af3b6b, 0xceea8144),
                   Vec(0x0a1bffc6, 0x5e5993f7, 0x9904c2e7, 0x0d334718),
                   Vec(0xe46c6354, 0xc9503229, 0x04fef5aa, 0xf8933f72),
                   Vec(0x2687d476, 0x54e65231, 0x3594ffc5, 0x2b3bb2ca))
  const R5 := Rows(Vec(0xc53318c5, 0xca325d96, 0x7e7d11cb, 0x3404e2ca),
                   Vec(0x26d7cf73, 0x6088d379, 0xc0f0e9bd, 0xe310cdb9),
                   Vec(0xae2ca8db, 0x42f67c72, 0x71669aca, 0x975c171d),
                   Vec(0x9e5ec228, 0x7d85a9f3, 0x201d0756, 0x63fa6953))
  const R6 := Rows(Vec(0x04a3131a, 0x66176309, 0x0415bab1, 0x61b880a2),
                   Vec(0x36cc86c7, 0xbf8a4465, 0xf77dd720, 0xfc0bdc90),
                   Vec(0x07d13aca, 0xeb0be9af, 0x61599491, 0x918512dc),
                   Vec(0x33b6686d, 0x795cc671, 0xc0049972, 0xa0a81bde))
  const R7 := Rows(Vec(0x9b70f51f, 0x7ea8ac11, 0x21e54da9, 0xca393b2f),
                   Vec(0x93b08686, 0x6a4c50ae, 0x19212a5a, 0x9b032958),
                   Vec(0xd839165e, 0x4c06e28a, 0xd3fde99e, 0x26acc13d),
                   Vec(0xa609f555, 0x2c246549, 0x95151853, 0x2c847a0d))
  const R8 := Rows(Vec(0xca5c85dd, 0x93a4f90e, 0xd9f0df58, 0x26dd82dd),
                   Vec(0x982563f8, 0x712aa9ff, 0x279a61e8, 0x970f72bd),
                   Vec(0x1c25931a, 0x5180bb10, 0x779c27e7, 0x54077e08),
                   Vec(0xa9b751fb, 0x382f3ce2, 0x8db1757d, 0xcc38080b))
  const R9 := Rows(Vec(0xb6b87de6, 0x9a016148, 0x93859815, 0x4915e6cc),
                   Vec(0xdc33c122, 0x98e18fa3, 0x5ffbe8fc, 0xf7154b8b),
                   Vec(0x28c1fcb3, 0xc4b38f9d, 0x83e2f5d7, 0x7d24b98b),
                   Vec(0x21078b22, 0xb193e7a3, 0xb2f49389, 0x6cde6026))
  const R10 := Rows(Vec(0x837778ab, 0xe238d763, 0xa67ae21e, 0x5950bb2f),
                    Vec(0xc4f2d0c7, 0xfc62bb2f, 0x8fa018fc, 0x3f5ec7b7),
                    Vec(0x335271c2, 0xf29489f3, 0xeabda8fc, 0x82e46ebd),
                    Vec(0xd19c12b4, 0xb04e16de, 0x9e83d0cb, 0x4e3c50a2))
  const BLOCK := Rows(Vec(0xe4e7f110, 0x15593bd1, 0x1fdd0f50, 0xc47120a3),
                      Vec(0xc7f4d1c7, 0x0368c033, 0x9aaa2204, 0x4e6cd4c3),
                      Vec(0x466482d2, 0x09aa9f07, 0x05d7c214, 0xa2028bd9),
                      Vec(0xd19c12b5, 0xb94e16de, 0xe883d0cb, 0x4e3c50a2))

  /** The four columns, each word where it belongs. */
  function Columns(r: Rows): Rows {
    var p, q := C.Quarter(C.Four(r.a.x0, r.b.x0, r.c.x0, r.d.x0)), C.Quarter(C.Four(r.a.x1, r.b.x1, r.c.x1, r.d.x1));
    var s, t := C.Quarter(C.Four(r.a.x2, r.b.x2, r.c.x2, r.d.x2)), C.Quarter(C.Four(r.a.x3, r.b.x3, r.c.x3, r.d.x3));
    Rows(Vec(p.a, q.a, s.a, t.a), Vec(p.b, q.b, s.b, t.b), Vec(p.c, q.c, s.c, t.c), Vec(p.d, q.d, s.d, t.d))
  }

  /** The four diagonals. */
  function Diagonals(r: Rows): Rows {
    var p, q := C.Quarter(C.Four(r.a.x0, r.b.x1, r.c.x2, r.d.x3)), C.Quarter(C.Four(r.a.x1, r.b.x2, r.c.x3, r.d.x0));
    var s, t := C.Quarter(C.Four(r.a.x2, r.b.x3, r.c.x0, r.d.x1)), C.Quarter(C.Four(r.a.x3, r.b.x0, r.c.x1, r.d.x2));
    Rows(Vec(p.a, q.a, s.a, t.a), Vec(t.b, p.b, q.b, s.b), Vec(s.c, t.c, p.c, q.c), Vec(q.d, s.d, t.d, p.d))
  }

  function Double(r: Rows): Rows { Diagonals(Columns(r)) }

  lemma ColumnsAre(r: Rows)
    ensures ColumnRows(r) == Columns(r)
  {
    hide C.Quarter;
  }

  lemma DiagonalsAre(r: Rows)
    ensures DiagonalRows(r) == Diagonals(r)
  {
    hide C.Quarter;
  }

  lemma DoubleIs(r: Rows)
    ensures C.DiagonalRound(C.ColumnRound(Flat(r))) == Flat(Double(r))
  {
    ColumnRowsFlat(r);
    ColumnsAre(r);
    DiagonalRowsFlat(Columns(r));
    DiagonalsAre(Columns(r));
    hide Flat, C.ColumnRound, C.DiagonalRound, Columns, Diagonals, ColumnRows, DiagonalRows;
  }

  lemma Double0()
    ensures Double(R0) == R1
  {
  }

  lemma Double1()
    ensures Double(R1) == R2
  {
  }

  lemma Double2()
    ensures Double(R2) == R3
  {
  }

  lemma Double3()
    ensures Double(R3) == R4
  {
  }

  lemma Double4()
    ensures Double(R4) == R5
  {
  }

  lemma Double5()
    ensures Double(R5) == R6
  {
  }

  lemma Double6()
    ensures Double(R6) == R7
  {
  }

  lemma Double7()
    ensures Double(R7) == R8
  {
  }

  lemma Double8()
    ensures Double(R8) == R9
  {
  }

  lemma Double9()
    ensures Double(R9) == R10
  {
  }

  function Repeated(r: Rows, n: nat): Rows {
    if n == 0 then r else Double(Repeated(r, n - 1))
  }

  lemma {:induction false} RoundsAre(r: Rows, n: nat)
    ensures C.DoubleRounds(Flat(r), n) == Flat(Repeated(r, n))
  {
    hide Flat, C.ColumnRound, C.DiagonalRound, Double;
    if n > 0 {
      RoundsAre(r, n - 1);
      DoubleIs(Repeated(r, n - 1));
    }
  }

  lemma Once(r: Rows, n: nat)
    ensures Repeated(r, n + 1) == Double(Repeated(r, n)) && Repeated(r, 0) == r
  {
    hide Double;
  }

  lemma TenTimes()
    ensures Repeated(R0, 10) == R10
  {
    hide *;
    Once(R0, 0);
    Double0();
    Once(R0, 1);
    Double1();
    Once(R0, 2);
    Double2();
    Once(R0, 3);
    Double3();
    Once(R0, 4);
    Double4();
    Once(R0, 5);
    Double5();
    Once(R0, 6);
    Double6();
    Once(R0, 7);
    Double7();
    Once(R0, 8);
    Double8();
    Once(R0, 9);
    Double9();
  }

  lemma AddedBlock()
    ensures V.AddRows(R10, R0) == BLOCK
  {
  }

  /** Section 2.3.2: the block for the key of bytes 0 to 31, counter 1 and nonce 00 00 00 09 00 00 00 4a 00 00 00 00. */
  lemma BlockExample()
    ensures C.Block(Flat(R0)) == Flat(BLOCK)
  {
    hide Flat, Repeated, V.AddRows, C.AddWords, C.DoubleRounds, R0, R10, BLOCK;
    RoundsAre(R0, 10);
    TenTimes();
    V.AddRowsFlat(R10, R0);
    AddedBlock();
  }

  /** And its first and last words as bytes. */
  lemma SerializedExample(s: seq<bv32>)
    requires |s| == 16 && s[0] == BLOCK.a.x0 && s[1] == BLOCK.a.x1 && s[15] == BLOCK.d.x3
    ensures C.Serialized(s, 0) == 0x10 && C.Serialized(s, 1) == 0xf1 && C.Serialized(s, 2) == 0xe7
    ensures C.Serialized(s, 3) == 0xe4 && C.Serialized(s, 4) == 0xd1 && C.Serialized(s, 63) == 0x4e
  {
  }

  // ---------------------------------------------------------------- AES, FIPS 197

  /** Appendices A.1 to A.3: a word of the key, the first words after it, and the middle word of a step, which is
      substituted in a 256-bit schedule only. */
  lemma ScheduleExamples()
    ensures A.WordAt([0x2b, 0x7e, 0x15, 0x16, 0x28, 0xae, 0xd2, 0xa6], 1) == A.Col(0x28, 0xae, 0xd2, 0xa6)
    ensures A.NextWord([A.Col(0x2b, 0x7e, 0x15, 0x16), A.Col(0x28, 0xae, 0xd2, 0xa6), A.Col(0xab, 0xf7, 0x15, 0x88),
                        A.Col(0x09, 0xcf, 0x4f, 0x3c)], 4) == A.Col(0xa0, 0xfa, 0xfe, 0x17)
    ensures A.NextWord([A.Col(0x8e, 0x73, 0xb0, 0xf7), A.Col(0xda, 0x0e, 0x64, 0x52), A.Col(0xc8, 0x10, 0xf3, 0x2b),
                        A.Col(0x80, 0x90, 0x79, 0xe5), A.Col(0x62, 0xf8, 0xea, 0xd2), A.Col(0x52, 0x2c, 0x6b, 0x7b)], 6)
            == A.Col(0xfe, 0x0c, 0x91, 0xf7)
    ensures A.NextWord([A.Col(0x60, 0x3d, 0xeb, 0x10), A.Col(0x15, 0xca, 0x71, 0xbe), A.Col(0x2b, 0x73, 0xae, 0xf0),
                        A.Col(0x85, 0x7d, 0x77, 0x81), A.Col(0x1f, 0x35, 0x2c, 0x07), A.Col(0x3b, 0x61, 0x08, 0xd7),
                        A.Col(0x2d, 0x98, 0x10, 0xa3), A.Col(0x09, 0x14, 0xdf, 0xf4)], 8)
            == A.Col(0x9b, 0xa3, 0x54, 0x11)
  {
  }

  lemma MiddleExample(w: seq<A.Col>)
    requires |w| == 12 && w[4] == A.Col(0x1f, 0x35, 0x2c, 0x07) && w[11] == A.Col(0x20, 0x67, 0xfc, 0xde)
    ensures A.NextWord(w, 8) == A.Col(0xa8, 0xb0, 0x9c, 0x1a)
  {
  }

  lemma NoMiddleExample(w: seq<A.Col>)
    requires |w| == 10 && w[4] == A.Col(0x62, 0xf8, 0xea, 0xd2) && w[9] == A.Col(0x6c, 0x82, 0x7f, 0x6b)
    ensures A.NextWord(w, 6) == A.Col(0x0e, 0x7a, 0x95, 0xb9)
  {
  }

  /** The last round constant of table 5, and the words of a round key. */
  lemma RoundKeyExample(w: seq<A.Col>)
    requires |w| == 12
    ensures A.Rcon(10) == 0x36
    ensures A.RoundKey(w, 1) == A.State(w[4], w[5], w[6], w[7]) && A.RoundKey(w, 2) == A.State(w[8], w[9], w[10], w[11])
  {
    assert A.Rcon(8) == 0x80 by { assert A.Rcon(4) == 0x08; }
  }

  /** Appendix B, step by step through the first round of the cipher. */
  lemma ShiftSubExample()
    ensures A.ShiftSub(A.State(A.Col(0x19, 0x3d, 0xe3, 0xbe), A.Col(0xa0, 0xf4, 0xe2, 0x2b),
                               A.Col(0x9a, 0xc6, 0x8d, 0x2a), A.Col(0xe9, 0xf8, 0x48, 0x08)))
            == A.State(A.Col(0xd4, 0xbf, 0x5d, 0x30), A.Col(0xe0, 0xb4, 0x52, 0xae),
                       A.Col(0xb8, 0x41, 0x11, 0xf1), A.Col(0x1e, 0x27, 0x98, 0xe5))
  {
  }

  lemma MixExample()
    ensures A.MixColumns(A.State(A.Col(0xd4, 0xbf, 0x5d, 0x30), A.Col(0xe0, 0xb4, 0x52, 0xae),
                                 A.Col(0xb8, 0x41, 0x11, 0xf1), A.Col(0x1e, 0x27, 0x98, 0xe5)))
            == A.State(A.Col(0x04, 0x66, 0x81, 0xe5), A.Col(0xe0, 0xcb, 0x19, 0x9a),
                       A.Col(0x48, 0xf8, 0xd3, 0x7a), A.Col(0x28, 0x06, 0x26, 0x4c))
  {
  }

  lemma AddExample()
    ensures A.AddKey(A.State(A.Col(0x04, 0x66, 0x81, 0xe5), A.Col(0xe0, 0xcb, 0x19, 0x9a),
                             A.Col(0x48, 0xf8, 0xd3, 0x7a), A.Col(0x28, 0x06, 0x26, 0x4c)),
                     A.State(A.Col(0xa0, 0xfa, 0xfe, 0x17), A.Col(0x88, 0x54, 0x2c, 0xb1),
                             A.Col(0x23, 0xa3, 0x39, 0x39), A.Col(0x2a, 0x6c, 0x76, 0x05)))
            == A.State(A.Col(0xa4, 0x9c, 0x7f, 0xf2), A.Col(0x68, 0x9f, 0x35, 0x2b),
                       A.Col(0x6b, 0x5b, 0xea, 0x43), A.Col(0x02, 0x6a, 0x50, 0x49))
  {
  }

  // ---------------------------------------------------------------- Adler-32 and LZO1X

  /** The checksum of "abc". */
  lemma AdlerExample()
    ensures S.Checksum(1, [97, 98, 99]) == 0x024d_0127
  {
    var s0 := S.Sums(1, 0);
    assert [97][..0] == [] && [97, 98][..1] == [97] && [97, 98, 99][..2] == [97, 98];
    assert S.PerByte(s0, []) == s0;
    assert S.PerByte(s0, [97]) == S.Sums(98, 98);
    assert S.PerByte(s0, [97, 98]) == S.Sums(196, 294);
  }

  /** Codes of matches at both ends of their ranges, short and extended, and the end of a stream. */
  lemma NearExamples()
    ensures Z.MatchBytes(Z.M2(1, 3), 0) == [0x40, 0x00] && Z.MatchBytes(Z.M2(0x800, 8), 3) == [0xff, 0xff]
    ensures Z.MatchBytes(Z.M1(0x400), 1) == [0x0d, 0xff] && Z.MatchBytes(Z.M1Long(0x801), 0) == [0x00, 0x00]
    ensures Z.MatchBytes(Z.M1(6), 0) == [0x04, 0x01] && Z.MatchBytes(Z.M1Long(0xbff), 2) == [0x0a, 0xff]
    ensures Z.M1(6).Len() == 2 && Z.M1Long(0xbff).Len() == 3
    ensures Z.EOF_MARKER == [0x11, 0x00, 0x00]
  {
  }

  lemma FarExamples()
    ensures Z.MatchBytes(Z.M3(1, 9), 0) == [0x27, 0x00, 0x00] && Z.MatchBytes(Z.M3(0x4000, 33), 2) == [0x3f, 0xfe, 0xff]
  {
    hide Z.Extended;
  }

  lemma FartherExamples()
    ensures Z.MatchBytes(Z.M4(0x4001, 3), 0) == [0x11, 0x04, 0x00]
    ensures Z.MatchBytes(Z.M4(0x7fff, 4), 0) == [0x12, 0xfc, 0xff]
    ensures Z.MatchBytes(Z.M4(0x8000, 3), 0) == [0x19, 0x00, 0x00]
    ensures Z.MatchBytes(Z.M4(0xbfff, 9), 0) == [0x1f, 0xfc, 0xff]
  {
    hide Z.Extended;
  }

  lemma ExtendedExamples()
    ensures Z.Extended(1) == [1] && Z.Extended(255) == [255]
    ensures Z.Extended(256) == [0, 1] && Z.Extended(511) == [0, 0, 1]
  {
    assert Z.Extended(511) == [0] + Z.Extended(256) && Z.Extended(256) == [0] + Z.Extended(1);
  }

  lemma LongExample()
    ensures Z.MatchBytes(Z.M3(5, 34), 0) == [0x20, 0x01, 0x10, 0x00]
  {
    ExtendedExamples();
    hide Z.Extended;
    assert Z.LongLen(34, 33) == [1] && Z.OffsetBytes(4, 0) == [0x10, 0x00];
  }

  lemma LongFarExample()
    ensures Z.MatchBytes(Z.M4(0x4001, 265), 0) == [0x10, 0x00, 0x01, 0x04, 0x00]
  {
    ExtendedExamples();
    hide Z.Extended;
    assert Z.LongLen(265, 9) == [0, 1] && Z.OffsetBytes(1, 0) == [0x04, 0x00];
  }

  /** Headers of literal runs. */
  lemma RunExamples()
    ensures Z.RunHeader(4) == [1] && Z.RunHeader(18) == [15]
    ensures Z.RunHeader(19) == [0, 1] && Z.RunHeader(273) == [0, 255]
  {
  }

  /** Three literals are counted in the match before them, four have a header of their own. */
  lemma LiteralExamples()
    ensures Z.SpareBits([7, 8, 9]) == 3 && Z.LitBytes([7, 8, 9]) == [7, 8, 9]
    ensures Z.SpareBits([7, 8, 9, 10]) == 0 && Z.LitBytes([7, 8, 9, 10]) == [1, 7, 8, 9, 10]
  {
  }
}
