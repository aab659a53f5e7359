/** The same rounds on four rows of four lanes, as vector registers hold them. */
module ChaChaRows {
  import opened ChaChaSpec

  /** One of four rows, or of four lanes in a row. */
  type Place = k: nat | k < 4

  /** A register of four lanes. */
  datatype Vec = Vec(x0: bv32, x1: bv32, x2: bv32, x3: bv32)

  datatype Rows = Rows(a: Vec, b: Vec, c: Vec, d: Vec)

  function Lane(u: Vec, k: Place): bv32
  {
    if k == 0 then u.x0 else if k == 1 then u.x1 else if k == 2 then u.x2 else u.x3
  }

  function Row(r: Rows, k: Place): Vec
  {
    if k == 0 then r.a else if k == 1 then r.b else if k == 2 then r.c else r.d
  }

  /** The sixteen words, row after row. */
  function Flat(r: Rows): (s: seq<bv32>)
    ensures |s| == 16
  {
    seq(16, i requires 0 <= i < 16 => Lane(Row(r, i / 4), i % 4))
  }

  /** _mm_add_epi32 */
  function ADD(u: Vec, v: Vec): Vec {
    Vec(Plus(u.x0, v.x0), Plus(u.x1, v.x1), Plus(u.x2, v.x2), Plus(u.x3, v.x3))
  }

  /** _mm_xor_si128 */
  function XOR(u: Vec, v: Vec): Vec {
    Vec(Xor(u.x0, v.x0), Xor(u.x1, v.x1), Xor(u.x2, v.x2), Xor(u.x3, v.x3))
  }

  function Shl(x: bv32, r: bv32): bv32
    requires r < 32
  {
    x << r
  }

  function Shr(x: bv32, r: bv32): bv32
    requires r < 32
  {
    x >> r
  }

  /** _mm_slli_epi32 */
  function SL(u: Vec, r: bv32): Vec
    requires r < 32
  {
    Vec(Shl(u.x0, r), Shl(u.x1, r), Shl(u.x2, r), Shl(u.x3, r))
  }

  /** _mm_srli_epi32 */
  function SR(u: Vec, r: bv32): Vec
    requires r < 32
  {
    Vec(Shr(u.x0, r), Shr(u.x1, r), Shr(u.x2, r), Shr(u.x3, r))
  }

  function ROL(u: Vec, r: bv32): Vec
    requires 0 < r < 32
  {
    XOR(SL(u, r), SR(u, 32 - r))
  }

  /** The word whose bytes are those of w at places i, j, k, l. */
  function Shuffle8(w: bv32, i: Place, j: Place, k: Place, l: Place): bv32
  {
    Join(ByteOf(w, i), ByteOf(w, j), ByteOf(w, k), ByteOf(w, l))
  }

  /** _mm_shuffle_epi8 with L8: in each lane bytes 3, 0, 1, 2. */
  function ROL8(u: Vec): Vec {
    Vec(Shuffle8(u.x0, 3, 0, 1, 2), Shuffle8(u.x1, 3, 0, 1, 2), Shuffle8(u.x2, 3, 0, 1, 2), Shuffle8(u.x3, 3, 0, 1, 2))
  }

  /** _mm_shuffle_epi8 with L16: in each lane bytes 2, 3, 0, 1. */
  function ROL16(u: Vec): Vec {
    Vec(Shuffle8(u.x0, 2, 3, 0, 1), Shuffle8(u.x1, 2, 3, 0, 1), Shuffle8(u.x2, 2, 3, 0, 1), Shuffle8(u.x3, 2, 3, 0, 1))
  }

  /** _mm_shuffle_epi32 with lane numbers from the highest down, as _MM_SHUFFLE takes them. */
  function Shuffle32(u: Vec, z: Place, y: Place, x: Place, w: Place): Vec
  {
    Vec(Lane(u, w), Lane(u, x), Lane(u, y), Lane(u, z))
  }

  // ---------------------------------------------------------------- rotations

  // Shifted parts do not overlap, so adding them without carry is joining them.

  lemma Rol7(x: bv32)
    ensures Xor(Shl(x, 7), Shr(x, 25)) == Rol(x, 7)
  {
  }

  lemma Rol8(x: bv32)
    ensures Xor(Shl(x, 8), Shr(x, 24)) == Rol(x, 8)
  {
  }

  lemma Rol12(x: bv32)
    ensures Xor(Shl(x, 12), Shr(x, 20)) == Rol(x, 12)
  {
  }

  lemma Rol16(x: bv32)
    ensures Xor(Shl(x, 16), Shr(x, 16)) == Rol(x, 16)
  {
  }

  lemma RolWithXor(x: bv32)
    ensures Xor(Shl(x, 7), Shr(x, 25)) == Rol(x, 7) && Xor(Shl(x, 8), Shr(x, 24)) == Rol(x, 8)
    ensures Xor(Shl(x, 12), Shr(x, 20)) == Rol(x, 12) && Xor(Shl(x, 16), Shr(x, 16)) == Rol(x, 16)
  {
    hide Xor, Shl, Shr, Rol;
    Rol7(x);
    Rol8(x);
    Rol12(x);
    Rol16(x);
  }

  lemma RolWithBytes(x: bv32)
    ensures Shuffle8(x, 3, 0, 1, 2) == Rol(x, 8) && Shuffle8(x, 2, 3, 0, 1) == Rol(x, 16)
  {
  }

  // ---------------------------------------------------------------- rows are columns and diagonals

  /** Lane k of a register replaced. */
  function SetLane(u: Vec, k: Place, x: bv32): Vec
  {
    if k == 0 then u.(x0 := x) else if k == 1 then u.(x1 := x) else if k == 2 then u.(x2 := x) else u.(x3 := x)
  }

  /** The four words of a quarter round, one lane in each row. */
  function SetWords(r: Rows, j: Place, k: Place, l: Place, m: Place, q: Four): Rows
  {
    Rows(SetLane(r.a, j, q.a), SetLane(r.b, k, q.b), SetLane(r.c, l, q.c), SetLane(r.d, m, q.d))
  }

  lemma FlatAt(r: Rows, k: Place)
    ensures Flat(r)[k] == Lane(r.a, k) && Flat(r)[4 + k] == Lane(r.b, k)
    ensures Flat(r)[8 + k] == Lane(r.c, k) && Flat(r)[12 + k] == Lane(r.d, k)
  {
    hide Lane;
  }

  function SetRow(r: Rows, j: Place, u: Vec): Rows
  {
    if j == 0 then r.(a := u) else if j == 1 then r.(b := u) else if j == 2 then r.(c := u) else r.(d := u)
  }

  lemma FlatSet(r: Rows, j: Place, k: Place, x: bv32)
    ensures Flat(r)[4 * j + k := x] == Flat(SetRow(r, j, SetLane(Row(r, j), k, x)))
  {
  }

  /** A quarter round on one word of each row. */
  function QuarterRows(r: Rows, j: Place, k: Place, l: Place, m: Place): Rows
  {
    SetWords(r, j, k, l, m, Quarter(Four(Lane(r.a, j), Lane(r.b, k), Lane(r.c, l), Lane(r.d, m))))
  }

  lemma QuarterFlat(r: Rows, j: Place, k: Place, l: Place, m: Place)
    ensures QuarterAt(Flat(r), j, 4 + k, 8 + l, 12 + m) == Flat(QuarterRows(r, j, k, l, m))
  {
    hide Flat, Lane, SetLane, Quarter;
    FlatAt(r, j);
    FlatAt(r, k);
    FlatAt(r, l);
    FlatAt(r, m);
    var q := Quarter(Four(Lane(r.a, j), Lane(r.b, k), Lane(r.c, l), Lane(r.d, m)));
    var r1 := r.(a := SetLane(r.a, j, q.a));
    var r2 := r1.(b := SetLane(r.b, k, q.b));
    var r3 := r2.(c := SetLane(r.c, l, q.c));
    FlatSet(r, 0, j, q.a);
    FlatSet(r1, 1, k, q.b);
    FlatSet(r2, 2, l, q.c);
    FlatSet(r3, 3, m, q.d);
  }

  function ColumnRows(r: Rows): Rows {
    QuarterRows(QuarterRows(QuarterRows(QuarterRows(r, 0, 0, 0, 0), 1, 1, 1, 1), 2, 2, 2, 2), 3, 3, 3, 3)
  }

  function DiagonalRows(r: Rows): Rows {
    QuarterRows(QuarterRows(QuarterRows(QuarterRows(r, 0, 1, 2, 3), 1, 2, 3, 0), 2, 3, 0, 1), 3, 0, 1, 2)
  }

  lemma ColumnRowsFlat(r: Rows)
    ensures Flat(ColumnRows(r)) == ColumnRound(Flat(r))
  {
    hide Flat, QuarterRows, QuarterAt;
    var r1 := QuarterRows(r, 0, 0, 0, 0);
    var r2 := QuarterRows(r1, 1, 1, 1, 1);
    QuarterFlat(r, 0, 0, 0, 0);
    QuarterFlat(r1, 1, 1, 1, 1);
    QuarterFlat(r2, 2, 2, 2, 2);
    QuarterFlat(QuarterRows(r2, 2, 2, 2, 2), 3, 3, 3, 3);
  }

  lemma DiagonalRowsFlat(r: Rows)
    ensures Flat(DiagonalRows(r)) == DiagonalRound(Flat(r))
  {
    hide Flat, QuarterRows, QuarterAt;
    var r1 := QuarterRows(r, 0, 1, 2, 3);
    var r2 := QuarterRows(r1, 1, 2, 3, 0);
    QuarterFlat(r, 0, 1, 2, 3);
    QuarterFlat(r1, 1, 2, 3, 0);
    QuarterFlat(r2, 2, 3, 0, 1);
    QuarterFlat(QuarterRows(r2, 2, 3, 0, 1), 3, 0, 1, 2);
  }

  /** CC20_PERMUTE_ROWS */
  function Turn(r: Rows): Rows {
    Rows(r.a, Shuffle32(r.b, 0, 3, 2, 1), Shuffle32(r.c, 1, 0, 3, 2), Shuffle32(r.d, 2, 1, 0, 3))
  }

  /** CC20_PERMUTE_ROWS_INV */
  function TurnBack(r: Rows): Rows {
    Rows(r.a, Shuffle32(r.b, 2, 1, 0, 3), Shuffle32(r.c, 1, 0, 3, 2), Shuffle32(r.d, 0, 3, 2, 1))
  }

  /** Between the two permutations the columns are the diagonals. */
  lemma TurnedColumns(r: Rows)
    ensures TurnBack(ColumnRows(Turn(r))) == DiagonalRows(r)
  {
    hide Quarter;
  }

  /** One double round on rows. */
  function DoubleRows(r: Rows): Rows {
    TurnBack(ColumnRows(Turn(ColumnRows(r))))
  }

  lemma DoubleRowsFlat(r: Rows)
    ensures Flat(DoubleRows(r)) == DiagonalRound(ColumnRound(Flat(r)))
  {
    hide Flat, ColumnRows, DiagonalRows, ColumnRound, DiagonalRound, Turn, TurnBack;
    ColumnRowsFlat(r);
    TurnedColumns(ColumnRows(r));
    DiagonalRowsFlat(ColumnRows(r));
  }

  // ---------------------------------------------------------------- the macros

  /** Rotation of a register, lane by lane, in each of the three ways it is written. */
  function Rotated(u: Vec, r: bv32): Vec
    requires 0 < r < 32
  {
    Vec(Rol(u.x0, r), Rol(u.x1, r), Rol(u.x2, r), Rol(u.x3, r))
  }

  lemma RotatedOk(u: Vec)
    ensures ROL(u, 7) == Rotated(u, 7) && ROL(u, 12) == Rotated(u, 12)
    ensures ROL8(u) == ROL(u, 8) == Rotated(u, 8) && ROL16(u) == ROL(u, 16) == Rotated(u, 16)
  {
    hide Rol, Shuffle8, Xor, Shl, Shr;
    RolWithXor(u.x0);
    RolWithXor(u.x1);
    RolWithXor(u.x2);
    RolWithXor(u.x3);
    RolWithBytes(u.x0);
    RolWithBytes(u.x1);
    RolWithBytes(u.x2);
    RolWithBytes(u.x3);
  }

  /** A register through the quarter round, all lanes at once. */
  lemma LanesAreColumns(r: Rows)
    ensures var a1 := ADD(r.a, r.b);
            var d1 := Rotated(XOR(r.d, a1), 16);
            var c1 := ADD(r.c, d1);
            var b1 := Rotated(XOR(r.b, c1), 12);
            var a2 := ADD(a1, b1);
            var d2 := Rotated(XOR(d1, a2), 8);
            var c2 := ADD(c1, d2);
            ColumnRows(r) == Rows(a2, Rotated(XOR(b1, c2), 7), c2, d2)
  {
    hide Rol, Plus, Xor;
  }

  /** CC20_ODD_ROUND; `ssse3` says whether the byte shuffles are there. */
  method OddRound(ssse3: bool, r: Rows) returns (s: Rows)
    ensures s == ColumnRows(r)
  {
    hide ROL, ROL8, ROL16, Rotated, ADD, XOR, ColumnRows;
    LanesAreColumns(r);
    var A, B, C, D := r.a, r.b, r.c, r.d;
    A := ADD(A, B);
    RotatedOk(XOR(D, A));
    D := if ssse3 then ROL16(XOR(D, A)) else ROL(XOR(D, A), 16);
    C := ADD(C, D);
    RotatedOk(XOR(B, C));
    B := ROL(XOR(B, C), 12);
    A := ADD(A, B);
    RotatedOk(XOR(D, A));
    D := if ssse3 then ROL8(XOR(D, A)) else ROL(XOR(D, A), 8);
    C := ADD(C, D);
    RotatedOk(XOR(B, C));
    B := ROL(XOR(B, C), 7);
    s := Rows(A, B, C, D);
  }

  /** CC20_DOUBLE_ROUND, the n-th in a row. */
  method DoubleRound(ssse3: bool, r: Rows, ghost start: seq<bv32>, ghost n: nat) returns (s: Rows)
    requires |start| == 16 && Flat(r) == DoubleRounds(start, n)
    ensures Flat(s) == DoubleRounds(start, n + 1)
  {
    hide Flat, ColumnRows, ColumnRound, DiagonalRound, Turn, TurnBack;
    DoubleRowsFlat(r);
    s := OddRound(ssse3, r);
    s := Turn(s);
    s := OddRound(ssse3, s);
    s := TurnBack(s);
  }
}
