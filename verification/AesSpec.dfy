/** The cipher of FIPS 197 on columns and states, with no tables. */
module AesSpec {
  import opened AesField

  type bytes = seq<bv8>

  /** A column, or a word of the key schedule: row 0 first. */
  datatype Col = Col(b0: bv8, b1: bv8, b2: bv8, b3: bv8)

  datatype State = State(c0: Col, c1: Col, c2: Col, c3: Col)

  function AddCol(a: Col, b: Col): Col {
    Col(Add(a.b0, b.b0), Add(a.b1, b.b1), Add(a.b2, b.b2), Add(a.b3, b.b3))
  }

  function AddKey(s: State, k: State): State {
    State(AddCol(s.c0, k.c0), AddCol(s.c1, k.c1), AddCol(s.c2, k.c2), AddCol(s.c3, k.c3))
  }

  function SubCol(c: Col): Col {
    Col(S(c.b0), S(c.b1), S(c.b2), S(c.b3))
  }

  function InvSubCol(c: Col): Col {
    Col(Si(c.b0), Si(c.b1), Si(c.b2), Si(c.b3))
  }

  function SubBytes(s: State): State {
    State(SubCol(s.c0), SubCol(s.c1), SubCol(s.c2), SubCol(s.c3))
  }

  function InvSubBytes(s: State): State {
    State(InvSubCol(s.c0), InvSubCol(s.c1), InvSubCol(s.c2), InvSubCol(s.c3))
  }

  /** Row r turns left by r columns. */
  function ShiftRows(s: State): State {
    State(Col(s.c0.b0, s.c1.b1, s.c2.b2, s.c3.b3), Col(s.c1.b0, s.c2.b1, s.c3.b2, s.c0.b3),
          Col(s.c2.b0, s.c3.b1, s.c0.b2, s.c1.b3), Col(s.c3.b0, s.c0.b1, s.c1.b2, s.c2.b3))
  }

  function InvShiftRows(s: State): State {
    State(Col(s.c0.b0, s.c3.b1, s.c2.b2, s.c1.b3), Col(s.c1.b0, s.c0.b1, s.c3.b2, s.c2.b3),
          Col(s.c2.b0, s.c1.b1, s.c0.b2, s.c3.b3), Col(s.c3.b0, s.c2.b1, s.c1.b2, s.c0.b3))
  }

  function Sum(a: bv8, b: bv8, c: bv8, d: bv8): bv8 {
    Add(Add(Add(a, b), c), d)
  }

  function MixCol(c: Col): Col {
    Col(Sum(By2(c.b0), By3(c.b1), c.b2, c.b3), Sum(c.b0, By2(c.b1), By3(c.b2), c.b3),
        Sum(c.b0, c.b1, By2(c.b2), By3(c.b3)), Sum(By3(c.b0), c.b1, c.b2, By2(c.b3)))
  }

  function InvMixCol(c: Col): Col {
    Col(Sum(ByE(c.b0), ByB(c.b1), ByD(c.b2), By9(c.b3)), Sum(By9(c.b0), ByE(c.b1), ByB(c.b2), ByD(c.b3)),
        Sum(ByD(c.b0), By9(c.b1), ByE(c.b2), ByB(c.b3)), Sum(ByB(c.b0), ByD(c.b1), By9(c.b2), ByE(c.b3)))
  }

  function MixColumns(s: State): State {
    State(MixCol(s.c0), MixCol(s.c1), MixCol(s.c2), MixCol(s.c3))
  }

  function InvMixColumns(s: State): State {
    State(InvMixCol(s.c0), InvMixCol(s.c1), InvMixCol(s.c2), InvMixCol(s.c3))
  }

  // ---------------------------------------------------------------- the key schedule, section 5.2

  function WordAt(key: bytes, i: nat): Col
    requires 4 * i + 4 <= |key|
  {
    Col(key[4 * i], key[4 * i + 1], key[4 * i + 2], key[4 * i + 3])
  }

  function RotWord(c: Col): Col {
    Col(c.b1, c.b2, c.b3, c.b0)
  }

  /** Powers of x, from j = 1. */
  function Rcon(j: nat): bv8 {
    if j <= 1 then 1 else XTime(Rcon(j - 1))
  }

  function NextWord(w: seq<Col>, nk: nat): Col
    requires |w| >= nk > 0
  {
    var i, temp := |w|, w[|w| - 1];
    AddCol(w[i - nk],
           if i % nk == 0 then AddCol(SubCol(RotWord(temp)), Col(Rcon(i / nk), 0, 0, 0))
           else if nk > 6 && i % nk == 4 then SubCol(temp)
           else temp)
  }

  /** The first n words of the schedule of a key of nk words. */
  function Expand(key: bytes, nk: nat, n: nat): (w: seq<Col>)
    requires |key| == 4 * nk && nk > 0
    ensures |w| == n
  {
    if n == 0 then [] else
      var w := Expand(key, nk, n - 1);
      w + [if n <= nk then WordAt(key, n - 1) else NextWord(w, nk)]
  }

  /** Round keys: four words a round. */
  ghost predicate IsSchedule(w: seq<Col>, nr: nat) {
    |w| == 4 * (nr + 1) && nr > 0
  }

  function RoundKey(w: seq<Col>, r: nat): State
    requires 4 * r + 4 <= |w|
  {
    State(w[4 * r], w[4 * r + 1], w[4 * r + 2], w[4 * r + 3])
  }

  // ---------------------------------------------------------------- the cipher and its inverse

  function ShiftSub(s: State): State {
    ShiftRows(SubBytes(s))
  }

  function InvShiftSub(s: State): State {
    InvSubBytes(InvShiftRows(s))
  }

  /** The first n full rounds, section 5.1. */
  function Rounds(w: seq<Col>, s: State, n: nat): State
    requires |w| >= 4 * n + 4
  {
    if n == 0 then AddKey(s, RoundKey(w, 0))
    else AddKey(MixColumns(ShiftSub(Rounds(w, s, n - 1))), RoundKey(w, n))
  }

  function Cipher(w: seq<Col>, nr: nat, s: State): State
    requires IsSchedule(w, nr)
  {
    AddKey(ShiftSub(Rounds(w, s, nr - 1)), RoundKey(w, nr))
  }

  /** The first n rounds of the inverse cipher, section 5.3. */
  function InvRounds(w: seq<Col>, nr: nat, s: State, n: nat): State
    requires IsSchedule(w, nr) && n <= nr
  {
    if n == 0 then AddKey(s, RoundKey(w, nr))
    else InvMixColumns(AddKey(InvShiftSub(InvRounds(w, nr, s, n - 1)), RoundKey(w, nr - n)))
  }

  function InvCipher(w: seq<Col>, nr: nat, s: State): State
    requires IsSchedule(w, nr)
  {
    AddKey(InvShiftSub(InvRounds(w, nr, s, nr - 1)), RoundKey(w, 0))
  }

  lemma AddColTwice(c: Col, k: Col)
    ensures AddCol(AddCol(c, k), k) == c
  {
  }

  lemma AddTwice(s: State, k: State)
    ensures AddKey(AddKey(s, k), k) == s
  {
    AddColTwice(s.c0, k.c0);
    AddColTwice(s.c1, k.c1);
    AddColTwice(s.c2, k.c2);
    AddColTwice(s.c3, k.c3);
    hide AddCol;
  }

  lemma InvShiftSubOk(s: State)
    ensures InvShiftSub(ShiftSub(s)) == s
  {
    hide S, Si;
    assert forall x :: Si(S(x)) == x by {
      forall x ensures Si(S(x)) == x { SiS(x); }
    }
  }

  lemma SumAdd(a: bv8, b: bv8, c: bv8, d: bv8, e: bv8, f: bv8, g: bv8, h: bv8)
    ensures Sum(Add(a, e), Add(b, f), Add(c, g), Add(d, h)) == Add(Sum(a, b, c, d), Sum(e, f, g, h))
  {
    hide Add;
    Swap2(a, e, b, f);
    Swap2(Add(a, b), Add(e, f), c, g);
    Swap2(Add(Add(a, b), c), Add(Add(e, f), g), d, h);
  }

  lemma MixColAdd(a: Col, b: Col)
    ensures MixCol(AddCol(a, b)) == AddCol(MixCol(a), MixCol(b))
  {
    hide Sum, Add, By2, By3;
    ProductsAdd(a.b0, b.b0);
    ProductsAdd(a.b1, b.b1);
    ProductsAdd(a.b2, b.b2);
    ProductsAdd(a.b3, b.b3);
    SumAdd(By2(a.b0), By3(a.b1), a.b2, a.b3, By2(b.b0), By3(b.b1), b.b2, b.b3);
    SumAdd(a.b0, By2(a.b1), By3(a.b2), a.b3, b.b0, By2(b.b1), By3(b.b2), b.b3);
    SumAdd(a.b0, a.b1, By2(a.b2), By3(a.b3), b.b0, b.b1, By2(b.b2), By3(b.b3));
    SumAdd(By3(a.b0), a.b1, a.b2, By2(a.b3), By3(b.b0), b.b1, b.b2, By2(b.b3));
  }

  lemma InvMixColAdd(a: Col, b: Col)
    ensures InvMixCol(AddCol(a, b)) == AddCol(InvMixCol(a), InvMixCol(b))
  {
    hide Sum, Add, By9, ByB, ByD, ByE;
    ProductsAdd(a.b0, b.b0);
    ProductsAdd(a.b1, b.b1);
    ProductsAdd(a.b2, b.b2);
    ProductsAdd(a.b3, b.b3);
    SumAdd(ByE(a.b0), ByB(a.b1), ByD(a.b2), By9(a.b3), ByE(b.b0), ByB(b.b1), ByD(b.b2), By9(b.b3));
    SumAdd(By9(a.b0), ByE(a.b1), ByB(a.b2), ByD(a.b3), By9(b.b0), ByE(b.b1), ByB(b.b2), ByD(b.b3));
    SumAdd(ByD(a.b0), By9(a.b1), ByE(a.b2), ByB(a.b3), ByD(b.b0), By9(b.b1), ByE(b.b2), ByB(b.b3));
    SumAdd(ByB(a.b0), ByD(a.b1), By9(a.b2), ByE(a.b3), ByB(b.b0), ByD(b.b1), By9(b.b2), ByE(b.b3));
  }

  /** The product of the two matrices, entry by entry. */
  lemma InvMixEntries(x: bv8)
    ensures Sum(ByE(By2(x)), ByB(x), ByD(x), By9(By3(x))) == x
    ensures Sum(By9(By2(x)), ByE(x), ByB(x), ByD(By3(x))) == 0
    ensures Sum(ByD(By2(x)), By9(x), ByE(x), ByB(By3(x))) == 0
    ensures Sum(ByB(By2(x)), ByD(x), By9(x), ByE(By3(x))) == 0
  {
  }

  lemma ZeroEntries()
    ensures By2(0) == By3(0) == By9(0) == ByB(0) == ByD(0) == ByE(0) == 0
  {
  }

  lemma SumZero(x: bv8)
    ensures Sum(x, 0, 0, 0) == x && Sum(0, x, 0, 0) == x && Sum(0, 0, x, 0) == x && Sum(0, 0, 0, x) == x
  {
  }

  lemma SumTurn(a: bv8, b: bv8, c: bv8, d: bv8)
    ensures Sum(a, b, c, d) == Sum(b, c, d, a)
  {
  }

  /** The entries stay what they are when a row of the product is turned. */
  lemma InvMixTurned(x: bv8)
    ensures Sum(By9(By3(x)), ByE(By2(x)), ByB(x), ByD(x)) == Sum(ByD(x), By9(By3(x)), ByE(By2(x)), ByB(x)) == x
    ensures Sum(ByB(x), ByD(x), By9(By3(x)), ByE(By2(x))) == x
    ensures Sum(ByD(By3(x)), By9(By2(x)), ByE(x), ByB(x)) == Sum(ByB(x), ByD(By3(x)), By9(By2(x)), ByE(x)) == 0
    ensures Sum(ByE(x), ByB(x), ByD(By3(x)), By9(By2(x))) == 0
    ensures Sum(ByB(By3(x)), ByD(By2(x)), By9(x), ByE(x)) == Sum(ByE(x), ByB(By3(x)), ByD(By2(x)), By9(x)) == 0
    ensures Sum(By9(x), ByE(x), ByB(By3(x)), ByD(By2(x))) == 0
    ensures Sum(ByE(By3(x)), ByB(By2(x)), ByD(x), By9(x)) == Sum(By9(x), ByE(By3(x)), ByB(By2(x)), ByD(x)) == 0
    ensures Sum(ByD(x), By9(x), ByE(By3(x)), ByB(By2(x))) == 0
  {
    InvMixEntries(x);
    hide By2, By3, By9, ByB, ByD, ByE, Sum, Add;
    SumTurns(ByE(By2(x)), ByB(x), ByD(x), By9(By3(x)));
    SumTurns(By9(By2(x)), ByE(x), ByB(x), ByD(By3(x)));
    SumTurns(ByD(By2(x)), By9(x), ByE(x), ByB(By3(x)));
    SumTurns(ByB(By2(x)), ByD(x), By9(x), ByE(By3(x)));
  }

  lemma SumTurns(a: bv8, b: bv8, c: bv8, d: bv8)
    ensures Sum(a, b, c, d) == Sum(d, a, b, c) == Sum(c, d, a, b) == Sum(b, c, d, a)
  {
    hide Sum;
    SumTurn(a, b, c, d);
    SumTurn(b, c, d, a);
    SumTurn(c, d, a, b);
  }

  /** On one byte of a column the two matrices cancel. */
  lemma InvMixByte(x: bv8)
    ensures InvMixCol(MixCol(Col(x, 0, 0, 0))) == Col(x, 0, 0, 0)
    ensures InvMixCol(MixCol(Col(0, x, 0, 0))) == Col(0, x, 0, 0)
    ensures InvMixCol(MixCol(Col(0, 0, x, 0))) == Col(0, 0, x, 0)
    ensures InvMixCol(MixCol(Col(0, 0, 0, x))) == Col(0, 0, 0, x)
  {
    InvMixEntries(x);
    InvMixTurned(x);
    ZeroEntries();
    SumZero(x);
    SumZero(By2(x));
    SumZero(By3(x));
    hide By2, By3, By9, ByB, ByD, ByE, Sum, Add;
  }

  lemma InvMixColOk(c: Col)
    ensures InvMixCol(MixCol(c)) == c
  {
    var a, b := Col(c.b0, 0, 0, 0), Col(0, c.b1, 0, 0);
    var d, e := Col(0, 0, c.b2, 0), Col(0, 0, 0, c.b3);
    InvMixByte(c.b0);
    InvMixByte(c.b1);
    InvMixByte(c.b2);
    InvMixByte(c.b3);
    assert AddCol(AddCol(a, b), AddCol(d, e)) == c;
    hide MixCol, InvMixCol;
    MixColAdd(a, b);
    MixColAdd(d, e);
    MixColAdd(AddCol(a, b), AddCol(d, e));
    InvMixColAdd(MixCol(a), MixCol(b));
    InvMixColAdd(MixCol(d), MixCol(e));
    InvMixColAdd(MixCol(AddCol(a, b)), MixCol(AddCol(d, e)));
  }

  lemma InvMixOk(s: State)
    ensures InvMixColumns(MixColumns(s)) == s
  {
    hide MixCol, InvMixCol;
    InvMixColOk(s.c0);
    InvMixColOk(s.c1);
    InvMixColOk(s.c2);
    InvMixColOk(s.c3);
  }

  lemma InvMixAdd(s: State, k: State)
    ensures InvMixColumns(AddKey(s, k)) == AddKey(InvMixColumns(s), InvMixColumns(k))
  {
    hide InvMixCol, AddCol;
    InvMixColAdd(s.c0, k.c0);
    InvMixColAdd(s.c1, k.c1);
    InvMixColAdd(s.c2, k.c2);
    InvMixColAdd(s.c3, k.c3);
  }

  /** Undoing n rounds from the end leaves the state after the others, its bytes substituted and shifted. */
  lemma {:induction false} InvRoundsUndo(w: seq<Col>, nr: nat, s: State, n: nat)
    requires IsSchedule(w, nr) && n < nr
    ensures InvRounds(w, nr, Cipher(w, nr, s), n) == ShiftSub(Rounds(w, s, nr - 1 - n))
  {
    hide AddKey, ShiftSub, InvShiftSub, MixColumns, InvMixColumns, RoundKey;
    if n == 0 {
      AddTwice(ShiftSub(Rounds(w, s, nr - 1)), RoundKey(w, nr));
    } else {
      InvRoundsUndo(w, nr, s, n - 1);
      var before := ShiftSub(Rounds(w, s, nr - 1 - n));
      InvShiftSubOk(Rounds(w, s, nr - n));
      AddTwice(MixColumns(before), RoundKey(w, nr - n));
      InvMixOk(before);
    }
  }

  /** The inverse cipher inverts the cipher, whatever the round keys. */
  lemma InvCipherOk(w: seq<Col>, nr: nat, s: State)
    requires IsSchedule(w, nr)
    ensures InvCipher(w, nr, Cipher(w, nr, s)) == s
  {
    InvRoundsUndo(w, nr, s, nr - 1);
    hide AddKey, ShiftSub, InvShiftSub, RoundKey;
    InvShiftSubOk(Rounds(w, s, 0));
    AddTwice(s, RoundKey(w, 0));
  }

  // ---------------------------------------------------------------- the equivalent inverse cipher

  /** The round keys of section 5.3.5: reversed, with InvMixColumns on all but the first and last round. */
  function DecKeyWord(w: seq<Col>, nr: nat, i: nat): Col
    requires IsSchedule(w, nr) && i < |w|
  {
    var word := w[4 * (nr - i / 4) + i % 4];
    if 4 <= i < 4 * nr then InvMixCol(word) else word
  }

  function DecSchedule(w: seq<Col>, nr: nat): (d: seq<Col>)
    requires IsSchedule(w, nr)
    ensures IsSchedule(d, nr)
  {
    seq(|w|, i requires 0 <= i < |w| => DecKeyWord(w, nr, i))
  }

  /** Its rounds: the same steps in the order of the cipher. */
  function EqRounds(d: seq<Col>, s: State, n: nat): State
    requires |d| >= 4 * n + 4
  {
    if n == 0 then AddKey(s, RoundKey(d, 0))
    else AddKey(InvMixColumns(InvShiftSub(EqRounds(d, s, n - 1))), RoundKey(d, n))
  }

  function EqInvCipher(d: seq<Col>, nr: nat, s: State): State
    requires IsSchedule(d, nr)
  {
    AddKey(InvShiftSub(EqRounds(d, s, nr - 1)), RoundKey(d, nr))
  }

  lemma DecKeys(w: seq<Col>, nr: nat, r: nat)
    requires IsSchedule(w, nr) && r <= nr
    ensures RoundKey(DecSchedule(w, nr), r) ==
            if 0 < r < nr then InvMixColumns(RoundKey(w, nr - r)) else RoundKey(w, nr - r)
  {
    hide InvMixCol;
  }

  /** The two kinds of rounds agree as soon as their keys do. */
  lemma {:induction false} EqRoundsSame(w: seq<Col>, d: seq<Col>, nr: nat, s: State, n: nat)
    requires IsSchedule(w, nr) && IsSchedule(d, nr) && n < nr
    requires RoundKey(d, 0) == RoundKey(w, nr)
    requires forall r :: 0 < r < nr ==> RoundKey(d, r) == InvMixColumns(RoundKey(w, nr - r))
    ensures EqRounds(d, s, n) == InvRounds(w, nr, s, n)
  {
    hide AddKey, InvShiftSub, InvMixColumns, RoundKey;
    if n > 0 {
      EqRoundsSame(w, d, nr, s, n - 1);
      InvMixAdd(InvShiftSub(InvRounds(w, nr, s, n - 1)), RoundKey(w, nr - n));
    }
  }

  lemma AllDecKeys(w: seq<Col>, nr: nat)
    requires IsSchedule(w, nr)
    ensures var d := DecSchedule(w, nr);
            && RoundKey(d, 0) == RoundKey(w, nr) && RoundKey(d, nr) == RoundKey(w, 0)
            && forall r :: 0 < r < nr ==> RoundKey(d, r) == InvMixColumns(RoundKey(w, nr - r))
  {
    var d := DecSchedule(w, nr);
    hide RoundKey, DecSchedule, InvMixColumns;
    DecKeys(w, nr, 0);
    DecKeys(w, nr, nr);
    forall r | 0 < r < nr ensures RoundKey(d, r) == InvMixColumns(RoundKey(w, nr - r)) {
      DecKeys(w, nr, r);
    }
  }

  /** The equivalent inverse cipher with the transformed schedule is the inverse cipher. */
  lemma EqInvCipherOk(w: seq<Col>, nr: nat, s: State)
    requires IsSchedule(w, nr)
    ensures EqInvCipher(DecSchedule(w, nr), nr, s) == InvCipher(w, nr, s)
  {
    hide AddKey, InvShiftSub, RoundKey, DecSchedule, InvMixColumns, EqRounds, InvRounds;
    AllDecKeys(w, nr);
    EqRoundsSame(w, DecSchedule(w, nr), nr, s, nr - 1);
  }
}
