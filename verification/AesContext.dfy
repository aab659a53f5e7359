/** aes.c in place: key schedules in arrays of words, blocks in arrays of bytes. */
module Aes {
  import opened AesField
  import opened AesSpec
  import opened AesTables
  import opened AesChaining

  /** The array begins with the words of this schedule. */
  ghost predicate Holds(rk: array<bv32>, w: seq<Col>)
    reads rk
  {
    |w| <= rk.Length && forall i :: 0 <= i < |w| ==> ColOf(rk[i]) == w[i]
  }

  function Get(b: bytes, i: nat): (x: bv32)
    requires i + 4 <= |b|
    ensures ColOf(x) == ColAt(b, i)
  {
    PackCol(b[i], b[i + 1], b[i + 2], b[i + 3]);
    Pack(b[i], b[i + 1], b[i + 2], b[i + 3])
  }

  // ---------------------------------------------------------------- key schedules

  function KeyRounds(nk: nat): nat {
    nk + 6
  }

  /** The key schedule of section 5.2. */
  function Schedule(key: bytes, nk: nat): seq<Col>
    requires |key| == 4 * nk && nk > 0
  {
    Expand(key, nk, 4 * (KeyRounds(nk) + 1))
  }

  /** A word of the key itself. */
  method LoadWord(rk: array<bv32>, key: bytes, i: nat, ghost nk: nat)
    requires rk.Length == 60 && i < nk <= 8 && |key| >= 4 * nk && Holds(rk, Expand(key[..4 * nk], nk, i))
    modifies rk
    ensures Holds(rk, Expand(key[..4 * nk], nk, i + 1))
  {
    rk[i] := Get(key, 4 * i);
    assert ColAt(key, 4 * i) == WordAt(key[..4 * nk], i);
  }

  lemma ExpandNext(key: bytes, nk: nat, m: nat)
    requires |key| == 4 * nk && nk > 0 && m >= nk
    ensures Expand(key, nk, m + 1) == Expand(key, nk, m) + [NextWord(Expand(key, nk, m), nk)]
  {
  }

  /** A word that is its predecessor added to the word one key length back. */
  method Chain(rk: array<bv32>, m: nat, nk: nat, ghost key: bytes)
    requires rk.Length == 60 && nk <= m < 60 && |key| == 4 * nk && nk > 0
    requires m % nk != 0 && !(nk > 6 && m % nk == 4)
    requires Holds(rk, Expand(key, nk, m))
    modifies rk
    ensures Holds(rk, Expand(key, nk, m + 1))
  {
    hide Expand, ColOf, AddCol, Xor;
    ExpandNext(key, nk, m);
    XorCol(rk[m - nk], rk[m - 1]);
    rk[m] := Xor(rk[m - nk], rk[m - 1]);
  }

  /** The first word of step i. */
  method Turn(rk: array<bv32>, m: nat, nk: nat, i: nat, ghost key: bytes)
    requires rk.Length == 60 && nk <= m < 60 && |key| == 4 * nk && nk > 0
    requires i < 10 && m % nk == 0 && m / nk == i + 1
    requires Holds(rk, Expand(key, nk, m))
    modifies rk
    ensures Holds(rk, Expand(key, nk, m + 1))
  {
    hide Expand, ColOf, AddCol, SubCol, RotWord, Rcon, RconAt, TurnWord;
    ExpandNext(key, nk, m);
    TurnWordOk(rk[m - nk], rk[m - 1], i);
    rk[m] := TurnWord(rk[m - nk], rk[m - 1], RconAt(i));
  }

  /** The middle word of a step with eight words. */
  method Middle(rk: array<bv32>, m: nat, ghost key: bytes)
    requires rk.Length == 60 && 8 <= m < 60 && |key| == 32 && m % 8 == 4
    requires Holds(rk, Expand(key, 8, m))
    modifies rk
    ensures Holds(rk, Expand(key, 8, m + 1))
  {
    hide Expand, ColOf, AddCol, SubCol, MiddleWord;
    ExpandNext(key, 8, m);
    MiddleWordOk(rk[m - 8], rk[m - 1]);
    rk[m] := MiddleWord(rk[m - 8], rk[m - 1]);
  }

  /** The loop for 128 bits. */
  method Expand128(rk: array<bv32>, ghost key: bytes)
    requires rk.Length == 60 && |key| == 16 && Holds(rk, Expand(key, 4, 4))
    modifies rk
    ensures Holds(rk, Schedule(key, 4))
  {
    hide Expand, Holds;
    var i, p := 0, 0;
    while i < 10
      invariant 0 <= i <= 10 && p == 4 * i && Holds(rk, Expand(key, 4, p + 4))
    {
      Turn(rk, p + 4, 4, i, key);
      Chain(rk, p + 5, 4, key);
      Chain(rk, p + 6, 4, key);
      Chain(rk, p + 7, 4, key);
      i, p := i + 1, p + 4;
    }
  }

  /** The loop for 192 bits; its last step stops after four words. */
  method Expand192(rk: array<bv32>, ghost key: bytes)
    requires rk.Length == 60 && |key| == 24 && Holds(rk, Expand(key, 6, 6))
    modifies rk
    ensures Holds(rk, Schedule(key, 6))
  {
    hide Expand, Holds;
    var i, p := 0, 0;
    while true
      invariant 0 <= i < 8 && p == 6 * i && Holds(rk, Expand(key, 6, p + 6))
      decreases 8 - i
    {
      Turn(rk, p + 6, 6, i, key);
      Chain(rk, p + 7, 6, key);
      Chain(rk, p + 8, 6, key);
      Chain(rk, p + 9, 6, key);
      i := i + 1;
      if i == 8 { return; }
      Chain(rk, p + 10, 6, key);
      Chain(rk, p + 11, 6, key);
      p := p + 6;
    }
  }

  /** The loop for 256 bits. */
  method Expand256(rk: array<bv32>, ghost key: bytes)
    requires rk.Length == 60 && |key| == 32 && Holds(rk, Expand(key, 8, 8))
    modifies rk
    ensures Holds(rk, Schedule(key, 8))
  {
    hide Expand, Holds;
    var i, p := 0, 0;
    while true
      invariant 0 <= i < 7 && p == 8 * i && Holds(rk, Expand(key, 8, p + 8))
      decreases 7 - i
    {
      Turn(rk, p + 8, 8, i, key);
      Chain(rk, p + 9, 8, key);
      Chain(rk, p + 10, 8, key);
      Chain(rk, p + 11, 8, key);
      i := i + 1;
      if i == 7 { return; }
      Middle(rk, p + 12, key);
      Chain(rk, p + 13, 8, key);
      Chain(rk, p + 14, 8, key);
      Chain(rk, p + 15, 8, key);
      p := p + 8;
    }
  }

  /** aes_internal_key_setup_enc: the number of rounds, or zero for another key size. */
  method KeySetupEnc(rk: array<bv32>, key: bytes, keyBits: nat) returns (nr: nat)
    requires rk.Length == 60 && |key| >= (if keyBits == 128 then 16 else if keyBits == 192 then 24 else 32)
    modifies rk
    ensures nr == if keyBits == 128 then 10 else if keyBits == 192 then 12 else if keyBits == 256 then 14 else 0
    ensures nr != 0 ==>
              |key[..keyBits / 8]| == 4 * (keyBits / 32)
              && Holds(rk, Schedule(key[..keyBits / 8], keyBits / 32))
  {
    hide Expand, Holds;
    ghost var nk := if keyBits == 128 then 4 else if keyBits == 192 then 6 else 8;
    LoadWord(rk, key, 0, nk);
    LoadWord(rk, key, 1, nk);
    LoadWord(rk, key, 2, nk);
    LoadWord(rk, key, 3, nk);
    if keyBits == 128 {
      Expand128(rk, key[..16]);
      return 10;
    }
    LoadWord(rk, key, 4, nk);
    LoadWord(rk, key, 5, nk);
    if keyBits == 192 {
      Expand192(rk, key[..24]);
      return 12;
    }
    LoadWord(rk, key, 6, nk);
    LoadWord(rk, key, 7, nk);
    if keyBits == 256 {
      Expand256(rk, key[..32]);
      return 14;
    }
    nr := 0;
  }

  function Swapped(s: seq<bv32>, i: nat, j: nat): (t: seq<bv32>)
    requires i < |s| && j < |s|
    ensures |t| == |s|
  {
    s[i := s[j]][j := s[i]]
  }

  method Swap(rk: array<bv32>, i: nat, j: nat)
    requires i < rk.Length && j < rk.Length
    modifies rk
    ensures rk[..] == Swapped(old(rk[..]), i, j)
  {
    var temp := rk[i];
    rk[i] := rk[j];
    rk[j] := temp;
  }

  /** Where the word at k comes from when two round keys are swapped. */
  function Other(i: nat, j: nat, k: nat): (m: int)
    ensures i <= j ==> 0 <= m <= if k < j + 4 then j + 3 else k
  {
    if i <= k < i + 4 then k + (j - i) else if j <= k < j + 4 then k - (j - i) else k
  }

  lemma SwappedFour(s: seq<bv32>, i: nat, j: nat)
    requires i + 4 <= j && j + 4 <= |s|
    ensures var t := Swapped(Swapped(Swapped(Swapped(s, i, j), i + 1, j + 1), i + 2, j + 2), i + 3, j + 3);
            |t| == |s| && forall k :: 0 <= k < |s| ==> t[k] == s[Other(i, j, k)]
  {
  }

  method SwapKeys(rk: array<bv32>, i: nat, j: nat)
    requires i + 4 <= j && j + 4 <= rk.Length
    modifies rk
    ensures forall k :: 0 <= k < rk.Length ==> rk[..][k] == old(rk[..])[Other(i, j, k)]
  {
    hide Swapped, Other;
    SwappedFour(rk[..], i, j);
    Swap(rk, i, j);
    Swap(rk, i + 1, j + 1);
    Swap(rk, i + 2, j + 2);
    Swap(rk, i + 3, j + 3);
  }

  /** Swapping whole round keys from both ends. */
  method ReverseKeys(rk: array<bv32>, nr: nat)
    requires rk.Length >= 4 * (nr + 1)
    modifies rk
    ensures forall r, c :: 0 <= r <= nr && 0 <= c < 4 ==> KeyAt(rk[..], r, c) == KeyAt(old(rk[..]), nr - r, c)
  {
    hide KeyAt, HalfReversed, Other;
    var i, j := 0, 4 * nr;
    ghost var a := 0;
    ghost var before := rk[..];
    ReversedEnds(before, rk[..], nr, 0);
    while i < j
      invariant 0 <= a <= nr + 1 && i == 4 * a && j == 4 * (nr - a)
      invariant HalfReversed(before, rk[..], nr, a)
    {
      ghost var k := rk[..];
      SwapKeys(rk, i, j);
      SwappedKeys(k, rk[..], nr, a);
      MoreReversed(before, k, rk[..], nr, a);
      i, j, a := i + 4, j - 4, a + 1;
    }
    ReversedEnds(before, rk[..], nr, a);
  }

  lemma ReversedEnds(before: seq<bv32>, now: seq<bv32>, nr: nat, a: nat)
    requires |before| >= 4 * (nr + 1)
    ensures now == before && a == 0 ==> HalfReversed(before, now, nr, a)
    ensures HalfReversed(before, now, nr, a) && a >= nr - a ==>
              |now| == |before|
              && forall r, c :: 0 <= r <= nr && 0 <= c < 4 ==> KeyAt(now, r, c) == KeyAt(before, nr - r, c)
  {
    hide KeyAt;
  }

  /** The outer a round keys on each side have changed places. */
  ghost predicate HalfReversed(before: seq<bv32>, now: seq<bv32>, nr: nat, a: nat) {
    && |now| == |before| >= 4 * (nr + 1)
    && forall r, c :: 0 <= r <= nr && 0 <= c < 4
        ==> KeyAt(now, r, c) == KeyAt(before, if a <= r <= nr - a then r else nr - r, c)
  }

  lemma SwappedKeys(k: seq<bv32>, now: seq<bv32>, nr: nat, a: nat)
    requires |now| == |k| >= 4 * (nr + 1) && a < nr - a
    requires forall i :: 0 <= i < |now| ==>
               0 <= Other(4 * a, 4 * (nr - a), i) < |k| && now[i] == k[Other(4 * a, 4 * (nr - a), i)]
    ensures forall r, c :: 0 <= r <= nr && 0 <= c < 4 ==>
              KeyAt(now, r, c) == KeyAt(k, if r == a then nr - a else if r == nr - a then a else r, c)
  {
  }

  lemma MoreReversed(before: seq<bv32>, k: seq<bv32>, now: seq<bv32>, nr: nat, a: nat)
    requires HalfReversed(before, k, nr, a) && a < nr - a && |now| == |k|
    requires forall r, c :: 0 <= r <= nr && 0 <= c < 4 ==>
               KeyAt(now, r, c) == KeyAt(k, if r == a then nr - a else if r == nr - a then a else r, c)
    ensures HalfReversed(before, now, nr, a + 1)
  {
    hide KeyAt;
  }

  function KeyAt(rk: seq<bv32>, r: nat, c: nat): bv32
    requires 4 * r + c < |rk|
  {
    rk[4 * r + c]
  }

  /** INVMIXCOLRK on all round keys but the first and the last. */
  method TransformKeys(rk: array<bv32>, nr: nat)
    requires rk.Length >= 4 * (nr + 1) && nr > 0
    modifies rk
    ensures forall i :: 0 <= i < 4 * (nr + 1) ==>
              rk[i] == if 4 <= i < 4 * nr then InvMixWord(old(rk[i])) else old(rk[i])
  {
    hide InvMixWord;
    var i := 1;
    while i < nr
      invariant 1 <= i <= nr
      invariant forall k :: 0 <= k < 4 * (nr + 1) ==>
                  rk[k] == if 4 <= k < 4 * i then InvMixWord(old(rk[k])) else old(rk[k])
    {
      var p := 4 * i;
      rk[p] := InvMixWord(rk[p]);
      rk[p + 1] := InvMixWord(rk[p + 1]);
      rk[p + 2] := InvMixWord(rk[p + 2]);
      rk[p + 3] := InvMixWord(rk[p + 3]);
      i := i + 1;
    }
  }

  /** aes_internal_key_setup_dec: the schedule of the equivalent inverse cipher. */
  method KeySetupDec(rk: array<bv32>, key: bytes, keyBits: nat) returns (nr: nat)
    requires rk.Length == 60 && (keyBits == 128 || keyBits == 192 || keyBits == 256) && |key| >= keyBits / 8
    modifies rk
    ensures nr == KeyRounds(keyBits / 32) && |key[..keyBits / 8]| == 4 * (keyBits / 32)
    ensures Holds(rk, DecSchedule(Schedule(key[..keyBits / 8], keyBits / 32), nr))
  {
    hide Expand, Holds;
    nr := KeySetupEnc(rk, key, keyBits);
    ghost var w := Schedule(key[..keyBits / 8], keyBits / 32);
    ghost var k0 := rk[..];
    HoldsAs(rk, w);
    ReverseKeys(rk, nr);
    ghost var k1 := rk[..];
    TransformKeys(rk, nr);
    TransformedHolds(rk, w, nr, k0, k1);
  }

  lemma HoldsAs(rk: array<bv32>, w: seq<Col>)
    requires Holds(rk, w)
    ensures |w| <= |rk[..]| && forall i :: 0 <= i < |w| ==> ColOf(rk[..][i]) == w[i]
  {
  }

  /** Reversed and transformed, the words are those of the decryption schedule. */
  lemma TransformedHolds(rk: array<bv32>, w: seq<Col>, nr: nat, k0: seq<bv32>, k1: seq<bv32>)
    requires IsSchedule(w, nr) && |w| <= rk.Length == |k0| == |k1|
    requires forall i :: 0 <= i < |w| ==> ColOf(k0[i]) == w[i]
    requires forall r, c :: 0 <= r <= nr && 0 <= c < 4 ==> KeyAt(k1, r, c) == KeyAt(k0, nr - r, c)
    requires forall i :: 0 <= i < |w| ==> rk[i] == if 4 <= i < 4 * nr then InvMixWord(k1[i]) else k1[i]
    ensures Holds(rk, DecSchedule(w, nr))
  {
    hide InvMixCol, InvMixWord, ColOf;
    forall i | 0 <= i < |w| ensures ColOf(rk[i]) == DecSchedule(w, nr)[i] {
      var r, c := i / 4, i % 4;
      assert i == 4 * r + c && k1[i] == KeyAt(k1, r, c) == KeyAt(k0, nr - r, c);
      InvMixWordOk(k1[i]);
    }
  }

  // ---------------------------------------------------------------- one block

  function StateOf(a: bv32, b: bv32, c: bv32, d: bv32): State {
    State(ColOf(a), ColOf(b), ColOf(c), ColOf(d))
  }

  /** AES_ENC_ROUND */
  method EncRound(rk: array<bv32>, s0: bv32, s1: bv32, s2: bv32, s3: bv32, round: nat, ghost w: seq<Col>,
                  ghost p: State)
    returns (t0: bv32, t1: bv32, t2: bv32, t3: bv32)
    requires Holds(rk, w) && 0 < round && 4 * round + 4 <= |w| && StateOf(s0, s1, s2, s3) == Rounds(w, p, round - 1)
    ensures StateOf(t0, t1, t2, t3) == Rounds(w, p, round)
  {
    t0 := EncWord(s0, s1, s2, s3, rk[4 * round]);
    t1 := EncWord(s1, s2, s3, s0, rk[4 * round + 1]);
    t2 := EncWord(s2, s3, s0, s1, rk[4 * round + 2]);
    t3 := EncWord(s3, s0, s1, s2, rk[4 * round + 3]);
    EncWordOk(s0, s1, s2, s3, rk[4 * round]);
    EncWordOk(s1, s2, s3, s0, rk[4 * round + 1]);
    EncWordOk(s2, s3, s0, s1, rk[4 * round + 2]);
    EncWordOk(s3, s0, s1, s2, rk[4 * round + 3]);
    hide EncWord, ColOf, AddCol, MixCol, S;
  }

  /** AES_DEC_ROUND */
  method DecRound(rk: array<bv32>, s0: bv32, s1: bv32, s2: bv32, s3: bv32, round: nat, ghost d: seq<Col>,
                  ghost c: State)
    returns (t0: bv32, t1: bv32, t2: bv32, t3: bv32)
    requires Holds(rk, d) && 0 < round && 4 * round + 4 <= |d| && StateOf(s0, s1, s2, s3) == EqRounds(d, c, round - 1)
    ensures StateOf(t0, t1, t2, t3) == EqRounds(d, c, round)
  {
    t0 := DecWord(s0, s3, s2, s1, rk[4 * round]);
    t1 := DecWord(s1, s0, s3, s2, rk[4 * round + 1]);
    t2 := DecWord(s2, s1, s0, s3, rk[4 * round + 2]);
    t3 := DecWord(s3, s2, s1, s0, rk[4 * round + 3]);
    DecWordOk(s0, s3, s2, s1, rk[4 * round]);
    DecWordOk(s1, s0, s3, s2, rk[4 * round + 1]);
    DecWordOk(s2, s1, s0, s3, rk[4 * round + 2]);
    DecWordOk(s3, s2, s1, s0, rk[4 * round + 3]);
    hide DecWord, ColOf, AddCol, InvMixCol, Si;
  }

  /** A word written as PUTU32 writes it. */
  method PutWord(b: array<bv8>, i: nat, x: bv32)
    requires i + 4 <= b.Length
    modifies b
    ensures ColAt(b[..], i) == ColOf(x)
    ensures forall k :: 0 <= k < b.Length && !(i <= k < i + 4) ==> b[k] == old(b[k])
  {
    hide B0, B1, B2, B3;
    b[i], b[i + 1], b[i + 2], b[i + 3] := B3(x), B2(x), B1(x), B0(x);
  }

  /** Nothing outside a block changed. */
  ghost predicate OnlyBlock(before: bytes, after: bytes, i: nat) {
    |before| == |after| && forall k :: 0 <= k < |after| && !(i <= k < i + 16) ==> after[k] == before[k]
  }

  method PutBlock(b: array<bv8>, i: nat, s0: bv32, s1: bv32, s2: bv32, s3: bv32)
    requires i + 16 <= b.Length
    modifies b
    ensures BlockAt(b[..], i) == StateOf(s0, s1, s2, s3) && OnlyBlock(old(b[..]), b[..], i)
  {
    hide ColOf;
    PutWord(b, i, s0);
    PutWord(b, i + 4, s1);
    PutWord(b, i + 8, s2);
    PutWord(b, i + 12, s3);
  }

  /** aes_internal_encrypt, also with the result in place of the input. */
  method Encrypt(rk: array<bv32>, nr: nat, pt: array<bv8>, po: nat, ct: array<bv8>, co: nat, ghost w: seq<Col>)
    requires (nr == 10 || nr == 12 || nr == 14) && IsSchedule(w, nr) && Holds(rk, w)
    requires po + 16 <= pt.Length && co + 16 <= ct.Length
    modifies ct
    ensures BlockAt(ct[..], co) == Cipher(w, nr, BlockAt(old(pt[..]), po)) && OnlyBlock(old(ct[..]), ct[..], co)
  {
    hide ColOf, Rounds, EncLast, AddCol;
    ghost var p := BlockAt(pt[..], po);
    var s0, s1, s2, s3 := LoadBlock(rk, pt, po, w);
    var t0, t1, t2, t3;
    FirstKey(w, p);
    t0, t1, t2, t3 := EncRound(rk, s0, s1, s2, s3, 1, w, p);
    s0, s1, s2, s3 := EncRound(rk, t0, t1, t2, t3, 2, w, p);
    t0, t1, t2, t3 := EncRound(rk, s0, s1, s2, s3, 3, w, p);
    s0, s1, s2, s3 := EncRound(rk, t0, t1, t2, t3, 4, w, p);
    t0, t1, t2, t3 := EncRound(rk, s0, s1, s2, s3, 5, w, p);
    s0, s1, s2, s3 := EncRound(rk, t0, t1, t2, t3, 6, w, p);
    t0, t1, t2, t3 := EncRound(rk, s0, s1, s2, s3, 7, w, p);
    s0, s1, s2, s3 := EncRound(rk, t0, t1, t2, t3, 8, w, p);
    t0, t1, t2, t3 := EncRound(rk, s0, s1, s2, s3, 9, w, p);
    if nr > 10 {
      s0, s1, s2, s3 := EncRound(rk, t0, t1, t2, t3, 10, w, p);
      t0, t1, t2, t3 := EncRound(rk, s0, s1, s2, s3, 11, w, p);
      if nr > 12 {
        s0, s1, s2, s3 := EncRound(rk, t0, t1, t2, t3, 12, w, p);
        t0, t1, t2, t3 := EncRound(rk, s0, s1, s2, s3, 13, w, p);
      }
    }
    s0, s1, s2, s3 := EncFinal(rk, t0, t1, t2, t3, nr, w, p);
    PutBlock(ct, co, s0, s1, s2, s3);
  }

  /** The input block added to the first round key. */
  method LoadBlock(rk: array<bv32>, b: array<bv8>, i: nat, ghost w: seq<Col>)
                   returns (s0: bv32, s1: bv32, s2: bv32, s3: bv32)
    requires Holds(rk, w) && |w| >= 4 && i + 16 <= b.Length
    ensures StateOf(s0, s1, s2, s3) == AddKey(BlockAt(b[..], i), RoundKey(w, 0))
  {
    hide ColOf, AddCol, Xor;
    var g0, g1, g2, g3 := Get(b[..], i), Get(b[..], i + 4), Get(b[..], i + 8), Get(b[..], i + 12);
    s0, s1, s2, s3 := Xor(g0, rk[0]), Xor(g1, rk[1]), Xor(g2, rk[2]), Xor(g3, rk[3]);
    XorCol(g0, rk[0]);
    XorCol(g1, rk[1]);
    XorCol(g2, rk[2]);
    XorCol(g3, rk[3]);
  }

  lemma {:induction false} FirstKey(w: seq<Col>, p: State)
    requires |w| >= 4
    ensures Rounds(w, p, 0) == EqRounds(w, p, 0) == AddKey(p, RoundKey(w, 0))
  {
  }

  lemma EncLastState(t0: bv32, t1: bv32, t2: bv32, t3: bv32, k0: bv32, k1: bv32, k2: bv32, k3: bv32)
    ensures StateOf(EncLast(t0, t1, t2, t3, k0), EncLast(t1, t2, t3, t0, k1), EncLast(t2, t3, t0, t1, k2),
            EncLast(t3, t0, t1, t2, k3)) ==
            AddKey(ShiftSub(StateOf(t0, t1, t2, t3)), StateOf(k0, k1, k2, k3))
  {
    EncLastOk(t0, t1, t2, t3, k0);
    EncLastOk(t1, t2, t3, t0, k1);
    EncLastOk(t2, t3, t0, t1, k2);
    EncLastOk(t3, t0, t1, t2, k3);
    hide EncLast, ColOf, AddCol, S;
  }

  /** The last round of encryption. */
  method EncFinal(rk: array<bv32>, t0: bv32, t1: bv32, t2: bv32, t3: bv32, nr: nat, ghost w: seq<Col>, ghost p: State)
    returns (s0: bv32, s1: bv32, s2: bv32, s3: bv32)
    requires IsSchedule(w, nr) && Holds(rk, w) && StateOf(t0, t1, t2, t3) == Rounds(w, p, nr - 1)
    ensures StateOf(s0, s1, s2, s3) == Cipher(w, nr, p)
  {
    hide EncLast, ColOf, AddKey, ShiftSub, Rounds;
    var k := 4 * nr;
    s0 := EncLast(t0, t1, t2, t3, rk[k]);
    s1 := EncLast(t1, t2, t3, t0, rk[k + 1]);
    s2 := EncLast(t2, t3, t0, t1, rk[k + 2]);
    s3 := EncLast(t3, t0, t1, t2, rk[k + 3]);
    EncLastState(t0, t1, t2, t3, rk[k], rk[k + 1], rk[k + 2], rk[k + 3]);
  }

  lemma DecLastState(t0: bv32, t1: bv32, t2: bv32, t3: bv32, k0: bv32, k1: bv32, k2: bv32, k3: bv32)
    ensures StateOf(DecLast(t0, t3, t2, t1, k0), DecLast(t1, t0, t3, t2, k1), DecLast(t2, t1, t0, t3, k2),
            DecLast(t3, t2, t1, t0, k3)) ==
            AddKey(InvShiftSub(StateOf(t0, t1, t2, t3)), StateOf(k0, k1, k2, k3))
  {
    DecLastOk(t0, t3, t2, t1, k0);
    DecLastOk(t1, t0, t3, t2, k1);
    DecLastOk(t2, t1, t0, t3, k2);
    DecLastOk(t3, t2, t1, t0, k3);
    hide DecLast, ColOf, AddCol, Si;
  }

  /** The last round of decryption. */
  method DecFinal(rk: array<bv32>, t0: bv32, t1: bv32, t2: bv32, t3: bv32, nr: nat, ghost d: seq<Col>, ghost c: State)
    returns (s0: bv32, s1: bv32, s2: bv32, s3: bv32)
    requires IsSchedule(d, nr) && Holds(rk, d) && StateOf(t0, t1, t2, t3) == EqRounds(d, c, nr - 1)
    ensures StateOf(s0, s1, s2, s3) == EqInvCipher(d, nr, c)
  {
    hide DecLast, ColOf, AddKey, InvShiftSub, EqRounds;
    var k := 4 * nr;
    s0 := DecLast(t0, t3, t2, t1, rk[k]);
    s1 := DecLast(t1, t0, t3, t2, rk[k + 1]);
    s2 := DecLast(t2, t1, t0, t3, rk[k + 2]);
    s3 := DecLast(t3, t2, t1, t0, rk[k + 3]);
    DecLastState(t0, t1, t2, t3, rk[k], rk[k + 1], rk[k + 2], rk[k + 3]);
  }

  /** aes_internal_decrypt, also with the result in place of the input. */
  method Decrypt(rk: array<bv32>, nr: nat, ct: array<bv8>, co: nat, pt: array<bv8>, po: nat, ghost d: seq<Col>)
    requires (nr == 10 || nr == 12 || nr == 14) && IsSchedule(d, nr) && Holds(rk, d)
    requires co + 16 <= ct.Length && po + 16 <= pt.Length
    modifies pt
    ensures BlockAt(pt[..], po) == EqInvCipher(d, nr, BlockAt(old(ct[..]), co)) && OnlyBlock(old(pt[..]), pt[..], po)
  {
    hide ColOf, EqRounds, DecLast, AddCol;
    ghost var c := BlockAt(ct[..], co);
    var s0, s1, s2, s3 := LoadBlock(rk, ct, co, d);
    var t0, t1, t2, t3;
    FirstKey(d, c);
    t0, t1, t2, t3 := DecRound(rk, s0, s1, s2, s3, 1, d, c);
    s0, s1, s2, s3 := DecRound(rk, t0, t1, t2, t3, 2, d, c);
    t0, t1, t2, t3 := DecRound(rk, s0, s1, s2, s3, 3, d, c);
    s0, s1, s2, s3 := DecRound(rk, t0, t1, t2, t3, 4, d, c);
    t0, t1, t2, t3 := DecRound(rk, s0, s1, s2, s3, 5, d, c);
    s0, s1, s2, s3 := DecRound(rk, t0, t1, t2, t3, 6, d, c);
    t0, t1, t2, t3 := DecRound(rk, s0, s1, s2, s3, 7, d, c);
    s0, s1, s2, s3 := DecRound(rk, t0, t1, t2, t3, 8, d, c);
    t0, t1, t2, t3 := DecRound(rk, s0, s1, s2, s3, 9, d, c);
    if nr > 10 {
      s0, s1, s2, s3 := DecRound(rk, t0, t1, t2, t3, 10, d, c);
      t0, t1, t2, t3 := DecRound(rk, s0, s1, s2, s3, 11, d, c);
      if nr > 12 {
        s0, s1, s2, s3 := DecRound(rk, t0, t1, t2, t3, 12, d, c);
        t0, t1, t2, t3 := DecRound(rk, s0, s1, s2, s3, 13, d, c);
      }
    }
    s0, s1, s2, s3 := DecFinal(rk, t0, t1, t2, t3, nr, d, c);
    PutBlock(pt, po, s0, s1, s2, s3);
  }

  // ---------------------------------------------------------------- chaining

  /** Four bytes of fix_xor. */
  method XorWord(a: array<bv8>, i: nat, b: array<bv8>, j: nat)
    requires a != b && i + 4 <= a.Length && j + 4 <= b.Length
    modifies a
    ensures ColAt(a[..], i) == AddCol(ColAt(old(a[..]), i), ColAt(b[..], j))
    ensures forall k :: 0 <= k < a.Length && !(i <= k < i + 4) ==> a[k] == old(a[k])
  {
    a[i], a[i + 1], a[i + 2], a[i + 3] := Add(a[i], b[j]), Add(a[i + 1], b[j + 1]), Add(a[i + 2], b[j + 2]),
        Add(a[i + 3], b[j + 3]);
    hide Add;
  }

  /** fix_xor */
  method XorBlock(a: array<bv8>, i: nat, b: array<bv8>, j: nat)
    requires a != b && i + 16 <= a.Length && j + 16 <= b.Length
    modifies a
    ensures BlockAt(a[..], i) == AddKey(BlockAt(old(a[..]), i), BlockAt(b[..], j)) && OnlyBlock(old(a[..]), a[..], i)
  {
    hide AddCol;
    XorWord(a, i, b, j);
    XorWord(a, i + 4, b, j + 4);
    XorWord(a, i + 8, b, j + 8);
    XorWord(a, i + 12, b, j + 12);
  }

  /** memcpy of one block. */
  method CopyBlock(a: array<bv8>, i: nat, b: array<bv8>, j: nat)
    requires a != b && i + 16 <= a.Length && j + 16 <= b.Length
    modifies a
    ensures BlockAt(a[..], i) == BlockAt(b[..], j) && OnlyBlock(old(a[..]), a[..], i)
  {
    forall k | i <= k < i + 16 {
      a[k] := b[k - i + j];
    }
  }

  /** The blocks so far, and the block that the next one is added to. */
  ghost predicate Chained(w: seq<Col>, nr: nat, iv: State, ps: seq<State>, cs: seq<State>, last: State)
    requires IsSchedule(w, nr)
  {
    cs == CbcEnc(w, nr, iv, ps) && last == if ps == [] then iv else cs[|cs| - 1]
  }

  lemma ChainedNext(w: seq<Col>, nr: nat, iv: State, ps: seq<State>, i: nat, cs: seq<State>, last: State, c: State)
    requires IsSchedule(w, nr) && i < |ps| && Chained(w, nr, iv, ps[..i], cs, last)
             && c == Cipher(w, nr, AddKey(last, ps[i]))
    ensures Chained(w, nr, iv, ps[..i + 1], cs + [c], c)
  {
    hide Cipher, AddKey;
    assert ps[..i + 1][..i] == ps[..i];
  }

  lemma ChainedNone(w: seq<Col>, nr: nat, iv: State, ps: seq<State>, cs: seq<State>, last: State)
    requires IsSchedule(w, nr) && cs == [] && last == iv
    ensures Chained(w, nr, iv, ps[..0], cs, last)
  {
  }

  lemma {:induction false} ChainedAll(w: seq<Col>, nr: nat, iv: State, ps: seq<State>, cs: seq<State>, last: State)
    requires IsSchedule(w, nr) && Chained(w, nr, iv, ps[..|ps|], cs, last)
    ensures cs == CbcEnc(w, nr, iv, ps)
  {
    assert ps[..|ps|] == ps;
  }

  lemma UnchainedNext(w: seq<Col>, nr: nat, iv: State, cs: seq<State>, i: nat, p: State)
    requires IsSchedule(w, nr) && i < |cs| && p == AddKey(InvCipher(w, nr, cs[i]), if i == 0 then iv else cs[i - 1])
    ensures CbcDec(w, nr, iv, cs[..i + 1]) == CbcDec(w, nr, iv, cs[..i]) + [p]
  {
    hide InvCipher, AddKey;
  }

  lemma FirstBlock(iv: bytes, tmp: bytes)
    requires |iv| >= 16 && |tmp| == 16 && forall k :: 0 <= k < 16 ==> tmp[k] == iv[k]
    ensures BlockAt(tmp, 0) == BlockAt(iv, 0)
  {
  }

  lemma UnchainedEnds(w: seq<Col>, nr: nat, iv: State, cs: seq<State>)
    requires IsSchedule(w, nr)
    ensures CbcDec(w, nr, iv, cs[..0]) == [] && cs[..|cs|] == cs
  {
  }

  lemma BlocksNext(before: bytes, after: bytes, i: nat)
    requires 16 * i + 16 <= |after| && OnlyBlock(before, after, 16 * i)
    ensures Blocks(after, i + 1) == Blocks(before, i) + [BlockAt(after, 16 * i)]
  {
  }

  /** From i on nothing has changed. */
  ghost predicate SameTail(before: bytes, now: bytes, i: nat) {
    |now| == |before| && forall k :: i <= k < |now| ==> now[k] == before[k]
  }

  lemma TailNone(a: bytes)
    ensures SameTail(a, a, 0)
  {
  }

  /** Block i is still there, and after its turn the tail begins one block later. */
  lemma TailNext(before: bytes, now: bytes, next: bytes, i: nat)
    requires SameTail(before, now, 16 * i) && 16 * i + 16 <= |now|
    requires next == now || OnlyBlock(now, next, 16 * i)
    ensures BlockAt(now, 16 * i) == BlockAt(before, 16 * i)
    ensures SameTail(before, next, 16 * (i + 1))
  {
  }

  lemma TailEnd(before: bytes, now: bytes, i: nat)
    requires SameTail(before, now, i) && i <= |now|
    ensures |now| == |before| && now[i..] == before[i..]
  {
  }

  // ---------------------------------------------------------------- the public interface

  ghost predicate ValidKey(key: bytes) {
    |key| == 16 || |key| == 24 || |key| == 32
  }

  /** n2n_aes_context_t */
  class AesContext {
    const encRk: array<bv32>
    const decRk: array<bv32>
    var nr: nat
    ghost var key: bytes

    constructor ()
      ensures encRk.Length == decRk.Length == 60 && encRk != decRk && fresh(encRk) && fresh(decRk)
    {
      encRk, decRk := new bv32[60](_ => 0), new bv32[60](_ => 0);
      nr, key := 0, [];
    }

    /** Both schedules belong to the key. */
    ghost predicate Valid()
      reads this, encRk, decRk
    {
      && ValidKey(key) && nr == KeyRounds(|key| / 4)
      && encRk != decRk && encRk.Length == decRk.Length == 60
      && Holds(encRk, Words()) && Holds(decRk, DecSchedule(Words(), nr))
    }

    ghost function Words(): (w: seq<Col>)
      requires ValidKey(key) && nr == KeyRounds(|key| / 4)
      reads this
      ensures IsSchedule(w, nr) && (nr == 10 || nr == 12 || nr == 14)
    {
      Schedule(key, |key| / 4)
    }

    /** n2n_aes_init, which refuses every other key size. */
    static method Init(key: bytes) returns (ret: int, ctx: AesContext)
      ensures ret == if ValidKey(key) then 0 else -1
      ensures fresh(ctx) && (ret == 0 ==> ctx.Valid() && ctx.key == key && fresh(ctx.encRk) && fresh(ctx.decRk))
    {
      hide Holds, Expand, DecSchedule;
      ctx := new AesContext();
      if |key| != 16 && |key| != 24 && |key| != 32 { return -1, ctx; }
      assert key[..|key|] == key && 8 * |key| / 32 == |key| / 4;
      ctx.key := key;
      ctx.nr := KeySetupEnc(ctx.encRk, key, 8 * |key|);
      var nr := KeySetupDec(ctx.decRk, key, 8 * |key|);
      ret := 0;
    }

    /** One block of encryption, chained to the block in tmp. */
    method EncryptBlock(out: array<bv8>, input: array<bv8>, i: nat, tmp: array<bv8>)
      requires Valid() && i + 16 <= input.Length && i + 16 <= out.Length && tmp.Length == 16 && tmp != out
               && tmp != input
      modifies out, tmp
      ensures Valid() && OnlyBlock(old(out[..]), out[..], i)
      ensures BlockAt(out[..], i) == BlockAt(tmp[..], 0) ==
              Cipher(Words(), nr, AddKey(BlockAt(old(tmp[..]), 0), BlockAt(old(input[..]), i)))
    {
      hide Holds, Expand, Cipher, AddKey, ColAt;
      XorBlock(tmp, 0, input, i);
      Encrypt(encRk, nr, tmp, 0, tmp, 0, Words());
      CopyBlock(out, i, tmp, 0);
    }

    /** n2n_aes_cbc_encrypt; `out` may be `input`. */
    method CbcEncrypt(out: array<bv8>, input: array<bv8>, inLen: nat, iv: bytes) returns (len: nat)
      requires Valid() && |iv| >= 16 && inLen <= input.Length && inLen / 16 * 16 <= out.Length
      modifies out
      ensures Valid() && len == inLen / 16 * 16
      ensures Blocks(out[..], inLen / 16) == CbcEnc(Words(), nr, BlockAt(iv, 0), Blocks(old(input[..]), inLen / 16))
      ensures out[len..] == old(out[..])[len..]
    {
      hide Holds, Expand, Cipher, AddKey, CbcEnc, Chained, SameTail, OnlyBlock, BlockAt;
      ghost var w, v := Words(), BlockAt(iv, 0);
      var tmp := new bv8[16](k requires 0 <= k < 16 => iv[k]);
      var n := inLen / 16;
      ghost var ps := Blocks(input[..], n);
      var i := 0;
      FirstBlock(iv, tmp[..]);
      ChainedNone(w, nr, v, ps, Blocks(out[..], 0), BlockAt(tmp[..], 0));
      TailNone(input[..]);
      TailNone(out[..]);
      while i < n
        invariant 0 <= i <= n && fresh(tmp) && Valid()
        invariant Chained(w, nr, v, ps[..i], Blocks(out[..], i), BlockAt(tmp[..], 0))
        invariant SameTail(old(input[..]), input[..], 16 * i) && SameTail(old(out[..]), out[..], 16 * i)
      {
        ghost var in0, out0, last := input[..], out[..], BlockAt(tmp[..], 0);
        EncryptBlock(out, input, 16 * i, tmp);
        TailNext(old(input[..]), in0, input[..], i);
        TailNext(old(out[..]), out0, out[..], i);
        BlocksNext(out0, out[..], i);
        ChainedNext(w, nr, v, ps, i, Blocks(out0, i), last, BlockAt(tmp[..], 0));
        i := i + 1;
      }
      ChainedAll(w, nr, v, ps, Blocks(out[..], n), BlockAt(tmp[..], 0));
      TailEnd(old(out[..]), out[..], 16 * n);
      len := n * 16;
    }

    /** One block of decryption, chained to the block in tmp. */
    method DecryptBlock(out: array<bv8>, input: array<bv8>, i: nat, tmp: array<bv8>, kept: array<bv8>)
      requires Valid() && i + 16 <= input.Length && i + 16 <= out.Length && tmp.Length == kept.Length == 16
      requires tmp != out && tmp != input && tmp != kept && kept != out && kept != input
      modifies out, tmp, kept
      ensures Valid() && OnlyBlock(old(out[..]), out[..], i)
      ensures BlockAt(out[..], i)
              == AddKey(InvCipher(Words(), nr, BlockAt(old(input[..]), i)), BlockAt(old(tmp[..]), 0))
      ensures BlockAt(tmp[..], 0) == BlockAt(old(input[..]), i)
    {
      hide Holds, Expand, InvCipher, EqInvCipher, DecSchedule, AddKey, ColAt;
      CopyBlock(kept, 0, input, i);
      EqInvCipherOk(Words(), nr, BlockAt(input[..], i));
      Decrypt(decRk, nr, input, i, out, i, DecSchedule(Words(), nr));
      XorBlock(out, i, tmp, 0);
      CopyBlock(tmp, 0, kept, 0);
    }

    /** n2n_aes_cbc_decrypt; `out` may be `input`, so the block is kept before it is overwritten. */
    method CbcDecrypt(out: array<bv8>, input: array<bv8>, inLen: nat, iv: bytes) returns (len: nat)
      requires Valid() && |iv| >= 16 && inLen <= input.Length && inLen / 16 * 16 <= out.Length
      modifies out
      ensures Valid() && len == inLen / 16 * 16
      ensures Blocks(out[..], inLen / 16) == CbcDec(Words(), nr, BlockAt(iv, 0), Blocks(old(input[..]), inLen / 16))
      ensures out[len..] == old(out[..])[len..]
    {
      hide Holds, Expand, InvCipher, DecSchedule, AddKey, CbcDec, SameTail, OnlyBlock, BlockAt;
      ghost var w, v := Words(), BlockAt(iv, 0);
      var tmp := new bv8[16](k requires 0 <= k < 16 => iv[k]);
      var kept := new bv8[16](_ => 0);
      var n := inLen / 16;
      ghost var cs := Blocks(input[..], n);
      var i := 0;
      FirstBlock(iv, tmp[..]);
      UnchainedEnds(w, nr, v, cs);
      TailNone(input[..]);
      TailNone(out[..]);
      while i < n
        invariant 0 <= i <= n && fresh(tmp) && fresh(kept) && Valid()
        invariant Blocks(out[..], i) == CbcDec(w, nr, v, cs[..i])
        invariant BlockAt(tmp[..], 0) == if i == 0 then v else cs[i - 1]
        invariant SameTail(old(input[..]), input[..], 16 * i) && SameTail(old(out[..]), out[..], 16 * i)
      {
        ghost var in0, out0 := input[..], out[..];
        DecryptBlock(out, input, 16 * i, tmp, kept);
        TailNext(old(input[..]), in0, input[..], i);
        TailNext(old(out[..]), out0, out[..], i);
        BlocksNext(out0, out[..], i);
        UnchainedNext(w, nr, v, cs, i, BlockAt(out[..], 16 * i));
        i := i + 1;
      }
      TailEnd(old(out[..]), out[..], 16 * n);
      len := n * 16;
    }
  }

  /** What one end encrypts, the other end decrypts, for every key size, vector and length, and whichever
      of the three buffers are the same; any other key is refused. */
  method RoundTrip(key: bytes, plain: array<bv8>, cipher: array<bv8>, out: array<bv8>, inLen: nat, iv: bytes)
                   returns (ok: bool)
    requires |iv| >= 16 && inLen <= plain.Length && inLen / 16 * 16 <= cipher.Length && inLen / 16 * 16 <= out.Length
    modifies cipher, out
    ensures ok <==> ValidKey(key)
    ensures ok ==> out[..inLen / 16 * 16] == old(plain[..])[..inLen / 16 * 16]
    ensures plain == cipher == out ==> out[..] == old(plain[..])
  {
    hide Holds, Expand, DecSchedule, CbcEnc, CbcDec, BlockAt, Blocks;
    ghost var before, n, v := plain[..], inLen / 16, BlockAt(iv, 0);
    var ret, near := AesContext.Init(key);
    var ret', far := AesContext.Init(key);
    ok := ret == 0 && ret' == 0;
    if ok {
      var len := near.CbcEncrypt(cipher, plain, inLen, iv);
      len := far.CbcDecrypt(out, cipher, len, iv);
      assert len == 16 * n;
      CbcRoundTrip(far.Words(), far.nr, v, Blocks(before, n));
      BlocksAreBytes(out[..], before, n);
      assert out[..] == out[..len] + out[len..];
      assert before == before[..len] + before[len..];
    }
  }
}
