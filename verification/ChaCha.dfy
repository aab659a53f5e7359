/** cc20.c: the vector version and the plain version, on a machine that keeps words lowest byte first. */
module ChaCha {
  import opened ChaChaSpec
  import opened ChaChaRows

  function Load(b: bytes, i: nat): Vec
    requires i + 16 <= |b|
  {
    Vec(LittleEndian(b, i), LittleEndian(b, i + 4), LittleEndian(b, i + 8), LittleEndian(b, i + 12))
  }

  /** The first p bytes are done. */
  ghost predicate Done(out: bytes, input: bytes, key: bytes, iv: bytes, p: nat)
    requires |key| == 32 && |iv| == 16
  {
    p <= |out| && p <= |input| && forall k :: 0 <= k < p ==> out[k] == Mix(input[k], KeyByte(key, iv, k))
  }

  /** From i on nothing has changed. */
  ghost predicate SameFrom(before: bytes, now: bytes, i: nat) {
    |now| == |before| && forall k :: i <= k < |now| ==> now[k] == before[k]
  }

  /** `next` is `now` with n bytes at p mixed with a block of key stream. */
  ghost predicate Mixed(now: bytes, next: bytes, input: bytes, p: nat, n: nat, block: seq<bv32>)
    requires |block| == 16 && n <= 64
  {
    && |next| == |now| && p + n <= |now| && p + n <= |input|
    && (forall k :: 0 <= k < n ==> next[p + k] == Mix(input[p + k], Serialized(block, k)))
    && (forall k :: 0 <= k < |now| && !(p <= k < p + n) ==> next[k] == now[k])
  }

  // ---------------------------------------------------------------- words and bytes

  lemma Byte0Xor(x: bv32, w: bv32)
    ensures Byte0(Xor(x, w)) == Mix(Byte0(x), Byte0(w))
  {
  }

  lemma Byte1Xor(x: bv32, w: bv32)
    ensures Byte1(Xor(x, w)) == Mix(Byte1(x), Byte1(w))
  {
  }

  lemma Byte2Xor(x: bv32, w: bv32)
    ensures Byte2(Xor(x, w)) == Mix(Byte2(x), Byte2(w))
  {
  }

  lemma Byte3Xor(x: bv32, w: bv32)
    ensures Byte3(Xor(x, w)) == Mix(Byte3(x), Byte3(w))
  {
  }

  lemma JoinBytes(p: bv8, q: bv8, r: bv8, s: bv8)
    ensures Byte0(Join(p, q, r, s)) == p && Byte1(Join(p, q, r, s)) == q && Byte2(Join(p, q, r, s)) == r
            && Byte3(Join(p, q, r, s)) == s
  {
  }

  /** A word loaded, mixed and stored is its bytes mixed. */
  lemma ByteXor(b: bytes, i: nat, w: bv32)
    requires i + 4 <= |b|
    ensures forall k :: 0 <= k < 4 ==> ByteOf(Xor(LittleEndian(b, i), w), k) == Mix(b[i + k], ByteOf(w, k))
  {
    hide Byte0, Byte1, Byte2, Byte3, Xor, Join, Mix;
    JoinBytes(b[i], b[i + 1], b[i + 2], b[i + 3]);
    Byte0Xor(LittleEndian(b, i), w);
    Byte1Xor(LittleEndian(b, i), w);
    Byte2Xor(LittleEndian(b, i), w);
    Byte3Xor(LittleEndian(b, i), w);
  }

  // ---------------------------------------------------------------- mixing one block

  /** One word of data mixed with one word of key stream, in place or not. */
  method XorNext(out: array<bv8>, input: array<bv8>, p: nat, n: nat, w: bv32, ghost out0: bytes, ghost in0: bytes,
                 ghost block: seq<bv32>)
    requires |block| == 16 && n % 4 == 0 && n + 4 <= 64 && p + n + 4 <= out.Length && p + n + 4 <= input.Length
             && w == block[n / 4]
    requires Mixed(out0, out[..], in0, p, n, block) && SameFrom(in0, input[..], p + n)
    modifies out
    ensures Mixed(out0, out[..], in0, p, n + 4, block) && SameFrom(in0, input[..], p + n + 4)
  {
    hide Mix, ByteOf, LittleEndian, Xor;
    var i := p + n;
    var x := Xor(LittleEndian(input[..], i), w);
    ByteXor(input[..], i, w);
    ghost var mid := out[..];
    out[i], out[i + 1], out[i + 2], out[i + 3] := ByteOf(x, 0), ByteOf(x, 1), ByteOf(x, 2), ByteOf(x, 3);
    MixedNext(out0, mid, out[..], in0, p, n, block);
  }

  lemma MixedNext(now: bytes, mid: bytes, next: bytes, input: bytes, p: nat, n: nat, block: seq<bv32>)
    requires |block| == 16 && n % 4 == 0 && n + 4 <= 64 && Mixed(now, mid, input, p, n, block)
    requires p + n + 4 <= |mid| == |next| && p + n + 4 <= |input|
    requires forall k :: 0 <= k < 4 ==> next[p + n + k] == Mix(input[p + n + k], ByteOf(block[n / 4], k))
    requires forall k :: 0 <= k < |mid| && !(p + n <= k < p + n + 4) ==> next[k] == mid[k]
    ensures Mixed(now, next, input, p, n + 4, block)
  {
    forall k | 0 <= k < n + 4 ensures next[p + k] == Mix(input[p + k], Serialized(block, k)) {
      if k >= n {
        assert k / 4 == n / 4 && k % 4 == k - n;
      } else {
        assert next[p + k] == mid[p + k];
      }
    }
  }

  /** STOREXOR */
  method StoreXor(out: array<bv8>, input: array<bv8>, p: nat, n: nat, x: Vec, ghost out0: bytes, ghost in0: bytes,
                  ghost block: seq<bv32>)
    requires |block| == 16 && n % 16 == 0 && n + 16 <= 64 && p + n + 16 <= out.Length && p + n + 16 <= input.Length
    requires forall k :: 0 <= k < 4 ==> block[n / 4 + k] == Lane(x, k)
    requires Mixed(out0, out[..], in0, p, n, block) && SameFrom(in0, input[..], p + n)
    modifies out
    ensures Mixed(out0, out[..], in0, p, n + 16, block) && SameFrom(in0, input[..], p + n + 16)
  {
    hide Mixed, SameFrom;
    assert block[n / 4 + 0] == Lane(x, 0) && block[n / 4 + 1] == Lane(x, 1) && block[n / 4 + 2] == Lane(x, 2)
           && block[n / 4 + 3] == Lane(x, 3);
    XorNext(out, input, p, n, x.x0, out0, in0, block);
    XorNext(out, input, p, n + 4, x.x1, out0, in0, block);
    XorNext(out, input, p, n + 8, x.x2, out0, in0, block);
    XorNext(out, input, p, n + 12, x.x3, out0, in0, block);
  }

  /** The four STOREXOR of a block. */
  method StoreRows(out: array<bv8>, input: array<bv8>, p: nat, k: Rows)
    requires p + 64 <= out.Length && p + 64 <= input.Length
    modifies out
    ensures Mixed(old(out[..]), out[..], old(input[..]), p, 64, Flat(k)) && SameFrom(old(input[..]), input[..], p + 64)
  {
    hide Mixed, SameFrom, Flat, Lane;
    ghost var out0, in0 := out[..], input[..];
    MixedNone(out0, in0, p, Flat(k));
    FlatRows(k);
    StoreXor(out, input, p, 0, k.a, out0, in0, Flat(k));
    StoreXor(out, input, p, 16, k.b, out0, in0, Flat(k));
    StoreXor(out, input, p, 32, k.c, out0, in0, Flat(k));
    StoreXor(out, input, p, 48, k.d, out0, in0, Flat(k));
  }

  lemma FlatRows(r: Rows)
    ensures forall k :: 0 <= k < 4 ==> Flat(r)[0 / 4 + k] == Lane(r.a, k) && Flat(r)[16 / 4 + k] == Lane(r.b, k)
    ensures forall k :: 0 <= k < 4 ==> Flat(r)[32 / 4 + k] == Lane(r.c, k) && Flat(r)[48 / 4 + k] == Lane(r.d, k)
  {
  }

  lemma MixedNone(out: bytes, input: bytes, p: nat, block: seq<bv32>)
    requires |block| == 16 && p <= |out| && p <= |input|
    ensures Mixed(out, out, input, p, 0, block) && SameFrom(input, input, p)
  {
  }

  /** A whole block mixed brings the key stream one block further. */
  lemma DoneNext(out: bytes, next: bytes, in0: bytes, input: bytes, key: bytes, iv: bytes, p: nat, n: nat,
                 block: seq<bv32>)
    requires |key| == 32 && |iv| == 16 && |block| == 16 && p % 64 == 0 && n <= 64
    requires Done(out, in0, key, iv, p) && SameFrom(in0, input, p)
    requires Mixed(out, next, input, p, n, block) && block == Block(StateFor(key, iv, p / 64))
    ensures Done(next, in0, key, iv, p + n)
  {
    hide Mix, Block, StateFor;
    forall k | 0 <= k < p + n ensures next[k] == Mix(in0[k], KeyByte(key, iv, k)) {
      if k >= p {
        var j := k - p;
        assert next[p + j] == Mix(input[p + j], Serialized(block, j));
        assert j == 64 || (k / 64 == p / 64 && k % 64 == j);
      }
    }
  }

  // ---------------------------------------------------------------- blocks from rows

  /** ADD on every row. */
  function AddRows(k: Rows, s: Rows): Rows {
    Rows(ADD(k.a, s.a), ADD(k.b, s.b), ADD(k.c, s.c), ADD(k.d, s.d))
  }

  lemma AddRowsFlat(k: Rows, s: Rows)
    ensures Flat(AddRows(k, s)) == AddWords(Flat(k), Flat(s))
  {
    hide Plus;
    forall i | 0 <= i < 16 ensures Flat(AddRows(k, s))[i] == AddWords(Flat(k), Flat(s))[i] {
      LaneAdd(Row(k, i / 4), Row(s, i / 4), i % 4);
    }
  }

  lemma LaneAdd(u: Vec, v: Vec, i: Place)
    ensures Lane(ADD(u, v), i) == Plus(Lane(u, i), Lane(v, i))
  {
    hide Plus;
  }

  const ONE := Vec(1, 0, 0, 0)
  const TWO := Vec(2, 0, 0, 0)

  lemma PlusZero(x: bv32)
    ensures Plus(x, 0) == x
  {
  }

  function Sum3(x: bv32, y: bv32, z: bv32): bv32 {
    x + y + z
  }

  lemma SumFirst(x: bv32, y: bv32, z: bv32)
    ensures Plus(x + y, z) == Sum3(x, y, z)
  {
  }

  lemma SumLast(x: bv32, y: bv32, z: bv32)
    ensures Plus(x, y + z) == Sum3(x, y, z)
  {
  }

  lemma PlusFirst(x: bv32, y: bv32, z: bv32)
    ensures Plus(Plus(x, y), z) == Plus(x + y, z)
  {
  }

  lemma PlusLast(x: bv32, y: bv32, z: bv32)
    ensures Plus(x, Plus(y, z)) == Plus(x, y + z)
  {
  }

  lemma PlusAssoc(x: bv32, y: bv32, z: bv32)
    ensures Plus(Plus(x, y), z) == Plus(x, Plus(y, z))
  {
    hide Plus, Sum3;
    PlusFirst(x, y, z);
    SumFirst(x, y, z);
    SumLast(x, y, z);
    PlusLast(x, y, z);
  }

  lemma PlusTwo(x: bv32)
    ensures Plus(Plus(x, 1), 1) == Plus(x, 2)
  {
  }

  /** Adding the counter's step before or after makes no difference. */
  lemma StepFacts(u: Vec, v: Vec)
    ensures ADD(ADD(u, v), ONE) == ADD(u, ADD(v, ONE)) && ADD(ADD(v, ONE), ONE) == ADD(v, TWO)
  {
    hide Plus;
    PlusAssoc(u.x0, v.x0, 1);
    PlusZero(Plus(u.x1, v.x1));
    PlusZero(Plus(u.x2, v.x2));
    PlusZero(Plus(u.x3, v.x3));
    PlusTwo(v.x0);
    PlusZero(v.x1);
    PlusZero(v.x2);
    PlusZero(v.x3);
  }

  /** The rows that block n is made of. */
  function RowsFor(key: bytes, iv: bytes, n: nat): Rows
    requires |key| == 32 && |iv| == 16
  {
    Rows(Load(MAGIC, 0), Load(key, 0), Load(key, 16),
         Vec(Counter(LittleEndian(iv, 0), n), LittleEndian(iv, 4), LittleEndian(iv, 8), LittleEndian(iv, 12)))
  }

  lemma {:induction false} StateAt(key: bytes, iv: bytes, n: nat, i: nat)
    requires |key| == 32 && |iv| == 16 && i < 16
    ensures StateFor(key, iv, n)[i] ==
            if i < 4 then LittleEndian(MAGIC, 4 * i) else if i < 12 then LittleEndian(key, 4 * (i - 4))
            else if i == 12 then Counter(LittleEndian(iv, 0), n) else LittleEndian(iv, 4 * (i - 12))
  {
    hide LittleEndian, Counter;
  }

  lemma RowsForAt(key: bytes, iv: bytes, n: nat, j: Place, k: Place)
    requires |key| == 32 && |iv| == 16
    ensures Lane(Row(RowsFor(key, iv, n), j), k) == StateFor(key, iv, n)[4 * j + k]
  {
    hide LittleEndian, Counter;
    StateAt(key, iv, n, 4 * j + k);
    hide StateFor;
    if j == 3 { LaneOf(RowsFor(key, iv, n).d, k); }
  }

  lemma LaneOf(u: Vec, k: Place)
    ensures Lane(u, k) == if k == 0 then u.x0 else if k == 1 then u.x1 else if k == 2 then u.x2 else u.x3
  {
  }

  lemma RowsForFlat(key: bytes, iv: bytes, n: nat)
    requires |key| == 32 && |iv| == 16
    ensures Flat(RowsFor(key, iv, n)) == StateFor(key, iv, n)
  {
    hide StateFor, RowsFor, Lane, Row;
    forall i | 0 <= i < 16 ensures Flat(RowsFor(key, iv, n))[i] == StateFor(key, iv, n)[i] {
      RowsForAt(key, iv, n, i / 4, i % 4);
    }
  }

  lemma NextRows(key: bytes, iv: bytes, n: nat)
    requires |key| == 32 && |iv| == 16
    ensures var r := RowsFor(key, iv, n); r.(d := ADD(r.d, ONE)) == RowsFor(key, iv, n + 1)
  {
  }

  // ---------------------------------------------------------------- the vector version

  /** Ten double rounds and the final addition, on one block. */
  method OneBlock(ssse3: bool, s: Rows) returns (k: Rows)
    ensures Flat(k) == Block(Flat(s))
  {
    hide Flat, DoubleRounds;
    ghost var f := Flat(s);
    NoRounds(f);
    k := DoubleRound(ssse3, s, f, 0);
    k := DoubleRound(ssse3, k, f, 1);
    k := DoubleRound(ssse3, k, f, 2);
    k := DoubleRound(ssse3, k, f, 3);
    k := DoubleRound(ssse3, k, f, 4);
    k := DoubleRound(ssse3, k, f, 5);
    k := DoubleRound(ssse3, k, f, 6);
    k := DoubleRound(ssse3, k, f, 7);
    k := DoubleRound(ssse3, k, f, 8);
    k := DoubleRound(ssse3, k, f, 9);
    AddRowsFlat(k, s);
    k := AddRows(k, s);
  }

  lemma {:induction false} NoRounds(s: seq<bv32>)
    requires |s| == 16
    ensures DoubleRounds(s, 0) == s
  {
  }

  /** The rounds of two blocks side by side; the second has the counter one higher. */
  method TwoBlocks(ssse3: bool, s: Rows) returns (k: Rows, m: Rows)
    ensures Flat(k) == Block(Flat(s)) && Flat(m) == Block(Flat(s.(d := ADD(s.d, ONE))))
  {
    hide Flat, DoubleRounds, ADD;
    ghost var f := Flat(s);
    ghost var g := Flat(s.(d := ADD(s.d, ONE)));
    NoRounds(f);
    NoRounds(g);
    k, m := s, s.(d := ADD(s.d, ONE));
    k := DoubleRound(ssse3, k, f, 0);
    m := DoubleRound(ssse3, m, g, 0);
    k := DoubleRound(ssse3, k, f, 1);
    m := DoubleRound(ssse3, m, g, 1);
    k := DoubleRound(ssse3, k, f, 2);
    m := DoubleRound(ssse3, m, g, 2);
    k := DoubleRound(ssse3, k, f, 3);
    m := DoubleRound(ssse3, m, g, 3);
    k := DoubleRound(ssse3, k, f, 4);
    m := DoubleRound(ssse3, m, g, 4);
    k := DoubleRound(ssse3, k, f, 5);
    m := DoubleRound(ssse3, m, g, 5);
    k := DoubleRound(ssse3, k, f, 6);
    m := DoubleRound(ssse3, m, g, 6);
    k := DoubleRound(ssse3, k, f, 7);
    m := DoubleRound(ssse3, m, g, 7);
    k := DoubleRound(ssse3, k, f, 8);
    m := DoubleRound(ssse3, m, g, 8);
    k := DoubleRound(ssse3, k, f, 9);
    m := DoubleRound(ssse3, m, g, 9);
    AddRowsFlat(k, s);
    AddRowsFlat(m, s.(d := ADD(s.d, ONE)));
    StepFacts(m.d, s.d);
    k := AddRows(k, s);
    m := AddRows(m, s);
    m := m.(d := ADD(m.d, ONE));
  }

  /** cc20_context_t of the vector version. */
  class VectorContext {
    const keystream32: array<bv32>
    const key: bytes
    const ssse3: bool

    /** cc20_init */
    constructor (key: bytes, ssse3: bool)
      requires |key| == 32
      ensures this.key == key && Valid() && fresh(keystream32)
    {
      keystream32 := new bv32[16](_ => 0);
      this.key, this.ssse3 := key, ssse3;
    }

    predicate Valid() {
      |key| == 32 && keystream32.Length == 16
    }

    /** The last, partial block, from its end to its beginning. */
    method Tail(out: array<bv8>, input: array<bv8>, p: nat, len: nat, k: Rows)
      requires Valid() && len < 64 && p + len <= out.Length && p + len <= input.Length
      modifies out, keystream32
      ensures Mixed(old(out[..]), out[..], old(input[..]), p, len, Flat(k))
    {
      hide Mix, Flat, ByteOf;
      ghost var in0, out0 := input[..], out[..];
      var f := Flat(k);
      forall i | 0 <= i < 16 { keystream32[i] := f[i]; }
      var n := len;
      while n > 0
        invariant 0 <= n <= len
        invariant forall i :: 0 <= i < 16 ==> keystream32[i] == f[i]
        invariant forall j :: n <= j < len ==> out[..][p + j] == Mix(in0[p + j], Serialized(f, j))
        invariant forall j :: 0 <= j < out.Length && !(p + n <= j < p + len) ==> out[j] == out0[j]
        invariant forall j :: 0 <= j < p + n ==> input[j] == in0[j]
      {
        n := n - 1;
        out[p + n] := Mix(input[p + n], ByteOf(keystream32[n / 4], n % 4));
      }
    }

    /** cc20_crypt; `out` may be `input`. */
    method Crypt(out: array<bv8>, input: array<bv8>, inLen: nat, iv: bytes)
      requires Valid() && |iv| == 16 && inLen <= input.Length && inLen <= out.Length
      modifies out, keystream32
      ensures out[..] == ChaChaSpec.Crypt(key, iv, old(input[..])[..inLen]) + old(out[..])[inLen..]
    {
      hide Mixed, Done, SameFrom, Block, StateFor, Flat, RowsFor, ADD;
      ghost var in0, out0 := input[..], out[..];
      var a, b, c, d := Load(MAGIC, 0), Load(key, 0), Load(key, 16), Load(iv, 0);
      var p, left := 0, inLen;
      ghost var n := 0;
      Beginning(in0, out0, key, iv);
      while left >= 128
        invariant p + left == inLen && p == 64 * n && Rows(a, b, c, d) == RowsFor(key, iv, n)
        invariant Done(out[..], in0, key, iv, p) && SameFrom(in0, input[..], p) && SameFrom(out0, out[..], p)
      {
        var k, m := TwoBlocks(ssse3, Rows(a, b, c, d));
        RowsForFlat(key, iv, n);
        RowsForFlat(key, iv, n + 1);
        NextRows(key, iv, n);
        NextRows(key, iv, n + 1);
        MixBlock(out, input, p, n, k, in0, out0, iv);
        MixBlock(out, input, p + 64, n + 1, m, in0, out0, iv);
        StepFacts(d, d);
        d := ADD(d, TWO);
        p, left, n := p + 128, left - 128, n + 2;
      }
      if left >= 64 {
        var k := OneBlock(ssse3, Rows(a, b, c, d));
        RowsForFlat(key, iv, n);
        NextRows(key, iv, n);
        MixBlock(out, input, p, n, k, in0, out0, iv);
        d := ADD(d, ONE);
        p, left, n := p + 64, left - 64, n + 1;
      }
      if left > 0 {
        var k := OneBlock(ssse3, Rows(a, b, c, d));
        RowsForFlat(key, iv, n);
        ghost var in1, out1 := input[..], out[..];
        Tail(out, input, p, left, k);
        DoneNext(out1, out[..], in0, in1, key, iv, p, left, Flat(k));
        SameNext(out0, out1, out[..], in1, p, left, Flat(k));
      }
      Ending(out0, out[..], in0, key, iv, inLen);
    }

    /** STOREXOR of a block, and what has been done then. */
    method MixBlock(out: array<bv8>, input: array<bv8>, p: nat, ghost n: nat, k: Rows, ghost in0: bytes,
                    ghost out0: bytes, ghost iv: bytes)
      requires Valid() && |iv| == 16 && p == 64 * n && p + 64 <= out.Length && p + 64 <= input.Length
      requires Flat(k) == Block(StateFor(key, iv, n))
      requires Done(out[..], in0, key, iv, p) && SameFrom(in0, input[..], p) && SameFrom(out0, out[..], p)
      modifies out
      ensures Done(out[..], in0, key, iv, p + 64) && SameFrom(in0, input[..], p + 64) && SameFrom(out0, out[..], p + 64)
    {
      hide Mixed, Done, SameFrom, Block, StateFor, Flat;
      ghost var in1, out1 := input[..], out[..];
      StoreRows(out, input, p, k);
      DoneNext(out1, out[..], in0, in1, key, iv, p, 64, Flat(k));
      SameNext(out0, out1, out[..], in1, p, 64, Flat(k));
      SameBoth(in0, in1, input[..], p, 64);
    }
  }

  lemma Beginning(input: bytes, out: bytes, key: bytes, iv: bytes)
    requires |key| == 32 && |iv| == 16
    ensures Done(out, input, key, iv, 0) && SameFrom(input, input, 0) && SameFrom(out, out, 0)
    ensures Rows(Load(MAGIC, 0), Load(key, 0), Load(key, 16), Load(iv, 0)) == RowsFor(key, iv, 0)
  {
  }

  lemma SameNext(out0: bytes, now: bytes, next: bytes, input: bytes, p: nat, n: nat, block: seq<bv32>)
    requires |block| == 16 && n <= 64 && SameFrom(out0, now, p) && Mixed(now, next, input, p, n, block)
    ensures SameFrom(out0, next, p + n)
  {
    hide Mix, Serialized;
  }

  lemma SameBoth(a: bytes, b: bytes, c: bytes, p: nat, n: nat)
    requires SameFrom(a, b, p) && SameFrom(b, c, p + n)
    ensures SameFrom(a, c, p + n)
  {
  }

  lemma Ending(out0: bytes, out: bytes, in0: bytes, key: bytes, iv: bytes, n: nat)
    requires |key| == 32 && |iv| == 16 && n <= |in0| && n <= |out0| && Done(out, in0, key, iv, n)
             && SameFrom(out0, out, n)
    ensures out == Crypt(key, iv, in0[..n]) + out0[n..]
  {
    hide Mix, KeyByte;
  }

  // ---------------------------------------------------------------- the plain version

  /** Half a line of CC20_QUARTERROUND: an addition, and a rotation of what it is mixed with. */
  function Half(s: seq<bv32>, a: nat, b: nat, d: nat, r: bv32): (t: seq<bv32>)
    requires |s| == 16 && a < 16 && b < 16 && d < 16 && 0 < r < 32
    ensures |t| == 16
  {
    var sum := Plus(s[a], s[b]);
    s[a := sum][d := Rol(Xor(s[d], sum), r)]
  }

  method HalfStep(x: array<bv32>, a: nat, b: nat, d: nat, r: bv32)
    requires x.Length == 16 && a < 16 && b < 16 && d < 16 && a != d && 0 < r < 32
    modifies x
    ensures x[..] == Half(old(x[..]), a, b, d, r)
  {
    hide Plus, Xor, Rol;
    x[a] := Plus(x[a], x[b]);
    x[d] := Rol(Xor(x[d], x[a]), r);
  }

  lemma FourHalves(s: seq<bv32>, a: nat, b: nat, c: nat, d: nat)
    requires |s| == 16 && a < 4 <= b < 8 <= c < 12 <= d < 16
    ensures Half(Half(Half(Half(s, a, b, d, 16), c, d, b, 12), a, b, d, 8), c, d, b, 7) == QuarterAt(s, a, b, c, d)
  {
    hide Plus, Xor, Rol;
  }

  /** CC20_QUARTERROUND */
  method QuarterRound(x: array<bv32>, a: nat, b: nat, c: nat, d: nat)
    requires x.Length == 16 && a < 4 <= b < 8 <= c < 12 <= d < 16
    modifies x
    ensures x[..] == QuarterAt(old(x[..]), a, b, c, d)
  {
    hide Half, QuarterAt;
    FourHalves(x[..], a, b, c, d);
    HalfStep(x, a, b, d, 16);
    HalfStep(x, c, d, b, 12);
    HalfStep(x, a, b, d, 8);
    HalfStep(x, c, d, b, 7);
  }

  /** CC20_DOUBLE_ROUND, the n-th in a row. */
  method DoubleRoundInPlace(s: array<bv32>, ghost start: seq<bv32>, ghost n: nat)
    requires s.Length == 16 && |start| == 16 && s[..] == DoubleRounds(start, n)
    modifies s
    ensures s[..] == DoubleRounds(start, n + 1)
  {
    hide QuarterAt;
    QuarterRound(s, 0, 4, 8, 12);
    QuarterRound(s, 1, 5, 9, 13);
    QuarterRound(s, 2, 6, 10, 14);
    QuarterRound(s, 3, 7, 11, 15);
    QuarterRound(s, 0, 5, 10, 15);
    QuarterRound(s, 1, 6, 11, 12);
    QuarterRound(s, 2, 7, 8, 13);
    QuarterRound(s, 3, 4, 9, 14);
  }

  /** cc20_context_t of the plain version. */
  class PlainContext {
    const keystream32: array<bv32>
    const state: array<bv32>
    const key: bytes

    /** cc20_init */
    constructor (key: bytes)
      requires |key| == 32
      ensures this.key == key && Valid() && fresh(keystream32) && fresh(state)
    {
      keystream32, state := new bv32[16](_ => 0), new bv32[16](_ => 0);
      this.key := key;
    }

    predicate Valid() {
      |key| == 32 && keystream32.Length == state.Length == 16 && keystream32 != state
    }

    /** cc20_init_block */
    method InitBlock(nonce: bytes)
      requires Valid() && |nonce| == 16
      modifies state
      ensures state[..] == StateFor(key, nonce, 0)
    {
      hide LittleEndian, Counter;
      forall i | 0 <= i < 4 { state[i] := LittleEndian(MAGIC, 4 * i); }
      forall i | 4 <= i < 12 { state[i] := LittleEndian(key, 4 * (i - 4)); }
      forall i | 12 <= i < 16 { state[i] := LittleEndian(nonce, 4 * (i - 12)); }
      NoCount(LittleEndian(nonce, 0));
      forall i | 0 <= i < 16 ensures state[i] == StateFor(key, nonce, 0)[i] {
        StateAt(key, nonce, 0, i);
      }
    }

    /** cc20_block_next: one block of key stream, and the counter one higher. */
    method BlockNext()
      requires Valid()
      modifies keystream32, state
      ensures keystream32[..] == Block(old(state[..])) && state[..] == old(state[..])[12 := Plus(old(state[12]), 1)]
    {
      hide DoubleRounds, Plus;
      ghost var s := state[..];
      forall i | 0 <= i < 16 { keystream32[i] := state[i]; }
      NoRounds(s);
      assert keystream32[..] == s;
      DoubleRoundInPlace(keystream32, s, 0);
      DoubleRoundInPlace(keystream32, s, 1);
      DoubleRoundInPlace(keystream32, s, 2);
      DoubleRoundInPlace(keystream32, s, 3);
      DoubleRoundInPlace(keystream32, s, 4);
      DoubleRoundInPlace(keystream32, s, 5);
      DoubleRoundInPlace(keystream32, s, 6);
      DoubleRoundInPlace(keystream32, s, 7);
      DoubleRoundInPlace(keystream32, s, 8);
      DoubleRoundInPlace(keystream32, s, 9);
      ghost var k := keystream32[..];
      forall i | 0 <= i < 16 { keystream32[i] := Plus(keystream32[i], state[i]); }
      assert keystream32[..] == AddWords(k, s);
      ghost var block := keystream32[..];
      state[12] := Plus(state[12], 1);
      assert keystream32[..] == block;
    }

    /** The sixteen words of a whole block. */
    method XorBlock(out: array<bv8>, input: array<bv8>, p: nat)
      requires Valid() && p + 64 <= out.Length && p + 64 <= input.Length
      modifies out
      ensures Mixed(old(out[..]), out[..], old(input[..]), p, 64, keystream32[..])
      ensures SameFrom(old(input[..]), input[..], p + 64)
    {
      hide Mixed, SameFrom;
      ghost var in0, out0, block := input[..], out[..], keystream32[..];
      MixedNone(out0, in0, p, block);
      var i := 0;
      while i < 16
        invariant 0 <= i <= 16 && Mixed(out0, out[..], in0, p, 4 * i, block) && SameFrom(in0, input[..], p + 4 * i)
      {
        XorNext(out, input, p, 4 * i, keystream32[i], out0, in0, block);
        i := i + 1;
      }
    }

    /** The last, partial block, byte by byte; `done` bytes came before it. */
    method Tail(out: array<bv8>, input: array<bv8>, p: nat, len: nat, done: nat)
      requires Valid() && len < 64 && p + len <= out.Length && p + len <= input.Length && done % 64 == 0
      modifies out
      ensures Mixed(old(out[..]), out[..], old(input[..]), p, len, keystream32[..])
    {
      hide Mix, ByteOf;
      ghost var in0, out0, f := input[..], out[..], keystream32[..];
      var i := 0;
      while i < len
        invariant 0 <= i <= len
        invariant forall j :: 0 <= j < i ==> out[..][p + j] == Mix(in0[p + j], Serialized(f, j))
        invariant forall j :: 0 <= j < out.Length && !(p <= j < p + i) ==> out[j] == out0[j]
        invariant forall j :: p + i <= j < input.Length ==> input[j] == in0[j]
      {
        var at := (done + i) % 64;
        assert at == i;
        out[p + i] := Mix(input[p + i], ByteOf(keystream32[at / 4], at % 4));
        i := i + 1;
      }
    }

    /** cc20_crypt; `out` may be `input`. */
    method Crypt(out: array<bv8>, input: array<bv8>, inLen: nat, iv: bytes)
      requires Valid() && |iv| == 16 && inLen <= input.Length && inLen <= out.Length
      modifies out, keystream32, state
      ensures out[..] == ChaChaSpec.Crypt(key, iv, old(input[..])[..inLen]) + old(out[..])[inLen..]
    {
      hide Mixed, Done, SameFrom, Block, StateFor, Plus;
      ghost var in0, out0 := input[..], out[..];
      InitBlock(iv);
      Beginning(in0, out0, key, iv);
      var p, left := 0, inLen;
      ghost var n := 0;
      while left >= 64
        invariant p + left == inLen && p == 64 * n && state[..] == StateFor(key, iv, n)
        invariant Done(out[..], in0, key, iv, p) && SameFrom(in0, input[..], p) && SameFrom(out0, out[..], p)
      {
        BlockNext();
        CountOn(key, iv, n);
        ghost var in1, out1 := input[..], out[..];
        XorBlock(out, input, p);
        DoneNext(out1, out[..], in0, in1, key, iv, p, 64, keystream32[..]);
        SameNext(out0, out1, out[..], in1, p, 64, keystream32[..]);
        SameBoth(in0, in1, input[..], p, 64);
        p, left, n := p + 64, left - 64, n + 1;
      }
      if left > 0 {
        BlockNext();
        ghost var in1, out1 := input[..], out[..];
        Tail(out, input, p, left, inLen - left);
        DoneNext(out1, out[..], in0, in1, key, iv, p, left, keystream32[..]);
        SameNext(out0, out1, out[..], in1, p, left, keystream32[..]);
      }
      Ending(out0, out[..], in0, key, iv, inLen);
    }
  }

  lemma {:induction false} NoCount(c: bv32)
    ensures Counter(c, 0) == c
  {
  }

  lemma CountOn(key: bytes, iv: bytes, n: nat)
    requires |key| == 32 && |iv| == 16
    ensures var s := StateFor(key, iv, n); s[12 := Plus(s[12], 1)] == StateFor(key, iv, n + 1)
  {
    hide LittleEndian, Plus;
  }
}
