/** lzo_adler32: the sums are reduced only after every 5552 bytes. */
module Adler {
  import opened Bits

  const BASE := 65521
  const NMAX := 5552
  const LIMIT := 0x1_0000_0000

  /** lzo_uint32; every assignment below is a proof that nothing overflows. */
  type u32 = x: int | 0 <= x < LIMIT

  datatype Sums = Sums(s1: nat, s2: nat)

  /** Section 8.2 of RFC 1950: both sums are reduced after every byte. */
  function PerByte(s: Sums, buf: seq<byte>): Sums {
    if buf == [] then s else
      var n := |buf| - 1;
      var before := PerByte(s, buf[..n]);
      var s1 := (before.s1 + buf[n]) % BASE;
      Sums(s1, (before.s2 + s1) % BASE)
  }

  /** The same sums never reduced. */
  function Raw(s: Sums, buf: seq<byte>): Sums {
    if buf == [] then s else
      var n := |buf| - 1;
      var before := Raw(s, buf[..n]);
      Sums(before.s1 + buf[n], before.s2 + before.s1 + buf[n])
  }

  /** The checksum of a buffer, from the sums packed in `adler`. */
  function Checksum(adler: u32, buf: seq<byte>): nat {
    var s := PerByte(Sums(adler % 0x1_0000, adler / 0x1_0000), buf);
    s.s2 * 0x1_0000 + s.s1
  }

  // ---------------------------------------------------------------- the sums

  lemma {:induction false} RawJoin(s: Sums, a: seq<byte>, b: seq<byte>)
    ensures Raw(s, a + b) == Raw(Raw(s, a), b)
    decreases |b|
  {
    if b == [] {
      assert a + b == a;
    } else {
      var n := |b| - 1;
      assert (a + b)[..|a| + n] == a + b[..n];
      RawJoin(s, a, b[..n]);
    }
  }

  lemma {:induction false} PerByteJoin(s: Sums, a: seq<byte>, b: seq<byte>)
    ensures PerByte(s, a + b) == PerByte(PerByte(s, a), b)
    decreases |b|
  {
    if b == [] {
      assert a + b == a;
    } else {
      var n := |b| - 1;
      assert (a + b)[..|a| + n] == a + b[..n];
      PerByteJoin(s, a, b[..n]);
    }
  }

  lemma {:induction false} LastByte(s: Sums, buf: seq<byte>)
    requires buf != []
    ensures var n := |buf| - 1;
            var p, r := PerByte(s, buf[..n]), Raw(s, buf[..n]);
            && PerByte(s, buf).s1 == (p.s1 + buf[n]) % BASE
                && PerByte(s, buf).s2 == (p.s2 + (p.s1 + buf[n]) % BASE) % BASE
            && Raw(s, buf).s1 == r.s1 + buf[n] && Raw(s, buf).s2 == r.s2 + r.s1 + buf[n]
    ensures PerByte(s, []) == s == Raw(s, [])
  {
  }

  /** Reducing once at the end is reducing after every byte. */
  lemma {:induction false} ReduceOnce(s: Sums, buf: seq<byte>)
    requires buf != []
    ensures PerByte(s, buf) == Sums(Raw(s, buf).s1 % BASE, Raw(s, buf).s2 % BASE)
    decreases |buf|
  {
    LastByte(s, buf);
    hide PerByte, Raw;
    var n := |buf| - 1;
    var p, r := PerByte(s, buf[..n]), Raw(s, buf[..n]);
    if n > 0 {
      ReduceOnce(s, buf[..n]);
      ModMod(r.s1);
      ModMod(r.s2);
    } else {
      assert buf[..n] == [];
    }
    ReduceStep(p, r, buf[n]);
  }

  lemma ModMod(a: nat)
    ensures a % BASE % BASE == a % BASE
  {
  }

  /** One more byte, on sums that agree modulo BASE. */
  lemma ReduceStep(p: Sums, r: Sums, b: nat)
    requires p.s1 % BASE == r.s1 % BASE && p.s2 % BASE == r.s2 % BASE
    ensures (p.s1 + b) % BASE == (r.s1 + b) % BASE
    ensures (p.s2 + (p.s1 + b) % BASE) % BASE == (r.s2 + r.s1 + b) % BASE
  {
    SumMod(p.s1, r.s1, b, b);
    ModMod(r.s1 + b);
    SumMod(p.s2, r.s2, (p.s1 + b) % BASE, r.s1 + b);
  }

  lemma SumMod(a: nat, c: nat, b: nat, d: nat)
    requires a % BASE == c % BASE && b % BASE == d % BASE
    ensures (a + b) % BASE == (c + d) % BASE
  {
  }

  /** How large the sums get: the worst case of n bytes of 255. */
  lemma {:induction false} RawBound(s: Sums, buf: seq<byte>)
    ensures var r, n := Raw(s, buf), |buf|;
            r.s1 <= s.s1 + 255 * n && 2 * r.s2 <= 2 * s.s2 + 2 * (n * s.s1) + 255 * (n * (n + 1))
    decreases |buf|
  {
    if buf != [] {
      var n := |buf| - 1;
      RawBound(s, buf[..n]);
      Squares(n, s.s1);
    }
  }

  lemma Squares(n: nat, a: nat)
    ensures (n + 1) * a == n * a + a && (n + 1) * (n + 2) == n * (n + 1) + 2 * (n + 1)
  {
  }

  /** So in one block of NMAX bytes, from any packed sums, both stay below 2^32. */
  lemma {:induction false} NoOverflow(s: Sums, buf: seq<byte>)
    requires s.s1 < 0x1_0000 && s.s2 < 0x1_0000 && |buf| <= NMAX
    ensures Raw(s, buf).s1 < LIMIT && Raw(s, buf).s2 < LIMIT
  {
    RawBound(s, buf);
    Grows(|buf|, s.s1);
  }

  lemma Grows(n: nat, a: nat)
    requires n <= NMAX && a < 0x1_0000
    ensures n * a <= NMAX * 0xffff && n * (n + 1) <= NMAX * (NMAX + 1)
  {
    Product(n, NMAX, a, 0xffff);
    Product(n, NMAX, n + 1, NMAX + 1);
  }

  lemma Product(x: nat, y: nat, u: nat, v: nat)
    requires x <= y && u <= v
    ensures x * u <= y * v
  {
  }

  // ---------------------------------------------------------------- the code

  /** LZO_DO1 */
  method Do1(a1: u32, a2: u32, buf: seq<byte>, i: nat, ghost s: Sums, ghost from: nat) returns (s1: u32, s2: u32)
    requires from <= i < |buf| && i + 1 - from <= NMAX && s.s1 < 0x1_0000 && s.s2 < 0x1_0000
    requires Sums(a1, a2) == Raw(s, buf[from..i])
    ensures Sums(s1, s2) == Raw(s, buf[from..i + 1])
  {
    assert buf[from..i + 1][..i - from] == buf[from..i];
    NoOverflow(s, buf[from..i + 1]);
    s1 := a1 + buf[i];
    s2 := a2 + s1;
  }

  /** LZO_DO4: two LZO_DO2. */
  method Do4(a1: u32, a2: u32, buf: seq<byte>, i: nat, ghost s: Sums, ghost from: nat) returns (s1: u32, s2: u32)
    requires from <= i && i + 4 <= |buf| && i + 4 - from <= NMAX && s.s1 < 0x1_0000 && s.s2 < 0x1_0000
    requires Sums(a1, a2) == Raw(s, buf[from..i])
    ensures Sums(s1, s2) == Raw(s, buf[from..i + 4])
  {
    hide Raw;
    s1, s2 := Do1(a1, a2, buf, i, s, from);
    s1, s2 := Do1(s1, s2, buf, i + 1, s, from);
    s1, s2 := Do1(s1, s2, buf, i + 2, s, from);
    s1, s2 := Do1(s1, s2, buf, i + 3, s, from);
  }

  /** LZO_DO16 */
  method Do16(a1: u32, a2: u32, buf: seq<byte>, i: nat, ghost s: Sums, ghost from: nat) returns (s1: u32, s2: u32)
    requires from <= i && i + 16 <= |buf| && i + 16 - from <= NMAX && s.s1 < 0x1_0000 && s.s2 < 0x1_0000
    requires Sums(a1, a2) == Raw(s, buf[from..i])
    ensures Sums(s1, s2) == Raw(s, buf[from..i + 16])
  {
    hide Raw;
    s1, s2 := Do4(a1, a2, buf, i, s, from);
    s1, s2 := Do4(s1, s2, buf, i + 4, s, from);
    s1, s2 := Do4(s1, s2, buf, i + 8, s, from);
    s1, s2 := Do4(s1, s2, buf, i + 12, s, from);
  }

  /** One block: sixteen bytes at a time, then one by one, then the two reductions. */
  method SumBlock(a1: u32, a2: u32, buf: seq<byte>, from: nat, n: nat) returns (s1: u32, s2: u32)
    requires 0 < n <= NMAX && from + n <= |buf| && a1 < 0x1_0000 && a2 < 0x1_0000
    ensures Sums(s1, s2) == PerByte(Sums(a1, a2), buf[from..from + n]) && s1 < BASE && s2 < BASE
  {
    hide Raw, PerByte;
    ghost var s := Sums(a1, a2);
    s1, s2 := a1, a2;
    var k, p := n, from;
    RawNone(s);
    assert buf[from..from] == [];
    while k >= 16
      invariant 0 <= k <= n && p == from + n - k && Sums(s1, s2) == Raw(s, buf[from..p])
    {
      s1, s2 := Do16(s1, s2, buf, p, s, from);
      p, k := p + 16, k - 16;
    }
    while k > 0
      invariant 0 <= k <= n && p == from + n - k && Sums(s1, s2) == Raw(s, buf[from..p])
    {
      s1, s2 := Do1(s1, s2, buf, p, s, from);
      p, k := p + 1, k - 1;
    }
    ReduceOnce(s, buf[from..from + n]);
    s1, s2 := s1 % BASE, s2 % BASE;
  }

  lemma {:induction false} RawNone(s: Sums)
    ensures Raw(s, []) == s == PerByte(s, [])
  {
  }

  /** a << n */
  function Shifted(a: nat, n: nat): nat {
    if n == 0 then a else 2 * Shifted(a, n - 1)
  }

  /** A part shifted past the other is added by an or. */
  lemma {:induction false} OrIsSum(a: nat, t: nat, n: nat)
    requires t < Pow2(n)
    ensures BitOr(Shifted(a, n), t) == Shifted(a, n) + t
    decreases n
  {
    if n == 0 {
      BitOrZero(a);
    } else {
      OrIsSum(a, t / 2, n - 1);
      OrDouble(Shifted(a, n - 1), t);
    }
  }

  lemma {:induction false} OrDouble(b: nat, t: nat)
    ensures BitOr(2 * b, t) == t % 2 + 2 * BitOr(b, t / 2)
  {
  }

  lemma FourBits(a: nat, n: nat)
    ensures Pow2(n + 4) == 16 * Pow2(n) && Shifted(a, n + 4) == 16 * Shifted(a, n)
  {
    assert Pow2(n + 3) == 8 * Pow2(n) by { assert Pow2(n + 2) == 2 * Pow2(n + 1); }
    assert Shifted(a, n + 3) == 8 * Shifted(a, n) by { assert Shifted(a, n + 2) == 2 * Shifted(a, n + 1); }
  }

  lemma {:induction false} SixteenBits(a: nat)
    ensures Pow2(16) == 0x1_0000 && Shifted(a, 16) == a * 0x1_0000
  {
    FourBits(a, 0);
    FourBits(a, 4);
    FourBits(a, 8);
    FourBits(a, 12);
  }

  /** lzo_adler32 */
  method Adler32(adler: u32, data: array?<byte>, len0: nat) returns (sum: u32)
    requires data != null ==> len0 <= data.Length
    ensures sum == if data == null then 1 else Checksum(adler, data[..len0])
  {
    hide PerByte;
    if data == null { return 1; }
    var buf := data[..len0];
    var s1: u32, s2: u32 := adler % 0x1_0000, adler / 0x1_0000;
    ghost var s := Sums(s1, s2);
    var p, len := 0, len0;
    RawNone(s);
    assert buf[..0] == [];
    while len > 0
      invariant 0 <= p && 0 <= len && p + len == |buf| && s1 < 0x1_0000 && s2 < 0x1_0000
      invariant Sums(s1, s2) == PerByte(s, buf[..p])
    {
      var k := if len < NMAX then len else NMAX;
      assert buf[..p] + buf[p..p + k] == buf[..p + k];
      PerByteJoin(s, buf[..p], buf[p..p + k]);
      s1, s2 := SumBlock(s1, s2, buf, p, k);
      p, len := p + k, len - k;
    }
    assert buf[..p] == buf;
    SixteenBits(s2);
    OrIsSum(s2, s1, 16);
    sum := BitOr(Shifted(s2, 16), s1);
  }
}
