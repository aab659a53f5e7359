/** ChaCha20 as sections 2.1 to 2.4 of RFC 8439 define it, with a 16-byte vector: counter, then nonce. */
module ChaChaSpec {
  type bytes = seq<bv8>

  // ---------------------------------------------------------------- words

  /** Addition modulo 2^32. */
  function Plus(x: bv32, y: bv32): bv32 {
    x + y
  }

  function Xor(x: bv32, y: bv32): bv32 {
    x ^ y
  }

  /** Rotation to the left by r bits. */
  function Rol(x: bv32, r: bv32): bv32
    requires 0 < r < 32
  {
    (x << r) | (x >> (32 - r))
  }

  /** A byte of the key stream on a byte of data. */
  function Mix(x: bv8, y: bv8): bv8 {
    x ^ y
  }

  function Join(p: bv8, q: bv8, r: bv8, s: bv8): bv32 {
    (p as bv32) | (q as bv32 << 8) | (r as bv32 << 16) | (s as bv32 << 24)
  }

  /** Four bytes, the lowest first. */
  function LittleEndian(b: bytes, i: nat): bv32
    requires i + 4 <= |b|
  {
    Join(b[i], b[i + 1], b[i + 2], b[i + 3])
  }

  function Byte0(w: bv32): bv8 { (w & 0xff) as bv8 }
  function Byte1(w: bv32): bv8 { ((w >> 8) & 0xff) as bv8 }
  function Byte2(w: bv32): bv8 { ((w >> 16) & 0xff) as bv8 }
  function Byte3(w: bv32): bv8 { ((w >> 24) & 0xff) as bv8 }

  /** Byte k of a word in memory. */
  function ByteOf(w: bv32, k: nat): bv8
    requires k < 4
  {
    if k == 0 then Byte0(w) else if k == 1 then Byte1(w) else if k == 2 then Byte2(w) else Byte3(w)
  }

  // ---------------------------------------------------------------- rounds

  datatype Four = Four(a: bv32, b: bv32, c: bv32, d: bv32)

  /** Section 2.1: the quarter round. */
  function Quarter(q: Four): Four {
    var a1 := Plus(q.a, q.b);
    var d1 := Rol(Xor(q.d, a1), 16);
    var c1 := Plus(q.c, d1);
    var b1 := Rol(Xor(q.b, c1), 12);
    var a2 := Plus(a1, b1);
    var d2 := Rol(Xor(d1, a2), 8);
    var c2 := Plus(c1, d2);
    Four(a2, Rol(Xor(b1, c2), 7), c2, d2)
  }

  /** Section 2.2: a quarter round on four of the sixteen words. */
  function QuarterAt(s: seq<bv32>, a: nat, b: nat, c: nat, d: nat): (t: seq<bv32>)
    requires |s| == 16 && a < 16 && b < 16 && c < 16 && d < 16
    ensures |t| == 16
  {
    var q := Quarter(Four(s[a], s[b], s[c], s[d]));
    s[a := q.a][b := q.b][c := q.c][d := q.d]
  }

  function ColumnRound(s: seq<bv32>): (t: seq<bv32>)
    requires |s| == 16
    ensures |t| == 16
  {
    QuarterAt(QuarterAt(QuarterAt(QuarterAt(s, 0, 4, 8, 12), 1, 5, 9, 13), 2, 6, 10, 14), 3, 7, 11, 15)
  }

  function DiagonalRound(s: seq<bv32>): (t: seq<bv32>)
    requires |s| == 16
    ensures |t| == 16
  {
    QuarterAt(QuarterAt(QuarterAt(QuarterAt(s, 0, 5, 10, 15), 1, 6, 11, 12), 2, 7, 8, 13), 3, 4, 9, 14)
  }

  /** Section 2.3: n double rounds. */
  function DoubleRounds(s: seq<bv32>, n: nat): (t: seq<bv32>)
    requires |s| == 16
    ensures |t| == 16
  {
    if n == 0 then s else DiagonalRound(ColumnRound(DoubleRounds(s, n - 1)))
  }

  function AddWords(s: seq<bv32>, t: seq<bv32>): (u: seq<bv32>)
    requires |s| == |t|
    ensures |u| == |s|
  {
    seq(|s|, i requires 0 <= i < |s| => Plus(s[i], t[i]))
  }

  /** Section 2.3: the block function. */
  function Block(s: seq<bv32>): (t: seq<bv32>)
    requires |s| == 16
    ensures |t| == 16
  {
    AddWords(DoubleRounds(s, 10), s)
  }

  // ---------------------------------------------------------------- the key stream

  /** "expand 32-byte k" */
  const MAGIC: bytes := [0x65, 0x78, 0x70, 0x61, 0x6e, 0x64, 0x20, 0x33, 0x32, 0x2d, 0x62, 0x79, 0x74, 0x65, 0x20, 0x6b]

  /** n words from byte i on. */
  function WordsAt(b: bytes, i: nat, n: nat): (w: seq<bv32>)
    requires i + 4 * n <= |b|
    ensures |w| == n
  {
    seq(n, k requires 0 <= k < n => LittleEndian(b, i + 4 * k))
  }

  /** The counter after n blocks. */
  function Counter(c: bv32, n: nat): bv32 {
    if n == 0 then c else Plus(Counter(c, n - 1), 1)
  }

  /** The state that block n is made of. */
  function StateFor(key: bytes, iv: bytes, n: nat): (s: seq<bv32>)
    requires |key| == 32 && |iv| == 16
    ensures |s| == 16
  {
    WordsAt(MAGIC, 0, 4) + WordsAt(key, 0, 8) + [Counter(LittleEndian(iv, 0), n)] + WordsAt(iv, 4, 3)
  }

  /** Byte k of a block as it is serialized. */
  function Serialized(s: seq<bv32>, k: nat): bv8
    requires |s| == 16 && k < 64
  {
    ByteOf(s[k / 4], k % 4)
  }

  /** Byte k of the key stream. */
  function KeyByte(key: bytes, iv: bytes, k: nat): bv8
    requires |key| == 32 && |iv| == 16
  {
    Serialized(Block(StateFor(key, iv, k / 64)), k % 64)
  }

  /** Section 2.4: encryption, which is also decryption. */
  function Crypt(key: bytes, iv: bytes, data: bytes): (r: bytes)
    requires |key| == 32 && |iv| == 16
    ensures |r| == |data|
  {
    seq(|data|, k requires 0 <= k < |data| => Mix(data[k], KeyByte(key, iv, k)))
  }

  lemma MixTwice(x: bv8, y: bv8)
    ensures Mix(Mix(x, y), y) == x
  {
  }

  /** Applied twice it is the identity. */
  lemma CryptTwice(key: bytes, iv: bytes, data: bytes)
    requires |key| == 32 && |iv| == 16
    ensures Crypt(key, iv, Crypt(key, iv, data)) == data
  {
    hide KeyByte, Mix;
    forall k | 0 <= k < |data| ensures Crypt(key, iv, Crypt(key, iv, data))[k] == data[k] {
      MixTwice(data[k], KeyByte(key, iv, k));
    }
  }
}
