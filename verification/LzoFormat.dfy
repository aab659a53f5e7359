/** The LZO1X stream grammar: what a compressed stream says, how it is written
    in bytes, and what text it stands for. */
module LzoFormat {
  import opened Bits

  const M2_MAX_LEN := 8
  const M2_MAX_OFFSET := 0x0800
  const M3_MAX_OFFSET := 0x4000
  const M4_MAX_OFFSET := 0xbfff
  const M3_MAX_LEN := 33
  const M4_MAX_LEN := 9
  const M3_MARKER := 32
  const M4_MARKER := 16

  /** The five ways a back reference can be written.  M1 and M1Long are the two-byte
      and three-byte copies whose first byte would be a literal count elsewhere. */
  datatype Match =
    | M1(off: nat)
    | M1Long(off: nat)
    | M2(off: nat, len2: nat)
    | M3(off: nat, len3: nat)
    | M4(off: nat, len4: nat)
  {
    predicate Valid() {
      match this
      case M1(off) => 1 <= off <= 0x400
      case M1Long(off) => M2_MAX_OFFSET < off <= M2_MAX_OFFSET + 0x400
      case M2(off, len) => 1 <= off <= M2_MAX_OFFSET && 3 <= len <= M2_MAX_LEN
      case M3(off, len) => 1 <= off <= M3_MAX_OFFSET && 3 <= len
      case M4(off, len) => M3_MAX_OFFSET < off <= M4_MAX_OFFSET && 3 <= len
    }

    function Len(): nat {
      match this
      case M1(_) => 2
      case M1Long(_) => 3
      case M2(_, len) => len
      case M3(_, len) => len
      case M4(_, len) => len
    }
  }

  type ValidMatch = m: Match | m.Valid() witness M2(1, 3)

  /** A back reference and the literals up to the next one. */
  datatype Item = Item(m: ValidMatch, lits: seq<byte>)

  /** A whole stream; `direct` says that the opening run is written as one count byte above 17. */
  datatype Stream = Stream(first: seq<byte>, direct: bool, items: seq<Item>)

  const EOF_MARKER: seq<byte> := [M4_MARKER + 1, 0, 0]

  /** An extended length: one zero byte for each 255, then the non-zero rest. */
  function Extended(n: nat): (bytes: seq<byte>)
    requires n > 0
    ensures |bytes| >= 1
  {
    if n <= 255 then [n] else [0] + Extended(n - 255)
  }

  function RunHeader(n: nat): (bytes: seq<byte>)
    requires n >= 4
    ensures |bytes| >= 1
  {
    [RunFirstByte(n)] + RunExtension(n)
  }

  function RunFirstByte(n: nat): (b: byte)
    requires n >= 4
    ensures b < 16 && (b == 0 <==> n > 18)
  {
    if n <= 18 then n - 3 else 0
  }

  function RunExtension(n: nat): seq<byte> {
    if n <= 18 then [] else Extended(n - 18)
  }

  /** The bytes of a back reference with `k` in the two spare bits of its last byte but one. */
  function MatchBytes(m: ValidMatch, k: nat): (bytes: seq<byte>)
    requires k < 4
    ensures |bytes| >= 2 && bytes[|bytes| - 2] % 4 == k
  {
    match m
    case M1(off) => [(off - 1) % 4 * 4 + k, (off - 1) / 4]
    case M1Long(off) => [(off - 1 - M2_MAX_OFFSET) % 4 * 4 + k, (off - 1 - M2_MAX_OFFSET) / 4]
    case M2(off, len) => [(len - 1) * 32 + (off - 1) % 8 * 4 + k, (off - 1) / 8]
    case M3(off, len) =>
      [M3_MARKER + ShortLen(len, M3_MAX_LEN)] + (LongLen(len, M3_MAX_LEN) + OffsetBytes(off - 1, k))
    case M4(off, len) =>
      [M4_MARKER + (off - 0x4000) / 0x4000 * 8 + ShortLen(len, M4_MAX_LEN)]
      + (LongLen(len, M4_MAX_LEN) + OffsetBytes((off - 0x4000) % 0x4000, k))
  }

  /** The length field of the first byte: zero says that an extended length follows. */
  function ShortLen(len: nat, max: nat): (f: nat)
    requires 3 <= len && 3 <= max
    ensures f <= max - 2 && (f == 0 <==> len > max)
  {
    if len <= max then len - 2 else 0
  }

  function LongLen(len: nat, max: nat): seq<byte> {
    if len <= max then [] else Extended(len - max)
  }

  function OffsetBytes(o: nat, k: nat): (bytes: seq<byte>)
    requires o < 0x4000 && k < 4
    ensures |bytes| == 2 && bytes[0] % 4 == k
  {
    [o % 64 * 4 + k, o / 64]
  }

  /** Up to three literals are counted in the match before them; more have their own header. */
  function SpareBits(lits: seq<byte>): (k: nat)
    ensures k < 4
  {
    if |lits| <= 3 then |lits| else 0
  }

  function LitBytes(lits: seq<byte>): seq<byte> {
    if |lits| <= 3 then lits else RunHeader(|lits|) + lits
  }

  function FirstBytes(first: seq<byte>, direct: bool): seq<byte>
    requires FirstValid(first, direct)
  {
    if first == [] then [] else if direct then [17 + |first|] + first else RunHeader(|first|) + first
  }

  function ItemBytes(it: Item): (bytes: seq<byte>)
    ensures |bytes| >= 2
  {
    MatchBytes(it.m, SpareBits(it.lits)) + LitBytes(it.lits)
  }

  /** All items from the front, and the end marker. */
  function ItemsBytes(items: seq<Item>): (bytes: seq<byte>)
    ensures |bytes| >= 3
  {
    if items == [] then EOF_MARKER else ItemBytes(items[0]) + ItemsBytes(items[1..])
  }

  function StreamBytes(s: Stream): seq<byte>
    requires StreamValid(s)
  {
    FirstBytes(s.first, s.direct) + ItemsBytes(s.items)
  }

  predicate FirstValid(first: seq<byte>, direct: bool) {
    if direct then |first| <= 238 else first == [] || |first| >= 4
  }

  /** An item may come next: it reaches inside the text, and an M1 form suits the run before it. */
  predicate MayFollow(it: Item, prev: nat, produced: nat) {
    && it.m.off <= produced
    && (it.m.M1? ==> 1 <= prev <= 3)
    && (it.m.M1Long? ==> 4 <= prev)
  }

  /** Each reference stays inside what has been produced, and the two M1 forms only
      follow the literal runs after which the decoder expects them. */
  predicate ItemsValid(prev: nat, produced: nat, items: seq<Item>)
    decreases |items|
  {
    items == [] ||
    (&& MayFollow(items[0], prev, produced)
     && ItemsValid(|items[0].lits|, produced + items[0].m.Len() + |items[0].lits|, items[1..]))
  }

  predicate StreamValid(s: Stream) {
    FirstValid(s.first, s.direct) && ItemsValid(|s.first|, |s.first|, s.items)
  }

  /** Appends n bytes, each read `off` behind the end: the copy may overlap itself. */
  function CopyBack(out: seq<byte>, off: nat, n: nat): (res: seq<byte>)
    requires 1 <= off <= |out|
    ensures |res| == |out| + n && out <= res
    decreases n
  {
    if n == 0 then out else CopyBack(out + [out[|out| - off]], off, n - 1)
  }

  /** The text after one item: its copy, then its literals. */
  function Grown(out: seq<byte>, it: Item): (res: seq<byte>)
    requires it.m.off <= |out|
    ensures |res| == |out| + it.m.Len() + |it.lits| && out <= res
  {
    assert it.m.Valid();
    CopyBack(out, it.m.off, it.m.Len()) + it.lits
  }

  /** What the items add to the text `out`. */
  function Expand(out: seq<byte>, prev: nat, items: seq<Item>): (res: seq<byte>)
    requires ItemsValid(prev, |out|, items)
    ensures out <= res
    decreases |items|
  {
    if items == [] then out else Expand(Grown(out, items[0]), |items[0].lits|, items[1..])
  }

  lemma {:induction false} ExpandStep(out: seq<byte>, prev: nat, items: seq<Item>)
    requires items != [] && MayFollow(items[0], prev, |out|)
    ensures ItemsValid(prev, |out|, items) <==> ItemsValid(|items[0].lits|, |Grown(out, items[0])|, items[1..])
    ensures ItemsValid(prev, |out|, items)
            ==> Expand(out, prev, items) == Expand(Grown(out, items[0]), |items[0].lits|, items[1..])
  {
  }

  function StreamText(s: Stream): seq<byte>
    requires StreamValid(s)
  {
    Expand(s.first, |s.first|, s.items)
  }
}
