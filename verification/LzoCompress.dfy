/** lzo1x_1_compress: for every input and whatever the dictionary holds, the output is a
    well-formed LZO1X stream whose text is the input, and it is not much longer than the input. */
module LzoCompress {
  import opened Bits
  import opened LzoFormat

  const D_SIZE := 0x4000

  /** The stream so far, with no end marker; nothing is written until the first match. */
  function PrefixBytes(items: seq<Item>): seq<byte> {
    if items == [] then [] else PrefixBytes(items[..|items| - 1]) + ItemBytes(items[|items| - 1])
  }

  lemma {:induction false} PrefixJoin(a: seq<Item>, b: seq<Item>)
    ensures PrefixBytes(a) + ItemsBytes(b) == ItemsBytes(a + b)
    decreases |a|
  {
    if a == [] {
      assert a + b == b;
    } else {
      var n := |a| - 1;
      assert a[..n] + ([a[n]] + b) == a + b;
      assert ([a[n]] + b)[1..] == b;
      PrefixJoin(a[..n], [a[n]] + b);
    }
  }

  function LastRun(prev: nat, items: seq<Item>): nat {
    if items == [] then prev else |items[|items| - 1].lits|
  }

  /** Adding an item at the end. */
  lemma {:induction false} ItemsSnoc(out: seq<byte>, prev: nat, items: seq<Item>, it: Item)
    requires ItemsValid(prev, |out|, items)
    requires MayFollow(it, LastRun(prev, items), |Expand(out, prev, items)|)
    ensures ItemsValid(prev, |out|, items + [it])
    ensures Expand(out, prev, items + [it]) == Grown(Expand(out, prev, items), it)
    decreases |items|
  {
    if items == [] {
      assert items + [it] == [it];
      ExpandStep(out, prev, [it]);
    } else {
      assert (items + [it])[1..] == items[1..] + [it] && (items + [it])[0] == items[0];
      ExpandStep(out, prev, items);
      ExpandStep(out, prev, items + [it]);
      hide Expand, ItemsValid, Grown;
      ItemsSnoc(Grown(out, items[0]), |items[0].lits|, items[1..], it);
    }
  }

  /** A well-formed stream up to the last item, and the text it stands for. */
  ghost predicate Wrote(out: seq<byte>, s: Stream, text: seq<byte>) {
    StreamValid(s) && out == FirstBytes(s.first, s.direct) + PrefixBytes(s.items) && StreamText(s) == text
  }

  /** The last item's literals are still unknown. */
  ghost predicate Open(s: Stream) {
    s.items == [] || s.items[|s.items| - 1].lits == []
  }

  lemma WroteAll(out: seq<byte>, s: Stream, text: seq<byte>)
    requires Wrote(out, s, text)
    ensures StreamValid(s) && out + EOF_MARKER == StreamBytes(s) && StreamText(s) == text
  {
    PrefixEnd(s.items);
    hide PrefixBytes, ItemsBytes, FirstBytes, Expand, ItemsValid;
    Assoc(FirstBytes(s.first, s.direct), PrefixBytes(s.items), EOF_MARKER);
  }

  lemma {:induction false} PrefixEnd(items: seq<Item>)
    ensures PrefixBytes(items) + EOF_MARKER == ItemsBytes(items)
  {
    PrefixJoin(items, []);
    assert items + [] == items;
  }

  /** Giving the last item its literals. */
  function Amend(items: seq<Item>, lits: seq<byte>): seq<Item>
    requires items != []
  {
    items[..|items| - 1] + [Item(items[|items| - 1].m, lits)]
  }

  lemma {:induction false} ItemsAmend(out: seq<byte>, prev: nat, items: seq<Item>, lits: seq<byte>)
    requires items != [] && items[|items| - 1].lits == [] && ItemsValid(prev, |out|, items)
    ensures ItemsValid(prev, |out|, Amend(items, lits))
    ensures Expand(out, prev, Amend(items, lits)) == Expand(out, prev, items) + lits
    decreases |items|
  {
    var last := Item(items[0].m, lits);
    if |items| == 1 {
      assert items == [items[0]] && Amend(items, lits) == [last];
      assert Grown(out, last) == Grown(out, items[0]) + lits;
      ExpandStep(out, prev, [items[0]]);
      ExpandStep(out, prev, [last]);
    } else {
      assert Amend(items, lits)[1..] == Amend(items[1..], lits) && Amend(items, lits)[0] == items[0];
      ExpandStep(out, prev, items);
      ExpandStep(out, prev, Amend(items, lits));
      hide Expand, ItemsValid, Grown;
      ItemsAmend(Grown(out, items[0]), |items[0].lits|, items[1..], lits);
    }
  }

  lemma MatchSpareBits(m: ValidMatch, k: nat)
    requires k < 4
    ensures var b := MatchBytes(m, 0); MatchBytes(m, k) == b[|b| - 2 := b[|b| - 2] + k]
  {
  }

  /** How the code adds literals after a match: op[-2] |= t, or a header. */
  function WithLiterals(out: seq<byte>, lits: seq<byte>): seq<byte>
    requires |out| >= 2
  {
    if |lits| <= 3 then SetSpare(out, |lits|) + lits else (out + RunHeader(|lits|)) + lits
  }

  function SetSpare(out: seq<byte>, t: nat): seq<byte>
    requires |out| >= 2
  {
    out[|out| - 2 := BitOr(out[|out| - 2], t) % 256]
  }

  lemma AmendBytes(head: seq<byte>, m: ValidMatch, lits: seq<byte>)
    requires lits != []
    ensures |head + MatchBytes(m, 0)| >= 2
    ensures WithLiterals(head + MatchBytes(m, 0), lits) == head + ItemBytes(Item(m, lits))
  {
    if |lits| <= 3 {
      AmendShort(head, m, |lits|);
      Assoc(head, MatchBytes(m, |lits|), lits);
    } else {
      AssocLong(head, MatchBytes(m, 0), RunHeader(|lits|), lits);
    }
  }

  lemma AmendShort(head: seq<byte>, m: ValidMatch, t: nat)
    requires t < 4
    ensures SetSpare(head + MatchBytes(m, 0), t) == head + MatchBytes(m, t)
  {
    MatchSpareBits(m, t);
    SetSpareTail(head, MatchBytes(m, 0), t);
  }

  lemma SetSpareTail(head: seq<byte>, b: seq<byte>, t: nat)
    requires |b| >= 2 && b[|b| - 2] % 4 == 0 && t < 4
    ensures b[|b| - 2] + t < 256
    ensures SetSpare(head + b, t) == head + b[|b| - 2 := b[|b| - 2] + t]
  {
    hide BitOr;
    BitOrLowBits(b[|b| - 2], t);
  }

  lemma AssocLong(a: seq<byte>, b: seq<byte>, c: seq<byte>, d: seq<byte>)
    ensures ((a + b) + c) + d == a + (b + (c + d))
  {
  }

  lemma Assoc(a: seq<byte>, b: seq<byte>, c: seq<byte>)
    ensures (a + b) + c == a + (b + c)
  {
  }

  /** Literals after a match keep the stream well-formed and extend its text. */
  lemma WroteAmend(out: seq<byte>, s: Stream, text: seq<byte>, lits: seq<byte>)
    requires Wrote(out, s, text) && Open(s) && s.items != [] && lits != []
    ensures |out| >= 2
    ensures Wrote(WithLiterals(out, lits), s.(items := Amend(s.items, lits)), text + lits)
  {
    ItemsAmend(s.first, |s.first|, s.items, lits);
    AmendLast(FirstBytes(s.first, s.direct), s.items, lits);
  }

  lemma {:induction false} AmendLast(first: seq<byte>, items: seq<Item>, lits: seq<byte>)
    requires items != [] && items[|items| - 1].lits == [] && lits != []
    ensures |first + PrefixBytes(items)| >= 2
    ensures WithLiterals(first + PrefixBytes(items), lits) == first + PrefixBytes(Amend(items, lits))
  {
    var n := |items| - 1;
    var m, closed := items[n].m, items[..n];
    assert items == closed + [Item(m, [])];
    assert ItemBytes(Item(m, [])) == MatchBytes(m, 0);
    hide PrefixBytes, MatchBytes, WithLiterals, ItemBytes;
    SnocBytes(first, closed, m, []);
    SnocBytes(first, closed, m, lits);
    AmendBytes(first + PrefixBytes(closed), m, lits);
  }

  lemma {:induction false} SnocBytes(first: seq<byte>, closed: seq<Item>, m: ValidMatch, lits: seq<byte>)
    ensures first + PrefixBytes(closed + [Item(m, lits)]) == (first + PrefixBytes(closed)) + ItemBytes(Item(m, lits))
  {
    hide ItemBytes;
    assert (closed + [Item(m, lits)])[..|closed|] == closed;
    Assoc(first, PrefixBytes(closed), ItemBytes(Item(m, lits)));
  }

  const EMPTY: Stream := Stream([], false, [])

  lemma WroteFirst(lits: seq<byte>, direct: bool)
    requires lits != [] && FirstValid(lits, direct)
    ensures Wrote(FirstBytes(lits, direct), Stream(lits, direct, []), lits)
  {
  }

  /** A match that reaches back into the text extends it by a copy. */
  lemma {:induction false} WroteMatch(out: seq<byte>, s: Stream, text: seq<byte>, m: ValidMatch)
    requires Wrote(out, s, text) && (m.M2? || m.M3? || m.M4?) && m.off <= |text|
    ensures 1 <= m.off && Open(s.(items := s.items + [Item(m, [])]))
    ensures Wrote(out + MatchBytes(m, 0), s.(items := s.items + [Item(m, [])]), CopyBack(text, m.off, m.Len()))
  {
    FreshItem(text, m);
    ItemsSnoc(s.first, |s.first|, s.items, Item(m, []));
    hide ItemsValid, Expand, PrefixBytes, MatchBytes, ItemBytes, FirstBytes, CopyBack, Grown;
    SnocBytes(FirstBytes(s.first, s.direct), s.items, m, []);
  }

  lemma {:induction false} FreshItem(text: seq<byte>, m: ValidMatch)
    requires (m.M2? || m.M3? || m.M4?) && m.off <= |text|
    ensures 1 <= m.off && ItemBytes(Item(m, [])) == MatchBytes(m, 0)
    ensures Grown(text, Item(m, [])) == CopyBack(text, m.off, m.Len())
    ensures forall prev :: MayFollow(Item(m, []), prev, |text|)
  {
  }

  /** From ip on, n bytes repeat those `off` before them. */
  ghost predicate Repeats(input: seq<byte>, ip: nat, off: nat, n: nat) {
    1 <= off <= ip && ip + n <= |input| && forall j :: ip <= j < ip + n ==> input[j] == input[j - off]
  }

  /** Copying what the input repeats gives the input. */
  lemma {:induction false} CopyBackInput(input: seq<byte>, ip: nat, off: nat, n: nat)
    requires Repeats(input, ip, off, n)
    ensures CopyBack(input[..ip], off, n) == input[..ip + n]
    decreases n
  {
    if n > 0 {
      assert input[..ip] + [input[..ip][ip - off]] == input[..ip + 1];
      CopyBackInput(input, ip + 1, off, n - 1);
    }
  }

  /** The zero bytes and the rest of an extended count. */
  method PutExtended(out0: seq<byte>, n: nat) returns (out: seq<byte>)
    requires n > 0
    ensures out == out0 + Extended(n)
  {
    var tt := n;
    out := out0;
    while tt > 255
      invariant 0 < tt <= n && out + Extended(tt) == out0 + Extended(n)
    {
      Assoc(out, [0], Extended(tt - 255));
      tt := tt - 255;
      out := out + [0];
    }
    out := out + [tt];
  }

  method PutRunHeader(out0: seq<byte>, t: nat) returns (out: seq<byte>)
    requires t >= 4
    ensures out == out0 + RunHeader(t)
  {
    if t <= 18 {
      out := out0 + [t - 3];
      assert RunHeader(t) == [t - 3];
    } else {
      out := out0 + [0];
      out := PutExtended(out, t - 18);
      Assoc(out0, [0], Extended(t - 18));
      assert RunHeader(t) == [0] + Extended(t - 18);
    }
  }

  /** do *op++ = *ii++; while (--t > 0) */
  method PutBytes(out0: seq<byte>, input: seq<byte>, ii0: nat, t0: nat) returns (out: seq<byte>)
    requires t0 > 0 && ii0 + t0 <= |input|
    ensures out == out0 + input[ii0..ii0 + t0]
  {
    var ii, t := ii0, t0;
    out := out0;
    while t > 0
      invariant 0 <= t && ii0 <= ii && ii + t == ii0 + t0 && out == out0 + input[ii0..ii]
    {
      assert input[ii0..ii] + [input[ii]] == input[ii0..ii + 1];
      out := out + [input[ii]];
      ii, t := ii + 1, t - 1;
    }
  }

  function HeaderLen(t: nat): nat {
    if t <= 3 then 0 else |RunHeader(t)|
  }

  /** The literals between two matches. */
  method PutLiterals(out0: seq<byte>, input: seq<byte>, ii: nat, t: nat, ghost s: Stream)
    returns (out: seq<byte>, ghost s': Stream)
    requires t > 0 && ii + t <= |input|
    requires Open(s) && Wrote(out0, s, input[..ii])
    requires s.items == [] ==> s == EMPTY && out0 == [] && ii == 0 && t >= 4
    ensures Wrote(out, s', input[..ii + t])
    ensures |out| <= |out0| + t + HeaderLen(t)
  {
    hide Wrote, Expand, ItemsValid, PrefixBytes;
    ghost var lits := input[ii..ii + t];
    assert input[..ii] + lits == input[..ii + t];
    if s.items == [] {
      WroteFirst(lits, false);
      assert [] + RunHeader(t) == RunHeader(t);
      s' := Stream(lits, false, []);
    } else {
      WroteAmend(out0, s, input[..ii], lits);
      s' := s.(items := Amend(s.items, lits));
    }
    if t <= 3 {
      out := out0[|out0| - 2 := BitOr(out0[|out0| - 2], t) % 256];
    } else {
      out := PutRunHeader(out0, t);
    }
    out := PutBytes(out, input, ii, t);
  }

  /** The match encoding the compressor chooses. */
  function Choose(off: nat, len: nat): (m: ValidMatch)
    requires 1 <= off <= M4_MAX_OFFSET && 3 <= len
    ensures m.off == off && m.Len() == len && (m.M2? || m.M3? || m.M4?)
  {
    if off <= M2_MAX_OFFSET && len <= M2_MAX_LEN then M2(off, len)
    else if off <= M3_MAX_OFFSET then M3(off, len)
    else M4(off, len)
  }

  /** The first byte and the extended length of an M3 or M4 match. */
  method PutLength(out0: seq<byte>, marker: nat, len: nat, max: nat) returns (out: seq<byte>)
    requires 3 <= len && 3 <= max && marker + max - 2 < 256
    ensures out == (out0 + [marker + ShortLen(len, max)]) + LongLen(len, max)
  {
    if len <= max {
      out := out0 + [marker + (len - 2)];
    } else {
      out := out0 + [marker];
      out := PutExtended(out, len - max);
    }
  }

  /** The code of an M3 or M4 match; `off` is already reduced. */
  method PutLongMatch(out0: seq<byte>, marker: nat, len: nat, max: nat, off: nat) returns (out: seq<byte>)
    requires 3 <= len && 3 <= max && marker + max - 2 < 256
    ensures out == out0 + ([marker + ShortLen(len, max)] + (LongLen(len, max) + OffsetBytes(off % 0x4000, 0)))
  {
    out := PutLength(out0, marker, len, max);
    OffsetTruncated(off);
    AssocLong(out0, [marker + ShortLen(len, max)], LongLen(len, max), OffsetBytes(off % 0x4000, 0));
    out := out + [off % 64 * 4, off / 64 % 256];
  }

  /** The cast to a byte drops bit 14, which M4 keeps in its first byte. */
  lemma OffsetTruncated(off: nat)
    ensures [off % 64 * 4, off / 64 % 256] == OffsetBytes(off % 0x4000, 0)
  {
    DivideShifted(256 * (off / 0x4000), off % 0x4000);
  }

  lemma DivideShifted(q: nat, r: nat)
    ensures (64 * q + r) / 64 == q + r / 64 && (64 * q + r) % 64 == r % 64
  {
  }

  /** What is written for a distance and a length. */
  lemma ChosenBytes(off: nat, len: nat)
    requires 1 <= off <= M4_MAX_OFFSET && 3 <= len
    ensures MatchBytes(Choose(off, len), 0) ==
            if off <= M2_MAX_OFFSET && len <= M2_MAX_LEN then [(len - 1) * 32 + (off - 1) % 8 * 4, (off - 1) / 8]
            else if off <= M3_MAX_OFFSET then
              [M3_MARKER + ShortLen(len, M3_MAX_LEN)] + (LongLen(len, M3_MAX_LEN) + OffsetBytes((off - 1) % 0x4000, 0))
            else
              [M4_MARKER + (off - 0x4000) / 0x4000 % 2 * 8 + ShortLen(len, M4_MAX_LEN)]
              + (LongLen(len, M4_MAX_LEN) + OffsetBytes((off - 0x4000) % 0x4000, 0))
  {
    hide LongLen, OffsetBytes, ShortLen;
  }

  /** The code of a match. */
  method PutMatch(out0: seq<byte>, off0: nat, len: nat) returns (out: seq<byte>)
    requires 1 <= off0 <= M4_MAX_OFFSET && 3 <= len
    ensures out == out0 + MatchBytes(Choose(off0, len), 0)
  {
    var off := off0;
    ChosenBytes(off0, len);
    hide Choose, MatchBytes;
    if off <= M2_MAX_OFFSET && len <= M2_MAX_LEN {
      off := off - 1;
      out := out0 + [(len - 1) * 32 + off % 8 * 4, off / 8];
    } else if off <= M3_MAX_OFFSET {
      off := off - 1;
      out := PutLongMatch(out0, M3_MARKER, len, M3_MAX_LEN, off);
    } else {
      off := off - 0x4000;
      out := PutLongMatch(out0, M4_MARKER + off / 0x4000 % 2 * 8, len, M4_MAX_LEN, off);
    }
  }

  /** The length of a match's code: at least one byte is saved. */
  lemma {:induction false} ExtendedLen(n: nat)
    requires n > 0
    ensures |Extended(n)| == (n + 254) / 255
  {
    if n > 255 { ExtendedLen(n - 255); }
  }

  lemma MatchSaves(off: nat, len: nat)
    requires 1 <= off <= M4_MAX_OFFSET && 3 <= len && (off > M2_MAX_OFFSET ==> 4 <= len)
    ensures |MatchBytes(Choose(off, len), 0)| < len
  {
    var max := if off <= M3_MAX_OFFSET then M3_MAX_LEN else M4_MAX_LEN;
    if len > max { ExtendedLen(len - max); }
  }

  /** A run's header is one byte, or paid for by the run's length. */
  lemma RunHeaderLen(t: nat)
    requires t >= 4
    ensures |RunHeader(t)| <= 1 + t / 19 && |RunHeader(t)| <= 1 + (t + 236) / 255
  {
    if t > 18 { ExtendedLen(t - 18); }
  }

  /** The value hashed: four bytes at p, shifted and exclusive-ored. */
  function Hash3(input: seq<byte>, p: nat): nat
    requires p + 3 < |input|
  {
    BitXor(BitXor(BitXor(input[p + 3] as int * 64, input[p + 2]) * 32, input[p + 1]) * 32, input[p])
  }

  function DIndex1(input: seq<byte>, p: nat): (d: nat)
    requires p + 3 < |input|
    ensures d < D_SIZE
  {
    0x21 * Hash3(input, p) / 32 % D_SIZE
  }

  function DIndex2(d: nat): (d2: nat)
    ensures d2 < D_SIZE
  {
    assert Pow2(14) == D_SIZE;
    BitXorBound(d % 0x800, 0x201f, 14);
    BitXor(d % 0x800, 0x201f)
  }

  /** What the dictionary holds is a usable position: inside the input, behind ip, not too far. */
  predicate Usable(mpos: int, ip: nat) {
    0 <= mpos < ip && ip - mpos <= M4_MAX_OFFSET
  }

  /** A usable position that is near, or agrees in the fourth byte. */
  predicate Promising(input: seq<byte>, mpos: int, ip: nat)
    requires ip + 3 < |input|
  {
    Usable(mpos, ip) && (ip - mpos <= M2_MAX_OFFSET || input[mpos + 3] == input[ip + 3])
  }

  /** A match may start here: three bytes repeat, and four if it is far. */
  ghost predicate Match(input: seq<byte>, mpos: int, ip: nat) {
    Usable(mpos, ip) && Repeats(input, ip, ip - mpos, if ip - mpos > M2_MAX_OFFSET then 4 else 3)
  }

  /** The slot whose position decides: the second one only if the first holds a usable position that is
      far and does not agree in the fourth byte. */
  function Slot(input: seq<byte>, ip: nat, dict: array<int>): (d: nat)
    requires dict.Length == D_SIZE && ip + 3 < |input|
    reads dict
    ensures d < D_SIZE
  {
    var d := DIndex1(input, ip);
    if Usable(dict[d], ip) && !Promising(input, dict[d], ip) then DIndex2(d) else d
  }

  /** The two dictionary probes and the three-byte comparison.  Nothing is assumed of the dictionary: a match is
      found if and only if the position in the deciding slot is one. */
  method Probe(input: seq<byte>, ip: nat, dict: array<int>) returns (found: bool, dindex: nat, mpos: int)
    requires dict.Length == D_SIZE && ip + 3 < |input|
    ensures dindex == Slot(input, ip, dict) && mpos == dict[dindex]
    ensures found <==> Match(input, dict[dindex], ip)
  {
    hide DIndex1, DIndex2;
    dindex := DIndex1(input, ip);
    mpos := dict[dindex];
    found := false;
    if Usable(mpos, ip) {
      if ip - mpos <= M2_MAX_OFFSET || input[mpos + 3] == input[ip + 3] {
        found := true;
      } else {
        dindex := DIndex2(dindex);
        mpos := dict[dindex];
        if Usable(mpos, ip) {
          if ip - mpos <= M2_MAX_OFFSET || input[mpos + 3] == input[ip + 3] {
            found := true;
          }
        }
      }
    }
    if found {
      found := input[mpos] == input[ip] && input[mpos + 1] == input[ip + 1] && input[mpos + 2] == input[ip + 2];
    }
  }

  /** What a position must be to be taken for a match, written out. */
  ghost predicate Repeated(input: seq<byte>, p: int, ip: nat) {
    && 0 <= p < ip <= p + 0xbfff && ip + 3 < |input| && input[p..p + 3] == input[ip..ip + 3]
    && (ip - p <= 0x800 || input[p + 3] == input[ip + 3])
  }

  /** No match that the two slots hold is missed: one in the first is found, and one in the second if the first
      holds a position too far to be taken with three bytes that differs in the fourth. */
  lemma NothingMissed(input: seq<byte>, ip: nat, dict: array<int>)
    requires dict.Length == D_SIZE && ip + 3 < |input|
    ensures var d1, d2 := DIndex1(input, ip), DIndex2(DIndex1(input, ip));
            var p, q := dict[d1], dict[d2];
            && (Repeated(input, p, ip) ==> Slot(input, ip, dict) == d1 && Match(input, p, ip))
            && (0 <= p && 0x800 < ip - p <= 0xbfff && input[p + 3] != input[ip + 3] && Repeated(input, q, ip) ==>
                  Slot(input, ip, dict) == d2 && Match(input, q, ip))
            && (!(0 <= p < ip <= p + 0xbfff) ==> Slot(input, ip, dict) == d1)
  {
    hide DIndex1, DIndex2, Match, Repeated;
    var d1, d2 := DIndex1(input, ip), DIndex2(DIndex1(input, ip));
    RepeatedMatches(input, dict[d1], ip);
    RepeatedMatches(input, dict[d2], ip);
  }

  lemma RepeatedMatches(input: seq<byte>, p: int, ip: nat)
    ensures Repeated(input, p, ip) ==> Match(input, p, ip) && Promising(input, p, ip) && 0 <= p < ip
  {
    if Repeated(input, p, ip) {
      var a, b := input[p..p + 3], input[ip..ip + 3];
      assert a[0] == input[p] && a[1] == input[p + 1] && a[2] == input[p + 2];
      assert b[0] == input[ip] && b[1] == input[ip + 1] && b[2] == input[ip + 2];
    }
  }

  /** One place of the input: the probe, and its slot then holds the place. */
  method Visit(input: seq<byte>, ip: nat, dict: array<int>) returns (found: bool, mpos: int)
    requires dict.Length == D_SIZE && ip + 3 < |input|
    modifies dict
    ensures var d := old(Slot(input, ip, dict));
            && mpos == old(dict[d]) && (found <==> Match(input, mpos, ip))
            && dict[..] == old(dict[..])[d := ip]
  {
    hide DIndex1, DIndex2, Match, Promising;
    var dindex;
    found, dindex, mpos := Probe(input, ip, dict);
    dict[dindex] := ip;
  }

  // ---------------------------------------------------------------- n equal bytes

  ghost predicate Same(input: seq<byte>) {
    forall i :: 0 <= i < |input| ==> input[i] == input[0]
  }

  /** On equal bytes every place hashes alike. */
  lemma SameHash(input: seq<byte>, p: nat, q: nat)
    requires Same(input) && p + 3 < |input| && q + 3 < |input|
    ensures DIndex1(input, p) == DIndex1(input, q)
  {
    hide BitXor;
    assert input[p] == input[q] && input[p + 1] == input[q + 1];
    assert input[p + 2] == input[q + 2] && input[p + 3] == input[q + 3];
  }

  /** Whatever the dictionary holds, equal bytes have a match at the fifth byte, or at the sixth through the slot
      that the fifth left behind. */
  ghost predicate Primed(input: seq<byte>, ip: nat, ii: nat, dict: array<int>)
    requires dict.Length == D_SIZE
    reads dict
  {
    Same(input) ==> ii == 0 && (ip == 4 || (ip == 5 && 5 + 3 < |input| && dict[DIndex1(input, 5)] == 4))
  }

  lemma SameMatch(input: seq<byte>, ip: nat, dict: array<int>)
    requires dict.Length == D_SIZE && Same(input) && ip + 3 < |input|
    ensures var p := dict[DIndex1(input, ip)];
            && (0 <= p < ip <= 0x800 ==> Slot(input, ip, dict) == DIndex1(input, ip) && Match(input, p, ip))
            && (!(0 <= p < ip) ==> Slot(input, ip, dict) == DIndex1(input, ip) && !Match(input, p, ip))
  {
    hide DIndex1, DIndex2;
  }

  /** The match of equal bytes reaches the end, and is near. */
  lemma SameEnds(input: seq<byte>, ip: nat, mpos: nat, len: nat)
    requires Same(input) && mpos < ip && 4 <= ip <= 5 && 3 <= len && ip + len <= |input|
    requires ip + len == |input| || input[ip + len] != input[mpos + len]
    ensures ip + len == |input| && HeaderLen(ip) == 1
    ensures ip + 1 + |MatchBytes(Choose(ip - mpos, len), 0)| <= 10 + |input| / 255
  {
    NearMatchLen(ip - mpos, len);
    hide MatchBytes, Choose;
  }

  /** The code of a near match of any length. */
  lemma NearMatchLen(off: nat, len: nat)
    requires 1 <= off <= 0x800 && 3 <= len
    ensures |MatchBytes(Choose(off, len), 0)| <= 3 + (if len > 33 then (len + 221) / 255 else 0)
  {
    if len > 33 { ExtendedLen(len - 33); }
  }

  /** The longest match from ip on: up to eight bytes one by one, then to the end of the input. */
  method MatchLength(input: seq<byte>, ip0: nat, mpos: nat, ghost known: nat) returns (len: nat)
    requires mpos < ip0 && ip0 + 9 <= |input| && 3 <= known <= 4 && Repeats(input, ip0, ip0 - mpos, known)
    ensures known <= len && ip0 + len <= |input| && Repeats(input, ip0, ip0 - mpos, len)
    ensures ip0 + len == |input| || input[ip0 + len] != input[mpos + len]
  {
    var ip := ip0 + 3;
    var m := mpos + 3;
    var same := true;
    while ip < ip0 + 9 && same
      invariant ip - m == ip0 - mpos
      invariant same ==> ip0 + 3 <= ip <= ip0 + 9 && Repeats(input, ip0, ip0 - mpos, ip - ip0)
      invariant !same ==> ip0 + 3 < ip <= ip0 + 9 && ip0 + known < ip && Repeats(input, ip0, ip0 - mpos, ip - 1 - ip0)
      invariant !same ==> input[ip - 1] != input[m - 1]
      decreases ip0 + 9 - ip, same
    {
      same := input[m] == input[ip];
      m, ip := m + 1, ip + 1;
    }
    if !same {
      ip := ip - 1;
      len := ip - ip0;
    } else {
      while ip < |input| && input[m] == input[ip]
        invariant ip - m == ip0 - mpos && ip0 + 9 <= ip && Repeats(input, ip0, ip0 - mpos, ip - ip0)
      {
        m, ip := m + 1, ip + 1;
      }
      len := ip - ip0;
    }
  }

  /** The output is no longer than the input read so far, up to one byte in sixteen. */
  predicate Short(op: nat, ii: nat) {
    op <= ii + ii / 16
  }

  /** The state between two matches: everything before ii is written. */
  ghost predicate Between(input: seq<byte>, ii: nat, out: seq<byte>, s: Stream) {
    && ii <= |input| && Open(s) && Wrote(out, s, input[..ii]) && Short(|out|, ii)
    && (s.items == [] ==> s == EMPTY && out == [] && ii == 0)
  }

  /** Literals and a match: the match's saving pays for the run's header. */
  lemma ShortStep(op: nat, op': nat, ii: nat, t: nat, len: nat, code: nat)
    requires Short(op, ii) && 1 <= code < len && op' <= op + t + HeaderLen(t) + code
    ensures Short(op', ii + t + len)
  {
    if t > 3 { RunHeaderLen(t); }
    assert ii / 16 + (t + len) / 16 <= (ii + t + len) / 16;
  }

  /** One literal run and one match. */
  method PutStep(out0: seq<byte>, input: seq<byte>, ii: nat, ip: nat, off: nat, len: nat, ghost s: Stream)
    returns (out: seq<byte>, ghost s': Stream)
    requires Between(input, ii, out0, s) && ii <= ip && (ii == 0 ==> 4 <= ip)
    requires 1 <= off <= ip && ip + len <= |input|
    requires off <= M4_MAX_OFFSET && Repeats(input, ip, off, len) && 3 <= len && (off > M2_MAX_OFFSET ==> 4 <= len)
    ensures Between(input, ip + len, out, s')
    ensures |out| <= |out0| + (ip - ii) + HeaderLen(ip - ii) + |MatchBytes(Choose(off, len), 0)|
  {
    hide Wrote, Open, Repeats, Choose, MatchBytes, CopyBack, Short;
    out, s' := out0, s;
    if ip > ii {
      out, s' := PutLiterals(out, input, ii, ip - ii, s);
    }
    ghost var m := Choose(off, len);
    WroteMatch(out, s', input[..ip], m);
    CopyBackInput(input, ip, off, len);
    s' := s'.(items := s'.items + [Item(m, [])]);
    out := PutMatch(out, off, len);
    MatchSaves(off, len);
    ShortStep(|out0|, |out|, ii, ip - ii, len, |MatchBytes(m, 0)|);
  }

  lemma StartBetween(input: seq<byte>)
    ensures Between(input, 0, [], EMPTY)
  {
  }

  /** do_compress: `rest` literals at the end are left to the caller. */
  method DoCompress(input: seq<byte>, dict: array<int>) returns (out: seq<byte>, rest: nat, ghost s: Stream)
    requires |input| > M2_MAX_LEN + 5 && dict.Length == D_SIZE
    modifies dict
    ensures rest <= |input| && Between(input, |input| - rest, out, s)
    ensures Same(input) && |input| > 18 ==> rest == 0 && |out| <= 10 + |input| / 255
  {
    hide Wrote, Open, Short, Repeats, DIndex1, DIndex2, Slot, Same, MatchBytes, Choose;
    StartBetween(input);
    var ipEnd := |input| - M2_MAX_LEN - 5;
    var ip, ii := 4, 0;
    out, s := [], EMPTY;
    while true
      invariant 0 <= ii <= ip && (ii == 0 ==> 4 <= ip) && ip + 9 <= |input|
      invariant Between(input, ii, out, s) && Primed(input, ip, ii, dict) && (ii == 0 ==> out == [])
      decreases |input| - ip
    {
      if Same(input) {
        SameMatch(input, ip, dict);
        SameHash(input, 4, 5);
      }
      var found, mpos := Visit(input, ip, dict);
      if found {
        var off := ip - mpos;
        var len := MatchLength(input, ip, mpos, if off > M2_MAX_OFFSET then 4 else 3);
        if Same(input) { SameEnds(input, ip, mpos, len); }
        out, s := PutStep(out, input, ii, ip, off, len, s);
        ip := ip + len;
        ii := ip;
        if ip >= ipEnd { break; }
      } else {
        ip := ip + 1;
        if ip >= ipEnd { break; }
      }
    }
    rest := |input| - ii;
  }

  /** The whole compressor: every input, whatever the dictionary holds. */
  method Compress(input: seq<byte>, dict: array<int>) returns (out: seq<byte>, ghost s: Stream)
    requires dict.Length == D_SIZE
    modifies dict
    ensures StreamValid(s) && out == StreamBytes(s) && StreamText(s) == input
    ensures |out| <= |input| + |input| / 16 + 67
    ensures Same(input) && |input| > 18 ==> |out| <= 13 + |input| / 255
    ensures 0 < |input| <= M2_MAX_LEN + 5 ==> |out| == |input| + 4
  {
    hide Wrote, Open;
    var t;
    StartBetween(input);
    out, s, t := [], EMPTY, |input|;
    if |input| > M2_MAX_LEN + 5 {
      out, t, s := DoCompress(input, dict);
    }
    if t > 0 {
      out, s := PutLast(out, input, t, s);
    } else {
      assert input[..|input|] == input;
    }
    WroteAll(out, s, input);
    out := out + EOF_MARKER;
  }

  /** The literals after the last match; a stream of literals only starts with their count. */
  method PutLast(out0: seq<byte>, input: seq<byte>, t: nat, ghost s: Stream) returns (out: seq<byte>, ghost s': Stream)
    requires 0 < t <= |input| && Between(input, |input| - t, out0, s)
    ensures Wrote(out, s', input)
    ensures |out| <= |input| + |input| / 16 + 64
    ensures out0 == [] && t <= 238 ==> |out| == |input| + 1
  {
    var ii := |input| - t;
    NotEmpty(out0, s, input[..ii]);
    hide Wrote, Open;
    assert input[ii..ii + t] == input[ii..] && input[..ii + t] == input;
    if out0 == [] && t <= 238 {
      assert input[ii..] == input;
      out := [17 + t];
      out := PutBytes(out, input, ii, t);
      s' := Stream(input, true, []);
      WroteFirst(input, true);
    } else {
      out, s' := PutLiterals(out0, input, ii, t, s);
      if t > 3 { RunHeaderLen(t); }
    }
  }

  lemma NotEmpty(out: seq<byte>, s: Stream, text: seq<byte>)
    requires Wrote(out, s, text) && (s.items == [] ==> s == EMPTY)
    ensures out == [] <==> s.items == []
  {
  }
}
