/** lzo1x_decompress and lzo1x_decompress_safe on every well-formed LZO1X stream. */
module LzoDecompress {
  import opened Bits
  import opened LzoFormat

  datatype Code = Ok | InputNotConsumed | InputOverrun | OutputOverrun

  /** The labels of the decoder. */
  datatype Label = Outer | FirstLiteralRun | AtMatch | MatchDone | MatchNext

  /** From `ip` on, the source reads `bytes`. */
  ghost predicate Reads(src: seq<byte>, ip: int, bytes: seq<byte>) {
    0 <= ip <= |src| && src[ip..] == bytes
  }

  lemma ReadsSkip(src: seq<byte>, ip: int, a: seq<byte>, b: seq<byte>)
    requires Reads(src, ip, a + b)
    ensures Reads(src, ip + |a|, b)
    ensures src[ip..ip + |a|] == a
    ensures forall k :: 0 <= k < |a| ==> src[ip + k] == a[k]
  {
  }

  /** The zero-run loop after a zero count. */
  method ReadCount(src: seq<byte>, ip0: nat, base: nat, ghost n: nat, ghost rest: seq<byte>)
    returns (t: nat, ip: nat)
    requires n > 0 && Reads(src, ip0, Extended(n) + rest)
    ensures t == base + n && ip == ip0 + |Extended(n)|
    ensures Reads(src, ip, rest)
  {
    t, ip := 0, ip0;
    ghost var left := n;
    ReadsHead(src, ip, left, rest);
    while src[ip] == 0
      invariant 0 < left && Reads(src, ip, Extended(left) + rest)
      invariant ip < |src| && (src[ip] == 0 <==> left > 255) && (left <= 255 ==> src[ip] == left)
      invariant t + left == n && ip + |Extended(left)| == ip0 + |Extended(n)|
      decreases left
    {
      assert Extended(left) + rest == [0] + (Extended(left - 255) + rest);
      ReadsSkip(src, ip, [0], Extended(left - 255) + rest);
      t := t + 255;
      ip := ip + 1;
      left := left - 255;
      ReadsHead(src, ip, left, rest);
    }
    ReadsSkip(src, ip, Extended(left), rest);
    t := t + base + src[ip];
    ip := ip + 1;
  }

  lemma {:induction false} ReadsHead(src: seq<byte>, ip: nat, n: nat, rest: seq<byte>)
    requires n > 0 && Reads(src, ip, Extended(n) + rest)
    ensures ip < |src| && (src[ip] == 0 <==> n > 255) && (n <= 255 ==> src[ip] == n)
  {
  }

  /** The literal run: one four-byte copy, then four at a time, then the tail. */
  method CopyRun(out0: seq<byte>, src: seq<byte>, ip0: nat, t0: nat)
    returns (out: seq<byte>, ip: nat)
    requires t0 > 0 && ip0 + t0 + 3 <= |src|
    ensures out == out0 + src[ip0..ip0 + t0 + 3]
    ensures ip == ip0 + t0 + 3
  {
    var t := t0;
    out, ip := out0 + src[ip0..ip0 + 4], ip0 + 4;
    t := t - 1;
    if t > 0 {
      if t >= 4 {
        while true
          invariant t >= 4 && ip + t == ip0 + t0 + 3 && ip0 <= ip
          invariant out == out0 + src[ip0..ip]
          decreases t
        {
          out := out + src[ip..ip + 4];
          assert src[ip0..ip] + src[ip..ip + 4] == src[ip0..ip + 4];
          ip, t := ip + 4, t - 4;
          if t < 4 { break; }
        }
      }
      while t > 0
        invariant ip + t == ip0 + t0 + 3 && ip0 <= ip
        invariant out == out0 + src[ip0..ip]
      {
        out := out + [src[ip]];
        assert src[ip0..ip] + [src[ip]] == src[ip0..ip + 1];
        ip, t := ip + 1, t - 1;
      }
    }
  }

  lemma {:induction false} CopyBackSplit(out: seq<byte>, off: nat, a: nat, b: nat)
    requires 1 <= off <= |out|
    ensures CopyBack(CopyBack(out, off, a), off, b) == CopyBack(out, off, a + b)
    decreases a
  {
    if a > 0 {
      CopyBackSplit(out + [out[|out| - off]], off, a - 1, b);
    }
  }

  /** A block no longer than the distance does not overlap what it writes. */
  lemma {:induction false} CopyBackBlock(out: seq<byte>, off: nat, n: nat)
    requires 1 <= off <= |out| && n <= off
    ensures CopyBack(out, off, n) == out + out[|out| - off..|out| - off + n]
    decreases n
  {
    if n > 0 {
      var m := |out| - off;
      CopyBackBlock(out, off, n - 1);
      CopyBackSplit(out, off, n - 1, 1);
      var o := CopyBack(out, off, n - 1);
      assert CopyBack(o, off, 1) == o + [o[|o| - off]];
      assert o[|o| - off] == out[m + n - 1];
      assert out[m..m + n] == out[m..m + n - 1] + [out[m + n - 1]];
    }
  }

  /** copy_match: two bytes, then one at a time. */
  method CopyBytes(out0: seq<byte>, mpos0: nat, t0: nat) returns (out: seq<byte>)
    requires mpos0 < |out0| && t0 > 0
    ensures out == CopyBack(out0, |out0| - mpos0, t0 + 2)
  {
    ghost var off := |out0| - mpos0;
    var mpos, t := mpos0, t0;
    out := out0 + [out0[mpos]];
    mpos := mpos + 1;
    out := out + [out[mpos]];
    mpos := mpos + 1;
    assert out == CopyBack(out0, off, 2);
    out := CopyTail(out, mpos, t, out0, off, 2);
  }

  /** do *op++ = *m_pos++; while (--t > 0), after `done` bytes of the same copy. */
  method CopyTail(outA: seq<byte>, mposA: nat, tA: nat, ghost out0: seq<byte>, ghost off: nat, ghost done: nat)
    returns (out: seq<byte>)
    requires 1 <= off <= |out0| && outA == CopyBack(out0, off, done)
    requires mposA == |outA| - off
    ensures out == CopyBack(out0, off, done + tA)
  {
    var mpos, t := mposA, tA;
    out := outA;
    while t > 0
      invariant 0 <= t <= tA && mpos == |out| - off
      invariant out == CopyBack(out0, off, done + (tA - t))
    {
      CopyBackSplit(out0, off, done + (tA - t), 1);
      assert CopyBack(out, off, 1) == out + [out[|out| - off]];
      out := out + [out[mpos]];
      mpos, t := mpos + 1, t - 1;
    }
  }

  /** COPY4, after `done` bytes of the same copy. */
  method CopyFour(outA: seq<byte>, mposA: nat, ghost out0: seq<byte>, ghost off: nat, ghost done: nat)
    returns (out: seq<byte>)
    requires 4 <= off <= |out0| && outA == CopyBack(out0, off, done)
    requires mposA == |outA| - off
    ensures out == CopyBack(out0, off, done + 4)
  {
    CopyBackSplit(out0, off, done, 4);
    CopyBackBlock(outA, off, 4);
    out := outA + outA[mposA..mposA + 4];
  }

  /** The M3/M4 copy: four bytes at a time when long enough and far enough apart. */
  method CopyMatch(out0: seq<byte>, mpos0: nat, t0: nat) returns (out: seq<byte>)
    requires mpos0 < |out0| && t0 > 0
    ensures out == CopyBack(out0, |out0| - mpos0, t0 + 2)
  {
    if t0 >= 6 && |out0| - mpos0 >= 4 {
      ghost var off := |out0| - mpos0;
      out := CopyFour(out0, mpos0, out0, off, 0);
      var mpos, t := mpos0 + 4, t0 - 2;
      while true
        invariant 4 <= t <= t0 - 2 && mpos == |out| - off
        invariant out == CopyBack(out0, off, t0 + 2 - t)
        decreases t
      {
        out := CopyFour(out, mpos, out0, off, t0 + 2 - t);
        mpos, t := mpos + 4, t - 4;
        if t < 4 { break; }
      }
      out := CopyTail(out, mpos, t, out0, off, t0 + 2 - t);
    } else {
      out := CopyBytes(out0, mpos0, t0);
    }
  }

  /** The bytes after a match: its literals and the remaining items. */
  function Tail(items: seq<Item>): seq<byte>
    requires items != []
  {
    LitBytes(items[0].lits) + ItemsBytes(items[1..])
  }

  lemma {:induction false} ItemsHead(items: seq<Item>)
    requires items != []
    ensures ItemsBytes(items) == MatchBytes(items[0].m, SpareBits(items[0].lits)) + Tail(items)
  {
  }

  /** Just behind a match: its literal count is in the last byte but one. */
  ghost predicate BehindMatch(src: seq<byte>, ip: int, items: seq<Item>)
    requires items != []
  {
    2 <= ip && Reads(src, ip, Tail(items)) && src[ip - 2] % 4 == SpareBits(items[0].lits)
  }

  lemma {:induction false} SkipMatch(src: seq<byte>, ip: int, items: seq<Item>)
    requires items != [] && Reads(src, ip, ItemsBytes(items))
    ensures var mb := MatchBytes(items[0].m, SpareBits(items[0].lits));
            && BehindMatch(src, ip + |mb|, items)
            && forall k :: 0 <= k < |mb| ==> src[ip + k] == mb[k]
  {
    ItemsHead(items);
    var mb := MatchBytes(items[0].m, SpareBits(items[0].lits));
    ReadsSkip(src, ip, mb, Tail(items));
    assert src[ip + (|mb| - 2)] == mb[|mb| - 2];
  }

  /** The length of an M3 or M4 match: in the first byte when it fits, else extended. */
  method ReadLength(src: seq<byte>, ip0: nat, t0: nat, base: nat, ghost len: nat, ghost tail: seq<byte>)
    returns (t: nat, ip: nat)
    requires 3 <= len && 1 <= base && t0 == ShortLen(len, base + 2)
    requires Reads(src, ip0, LongLen(len, base + 2) + tail)
    ensures t + 2 == len && ip >= ip0
    ensures Reads(src, ip, tail)
  {
    t, ip := t0, ip0;
    if t == 0 {
      t, ip := ReadCount(src, ip, base, len - base - 2, tail);
    } else {
      assert [] + tail == tail;
    }
  }

  /** The distance in two offset bytes. */
  function OffsetAt(src: seq<byte>, ip: int): int
    requires 0 <= ip && ip + 1 < |src|
  {
    src[ip] as int / 4 + src[ip + 1] as int * 64
  }

  lemma OffsetRead(src: seq<byte>, ip: int, o: nat, k: nat, tail: seq<byte>)
    requires o < 0x4000 && k < 4 && Reads(src, ip, OffsetBytes(o, k) + tail)
    ensures ip + 2 <= |src| && Reads(src, ip + 2, tail)
    ensures OffsetAt(src, ip) == o && src[ip] % 4 == k
  {
  }

  /** The first byte of the next M3 or M4 match, and what follows it. */
  lemma {:induction false} LongMatchLayout(src: seq<byte>, ip: int, items: seq<Item>, first: byte, max: nat, o: nat)
    requires items != [] && 3 <= max && o < 0x4000 && Reads(src, ip, ItemsBytes(items))
    requires MatchBytes(items[0].m, SpareBits(items[0].lits))
             == [first] + (LongLen(items[0].m.Len(), max) + OffsetBytes(o, SpareBits(items[0].lits)))
    ensures ip < |src| && src[ip] == first
    ensures Reads(src, ip + 1, LongLen(items[0].m.Len(), max)
                               + (OffsetBytes(o, SpareBits(items[0].lits)) + Tail(items)))
  {
    ItemsHead(items);
    LayoutAssoc(src, ip, first, LongLen(items[0].m.Len(), max), OffsetBytes(o, SpareBits(items[0].lits)), Tail(items));
  }

  lemma LayoutAssoc(src: seq<byte>, ip: int, first: byte, a: seq<byte>, b: seq<byte>, c: seq<byte>)
    requires Reads(src, ip, ([first] + (a + b)) + c)
    ensures ip < |src| && src[ip] == first && Reads(src, ip + 1, a + (b + c))
  {
  }

  lemma {:induction false} M3Layout(src: seq<byte>, ip: int, items: seq<Item>)
    requires items != [] && items[0].m.M3? && Reads(src, ip, ItemsBytes(items))
    ensures 3 <= items[0].m.Len() && 1 <= items[0].m.off <= 0x4000
    ensures ip < |src| && src[ip] as int % 32 == ShortLen(items[0].m.Len(), M3_MAX_LEN)
    ensures Reads(src, ip + 1, LongLen(items[0].m.Len(), M3_MAX_LEN)
                               + (OffsetBytes(items[0].m.off - 1, SpareBits(items[0].lits)) + Tail(items)))
  {
    var m := items[0].m;
    assert m.Valid();
    LongMatchLayout(src, ip, items, M3_MARKER + ShortLen(m.len3, M3_MAX_LEN), M3_MAX_LEN, m.off - 1);
  }

  /** The M3 branch: an optional extended length, then two offset bytes. */
  method ReadM3(src: seq<byte>, ip0: nat, t0: nat, op: nat, ghost items: seq<Item>)
    returns (mpos: int, t: nat, ip: nat)
    requires 0 < ip0 <= |src| && t0 == src[ip0 - 1]
    requires items != [] && items[0].m.M3? && Reads(src, ip0 - 1, ItemsBytes(items))
    ensures mpos == op - items[0].m.off && t + 2 == items[0].m.Len() && BehindMatch(src, ip, items)
    ensures ip > ip0 && t > 0
  {
    ghost var m, k, tail := items[0].m, SpareBits(items[0].lits), Tail(items);
    M3Layout(src, ip0 - 1, items);
    hide Reads, ItemsBytes, LongLen, OffsetBytes, OffsetAt, Tail, ShortLen;
    t, ip := ReadLength(src, ip0, t0 % 32, 31, m.Len(), OffsetBytes(m.off - 1, k) + tail);
    OffsetRead(src, ip, m.off - 1, k, tail);
    mpos := op - 1;
    mpos := mpos - OffsetAt(src, ip);
    ip := ip + 2;
  }

  lemma M4First(off: nat, short: nat)
    requires M3_MAX_OFFSET < off <= M4_MAX_OFFSET && short < 8
    ensures var b := M4_MARKER + (off - 0x4000) / 0x4000 * 8 + short;
            b / 8 % 2 == (off - 0x4000) / 0x4000 && b % 8 == short
  {
  }

  lemma {:induction false} M4Layout(src: seq<byte>, ip: int, items: seq<Item>)
    requires items != [] && items[0].m.M4? && Reads(src, ip, ItemsBytes(items))
    ensures ip < |src| && 3 <= items[0].m.Len() && 0x4000 < items[0].m.off
    ensures src[ip] as int % 8 == ShortLen(items[0].m.Len(), M4_MAX_LEN)
    ensures items[0].m.off == 0x4000 + src[ip] as int / 8 % 2 * 0x4000 + (items[0].m.off - 0x4000) % 0x4000
    ensures Reads(src, ip + 1, LongLen(items[0].m.Len(), M4_MAX_LEN)
                               + (OffsetBytes((items[0].m.off - 0x4000) % 0x4000, SpareBits(items[0].lits))
                                   + Tail(items)))
  {
    var m := items[0].m;
    assert m.Valid();
    var short := ShortLen(m.len4, M4_MAX_LEN);
    M4First(m.off, short);
    LongMatchLayout(src, ip, items, M4_MARKER + (m.off - 0x4000) / 0x4000 * 8 + short, M4_MAX_LEN,
                    (m.off - 0x4000) % 0x4000);
  }

  /** The end marker reads like an M4 match at distance nothing. */
  lemma EofLayout(src: seq<byte>, ip: int)
    requires Reads(src, ip, EOF_MARKER)
    ensures ip < |src| && src[ip] == M4_MARKER + 1 && 1 == ShortLen(3, M4_MAX_LEN)
    ensures Reads(src, ip + 1, LongLen(3, M4_MAX_LEN) + (OffsetBytes(0, 0) + []))
  {
  }

  /** The M4 branch, which also meets the end marker. */
  method ReadM4(src: seq<byte>, ip0: nat, t0: nat, op: nat, ghost items: seq<Item>)
    returns (eof: bool, mpos: int, t: nat, ip: nat)
    requires 0 < ip0 <= |src| && t0 == src[ip0 - 1] && Reads(src, ip0 - 1, ItemsBytes(items))
    requires items != [] ==> items[0].m.M4?
    ensures eof <==> items == []
    ensures eof ==> ip == |src| && t == 1
    ensures !eof ==> mpos == op - items[0].m.off && t + 2 == items[0].m.Len() && BehindMatch(src, ip, items)
    ensures ip > ip0 && t > 0
  {
    ghost var len, o, k, tail := 3, 0, 0, [];
    if items == [] {
      EofLayout(src, ip0 - 1);
    } else {
      M4Layout(src, ip0 - 1, items);
      len, o := items[0].m.Len(), (items[0].m.off - 0x4000) % 0x4000;
      k, tail := SpareBits(items[0].lits), Tail(items);
    }
    hide ItemsBytes, LongLen, OffsetBytes, OffsetAt, Tail, ShortLen;
    mpos := op - t0 / 8 % 2 * 0x4000;
    t, ip := ReadLength(src, ip0, t0 % 8, 7, len, OffsetBytes(o, k) + tail);
    OffsetRead(src, ip, o, k, tail);
    mpos := mpos - OffsetAt(src, ip);
    ip := ip + 2;
    eof := mpos == op;
    mpos := mpos - 0x4000;
  }

  /** `pend` are literals still to be copied (Outer, MatchNext) or just copied (FirstLiteralRun). */
  ghost predicate AtLabel(lab: Label, src: seq<byte>, ip: int, t: int, out: seq<byte>, pend: seq<byte>,
                          items: seq<Item>, text: seq<byte>) {
    match lab
    case Outer =>
      && (pend == [] || |pend| >= 4)
      && Reads(src, ip, (if pend == [] then [] else RunHeader(|pend|) + pend) + ItemsBytes(items))
      && Promises(out + pend, |pend|, items, text)
    case FirstLiteralRun =>
      |pend| >= 4 && Reads(src, ip, ItemsBytes(items)) && Promises(out, |pend|, items, text)
    case AtMatch =>
      && 1 <= ip && Reads(src, ip - 1, ItemsBytes(items)) && t == src[ip - 1]
      && Promises(out, |pend|, items, text) && (items != [] ==> !items[0].m.M1Long?)
    case MatchDone =>
      && items != [] && BehindMatch(src, ip, items)
      && Promises(out + items[0].lits, |items[0].lits|, items[1..], text)
    case MatchNext =>
      && 1 <= |pend| <= 3 && t == |pend| && Reads(src, ip, pend + ItemsBytes(items))
      && Promises(out + pend, |pend|, items, text)
  }

  /** The items complete `out` to `text`. */
  ghost predicate Promises(out: seq<byte>, prev: nat, items: seq<Item>, text: seq<byte>) {
    ItemsValid(prev, |out|, items) && Expand(out, prev, items) == text
  }

  /** The text so far once an item's copy is done. */
  function Copied(out: seq<byte>, it: Item): (res: seq<byte>)
    requires it.m.off <= |out|
    ensures |res| == |out| + it.m.Len() && out <= res && 1 <= it.m.off
    ensures res == CopyBack(out, it.m.off, it.m.Len())
  {
    assert it.m.Valid();
    CopyBack(out, it.m.off, it.m.Len())
  }

  lemma RunFirst(src: seq<byte>, ip: nat, pend: seq<byte>, rest: seq<byte>)
    requires |pend| >= 4 && Reads(src, ip, (RunHeader(|pend|) + pend) + rest)
    ensures ip < |src| && src[ip] == RunFirstByte(|pend|)
    ensures Reads(src, ip + 1, RunExtension(|pend|) + (pend + rest))
  {
  }

  /** The rest of a literal run's count. */
  method ReadRunCount(src: seq<byte>, ip0: nat, t0: nat, ghost n: nat, ghost rest: seq<byte>)
    returns (t: nat, ip: nat)
    requires n >= 4 && t0 == RunFirstByte(n) && Reads(src, ip0, RunExtension(n) + rest)
    ensures t + 3 == n && ip >= ip0 && Reads(src, ip, rest)
  {
    t, ip := t0, ip0;
    if t == 0 {
      t, ip := ReadCount(src, ip, 15, n - 18, rest);
    } else {
      assert [] + rest == rest;
    }
  }

  /** The first byte of a match tells its kind. */
  predicate KindByte(m: Match, b: byte) {
    match m
    case M1(_) => b < 16
    case M1Long(_) => b < 16
    case M2(_, _) => 64 <= b
    case M3(_, _) => 32 <= b < 64
    case M4(_, _) => 16 <= b < 32
  }

  lemma {:induction false} ItemsFirst(src: seq<byte>, ip: int, items: seq<Item>)
    requires Reads(src, ip, ItemsBytes(items))
    ensures ip + 2 <= |src|
    ensures if items == [] then src[ip] == M4_MARKER + 1 else KindByte(items[0].m, src[ip])
  {
  }

  /** The two-byte matches. */
  lemma {:induction false} ShortMatch(src: seq<byte>, ip: int, items: seq<Item>)
    requires items != [] && Reads(src, ip, ItemsBytes(items))
    requires items[0].m.M1? || items[0].m.M1Long? || items[0].m.M2?
    ensures BehindMatch(src, ip + 2, items)
    ensures var m, a, b := items[0].m, src[ip] as int, src[ip + 1] as int;
            && (m.M1? ==> 1 + a / 4 + b * 4 == m.off)
            && (m.M1Long? ==> 1 + M2_MAX_OFFSET + a / 4 + b * 4 == m.off)
            && (m.M2? ==> 1 + a / 4 % 8 + b * 8 == m.off && a / 32 + 1 == m.len2)
  {
    SkipMatch(src, ip, items);
    ShortBytes(items[0].m, SpareBits(items[0].lits));
    hide MatchBytes, ItemsBytes, BehindMatch;
    var mb := MatchBytes(items[0].m, SpareBits(items[0].lits));
    assert src[ip + 0] == mb[0] && src[ip + 1] == mb[1];
  }

  lemma ShortBytes(m: ValidMatch, k: nat)
    requires k < 4 && (m.M1? || m.M1Long? || m.M2?)
    ensures |MatchBytes(m, k)| == 2
    ensures var a, b := MatchBytes(m, k)[0] as int, MatchBytes(m, k)[1] as int;
            && (m.M1? ==> 1 + a / 4 + b * 4 == m.off)
            && (m.M1Long? ==> 1 + M2_MAX_OFFSET + a / 4 + b * 4 == m.off)
            && (m.M2? ==> 1 + a / 4 % 8 + b * 8 == m.off && a / 32 + 1 == m.len2)
  {
  }

  /** Room for n more bytes, when the bound is checked at all. */
  predicate NeedOp(safe: bool, cap: nat, op: nat, n: nat) {
    !safe || op + n <= cap
  }

  /** An output overrun is reported only when the text does not fit; what is written is a prefix of it. */
  ghost predicate Overrun(safe: bool, cap: nat, out: seq<byte>, text: seq<byte>) {
    safe && |out| <= cap < |text| && out <= text
  }

  lemma StartDirect(src: seq<byte>, s: Stream)
    requires StreamValid(s) && src == StreamBytes(s) && s.first != [] && s.direct
    ensures src != [] && src[0] == 17 + |s.first| && Reads(src, 1, s.first + ItemsBytes(s.items))
    ensures [] + s.first == s.first
  {
    DirectHead(src, 17 + |s.first|, s.first, ItemsBytes(s.items));
  }

  lemma DirectHead(src: seq<byte>, b: byte, first: seq<byte>, rest: seq<byte>)
    requires src == ([b] + first) + rest
    ensures src != [] && src[0] == b && Reads(src, 1, first + rest)
  {
  }

  lemma StartOuter(src: seq<byte>, s: Stream)
    requires StreamValid(s) && src == StreamBytes(s) && (s.first == [] || !s.direct)
    ensures src != [] && src[0] <= 17
    ensures AtLabel(Outer, src, 0, 0, [], s.first, s.items, StreamText(s))
  {
    assert src[0..] == src && [] + s.first == s.first;
    if s.first == [] {
      assert s.items == [];
      assert src == [] + ItemsBytes(s.items) == ItemsBytes(s.items);
    } else {
      RunFirst(src, 0, s.first, ItemsBytes(s.items));
    }
  }

  /** The opening run, when its count is in the first byte. */
  method Start(src: seq<byte>, safe: bool, cap: nat, ghost s: Stream)
    returns (ok: bool, lab: Label, ip: nat, t: nat, out: seq<byte>)
    requires StreamValid(s) && src == StreamBytes(s)
    ensures ok ==>
              && AtLabel(lab, src, ip, t, out, s.first, s.items, StreamText(s)) && NeedOp(safe, cap, |out|, 0)
              && ip <= |src|
    ensures !ok ==> Overrun(safe, cap, out, StreamText(s))
  {
    if s.first != [] && s.direct { StartDirect(src, s); } else { StartOuter(src, s); }
    ok, lab, ip, t, out := true, Outer, 0, 0, [];
    if src[ip] > 17 {
      t, ip := src[ip] as int - 17, 1;
      if t < 4 {
        lab := MatchNext;
      } else {
        ReadsSkip(src, ip, s.first, ItemsBytes(s.items));
        assert |src| - ip >= t + 1;
        if NeedOp(safe, cap, |out|, t) {
          out := src[ip..ip + t];
          ip := ip + t;
          lab := FirstLiteralRun;
        } else {
          ok := false;
        }
      }
    }
  }

  /** The outer loop: a literal run, or the next match. */
  method StepOuter(src: seq<byte>, ip0: nat, ghost t0: int, out0: seq<byte>, safe: bool, cap: nat,
                   ghost pend: seq<byte>, ghost items: seq<Item>, ghost text: seq<byte>)
    returns (ok: bool, lab: Label, ip: nat, t: nat, out: seq<byte>)
    requires AtLabel(Outer, src, ip0, t0, out0, pend, items, text) && NeedOp(safe, cap, |out0|, 0)
    ensures ip > ip0
    ensures ok ==> AtLabel(lab, src, ip, t, out, pend, items, text) && NeedOp(safe, cap, |out|, 0) && ip <= |src|
    ensures !ok ==> Overrun(safe, cap, out, text)
  {
    hide AtLabel, Promises, Reads, ItemsBytes, RunExtension, RunFirstByte;
    ok, lab, out := true, AtMatch, out0;
    OuterFirst(src, ip0, t0, out0, pend, items, text);
    t, ip := src[ip0], ip0 + 1;
    if t < 16 {
      t, ip := ReadRunCount(src, ip, t, |pend|, pend + ItemsBytes(items));
      RunCopied(src, ip, t, out, pend, items, text);
      assert |src| - ip >= t + 4;
      if NeedOp(safe, cap, |out|, t + 3) {
        out, ip := CopyRun(out, src, ip, t);
        lab := FirstLiteralRun;
      } else {
        ok := false;
      }
    }
  }

  lemma {:induction false} OuterFirst(src: seq<byte>, ip: nat, t: int, out: seq<byte>, pend: seq<byte>,
                                      items: seq<Item>, text: seq<byte>)
    requires AtLabel(Outer, src, ip, t, out, pend, items, text)
    ensures ip < |src| && out + pend <= text
    ensures src[ip] < 16 <==> pend != []
    ensures pend == [] ==> AtLabel(AtMatch, src, ip + 1, src[ip], out, pend, items, text)
    ensures pend != [] ==>
              && |pend| >= 4 && src[ip] == RunFirstByte(|pend|) && Promises(out + pend, |pend|, items, text)
              && Reads(src, ip + 1, RunExtension(|pend|) + (pend + ItemsBytes(items)))
  {
    if pend == [] {
      assert [] + ItemsBytes(items) == ItemsBytes(items) && out + [] == out;
      ItemsFirst(src, ip, items);
    } else {
      RunFirst(src, ip, pend, ItemsBytes(items));
    }
  }

  lemma {:induction false} RunCopied(src: seq<byte>, ip: nat, t: int, out: seq<byte>, pend: seq<byte>,
                                     items: seq<Item>, text: seq<byte>)
    requires |pend| >= 4 && Promises(out + pend, |pend|, items, text) && Reads(src, ip, pend + ItemsBytes(items))
    ensures ip + |pend| < |src| && src[ip..ip + |pend|] == pend
    ensures AtLabel(FirstLiteralRun, src, ip + |pend|, t, out + pend, pend, items, text)
  {
  }

  /** Once an item's header is read, its copy leads to MatchDone. */
  lemma CopiedIsDone(src: seq<byte>, ip: nat, t: int, out: seq<byte>, pend: seq<byte>, items: seq<Item>,
                     text: seq<byte>)
    requires items != [] && Promises(out, |pend|, items, text) && BehindMatch(src, ip, items)
    ensures 1 <= items[0].m.off <= |out| && Copied(out, items[0]) <= text
    ensures ip <= |src| && AtLabel(MatchDone, src, ip, t, Copied(out, items[0]), pend, items, text)
  {
  }

  /** An M1-style three-byte copy after a literal run, or the next match. */
  method StepFirstLiteralRun(src: seq<byte>, ip0: nat, ghost t0: int, out0: seq<byte>, safe: bool, cap: nat,
                             ghost pend: seq<byte>, ghost items: seq<Item>, ghost text: seq<byte>)
    returns (ok: bool, lab: Label, ip: nat, t: nat, out: seq<byte>)
    requires AtLabel(FirstLiteralRun, src, ip0, t0, out0, pend, items, text) && NeedOp(safe, cap, |out0|, 0)
    ensures ip > ip0
    ensures ok ==> AtLabel(lab, src, ip, t, out, pend, items, text) && NeedOp(safe, cap, |out|, 0) && ip <= |src|
    ensures !ok ==> Overrun(safe, cap, out, text)
  {
    hide AtLabel, Copied, ItemsBytes;
    ok, lab, out := true, AtMatch, out0;
    FirstRunNext(src, ip0, t0, out0, pend, items, text);
    t, ip := src[ip0], ip0 + 1;
    if t < 16 {
      var mpos := |out| - (1 + M2_MAX_OFFSET) - t / 4 - src[ip] as int * 4;
      ip := ip + 1;
      assert 0 <= mpos < |out|;
      if NeedOp(safe, cap, |out|, 3) {
        out := CopyBytes(out, mpos, 1);
        lab := MatchDone;
      } else {
        ok := false;
      }
    }
  }

  lemma FirstRunNext(src: seq<byte>, ip: nat, t: int, out: seq<byte>, pend: seq<byte>, items: seq<Item>,
                     text: seq<byte>)
    requires AtLabel(FirstLiteralRun, src, ip, t, out, pend, items, text)
    ensures ip + 1 < |src| && out <= text
    ensures src[ip] >= 16 ==> AtLabel(AtMatch, src, ip + 1, src[ip], out, pend, items, text)
    ensures src[ip] < 16 ==>
              && items != [] && items[0].m.Len() == 3
              && items[0].m.off == 1 + M2_MAX_OFFSET + src[ip] as int / 4 + src[ip + 1] as int * 4
              && 1 <= items[0].m.off <= |out| && Copied(out, items[0]) <= text
              && AtLabel(MatchDone, src, ip + 2, src[ip], Copied(out, items[0]), pend, items, text)
  {
    ItemsFirst(src, ip, items);
    if src[ip] < 16 {
      ShortMatch(src, ip, items);
      CopiedIsDone(src, ip + 2, src[ip], out, pend, items, text);
    }
  }

  /** The match branches: M2, M3, M4 with the end marker, M1. */
  method ReadMatch(src: seq<byte>, ip0: nat, t0: nat, op: nat, ghost items: seq<Item>)
    returns (eof: bool, mpos: int, t: nat, ip: nat, fourBytes: bool)
    requires 0 < ip0 <= |src| && t0 == src[ip0 - 1] && Reads(src, ip0 - 1, ItemsBytes(items))
    requires items != [] ==> !items[0].m.M1Long?
    ensures ip > ip0 && (eof <==> items == [])
    ensures eof ==> ip == |src|
    ensures !eof ==> mpos == op - items[0].m.off && t + 2 == items[0].m.Len() && BehindMatch(src, ip, items)
    ensures fourBytes ==> t > 0
  {
    ItemsFirst(src, ip0 - 1, items);
    eof := false;
    if t0 >= 64 {
      ShortMatch(src, ip0 - 1, items);
      mpos := op - 1;
      mpos := mpos - t0 / 4 % 8;
      mpos := mpos - src[ip0] as int * 8;
      t, ip, fourBytes := t0 / 32 - 1, ip0 + 1, false;
    } else if t0 >= 32 {
      mpos, t, ip := ReadM3(src, ip0, t0, op, items);
      fourBytes := true;
    } else if t0 >= 16 {
      eof, mpos, t, ip := ReadM4(src, ip0, t0, op, items);
      fourBytes := true;
    } else {
      ShortMatch(src, ip0 - 1, items);
      mpos := op - 1;
      mpos := mpos - t0 / 4;
      mpos := mpos - src[ip0] as int * 4;
      t, ip, fourBytes := 0, ip0 + 1, false;
    }
  }

  lemma {:induction false} StepMatchStart(src: seq<byte>, ip: nat, t: nat, out: seq<byte>, pend: seq<byte>,
                                          items: seq<Item>, text: seq<byte>)
    requires AtLabel(AtMatch, src, ip, t, out, pend, items, text)
    ensures 0 < ip <= |src| && t == src[ip - 1] && Reads(src, ip - 1, ItemsBytes(items))
    ensures items != [] ==> !items[0].m.M1Long?
    ensures Promises(out, |pend|, items, text) && (items == [] ==> out == text)
    ensures items != [] ==> items[0].m.off <= |out| && |Copied(out, items[0])| == |out| + items[0].m.Len()
  {
  }

  method StepMatch(src: seq<byte>, ip0: nat, t0: nat, out0: seq<byte>, safe: bool, cap: nat,
                   ghost pend: seq<byte>, ghost items: seq<Item>, ghost text: seq<byte>)
    returns (ok: bool, eof: bool, ip: nat, out: seq<byte>)
    requires AtLabel(AtMatch, src, ip0, t0, out0, pend, items, text) && NeedOp(safe, cap, |out0|, 0)
    ensures ip > ip0
    ensures ok && eof ==> out == text && ip == |src| && NeedOp(safe, cap, |out|, 0)
    ensures ok && !eof ==>
              AtLabel(MatchDone, src, ip, t0, out, pend, items, text) && NeedOp(safe, cap, |out|, 0) && ip <= |src|
    ensures !ok ==> Overrun(safe, cap, out, text)
  {
    StepMatchStart(src, ip0, t0, out0, pend, items, text);
    hide AtLabel, Promises, Reads, ItemsBytes, BehindMatch, CopyBack, Copied, Match.Len, Expand, ItemsValid;
    var mpos, t, fourBytes;
    eof, mpos, t, ip, fourBytes := ReadMatch(src, ip0, t0, |out0|, items);
    ok, out := true, out0;
    if !eof {
      CopiedIsDone(src, ip, t0, out0, pend, items, text);
      assert 0 <= mpos < |out|;
      ok := NeedOp(safe, cap, |out|, t + 2);
      if ok {
        out := CopyRef(out, mpos, t, fourBytes, items[0]);
      }
    }
  }

  /** The three copy loops: M1 copies just two bytes, M2 goes straight to copy_match. */
  method CopyRef(out0: seq<byte>, mpos: nat, t: nat, fourBytes: bool, ghost it: Item) returns (out: seq<byte>)
    requires mpos < |out0| && (fourBytes ==> t > 0)
    requires mpos == |out0| - it.m.off && t + 2 == it.m.Len()
    ensures out == Copied(out0, it)
  {
    if fourBytes {
      out := CopyMatch(out0, mpos, t);
    } else if t > 0 {
      out := CopyBytes(out0, mpos, t);
    } else {
      out := out0 + [out0[mpos]];
      out := out + [out[mpos + 1]];
      assert out == CopyBack(out0, |out0| - mpos, 2);
    }
  }

  /** One to three literals counted by the match before them. */
  method StepMatchNext(src: seq<byte>, ip0: nat, t0: nat, out0: seq<byte>, safe: bool, cap: nat,
                       ghost pend: seq<byte>, ghost items: seq<Item>, ghost text: seq<byte>)
    returns (ok: bool, ip: nat, t: nat, out: seq<byte>)
    requires AtLabel(MatchNext, src, ip0, t0, out0, pend, items, text) && NeedOp(safe, cap, |out0|, 0)
    ensures ip > ip0
    ensures ok ==> AtLabel(AtMatch, src, ip, t, out, pend, items, text) && NeedOp(safe, cap, |out|, 0) && ip <= |src|
    ensures !ok ==> Overrun(safe, cap, out, text)
  {
    hide AtLabel, ItemsBytes;
    MatchNextLast(src, ip0, t0, out0, pend, items, text);
    assert |src| - ip0 >= t0 + 1;
    ok, ip, t, out := NeedOp(safe, cap, |out0|, t0), ip0 + 1, t0, out0;
    if ok {
      out := CopyFew(src, ip0, t, out);
      ip := ip0 + t;
      t, ip := src[ip], ip + 1;
    }
  }

  method CopyFew(src: seq<byte>, ip0: nat, t: nat, out0: seq<byte>) returns (out: seq<byte>)
    requires 1 <= t <= 3 && ip0 + t <= |src|
    ensures out == out0 + src[ip0..ip0 + t]
  {
    var ip := ip0 + 1;
    out := out0 + [src[ip0]];
    if t > 1 {
      out, ip := out + [src[ip]], ip + 1;
      if t > 2 {
        out, ip := out + [src[ip]], ip + 1;
      }
    }
  }

  lemma MatchNextLast(src: seq<byte>, ip: nat, t: nat, out: seq<byte>, pend: seq<byte>, items: seq<Item>,
                      text: seq<byte>)
    requires AtLabel(MatchNext, src, ip, t, out, pend, items, text)
    ensures 1 <= t <= 3 && ip + t < |src| && src[ip..ip + t] == pend && out + pend <= text
    ensures AtLabel(AtMatch, src, ip + t + 1, src[ip + t], out + pend, pend, items, text)
  {
    ReadsSkip(src, ip, pend, ItemsBytes(items));
    ItemsFirst(src, ip + t, items);
  }

  lemma MatchDoneNext(src: seq<byte>, ip: nat, t0: int, out: seq<byte>, pend: seq<byte>, items: seq<Item>,
                      text: seq<byte>)
    requires AtLabel(MatchDone, src, ip, t0, out, pend, items, text)
    ensures 2 <= ip <= |src| && items != []
    ensures var t, lits := src[ip - 2] as int % 4, items[0].lits;
            if t == 0 then AtLabel(Outer, src, ip, t, out, lits, items[1..], text)
            else AtLabel(MatchNext, src, ip, t, out, lits, items[1..], text)
  {
  }

  /** The decoder on a well-formed stream.  `safe` selects the variant that respects an output
      capacity.  The input and look-behind tests are asserted: on such a stream they never fire. */
  method Decompress(src: seq<byte>, safe: bool, cap: nat, ghost s: Stream)
    returns (code: Code, out: seq<byte>)
    requires StreamValid(s) && src == StreamBytes(s)
    ensures code == if safe && cap < |StreamText(s)| then OutputOverrun else Ok
    ensures code == Ok ==> out == StreamText(s)
    ensures code == OutputOverrun ==> out <= StreamText(s) && |out| <= cap
  {
    hide AtLabel, StreamText, StreamValid, StreamBytes;
    ghost var text := StreamText(s);
    ghost var pend, items := s.first, s.items;
    var ok, lab, ip, t;
    ok, lab, ip, t, out := Start(src, safe, cap, s);
    var eof := false;
    while ok && !eof
      invariant ok && !eof ==>
        AtLabel(lab, src, ip, t, out, pend, items, text) && NeedOp(safe, cap, |out|, 0) && ip <= |src|
      invariant ok && eof ==> out == text && ip == |src| && NeedOp(safe, cap, |out|, 0)
      invariant !ok ==> Overrun(safe, cap, out, text)
      decreases ok && !eof, |src| - ip, if lab == MatchDone then 1 else 0
    {
      match lab
      case Outer =>
        ok, lab, ip, t, out := StepOuter(src, ip, t, out, safe, cap, pend, items, text);
      case FirstLiteralRun =>
        ok, lab, ip, t, out := StepFirstLiteralRun(src, ip, t, out, safe, cap, pend, items, text);
      case AtMatch =>
        ok, eof, ip, out := StepMatch(src, ip, t, out, safe, cap, pend, items, text);
        lab := MatchDone;
      case MatchDone =>
        MatchDoneNext(src, ip, t, out, pend, items, text);
        t := src[ip - 2] as int % 4;
        lab := if t == 0 then Outer else MatchNext;
        pend, items := items[0].lits, items[1..];
      case MatchNext =>
        ok, ip, t, out := StepMatchNext(src, ip, t, out, safe, cap, pend, items, text);
        lab := AtMatch;
    }
    code := if !ok then OutputOverrun
            else if ip == |src| then Ok else if ip < |src| then InputNotConsumed else InputOverrun;
  }
}
