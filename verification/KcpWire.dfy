/** Segments as bytes: ikcp_encode_seg, the header loop of ikcp_input, and the filling of datagrams. */
module KcpWire {
  import opened KcpNum
  import opened KcpState

  function Encode16(x: nat): (e: bytes)
    ensures |e| == 2
  { [x % 0x100, x / 0x100 % 0x100] }

  function Encode32(x: nat): (e: bytes)
    ensures |e| == 4
  { [x % 0x100, x / 0x100 % 0x100, x / 0x1_0000 % 0x100, x / 0x100_0000 % 0x100] }

  function Decode16(b: bytes, i: nat): int
    requires i + 2 <= |b|
  {
    b[i] + b[i + 1] * 0x100
  }

  function Decode32(b: bytes, i: nat): int
    requires i + 4 <= |b|
  {
    b[i] + b[i + 1] * 0x100 + b[i + 2] * 0x1_0000 + b[i + 3] * 0x100_0000
  }

  /** ikcp_encode_seg; the casts drop what does not fit a field. */
  function Header(conv: nat, p: Pkt): (h: bytes)
    ensures |h| == OVERHEAD
  {
    Encode32(conv) + [p.cmd % 0x100, p.frg % 0x100] + Encode16(p.wnd)
    + Encode32(p.ts) + Encode32(p.sn) + Encode32(p.una) + Encode32(|p.data|)
  }

  function Encode(conv: nat, p: Pkt): (e: bytes)
    ensures |e| == OVERHEAD + |p.data|
  {
    Header(conv, p) + p.data
  }

  function EncodeAll(conv: nat, ps: seq<Pkt>): bytes {
    if ps == [] then [] else Encode(conv, ps[0]) + EncodeAll(conv, ps[1..])
  }

  /** Why ikcp_input stopped reading a datagram. */
  datatype Stop = Done | BadConv | BadLen | BadCmd

  datatype Parsed = Parsed(pkts: seq<Pkt>, stop: Stop)

  predicate KnownCmd(cmd: int) {
    cmd == CMD_PUSH || cmd == CMD_ACK || cmd == CMD_WASK || cmd == CMD_WINS
  }

  /** The fields are bytes of a datagram, so none is negative. */
  predicate IsBytes(b: bytes) {
    forall i :: 0 <= i < |b| ==> 0 <= b[i] < 0x100
  }

  /** The segment whose header starts the datagram. */
  function FirstPkt(b: bytes): Pkt
    requires IsBytes(b) && OVERHEAD <= |b| && 0 <= Decode32(b, 20) <= |b| - OVERHEAD
  {
    assert 0 <= b[4] && 0 <= b[5];
    Pkt(b[4], b[5], Decode16(b, 6), Decode32(b, 8), Decode32(b, 12), Decode32(b, 16),
        b[OVERHEAD..OVERHEAD + Decode32(b, 20)])
  }

  /** The reading loop of ikcp_input: the segments it acts on, and how it ends. */
  function Parse(conv: nat, b: bytes): Parsed
    requires IsBytes(b)
    decreases |b|
  {
    if |b| < OVERHEAD then Parsed([], Done)
    else if Decode32(b, 0) != conv then Parsed([], BadConv)
    else if |b| - OVERHEAD < Decode32(b, 20) || I32(Decode32(b, 20)) < 0 then Parsed([], BadLen)
    else if !KnownCmd(b[4]) then Parsed([], BadCmd)
    else
      var rest := Parse(conv, b[OVERHEAD + Decode32(b, 20)..]);
      Parsed([FirstPkt(b)] + rest.pkts, rest.stop)
  }

  /** A segment whose fields fit the header. */
  predicate OnWire(p: Pkt) {
    && KnownCmd(p.cmd) && p.frg < 0x100 && p.wnd < 0x1_0000 && p.ts < W && p.sn < W && p.una < W
    && |p.data| < 0x8000_0000 && IsBytes(p.data)
  }

  lemma Code32(x: nat, b: bytes, i: nat)
    requires x < W && i + 4 <= |b| && b[i..i + 4] == Encode32(x)
    ensures Decode32(b, i) == x
  {
    assert b[i] == b[i..i + 4][0] && b[i + 1] == b[i..i + 4][1] && b[i + 2] == b[i..i + 4][2]
           && b[i + 3] == b[i..i + 4][3];
    assert x / 0x100_0000 % 0x100 == x / 0x100_0000;
    var a := x / 0x100;
    assert x == a * 0x100 + x % 0x100;
    assert a / 0x100 == x / 0x1_0000 && a == x / 0x1_0000 * 0x100 + a % 0x100;
    assert x / 0x1_0000 / 0x100 == x / 0x100_0000;
  }

  lemma Code16(x: nat, b: bytes, i: nat)
    requires x < 0x1_0000 && i + 2 <= |b| && b[i..i + 2] == Encode16(x)
    ensures Decode16(b, i) == x
  {
  }

  lemma HeaderSlices(conv: nat, p: Pkt)
    ensures var h := Header(conv, p);
            && h[0..4] == Encode32(conv) && h[4] == p.cmd % 0x100 && h[5] == p.frg % 0x100 && h[6..8] == Encode16(p.wnd)
            && h[8..12] == Encode32(p.ts) && h[12..16] == Encode32(p.sn) && h[16..20] == Encode32(p.una)
            && h[20..24] == Encode32(|p.data|)
  {
  }

  lemma HeaderFields(conv: nat, p: Pkt, b: bytes)
    requires conv < W && OnWire(p) && |b| >= OVERHEAD && b[..OVERHEAD] == Header(conv, p)
    ensures Decode32(b, 0) == conv && b[4] == p.cmd && b[5] == p.frg && Decode16(b, 6) == p.wnd
    ensures Decode32(b, 8) == p.ts && Decode32(b, 12) == p.sn && Decode32(b, 16) == p.una && Decode32(b, 20) == |p.data|
  {
    HeaderSlices(conv, p);
    var h := Header(conv, p);
    hide Header, Encode32, Encode16, Decode32, Decode16;
    assert forall i, j :: 0 <= i <= j <= OVERHEAD ==> b[i..j] == h[i..j];
    assert b[4] == h[4] && b[5] == h[5];
    Code32(conv, b, 0);
    Code16(p.wnd, b, 6);
    Code32(p.ts, b, 8);
    Code32(p.sn, b, 12);
    Code32(p.una, b, 16);
    Code32(|p.data|, b, 20);
  }

  lemma EncodeIsBytes(conv: nat, p: Pkt)
    requires IsBytes(p.data)
    ensures IsBytes(Encode(conv, p))
  {
  }

  lemma {:induction false} EncodeAllIsBytes(conv: nat, ps: seq<Pkt>)
    requires forall i :: 0 <= i < |ps| ==> OnWire(ps[i])
    ensures IsBytes(EncodeAll(conv, ps))
    decreases |ps|
  {
    if ps != [] {
      EncodeIsBytes(conv, ps[0]);
      EncodeAllIsBytes(conv, ps[1..]);
      hide Encode, OnWire;
    }
  }

  lemma {:induction false} ParseFirst(conv: nat, p: Pkt, rest: bytes)
    requires conv < W && OnWire(p) && IsBytes(rest) && IsBytes(Encode(conv, p) + rest)
    ensures var r := Parse(conv, rest);
            Parse(conv, Encode(conv, p) + rest) == Parsed([p] + r.pkts, r.stop)
  {
    var b, n := Encode(conv, p) + rest, OVERHEAD + |p.data|;
    assert b[..OVERHEAD] == Header(conv, p) && b[OVERHEAD..n] == p.data && b[n..] == rest;
    HeaderFields(conv, p, b);
    assert I32(|p.data|) == |p.data|;
    hide Header, Encode, Decode32, Decode16, IsBytes, U32, I32;
    assert FirstPkt(b) == p;
  }

  /** What is written is read back: the segments of a datagram, in order, and nothing else. */
  lemma {:induction false} ParseEncode(conv: nat, ps: seq<Pkt>)
    requires conv < W && forall i :: 0 <= i < |ps| ==> OnWire(ps[i])
    ensures IsBytes(EncodeAll(conv, ps)) && Parse(conv, EncodeAll(conv, ps)) == Parsed(ps, Done)
    decreases |ps|
  {
    EncodeAllIsBytes(conv, ps);
    if ps != [] {
      ParseEncode(conv, ps[1..]);
      ParseFirst(conv, ps[0], EncodeAll(conv, ps[1..]));
      assert [ps[0]] + ps[1..] == ps;
      hide Parse, Encode, IsBytes, OnWire;
    }
  }

  // ---------------------------------------------------------------- filling datagrams

  /** The scratch buffer of ikcp_flush: what went out, and what has been written since. */
  datatype Scratch = Scratch(out: seq<bytes>, cur: bytes)

  /** Before a segment that would pass the mtu, the buffer is sent; an empty buffer never is. */
  function Put(conv: nat, mtu: nat, s: Scratch, p: Pkt): Scratch {
    var e := Encode(conv, p);
    if |s.cur| + |e| > mtu then Scratch(if s.cur == [] then s.out else s.out + [s.cur], e)
    else s.(cur := s.cur + e)
  }

  function Fill(conv: nat, mtu: nat, ps: seq<Pkt>): Scratch
    decreases |ps|
  {
    if ps == [] then Scratch([], []) else Put(conv, mtu, Fill(conv, mtu, ps[..|ps| - 1]), ps[|ps| - 1])
  }

  /** The datagrams of one flush. */
  function Datagrams(conv: nat, mtu: nat, ps: seq<Pkt>): seq<bytes> {
    var s := Fill(conv, mtu, ps);
    if |s.cur| > 0 then s.out + [s.cur] else s.out
  }

  function Flat(groups: seq<seq<Pkt>>): seq<Pkt> {
    if groups == [] then [] else groups[0] + Flat(groups[1..])
  }

  /** The datagrams are these groups of segments, written out. */
  ghost predicate Carries(conv: nat, mtu: nat, out: seq<bytes>, groups: seq<seq<Pkt>>) {
    && |out| == |groups|
    && forall i :: 0 <= i < |out| ==> out[i] == EncodeAll(conv, groups[i]) && 0 < |out[i]| <= mtu
  }

  lemma {:induction false} FlatMore(groups: seq<seq<Pkt>>, g: seq<Pkt>)
    ensures Flat(groups + [g]) == Flat(groups) + g
    decreases |groups|
  {
    if groups == [] {
      assert [g][1..] == [] && Flat([g]) == g + Flat([]) == g;
      assert groups + [g] == [g];
    } else {
      assert (groups + [g])[1..] == groups[1..] + [g];
      FlatMore(groups[1..], g);
    }
  }

  lemma {:induction false} EncodeAllMore(conv: nat, ps: seq<Pkt>, p: Pkt)
    ensures EncodeAll(conv, ps + [p]) == EncodeAll(conv, ps) + Encode(conv, p)
    decreases |ps|
  {
    if ps == [] {
      assert [p][1..] == [] && EncodeAll(conv, [p]) == Encode(conv, p) + EncodeAll(conv, []);
      assert ps + [p] == [p];
    } else {
      assert (ps + [p])[1..] == ps[1..] + [p];
      EncodeAllMore(conv, ps[1..], p);
    }
  }

  /** What went out and what is in the buffer is exactly what was put, in order, and the buffer
      never holds more than one mtu. */
  ghost predicate Filled(conv: nat, mtu: nat, s: Scratch, groups: seq<seq<Pkt>>, last: seq<Pkt>, ps: seq<Pkt>) {
    && Carries(conv, mtu, s.out, groups) && s.cur == EncodeAll(conv, last)
    && |s.cur| <= mtu && (s.cur == [] ==> last == []) && Flat(groups) + last == ps
  }

  lemma {:induction false} FillOk(conv: nat, mtu: nat, ps: seq<Pkt>) returns (groups: seq<seq<Pkt>>, last: seq<Pkt>)
    requires forall i :: 0 <= i < |ps| ==> OVERHEAD + |ps[i].data| <= mtu
    ensures Filled(conv, mtu, Fill(conv, mtu, ps), groups, last, ps)
    decreases |ps|
  {
    groups, last := [], [];
    if ps != [] {
      var n := |ps| - 1;
      groups, last := FillOk(conv, mtu, ps[..n]);
      var s := Fill(conv, mtu, ps[..n]);
      assert ps[..n] + [ps[n]] == ps;
      hide Filled, Fill, Put;
      groups, last := PutOk(conv, mtu, s, groups, last, ps[..n], ps[n]);
      assert Fill(conv, mtu, ps) == Put(conv, mtu, s, ps[n]);
    }
  }

  lemma PutOk(conv: nat, mtu: nat, s: Scratch, groups0: seq<seq<Pkt>>, last0: seq<Pkt>, ps: seq<Pkt>, p: Pkt)
    returns (groups: seq<seq<Pkt>>, last: seq<Pkt>)
    requires Filled(conv, mtu, s, groups0, last0, ps) && OVERHEAD + |p.data| <= mtu
    ensures Filled(conv, mtu, Put(conv, mtu, s, p), groups, last, ps + [p])
  {
    groups, last := groups0, last0;
    EncodeAllNone(conv);
    hide EncodeAll, Flat, Encode;
    if |s.cur| + |Encode(conv, p)| > mtu {
      EncodeAllMore(conv, [], p);
      assert [] + Encode(conv, p) == Encode(conv, p) && [] + [p] == [p];
      if s.cur != [] {
        FlatMore(groups, last);
        groups := groups + [last];
      }
      last := [p];
    } else {
      EncodeAllMore(conv, last, p);
      assert (Flat(groups) + last) + [p] == Flat(groups) + (last + [p]);
      last := last + [p];
    }
  }

  lemma {:induction false} EncodeAllNone(conv: nat)
    ensures EncodeAll(conv, []) == []
  {
  }

  function ParseAll(conv: nat, ds: seq<bytes>): seq<Pkt>
    requires forall i :: 0 <= i < |ds| ==> IsBytes(ds[i])
  {
    if ds == [] then [] else Parse(conv, ds[0]).pkts + ParseAll(conv, ds[1..])
  }

  lemma {:induction false} ParseGroups(conv: nat, mtu: nat, ds: seq<bytes>, groups: seq<seq<Pkt>>)
    requires conv < W && Carries(conv, mtu, ds, groups)
    requires forall i :: 0 <= i < |Flat(groups)| ==> OnWire(Flat(groups)[i])
    ensures forall i :: 0 <= i < |ds| ==> IsBytes(ds[i]) && Parse(conv, ds[i]).stop == Done
    ensures ParseAll(conv, ds) == Flat(groups)
    decreases |ds|
  {
    if ds != [] {
      var g, rest := groups[0], Flat(groups[1..]);
      forall i | 0 <= i < |g| ensures OnWire(g[i]) {
        assert Flat(groups)[i] == g[i];
      }
      forall i | 0 <= i < |rest| ensures OnWire(rest[i]) {
        assert Flat(groups)[|g| + i] == rest[i];
      }
      ParseEncode(conv, g);
      ParseGroups(conv, mtu, ds[1..], groups[1..]);
      assert forall i :: 1 <= i < |ds| ==> ds[i] == ds[1..][i - 1];
      hide OnWire, EncodeAll, Parse, IsBytes;
    }
  }

  /** The datagrams of one flush: none empty, none above the mtu, and reading them one after another
      gives back exactly the flushed segments in order. */
  lemma {:induction false} DatagramsRoundTrip(conv: nat, mtu: nat, ps: seq<Pkt>)
    requires conv < W && forall i :: 0 <= i < |ps| ==> OnWire(ps[i]) && OVERHEAD + |ps[i].data| <= mtu
    ensures var ds := Datagrams(conv, mtu, ps);
            && (forall i :: 0 <= i < |ds| ==> 0 < |ds[i]| <= mtu && IsBytes(ds[i]) && Parse(conv, ds[i]).stop == Done)
            && ParseAll(conv, ds) == ps
  {
    var groups, last := FillOk(conv, mtu, ps);
    var s := Fill(conv, mtu, ps);
    if |s.cur| > 0 {
      FlatMore(groups, last);
      ParseGroups(conv, mtu, s.out + [s.cur], groups + [last]);
    } else {
      assert Flat(groups) + [] == Flat(groups);
      ParseGroups(conv, mtu, s.out, groups);
    }
    hide Fill, EncodeAll, Flat, Parse, ParseAll, OnWire, IsBytes;
  }
}
