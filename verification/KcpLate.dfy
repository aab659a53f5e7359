/** Exactly when the 32-bit code decides like the protocol, however late an acknowledgement or a segment is,
    and what happens to the first that is too late. */
module KcpLate {
  import opened KcpNum
  import opened KcpState
  import opened KcpInvariant
  import opened KcpWrap

  lemma DiffOf(a: nat, b: nat, d: int, q: int)
    requires a - b == d + W * q && -HALF <= d < W
    ensures Diff(true, a, b) == if d < HALF then d else d - W
  {
  }

  /** The difference on truncated numbers depends on the true one modulo 2^32. */
  lemma DiffMod(a: nat, b: nat)
    ensures Diff(true, U32(a), U32(b)) == var d := (a - b) % W; if d < HALF then d else d - W
  {
    DiffOf(U32(a), U32(b), (a - b) % W, (a - b) / W + b / W - a / W);
  }

  // ---------------------------------------------------------------- cumulative acknowledgements

  /** One test of ikcp_parse_una. */
  predicate Passes(wrap: bool, una: nat, sn: nat) {
    Diff(wrap, una, sn) > 0
  }

  /** It agrees with the unbounded one exactly unless an earlier number looks later, or a later one earlier. */
  lemma PassesExactly(una: nat, sn: nat)
    ensures Passes(true, U32(una), U32(sn)) <==> 0 < (una - sn) % W < HALF
    ensures (Passes(true, U32(una), U32(sn)) <==> Passes(false, una, sn))
            <==> if una > sn then 0 < (una - sn) % W < HALF else (una - sn) % W == 0 || (una - sn) % W >= HALF
  {
    DiffMod(una, sn);
  }

  /** A cumulative acknowledgement acts on the code as on the protocol if and only if it says something new, nothing
      is in flight, or it is not late by more than 2^31 and less than 2^32 numbers (modulo 2^32). */
  lemma ParseUnaExactly(cfg: Config, s: Snd, hist: seq<Frag>, una: nat)
    requires SndOk(cfg, s, hist) && SmallWindows(cfg) && una <= s.nxt
    ensures Shrink(ParseUna(true, TSnd(s), U32(una))) == TSnd(Shrink(ParseUna(false, s, una)))
            <==> s.buf == [] || una > s.una || (s.una - una) % W <= HALF
  {
    if s.buf == [] || una > s.una {
      if s.buf != [] { SndClose(cfg, s, hist, una); }
      DropBelowT(s.buf, una);
    } else {
      TSegsRest(s.buf);
      PassesExactly(una, s.una);
      Complement(s.una, una);
      Shorter(TSegs(s.buf)[1..], U32(una));
    }
    hide TSegs;
  }

  lemma Complement(a: nat, b: nat)
    requires b <= a
    ensures (b - a) % W == 0 || (b - a) % W >= HALF <==> (a - b) % W <= HALF
  {
    assert (b - a) % W == if (a - b) % W == 0 then 0 else W - (a - b) % W;
  }

  lemma {:induction false} Shorter(buf: seq<Seg>, una: nat)
    ensures |DropBelow(true, buf, una)| <= |buf|
    decreases |buf|
  {
    if buf != [] { Shorter(buf[1..], una); }
  }

  /** The earliest cumulative acknowledgement that is too late, 2^31 + 1 numbers, makes the code forget data that nobody
      has acknowledged. */
  lemma LateAckLosesData(seg: Seg)
    requires seg.sn == HALF + 1
    ensures var s := Snd([], [seg], HALF + 1, HALF + 2);
            && Shrink(ParseUna(false, s, 0)) == s
            && Shrink(ParseUna(true, TSnd(s), 0)) == Snd([], [], HALF + 2, HALF + 2)
  {
    var s := Snd([], [seg], HALF + 1, HALF + 2);
    DiffMod(0, HALF + 1);
    assert TSnd(s) == Snd([], [TSeg(seg)], HALF + 1, HALF + 2);
    assert DropBelow(true, [TSeg(seg)], 0) == DropBelow(true, [], 0) == [];
  }

  // ---------------------------------------------------------------- selective acknowledgements

  /** The number in flight that a truncated one is taken for. */
  function TakenFor(s: Snd, sn: nat): nat {
    s.una + (sn - s.una) % W
  }

  /** The range test before both searches. */
  lemma InFlightExactly(cfg: Config, s: Snd, hist: seq<Frag>, sn: nat)
    requires SndOk(cfg, s, hist) && SmallWindows(cfg)
    ensures InFlight(true, TSnd(s), U32(sn)) <==> TakenFor(s, sn) < s.nxt
    ensures InFlight(false, s, sn) <==> s.una <= sn < s.nxt
    ensures (InFlight(true, TSnd(s), U32(sn)) <==> InFlight(false, s, sn))
            <==> TakenFor(s, sn) >= s.nxt || s.una <= sn < s.nxt
    ensures s.una <= sn < s.nxt ==> TakenFor(s, sn) == sn
    ensures U32(TakenFor(s, sn)) == U32(sn)
  {
    var d, w := (sn - s.una) % W, s.nxt - s.una;
    DiffMod(sn, s.una);
    DiffOf(U32(sn), U32(s.nxt), d - w, (sn - s.una) / W + s.nxt / W - sn / W);
    hide Diff;
    assert TakenFor(s, sn) == sn + W * (-((sn - s.una) / W));
    Shifted(sn, -((sn - s.una) / W));
  }

  lemma Shifted(a: int, q: int)
    ensures U32(a + W * q) == U32(a)
  {
  }

  /** A segment in flight looks like sn exactly if it is the one that sn is taken for. */
  lemma LooksLike(cfg: Config, s: Snd, hist: seq<Frag>, sn: nat, x: nat)
    requires SndOk(cfg, s, hist) && SmallWindows(cfg) && s.una <= x < s.nxt
    ensures U32(x) == U32(sn) <==> x == TakenFor(s, sn)
  {
    InFlightExactly(cfg, s, hist, sn);
    InFlightExactly(cfg, s, hist, x);
    if U32(x) == U32(sn) {
      assert x - s.una == sn - s.una + W * (x / W - sn / W);
      Shifted(sn - s.una, x / W - sn / W);
      assert U32(x - s.una) == U32(sn - s.una);
    }
  }

  /** A selective acknowledgement acts on the code as on the protocol if and only if no other segment in snd_buf has
      the same truncated number. */
  lemma ParseAckExactly(cfg: Config, s: Snd, hist: seq<Frag>, sn: nat)
    requires SndOk(cfg, s, hist) && SmallWindows(cfg)
    ensures Shrink(ParseAck(true, TSnd(s), U32(sn))) == TSnd(Shrink(ParseAck(false, s, sn)))
            <==> forall i :: 0 <= i < |s.buf| && U32(s.buf[i].sn) == U32(sn) ==> s.buf[i].sn == sn
  {
    var x := TakenFor(s, sn);
    InFlightExactly(cfg, s, hist, sn);
    forall i | 0 <= i < |s.buf| ensures U32(s.buf[i].sn) == U32(sn) <==> s.buf[i].sn == x {
      LooksLike(cfg, s, hist, sn, s.buf[i].sn);
    }
    RemovesOne(s.buf, x);
    if x < s.nxt {
      SndClose(cfg, s, hist, x);
      RemoveSnT(s.buf, x);
    }
    hide TakenFor, U32, Sorted, RemoveSn;
  }

  lemma {:induction false} RemovesOne(buf: seq<Seg>, sn: nat)
    requires Sorted(buf)
    ensures InBuf(buf, sn) ==> |RemoveSn(false, buf, sn)| == |buf| - 1
    ensures !InBuf(buf, sn) ==> RemoveSn(false, buf, sn) == buf
    decreases |buf|
  {
    if buf != [] {
      RemovesOne(buf[1..], sn);
      assert buf == [buf[0]] + buf[1..];
      assert forall i :: 0 < i < |buf| ==> buf[i] == buf[1..][i - 1];
    }
  }

  /** Counting overtaken segments acts on the code as on the protocol if and only if the number is in flight, is taken
      for none in flight, or no segment before the one it is taken for was sent before the acknowledgement. */
  lemma ParseFastackExactly(cfg: Config, s: Snd, hist: seq<Frag>, sn: nat, ts: nat)
    requires SndOk(cfg, s, hist) && SmallWindows(cfg)
    ensures ParseFastack(true, TSnd(s), U32(sn), ts) == TSnd(ParseFastack(false, s, sn, ts))
            <==> s.una <= sn < s.nxt || TakenFor(s, sn) >= s.nxt
                 || forall i :: 0 <= i < |s.buf| && s.buf[i].sn < TakenFor(s, sn) ==> Diff(true, ts, s.buf[i].ts) < 0
  {
    var x := TakenFor(s, sn);
    InFlightExactly(cfg, s, hist, sn);
    CountsNone(s.buf, x, ts);
    if x < s.nxt {
      SndClose(cfg, s, hist, x);
      CountFastT(s.buf, x, ts);
      var r := CountFast(false, s.buf, x, ts);
      if r != s.buf {
        var i :| 0 <= i < |r| && r[i].fastack != s.buf[i].fastack;
        assert TSegs(r)[i].fastack != TSegs(s.buf)[i].fastack;
      }
    }
    hide TakenFor, U32, Sorted, CountFast, TSegs;
  }

  lemma {:induction false} CountsNone(buf: seq<Seg>, sn: nat, ts: nat)
    requires Sorted(buf)
    ensures var r := CountFast(false, buf, sn, ts);
            && |r| == |buf|
            && (r == buf || exists i :: 0 <= i < |r| && r[i].fastack != buf[i].fastack)
            && (r == buf <==> forall i :: 0 <= i < |buf| && buf[i].sn < sn ==> Diff(true, ts, buf[i].ts) < 0)
    decreases |buf|
  {
    if buf != [] && sn >= buf[0].sn {
      var r, rest := CountFast(false, buf, sn, ts), CountFast(false, buf[1..], sn, ts);
      CountsNone(buf[1..], sn, ts);
      assert buf == [buf[0]] + buf[1..] && r == [r[0]] + rest;
      assert r[0].fastack == buf[0].fastack <==> r[0] == buf[0];
      hide CountFast, Diff;
      assert forall i :: 0 < i < |buf| ==> buf[i] == buf[1..][i - 1] && r[i] == rest[i - 1];
    }
  }

  // ---------------------------------------------------------------- data

  /** The two window tests a data segment has to pass. */
  predicate Takes(wrap: bool, cfg: Config, r: Rcv, sn: nat) {
    InWindow(wrap, cfg, r, sn) && Diff(wrap, sn, r.nxt) >= 0
  }

  /** Exactly which numbers the code takes, and so exactly when it decides like the protocol: unless the number
      lies outside the window but some number of the same truncation inside. */
  lemma TakesExactly(cfg: Config, r: Rcv, sn: nat)
    requires cfg.rcvWnd <= HALF
    ensures Takes(true, cfg, TRcv(r), U32(sn)) <==> (sn - r.nxt) % W < cfg.rcvWnd
    ensures Takes(false, cfg, r, sn) <==> 0 <= sn - r.nxt < cfg.rcvWnd
    ensures (Takes(true, cfg, TRcv(r), U32(sn)) <==> Takes(false, cfg, r, sn))
            <==> (0 <= sn - r.nxt < cfg.rcvWnd || (sn - r.nxt) % W >= cfg.rcvWnd)
  {
    var d, q := (sn - r.nxt) % W, (sn - r.nxt) / W;
    AddExact(r.nxt, cfg.rcvWnd);
    DiffOf(U32(sn), U32(r.nxt + cfg.rcvWnd), d - cfg.rcvWnd, q + (r.nxt + cfg.rcvWnd) / W - sn / W);
    DiffOf(U32(sn), U32(r.nxt), d, q + r.nxt / W - sn / W);
    hide Diff;
    assert 0 <= sn - r.nxt < W ==> d == sn - r.nxt;
  }

  /** A copy of the very first segment that arrives after the numbers have wrapped once is taken for new data, where the
      protocol drops it. */
  lemma StaleSegmentIsTaken(cfg: Config, seg: Seg)
    requires cfg.rcvWnd == WND_RCV && seg.sn == 0
    ensures var r := Rcv([], [], W);
            && ParseData(false, cfg, r, seg) == r
            && ParseData(true, cfg, TRcv(r), TSeg(seg)) == Rcv([TSeg(seg)], [], 1)
  {
    var r := Rcv([], [], W);
    var t := TRcv(r);
    assert t == Rcv([], [], 0) && TSeg(seg).sn == 0;
    assert Add(true, 0, WND_RCV) == WND_RCV && Diff(true, 0, WND_RCV) == -WND_RCV && Diff(true, 0, 0) == 0;
    assert Insert(true, [], TSeg(seg)) == [TSeg(seg)];
    var t1 := Rcv([], [TSeg(seg)], 0);
    var t2 := Rcv([] + [TSeg(seg)], [TSeg(seg)][1..], Add(true, 0, 1));
    assert t2 == Rcv([TSeg(seg)], [], 1);
    assert Promote(true, cfg, t1) == Promote(true, cfg, t2) == t2;
  }
}
