/** The code's 32-bit serial numbers against the unbounded ones: as long as what arrives is recent,
    every operation of the code does exactly what the protocol without wrap-around does. */
module KcpWrap {
  import opened KcpNum
  import opened KcpState
  import opened KcpInvariant
  import opened KcpMessages
  import opened KcpProtocol

  const HALF := 0x8000_0000
  const QUARTER := 0x4000_0000

  /** _itimediff on truncated numbers is the true difference exactly when that fits 31 bits. */
  lemma DiffExact(a: int, b: int)
    ensures Diff(true, U32(a), U32(b)) == a - b <==> -HALF <= a - b < HALF
  {
    var d := (U32(a) - U32(b)) % W;
    assert (U32(a) - U32(b)) - (a - b) == W * (b / W - a / W);
    assert d == (a - b) % W;
  }

  /** Two numbers this close have the same truncation only if they are the same. */
  lemma EqualExact(a: int, b: int)
    requires -HALF <= a - b < HALF
    ensures U32(a) == U32(b) <==> a == b
  {
  }

  lemma AddExact(a: nat, n: nat)
    ensures Add(true, U32(a), n) == U32(a + n)
  {
  }

  // ---------------------------------------------------------------- truncation

  function TSeg(seg: Seg): Seg { seg.(sn := U32(seg.sn), una := U32(seg.una)) }

  function TSegs(segs: seq<Seg>): (t: seq<Seg>)
    ensures |t| == |segs|
  {
    seq(|segs|, i requires 0 <= i < |segs| => TSeg(segs[i]))
  }

  function TPkt(p: Pkt): Pkt { p.(sn := U32(p.sn), una := U32(p.una)) }

  function TPkts(ps: seq<Pkt>): (t: seq<Pkt>)
    ensures |t| == |ps|
  {
    seq(|ps|, i requires 0 <= i < |ps| => TPkt(ps[i]))
  }

  function TAcks(acks: seq<Ack>): (t: seq<Ack>)
    ensures |t| == |acks|
  {
    seq(|acks|, i requires 0 <= i < |acks| => Ack(U32(acks[i].sn), acks[i].ts))
  }

  function TSnd(s: Snd): Snd { Snd(TSegs(s.queue), TSegs(s.buf), U32(s.una), U32(s.nxt)) }

  function TRcv(r: Rcv): Rcv { Rcv(TSegs(r.queue), TSegs(r.buf), U32(r.nxt)) }

  function TKcb(k: Kcb): Kcb { k.(snd := TSnd(k.snd), rcv := TRcv(k.rcv), acks := TAcks(k.acks)) }

  /** All numbers in the buffer are close to x. */
  ghost predicate Close(buf: seq<Seg>, x: int) {
    forall i :: 0 <= i < |buf| ==> -HALF <= x - buf[i].sn < HALF
  }

  lemma TSegsJoin(a: seq<Seg>, b: seq<Seg>)
    ensures TSegs(a + b) == TSegs(a) + TSegs(b)
  {
  }

  lemma TSegsRest(a: seq<Seg>)
    requires a != []
    ensures TSegs(a)[0] == TSeg(a[0]) && TSegs(a)[1..] == TSegs(a[1..])
    ensures TSegs(a)[|a| - 1] == TSeg(a[|a| - 1]) && TSegs(a)[..|a| - 1] == TSegs(a[..|a| - 1])
  {
  }

  lemma {:induction false} DropBelowT(buf: seq<Seg>, una: nat)
    requires Close(buf, una)
    ensures DropBelow(true, TSegs(buf), U32(una)) == TSegs(DropBelow(false, buf, una))
    decreases |buf|
  {
    if buf != [] {
      DiffExact(una, buf[0].sn);
      TSegsRest(buf);
      DropBelowT(buf[1..], una);
      hide TSegs, Diff;
    }
  }

  lemma {:induction false} RemoveSnT(buf: seq<Seg>, sn: nat)
    requires Close(buf, sn)
    ensures RemoveSn(true, TSegs(buf), U32(sn)) == TSegs(RemoveSn(false, buf, sn))
    decreases |buf|
  {
    if buf == [] {
      assert TSegs([]) == [];
    } else {
      DiffExact(sn, buf[0].sn);
      EqualExact(sn, buf[0].sn);
      TSegsRest(buf);
      RemoveSnT(buf[1..], sn);
      TSegsJoin([buf[0]], RemoveSn(false, buf[1..], sn));
      assert TSegs([buf[0]]) == [TSeg(buf[0])];
      hide TSegs, U32;
    }
  }

  lemma {:induction false} CountFastT(buf: seq<Seg>, sn: nat, ts: nat)
    requires Close(buf, sn)
    ensures CountFast(true, TSegs(buf), U32(sn), ts) == TSegs(CountFast(false, buf, sn, ts))
    decreases |buf|
  {
    if buf != [] {
      DiffExact(sn, buf[0].sn);
      EqualExact(sn, buf[0].sn);
      TSegsRest(buf);
      CountFastT(buf[1..], sn, ts);
      var rest := CountFast(false, buf[1..], sn, ts);
      var seg := if sn != buf[0].sn && Diff(true, ts, buf[0].ts) >= 0
                 then buf[0].(fastack := U32(buf[0].fastack + 1)) else buf[0];
      TSegsJoin([seg], rest);
      assert TSegs([seg]) == [TSeg(seg)];
      hide TSegs, Diff;
    }
  }

  lemma {:induction false} InsertT(buf: seq<Seg>, seg: Seg)
    requires Close(buf, seg.sn)
    ensures Insert(true, TSegs(buf), TSeg(seg)) == TSegs(Insert(false, buf, seg))
    decreases |buf|
  {
    if buf == [] {
      assert TSegs([seg]) == [TSeg(seg)];
    } else {
      var n := |buf| - 1;
      DiffExact(seg.sn, buf[n].sn);
      EqualExact(seg.sn, buf[n].sn);
      TSegsRest(buf);
      InsertT(buf[..n], seg);
      TSegsJoin(buf, [seg]);
      TSegsJoin(Insert(false, buf[..n], seg), [buf[n]]);
      assert TSegs([seg]) == [TSeg(seg)] && TSegs([buf[n]]) == [TSeg(buf[n])];
      hide TSegs, U32;
    }
  }

  lemma {:induction false} PromoteT(cfg: Config, r: Rcv)
    requires Sorted(r.buf) && Within(r.buf, r.nxt, r.nxt + QUARTER)
    ensures Promote(true, cfg, TRcv(r)) == TRcv(Promote(false, cfg, r))
    decreases |r.buf|
  {
    if r.buf != [] {
      EqualExact(r.buf[0].sn, r.nxt);
      TSegsRest(r.buf);
      AddExact(r.nxt, 1);
      if r.buf[0].sn == r.nxt && |r.queue| < cfg.rcvWnd {
        var r1 := PromoteOne(r);
        TSegsJoin(r.queue, [r.buf[0]]);
        assert TSegs([r.buf[0]]) == [TSeg(r.buf[0])];
        forall i | 0 <= i < |r1.buf| ensures r1.nxt <= r1.buf[i].sn < r1.nxt + QUARTER {
          assert r1.buf[i] == r.buf[i + 1];
        }
        PromoteT(cfg, r1);
      }
      hide TSegs, U32;
    }
  }

  // ---------------------------------------------------------------- what must be recent

  /** Two windows together are at most half the number space. */
  predicate SmallWindows(cfg: Config) {
    cfg.sndWnd <= QUARTER && cfg.rcvWnd <= QUARTER
  }

  /** How late a segment may be when it arrives: 2^31 numbers, less what the windows cover. */
  predicate RecentPkt(k: Kcb, p: Pkt) {
    && k.snd.nxt - p.una <= HALF
    && (p.cmd == CMD_ACK ==> k.snd.nxt - p.sn <= HALF)
    && (p.cmd == CMD_PUSH ==> k.rcv.nxt + 2 * k.cfg.rcvWnd - p.sn <= HALF)
  }

  /** What the truth of what is on the wire says of the other side: nothing is acknowledged before it is
      numbered, and the peer has numbered little that this endpoint does not have. */
  ghost predicate Ahead(k: Kcb, held: iset<nat>, h2: seq<Frag>) {
    (forall sn :: sn in held ==> sn < k.snd.nxt) && |h2| <= k.rcv.nxt + HALF
  }

  /** How far an endpoint can move while one datagram is read. */
  ghost predicate Drift(k0: Kcb, k: Kcb) {
    && k.cfg == k0.cfg && SmallWindows(k.cfg) && k.snd.nxt == k0.snd.nxt
    && k0.rcv.nxt <= k.rcv.nxt <= k0.rcv.nxt + k.cfg.rcvWnd
  }

  function TNewest(n: Newest): Newest {
    if n.NoAck? then n else Newest(U32(n.sn), n.ts)
  }

  predicate NewestNear(k0: Kcb, n: Newest) {
    n.Newest? ==> n.sn < k0.snd.nxt <= n.sn + HALF
  }

  lemma SndClose(cfg: Config, s: Snd, hist: seq<Frag>, x: int)
    requires SndOk(cfg, s, hist) && SmallWindows(cfg) && x <= s.nxt <= x + HALF
    ensures Close(s.buf, x)
  {
  }

  /** A cumulative acknowledgement of what was numbered, at most 2^31 numbers late. */
  lemma ParseUnaT(cfg: Config, s: Snd, hist: seq<Frag>, una: nat)
    requires SndOk(cfg, s, hist) && SmallWindows(cfg) && una <= s.nxt <= una + HALF
    ensures Shrink(ParseUna(true, TSnd(s), U32(una))) == TSnd(Shrink(ParseUna(false, s, una)))
  {
    SndClose(cfg, s, hist, una);
    DropBelowT(s.buf, una);
    hide TSegs, DropBelow, Shrink;
  }

  lemma InFlightT(cfg: Config, s: Snd, hist: seq<Frag>, sn: nat)
    requires SndOk(cfg, s, hist) && SmallWindows(cfg) && sn < s.nxt <= sn + HALF
    ensures InFlight(true, TSnd(s), U32(sn)) == InFlight(false, s, sn)
  {
    DiffExact(sn, s.una);
    DiffExact(sn, s.nxt);
    assert Diff(false, sn, s.una) == sn - s.una && Diff(false, sn, s.nxt) == sn - s.nxt;
    hide Diff, U32;
  }

  /** A selective acknowledgement of what was numbered, at most 2^31 numbers late. */
  lemma ParseAckT(cfg: Config, s: Snd, hist: seq<Frag>, sn: nat)
    requires SndOk(cfg, s, hist) && SmallWindows(cfg) && sn < s.nxt <= sn + HALF
    ensures Shrink(ParseAck(true, TSnd(s), U32(sn))) == TSnd(Shrink(ParseAck(false, s, sn)))
  {
    SndClose(cfg, s, hist, sn);
    InFlightT(cfg, s, hist, sn);
    RemoveSnT(s.buf, sn);
    hide TSegs, RemoveSn, Shrink, InFlight;
  }

  lemma ParseFastackT(cfg: Config, s: Snd, hist: seq<Frag>, sn: nat, ts: nat)
    requires SndOk(cfg, s, hist) && SmallWindows(cfg) && sn < s.nxt <= sn + HALF
    ensures ParseFastack(true, TSnd(s), U32(sn), ts) == TSnd(ParseFastack(false, s, sn, ts))
  {
    SndClose(cfg, s, hist, sn);
    InFlightT(cfg, s, hist, sn);
    CountFastT(s.buf, sn, ts);
    hide TSegs, CountFast, InFlight;
  }

  lemma WindowT(cfg: Config, r: Rcv, sn: nat)
    requires r.nxt + cfg.rcvWnd - HALF <= sn < r.nxt + HALF
    ensures InWindow(true, cfg, TRcv(r), U32(sn)) == InWindow(false, cfg, r, sn)
    ensures (Diff(true, U32(sn), U32(r.nxt)) >= 0) == (Diff(false, sn, r.nxt) >= 0)
  {
    AddExact(r.nxt, cfg.rcvWnd);
    DiffExact(sn, r.nxt + cfg.rcvWnd);
    DiffExact(sn, r.nxt);
  }

  /** A data segment at most 2^31 numbers behind the end of the window. */
  lemma ParseDataT(cfg: Config, r: Rcv, hist: seq<Frag>, consumed: nat, seg: Seg)
    requires RcvOk(cfg, r, hist, consumed) && SmallWindows(cfg) && r.nxt + cfg.rcvWnd - HALF <= seg.sn < r.nxt + HALF
    requires seg.sn < |hist| && FragOf(seg) == hist[seg.sn]
    ensures ParseData(true, cfg, TRcv(r), TSeg(seg)) == TRcv(ParseData(false, cfg, r, seg))
  {
    WindowT(cfg, r, seg.sn);
    if r.nxt <= seg.sn < r.nxt + cfg.rcvWnd {
      InsertOk(r.buf, seg, hist, r.nxt, r.nxt + cfg.rcvWnd);
      InsertT(r.buf, seg);
      PromoteT(cfg, r.(buf := Insert(false, r.buf, seg)));
      hide Insert, TSegs, Promote, Sorted, Matches;
    }
  }

  lemma NewestT(k0: Kcb, n: Newest, sn: nat, ts: nat)
    requires NewestNear(k0, n) && sn < k0.snd.nxt <= sn + HALF
    ensures NewestAck(true, TNewest(n), U32(sn), ts) == TNewest(NewestAck(false, n, sn, ts))
    ensures NewestNear(k0, NewestAck(false, n, sn, ts))
  {
    if n.Newest? { DiffExact(sn, n.sn); }
    hide Diff, U32;
  }

  /** One arriving segment. */
  lemma InputPktT(k0: Kcb, k: Kcb, n: Newest, p: Pkt, h1: seq<Frag>, held: iset<nat>, h2: seq<Frag>, consumed: nat)
    requires EndOk(k, h1, held, h2, consumed) && PktOk(p, held, h2) && Ahead(k0, held, h2)
    requires Drift(k0, k) && RecentPkt(k0, p) && NewestNear(k0, n)
    ensures var (k', n') := InputPkt(false, k, n, p);
            InputPkt(true, TKcb(k), TNewest(n), TPkt(p)) == (TKcb(k'), TNewest(n')) && NewestNear(k0, n')
  {
    assert p.una <= k.snd.nxt by { if p.una > 0 { assert p.una - 1 in held; } }
    ParseUnaT(k.cfg, k.snd, h1, p.una);
    ParseUnaOk(k.cfg, k.snd, h1, held, p.una);
    var s1 := Shrink(ParseUna(false, k.snd, p.una));
    if p.cmd == CMD_ACK {
      ParseAckT(k.cfg, s1, h1, p.sn);
      NewestT(k0, n, p.sn, p.ts);
    } else if p.cmd == CMD_PUSH {
      WindowT(k.cfg, k.rcv, p.sn);
      ParseDataT(k.cfg, k.rcv, h2, consumed, SegOf(p));
      TAcksMore(k.acks, Ack(p.sn, p.ts));
    }
    hide SndOk, Kept, RcvOk, Settled, Held, ParseUna, ParseAck, ParseData, Shrink, UpdateAck, NewestAck, TSegs, TAcks,
      InWindow, Diff, U32, AcksHeld;
  }

  lemma TAcksMore(acks: seq<Ack>, a: Ack)
    ensures TAcks(acks + [a]) == TAcks(acks) + [Ack(U32(a.sn), a.ts)]
  {
  }

  /** A whole datagram, segment after segment. */
  lemma {:induction false} InputPktsT(k0: Kcb, k: Kcb, n: Newest, ps: seq<Pkt>, h1: seq<Frag>, held: iset<nat>,
                                      h2: seq<Frag>, consumed: nat)
    requires EndOk(k, h1, held, h2, consumed) && forall i :: 0 <= i < |ps| ==> PktOk(ps[i], held, h2)
    requires Drift(k0, k) && NewestNear(k0, n) && consumed <= k0.rcv.nxt && Ahead(k0, held, h2)
    requires forall i :: 0 <= i < |ps| ==> RecentPkt(k0, ps[i])
    ensures var (k', n') := InputPkts(false, k, n, ps);
            && InputPkts(true, TKcb(k), TNewest(n), TPkts(ps)) == (TKcb(k'), TNewest(n'))
            && Drift(k0, k') && NewestNear(k0, n')
    decreases |ps|
  {
    if ps != [] {
      InputPktT(k0, k, n, ps[0], h1, held, h2, consumed);
      InputPktOk(k, n, ps[0], h1, held, h2, consumed);
      var (k1, n1) := InputPkt(false, k, n, ps[0]);
      assert TPkts(ps)[0] == TPkt(ps[0]) && TPkts(ps)[1..] == TPkts(ps[1..]);
      InputPktsT(k0, k1, n1, ps[1..], h1, held, h2, consumed);
      hide EndOk, PktOk, Drift, InputPkt, RecentPkt, NewestNear, TKcb, TNewest, TPkts, TPkt, Later, Ahead;
    }
  }

  /** ikcp_input: the 32-bit code follows the unbounded protocol on every recent datagram. */
  lemma InputT(k: Kcb, ps: seq<Pkt>, wellFormed: bool, h1: seq<Frag>, held: iset<nat>, h2: seq<Frag>, consumed: nat)
    requires SmallWindows(k.cfg) && Ahead(k, held, h2)
    requires EndOk(k, h1, held, h2, consumed)
             && forall i :: 0 <= i < |ps| ==> PktOk(ps[i], held, h2) && RecentPkt(k, ps[i])
    ensures Input(true, TKcb(k), TPkts(ps), wellFormed) == TKcb(Input(false, k, ps, wellFormed))
  {
    InputPktsT(k, k, NoAck, ps, h1, held, h2, consumed);
    InputPktsOk(k, NoAck, ps, h1, held, h2, consumed);
    var (k1, n) := InputPkts(false, k, NoAck, ps);
    if n.Newest? {
      ParseFastackT(k1.cfg, k1.snd, h1, n.sn, n.ts);
      ParseFastackOk(k1.cfg, k1.snd, h1, held, n.sn, n.ts);
    }
    DiffExact(k1.snd.una, k.snd.una);
    hide SndOk, Kept, RcvOk, Settled, AcksHeld, Held, ParseFastack, Grow, InputPkts, TSegs, TAcks, TPkts, U32, I32,
      PktOk, RecentPkt;
  }

  // ---------------------------------------------------------------- sending

  lemma {:induction false} FragmentsT(stream: bool, mss: pos, count: nat, data: bytes)
    ensures TSegs(Fragments(stream, mss, count, data)) == Fragments(stream, mss, count, data)
    decreases count
  {
    if count > 0 {
      var size := if |data| > mss then mss else |data|;
      var first := Fresh(if stream then 0 else count - 1, data[..size]);
      FragmentsT(stream, mss, count - 1, data[size..]);
      TSegsJoin([first], Fragments(stream, mss, count - 1, data[size..]));
      assert TSegs([first]) == [first];
    }
  }

  /** ikcp_send gives no numbers. */
  lemma SendT(cfg: Config, queue: seq<Seg>, data: bytes)
    ensures var (q, ret) := Send(cfg, queue, data); Send(cfg, TSegs(queue), data) == (TSegs(q), ret)
  {
    AppendT(cfg, queue, data);
    var (q, sent) := Append(cfg, queue, data);
    var rest := data[sent..];
    var count := FragCount(cfg.mss, |rest|);
    FragmentsT(cfg.stream, cfg.mss, count, rest);
    TSegsJoin(q, Fragments(cfg.stream, cfg.mss, count, rest));
    hide TSegs, Append, Fragments, FragCount;
  }

  lemma AppendT(cfg: Config, queue: seq<Seg>, data: bytes)
    ensures var (q, sent) := Append(cfg, queue, data); Append(cfg, TSegs(queue), data) == (TSegs(q), sent)
  {
    if queue != [] {
      TSegsRest(queue);
      var n := |queue| - 1;
      var last := queue[n];
      var capacity := cfg.mss - |last.data|;
      var extend := if |data| < capacity then |data| else capacity;
      if 0 < capacity {
        var grown := Fresh(0, last.data + data[..extend]);
        TSegsJoin(queue[..n], [grown]);
        assert TSegs([grown]) == [grown];
      }
      hide TSegs;
    }
  }

  lemma {:induction false} AdmitT(k: Kcb, s: Snd, hist: seq<Frag>, held: iset<nat>, cwnd: nat)
    requires SndOk(k.cfg, s, hist) && Kept(s, held) && SmallWindows(k.cfg) && cwnd <= k.cfg.sndWnd
    ensures Admit(true, TKcb(k), TSnd(s), cwnd) == TSnd(Admit(false, k, s, cwnd))
    decreases |s.queue|
  {
    AddExact(s.una, cwnd);
    DiffExact(s.nxt, s.una + cwnd);
    if s.queue != [] && s.nxt < s.una + cwnd {
      TSegsRest(s.queue);
      AddExact(s.nxt, 1);
      var seg := Numbered(k, s.queue[0], s.nxt);
      TSegsJoin(s.buf, [seg]);
      assert TSegs([seg]) == [TSeg(seg)];
      assert TSeg(seg) == Numbered(TKcb(k), TSeg(s.queue[0]), U32(s.nxt));
      AdmitOneOk(k.cfg, k, s, hist, held);
      AdmitT(k, AdmitOne(k, s), hist + [FragOf(s.queue[0])], held, cwnd);
      hide TSegs, SndOk, Kept, U32, TKcb, Numbered;
    }
  }

  lemma FlushSegT(k: Kcb, seg: Seg)
    ensures WhySend(TKcb(k), TSeg(seg)) == WhySend(k, seg)
    ensures FlushSeg(TKcb(k), TSeg(seg)) == TSeg(FlushSeg(k, seg))
    ensures PktOf(TSeg(FlushSeg(k, seg))) == TPkt(PktOf(FlushSeg(k, seg)))
  {
  }

  function TPass(p: Pass): Pass { p.(buf := TSegs(p.buf), pkts := TPkts(p.pkts)) }

  lemma TPktsJoin(a: seq<Pkt>, b: seq<Pkt>)
    ensures TPkts(a + b) == TPkts(a) + TPkts(b)
  {
  }

  lemma {:induction false} FlushBufT(k: Kcb, buf: seq<Seg>)
    ensures FlushBuf(TKcb(k), TSegs(buf)) == TPass(FlushBuf(k, buf))
    decreases |buf|
  {
    if buf == [] {
      assert TPkts([]) == [] && TSegs([]) == [];
    } else {
      var n := |buf| - 1;
      TSegsRest(buf);
      FlushBufT(k, buf[..n]);
      FlushSegT(k, buf[n]);
      var p, seg := FlushBuf(k, buf[..n]), FlushSeg(k, buf[n]);
      TSegsJoin(p.buf, [seg]);
      TPktsJoin(p.pkts, [PktOf(seg)]);
      assert TSegs([seg]) == [TSeg(seg)] && TPkts([PktOf(seg)]) == [TPkt(PktOf(seg))];
      assert FlushSeg(TKcb(k), TSeg(buf[n])).xmit == seg.xmit;
      hide TSegs, TPkts, TKcb, FlushSeg, WhySend, TSeg, PktOf, TPkt;
    }
  }

  lemma ControlT(k: Kcb, cc: Cong)
    ensures AckPkts(TKcb(k)) + ProbePkts(TKcb(k), cc) == TPkts(AckPkts(k) + ProbePkts(k, cc))
  {
  }

  /** ikcp_flush: the same segments, truncated. */
  lemma FlushT(k: Kcb, hist: seq<Frag>, held: iset<nat>)
    requires SndOk(k.cfg, k.snd, hist) && Kept(k.snd, held) && SmallWindows(k.cfg)
    ensures var (k', pkts) := Flush(false, k); Flush(true, TKcb(k)) == (TKcb(k'), TPkts(pkts))
  {
    if k.clk.updated {
      var cc := Probe(k.cc, k.clk.current);
      var w := Window(k.cfg, cc);
      AdmitT(k, k.snd, hist, held, w);
      AdmitOk(k.cfg, k, k.snd, hist, held, w);
      var s := Admit(false, k, k.snd, w);
      FlushBufT(k, s.buf);
      FlushEndT(k, cc, s, FlushBuf(k, s.buf));
      hide TSegs, TPkts, TAcks, Admit, FlushBuf, FlushEnd, Probe, Window, SndOk, Kept, U32;
    } else {
      assert TPkts([]) == [];
    }
  }

  lemma FlushEndT(k: Kcb, cc: Cong, s: Snd, pass: Pass)
    requires SmallWindows(k.cfg) && s.una <= s.nxt <= s.una + k.cfg.sndWnd
    ensures var (k', pkts) := FlushEnd(false, k, cc, s, pass);
            FlushEnd(true, TKcb(k), cc, TSnd(s), TPass(pass)) == (TKcb(k'), TPkts(pkts))
  {
    ControlT(k, cc);
    InflightT(k.cfg, s);
    TPktsJoin(AckPkts(k) + ProbePkts(k, cc), pass.pkts);
    assert TAcks([]) == [];
    hide TSegs, TPkts, TAcks, AckPkts, ProbePkts, Backoff, U32;
  }

  lemma InflightT(cfg: Config, s: Snd)
    requires SmallWindows(cfg) && s.una <= s.nxt <= s.una + cfg.sndWnd
    ensures U32(U32(s.nxt) - U32(s.una)) == s.nxt - s.una
  {
  }

  // ---------------------------------------------------------------- reading

  lemma {:induction false} MergeT(q: seq<Seg>)
    ensures Merge(TSegs(q)) == Merge(q) && MergeCount(TSegs(q)) == MergeCount(q)
    decreases |q|
  {
    if q != [] {
      TSegsRest(q);
      MergeT(q[1..]);
      hide TSegs;
    }
  }

  lemma RecvT(cfg: Config, r: Rcv, hist: seq<Frag>, consumed: nat, len: int)
    requires RcvOk(cfg, r, hist, consumed) && SmallWindows(cfg)
    ensures var (r', tell, ret, msg) := Recv(false, cfg, r, len);
            Recv(true, cfg, TRcv(r), len) == (TRcv(r'), tell, ret, msg)
  {
    MergeT(r.queue);
    assert r.queue != [] ==> TSegs(r.queue)[0].frg == r.queue[0].frg;
    var n := if len < 0 then 0 else MergeCount(r.queue);
    ReadT(cfg, r, hist, consumed, n);
    assert r.queue[0..] == r.queue;
    hide Merge, MergeCount, Promote, RcvOk, TSegs;
  }

  lemma {:induction false} ReadT(cfg: Config, r: Rcv, hist: seq<Frag>, consumed: nat, n: nat)
    requires RcvOk(cfg, r, hist, consumed) && SmallWindows(cfg) && n <= |r.queue|
    ensures var r1 := r.(queue := r.queue[n..]);
            TRcv(r).(queue := TRcv(r).queue[n..]) == TRcv(r1)
                && Promote(true, cfg, TRcv(r1)) == TRcv(Promote(false, cfg, r1))
  {
    assert TSegs(r.queue)[n..] == TSegs(r.queue[n..]);
    PromoteT(cfg, r.(queue := r.queue[n..]));
  }

  // ---------------------------------------------------------------- whole runs of the code

  /** What a call does to its endpoint, and what its caller sees. */
  datatype Out = Out(k: Kcb, pkts: seq<Pkt>, ret: int, msg: bytes)

  function Apply(wrap: bool, k: Kcb, c: Call): Out
  {
    match c
    case DoSend(data) =>
      var (q, ret) := Send(k.cfg, k.snd.queue, data);
      Out(k.(snd := k.snd.(queue := q)), [], ret, [])
    case DoRecv(len) =>
      var (r, tell, ret, msg) := Recv(wrap, k.cfg, k.rcv, len);
      Out(k.(rcv := r, cc := k.cc.(askTell := k.cc.askTell || tell)), [], ret, msg)
    case DoInput(pkts, wellFormed) => Out(Input(wrap, k, pkts, wellFormed), [], 0, [])
    case DoUpdate(now) => var (k', pkts) := Update(wrap, k, now); Out(k', pkts, 0, [])
    case DoFlush => var (k', pkts) := Flush(wrap, k); Out(k', pkts, 0, [])
  }

  function TOut(o: Out): Out { o.(k := TKcb(o.k), pkts := TPkts(o.pkts)) }

  function TCall(c: Call): Call {
    if c.DoInput? then c.(pkts := TPkts(c.pkts)) else c
  }

  predicate RecentCall(k: Kcb, c: Call) {
    c.DoInput? ==> forall i :: 0 <= i < |c.pkts| ==> RecentPkt(k, c.pkts[i])
  }

  /** In a reachable state neither side is far ahead of the other. */
  lemma NoneAhead(s: Sys)
    requires Inv(s) && SmallWindows(s.a.cfg) && SmallWindows(s.b.cfg)
    ensures Ahead(s.a, Held(s.b.rcv), s.baDir.hist)
  {
    var una := s.b.snd.una;
    if una > 0 {
      assert !InBuf(s.b.snd.buf, una - 1);
      assert una - 1 in Held(s.a.rcv);
    }
    hide Said, Settled, WireData, WireAcks, AcksHeld;
  }

  /** In a reachable state, a call on the truncated endpoint is the truncation of the call. */
  lemma ApplyT(s: Sys, c: Call)
    requires Inv(s) && Allowed(s, c) && SmallWindows(s.a.cfg) && SmallWindows(s.b.cfg) && RecentCall(s.a, c)
    ensures Apply(true, TKcb(s.a), TCall(c)) == TOut(Apply(false, s.a, c))
    ensures StepA(s, c).a == Apply(false, s.a, c).k
  {
    var held := Held(s.b.rcv);
    assert TPkts([]) == [];
    match c
    case DoSend(data) =>
      SendT(s.a.cfg, s.a.snd.queue, data);
      hide Send, TSegs, TPkts, Inv;
    case DoRecv(len) =>
      RecvT(s.a.cfg, s.a.rcv, s.baDir.hist, s.baDir.consumed, len);
      hide Recv, TSegs, TPkts, Inv;
    case DoInput(pkts, wellFormed) =>
      ApplyInputT(s, pkts, wellFormed);
      hide Input, TKcb, TPkts, Inv;
    case DoUpdate(now) =>
      var (clk, due) := Tick(s.a.cfg, s.a.clk, now);
      FlushT(s.a.(clk := clk), s.abDir.hist, held);
      hide Flush, TSegs, TPkts, TAcks, Inv;
    case DoFlush =>
      FlushT(s.a, s.abDir.hist, held);
      hide Flush, TKcb, TPkts, Inv;
  }

  lemma ApplyInputT(s: Sys, pkts: seq<Pkt>, wellFormed: bool)
    requires Inv(s) && Allowed(s, DoInput(pkts, wellFormed)) && SmallWindows(s.a.cfg) && SmallWindows(s.b.cfg)
    requires forall i :: 0 <= i < |pkts| ==> RecentPkt(s.a, pkts[i])
    ensures Input(true, TKcb(s.a), TPkts(pkts), wellFormed) == TKcb(Input(false, s.a, pkts, wellFormed))
  {
    var held := Held(s.b.rcv);
    NoneAhead(s);
    forall i | 0 <= i < |pkts| ensures PktOk(pkts[i], held, s.baDir.hist) {
      assert pkts[i] in s.ba;
    }
    hide Ahead, RecentPkt, Held, SndOk, RcvOk, Said;
    InputT(s.a, pkts, wellFormed, s.abDir.hist, held, s.baDir.hist, s.baDir.consumed);
  }

  /** The pair of 32-bit endpoints making the same calls, with truncated datagrams. */
  function CodeNext(code: (Kcb, Kcb), e: Event): ((Kcb, Kcb), Out)
  {
    match e
    case AtA(c) => var o := Apply(true, code.0, TCall(c)); ((o.k, code.1), o)
    case AtB(c) => var o := Apply(true, code.1, TCall(c)); ((code.0, o.k), o)
  }

  ghost predicate RecentEvent(s: Sys, e: Event) {
    match e
    case AtA(c) => RecentCall(s.a, c)
    case AtB(c) => RecentCall(s.b, c)
  }

  function SpecOut(s: Sys, e: Event): Out
  {
    match e
    case AtA(c) => Apply(false, s.a, c)
    case AtB(c) => Apply(false, s.b, c)
  }

  ghost predicate AllRecent(run: seq<Sys>, events: seq<Event>) {
    && |run| == |events| + 1 && SmallWindows(run[0].a.cfg) && SmallWindows(run[0].b.cfg)
    && forall j :: 0 <= j < |events| ==> RecentEvent(run[j], events[j])
  }

  ghost predicate IsCodeRun(code: seq<(Kcb, Kcb)>, events: seq<Event>) {
    && |code| == |events| + 1
    && forall j :: 0 <= j < |events| ==> code[j + 1] == CodeNext(code[j], events[j]).0
  }

  /** Over any run in which nothing arrives 2^31 numbers late, less the windows, however often the numbers wrap, the
      code's endpoints are the truncation of the protocol's, and every call sends and returns the same. */
  lemma CodeFollowsProtocol(run: seq<Sys>, events: seq<Event>, code: seq<(Kcb, Kcb)>, i: nat)
    requires IsRun(run, events) && AllRecent(run, events) && IsCodeRun(code, events) && i < |run|
    requires code[0] == (TKcb(run[0].a), TKcb(run[0].b))
    ensures code[i] == (TKcb(run[i].a), TKcb(run[i].b))
    ensures i < |events| ==> CodeNext(code[i], events[i]).1 == TOut(SpecOut(run[i], events[i]))
  {
    CodeState(run, events, code, i);
    if i < |events| {
      RunInv(run, events, i);
      CodeStep(run[i], events[i]);
    }
    hide Inv, Next, CodeNext, MayHappen, Init, TKcb, SpecOut;
  }

  lemma {:induction false} CodeState(run: seq<Sys>, events: seq<Event>, code: seq<(Kcb, Kcb)>, i: nat)
    requires IsRun(run, events) && AllRecent(run, events) && IsCodeRun(code, events) && i < |run|
    requires code[0] == (TKcb(run[0].a), TKcb(run[0].b))
    ensures code[i] == (TKcb(run[i].a), TKcb(run[i].b))
    ensures SmallWindows(run[i].a.cfg) && SmallWindows(run[i].b.cfg)
    decreases i
  {
    if i > 0 {
      var j := i - 1;
      assert RecentEvent(run[j], events[j]) && code[j + 1] == CodeNext(code[j], events[j]).0;
      assert MayHappen(run[j], events[j]) && run[j + 1] == Next(run[j], events[j]);
      hide AllRecent, IsCodeRun, IsRun, Inv, Next, CodeNext, MayHappen, TKcb, RecentEvent;
      CodeState(run, events, code, j);
      RunInv(run, events, j);
      CodeStep(run[j], events[j]);
    }
  }

  lemma CodeStep(s: Sys, e: Event)
    requires Inv(s) && MayHappen(s, e) && RecentEvent(s, e)
    requires SmallWindows(s.a.cfg) && SmallWindows(s.b.cfg)
    ensures var s' := Next(s, e);
            && CodeNext((TKcb(s.a), TKcb(s.b)), e) == ((TKcb(s'.a), TKcb(s'.b)), TOut(SpecOut(s, e)))
            && s'.a.cfg == s.a.cfg && s'.b.cfg == s.b.cfg
  {
    match e
    case AtA(c) =>
      ApplyT(s, c);
      StepFrame(s, c);
      hide Apply, Inv, StepA;
    case AtB(c) =>
      ApplyT(Swap(s), c);
      StepFrame(Swap(s), c);
      hide Apply, Inv, StepA;
  }

  lemma StepFrame(s: Sys, c: Call)
    ensures StepA(s, c).b == s.b && StepA(s, c).a.cfg == s.a.cfg
  {
    hide Send, Recv;
  }
}
