/** What an arriving segment changes, and what the clock does. */
module KcpArrival {
  import opened KcpNum
  import opened KcpState
  import opened KcpInvariant
  import opened KcpResend
  import opened KcpCheck

  // ---------------------------------------------------------------- acknowledgements

  lemma {:induction false} DroppedExactly(buf: seq<Seg>, una: nat)
    requires Sorted(buf)
    ensures forall seg :: seg in DropBelow(false, buf, una) <==> seg in buf && seg.sn >= una
    ensures Sorted(DropBelow(false, buf, una))
    decreases |buf|
  {
    if buf != [] {
      assert buf == [buf[0]] + buf[1..];
      DroppedExactly(buf[1..], una);
    }
  }

  lemma {:induction false} RemovedExactly(buf: seq<Seg>, sn: nat)
    requires Sorted(buf)
    ensures forall seg :: seg in RemoveSn(false, buf, sn) <==> seg in buf && seg.sn != sn
    ensures Sorted(RemoveSn(false, buf, sn))
  {
    var k := RemoveSnKeeps(buf, sn);
    if k < |buf| { OneOut(buf, k); } else { NotThere(buf, sn); }
    hide RemoveSn, Sorted;
  }

  lemma OneOut(buf: seq<Seg>, k: nat)
    requires Sorted(buf) && k < |buf|
    ensures var r := buf[..k] + buf[k + 1..];
            Sorted(r) && forall seg :: seg in r <==> seg in buf && seg.sn != buf[k].sn
  {
    var r := buf[..k] + buf[k + 1..];
    assert forall i :: 0 <= i < |r| ==> r[i] == buf[if i < k then i else i + 1];
    forall seg | seg in buf && seg.sn != buf[k].sn ensures seg in r {
      var i :| 0 <= i < |buf| && buf[i] == seg;
      assert r[if i < k then i else i - 1] == seg;
    }
  }

  lemma {:induction false} NotThere(buf: seq<Seg>, sn: nat)
    requires Sorted(buf) && RemoveSn(false, buf, sn) == buf
    ensures forall seg :: seg in buf ==> seg.sn != sn
    decreases |buf|
  {
    if buf != [] && sn > buf[0].sn {
      assert RemoveSn(false, buf, sn)[1..] == RemoveSn(false, buf[1..], sn);
      NotThere(buf[1..], sn);
      assert buf == [buf[0]] + buf[1..];
    }
  }

  /** What is left of snd_buf. */
  lemma AckExactly(cfg: Config, s: Snd, hist: seq<Frag>, p: Pkt)
    requires SndOk(cfg, s, hist)
    ensures var s1 := Shrink(ParseUna(false, s, p.una));
            var s' := if p.cmd == CMD_ACK then Shrink(ParseAck(false, s1, p.sn)) else s1;
            && (forall seg :: seg in s'.buf
                              <==> seg in s.buf && seg.sn >= p.una && !(p.cmd == CMD_ACK && seg.sn == p.sn))
            && Sorted(s'.buf) && s'.una == (if s'.buf == [] then s.nxt else s'.buf[0].sn)
            && s'.queue == s.queue && s'.nxt == s.nxt
  {
    var s1 := UnaExactly(cfg, s, hist, p.una);
    SelExactly(s1, p.sn);
    hide ParseUna, ParseAck, Shrink, Sorted, SndOk;
  }

  lemma UnaExactly(cfg: Config, s: Snd, hist: seq<Frag>, una: nat) returns (s1: Snd)
    requires SndOk(cfg, s, hist)
    ensures s1 == Shrink(ParseUna(false, s, una))
    ensures forall seg :: seg in s1.buf <==> seg in s.buf && seg.sn >= una
    ensures forall i :: 0 <= i < |s1.buf| ==> s1.una <= s1.buf[i].sn < s1.nxt
    ensures Sorted(s1.buf) && s1.una == (if s1.buf == [] then s.nxt else s1.buf[0].sn)
    ensures s1.queue == s.queue && s1.nxt == s.nxt
  {
    DroppedExactly(s.buf, una);
    s1 := Shrink(ParseUna(false, s, una));
    hide DropBelow;
    assert forall i :: 0 <= i < |s1.buf| ==> s1.buf[i] in s1.buf && s1.buf[i] in s.buf;
  }

  /** A number that is not between snd_una and snd_nxt is in no segment anyway. */
  lemma SelExactly(s: Snd, sn: nat)
    requires Sorted(s.buf) && s.una == (if s.buf == [] then s.nxt else s.buf[0].sn)
    requires forall i :: 0 <= i < |s.buf| ==> s.una <= s.buf[i].sn < s.nxt
    ensures var s' := Shrink(ParseAck(false, s, sn));
            && (forall seg :: seg in s'.buf <==> seg in s.buf && seg.sn != sn)
            && Sorted(s'.buf) && s'.una == (if s'.buf == [] then s.nxt else s'.buf[0].sn)
            && s'.queue == s.queue && s'.nxt == s.nxt
  {
    RemovedExactly(s.buf, sn);
    hide RemoveSn;
    assert forall seg :: seg in s.buf ==> s.una <= seg.sn < s.nxt;
  }

  /** One segment of a datagram.  What it acknowledges, and nothing else, leaves snd_buf; data inside the window is
      acknowledged, also when it came before; a sign of life sets the peer's window; the round trip is measured on
      acknowledgements that do not come from the future. */
  lemma ArrivalExactly(k: Kcb, n: Newest, p: Pkt, hist: seq<Frag>)
    requires SndOk(k.cfg, k.snd, hist)
    ensures var (k', n') := InputPkt(false, k, n, p);
            && (forall seg :: seg in k'.snd.buf <==>
                  seg in k.snd.buf && seg.sn >= p.una && !(p.cmd == CMD_ACK && seg.sn == p.sn))
            && Sorted(k'.snd.buf) && k'.snd.una == (if k'.snd.buf == [] then k.snd.nxt else k'.snd.buf[0].sn)
            && k'.snd.queue == k.snd.queue && k'.snd.nxt == k.snd.nxt
            && k'.acks
               == k.acks + (if p.cmd == CMD_PUSH && p.sn < k.rcv.nxt + k.cfg.rcvWnd then [Ack(p.sn, p.ts)] else [])
            && k'.cc == k.cc.(rmtWnd := p.wnd, askTell := k.cc.askTell || p.cmd == CMD_WASK)
            && k'.clk == (if p.cmd == CMD_ACK && Reached(k.clk.current, p.ts)
                          then UpdateAck(k.cfg, k.clk, (k.clk.current - p.ts) % W) else k.clk)
            && (p.cmd != CMD_PUSH || !(k.rcv.nxt <= p.sn < k.rcv.nxt + k.cfg.rcvWnd) ==> k'.rcv == k.rcv)
            && (p.cmd != CMD_ACK ==> n' == n)
  {
    hide ParseUna, ParseAck, Shrink, UpdateAck, NewestAck, Insert, Promote, Diff, Reached;
    AckExactly(k.cfg, k.snd, hist, p);
    SignOf(k.clk.current, p.ts);
    DiffIs(k.clk.current, p.ts);
    assert Diff(false, p.sn, k.rcv.nxt) == p.sn - k.rcv.nxt by { DiffPlain(p.sn, k.rcv.nxt); }
    assert Diff(false, p.sn, k.rcv.nxt + k.cfg.rcvWnd) == p.sn - (k.rcv.nxt + k.cfg.rcvWnd) by {
      DiffPlain(p.sn, k.rcv.nxt + k.cfg.rcvWnd);
    }
  }

  lemma DiffPlain(a: int, b: int)
    ensures Diff(false, a, b) == a - b
  {
  }

  lemma DiffIs(now: nat, t: nat)
    ensures Reached(now, t) ==> Diff(true, now, t) == (now - t) % W
  {
  }

  /** Each segment in flight below an acknowledged one, and not sent after it, was overtaken once more. */
  lemma FastackExactly(cfg: Config, s: Snd, hist: seq<Frag>, sn: nat, ts: nat)
    requires SndOk(cfg, s, hist)
    ensures var s' := ParseFastack(false, s, sn, ts);
            && |s'.buf| == |s.buf| && s' == s.(buf := s'.buf)
            && forall i :: 0 <= i < |s.buf| ==>
                 s'.buf[i] == if s.buf[i].sn < sn < s.nxt && Reached(ts, s.buf[i].ts)
                              then s.buf[i].(fastack := U32(s.buf[i].fastack + 1)) else s.buf[i]
  {
    CountExactly(s.buf, sn, ts);
    hide CountFast, Reached, U32;
  }

  lemma {:induction false} CountExactly(buf: seq<Seg>, sn: nat, ts: nat)
    requires Sorted(buf)
    ensures var r := CountFast(false, buf, sn, ts);
            && |r| == |buf|
            && forall i :: 0 <= i < |buf| ==>
                 r[i] == if buf[i].sn < sn && Reached(ts, buf[i].ts)
                         then buf[i].(fastack := U32(buf[i].fastack + 1)) else buf[i]
    decreases |buf|
  {
    if buf != [] && sn >= buf[0].sn {
      CountExactly(buf[1..], sn, ts);
      SignOf(ts, buf[0].ts);
      hide Reached, U32;
      var r, rest := CountFast(false, buf, sn, ts), CountFast(false, buf[1..], sn, ts);
      assert r == [r[0]] + rest;
      assert forall i :: 0 < i < |buf| ==> buf[i] == buf[1..][i - 1] && r[i] == rest[i - 1];
    }
  }

  /** A whole datagram of one segment: after an acknowledgement the segments it overtook are counted, and the
      congestion window grows if and only if snd_una moved. */
  lemma DatagramExactly(k: Kcb, p: Pkt, hist: seq<Frag>)
    requires SndOk(k.cfg, k.snd, hist)
    ensures var k1, k' := InputPkt(false, k, NoAck, p).0, Input(false, k, [p], true);
            && k'.snd == (if p.cmd == CMD_ACK then ParseFastack(false, k1.snd, p.sn, p.ts) else k1.snd)
            && k' == k1.(snd := k'.snd, cc := k'.cc)
            && k'.cc == (if k'.snd.una > k.snd.una then Grow(k.cfg.mss, k1.cc) else k1.cc)
  {
    var (k1, n) := InputPkt(false, k, NoAck, p);
    assert [p][0] == p && [p][1..] == [];
    assert InputPkts(false, k1, n, []) == (k1, n);
    assert InputPkts(false, k, NoAck, [p]) == (k1, n);
    assert n == if p.cmd == CMD_ACK then Newest(p.sn, p.ts) else NoAck;
    hide InputPkts, InputPkt, ParseFastack, Grow;
  }

  // ---------------------------------------------------------------- the round-trip time

  /** The smoothed time moves an eighth of the way to the measurement, its deviation a quarter of the way to the
      present error; the timeout is the one plus four times the other, or plus the interval if that is more, within
      its limits. */
  lemma RoundTripExactly(cfg: Config, clk: Clock, rtt: nat)
    requires 0 <= clk.rxSrtt < 0x800_0000 && 0 <= clk.rxRttval < 0x800_0000 && rtt < 0x800_0000
    requires cfg.interval < 0x800_0000 && 0 <= cfg.rxMinrto < 0x800_0000
    ensures var c := UpdateAck(cfg, clk, rtt);
            var err := if rtt >= clk.rxSrtt then rtt - clk.rxSrtt else clk.rxSrtt - rtt;
            var rto := c.rxSrtt + (if cfg.interval >= 4 * c.rxRttval then cfg.interval else 4 * c.rxRttval);
            && (if clk.rxSrtt == 0 then c.rxSrtt == rtt && c.rxRttval == rtt / 2
                else c.rxSrtt == IMax((7 * clk.rxSrtt + rtt) / 8, 1) && c.rxRttval == (3 * clk.rxRttval + err) / 4)
            && c.rxRto == (if rto < cfg.rxMinrto then IMin(cfg.rxMinrto, RTO_MAX) else IMin(rto, RTO_MAX))
            && c == clk.(rxSrtt := c.rxSrtt, rxRttval := c.rxRttval, rxRto := c.rxRto)
  {
    hide I32, U32;
    var c := UpdateAck(cfg, clk, rtt);
    if clk.rxSrtt != 0 {
      Signed(rtt - clk.rxSrtt);
      Signed(7 * clk.rxSrtt + rtt);
      Signed((7 * clk.rxSrtt + rtt) / 8);
      Signed(3 * clk.rxRttval);
      var err := if rtt >= clk.rxSrtt then rtt - clk.rxSrtt else clk.rxSrtt - rtt;
      Signed((3 * clk.rxRttval + err) / 4);
    }
    assert 0 <= c.rxSrtt < 0x800_0000 && 0 <= c.rxRttval < 0x800_0000;
    Signed(4 * c.rxRttval);
    Signed(c.rxSrtt + IMax(cfg.interval, 4 * c.rxRttval));
    Signed(cfg.rxMinrto);
  }

  lemma Signed(x: int)
    requires -0x8000_0000 <= x < 0x8000_0000
    ensures I32(x) == x && (x >= 0 ==> U32(x) == x)
  {
  }

  // ---------------------------------------------------------------- the clock

  /** A flush is due at the first update, from ts_flush on, and when the clock has jumped back by more than ten
      seconds. */
  lemma TickExactly(cfg: Config, clk: Clock, now: nat)
    requires now < W && clk.tsFlush < W
    ensures var (c, due) := Tick(cfg, clk, now);
            && (due <==> !clk.updated || Reached(now, clk.tsFlush) || (clk.tsFlush - now) % W > 10000)
            && c.updated && c.current == now
            && c.rxSrtt == clk.rxSrtt && c.rxRttval == clk.rxRttval && c.rxRto == clk.rxRto
            && (!due ==> c.tsFlush == clk.tsFlush)
  {
  }

  /** The time that ikcp_check names is no later than it must be: it is a whole interval away, or the next flush or a
      segment of snd_buf is due then. */
  lemma CheckIsTight(k: Kcb, now: nat)
    requires now < W && k.clk.tsFlush < W && 0 < k.cfg.interval < 0x8000_0000
    requires forall i :: 0 <= i < |k.snd.buf| ==> k.snd.buf[i].resendts < W
    ensures var c := Check(k, now);
            || c == U32(now + k.cfg.interval) || Tick(k.cfg, k.clk, c).1
            || exists i :: 0 <= i < |k.snd.buf| && Diff(true, k.snd.buf[i].resendts, c) <= 0
  {
    NearestIs(k.snd.buf, now, 0x7fff_ffff);
    var near, slap := Nearest(k.snd.buf, now, 0x7fff_ffff), Diff(true, now, k.clk.tsFlush);
    if k.clk.updated && -10000 <= slap < 0 && near > 0 {
      DiffFlip(now, k.clk.tsFlush);
      if near < -slap {
        var i :| 0 <= i < |k.snd.buf| && Diff(true, k.snd.buf[i].resendts, now) == near;
        OnTime(k.snd.buf[i].resendts, now, near);
      } else {
        OnTime(k.clk.tsFlush, now, -slap);
        assert -slap < k.cfg.interval ==> Tick(k.cfg, k.clk, Check(k, now)).1 by { hide Nearest, Check; }
      }
    }
    hide Diff, Nearest;
  }

  lemma OnTime(t: nat, now: nat, d: nat)
    requires t < W && Diff(true, t, now) == d
    ensures U32(now + d) == t && Diff(true, t, U32(now + d)) == 0 && Diff(true, U32(now + d), t) == 0
  {
  }

  lemma {:induction false} NearestIs(buf: seq<Seg>, now: nat, bound: int)
    ensures var d := Nearest(buf, now, bound);
            d == bound || exists i :: 0 <= i < |buf| && (d > 0 ==> Diff(true, buf[i].resendts, now) == d)
                                      && (d <= 0 ==> Diff(true, buf[i].resendts, now) <= 0)
    decreases |buf|
  {
    if buf != [] {
      var n := |buf| - 1;
      NearestIs(buf[..n], now, bound);
      assert forall i :: 0 <= i < n ==> buf[..n][i] == buf[i];
      hide Diff;
    }
  }

  /** Of the acknowledgements in a datagram the newest counts: the first, until one comes that names a later segment
      and was sent later too. */
  lemma NewestExactly(k: Kcb, n: Newest, p: Pkt)
    ensures var n' := InputPkt(false, k, n, p).1;
            n' == if p.cmd == CMD_ACK && (n.NoAck? || (n.sn < p.sn && Reached(p.ts, n.ts) && p.ts % W != n.ts % W))
                  then Newest(p.sn, p.ts) else n
  {
    if n.Newest? && p.cmd == CMD_ACK {
      DiffPlain(p.sn, n.sn);
      LaterIs(p.ts, n.ts);
    }
    hide Diff, Reached, ParseUna, ParseAck, Shrink, UpdateAck, Insert, Promote;
  }

  lemma LaterIs(a: nat, b: nat)
    ensures Diff(true, a, b) > 0 <==> Reached(a, b) && a % W != b % W
  {
  }
}
