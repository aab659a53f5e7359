/** The timers and windows of the control block: what bounds them, and how they answer loss and silence. */
module KcpCongestion {
  import opened KcpNum
  import opened KcpState
  import opened KcpProtocol
  import opened KcpWrap

  // ---------------------------------------------------------------- round-trip time

  /** Whatever was measured, the retransmission timeout stays within its limits. */
  lemma RtoBounded(cfg: Config, clk: Clock, rtt: int)
    ensures var c := UpdateAck(cfg, clk, rtt);
            && IMin(U32(cfg.rxMinrto), RTO_MAX) <= c.rxRto <= RTO_MAX
            && c.current == clk.current && c.tsFlush == clk.tsFlush && c.updated == clk.updated
  {
  }

  /** While the sums fit 31 bits the smoothed time stays between the old one
      and the new measurement, and is positive. */
  lemma SmoothedBetween(cfg: Config, clk: Clock, rtt: nat)
    requires 0 < clk.rxSrtt < 0x800_0000 && rtt < 0x800_0000
    ensures var s := UpdateAck(cfg, clk, rtt).rxSrtt;
            1 <= s && IMin(rtt, clk.rxSrtt) <= s <= IMax(rtt, clk.rxSrtt)
  {
    hide U32;
    assert I32(7 * clk.rxSrtt + rtt) == 7 * clk.rxSrtt + rtt && I32(rtt - clk.rxSrtt) == rtt - clk.rxSrtt;
    assert Quot(7 * clk.rxSrtt + rtt, 8) == (7 * clk.rxSrtt + rtt) / 8;
  }

  // ---------------------------------------------------------------- the window grows

  /** Growth never takes the window past the peer's, and leaves it alone once it is there. */
  lemma GrowBounded(mss: pos, cc: Cong)
    ensures var c := Grow(mss, cc);
            && c.cwnd <= IMax(cc.cwnd, cc.rmtWnd) && (cc.cwnd >= cc.rmtWnd ==> c == cc)
            && c == cc.(cwnd := c.cwnd, incr := c.incr)
  {
    hide U32, Mul32, Div32;
  }

  /** Below the threshold the window grows by a segment and the increment by its size.  Above it the increment grows
      by a sixteenth of a segment and, the larger the window, the less beside; and when it has room for another
      segment the window is the increment in segments, rounded up, but never past the peer's. */
  lemma GrowExactly(mss: pos, cc: Cong)
    requires mss <= 0xffff && cc.cwnd < cc.rmtWnd <= 0xffff && cc.incr <= 0x7fff_ffff
    ensures var i0 := IMax(cc.incr, mss);
            var i1 := i0 + mss * mss / i0 + mss / 16;
            var w := if (cc.cwnd + 1) * mss <= i1 then (i1 + mss - 1) / mss else cc.cwnd;
            var c := Grow(mss, cc);
            && c == cc.(cwnd := c.cwnd, incr := c.incr)
            && (cc.cwnd < cc.ssthresh ==> c.cwnd == cc.cwnd + 1 && c.incr == cc.incr + mss)
            && (cc.cwnd >= cc.ssthresh ==>
                  && c.cwnd == (if w > cc.rmtWnd then cc.rmtWnd else w)
                  && c.incr == (if w > cc.rmtWnd then cc.rmtWnd * mss else i1))
  {
    Small(cc.incr + mss);
    var i0 := IMax(cc.incr, mss);
    ProductFits(mss, mss);
    ProductFits(cc.cwnd + 1, mss);
    ProductFits(cc.rmtWnd, mss);
    QuotientFits(mss, i0);
    var d := mss * mss / i0;
    Small(i0 + d + mss / 16);
    Small(i0 + d + mss / 16 + mss - 1);
    GrowParts(mss, cc, i0, d);
  }

  /** The same in terms of the 32-bit operations. */
  lemma GrowParts(mss: pos, cc: Cong, i0: nat, d: nat)
    requires cc.cwnd < cc.rmtWnd && i0 == IMax(cc.incr, mss) && Div32(Mul32(mss, mss), i0) == d
    requires U32(i0 + d + mss / 16) == i0 + d + mss / 16
    requires U32(i0 + d + mss / 16 + mss - 1) == i0 + d + mss / 16 + mss - 1 && U32(cc.cwnd + 1) == cc.cwnd + 1
    ensures var i1 := i0 + d + mss / 16;
            var w := if Mul32(cc.cwnd + 1, mss) <= i1 then Div32(i1 + mss - 1, mss) else cc.cwnd;
            var c := Grow(mss, cc);
            && c == cc.(cwnd := c.cwnd, incr := c.incr)
            && (cc.cwnd < cc.ssthresh ==> c.cwnd == cc.cwnd + 1 && c.incr == U32(cc.incr + mss))
            && (cc.cwnd >= cc.ssthresh ==>
                  c.cwnd == IMin(w, cc.rmtWnd) && c.incr == if w > cc.rmtWnd then Mul32(cc.rmtWnd, mss) else i1)
  {
    hide Mul32, Div32, U32;
  }

  /** Below the threshold it grows by exactly one segment; above it, while
      the products fit 32 bits, it never shrinks. */
  lemma GrowAdvances(mss: pos, cc: Cong)
    requires 0 < mss <= 0xffff && cc.cwnd < cc.rmtWnd <= 0xffff && cc.incr <= 0x7fff_ffff
    ensures cc.cwnd < cc.ssthresh ==> Grow(mss, cc).cwnd == cc.cwnd + 1
    ensures Grow(mss, cc).cwnd >= cc.cwnd
  {
    var i0 := if cc.incr < mss then mss else cc.incr;
    var i1 := U32(i0 + Div32(Mul32(mss, mss), i0) + mss / 16);
    IncreaseFits(mss, i0);
    RoundedUp(mss, i1, cc.cwnd + 1);
    Small(cc.cwnd + 1);
    hide Mul32, Div32, U32;
  }

  lemma Small(x: nat)
    requires x < W
    ensures U32(x) == x
  {
  }

  /** Above the threshold the increment grows without wrapping, with room for rounding up. */
  lemma IncreaseFits(mss: pos, i0: nat)
    requires 0 < mss <= 0xffff && mss <= i0 <= 0x7fff_ffff
    ensures i0 <= U32(i0 + Div32(Mul32(mss, mss), i0) + mss / 16) < W - mss
  {
    ProductFits(mss, mss);
    QuotientFits(mss, i0);
    var d := Div32(Mul32(mss, mss), i0);
    assert 0 <= d <= mss;
    hide Mul32, Div32, U32;
    Small(i0 + d + mss / 16);
  }

  lemma RoundedUp(mss: pos, i: nat, w: nat)
    requires 0 < mss <= 0xffff && w <= 0xffff && i < W - mss
    ensures Mul32(U32(w), mss) <= i ==> Div32(U32(i + mss - 1), mss) >= w
  {
    ProductFits(w, mss);
    Small(i + mss - 1);
    if w * mss <= i { Ceiling(i, w, mss); }
    hide U32, Mul32;
  }

  lemma ProductFits(w: nat, mss: pos)
    requires w <= 0xffff && mss <= 0xffff
    ensures 0 <= w * mss < W && Mul32(w, mss) == w * mss && U32(w) == w
  {
    MulMono(w, 0xffff, mss);
  }

  lemma MulMono(a: nat, b: nat, c: nat)
    requires a <= b
    ensures 0 <= a * c <= b * c
  {
  }

  lemma QuotientFits(mss: pos, i: nat)
    requires 0 < mss <= i
    ensures 0 <= mss * mss / i <= mss
  {
    var q := mss * mss / i;
    if q > mss {
      MulMono(mss + 1, q, i);
      MulMono(mss, i, mss + 1);
    }
  }

  lemma Ceiling(i: nat, w: nat, mss: nat)
    requires mss > 0 && w * mss <= i
    ensures (i + mss - 1) / mss >= w
  {
    var q := (i + mss - 1) / mss;
    if q < w { MulMono(q + 1, w, mss); }
  }

  // ---------------------------------------------------------------- the peer's window is closed

  /** The probe timer is off, or waits between 5 and 120 seconds. */
  predicate WaitOk(cc: Cong) {
    cc.probeWait == 0 || PROBE_INIT <= cc.probeWait <= PROBE_LIMIT
  }

  /** The timer runs exactly while the peer's window is closed, and asks exactly when its wait is over; then the next
      wait is half as long again, up to the limit. */
  lemma ProbeBacksOff(cc: Cong, current: nat)
    requires WaitOk(cc)
    ensures var c := Probe(cc, current);
            var due := cc.rmtWnd == 0 && cc.probeWait != 0 && Diff(true, current, cc.tsProbe) >= 0;
            && WaitOk(c) && (c.probeWait == 0 <==> cc.rmtWnd != 0)
            && (c.askSend <==> cc.askSend || due)
            && (due ==> c.probeWait == IMin(cc.probeWait + cc.probeWait / 2, PROBE_LIMIT)
                        && c.tsProbe == U32(current + c.probeWait))
            && (cc.rmtWnd == 0 && !due && cc.probeWait != 0 ==> c == cc)
            && c.cwnd == cc.cwnd && c.ssthresh == cc.ssthresh && c.rmtWnd == cc.rmtWnd && c.askTell == cc.askTell
  {
    hide I32;
  }

  /** So a flush asks for the window if and only if that window is closed and the wait is over. */
  lemma AskedWhenClosed(wrap: bool, k: Kcb)
    requires WaitOk(k.cc) && !k.cc.askSend
    ensures (exists p :: p in Flush(wrap, k).1 && p.cmd == CMD_WASK)
            <==>
            k.clk.updated && k.cc.rmtWnd == 0 && k.cc.probeWait != 0 && Diff(true, k.clk.current, k.cc.tsProbe) >= 0
  {
    if k.clk.updated {
      var cc := Probe(k.cc, k.clk.current);
      ProbeBacksOff(k.cc, k.clk.current);
      var s := Admit(wrap, k, k.snd, Window(k.cfg, cc));
      var pass := FlushBuf(k, s.buf);
      OnlyData(k, s.buf);
      assert Flush(wrap, k).1 == AckPkts(k) + ProbePkts(k, cc) + pass.pkts;
      hide Flush, Admit, FlushBuf, Probe, Window, WaitOk, Diff;
      if cc.askSend {
        var i := |AckPkts(k)|;
        assert (AckPkts(k) + ProbePkts(k, cc) + pass.pkts)[i].cmd == CMD_WASK;
      } else {
        forall p | p in AckPkts(k) + ProbePkts(k, cc) + pass.pkts ensures p.cmd != CMD_WASK {
          assert p in AckPkts(k) || p in ProbePkts(k, cc) || p in pass.pkts;
        }
      }
    }
  }

  lemma {:induction false} OnlyData(k: Kcb, buf: seq<Seg>)
    ensures forall p :: p in FlushBuf(k, buf).pkts ==> p.cmd == CMD_PUSH
    decreases |buf|
  {
    if buf != [] {
      OnlyData(k, buf[..|buf| - 1]);
      hide FlushSeg, WhySend;
    }
  }

  // ---------------------------------------------------------------- losses

  /** After a flush the window is open by a segment at least.  Losses leave the threshold at two or more: half of what
      was in flight after a fast retransmit, and the window that much and `resent` more; half of the window after a
      timeout, which also closes the window to one. */
  lemma BackoffBounded(cfg: Config, cc: Cong, inflight: nat, fasts: nat, timeouts: nat)
    ensures var c := Backoff(cfg, cc, inflight, fasts, timeouts);
            var open := if timeouts > 0 then 1 else if fasts > 0 then U32(c.ssthresh + Resent(cfg)) else cc.cwnd;
            && c.ssthresh == (if timeouts > 0 then IMax(cc.cwnd / 2, THRESH_MIN)
                              else if fasts > 0 then IMax(inflight / 2, THRESH_MIN) else cc.ssthresh)
            && c.cwnd == IMax(open, 1)
            && c.incr == (if timeouts > 0 || open == 0 then cfg.mss
                          else if fasts > 0 then Mul32(open, cfg.mss) else cc.incr)
            && c == cc.(cwnd := c.cwnd, ssthresh := c.ssthresh, incr := c.incr)
  {
    hide Mul32;
  }

  // ---------------------------------------------------------------- every reachable state

  /** What every call keeps of timers and windows. */
  predicate ControlOk(k: Kcb) {
    && WaitOk(k.cc) && !k.cc.askSend && k.cc.ssthresh >= THRESH_MIN
    && IMin(IMin(U32(k.cfg.rxMinrto), 200), RTO_MAX) <= k.clk.rxRto <= RTO_MAX
  }

  lemma {:induction false} InputPktsControl(wrap: bool, k: Kcb, n: Newest, ps: seq<Pkt>)
    requires ControlOk(k)
    ensures ControlOk(InputPkts(wrap, k, n, ps).0)
    decreases |ps|
  {
    if ps != [] {
      var p := ps[0];
      RtoBounded(k.cfg, k.clk, Diff(true, k.clk.current, p.ts));
      var (k1, n1) := InputPkt(wrap, k, n, p);
      hide UpdateAck, ParseUna, ParseAck, ParseData, Shrink, InWindow, NewestAck, Diff;
      assert k1.cfg == k.cfg && k1.cc == k.cc.(rmtWnd := p.wnd, askTell := k1.cc.askTell);
      assert k1.clk == k.clk || k1.clk == UpdateAck(k.cfg, k.clk, Diff(true, k.clk.current, p.ts));
      hide InputPkt;
      InputPktsControl(wrap, k1, n1, ps[1..]);
    }
  }

  lemma FlushControl(wrap: bool, k: Kcb)
    requires ControlOk(k)
    ensures ControlOk(Flush(wrap, k).0) && (k.clk.updated ==> Flush(wrap, k).0.cc.cwnd >= 1)
  {
    if k.clk.updated {
      var cc := Probe(k.cc, k.clk.current);
      ProbeBacksOff(k.cc, k.clk.current);
      var s := Admit(wrap, k, k.snd, Window(k.cfg, cc));
      var pass := FlushBuf(k, s.buf);
      var inflight := if wrap then U32(s.nxt - s.una) else if s.nxt >= s.una then s.nxt - s.una else 0;
      var cc1 := cc.(askSend := false, askTell := false, xmit := U32(cc.xmit + pass.timeouts),
          dead := cc.dead || pass.dead);
      BackoffBounded(k.cfg, cc1, inflight, pass.fasts, pass.timeouts);
      hide Admit, FlushBuf, Probe, Window, Backoff, AckPkts, ProbePkts;
    }
  }

  /** Every call keeps it, with 32-bit numbers or without. */
  lemma CallControl(wrap: bool, k: Kcb, c: Call)
    requires ControlOk(k)
    ensures ControlOk(Apply(wrap, k, c).k)
  {
    match c
    case DoSend(data) => hide Send;
    case DoRecv(len) => hide Recv;
    case DoInput(pkts, wellFormed) =>
      InputPktsControl(wrap, k, NoAck, pkts);
      var (k1, n) := InputPkts(wrap, k, NoAck, pkts);
      GrowBounded(k.cfg.mss, k1.cc);
      hide InputPkts, Grow, ParseFastack;
    case DoUpdate(now) =>
      var (clk, due) := Tick(k.cfg, k.clk, now);
      FlushControl(wrap, k.(clk := clk));
      hide Flush;
    case DoFlush =>
      FlushControl(wrap, k);
      hide Flush;
  }

  /** So it holds of both endpoints in every state of every run of the 32-bit
      code, whatever arrives and however late. */
  lemma {:induction false} CodeControl(code: seq<(Kcb, Kcb)>, events: seq<Event>, i: nat)
    requires IsCodeRun(code, events) && i < |code| && ControlOk(code[0].0) && ControlOk(code[0].1)
    ensures ControlOk(code[i].0) && ControlOk(code[i].1)
    decreases i
  {
    if i > 0 {
      CodeControl(code, events, i - 1);
      var j, e := i - 1, events[i - 1];
      assert code[j + 1] == CodeNext(code[j], events[j]).0;
      CallControl(true, if e.AtA? then code[j].0 else code[j].1, TCall(e.c));
      hide Apply, ControlOk, TCall;
    }
  }
}
