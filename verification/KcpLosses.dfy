/** What a flush makes of the losses it finds. */
module KcpLosses {
  import opened KcpNum
  import opened KcpState
  import opened KcpResend
  import C = KcpCongestion

  /** Segments that just got their number are neither timed out nor overtaken. */
  lemma NewAreNotLost(k: Kcb, was: seq<Seg>, buf: seq<Seg>)
    requires |was| <= |buf| && buf[..|was|] == was && forall i :: |was| <= i < |buf| ==> buf[i].xmit == 0
    ensures Lost(k, buf) == Lost(k, was) && Hurried(k, buf) == Hurried(k, was)
  {
    assert forall i :: 0 <= i < |was| ==> buf[i] == buf[..|was|][i];
    hide Reached, Overtaken;
  }

  lemma FlushSplit(k: Kcb)
    requires k.clk.updated
    ensures var (k', _) := Flush(false, k);
            var cc := Probe(k.cc, k.clk.current);
            var s := Admit(false, k, k.snd, Window(k.cfg, cc));
            var pass := FlushBuf(k, s.buf);
            && k'.snd.nxt == s.nxt
            && k'.cc == Backoff(k.cfg, cc.(askSend := false, askTell := false, xmit := U32(cc.xmit + pass.timeouts),
                                           dead := cc.dead || pass.dead),
                                if s.nxt >= s.una then s.nxt - s.una else 0, pass.fasts, pass.timeouts)
  {
    hide Admit, FlushBuf, Probe, Window, AckPkts, ProbePkts, Backoff, U32;
  }

  /** Every timed-out segment is counted.  A timeout halves the window into the threshold and closes it to one; else
      segments sent again early halve what is in flight; else the window stays, open by one segment at least. */
  lemma FlushReacts(k: Kcb)
    requires k.clk.updated
    ensures var k' := Flush(false, k).0;
            var lost, early := |Lost(k, k.snd.buf)|, |Hurried(k, k.snd.buf)|;
            var flight := if k'.snd.nxt >= k.snd.una then k'.snd.nxt - k.snd.una else 0;
            && k'.cc.xmit == U32(k.cc.xmit + lost)
            && k'.cc.ssthresh == (if lost > 0 then IMax(k.cc.cwnd / 2, 2)
                                  else if early > 0 then IMax(flight / 2, 2) else k.cc.ssthresh)
            && k'.cc.cwnd == (if lost > 0 then 1
                              else if early > 0 then IMax(U32(k'.cc.ssthresh + Resent(k.cfg)), 1)
                              else IMax(k.cc.cwnd, 1))
            && !k'.cc.askSend && !k'.cc.askTell && k'.cc.rmtWnd == k.cc.rmtWnd
            && (k.cc.dead || SentTooOften(k, k.snd.buf) ==> k'.cc.dead)
  {
    hide Flush, Admit, FlushBuf, Backoff, Lost, Hurried, SentTooOften, Window, Mul32, U32, Resent;
    FlushSplit(k);
    PassFinds(k);
    var cc := Probe(k.cc, k.clk.current);
    var s := Admit(false, k, k.snd, Window(k.cfg, cc));
    var pass := FlushBuf(k, s.buf);
    var flight := if s.nxt >= s.una then s.nxt - s.una else 0;
    C.BackoffBounded(k.cfg, cc.(askSend := false, askTell := false, xmit := U32(cc.xmit + pass.timeouts),
                                dead := cc.dead || pass.dead), flight, pass.fasts, pass.timeouts);
  }

  /** What the pass counts is what was in flight before it. */
  lemma PassFinds(k: Kcb)
    ensures var s := Admit(false, k, k.snd, Window(k.cfg, Probe(k.cc, k.clk.current)));
            var pass := FlushBuf(k, s.buf);
            && s.una == k.snd.una && pass.timeouts == |Lost(k, k.snd.buf)| && pass.fasts == |Hurried(k, k.snd.buf)|
            && (SentTooOften(k, k.snd.buf) ==> pass.dead)
  {
    hide Admit, FlushBuf, Lost, Hurried, SentTooOften, Window, Probe;
    var w := Window(k.cfg, Probe(k.cc, k.clk.current));
    var s := Admit(false, k, k.snd, w);
    var m := AdmitExactly(false, k, k.snd, w);
    assert forall i :: |k.snd.buf| <= i < |s.buf| ==> s.buf[i].xmit == 0;
    NewAreNotLost(k, k.snd.buf, s.buf);
    PassCounts(k, s.buf);
    OftenStays(k, k.snd.buf, s.buf);
  }

  lemma OftenStays(k: Kcb, was: seq<Seg>, buf: seq<Seg>)
    requires |was| <= |buf| && buf[..|was|] == was
    ensures SentTooOften(k, was) ==> SentTooOften(k, buf)
  {
    assert forall i :: 0 <= i < |was| ==> buf[i] == buf[..|was|][i];
    hide Due, U32;
  }
}
