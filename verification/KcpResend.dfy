/** What a flush sends: which segments, when they come again, and what else. */
module KcpResend {
  import opened KcpNum
  import opened KcpState
  import opened KcpInvariant

  /** The clock has reached t: it is less than 2^31 milliseconds past it. */
  predicate Reached(now: nat, t: nat) {
    (now - t) % W < 0x8000_0000
  }

  /** As many later segments were acknowledged as it takes, and it was not sent too often for that. */
  predicate Overtaken(cfg: Config, seg: Seg) {
    && seg.fastack >= (if cfg.fastresend > 0 then U32(cfg.fastresend) else 0xffff_ffff)
    && (cfg.fastlimit <= 0 || I32(seg.xmit) <= cfg.fastlimit)
  }

  /** A segment is to be sent now. */
  predicate Due(k: Kcb, seg: Seg) {
    seg.xmit == 0 || Reached(k.clk.current, seg.resendts) || Overtaken(k.cfg, seg)
  }

  /** The timeout a segment is sent with: that of the connection at first, longer after each loss, the same when it
      was overtaken. */
  function NextRto(k: Kcb, seg: Seg): nat {
    if seg.xmit == 0 then U32(k.clk.rxRto)
    else if !Reached(k.clk.current, seg.resendts) then seg.rto
    else if k.cfg.nodelay == 0 then U32(seg.rto + IMax(seg.rto, U32(k.clk.rxRto)))
    else U32(seg.rto + Quot(if k.cfg.nodelay < 2 then I32(seg.rto) else k.clk.rxRto, 2))
  }

  /** The first time is an eighth longer, unless in nodelay mode. */
  function Grace(k: Kcb, seg: Seg): nat {
    if seg.xmit == 0 && k.cfg.nodelay == 0 then U32(k.clk.rxRto) / 8 else 0
  }

  /** The segment after it was sent: stamped, one transmission more, and due again when its timeout is over. */
  predicate Renewed(k: Kcb, seg: Seg, seg': Seg) {
    && seg'.sn == seg.sn && seg'.frg == seg.frg && seg'.data == seg.data
    && seg'.xmit == U32(seg.xmit + 1) && seg'.ts == k.clk.current && seg'.una == k.rcv.nxt
    && seg'.wnd == (if |k.rcv.queue| < k.cfg.rcvWnd then k.cfg.rcvWnd - |k.rcv.queue| else 0)
    && seg'.rto == NextRto(k, seg) && seg'.resendts == U32(k.clk.current + NextRto(k, seg) + Grace(k, seg))
    && seg'.fastack == (if seg.xmit == 0 || Reached(k.clk.current, seg.resendts) then seg.fastack else 0)
  }

  /** Ascending places of buf: just those of the segments that are due. */
  ghost predicate AllDue(k: Kcb, buf: seq<Seg>, at: seq<nat>) {
    && (forall j :: 0 <= j < |at| ==> at[j] < |buf| && Due(k, buf[at[j]]))
    && (forall i, j :: 0 <= i < j < |at| ==> at[i] < at[j])
    && (forall i :: 0 <= i < |buf| && Due(k, buf[i]) ==> i in at)
  }

  /** The packets are those segments, one after another. */
  ghost predicate Carry(pkts: seq<Pkt>, buf: seq<Seg>, at: seq<nat>) {
    && |pkts| == |at|
    && forall j :: 0 <= j < |at| ==>
         at[j] < |buf|
         && var seg := buf[at[j]]; pkts[j] == Pkt(CMD_PUSH, seg.frg, seg.wnd, seg.ts, seg.sn, seg.una, seg.data)
  }

  lemma OneSegment(k: Kcb, seg: Seg)
    ensures WhySend(k, seg).Keep? <==> !Due(k, seg)
    ensures if Due(k, seg) then Renewed(k, seg, FlushSeg(k, seg)) else FlushSeg(k, seg) == seg
  {
    SignOf(k.clk.current, seg.resendts);
    hide I32, U32, Quot, Reached;
  }

  lemma SignOf(now: nat, t: nat)
    ensures Diff(true, now, t) >= 0 <==> Reached(now, t)
  {
  }

  /** What one pass does to every segment and sends. */
  ghost predicate Passed(k: Kcb, buf: seq<Seg>, pass: Pass, at: seq<nat>) {
    && AllDue(k, buf, at) && |pass.buf| == |buf| && Carry(pass.pkts, pass.buf, at)
    && forall i :: 0 <= i < |buf| ==>
         if Due(k, buf[i]) then Renewed(k, buf[i], pass.buf[i]) else pass.buf[i] == buf[i]
  }

  /** One pass over snd_buf sends just the segments that are due, in order, and renews just these. */
  lemma {:induction false} PassExactly(k: Kcb, buf: seq<Seg>) returns (at: seq<nat>)
    ensures Passed(k, buf, FlushBuf(k, buf), at)
    decreases |buf|
  {
    at := [];
    if buf != [] {
      var n := |buf| - 1;
      at := PassExactly(k, buf[..n]);
      OneSegment(k, buf[n]);
      assert buf == buf[..n] + [buf[n]];
      var p, seg := FlushBuf(k, buf[..n]), FlushSeg(k, buf[n]);
      var pass := FlushBuf(k, buf);
      assert pass.buf == p.buf + [seg] && pass.pkts == if Due(k, buf[n]) then p.pkts + [PktOf(seg)] else p.pkts;
      hide Passed, Due, Renewed, WhySend, FlushSeg, FlushBuf;
      PassMore(k, buf[..n], buf[n], p, seg, pass, at);
      if Due(k, buf[n]) { at := at + [n]; }
    }
  }

  lemma PassMore(k: Kcb, buf: seq<Seg>, last: Seg, p: Pass, seg: Seg, pass: Pass, at: seq<nat>)
    requires Passed(k, buf, p, at) && (if Due(k, last) then Renewed(k, last, seg) else seg == last)
    requires pass.buf == p.buf + [seg] && pass.pkts == (if Due(k, last) then p.pkts + [PktOf(seg)] else p.pkts)
    ensures Passed(k, buf + [last], pass, if Due(k, last) then at + [|buf|] else at)
  {
    hide Due, Renewed;
    var all, at' := buf + [last], if Due(k, last) then at + [|buf|] else at;
    forall i | 0 <= i < |all| && Due(k, all[i]) ensures i in at' {
      assert i < |buf| ==> all[i] == buf[i] && i in at;
      if i == |buf| { assert at'[|at|] == i; }
    }
  }

  /** The places of the segments whose timeout is over, and of those that were overtaken. */
  ghost function Lost(k: Kcb, buf: seq<Seg>): set<nat> {
    set i: nat | i < |buf| && buf[i].xmit != 0 && Reached(k.clk.current, buf[i].resendts)
  }

  ghost function Hurried(k: Kcb, buf: seq<Seg>): set<nat> {
    set i: nat | i < |buf| && buf[i].xmit != 0 && !Reached(k.clk.current, buf[i].resendts) && Overtaken(k.cfg, buf[i])
  }

  /** Some segment is sent once more than the link is allowed. */
  ghost predicate SentTooOften(k: Kcb, buf: seq<Seg>) {
    exists i :: 0 <= i < |buf| && Due(k, buf[i]) && U32(buf[i].xmit + 1) >= k.cfg.deadLink
  }

  /** What the pass counts: losses, fast retransmits, and whether some segment was sent too often. */
  lemma {:induction false} PassCounts(k: Kcb, buf: seq<Seg>)
    ensures var pass := FlushBuf(k, buf);
            && pass.timeouts == |Lost(k, buf)| && pass.fasts == |Hurried(k, buf)|
            && (pass.dead <==> SentTooOften(k, buf))
    decreases |buf|
  {
    if buf != [] {
      var n := |buf| - 1;
      PassCounts(k, buf[..n]);
      SignOf(k.clk.current, buf[n].resendts);
      LastPlace(k, buf);
      assert FlushSeg(k, buf[n]).xmit == if Due(k, buf[n]) then U32(buf[n].xmit + 1) else buf[n].xmit;
      hide Lost, Hurried, SentTooOften, FlushSeg, Reached, U32, I32;
    }
  }

  lemma LastPlace(k: Kcb, buf: seq<Seg>)
    requires buf != []
    ensures var n := |buf| - 1;
            && |Lost(k, buf)| == |Lost(k, buf[..n])|
                                 + (if buf[n].xmit != 0 && Reached(k.clk.current, buf[n].resendts) then 1 else 0)
            && |Hurried(k, buf)| == |Hurried(k, buf[..n])|
                 + (if buf[n].xmit == 0 || Reached(k.clk.current, buf[n].resendts) then 0
                    else if Overtaken(k.cfg, buf[n]) then 1 else 0)
            && (SentTooOften(k, buf) <==>
                  SentTooOften(k, buf[..n]) || (Due(k, buf[n]) && U32(buf[n].xmit + 1) >= k.cfg.deadLink))
  {
    LastLost(k, buf);
    LastHurried(k, buf);
    LastTooOften(k, buf);
    OneLess(Lost(k, buf), |buf| - 1);
    OneLess(Hurried(k, buf), |buf| - 1);
    hide Lost, Hurried, SentTooOften, Reached, Overtaken, Due, U32;
  }

  lemma LastLost(k: Kcb, buf: seq<Seg>)
    requires buf != []
    ensures var n := |buf| - 1;
            && Lost(k, buf) - {n} == Lost(k, buf[..n])
            && (n in Lost(k, buf) <==> buf[n].xmit != 0 && Reached(k.clk.current, buf[n].resendts))
  {
    hide Reached;
  }

  lemma LastHurried(k: Kcb, buf: seq<Seg>)
    requires buf != []
    ensures var n := |buf| - 1;
            && Hurried(k, buf) - {n} == Hurried(k, buf[..n])
            && (n in Hurried(k, buf) <==>
                  buf[n].xmit != 0 && !Reached(k.clk.current, buf[n].resendts) && Overtaken(k.cfg, buf[n]))
  {
    hide Reached, Overtaken;
  }

  lemma LastTooOften(k: Kcb, buf: seq<Seg>)
    requires buf != []
    ensures var n := |buf| - 1;
            SentTooOften(k, buf) <==>
              SentTooOften(k, buf[..n]) || (Due(k, buf[n]) && U32(buf[n].xmit + 1) >= k.cfg.deadLink)
  {
    hide Due, U32;
    var n := |buf| - 1;
    if SentTooOften(k, buf[..n]) {
      var i :| 0 <= i < n && Due(k, buf[..n][i]) && U32(buf[..n][i].xmit + 1) >= k.cfg.deadLink;
      assert buf[i] == buf[..n][i];
    }
    if SentTooOften(k, buf) {
      var i :| 0 <= i <= n && Due(k, buf[i]) && U32(buf[i].xmit + 1) >= k.cfg.deadLink;
      assert i < n ==> buf[i] == buf[..n][i];
    }
  }

  lemma OneLess(s: set<nat>, n: nat)
    ensures |s| == |s - {n}| + if n in s then 1 else 0
  {
    if n !in s { assert s - {n} == s; }
  }

  // ---------------------------------------------------------------- new segments

  /** What the congestion window, unless it is off, and the two windows let through. */
  function Limit(cfg: Config, cc: Cong): nat {
    if !cfg.nocwnd && cc.cwnd <= cfg.sndWnd && cc.cwnd <= cc.rmtWnd then cc.cwnd
    else if cfg.sndWnd <= cc.rmtWnd then cfg.sndWnd else cc.rmtWnd
  }

  /** A fragment that got its number in this flush. */
  predicate Born(frag: Seg, seg: Seg) {
    seg.xmit == 0 && seg.fastack == 0 && seg.frg == frag.frg && seg.data == frag.data
  }

  /** Exactly as many fragments get numbers, in order, as are queued and the window has room for. */
  lemma {:induction false} AdmitExactly(wrap: bool, k: Kcb, s: Snd, cwnd: nat) returns (m: nat)
    ensures var s' := Admit(wrap, k, s, cwnd);
            && m <= |s.queue| && s'.queue == s.queue[m..] && s'.una == s.una
            && |s'.buf| == |s.buf| + m && s'.buf[..|s.buf|] == s.buf
            && (forall j :: |s.buf| <= j < |s'.buf| ==> Born(s.queue[j - |s.buf|], s'.buf[j]))
            && (s'.queue == [] || Diff(wrap, s'.nxt, Add(wrap, s.una, cwnd)) >= 0)
            && (!wrap ==>
                  && s'.nxt == s.nxt + m && (m > 0 ==> s'.nxt <= s.una + cwnd)
                  && forall j :: |s.buf| <= j < |s'.buf| ==> s'.buf[j].sn == s.nxt + (j - |s.buf|))
    decreases |s.queue|
  {
    m := 0;
    if s.queue != [] && Diff(wrap, s.nxt, Add(wrap, s.una, cwnd)) < 0 {
      var seg := Numbered(k, s.queue[0], s.nxt);
      var s1 := s.(queue := s.queue[1..], buf := s.buf + [seg], nxt := Add(wrap, s.nxt, 1));
      var n := AdmitExactly(wrap, k, s1, cwnd);
      var s' := Admit(wrap, k, s, cwnd);
      assert s' == Admit(wrap, k, s1, cwnd);
      m := n + 1;
      assert s'.buf[|s.buf|] == s'.buf[..|s.buf| + 1][|s.buf|] == seg;
      assert s'.buf[..|s.buf|] == s'.buf[..|s.buf| + 1][..|s.buf|];
      forall j | |s.buf| <= j < |s'.buf|
        ensures Born(s.queue[j - |s.buf|], s'.buf[j]) && (!wrap ==> s'.buf[j].sn == s.nxt + (j - |s.buf|))
      {
        if j > |s.buf| { assert s1.queue[j - |s1.buf|] == s.queue[j - |s.buf|]; }
      }
      hide Admit, Born, Diff;
    }
  }

  // ---------------------------------------------------------------- the whole flush

  /** An acknowledgement, or a probe or announcement of the window, as this endpoint sends it. */
  ghost predicate Reports(k: Kcb, p: Pkt) {
    && p.una == k.rcv.nxt && p.data == [] && p.frg == 0
    && p.wnd == (if |k.rcv.queue| < k.cfg.rcvWnd then k.cfg.rcvWnd - |k.rcv.queue| else 0)
  }

  /** A flush sends every acknowledgement that waits, once and in order; then the window probe that is due and the
      announcement that was asked for; then, of what snd_buf held and what the window let in, just the segments that
      are due, in order.  These are renewed, the others untouched, and no acknowledgement waits any more. */
  lemma FlushExactly(wrap: bool, k: Kcb) returns (m: nat, h: nat, at: seq<nat>)
    requires k.clk.updated
    ensures var (k', pkts) := Flush(wrap, k);
            var had, buf := |k.snd.buf|, k'.snd.buf;
            && |buf| == had + m && m <= |k.snd.queue| && k'.snd.queue == k.snd.queue[m..] && k'.acks == []
            && |k.acks| <= h <= |pkts| && h == |k.acks| + (if Asks(k) then 1 else 0) + (if k.cc.askTell then 1 else 0)
            && (forall i :: 0 <= i < |k.acks| ==>
                  && Reports(k, pkts[i]) && pkts[i].cmd == CMD_ACK
                  && pkts[i].sn == k.acks[i].sn && pkts[i].ts == k.acks[i].ts)
            && (Asks(k) ==> Reports(k, pkts[|k.acks|]) && pkts[|k.acks|].cmd == CMD_WASK)
            && (k.cc.askTell ==> Reports(k, pkts[h - 1]) && pkts[h - 1].cmd == CMD_WINS)
            && Carry(pkts[h..], buf, at)
            && (forall i :: 0 <= i < |buf| ==> (i in at <==> i >= had || Due(k, k.snd.buf[i])))
            && (forall i, j :: 0 <= i < j < |at| ==> at[i] < at[j])
            && (forall i :: 0 <= i < had ==>
                  if Due(k, k.snd.buf[i]) then Renewed(k, k.snd.buf[i], buf[i]) else buf[i] == k.snd.buf[i])
            && (forall i :: had <= i < |buf| ==> FirstSent(k, k.snd.queue[i - had], buf[i]))
  {
    hide Flush, Admit, FlushBuf, Due, Probe, Window, AckPkts, ProbePkts, Asks, Reports, Carry, Renewed, FirstSent;
    var cc := Probe(k.cc, k.clk.current);
    var w := Window(k.cfg, cc);
    m := AdmitExactly(wrap, k, k.snd, w);
    var s := Admit(wrap, k, k.snd, w);
    at := PassExactly(k, s.buf);
    var pass := FlushBuf(k, s.buf);
    var control := AckPkts(k) + ProbePkts(k, cc);
    h := |control|;
    FlushParts(wrap, k);
    AsksAre(k);
    ControlExactly(k, cc);
    Inherited(k, s.buf, pass, m, at);
    var pkts := Flush(wrap, k).1;
    assert pkts[h..] == pass.pkts;
    assert forall i :: 0 <= i < h ==> pkts[i] == control[i];
  }

  lemma AsksAre(k: Kcb)
    ensures var cc := Probe(k.cc, k.clk.current); cc.askSend == Asks(k) && cc.askTell == k.cc.askTell
  {
    SignOf(k.clk.current, k.cc.tsProbe);
    hide Diff, Reached, U32;
  }

  lemma FlushParts(wrap: bool, k: Kcb)
    requires k.clk.updated
    ensures var (k', pkts) := Flush(wrap, k);
            var cc := Probe(k.cc, k.clk.current);
            var s := Admit(wrap, k, k.snd, Window(k.cfg, cc));
            var pass := FlushBuf(k, s.buf);
            && pkts == AckPkts(k) + ProbePkts(k, cc) + pass.pkts && k'.snd == s.(buf := pass.buf) && k'.acks == []
  {
    hide Admit, FlushBuf, Probe, Window, AckPkts, ProbePkts, Backoff;
  }

  /** Acknowledgements and probes, one by one. */
  lemma ControlExactly(k: Kcb, cc: Cong)
    ensures var ps, n := AckPkts(k) + ProbePkts(k, cc), |k.acks|;
            && |ps| == n + (if cc.askSend then 1 else 0) + (if cc.askTell then 1 else 0)
            && (forall i :: 0 <= i < n ==>
                  Reports(k, ps[i]) && ps[i].cmd == CMD_ACK && ps[i].sn == k.acks[i].sn && ps[i].ts == k.acks[i].ts)
            && (cc.askSend ==> Reports(k, ps[n]) && ps[n].cmd == CMD_WASK)
            && (cc.askTell ==> Reports(k, ps[|ps| - 1]) && ps[|ps| - 1].cmd == CMD_WINS)
  {
  }

  lemma Inherited(k: Kcb, buf: seq<Seg>, pass: Pass, m: nat, at: seq<nat>)
    requires var had := |k.snd.buf|;
             && |buf| == had + m && buf[..had] == k.snd.buf && m <= |k.snd.queue|
             && forall j :: had <= j < |buf| ==> Born(k.snd.queue[j - had], buf[j])
    requires Passed(k, buf, pass, at)
    ensures var had := |k.snd.buf|;
            && (forall i :: 0 <= i < |buf| ==> (i in at <==> i >= had || Due(k, k.snd.buf[i])))
            && (forall i :: 0 <= i < had ==>
                  if Due(k, k.snd.buf[i]) then Renewed(k, k.snd.buf[i], pass.buf[i]) else pass.buf[i] == k.snd.buf[i])
            && (forall i :: had <= i < |buf| ==> FirstSent(k, k.snd.queue[i - had], pass.buf[i]))
  {
    var had := |k.snd.buf|;
    forall i | had <= i < |buf| ensures Due(k, buf[i]) && FirstSent(k, k.snd.queue[i - had], pass.buf[i]) {
      assert Born(k.snd.queue[i - had], buf[i]);
    }
    assert forall i :: 0 <= i < had ==> buf[i] == buf[..had][i];
    hide Renewed, Born, FirstSent, Reached, Overtaken;
  }

  /** The peer's window is closed and the wait for asking about it is over. */
  predicate Asks(k: Kcb) {
    k.cc.askSend || (k.cc.rmtWnd == 0 && k.cc.probeWait != 0 && Reached(k.clk.current, k.cc.tsProbe))
  }

  /** A fragment after its first transmission. */
  ghost predicate FirstSent(k: Kcb, frag: Seg, seg: Seg) {
    exists born :: Born(frag, born) && Renewed(k, born, seg)
  }

  // ---------------------------------------------------------------- on numbers that do not wrap

  /** The packets hold data of this number. */
  ghost predicate Sends(pkts: seq<Pkt>, sn: nat) {
    exists i :: 0 <= i < |pkts| && pkts[i].cmd == CMD_PUSH && pkts[i].sn == sn
  }

  /** How many numbers the window lets a flush give. */
  function Given(k: Kcb): nat {
    var room := k.snd.una + Limit(k.cfg, Probe(k.cc, k.clk.current)) - k.snd.nxt;
    if room <= 0 then 0 else IMin(|k.snd.queue|, room)
  }

  /** buf continues had with the numbers from nxt on, and ascends. */
  ghost predicate Continues(had: seq<Seg>, nxt: nat, buf: seq<Seg>) {
    && |buf| >= |had| && (forall i :: 0 <= i < |had| ==> buf[i].sn == had[i].sn)
    && (forall i :: |had| <= i < |buf| ==> buf[i].sn == nxt + (i - |had|)) && Sorted(buf)
  }

  lemma AdmitNumbers(k: Kcb, hist: seq<Frag>)
    requires SndOk(k.cfg, k.snd, hist)
    ensures var s := Admit(false, k, k.snd, Window(k.cfg, Probe(k.cc, k.clk.current)));
            && s.nxt == k.snd.nxt + Given(k) && |s.buf| == |k.snd.buf| + Given(k)
            && Continues(k.snd.buf, k.snd.nxt, s.buf)
  {
    var cc := Probe(k.cc, k.clk.current);
    var w := Window(k.cfg, cc);
    assert w == Limit(k.cfg, cc);
    var m := AdmitExactly(false, k, k.snd, w);
    var s := Admit(false, k, k.snd, w);
    hide Admit, Probe, Window, Limit, Born;
    assert forall i :: 0 <= i < |k.snd.buf| ==> s.buf[i] == s.buf[..|k.snd.buf|][i];
  }

  /** The numbers in snd_buf after a flush, and how many were given. */
  lemma NumbersGiven(k: Kcb, hist: seq<Frag>)
    requires k.clk.updated && SndOk(k.cfg, k.snd, hist)
    ensures var (k', _) := Flush(false, k);
            && k'.snd.nxt == k.snd.nxt + Given(k) && |k'.snd.buf| == |k.snd.buf| + Given(k)
            && Continues(k.snd.buf, k.snd.nxt, k'.snd.buf)
  {
    AdmitNumbers(k, hist);
    FlushParts(false, k);
    var s := Admit(false, k, k.snd, Window(k.cfg, Probe(k.cc, k.clk.current)));
    var pass := FlushBuf(k, s.buf);
    var at := PassExactly(k, s.buf);
    hide Flush, Admit, FlushBuf, Probe, Window, SndOk, Given, Continues;
    SameNumbers(k, s.buf, pass, at);
    hide Passed;
  }

  lemma SameNumbers(k: Kcb, buf: seq<Seg>, pass: Pass, at: seq<nat>)
    requires Passed(k, buf, pass, at)
    ensures forall had, nxt :: Continues(had, nxt, buf) ==> Continues(had, nxt, pass.buf)
  {
    assert forall i :: 0 <= i < |buf| ==> pass.buf[i].sn == buf[i].sn;
    hide AllDue, Carry, Due, Renewed;
  }

  /** A number in flight is sent again if and only if its segment is due; and the next numbers are given to as many
      fragments as are queued and the window has room for, and sent at once. */
  lemma SentIffDue(k: Kcb, hist: seq<Frag>)
    requires k.clk.updated && SndOk(k.cfg, k.snd, hist)
    ensures var (k', pkts) := Flush(false, k);
            && k'.snd.nxt == k.snd.nxt + Given(k)
            && (forall i :: 0 <= i < |k.snd.buf| ==> (Sends(pkts, k.snd.buf[i].sn) <==> Due(k, k.snd.buf[i])))
            && (forall sn :: k.snd.nxt <= sn < k'.snd.nxt ==> Sends(pkts, sn))
  {
    var h, at := DataPart(k);
    NumbersGiven(k, hist);
    var (k', pkts) := Flush(false, k);
    assert Sorted(k'.snd.buf);
    hide Flush, Due, Given, SndOk, Sorted, Carry;
    SentAre(pkts, h, k'.snd.buf, at);
    forall sn | k.snd.nxt <= sn < k'.snd.nxt ensures Sends(pkts, sn) {
      assert k'.snd.buf[|k.snd.buf| + (sn - k.snd.nxt)].sn == sn;
    }
    hide Sends;
  }

  lemma DataPart(k: Kcb) returns (h: nat, at: seq<nat>)
    requires k.clk.updated
    ensures var (k', pkts) := Flush(false, k);
            && h <= |pkts| && (forall i :: 0 <= i < h ==> pkts[i].cmd != CMD_PUSH) && |k'.snd.buf| >= |k.snd.buf|
            && Carry(pkts[h..], k'.snd.buf, at)
            && forall i :: 0 <= i < |k'.snd.buf| ==> (i in at <==> i >= |k.snd.buf| || Due(k, k.snd.buf[i]))
  {
    var m;
    m, h, at := FlushExactly(false, k);
    hide Flush, Due, Renewed, FirstSent, Asks, Carry;
  }

  /** Exactly the numbers at those places are sent. */
  lemma SentAre(pkts: seq<Pkt>, h: nat, buf: seq<Seg>, at: seq<nat>)
    requires h <= |pkts| && (forall i :: 0 <= i < h ==> pkts[i].cmd != CMD_PUSH)
    requires Carry(pkts[h..], buf, at) && Sorted(buf)
    ensures forall i :: 0 <= i < |buf| ==> (Sends(pkts, buf[i].sn) <==> i in at)
  {
    forall i | 0 <= i < |buf| ensures Sends(pkts, buf[i].sn) <==> i in at {
      if i in at {
        var j :| 0 <= j < |at| && at[j] == i;
        assert pkts[h..][j] == pkts[h + j];
      }
      if Sends(pkts, buf[i].sn) {
        var q :| 0 <= q < |pkts| && pkts[q].cmd == CMD_PUSH && pkts[q].sn == buf[i].sn;
        assert q >= h && pkts[h..][q - h] == pkts[q] && at[q - h] == i;
      }
    }
  }
}
