/** That the connection is never stuck: from every reachable state, even if all that is on the wire is lost, everything
    accepted can still be delivered. */
module KcpLive {
  import opened KcpNum
  import opened KcpState
  import opened KcpInvariant
  import opened KcpMessages
  import opened KcpProtocol
  import opened KcpWrap
  import opened KcpResend
  import opened KcpArrival

  // ---------------------------------------------------------------- when all is acknowledged and read

  /** Nothing numbered is missing: what the receiver has is all there is. */
  lemma NothingMissing(s: Sys)
    requires Inv(s) && s.a.snd.buf == [] && |s.b.rcv.queue| < s.b.cfg.rcvWnd
    ensures s.b.rcv.nxt == |s.abDir.hist|
  {
    var r := s.b.rcv;
    assert r.nxt < |s.abDir.hist| ==> r.nxt in Held(r);
    hide Said, WireData, WireAcks, AcksHeld;
  }

  /** When nothing is queued, in flight or unread, everything accepted has been delivered. */
  lemma AllDelivered(s: Sys)
    requires Inv(s) && s.a.snd.buf == [] && s.a.snd.queue == [] && s.b.rcv.queue == [] && s.b.cfg.rcvWnd > 0
    ensures Concat(s.abDir.delivered) == Concat(s.abDir.accepted)
    ensures !s.a.cfg.stream ==> s.abDir.delivered == s.abDir.accepted
  {
    NothingMissing(s);
    var d, mss := s.abDir, s.a.cfg.mss;
    assert d.consumed == |d.hist| && d.hist[..d.consumed] == d.hist == d.hist + Frags([]);
    if !s.a.cfg.stream {
      var rest := d.accepted[|d.delivered|..];
      assert d.accepted == d.delivered + rest;
      AllFragsJoin(mss, d.delivered, rest);
      NoneLeft(mss, rest);
    }
    hide SndOk, RcvOk, WireData, WireAcks, AcksHeld, Kept, Settled, MsgFrags;
  }

  lemma NoneLeft(mss: pos, msgs: seq<bytes>)
    ensures AllFrags(mss, msgs) == [] ==> msgs == []
  {
    if msgs != [] { MessageNotEmpty(mss, msgs[0]); }
  }

  lemma MessageNotEmpty(mss: pos, msg: bytes)
    ensures |MsgFrags(mss, msg)| == FragCount(mss, |msg|) > 0
  {
    FragmentsCountDown(mss, FragCount(mss, |msg|), msg, 0);
  }

  // ---------------------------------------------------------------- reading

  /** In every reachable state ikcp_recv hands the user the next message accepted on the other side and not yet
      delivered, as soon as all of it is in the queue and there is room. */
  lemma NextMessageIsHandedOut(s: Sys, len: int)
    requires Inv(s) && !s.a.cfg.stream && s.b.rcv.queue != []
    ensures |s.abDir.delivered| < |s.abDir.accepted|
    ensures var msg := s.abDir.accepted[|s.abDir.delivered|];
            var (r', tell, ret, data) := Recv(false, s.b.cfg, s.b.rcv, len);
            && ret == (if |s.b.rcv.queue| < |MsgFrags(s.a.cfg.mss, msg)| then -2
                       else if |msg| > Room(len) then -3 else |msg|)
            && (ret >= 0 ==> data == msg)
  {
    var msg, later := Upcoming(s);
    RecvMessage(false, s.b.cfg, s.b.rcv, len, s.a.cfg.mss, msg, later);
    hide Inv, Recv, MsgFrags, Frags;
  }

  /** The queue begins with fragments of the first message not delivered. */
  lemma Upcoming(s: Sys) returns (msg: bytes, later: seq<Frag>)
    requires Inv(s) && !s.a.cfg.stream && s.b.rcv.queue != []
    ensures |s.abDir.delivered| < |s.abDir.accepted| && msg == s.abDir.accepted[|s.abDir.delivered|]
    ensures Frags(s.b.rcv.queue) <= MsgFrags(s.a.cfg.mss, msg) + later
    ensures s.b.rcv.nxt == |s.abDir.hist| && s.a.snd.queue == [] ==> |s.b.rcv.queue| >= |MsgFrags(s.a.cfg.mss, msg)|
  {
    hide SndOk, WireData, WireAcks, AcksHeld, Kept, Settled, MsgFrags;
    var d, q, mss := s.abDir, s.b.rcv.queue, s.a.cfg.mss;
    var all := d.hist + Frags(s.a.snd.queue);
    var rest := d.accepted[|d.delivered|..];
    assert d.accepted == d.delivered + rest;
    AllFragsJoin(mss, d.delivered, rest);
    assert Frags(q) == all[d.consumed..d.consumed + |q|];
    assert all[d.consumed..] == AllFrags(mss, rest);
    assert rest != [];
    msg, later := rest[0], AllFrags(mss, rest[1..]);
    assert Frags(q) == all[d.consumed..][..|q|];
  }

  /** A queue that is full, or that holds everything there is, can be read. */
  lemma Readable(s: Sys)
    requires Inv(s) && s.b.rcv.queue != []
    requires |s.b.rcv.queue| >= WND_RCV || (s.b.rcv.nxt == |s.abDir.hist| && s.a.snd.queue == [])
    ensures |s.b.rcv.queue| > s.b.rcv.queue[0].frg
  {
    var d, q := s.abDir, s.b.rcv.queue;
    var all := d.hist + Frags(s.a.snd.queue);
    assert FragOf(q[0]) == d.hist[d.consumed] == all[d.consumed];
    assert Fits(s.a.cfg.mss, all[d.consumed]);
    if !s.a.cfg.stream && |q| < WND_RCV {
      var msg, later := Upcoming(s);
      var count := FragCount(s.a.cfg.mss, |msg|);
      MessageNotEmpty(s.a.cfg.mss, msg);
      FragmentsCountDown(s.a.cfg.mss, count, msg, 0);
      assert Frags(q)[0] == (MsgFrags(s.a.cfg.mss, msg) + later)[0];
    }
    hide SndOk, WireData, WireAcks, AcksHeld, Kept, Settled, FragCount;
  }

  // ---------------------------------------------------------------- continuing a run

  function Runs(s: Sys, es: seq<Event>): Sys
    decreases |es|
  {
    if es == [] then s else Runs(Next(s, es[0]), es[1..])
  }

  ghost predicate Possible(s: Sys, es: seq<Event>)
    decreases |es|
  {
    es == [] || (MayHappen(s, es[0]) && Possible(Next(s, es[0]), es[1..]))
  }

  ghost predicate Leads(s: Sys, t: Sys) {
    exists es :: Possible(s, es) && Runs(s, es) == t
  }

  function Todo(s: Sys): nat {
    |s.a.snd.buf| + |s.a.snd.queue|
  }

  /** t comes after s, with no more to do and nothing new accepted at a. */
  ghost predicate Onward(s: Sys, t: Sys) {
    && Leads(s, t) && Inv(t) && t.a.cfg == s.a.cfg && t.b.cfg == s.b.cfg
    && t.abDir.accepted == s.abDir.accepted && Todo(t) <= Todo(s)
  }

  lemma {:induction false} Chain(s: Sys, es: seq<Event>, fs: seq<Event>)
    requires Possible(s, es) && Possible(Runs(s, es), fs)
    ensures Possible(s, es + fs) && Runs(s, es + fs) == Runs(Runs(s, es), fs)
    decreases |es|
  {
    hide Next, MayHappen;
    if es == [] {
      assert es + fs == fs;
    } else {
      assert (es + fs)[0] == es[0] && (es + fs)[1..] == es[1..] + fs;
      Chain(Next(s, es[0]), es[1..], fs);
    }
  }

  lemma Onwards(s: Sys, t: Sys, u: Sys)
    requires Onward(s, t) && Onward(t, u)
    ensures Onward(s, u)
  {
    var es :| Possible(s, es) && Runs(s, es) == t;
    var fs :| Possible(t, fs) && Runs(t, fs) == u;
    Chain(s, es, fs);
    hide Inv, Possible, Runs;
  }

  lemma Stay(s: Sys)
    requires Inv(s)
    ensures Onward(s, s)
  {
    assert Possible(s, []) && Runs(s, []) == s;
    hide Inv;
  }

  lemma OneStep(s: Sys, e: Event)
    requires Inv(s) && MayHappen(s, e)
    ensures Leads(s, Next(s, e)) && Inv(Next(s, e))
    ensures Next(s, e).a.cfg == s.a.cfg && Next(s, e).b.cfg == s.b.cfg
  {
    NextInv(s, e);
    assert Possible(s, [e]) && Runs(s, [e]) == Next(s, e) by {
      assert [e][1..] == [];
      hide Next, MayHappen;
    }
    match e
    case AtA(c) => StepFrame(s, c);
    case AtB(c) => StepFrame(Swap(s), c);
    hide Inv, StepA, Possible, Runs, Allowed;
  }

  // ---------------------------------------------------------------- what single calls do

  /** What a flush of k leaves of the sender, as far as the rest of this file goes. */
  lemma AfterFlush(k: Kcb, hist: seq<Frag>)
    requires SndOk(k.cfg, k.snd, hist)
    ensures var k' := Flush(false, k).0;
            && k'.snd.una == k.snd.una && |k'.snd.buf| + |k'.snd.queue| == |k.snd.buf| + |k.snd.queue|
            && k'.rcv == k.rcv && k'.cfg == k.cfg && k'.clk == k.clk && k'.cc.rmtWnd == k.cc.rmtWnd
            && (k.clk.updated ==> k'.cc.cwnd >= 1 && (k.cc.rmtWnd == 0 && k.cc.probeWait == 0 ==> k'.cc.probeWait != 0))
  {
    if k.clk.updated {
      var cc := Probe(k.cc, k.clk.current);
      var m := AdmitExactly(false, k, k.snd, Window(k.cfg, cc));
      hide Admit, FlushBuf, Window, AckPkts, ProbePkts, Born, Diff, SndOk;
    }
  }

  /** Endpoint a flushes. */
  lemma FlushA(s: Sys) returns (t: Sys)
    requires Inv(s)
    ensures Onward(s, t) && t.b == s.b && t.a == Flush(false, s.a).0 && s.ab <= t.ab
    ensures forall i :: 0 <= i < |Flush(false, s.a).1| ==> Flush(false, s.a).1[i] in t.ab
  {
    hide Flush, Leads;
    t := Next(s, AtA(DoFlush));
    OneStep(s, AtA(DoFlush));
    AfterFlush(s.a, s.abDir.hist);
    StepFrame(s, DoFlush);
  }

  /** Endpoint b flushes. */
  lemma FlushB(s: Sys) returns (t: Sys)
    requires Inv(s)
    ensures Onward(s, t) && t.a == s.a && t.b == Flush(false, s.b).0 && s.ab == t.ab
    ensures forall i :: 0 <= i < |Flush(false, s.b).1| ==> Flush(false, s.b).1[i] in t.ba
  {
    hide Inv, Flush, Leads;
    t := Next(s, AtB(DoFlush));
    OneStep(s, AtB(DoFlush));
    StepFrame(Swap(s), DoFlush);
  }

  /** The clock of endpoint a is set to `now`, and it flushes. */
  lemma ClockA(s: Sys, now: nat) returns (k: Kcb, t: Sys)
    requires Inv(s)
    ensures Onward(s, t) && t.b == s.b && s.ab <= t.ab
    ensures k == s.a.(clk := k.clk) && k.clk.updated && k.clk.current == now && SndOk(k.cfg, k.snd, s.abDir.hist)
    ensures t.a.snd.una == s.a.snd.una && t.a.cc.rmtWnd == s.a.cc.rmtWnd && t.a.clk.updated && t.a.cc.cwnd >= 1
    ensures forall i :: 0 <= i < |Flush(false, k).1| ==> Flush(false, k).1[i] in t.ab
  {
    var (clk, due) := Tick(s.a.cfg, s.a.clk, now);
    k := s.a.(clk := clk);
    assert clk.updated && clk.current == now && SndOk(k.cfg, k.snd, s.abDir.hist);
    OneStep(s, AtA(DoUpdate(now)));
    UpdateEffect(s, now);
    AfterFlush(k, s.abDir.hist);
    var u := Next(s, AtA(DoUpdate(now)));
    hide Inv, Flush, Leads, SndOk, Tick, Next;
    if due {
      t := u;
    } else {
      t := FlushA(u);
      Onwards(s, u, t);
    }
  }

  lemma UpdateEffect(s: Sys, now: nat)
    ensures var (clk, due) := Tick(s.a.cfg, s.a.clk, now);
            var k, u := s.a.(clk := clk), Next(s, AtA(DoUpdate(now)));
            && u.b == s.b && u.abDir.accepted == s.abDir.accepted && s.ab <= u.ab
            && u.a == (if due then Flush(false, k).0 else k)
            && (due ==> forall i :: 0 <= i < |Flush(false, k).1| ==> Flush(false, k).1[i] in u.ab)
  {
    hide Flush, Tick;
  }

  lemma WakeB(s: Sys) returns (t: Sys)
    requires Inv(s)
    ensures Onward(s, t) && t.a == s.a && t.b.rcv == s.b.rcv && t.b.clk.updated
  {
    hide Flush, Leads, SndOk;
    t := Next(s, AtB(DoUpdate(0)));
    var (clk, due) := Tick(s.b.cfg, s.b.clk, 0);
    OneStep(s, AtB(DoUpdate(0)));
    AfterFlush(s.b.(clk := clk), s.baDir.hist);
    StepFrame(Swap(s), DoUpdate(0));
  }

  /** A datagram of one segment arrives at b. */
  lemma InputB(s: Sys, p: Pkt) returns (t: Sys)
    requires Inv(s) && p in s.ab
    ensures Onward(s, t) && t.a == s.a && t.b == Input(false, s.b, [p], true) && t.ab == s.ab
  {
    var e := AtB(DoInput([p], true));
    t := Next(s, e);
    OneStep(s, e);
    StepFrame(Swap(s), DoInput([p], true));
    hide Inv, Input, Leads;
  }

  /** What an acknowledgement leaves in snd_buf is less, if it names something there. */
  lemma ArrivalShrinks(k: Kcb, p: Pkt, hist: seq<Frag>)
    requires SndOk(k.cfg, k.snd, hist)
    ensures var k' := Input(false, k, [p], true);
            && |k'.snd.buf| <= |k.snd.buf| && k'.snd.queue == k.snd.queue
            && (p.cmd == CMD_ACK && InBuf(k.snd.buf, p.sn) ==> |k'.snd.buf| < |k.snd.buf|)
            && k'.clk.updated == k.clk.updated && k'.cc.rmtWnd == p.wnd
  {
    DatagramExactly(k, p, hist);
    ArrivalExactly(k, NoAck, p, hist);
    var k1 := InputPkt(false, k, NoAck, p).0;
    BufShrinks(k.cfg, k.snd, p);
    CountFastKeeps(k1.snd.buf, p.sn, p.ts);
    if p.cmd == CMD_ACK && InBuf(k.snd.buf, p.sn) {
      var i :| 0 <= i < |k.snd.buf| && k.snd.buf[i].sn == p.sn;
      assert k.snd.buf[i] in k.snd.buf && k.snd.buf[i] !in k1.snd.buf;
    }
    hide Input, ParseUna, ParseAck, CountFast, SndOk, UpdateAck;
  }

  lemma BufShrinks(cfg: Config, s: Snd, p: Pkt)
    requires Sorted(s.buf)
    ensures var s1 := Shrink(ParseUna(false, s, p.una));
            var s' := if p.cmd == CMD_ACK then Shrink(ParseAck(false, s1, p.sn)) else s1;
            |s'.buf| <= |s.buf| && (|s'.buf| == |s.buf| ==> s'.buf == s.buf)
  {
    DropBelowKeeps(s.buf, p.una);
    var s1 := Shrink(ParseUna(false, s, p.una));
    var i := RemoveSnKeeps(s1.buf, p.sn);
    hide DropBelow, RemoveSn, InFlight;
  }

  /** A datagram of one segment arrives at a. */
  lemma InputA(s: Sys, p: Pkt) returns (t: Sys)
    requires Inv(s) && p in s.ba
    ensures Onward(s, t) && t.b == s.b && s.ab == t.ab && t.a.clk.updated == s.a.clk.updated && t.a.cc.rmtWnd == p.wnd
    ensures p.cmd == CMD_ACK && InBuf(s.a.snd.buf, p.sn) ==> Todo(t) < Todo(s)
  {
    var e := AtA(DoInput([p], true));
    t := Next(s, e);
    OneStep(s, e);
    StepFrame(s, DoInput([p], true));
    ArrivalShrinks(s.a, p, s.abDir.hist);
    hide Inv, Input, Leads, InBuf;
  }

  /** The user of b reads what can be read. */
  lemma RecvB(s: Sys) returns (t: Sys)
    requires Inv(s) && s.b.rcv.queue != [] && |s.b.rcv.queue| > s.b.rcv.queue[0].frg
    ensures Onward(s, t) && t.a == s.a && t.ab == s.ab && t.b.clk == s.b.clk
    ensures |t.b.rcv.queue| + |t.b.rcv.buf| < |s.b.rcv.queue| + |s.b.rcv.buf|
  {
    hide Inv, Recv, Leads, DataOf, Frags, MergeCount;
    var len := |DataOf(Frags(s.b.rcv.queue[..MergeCount(s.b.rcv.queue)]))|;
    t := Next(s, AtB(DoRecv(len)));
    OneStep(s, AtB(DoRecv(len)));
    StepFrame(Swap(s), DoRecv(len));
    RecvExactly(false, s.b.cfg, s.b.rcv, len);
    MergeCountIs(s.b.rcv.queue);
    RecvEffect(Swap(s), len);
  }

  // ---------------------------------------------------------------- one exchange

  /** Data that arrives inside the window is acknowledged, and the acknowledgement takes it out of snd_buf. */
  lemma Exchange(s: Sys, p: Pkt) returns (t: Sys)
    requires Inv(s) && p in s.ab && p.cmd == CMD_PUSH && InBuf(s.a.snd.buf, p.sn)
    requires p.sn < s.b.rcv.nxt + s.b.cfg.rcvWnd && s.b.clk.updated
    ensures Onward(s, t) && Todo(t) < Todo(s)
  {
    var t1 := InputB(s, p);
    DatagramExactly(s.b, p, s.baDir.hist);
    ArrivalExactly(s.b, NoAck, p, s.baDir.hist);
    var n := |s.b.acks|;
    assert t1.b.acks == s.b.acks + [Ack(p.sn, p.ts)] && t1.b.clk == s.b.clk;
    hide Input, InputPkt, SndOk, Inv, Onward, InBuf;
    var t2 := FlushB(t1);
    var q := AckSent(t1.b, n);
    t := InputA(t2, q);
    Onwards(s, t1, t2);
    Onwards(s, t2, t);
    assert Todo(t2) == Todo(s);
  }

  lemma AckSent(k: Kcb, i: nat) returns (q: Pkt)
    requires k.clk.updated && i < |k.acks|
    ensures q in Flush(false, k).1 && q.cmd == CMD_ACK && q.sn == k.acks[i].sn
  {
    var m, h, at := FlushExactly(false, k);
    q := Flush(false, k).1[i];
    hide Flush, Renewed, FirstSent, Carry, Due;
  }

  /** A closed window is asked about, and the answer opens it. */
  lemma OpenWindow(s: Sys) returns (t: Sys)
    requires Inv(s) && s.a.clk.updated && s.a.cc.cwnd >= 1 && s.b.clk.updated && |s.b.rcv.queue| < s.b.cfg.rcvWnd
    ensures Onward(s, t) && t.b.rcv == s.b.rcv && t.b.clk.updated
    ensures t.a.clk.updated && t.a.cc.cwnd >= 1 && t.a.cc.rmtWnd >= 1
  {
    if s.a.cc.rmtWnd >= 1 {
      Stay(s);
      return s;
    }
    var s1, p := Ask(s);
    var s2, q := Answer(s1, p);
    hide Inv, Onward, Flush;
    var s3 := InputA(s2, q);
    t := FlushA(s3);
    AfterFlushOf(s3);
    Onwards(s, s1, s2);
    Onwards(s, s2, s3);
    Onwards(s, s3, t);
  }

  lemma AfterFlushOf(s: Sys)
    requires Inv(s)
    ensures var k' := Flush(false, s.a).0;
            && k'.cc.rmtWnd == s.a.cc.rmtWnd && k'.clk == s.a.clk && k'.snd.una == s.a.snd.una
            && (s.a.clk.updated ==> k'.cc.cwnd >= 1)
  {
    AfterFlush(s.a, s.abDir.hist);
    hide Flush, DirInv;
  }

  /** The probe timer is started if need be, and when it is over the peer is asked for its window. */
  lemma Ask(s: Sys) returns (t: Sys, p: Pkt)
    requires Inv(s) && s.a.clk.updated && s.a.cc.rmtWnd == 0
    ensures Onward(s, t) && t.b == s.b && t.a.clk.updated && t.a.cc.rmtWnd == 0
    ensures p in t.ab && p.cmd == CMD_WASK
  {
    var u := s;
    Stay(s);
    if s.a.cc.probeWait == 0 {
      u := FlushA(s);
      AfterFlush(s.a, s.abDir.hist);
    }
    hide Flush, Inv, SndOk;
    var k;
    k, t := ClockA(u, u.a.cc.tsProbe);
    Onwards(s, u, t);
    p := AskSent(k);
    hide Onward;
  }

  lemma AskSent(k: Kcb) returns (p: Pkt)
    requires k.clk.updated && k.cc.rmtWnd == 0 && k.cc.probeWait != 0 && k.cc.tsProbe == k.clk.current
    ensures p in Flush(false, k).1 && p.cmd == CMD_WASK
  {
    var m, h, at := FlushExactly(false, k);
    assert Asks(k);
    p := Flush(false, k).1[|k.acks|];
    hide Flush, Renewed, FirstSent, Carry, Due;
  }

  /** Whoever is asked for its window announces it. */
  lemma Answer(s: Sys, p: Pkt) returns (t: Sys, q: Pkt)
    requires Inv(s) && p in s.ab && p.cmd == CMD_WASK && s.b.clk.updated && |s.b.rcv.queue| < s.b.cfg.rcvWnd
    ensures Onward(s, t) && t.a == s.a && t.b.rcv == s.b.rcv && t.b.clk.updated
    ensures q in t.ba && q.wnd >= 1
  {
    assert SndOk(s.b.cfg, s.b.snd, s.baDir.hist);
    Asked(s.b, p, s.baDir.hist);
    hide Inv, Input, Flush, Onward;
    var t1 := InputB(s, p);
    t := FlushB(t1);
    Onwards(s, t1, t);
    q := AnnouncementSent(t1.b);
    AfterFlushOf(Swap(t1));
    FlushFrame(t1.b);
  }

  lemma FlushFrame(k: Kcb)
    ensures Flush(false, k).0.rcv == k.rcv
  {
  }

  lemma Asked(k: Kcb, p: Pkt, hist: seq<Frag>)
    requires SndOk(k.cfg, k.snd, hist) && p.cmd == CMD_WASK
    ensures var k' := Input(false, k, [p], true);
            k'.cc.askTell && k'.rcv == k.rcv && k'.clk == k.clk && k'.cfg == k.cfg
  {
    DatagramExactly(k, p, hist);
    ArrivalExactly(k, NoAck, p, hist);
    hide Input, InputPkt, SndOk;
  }

  lemma AnnouncementSent(k: Kcb) returns (q: Pkt)
    requires k.clk.updated && k.cc.askTell && |k.rcv.queue| < k.cfg.rcvWnd
    ensures q in Flush(false, k).1 && q.wnd >= 1
  {
    var m, h, at := FlushExactly(false, k);
    q := Flush(false, k).1[h - 1];
    hide Flush, Renewed, FirstSent, Carry, Due;
  }

  // ---------------------------------------------------------------- everything is delivered

  /** Both endpoints have begun, and the window of a is open by a segment at least. */
  lemma Wake(s: Sys) returns (t: Sys)
    requires Inv(s)
    ensures Onward(s, t) && t.b.rcv == s.b.rcv && t.a.clk.updated && t.b.clk.updated && t.a.cc.cwnd >= 1
  {
    var k, u := ClockA(s, 0);
    assert Inv(u);
    hide Inv, Flush, Onward, SndOk;
    t := WakeB(u);
    Onwards(s, u, t);
  }

  /** The user of b reads until nothing whole is left. */
  lemma {:induction false} ReadAll(s: Sys) returns (t: Sys)
    requires Inv(s)
    ensures Onward(s, t) && t.a == s.a && t.b.clk == s.b.clk
    ensures t.b.rcv.queue == [] || |t.b.rcv.queue| <= t.b.rcv.queue[0].frg
    decreases |s.b.rcv.queue| + |s.b.rcv.buf|
  {
    if s.b.rcv.queue == [] || |s.b.rcv.queue| <= s.b.rcv.queue[0].frg {
      Stay(s);
      return s;
    }
    var u := RecvB(s);
    assert Inv(u);
    hide Inv, Onward;
    t := ReadAll(u);
    Onwards(s, u, t);
  }

  /** The first number in flight is on the wire again, or the next one for the first time. */
  lemma SendFirst(s: Sys) returns (t: Sys, p: Pkt)
    requires Inv(s) && s.a.clk.updated && s.a.cc.cwnd >= 1 && s.a.cc.rmtWnd >= 1 && s.a.cfg.sndWnd >= 1 && Todo(s) > 0
    ensures Onward(s, t) && t.b == s.b
    ensures p in t.ab && p.cmd == CMD_PUSH && p.sn == t.a.snd.una && InBuf(t.a.snd.buf, p.sn)
  {
    var now := if s.a.snd.buf == [] then s.a.clk.current else s.a.snd.buf[0].resendts;
    var k;
    k, t := ClockA(s, now);
    var sn := s.a.snd.una;
    FirstIsSent(k, s.abDir.hist);
    var pkts := Flush(false, k).1;
    var i :| 0 <= i < |pkts| && pkts[i].cmd == CMD_PUSH && pkts[i].sn == sn;
    p := pkts[i];
    FirstIsThere(t);
    hide Inv, Onward, Flush, SndOk;
  }

  lemma FirstIsSent(k: Kcb, hist: seq<Frag>)
    requires k.clk.updated && SndOk(k.cfg, k.snd, hist) && |k.snd.buf| + |k.snd.queue| > 0
    requires k.cc.cwnd >= 1 && k.cc.rmtWnd >= 1 && k.cfg.sndWnd >= 1
    requires k.snd.buf != [] ==> k.clk.current == k.snd.buf[0].resendts
    ensures Sends(Flush(false, k).1, k.snd.una)
  {
    SentIffDue(k, hist);
    if k.snd.buf != [] {
      assert Due(k, k.snd.buf[0]);
    } else {
      assert Given(k) >= 1;
    }
    hide Flush, Sends;
  }

  lemma FirstIsThere(s: Sys)
    requires Inv(s)
    ensures s.a.snd.buf != [] ==> InBuf(s.a.snd.buf, s.a.snd.una)
  {
    assert s.a.snd.buf != [] ==> s.a.snd.buf[0].sn == s.a.snd.una;
  }

  /** The queue of b is not full after its user has read. */
  lemma ReadEnough(s: Sys) returns (t: Sys)
    requires Inv(s) && s.b.cfg.rcvWnd >= WND_RCV
    ensures Onward(s, t) && t.a == s.a && t.b.clk == s.b.clk && |t.b.rcv.queue| < t.b.cfg.rcvWnd
    ensures Todo(s) == 0 ==> t.b.rcv.queue == []
  {
    t := ReadAll(s);
    if t.b.rcv.queue != [] {
      if |t.b.rcv.queue| >= WND_RCV { Readable(t); }
      if Todo(s) == 0 {
        NothingMissing(t);
        Readable(t);
      }
    }
    hide Inv, Leads;
  }

  /** A receiver whose queue is not full has room for the first number in flight. */
  lemma WindowTakesFirst(s: Sys)
    requires Inv(s) && |s.b.rcv.queue| < s.b.cfg.rcvWnd
    ensures s.a.snd.una <= s.b.rcv.nxt
  {
    var r := s.b.rcv;
    assert r.nxt < s.a.snd.una ==> !InBuf(s.a.snd.buf, r.nxt) && r.nxt in Held(r);
    hide Said, WireData, WireAcks, AcksHeld;
  }

  /** Windows as ikcp_wndsize leaves them: a receive window with room for any message. */
  predicate Open(s: Sys) {
    s.a.cfg.sndWnd >= 1 && s.b.cfg.rcvWnd >= WND_RCV
  }

  /** One round: the user reads, the windows open, the first segment arrives, and its acknowledgement comes back. */
  lemma Round(s: Sys) returns (t: Sys)
    requires Inv(s) && Open(s) && Todo(s) > 0
    ensures Onward(s, t) && Todo(t) < Todo(s)
  {
    var t1 := Wake(s);
    var t2 := ReadEnough(t1);
    Onwards(s, t1, t2);
    var t3 := OpenWindow(t2);
    Onwards(s, t2, t3);
    if Todo(t3) < Todo(s) { return t3; }
    hide Inv, Leads;
    var t4, p := SendFirst(t3);
    Onwards(s, t3, t4);
    WindowTakesFirst(t4);
    t := Exchange(t4, p);
    Onwards(s, t4, t);
  }

  lemma {:induction false} Drain(s: Sys) returns (t: Sys)
    requires Inv(s) && Open(s)
    ensures Onward(s, t) && Todo(t) == 0 && t.b.rcv.queue == []
    decreases Todo(s)
  {
    hide Inv, Leads;
    if Todo(s) > 0 {
      var u := Round(s);
      t := Drain(u);
      Onwards(s, u, t);
    } else {
      t := ReadEnough(s);
    }
  }

  /** All that is on the wire is lost. */
  function Lose(s: Sys): Sys {
    s.(ab := {}, ba := {})
  }

  lemma LoseInv(s: Sys)
    requires Inv(s)
    ensures Inv(Lose(s))
  {
    hide SndOk, RcvOk, Said, Settled, Kept, AcksHeld;
  }

  ghost predicate Delivered(accepted: seq<bytes>, delivered: seq<bytes>, stream: bool) {
    if stream then Concat(delivered) == Concat(accepted) else delivered == accepted
  }

  /** What a accepted can be delivered by going on from s without what is on the wire. */
  ghost predicate CanDeliver(s: Sys) {
    exists t :: Leads(Lose(s), t) && Delivered(s.abDir.accepted, t.abDir.delivered, s.a.cfg.stream)
  }

  lemma Delivers(s: Sys)
    requires Inv(s) && Open(s)
    ensures CanDeliver(s)
  {
    LoseInv(s);
    var t := Drain(Lose(s));
    AllDelivered(t);
    assert Delivered(s.abDir.accepted, t.abDir.delivered, s.a.cfg.stream);
    hide DirInv, Leads;
  }

  /** From every state of every run, even if all that is on the wire is lost, both endpoints can go on so that
      everything accepted so far is delivered: nothing the network does ever blocks the connection for good. */
  lemma NeverStuck(run: seq<Sys>, events: seq<Event>, i: nat)
    requires IsRun(run, events) && i < |run|
    ensures Open(run[i]) ==> CanDeliver(run[i])
    ensures Open(Swap(run[i])) ==> CanDeliver(Swap(run[i]))
  {
    RunInv(run, events, i);
    if Open(run[i]) { Delivers(run[i]); }
    if Open(Swap(run[i])) { Delivers(Swap(run[i])); }
    hide CanDeliver;
  }
}
