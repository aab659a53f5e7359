/** What a reachable endpoint flushes always fits the wire. */
module KcpWireFlush {
  import opened KcpNum
  import opened KcpState
  import opened KcpInvariant
  import opened KcpMessages
  import opened KcpProtocol
  import opened KcpWrap
  import opened KcpWire

  /** A configuration whose values the header has room for, with the mtu and mss of ikcp_setmtu. */
  predicate HeaderFits(cfg: Config) {
    cfg.conv < W && cfg.rcvWnd <= 0xffff && cfg.mss + OVERHEAD == cfg.mtu < 0x8000_0000
  }

  predicate AckTimes(acks: seq<Ack>) {
    forall i :: 0 <= i < |acks| ==> acks[i].ts < W
  }

  predicate PktTimes(net: set<Pkt>) {
    forall p :: p in net ==> p.ts < W
  }

  /** The values that an endpoint keeps in IUINT32 and unsigned char, and puts on the wire, are such. */
  ghost predicate Machine(s: Sys) {
    && HeaderFits(s.a.cfg) && s.a.clk.current < W && AckTimes(s.a.acks) && PktTimes(s.ab)
    && forall i :: 0 <= i < |s.abDir.accepted| ==> IsBytes(s.abDir.accepted[i])
  }

  /** The arguments of a call are of their types in C. */
  predicate Typed(c: Call) {
    match c
    case DoSend(data) => IsBytes(data)
    case DoUpdate(now) => now < W
    case _ => true
  }

  lemma {:induction false} ConcatIsBytes(chunks: seq<bytes>)
    requires forall i :: 0 <= i < |chunks| ==> IsBytes(chunks[i])
    ensures IsBytes(Concat(chunks))
    decreases |chunks|
  {
    if chunks != [] { ConcatIsBytes(chunks[1..]); }
  }

  lemma {:induction false} DataIsBytes(fs: seq<Frag>, i: nat)
    requires IsBytes(DataOf(fs)) && i < |fs|
    ensures IsBytes(fs[i].data)
    decreases |fs|
  {
    var d, rest := fs[0].data, DataOf(fs[1..]);
    assert DataOf(fs) == d + rest;
    forall j | 0 <= j < |d| ensures 0 <= d[j] < 0x100 { assert DataOf(fs)[j] == d[j]; }
    forall j | 0 <= j < |rest| ensures 0 <= rest[j] < 0x100 { assert DataOf(fs)[|d| + j] == rest[j]; }
    if i > 0 { DataIsBytes(fs[1..], i - 1); }
  }

  /** A fragment that was numbered or queued fits a segment and is made of bytes. */
  lemma FragFits(s: Sys, i: nat)
    requires Inv(s) && Machine(s) && i < |s.abDir.hist + Frags(s.a.snd.queue)|
    ensures var f := (s.abDir.hist + Frags(s.a.snd.queue))[i];
            f.frg < 0x100 && OVERHEAD + |f.data| <= s.a.cfg.mtu && IsBytes(f.data)
  {
    var all := s.abDir.hist + Frags(s.a.snd.queue);
    assert Fits(s.a.cfg.mss, all[i]);
    ConcatIsBytes(s.abDir.accepted);
    DataIsBytes(all, i);
  }

  lemma FlushedPkt(s: Sys, p: Pkt)
    requires Inv(s) && Machine(s) && p in Flush(false, s.a).1
    ensures OnWire(TPkt(p)) && OVERHEAD + |p.data| <= s.a.cfg.mtu
  {
    var k := s.a;
    FlushOk(k, s.abDir.hist, Held(s.b.rcv), s.baDir.hist, s.baDir.consumed);
    FlushedShape(k, p);
    if p.cmd == CMD_PUSH {
      var hist := s.abDir.hist + Added(k, Flush(false, k).0);
      assert (s.abDir.hist + Frags(k.snd.queue))[p.sn] == hist[p.sn];
      FragFits(s, p.sn);
    }
    hide Inv, Flush, SndOk, RcvOk, Held, EndOk;
  }

  /** The fields of a flushed segment that do not depend on the connection's history. */
  lemma FlushedShape(k: Kcb, p: Pkt)
    requires k.cfg.rcvWnd <= 0xffff && k.clk.current < W && AckTimes(k.acks)
    requires p in Flush(false, k).1
    ensures KnownCmd(p.cmd) && p.wnd < 0x1_0000 && p.ts < W && (p.cmd != CMD_PUSH ==> p.data == [] && p.frg == 0)
  {
    var cc := Probe(k.cc, k.clk.current);
    var s := Admit(false, k, k.snd, Window(k.cfg, cc));
    if p in AckPkts(k) {
      var i :| 0 <= i < |AckPkts(k)| && AckPkts(k)[i] == p;
      assert p == Control(CMD_ACK, k, k.acks[i]);
    } else if p !in ProbePkts(k, cc) {
      PassShape(k, s.buf, p);
    }
  }

  lemma {:induction false} PassShape(k: Kcb, buf: seq<Seg>, p: Pkt)
    requires k.cfg.rcvWnd <= 0xffff && k.clk.current < W && p in FlushBuf(k, buf).pkts
    ensures p.cmd == CMD_PUSH && p.wnd < 0x1_0000 && p.ts < W
    decreases |buf|
  {
    var n := |buf| - 1;
    if p in FlushBuf(k, buf[..n]).pkts {
      PassShape(k, buf[..n], p);
    } else {
      assert p == PktOf(FlushSeg(k, buf[n]));
    }
  }

  /** What the bytes that one ikcp_flush of the 32-bit code hands to output are: datagrams that are non-empty
      and at most mtu bytes, and parsing them gives back the flushed list. */
  ghost predicate FlushIsRead(s: Sys)
  {
    var ps := Flush(true, TKcb(s.a)).1;
    var ds := Datagrams(s.a.cfg.conv, s.a.cfg.mtu, ps);
    && ps == TPkts(Flush(false, s.a).1)
    && (forall i :: 0 <= i < |ds| ==>
          0 < |ds[i]| <= s.a.cfg.mtu && IsBytes(ds[i]) && Parse(s.a.cfg.conv, ds[i]).stop == Done)
    && ParseAll(s.a.cfg.conv, ds) == ps
  }

  lemma StateFlushIsRead(s: Sys)
    requires Inv(s) && SmallWindows(s.a.cfg) && Machine(s)
    ensures FlushIsRead(s)
  {
    FlushT(s.a, s.abDir.hist, Held(s.b.rcv));
    var ps0 := Flush(false, s.a).1;
    var ps := TPkts(ps0);
    forall i | 0 <= i < |ps| ensures OnWire(ps[i]) && OVERHEAD + |ps[i].data| <= s.a.cfg.mtu {
      assert ps0[i] in ps0;
      FlushedPkt(s, ps0[i]);
    }
    hide Inv, Flush, OnWire, Datagrams, Parse, ParseAll, TPkts;
    DatagramsRoundTrip(s.a.cfg.conv, s.a.cfg.mtu, ps);
  }

  // ---------------------------------------------------------------- over runs

  lemma {:induction false} InputPktsTimes(k: Kcb, n: Newest, ps: seq<Pkt>)
    requires AckTimes(k.acks) && forall i :: 0 <= i < |ps| ==> ps[i].ts < W
    ensures var k' := InputPkts(false, k, n, ps).0; AckTimes(k'.acks) && k'.clk.current == k.clk.current
    decreases |ps|
  {
    if ps != [] {
      var (k1, n1) := InputPkt(false, k, n, ps[0]);
      assert AckTimes(k1.acks) && k1.clk.current == k.clk.current by {
        hide ParseUna, ParseAck, ParseData, Shrink, InWindow, NewestAck;
      }
      hide InputPkt, AckTimes;
      InputPktsTimes(k1, n1, ps[1..]);
    }
  }

  lemma EmitMachine(s: Sys, k: Kcb)
    requires Inv(s) && Machine(s) && k == s.a.(clk := k.clk) && k.clk.current < W
    ensures var (a', pkts) := Flush(false, k);
            |s.a.snd.queue| >= a'.snd.nxt - s.a.snd.nxt >= 0 && Machine(Emit(s, a', pkts))
  {
    var (a', pkts) := Flush(false, k);
    EmitInv(s, k);
    forall p | p in SetOf(pkts) ensures p.ts < W { FlushedShape(k, p); }
    assert a'.cfg == k.cfg && a'.clk == k.clk && AckTimes(a'.acks);
    hide Inv, Flush, IsBytes, HeaderFits;
  }

  /** Every call with arguments of their types keeps all values in theirs. */
  lemma StepMachine(s: Sys, c: Call)
    requires Inv(s) && Machine(s) && Machine(Swap(s)) && Allowed(s, c) && Typed(c)
    ensures Machine(StepA(s, c)) && Machine(Swap(StepA(s, c)))
  {
    hide HeaderFits, IsBytes;
    match c
    case DoSend(data) => SendBytes(s, data);
    case DoRecv(len) => hide Inv, Recv;
    case DoInput(pkts, wellFormed) =>
      assert forall i :: 0 <= i < |pkts| ==> pkts[i].ts < W;
      InputPktsTimes(s.a, NoAck, pkts);
      hide Inv, InputPkts, ParseFastack, Grow;
    case DoUpdate(now) =>
      var (clk, due) := Tick(s.a.cfg, s.a.clk, now);
      EmitMachine(s, s.a.(clk := clk));
      hide Inv, Flush;
    case DoFlush =>
      EmitMachine(s, s.a);
      hide Inv, Flush;
  }

  lemma SendBytes(s: Sys, data: bytes)
    requires Machine(s) && IsBytes(data)
    ensures Machine(SendStep(s, data))
  {
    var ret := Send(s.a.cfg, s.a.snd.queue, data).1;
    if ret >= 0 { assert IsBytes(data[..ret]); }
    hide Send, HeaderFits, AckTimes, PktTimes;
    var said, said' := s.abDir.accepted, SendStep(s, data).abDir.accepted;
    forall i | 0 <= i < |said'| ensures IsBytes(said'[i]) { assert i < |said| ==> said'[i] == said[i]; }
  }

  lemma NextMachine(s: Sys, e: Event)
    requires Inv(s) && Machine(s) && Machine(Swap(s)) && MayHappen(s, e) && Typed(e.c)
    ensures var s' := Next(s, e); Machine(s') && Machine(Swap(s')) && s'.a.cfg == s.a.cfg && s'.b.cfg == s.b.cfg
  {
    match e
    case AtA(c) =>
      StepMachine(s, c);
      StepFrame(s, c);
      hide Inv, Machine, StepA;
    case AtB(c) =>
      StepMachine(Swap(s), c);
      StepFrame(Swap(s), c);
      hide Inv, Machine, StepA;
  }

  /** A run of two such endpoints whose calls have arguments of their types. */
  ghost predicate IsMachineRun(run: seq<Sys>, events: seq<Event>) {
    && IsRun(run, events) && Machine(run[0]) && Machine(Swap(run[0]))
    && SmallWindows(run[0].a.cfg) && SmallWindows(run[0].b.cfg)
    && forall j :: 0 <= j < |events| ==> Typed(events[j].c)
  }

  lemma {:induction false} RunMachine(run: seq<Sys>, events: seq<Event>, i: nat)
    requires IsMachineRun(run, events) && i < |run|
    ensures Inv(run[i]) && Machine(run[i]) && Machine(Swap(run[i]))
    ensures SmallWindows(run[i].a.cfg) && SmallWindows(run[i].b.cfg)
    decreases i
  {
    assert |run| == |events| + 1;
    hide Inv, Machine, Next, Typed, MayHappen, SmallWindows, IsRun;
    RunInv(run, events, i);
    if i > 0 {
      var s, e := run[i - 1], events[i - 1];
      RunMachine(run, events, i - 1);
      assert Typed(e.c);
      RunStep(run, events, i - 1);
      hide IsMachineRun;
      NextMachine(s, e);
    }
  }

  lemma RunStep(run: seq<Sys>, events: seq<Event>, j: nat)
    requires IsRun(run, events) && j < |events|
    ensures var s, e := run[j], events[j];
            MayHappen(s, e) && run[j + 1] == Next(s, e)
  {
    hide Next, MayHappen, Init;
  }

  /** In every state of every run this holds of either endpoint. */
  lemma FlushRoundTrip(run: seq<Sys>, events: seq<Event>, i: nat)
    requires IsMachineRun(run, events) && i < |run|
    ensures FlushIsRead(run[i]) && FlushIsRead(Swap(run[i]))
  {
    hide FlushIsRead, Machine, IsMachineRun;
    RunMachine(run, events, i);
    StateFlushIsRead(run[i]);
    StateFlushIsRead(Swap(run[i]));
  }
}
