/** Two KCP endpoints on a network that drops, duplicates, reorders and regroups what was sent. */
module KcpProtocol {
  import opened KcpNum
  import opened KcpState
  import opened KcpInvariant
  import opened KcpMessages

  /** One direction of a connection, as an outside observer records it: what each serial number
      stood for, what ikcp_send accepted, what ikcp_recv returned. */
  datatype Dir = Dir(hist: seq<Frag>, accepted: seq<bytes>, delivered: seq<bytes>, consumed: nat)

  /** `ab` and `ba` hold every segment ever sent; delivery may use any of them, any number of times. */
  datatype Sys = Sys(a: Kcb, b: Kcb, ab: set<Pkt>, ba: set<Pkt>, abDir: Dir, baDir: Dir)

  function Swap(s: Sys): Sys {
    Sys(s.b, s.a, s.ba, s.ab, s.baDir, s.abDir)
  }

  /** The calls of one endpoint.  A datagram is any sequence of segments sent to it, perhaps cut short. */
  datatype Call =
    | DoSend(data: bytes)
    | DoRecv(len: int)
    | DoInput(pkts: seq<Pkt>, wellFormed: bool)
    | DoUpdate(now: nat)
    | DoFlush

  predicate Allowed(s: Sys, c: Call) {
    c.DoInput? ==> forall i :: 0 <= i < |c.pkts| ==> c.pkts[i] in s.ba
  }

  function SetOf(ps: seq<Pkt>): set<Pkt> {
    set p | p in ps
  }

  function Emit(s: Sys, a': Kcb, pkts: seq<Pkt>): Sys
    requires |s.a.snd.queue| >= a'.snd.nxt - s.a.snd.nxt >= 0
  {
    var added := Frags(s.a.snd.queue)[..a'.snd.nxt - s.a.snd.nxt];
    s.(a := a', ab := s.ab + SetOf(pkts), abDir := s.abDir.(hist := s.abDir.hist + added))
  }

  function SendStep(s: Sys, data: bytes): Sys
  {
    var (q, ret) := Send(s.a.cfg, s.a.snd.queue, data);
    s.(a := s.a.(snd := s.a.snd.(queue := q)),
       abDir := if ret >= 0 then s.abDir.(accepted := s.abDir.accepted + [data[..ret]]) else s.abDir)
  }

  function RecvStep(s: Sys, len: int): Sys {
    var (r, tell, ret, msg) := Recv(false, s.a.cfg, s.a.rcv, len);
    s.(a := s.a.(rcv := r, cc := s.a.cc.(askTell := s.a.cc.askTell || tell)),
       baDir := if ret >= 0 && len >= 0
                then s.baDir.(delivered := s.baDir.delivered + [msg],
                              consumed := s.baDir.consumed + MergeCount(s.a.rcv.queue))
                else s.baDir)
  }

  /** Endpoint a makes a call. */
  function StepA(s: Sys, c: Call): Sys
  {
    match c
    case DoSend(data) => SendStep(s, data)
    case DoRecv(len) => RecvStep(s, len)
    case DoInput(pkts, wellFormed) => s.(a := Input(false, s.a, pkts, wellFormed))
    case DoUpdate(now) =>
      var (a', pkts) := Update(false, s.a, now);
      UpdateGrows(s.a, now);
      Emit(s, a', pkts)
    case DoFlush =>
      var (a', pkts) := Flush(false, s.a);
      FlushGrows(s.a);
      Emit(s, a', pkts)
  }

  lemma {:induction false} AdmitGrows(k: Kcb, s: Snd, cwnd: nat)
    ensures var s' := Admit(false, k, s, cwnd); |s.queue| >= s'.nxt - s.nxt >= 0
    decreases |s.queue|
  {
    if s.queue != [] && s.nxt < s.una + cwnd {
      AdmitGrows(k, AdmitOne(k, s), cwnd);
    }
  }

  lemma FlushGrows(k: Kcb)
    ensures var (k', _) := Flush(false, k); |k.snd.queue| >= k'.snd.nxt - k.snd.nxt >= 0
  {
    AdmitGrows(k, k.snd, Window(k.cfg, Probe(k.cc, k.clk.current)));
  }

  lemma UpdateGrows(k: Kcb, now: nat)
    ensures var (k', _) := Update(false, k, now); |k.snd.queue| >= k'.snd.nxt - k.snd.nxt >= 0
  {
    var (clk, due) := Tick(k.cfg, k.clk, now);
    FlushGrows(k.(clk := clk));
  }

  // ---------------------------------------------------------------- the invariant of one direction

  /** Data on the wire is what its number stands for. */
  ghost predicate WireData(net: set<Pkt>, hist: seq<Frag>) {
    forall p :: p in net && p.cmd == CMD_PUSH ==> p.sn < |hist| && Frag(p.frg, p.data) == hist[p.sn]
  }

  /** Acknowledgements on the wire name only what the receiver has. */
  ghost predicate WireAcks(net: set<Pkt>, r: Rcv) {
    forall p :: p in net ==> p.una <= r.nxt && (p.cmd == CMD_ACK ==> p.sn in Held(r))
  }

  ghost predicate AcksHeld(acks: seq<Ack>, r: Rcv) {
    forall i :: 0 <= i < |acks| ==> acks[i].sn in Held(r)
  }

  /** Byte for byte: accepted is what is numbered or queued, delivered is what is consumed. */
  ghost predicate SaidBytes(all: seq<Frag>, d: Dir)
    requires d.consumed <= |d.hist|
  {
    DataOf(all) == Concat(d.accepted) && DataOf(d.hist[..d.consumed]) == Concat(d.delivered)
  }

  /** Message for message: the same, with boundaries. */
  ghost predicate SaidMessages(mss: pos, all: seq<Frag>, d: Dir)
  {
    all == AllFrags(mss, d.accepted) && d.delivered <= d.accepted && d.consumed == |AllFrags(mss, d.delivered)|
  }

  ghost predicate Said(cfg: Config, queue: seq<Seg>, d: Dir)
  {
    var all := d.hist + Frags(queue);
    && AllFit(cfg.mss, all) && d.consumed <= |d.hist|
    && SaidBytes(all, d) && (if cfg.stream then Unnumbered(all) else SaidMessages(cfg.mss, all, d))
  }

  /** The direction from a to b. */
  ghost predicate DirInv(s: Sys) {
    && SndOk(s.a.cfg, s.a.snd, s.abDir.hist)
    && RcvOk(s.b.cfg, s.b.rcv, s.abDir.hist, s.abDir.consumed) && Settled(s.b.cfg, s.b.rcv)
    && Kept(s.a.snd, Held(s.b.rcv))
    && WireData(s.ab, s.abDir.hist)
    && WireAcks(s.ba, s.b.rcv)
    && AcksHeld(s.b.acks, s.b.rcv)
    && Said(s.a.cfg, s.a.snd.queue, s.abDir)
  }

  ghost predicate Inv(s: Sys) {
    DirInv(s) && DirInv(Swap(s))
  }

  ghost predicate Fresh0(k: Kcb) {
    k.snd == Snd([], [], 0, 0) && k.rcv == Rcv([], [], 0) && k.acks == []
  }

  ghost predicate Init(s: Sys) {
    && Fresh0(s.a) && Fresh0(s.b) && s.ab == {} && s.ba == {}
    && s.abDir == Dir([], [], [], 0) && s.baDir == Dir([], [], [], 0)
  }

  lemma InitInv(s: Sys)
    requires Init(s)
    ensures Inv(s)
  {
    InitDir(s);
    InitDir(Swap(s));
    hide DirInv;
  }

  lemma InitDir(s: Sys)
    requires Init(s)
    ensures DirInv(s)
  {
    NothingSaid(s.a.cfg);
    hide Said;
  }

  lemma NothingSaid(cfg: Config)
    ensures Said(cfg, [], Dir([], [], [], 0))
  {
  }

  // ---------------------------------------------------------------- input

  /** An endpoint as both directions see it: a sender whose lost segments are `held` by the peer,
      and a receiver of the peer's history. */
  ghost predicate EndOk(k: Kcb, h1: seq<Frag>, held: iset<nat>, h2: seq<Frag>, consumed: nat) {
    && SndOk(k.cfg, k.snd, h1) && Kept(k.snd, held)
    && RcvOk(k.cfg, k.rcv, h2, consumed) && Settled(k.cfg, k.rcv) && AcksHeld(k.acks, k.rcv)
  }

  /** k' comes later: nothing the receiver had is lost, snd_una did not go back, nothing new is numbered. */
  ghost predicate Later(k: Kcb, k': Kcb) {
    && k'.cfg == k.cfg && k'.rcv.nxt >= k.rcv.nxt && Held(k.rcv) <= Held(k'.rcv)
    && k'.snd.una >= k.snd.una && k'.snd.queue == k.snd.queue && k'.snd.nxt == k.snd.nxt
  }

  ghost predicate PktOk(p: Pkt, held: iset<nat>, h2: seq<Frag>) {
    && (forall sn: nat :: sn < p.una ==> sn in held)
    && (p.cmd == CMD_ACK ==> p.sn in held)
    && (p.cmd == CMD_PUSH ==> p.sn < |h2| && Frag(p.frg, p.data) == h2[p.sn])
  }

  lemma InputPktOk(k: Kcb, n: Newest, p: Pkt, h1: seq<Frag>, held: iset<nat>, h2: seq<Frag>, consumed: nat)
    requires EndOk(k, h1, held, h2, consumed) && PktOk(p, held, h2)
    ensures var (k', _) := InputPkt(false, k, n, p); EndOk(k', h1, held, h2, consumed) && Later(k, k')
  {
    hide SndOk, Kept, RcvOk, Settled, Held, UpdateAck, NewestAck;
    ParseUnaOk(k.cfg, k.snd, h1, held, p.una);
    var s1 := Shrink(ParseUna(false, k.snd, p.una));
    if p.cmd == CMD_ACK {
      ParseAckOk(k.cfg, s1, h1, held, p.sn);
    } else if p.cmd == CMD_PUSH && p.sn < k.rcv.nxt + k.cfg.rcvWnd {
      ParseDataOk(k.cfg, k.rcv, h2, consumed, SegOf(p));
    }
  }

  lemma {:induction false} InputPktsOk(k: Kcb, n: Newest, ps: seq<Pkt>, h1: seq<Frag>, held: iset<nat>,
                                       h2: seq<Frag>, consumed: nat)
    requires EndOk(k, h1, held, h2, consumed)
    requires forall i :: 0 <= i < |ps| ==> PktOk(ps[i], held, h2)
    ensures var (k', _) := InputPkts(false, k, n, ps); EndOk(k', h1, held, h2, consumed) && Later(k, k')
    decreases |ps|
  {
    if ps != [] {
      InputPktOk(k, n, ps[0], h1, held, h2, consumed);
      var (k1, n1) := InputPkt(false, k, n, ps[0]);
      hide EndOk, InputPkt, PktOk, Held;
      InputPktsOk(k1, n1, ps[1..], h1, held, h2, consumed);
    }
  }

  lemma InputOk(k: Kcb, ps: seq<Pkt>, wellFormed: bool, h1: seq<Frag>, held: iset<nat>, h2: seq<Frag>, consumed: nat)
    requires EndOk(k, h1, held, h2, consumed)
    requires forall i :: 0 <= i < |ps| ==> PktOk(ps[i], held, h2)
    ensures var k' := Input(false, k, ps, wellFormed); EndOk(k', h1, held, h2, consumed) && Later(k, k')
  {
    InputPktsOk(k, NoAck, ps, h1, held, h2, consumed);
    var (k1, n) := InputPkts(false, k, NoAck, ps);
    if n.Newest? {
      ParseFastackOk(k.cfg, k1.snd, h1, held, n.sn, n.ts);
    }
    hide SndOk, Kept, RcvOk, Settled, AcksHeld, Held, ParseFastack, Grow, InputPkts;
  }

  // ---------------------------------------------------------------- flush

  /** What a flush may put on the wire. */
  ghost predicate Sendable(p: Pkt, r: Rcv, hist: seq<Frag>) {
    && p.una == r.nxt && (p.cmd == CMD_ACK ==> p.sn in Held(r))
    && (p.cmd == CMD_PUSH ==> p.sn < |hist| && Frag(p.frg, p.data) == hist[p.sn])
  }

  function Added(k: Kcb, k': Kcb): seq<Frag>
    requires |k.snd.queue| >= k'.snd.nxt - k.snd.nxt >= 0
  {
    Frags(k.snd.queue)[..k'.snd.nxt - k.snd.nxt]
  }

  lemma ControlOk(k: Kcb, cc: Cong, hist: seq<Frag>)
    requires AcksHeld(k.acks, k.rcv)
    ensures forall p :: p in AckPkts(k) + ProbePkts(k, cc) ==> Sendable(p, k.rcv, hist)
  {
  }

  lemma FlushOk(k: Kcb, h1: seq<Frag>, held: iset<nat>, h2: seq<Frag>, consumed: nat)
    requires EndOk(k, h1, held, h2, consumed)
    ensures var (k', pkts) := Flush(false, k);
            && |k.snd.queue| >= k'.snd.nxt - k.snd.nxt >= 0
            && EndOk(k', h1 + Added(k, k'), held, h2, consumed)
            && k'.rcv == k.rcv && k'.cfg == k.cfg && k'.snd.una == k.snd.una
            && k'.snd.queue == k.snd.queue[k'.snd.nxt - k.snd.nxt..]
            && forall p :: p in pkts ==> Sendable(p, k.rcv, h1 + Added(k, k'))
  {
    FlushGrows(k);
    var (k', pkts) := Flush(false, k);
    var hist := h1 + Added(k, k');
    if k.clk.updated {
      var cc := Probe(k.cc, k.clk.current);
      var w := Window(k.cfg, cc);
      var s := Admit(false, k, k.snd, w);
      AdmitOk(k.cfg, k, k.snd, h1, held, w);
      FlushBufOk(k, s.buf, hist);
      FlushBufKeeps(k, s, hist, held);
      ControlOk(k, cc, hist);
      FlushEndSendable(k, cc, s, FlushBuf(k, s.buf), hist);
      hide SndOk, Kept, Held, RcvOk, Settled, Admit, FlushBuf, Probe, Window, Added, Sendable, Backoff, AckPkts,
        ProbePkts;
    } else {
      assert Added(k, k') == [] && h1 + [] == h1 && k.snd.queue[0..] == k.snd.queue;
    }
  }

  lemma FlushEndSendable(k: Kcb, cc: Cong, s: Snd, pass: Pass, hist: seq<Frag>)
    requires forall p :: p in AckPkts(k) + ProbePkts(k, cc) ==> Sendable(p, k.rcv, hist)
    requires forall i :: 0 <= i < |pass.pkts| ==> DataPkt(k, pass.pkts[i], hist)
    ensures forall p :: p in FlushEnd(false, k, cc, s, pass).1 ==> Sendable(p, k.rcv, hist)
  {
  }

  lemma {:induction false} FlushBufKeeps(k: Kcb, s: Snd, hist: seq<Frag>, held: iset<nat>)
    requires SndOk(k.cfg, s, hist) && Kept(s, held)
    ensures var s' := s.(buf := FlushBuf(k, s.buf).buf); SndOk(k.cfg, s', hist) && Kept(s', held)
  {
    FlushBufOk(k, s.buf, hist);
  }

  // ---------------------------------------------------------------- every call keeps the invariant

  lemma RcvOkGrows(cfg: Config, r: Rcv, h: seq<Frag>, h': seq<Frag>, consumed: nat)
    requires RcvOk(cfg, r, h, consumed) && h <= h'
    ensures RcvOk(cfg, r, h', consumed)
  {
  }

  lemma SendInv(s: Sys, data: bytes)
    requires Inv(s)
    ensures Inv(SendStep(s, data))
  {
    var cfg, queue := s.a.cfg, s.a.snd.queue;
    var (q, ret) := Send(cfg, queue, data);
    SaidSend(cfg, queue, s.abDir, data);
    hide Said, RcvOk, Held, Send, Kept, Settled, WireData, WireAcks, AcksHeld;
  }

  lemma SaidSend(cfg: Config, queue: seq<Seg>, d: Dir, data: bytes)
    requires Said(cfg, queue, d)
    ensures var (q, ret) := Send(cfg, queue, data);
            && ret <= |data|
            && Said(cfg, q, if ret >= 0 then d.(accepted := d.accepted + [data[..ret]]) else d)
  {
    AllFitJoin(cfg.mss, d.hist, Frags(queue));
    SendOk(cfg, queue, data);
    var (q, ret) := Send(cfg, queue, data);
    AllFitJoin(cfg.mss, d.hist, Frags(q));
    UnnumberedJoin(d.hist, Frags(queue));
    UnnumberedJoin(d.hist, Frags(q));
    if cfg.stream { SendUnnumbered(cfg, queue, data); }
    assert ret >= 0 && !cfg.stream ==> data[..ret] == data;
    hide Send, DataOf, Concat, AllFrags, AllFit, Frags, MsgFrags, Unnumbered;
    if ret >= 0 {
      AcceptBytes(d, Frags(queue), Frags(q), data[..ret]);
      if !cfg.stream {
        AcceptMessage(cfg.mss, d, Frags(queue), data);
      }
      hide SaidBytes, SaidMessages;
    }
  }

  lemma UnnumberedJoin(a: seq<Frag>, b: seq<Frag>)
    ensures Unnumbered(a + b) <==> Unnumbered(a) && Unnumbered(b)
  {
    assert Unnumbered(a + b) ==> forall i :: 0 <= i < |a| ==> a[i] == (a + b)[i];
    assert Unnumbered(a + b) ==> forall i :: 0 <= i < |b| ==> b[i] == (a + b)[|a| + i];
  }

  lemma AllFitJoin(mss: pos, a: seq<Frag>, b: seq<Frag>)
    ensures AllFit(mss, a + b) <==> AllFit(mss, a) && AllFit(mss, b)
  {
    forall i | 0 <= i < |b| && AllFit(mss, a + b) ensures Fits(mss, b[i]) {
      assert (a + b)[|a| + i] == b[i];
    }
    forall i | 0 <= i < |a| && AllFit(mss, a + b) ensures Fits(mss, a[i]) {
      assert (a + b)[i] == a[i];
    }
  }

  lemma {:induction false} ConcatMore(chunks: seq<bytes>, chunk: bytes)
    ensures Concat(chunks + [chunk]) == Concat(chunks) + chunk
  {
    ConcatJoin(chunks, [chunk]);
    assert Concat([chunk]) == chunk + Concat([]) == chunk;
  }

  lemma {:induction false} AllFragsMore(mss: pos, msgs: seq<bytes>, msg: bytes)
    ensures AllFrags(mss, msgs + [msg]) == AllFrags(mss, msgs) + MsgFrags(mss, msg)
  {
    AllFragsJoin(mss, msgs, [msg]);
    assert AllFrags(mss, [msg]) == MsgFrags(mss, msg) + AllFrags(mss, []) == MsgFrags(mss, msg);
  }

  lemma {:induction false} AcceptBytes(d: Dir, q: seq<Frag>, q': seq<Frag>, chunk: bytes)
    requires d.consumed <= |d.hist| && SaidBytes(d.hist + q, d) && DataOf(q') == DataOf(q) + chunk
    ensures SaidBytes(d.hist + q', d.(accepted := d.accepted + [chunk]))
  {
    ConcatMore(d.accepted, chunk);
    DataOfJoin(d.hist, q);
    DataOfJoin(d.hist, q');
    hide DataOf, Concat;
    assert (DataOf(d.hist) + DataOf(q)) + chunk == DataOf(d.hist) + (DataOf(q) + chunk);
  }

  lemma AcceptMessage(mss: pos, d: Dir, q: seq<Frag>, msg: bytes)
    requires SaidMessages(mss, d.hist + q, d)
    ensures SaidMessages(mss, d.hist + (q + MsgFrags(mss, msg)), d.(accepted := d.accepted + [msg]))
  {
    AllFragsMore(mss, d.accepted, msg);
    assert (d.hist + q) + MsgFrags(mss, msg) == d.hist + (q + MsgFrags(mss, msg));
  }

  lemma RecvInv(s: Sys, len: int)
    requires Inv(s)
    ensures Inv(RecvStep(s, len))
  {
    RecvBackward(s, len);
    hide DirInv, RecvStep;
  }

  lemma RecvBackward(s: Sys, len: int)
    requires DirInv(Swap(s))
    ensures DirInv(Swap(RecvStep(s, len)))
  {
    hide Recv, RecvStep, RcvOk, SndOk, Said, Settled, MergeCount, Held, WireData, WireAcks, Kept, AcksHeld;
    var d, r := s.baDir, s.a.rcv;
    RecvOk(s.a.cfg, r, d.hist, d.consumed, len);
    SaidRecv(s.b.cfg, s.b.snd.queue, d, s.a.cfg, r, len);
    HeldGrows(s.b.snd, s.ab, s.a.acks, r, Recv(false, s.a.cfg, r, len).0);
    RecvEffect(s, len);
  }

  lemma RecvEffect(s: Sys, len: int)
    ensures var (r, tell, ret, msg) := Recv(false, s.a.cfg, s.a.rcv, len);
            var s' := RecvStep(s, len);
            && s'.b == s.b && s'.ab == s.ab && s'.ba == s.ba && s'.abDir == s.abDir
            && s'.a.cfg == s.a.cfg && s'.a.snd == s.a.snd && s'.a.acks == s.a.acks && s'.a.rcv == r
            && s'.baDir == if ret >= 0 && len >= 0
                           then s.baDir.(delivered := s.baDir.delivered + [msg],
                               consumed := s.baDir.consumed + MergeCount(s.a.rcv.queue))
                           else s.baDir
  {
    hide Recv, MergeCount;
  }

  /** What is known of the receiver stays true as it gets more. */
  lemma HeldGrows(snd: Snd, net: set<Pkt>, acks: seq<Ack>, r: Rcv, r': Rcv)
    requires Held(r) <= Held(r') && r.nxt <= r'.nxt
    ensures Kept(snd, Held(r)) ==> Kept(snd, Held(r'))
    ensures WireAcks(net, r) ==> WireAcks(net, r')
    ensures AcksHeld(acks, r) ==> AcksHeld(acks, r')
  {
    hide Held;
  }

  lemma SaidRecv(cfg: Config, queue: seq<Seg>, d: Dir, rcfg: Config, r: Rcv, len: int)
    requires Said(cfg, queue, d) && RcvOk(rcfg, r, d.hist, d.consumed)
    ensures var (r', _, ret, msg) := Recv(false, rcfg, r, len);
            ret >= 0 && len >= 0 ==>
              Said(cfg, queue, d.(delivered := d.delivered + [msg], consumed := d.consumed + MergeCount(r.queue)))
  {
    hide Said, MergeCount, Merge;
    var (r', _, ret, msg) := Recv(false, rcfg, r, len);
    if ret >= 0 && len >= 0 {
      assert Frags(r.queue) == d.hist[d.consumed..r.nxt];
      SaidNext(cfg, queue, d, r.queue);
    }
  }

  /** The next message taken from a queue that continues the history. */
  lemma {:induction false} SaidNext(cfg: Config, queue: seq<Seg>, d: Dir, q: seq<Seg>)
    requires Said(cfg, queue, d) && q != [] && |q| >= q[0].frg + 1
    requires d.consumed + |q| <= |d.hist| && Frags(q) == d.hist[d.consumed..d.consumed + |q|]
    ensures Said(cfg, queue, d.(delivered := d.delivered + [Merge(q)], consumed := d.consumed + MergeCount(q)))
  {
    hide Merge, MergeCount, DataOf, Concat, AllFrags, SaidBytes;
    var all := d.hist + Frags(queue);
    DeliverBytes(d, all, q);
    if !cfg.stream {
      NextMessage(cfg.mss, d, all, q);
    }
  }

  lemma {:induction false} DeliverBytes(d: Dir, all: seq<Frag>, q: seq<Seg>)
    requires d.consumed + |q| <= |d.hist| && SaidBytes(all, d)
    requires Frags(q) == d.hist[d.consumed..d.consumed + |q|]
    ensures SaidBytes(all, d.(delivered := d.delivered + [Merge(q)], consumed := d.consumed + MergeCount(q)))
  {
    var c, n := d.consumed, MergeCount(q);
    MergeData(q);
    hide DataOf, Concat, Merge, MergeCount;
    assert Frags(q[..n]) == Frags(q)[..n] == d.hist[c..c + n];
    assert d.hist[..c] + d.hist[c..c + n] == d.hist[..c + n];
    DataOfJoin(d.hist[..c], d.hist[c..c + n]);
    ConcatMore(d.delivered, Merge(q));
  }

  /** Outside stream mode what ikcp_recv merges is the first message not yet delivered. */
  lemma {:induction false} NextMessage(mss: pos, d: Dir, all: seq<Frag>, q: seq<Seg>)
    requires all == AllFrags(mss, d.accepted) && d.delivered <= d.accepted
    requires d.consumed == |AllFrags(mss, d.delivered)|
    requires q != [] && |q| >= q[0].frg + 1
    requires d.consumed + |q| <= |all| && Frags(q) == all[d.consumed..d.consumed + |q|]
    ensures d.delivered + [Merge(q)] <= d.accepted
    ensures d.consumed + MergeCount(q) == |AllFrags(mss, d.delivered + [Merge(q)])|
  {
    var n := |d.delivered|;
    var rest := d.accepted[n..];
    assert d.accepted == d.delivered + rest;
    AllFragsJoin(mss, d.delivered, rest);
    assert all[d.consumed..] == AllFrags(mss, rest);
    assert rest != [];
    var msg := rest[0];
    var later := AllFrags(mss, rest[1..]);
    assert Frags(q) == all[d.consumed..][..|q|];
    assert Frags(q) <= MsgFrags(mss, msg) + later;
    MergesMessage(mss, q, msg, later);
    AllFragsMore(mss, d.delivered, msg);
  }

  lemma InputInv(s: Sys, pkts: seq<Pkt>, wellFormed: bool)
    requires Inv(s) && Allowed(s, DoInput(pkts, wellFormed))
    ensures Inv(s.(a := Input(false, s.a, pkts, wellFormed)))
  {
    var held := Held(s.b.rcv);
    forall i | 0 <= i < |pkts| ensures PktOk(pkts[i], held, s.baDir.hist) {
      assert pkts[i] in s.ba;
    }
    InputOk(s.a, pkts, wellFormed, s.abDir.hist, held, s.baDir.hist, s.baDir.consumed);
    hide Said, RcvOk, SndOk, Held, Input, Settled;
  }

  lemma EmitInv(s: Sys, k: Kcb)
    requires Inv(s) && k == s.a.(clk := k.clk)
    ensures var (a', pkts) := Flush(false, k);
            |s.a.snd.queue| >= a'.snd.nxt - s.a.snd.nxt >= 0 && Inv(Emit(s, a', pkts))
  {
    var (a', pkts) := Flush(false, k);
    FlushOk(k, s.abDir.hist, Held(s.b.rcv), s.baDir.hist, s.baDir.consumed);
    hide Flush, Said, SndOk, RcvOk, Held, Kept, Settled, WireData, Sendable, Frags;
    EmitForward(s, k, a', pkts);
    EmitBackward(s, k, a', pkts);
    hide DirInv;
  }

  lemma EmitBackward(s: Sys, k: Kcb, a': Kcb, pkts: seq<Pkt>)
    requires DirInv(Swap(s)) && Flushed(s, k, a', pkts)
    ensures DirInv(Swap(Emit(s, a', pkts)))
  {
    hide Said, SndOk, RcvOk, Held, Kept, Settled, WireData;
  }

  /** What a flush of k leaves and sends. */
  ghost predicate Flushed(s: Sys, k: Kcb, a': Kcb, pkts: seq<Pkt>) {
    && k == s.a.(clk := k.clk) && |k.snd.queue| >= a'.snd.nxt - k.snd.nxt >= 0
    && EndOk(a', s.abDir.hist + Added(k, a'), Held(s.b.rcv), s.baDir.hist, s.baDir.consumed)
    && a'.rcv == k.rcv && a'.cfg == k.cfg && a'.snd.queue == k.snd.queue[a'.snd.nxt - k.snd.nxt..]
    && forall p :: p in pkts ==> Sendable(p, k.rcv, s.abDir.hist + Added(k, a'))
  }

  lemma EmitForward(s: Sys, k: Kcb, a': Kcb, pkts: seq<Pkt>)
    requires DirInv(s) && Flushed(s, k, a', pkts)
    ensures DirInv(Emit(s, a', pkts))
  {
    hide RcvOk, SndOk, Held, Settled, Kept, DataOf, Concat, AllFit, AllFrags, WireData, WireAcks, AcksHeld, Sendable;
    var d, n := s.abDir, a'.snd.nxt - k.snd.nxt;
    var s' := Emit(s, a', pkts);
    var h' := s'.abDir.hist;
    RcvOkGrows(s.b.cfg, s.b.rcv, d.hist, h', d.consumed);
    assert Frags(a'.snd.queue) == Frags(k.snd.queue)[n..];
    assert h' + Frags(a'.snd.queue) == d.hist + Frags(k.snd.queue);
    assert h'[..d.consumed] == d.hist[..d.consumed];
    WireDataGrows(s.ab, pkts, k.rcv, d.hist, h');
  }

  lemma WireDataGrows(net: set<Pkt>, pkts: seq<Pkt>, r: Rcv, h: seq<Frag>, h': seq<Frag>)
    requires WireData(net, h) && h <= h' && forall p :: p in pkts ==> Sendable(p, r, h')
    ensures WireData(net + SetOf(pkts), h')
  {
  }

  /** Every call an endpoint makes keeps the invariant of both directions. */
  lemma StepInv(s: Sys, c: Call)
    requires Inv(s) && Allowed(s, c)
    ensures Inv(StepA(s, c))
  {
    hide Inv, SendStep, RecvStep, Input, Flush, Emit, Allowed;
    assert c.DoInput? ==> Allowed(s, c);
    match c
    case DoSend(data) => SendInv(s, data);
    case DoRecv(len) => RecvInv(s, len);
    case DoInput(pkts, wellFormed) => InputInv(s, pkts, wellFormed);
    case DoUpdate(now) =>
      var (clk, due) := Tick(s.a.cfg, s.a.clk, now);
      EmitInv(s, s.a.(clk := clk));
      if !due { NoFlushInv(s, clk); }
    case DoFlush => EmitInv(s, s.a);
  }

  lemma NoFlushInv(s: Sys, clk: Clock)
    requires Inv(s)
    ensures Inv(Emit(s, s.a.(clk := clk), []))
  {
    assert SetOf([]) == {} && s.abDir.hist + [] == s.abDir.hist;
  }

  // ---------------------------------------------------------------- whole runs

  /** One call by either endpoint. */
  datatype Event = AtA(c: Call) | AtB(c: Call)

  predicate MayHappen(s: Sys, e: Event) {
    match e
    case AtA(c) => Allowed(s, c)
    case AtB(c) => Allowed(Swap(s), c)
  }

  function Next(s: Sys, e: Event): Sys
  {
    match e
    case AtA(c) => StepA(s, c)
    case AtB(c) => Swap(StepA(Swap(s), c))
  }

  lemma NextInv(s: Sys, e: Event)
    requires Inv(s) && MayHappen(s, e)
    ensures Inv(Next(s, e))
  {
    match e
    case AtA(c) => StepInv(s, c);
    case AtB(c) => StepInv(Swap(s), c);
  }

  /** A run from the start: each state follows from the one before by an event that may happen. */
  ghost predicate IsRun(run: seq<Sys>, events: seq<Event>) {
    && |run| == |events| + 1 && Init(run[0])
    && forall i :: 0 <= i < |events| ==>
         MayHappen(run[i], events[i]) && run[i + 1] == Next(run[i], events[i])
  }

  lemma {:induction false} RunInv(run: seq<Sys>, events: seq<Event>, i: nat)
    requires IsRun(run, events) && i < |run|
    ensures Inv(run[i])
    decreases i
  {
    if i == 0 {
      InitInv(run[0]);
    } else {
      RunInv(run, events, i - 1);
      NextInv(run[i - 1], events[i - 1]);
    }
  }

  /** The law of the protocol: in every state of every run, what one side received is a prefix
      of what the other sent: message for message, or byte for byte in stream mode. */
  lemma DeliveredIsPrefix(run: seq<Sys>, events: seq<Event>, i: nat)
    requires IsRun(run, events) && i < |run|
    ensures Concat(run[i].abDir.delivered) <= Concat(run[i].abDir.accepted)
    ensures Concat(run[i].baDir.delivered) <= Concat(run[i].baDir.accepted)
    ensures !run[i].a.cfg.stream ==> run[i].abDir.delivered <= run[i].abDir.accepted
    ensures !run[i].b.cfg.stream ==> run[i].baDir.delivered <= run[i].baDir.accepted
  {
    RunInv(run, events, i);
    SaidPrefix(run[i].a.cfg, run[i].a.snd.queue, run[i].abDir);
    SaidPrefix(run[i].b.cfg, run[i].b.snd.queue, run[i].baDir);
  }

  lemma SaidPrefix(cfg: Config, queue: seq<Seg>, d: Dir)
    requires Said(cfg, queue, d)
    ensures Concat(d.delivered) <= Concat(d.accepted)
  {
    var all := d.hist + Frags(queue);
    assert all == d.hist[..d.consumed] + all[d.consumed..];
    DataOfJoin(d.hist[..d.consumed], all[d.consumed..]);
  }

  /** Segment sn is in the queue with the contents it stands for. */
  ghost predicate Has(buf: seq<Seg>, sn: nat, hist: seq<Frag>) {
    exists j :: 0 <= j < |buf| && buf[j].sn == sn < |hist| && FragOf(buf[j]) == hist[sn]
  }

  /** No segment is lost: each number below snd_nxt is still in snd_buf, with its contents, or the
      peer has it: read, queued, or in rcv_buf with its contents. */
  lemma NothingLost(run: seq<Sys>, events: seq<Event>, i: nat, sn: nat)
    requires IsRun(run, events) && i < |run|
    ensures sn < run[i].a.snd.nxt ==>
              Has(run[i].a.snd.buf, sn, run[i].abDir.hist) || sn < run[i].b.rcv.nxt
                  || Has(run[i].b.rcv.buf, sn, run[i].abDir.hist)
    ensures sn < run[i].b.snd.nxt ==>
              Has(run[i].b.snd.buf, sn, run[i].baDir.hist) || sn < run[i].a.rcv.nxt
                  || Has(run[i].a.rcv.buf, sn, run[i].baDir.hist)
  {
    RunInv(run, events, i);
    NothingLostIn(run[i], sn);
    NothingLostIn(Swap(run[i]), sn);
    hide DirInv, Has;
  }

  lemma NothingLostIn(s: Sys, sn: nat)
    requires DirInv(s)
    ensures sn < s.a.snd.nxt ==>
              Has(s.a.snd.buf, sn, s.abDir.hist) || sn < s.b.rcv.nxt || Has(s.b.rcv.buf, sn, s.abDir.hist)
  {
    MatchesHas(s.a.snd.buf, sn, s.abDir.hist);
    MatchesHas(s.b.rcv.buf, sn, s.abDir.hist);
    hide InBuf, Has, Matches, Sorted, Said, Settled, Within;
  }

  lemma MatchesHas(buf: seq<Seg>, sn: nat, hist: seq<Frag>)
    ensures Matches(buf, hist) && InBuf(buf, sn) ==> Has(buf, sn, hist)
  {
  }

  /** Every acknowledgement on the wire, selective or cumulative, names only what the receiver has;
      so does everything below snd_una. */
  lemma AcksAreTrue(run: seq<Sys>, events: seq<Event>, i: nat, p: Pkt, sn: nat)
    requires IsRun(run, events) && i < |run|
    ensures p in run[i].ba && (sn < p.una || (p.cmd == CMD_ACK && sn == p.sn)) ==> sn in Held(run[i].b.rcv)
    ensures p in run[i].ab && (sn < p.una || (p.cmd == CMD_ACK && sn == p.sn)) ==> sn in Held(run[i].a.rcv)
    ensures sn < run[i].a.snd.una ==> sn in Held(run[i].b.rcv)
    ensures sn < run[i].b.snd.una ==> sn in Held(run[i].a.rcv)
  {
    RunInv(run, events, i);
    var s := run[i];
    hide SndOk, RcvOk, Said;
  }

  /** Nothing either endpoint had or said is taken back. */
  ghost predicate Advances(s: Sys, s': Sys) {
    && s.a.snd.una <= s'.a.snd.una && s.a.rcv.nxt <= s'.a.rcv.nxt && Held(s.a.rcv) <= Held(s'.a.rcv)
    && s.abDir.accepted <= s'.abDir.accepted && s.abDir.delivered <= s'.abDir.delivered
  }

  /** snd_una and rcv_nxt never go back, and what the receiver has it keeps. */
  lemma {:induction false} ProgressKept(run: seq<Sys>, events: seq<Event>, i: nat, j: nat)
    requires IsRun(run, events) && i <= j < |run|
    ensures Advances(run[i], run[j]) && Advances(Swap(run[i]), Swap(run[j]))
    decreases j
  {
    hide IsRun, Held, Inv;
    if i < j {
      StepAdvances(run, events, j - 1);
      ProgressKept(run, events, i, j - 1);
    }
  }

  lemma StepAdvances(run: seq<Sys>, events: seq<Event>, j: nat)
    requires IsRun(run, events) && j + 1 < |run|
    ensures Advances(run[j], run[j + 1]) && Advances(Swap(run[j]), Swap(run[j + 1]))
  {
    RunInv(run, events, j);
    assert MayHappen(run[j], events[j]) && run[j + 1] == Next(run[j], events[j]);
    hide Inv, Next, MayHappen, Advances;
    NextKeeps(run[j], events[j]);
  }

  lemma NextKeeps(s: Sys, e: Event)
    requires Inv(s) && MayHappen(s, e)
    ensures Advances(s, Next(s, e)) && Advances(Swap(s), Swap(Next(s, e)))
  {
    match e
    case AtA(c) =>
      StepKeeps(s, c);
      PeerKeeps(Swap(s), c);
    case AtB(c) =>
      StepKeeps(Swap(s), c);
      PeerKeeps(s, c);
  }

  lemma PeerKeeps(s: Sys, c: Call)
    requires Inv(s)
    ensures Advances(s, Swap(StepA(Swap(s), c)))
  {
  }

  lemma StepKeeps(s: Sys, c: Call)
    requires Inv(s) && Allowed(s, c)
    ensures Advances(s, StepA(s, c))
  {
    match c
    case DoSend(data) => hide Held, Send, Inv;
    case DoRecv(len) =>
      RecvOk(s.a.cfg, s.a.rcv, s.baDir.hist, s.baDir.consumed, len);
      hide Held, Recv, Inv, RcvOk;
    case DoInput(pkts, wellFormed) =>
      InputKeeps(s, pkts, wellFormed);
      hide Held, Input, Inv;
    case DoUpdate(now) =>
      var (clk, due) := Tick(s.a.cfg, s.a.clk, now);
      FlushKeeps(s, s.a.(clk := clk));
      hide Held, Flush, Inv;
    case DoFlush =>
      FlushKeeps(s, s.a);
      hide Held, Flush, Inv;
  }

  lemma FlushKeeps(s: Sys, k: Kcb)
    requires Inv(s) && k == s.a.(clk := k.clk)
    ensures Flush(false, k).0.rcv == s.a.rcv && Flush(false, k).0.snd.una == s.a.snd.una
  {
    FlushOk(k, s.abDir.hist, Held(s.b.rcv), s.baDir.hist, s.baDir.consumed);
    hide Flush, SndOk, RcvOk, Said, Held;
  }

  lemma InputKeeps(s: Sys, pkts: seq<Pkt>, wellFormed: bool)
    requires Inv(s) && Allowed(s, DoInput(pkts, wellFormed))
    ensures Later(s.a, Input(false, s.a, pkts, wellFormed))
  {
    var held := Held(s.b.rcv);
    forall i | 0 <= i < |pkts| ensures PktOk(pkts[i], held, s.baDir.hist) {
      assert pkts[i] in s.ba;
    }
    InputOk(s.a, pkts, wellFormed, s.abDir.hist, held, s.baDir.hist, s.baDir.consumed);
    hide Said, RcvOk, SndOk, Held, Input, Settled;
  }
}
