/** Two endpoints of the 32-bit code that exchange the bytes of their datagrams. */
module KcpBytes {
  import opened KcpNum
  import opened KcpState
  import opened KcpInvariant
  import opened KcpMessages
  import opened KcpProtocol
  import opened KcpWrap
  import opened KcpWire
  import opened KcpWireFlush
  import KcpControlBlock

  // ---------------------------------------------------------------- what a datagram stands for

  function Octets(ps: seq<Pkt>): nat {
    if ps == [] then 0 else Octets(ps[..|ps| - 1]) + OVERHEAD + |ps[|ps| - 1].data|
  }

  /** The groups of segments whose datagrams went out, and the group in the scratch buffer. */
  function Split(mtu: nat, ps: seq<Pkt>): (seq<seq<Pkt>>, seq<Pkt>) {
    if ps == [] then ([], []) else
      var (groups, last) := Split(mtu, ps[..|ps| - 1]);
      var p := ps[|ps| - 1];
      if Octets(last) + OVERHEAD + |p.data| > mtu then (if last == [] then groups else groups + [last], [p])
      else (groups, last + [p])
  }

  function Groups(mtu: nat, ps: seq<Pkt>): seq<seq<Pkt>> {
    var (groups, last) := Split(mtu, ps);
    if last == [] then groups else groups + [last]
  }

  /** A datagram on its way: its bytes, which are all that the code sees, and for the observer the
      segments they were written from, with numbers that never wrap. */
  datatype Datagram = Datagram(octets: bytes, stands: seq<Pkt>)

  /** These bytes were written from these segments, which were all sent. */
  ghost predicate Written(conv: nat, octets: bytes, stands: seq<Pkt>, sent: set<Pkt>) {
    && octets == EncodeAll(conv, TPkts(stands)) && IsBytes(octets)
    && forall i :: 0 <= i < |stands| ==> stands[i] in sent && OnWire(TPkt(stands[i]))
  }

  /** The datagrams of one flush with what they stand for. */
  function Tagged(ds: seq<bytes>, groups: seq<seq<Pkt>>): set<Datagram> {
    set i | 0 <= i < |ds| :: Datagram(ds[i], if i < |groups| then groups[i] else [])
  }

  // ---------------------------------------------------------------- the two hosts

  /** An endpoint as its user sees it: the control block, what ikcp_send took, what ikcp_recv gave. */
  datatype Host = Host(k: Kcb, accepted: seq<bytes>, delivered: seq<bytes>)

  /** `truth` follows along with numbers that never wrap; nothing the hosts do depends on it. */
  datatype Link = Link(a: Host, b: Host, ab: set<Datagram>, ba: set<Datagram>, truth: Sys)

  function Mirror(l: Link): Link {
    Link(l.b, l.a, l.ba, l.ab, Swap(l.truth))
  }

  /** What a host does: a call of its user or its clock, or ikcp_input on a datagram. */
  datatype Act = Calls(c: Call) | Arrives(d: Datagram)

  /** ikcp_input acts on the segments it reads from the bytes. */
  function CodeCall(conv: nat, act: Act): Call
    requires act.Arrives? ==> IsBytes(act.d.octets)
  {
    match act
    case Calls(c) => c
    case Arrives(d) => var r := Parse(conv, d.octets); DoInput(r.pkts, r.stop.Done?)
  }

  function TrueCall(act: Act): Call {
    match act
    case Calls(c) => c
    case Arrives(d) => DoInput(d.stands, true)
  }

  /** The host after a call, its user having noted what was taken or given. */
  function Noted(h: Host, c: Call, o: Out): Host {
    match c
    case DoSend(data) =>
      Host(o.k, if 0 <= o.ret <= |data| then h.accepted + [data[..o.ret]] else h.accepted, h.delivered)
    case DoRecv(len) => Host(o.k, h.accepted, if o.ret >= 0 && len >= 0 then h.delivered + [o.msg] else h.delivered)
    case _ => h.(k := o.k)
  }

  /** What the user or the network can do to host a: a datagram comes from those sent to it, perhaps for
      the second time, but not 2^31 numbers late. */
  ghost predicate MayAct(l: Link, act: Act) {
    match act
    case Calls(c) => !c.DoInput? && Typed(c)
    case Arrives(d) =>
      d in l.ba && IsBytes(d.octets) && forall i :: 0 <= i < |d.stands| ==> RecentPkt(l.truth.a, d.stands[i])
  }

  /** Host a acts: the 32-bit code on its control block, and what it sends cut into datagrams. */
  function ActA(l: Link, act: Act): Link
    requires act.Arrives? ==> IsBytes(act.d.octets)
  {
    var cfg := l.a.k.cfg;
    var c := CodeCall(cfg.conv, act);
    var o := Apply(true, l.a.k, c);
    var stands := Apply(false, l.truth.a, TrueCall(act)).pkts;
    l.(a := Noted(l.a, c, o), ab := l.ab + Tagged(Datagrams(cfg.conv, cfg.mtu, o.pkts), Groups(cfg.mtu, stands)),
       truth := StepA(l.truth, TrueCall(act)))
  }

  // ---------------------------------------------------------------- the groups of a flush

  lemma {:induction false} EncodedOctets(conv: nat, ps: seq<Pkt>)
    ensures |EncodeAll(conv, TPkts(ps))| == Octets(ps)
    decreases |ps|
  {
    if ps == [] {
      assert TPkts(ps) == [];
    } else {
      var n := |ps| - 1;
      EncodedOctets(conv, ps[..n]);
      TPktsLast(ps);
      EncodeAllMore(conv, TPkts(ps[..n]), TPkt(ps[n]));
      hide TPkts, EncodeAll, Encode;
    }
  }

  lemma TPktsLast(ps: seq<Pkt>)
    requires ps != []
    ensures TPkts(ps) == TPkts(ps[..|ps| - 1]) + [TPkt(ps[|ps| - 1])]
  {
  }

  ghost predicate AreFrom(group: seq<Pkt>, ps: seq<Pkt>) {
    forall i :: 0 <= i < |group| ==> group[i] in ps
  }

  /** The scratch buffer of the code, in terms of the segments as the observer numbers them. */
  ghost predicate Mirrors(conv: nat, s: Scratch, groups: seq<seq<Pkt>>, last: seq<Pkt>, ps: seq<Pkt>) {
    && |s.out| == |groups| && AreFrom(last, ps) && s.cur == EncodeAll(conv, TPkts(last))
    && forall i :: 0 <= i < |groups| ==> s.out[i] == EncodeAll(conv, TPkts(groups[i])) && AreFrom(groups[i], ps)
  }

  lemma {:induction false} SplitOk(conv: nat, mtu: nat, ps: seq<Pkt>)
    ensures var (groups, last) := Split(mtu, ps); Mirrors(conv, Fill(conv, mtu, TPkts(ps)), groups, last, ps)
    decreases |ps|
  {
    if ps == [] {
      assert TPkts(ps) == [];
    } else {
      var n := |ps| - 1;
      SplitOk(conv, mtu, ps[..n]);
      TPktsLast(ps);
      var (groups, last) := Split(mtu, ps[..n]);
      SplitStep(conv, mtu, Fill(conv, mtu, TPkts(ps[..n])), groups, last, ps, n);
      assert TPkts(ps)[..n] == TPkts(ps[..n]);
      hide Mirrors, Put, TPkts, Octets;
    }
  }

  lemma SplitStep(conv: nat, mtu: nat, s: Scratch, groups: seq<seq<Pkt>>, last: seq<Pkt>, ps: seq<Pkt>, n: nat)
    requires n == |ps| - 1 && Mirrors(conv, s, groups, last, ps[..n])
    ensures var r := if Octets(last) + OVERHEAD + |ps[n].data| > mtu
                     then (if last == [] then groups else groups + [last], [ps[n]]) else (groups, last + [ps[n]]);
            Mirrors(conv, Put(conv, mtu, s, TPkt(ps[n])), r.0, r.1, ps)
  {
    EncodedOctets(conv, last);
    EncodedOctets(conv, [ps[n]]);
    TPktsLast([ps[n]]);
    TPktsLast(last + [ps[n]]);
    assert TPkts([]) == [];
    EncodeAllMore(conv, [], TPkt(ps[n]));
    EncodeAllMore(conv, TPkts(last), TPkt(ps[n]));
    hide EncodeAll, TPkts, Encode;
  }

  /** Each datagram of a flush is written from its group. */
  lemma GroupsWritten(conv: nat, mtu: nat, ps: seq<Pkt>, sent: set<Pkt>, d: Datagram)
    requires d in Tagged(Datagrams(conv, mtu, TPkts(ps)), Groups(mtu, ps))
    requires forall p :: p in ps ==> p in sent && OnWire(TPkt(p))
    ensures Written(conv, d.octets, d.stands, sent)
  {
    SplitOk(conv, mtu, ps);
    var (groups, last) := Split(mtu, ps);
    EncodedOctets(conv, last);
    assert last == [] <==> Octets(last) == 0;
    assert d.octets == EncodeAll(conv, TPkts(d.stands))
           && AreFrom(d.stands, ps) by {
      hide EncodeAll, Fill, Split, TPkts, OnWire;
    }
    EncodeAllIsBytes(conv, TPkts(d.stands));
    hide EncodeAll, Fill, Split, OnWire;
  }

  // ---------------------------------------------------------------- the invariant

  ghost predicate SentOk(conv: nat, net: set<Datagram>, sent: set<Pkt>) {
    forall d :: d in net ==> Written(conv, d.octets, d.stands, sent)
  }

  /** Host a is the truncation of its true endpoint, says the same, and sent only what that one sent. */
  ghost predicate HalfOk(l: Link) {
    && Machine(l.truth) && SmallWindows(l.truth.a.cfg) && l.a.k == TKcb(l.truth.a)
    && l.a.accepted == l.truth.abDir.accepted && l.a.delivered == l.truth.baDir.delivered
    && SentOk(l.truth.a.cfg.conv, l.ab, l.truth.ab)
  }

  ghost predicate LinkInv(l: Link) {
    Inv(l.truth) && HalfOk(l) && HalfOk(Mirror(l)) && l.truth.a.cfg.conv == l.truth.b.cfg.conv
  }

  /** What ikcp_input reads from the bytes are the truncated segments they stand for. */
  lemma CallsAgree(l: Link, act: Act)
    requires LinkInv(l) && MayAct(l, act)
    ensures CodeCall(l.a.k.cfg.conv, act) == TCall(TrueCall(act))
    ensures Allowed(l.truth, TrueCall(act)) && Typed(TrueCall(act)) && RecentCall(l.truth.a, TrueCall(act))
  {
    hide Inv;
    if act.Arrives? {
      var d := act.d;
      assert Written(l.truth.a.cfg.conv, d.octets, d.stands, l.truth.ba);
      ParseEncode(l.truth.a.cfg.conv, TPkts(d.stands));
      hide Parse, EncodeAll, OnWire, RecentPkt;
    }
  }

  /** What a call sends is sent in the protocol, and fits the wire. */
  lemma SentFits(s: Sys, c: Call, p: Pkt)
    requires Inv(s) && Machine(s) && Typed(c) && p in Apply(false, s.a, c).pkts
    ensures p in StepA(s, c).ab && OnWire(TPkt(p))
  {
    hide Inv, Flush, OnWire;
    match c
    case DoUpdate(now) =>
      var (clk, due) := Tick(s.a.cfg, s.a.clk, now);
      var s1 := s.(a := s.a.(clk := clk));
      NoFlushInv(s, clk);
      assert Emit(s, s1.a, []) == s1 && Machine(s1);
      FlushedPkt(s1, p);
    case DoFlush => FlushedPkt(s, p);
    case _ =>
  }

  /** What the user of the host noted is what the observer of the protocol notes. */
  lemma NotesAgree(s: Sys, c: Call, h: Host)
    requires h.accepted == s.abDir.accepted && h.delivered == s.baDir.delivered
    ensures var h' := Noted(h, TCall(c), TOut(Apply(false, s.a, c)));
            var s' := StepA(s, c);
            && h'.accepted == s'.abDir.accepted && h'.delivered == s'.baDir.delivered
            && s'.abDir.delivered == s.abDir.delivered && s'.baDir.accepted == s.baDir.accepted
            && s.ab <= s'.ab && s'.ba == s.ba
  {
    hide Input, Flush, Recv, TKcb, TPkts;
  }

  /** Whatever host a does, it stays the truncation of its true endpoint. */
  lemma HalfKept(l: Link, act: Act)
    requires LinkInv(l) && MayAct(l, act)
    ensures HalfOk(ActA(l, act))
  {
    var s, c := l.truth, TrueCall(act);
    CallsAgree(l, act);
    var s', spec := StepA(s, c), Apply(false, s.a, c);
    ApplyT(s, c);
    StepMachine(s, c);
    StepFrame(s, c);
    NotesAgree(s, c, l.a);
    var cfg := s.a.cfg;
    forall d | d in ActA(l, act).ab ensures Written(cfg.conv, d.octets, d.stands, s'.ab) {
      if d in l.ab {
        assert Written(cfg.conv, d.octets, d.stands, s.ab);
      } else {
        forall p | p in spec.pkts ensures p in s'.ab && OnWire(TPkt(p)) { SentFits(s, c, p); }
        GroupsWritten(cfg.conv, cfg.mtu, spec.pkts, s'.ab, d);
      }
    }
    hide Inv, Machine, Apply, StepA, OnWire, Written, Tagged, Groups, Datagrams, Noted, Typed, Allowed, RecentCall,
      CodeCall;
  }

  /** Host b does not notice. */
  lemma OtherHalfKept(l: Link, act: Act)
    requires LinkInv(l) && MayAct(l, act)
    ensures HalfOk(Mirror(ActA(l, act)))
  {
    var s, c := l.truth, TrueCall(act);
    CallsAgree(l, act);
    StepMachine(s, c);
    StepFrame(s, c);
    NotesAgree(s, c, l.a);
    hide Inv, Machine, Apply, StepA, OnWire, Written, Tagged, Groups, Datagrams, Noted, Typed, Allowed, RecentCall,
      CodeCall;
  }

  lemma ActInv(l: Link, act: Act)
    requires LinkInv(l) && MayAct(l, act)
    ensures LinkInv(ActA(l, act))
  {
    CallsAgree(l, act);
    HalfKept(l, act);
    OtherHalfKept(l, act);
    StepInv(l.truth, TrueCall(act));
    StepFrame(l.truth, TrueCall(act));
    hide HalfOk, StepA, Apply, Noted, Tagged, Groups, Datagrams, CodeCall, Allowed;
  }

  // ---------------------------------------------------------------- whole runs

  /** One host acts. */
  datatype LinkEvent = ActAtA(act: Act) | ActAtB(act: Act)

  ghost predicate MayFollow(l: Link, e: LinkEvent, l': Link) {
    match e
    case ActAtA(act) => MayAct(l, act) && l' == ActA(l, act)
    case ActAtB(act) => MayAct(Mirror(l), act) && l' == Mirror(ActA(Mirror(l), act))
  }

  /** Two hosts that have not said anything, with one conversation number and settings that fit the header. */
  ghost predicate Begins(l: Link) {
    && Init(l.truth) && l.ab == {} && l.ba == {} && l.truth.a.cfg.conv == l.truth.b.cfg.conv
    && l.a == Host(l.truth.a, [], []) && l.b == Host(l.truth.b, [], [])
    && Machine(l.truth) && Machine(Swap(l.truth)) && SmallWindows(l.truth.a.cfg) && SmallWindows(l.truth.b.cfg)
  }

  ghost predicate IsLinkRun(run: seq<Link>, events: seq<LinkEvent>) {
    && |run| == |events| + 1 && Begins(run[0])
    && forall i :: 0 <= i < |events| ==> MayFollow(run[i], events[i], run[i + 1])
  }

  lemma BeginsInv(l: Link)
    requires Begins(l)
    ensures LinkInv(l)
  {
    InitInv(l.truth);
    assert TSegs([]) == [] && TAcks([]) == [];
    hide Inv, Machine;
  }

  lemma FollowInv(l: Link, e: LinkEvent, l': Link)
    requires LinkInv(l) && MayFollow(l, e, l')
    ensures LinkInv(l')
  {
    MirrorInv(l);
    hide LinkInv, HalfOk, ActA, RecentPkt, IsBytes;
    match e
    case ActAtA(act) => ActInv(l, act);
    case ActAtB(act) =>
      ActInv(Mirror(l), act);
      MirrorInv(ActA(Mirror(l), act));
  }

  lemma MirrorInv(l: Link)
    ensures LinkInv(l) ==> LinkInv(Mirror(l))
  {
    assert Mirror(Mirror(l)) == l && Swap(Swap(l.truth)) == l.truth;
    hide HalfOk, DirInv;
  }

  lemma {:induction false} LinkRunInv(run: seq<Link>, events: seq<LinkEvent>, i: nat)
    requires IsLinkRun(run, events) && i < |run|
    ensures LinkInv(run[i])
    decreases i
  {
    hide LinkInv, MayFollow, Begins;
    if i == 0 {
      BeginsInv(run[0]);
    } else {
      LinkRunInv(run, events, i - 1);
      FollowInv(run[i - 1], events[i - 1], run[i]);
    }
  }

  /** Every datagram on the wire is read without error, whoever it arrives at and however late. */
  lemma EveryDatagramIsRead(run: seq<Link>, events: seq<LinkEvent>, i: nat, d: Datagram)
    requires IsLinkRun(run, events) && i < |run| && d in run[i].ab + run[i].ba
    ensures IsBytes(d.octets) && Parse(run[i].a.k.cfg.conv, d.octets) == Parsed(TPkts(d.stands), Done)
    ensures run[i].b.k.cfg.conv == run[i].a.k.cfg.conv
  {
    LinkRunInv(run, events, i);
    var l, conv := run[i], run[i].truth.a.cfg.conv;
    assert exists sent :: Written(conv, d.octets, d.stands, sent) by {
      if d in l.ab { assert Written(conv, d.octets, d.stands, l.truth.ab); }
      else { assert Written(conv, d.octets, d.stands, l.truth.ba); }
    }
    ParseEncode(conv, TPkts(d.stands));
    hide Inv, Parse, EncodeAll, OnWire, IsLinkRun;
  }

  /** The law, end to end: whatever the network drops, repeats, or delivers out of order and late, as long as it is
      not 2^31 numbers late, what one user receives is a prefix of what the other sent: message for message, or byte
      for byte in stream mode. */
  lemma UsersReceiveWhatWasSent(run: seq<Link>, events: seq<LinkEvent>, i: nat)
    requires IsLinkRun(run, events) && i < |run|
    ensures Concat(run[i].b.delivered) <= Concat(run[i].a.accepted)
    ensures Concat(run[i].a.delivered) <= Concat(run[i].b.accepted)
    ensures !run[i].a.k.cfg.stream ==> run[i].b.delivered <= run[i].a.accepted
    ensures !run[i].b.k.cfg.stream ==> run[i].a.delivered <= run[i].b.accepted
  {
    LinkRunInv(run, events, i);
    var s := run[i].truth;
    SaidPrefix(s.a.cfg, s.a.snd.queue, s.abDir);
    SaidPrefix(s.b.cfg, s.b.snd.queue, s.baDir);
    hide Machine, SndOk, RcvOk, Settled, Kept, WireData, WireAcks, AcksHeld;
  }

  // ---------------------------------------------------------------- the control block as a host

  /** What is shorter than a header is refused, which changes nothing. */
  lemma ShortIsNothing(k: Kcb, b: bytes)
    requires IsBytes(b)
    ensures |b| < OVERHEAD ==> var r := Parse(k.cfg.conv, b); Input(true, k, r.pkts, r.stop.Done?) == k
  {
    hide Grow, ParseFastack;
  }

  /** What an act does to a control block, and the datagrams, the value and the message it gives. */
  ghost predicate Performs(before: Kcb, act: Act, after: Kcb, sent: seq<bytes>, ret: int, msg: bytes)
    requires act.Arrives? ==> IsBytes(act.d.octets)
  {
    var o := Apply(true, before, CodeCall(before.cfg.conv, act));
    && after == o.k && sent == Datagrams(before.cfg.conv, before.cfg.mtu, o.pkts)
    && msg == o.msg
    && ret == (if act.Calls? then o.ret else if |act.d.octets| < OVERHEAD then -1
               else KcpControlBlock.ReturnCode(Parse(before.cfg.conv, act.d.octets).stop))
  }

  /** Whatever a host does, an object of the class does, to the last field and byte. */
  method Perform(kcp: KcpControlBlock.Kcp, act: Act) returns (sent: seq<bytes>, ret: int, msg: bytes)
    requires kcp.Valid() && (if act.Arrives? then IsBytes(act.d.octets) else !act.c.DoInput?)
    modifies kcp
    ensures kcp.Valid() && Performs(old(kcp.Cb()), act, kcp.Cb(), sent, ret, msg)
  {
    hide Performs;
    sent, ret, msg := [], 0, [];
    if act.Arrives? {
      ret := PerformInput(kcp, act.d);
    } else if act.c.DoSend? {
      ret := PerformSend(kcp, act.c.data);
    } else if act.c.DoRecv? {
      ret, msg := PerformRecv(kcp, act.c.len);
    } else {
      sent := PerformFlush(kcp, act.c);
    }
  }

  method PerformInput(kcp: KcpControlBlock.Kcp, d: Datagram) returns (ret: int)
    requires kcp.Valid() && IsBytes(d.octets)
    modifies kcp
    ensures kcp.Valid() && Performs(old(kcp.Cb()), Arrives(d), kcp.Cb(), [], ret, [])
  {
    KcpControlBlock.FlushNothing(kcp.cfg.conv, kcp.cfg.mtu);
    ShortIsNothing(kcp.Cb(), d.octets);
    hide Parse, Input, Datagrams;
    ret := kcp.Input(d.octets);
  }

  method PerformSend(kcp: KcpControlBlock.Kcp, data: bytes) returns (ret: int)
    requires kcp.Valid()
    modifies kcp
    ensures kcp.Valid() && Performs(old(kcp.Cb()), Calls(DoSend(data)), kcp.Cb(), [], ret, [])
  {
    KcpControlBlock.FlushNothing(kcp.cfg.conv, kcp.cfg.mtu);
    assert data[..|data|] == data;
    hide Send, Datagrams;
    ghost var k := kcp.Cb();
    ret := kcp.Send(data, |data|);
    assert kcp.Cb() == k.(snd := k.snd.(queue := kcp.sndQueue));
  }

  method PerformRecv(kcp: KcpControlBlock.Kcp, len: int) returns (ret: int, msg: bytes)
    requires kcp.Valid()
    modifies kcp
    ensures kcp.Valid() && Performs(old(kcp.Cb()), Calls(DoRecv(len)), kcp.Cb(), [], ret, msg)
  {
    KcpControlBlock.FlushNothing(kcp.cfg.conv, kcp.cfg.mtu);
    hide Recv, Datagrams;
    ghost var k := kcp.Cb();
    ret, msg := kcp.Recv(len);
    assert kcp.Cb() == k.(rcv := kcp.Rcv(), cc := k.cc.(askTell := kcp.askTell));
  }

  lemma FlushFrame(k: Kcb)
    ensures Flush(true, k).0.cfg == k.cfg
  {
  }

  method PerformFlush(kcp: KcpControlBlock.Kcp, c: Call) returns (sent: seq<bytes>)
    requires kcp.Valid() && (c.DoUpdate? || c.DoFlush?)
    modifies kcp
    ensures kcp.Valid() && Performs(old(kcp.Cb()), Calls(c), kcp.Cb(), sent, 0, [])
  {
    FlushFrame(kcp.Cb());
    hide Flush, Tick, Datagrams;
    match c
    case DoUpdate(now) =>
      FlushFrame(kcp.Cb().(clk := Tick(kcp.cfg, kcp.Clock(), now).0));
      sent := kcp.Update(now);
    case DoFlush => sent := kcp.Flush();
  }
}
