/** The control block as ikcp.c keeps it: 32-bit fields, four queues and their counters, updated in
    place.  Each method does to the whole state exactly what its function in KcpState says. */
module KcpControlBlock {
  import opened KcpNum
  import S = KcpState
  import opened KcpWire
  import C = KcpCheck
  import M = KcpMessages
  import P = KcpProtocol
  import G = KcpCongestion

  type Seg = S.Seg
  type bytes = S.bytes

  class Kcp {
    /** The fields that ikcp_setmtu, ikcp_wndsize and ikcp_nodelay set. */
    var cfg: S.Config
    var dead: bool
    var sndUna: nat
    var sndNxt: nat
    var rcvNxt: nat
    var ssthresh: nat
    var rxRttval: int
    var rxSrtt: int
    var rxRto: int
    var rmtWnd: nat
    var cwnd: nat
    var askSend: bool
    var askTell: bool
    var current: nat
    var tsFlush: nat
    var xmit: nat
    var nrcvBuf: nat
    var nsndBuf: nat
    var nrcvQue: nat
    var nsndQue: nat
    var updated: bool
    var tsProbe: nat
    var probeWait: nat
    var incr: nat
    var sndQueue: seq<Seg>
    var rcvQueue: seq<Seg>
    var sndBuf: seq<Seg>
    var rcvBuf: seq<Seg>
    var ackList: seq<S.Ack>

    /** The counters agree with the queues. */
    ghost predicate Valid()
      reads this
    {
      && nrcvBuf == |rcvBuf| && nsndBuf == |sndBuf| && nrcvQue == |rcvQueue| && nsndQue == |sndQueue|
      && xmit < W
    }

    function Snd(): S.Snd
      reads this`sndQueue, this`sndBuf, this`sndUna, this`sndNxt
    {
      S.Snd(sndQueue, sndBuf, sndUna, sndNxt)
    }

    function Rcv(): S.Rcv
      reads this`rcvQueue, this`rcvBuf, this`rcvNxt
    {
      S.Rcv(rcvQueue, rcvBuf, rcvNxt)
    }

    function Cong(): S.Cong
      reads this`cwnd, this`ssthresh, this`incr, this`rmtWnd, this`askSend, this`askTell, this`tsProbe,
          this`probeWait, this`xmit, this`dead
    {
      S.Cong(cwnd, ssthresh, incr, rmtWnd, askSend, askTell, tsProbe, probeWait, xmit, dead)
    }

    function Clock(): S.Clock
      reads this`current, this`tsFlush, this`updated, this`rxSrtt, this`rxRttval, this`rxRto
    {
      S.Clock(current, tsFlush, updated, rxSrtt, rxRttval, rxRto)
    }

    function Cb(): S.Kcb
      reads this
    {
      S.Kcb(cfg, Snd(), Rcv(), ackList, Cong(), Clock())
    }

    /** ikcp_create */
    constructor (conv: nat)
      ensures Valid() && P.Fresh0(Cb()) && G.ControlOk(Cb())
      ensures cfg == S.Config(conv, 1400, 1400 - S.OVERHEAD, 32, S.WND_RCV, 100, 0, 0, 5, false, false, 100, 20)
      ensures Cong() == S.Cong(0, S.THRESH_MIN, 0, S.WND_RCV, false, false, 0, 0, 0, false)
      ensures Clock() == S.Clock(0, 100, false, 0, 0, 200)
    {
      cfg := S.Config(conv, 1400, 1400 - S.OVERHEAD, 32, S.WND_RCV, 100, 0, 0, 5, false, false, 100, 20);
      dead := false;
      sndUna, sndNxt, rcvNxt := 0, 0, 0;
      ssthresh := S.THRESH_MIN;
      rxRttval, rxSrtt, rxRto := 0, 0, 200;
      rmtWnd, cwnd, incr := S.WND_RCV, 0, 0;
      askSend, askTell := false, false;
      current, tsFlush, updated := 0, 100, false;
      xmit, tsProbe, probeWait := 0, 0, 0;
      nrcvBuf, nsndBuf, nrcvQue, nsndQue := 0, 0, 0, 0;
      sndQueue, rcvQueue, sndBuf, rcvBuf, ackList := [], [], [], [], [];
    }

    // -------------------------------------------------------------- settings

    /** ikcp_setmtu: 0 on success. */
    method SetMtu(mtu: int) returns (ret: int)
      requires Valid()
      modifies this`cfg
      ensures Valid()
      ensures if mtu < 50 then ret == -1 && cfg == old(cfg)
              else ret == 0 && cfg == old(cfg).(mtu := mtu, mss := mtu - S.OVERHEAD) && cfg.mss + S.OVERHEAD <= cfg.mtu
    {
      if mtu < 50 || mtu < S.OVERHEAD { return -1; }
      cfg := cfg.(mtu := mtu, mss := mtu - S.OVERHEAD);
      ret := 0;
    }

    /** ikcp_nodelay: a negative argument leaves its setting alone, and the interval stays within its limits. */
    method NoDelay(nodelay: int, interval: int, resend: int, nc: int)
      requires Valid()
      modifies this`cfg
      ensures Valid() && cfg.mtu == old(cfg.mtu) && cfg.mss == old(cfg.mss)
      ensures cfg == old(cfg).(nodelay := if nodelay >= 0 then nodelay else old(cfg.nodelay),
                               rxMinrto := if nodelay < 0 then old(cfg.rxMinrto) else if nodelay == 0 then 100 else 30,
                               interval := if interval >= 0 then IMax(10, IMin(interval, 5000)) else old(cfg.interval),
                               fastresend := if resend >= 0 then resend else old(cfg.fastresend),
                               nocwnd := if nc >= 0 then nc != 0 else old(cfg.nocwnd))
    {
      var c := cfg;
      if nodelay >= 0 {
        c := c.(nodelay := nodelay, rxMinrto := if nodelay != 0 then 30 else 100);
      }
      if interval >= 0 {
        c := c.(interval := if interval > 5000 then 5000 else if interval < 10 then 10 else interval);
      }
      if resend >= 0 { c := c.(fastresend := resend); }
      if nc >= 0 { c := c.(nocwnd := nc != 0); }
      cfg := c;
    }

    /** ikcp_wndsize: the receive window never falls below the largest message. */
    method WndSize(sndwnd: int, rcvwnd: int)
      requires Valid()
      modifies this`cfg
      ensures Valid()
      ensures cfg == old(cfg).(sndWnd := if sndwnd > 0 then sndwnd else old(cfg.sndWnd),
                               rcvWnd := if rcvwnd > 0 then IMax(rcvwnd, S.WND_RCV) else old(cfg.rcvWnd))
    {
      if sndwnd > 0 { cfg := cfg.(sndWnd := sndwnd); }
      if rcvwnd > 0 { cfg := cfg.(rcvWnd := IMax(rcvwnd, S.WND_RCV)); }
    }

    // -------------------------------------------------------------- sending

    /** Stream mode: the last queued segment takes what fits. */
    method Extend(data: bytes) returns (extend: nat)
      requires Valid()
      modifies this`sndQueue
      ensures Valid() && extend <= |data|
      ensures (sndQueue, extend) == S.Append(cfg, old(sndQueue), data)
    {
      extend := 0;
      if cfg.stream && sndQueue != [] {
        var last := sndQueue[|sndQueue| - 1];
        if |last.data| < cfg.mss {
          var capacity := cfg.mss - |last.data|;
          extend := if |data| < capacity then |data| else capacity;
          sndQueue := sndQueue[..|sndQueue| - 1] + [S.Fresh(0, last.data + data[..extend])];
        }
      }
    }

    /** The fragment loop. */
    method Fragment(data0: bytes, count: nat) returns (sent: nat)
      requires Valid() && M.Enough(cfg.mss, count, |data0|)
      modifies this`sndQueue, this`nsndQue
      ensures Valid() && sent == |data0|
      ensures sndQueue == old(sndQueue) + S.Fragments(cfg.stream, cfg.mss, count, data0)
    {
      hide S.Fragments, M.Enough;
      ghost var all := sndQueue + S.Fragments(cfg.stream, cfg.mss, count, data0);
      var data := data0;
      var i := 0;
      sent := 0;
      while i < count
        invariant 0 <= i <= count && nsndQue == |sndQueue| && sent + |data| == |data0|
        invariant sndQueue + S.Fragments(cfg.stream, cfg.mss, count - i, data) == all
                  && M.Enough(cfg.mss, count - i, |data|)
      {
        M.EnoughRest(cfg.mss, count - i, |data|);
        var size := if |data| > cfg.mss then cfg.mss else |data|;
        var seg := S.Fresh(if cfg.stream then 0 else count - i - 1, data[..size]);
        FragmentsNext(sndQueue, seg, cfg.stream, cfg.mss, count - i, data);
        sndQueue := sndQueue + [seg];
        nsndQue := nsndQue + 1;
        data := data[size..];
        sent := sent + size;
        i := i + 1;
      }
      FragmentsDone(sndQueue, cfg.stream, cfg.mss, data);
    }

    /** ikcp_send: the first `len` bytes of the buffer. */
    method Send(buffer: bytes, len: int) returns (sent: int)
      requires Valid() && len <= |buffer|
      modifies this`sndQueue, this`nsndQue
      ensures Valid()
      ensures if len < 0 then sent == -1 && sndQueue == old(sndQueue)
              else (sndQueue, sent) == S.Send(cfg, old(sndQueue), buffer[..len])
    {
      if len < 0 { return -1; }
      sent := Extend(buffer[..len]);
      var data := buffer[..len][sent..];
      if cfg.stream && |data| <= 0 { return; }
      var count := if |data| <= cfg.mss then 1 else (|data| + cfg.mss - 1) / cfg.mss;
      if count >= S.WND_RCV {
        if !(cfg.stream && sent > 0) { sent := -2; }
        return;
      }
      M.FragCountEnough(cfg.mss, |data|);
      var more := Fragment(data, count);
      sent := sent + more;
    }

    // -------------------------------------------------------------- acknowledgements

    /** ikcp_update_ack */
    method UpdateAck(rtt: int)
      requires Valid()
      modifies this`rxSrtt, this`rxRttval, this`rxRto
      ensures Valid() && Clock() == S.UpdateAck(cfg, old(Clock()), rtt)
      ensures IMin(U32(cfg.rxMinrto), S.RTO_MAX) <= rxRto <= S.RTO_MAX
    {
      G.RtoBounded(cfg, Clock(), rtt);
      hide U32, I32, Quot, IMin, IMax;
      if rxSrtt == 0 {
        rxSrtt := rtt;
        rxRttval := Quot(rtt, 2);
      } else {
        var delta := I32(rtt - rxSrtt);
        if delta < 0 { delta := -delta; }
        rxRttval := I32(Quot(I32(3 * rxRttval) + delta, 4));
        rxSrtt := I32(Quot(I32(7 * rxSrtt + rtt), 8));
        if rxSrtt < 1 { rxSrtt := 1; }
      }
      var rto := U32(rxSrtt + IMax(cfg.interval, U32(4 * rxRttval)));
      rxRto := IMin(IMax(U32(cfg.rxMinrto), rto), S.RTO_MAX);
    }

    /** ikcp_shrink_buf */
    method ShrinkBuf()
      modifies this`sndUna
      ensures Snd() == S.Shrink(old(Snd()))
    {
      if sndBuf != [] {
        sndUna := sndBuf[0].sn;
      } else {
        sndUna := sndNxt;
      }
    }

    /** ikcp_parse_ack: the search along snd_buf. */
    method ParseAck(sn: nat)
      requires Valid()
      modifies this`sndBuf, this`nsndBuf
      ensures Valid() && Snd() == S.ParseAck(true, old(Snd()), sn)
    {
      hide S.RemoveSn, I32;
      if Diff(true, sn, sndUna) < 0 || Diff(true, sn, sndNxt) >= 0 { return; }
      ghost var all := sndBuf;
      var p := 0;
      assert all[..0] + all[0..] == all && all[0..] == all;
      while p < |sndBuf|
        invariant 0 <= p <= |sndBuf| && sndBuf == all && nsndBuf == |all|
        invariant S.RemoveSn(true, all, sn) == all[..p] + S.RemoveSn(true, all[p..], sn)
      {
        RemoveNext(all, p, sn);
        if sn == sndBuf[p].sn {
          sndBuf := sndBuf[..p] + sndBuf[p + 1..];
          nsndBuf := nsndBuf - 1;
          return;
        }
        if Diff(true, sn, sndBuf[p].sn) < 0 { return; }
        p := p + 1;
      }
      RemoveNext(all, p, sn);
    }

    /** ikcp_parse_una: dropping from the front. */
    method ParseUna(una: nat)
      requires Valid()
      modifies this`sndBuf, this`nsndBuf
      ensures Valid() && Snd() == S.ParseUna(true, old(Snd()), una)
    {
      while sndBuf != [] && Diff(true, una, sndBuf[0].sn) > 0
        invariant nsndBuf == |sndBuf|
        invariant S.DropBelow(true, sndBuf, una) == S.DropBelow(true, old(sndBuf), una)
        decreases |sndBuf|
      {
        sndBuf := sndBuf[1..];
        nsndBuf := nsndBuf - 1;
      }
    }

    /** ikcp_parse_fastack */
    method ParseFastack(sn: nat, ts: nat)
      requires Valid()
      modifies this`sndBuf
      ensures Valid() && Snd() == S.ParseFastack(true, old(Snd()), sn, ts)
    {
      hide S.CountFast, I32;
      if Diff(true, sn, sndUna) < 0 || Diff(true, sn, sndNxt) >= 0 { return; }
      CountOvertaken(sn, ts);
    }

    /** Its loop over snd_buf. */
    method CountOvertaken(sn: nat, ts: nat)
      modifies this`sndBuf
      ensures sndBuf == S.CountFast(true, old(sndBuf), sn, ts) && |sndBuf| == |old(sndBuf)|
    {
      hide S.CountFast, Diff, U32;
      ghost var all := sndBuf;
      var p := 0;
      assert sndBuf[..0] + S.CountFast(true, all, sn, ts) == S.CountFast(true, all, sn, ts) && all[0..] == all;
      while p < |sndBuf|
        invariant 0 <= p <= |sndBuf| == |all| && sndBuf[p..] == all[p..]
        invariant S.CountFast(true, all, sn, ts) == sndBuf[..p] + S.CountFast(true, all[p..], sn, ts)
      {
        assert sndBuf[p] == all[p..][0];
        CountNext(sndBuf, all, p, sn, ts);
        if Diff(true, sn, sndBuf[p].sn) < 0 { return; }
        if sn != sndBuf[p].sn {
          if Diff(true, ts, sndBuf[p].ts) >= 0 {
            sndBuf := sndBuf[p := sndBuf[p].(fastack := U32(sndBuf[p].fastack + 1))];
          }
        }
        p := p + 1;
      }
      CountNext(sndBuf, all, p, sn, ts);
    }

    // -------------------------------------------------------------- data

    /** Moving what is in order, and fits, from rcv_buf to rcv_queue. */
    method Promote()
      requires Valid()
      modifies this`rcvBuf, this`nrcvBuf, this`rcvQueue, this`nrcvQue, this`rcvNxt
      ensures Valid() && Rcv() == S.Promote(true, cfg, old(Rcv()))
    {
      hide S.Promote;
      while rcvBuf != [] && rcvBuf[0].sn == rcvNxt && nrcvQue < cfg.rcvWnd
        invariant Valid() && S.Promote(true, cfg, Rcv()) == S.Promote(true, cfg, old(Rcv()))
        decreases |rcvBuf|
      {
        PromoteNext(cfg, Rcv());
        var seg := rcvBuf[0];
        rcvBuf := rcvBuf[1..];
        nrcvBuf := nrcvBuf - 1;
        rcvQueue := rcvQueue + [seg];
        nrcvQue := nrcvQue + 1;
        rcvNxt := U32(rcvNxt + 1);
      }
      PromoteNext(cfg, Rcv());
    }

    /** The search for a segment's place from the back of rcv_buf. */
    method FindPlace(sn: nat) returns (p: nat, repeated: bool)
      ensures p <= |rcvBuf|
      ensures forall seg: Seg :: seg.sn == sn ==>
                S.Insert(true, rcvBuf, seg) == if repeated then rcvBuf else rcvBuf[..p] + [seg] + rcvBuf[p..]
    {
      p, repeated := |rcvBuf|, false;
      assert rcvBuf[..p] == rcvBuf && rcvBuf[p..] == [];
      while p > 0
        invariant p <= |rcvBuf|
        invariant forall seg: Seg :: seg.sn == sn ==>
                    S.Insert(true, rcvBuf, seg) == S.Insert(true, rcvBuf[..p], seg) + rcvBuf[p..]
      {
        var at := rcvBuf[p - 1];
        InsertBefore(rcvBuf, p, sn);
        hide S.Insert;
        if at.sn == sn {
          repeated := true;
          return;
        }
        if Diff(true, sn, at.sn) > 0 {
          return;
        }
        p := p - 1;
      }
    }

    /** ikcp_parse_data */
    method ParseData(newseg: Seg)
      requires Valid()
      modifies this`rcvBuf, this`nrcvBuf, this`rcvQueue, this`nrcvQue, this`rcvNxt
      ensures Valid() && Rcv() == S.ParseData(true, cfg, old(Rcv()), newseg)
    {
      hide S.Insert, S.Promote, I32, U32;
      var sn := newseg.sn;
      if Diff(true, sn, U32(rcvNxt + cfg.rcvWnd)) >= 0 || Diff(true, sn, rcvNxt) < 0 { return; }
      var p, repeated := FindPlace(sn);
      if !repeated {
        rcvBuf := rcvBuf[..p] + [newseg] + rcvBuf[p..];
        nrcvBuf := nrcvBuf + 1;
      }
      Promote();
    }

    /** ikcp_peeksize */
    method PeekSize() returns (length: int)
      requires Valid()
      ensures length == S.PeekSize(Rcv())
    {
      if rcvQueue == [] { return -1; }
      if rcvQueue[0].frg == 0 { return |rcvQueue[0].data|; }
      if nrcvQue < rcvQueue[0].frg + 1 { return -1; }
      length := 0;
      var p := 0;
      assert rcvQueue[0..] == rcvQueue;
      while p < |rcvQueue|
        invariant 0 <= p <= |rcvQueue| && length + |S.Merge(rcvQueue[p..])| == |S.Merge(rcvQueue)|
      {
        var seg := rcvQueue[p];
        assert rcvQueue[p..][1..] == rcvQueue[p + 1..];
        length := length + |seg.data|;
        p := p + 1;
        if seg.frg == 0 { break; }
      }
    }

    /** The merge loop of ikcp_recv: the data up to a fragment numbered zero, removed unless peeking. */
    method MergeFragments(peek: bool) returns (msg: bytes)
      requires Valid()
      modifies this`rcvQueue, this`nrcvQue
      ensures Valid() && msg == S.Merge(old(rcvQueue))
      ensures rcvQueue == if peek then old(rcvQueue) else old(rcvQueue)[S.MergeCount(old(rcvQueue))..]
    {
      ghost var all := rcvQueue;
      var p := rcvQueue;
      ghost var n := 0;
      msg := [];
      assert all[0..] == all && msg + S.Merge(all) == S.Merge(all);
      while p != []
        invariant 0 <= n <= |all| && p == all[n..] && nrcvQue == |rcvQueue|
        invariant rcvQueue == if peek then all else p
        invariant msg + S.Merge(p) == S.Merge(all) && n + S.MergeCount(p) == S.MergeCount(all)
        decreases |p|
      {
        var seg := p[0];
        p := p[1..];
        msg := msg + seg.data;
        n := n + 1;
        if !peek {
          rcvQueue := rcvQueue[1..];
          nrcvQue := nrcvQue - 1;
        }
        if seg.frg == 0 {
          return;
        }
      }
      assert msg + [] == msg;
    }

    /** ikcp_recv */
    method Recv(len: int) returns (ret: int, msg: bytes)
      requires Valid()
      modifies this`rcvBuf, this`nrcvBuf, this`rcvQueue, this`nrcvQue, this`rcvNxt, this`askTell
      ensures Valid()
      ensures var (r, tell, size, data) := S.Recv(true, cfg, old(Rcv()), len);
              Rcv() == r && askTell == (old(askTell) || tell) && ret == size && msg == data
    {
      msg := [];
      if rcvQueue == [] { return -1, []; }
      var room := if len < 0 then -len else len;
      var peeksize := PeekSize();
      if peeksize < 0 { return -2, []; }
      if peeksize > room { return -3, []; }
      var recover := nrcvQue >= cfg.rcvWnd;
      msg := MergeFragments(len < 0);
      assert |msg| == peeksize;
      Promote();
      if nrcvQue < cfg.rcvWnd && recover { askTell := true; }
      ret := |msg|;
    }

    // -------------------------------------------------------------- a datagram arrives

    /** A selective acknowledgement. */
    method InputAck(sn: nat, ts: nat)
      requires Valid()
      modifies this`rxSrtt, this`rxRttval, this`rxRto, this`sndBuf, this`nsndBuf, this`sndUna
      ensures Valid() && Snd() == S.Shrink(S.ParseAck(true, old(Snd()), sn))
      ensures var rtt := Diff(true, old(Clock()).current, ts);
              Clock() == if rtt >= 0 then S.UpdateAck(cfg, old(Clock()), rtt) else old(Clock())
    {
      hide S.ParseAck, S.Shrink, S.UpdateAck, I32;
      var rtt := Diff(true, current, ts);
      if rtt >= 0 { UpdateAck(rtt); }
      ParseAck(sn);
      ShrinkBuf();
    }

    /** A data segment. */
    method InputPush(p: S.Pkt)
      requires Valid()
      modifies this`rcvBuf, this`nrcvBuf, this`rcvQueue, this`nrcvQue, this`rcvNxt, this`ackList
      ensures Valid()
      ensures if S.InWindow(true, cfg, old(Rcv()), p.sn)
              then ackList == old(ackList) + [S.Ack(p.sn, p.ts)]
                   && Rcv() == (if Diff(true, p.sn, old(Rcv()).nxt) >= 0
                                then S.ParseData(true, cfg, old(Rcv()), S.SegOf(p)) else old(Rcv()))
              else ackList == old(ackList) && Rcv() == old(Rcv())
    {
      hide S.ParseData, I32, U32;
      if Diff(true, p.sn, U32(rcvNxt + cfg.rcvWnd)) < 0 {
        ackList := ackList + [S.Ack(p.sn, p.ts)];
        if Diff(true, p.sn, rcvNxt) >= 0 {
          ParseData(S.SegOf(p));
        }
      }
    }

    /** What every segment carries: the peer's window and what it has. */
    method InputHead(wnd: nat, una: nat)
      requires Valid()
      modifies this`rmtWnd, this`sndBuf, this`nsndBuf, this`sndUna
      ensures Valid() && Snd() == S.Shrink(S.ParseUna(true, old(Snd()), una)) && Cong() == old(Cong()).(rmtWnd := wnd)
    {
      hide S.ParseUna, S.Shrink, I32;
      rmtWnd := wnd;
      ParseUna(una);
      ShrinkBuf();
    }

    /** A question for the window. */
    method InputAsk()
      requires Valid()
      modifies this`askTell
      ensures Valid() && Cong() == old(Cong()).(askTell := true)
    {
      askTell := true;
    }

    /** One segment of a datagram. */
    method InputOne(p: S.Pkt, n0: S.Newest) returns (n: S.Newest)
      requires Valid()
      modifies this
      ensures Valid() && (Cb(), n) == S.InputPkt(true, old(Cb()), n0, p)
    {
      hide S.InputPkt, S.ParseUna, S.ParseAck, S.ParseData, S.Shrink, S.UpdateAck, S.NewestAck, S.InWindow, Diff,
        Snd, Rcv, Cong, Clock;
      InputPktParts(Cb(), n0, p);
      n := n0;
      InputHead(p.wnd, p.una);
      if p.cmd == S.CMD_ACK {
        InputAck(p.sn, p.ts);
        n := S.NewestAck(true, n, p.sn, p.ts);
      } else if p.cmd == S.CMD_PUSH {
        InputPush(p);
      } else if p.cmd == S.CMD_WASK {
        InputAsk();
      }
    }

    /** The congestion window after newly acknowledged data. */
    method GrowWindow()
      requires Valid()
      modifies this`cwnd, this`incr
      ensures Valid() && Cong() == S.Grow(cfg.mss, old(Cong()))
      ensures cwnd <= IMax(old(cwnd), rmtWnd) && (old(cwnd) >= rmtWnd ==> cwnd == old(cwnd))
    {
      hide U32, Mul32, Div32;
      ghost var cc := Cong();
      if cwnd < rmtWnd {
        var mss, w, i := cfg.mss, cwnd, incr;
        if w < ssthresh {
          w, i := U32(w + 1), U32(i + mss);
        } else {
          if i < mss { i := mss; }
          i := U32(i + Div32(Mul32(mss, mss), i) + mss / 16);
          if Mul32(U32(w + 1), mss) <= i { w := Div32(U32(i + mss - 1), mss); }
        }
        if w > rmtWnd { w, i := rmtWnd, Mul32(rmtWnd, mss); }
        cwnd, incr := w, i;
      }
      assert Cong() == S.Grow(cfg.mss, cc);
      hide S.Grow;
      G.GrowBounded(cfg.mss, cc);
    }

    /** The reading loop of ikcp_input. */
    method InputLoop(data: bytes) returns (ret: int, n: S.Newest)
      requires Valid() && IsBytes(data)
      modifies this
      ensures Valid() && cfg.conv == old(cfg.conv)
      ensures (Cb(), n) == S.InputPkts(true, old(Cb()), S.NoAck, Parse(cfg.conv, data).pkts)
      ensures ret == ReturnCode(Parse(cfg.conv, data).stop)
    {
      hide S.InputPkts, S.InputPkt, Parse, FirstPkt, I32, Decode32;
      var rest := data;
      n := S.NoAck;
      ret := 0;
      ghost var k0 := Cb();
      ghost var r0 := Parse(cfg.conv, data);
      ParseNone(cfg.conv, Cb(), n, rest);
      while |rest| >= S.OVERHEAD
        invariant Valid() && IsBytes(rest) && cfg.conv == k0.cfg.conv && ret == 0
        invariant S.InputPkts(true, k0, S.NoAck, r0.pkts) == S.InputPkts(true, Cb(), n, Parse(cfg.conv, rest).pkts)
        invariant r0.stop == Parse(cfg.conv, rest).stop
        decreases |rest|
      {
        ParseNext(cfg.conv, rest, Cb(), n);
        ParseNone(cfg.conv, Cb(), n, rest);
        if Decode32(rest, 0) != cfg.conv { return -1, n; }
        var len := Decode32(rest, 20);
        if |rest| - S.OVERHEAD < len || I32(len) < 0 { return -2, n; }
        if !KnownCmd(rest[4]) { return -3, n; }
        n := InputOne(FirstPkt(rest), n);
        rest := rest[S.OVERHEAD + len..];
      }
      ParseNone(cfg.conv, Cb(), n, rest);
    }

    /** What ikcp_input does after the loop. */
    method InputFinish(n: S.Newest, prevUna: nat)
      requires Valid()
      modifies this`sndBuf, this`cwnd, this`incr
      ensures Valid() && Snd() == (if n.NoAck? then old(Snd()) else S.ParseFastack(true, old(Snd()), n.sn, n.ts))
      ensures Cong() == if Diff(true, old(Snd()).una, prevUna) > 0 then S.Grow(cfg.mss, old(Cong())) else old(Cong())
    {
      hide S.ParseFastack, S.Grow, Diff, Cong;
      if n.Newest? { ParseFastack(n.sn, n.ts); }
      if Diff(true, sndUna, prevUna) > 0 { GrowWindow(); }
    }

    /** ikcp_input on enough data for one header. */
    method InputData(data: bytes) returns (ret: int)
      requires Valid() && IsBytes(data)
      modifies this
      ensures Valid()
      ensures var r := Parse(old(cfg.conv), data);
              Cb() == S.Input(true, old(Cb()), r.pkts, r.stop == Done) && ret == ReturnCode(r.stop)
    {
      ghost var una := Snd().una;
      var prevUna := sndUna;
      assert prevUna == una;
      hide Parse, S.Input, S.InputPkts, S.ParseFastack, S.Grow, Diff, Snd, Rcv, Cong, Clock;
      var n;
      ret, n := InputLoop(data);
      if ret >= 0 { InputFinish(n, prevUna); }
    }

    /** ikcp_input */
    method Input(data: bytes) returns (ret: int)
      requires Valid() && IsBytes(data)
      modifies this
      ensures Valid()
      ensures |data| < S.OVERHEAD ==> ret == -1 && Cb() == old(Cb())
      ensures |data| >= S.OVERHEAD ==>
                var r := Parse(old(cfg.conv), data);
                Cb() == S.Input(true, old(Cb()), r.pkts, r.stop == Done) && ret == ReturnCode(r.stop)
    {
      if |data| < S.OVERHEAD { return -1; }
      hide Parse, S.Input;
      ret := InputData(data);
    }

    // -------------------------------------------------------------- flushing

    /** Before a segment that would pass the cfg.mtu the buffer goes out. */
    method PutSeg(out0: seq<bytes>, cur0: bytes, p: S.Pkt) returns (out: seq<bytes>, cur: bytes)
      ensures Scratch(out, cur) == Put(cfg.conv, cfg.mtu, Scratch(out0, cur0), p)
    {
      hide Encode;
      out, cur := out0, cur0;
      if |cur| + S.OVERHEAD + |p.data| > cfg.mtu {
        if |cur| > 0 { out := out + [cur]; }
        cur := [];
      }
      assert [] + Encode(cfg.conv, p) == Encode(cfg.conv, p);
      cur := cur + Encode(cfg.conv, p);
    }

    /** The acknowledgements. */
    method FlushAcks() returns (out: seq<bytes>, cur: bytes)
      requires Valid()
      ensures Scratch(out, cur) == Fill(cfg.conv, cfg.mtu, S.AckPkts(Cb()))
    {
      out, cur := [], [];
      var i := 0;
      ghost var ps := S.AckPkts(Cb());
      while i < |ackList|
        invariant 0 <= i <= |ackList| && Scratch(out, cur) == Fill(cfg.conv, cfg.mtu, ps[..i])
      {
        FillMore(cfg.conv, cfg.mtu, ps, i);
        var p := S.Pkt(S.CMD_ACK, 0, if nrcvQue < cfg.rcvWnd then cfg.rcvWnd - nrcvQue else 0, ackList[i].ts,
            ackList[i].sn, rcvNxt, []);
        assert p == ps[i];
        hide Fill, Put;
        out, cur := PutSeg(out, cur, p);
        i := i + 1;
      }
      assert ps[..i] == ps;
    }

    /** The probe timer. */
    method ProbeTimer()
      requires Valid()
      modifies this`probeWait, this`tsProbe, this`askSend
      ensures Valid() && Cong() == S.Probe(old(Cong()), current)
      ensures old(G.WaitOk(Cong())) ==> G.WaitOk(Cong()) && (probeWait == 0 <==> rmtWnd != 0)
      ensures old(G.WaitOk(Cong())) && askSend && !old(askSend) ==> rmtWnd == 0 && probeWait >= old(probeWait) > 0
    {
      hide U32, I32;
      ghost var cc := Cong();
      if rmtWnd == 0 {
        if probeWait == 0 {
          probeWait := S.PROBE_INIT;
          tsProbe := U32(current + probeWait);
        } else if Diff(true, current, tsProbe) >= 0 {
          var wait := probeWait;
          if wait < S.PROBE_INIT { wait := S.PROBE_INIT; }
          wait := U32(wait + wait / 2);
          if wait > S.PROBE_LIMIT { wait := S.PROBE_LIMIT; }
          probeWait, tsProbe, askSend := wait, U32(current + wait), true;
        }
      } else {
        tsProbe := 0;
        probeWait := 0;
      }
      assert Cong() == S.Probe(cc, current);
      hide S.Probe;
      if G.WaitOk(cc) { G.ProbeBacksOff(cc, current); }
    }

    /** The window probes, with the numbers the last acknowledgement left in the header. */
    method FlushProbes(out0: seq<bytes>, cur0: bytes, ghost ps: seq<S.Pkt>) returns (out: seq<bytes>, cur: bytes)
      requires Valid() && Scratch(out0, cur0) == Fill(cfg.conv, cfg.mtu, ps)
      ensures Scratch(out, cur) == Fill(cfg.conv, cfg.mtu, ps + S.ProbePkts(Cb(), Cong()))
    {
      hide Fill, Put;
      out, cur := out0, cur0;
      var last := if ackList == [] then S.Ack(0, 0) else ackList[|ackList| - 1];
      var wnd := if nrcvQue < cfg.rcvWnd then cfg.rcvWnd - nrcvQue else 0;
      var seg := S.Pkt(S.CMD_WASK, 0, wnd, last.ts, last.sn, rcvNxt, []);
      if askSend {
        FillSnoc(cfg.conv, cfg.mtu, ps, seg);
        out, cur := PutSeg(out, cur, seg);
      }
      ghost var asked := if askSend then ps + [seg] else ps;
      seg := seg.(cmd := S.CMD_WINS);
      if askTell {
        FillSnoc(cfg.conv, cfg.mtu, asked, seg);
        out, cur := PutSeg(out, cur, seg);
      }
      assert (if askTell then asked + [seg] else asked) == ps + S.ProbePkts(Cb(), Cong());
    }

    /** Moving from snd_queue to snd_buf while the window allows. */
    method AdmitNew(cwnd: nat, ghost k: S.Kcb)
      requires Valid() && k.cfg == cfg && k.clk == Clock() && k.rcv == Rcv()
      modifies this`sndQueue, this`sndBuf, this`nsndQue, this`nsndBuf, this`sndNxt
      ensures Valid() && Snd() == S.Admit(true, k, old(Snd()), cwnd)
    {
      hide S.Admit;
      while sndQueue != [] && Diff(true, sndNxt, U32(sndUna + cwnd)) < 0
        invariant Valid() && S.Admit(true, k, Snd(), cwnd) == S.Admit(true, k, old(Snd()), cwnd)
        decreases |sndQueue|
      {
        AdmitNext(k, Snd(), cwnd);
        var q := sndQueue[0];
        var wnd := if nrcvQue < cfg.rcvWnd then cfg.rcvWnd - nrcvQue else 0;
        var newseg := S.Seg(sndNxt, q.frg, q.data, wnd, current, rcvNxt, current, U32(rxRto), 0, 0);
        sndQueue, nsndQue := sndQueue[1..], nsndQue - 1;
        sndBuf, nsndBuf := sndBuf + [newseg], nsndBuf + 1;
        sndNxt := U32(sndNxt + 1);
      }
      AdmitNext(k, Snd(), cwnd);
    }

    /** Why a segment is sent, and the segment after it: the three cases of the sending loop. */
    method Renew(segment: Seg, resent: nat, ghost k: S.Kcb) returns (seg: Seg, why: S.Why)
      requires Valid() && k.cfg == cfg && k.clk == Clock() && k.rcv == Rcv() && resent == S.Resent(cfg)
      ensures why == S.WhySend(k, segment) && seg == S.FlushSeg(k, segment)
    {
      hide U32, I32, Quot;
      why, seg := S.Keep, segment;
      if seg.xmit == 0 {
        why := S.First;
        var rtomin := if cfg.nodelay == 0 then U32(rxRto) / 8 else 0;
        seg := seg.(xmit := U32(seg.xmit + 1), rto := U32(rxRto), resendts := U32(current + U32(rxRto) + rtomin));
      } else if Diff(true, current, seg.resendts) >= 0 {
        why := S.Timeout;
        var rto := 0;
        if cfg.nodelay == 0 {
          rto := U32(seg.rto + IMax(seg.rto, U32(rxRto)));
        } else {
          var step := if cfg.nodelay < 2 then I32(seg.rto) else rxRto;
          rto := U32(seg.rto + Quot(step, 2));
        }
        seg := seg.(xmit := U32(seg.xmit + 1), rto := rto, resendts := U32(current + rto));
      } else if seg.fastack >= resent {
        if I32(seg.xmit) <= cfg.fastlimit || cfg.fastlimit <= 0 {
          why := S.Fast;
          seg := seg.(xmit := U32(seg.xmit + 1), fastack := 0, resendts := U32(current + seg.rto));
        }
      }
      if !why.Keep? {
        seg := seg.(ts := current, wnd := if nrcvQue < cfg.rcvWnd then cfg.rcvWnd - nrcvQue else 0, una := rcvNxt);
      }
    }

    /** One turn of the sending loop. */
    method SendOne(p: nat, resent: nat, out0: seq<bytes>, cur0: bytes, ghost k: S.Kcb)
      returns (why: S.Why, out: seq<bytes>, cur: bytes)
      requires Valid() && k.cfg == cfg && k.clk == Clock() && k.rcv == Rcv() && resent == S.Resent(cfg) && p < |sndBuf|
      modifies this`sndBuf, this`xmit, this`dead
      ensures Valid() && why == S.WhySend(k, old(sndBuf)[p])
      ensures var seg := S.FlushSeg(k, old(sndBuf)[p]);
              && sndBuf == old(sndBuf)[p := seg]
              && xmit == (if why.Timeout? then U32(old(xmit) + 1) else old(xmit))
              && dead == (old(dead) || (!why.Keep? && seg.xmit >= cfg.deadLink))
              && Scratch(out, cur) == (if why.Keep? then Scratch(out0, cur0)
                                       else Put(cfg.conv, cfg.mtu, Scratch(out0, cur0), S.PktOf(seg)))
    {
      hide S.FlushSeg, S.WhySend, Put;
      var seg;
      seg, why := Renew(sndBuf[p], resent, k);
      out, cur := out0, cur0;
      sndBuf := sndBuf[p := seg];
      if why.Timeout? { xmit := U32(xmit + 1); }
      if !why.Keep? {
        out, cur := PutSeg(out, cur, S.PktOf(seg));
        if seg.xmit >= cfg.deadLink { dead := true; }
      }
    }

    /** The sending loop over snd_buf. */
    method FlushData(out0: seq<bytes>, cur0: bytes, ghost k: S.Kcb, ghost ps: seq<S.Pkt>)
      returns (out: seq<bytes>, cur: bytes, timeouts: nat, fasts: nat)
      requires Valid() && k.cfg == cfg && k.clk == Clock() && k.rcv == Rcv()
      requires Scratch(out0, cur0) == Fill(cfg.conv, cfg.mtu, ps)
      modifies this`sndBuf, this`xmit, this`dead
      ensures Valid()
      ensures var pass := S.FlushBuf(k, old(sndBuf));
              && sndBuf == pass.buf && timeouts == pass.timeouts && fasts == pass.fasts
              && xmit == U32(old(xmit) + timeouts) && dead == (old(dead) || pass.dead)
              && Scratch(out, cur) == Fill(cfg.conv, cfg.mtu, ps + pass.pkts)
    {
      hide S.FlushBuf, S.FlushSeg, S.WhySend, Fill, Put, S.Resent, S.PktOf, U32, Rcv, Clock;
      out, cur, timeouts, fasts := out0, cur0, 0, 0;
      var resent := S.Resent(cfg);
      var p := 0;
      ghost var all := sndBuf;
      FlushStart(k, all, ps);
      XmitMore(xmit, 0);
      while p < |sndBuf|
        invariant 0 <= p <= |sndBuf| == |all| && Valid() && timeouts >= 0
        invariant var pass := S.FlushBuf(k, all[..p]);
                  && sndBuf == pass.buf + all[p..] && timeouts == pass.timeouts && fasts == pass.fasts
                  && xmit == U32(old(xmit) + timeouts) && dead == (old(dead) || pass.dead)
                  && Scratch(out, cur) == Fill(cfg.conv, cfg.mtu, ps + pass.pkts)
      {
        FlushNext(k, all, p, cfg.conv, cfg.mtu, ps);
        assert sndBuf[p] == all[p];
        XmitMore(old(xmit), timeouts);
        var why;
        why, out, cur := SendOne(p, resent, out, cur, k);
        if why.Timeout? { timeouts := timeouts + 1; }
        if why.Fast? { fasts := fasts + 1; }
        p := p + 1;
      }
      FlushStop(k, all);
    }

    /** The same on the whole congestion state. */
    method FlushPass(out0: seq<bytes>, cur0: bytes, ghost k: S.Kcb, ghost ps: seq<S.Pkt>)
      returns (out: seq<bytes>, cur: bytes, timeouts: nat, fasts: nat)
      requires Valid() && k.cfg == cfg && k.clk == Clock() && k.rcv == Rcv()
      requires Scratch(out0, cur0) == Fill(cfg.conv, cfg.mtu, ps)
      modifies this`sndBuf, this`xmit, this`dead
      ensures Valid()
      ensures var pass := S.FlushBuf(k, old(sndBuf));
              && Snd() == old(Snd()).(buf := pass.buf) && Cong() == Passed(old(Cong()), pass)
              && timeouts == pass.timeouts && fasts == pass.fasts
              && Scratch(out, cur) == Fill(cfg.conv, cfg.mtu, ps + pass.pkts)
    {
      hide S.FlushBuf, Fill, U32, Rcv, Clock;
      out, cur, timeouts, fasts := FlushData(out0, cur0, k, ps);
    }

    /** The window after losses. */
    method AfterLosses(priorCwnd: nat, fasts: nat, timeouts: nat)
      requires Valid() && priorCwnd == cwnd
      modifies this`ssthresh, this`cwnd, this`incr
      ensures Valid() && Cong() == S.Backoff(cfg, old(Cong()), U32(sndNxt - sndUna), fasts, timeouts)
      ensures cwnd >= 1 && (fasts > 0 || timeouts > 0 ==> ssthresh >= S.THRESH_MIN) && (timeouts > 0 ==> cwnd == 1)
    {
      G.BackoffBounded(cfg, Cong(), U32(sndNxt - sndUna), fasts, timeouts);
      hide U32, Mul32;
      var t, w, i := ssthresh, cwnd, incr;
      if fasts > 0 {
        var inflight := U32(sndNxt - sndUna);
        t := inflight / 2;
        if t < S.THRESH_MIN { t := S.THRESH_MIN; }
        w := U32(t + S.Resent(cfg));
        i := Mul32(w, cfg.mss);
      }
      if timeouts > 0 {
        t := priorCwnd / 2;
        if t < S.THRESH_MIN { t := S.THRESH_MIN; }
        w, i := 1, cfg.mss;
      }
      if w < 1 { w, i := 1, cfg.mss; }
      ssthresh, cwnd, incr := t, w, i;
    }

    /** The first half of ikcp_flush: acknowledgements and probes. */
    method FlushControl() returns (out: seq<bytes>, cur: bytes)
      requires Valid()
      modifies this`probeWait, this`tsProbe, this`askSend, this`askTell, this`ackList
      ensures Valid() && ackList == [] && Cong() == S.Probe(old(Cong()), current).(askSend := false, askTell := false)
      ensures Scratch(out, cur) ==
              Fill(cfg.conv, cfg.mtu, S.AckPkts(old(Cb())) + S.ProbePkts(old(Cb()), S.Probe(old(Cong()), current)))
    {
      hide S.AckPkts, S.ProbePkts, S.Probe, Fill, Snd, Rcv, Clock, G.WaitOk;
      ghost var k := Cb();
      out, cur := FlushAcks();
      ProbeTimer();
      SameProbes(k, Cb(), Cong());
      ghost var probed := Cong();
      assert probed == S.Probe(k.cc, current);
      out, cur := FlushProbes(out, cur, S.AckPkts(k));
      ackList := [];
      askSend, askTell := false, false;
    }

    /** The second half: new and due segments, and the window after losses. */
    method FlushSegments(out0: seq<bytes>, cur0: bytes, ghost k: S.Kcb, ghost ps: seq<S.Pkt>)
      returns (out: seq<bytes>, cur: bytes)
      requires Valid() && k.cfg == cfg && k.clk == Clock() && k.rcv == Rcv()
      requires Scratch(out0, cur0) == Fill(cfg.conv, cfg.mtu, ps)
      modifies this`sndQueue, this`sndBuf, this`nsndQue, this`nsndBuf, this`sndNxt,
               this`xmit, this`dead, this`ssthresh, this`cwnd, this`incr
      ensures Valid()
      ensures var s := S.Admit(true, k, old(Snd()), S.Window(cfg, old(Cong())));
              var pass := S.FlushBuf(k, s.buf);
              && Snd() == s.(buf := pass.buf)
              && Cong() == S.Backoff(cfg, Passed(old(Cong()), pass), U32(s.nxt - s.una), pass.fasts, pass.timeouts)
              && Scratch(out, cur) == Fill(cfg.conv, cfg.mtu, ps + pass.pkts)
    {
      hide S.Admit, S.FlushBuf, S.Backoff, S.Window, Passed, Fill, U32, Rcv, Clock, Cong;
      var window := SendWindow();
      AdmitNew(window, k);
      var timeouts, fasts;
      out, cur, timeouts, fasts := FlushPass(out0, cur0, k, ps);
      AfterLosses(cwnd, fasts, timeouts);
    }

    /** ikcp_flush once ikcp_update has been called. */
    method FlushUpdated() returns (out: seq<bytes>)
      requires Valid() && updated
      modifies this
      ensures Valid() && Cb() == S.Flush(true, old(Cb())).0
      ensures out == Datagrams(cfg.conv, cfg.mtu, S.Flush(true, old(Cb())).1)
    {
      ghost var k := Cb();
      FlushParts(k);
      hide Datagrams, S.Flush, S.AckPkts, S.ProbePkts, S.Probe, S.Admit, S.FlushBuf, S.Backoff, S.Window, Passed,
        Fill, U32, Snd, Rcv, Cong;
      var cur;
      out, cur := FlushControl();
      out, cur := FlushSegments(out, cur, k, S.AckPkts(k) + S.ProbePkts(k, S.Probe(k.cc, k.clk.current)));
      out := Remainder(out, cur, S.Flush(true, k).1);
    }

    /** ikcp_flush: the new state and the datagrams handed to output. */
    method Flush() returns (out: seq<bytes>)
      requires Valid()
      modifies this
      ensures Valid() && Cb() == S.Flush(true, old(Cb())).0
      ensures out == Datagrams(cfg.conv, cfg.mtu, S.Flush(true, old(Cb())).1)
    {
      out := [];
      if updated {
        out := FlushUpdated();
      } else {
        FlushParts(Cb());
        hide Datagrams, S.Flush;
      }
    }

    // -------------------------------------------------------------- the clock

    /** The clock part of ikcp_update: whether it is time to flush. */
    method Advance(now: nat) returns (due: bool)
      requires Valid()
      modifies this`current, this`updated, this`tsFlush
      ensures Valid() && (Clock(), due) == S.Tick(cfg, old(Clock()), now)
    {
      hide U32, I32;
      current := now;
      if !updated {
        updated := true;
        tsFlush := current;
      }
      var slap := Diff(true, current, tsFlush);
      if slap >= 10000 || slap < -10000 {
        tsFlush := current;
        slap := 0;
      }
      due := slap >= 0;
      if due {
        tsFlush := U32(tsFlush + cfg.interval);
        if Diff(true, current, tsFlush) >= 0 {
          tsFlush := U32(current + cfg.interval);
        }
      }
    }

    /** ikcp_update */
    method Update(now: nat) returns (out: seq<bytes>)
      requires Valid()
      modifies this
      ensures Valid() && Cb() == S.Update(true, old(Cb()), now).0
      ensures out == Datagrams(cfg.conv, cfg.mtu, S.Update(true, old(Cb()), now).1)
    {
      hide S.Flush, S.Tick, Datagrams, Fill, Snd, Rcv, Cong;
      FlushNothing(cfg.conv, cfg.mtu);
      var due := Advance(now);
      out := [];
      if due { out := Flush(); }
    }

    /** ikcp_check */
    method Check(now: nat) returns (next: nat)
      requires Valid()
      ensures next == C.Check(Cb(), now)
    {
      hide U32, I32;
      if !updated { return now; }
      var flush := tsFlush;
      if Diff(true, now, flush) >= 10000 || Diff(true, now, flush) < -10000 { flush := now; }
      C.DiffSelf(now);
      if Diff(true, now, flush) >= 0 { return now; }
      var tmFlush := Diff(true, flush, now);
      var tmPacket := 0x7fff_ffff;
      var p := 0;
      while p < |sndBuf|
        invariant 0 <= p <= |sndBuf| && tmPacket > 0 && tmPacket == C.Nearest(sndBuf[..p], now, 0x7fff_ffff)
      {
        assert sndBuf[..p + 1][..p] == sndBuf[..p];
        var diff := Diff(true, sndBuf[p].resendts, now);
        if diff <= 0 {
          NearestPast(sndBuf, p + 1, now);
          return now;
        }
        if diff < tmPacket { tmPacket := diff; }
        p := p + 1;
      }
      assert sndBuf[..p] == sndBuf;
      var minimal := if tmPacket < tmFlush then tmPacket else tmFlush;
      if minimal >= cfg.interval { minimal := cfg.interval; }
      next := U32(now + minimal);
    }

    /** ikcp_waitsnd */
    method WaitSnd() returns (n: nat)
      requires Valid()
      ensures n == S.WaitSnd(Cb())
    {
      n := nsndBuf + nsndQue;
    }

    /** Output of what is left in the buffer. */
    method Remainder(out0: seq<bytes>, cur: bytes, ghost ps: seq<S.Pkt>) returns (out: seq<bytes>)
      requires Scratch(out0, cur) == Fill(cfg.conv, cfg.mtu, ps)
      ensures out == Datagrams(cfg.conv, cfg.mtu, ps)
    {
      hide Fill;
      out := out0;
      if |cur| > 0 { out := out + [cur]; }
    }

    method SendWindow() returns (window: nat)
      ensures window == S.Window(cfg, Cong())
    {
      window := IMin(cfg.sndWnd, rmtWnd);
      if !cfg.nocwnd { window := IMin(cwnd, window); }
    }
  }

  lemma {:induction false} FragmentsDone(q: seq<Seg>, stream: bool, mss: pos, data: bytes)
    requires M.Enough(mss, 0, |data|)
    ensures q + S.Fragments(stream, mss, 0, data) == q && |data| == 0
  {
  }

  lemma FragmentsNext(q: seq<Seg>, seg: Seg, stream: bool, mss: pos, count: nat, data: bytes)
    requires count > 0
    requires seg == S.Fresh(if stream then 0 else count - 1, data[..if |data| > mss then mss else |data|])
    ensures var size := if |data| > mss then mss else |data|;
            q + S.Fragments(stream, mss, count, data) == (q + [seg]) + S.Fragments(stream, mss, count - 1, data[size..])
  {
  }

  lemma PromoteNext(cfg: S.Config, r: S.Rcv)
    ensures S.Promote(true, cfg, r) ==
            if r.buf != [] && r.buf[0].sn == r.nxt && |r.queue| < cfg.rcvWnd
            then S.Promote(true, cfg, S.Rcv(r.queue + [r.buf[0]], r.buf[1..], U32(r.nxt + 1))) else r
  {
  }

  lemma InsertBefore(buf: seq<Seg>, p: nat, sn: nat)
    requires 0 < p <= |buf|
    ensures forall seg: Seg :: seg.sn == sn ==>
              S.Insert(true, buf[..p], seg) + buf[p..] ==
              if buf[p - 1].sn == sn then buf
              else if Diff(true, sn, buf[p - 1].sn) > 0 then buf[..p] + [seg] + buf[p..]
              else S.Insert(true, buf[..p - 1], seg) + buf[p - 1..]
  {
    forall seg: Seg | seg.sn == sn
      ensures S.Insert(true, buf[..p], seg) + buf[p..] ==
              if buf[p - 1].sn == sn then buf
              else if Diff(true, sn, buf[p - 1].sn) > 0 then buf[..p] + [seg] + buf[p..]
              else S.Insert(true, buf[..p - 1], seg) + buf[p - 1..]
    {
      assert buf[..p][..p - 1] == buf[..p - 1] && [buf[p - 1]] + buf[p..] == buf[p - 1..] && buf[..p] + buf[p..] == buf;
    }
  }

  /** InputPkt by its parts. */
  lemma InputPktParts(k: S.Kcb, n: S.Newest, p: S.Pkt)
    ensures var snd, rtt := S.Shrink(S.ParseUna(true, k.snd, p.una)), Diff(true, k.clk.current, p.ts);
            var ack, push := p.cmd == S.CMD_ACK, p.cmd == S.CMD_PUSH && S.InWindow(true, k.cfg, k.rcv, p.sn);
            S.InputPkt(true, k, n, p) ==
            (S.Kcb(k.cfg,
                   if ack then S.Shrink(S.ParseAck(true, snd, p.sn)) else snd,
                   if push && Diff(true, p.sn, k.rcv.nxt) >= 0 then S.ParseData(true, k.cfg, k.rcv, S.SegOf(p))
                   else k.rcv,
                   if push then k.acks + [S.Ack(p.sn, p.ts)] else k.acks,
                   if p.cmd == S.CMD_WASK then k.cc.(rmtWnd := p.wnd).(askTell := true) else k.cc.(rmtWnd := p.wnd),
                   if ack && rtt >= 0 then S.UpdateAck(k.cfg, k.clk, rtt) else k.clk),
             if ack then S.NewestAck(true, n, p.sn, p.ts) else n)
  {
    hide S.ParseUna, S.ParseAck, S.ParseData, S.Shrink, S.UpdateAck, S.NewestAck, S.InWindow, Diff;
  }

  function ReturnCode(stop: Stop): int {
    match stop
    case Done => 0
    case BadConv => -1
    case BadLen => -2
    case BadCmd => -3
  }

  lemma {:induction false} ParseNone(conv: nat, k: S.Kcb, n: S.Newest, b: bytes)
    requires IsBytes(b)
    ensures S.InputPkts(true, k, n, []) == (k, n)
    ensures |b| < S.OVERHEAD ==> Parse(conv, b) == Parsed([], Done)
  {
  }

  /** The reading loop, one segment on. */
  lemma {:induction false} ParseNext(conv: nat, b: bytes, k: S.Kcb, n: S.Newest)
    requires IsBytes(b) && |b| >= S.OVERHEAD
    ensures var r, len := Parse(conv, b), Decode32(b, 20);
            if Decode32(b, 0) != conv then r == Parsed([], BadConv)
            else if |b| - S.OVERHEAD < len || I32(len) < 0 then r == Parsed([], BadLen)
            else if !KnownCmd(b[4]) then r == Parsed([], BadCmd)
            else
              && len >= 0 && IsBytes(b[S.OVERHEAD + len..]) && r.stop == Parse(conv, b[S.OVERHEAD + len..]).stop
              && var (k1, n1) := S.InputPkt(true, k, n, FirstPkt(b));
                 S.InputPkts(true, k, n, r.pkts) == S.InputPkts(true, k1, n1, Parse(conv, b[S.OVERHEAD + len..]).pkts)
    ensures Decode32(b, 20) >= 0
  {
  }

  lemma {:induction false} FillSnoc(conv: nat, mtu: nat, ps: seq<S.Pkt>, p: S.Pkt)
    ensures Fill(conv, mtu, ps + [p]) == Put(conv, mtu, Fill(conv, mtu, ps), p)
  {
  }

  lemma {:induction false} FillMore(conv: nat, mtu: nat, ps: seq<S.Pkt>, i: nat)
    requires i < |ps|
    ensures Fill(conv, mtu, ps[..i + 1]) == Put(conv, mtu, Fill(conv, mtu, ps[..i]), ps[i])
  {
    assert ps[..i + 1][..i] == ps[..i];
  }

  lemma AdmitNext(k: S.Kcb, s: S.Snd, cwnd: nat)
    ensures S.Admit(true, k, s, cwnd) ==
            if s.queue != [] && Diff(true, s.nxt, U32(s.una + cwnd)) < 0
            then S.Admit(true, k, s.(queue := s.queue[1..], buf := s.buf + [S.Numbered(k, s.queue[0], s.nxt)],
                                     nxt := U32(s.nxt + 1)), cwnd)
            else s
  {
  }

  /** The congestion state when a pass is over. */
  function Passed(cc: S.Cong, pass: S.Pass): S.Cong {
    cc.(xmit := U32(cc.xmit + pass.timeouts), dead := cc.dead || pass.dead)
  }

  /** Flush by its parts. */
  lemma {:induction false} FlushParts(k: S.Kcb)
    ensures !k.clk.updated ==> S.Flush(true, k) == (k, []) && Datagrams(k.cfg.conv, k.cfg.mtu, []) == []
    ensures k.clk.updated ==>
              var cc := S.Probe(k.cc, k.clk.current);
              var cc0 := cc.(askSend := false, askTell := false);
              var s := S.Admit(true, k, k.snd, S.Window(k.cfg, cc0));
              var pass := S.FlushBuf(k, s.buf);
              S.Flush(true, k) ==
              (S.Kcb(k.cfg, s.(buf := pass.buf), k.rcv, [],
                     S.Backoff(k.cfg, Passed(cc0, pass), U32(s.nxt - s.una), pass.fasts, pass.timeouts), k.clk),
               S.AckPkts(k) + S.ProbePkts(k, cc) + pass.pkts)
  {
    hide S.AckPkts, S.ProbePkts, S.Probe, S.Admit, S.FlushBuf, S.Backoff, U32;
  }

  lemma {:induction false} FlushStart(k: S.Kcb, all: seq<Seg>, ps: seq<S.Pkt>)
    ensures S.FlushBuf(k, all[..0]) == S.Pass([], [], 0, 0, false) == S.FlushBuf(k, [])
    ensures [] + all[0..] == all && ps + [] == ps
  {
  }

  lemma {:induction false} FlushStop(k: S.Kcb, all: seq<Seg>)
    ensures all[..|all|] == all && S.FlushBuf(k, all).buf + all[|all|..] == S.FlushBuf(k, all).buf
  {
  }

  lemma {:induction false} FlushNext(k: S.Kcb, all: seq<Seg>, p: nat, conv: nat, mtu: nat, ps: seq<S.Pkt>)
    requires p < |all|
    ensures var pass, next, why, seg := S.FlushBuf(k, all[..p]), S.FlushBuf(k, all[..p + 1]), S.WhySend(k, all[p]),
            S.FlushSeg(k, all[p]);
            && |pass.buf| == p
            && next.buf + all[p + 1..] == (pass.buf + all[p..])[p := seg]
            && next.timeouts == pass.timeouts + (if why.Timeout? then 1 else 0)
            && next.fasts == pass.fasts + (if why.Fast? then 1 else 0)
            && next.dead == (pass.dead || (!why.Keep? && seg.xmit >= k.cfg.deadLink))
            && (why.Keep? ==> next.pkts == pass.pkts)
            && (!why.Keep? ==>
                  Fill(conv, mtu, ps + next.pkts) == Put(conv, mtu, Fill(conv, mtu, ps + pass.pkts), S.PktOf(seg)))
  {
    assert all[..p + 1][..p] == all[..p];
    var pass, seg := S.FlushBuf(k, all[..p]), S.FlushSeg(k, all[p]);
    FillSnoc(conv, mtu, ps + pass.pkts, S.PktOf(seg));
    assert ps + (pass.pkts + [S.PktOf(seg)]) == (ps + pass.pkts) + [S.PktOf(seg)];
    hide S.FlushSeg, S.WhySend, Fill, Put;
  }

  lemma FlushNothing(conv: nat, mtu: nat)
    ensures Datagrams(conv, mtu, []) == []
  {
  }

  /** Once one segment is due, the rest does not matter. */
  lemma {:induction false} NearestPast(buf: seq<Seg>, p: nat, now: nat)
    requires p <= |buf| && C.Nearest(buf[..p], now, 0x7fff_ffff) <= 0
    ensures C.Nearest(buf, now, 0x7fff_ffff) <= 0
    decreases |buf|
  {
    if p < |buf| {
      assert buf[..|buf| - 1][..p] == buf[..p];
      NearestPast(buf[..|buf| - 1], p, now);
    } else {
      assert buf[..p] == buf;
    }
  }

  lemma XmitMore(xmit: nat, n: nat)
    ensures U32(U32(xmit + n) + 1) == U32(xmit + (n + 1)) && (xmit < W ==> U32(xmit + 0) == xmit)
  {
  }

  lemma SameProbes(k: S.Kcb, k': S.Kcb, cc: S.Cong)
    requires k'.acks == k.acks && k'.cfg == k.cfg && k'.rcv == k.rcv
    ensures S.ProbePkts(k', cc) == S.ProbePkts(k, cc)
  {
  }

  lemma {:induction false} RemoveNext(all: seq<Seg>, p: nat, sn: nat)
    requires p <= |all|
    ensures all[..p] + S.RemoveSn(true, all[p..], sn) ==
            if p == |all| then all
            else if sn == all[p].sn then all[..p] + all[p + 1..]
            else if Diff(true, sn, all[p].sn) < 0 then all
            else all[..p + 1] + S.RemoveSn(true, all[p + 1..], sn)
  {
  }

  /** buf is what CountFast has made of all up to p. */
  lemma {:induction false} CountNext(buf: seq<Seg>, all: seq<Seg>, p: nat, sn: nat, ts: nat)
    requires p <= |buf| == |all| && buf[p..] == all[p..]
    ensures p == |all| || Diff(true, sn, all[p].sn) < 0 ==> buf[..p] + S.CountFast(true, all[p..], sn, ts) == buf
    ensures p < |all| && Diff(true, sn, all[p].sn) >= 0 ==>
              var buf1 := if sn != all[p].sn && Diff(true, ts, all[p].ts) >= 0
                          then buf[p := buf[p].(fastack := U32(buf[p].fastack + 1))] else buf;
              && buf[..p] + S.CountFast(true, all[p..], sn, ts)
                 == buf1[..p + 1] + S.CountFast(true, all[p + 1..], sn, ts)
              && buf1[p + 1..] == all[p + 1..]
  {
  }
}
