/** The control block of ikcp.c on values, and each operation as a function.  With `wrap` the serial
    numbers are 32-bit and compared by _itimediff, as in the code; without it they never wrap. */
module KcpState {
  import opened KcpNum

  const RTO_MAX := 60000
  const CMD_PUSH := 81
  const CMD_ACK := 82
  const CMD_WASK := 83
  const CMD_WINS := 84
  const WND_RCV := 128
  const OVERHEAD := 24
  const THRESH_MIN := 2
  const PROBE_INIT := 5000
  const PROBE_LIMIT := 120000

  type bytes = seq<int>

  /** A segment in a queue of the control block. */
  datatype Seg = Seg(sn: nat, frg: nat, data: bytes, wnd: nat, ts: nat, una: nat,
                     resendts: nat, rto: nat, fastack: nat, xmit: nat)

  /** A segment as it travels. */
  datatype Pkt = Pkt(cmd: nat, frg: nat, wnd: nat, ts: nat, sn: nat, una: nat, data: bytes)

  datatype Ack = Ack(sn: nat, ts: nat)

  /** What never changes while a connection runs. */
  datatype Config = Config(conv: nat, mtu: nat, mss: pos, sndWnd: nat, rcvWnd: nat, interval: nat, nodelay: nat,
                           fastresend: int, fastlimit: int, nocwnd: bool, stream: bool, rxMinrto: int, deadLink: nat)

  datatype Snd = Snd(queue: seq<Seg>, buf: seq<Seg>, una: nat, nxt: nat)

  datatype Rcv = Rcv(queue: seq<Seg>, buf: seq<Seg>, nxt: nat)

  datatype Cong = Cong(cwnd: nat, ssthresh: nat, incr: nat, rmtWnd: nat, askSend: bool, askTell: bool,
                       tsProbe: nat, probeWait: nat, xmit: nat, dead: bool)

  datatype Clock = Clock(current: nat, tsFlush: nat, updated: bool, rxSrtt: int, rxRttval: int, rxRto: int)

  datatype Kcb = Kcb(cfg: Config, snd: Snd, rcv: Rcv, acks: seq<Ack>, cc: Cong, clk: Clock)

  // ---------------------------------------------------------------- sending

  /** A fragment that has no serial number yet. */
  function Fresh(frg: nat, data: bytes): Seg {
    Seg(0, frg, data, 0, 0, 0, 0, 0, 0, 0)
  }

  /** The fragments of a message, numbered down to zero unless in stream mode. */
  function Fragments(stream: bool, mss: pos, count: nat, data: bytes): seq<Seg>
    decreases count
  {
    if count == 0 then [] else
      var size := if |data| > mss then mss else |data|;
      [Fresh(if stream then 0 else count - 1, data[..size])] + Fragments(stream, mss, count - 1, data[size..])
  }

  function FragCount(mss: pos, len: nat): (count: nat)
    ensures count > 0
  {
    if len <= mss then 1 else (len + mss - 1) / mss
  }

  /** Stream mode: the last queued segment takes what fits. */
  function Append(cfg: Config, queue: seq<Seg>, data: bytes): (r: (seq<Seg>, nat))
    ensures r.1 <= |data|
  {
    if cfg.stream && queue != [] && |queue[|queue| - 1].data| < cfg.mss then
      var last := queue[|queue| - 1];
      var capacity := cfg.mss - |last.data|;
      var extend := if |data| < capacity then |data| else capacity;
      (queue[..|queue| - 1] + [Fresh(0, last.data + data[..extend])], extend)
    else (queue, 0)
  }

  /** ikcp_send: the new queue and the return value. */
  function Send(cfg: Config, queue: seq<Seg>, data: bytes): (seq<Seg>, int)
  {
    var (q, sent) := Append(cfg, queue, data);
    var rest := data[sent..];
    if cfg.stream && rest == [] then (q, sent)
    else
      var count := FragCount(cfg.mss, |rest|);
      if count >= WND_RCV then (q, if cfg.stream && sent > 0 then sent else -2)
      else (q + Fragments(cfg.stream, cfg.mss, count, rest), sent + |rest|)
  }

  // ---------------------------------------------------------------- acknowledged data leaves

  function DropBelow(wrap: bool, buf: seq<Seg>, una: nat): seq<Seg>
    decreases |buf|
  {
    if buf != [] && Diff(wrap, una, buf[0].sn) > 0 then DropBelow(wrap, buf[1..], una) else buf
  }

  function RemoveSn(wrap: bool, buf: seq<Seg>, sn: nat): seq<Seg>
    decreases |buf|
  {
    if buf == [] then []
    else if sn == buf[0].sn then buf[1..]
    else if Diff(wrap, sn, buf[0].sn) < 0 then buf
    else [buf[0]] + RemoveSn(wrap, buf[1..], sn)
  }

  /** ikcp_shrink_buf */
  function Shrink(s: Snd): Snd {
    s.(una := if s.buf != [] then s.buf[0].sn else s.nxt)
  }

  function InFlight(wrap: bool, s: Snd, sn: nat): bool {
    !(Diff(wrap, sn, s.una) < 0 || Diff(wrap, sn, s.nxt) >= 0)
  }

  /** ikcp_parse_una */
  function ParseUna(wrap: bool, s: Snd, una: nat): Snd {
    s.(buf := DropBelow(wrap, s.buf, una))
  }

  /** ikcp_parse_ack */
  function ParseAck(wrap: bool, s: Snd, sn: nat): Snd {
    if InFlight(wrap, s, sn) then s.(buf := RemoveSn(wrap, s.buf, sn)) else s
  }

  /** ikcp_parse_fastack: later acknowledgements overtook these. */
  function CountFast(wrap: bool, buf: seq<Seg>, sn: nat, ts: nat): seq<Seg>
    decreases |buf|
  {
    if buf == [] || Diff(wrap, sn, buf[0].sn) < 0 then buf
    else
      var seg := if sn != buf[0].sn && Diff(true, ts, buf[0].ts) >= 0
                 then buf[0].(fastack := U32(buf[0].fastack + 1)) else buf[0];
      [seg] + CountFast(wrap, buf[1..], sn, ts)
  }

  function ParseFastack(wrap: bool, s: Snd, sn: nat, ts: nat): Snd {
    if InFlight(wrap, s, sn) then s.(buf := CountFast(wrap, s.buf, sn, ts)) else s
  }

  // ---------------------------------------------------------------- data arrives

  /** Searching rcv_buf from the back for the segment's place; a repeated one is dropped. */
  function Insert(wrap: bool, buf: seq<Seg>, seg: Seg): seq<Seg>
    decreases |buf|
  {
    if buf == [] then [seg]
    else
      var last := buf[|buf| - 1];
      if last.sn == seg.sn then buf
      else if Diff(wrap, seg.sn, last.sn) > 0 then buf + [seg]
      else Insert(wrap, buf[..|buf| - 1], seg) + [last]
  }

  /** Moving what is in order, and fits, from rcv_buf to rcv_queue. */
  function Promote(wrap: bool, cfg: Config, r: Rcv): Rcv
    decreases |r.buf|
  {
    if r.buf != [] && r.buf[0].sn == r.nxt && |r.queue| < cfg.rcvWnd
    then Promote(wrap, cfg, Rcv(r.queue + [r.buf[0]], r.buf[1..], Add(wrap, r.nxt, 1)))
    else r
  }

  function InWindow(wrap: bool, cfg: Config, r: Rcv, sn: nat): bool {
    Diff(wrap, sn, Add(wrap, r.nxt, cfg.rcvWnd)) < 0
  }

  /** ikcp_parse_data */
  function ParseData(wrap: bool, cfg: Config, r: Rcv, seg: Seg): Rcv {
    if !InWindow(wrap, cfg, r, seg.sn) || Diff(wrap, seg.sn, r.nxt) < 0 then r
    else Promote(wrap, cfg, r.(buf := Insert(wrap, r.buf, seg)))
  }

  // ---------------------------------------------------------------- reading

  /** The data up to the first fragment numbered zero, or to the end. */
  function Merge(queue: seq<Seg>): bytes
    decreases |queue|
  {
    if queue == [] then []
    else if queue[0].frg == 0 then queue[0].data
    else queue[0].data + Merge(queue[1..])
  }

  /** How many fragments that takes. */
  function MergeCount(queue: seq<Seg>): (n: nat)
    ensures n <= |queue| && (queue != [] ==> n > 0)
    decreases |queue|
  {
    if queue == [] then 0 else if queue[0].frg == 0 then 1 else 1 + MergeCount(queue[1..])
  }

  /** ikcp_peeksize */
  function PeekSize(r: Rcv): int {
    if r.queue == [] || |r.queue| < r.queue[0].frg + 1 then -1 else |Merge(r.queue)|
  }

  /** ikcp_recv: the receiver, whether to tell the window, the return value and the message.
      A negative length only looks. */
  function Recv(wrap: bool, cfg: Config, r: Rcv, len: int): (Rcv, bool, int, bytes) {
    var peek := PeekSize(r);
    if r.queue == [] then (r, false, -1, [])
    else if peek < 0 then (r, false, -2, [])
    else if peek > (if len < 0 then -len else len) then (r, false, -3, [])
    else
      var r1 := if len < 0 then r else r.(queue := r.queue[MergeCount(r.queue)..]);
      var r2 := Promote(wrap, cfg, r1);
      (r2, |r.queue| >= cfg.rcvWnd && |r2.queue| < cfg.rcvWnd, peek, Merge(r.queue))
  }

  // ---------------------------------------------------------------- round-trip time and window

  /** ikcp_update_ack */
  function UpdateAck(cfg: Config, clk: Clock, rtt: int): Clock {
    var (srtt, rttval) :=
      if clk.rxSrtt == 0 then (rtt, Quot(rtt, 2))
      else
        var d := I32(rtt - clk.rxSrtt);
        var delta := if d < 0 then -d else d;
        var s := I32(Quot(I32(7 * clk.rxSrtt + rtt), 8));
        (if s < 1 then 1 else s, I32(Quot(I32(3 * clk.rxRttval) + delta, 4)));
    var rto := U32(srtt + IMax(cfg.interval, U32(4 * rttval)));
    clk.(rxSrtt := srtt, rxRttval := rttval, rxRto := IMin(IMax(U32(cfg.rxMinrto), rto), RTO_MAX))
  }

  /** The congestion window after newly acknowledged data. */
  function Grow(mss: pos, cc: Cong): Cong
  {
    if cc.cwnd >= cc.rmtWnd then cc
    else
      var c1 :=
        if cc.cwnd < cc.ssthresh then cc.(cwnd := U32(cc.cwnd + 1), incr := U32(cc.incr + mss))
        else
          var i0 := if cc.incr < mss then mss else cc.incr;
          var i1 := U32(i0 + Div32(Mul32(mss, mss), i0) + mss / 16);
          cc.(incr := i1,
              cwnd := if Mul32(U32(cc.cwnd + 1), mss) <= i1 then Div32(U32(i1 + mss - 1), mss) else cc.cwnd);
      if c1.cwnd > c1.rmtWnd then c1.(cwnd := c1.rmtWnd, incr := Mul32(c1.rmtWnd, mss)) else c1
  }

  // ---------------------------------------------------------------- a datagram arrives

  /** The newest acknowledgement of the datagram so far, if any. */
  datatype Newest = NoAck | Newest(sn: nat, ts: nat)

  function NewestAck(wrap: bool, n: Newest, sn: nat, ts: nat): Newest {
    match n
    case NoAck => Newest(sn, ts)
    case Newest(maxack, latest) =>
      if Diff(wrap, sn, maxack) > 0 && Diff(true, ts, latest) > 0 then Newest(sn, ts) else n
  }

  function SegOf(p: Pkt): Seg {
    Seg(p.sn, p.frg, p.data, p.wnd, p.ts, p.una, 0, 0, 0, 0)
  }

  /** One segment of a datagram.  */
  function InputPkt(wrap: bool, k: Kcb, n: Newest, p: Pkt): (r: (Kcb, Newest))
    ensures r.0.cfg == k.cfg
  {
    var k1 := k.(cc := k.cc.(rmtWnd := p.wnd), snd := Shrink(ParseUna(wrap, k.snd, p.una)));
    if p.cmd == CMD_ACK then
      var rtt := Diff(true, k1.clk.current, p.ts);
      (k1.(clk := if rtt >= 0 then UpdateAck(k1.cfg, k1.clk, rtt) else k1.clk,
           snd := Shrink(ParseAck(wrap, k1.snd, p.sn))),
       NewestAck(wrap, n, p.sn, p.ts))
    else if p.cmd == CMD_PUSH then
      if InWindow(wrap, k1.cfg, k1.rcv, p.sn) then
        (k1.(acks := k1.acks + [Ack(p.sn, p.ts)],
             rcv := if Diff(wrap, p.sn, k1.rcv.nxt) >= 0 then ParseData(wrap, k1.cfg, k1.rcv, SegOf(p)) else k1.rcv),
         n)
      else (k1, n)
    else if p.cmd == CMD_WASK then (k1.(cc := k1.cc.(askTell := true)), n)
    else (k1, n)
  }

  function InputPkts(wrap: bool, k: Kcb, n: Newest, ps: seq<Pkt>): (r: (Kcb, Newest))
    ensures r.0.cfg == k.cfg
    decreases |ps|
  {
    if ps == [] then (k, n)
    else
      var (k1, n1) := InputPkt(wrap, k, n, ps[0]);
      InputPkts(wrap, k1, n1, ps[1..])
  }

  /** What ikcp_input does after the loop. */
  function InputEnd(wrap: bool, k: Kcb, n: Newest, prevUna: nat): Kcb
  {
    var k1 := if n.NoAck? then k else k.(snd := ParseFastack(wrap, k.snd, n.sn, n.ts));
    if Diff(wrap, k1.snd.una, prevUna) > 0 then k1.(cc := Grow(k1.cfg.mss, k1.cc)) else k1
  }

  /** ikcp_input on the segments of a datagram; a malformed rest stops it before its last part. */
  function Input(wrap: bool, k: Kcb, ps: seq<Pkt>, wellFormed: bool): Kcb
  {
    var (k1, n) := InputPkts(wrap, k, NoAck, ps);
    if wellFormed then InputEnd(wrap, k1, n, k.snd.una) else k1
  }

  // ---------------------------------------------------------------- flushing

  /** ikcp_wnd_unused */
  function WndUnused(cfg: Config, r: Rcv): nat {
    if |r.queue| < cfg.rcvWnd then cfg.rcvWnd - |r.queue| else 0
  }

  function Control(cmd: nat, k: Kcb, a: Ack): Pkt {
    Pkt(cmd, 0, WndUnused(k.cfg, k.rcv), a.ts, a.sn, k.rcv.nxt, [])
  }

  function AckPkts(k: Kcb): (ps: seq<Pkt>)
    ensures |ps| == |k.acks|
  {
    seq(|k.acks|, i requires 0 <= i < |k.acks| => Control(CMD_ACK, k, k.acks[i]))
  }

  /** The probe timer, run while the peer's window is closed. */
  function Probe(cc: Cong, current: nat): Cong {
    if cc.rmtWnd == 0 then
      if cc.probeWait == 0 then cc.(probeWait := PROBE_INIT, tsProbe := U32(current + PROBE_INIT))
      else if Diff(true, current, cc.tsProbe) >= 0 then
        var w0 := if cc.probeWait < PROBE_INIT then PROBE_INIT else cc.probeWait;
        var w1 := U32(w0 + w0 / 2);
        var w := if w1 > PROBE_LIMIT then PROBE_LIMIT else w1;
        cc.(probeWait := w, tsProbe := U32(current + w), askSend := true)
      else cc
    else cc.(tsProbe := 0, probeWait := 0)
  }

  /** Probes carry the numbers the last acknowledgement left in the header. */
  function ProbePkts(k: Kcb, cc: Cong): seq<Pkt> {
    var a := if k.acks == [] then Ack(0, 0) else k.acks[|k.acks| - 1];
    (if cc.askSend then [Control(CMD_WASK, k, a)] else [])
    + (if cc.askTell then [Control(CMD_WINS, k, a)] else [])
  }

  function Window(cfg: Config, cc: Cong): nat {
    var w := IMin(cfg.sndWnd, cc.rmtWnd);
    if cfg.nocwnd then w else IMin(cc.cwnd, w)
  }

  /** A queued fragment gets its serial number. */
  function Numbered(k: Kcb, seg: Seg, sn: nat): Seg {
    Seg(sn, seg.frg, seg.data, WndUnused(k.cfg, k.rcv), k.clk.current, k.rcv.nxt,
        k.clk.current, U32(k.clk.rxRto), 0, 0)
  }

  /** Moving from snd_queue to snd_buf while the window allows. */
  function Admit(wrap: bool, k: Kcb, s: Snd, cwnd: nat): Snd
    decreases |s.queue|
  {
    if s.queue != [] && Diff(wrap, s.nxt, Add(wrap, s.una, cwnd)) < 0
    then Admit(wrap, k, s.(queue := s.queue[1..], buf := s.buf + [Numbered(k, s.queue[0], s.nxt)],
                           nxt := Add(wrap, s.nxt, 1)), cwnd)
    else s
  }

  datatype Why = Keep | First | Timeout | Fast

  function Resent(cfg: Config): nat {
    if cfg.fastresend > 0 then U32(cfg.fastresend) else 0xffff_ffff
  }

  /** Whether and why a segment of snd_buf is sent now. */
  function WhySend(k: Kcb, seg: Seg): Why {
    if seg.xmit == 0 then First
    else if Diff(true, k.clk.current, seg.resendts) >= 0 then Timeout
    else if seg.fastack >= Resent(k.cfg) && (I32(seg.xmit) <= k.cfg.fastlimit || k.cfg.fastlimit <= 0) then Fast
    else Keep
  }

  function FlushSeg(k: Kcb, seg: Seg): Seg {
    var sent := seg.(xmit := U32(seg.xmit + 1), ts := k.clk.current, wnd := WndUnused(k.cfg, k.rcv), una := k.rcv.nxt);
    match WhySend(k, seg)
    case Keep => seg
    case First =>
      var rtomin := if k.cfg.nodelay == 0 then U32(k.clk.rxRto) / 8 else 0;
      var rto := U32(k.clk.rxRto);
      sent.(rto := rto, resendts := U32(k.clk.current + rto + rtomin))
    case Timeout =>
      var rto := if k.cfg.nodelay == 0 then U32(seg.rto + IMax(seg.rto, U32(k.clk.rxRto)))
                 else U32(seg.rto + Quot(if k.cfg.nodelay < 2 then I32(seg.rto) else k.clk.rxRto, 2));
      sent.(rto := rto, resendts := U32(k.clk.current + rto))
    case Fast =>
      sent.(fastack := 0, resendts := U32(k.clk.current + seg.rto))
  }

  function PktOf(seg: Seg): Pkt {
    Pkt(CMD_PUSH, seg.frg, seg.wnd, seg.ts, seg.sn, seg.una, seg.data)
  }

  datatype Pass = Pass(buf: seq<Seg>, pkts: seq<Pkt>, timeouts: nat, fasts: nat, dead: bool)

  /** One pass over snd_buf. */
  function FlushBuf(k: Kcb, buf: seq<Seg>): (pass: Pass)
    ensures |pass.buf| == |buf|
    decreases |buf|
  {
    if buf == [] then Pass([], [], 0, 0, false)
    else
      var n := |buf| - 1;
      var p := FlushBuf(k, buf[..n]);
      var why, seg := WhySend(k, buf[n]), FlushSeg(k, buf[n]);
      if why.Keep? then p.(buf := p.buf + [seg])
      else Pass(p.buf + [seg], p.pkts + [PktOf(seg)], p.timeouts + (if why.Timeout? then 1 else 0),
                p.fasts + (if why.Fast? then 1 else 0), p.dead || seg.xmit >= k.cfg.deadLink)
  }

  /** The congestion state after a pass with losses. */
  function Backoff(cfg: Config, cc: Cong, inflight: nat, fasts: nat, timeouts: nat): Cong {
    var c1 :=
      if fasts == 0 then cc
      else
        var t := if inflight / 2 < THRESH_MIN then THRESH_MIN else inflight / 2;
        var w := U32(t + Resent(cfg));
        cc.(ssthresh := t, cwnd := w, incr := Mul32(w, cfg.mss));
    var c2 :=
      if timeouts == 0 then c1
      else c1.(ssthresh := if cc.cwnd / 2 < THRESH_MIN then THRESH_MIN else cc.cwnd / 2, cwnd := 1, incr := cfg.mss);
    if c2.cwnd < 1 then c2.(cwnd := 1, incr := cfg.mss) else c2
  }

  /** The end of a flush: what was sent in order, and the window after losses. */
  function FlushEnd(wrap: bool, k: Kcb, cc: Cong, s: Snd, pass: Pass): (Kcb, seq<Pkt>) {
    var inflight := if wrap then U32(s.nxt - s.una) else if s.nxt >= s.una then s.nxt - s.una else 0;
    var cc1 := cc.(askSend := false, askTell := false, xmit := U32(cc.xmit + pass.timeouts),
        dead := cc.dead || pass.dead);
    (k.(snd := s.(buf := pass.buf), acks := [], cc := Backoff(k.cfg, cc1, inflight, pass.fasts, pass.timeouts)),
     AckPkts(k) + ProbePkts(k, cc) + pass.pkts)
  }

  /** ikcp_flush: the new state and what was sent, in order. */
  function Flush(wrap: bool, k: Kcb): (Kcb, seq<Pkt>) {
    if !k.clk.updated then (k, [])
    else
      var cc := Probe(k.cc, k.clk.current);
      var s := Admit(wrap, k, k.snd, Window(k.cfg, cc));
      FlushEnd(wrap, k, cc, s, FlushBuf(k, s.buf))
  }

  // ---------------------------------------------------------------- the clock

  /** ikcp_update: the clock, and whether it is time to flush. */
  function Tick(cfg: Config, clk: Clock, current: nat): (Clock, bool) {
    var c := if clk.updated then clk.(current := current)
             else clk.(current := current, updated := true, tsFlush := current);
    var slap0 := Diff(true, c.current, c.tsFlush);
    var late := slap0 >= 10000 || slap0 < -10000;
    var flush := if late then c.current else c.tsFlush;
    var slap := if late then 0 else slap0;
    if slap >= 0 then
      var next := U32(flush + cfg.interval);
      (c.(tsFlush := if Diff(true, c.current, next) >= 0 then U32(c.current + cfg.interval) else next), true)
    else (c.(tsFlush := flush), false)
  }

  function Update(wrap: bool, k: Kcb, current: nat): (Kcb, seq<Pkt>) {
    var (clk, due) := Tick(k.cfg, k.clk, current);
    if due then Flush(wrap, k.(clk := clk)) else (k.(clk := clk), [])
  }

  /** ikcp_waitsnd */
  function WaitSnd(k: Kcb): nat {
    |k.snd.buf| + |k.snd.queue|
  }
}
