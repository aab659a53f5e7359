/** What every operation keeps, on serial numbers that do not wrap: the sender's buffer, the
    receiver's buffer, and what the two know of each other. */
module KcpInvariant {
  import opened KcpNum
  import opened KcpState

  /** What a serial number stands for. */
  datatype Frag = Frag(frg: nat, data: bytes)

  function FragOf(seg: Seg): Frag { Frag(seg.frg, seg.data) }

  function Frags(segs: seq<Seg>): (fs: seq<Frag>)
    ensures |fs| == |segs|
  {
    seq(|segs|, i requires 0 <= i < |segs| => FragOf(segs[i]))
  }

  ghost predicate Sorted(buf: seq<Seg>) {
    forall i, j :: 0 <= i < j < |buf| ==> buf[i].sn < buf[j].sn
  }

  /** Every segment carries what its number stands for. */
  ghost predicate Matches(buf: seq<Seg>, hist: seq<Frag>) {
    forall i :: 0 <= i < |buf| ==> buf[i].sn < |hist| && FragOf(buf[i]) == hist[buf[i].sn]
  }

  ghost predicate InBuf(buf: seq<Seg>, sn: nat) {
    exists i :: 0 <= i < |buf| && buf[i].sn == sn
  }

  /** b keeps numbers and contents of a, in order. */
  ghost predicate SameCore(a: seq<Seg>, b: seq<Seg>) {
    |a| == |b| && forall i :: 0 <= i < |a| ==> a[i].sn == b[i].sn && FragOf(a[i]) == FragOf(b[i])
  }

  ghost predicate Within(buf: seq<Seg>, lo: nat, hi: nat) {
    forall i :: 0 <= i < |buf| ==> lo <= buf[i].sn < hi
  }

  // ---------------------------------------------------------------- sender

  /** snd_buf ascends below snd_nxt, starts at snd_una, and no more than the window is in flight. */
  ghost predicate SndOk(cfg: Config, s: Snd, hist: seq<Frag>) {
    && |hist| == s.nxt
    && Sorted(s.buf) && Matches(s.buf, hist)
    && s.una == (if s.buf != [] then s.buf[0].sn else s.nxt)
    && s.una <= s.nxt <= s.una + cfg.sndWnd
  }

  /** Everything numbered is still kept, or satisfies `held`. */
  ghost predicate Kept(s: Snd, held: iset<nat>) {
    forall sn :: 0 <= sn < s.nxt ==> InBuf(s.buf, sn) || sn in held
  }

  lemma {:induction false} DropBelowKeeps(buf: seq<Seg>, una: nat)
    requires Sorted(buf)
    ensures var r := DropBelow(false, buf, una);
            |r| <= |buf| && r == buf[|buf| - |r|..] && forall i :: 0 <= i < |buf| - |r| ==> buf[i].sn < una
    decreases |buf|
  {
    if buf != [] && buf[0].sn < una {
      DropBelowKeeps(buf[1..], una);
      var r := DropBelow(false, buf[1..], una);
      assert buf[1..][|buf| - 1 - |r|..] == buf[|buf| - |r|..];
      forall i | 0 <= i < |buf| - |r| ensures buf[i].sn < una {
        if i > 0 { assert buf[i] == buf[1..][i - 1]; }
      }
    }
  }

  /** Removing at most the segment numbered sn, found at k. */
  lemma {:induction false} RemoveSnKeeps(buf: seq<Seg>, sn: nat) returns (k: nat)
    ensures k <= |buf|
    ensures if k == |buf| then RemoveSn(false, buf, sn) == buf
            else buf[k].sn == sn && RemoveSn(false, buf, sn) == buf[..k] + buf[k + 1..]
    decreases |buf|
  {
    k := |buf|;
    if buf != [] && sn == buf[0].sn {
      k := 0;
    } else if buf != [] && sn > buf[0].sn {
      var j := RemoveSnKeeps(buf[1..], sn);
      k := j + 1;
    }
  }

  lemma {:induction false} CountFastKeeps(buf: seq<Seg>, sn: nat, ts: nat)
    ensures SameCore(buf, CountFast(false, buf, sn, ts))
    decreases |buf|
  {
    if buf != [] && sn >= buf[0].sn {
      CountFastKeeps(buf[1..], sn, ts);
    }
  }

  /** A cumulative acknowledgement: what leaves snd_buf is below it, and snd_una moves up. */
  lemma ParseUnaOk(cfg: Config, s: Snd, hist: seq<Frag>, held: iset<nat>, una: nat)
    requires SndOk(cfg, s, hist) && Kept(s, held)
    requires forall sn: nat :: sn < una ==> sn in held
    ensures var s' := Shrink(ParseUna(false, s, una));
            SndOk(cfg, s', hist) && Kept(s', held) && s'.una >= s.una && s'.queue == s.queue && s'.nxt == s.nxt
  {
    DropBelowKeeps(s.buf, una);
    var r := DropBelow(false, s.buf, una);
    KeptSuffix(s, |s.buf| - |r|, held, una);
    hide DropBelow, Kept;
  }

  lemma KeptSuffix(s: Snd, d: nat, held: iset<nat>, una: nat)
    requires Kept(s, held) && d <= |s.buf| && forall i :: 0 <= i < d ==> s.buf[i].sn < una
    requires forall sn: nat :: sn < una ==> sn in held
    ensures Kept(Shrink(s.(buf := s.buf[d..])), held)
  {
    var r := s.buf[d..];
    forall sn | 0 <= sn < s.nxt && sn !in held ensures InBuf(r, sn) {
      var i :| 0 <= i < |s.buf| && s.buf[i].sn == sn;
      assert r[i - d].sn == sn;
    }
  }

  /** A selective acknowledgement. */
  lemma ParseAckOk(cfg: Config, s: Snd, hist: seq<Frag>, held: iset<nat>, sn: nat)
    requires SndOk(cfg, s, hist) && Kept(s, held) && sn in held
    ensures var s' := Shrink(ParseAck(false, s, sn));
            SndOk(cfg, s', hist) && Kept(s', held) && s'.una >= s.una && s'.queue == s.queue && s'.nxt == s.nxt
  {
    if InFlight(false, s, sn) {
      var k := RemoveSnKeeps(s.buf, sn);
      if k < |s.buf| {
        RemovedAt(s.buf, k, hist);
        assert RemoveSn(false, s.buf, sn) == RemoveAt(s.buf, k);
        hide RemoveSn, RemoveAt, Sorted, Matches, InBuf;
      }
    }
  }

  function RemoveAt(buf: seq<Seg>, k: nat): seq<Seg>
    requires k < |buf|
  {
    buf[..k] + buf[k + 1..]
  }

  lemma RemovedAt(buf: seq<Seg>, k: nat, hist: seq<Frag>)
    requires k < |buf| && Sorted(buf) && Matches(buf, hist)
    ensures var r := RemoveAt(buf, k);
            && Sorted(r) && Matches(r, hist)
            && (forall x :: InBuf(buf, x) && x != buf[k].sn ==> InBuf(r, x))
            && (r != [] ==> r[0].sn >= buf[0].sn)
  {
    var r := RemoveAt(buf, k);
    forall x | InBuf(buf, x) && x != buf[k].sn ensures InBuf(r, x) {
      var i :| 0 <= i < |buf| && buf[i].sn == x;
      assert r[if i < k then i else i - 1].sn == x;
    }
  }

  lemma ParseFastackOk(cfg: Config, s: Snd, hist: seq<Frag>, held: iset<nat>, sn: nat, ts: nat)
    requires SndOk(cfg, s, hist) && Kept(s, held)
    ensures var s' := ParseFastack(false, s, sn, ts);
            SndOk(cfg, s', hist) && Kept(s', held) && s'.una == s.una && s'.queue == s.queue && s'.nxt == s.nxt
  {
    CountFastKeeps(s.buf, sn, ts);
  }

  /** New serial numbers: the history grows by what was admitted, in order. */
  lemma {:induction false} AdmitOk(cfg: Config, k: Kcb, s: Snd, hist: seq<Frag>, held: iset<nat>, cwnd: nat)
    requires SndOk(cfg, s, hist) && Kept(s, held) && cwnd <= cfg.sndWnd
    ensures var s' := Admit(false, k, s, cwnd);
            && s'.nxt >= s.nxt && |s.queue| == |s'.queue| + (s'.nxt - s.nxt)
            && s'.queue == s.queue[s'.nxt - s.nxt..]
            && SndOk(cfg, s', hist + Frags(s.queue)[..s'.nxt - s.nxt])
            && Kept(s', held) && s'.una == s.una
    decreases |s.queue|
  {
    var s' := Admit(false, k, s, cwnd);
    if s.queue != [] && s.nxt < s.una + cwnd {
      var s1 := AdmitOne(k, s);
      var hist1 := hist + [FragOf(s.queue[0])];
      AdmitOneOk(cfg, k, s, hist, held);
      AdmitOk(cfg, k, s1, hist1, held, cwnd);
      var n := s'.nxt - s1.nxt;
      assert hist1 + Frags(s1.queue)[..n] == hist + Frags(s.queue)[..n + 1];
      assert s1.queue[n..] == s.queue[n + 1..];
      hide SndOk, Kept, Admit;
    } else {
      assert hist + Frags(s.queue)[..0] == hist;
    }
  }

  function AdmitOne(k: Kcb, s: Snd): Snd
    requires s.queue != []
  {
    s.(queue := s.queue[1..], buf := s.buf + [Numbered(k, s.queue[0], s.nxt)], nxt := s.nxt + 1)
  }

  lemma AdmitOneOk(cfg: Config, k: Kcb, s: Snd, hist: seq<Frag>, held: iset<nat>)
    requires SndOk(cfg, s, hist) && Kept(s, held) && s.queue != [] && s.nxt < s.una + cfg.sndWnd
    ensures SndOk(cfg, AdmitOne(k, s), hist + [FragOf(s.queue[0])]) && Kept(AdmitOne(k, s), held)
  {
    var s1 := AdmitOne(k, s);
    forall sn | 0 <= sn < s1.nxt && sn !in held ensures InBuf(s1.buf, sn) {
      if sn < s.nxt {
        var i :| 0 <= i < |s.buf| && s.buf[i].sn == sn;
        assert s1.buf[i].sn == sn;
      } else {
        assert s1.buf[|s.buf|].sn == sn;
      }
    }
  }

  /** A data segment on the wire: contents by its number, and the receiver's state of its sender. */
  ghost predicate DataPkt(k: Kcb, p: Pkt, hist: seq<Frag>) {
    && p.cmd == CMD_PUSH && p.sn < |hist| && Frag(p.frg, p.data) == hist[p.sn]
    && p.una == k.rcv.nxt && p.wnd == WndUnused(k.cfg, k.rcv)
  }

  /** A pass over snd_buf touches only timers; what it sends is in the buffer. */
  lemma {:induction false} FlushBufOk(k: Kcb, buf: seq<Seg>, hist: seq<Frag>)
    requires Matches(buf, hist)
    ensures var pass := FlushBuf(k, buf);
            && SameCore(buf, pass.buf)
            && forall i :: 0 <= i < |pass.pkts| ==> DataPkt(k, pass.pkts[i], hist)
    decreases |buf|
  {
    if buf != [] {
      FlushBufOk(k, buf[..|buf| - 1], hist);
      hide WhySend, FlushSeg, WndUnused;
    }
  }

  // ---------------------------------------------------------------- receiver

  /** rcv_buf ascends inside the window, rcv_queue is contiguous up to rcv_nxt, nothing that
      could be moved on is left behind, and all contents are the sender's. */
  ghost predicate RcvOk(cfg: Config, r: Rcv, hist: seq<Frag>, consumed: nat) {
    && Sorted(r.buf) && Matches(r.buf, hist)
    && Within(r.buf, r.nxt, r.nxt + cfg.rcvWnd)
    && consumed + |r.queue| == r.nxt <= |hist|
    && (forall i :: 0 <= i < |r.queue| ==> r.queue[i].sn == consumed + i && FragOf(r.queue[i]) == hist[consumed + i])
    && |r.queue| <= cfg.rcvWnd
  }

  ghost predicate Settled(cfg: Config, r: Rcv) {
    r.buf != [] && r.buf[0].sn == r.nxt ==> |r.queue| >= cfg.rcvWnd
  }

  /** The numbers the receiver has. */
  ghost function Held(r: Rcv): iset<nat> {
    iset sn: nat | sn < r.nxt || InBuf(r.buf, sn)
  }

  /** The segment's number is at k already, or it belongs there. */
  lemma {:induction false} InsertAt(buf: seq<Seg>, seg: Seg) returns (dup: bool, k: nat)
    requires Sorted(buf)
    ensures dup ==> k < |buf| && buf[k].sn == seg.sn && Insert(false, buf, seg) == buf
    ensures !dup ==> k <= |buf| && Insert(false, buf, seg) == buf[..k] + [seg] + buf[k..]
    ensures !dup ==> (k > 0 ==> buf[k - 1].sn < seg.sn) && (k < |buf| ==> seg.sn < buf[k].sn)
    decreases |buf|
  {
    if buf == [] { return false, 0; }
    var n := |buf| - 1;
    if buf[n].sn == seg.sn { return true, n; }
    if seg.sn > buf[n].sn {
      assert buf[..n + 1] == buf;
      return false, n + 1;
    }
    assert Insert(false, buf, seg) == Insert(false, buf[..n], seg) + [buf[n]];
    assert Sorted(buf[..n]);
    hide Insert, Sorted;
    dup, k := InsertAt(buf[..n], seg);
    if !dup {
      SnocSplit(buf, seg, k);
    } else {
      assert buf[..n] + [buf[n]] == buf;
    }
  }

  lemma SnocSplit(buf: seq<Seg>, seg: Seg, k: nat)
    requires 0 < |buf| && k < |buf|
    ensures var n := |buf| - 1; buf[..n][..k] + [seg] + buf[..n][k..] + [buf[n]] == buf[..k] + [seg] + buf[k..]
  {
  }

  /** Insertion keeps the order, adds the segment unless its number is there, and loses nothing. */
  lemma {:induction false} InsertOk(buf: seq<Seg>, seg: Seg, hist: seq<Frag>, lo: nat, hi: nat)
    requires Sorted(buf) && Matches(buf, hist) && seg.sn < |hist| && FragOf(seg) == hist[seg.sn]
    requires Within(buf, lo, hi) && lo <= seg.sn < hi
    ensures var r := Insert(false, buf, seg);
            && Sorted(r) && Matches(r, hist) && Within(r, lo, hi) && InBuf(r, seg.sn)
            && (forall sn :: InBuf(buf, sn) ==> InBuf(r, sn))
  {
    var dup, k := InsertAt(buf, seg);
    if !dup {
      hide Insert;
      InsertedSorted(buf, seg, k);
      InsertedHolds(buf, seg, k);
      hide Sorted, Matches, InBuf, Within;
    }
  }

  lemma InsertedSorted(buf: seq<Seg>, seg: Seg, k: nat)
    requires Sorted(buf) && k <= |buf|
    requires (k > 0 ==> buf[k - 1].sn < seg.sn) && (k < |buf| ==> seg.sn < buf[k].sn)
    ensures Sorted(buf[..k] + [seg] + buf[k..])
  {
  }

  lemma InsertedHolds(buf: seq<Seg>, seg: Seg, k: nat)
    requires k <= |buf|
    ensures var r := buf[..k] + [seg] + buf[k..]; InBuf(r, seg.sn) && forall sn :: InBuf(buf, sn) ==> InBuf(r, sn)
  {
    var r := buf[..k] + [seg] + buf[k..];
    assert r[k] == seg;
    forall sn | InBuf(buf, sn) ensures InBuf(r, sn) {
      var i :| 0 <= i < |buf| && buf[i].sn == sn;
      assert r[if i < k then i else i + 1].sn == sn;
    }
  }

  lemma {:induction false} PromoteOk(cfg: Config, r: Rcv, hist: seq<Frag>, consumed: nat)
    requires RcvOk(cfg, r, hist, consumed)
    ensures var r' := Promote(false, cfg, r);
            && RcvOk(cfg, r', hist, consumed) && Settled(cfg, r')
            && r'.nxt >= r.nxt && r.queue <= r'.queue && Held(r) <= Held(r')
    decreases |r.buf|
  {
    if r.buf != [] && r.buf[0].sn == r.nxt && |r.queue| < cfg.rcvWnd {
      PromoteOneOk(cfg, r, hist, consumed);
      PromoteOk(cfg, PromoteOne(r), hist, consumed);
      hide RcvOk, Held;
    }
  }

  function PromoteOne(r: Rcv): Rcv
    requires r.buf != []
  {
    Rcv(r.queue + [r.buf[0]], r.buf[1..], r.nxt + 1)
  }

  lemma PromoteOneOk(cfg: Config, r: Rcv, hist: seq<Frag>, consumed: nat)
    requires RcvOk(cfg, r, hist, consumed) && r.buf != [] && r.buf[0].sn == r.nxt && |r.queue| < cfg.rcvWnd
    ensures RcvOk(cfg, PromoteOne(r), hist, consumed) && Held(r) <= Held(PromoteOne(r))
  {
  }

  /** A data segment inside the window is held afterwards; nothing held is lost. */
  lemma ParseDataOk(cfg: Config, r: Rcv, hist: seq<Frag>, consumed: nat, seg: Seg)
    requires RcvOk(cfg, r, hist, consumed) && Settled(cfg, r)
    requires seg.sn < |hist| && FragOf(seg) == hist[seg.sn]
    ensures var r' := ParseData(false, cfg, r, seg);
            && RcvOk(cfg, r', hist, consumed) && Settled(cfg, r')
            && r'.nxt >= r.nxt && Held(r) <= Held(r') && (seg.sn < r.nxt + cfg.rcvWnd ==> seg.sn in Held(r'))
  {
    if r.nxt <= seg.sn < r.nxt + cfg.rcvWnd {
      InsertOk(r.buf, seg, hist, r.nxt, r.nxt + cfg.rcvWnd);
      var r1 := r.(buf := Insert(false, r.buf, seg));
      assert Held(r) <= Held(r1) && seg.sn in Held(r1);
      PromoteOk(cfg, r1, hist, consumed);
    }
  }

  /** Reading consumes a prefix of the queue and lets held segments move up. */
  lemma RecvOk(cfg: Config, r: Rcv, hist: seq<Frag>, consumed: nat, len: int)
    requires RcvOk(cfg, r, hist, consumed) && Settled(cfg, r)
    ensures var (r', tell, ret, msg) := Recv(false, cfg, r, len);
            var n := if ret >= 0 && len >= 0 then MergeCount(r.queue) else 0;
            && RcvOk(cfg, r', hist, consumed + n) && Settled(cfg, r')
            && r'.nxt >= r.nxt && Held(r) <= Held(r') && (ret >= 0 ==> ret == |msg|)
  {
    var peek := PeekSize(r);
    if r.queue != [] && 0 <= peek <= (if len < 0 then -len else len) {
      var n := if len < 0 then 0 else MergeCount(r.queue);
      PromoteOk(cfg, r.(queue := r.queue[n..]), hist, consumed + n);
      assert r.queue[0..] == r.queue;
      hide RcvOk, Held, Settled, Promote;
    }
  }
}
