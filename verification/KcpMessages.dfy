/** How messages become fragments and fragments become messages again. */
module KcpMessages {
  import opened KcpNum
  import opened KcpState
  import opened KcpInvariant

  /** The bytes of a run of fragments. */
  function DataOf(fs: seq<Frag>): bytes {
    if fs == [] then [] else fs[0].data + DataOf(fs[1..])
  }

  function Concat(chunks: seq<bytes>): bytes {
    if chunks == [] then [] else chunks[0] + Concat(chunks[1..])
  }

  /** The fragments of one message outside stream mode. */
  function MsgFrags(mss: pos, msg: bytes): seq<Frag>
  {
    Frags(Fragments(false, mss, FragCount(mss, |msg|), msg))
  }

  function AllFrags(mss: pos, msgs: seq<bytes>): seq<Frag>
  {
    if msgs == [] then [] else MsgFrags(mss, msgs[0]) + AllFrags(mss, msgs[1..])
  }

  lemma {:induction false} DataOfJoin(a: seq<Frag>, b: seq<Frag>)
    ensures DataOf(a + b) == DataOf(a) + DataOf(b)
    decreases |a|
  {
    if a == [] {
      assert a + b == b;
    } else {
      assert (a + b)[1..] == a[1..] + b;
      DataOfJoin(a[1..], b);
    }
  }

  lemma {:induction false} ConcatJoin(a: seq<bytes>, b: seq<bytes>)
    ensures Concat(a + b) == Concat(a) + Concat(b)
    decreases |a|
  {
    if a == [] {
      assert a + b == b;
    } else {
      assert (a + b)[1..] == a[1..] + b;
      ConcatJoin(a[1..], b);
    }
  }

  lemma {:induction false} AllFragsJoin(mss: pos, a: seq<bytes>, b: seq<bytes>)
    ensures AllFrags(mss, a + b) == AllFrags(mss, a) + AllFrags(mss, b)
    decreases |a|
  {
    if a == [] {
      assert a + b == b;
    } else {
      assert (a + b)[1..] == a[1..] + b;
      AllFragsJoin(mss, a[1..], b);
    }
  }

  lemma FragsJoin(a: seq<Seg>, b: seq<Seg>)
    ensures Frags(a + b) == Frags(a) + Frags(b)
  {
  }

  /** Enough room for the data in `count` fragments, none of them empty but a lone one. */
  predicate Enough(mss: pos, count: nat, len: nat) {
    len <= count * mss
  }

  lemma FragCountEnough(mss: pos, len: nat)
    ensures Enough(mss, FragCount(mss, len), len)
  {
  }

  /** A fragment fits a segment of size mss, and its number fits a byte on the wire. */
  predicate Fits(mss: pos, f: Frag) {
    |f.data| <= mss && f.frg < WND_RCV
  }

  ghost predicate AllFit(mss: pos, fs: seq<Frag>) {
    forall i :: 0 <= i < |fs| ==> Fits(mss, fs[i])
  }

  lemma EnoughRest(mss: pos, count: nat, len: nat)
    requires Enough(mss, count, len) && count > 0
    ensures Enough(mss, count - 1, if len > mss then len - mss else 0)
  {
  }

  /** Fragmentation loses nothing. */
  lemma {:induction false} FragmentsWhole(stream: bool, mss: pos, count: nat, data: bytes)
    requires Enough(mss, count, |data|)
    ensures var fs := Frags(Fragments(stream, mss, count, data)); |fs| == count && DataOf(fs) == data
    decreases count
  {
    if count > 0 {
      var size := if |data| > mss then mss else |data|;
      EnoughRest(mss, count, |data|);
      FragmentsWhole(stream, mss, count - 1, data[size..]);
      var rest := Fragments(stream, mss, count - 1, data[size..]);
      var fs := Frags(Fragments(stream, mss, count, data));
      assert fs[0].data == data[..size] && fs[1..] == Frags(rest);
      assert data == data[..size] + data[size..];
    }
  }

  lemma {:induction false} FragmentsFit(stream: bool, mss: pos, count: nat, data: bytes)
    requires count <= WND_RCV
    ensures AllFit(mss, Frags(Fragments(stream, mss, count, data)))
    decreases count
  {
    if count > 0 {
      var size := if |data| > mss then mss else |data|;
      FragmentsFit(stream, mss, count - 1, data[size..]);
      var rest := Frags(Fragments(stream, mss, count - 1, data[size..]));
      var fs := Frags(Fragments(stream, mss, count, data));
      forall i | 0 <= i < |fs| ensures Fits(mss, fs[i]) {
        assert i > 0 ==> fs[i] == rest[i - 1];
      }
    }
  }

  /** Outside stream mode the fragment numbers count down to zero. */
  lemma {:induction false} FragmentsCountDown(mss: pos, count: nat, data: bytes, i: nat)
    requires i < count
    ensures |Fragments(false, mss, count, data)| == count
    ensures Fragments(false, mss, count, data)[i].frg == count - 1 - i
    decreases count
  {
    var size := if |data| > mss then mss else |data|;
    var rest := Fragments(false, mss, count - 1, data[size..]);
    if count > 1 {
      FragmentsCountDown(mss, count - 1, data[size..], if i > 0 then i - 1 else 0);
    } else {
      assert rest == [];
    }
  }

  /** Merging a queue: up to the first zero, whatever the numbers are. */
  lemma {:induction false} MergeData(q: seq<Seg>)
    ensures Merge(q) == DataOf(Frags(q[..MergeCount(q)]))
    decreases |q|
  {
    if q != [] {
      MergeData(q[1..]);
      var n := MergeCount(q);
      assert Frags(q[..n])[0].data == q[0].data;
      assert Frags(q[..n])[1..] == Frags(q[1..][..n - 1]);
      if q[0].frg == 0 {
        assert Frags(q[..1])[1..] == [];
        assert q[0].data + [] == q[0].data;
      }
    }
  }

  /** A queue that starts with the count-down of one message merges exactly that message. */
  lemma {:induction false} MergeCountDown(q: seq<Seg>, count: nat)
    requires 0 < count <= |q|
    requires forall i :: 0 <= i < count ==> q[i].frg == count - 1 - i
    ensures MergeCount(q) == count
    decreases count
  {
    if count > 1 {
      assert q[0].frg == count - 1;
      forall i | 0 <= i < count - 1 ensures q[1..][i].frg == count - 2 - i {
        assert q[i + 1].frg == count - 1 - (i + 1);
      }
      MergeCountDown(q[1..], count - 1);
    } else {
      assert q[0].frg == 0;
    }
  }

  /** ikcp_send: outside stream mode an accepted message is queued as its fragments;
      in either mode the queued bytes grow by exactly the bytes reported as sent. */
  lemma SendOk(cfg: Config, queue: seq<Seg>, data: bytes)
    requires AllFit(cfg.mss, Frags(queue))
    ensures var (q, ret) := Send(cfg, queue, data);
            && ret <= |data| && (ret < 0 ==> ret == -2 && q == queue)
            && AllFit(cfg.mss, Frags(q))
            && (ret >= 0 ==> DataOf(Frags(q)) == DataOf(Frags(queue)) + data[..ret])
            && (ret >= 0 && !cfg.stream ==> ret == |data| && Frags(q) == Frags(queue) + MsgFrags(cfg.mss, data))
  {
    hide Fragments, DataOf, AllFit, Frags, MsgFrags;
    var (q1, sent) := Append(cfg, queue, data);
    var rest := data[sent..];
    AppendOk(cfg, queue, data);
    assert !cfg.stream ==> q1 == queue && rest == data;
    var count := FragCount(cfg.mss, |rest|);
    if !(cfg.stream && rest == []) && count < WND_RCV {
      AddFragments(cfg, q1, rest);
      hide Append, FragCount;
      assert data[..sent] + rest == data == data[..|data|];
      assert (DataOf(Frags(queue)) + data[..sent]) + rest == DataOf(Frags(queue)) + data;
    }
  }

  lemma {:induction false} AddFragments(cfg: Config, queue: seq<Seg>, rest: bytes)
    requires AllFit(cfg.mss, Frags(queue)) && FragCount(cfg.mss, |rest|) < WND_RCV
    ensures var fs := Fragments(cfg.stream, cfg.mss, FragCount(cfg.mss, |rest|), rest);
            && AllFit(cfg.mss, Frags(queue + fs)) && DataOf(Frags(queue + fs)) == DataOf(Frags(queue)) + rest
            && (!cfg.stream ==> Frags(queue + fs) == Frags(queue) + MsgFrags(cfg.mss, rest))
  {
    var count := FragCount(cfg.mss, |rest|);
    FragCountEnough(cfg.mss, |rest|);
    FragmentsWhole(cfg.stream, cfg.mss, count, rest);
    FragmentsFit(cfg.stream, cfg.mss, count, rest);
    var fs := Fragments(cfg.stream, cfg.mss, count, rest);
    FragsJoin(queue, fs);
    DataOfJoin(Frags(queue), Frags(fs));
    hide FragCount, Fragments, DataOf;
  }

  lemma AppendOk(cfg: Config, queue: seq<Seg>, data: bytes)
    requires AllFit(cfg.mss, Frags(queue))
    ensures var (q, sent) := Append(cfg, queue, data);
            && AllFit(cfg.mss, Frags(q)) && DataOf(Frags(q)) == DataOf(Frags(queue)) + data[..sent]
            && (sent == 0 && !cfg.stream ==> q == queue) && (!cfg.stream ==> sent == 0)
  {
    var (q, sent) := Append(cfg, queue, data);
    assert DataOf(Frags(queue)) + [] == DataOf(Frags(queue));
    if cfg.stream && queue != [] && |queue[|queue| - 1].data| < cfg.mss {
      var n := |queue| - 1;
      var front, last := queue[..n], queue[n];
      var grown := Fresh(0, last.data + data[..sent]);
      assert queue == front + [last];
      FragsJoin(front, [last]);
      FragsJoin(front, [grown]);
      DataOfJoin(Frags(front), Frags([last]));
      DataOfJoin(Frags(front), Frags([grown]));
      DataOfOne(last);
      DataOfOne(grown);
      forall i | 0 <= i < |Frags(q)| ensures Fits(cfg.mss, Frags(q)[i]) {
        if i < n {
          assert Frags(q)[i] == Frags(queue)[i];
        } else {
          assert Frags(q)[i] == FragOf(grown);
        }
      }
    }
  }

  lemma DataOfOne(seg: Seg)
    ensures DataOf(Frags([seg])) == seg.data
  {
  }

  /** A receive queue that continues the fragment stream at a message boundary merges to the next message, whole,
      whenever its first fragment number says that it is all there. */
  lemma {:induction false} MergesMessage(mss: pos, q: seq<Seg>, msg: bytes, later: seq<Frag>)
    requires q != [] && |q| >= q[0].frg + 1
    requires Frags(q) <= MsgFrags(mss, msg) + later
    ensures MergeCount(q) == |MsgFrags(mss, msg)| && Merge(q) == msg
  {
    var count := FragCount(mss, |msg|);
    var fs := Fragments(false, mss, count, msg);
    var all := MsgFrags(mss, msg) + later;
    FragmentsCountDown(mss, count, msg, 0);
    assert q[0].frg == Frags(q)[0].frg == all[0].frg == fs[0].frg;
    forall i | 0 <= i < count ensures q[i].frg == count - 1 - i {
      FragmentsCountDown(mss, count, msg, i);
      assert q[i].frg == Frags(q)[i].frg == all[i].frg == fs[i].frg;
    }
    MergeCountDown(q, count);
    MergeData(q);
    assert Frags(q[..count]) == Frags(q)[..count] == MsgFrags(mss, msg);
    FragCountEnough(mss, |msg|);
    FragmentsWhole(false, mss, count, msg);
  }

  /** In stream mode no fragment has a number. */
  ghost predicate Unnumbered(fs: seq<Frag>) {
    forall i :: 0 <= i < |fs| ==> fs[i].frg == 0
  }

  lemma {:induction false} FragmentsUnnumbered(mss: pos, count: nat, data: bytes)
    ensures Unnumbered(Frags(Fragments(true, mss, count, data)))
    decreases count
  {
    if count > 0 {
      var size := if |data| > mss then mss else |data|;
      FragmentsUnnumbered(mss, count - 1, data[size..]);
      var rest, fs := Frags(Fragments(true, mss, count - 1, data[size..])), Frags(Fragments(true, mss, count, data));
      assert forall i :: 0 < i < |fs| ==> fs[i] == rest[i - 1];
    }
  }

  lemma SendUnnumbered(cfg: Config, queue: seq<Seg>, data: bytes)
    requires cfg.stream && Unnumbered(Frags(queue))
    ensures Unnumbered(Frags(Send(cfg, queue, data).0))
  {
    var (q1, sent) := Append(cfg, queue, data);
    var count := FragCount(cfg.mss, |data[sent..]|);
    FragmentsUnnumbered(cfg.mss, count, data[sent..]);
    var fs := Fragments(true, cfg.mss, count, data[sent..]);
    assert Unnumbered(Frags(q1)) by {
      assert forall i :: 0 <= i < |q1| - 1 ==> q1[i] == queue[i];
      assert forall i :: 0 <= i < |queue| ==> Frags(queue)[i].frg == queue[i].frg;
    }
    FragsJoin(q1, fs);
    hide FragCount, Fragments, Append, Frags;
  }

  // ---------------------------------------------------------------- what ikcp_recv answers

  /** What is merged ends with the first fragment numbered zero, or with the queue. */
  lemma {:induction false} MergeCountIs(q: seq<Seg>)
    requires q != []
    ensures var n := MergeCount(q);
            && 0 < n <= |q| && (n == |q| || q[n - 1].frg == 0) && forall i :: 0 <= i < n - 1 ==> q[i].frg != 0
    decreases |q|
  {
    if q[0].frg != 0 && |q| > 1 {
      MergeCountIs(q[1..]);
      var n := MergeCount(q);
      forall i | 0 <= i < n - 1 ensures q[i].frg != 0 { if i > 0 { assert q[i] == q[1..][i - 1]; } }
    }
  }

  /** What moves up is the front of rcv_buf, in order, until a number is missing or the queue is full. */
  lemma {:induction false} PromoteMoves(wrap: bool, cfg: Config, r: Rcv) returns (m: nat)
    ensures var r' := Promote(wrap, cfg, r);
            && m <= |r.buf| && r'.queue == r.queue + r.buf[..m] && r'.buf == r.buf[m..]
            && (!wrap ==> r'.nxt == r.nxt + m && forall i :: 0 <= i < m ==> r.buf[i].sn == r.nxt + i)
            && (r'.buf == [] || r'.buf[0].sn != r'.nxt || |r'.queue| >= cfg.rcvWnd)
    decreases |r.buf|
  {
    m := 0;
    if r.buf != [] && r.buf[0].sn == r.nxt && |r.queue| < cfg.rcvWnd {
      var r1 := Rcv(r.queue + [r.buf[0]], r.buf[1..], Add(wrap, r.nxt, 1));
      var n := PromoteMoves(wrap, cfg, r1);
      m := n + 1;
      assert r1.queue + r1.buf[..n] == r.queue + r.buf[..m];
      assert forall i :: 0 < i < m ==> r.buf[i] == r1.buf[i - 1];
    } else {
      assert r.queue + r.buf[..0] == r.queue;
    }
  }

  /** The room the caller offers; a negative length only looks. */
  function Room(len: int): nat { if len < 0 then -len else len }

  /** ikcp_recv answers -1 if there is nothing, -2 if fragments are missing, -3 if the room is too small, and otherwise
      hands out all up to the first fragment numbered zero.  Just these leave the queue, unless it only looks; what is
      in order moves up behind the others; and the window is announced again if and only if the queue was full and
      is not any more. */
  lemma RecvExactly(wrap: bool, cfg: Config, r: Rcv, len: int)
    ensures var (r', tell, ret, msg) := Recv(wrap, cfg, r, len);
            var whole := r.queue != [] && |r.queue| > r.queue[0].frg;
            var data := DataOf(Frags(r.queue[..MergeCount(r.queue)]));
            && ret == (if r.queue == [] then -1 else if !whole then -2 else if |data| > Room(len) then -3 else |data|)
            && msg == (if ret >= 0 then data else [])
            && (ret < 0 ==> r' == r && !tell)
            && (ret >= 0 ==>
                  && r.queue[if len < 0 then 0 else MergeCount(r.queue)..] <= r'.queue
                  && r'.queue[|r.queue| - (if len < 0 then 0 else MergeCount(r.queue))..] + r'.buf == r.buf
                  && (r'.buf == [] || r'.buf[0].sn != r'.nxt || |r'.queue| >= cfg.rcvWnd)
                  && (tell <==> |r.queue| >= cfg.rcvWnd > |r'.queue|))
  {
    hide Merge, MergeCount, Promote, DataOf, Frags;
    MergeData(r.queue);
    if r.queue != [] {
      var n := if len < 0 then 0 else MergeCount(r.queue);
      assert r.queue[0..] == r.queue;
      var m := PromoteMoves(wrap, cfg, r.(queue := r.queue[n..]));
      var r2 := Promote(wrap, cfg, r.(queue := r.queue[n..]));
      assert r2.queue[|r.queue| - n..] + r2.buf == r.buf && r.queue[n..] <= r2.queue;
    }
  }

  /** At a message boundary ikcp_recv hands out the next message, whole, as soon as all its fragments are in the queue
      and the caller has room for it; exactly its fragments leave, none if the caller only looks. */
  lemma RecvMessage(wrap: bool, cfg: Config, r: Rcv, len: int, mss: pos, msg: bytes, later: seq<Frag>)
    requires r.queue != [] && Frags(r.queue) <= MsgFrags(mss, msg) + later
    ensures var (r', tell, ret, data) := Recv(wrap, cfg, r, len);
            var n := |MsgFrags(mss, msg)|;
            && ret == (if |r.queue| < n then -2 else if |msg| > Room(len) then -3 else |msg|)
            && (ret >= 0 ==> data == msg && r.queue[if len < 0 then 0 else n..] <= r'.queue)
  {
    var count := FragCount(mss, |msg|);
    FragmentsCountDown(mss, count, msg, 0);
    assert Frags(r.queue)[0].frg == r.queue[0].frg;
    if |r.queue| > r.queue[0].frg {
      MergesMessage(mss, r.queue, msg, later);
      MergeData(r.queue);
    }
    RecvExactly(wrap, cfg, r, len);
    hide Recv, Merge, MergeCount, DataOf, FragCount;
  }

  // ---------------------------------------------------------------- what ikcp_send answers

  /** The bytes that the last queued segment still takes. */
  function Free(cfg: Config, queue: seq<Seg>): nat {
    if cfg.stream && queue != [] && |queue[|queue| - 1].data| < cfg.mss then cfg.mss - |queue[|queue| - 1].data| else 0
  }

  /** ikcp_send takes everything if and only if what does not fit the last segment fits into 127 more.  Otherwise it
      takes what fits the last segment, and answers -2 if that is nothing. */
  lemma SendExactly(cfg: Config, queue: seq<Seg>, data: bytes)
    ensures var ret := Send(cfg, queue, data).1;
            ret == (if |data| <= Free(cfg, queue) + 127 * cfg.mss then |data|
                    else if Free(cfg, queue) > 0 then Free(cfg, queue) else -2)
  {
    CountLimit(cfg.mss, |data| - Append(cfg, queue, data).1);
    hide FragCount, Fragments;
  }

  lemma CountLimit(mss: pos, len: nat)
    ensures FragCount(mss, len) >= WND_RCV <==> len > 127 * mss
  {
    if len > mss {
      var n := len + mss - 1;
      var q := n / mss;
      Quotient(n, mss);
      if q >= 128 { Times(128, q, mss); } else { Times(q + 1, 128, mss); }
      assert FragCount(mss, len) == q;
      hide FragCount;
    }
  }

  lemma Quotient(n: nat, d: pos)
    ensures n / d * d <= n < (n / d + 1) * d
  {
  }

  lemma Times(a: nat, b: nat, d: pos)
    requires a <= b
    ensures a * d <= b * d
  {
  }

  /** More data than n whole segments hold, or none of these. */
  predicate Fills(mss: pos, n: nat, len: nat) {
    n * mss < len || n == 0
  }

  lemma FillsRest(mss: pos, n: nat, len: nat)
    requires Fills(mss, n, len) && n > 0
    ensures len > mss && Fills(mss, n - 1, len - mss)
  {
    assert n * mss == (n - 1) * mss + mss;
  }

  /** A message takes the fewest fragments that hold it, and at least one. */
  lemma FewestFragments(mss: pos, len: nat)
    ensures var n := FragCount(mss, len); Enough(mss, n, len) && Fills(mss, n - 1, len)
  {
    if len > mss { Quotient(len + mss - 1, mss); }
  }

  /** And only the last of them may be shorter than a segment holds. */
  lemma {:induction false} FragmentsFull(stream: bool, mss: pos, count: nat, data: bytes)
    requires count > 0 && Fills(mss, count - 1, |data|)
    ensures var fs := Fragments(stream, mss, count, data);
            |fs| == count && forall i :: 0 <= i < count - 1 ==> |fs[i].data| == mss
    decreases count
  {
    hide Fills;
    var size := if |data| > mss then mss else |data|;
    var fs, rest := Fragments(stream, mss, count, data), Fragments(stream, mss, count - 1, data[size..]);
    assert fs[1..] == rest;
    if count > 1 {
      FillsRest(mss, count - 1, |data|);
      FragmentsFull(stream, mss, count - 1, data[mss..]);
    }
  }

  /** ikcp_peeksize: the length of the next message, or -1 as long as part of it is missing. */
  lemma PeekExactly(r: Rcv)
    ensures PeekSize(r) == if r.queue == [] || |r.queue| <= r.queue[0].frg then -1
                           else |DataOf(Frags(r.queue[..MergeCount(r.queue)]))|
  {
    MergeData(r.queue);
  }
}
