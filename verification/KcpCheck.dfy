/** ikcp_check as a scheduler for ikcp_update. */
module KcpCheck {
  import opened KcpNum
  import opened KcpState

  /** The least resend distance, or none if some segment is already due. */
  function Nearest(buf: seq<Seg>, current: nat, bound: int): (d: int)
    ensures d <= bound
    ensures d > 0 ==> forall i :: 0 <= i < |buf| ==> Diff(true, buf[i].resendts, current) >= d
    decreases |buf|
  {
    if buf == [] then bound
    else
      var n := |buf| - 1;
      var d, diff := Nearest(buf[..n], current, bound), Diff(true, buf[n].resendts, current);
      if d <= 0 then d else if diff <= 0 then 0 else if diff < d then diff else d
  }

  /** ikcp_check */
  function Check(k: Kcb, current: nat): nat {
    if !k.clk.updated then current
    else
      var slap := Diff(true, current, k.clk.tsFlush);
      if slap >= 0 || slap < -10000 then current
      else
        var near := Nearest(k.snd.buf, current, 0x7fff_ffff);
        if near <= 0 then current
        else
          var tmFlush := Diff(true, k.clk.tsFlush, current);
          var minimal := if near < tmFlush then near else tmFlush;
          U32(current + (if minimal >= k.cfg.interval then k.cfg.interval else minimal))
  }

  /** Shifting one side of _itimediff shifts the result while it stays in range. */
  lemma DiffShift(a: int, b: int, d: int)
    requires -0x8000_0000 <= Diff(true, a, b) + d < 0x8000_0000
    ensures Diff(true, U32(a + d), b) == Diff(true, a, b) + d
  {
  }

  lemma DiffSelf(a: int)
    ensures Diff(true, a, a) == 0
  {
  }

  /** The other way round, _itimediff changes sign. */
  lemma DiffFlip(a: int, b: int)
    requires -0x8000_0000 < Diff(true, a, b)
    ensures Diff(true, b, a) == -Diff(true, a, b)
  {
  }

  /** How far away the answer is, as a true distance. */
  lemma CheckDistance(k: Kcb, now: nat) returns (wait: nat)
    requires now < W && 0 < k.cfg.interval < 0x8000_0000 && Check(k, now) != now
    ensures Check(k, now) == U32(now + wait) && 0 < wait <= k.cfg.interval
    ensures k.clk.updated && wait <= -Diff(true, now, k.clk.tsFlush) <= 10000
    ensures forall i :: 0 <= i < |k.snd.buf| ==> Diff(true, k.snd.buf[i].resendts, now) >= wait
  {
    assert U32(now) == now;
    var near := Nearest(k.snd.buf, now, 0x7fff_ffff);
    DiffFlip(now, k.clk.tsFlush);
    var tmFlush := Diff(true, k.clk.tsFlush, now);
    var minimal := if near < tmFlush then near else tmFlush;
    wait := if minimal >= k.cfg.interval then k.cfg.interval else minimal;
  }

  /** If ikcp_check names a later time, an ikcp_update before it flushes nothing and changes nothing
      but the clock, and no segment in snd_buf is due before it. */
  lemma CheckIsSound(k: Kcb, now: nat, d: nat)
    requires now < W && 0 < k.cfg.interval < 0x8000_0000 && Check(k, now) != now
    requires d < Diff(true, Check(k, now), now)
    ensures var c := U32(now + d);
            && Update(true, k, c) == (k.(clk := k.clk.(current := c)), [])
            && forall i :: 0 <= i < |k.snd.buf| ==> Diff(true, k.snd.buf[i].resendts, c) > 0
  {
    var wait := CheckDistance(k, now);
    assert Diff(true, now, now) == 0;
    WaitBound(k, now, wait);
    var c := U32(now + d);
    DiffShift(now, k.clk.tsFlush, d);
    forall i | 0 <= i < |k.snd.buf| ensures Diff(true, k.snd.buf[i].resendts, c) > 0 {
      ResendLater(k.snd.buf[i].resendts, now, d, wait);
    }
    hide Check, Diff;
  }

  lemma WaitBound(k: Kcb, now: nat, wait: nat)
    requires Diff(true, now, now) == 0 && Check(k, now) == U32(now + wait) && wait <= 10000
    ensures Diff(true, Check(k, now), now) == wait
  {
  }

  lemma ResendLater(resendts: nat, now: nat, d: nat, wait: nat)
    requires d < wait <= 10000 && Diff(true, resendts, now) >= wait
    ensures Diff(true, resendts, U32(now + d)) > 0
  {
  }

  /** A clock of the times at which ikcp_update is called. */
  function Updates(k: Kcb, times: seq<nat>): (Kcb, seq<Pkt>)
    decreases |times|
  {
    if times == [] then (k, [])
    else
      var n := |times| - 1;
      var (k1, ps1) := Updates(k, times[..n]);
      var (k2, ps2) := Update(true, k1, times[n]);
      (k2, ps1 + ps2)
  }

  /** times[i] is ds[i] milliseconds after now, before `limit`. */
  ghost predicate Before(times: seq<nat>, ds: seq<nat>, now: nat, limit: int) {
    |times| == |ds| && forall i :: 0 <= i < |ds| ==> ds[i] < limit && times[i] == U32(now + ds[i])
  }

  /** The updates send nothing, and change nothing but the clock. */
  ghost predicate Idle(k: Kcb, times: seq<nat>) {
    var (k', ps) := Updates(k, times);
    ps == [] && k' == k.(clk := k.clk.(current := k'.clk.current))
  }

  /** So any number of updates before that time send nothing at all. */
  lemma {:induction false} CheckIsSoundForAll(k: Kcb, now: nat, times: seq<nat>, ds: seq<nat>)
    requires now < W && 0 < k.cfg.interval < 0x8000_0000 && Check(k, now) != now
    requires Before(times, ds, now, Diff(true, Check(k, now), now))
    ensures Idle(k, times)
    decreases |times|
  {
    if times != [] {
      var n := |times| - 1;
      BeforeButOne(times, ds, now, Diff(true, Check(k, now), now));
      hide Before, Check, Update, Diff, U32, Idle;
      CheckIsSoundForAll(k, now, times[..n], ds[..n]);
      OneMore(k, now, times[..n], times[n], ds[n]);
      assert times[..n] + [times[n]] == times;
    }
  }

  lemma {:induction false} OneMore(k: Kcb, now: nat, times: seq<nat>, t: nat, d: nat)
    requires now < W && 0 < k.cfg.interval < 0x8000_0000 && Check(k, now) != now
    requires d < Diff(true, Check(k, now), now) && t == U32(now + d)
    requires Idle(k, times)
    ensures Idle(k, times + [t])
  {
    var (k1, _) := Updates(k, times);
    SameAnswer(k, k1, now);
    CheckIsSound(k1, now, d);
    assert (times + [t])[..|times|] == times;
    hide Check, Update, Diff, U32;
  }

  lemma BeforeButOne(times: seq<nat>, ds: seq<nat>, now: nat, limit: int)
    requires Before(times, ds, now, limit) && times != []
    ensures var n := |times| - 1;
            Before(times[..n], ds[..n], now, limit) && ds[n] < limit && times[n] == U32(now + ds[n])
  {
  }

  lemma SameAnswer(k: Kcb, k1: Kcb, now: nat)
    requires k1 == k.(clk := k.clk.(current := k1.clk.current))
    ensures Check(k1, now) == Check(k, now)
  {
  }

  /** After a flush the next one is due within one interval, and not before the next millisecond. */
  lemma NextFlush(cfg: Config, clk: Clock, current: nat)
    requires 0 < cfg.interval <= 5000 && current < W && clk.tsFlush < W
    ensures var (clk', due) := Tick(cfg, clk, current);
            due ==> 0 < Diff(true, clk'.tsFlush, current) <= cfg.interval
  {
    var (clk', due) := Tick(cfg, clk, current);
    var flush0 := if clk.updated then clk.tsFlush else current;
    var slap0 := Diff(true, current, flush0);
    var flush := if slap0 >= 10000 || slap0 < -10000 then current else flush0;
    assert Diff(true, current, current) == 0;
    DiffShift(current, current, cfg.interval);
    if due {
      var slap := Diff(true, current, flush);
      assert 0 <= slap < 10000;
      var next := U32(flush + cfg.interval);
      DiffFlip(current, flush);
      DiffShift(flush, current, cfg.interval);
      assert Diff(true, next, current) == cfg.interval - slap;
      DiffFlip(next, current);
    }
    hide Diff;
  }
}
