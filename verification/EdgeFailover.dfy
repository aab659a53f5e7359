/** That no supernode is left too soon, and the first not before both were asked. */
module EdgeFailover {
  import opened EdgeSupernode

  /** The last request was not answered in time, so it is sent again or the supernode given up. */
  predicate Unanswered(c: Setup, s: Failover, now: nat) {
    && now <= s.lastReq + 30
    && ((s.waiting && now > s.lastReq + c.lifetime / 10) || now >= s.lastReq + c.lifetime)
  }

  /** Every supernode failed, and that was more than five minutes ago. */
  predicate Cooled(c: Setup, s: Failover, now: nat) {
    s.allFailed && s.idx == 0 && c.snNum >= 2 && c.hasQuery && now > s.lastReq + 300
  }

  /** The first supernode is a name whose address may have changed, and another one can be asked for it. */
  predicate MayAsk(c: Setup, s: Failover) {
    s.idx == 0 && c.snNum >= 2 && c.everOk && c.reResolve
  }

  /** A supernode is left exactly when the retries are spent and it may not be asked for, when four rounds of asking are
      over, or when the wait after all failed is over and there is nothing to look up. */
  lemma LeftExactly(c: Setup, s: Failover, now: nat)
    requires FailoverOk(c, s, now)
    ensures Tick(c, s, now).1 <==>
            if Cooled(c, s, now) then !c.reResolve
            else if s.askBackup then s.attempts == 0 && now > s.lastReq + 30
            else Unanswered(c, s, now) && s.attempts == 0 && !MayAsk(c, s)
  {
  }

  /** It goes to the next in the circle with all tries; and it is remembered when that is the first again because the
      last one failed. */
  lemma LeftTo(c: Setup, s: Failover, now: nat)
    requires FailoverOk(c, s, now) && Tick(c, s, now).1
    ensures var all := if Cooled(c, s, now) then false else s.allFailed || (!s.askBackup && s.idx + 1 == c.snNum);
            Tick(c, s, now).0 == Failover(if s.idx + 1 < c.snNum then s.idx + 1 else 0, 3, now, true, false, all)
  {
  }

  /** Where a silent edge goes on asking, and with how many tries left. */
  lemma StayedExactly(c: Setup, s: Failover, now: nat)
    requires FailoverOk(c, s, now) && !Tick(c, s, now).1
    ensures var s' := Tick(c, s, now).0;
            var asks := !s.askBackup && !Cooled(c, s, now) && Unanswered(c, s, now) && s.attempts == 0;
            && s'.idx == s.idx
            && (s'.askBackup <==> s.askBackup || Cooled(c, s, now) || asks)
            && (asks ==> MayAsk(c, s))
            && s'.allFailed == (s.allFailed && !Cooled(c, s, now))
            && (if Cooled(c, s, now) || asks || (!s.askBackup && now > s.lastReq + 30) then
                  s' == s'.(attempts := 3, waiting := true, lastReq := now)
                else if (s.askBackup && now > s.lastReq + 30) || (!s.askBackup && Unanswered(c, s, now)) then
                  s' == s'.(attempts := s.attempts - 1, waiting := true, lastReq := now)
                else s' == s)
  {
  }

  /** The first supernode is only left after asking, with the tries spent; and a silent tick with the normal tries spent
      starts asking, with all tries. */
  lemma AskedFirst(c: Setup, s: Failover, now: nat)
    requires FailoverOk(c, s, now) && MayAsk(c, s)
    ensures Tick(c, s, now).1 ==> s.askBackup && s.attempts == 0 && now >= s.lastReq + 31
    ensures !s.askBackup && Unanswered(c, s, now) && s.attempts == 0 ==>
              Tick(c, s, now) == (s.(askBackup := true, attempts := 3, waiting := true, lastReq := now), false)
  {
  }

  // ---------------------------------------------------------------- over runs

  /** Asking began with tick q, and each try since took 31 seconds. */
  ghost predicate AskedSince(run: seq<Failover>, times: seq<nat>, q: nat, m: nat)
    requires q < m < |run| == |times| + 1
  {
    && !run[q].askBackup && run[q + 1].askBackup
    && run[m].attempts <= 3 && run[m].lastReq >= times[q] + 31 * (3 - run[m].attempts)
  }

  /** Asking has a beginning. */
  lemma {:induction false} Question(c: Setup, run: seq<Failover>, start: nat, times: seq<nat>, i: nat, m: nat)
    returns (q: nat)
    requires IsRun(c, run, start, times) && i <= m < |run| == |times| + 1
    requires run[m].askBackup && !run[i].askBackup && !LeftBetween(c, run, times, i, m)
    ensures i <= q < m && AskedSince(run, times, q, m)
    decreases m
  {
    hide Tick, FailoverOk, IsRun;
    var s, now := run[m - 1], times[m - 1];
    RunKeeps(c, run, start, times, m - 1);
    RunStep(c, run, start, times, m - 1);
    Later(c, s, Time(start, times, m - 1), now);
    assert !Tick(c, s, now).1;
    StayedExactly(c, s, now);
    q := m - 1;
    if s.askBackup {
      q := Question(c, run, start, times, i, m - 1);
      LaterThan(c, run, start, times, q + 1, m);
    }
  }

  lemma {:induction false} LaterThan(c: Setup, run: seq<Failover>, start: nat, times: seq<nat>, i: nat, j: nat)
    requires IsRun(c, run, start, times) && i <= j < |run| == |times| + 1
    ensures Time(start, times, i) <= Time(start, times, j)
    decreases j
  {
    hide Tick, FailoverOk, IsRun;
    if i < j {
      LaterThan(c, run, start, times, i, j - 1);
      RunStep(c, run, start, times, j - 1);
    }
  }

  /** When the first supernode is left, the question was put 124 seconds before at least. */
  lemma FirstLeftLate(c: Setup, run: seq<Failover>, start: nat, times: seq<nat>, i: nat, k: nat) returns (q: nat)
    requires IsRun(c, run, start, times) && i <= k < |times| == |run| - 1 && c.snNum >= 2 && c.everOk && c.reResolve
    requires run[i].idx == 0 && !run[i].askBackup && !LeftBetween(c, run, times, i, k) && Tick(c, run[k], times[k]).1
    ensures i <= q < k && !run[q].askBackup && run[q + 1].askBackup && times[k] >= times[q] + 124
  {
    StaysMeans(c, run, start, times, i, k);
    RunKeeps(c, run, start, times, k);
    RunStep(c, run, start, times, k);
    Later(c, run[k], Time(start, times, k), times[k]);
    hide Tick, FailoverOk, IsRun, LeftBetween, Remaining;
    AskedFirst(c, run[k], times[k]);
    q := Question(c, run, start, times, i, k);
  }

  /** Each try before it took as long as a retry. */
  ghost predicate TriedSince(c: Setup, s: Failover, from: nat) {
    s.lastReq >= from + (if s.askBackup then 4 else 3 - s.attempts) * Retry(c)
  }

  lemma TryTakes(c: Setup, s: Failover, now: nat, from: nat)
    requires FailoverOk(c, s, now) && TriedSince(c, s, from) && from <= s.lastReq
    ensures var (s', left) := Tick(c, s, now);
            if left then now >= from + 4 * Retry(c) else TriedSince(c, s', from) && from <= s'.lastReq
  {
    assert 2 <= Retry(c) <= 13 && Retry(c) <= c.lifetime;
    LeftExactly(c, s, now);
    if !Tick(c, s, now).1 { StayedExactly(c, s, now); }
    assert s.attempts > 0 ==> (3 - (s.attempts - 1)) * Retry(c) == (3 - s.attempts) * Retry(c) + Retry(c);
    hide Tick, Retry;
  }

  lemma {:induction false} Tried(c: Setup, run: seq<Failover>, start: nat, times: seq<nat>, i: nat, m: nat)
    requires IsRun(c, run, start, times) && i <= m < |run| == |times| + 1
    requires run[i].attempts == 3 && !run[i].askBackup && !LeftBetween(c, run, times, i, m)
    ensures TriedSince(c, run[m], run[i].lastReq) && run[i].lastReq <= run[m].lastReq
    decreases m
  {
    hide Tick, FailoverOk, IsRun, Retry;
    if i < m {
      var s, now := run[m - 1], times[m - 1];
      Tried(c, run, start, times, i, m - 1);
      RunKeeps(c, run, start, times, m - 1);
      RunStep(c, run, start, times, m - 1);
      Later(c, s, Time(start, times, m - 1), now);
      assert !Tick(c, s, now).1;
      TryTakes(c, s, now, run[i].lastReq);
    }
  }

  /** A supernode with all tries left is not left before four retries are over. */
  lemma NotLeftSoon(c: Setup, run: seq<Failover>, start: nat, times: seq<nat>, i: nat, k: nat)
    requires IsRun(c, run, start, times) && i <= k < |times| == |run| - 1
    requires run[i].attempts == 3 && !run[i].askBackup && !LeftBetween(c, run, times, i, k)
    requires Tick(c, run[k], times[k]).1
    ensures times[k] >= run[i].lastReq + 4 * Retry(c)
  {
    Tried(c, run, start, times, i, k);
    RunKeeps(c, run, start, times, k);
    RunStep(c, run, start, times, k);
    Later(c, run[k], Time(start, times, k), times[k]);
    hide *;
    TryTakes(c, run[k], times[k], run[i].lastReq);
  }
}
