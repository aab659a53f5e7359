/** Supernode registration and failover of edge.c, without acknowledgements and without WebSocket mode. */
module EdgeSupernode {
  const SUP_ATTEMPTS := 3
  const CYCLE := 30
  const COOLDOWN := 300

  /** What no tick changes. */
  datatype Setup = Setup(snNum: nat, lifetime: nat, reResolve: bool, everOk: bool, hasQuery: bool)

  datatype Failover = Failover(idx: nat, attempts: nat, lastReq: nat, waiting: bool, askBackup: bool, allFailed: bool)

  /** The index of the failover target. */
  const BACKUP := 1

  predicate SetupOk(c: Setup) {
    1 <= c.snNum <= 3 && 10 <= c.lifetime <= 120
  }

  predicate FailoverOk(c: Setup, s: Failover, now: nat) {
    && SetupOk(c) && s.idx < c.snNum && s.attempts <= SUP_ATTEMPTS && s.lastReq <= now
    && (s.askBackup ==> s.idx == 0 && c.snNum >= 2 && c.reResolve)
  }

  /** sn_switch_to */
  function SwitchTo(s: Failover, idx: nat): Failover {
    s.(idx := idx, attempts := SUP_ATTEMPTS)
  }

  function Sent(s: Failover, now: nat): Failover {
    s.(waiting := true, lastReq := now)
  }

  /** Seconds between fast retries. */
  function Retry(c: Setup): nat {
    c.lifetime / 10 + 1
  }

  /** The retry budget is spent: who is next. */
  function GiveUp(c: Setup, s: Failover): (r: (Failover, bool)) {
    if s.idx == 0 && c.snNum >= 2 then
      if c.everOk && c.reResolve then (s.(askBackup := true, attempts := SUP_ATTEMPTS), false)
      else (SwitchTo(s, BACKUP), true)
    else if s.idx + 1 < c.snNum then (SwitchTo(s, s.idx + 1), true)
    else (SwitchTo(s.(allFailed := true), 0), true)
  }

  predicate CooldownDue(c: Setup, s: Failover, now: nat) {
    s.allFailed && s.idx == 0 && c.snNum >= 2 && c.hasQuery && now > s.lastReq + COOLDOWN
  }

  /** One tick: the new state, and whether the supernode was left. */
  function Tick(c: Setup, s: Failover, now: nat): (Failover, bool) {
    if CooldownDue(c, s, now) then
      var s1 := s.(allFailed := false, attempts := SUP_ATTEMPTS);
      if c.reResolve then (Sent(s1.(askBackup := true), now), false)
      else (Sent(SwitchTo(s1, BACKUP), now), true)
    else if s.askBackup then
      if now > s.lastReq + CYCLE then
        if s.attempts == 0 then (Sent(SwitchTo(s, BACKUP).(askBackup := false), now), true)
        else (Sent(s.(attempts := s.attempts - 1), now), false)
      else (s, false)
    else if now > s.lastReq + CYCLE then (Sent(s.(attempts := SUP_ATTEMPTS), now), false)
    else if !(s.waiting && now > s.lastReq + c.lifetime / 10) && now < s.lastReq + c.lifetime then (s, false)
    else if s.attempts == 0 then
      var (s1, left) := GiveUp(c, s);
      (Sent(s1, now), left)
    else (Sent(s.(attempts := s.attempts - 1), now), false)
  }

  /** The registration part of n2n_edge_t. */
  class SupernodeEdge {
    const setup: Setup
    var snIdx: nat
    var supAttempts: nat
    var lastRegisterReq: nat
    var snWait: bool
    var snAskBackup: bool
    var snAllFailed: bool

    constructor (setup: Setup)
      requires SetupOk(setup)
      ensures this.setup == setup && State() == Failover(0, SUP_ATTEMPTS, 0, false, false, false)
    {
      this.setup := setup;
      snIdx, supAttempts, lastRegisterReq := 0, SUP_ATTEMPTS, 0;
      snWait, snAskBackup, snAllFailed := false, false, false;
    }

    function State(): Failover
      reads this
    {
      Failover(snIdx, supAttempts, lastRegisterReq, snWait, snAskBackup, snAllFailed)
    }

    /** sn_switch_to */
    method SwitchSupernode(idx: nat)
      modifies this
      ensures State() == SwitchTo(old(State()), idx)
    {
      snIdx := idx;
      supAttempts := SUP_ATTEMPTS;
    }

    /** update_supernode_reg: whether it moved to another supernode. */
    method UpdateSupernodeReg(now: nat) returns (left: bool)
      modifies this
      ensures (State(), left) == Tick(setup, old(State()), now)
    {
      left := false;
      // The cooldown after every supernode failed.
      if snAllFailed && snIdx == 0 && setup.snNum >= 2 && setup.hasQuery && now > lastRegisterReq + COOLDOWN {
        snAllFailed := false;
        supAttempts := SUP_ATTEMPTS;
        if setup.reResolve {
          snAskBackup := true;
        } else {
          SwitchSupernode(BACKUP);
          left := true;
        }
        snWait, lastRegisterReq := true, now;
        return;
      }
      // Both supernodes are asked, every 30 seconds.
      if snAskBackup {
        if now > lastRegisterReq + CYCLE {
          snWait, lastRegisterReq := true, now;
          if supAttempts == 0 {
            SwitchSupernode(BACKUP);
            snAskBackup := false;
            left := true;
          } else {
            supAttempts := supAttempts - 1;
          }
        }
        return;
      }
      // The normal cycle.
      if now > lastRegisterReq + CYCLE {
        supAttempts := SUP_ATTEMPTS;
        snWait, lastRegisterReq := true, now;
        return;
      }
      // The fast retry while an acknowledgement is outstanding.
      if snWait && now > lastRegisterReq + setup.lifetime / 10 {
      } else if now < lastRegisterReq + setup.lifetime {
        return;
      }
      if supAttempts == 0 {
        if snIdx == 0 && setup.snNum >= 2 {
          if setup.everOk && setup.reResolve {
            snAskBackup := true;
            supAttempts := SUP_ATTEMPTS;
            snWait, lastRegisterReq := true, now;
            return;
          } else {
            SwitchSupernode(BACKUP);
            left := true;
          }
        } else if snIdx + 1 < setup.snNum {
          SwitchSupernode(snIdx + 1);
          left := true;
        } else {
          snAllFailed := true;
          SwitchSupernode(0);
          left := true;
        }
      } else {
        supAttempts := supAttempts - 1;
      }
      snWait, lastRegisterReq := true, now;
    }
  }

  // ---------------------------------------------------------------- one tick

  /** Every tick keeps the index in range and the budget sound, and moves only to the next index in the circle. */
  lemma TickKeeps(c: Setup, s: Failover, now: nat)
    requires FailoverOk(c, s, now)
    ensures var (s', left) := Tick(c, s, now);
            && FailoverOk(c, s', now)
            && s'.idx == (if left then (s.idx + 1) % c.snNum else s.idx)
            && (left ==> s'.attempts == SUP_ATTEMPTS && !s'.askBackup && s'.waiting && s'.lastReq == now)
  {
    assert s.idx + 1 < c.snNum ==> (s.idx + 1) % c.snNum == s.idx + 1;
    assert s.idx + 1 == c.snNum ==> (s.idx + 1) % c.snNum == 0;
  }

  /** The longest it can take from now until the present supernode is left, with a tick every second. */
  function Remaining(c: Setup, s: Failover, now: nat): int {
    var since := now - s.lastReq;
    if s.askBackup && since < COOLDOWN then Ahead(CYCLE + 1, since) + s.attempts * (CYCLE + 1)
    else if !s.askBackup && s.waiting && since < CYCLE then Ahead(Retry(c), since) + s.attempts * Retry(c) + Asking()
    else Ahead(CYCLE + 1, since) + (SUP_ATTEMPTS + 1) * Retry(c) + Asking()
  }

  /** What is left of a delay of which `since` seconds are over; it is noticed by the next tick at the latest. */
  function Ahead(delay: nat, since: int): int {
    if since < delay then delay - since else 1
  }

  /** The time both supernodes may be asked before the switch. */
  function Asking(): nat {
    (SUP_ATTEMPTS + 1) * (CYCLE + 1)
  }

  /** Its largest value: 31 seconds, four retries, and four rounds of asking. */
  function Longest(c: Setup): nat {
    CYCLE + 1 + (SUP_ATTEMPTS + 1) * Retry(c) + Asking()
  }

  lemma RemainingBounds(c: Setup, s: Failover, now: nat)
    requires FailoverOk(c, s, now)
    ensures 0 < Remaining(c, s, now) <= Longest(c)
  {
  }

  /** A tick at most a second later: either the supernode is left, or the time that passed is gone from what remains. */
  lemma TickApproaches(c: Setup, s: Failover, before: nat, now: nat)
    requires FailoverOk(c, s, before) && before <= now <= before + 1
    ensures var (s', left) := Tick(c, s, now);
            left || Remaining(c, s', now) <= Remaining(c, s, before) - (now - before)
  {
    assert 2 <= Retry(c) <= 13;
    var (s', left) := Tick(c, s, now);
    assert s.attempts > 0 ==> (s.attempts - 1) * Retry(c) == s.attempts * Retry(c) - Retry(c);
  }

  // ---------------------------------------------------------------- whole runs

  /** The states of a run, with a tick at most a second after the one before. */
  ghost predicate IsRun(c: Setup, run: seq<Failover>, start: nat, times: seq<nat>) {
    && |run| == |times| + 1 && FailoverOk(c, run[0], start)
    && forall i :: 0 <= i < |times| ==> Ticks(c, run, start, times, i)
  }

  /** run[i + 1] is what the tick at times[i] makes of run[i]. */
  ghost predicate Ticks(c: Setup, run: seq<Failover>, start: nat, times: seq<nat>, i: nat)
    requires i < |times| < |run|
  {
    run[i + 1] == Tick(c, run[i], times[i]).0 && Time(start, times, i) <= times[i] <= Time(start, times, i) + 1
  }

  /** The time before tick i. */
  function Time(start: nat, times: seq<nat>, i: nat): nat
    requires i <= |times|
  {
    if i == 0 then start else times[i - 1]
  }

  lemma RunStep(c: Setup, run: seq<Failover>, start: nat, times: seq<nat>, i: nat)
    requires IsRun(c, run, start, times) && i < |times|
    ensures |run| == |times| + 1 && run[i + 1] == Tick(c, run[i], times[i]).0
    ensures Time(start, times, i) <= times[i] == Time(start, times, i + 1) <= Time(start, times, i) + 1
  {
    hide Tick, FailoverOk;
    assert Ticks(c, run, start, times, i);
  }

  lemma {:induction false} RunKeeps(c: Setup, run: seq<Failover>, start: nat, times: seq<nat>, i: nat)
    requires IsRun(c, run, start, times) && i < |run| == |times| + 1
    ensures FailoverOk(c, run[i], Time(start, times, i)) && start <= Time(start, times, i)
    decreases i
  {
    hide Tick, FailoverOk;
    if i > 0 {
      RunKeeps(c, run, start, times, i - 1);
      RunStep(c, run, start, times, i - 1);
      hide IsRun, Time;
      Later(c, run[i - 1], Time(start, times, i - 1), times[i - 1]);
      TickKeeps(c, run[i - 1], times[i - 1]);
    }
  }

  lemma Later(c: Setup, s: Failover, before: nat, now: nat)
    requires FailoverOk(c, s, before) && before <= now
    ensures FailoverOk(c, s, now)
  {
  }

  /** The supernode was left at some tick from i up to j. */
  ghost predicate LeftBetween(c: Setup, run: seq<Failover>, times: seq<nat>, i: nat, j: nat)
    requires i <= j <= |times| < |run|
  {
    exists k :: i <= k < j && Tick(c, run[k], times[k]).1
  }

  lemma {:induction false} StaysMeans(c: Setup, run: seq<Failover>, start: nat, times: seq<nat>, i: nat, j: nat)
    requires IsRun(c, run, start, times) && i <= j < |run| == |times| + 1 && !LeftBetween(c, run, times, i, j)
    ensures Remaining(c, run[j], Time(start, times, j))
            <= Remaining(c, run[i], Time(start, times, i)) - (Time(start, times, j) - Time(start, times, i))
    ensures run[j].idx == run[i].idx
    decreases j
  {
    hide Tick, Remaining, FailoverOk;
    if i < j {
      var t := times[j - 1];
      StaysMeans(c, run, start, times, i, j - 1);
      RunKeeps(c, run, start, times, j - 1);
      RunStep(c, run, start, times, j - 1);
      hide IsRun, Time;
      Later(c, run[j - 1], Time(start, times, j - 1), t);
      TickApproaches(c, run[j - 1], Time(start, times, j - 1), t);
      TickKeeps(c, run[j - 1], t);
    }
  }

  /** No supernode keeps a silent edge longer than Longest(c) seconds. */
  lemma IndexIsLeft(c: Setup, run: seq<Failover>, start: nat, times: seq<nat>, i: nat, j: nat)
    requires IsRun(c, run, start, times) && i <= j < |run| == |times| + 1
    requires Time(start, times, j) >= Time(start, times, i) + Longest(c)
    ensures LeftBetween(c, run, times, i, j)
  {
    hide Tick, Remaining, FailoverOk, Longest, IsRun, Time;
    if !LeftBetween(c, run, times, i, j) {
      StaysMeans(c, run, start, times, i, j);
      RunKeeps(c, run, start, times, i);
      RunKeeps(c, run, start, times, j);
      RemainingBounds(c, run[i], Time(start, times, i));
      RemainingBounds(c, run[j], Time(start, times, j));
    }
  }

  /** The first tick at which the present supernode is left: when that is, and who comes next. */
  lemma FirstLeft(c: Setup, run: seq<Failover>, start: nat, times: seq<nat>, i: nat, j: nat) returns (k: nat)
    requires IsRun(c, run, start, times) && i <= j < |run| == |times| + 1
    requires Time(start, times, j) >= Time(start, times, i) + Longest(c)
    ensures i <= k < j && Tick(c, run[k], times[k]).1 && !LeftBetween(c, run, times, i, k)
    ensures times[k] == Time(start, times, k + 1) <= Time(start, times, i) + Longest(c)
    ensures run[k + 1].idx == (run[i].idx + 1) % c.snNum
  {
    hide Tick, Remaining, FailoverOk, Longest, IsRun, Time;
    IndexIsLeft(c, run, start, times, i, j);
    k := Least(c, run, times, i, j);
    hide LeftBetween;
    StaysMeans(c, run, start, times, i, k);
    RunKeeps(c, run, start, times, i);
    RunKeeps(c, run, start, times, k);
    RemainingBounds(c, run[i], Time(start, times, i));
    RemainingBounds(c, run[k], Time(start, times, k));
    RunStep(c, run, start, times, k);
    Later(c, run[k], Time(start, times, k), times[k]);
    TickKeeps(c, run[k], times[k]);
  }

  lemma {:induction false} Least(c: Setup, run: seq<Failover>, times: seq<nat>, i: nat, j: nat) returns (k: nat)
    requires i <= j <= |times| < |run| && LeftBetween(c, run, times, i, j)
    ensures i <= k < j && Tick(c, run[k], times[k]).1 && !LeftBetween(c, run, times, i, k)
    decreases j
  {
    hide Tick;
    if LeftBetween(c, run, times, i, j - 1) {
      k := Least(c, run, times, i, j - 1);
    } else {
      k := j - 1;
    }
  }

  /** d periods. */
  function Periods(c: Setup, d: nat): nat {
    if d == 0 then 0 else Longest(c) + Periods(c, d - 1)
  }

  lemma {:induction false} PeriodsTimes(c: Setup, d: nat)
    ensures Periods(c, d) == d * Longest(c)
    decreases d
  {
    if d > 0 { PeriodsTimes(c, d - 1); }
  }

  /** The index d places on in the circle. */
  function PlacesOn(c: Setup, idx: nat, d: nat): nat
    requires c.snNum > 0
  {
    (idx + d) % c.snNum
  }

  lemma AheadNext(c: Setup, idx: nat, d: nat)
    requires idx < c.snNum <= 3 && d > 0
    ensures PlacesOn(c, (idx + 1) % c.snNum, d - 1) == PlacesOn(c, idx, d)
  {
  }

  /** So every supernode is tried: the index d places ahead is reached within d such periods. */
  lemma {:induction false} EverySupernodeTried(c: Setup, run: seq<Failover>, start: nat, times: seq<nat>, i: nat,
                                               j: nat, d: nat)
    returns (k: nat)
    requires IsRun(c, run, start, times) && i <= j < |run| == |times| + 1 && 1 <= c.snNum <= 3
    requires Time(start, times, j) >= Time(start, times, i) + Periods(c, d)
    ensures i <= k <= j && run[k].idx == PlacesOn(c, run[i].idx, d)
    ensures Time(start, times, k) <= Time(start, times, i) + Periods(c, d)
    decreases d
  {
    hide Tick, IsRun, Time, Longest, PlacesOn;
    RunKeeps(c, run, start, times, i);
    if d == 0 {
      k := i;
      HereAlready(c, run[i], Time(start, times, i));
    } else {
      var m := FirstLeft(c, run, start, times, i, j);
      k := EverySupernodeTried(c, run, start, times, m + 1, j, d - 1);
      AheadNext(c, run[i].idx, d);
    }
  }

  lemma HereAlready(c: Setup, s: Failover, now: nat)
    requires FailoverOk(c, s, now)
    ensures PlacesOn(c, s.idx, 0) == s.idx
  {
  }

  // ---------------------------------------------------------------- asking both supernodes

  /** Asking, with nothing overdue. */
  ghost predicate AskingNow(s: Failover, now: nat) {
    s.askBackup && s.lastReq <= now <= s.lastReq + CYCLE
  }

  /** In this mode the remaining time is exact. */
  lemma AskExactly(c: Setup, s: Failover, before: nat, now: nat)
    requires FailoverOk(c, s, before) && AskingNow(s, before) && before <= now <= before + 1
    ensures var (s', left) := Tick(c, s, now);
            && (left ==> Remaining(c, s, before) == now - before)
            && (!left ==> AskingNow(s', now) && Remaining(c, s', now) == Remaining(c, s, before) - (now - before))
  {
  }

  lemma {:induction false} AskingRun(c: Setup, run: seq<Failover>, start: nat, times: seq<nat>, i: nat, k: nat)
    requires IsRun(c, run, start, times) && i <= k < |run| == |times| + 1 && !LeftBetween(c, run, times, i, k)
    requires AskingNow(run[i], Time(start, times, i))
    ensures AskingNow(run[k], Time(start, times, k))
    ensures Remaining(c, run[k], Time(start, times, k))
            == Remaining(c, run[i], Time(start, times, i)) - (Time(start, times, k) - Time(start, times, i))
    decreases k
  {
    hide Tick, Remaining, FailoverOk, AskingNow;
    if i < k {
      AskingRun(c, run, start, times, i, k - 1);
      RunKeeps(c, run, start, times, k - 1);
      RunStep(c, run, start, times, k - 1);
      hide IsRun, Time;
      AskExactly(c, run[k - 1], Time(start, times, k - 1), times[k - 1]);
    }
  }

  /** From the first question the switch comes after exactly four rounds of 31 seconds. */
  lemma AskingTakesFourRounds(c: Setup, run: seq<Failover>, start: nat, times: seq<nat>, i: nat, k: nat)
    requires IsRun(c, run, start, times) && i <= k < |times| && |run| == |times| + 1
    requires run[i].askBackup && run[i].attempts == SUP_ATTEMPTS && run[i].lastReq == Time(start, times, i)
    requires !LeftBetween(c, run, times, i, k) && Tick(c, run[k], times[k]).1
    ensures times[k] == Time(start, times, i) + 4 * (CYCLE + 1)
  {
    AskingRun(c, run, start, times, i, k);
    RunKeeps(c, run, start, times, k);
    RunStep(c, run, start, times, k);
    hide IsRun, Time, LeftBetween, Tick;
    AskExactly(c, run[k], Time(start, times, k), times[k]);
  }

  // ---------------------------------------------------------------- the cooldown

  /** The wait of five minutes after every supernode failed never comes about: while ticks are a second apart
      the last request is never more than 31 seconds old, so its guard stays false. */
  lemma {:induction false} CooldownNeverComes(c: Setup, run: seq<Failover>, start: nat, times: seq<nat>, i: nat)
    requires IsRun(c, run, start, times) && i < |times| && start - run[0].lastReq <= CYCLE + 1
    ensures !CooldownDue(c, run[i], times[i]) && Time(start, times, i) - run[i].lastReq <= CYCLE + 1
    decreases i
  {
    if i > 0 {
      CooldownNeverComes(c, run, start, times, i - 1);
      RunStep(c, run, start, times, i - 1);
    }
    RunStep(c, run, start, times, i);
  }
}
