/** Hole punching of one pending peer in edge.c. */
module EdgePunch {
  const ROUNDS := 5
  const ROUND_INTERVAL := 2
  const LAN_SECS := 3
  const RETRY_SECS := 40
  const MAX_RETRIES := 3

  /** The punch fields of peer_info; a time of 0 means never. */
  datatype Punch = Punch(start: nat, failed: bool, round: nat, roundTime: nat, retries: nat, resetTime: nat,
                         lanStart: nat, lanDone: bool)

  const IDLE := Punch(0, false, 0, 0, 0, 0, 0, false)

  /** start_punch: the new fields, and whether punch_round was called. */
  function StartPunch(p: Punch, can: bool, now: nat): (Punch, bool) {
    if p.failed || p.start != 0 || !can then (p, false)
    else (p.(start := now, round := 0, roundTime := now), true)
  }

  /** A new address: everything about the old punch is forgotten but its round. */
  function Forget(p: Punch): Punch {
    p.(start := 0, failed := false, retries := 0, resetTime := 0, lanStart := 0, lanDone := false)
  }

  /** The LAN phase of check_punch_timeouts. */
  function LanPhase(p: Punch, two: bool, can: bool, now: nat): (Punch, bool) {
    if two && !p.lanDone && p.lanStart != 0 && now - p.lanStart >= LAN_SECS
    then StartPunch(p.(lanDone := true), can, now)
    else (p, false)
  }

  /** The rest of it. */
  function WanPhase(p: Punch, can: bool, now: nat): (Punch, bool) {
    if p.start != 0 && !p.failed then
      if now - p.roundTime < ROUND_INTERVAL then (p, false)
      else if p.round >= ROUNDS - 1 then (p.(failed := true, resetTime := now), false)
      else (p.(round := p.round + 1, roundTime := now), true)
    else if !p.failed || p.retries >= MAX_RETRIES || now - p.resetTime <= RETRY_SECS then (p, false)
    else if p.retries + 1 >= MAX_RETRIES then (p.(retries := p.retries + 1), false)
    else
      StartPunch(p.(retries := p.retries + 1, failed := false, start := 0, lanDone := false, lanStart := 0), can, now)
  }

  /** One pass over a peer; `two` says whether it has a LAN address beside the public one. */
  function TickPunch(p: Punch, two: bool, can: bool, now: nat): (Punch, bool) {
    var (p1, lan) := LanPhase(p, two, can, now);
    var (p2, wan) := WanPhase(p1, can, now);
    (p2, lan || wan)
  }

  /** How a restarted punch begins: on the LAN first, on the public address, or on both at once. */
  datatype Way = Lan | Wan | Both

  /** A PUNCH request with the address we have: restarts nothing while a punch runs or the peer is directly alive. */
  function Handoff(p: Punch, way: Way, alive: bool, can: bool, now: nat): (Punch, bool) {
    if p.start != 0 || p.lanStart != 0 || alive then (p, false)
    else
      var q := Forget(p).(round := 0, roundTime := 0);
      match way
      case Lan => (q.(lanStart := now), false)
      case Wan => StartPunch(q, can, now)
      case Both => StartPunch(q.(lanStart := now), can, now)
  }

  /** A REGISTER from the address we have. */
  function Register(p: Punch, can: bool, now: nat): (Punch, bool) {
    if p.start == 0 && !p.failed then StartPunch(p, can, now) else (p, false)
  }

  // ---------------------------------------------------------------- how many rounds are left

  /** Calls of punch_round still to come: what is left of this attempt, and five in each attempt after it. */
  function Left(p: Punch): nat {
    var later := if p.retries < MAX_RETRIES then (MAX_RETRIES - 1 - p.retries) * ROUNDS else 0;
    if p.failed then later
    else if p.start != 0 then later + (if p.round < ROUNDS then ROUNDS - 1 - p.round else 0)
    else later + ROUNDS
  }

  /** Rounds are counted from 0 to 4, only a failed punch has used up its retries, and only one that was
      started has failed. */
  ghost predicate PunchOk(p: Punch) {
    && (p.start != 0 ==> p.round < ROUNDS)
    && (!p.failed ==> p.retries < MAX_RETRIES)
    && (p.failed ==> p.start != 0)
  }

  /** What may happen to a pending peer whose address does not change and that no LAN phase restarts. */
  datatype Event =
    | Tick(two: bool)
    | Punched(way: Way, alive: bool)
    | Registered

  function Step(p: Punch, e: Event, can: bool, now: nat): (Punch, bool) {
    match e
    case Tick(two) => TickPunch(p, two, can, now)
    case Punched(way, alive) => Handoff(p, way, alive, can, now)
    case Registered => Register(p, can, now)
  }

  /** A handoff that finds the punch stopped between two attempts: a retry came while the peer had no usable address. */
  predicate Refills(p: Punch, e: Event) {
    e.Punched? && !e.alive && p.start == 0 && p.lanStart == 0 && p.retries > 0
  }

  /** Every event keeps the counters sound.  A punch_round is taken from what is left, and nothing is ever added,
      exactly unless the event refills; then all fifteen rounds are there again. */
  lemma StepSpends(p: Punch, e: Event, can: bool, now: nat)
    requires PunchOk(p) && now > 0
    ensures var (q, fired) := Step(p, e, can, now);
            var left := Left(q) + if fired then 1 else 0;
            && PunchOk(q)
            && (left <= Left(p) <==> !Refills(p, e)) && (Refills(p, e) ==> left == MAX_RETRIES * ROUNDS)
            && (fired ==> can || p.start != 0)
  {
  }

  /** A peer that can be punched all the time is never stopped between two attempts. */
  lemma NeverStopped(p: Punch, e: Event, now: nat)
    requires PunchOk(p) && now > 0 && (p.start == 0 ==> p.retries == 0)
    ensures var (q, _) := Step(p, e, true, now); q.start == 0 ==> q.retries == 0
  {
  }

  // ---------------------------------------------------------------- whole runs

  /** An event, whether the peer has a usable address then, and the time. */
  datatype Timed = Timed(e: Event, can: bool, now: nat)

  /** The punch after the events of a run, and the times of its punch_round calls. */
  function Run(p: Punch, run: seq<Timed>): (Punch, seq<nat>)
    decreases |run|
  {
    if run == [] then (p, []) else
      var n := |run| - 1;
      var (q, fires) := Run(p, run[..n]);
      var (r, fired) := Step(q, run[n].e, run[n].can, run[n].now);
      (r, if fired then fires + [run[n].now] else fires)
  }

  ghost predicate Ticking(run: seq<Timed>) {
    && (forall i :: 0 <= i < |run| ==> run[i].now > 0)
    && forall i, j :: 0 <= i < j < |run| ==> run[i].now <= run[j].now
  }

  /** No event of the run refills. */
  ghost predicate NoRefill(p: Punch, run: seq<Timed>) {
    forall i :: 0 <= i < |run| ==> !Refills(Run(p, run[..i]).0, run[i].e)
  }

  lemma NoRefillBefore(p: Punch, run: seq<Timed>, n: nat)
    requires n < |run|
    ensures NoRefill(p, run) ==> NoRefill(p, run[..n]) && !Refills(Run(p, run[..n]).0, run[n].e)
  {
    assert forall i :: 0 <= i < n ==> run[..n][..i] == run[..i] && run[..n][i] == run[i];
    hide Run, Refills;
  }

  /** Without a refill no more rounds come than were left, whatever the events and however the peer's
      addresses come and go. */
  lemma {:induction false} RoundsAreBounded(p: Punch, run: seq<Timed>)
    requires PunchOk(p) && Ticking(run)
    ensures var (q, fires) := Run(p, run);
            PunchOk(q) && (NoRefill(p, run) ==> |fires| + Left(q) <= Left(p))
    decreases |run|
  {
    hide Step, Left, PunchOk;
    if run != [] {
      var n := |run| - 1;
      RoundsAreBounded(p, run[..n]);
      NoRefillBefore(p, run, n);
      hide NoRefill;
      var (q, _) := Run(p, run[..n]);
      StepSpends(q, run[n].e, run[n].can, run[n].now);
    }
  }

  /** Five rounds in each of three attempts, for a new pending peer that has a usable address all the time,
      and none for one that never has. */
  lemma {:induction false} FifteenRounds(can: bool, run: seq<Timed>)
    requires Ticking(run) && forall i :: 0 <= i < |run| ==> run[i].can == can
    ensures |Run(IDLE, run).1| <= if can then MAX_RETRIES * ROUNDS else 0
  {
    if can {
      forall i | 0 <= i < |run| ensures !Refills(Run(IDLE, run[..i]).0, run[i].e) {
        AlwaysUsable(run[..i]);
      }
      RoundsAreBounded(IDLE, run);
    } else {
      NeverUsable(run);
    }
  }

  lemma {:induction false} AlwaysUsable(run: seq<Timed>)
    requires Ticking(run) && forall i :: 0 <= i < |run| ==> run[i].can
    ensures var (q, _) := Run(IDLE, run); PunchOk(q) && (q.start == 0 ==> q.retries == 0)
    decreases |run|
  {
    if run != [] {
      var n := |run| - 1;
      AlwaysUsable(run[..n]);
      var (q, _) := Run(IDLE, run[..n]);
      StepSpends(q, run[n].e, true, run[n].now);
      NeverStopped(q, run[n].e, run[n].now);
      hide Step, PunchOk;
    }
  }

  lemma {:induction false} NeverUsable(run: seq<Timed>)
    requires Ticking(run) && forall i :: 0 <= i < |run| ==> !run[i].can
    ensures var (q, fires) := Run(IDLE, run); PunchOk(q) && q.start == 0 && fires == []
    decreases |run|
  {
    if run != [] {
      NeverUsable(run[..|run| - 1]);
    }
  }

  /** Where the last round was, as the fields remember it. */
  ghost predicate Remembers(p: Punch, fires: seq<nat>, now: nat) {
    fires != [] ==>
      var last := fires[|fires| - 1];
      && last <= now
      && (if p.failed then last + ROUND_INTERVAL <= p.resetTime <= now
          else if p.start != 0 then last == p.roundTime
          else last + ROUND_INTERVAL <= now)
  }

  /** Rounds are at least two seconds apart. */
  ghost predicate Spaced(fires: seq<nat>) {
    forall i :: 0 < i < |fires| ==> fires[i - 1] + ROUND_INTERVAL <= fires[i]
  }

  lemma StepSpaces(p: Punch, e: Event, can: bool, fires: seq<nat>, before: nat, now: nat)
    requires PunchOk(p) && before <= now && 0 < now && Remembers(p, fires, before) && Spaced(fires)
    ensures var (q, fired) := Step(p, e, can, now);
            var fires' := if fired then fires + [now] else fires;
            Remembers(q, fires', now) && Spaced(fires')
  {
    hide Spaced;
    var (q, fired) := Step(p, e, can, now);
    assert fired && fires != [] ==> fires[|fires| - 1] + ROUND_INTERVAL <= now;
    if fired { SpacedNext(fires, now); }
  }

  lemma SpacedNext(fires: seq<nat>, now: nat)
    requires Spaced(fires) && (fires != [] ==> fires[|fires| - 1] + ROUND_INTERVAL <= now)
    ensures Spaced(fires + [now])
  {
  }

  /** So under a clock that does not go back two calls of punch_round are never closer than two seconds,
      refills or not. */
  lemma {:induction false} RoundsAreSpaced(run: seq<Timed>)
    requires Ticking(run)
    ensures var (p, fires) := Run(IDLE, run);
            Spaced(fires) && (run != [] ==> Remembers(p, fires, run[|run| - 1].now))
    decreases |run|
  {
    if run != [] {
      var n := |run| - 1;
      RoundsAreSpaced(run[..n]);
      RoundsAreBounded(IDLE, run[..n]);
      var (p, fires) := Run(IDLE, run[..n]);
      StepSpaces(p, run[n].e, run[n].can, fires, if n == 0 then 0 else run[n - 1].now, run[n].now);
      hide Step, Remembers, PunchOk;
    }
  }

  /** A handoff with the same address arms a punch, or its LAN phase, exactly when none has started, no LAN phase has,
      the peer is not directly alive, and there is somewhere to punch; otherwise a running punch is left as it is. */
  lemma HandoffArms(p: Punch, way: Way, alive: bool, can: bool, now: nat)
    requires now > 0
    ensures var (q, fired) := Handoff(p, way, alive, can, now);
            var idle := p.start == 0 && p.lanStart == 0 && !alive;
            && (q.start != p.start || q.lanStart != p.lanStart <==> idle && (can || !way.Wan?))
            && (fired <==> idle && can && !way.Lan?)
            && (p.start != 0 || p.lanStart != 0 ==> q == p)
  {
  }

  // ---------------------------------------------------------------- a run with a refill

  /** A run from the beginning ends at `now` with this punch, after n rounds. */
  ghost predicate Reaches(run: seq<Timed>, p: Punch, n: nat, now: nat) {
    && Ticking(run) && (forall i :: 0 <= i < |run| ==> run[i].now <= now)
    && Run(IDLE, run).0 == p && |Run(IDLE, run).1| == n
  }

  lemma Then(run: seq<Timed>, p: Punch, n: nat, before: nat, t: Timed)
    requires Reaches(run, p, n, before) && before <= t.now && t.now > 0
    ensures var (q, fired) := Step(p, t.e, t.can, t.now);
            Reaches(run + [t], q, if fired then n + 1 else n, t.now)
  {
    assert (run + [t])[..|run|] == run;
    hide Step;
  }

  /** An attempt that is left to itself: four more rounds, and then it has failed. */
  lemma Attempt(run: seq<Timed>, p: Punch, n: nat, at: nat) returns (run': seq<Timed>, q: Punch)
    requires Reaches(run, p, n, at) && at > 0 && p.start != 0 && !p.failed && p.round == 0 && p.roundTime == at
    ensures q == p.(failed := true, round := 4, roundTime := at + 8, resetTime := at + 10)
    ensures Reaches(run', q, n + 4, at + 10)
  {
    run', q := run, p;
    var now := at;
    var i := 0;
    while i < 5
      invariant 0 <= i <= 5 && now == at + 2 * i && Reaches(run', q, if i < 5 then n + i else n + 4, now)
      invariant i < 5 ==> q == p.(round := i, roundTime := now)
      invariant i == 5 ==> q == p.(failed := true, round := 4, roundTime := at + 8, resetTime := at + 10)
    {
      var t := Timed(Tick(false), true, now + 2);
      Then(run', q, if i < 5 then n + i else n + 4, now, t);
      run', q, now, i := run' + [t], Step(q, t.e, true, t.now).0, now + 2, i + 1;
    }
  }

  /** The bound of fifteen does fail when a handoff refills: the peer has no usable address when its first retry comes
      and has one again at the next handoff, and in all twenty rounds are made. */
  lemma UnusableRetryRefills() returns (run: seq<Timed>)
    ensures Ticking(run) && |Run(IDLE, run).1| == 20
  {
    run := [];
    var p := IDLE;
    Then(run, p, 0, 0, Timed(Registered, true, 1));
    run, p := Attempt(run + [Timed(Registered, true, 1)], p.(start := 1, roundTime := 1), 1, 1);
    Then(run, p, 5, 11, Timed(Tick(false), false, 60));
    run, p := run + [Timed(Tick(false), false, 60)], p.(failed := false, start := 0, retries := 1);
    Then(run, p, 5, 60, Timed(Punched(Wan, false), true, 61));
    run, p := run + [Timed(Punched(Wan, false), true, 61)], Punch(61, false, 0, 61, 0, 0, 0, false);
    run, p := Attempt(run, p, 6, 61);
    Then(run, p, 10, 71, Timed(Tick(false), true, 112));
    run, p := run + [Timed(Tick(false), true, 112)],
        p.(failed := false, start := 112, round := 0, roundTime := 112, retries := 1);
    run, p := Attempt(run, p, 11, 112);
    Then(run, p, 15, 122, Timed(Tick(false), true, 163));
    run, p := run + [Timed(Tick(false), true, 163)],
        p.(failed := false, start := 163, round := 0, roundTime := 163, retries := 2);
    run, p := Attempt(run, p, 16, 163);
  }
}
