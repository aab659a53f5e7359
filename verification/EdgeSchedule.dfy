/** When a pending peer is punched. */
module EdgeSchedule {
  import opened EdgePunch

  /** The fields u seconds into attempt c of a punch that began at t0, with a tick in every second. */
  function InAttempt(t0: nat, c: nat, u: nat): Punch {
    var at := t0 + 51 * c;
    if c >= MAX_RETRIES then Punch(t0 + 102, true, 4, t0 + 110, 3, t0 + 112, 0, false)
    else if u >= 10 then Punch(at, true, 4, at + 8, c, at + 10, 0, false)
    else Punch(at, false, u / 2, at + u / 2 * 2, c, if c == 0 then 0 else at - 41, 0, false)
  }

  /** In this second of an attempt a round is made. */
  predicate RoundAt(c: nat, u: nat) {
    c < 3 && u < 10 && u % 2 == 0
  }

  lemma AttemptStep(t0: nat, c: nat, u: nat, now: nat)
    requires t0 > 0 && u <= 50 && now == t0 + 51 * c + u + 1
    ensures var c', u' := if u < 50 then c else c + 1, if u < 50 then u + 1 else 0;
            Step(InAttempt(t0, c, u), Tick(false), true, now) == (InAttempt(t0, c', u'), RoundAt(c', u'))
  {
  }

  /** How many rounds have been made u seconds into attempt c. */
  function Made(c: nat, u: nat): nat {
    if c >= 3 then 15 else if u >= 8 then 5 * c + 5 else 5 * c + u / 2 + 1
  }

  /** When round j is made: five two seconds apart, three times over, 51 seconds apart. */
  function RoundTime(t0: nat, j: nat): nat {
    t0 + 51 * (j / 5) + j % 5 * 2
  }

  function RoundTimes(t0: nat, n: nat): seq<nat> {
    seq(n, j requires 0 <= j < n => RoundTime(t0, j))
  }

  lemma TimesMore(t0: nat, n: nat)
    ensures RoundTimes(t0, n + 1) == RoundTimes(t0, n) + [RoundTime(t0, n)]
  {
  }

  lemma NextRound(t0: nat, c: nat, u: nat, c': nat, u': nat)
    requires u <= 50 && (c', u') == (if u < 50 then (c, u + 1) else (c + 1, 0))
    ensures Made(c', u') == Made(c, u) + (if RoundAt(c', u') then 1 else 0)
    ensures RoundAt(c', u') ==> RoundTime(t0, Made(c, u)) == t0 + 51 * c' + u'
  {
    if RoundAt(c', u') { assert Made(c, u) == 5 * c' + u' / 2; }
  }

  /** A registration, and then a tick in every second. */
  function EverySecond(t0: nat, t: nat): seq<Timed> {
    seq(t + 1, j requires 0 <= j <= t =>
                 if j == 0 then Timed(Registered, true, t0) else Timed(Tick(false), true, t0 + j))
  }

  lemma SecondsMore(t0: nat, t: nat)
    ensures EverySecond(t0, t + 1) == EverySecond(t0, t) + [Timed(Tick(false), true, t0 + t + 1)]
  {
  }

  /** A peer with a usable address that registers once is punched at just these times: u seconds into attempt c, which
      begins 51 seconds after the one before, its fields and the rounds made so far are these. */
  lemma {:induction false} PunchedOnTime(t0: nat, c: nat, u: nat)
    requires t0 > 0 && u <= 50
    ensures Run(IDLE, EverySecond(t0, 51 * c + u)) == (InAttempt(t0, c, u), RoundTimes(t0, Made(c, u)))
    decreases c, u
  {
    hide *;
    if c == 0 && u == 0 {
      AtOnce(t0);
    } else {
      var c0, u0 := if u > 0 then c else c - 1, if u > 0 then u - 1 else 50;
      PunchedOnTime(t0, c0, u0);
      var t := 51 * c0 + u0;
      OneSecond(t0, t, c0, u0, c, u);
    }
  }

  lemma AtOnce(t0: nat)
    requires t0 > 0
    ensures Run(IDLE, EverySecond(t0, 0)) == (InAttempt(t0, 0, 0), RoundTimes(t0, Made(0, 0)))
  {
    var first := Timed(Registered, true, t0);
    RunMore([], first);
    assert [] + [first] == EverySecond(t0, 0) && RoundTimes(t0, 1) == [t0] == [] + [t0];
    assert Run(IDLE, []) == (IDLE, []) && Step(IDLE, Registered, true, t0) == (InAttempt(t0, 0, 0), true);
    hide Run, EverySecond, RoundTimes;
  }

  lemma OneSecond(t0: nat, t: nat, c: nat, u: nat, c': nat, u': nat)
    requires t0 > 0 && u <= 50 && t == 51 * c + u && (c', u') == (if u < 50 then (c, u + 1) else (c + 1, 0))
    requires Run(IDLE, EverySecond(t0, t)) == (InAttempt(t0, c, u), RoundTimes(t0, Made(c, u)))
    ensures Run(IDLE, EverySecond(t0, t + 1)) == (InAttempt(t0, c', u'), RoundTimes(t0, Made(c', u')))
  {
    hide *;
    var now := t0 + t + 1;
    AttemptStep(t0, c, u, now);
    NextRound(t0, c, u, c', u');
    RunMore(EverySecond(t0, t), Timed(Tick(false), true, now));
    TimesMore(t0, Made(c, u));
    SecondsMore(t0, t);
  }

  lemma RunMore(run: seq<Timed>, t: Timed)
    ensures var (q, fires) := Run(IDLE, run);
            var (r, fired) := Step(q, t.e, t.can, t.now);
            Run(IDLE, run + [t]) == (r, if fired then fires + [t.now] else fires)
  {
    assert (run + [t])[..|run|] == run;
    hide Step;
  }
}
