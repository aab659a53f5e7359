/** The NAT refresh of edge.c: a probe window that is extended, rebuilt at most once, and then closed. */
module EdgeNat {
  const RETRY_SECS := 20
  const MAX_SECS := 90
  const FIRST_SECS := 15
  const REBUILD_MAX_TRIES := 1

  /** A refresh can take this long from its beginning. */
  const SETTLE_SECS := 2 * MAX_SECS - 2 + RETRY_SECS

  /** What acknowledgements, probes and mapping changes may alter at any time. */
  datatype Evidence = Evidence(unknown: bool, isFinal: bool, fcSeen: bool, fcWindow: bool, probePending: bool)

  /** The fields that only the refresh itself touches. */
  datatype Refresh = Refresh(revertAt: nat, start: nat, tries: nat)

  /** The probe window is still within its absolute cap. */
  predicate InCap(r: Refresh, now: nat) {
    r.start == 0 || now - r.start < MAX_SECS
  }

  /** Still nothing is known and there is something left to try. */
  predicate Undecided(e: Evidence, r: Refresh, now: nat) {
    e.unknown && !e.isFinal && InCap(r, now) && (e.fcSeen || e.fcWindow || r.tries < REBUILD_MAX_TRIES)
  }

  /** What one turn of the main loop does to the refresh; `rebound` says whether the sockets could be rebuilt. */
  function Turn(e: Evidence, r: Refresh, now: nat, rebound: bool): Refresh {
    if r.revertAt == 0 || now < r.revertAt then r
    else if Undecided(e, r, now) then
      if e.fcSeen || e.fcWindow then r.(revertAt := now + RETRY_SECS)
      else if rebound then Refresh(now + FIRST_SECS, now, r.tries + 1)
      else Refresh(0, 0, r.tries + 1)
    else if e.probePending && InCap(r, now) then r.(revertAt := now + RETRY_SECS)
    else r.(revertAt := 0, start := 0)
  }

  /** The refresh part of n2n_edge_t. */
  class NatEdge {
    var evidence: Evidence
    var revertAt: nat
    var refreshStart: nat
    var rebuildTries: nat

    constructor ()
      ensures Now() == Refresh(0, 0, 0)
    {
      evidence := Evidence(true, false, false, true, false);
      revertAt, refreshStart, rebuildTries := 0, 0, 0;
    }

    function Now(): Refresh
      reads this`revertAt, this`refreshStart, this`rebuildTries
    {
      Refresh(revertAt, refreshStart, rebuildTries)
    }

    /** Anything the network does between two turns. */
    method Observe(e: Evidence)
      modifies this`evidence
      ensures evidence == e
    {
      evidence := e;
    }

    /** nat_refresh_rebuild */
    method Rebuild(now: nat, rebound: bool) returns (ret: int)
      modifies this`evidence, this`revertAt, this`refreshStart
      ensures ret == if rebound then 0 else -1
      ensures Now() == (if rebound then Refresh(now + FIRST_SECS, now, old(rebuildTries))
                         else Refresh(0, 0, old(rebuildTries)))
      ensures evidence == Evidence(true, false, false, true, false)
    {
      evidence := Evidence(true, false, false, true, false);
      if !rebound {
        revertAt, refreshStart := 0, 0;
        return -1;
      }
      refreshStart := now;
      revertAt := now + FIRST_SECS;
      ret := 0;
    }

    /** The management command "n". */
    method Command(now: nat, rebound: bool)
      modifies this
      ensures Now() == if rebound then Refresh(now + FIRST_SECS, now, 0) else Refresh(0, 0, 0)
    {
      rebuildTries := 0;
      var ret := Rebuild(now, rebound);
    }

    /** The probe-window block of the main loop. */
    method MainLoopTurn(now: nat, rebound: bool)
      modifies this
      ensures Now() == Turn(old(evidence), old(Now()), now, rebound)
      ensures old(Now()).revertAt != 0 && Now().revertAt == 0 && old(rebuildTries) == rebuildTries ==> evidence.isFinal
    {
      if revertAt != 0 && now >= revertAt {
        if evidence.unknown && !evidence.isFinal
           && (refreshStart == 0 || now - refreshStart < MAX_SECS)
           && (evidence.fcSeen || evidence.fcWindow || rebuildTries < REBUILD_MAX_TRIES)
        {
          if evidence.fcSeen || evidence.fcWindow {
            revertAt := now + RETRY_SECS;
            if evidence.fcWindow { evidence := evidence.(probePending := false); }
          } else {
            rebuildTries := rebuildTries + 1;
            var ret := Rebuild(now, rebound);
          }
        } else if evidence.probePending && (refreshStart == 0 || now - refreshStart < MAX_SECS) {
          revertAt := now + RETRY_SECS;
        } else {
          revertAt, refreshStart := 0, 0;
          evidence := evidence.(isFinal := true, probePending := false);
        }
      }
    }

    /** Turn after turn of the main loop, with anything the network does in between. */
    method Turns(run: seq<Step>)
      modifies this
      ensures Now() == After(old(Now()), run)
    {
      var i := 0;
      assert run[..0] == [];
      while i < |run|
        invariant 0 <= i <= |run| && Now() == After(old(Now()), run[..i])
      {
        assert run[..i + 1][..i] == run[..i];
        Observe(run[i].evidence);
        MainLoopTurn(run[i].now, run[i].rebound);
        i := i + 1;
      }
      assert run[..i] == run;
    }

    /** The command, and then turns that reach far enough: the refresh is over. */
    method RefreshAndSettle(from: nat, rebound: bool, run: seq<Step>)
      requires Ticking(from, run) && run != [] && run[|run| - 1].now >= from + SETTLE_SECS
      modifies this
      ensures revertAt == 0
    {
      Command(from, rebound);
      Turns(run);
      if rebound {
        RefreshSettles(from, run, |run| - 1);
      } else {
        StaysSettled(Refresh(0, 0, 0), run);
      }
    }
  }

  // ---------------------------------------------------------------- whole runs

  /** One turn of a run: when, on what evidence, and whether a rebuild would succeed. */
  datatype Step = Step(now: nat, evidence: Evidence, rebound: bool)

  /** The refresh after the turns of a run, with no "n" command among them. */
  function After(r: Refresh, run: seq<Step>): Refresh
    decreases |run|
  {
    if run == [] then r
    else
      var n := |run| - 1;
      Turn(run[n].evidence, After(r, run[..n]), run[n].now, run[n].rebound)
  }

  /** The clock does not go back, and starts after the epoch. */
  ghost predicate Ticking(from: nat, run: seq<Step>) {
    && 0 < from && (forall i :: 0 <= i < |run| ==> from <= run[i].now)
    && forall i, j :: 0 <= i < j < |run| ==> run[i].now <= run[j].now
  }

  /** While a refresh runs: one rebuild at most, within the cap of the first window; the timer within
      one extension of the cap of the present window. */
  ghost predicate Bounded(r: Refresh, from: nat) {
    r.revertAt != 0 ==>
      && r.tries <= REBUILD_MAX_TRIES && 0 < r.start <= from + r.tries * (MAX_SECS - 1)
      && r.revertAt <= r.start + MAX_SECS - 1 + RETRY_SECS
  }

  lemma {:induction false} RunBounded(r: Refresh, from: nat, run: seq<Step>)
    requires Ticking(from, run) && Bounded(r, from)
    ensures Bounded(After(r, run), from)
    decreases |run|
  {
    if run != [] {
      var n := |run| - 1;
      RunBounded(r, from, run[..n]);
    }
  }

  /** Every refresh settles: whatever happens in between, after the first turn that comes SETTLE_SECS
      (198 seconds) or more after its beginning it is over, and it stays over. */
  lemma {:induction false} RefreshSettles(from: nat, run: seq<Step>, i: nat)
    requires Ticking(from, run) && i < |run| && run[i].now >= from + SETTLE_SECS
    ensures After(Refresh(from + FIRST_SECS, from, 0), run).revertAt == 0
    decreases |run|
  {
    var r, n := Refresh(from + FIRST_SECS, from, 0), |run| - 1;
    if i < n {
      RefreshSettles(from, run[..n], i);
    } else {
      RunBounded(r, from, run[..n]);
    }
  }

  /** The bound cannot be lowered: a run that is still open one second earlier. */
  lemma BoundIsTight(from: nat) returns (run: seq<Step>)
    requires 0 < from
    ensures Ticking(from, run) && run != [] && run[|run| - 1].now == from + SETTLE_SECS - 1
    ensures After(Refresh(from + FIRST_SECS, from, 0), run).revertAt == from + SETTLE_SECS
  {
    var lost, open := Evidence(true, false, false, false, false), Evidence(true, false, true, false, false);
    var a, b := Step(from + 89, lost, true), Step(from + 178, open, true);
    var c := Step(from + SETTLE_SECS - 1, open, true);
    run := [a, b, c];
    var r := Refresh(from + FIRST_SECS, from, 0);
    assert run[..2][..1] == [a] && [a][..0] == [] && run[..2] == [a, b];
    assert After(r, []) == r;
    assert After(r, [a]) == Refresh(from + 104, from + 89, 1);
    assert After(r, [a, b]) == Refresh(from + 198, from + 89, 1);
  }

  /** Without a command nothing starts by itself. */
  lemma {:induction false} StaysSettled(r: Refresh, run: seq<Step>)
    requires r.revertAt == 0
    ensures After(r, run) == r
    decreases |run|
  {
    if run != [] { StaysSettled(r, run[..|run| - 1]); }
  }

  // ---------------------------------------------------------------- one turn, written out

  /** Before the timer a turn does nothing.  From then on it goes on while nothing is known and something can still be
      tried within ninety seconds: evidence that may come, or one rebuild without it; or while a check is pending.
      Otherwise, or if the sockets cannot be rebuilt, the refresh is over. */
  lemma TurnExactly(e: Evidence, r: Refresh, now: nat, rebound: bool)
    requires now > 0
    ensures var r' := Turn(e, r, now, rebound);
            var open := r.start == 0 || now < r.start + 90;
            var waits := e.fcSeen || e.fcWindow;
            var hopes := e.unknown && !e.isFinal && open && (waits || r.tries < 1);
            && (r.revertAt == 0 || now < r.revertAt ==> r' == r)
            && (r.revertAt != 0 && now >= r.revertAt ==>
                  && (r'.revertAt != 0 <==> (if hopes then waits || rebound else e.probePending && open))
                  && (r'.revertAt != 0 ==> r'.revertAt == (if hopes && !waits then now + 15 else now + 20))
                  && r'.tries == (if hopes && !waits then r.tries + 1 else r.tries)
                  && r'.start == (if r'.revertAt == 0 then 0 else if hopes && !waits then now else r.start))
  {
  }

  /** So no refresh is over before its first fifteen seconds, and while nothing is known, the evidence may still come
      and the ninety seconds last, it is not over at all. */
  lemma {:induction false} NotOverSoon(from: nat, run: seq<Step>)
    requires Ticking(from, run)
    requires forall i :: 0 <= i < |run| ==>
               run[i].now < from + 15
               || (run[i].now < from + 90 && run[i].evidence.unknown && !run[i].evidence.isFinal
                   && (run[i].evidence.fcSeen || run[i].evidence.fcWindow))
    ensures var r := After(Refresh(from + FIRST_SECS, from, 0), run); r.revertAt >= from + 15 && r.start == from
    decreases |run|
  {
    if run != [] {
      var n := |run| - 1;
      NotOverSoon(from, run[..n]);
      TurnExactly(run[n].evidence, After(Refresh(from + FIRST_SECS, from, 0), run[..n]), run[n].now, run[n].rebound);
      hide Turn;
    }
  }
}
