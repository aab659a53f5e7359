/** check_keepalive of edge.c: when a known peer is given up. */
module EdgeKeepalive {
  const IDLE_SECS := 8
  const RETRY_SECS := 2
  const MAX_FAILS := 3
  const GARP_SECS := 10

  /** The fields of peer_info that the check goes by; a time of 0 means never. */
  datatype Watch = Watch(lastSeen: int, directSeen: nat, probeSent: nat, fails: nat)

  /** How one hears of a known peer. */
  datatype Contact =
    | DirectFrame(heard: bool)
    | ProbeAck
    | Probe
    | Operational
    | Relayed(toUs: bool)

  predicate Direct(c: Contact) {
    !c.Relayed?
  }

  /** Only a frame or an answer straight from the peer resets the probing. */
  function Hear(w: Watch, c: Contact, now: nat): Watch {
    match c
    case DirectFrame(heard) => Watch(if heard then now else w.lastSeen, now, 0, 0)
    case ProbeAck => Watch(now, now, 0, 0)
    case Probe => w.(lastSeen := now, directSeen := now)
    case Operational => w.(lastSeen := now, directSeen := now)
    case Relayed(toUs) => if toUs then w.(lastSeen := now) else w
  }

  /** A peer that is only relayed; in gaming mode its mapping is kept fresh. */
  function CheckRelayed(w: Watch, gaming: bool, now: nat): Watch {
    if gaming && now - w.lastSeen >= GARP_SECS && (w.probeSent == 0 || now - w.probeSent >= GARP_SECS)
    then w.(probeSent := now) else w
  }

  /** One pass over the peer: its fields, and whether it was given up. */
  function Check(w: Watch, gaming: bool, can: bool, now: nat): (Watch, bool) {
    if w.directSeen == 0 then (CheckRelayed(w, gaming, now), false)
    else if now - w.directSeen < IDLE_SECS || now - w.lastSeen < IDLE_SECS || !can then (w, false)
    else if w.probeSent == 0 then (w.(probeSent := now), false)
    else if w.directSeen >= w.probeSent then (w.(probeSent := 0, fails := 0), false)
    else if now - w.probeSent < RETRY_SECS then (w, false)
    else if w.fails + 1 >= MAX_FAILS then (w.(directSeen := 0, probeSent := 0, fails := 0), true)
    else (w.(probeSent := 0, fails := w.fails + 1), false)
  }

  /** What is heard of a peer: anything straight from it is a contact; a frame or an answer ends the probing, a probe
      or a new path does not; and a frame through others only shows that it lives, if it is for us. */
  lemma HeardExactly(w: Watch, c: Contact, now: nat)
    ensures var v := Hear(w, c, now);
            var straight, ends := !c.Relayed?, c.DirectFrame? || c.ProbeAck?;
            && v.directSeen == (if straight then now else w.directSeen)
            && v.probeSent == (if ends then 0 else w.probeSent) && v.fails == (if ends then 0 else w.fails)
            && v.lastSeen == (if (c.DirectFrame? && !c.heard) || (c.Relayed? && !c.toUs) then w.lastSeen else now)
  {
  }

  /** A peer without direct contact is never given up; in gaming mode its mapping is kept fresh when it was silent for
      ten seconds, every ten seconds at most. */
  lemma RelayedExactly(w: Watch, gaming: bool, can: bool, now: nat)
    requires w.directSeen == 0
    ensures var sent := gaming && now >= w.lastSeen + 10 && (w.probeSent == 0 || now >= w.probeSent + 10);
            Check(w, gaming, can, now) == (if sent then w.(probeSent := now) else w, false)
  {
  }

  /** A known peer, with these of its fields. */
  class KnownPeer {
    var lastSeen: int
    var directSeen: nat
    var lastProbeSent: nat
    var keepaliveFails: nat

    function State(): Watch
      reads this
    {
      Watch(lastSeen, directSeen, lastProbeSent, keepaliveFails)
    }

    /** The body of the loop of check_keepalive. */
    method CheckKeepalive(gaming: bool, can: bool, now: nat) returns (gaveUp: bool)
      modifies this
      ensures (State(), gaveUp) == Check(old(State()), gaming, can, now)
    {
      gaveUp := false;
      var idle := now - lastSeen;
      if directSeen > 0 {
        if now - directSeen < IDLE_SECS { return; }
      } else {
        if gaming && idle >= GARP_SECS && (lastProbeSent == 0 || now - lastProbeSent >= GARP_SECS) {
          lastProbeSent := now;
        }
        return;
      }
      if idle < IDLE_SECS || !can { return; }
      if lastProbeSent == 0 {
        lastProbeSent := now;
      } else if directSeen >= lastProbeSent {
        lastProbeSent, keepaliveFails := 0, 0;
      } else if now - lastProbeSent >= RETRY_SECS {
        keepaliveFails := keepaliveFails + 1;
        lastProbeSent := 0;
        if keepaliveFails >= MAX_FAILS {
          directSeen, keepaliveFails := 0, 0;
          gaveUp := true;
        }
      }
    }
  }

  // ---------------------------------------------------------------- runs

  /** A pass of check_keepalive, in which the peer has a usable address or not, or a contact. */
  datatype Event = Pass(gaming: bool, can: bool) | Heard(c: Contact)

  datatype Timed = Timed(e: Event, now: nat)

  function Step(w: Watch, t: Timed): (Watch, bool) {
    match t.e
    case Pass(gaming, can) => Check(w, gaming, can, t.now)
    case Heard(c) => (Hear(w, c, t.now), false)
  }

  /** The fields after a run, and the times at which the peer was given up. */
  function Run(w: Watch, run: seq<Timed>): (Watch, seq<nat>)
    decreases |run|
  {
    if run == [] then (w, []) else
      var n := |run| - 1;
      var (v, ups) := Run(w, run[..n]);
      var (v', up) := Step(v, run[n]);
      (v', if up then ups + [run[n].now] else ups)
  }

  /** The clock does not go back. */
  ghost predicate Forward(from: nat, run: seq<Timed>) {
    && 0 < from && (forall i :: 0 <= i < |run| ==> from <= run[i].now)
    && forall i, j :: 0 <= i < j < |run| ==> run[i].now <= run[j].now
  }

  function Last(from: nat, run: seq<Timed>): nat {
    if run == [] then from else run[|run| - 1].now
  }

  /** Nothing lies in the future, the failures are below their limit, and a probe was only sent after silence. */
  ghost predicate WatchOk(w: Watch, now: nat) {
    && w.directSeen <= now && w.lastSeen <= now && w.probeSent <= now && w.fails < MAX_FAILS
    && (0 < w.directSeen < w.probeSent ==> w.directSeen + IDLE_SECS <= w.probeSent)
  }

  /** A peer is only given up when there was nothing straight from it for ten seconds, and nothing at all for eight. */
  lemma StepSound(w: Watch, t: Timed, before: nat)
    requires WatchOk(w, before) && 0 < before <= t.now
    ensures var (v, up) := Step(w, t);
            && WatchOk(v, t.now)
            && (up ==>
                  0 < w.directSeen <= t.now - IDLE_SECS - RETRY_SECS && w.lastSeen <= t.now - IDLE_SECS
                  && v == Watch(w.lastSeen, 0, 0, 0))
  {
  }

  lemma {:induction false} RunSound(w: Watch, from: nat, run: seq<Timed>)
    requires WatchOk(w, from) && Forward(from, run)
    ensures WatchOk(Run(w, run).0, Last(from, run))
    decreases |run|
  {
    if run != [] {
      var n := |run| - 1;
      RunSound(w, from, run[..n]);
      StepSound(Run(w, run[..n]).0, run[n], Last(from, run[..n]));
      hide Step, WatchOk;
    }
  }

  // ---------------------------------------------------------------- no sooner

  function IMax(a: int, b: int): int { if a >= b then a else b }

  /** When a peer can be given up at the earliest, if nothing more is heard straight from it. */
  function Soonest(w: Watch, now: nat): int {
    if w.directSeen < w.probeSent then w.probeSent + RETRY_SECS * (MAX_FAILS - w.fails)
    else
      IMax(w.directSeen + IDLE_SECS, now) + RETRY_SECS * (if w.probeSent == 0 then MAX_FAILS - w.fails else MAX_FAILS)
  }

  lemma StepNoSooner(w: Watch, t: Timed, before: nat)
    requires WatchOk(w, before) && 0 < before <= t.now && w.directSeen > 0 && (t.e.Heard? ==> !Direct(t.e.c))
    ensures var (v, up) := Step(w, t);
            if up then Soonest(w, before) <= t.now && v.directSeen == 0
            else v.directSeen == w.directSeen && Soonest(w, before) <= Soonest(v, t.now)
  {
  }

  /** Nothing is heard straight from the peer. */
  ghost predicate NoDirect(run: seq<Timed>) {
    forall i :: 0 <= i < |run| ==> (run[i].e.Heard? ==> !Direct(run[i].e.c))
  }

  /** Over any such run the peer is given up once at most, and not before that time. */
  lemma {:induction false} GivenUpNoSooner(w: Watch, from: nat, run: seq<Timed>)
    requires WatchOk(w, from) && Forward(from, run) && NoDirect(run) && w.directSeen > 0
    ensures var (v, ups) := Run(w, run);
            if ups == [] then v.directSeen == w.directSeen && Soonest(w, from) <= Soonest(v, Last(from, run))
            else |ups| == 1 && ups[0] >= Soonest(w, from) && v.directSeen == 0
    decreases |run|
  {
    if run != [] {
      var n := |run| - 1;
      GivenUpNoSooner(w, from, run[..n]);
      RunSound(w, from, run[..n]);
      var (v, ups) := Run(w, run[..n]);
      if ups == [] {
        StepNoSooner(v, run[n], Last(from, run[..n]));
        hide Step, Soonest, WatchOk;
      }
    }
  }

  // ---------------------------------------------------------------- no later

  /** When it is given up at the latest, with a pass at least every second, after one at `now`. */
  function Latest(w: Watch, now: nat): int {
    var quiet := IMax(IMax(w.directSeen, w.lastSeen) + IDLE_SECS, now + 1);
    if w.probeSent == 0 then quiet + 8 - 3 * w.fails
    else if w.directSeen < w.probeSent then IMax(quiet, w.probeSent + RETRY_SECS) + 6 - 3 * w.fails
    else quiet + 9
  }

  /** A pass over a silent peer that has a usable address; the one before was a second ago, or less. */
  lemma StepNoLater(w: Watch, t: Timed, before: nat)
    requires WatchOk(w, before) && 0 < before <= t.now <= before + 1 && w.directSeen > 0 && t.e.Pass? && t.e.can
    ensures var (v, up) := Step(w, t);
            && (if up then t.now <= Latest(w, before) else v.directSeen > 0 && Latest(v, t.now) <= Latest(w, before))
            && (t.now == before + 1 ==> (if up then t.now else Latest(v, t.now)) == Latest(w, before))
  {
  }

  lemma LatestIsAhead(w: Watch, now: nat)
    requires WatchOk(w, now) && w.directSeen > 0
    ensures now < Latest(w, now)
  {
  }

  ghost predicate EverySecond(from: nat, run: seq<Timed>) {
    && Forward(from, run)
    && forall i :: 0 <= i < |run| ==> run[i].e.Pass? && run[i].e.can && run[i].now <= Last(from, run[..i]) + 1
  }

  /** The passes come exactly every second. */
  ghost predicate OnceASecond(from: nat, run: seq<Timed>) {
    forall i :: 0 <= i < |run| ==> run[i].now == from + 1 + i
  }

  /** So a silent peer has been given up by then, and just then if there is one pass in every second. */
  lemma {:induction false} GivenUpNoLater(w: Watch, from: nat, run: seq<Timed>)
    requires WatchOk(w, from) && EverySecond(from, run) && w.directSeen > 0
    ensures var (v, ups) := Run(w, run);
            && (ups == [] ==> v.directSeen > 0 && Last(from, run) < Latest(v, Last(from, run)) <= Latest(w, from))
            && (ups != [] ==> ups[0] <= Latest(w, from))
            && (OnceASecond(from, run) ==> Latest(w, from) == if ups == [] then Latest(v, Last(from, run)) else ups[0])
    decreases |run|
  {
    hide Step, Latest, WatchOk, EverySecond;
    if run == [] {
      LatestIsAhead(w, from);
    } else {
      var n := |run| - 1;
      LastPass(from, run);
      GivenUpNoLater(w, from, run[..n]);
      RunSound(w, from, run[..n]);
      RunSound(w, from, run);
      var (v, ups) := Run(w, run[..n]);
      if ups == [] {
        StepNoLater(v, run[n], Last(from, run[..n]));
        if !Step(v, run[n]).1 { LatestIsAhead(Step(v, run[n]).0, run[n].now); }
      }
    }
  }

  lemma LastPass(from: nat, run: seq<Timed>)
    requires EverySecond(from, run) && run != []
    ensures var n := |run| - 1;
            && Forward(from, run) && EverySecond(from, run[..n]) && run[n].e.Pass? && run[n].e.can
            && 0 < Last(from, run[..n]) <= run[n].now <= Last(from, run[..n]) + 1
            && (OnceASecond(from, run) ==> OnceASecond(from, run[..n]) && run[n].now == Last(from, run[..n]) + 1)
  {
    var n := |run| - 1;
    assert forall i :: 0 <= i < n ==> run[..n][..i] == run[..i];
  }

  /** From any contact straight from the peer: fourteen seconds at least, as announced, unless it was a probe
      of the peer that came between two of ours; such a one leaves the failures counted.  At most seventeen. */
  lemma SilenceLasts(w: Watch, c: Contact, now: nat)
    requires WatchOk(w, now) && now > 0 && Direct(c)
    ensures var v := Hear(w, c, now);
            var kept := if (c.Probe? || c.Operational?) && w.probeSent == 0 then w.fails else 0;
            && WatchOk(v, now) && v.directSeen > 0
            && Soonest(v, now) == now + 14 - 2 * kept
            && Latest(v, now) <= now + 17 && (v.probeSent == 0 ==> Latest(v, now) == now + 16 - 3 * kept)
  {
  }

  // ---------------------------------------------------------------- a run that gives up early

  /** A run from the first contact ends at `now` with these fields, the peer not given up yet. */
  ghost predicate Reaches(run: seq<Timed>, w: Watch, now: nat) {
    Forward(1, run) && Last(1, run) == now && Run(Watch(0, 0, 0, 0), run) == (w, [])
  }

  lemma Then(run: seq<Timed>, w: Watch, before: nat, t: Timed)
    requires Reaches(run, w, before) && before <= t.now && !Step(w, t).1
    ensures Reaches(run + [t], Step(w, t).0, t.now)
  {
    assert (run + [t])[..|run|] == run;
    hide Step;
  }

  /** A run in which the peer is given up ten seconds after it sent a probe,
      with all that was heard from it straight. */
  lemma ProbeKeepsFailures() returns (run: seq<Timed>, w: Watch, last: Timed)
    ensures Reaches(run, w, 22) && w.directSeen == 14 && last == Timed(Pass(false, true), 24) && Step(w, last).1
  {
    var pass := Pass(false, true);
    run, w := [], Watch(0, 0, 0, 0);
    var todo := [Timed(Heard(Operational), 1), Timed(pass, 9), Timed(pass, 11), Timed(pass, 12), Timed(pass, 14),
                 Timed(Heard(Probe), 14), Timed(pass, 22)];
    var was := [Watch(1, 1, 0, 0), Watch(1, 1, 9, 0), Watch(1, 1, 0, 1), Watch(1, 1, 12, 1), Watch(1, 1, 0, 2),
                Watch(14, 14, 0, 2), Watch(14, 14, 22, 2)];
    var i := 0;
    while i < |todo|
      invariant 0 <= i <= |todo| && (i > 0 ==> w == was[i - 1]) && (i == 0 ==> w == Watch(0, 0, 0, 0))
      invariant Reaches(run, w, if i == 0 then 1 else todo[i - 1].now)
    {
      Then(run, w, if i == 0 then 1 else todo[i - 1].now, todo[i]);
      run, w, i := run + [todo[i]], Step(w, todo[i]).0, i + 1;
    }
    last := Timed(pass, 24);
  }
}
