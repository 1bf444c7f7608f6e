/**
 The per-backend state machine on values: circuit breaker, admission phase and
 the in-flight counter. One value is the content of a backend's fields; each
 function is the effect of one method at one clock reading `now`.
 */
module Breaker {
  import opened Prelude

  datatype State = Unknown | Healthy | Degraded | Unhealthy | CircuitOpen

  datatype AdmitPhase = Warming | InPool | Parked

  /** The settings fixed when a backend is made; times are in nanoseconds. */
  datatype Limits = Limits(maxFails: int, failTimeout: int, openAfter: int, maxInflight: int)

  datatype BackendState = BackendState(
    id: int, lim: Limits,
    state: State, fails: nat, lastChange: int, openedAt: Option<int>,
    admit: AdmitPhase, egressIPv4: string, uniqueTries: nat,
    inflight: int)

  function ClampLimits(maxFails: int, failTimeout: int, openAfter: int, maxInflight: int): Limits {
    Limits(Max(maxFails, 1), failTimeout, openAfter, Max(maxInflight, 1))
  }

  function NewState(id: int, lim: Limits, now: int): BackendState {
    BackendState(id, lim, Unknown, 0, now, None, Warming, "", 0, 0)
  }

  // ---------------------------------------------------------------- queries

  /** Unhealthy for long enough, or open for long enough: the query lets one through. */
  predicate HalfOpens(b: BackendState, now: int) {
    || (b.state == Unhealthy && now - b.lastChange >= b.lim.failTimeout)
    || (b.state == CircuitOpen && b.openedAt.Some? && now - b.openedAt.value >= b.lim.openAfter)
  }

  /** The answer of a selectability query. */
  predicate Selectable(b: BackendState, now: int) {
    b.admit == InPool && (b.state in {Healthy, Degraded, Unknown} || HalfOpens(b, now))
  }

  /** What a selectability query leaves behind. */
  function Refreshed(b: BackendState, now: int): BackendState {
    if b.admit == InPool && HalfOpens(b, now) then
      if b.state == Unhealthy then b.(state := Degraded, lastChange := now)
      else b.(state := Degraded, fails := 0, lastChange := now, openedAt := None)
    else b
  }

  // ----------------------------------------------------------------- events

  function AfterSuccess(b: BackendState, now: int): BackendState {
    b.(fails := 0, state := Healthy, openedAt := None,
       lastChange := if b.state == Healthy then b.lastChange else now)
  }

  function AfterFailure(b: BackendState, now: int): BackendState {
    var c := b.(fails := b.fails + 1, lastChange := now);
    if c.fails >= b.lim.maxFails then c.(state := CircuitOpen, openedAt := Some(now))
    else if b.state in {Healthy, Unknown} then c.(state := Degraded)
    else c
  }

  function AfterProbeOK(b: BackendState, now: int): BackendState {
    b.(fails := 0, state := Healthy, lastChange := now, openedAt := None)
  }

  function AfterProbeFail(b: BackendState, now: int): BackendState {
    var c := AfterFailure(b, now);
    if c.state == Degraded && c.fails >= b.lim.maxFails then c.(state := Unhealthy) else c
  }

  /** One round of the prober that failed: the failed probe, then its own rule at three failures. */
  function AfterProbeRound(b: BackendState, now: int): BackendState {
    var c := AfterProbeFail(b, now);
    if c.fails >= 3 then Forced(c, Unhealthy, now) else c
  }

  function Forced(b: BackendState, s: State, now: int): BackendState {
    var c := b.(state := s, lastChange := now);
    var d := if s == CircuitOpen then c.(openedAt := Some(now)) else c;
    if s == Healthy then d.(fails := 0, openedAt := None) else d
  }

  function WithAdmit(b: BackendState, phase: AdmitPhase, ip: string, now: int): BackendState {
    b.(admit := phase, egressIPv4 := if ip != "" then ip else b.egressIPv4, lastChange := now)
  }

  datatype Event =
    | Success | Failure | ProbeOK | ProbeFail
    | Force(to: State)
    | Admission(phase: AdmitPhase, ip: string)
    | Query

  datatype Timed = Timed(at: int, ev: Event)

  function Apply(b: BackendState, e: Timed): BackendState {
    match e.ev
    case Success => AfterSuccess(b, e.at)
    case Failure => AfterFailure(b, e.at)
    case ProbeOK => AfterProbeOK(b, e.at)
    case ProbeFail => AfterProbeFail(b, e.at)
    case Force(s) => Forced(b, s, e.at)
    case Admission(p, ip) => WithAdmit(b, p, ip, e.at)
    case Query => Refreshed(b, e.at)
  }

  function Run(b: BackendState, es: seq<Timed>): BackendState {
    if es == [] then b else Apply(Run(b, es[..|es| - 1]), es[|es| - 1])
  }

  /** The states the rest of the program forces: the prober, the supervisor, the engine and the admin page. */
  predicate ForcedByCallers(es: seq<Timed>) {
    forall i :: 0 <= i < |es| && es[i].ev.Force? ==> es[i].ev.to in {Unknown, Unhealthy}
  }

  predicate Ordered(t0: int, es: seq<Timed>) {
    && (forall i :: 0 <= i < |es| ==> t0 <= es[i].at)
    && (forall i, j :: 0 <= i < j < |es| ==> es[i].at <= es[j].at)
  }

  // ---------------------------------------------------- query: small facts

  /** A second query at the same or a later time changes nothing that the first one did not. */
  lemma RefreshIsStable(b: BackendState, now: int, later: int)
    requires now <= later
    ensures Selectable(Refreshed(b, now), later) <==> Selectable(b, later)
    ensures Selectable(b, now) ==> Refreshed(Refreshed(b, now), later) == Refreshed(b, now)
    ensures Refreshed(b, now).inflight == b.inflight && Refreshed(b, now).lim == b.lim && Refreshed(b, now).id == b.id
    ensures !Selectable(b, now) ==> Refreshed(b, now) == b
  {}

  /** The Unhealthy branch after a failed probe is dead: a failed probe is a failure. */
  lemma ProbeFailIsFailure(b: BackendState, now: int)
    ensures AfterProbeFail(b, now) == AfterFailure(b, now)
  {}

  // ------------------------------------------------------------ history laws

  predicate IsFailure(e: Event) {
    e.Failure? || e.ProbeFail?
  }

  /** The events that clear the failure count in state `b`. */
  predicate Resets(b: BackendState, e: Timed) {
    || e.ev.Success? || e.ev.ProbeOK? || e.ev == Force(Healthy)
    || (e.ev.Query? && b.admit == InPool && b.state == CircuitOpen && HalfOpens(b, e.at))
  }

  function CountFailures(es: seq<Timed>): nat {
    if es == [] then 0
    else CountFailures(es[..|es| - 1]) + if IsFailure(es[|es| - 1].ev) then 1 else 0
  }

  /** `r` is where the current streak starts: just after the last reset, or at the beginning. */
  predicate StreakStart(b: BackendState, es: seq<Timed>, r: nat) {
    && r <= |es|
    && (r > 0 ==> Resets(Run(b, es[..r - 1]), es[r - 1]))
    && (forall j :: r <= j < |es| ==> !Resets(Run(b, es[..j]), es[j]))
  }

  /** An event that does not reset continues the streak. */
  lemma StreakGoesOn(b: BackendState, es: seq<Timed>, n: nat, r: nat)
    requires n + 1 == |es| && StreakStart(b, es[..n], r) && !Resets(Run(b, es[..n]), es[n])
    ensures StreakStart(b, es, r)
  {
    hide Resets, Run;
    forall j | r <= j < |es| ensures !Resets(Run(b, es[..j]), es[j]) {
      if j < n { assert es[..n][..j] == es[..j] && es[..n][j] == es[j]; }
    }
    if r > 0 { assert es[..n][..r - 1] == es[..r - 1]; }
  }

  lemma OneMoreEvent(b: BackendState, es: seq<Timed>, n: nat, r: nat)
    requires n + 1 == |es| && r <= n && !Resets(Run(b, es[..n]), es[n])
    requires Run(b, es[..n]).fails == CountFailures(es[..n][r..])
    ensures Run(b, es).fails == CountFailures(es[r..])
  {
    assert es[r..][..|es[r..]| - 1] == es[..n][r..];
  }

  /** The failure counter is exactly the number of failures since the last reset. */
  lemma {:induction false} FailsCountTheStreak(b: BackendState, es: seq<Timed>) returns (r: nat)
    requires b.fails == 0
    ensures StreakStart(b, es, r)
    ensures Run(b, es).fails == CountFailures(es[r..])
  {
    if es == [] {
      r := 0;
    } else {
      var n := |es| - 1;
      if Resets(Run(b, es[..n]), es[n]) {
        r := n + 1;
      } else {
        r := FailsCountTheStreak(b, es[..n]);
        hide Resets, Run, CountFailures;
        StreakGoesOn(b, es, n, r);
        OneMoreEvent(b, es, n, r);
      }
    }
  }

  /** The last failure of a trace, if there is one. */
  predicate LastFailureAt(es: seq<Timed>, t: int) {
    exists k :: 0 <= k < |es| && IsFailure(es[k].ev) && es[k].at == t
                && forall j :: k < j < |es| ==> !IsFailure(es[j].ev)
  }

  /** A fresh backend that only fails is degraded up to its limit and open from the limit on. */
  lemma {:induction false} OpensExactlyAtTheLimit(id: int, lim: Limits, t0: int, es: seq<Timed>)
    requires lim.maxFails >= 1 && forall i :: 0 <= i < |es| ==> IsFailure(es[i].ev)
    ensures var b := Run(NewState(id, lim, t0), es);
            && b.fails == |es|
            && b.state == (if |es| == 0 then Unknown else if |es| < lim.maxFails then Degraded else CircuitOpen)
  {
    if es != [] {
      OpensExactlyAtTheLimit(id, lim, t0, es[..|es| - 1]);
      RunKeepsIdentity(NewState(id, lim, t0), es[..|es| - 1]);
    }
  }

  /** Whatever came before, enough failures in a row open the circuit. */
  lemma {:induction false} FailuresInARowOpen(b: BackendState, es: seq<Timed>)
    requires forall i :: 0 <= i < |es| ==> IsFailure(es[i].ev)
    ensures Run(b, es).fails == b.fails + |es|
    ensures es != [] && b.fails + |es| >= b.lim.maxFails ==> Run(b, es).state == CircuitOpen
    ensures es != [] ==> Run(b, es).state !in {Unknown, Healthy}
  {
    if es != [] {
      var front := es[..|es| - 1];
      FailuresInARowOpen(b, front);
      RunKeepsIdentity(b, front);
    }
  }

  /** Healthy means a clean record, whatever anyone forces. */
  lemma {:induction false} HealthyIsClean(id: int, lim: Limits, t0: int, es: seq<Timed>)
    ensures var b := Run(NewState(id, lim, t0), es);
            b.state == Healthy ==> b.fails == 0 && b.openedAt == None
  {
    if es != [] {
      HealthyIsClean(id, lim, t0, es[..|es| - 1]);
    }
  }

  /** An open circuit has reached its limit, and its timer runs from the latest failure. */
  lemma {:induction false} OpenCircuitIsJustified(id: int, lim: Limits, t0: int, es: seq<Timed>)
    requires ForcedByCallers(es)
    ensures var b := Run(NewState(id, lim, t0), es);
            b.state == CircuitOpen ==>
              && b.fails >= lim.maxFails
              && b.openedAt.Some? && LastFailureAt(es, b.openedAt.value)
  {
    RunKeepsIdentity(NewState(id, lim, t0), es);
    if es != [] {
      var n := |es| - 1;
      var e := es[n];
      OpenCircuitIsJustified(id, lim, t0, es[..n]);
      RunKeepsIdentity(NewState(id, lim, t0), es[..n]);
      var b := Run(NewState(id, lim, t0), es);
      if b.state == CircuitOpen {
        if IsFailure(e.ev) {
          assert b.openedAt == Some(es[n].at);
        } else {
          var k :| 0 <= k < n && IsFailure(es[..n][k].ev) && es[..n][k].at == b.openedAt.value
                   && forall j :: k < j < n ==> !IsFailure(es[..n][j].ev);
          assert forall j :: k < j < |es| ==> !IsFailure(es[j].ev) by {
            assert forall j :: k < j < n ==> es[j] == es[..n][j];
          }
          assert es[k] == es[..n][k];
        }
      }
    }
  }

  lemma {:induction false} RunKeepsIdentity(b: BackendState, es: seq<Timed>)
    ensures Run(b, es).id == b.id && Run(b, es).lim == b.lim
  {
    if es != [] {
      RunKeepsIdentity(b, es[..|es| - 1]);
    }
  }

  // ---------------------------------------------- quarantine and recovery

  /** The backend is shut, and its timers started no earlier than `since`. */
  predicate ShutSince(b: BackendState, since: int) {
    || (b.state == Unhealthy && b.lastChange >= since)
    || (b.state == CircuitOpen && b.fails >= b.lim.maxFails && b.openedAt.Some? && b.openedAt.value >= since)
  }

  /** Every event comes less than `window` after the failure before it (or after `since`). */
  predicate Recurring(since: int, window: int, es: seq<Timed>)
    decreases |es|
  {
    es == [] ||
    (&& since <= es[0].at < since + window
     && Recurring(if IsFailure(es[0].ev) then es[0].at else since, window, es[1..]))
  }

  predicate NeverRescued(es: seq<Timed>) {
    forall i :: 0 <= i < |es| ==>
      IsFailure(es[i].ev) || es[i].ev == Force(Unhealthy) || es[i].ev.Admission? || es[i].ev.Query?
  }

  /** Every query along the run is answered no, and the run ends shut. */
  predicate Refused(b: BackendState, es: seq<Timed>)
    decreases |es|
  {
    if es == [] then b.state in {Unhealthy, CircuitOpen}
    else (es[0].ev.Query? ==> !Selectable(b, es[0].at)) && Refused(Apply(b, es[0]), es[1..])
  }

  /** While failures keep recurring inside both timeouts, no query ever lets the backend back in. */
  lemma {:induction false} Quarantine(b: BackendState, since: int, es: seq<Timed>)
    requires ShutSince(b, since)
    requires Recurring(since, Min(b.lim.failTimeout, b.lim.openAfter), es)
    requires NeverRescued(es)
    ensures Refused(b, es)
    decreases |es|
  {
    if es != [] {
      var e := es[0];
      var since' := if IsFailure(e.ev) then e.at else since;
      assert NeverRescued(es[1..]) by {
        assert forall i :: 0 <= i < |es[1..]| ==> es[1..][i] == es[i + 1];
      }
      Quarantine(Apply(b, e), since', es[1..]);
    }
  }

  /** The quarantine starts in every reachable shut state, counted from its last failure. */
  lemma QuarantineAfter(id: int, lim: Limits, t0: int, past: seq<Timed>, since: int, es: seq<Timed>)
    requires ForcedByCallers(past) && Ordered(t0, past) && LastFailureAt(past, since)
    requires Run(NewState(id, lim, t0), past).state in {Unhealthy, CircuitOpen}
    requires Recurring(since, Min(lim.failTimeout, lim.openAfter), es) && NeverRescued(es)
    ensures Refused(Run(NewState(id, lim, t0), past), es)
  {
    var b := Run(NewState(id, lim, t0), past);
    RunKeepsIdentity(NewState(id, lim, t0), past);
    OpenCircuitIsJustified(id, lim, t0, past);
    TimersFollowFailures(id, lim, t0, past, since);
    Quarantine(b, since, es);
  }

  /** A shut backend's timer never started before its last failure. */
  lemma {:induction false} TimersFollowFailures(id: int, lim: Limits, t0: int, es: seq<Timed>, t: int)
    requires Ordered(t0, es) && LastFailureAt(es, t)
    ensures Run(NewState(id, lim, t0), es).lastChange >= t
  {
    var n := |es| - 1;
    if !IsFailure(es[n].ev) {
      var k :| 0 <= k < |es| && IsFailure(es[k].ev) && es[k].at == t
               && forall j :: k < j < |es| ==> !IsFailure(es[j].ev);
      assert es[..n][k] == es[k];
      TimersFollowFailures(id, lim, t0, es[..n], t);
    }
  }

  /** From every reachable state, silence for the longer timeout makes an admitted backend selectable. */
  lemma {:induction false} Recovery(id: int, lim: Limits, t0: int, es: seq<Timed>, now: int)
    requires Ordered(t0, es)
    requires Run(NewState(id, lim, t0), es).admit == InPool
    requires now >= (if es == [] then t0 else es[|es| - 1].at) + Max(lim.failTimeout, lim.openAfter)
    ensures Selectable(Run(NewState(id, lim, t0), es), now)
  {
    TimersAreInThePast(id, lim, t0, es);
    RunKeepsIdentity(NewState(id, lim, t0), es);
  }

  lemma {:induction false} TimersAreInThePast(id: int, lim: Limits, t0: int, es: seq<Timed>)
    requires Ordered(t0, es)
    ensures var b := Run(NewState(id, lim, t0), es);
            var last := if es == [] then t0 else es[|es| - 1].at;
            && b.lastChange <= last
            && (b.state == CircuitOpen ==> b.openedAt.Some?)
            && (b.openedAt.Some? ==> b.openedAt.value <= last)
  {
    if es != [] {
      TimersAreInThePast(id, lim, t0, es[..|es| - 1]);
      TimersStayInThePast(Run(NewState(id, lim, t0), es[..|es| - 1]), es[|es| - 1]);
      hide Apply;
    }
  }

  lemma TimersStayInThePast(b: BackendState, e: Timed)
    requires b.lastChange <= e.at && (b.state == CircuitOpen ==> b.openedAt.Some?) && (b.openedAt.Some? ==> b.openedAt.value <= e.at)
    ensures var c := Apply(b, e);
            c.lastChange <= e.at && (c.state == CircuitOpen ==> c.openedAt.Some?) && (c.openedAt.Some? ==> c.openedAt.value <= e.at)
  {
    match e.ev
    case Failure => assert Apply(b, e) == AfterFailure(b, e.at);
    case ProbeFail => ProbeFailIsFailure(b, e.at);
    case Force(s) => assert Apply(b, e) == Forced(b, s, e.at);
    case Query => assert Apply(b, e) == Refreshed(b, e.at);
    case _ =>
  }
}
