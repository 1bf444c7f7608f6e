/** What each event does to a backend, and what follows for whole histories: the answers in terms of the events alone. */
module BreakerLaws {
  import opened Prelude
  import opened Breaker

  // ------------------------------------------------------------ one event

  /** The answer and the effect of a failure, in terms of the count it brings. */
  predicate Failed(b: BackendState, c: BackendState, at: int) {
    && c.fails == b.fails + 1
    && (c.fails < b.lim.maxFails ==>
          c.openedAt == b.openedAt && c.state == if b.state in {Healthy, Unknown} then Degraded else b.state)
    && (c.fails >= b.lim.maxFails ==> c.state == CircuitOpen && c.openedAt == Some(at))
  }

  predicate Healed(c: BackendState) {
    c.state == Healthy && c.fails == 0 && c.openedAt == None
  }

  predicate SameHealth(b: BackendState, c: BackendState) {
    c.state == b.state && c.fails == b.fails && c.openedAt == b.openedAt
  }

  /** The time of the last change: every event but a query sets it, save a success that finds the backend Healthy, and a query that lets it back in. */
  lemma ChangesAreTimed(b: BackendState, e: Timed)
    ensures Apply(b, e).lastChange ==
              if e.ev.Query? && !(b.state in {Unhealthy, CircuitOpen} && Selectable(b, e.at)) then b.lastChange
              else if e.ev.Success? && b.state == Healthy then b.lastChange
              else e.at
  {}

  /** What each kind of event does to the health of a backend in any state. */
  lemma EventsExactly(b: BackendState, e: Timed)
    ensures var c := Apply(b, e);
            match e.ev
            case Success => Healed(c)
            case ProbeOK => Healed(c)
            case Failure => Failed(b, c, e.at)
            case ProbeFail => Failed(b, c, e.at)
            case Force(s) =>
              && c.state == s
              && (s == Healthy ==> Healed(c))
              && (s == CircuitOpen ==> c.fails == b.fails && c.openedAt == Some(e.at))
              && (s !in {Healthy, CircuitOpen} ==> c.fails == b.fails && c.openedAt == b.openedAt)
            case Admission(_, _) => SameHealth(b, c)
            case Query =>
              if b.state in {Unhealthy, CircuitOpen} && Selectable(b, e.at) then
                && c.state == Degraded
                && (b.state == CircuitOpen ==> c.fails == 0 && c.openedAt == None)
                && (b.state == Unhealthy ==> c.fails == b.fails && c.openedAt == b.openedAt)
              else c == b
  {}

  /** `n` failed rounds of the prober, one at each of these times. */
  function ProbeRounds(b: BackendState, times: seq<int>): BackendState {
    if times == [] then b else AfterProbeRound(ProbeRounds(b, times[..|times| - 1]), times[|times| - 1])
  }

  /** A fresh backend whose probes all fail: Unhealthy from the third on, and until then degraded or, at its own limit, open. */
  lemma {:induction false} FailedProbesExactly(id: int, lim: Limits, t0: int, times: seq<int>)
    requires lim.maxFails >= 1
    ensures var (b, n) := (ProbeRounds(NewState(id, lim, t0), times), |times|);
            && b.fails == n && b.lim == lim
            && b.state == (if n == 0 then Unknown else if n >= 3 then Unhealthy else if n >= lim.maxFails then CircuitOpen else Degraded)
            && (n > 0 ==> b.lastChange == times[n - 1])
  {
    if times != [] {
      FailedProbesExactly(id, lim, t0, times[..|times| - 1]);
    }
  }

  // --------------------------------------------------- admission by history

  /** The phase of the last admission event, and the last tag that was not empty. */
  function LastPhase(es: seq<Timed>): AdmitPhase {
    if es == [] then Warming
    else if es[|es| - 1].ev.Admission? then es[|es| - 1].ev.phase
    else LastPhase(es[..|es| - 1])
  }

  function LastTag(es: seq<Timed>): string {
    if es == [] then ""
    else if es[|es| - 1].ev.Admission? && es[|es| - 1].ev.ip != "" then es[|es| - 1].ev.ip
    else LastTag(es[..|es| - 1])
  }

  /** Only admission events decide the phase and the tag; no event touches connections, attempts or limits. */
  lemma {:induction false} AdmissionsDecide(id: int, lim: Limits, t0: int, es: seq<Timed>)
    ensures var b := Run(NewState(id, lim, t0), es);
            && b.admit == LastPhase(es) && b.egressIPv4 == LastTag(es)
            && b.inflight == 0 && b.uniqueTries == 0 && b.id == id && b.lim == lim
  {
    if es != [] {
      AdmissionsDecide(id, lim, t0, es[..|es| - 1]);
    }
  }

  // ------------------------------------------------------ answers by history

  /** The last event that was not a query happened at `t`. */
  predicate LastActAt(es: seq<Timed>, t: int) {
    exists k :: 0 <= k < |es| && !es[k].ev.Query? && es[k].at == t && forall j :: k < j < |es| ==> es[j].ev.Query?
  }

  /** The timer of an Unhealthy backend runs from the last event that was not a query. */
  lemma {:induction false} UnhealthyTimer(id: int, lim: Limits, t0: int, es: seq<Timed>)
    ensures var b := Run(NewState(id, lim, t0), es);
            b.state == Unhealthy ==> LastActAt(es, b.lastChange)
  {
    if es != [] {
      var n := |es| - 1;
      UnhealthyTimer(id, lim, t0, es[..n]);
      var b := Run(NewState(id, lim, t0), es);
      if b.state == Unhealthy {
        if es[n].ev.Query? {
          QueryOfUnhealthy(Run(NewState(id, lim, t0), es[..n]), es[n].at);
          var k :| 0 <= k < n && !es[..n][k].ev.Query? && es[..n][k].at == b.lastChange
                   && forall j :: k < j < n ==> es[..n][j].ev.Query?;
          LastActLonger(es, n, k, b.lastChange);
        } else {
          assert es[n].at == b.lastChange;
        }
      }
    }
  }

  lemma QueryOfUnhealthy(b: BackendState, now: int)
    requires Refreshed(b, now).state == Unhealthy
    ensures Refreshed(b, now) == b
  {}

  lemma LastActLonger(es: seq<Timed>, n: nat, k: nat, t: int)
    requires n + 1 == |es| && es[n].ev.Query? && k < n
    requires !es[..n][k].ev.Query? && es[..n][k].at == t && forall j :: k < j < n ==> es[..n][j].ev.Query?
    ensures LastActAt(es, t)
  {
    assert es[k] == es[..n][k];
    forall j | k < j < |es| ensures es[j].ev.Query? {
      if j < n { assert es[j] == es[..n][j]; }
    }
  }

  lemma OneLastAct(es: seq<Timed>, t: int, u: int)
    requires LastActAt(es, t) && LastActAt(es, u)
    ensures t == u
  {}

  lemma OneLastFailure(es: seq<Timed>, t: int, u: int)
    requires LastFailureAt(es, t) && LastFailureAt(es, u)
    ensures t == u
  {}

  /** How long ago a shut backend must have been shut to be let back in, each state by its own timeout. */
  ghost predicate LetBackIn(state: State, lim: Limits, es: seq<Timed>, now: int) {
    match state
    case Unhealthy => exists t :: LastActAt(es, t) && now - t >= lim.failTimeout
    case CircuitOpen => exists t :: LastFailureAt(es, t) && now - t >= lim.openAfter
    case _ => true
  }

  /**
   When a backend is selectable, exactly, after any history: it was last admitted, and it is not shut, or
   was marked Unhealthy at least failTimeout ago, or failed for the last time at least openAfter ago.
   */
  lemma SelectableExactly(id: int, lim: Limits, t0: int, es: seq<Timed>, now: int)
    requires ForcedByCallers(es)
    ensures var b := Run(NewState(id, lim, t0), es);
            Selectable(b, now) <==> LastPhase(es) == InPool && LetBackIn(b.state, lim, es, now)
  {
    var b := Run(NewState(id, lim, t0), es);
    AdmissionsDecide(id, lim, t0, es);
    UnhealthyTimer(id, lim, t0, es);
    OpenCircuitIsJustified(id, lim, t0, es);
    hide Run, LastActAt, LastFailureAt, LastPhase;
    match b.state
    case Unhealthy =>
      forall t | LastActAt(es, t) ensures t == b.lastChange { OneLastAct(es, t, b.lastChange); }
    case CircuitOpen =>
      forall t | LastFailureAt(es, t) ensures t == b.openedAt.value { OneLastFailure(es, t, b.openedAt.value); }
    case _ =>
  }

  /** After a success or a good probe, fewer failures than the limit never make an admitted backend unselectable. */
  lemma {:induction false} ToleratesBelowLimit(b: BackendState, heal: Timed, es: seq<Timed>, now: int)
    requires heal.ev in {Success, ProbeOK} && b.admit == InPool
    requires forall i :: 0 <= i < |es| ==> !es[i].ev.Force? && !es[i].ev.Admission?
    requires CountFailures(es) < b.lim.maxFails
    ensures var c := Run(Apply(b, heal), es);
            && c.fails <= CountFailures(es) && c.state in {Healthy, Degraded} && c.admit == InPool && c.lim == b.lim
            && Selectable(c, now)
  {
    if es != [] {
      ToleratesBelowLimit(b, heal, es[..|es| - 1], now);
    }
  }

  // --------------------------------------------------- quarantine by state

  /** Every event comes within the timeout of the state it meets, counted from the failure before it (or from `since`). */
  predicate RecurringByState(b: BackendState, since: int, es: seq<Timed>)
    decreases |es|
  {
    es == [] ||
    (&& since <= es[0].at < since + (if b.state == Unhealthy then b.lim.failTimeout else b.lim.openAfter)
     && RecurringByState(Apply(b, es[0]), if IsFailure(es[0].ev) then es[0].at else since, es[1..]))
  }

  /** Each shut state holds for its own timeout: while failures recur within it, no query lets the backend back in. */
  lemma {:induction false} QuarantineByState(b: BackendState, since: int, es: seq<Timed>)
    requires ShutSince(b, since) && RecurringByState(b, since, es) && NeverRescued(es)
    ensures Refused(b, es)
    decreases |es|
  {
    if es != [] {
      assert NeverRescued(es[1..]) by {
        assert forall i :: 0 <= i < |es[1..]| ==> es[1..][i] == es[i + 1];
      }
      QuarantineByState(Apply(b, es[0]), if IsFailure(es[0].ev) then es[0].at else since, es[1..]);
    }
  }
}
