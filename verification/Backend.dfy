/** A backend as the object the data plane, the prober and the engine share. */
module Backends {
  import opened Prelude
  import opened Breaker

  class Backend {
    const id: int
    const lim: Limits
    var state: State
    var fails: nat
    var lastChange: int
    var openedAt: Option<int>
    var admit: AdmitPhase
    var egressIPv4: string
    var uniqueTries: nat
    var inflight: int

    ghost function View(): BackendState
      reads this
    {
      BackendState(id, lim, state, fails, lastChange, openedAt, admit, egressIPv4, uniqueTries, inflight)
    }

    constructor (id: int, maxFails: int, failTimeout: int, openAfter: int, maxInflight: int, now: int)
      ensures View() == NewState(id, ClampLimits(maxFails, failTimeout, openAfter, maxInflight), now)
      ensures state == Unknown && fails == 0 && openedAt == None && lastChange == now && inflight == 0
      ensures admit == Warming && egressIPv4 == "" && uniqueTries == 0
      ensures lim.maxFails == (if maxFails >= 1 then maxFails else 1) && lim.failTimeout == failTimeout
      ensures lim.maxInflight == (if maxInflight >= 1 then maxInflight else 1) && lim.openAfter == openAfter
    {
      this.id := id;
      var mf := if maxFails < 1 then 1 else maxFails;
      var mi := if maxInflight < 1 then 1 else maxInflight;
      lim := Limits(mf, failTimeout, openAfter, mi);
      state, admit, lastChange := Unknown, Warming, now;
      fails, openedAt, egressIPv4, uniqueTries, inflight := 0, None, "", 0, 0;
    }

    method HasCapacity() returns (r: bool)
      ensures r <==> View().inflight < View().lim.maxInflight
    {
      r := inflight < lim.maxInflight;
    }

    /** The query half-opens a shut backend whose timer has run out. */
    method IsSelectable(now: int) returns (r: bool)
      modifies this
      ensures r <==> Selectable(old(View()), now)
      ensures View() == Refreshed(old(View()), now)
    {
      if admit != InPool {
        return false;
      }
      match state
      case Healthy => r := true;
      case Degraded => r := true;
      case Unknown => r := true;
      case Unhealthy =>
        if now - lastChange >= lim.failTimeout {
          state := Degraded;
          lastChange := now;
          return true;
        }
        r := false;
      case CircuitOpen =>
        if openedAt.Some? && now - openedAt.value >= lim.openAfter {
          state := Degraded;
          fails := 0;
          lastChange := now;
          openedAt := None;
          return true;
        }
        r := false;
    }

    /** Takes one in-flight slot if the backend is selectable and has one. */
    method TryAcquire(now: int) returns (r: bool)
      modifies this
      ensures r <==> Selectable(old(View()), now) && old(inflight) < lim.maxInflight
      ensures View() == if r then Refreshed(old(View()), now).(inflight := old(inflight) + 1)
                        else Refreshed(old(View()), now)
    {
      var ok := IsSelectable(now);
      if !ok || inflight >= lim.maxInflight {
        return false;
      }
      inflight := inflight + 1;
      r := true;
    }

    method Release()
      modifies this
      ensures View() == old(View()).(inflight := old(inflight) - 1)
    {
      inflight := inflight - 1;
    }

    method MarkSuccess(now: int)
      modifies this
      ensures View() == Apply(old(View()), Timed(now, Success))
    {
      fails := 0;
      if state != Healthy {
        state := Healthy;
        lastChange := now;
      }
      openedAt := None;
    }

    method MarkFailure(now: int)
      modifies this
      ensures View() == Apply(old(View()), Timed(now, Failure))
    {
      fails := fails + 1;
      lastChange := now;
      if fails >= lim.maxFails {
        state := CircuitOpen;
        openedAt := Some(now);
      } else if state == Healthy || state == Unknown {
        state := Degraded;
      }
    }

    method MarkProbeOK(now: int)
      modifies this
      ensures View() == Apply(old(View()), Timed(now, ProbeOK))
    {
      fails := 0;
      state := Healthy;
      lastChange := now;
      openedAt := None;
    }

    method MarkProbeFail(now: int)
      modifies this
      ensures View() == Apply(old(View()), Timed(now, ProbeFail))
    {
      MarkFailure(now);
      state := if state == Degraded && fails >= lim.maxFails then Unhealthy else state;
    }

    /** One failed health probe: the failure, then the prober's own rule at three failures. */
    method ProbeFailed(now: int)
      modifies this
      ensures View() == AfterProbeRound(old(View()), now)
    {
      MarkProbeFail(now);
      if fails >= 3 {
        ForceState(Unhealthy, now);
      }
    }

    method ForceState(s: State, now: int)
      modifies this
      ensures View() == Apply(old(View()), Timed(now, Force(s)))
    {
      state := s;
      lastChange := now;
      if s == CircuitOpen {
        openedAt := Some(now);
      }
      if s == Healthy {
        fails := 0;
        openedAt := None;
      }
    }

    method SetAdmit(phase: AdmitPhase, ip: string, now: int)
      modifies this
      ensures View() == Apply(old(View()), Timed(now, Admission(phase, ip)))
    {
      admit := phase;
      if ip != "" {
        egressIPv4 := ip;
      }
      lastChange := now;
    }

    method IncUniqueAttempt() returns (n: nat)
      modifies this
      ensures View() == old(View()).(uniqueTries := old(uniqueTries) + 1)
      ensures n == uniqueTries
    {
      uniqueTries := uniqueTries + 1;
      n := uniqueTries;
    }
  }
}
