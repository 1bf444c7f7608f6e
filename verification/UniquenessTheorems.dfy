/** The engine's promises, each for every run of ticks and rechecks from a fresh start. */
module UniquenessTheorems {
  import opened Prelude
  import opened Breaker
  import opened Uniqueness
  import opened UniquenessRuns

  // ------------------------------------------------------------ quiescence

  /** The engine quiesces: it acts on its backends at most so often, for ever. */
  lemma EngineQuiesces(cfg: Config, n: nat, steps: seq<Step>)
    requires AllFit(n, steps)
    ensures |EngineRun(cfg, Init(n), steps).history| <= n * (2 * RecheckMax(cfg) + MaxAttempts(cfg) + 2)
  {
    RunKeepsInv(cfg, n, steps);
    var e := EngineRun(cfg, Init(n), steps);
    forall i | 0 <= i < n ensures 0 <= Shares(cfg, Work, e.slots)[i] {
      assert SlotInv(cfg, e.history, i, e.slots[i]);
    }
    SumZero(Shares(cfg, Work, e.slots));
  }

  // -------------------------------------------------------------- counters

  lemma {:induction false} PhasesPartition(cfg: Config, slots: seq<Slot>)
    ensures Total(cfg, Pooled, slots) + Total(cfg, WarmingUp, slots) + Total(cfg, ParkedAway, slots) == |slots|
  {
    if slots != [] {
      var n := |slots| - 1;
      PhasesPartition(cfg, slots[..n]);
      forall q ensures Shares(cfg, q, slots)[..n] == Shares(cfg, q, slots[..n]) {}
    }
  }

  /** Backends are conserved, the admission counters account for the pool, and only strict mode parks. */
  lemma PopulationIsAccounted(cfg: Config, n: nat, steps: seq<Step>)
    requires AllFit(n, steps)
    ensures var e := EngineRun(cfg, Init(n), steps);
            && Total(cfg, Pooled, e.slots) + Total(cfg, WarmingUp, e.slots) + Total(cfg, ParkedAway, e.slots) == n
            && Total(cfg, Pooled, e.slots) == e.stats.admittedUnique + e.stats.admittedResidual - Evictions(e.history)
            && (cfg.effort && cfg.strict ==> e.stats.admittedResidual == 0)
            && (!cfg.strict ==> forall i :: 0 <= i < n ==> e.slots[i].phase != Parked)
  {
    RunKeepsInv(cfg, n, steps);
    var e := EngineRun(cfg, Init(n), steps);
    PhasesPartition(cfg, e.slots);
    forall i | 0 <= i < n && !cfg.strict ensures e.slots[i].phase != Parked {
      assert SlotInv(cfg, e.history, i, e.slots[i]);
    }
  }

  /** Registrations are redone a bounded number of times per backend, for ever, and every one is accounted for. */
  lemma ReregistrationsAreBounded(cfg: Config, n: nat, steps: seq<Step>, i: nat)
    requires AllFit(n, steps) && i < n
    ensures var e := EngineRun(cfg, Init(n), steps);
            && TickStarts(e.history, i) <= MaxAttempts(cfg)
            && RecheckStarts(e.history, i) <= RecheckMax(cfg)
            && e.slots[i].tries == CollisionsOf(e.history, i) <= MaxAttempts(cfg) + 1 + RecheckMax(cfg)
            && e.stats.reregAttempts == e.stats.reregSuccess + e.stats.reregFail == |Starts(e.history)|
            && e.stats.collisions == Total(cfg, Tries, e.slots)
  {
    RunKeepsInv(cfg, n, steps);
    var e := EngineRun(cfg, Init(n), steps);
    assert SlotInv(cfg, e.history, i, e.slots[i]);
  }

  // ---------------------------------------------------------------- pacing

  lemma {:induction false} SpacedSpan(gap: nat, ts: seq<int>)
    requires Spaced(gap, ts) && ts != []
    ensures ts[|ts| - 1] - ts[0] >= (|ts| - 1) * gap
  {
    if |ts| > 1 {
      var n := |ts| - 1;
      assert Spaced(gap, ts[..n]) by {
        forall k | 0 <= k < |ts[..n]| - 1 ensures ts[..n][k + 1] - ts[..n][k] >= gap {
          assert ts[k + 1] - ts[k] >= gap;
        }
      }
      SpacedSpan(gap, ts[..n]);
      assert ts[n - 1 + 1] - ts[n - 1] >= gap;
      assert n * gap == (n - 1) * gap + gap;
    }
  }

  /** With a positive stagger, the k-th registration starts at least (k - 1) staggers after the first, ticks and rechecks together. */
  lemma RegistrationsAreStaggered(cfg: Config, n: nat, steps: seq<Step>)
    requires AllFit(n, steps) && Stagger(cfg) > 0
    ensures var ts := Starts(EngineRun(cfg, Init(n), steps).history);
            && Spaced(Stagger(cfg), ts)
            && (ts != [] ==> ts[|ts| - 1] - ts[0] >= (|ts| - 1) * Stagger(cfg))
  {
    RunKeepsInv(cfg, n, steps);
    var ts := Starts(EngineRun(cfg, Init(n), steps).history);
    if ts != [] { SpacedSpan(Stagger(cfg), ts); }
  }

  lemma TimesMonotone(x: nat, m: nat, n: nat)
    requires m <= n
    ensures x * m <= x * n
  {
    assert x * n == x * m + x * (n - m);
  }

  lemma InRangeIsItself(x: int)
    requires 0 <= x <= INT64_MAX
    ensures x % (2 * (INT64_MAX + 1)) == x
  {}

  /** Bases below 2^60 ns cannot overflow the shift. */
  lemma ShiftsBelowOverflow(base: nat, n: nat)
    requires base < 0x1000_0000_0000_0000 && n <= 3
    ensures ShiftLeft(base, n) == base * Pow2(n) && 1 <= Pow2(n) <= 8
  {
    Pow2Grows(n, 3);
    assert Pow2(3) == 2 * Pow2(2) && Pow2(2) == 2 * Pow2(1) && Pow2(1) == 2 * Pow2(0);
    TimesMonotone(base, Pow2(n), 8);
    hide Pow2;
    InRangeIsItself(base * Pow2(n));
  }

  lemma {:induction false} Pow2Grows(m: nat, n: nat)
    requires m <= n
    ensures 1 <= Pow2(m) <= Pow2(n)
    decreases n
  {
    if n > 0 { Pow2Grows(if m == 0 then 0 else m - 1, n - 1); }
  }

  /** The backoff grows with the attempt, from the base (or a minute) to eight times it (or a minute). */
  ghost predicate BackoffLaw(cfg: Config) {
    var base, minute := BackoffBase(cfg), 60 * NS_PER_SECOND;
    && (forall a, b :: a <= b ==> AttemptBackoff(cfg, a) <= AttemptBackoff(cfg, b))
    && (forall a :: Min(base, minute) <= AttemptBackoff(cfg, a) <= Min(8 * base, minute))
  }

  /** A 64-bit base keeps the law exactly when it is below 2^60 ns; from there on some attempt's shift overflows. */
  lemma BackoffIsMonotoneAndCapped(cfg: Config)
    requires BackoffBase(cfg) <= INT64_MAX
    ensures BackoffLaw(cfg) <==> BackoffBase(cfg) < 0x1000_0000_0000_0000
  {
    hide AttemptBackoff, BackoffBase;
    if BackoffBase(cfg) < 0x1000_0000_0000_0000 {
      forall a, b | a <= b
        ensures AttemptBackoff(cfg, a) <= AttemptBackoff(cfg, b)
        ensures Min(BackoffBase(cfg), 60 * NS_PER_SECOND) <= AttemptBackoff(cfg, a)
             <= Min(8 * BackoffBase(cfg), 60 * NS_PER_SECOND)
      {
        SmallBackoff(cfg, a, b);
      }
      forall a
        ensures Min(BackoffBase(cfg), 60 * NS_PER_SECOND) <= AttemptBackoff(cfg, a)
             <= Min(8 * BackoffBase(cfg), 60 * NS_PER_SECOND)
      {
        SmallBackoff(cfg, a, a);
      }
    } else {
      var a := HugeBackoff(cfg);
      assert AttemptBackoff(cfg, a) < 0;
    }
  }

  /** A base of 2^60 ns or more has an attempt whose backoff comes out negative. */
  lemma HugeBackoff(cfg: Config) returns (a: int)
    requires 0x1000_0000_0000_0000 <= BackoffBase(cfg) <= INT64_MAX
    ensures AttemptBackoff(cfg, a) < 0
  {
    var base := BackoffBase(cfg);
    assert Pow2(1) == 2 * Pow2(0) && Pow2(2) == 2 * Pow2(1) && Pow2(3) == 2 * Pow2(2);
    hide Pow2, BackoffBase;
    a := if base < 0x2000_0000_0000_0000 then 4 else if base < 0x4000_0000_0000_0000 then 3 else 2;
    InTopHalf(base * Pow2(a - 1));
  }

  lemma InTopHalf(x: int)
    requires INT64_MAX < x < 2 * (INT64_MAX + 1)
    ensures x % (2 * (INT64_MAX + 1)) == x
  {}

  lemma SmallBackoff(cfg: Config, a: int, b: int)
    requires BackoffBase(cfg) < 0x1000_0000_0000_0000 && a <= b
    ensures AttemptBackoff(cfg, a) <= AttemptBackoff(cfg, b)
    ensures var base, minute := BackoffBase(cfg), 60 * NS_PER_SECOND;
            Min(base, minute) <= AttemptBackoff(cfg, a) <= Min(8 * base, minute)
  {
    hide Pow2, ShiftLeft, BackoffBase;
    var base := BackoffBase(cfg);
    var (x, y) := (if a < 1 then 1 else a, if b < 1 then 1 else b);
    var (sx, sy) := (if x - 1 > 3 then 3 else x - 1, if y - 1 > 3 then 3 else y - 1);
    ShiftsBelowOverflow(base, sx);
    ShiftsBelowOverflow(base, sy);
    Pow2Grows(sx, sy);
    TimesMonotone(base, 1, Pow2(sx));
    TimesMonotone(base, Pow2(sx), Pow2(sy));
    TimesMonotone(base, Pow2(sx), 8);
  }

  // ------------------------------------------- what leaves a backend alone

  lemma {:induction false} TickLeavesAlone(cfg: Config, e: Engine, now: int, vs: seq<Visit>, i: nat, j: nat)
    requires |vs| == |e.slots| && j < |e.slots|
    requires e.slots[j].phase != Warming || Waiting(e.slots[j], now)
    ensures Tick(cfg, e, now, vs, i).slots[j] == e.slots[j]
    decreases |vs| - i
  {
    if i < |vs| && !vs[i].cancelled {
      var f := VisitSlot(cfg, e, i, now, vs[i]);
      if Acts(e.slots[i], now, vs[i]) { VisitShape(cfg, e, i, now, vs[i]); }
      hide VisitSlot;
      TickLeavesAlone(cfg, f, now, vs, i + 1, j);
    }
  }

  /** The eviction loop as a whole: at most one backend, and a shadowed one, goes back to warming up. */
  predicate Harmless(a: seq<Slot>, b: seq<Slot>) {
    && |a| == |b|
    && (forall i :: 0 <= i < |a| && a[i].phase != b[i].phase ==> a[i].phase == InPool && b[i].phase == Warming && Shadowed(a, i))
    && (forall i, j :: 0 <= i < |a| && 0 <= j < |a| && a[i].phase != b[i].phase && a[j].phase != b[j].phase ==> i == j)
    && (forall i :: 0 <= i < |a| ==> b[i].ip == a[i].ip)
    && (forall i :: 0 <= i < |a| && a[i].phase != InPool ==> b[i] == a[i])
  }

  lemma {:induction false} EvictionIsHarmless(cfg: Config, e: Engine, cs: seq<nat>, ws: seq<Visit>, k: nat)
    requires |ws| == |e.slots| && AllShadowed(e.slots, cs)
    ensures Harmless(e.slots, Evict(cfg, e, cs, ws, k).slots)
    decreases |cs| - k
  {
    hide Harmless, SentAgain;
    if k < |cs| && RecheckMax(cfg) > 0 {
      var c, w := cs[k], ws[cs[k]];
      assert Shadowed(e.slots, c);
      if !MayEvict(cfg, e.slots[c], w) {
        EvictionIsHarmless(cfg, e, cs, ws, k + 1);
      } else if !StaggerOver(cfg, e, w.start) {
        PutOff(e, c, w.done + Stagger(cfg), cs);
        var f := e.(slots := e.slots[c := e.slots[c].(retry := Some(w.done + Stagger(cfg)))]);
        EvictionIsHarmless(cfg, f, cs, ws, k + 1);
        HarmlessAfterPutOff(e.slots, f.slots, Evict(cfg, f, cs, ws, k + 1).slots, c);
      } else {
        SendingIsHarmless(cfg, e, c, w);
      }
    } else {
      NothingIsHarmless(e.slots);
    }
  }

  lemma NothingIsHarmless(a: seq<Slot>)
    ensures Harmless(a, a)
  {}

  lemma SendingIsHarmless(cfg: Config, e: Engine, c: nat, w: Visit)
    requires Shadowed(e.slots, c)
    ensures Harmless(e.slots, SentAgain(cfg, e, c, w).slots)
  {
    hide AttemptBackoff;
  }

  lemma HarmlessAfterPutOff(a: seq<Slot>, f: seq<Slot>, b: seq<Slot>, c: nat)
    requires |f| == |a| && c < |a| && a[c].phase == InPool
    requires f == a[c := a[c].(retry := f[c].retry)]
    requires Harmless(f, b)
    ensures Harmless(a, b)
  {
    ShadowsOf(a, f);
  }

  lemma ShadowsOf(a: seq<Slot>, b: seq<Slot>)
    requires |a| == |b| && forall i :: 0 <= i < |a| ==> a[i].phase == b[i].phase && a[i].ip == b[i].ip
    ensures forall c: nat :: Shadowed(b, c) ==> Shadowed(a, c)
  {
    forall c: nat | Shadowed(b, c) ensures Shadowed(a, c) {
      var j :| 0 <= j < c && b[j].phase == InPool && b[j].ip == b[c].ip;
      assert a[j].phase == InPool && a[j].ip == a[c].ip;
    }
  }

  /** A harmless change keeps every tag in use and the lowest admitted backend in place. */
  lemma HarmlessKeepsDiversity(a: seq<Slot>, b: seq<Slot>)
    requires Harmless(a, b)
    ensures UsedIPs(b) == UsedIPs(a)
    ensures forall low :: 0 <= low < |a| && a[low].phase == InPool && (forall j :: 0 <= j < low ==> a[j].phase != InPool)
              ==> b[low].phase == InPool
    ensures NonEmptyPool(b) <==> NonEmptyPool(a)
  {
    forall ip | ip in UsedIPs(a) ensures ip in UsedIPs(b) {
      var i :| 0 <= i < |a| && a[i].phase == InPool && a[i].ip != "" && a[i].ip == ip;
      KeeperOf(a, b, i);
    }
    forall ip | ip in UsedIPs(b) ensures ip in UsedIPs(a) {
      var i :| 0 <= i < |b| && b[i].phase == InPool && b[i].ip != "" && b[i].ip == ip;
      assert a[i].ip == ip && a[i].phase == InPool;
    }
    if NonEmptyPool(a) {
      var i :| 0 <= i < |a| && a[i].phase == InPool;
      KeeperOf(a, b, i);
    }
  }

  /** Some backend with the same tag stays admitted. */
  lemma KeeperOf(a: seq<Slot>, b: seq<Slot>, i: nat)
    requires Harmless(a, b) && i < |a| && a[i].phase == InPool
    ensures exists j :: 0 <= j < |b| && b[j].phase == InPool && b[j].ip == a[i].ip
  {
    if b[i].phase != InPool {
      assert Shadowed(a, i);
      var j :| 0 <= j < i && a[j].phase == InPool && a[j].ip == a[i].ip;
      assert b[j].phase == InPool && b[j].ip == a[j].ip;
    } else {
      assert b[i].ip == a[i].ip;
    }
  }

  lemma NothingSeen(slots: seq<Slot>)
    ensures RetagInv(slots, 0, map[], [])
  {}

  /** A recheck refreshes tags without moving anyone, then makes one harmless change. */
  lemma RecheckNeverEmptiesThePool(cfg: Config, e: Engine, at: int, vs: seq<Visit>, ws: seq<Visit>)
    returns (refreshed: seq<Slot>)
    requires |vs| == |ws| == |e.slots| && NonEmptyProbes(vs)
    ensures var f := Recheck(cfg, e, at, vs, ws);
            && |refreshed| == |e.slots|
            && (forall i :: 0 <= i < |e.slots| ==> refreshed[i] == e.slots[i].(ip := refreshed[i].ip))
            && (forall i :: 0 <= i < |e.slots| && e.slots[i].phase != InPool ==> refreshed[i] == e.slots[i])
            && Harmless(refreshed, f.slots) && UsedIPs(f.slots) == UsedIPs(refreshed)
            && (NonEmptyPool(f.slots) <==> NonEmptyPool(e.slots))
  {
    hide Evict, Retag, UsedIPs, Harmless, NonEmptyPool, AllShadowed, Cosmetic;
    refreshed := e.slots;
    if RecheckDue(cfg, e, at) {
      var f := e.(lastRecheck := Some(at), stats := e.stats.(recheckRuns := e.stats.recheckRuns + 1));
      var (g, cs, completed) := Retag(f, vs, 0, map[], []);
      NothingSeen(f.slots);
      RetagFindsShadows(f, vs, 0, map[], []);
      RetagOnlyTags(f, vs, 0, map[], []);
      refreshed := g.slots;
      EvictionIsHarmless(cfg, g, cs, ws, 0);
    }
    NothingIsHarmless(refreshed);
    HarmlessKeepsDiversity(refreshed, Recheck(cfg, e, at, vs, ws).slots);
    SamePool(e.slots, refreshed);
  }

  lemma SamePool(a: seq<Slot>, b: seq<Slot>)
    requires |a| == |b| && forall i :: 0 <= i < |a| ==> b[i] == a[i].(ip := b[i].ip)
    ensures NonEmptyPool(b) <==> NonEmptyPool(a)
  {
    if NonEmptyPool(a) {
      var i :| 0 <= i < |a| && a[i].phase == InPool;
      assert b[i].phase == InPool;
    }
    if NonEmptyPool(b) {
      var i :| 0 <= i < |b| && b[i].phase == InPool;
      assert a[i].phase == InPool;
    }
  }

  lemma {:induction false} RetagOnlyTags(e: Engine, vs: seq<Visit>, i: nat, seen: map<string, nat>, cs: seq<nat>)
    requires |vs| == |e.slots| && forall k :: 0 <= k < |cs| ==> cs[k] < |e.slots|
    ensures var f := Retag(e, vs, i, seen, cs).0;
            forall j :: 0 <= j < |e.slots| ==>
              f.slots[j] == e.slots[j].(ip := f.slots[j].ip) && (e.slots[j].phase != InPool ==> f.slots[j] == e.slots[j])
    decreases |vs| - i
  {
    if i < |vs| && !vs[i].cancelled {
      if !Rechecked(e.slots[i], vs[i]) {
        RetagOnlyTags(e, vs, i + 1, seen, cs);
      } else {
        var (f, seen', cs') := Tagged(e, i, vs[i].probe.value, seen, cs);
        RetagOnlyTags(f, vs, i + 1, seen', cs');
      }
    }
  }

  /** A pool that is not empty stays so under any steps, from any state. */
  lemma {:induction false} PoolStaysNonEmpty(cfg: Config, e: Engine, steps: seq<Step>)
    requires AllFit(|e.slots|, steps) && NonEmptyPool(e.slots)
    ensures NonEmptyPool(EngineRun(cfg, e, steps).slots)
  {
    if steps != [] {
      var k := |steps| - 1;
      PoolStaysNonEmpty(cfg, e, steps[..k]);
      StepKeepsPoolNonEmpty(cfg, EngineRun(cfg, e, steps[..k]), steps[k]);
    }
  }

  lemma StepKeepsPoolNonEmpty(cfg: Config, e: Engine, st: Step)
    requires Fits(|e.slots|, st) && NonEmptyPool(e.slots)
    ensures NonEmptyPool(Perform(cfg, e, st).slots)
  {
    hide Tick, Recheck;
    match st
    case TickStep(now, vs) =>
      var j :| 0 <= j < |e.slots| && e.slots[j].phase == InPool;
      TickLeavesAlone(cfg, e, now, vs, 0, j);
      assert Tick(cfg, e, now, vs, 0).slots[j].phase == InPool;
    case RecheckStep(at, vs, ws) =>
      var refreshed := RecheckNeverEmptiesThePool(cfg, e, at, vs, ws);
  }

  /** Over whole runs, the first-admit flag is set exactly when the pool is non-empty. */
  lemma FlagMeansNonEmptyPool(cfg: Config, n: nat, steps: seq<Step>)
    requires AllFit(n, steps)
    ensures var e := EngineRun(cfg, Init(n), steps); e.firstOK <==> NonEmptyPool(e.slots)
  {
    RunKeepsInv(cfg, n, steps);
  }

  // ------------------------------------------------------------- absorption

  /** A step cannot touch a backend that is parked, is waiting, or is admitted where nothing can register again. */
  predicate Untouchable(cfg: Config, s: Slot, st: Step) {
    || s.phase == Parked
    || (s.phase == Warming && (st.TickStep? ==> Waiting(s, st.now)))
    || (s.phase == InPool && !cfg.managed)
  }

  lemma StepLeavesUntouchable(cfg: Config, e: Engine, st: Step, j: nat)
    requires Fits(|e.slots|, st) && j < |e.slots| && Untouchable(cfg, e.slots[j], st)
    ensures Perform(cfg, e, st).slots[j] == e.slots[j]
  {
    match st
    case TickStep(now, vs) => TickLeavesAlone(cfg, e, now, vs, 0, j);
    case RecheckStep(at, vs, ws) =>
      var refreshed := RecheckNeverEmptiesThePool(cfg, e, at, vs, ws);
  }

  /**
   Parked for good; in attach mode admitted for good; and a backend sent to register again, or put off,
   is left alone by everything until its time: whole runs leave its slot exactly as it is.
   */
  lemma {:induction false} UntouchableForWholeRuns(cfg: Config, e: Engine, steps: seq<Step>, j: nat)
    requires AllFit(|e.slots|, steps) && j < |e.slots|
    requires forall k :: 0 <= k < |steps| ==> Untouchable(cfg, e.slots[j], steps[k])
    ensures EngineRun(cfg, e, steps).slots[j] == e.slots[j]
  {
    if steps != [] {
      var n := |steps| - 1;
      UntouchableForWholeRuns(cfg, e, steps[..n], j);
      StepLeavesUntouchable(cfg, EngineRun(cfg, e, steps[..n]), steps[n], j);
    }
  }

  /** After a tick starts a registration, the backend waits out its backoff, counted from the end of the registration. */
  lemma StartSetsTheBackoff(cfg: Config, e: Engine, i: nat, now: int, v: Visit)
    requires i < |e.slots| && Acts(e.slots[i], now, v)
    requires VisitSlot(cfg, e, i, now, v).history == e.history + [TickStart(i, v.start, v.regOk)]
    ensures var s := VisitSlot(cfg, e, i, now, v).slots[i];
            && s.phase == Warming
            && s.tries == e.slots[i].tries + 1 <= MaxAttempts(cfg)
            && s.retry == Some(v.done + AttemptBackoff(cfg, s.tries))
  {
    VisitShape(cfg, e, i, now, v);
    var h := VisitSlot(cfg, e, i, now, v).history;
    assert h[|e.history|] == TickStart(i, v.start, v.regOk);
    hide UsedIPs, AttemptBackoff;
  }

  /** So no later step handles it before then: the rest of the run leaves it exactly as the start did. */
  lemma BackoffIsHonoured(cfg: Config, e: Engine, i: nat, now: int, v: Visit, steps: seq<Step>)
    requires i < |e.slots| && Acts(e.slots[i], now, v) && AllFit(|e.slots|, steps)
    requires VisitSlot(cfg, e, i, now, v).history == e.history + [TickStart(i, v.start, v.regOk)]
    requires forall k :: 0 <= k < |steps| && steps[k].TickStep? ==>
               steps[k].now < v.done + AttemptBackoff(cfg, e.slots[i].tries + 1)
    ensures var f := VisitSlot(cfg, e, i, now, v); EngineRun(cfg, f, steps).slots[i] == f.slots[i]
  {
    StartSetsTheBackoff(cfg, e, i, now, v);
    hide VisitSlot, AttemptBackoff;
    UntouchableForWholeRuns(cfg, VisitSlot(cfg, e, i, now, v), steps, i);
  }

  // ------------------------------------------------------------ completeness

  /** Still warming up, past its retry time, not shut, and reached by the probe. */
  predicate IsReady(s: Slot, now: int, v: Visit) {
    && s.phase == Warming && (s.retry.Some? ==> now >= s.retry.value)
    && v.health != Unhealthy && v.health != CircuitOpen && v.probe.Some?
  }

  lemma ReadyIsActing(s: Slot, now: int, v: Visit)
    ensures IsReady(s, now, v) <==> Acts(s, now, v)
  {}

  /** The backends a tick finds ready, in order, up to the first cancellation. */
  function Ready(slots: seq<Slot>, now: int, vs: seq<Visit>, i: nat): seq<nat>
    requires |vs| == |slots|
    decreases |vs| - i
  {
    if i >= |vs| || vs[i].cancelled then []
    else if IsReady(slots[i], now, vs[i]) then [i] + Ready(slots, now, vs, i + 1)
    else Ready(slots, now, vs, i + 1)
  }

  function Subjects(rs: seq<Record>): seq<nat> {
    seq(|rs|, k requires 0 <= k < |rs| => rs[k].i)
  }

  lemma {:induction false} ReadySame(a: seq<Slot>, b: seq<Slot>, now: int, vs: seq<Visit>, i: nat)
    requires |vs| == |a| == |b| && forall j :: i <= j < |a| ==> a[j] == b[j]
    ensures Ready(a, now, vs, i) == Ready(b, now, vs, i)
    decreases |vs| - i
  {
    if i < |vs| && !vs[i].cancelled { ReadySame(a, b, now, vs, i + 1); }
  }

  /** A history that goes on from `b`, which is `a` and one record, goes on from `a` with that record. */
  lemma OneMoreSubject(a: seq<Record>, b: seq<Record>, h: seq<Record>)
    requires |b| == |a| + 1 && b[..|a|] == a && |h| >= |b| && h[..|b|] == b
    ensures h[..|a|] == a && Subjects(h[|a|..]) == [b[|a|].i] + Subjects(h[|b|..])
  {
    assert h[..|a|] == h[..|b|][..|a|];
    assert h[|a|] == h[..|b|][|a|];
    assert h[|a|..] == [b[|a|]] + h[|b|..];
  }

  /** A tick acts on every ready backend and on no other, once each, in order of id. */
  lemma {:induction false} TickActsOnExactlyTheReady(cfg: Config, e: Engine, now: int, vs: seq<Visit>, i: nat)
    requires |vs| == |e.slots|
    ensures var h := Tick(cfg, e, now, vs, i).history;
            && |h| >= |e.history| && h[..|e.history|] == e.history
            && Subjects(h[|e.history|..]) == Ready(e.slots, now, vs, i)
    decreases |vs| - i
  {
    if i < |vs| && !vs[i].cancelled {
      var f := VisitSlot(cfg, e, i, now, vs[i]);
      ReadyIsActing(e.slots[i], now, vs[i]);
      if Acts(e.slots[i], now, vs[i]) { VisitShape(cfg, e, i, now, vs[i]); }
      hide VisitSlot, Acts, IsReady;
      TickActsOnExactlyTheReady(cfg, f, now, vs, i + 1);
      ReadySame(e.slots, f.slots, now, vs, i + 1);
      var h := Tick(cfg, f, now, vs, i + 1).history;
      hide Tick, Ready, Subjects;
      if Acts(e.slots[i], now, vs[i]) {
        OneMoreSubject(e.history, f.history, h);
      }
    }
  }

  /** Admitted, known to work, and reached by the probe. */
  predicate Reached(s: Slot, v: Visit) {
    s.phase == InPool && v.health != Unknown && v.health != Unhealthy && v.health != CircuitOpen && v.probe.Some?
  }

  lemma ReachedIsRechecked(s: Slot, v: Visit)
    ensures Reached(s, v) <==> Rechecked(s, v)
  {}

  /** Reached in the pool at `i`, with an address that an earlier one was probed with. */
  ghost predicate Doubled(slots: seq<Slot>, vs: seq<Visit>, i: nat)
    requires |vs| == |slots|
  {
    && i < |vs| && Reached(slots[i], vs[i])
    && exists j :: 0 <= j < i && Reached(slots[j], vs[j]) && vs[j].probe == vs[i].probe
  }

  /** What the refresh loop has when it has done the places below `i` of `slots`. */
  ghost predicate RetagExact(slots: seq<Slot>, vs: seq<Visit>, i: nat, seen: map<string, nat>, cs: seq<nat>)
    requires |vs| == |slots|
  {
    && (forall ip :: ip in seen <==> exists j :: 0 <= j < i && j < |vs| && Reached(slots[j], vs[j]) && vs[j].probe == Some(ip))
    && (forall c: nat :: c in cs <==> c < i && Doubled(slots, vs, c))
    && (forall a, b :: 0 <= a < b < |cs| ==> cs[a] < cs[b])
  }

  /** The doubled backends, all of them and no other, in ascending order. */
  ghost predicate ReportsExactly(slots: seq<Slot>, vs: seq<Visit>, colliders: seq<nat>)
    requires |vs| == |slots|
  {
    && (forall c: nat :: c in colliders <==> Doubled(slots, vs, c))
    && (forall a, b :: 0 <= a < b < |colliders| ==> colliders[a] < colliders[b])
  }

  lemma ExactEnd(slots: seq<Slot>, vs: seq<Visit>, seen: map<string, nat>, cs: seq<nat>)
    requires |vs| == |slots| && RetagExact(slots, vs, |vs|, seen, cs)
    ensures ReportsExactly(slots, vs, cs)
  {}

  lemma ExactStep(slots: seq<Slot>, vs: seq<Visit>, i: nat, seen: map<string, nat>, cs: seq<nat>)
    requires |vs| == |slots| && i < |vs| && RetagExact(slots, vs, i, seen, cs)
    ensures !Reached(slots[i], vs[i]) ==> RetagExact(slots, vs, i + 1, seen, cs)
    ensures Reached(slots[i], vs[i]) ==> (vs[i].probe.value in seen <==> Doubled(slots, vs, i))
  {}

  lemma ExactRepeat(slots: seq<Slot>, vs: seq<Visit>, i: nat, seen: map<string, nat>, cs: seq<nat>)
    requires |vs| == |slots| && i < |vs| && RetagExact(slots, vs, i, seen, cs)
    requires Reached(slots[i], vs[i]) && Doubled(slots, vs, i)
    ensures RetagExact(slots, vs, i + 1, seen, cs + [i])
  {
    forall c: nat ensures c in cs + [i] <==> c < i + 1 && Doubled(slots, vs, c) {
      assert c in cs <==> c < i && Doubled(slots, vs, c);
    }
    forall a, b | 0 <= a < b < |cs + [i]| ensures (cs + [i])[a] < (cs + [i])[b] {
      assert cs[a] in cs;
    }
  }

  lemma ExactFirst(slots: seq<Slot>, vs: seq<Visit>, i: nat, seen: map<string, nat>, cs: seq<nat>)
    requires |vs| == |slots| && i < |vs| && RetagExact(slots, vs, i, seen, cs)
    requires Reached(slots[i], vs[i]) && !Doubled(slots, vs, i)
    ensures RetagExact(slots, vs, i + 1, seen[vs[i].probe.value := i], cs)
  {
    forall c: nat ensures c in cs <==> c < i + 1 && Doubled(slots, vs, c) {
      assert c in cs <==> c < i && Doubled(slots, vs, c);
    }
  }

  lemma {:induction false} CollidersAreExact(e: Engine, slots: seq<Slot>, vs: seq<Visit>, i: nat, seen: map<string, nat>, cs: seq<nat>)
    requires |vs| == |e.slots| == |slots| && i <= |vs| && (forall k :: 0 <= k < |cs| ==> cs[k] < |vs|)
    requires forall j :: i <= j < |vs| ==> e.slots[j] == slots[j]
    requires RetagExact(slots, vs, i, seen, cs)
    ensures Retag(e, vs, i, seen, cs).2 ==> ReportsExactly(slots, vs, Retag(e, vs, i, seen, cs).1)
    decreases |vs| - i
  {
    hide RetagExact, Doubled, ReportsExactly;
    if i == |vs| {
      ExactEnd(slots, vs, seen, cs);
    } else if !vs[i].cancelled {
      ExactStep(slots, vs, i, seen, cs);
      ReachedIsRechecked(e.slots[i], vs[i]);
      if !Reached(e.slots[i], vs[i]) {
        CollidersAreExact(e, slots, vs, i + 1, seen, cs);
      } else {
        var (f, seen', cs') := Tagged(e, i, vs[i].probe.value, seen, cs);
        if vs[i].probe.value in seen {
          ExactRepeat(slots, vs, i, seen, cs);
        } else {
          ExactFirst(slots, vs, i, seen, cs);
        }
        CollidersAreExact(f, slots, vs, i + 1, seen', cs');
      }
    }
  }

  /** A completed recheck pass finds every shared address: it reports exactly the probed backends an earlier one shares with. */
  lemma RecheckFindsEveryCollision(e: Engine, vs: seq<Visit>)
    requires |vs| == |e.slots|
    ensures Retag(e, vs, 0, map[], []).2 ==> ReportsExactly(e.slots, vs, Retag(e, vs, 0, map[], []).1)
  {
    CollidersAreExact(e, e.slots, vs, 0, map[], []);
  }

  /** Some collider from the `k`-th on has budget, is not waiting, and is free of the stagger at its time. */
  predicate CanSend(cfg: Config, e: Engine, cs: seq<nat>, ws: seq<Visit>, k: nat)
    requires |ws| == |e.slots| && forall j :: 0 <= j < |cs| ==> cs[j] < |e.slots|
  {
    exists j :: k <= j < |cs| && MayEvict(cfg, e.slots[cs[j]], ws[cs[j]]) && StaggerOver(cfg, e, ws[cs[j]].start)
  }

  /** A recheck pass sends one backend to register again exactly when there is one it may send, and never two. */
  lemma {:induction false} OneIsSentWhenOneCanBe(cfg: Config, e: Engine, cs: seq<nat>, ws: seq<Visit>, k: nat)
    requires |ws| == |e.slots| && (forall j :: 0 <= j < |cs| ==> cs[j] < |e.slots|) && k <= |cs|
    requires forall a, b :: 0 <= a < b < |cs| ==> cs[a] < cs[b]
    ensures |Evict(cfg, e, cs, ws, k).history| == |e.history| + if CanSend(cfg, e, cs, ws, k) then 1 else 0
    decreases |cs| - k
  {
    if k < |cs| && RecheckMax(cfg) > 0 {
      var c, w := cs[k], ws[cs[k]];
      if !MayEvict(cfg, e.slots[c], w) {
        OneIsSentWhenOneCanBe(cfg, e, cs, ws, k + 1);
      } else if !StaggerOver(cfg, e, w.start) {
        var f := e.(slots := e.slots[c := e.slots[c].(retry := Some(w.done + Stagger(cfg)))]);
        OneIsSentWhenOneCanBe(cfg, f, cs, ws, k + 1);
        assert forall j :: k < j < |cs| ==> f.slots[cs[j]] == e.slots[cs[j]];
      }
    }
  }

  // -------------------------------------------------------------- diversity

  predicate OnlyTicks(steps: seq<Step>) {
    forall k :: 0 <= k < |steps| ==> steps[k].TickStep?
  }

  /** Every tag in use was counted once as unique. */
  predicate TagInv(e: Engine) {
    |UsedIPs(e.slots)| == e.stats.admittedUnique && (e.firstOK <==> NonEmptyPool(e.slots))
  }

  lemma TagsAfter(slots: seq<Slot>, i: nat, s: Slot)
    requires i < |slots| && slots[i].phase != InPool
    ensures UsedIPs(slots[i := s])
         == UsedIPs(slots) + if s.phase == InPool && s.ip != "" then {s.ip} else {}
  {
    var after := slots[i := s];
    forall ip | ip in UsedIPs(slots) ensures ip in UsedIPs(after) {
      var j :| 0 <= j < |slots| && slots[j].phase == InPool && slots[j].ip != "" && slots[j].ip == ip;
      assert after[j] == slots[j];
    }
    if s.phase == InPool && s.ip != "" {
      assert after[i].ip == s.ip;
    }
    forall ip | ip in UsedIPs(after)
      ensures ip in UsedIPs(slots) || (s.phase == InPool && ip == s.ip)
    {
      var j :| 0 <= j < |after| && after[j].phase == InPool && after[j].ip != "" && after[j].ip == ip;
      if j != i { assert slots[j] == after[j]; }
    }
  }

  lemma OneMoreTag(tags: set<string>, ip: string)
    ensures |tags + {ip}| == |tags| + if ip in tags then 0 else 1
  {
    if ip in tags { assert tags + {ip} == tags; }
  }

  lemma EmptyPoolHasNoTags(slots: seq<Slot>)
    requires !NonEmptyPool(slots)
    ensures UsedIPs(slots) == {}
  {}

  /** The unique counter moves exactly with an admission that brings a new tag. */
  lemma VisitTags(cfg: Config, e: Engine, i: nat, now: int, v: Visit)
    requires cfg.effort && i < |e.slots| && Acts(e.slots[i], now, v) && v.probe.value != ""
    ensures var e' := VisitSlot(cfg, e, i, now, v);
            var admitted := e'.slots[i].phase == InPool;
            && (admitted ==> e'.slots[i].ip == v.probe.value)
            && (!e.firstOK || v.probe.value !in UsedIPs(e.slots) ==> admitted)
            && e'.stats.admittedUnique == e.stats.admittedUnique
               + if !e.firstOK || v.probe.value !in UsedIPs(e.slots) then 1 else 0
  {
    hide UsedIPs, AttemptBackoff;
  }

  lemma VisitKeepsTags(cfg: Config, e: Engine, i: nat, now: int, v: Visit)
    requires cfg.effort && i < |e.slots| && (v.probe.Some? ==> v.probe.value != "") && TagInv(e)
    ensures TagInv(VisitSlot(cfg, e, i, now, v))
  {
    if !Acts(e.slots[i], now, v) {
      assert VisitSlot(cfg, e, i, now, v) == e;
    } else {
      hide VisitSlot, UsedIPs, NonEmptyPool;
      var e' := VisitSlot(cfg, e, i, now, v);
      VisitShape(cfg, e, i, now, v);
      VisitKeepsFirst(cfg, e, i, now, v);
      VisitTags(cfg, e, i, now, v);
      TagsAfter(e.slots, i, e'.slots[i]);
      if !e.firstOK { EmptyPoolHasNoTags(e.slots); }
      hide Acts, OneAct, VisitSlot;
      OneMoreTag(UsedIPs(e.slots), v.probe.value);
    }
  }

  lemma {:induction false} TickKeepsTags(cfg: Config, e: Engine, now: int, vs: seq<Visit>, i: nat)
    requires cfg.effort && |vs| == |e.slots| && NonEmptyProbes(vs) && TagInv(e)
    ensures TagInv(Tick(cfg, e, now, vs, i))
    decreases |vs| - i
  {
    hide TagInv, VisitSlot;
    if i < |vs| && !vs[i].cancelled {
      VisitKeepsTags(cfg, e, i, now, vs[i]);
      TickKeepsTags(cfg, VisitSlot(cfg, e, i, now, vs[i]), now, vs, i + 1);
    }
  }

  lemma {:induction false} TicksKeepTags(cfg: Config, n: nat, steps: seq<Step>)
    requires cfg.effort && AllFit(n, steps) && OnlyTicks(steps)
    ensures TagInv(EngineRun(cfg, Init(n), steps))
    ensures Evictions(EngineRun(cfg, Init(n), steps).history) == 0
  {
    if steps == [] {
      assert UsedIPs(Init(n).slots) == {};
    } else {
      var k := |steps| - 1;
      TicksKeepTags(cfg, n, steps[..k]);
      var e := EngineRun(cfg, Init(n), steps[..k]);
      TickKeepsTags(cfg, e, steps[k].now, steps[k].vs, 0);
      TickEvictsNobody(cfg, e, steps[k].now, steps[k].vs, 0);
    }
  }

  lemma {:induction false} TickEvictsNobody(cfg: Config, e: Engine, now: int, vs: seq<Visit>, i: nat)
    requires |vs| == |e.slots|
    ensures Evictions(Tick(cfg, e, now, vs, i).history) == Evictions(e.history)
    decreases |vs| - i
  {
    if i < |vs| && !vs[i].cancelled {
      var f := VisitSlot(cfg, e, i, now, vs[i]);
      if Acts(e.slots[i], now, vs[i]) {
        VisitShape(cfg, e, i, now, vs[i]);
        ActMoves(cfg, e, f, i);
        assert !f.history[|e.history|].RecheckStart?;
      }
      hide VisitSlot, Evictions;
      TickEvictsNobody(cfg, f, now, vs, i + 1);
    }
  }

  predicate DistinctTags(slots: seq<Slot>) {
    forall i, j :: 0 <= i < j < |slots| && slots[i].phase == InPool && slots[j].phase == InPool ==> slots[i].ip != slots[j].ip
  }

  /** There are at most as many tags as admitted backends, and as many exactly when no two share one. */
  lemma {:induction false} TagsAgainstBackends(cfg: Config, slots: seq<Slot>)
    requires forall i :: 0 <= i < |slots| && slots[i].phase == InPool ==> slots[i].ip != ""
    ensures |UsedIPs(slots)| <= Total(cfg, Pooled, slots)
    ensures |UsedIPs(slots)| == Total(cfg, Pooled, slots) <==> DistinctTags(slots)
  {
    if slots == [] {
      assert UsedIPs(slots) == {};
    } else {
      var n := |slots| - 1;
      var front := slots[..n];
      TagsAgainstBackends(cfg, front);
      assert Shares(cfg, Pooled, slots)[..n] == Shares(cfg, Pooled, front);
      UsedSplits(slots, n);
      DistinctSplits(slots, n);
      hide UsedIPs, DistinctTags, Shares;
      if slots[n].phase == InPool && slots[n].ip in UsedIPs(front) {
        assert UsedIPs(front) + {slots[n].ip} == UsedIPs(front);
      }
    }
  }

  lemma DistinctSplits(slots: seq<Slot>, n: nat)
    requires n + 1 == |slots| && (slots[n].phase == InPool ==> slots[n].ip != "")
    ensures DistinctTags(slots) <==>
              DistinctTags(slots[..n]) && (slots[n].phase == InPool ==> slots[n].ip !in UsedIPs(slots[..n]))
  {
    var front, last := slots[..n], slots[n];
    if last.phase == InPool && last.ip in UsedIPs(front) {
      var i :| 0 <= i < n && front[i].phase == InPool && front[i].ip != "" && front[i].ip == last.ip;
      assert slots[i].ip == slots[n].ip;
    } else if last.phase == InPool {
      forall i | 0 <= i < n && slots[i].phase == InPool ensures slots[i].ip != last.ip {
        if slots[i].ip != "" { assert front[i].ip in UsedIPs(front); }
      }
    }
  }

  lemma UsedSplits(slots: seq<Slot>, n: nat)
    requires n + 1 == |slots|
    ensures UsedIPs(slots) == UsedIPs(slots[..n]) + if slots[n].phase == InPool && slots[n].ip != "" then {slots[n].ip} else {}
  {
    var front := slots[..n];
    forall ip | ip in UsedIPs(front) ensures ip in UsedIPs(slots) {
      var j :| 0 <= j < n && front[j].phase == InPool && front[j].ip != "" && front[j].ip == ip;
      assert slots[j].ip == ip;
    }
    forall ip | ip in UsedIPs(slots) ensures ip in UsedIPs(front) || (slots[n].phase == InPool && ip == slots[n].ip) {
      var j :| 0 <= j < |slots| && slots[j].phase == InPool && slots[j].ip != "" && slots[j].ip == ip;
      if j < n { assert front[j].ip == ip; }
    }
  }

  /**
   With the effort on, over any run of ticks: the unique counter is the number of distinct tags in the pool,
   the residual counter is the rest of the pool, and in strict mode no two admitted backends share a tag.
   */
  lemma UniqueMeansDistinct(cfg: Config, n: nat, steps: seq<Step>)
    requires cfg.effort && AllFit(n, steps) && OnlyTicks(steps)
    ensures var e := EngineRun(cfg, Init(n), steps);
            && |UsedIPs(e.slots)| == e.stats.admittedUnique
            && Total(cfg, Pooled, e.slots) - |UsedIPs(e.slots)| == e.stats.admittedResidual
            && (cfg.strict ==> DistinctTags(e.slots))
            && (e.stats.admittedResidual == 0 <==> DistinctTags(e.slots))
  {
    RunKeepsInv(cfg, n, steps);
    TicksKeepTags(cfg, n, steps);
    var e := EngineRun(cfg, Init(n), steps);
    forall i | 0 <= i < n && e.slots[i].phase == InPool ensures e.slots[i].ip != "" {
      assert SlotInv(cfg, e.history, i, e.slots[i]);
    }
    TagsAgainstBackends(cfg, e.slots);
  }
}
