/**
 The uniqueness engine on values: which backends are admitted, parked or sent to
 register again. Backends are listed in ascending order of id and named by
 their place in that list; every probe, registration and clock reading is an input.
 */
module Uniqueness {
  import opened Prelude
  import opened Breaker

  const NS_PER_SECOND: int := 1_000_000_000
  const INT64_MAX: int := 0x7fff_ffff_ffff_ffff

  /** The settings as configured; `managed` says whether registrations can be redone. */
  datatype Config = Config(
    effort: bool, strict: bool, managed: bool,
    attempts: int, rechecks: int, stagger: int, backoff: int, recheckEvery: int)

  function MaxAttempts(cfg: Config): nat {
    if cfg.attempts <= 0 then 8 else cfg.attempts
  }

  function RecheckMax(cfg: Config): nat {
    if cfg.rechecks < 0 then 0 else cfg.rechecks
  }

  function Stagger(cfg: Config): nat {
    if cfg.stagger < 0 then 0 else if cfg.stagger == 0 then 3 * NS_PER_SECOND else cfg.stagger
  }

  function BackoffBase(cfg: Config): nat {
    if cfg.backoff <= 0 then 8 * NS_PER_SECOND else cfg.backoff
  }

  function RecheckEvery(cfg: Config): nat {
    if cfg.recheckEvery <= 0 then 60 * NS_PER_SECOND else cfg.recheckEvery
  }

  function Pow2(n: nat): nat {
    if n == 0 then 1 else 2 * Pow2(n - 1)
  }

  /** A left shift in 64-bit signed arithmetic. */
  function ShiftLeft(x: int, n: nat): int {
    var w := (x * Pow2(n)) % (2 * (INT64_MAX + 1));
    if w <= INT64_MAX then w else w - 2 * (INT64_MAX + 1)
  }

  function AttemptBackoff(cfg: Config, attempt: int): int {
    var a := if attempt < 1 then 1 else attempt;
    var shift := if a - 1 > 3 then 3 else a - 1;
    Min(ShiftLeft(BackoffBase(cfg), shift), 60 * NS_PER_SECOND)
  }

  // ------------------------------------------------------------- the state

  /** One backend as the engine sees it; `retry` and `rechecks` are its entries in the engine's tables. */
  datatype Slot = Slot(phase: AdmitPhase, ip: string, tries: nat, retry: Option<int>, rechecks: nat)

  datatype Stats = Stats(
    collisions: nat, reregAttempts: nat, reregSuccess: nat, reregFail: nat,
    admittedUnique: nat, admittedResidual: nat, recheckRuns: nat, recheckCollisions: nat)

  /** Everything the engine ever did to a backend; one record for each visit that acted. */
  datatype Record =
    | FirstAdmit(i: nat) | FreeAdmit(i: nat) | UniqueAdmit(i: nat)
    | CeilingAdmit(i: nat) | CeilingPark(i: nat)
    | AttachAdmit(i: nat) | AttachPark(i: nat)
    | Deferred(i: nat)
    | TickStart(i: nat, at: int, ok: bool)
    | RecheckStart(i: nat, at: int, ok: bool)

  datatype Engine = Engine(
    slots: seq<Slot>, firstOK: bool, lastStart: Option<int>, lastRecheck: Option<int>,
    stats: Stats, history: seq<Record>)

  /** What the outside answers while one backend is visited; `start` and `done` bracket a registration. */
  datatype Visit = Visit(cancelled: bool, health: State, probe: Option<string>, start: int, done: int, regOk: bool)

  function Init(n: nat): Engine {
    Engine(seq(n, i => Slot(Warming, "", 0, None, 0)), false, None, None, Stats(0, 0, 0, 0, 0, 0, 0, 0), [])
  }

  /** The tags of the admitted backends. */
  function UsedIPs(slots: seq<Slot>): set<string> {
    set i | 0 <= i < |slots| && slots[i].phase == InPool && slots[i].ip != "" :: slots[i].ip
  }

  function Put(e: Engine, i: nat, s: Slot, r: Record): Engine
    requires i < |e.slots|
  {
    e.(slots := e.slots[i := s], history := e.history + [r])
  }

  function Entered(s: Slot, phase: AdmitPhase, ip: string): Slot {
    s.(phase := phase, ip := if ip != "" then ip else s.ip)
  }

  // -------------------------------------------------------- registering again

  predicate StaggerOver(cfg: Config, e: Engine, at: int) {
    Stagger(cfg) > 0 && e.lastStart.Some? ==> at - e.lastStart.value >= Stagger(cfg)
  }

  /** A registration started at `at`: the gate, the counters, and on success the backend warms up again. */
  function Started(e: Engine, i: nat, at: int, ok: bool): Engine
    requires i < |e.slots|
  {
    var st := e.stats.(reregAttempts := e.stats.reregAttempts + 1);
    if ok then
      e.(lastStart := Some(at), stats := st.(reregSuccess := st.reregSuccess + 1),
         slots := e.slots[i := Entered(e.slots[i], Warming, "")])
    else
      e.(lastStart := Some(at), stats := st.(reregFail := st.reregFail + 1))
  }

  // ------------------------------------------------------------------- tick

  predicate Waiting(s: Slot, now: int) {
    s.retry.Some? && now < s.retry.value
  }

  /** The backend is visited to some effect. */
  predicate Acts(s: Slot, now: int, v: Visit) {
    && s.phase == Warming && !Waiting(s, now)
    && v.health in {Healthy, Degraded, Unknown} && v.probe.Some?
  }

  function VisitSlot(cfg: Config, e: Engine, i: nat, now: int, v: Visit): (r: Engine)
    requires i < |e.slots|
    ensures |r.slots| == |e.slots|
  {
    if Acts(e.slots[i], now, v) then Handled(cfg, e, i, v) else e
  }

  /** A backend that answered its probe: admitted, or found to collide. */
  function Handled(cfg: Config, e: Engine, i: nat, v: Visit): (r: Engine)
    requires i < |e.slots| && v.probe.Some?
    ensures |r.slots| == |e.slots|
  {
    var s := e.slots[i];
    var ip := v.probe.value;
    if !e.firstOK then
      Put(e, i, Entered(s, InPool, ip), FirstAdmit(i))
        .(firstOK := true, stats := e.stats.(admittedUnique := e.stats.admittedUnique + 1))
    else if !cfg.effort then
      Put(e, i, Entered(s, InPool, ip), FreeAdmit(i))
        .(stats := e.stats.(admittedResidual := e.stats.admittedResidual + 1))
    else if ip !in UsedIPs(e.slots) then
      Put(e, i, Entered(s, InPool, ip).(retry := None), UniqueAdmit(i))
        .(stats := e.stats.(admittedUnique := e.stats.admittedUnique + 1))
    else Collided(cfg, e, i, v)
  }

  /** The probed address is already in the pool. */
  function Collided(cfg: Config, e: Engine, i: nat, v: Visit): (r: Engine)
    requires i < |e.slots| && v.probe.Some?
    ensures |r.slots| == |e.slots|
  {
    var s := e.slots[i].(tries := e.slots[i].tries + 1);
    var f := e.(slots := e.slots[i := s], stats := e.stats.(collisions := e.stats.collisions + 1));
    if s.tries > MaxAttempts(cfg) then GivenUp(cfg, f, i, v.probe.value, true)
    else if !cfg.managed then GivenUp(cfg, f, i, v.probe.value, false)
    else Reregistered(cfg, f, i, v)
  }

  /** No registration will be redone: strict mode parks, otherwise the backend serves with a shared address. */
  function GivenUp(cfg: Config, e: Engine, i: nat, ip: string, ceiling: bool): (r: Engine)
    requires i < |e.slots|
    ensures |r.slots| == |e.slots|
  {
    var s := Entered(e.slots[i], if cfg.strict then Parked else InPool, ip);
    var t := if ceiling then s.(retry := None) else s;
    if cfg.strict then Put(e, i, t, if ceiling then CeilingPark(i) else AttachPark(i))
    else
      Put(e, i, t, if ceiling then CeilingAdmit(i) else AttachAdmit(i))
        .(stats := e.stats.(admittedResidual := e.stats.admittedResidual + 1))
  }

  /** A collision that is to be cured by registering again: put off by the stagger, or started. */
  function Reregistered(cfg: Config, e: Engine, i: nat, v: Visit): (r: Engine)
    requires i < |e.slots|
    ensures |r.slots| == |e.slots|
  {
    if !StaggerOver(cfg, e, v.start) then
      Put(e, i, e.slots[i].(retry := Some(v.done + Stagger(cfg))), Deferred(i))
    else
      var f := Started(e, i, v.start, v.regOk);
      Put(f, i, f.slots[i].(retry := Some(v.done + AttemptBackoff(cfg, e.slots[i].tries))), TickStart(i, v.start, v.regOk))
  }

  /** The rest of a tick, from place `i` on. */
  function Tick(cfg: Config, e: Engine, now: int, vs: seq<Visit>, i: nat): (r: Engine)
    requires |vs| == |e.slots|
    ensures |r.slots| == |e.slots|
    decreases |vs| - i
  {
    if i >= |vs| || vs[i].cancelled then e
    else Tick(cfg, VisitSlot(cfg, e, i, now, vs[i]), now, vs, i + 1)
  }

  // ---------------------------------------------------------------- recheck

  predicate Rechecked(s: Slot, v: Visit) {
    s.phase == InPool && v.health in {Healthy, Degraded} && v.probe.Some?
  }

  /** Refreshing tags from place `i` on; collects the backends whose address an earlier one has. */
  function Retag(e: Engine, vs: seq<Visit>, i: nat, seen: map<string, nat>, colliders: seq<nat>)
    : (r: (Engine, seq<nat>, bool))
    requires |vs| == |e.slots| && forall k :: 0 <= k < |colliders| ==> colliders[k] < |e.slots|
    ensures |r.0.slots| == |e.slots| && forall k :: 0 <= k < |r.1| ==> r.1[k] < |e.slots|
    decreases |vs| - i
  {
    if i >= |vs| then (e, colliders, true)
    else if vs[i].cancelled then (e, colliders, false)
    else if !Rechecked(e.slots[i], vs[i]) then Retag(e, vs, i + 1, seen, colliders)
    else
      var (f, seen', colliders') := Tagged(e, i, vs[i].probe.value, seen, colliders);
      Retag(f, vs, i + 1, seen', colliders')
  }

  /** One admitted backend's fresh tag: the first owner of an address is remembered, any other collides. */
  function Tagged(e: Engine, i: nat, ip: string, seen: map<string, nat>, colliders: seq<nat>)
    : (r: (Engine, map<string, nat>, seq<nat>))
    requires i < |e.slots| && forall k :: 0 <= k < |colliders| ==> colliders[k] < |e.slots|
    ensures |r.0.slots| == |e.slots| && forall k :: 0 <= k < |r.2| ==> r.2[k] < |e.slots|
  {
    var f := e.(slots := e.slots[i := Entered(e.slots[i], InPool, ip)]);
    if ip in seen then
      (f.(stats := f.stats.(recheckCollisions := f.stats.recheckCollisions + 1)), seen, colliders + [i])
    else (f, seen[ip := i], colliders)
  }

  /** The collider may be sent to register again now. */
  predicate MayEvict(cfg: Config, s: Slot, w: Visit) {
    s.rechecks < RecheckMax(cfg) && !Waiting(s, w.start)
  }

  /** Colliders from the `k`-th on: the first that may and is not held by the stagger registers again. */
  function Evict(cfg: Config, e: Engine, colliders: seq<nat>, ws: seq<Visit>, k: nat): (r: Engine)
    requires |ws| == |e.slots| && forall j :: 0 <= j < |colliders| ==> colliders[j] < |e.slots|
    ensures |r.slots| == |e.slots|
    decreases |colliders| - k
  {
    if k >= |colliders| || RecheckMax(cfg) <= 0 then e
    else
      var c := colliders[k];
      var w := ws[c];
      if !MayEvict(cfg, e.slots[c], w) then Evict(cfg, e, colliders, ws, k + 1)
      else if !StaggerOver(cfg, e, w.start) then
        Evict(cfg, e.(slots := e.slots[c := e.slots[c].(retry := Some(w.done + Stagger(cfg)))]), colliders, ws, k + 1)
      else SentAgain(cfg, e, c, w)
  }

  function SentAgain(cfg: Config, e: Engine, c: nat, w: Visit): Engine
    requires c < |e.slots|
  {
    var n := e.slots[c].rechecks + 1;
    var f := Started(e, c, w.start, w.regOk);
    Put(f, c, f.slots[c].(rechecks := n, retry := Some(w.done + AttemptBackoff(cfg, n))), RecheckStart(c, w.start, w.regOk))
  }

  predicate RecheckDue(cfg: Config, e: Engine, at: int) {
    cfg.effort && cfg.managed && (e.lastRecheck.Some? ==> at - e.lastRecheck.value >= RecheckEvery(cfg))
  }

  function Recheck(cfg: Config, e: Engine, at: int, vs: seq<Visit>, ws: seq<Visit>): (r: Engine)
    requires |vs| == |ws| == |e.slots|
    ensures |r.slots| == |e.slots|
  {
    if !RecheckDue(cfg, e, at) then e
    else
      var f := e.(lastRecheck := Some(at), stats := e.stats.(recheckRuns := e.stats.recheckRuns + 1));
      var (g, colliders, completed) := Retag(f, vs, 0, map[], []);
      if completed then Evict(cfg, g, colliders, ws, 0) else g
  }

  // ---------------------------------------------------- what colliders are

  /** `c` is admitted, and so is an earlier backend with the same tag. */
  predicate Shadowed(slots: seq<Slot>, c: nat) {
    && c < |slots| && slots[c].phase == InPool
    && exists j :: 0 <= j < c && slots[j].phase == InPool && slots[j].ip == slots[c].ip
  }

  predicate AllShadowed(slots: seq<Slot>, colliders: seq<nat>) {
    forall k :: 0 <= k < |colliders| ==> Shadowed(slots, colliders[k])
  }

  /** The bookkeeping of the refresh loop when it has done the places below `i`. */
  predicate RetagInv(slots: seq<Slot>, i: nat, seen: map<string, nat>, colliders: seq<nat>) {
    && (forall ip :: ip in seen ==> seen[ip] < i && seen[ip] < |slots| && slots[seen[ip]].phase == InPool
                                    && slots[seen[ip]].ip == ip)
    && (forall k :: 0 <= k < |colliders| ==> colliders[k] < i)
    && AllShadowed(slots, colliders)
  }

  predicate NonEmptyProbes(vs: seq<Visit>) {
    forall i :: 0 <= i < |vs| && vs[i].probe.Some? ==> vs[i].probe.value != ""
  }

  datatype Step =
    | TickStep(now: int, vs: seq<Visit>)
    | RecheckStep(at: int, vs: seq<Visit>, ws: seq<Visit>)

  predicate Fits(n: nat, st: Step) {
    |st.vs| == n && NonEmptyProbes(st.vs) && (st.RecheckStep? ==> |st.ws| == n)
  }

  function Perform(cfg: Config, e: Engine, st: Step): (r: Engine)
    requires Fits(|e.slots|, st)
    ensures |r.slots| == |e.slots|
  {
    match st
    case TickStep(now, vs) => Tick(cfg, e, now, vs, 0)
    case RecheckStep(at, vs, ws) => Recheck(cfg, e, at, vs, ws)
  }

  predicate AllFit(n: nat, steps: seq<Step>) {
    forall k :: 0 <= k < |steps| ==> Fits(n, steps[k])
  }

  function EngineRun(cfg: Config, e: Engine, steps: seq<Step>): (r: Engine)
    requires AllFit(|e.slots|, steps)
    ensures |r.slots| == |e.slots|
  {
    if steps == [] then e else Perform(cfg, EngineRun(cfg, e, steps[..|steps| - 1]), steps[|steps| - 1])
  }
}
