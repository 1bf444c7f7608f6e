/**
 What a backend's attempts are spent on: registrations started, and collisions put off by the
 stagger; and how long a registration keeps its backend out.
 */
module UniquenessAttempts {
  import opened Prelude
  import opened Breaker
  import opened Uniqueness
  import opened UniquenessRuns
  import opened UniquenessTheorems

  function Deferrals(h: seq<Record>, i: nat): nat {
    if h == [] then 0
    else Deferrals(h[..|h| - 1], i) + if h[|h| - 1].Deferred? && h[|h| - 1].i == i then 1 else 0
  }

  predicate IsGiveUp(r: Record) {
    r.CeilingAdmit? || r.CeilingPark? || r.AttachAdmit? || r.AttachPark?
  }

  /** Collisions after which the engine gave up on a unique address. */
  function GiveUps(h: seq<Record>, i: nat): nat {
    if h == [] then 0
    else GiveUps(h[..|h| - 1], i) + if IsGiveUp(h[|h| - 1]) && h[|h| - 1].i == i then 1 else 0
  }

  /** Every collision is a started registration, a deferral or a giving up. */
  lemma {:induction false} CollisionsSplit(h: seq<Record>, i: nat)
    ensures CollisionsOf(h, i) == TickStarts(h, i) + Deferrals(h, i) + GiveUps(h, i)
  {
    if h != [] { CollisionsSplit(h[..|h| - 1], i); }
  }

  // ------------------------------------------------------- one collision

  /** The visit finds its backend's address taken. */
  predicate Collides(cfg: Config, e: Engine, i: nat, now: int, v: Visit)
    requires i < |e.slots|
  {
    Acts(e.slots[i], now, v) && e.firstOK && cfg.effort && v.probe.value in UsedIPs(e.slots)
  }

  /** The record of a collision, from what is known before it. */
  function CollisionRecord(cfg: Config, e: Engine, i: nat, v: Visit): Record
    requires i < |e.slots|
  {
    if e.slots[i].tries >= MaxAttempts(cfg) then if cfg.strict then CeilingPark(i) else CeilingAdmit(i)
    else if !cfg.managed then if cfg.strict then AttachPark(i) else AttachAdmit(i)
    else if StaggerOver(cfg, e, v.start) then TickStart(i, v.start, v.regOk)
    else Deferred(i)
  }

  predicate Recorded(e: Engine, e': Engine, r: Record) {
    e'.history == e.history + [r]
  }

  /**
   Every collision costs an attempt. In managed mode one below the ceiling starts a registration if and
   only if the stagger is over, and is put off otherwise; from the ceiling on none is started.
   */
  lemma CollisionIsExact(cfg: Config, e: Engine, i: nat, now: int, v: Visit)
    requires i < |e.slots| && Acts(e.slots[i], now, v)
    ensures var (e', s) := (VisitSlot(cfg, e, i, now, v), e.slots[i]);
            && (Collides(cfg, e, i, now, v) ==>
                  && Recorded(e, e', CollisionRecord(cfg, e, i, v)) && e'.slots[i].tries == s.tries + 1
                  && e'.stats.reregAttempts == e.stats.reregAttempts
                     + if CollisionRecord(cfg, e, i, v).TickStart? then 1 else 0)
            && (!Collides(cfg, e, i, now, v) ==>
                  e'.slots[i].tries == s.tries && e'.slots[i].phase == InPool && !IsCollision(e'.history[|e.history|]))
  {
    hide UsedIPs, AttemptBackoff;
  }

  // ------------------------------------------------------------- whole runs

  /** What backend `i` has spent: below the ceiling on starts and deferrals only, above it on giving up. */
  predicate SpentAt(cfg: Config, h: seq<Record>, i: nat, tries: nat) {
    && tries == CollisionsOf(h, i)
    && (cfg.managed ==> TickStarts(h, i) + Deferrals(h, i) == Min(tries, MaxAttempts(cfg)))
    && (!cfg.managed ==> TickStarts(h, i) + Deferrals(h, i) == 0)
  }

  predicate SpentInv(cfg: Config, e: Engine) {
    forall i :: 0 <= i < |e.slots| ==> SpentAt(cfg, e.history, i, e.slots[i].tries)
  }

  lemma MoreDeferrals(h: seq<Record>, r: Record, i: nat)
    ensures Deferrals(h + [r], i) == Deferrals(h, i) + if r.Deferred? && r.i == i then 1 else 0
  {
    assert (h + [r])[..|h|] == h;
  }

  lemma VisitKeepsSpent(cfg: Config, e: Engine, i: nat, now: int, v: Visit)
    requires i < |e.slots| && SpentInv(cfg, e)
    ensures SpentInv(cfg, VisitSlot(cfg, e, i, now, v))
  {
    if Acts(e.slots[i], now, v) {
      var e' := VisitSlot(cfg, e, i, now, v);
      VisitShape(cfg, e, i, now, v);
      ActMoves(cfg, e, e', i);
      CollisionIsExact(cfg, e, i, now, v);
      hide VisitSlot, Collides, Acts, StaggerOver, Total, Evictions, Starts;
      forall j | 0 <= j < |e'.slots| ensures SpentAt(cfg, e'.history, j, e'.slots[j].tries) {
        MoreDeferrals(e.history, e'.history[|e.history|], j);
        assert SpentAt(cfg, e.history, j, e.slots[j].tries);
      }
    }
  }

  lemma {:induction false} TickKeepsSpent(cfg: Config, e: Engine, now: int, vs: seq<Visit>, i: nat)
    requires |vs| == |e.slots| && SpentInv(cfg, e)
    ensures SpentInv(cfg, Tick(cfg, e, now, vs, i))
    decreases |vs| - i
  {
    hide SpentInv, VisitSlot;
    if i < |vs| && !vs[i].cancelled {
      VisitKeepsSpent(cfg, e, i, now, vs[i]);
      TickKeepsSpent(cfg, VisitSlot(cfg, e, i, now, vs[i]), now, vs, i + 1);
    }
  }

  /** Rechecks spend nothing. */
  predicate SameSpending(e: Engine, e': Engine) {
    && |e'.slots| == |e.slots|
    && (forall i :: 0 <= i < |e.slots| ==> e'.slots[i].tries == e.slots[i].tries)
    && (e'.history == e.history
        || (|e'.history| == |e.history| + 1 && e'.history[..|e.history|] == e.history && e'.history[|e.history|].RecheckStart?))
  }

  lemma SameSpendingKeeps(cfg: Config, e: Engine, e': Engine)
    requires SpentInv(cfg, e) && SameSpending(e, e')
    ensures SpentInv(cfg, e')
  {
    forall i | 0 <= i < |e'.slots| ensures SpentAt(cfg, e'.history, i, e'.slots[i].tries) {
      assert SpentAt(cfg, e.history, i, e.slots[i].tries);
      if e'.history != e.history {
        var r := e'.history[|e.history|];
        assert e'.history == e.history + [r];
        Appended(e.history, r);
        MoreDeferrals(e.history, r, i);
      }
    }
  }

  lemma {:induction false} EvictSpendsNothing(cfg: Config, e: Engine, cs: seq<nat>, ws: seq<Visit>, k: nat)
    requires |ws| == |e.slots| && forall j :: 0 <= j < |cs| ==> cs[j] < |e.slots|
    ensures SameSpending(e, Evict(cfg, e, cs, ws, k))
    decreases |cs| - k
  {
    if k < |cs| && RecheckMax(cfg) > 0 {
      var c, w := cs[k], ws[cs[k]];
      if !MayEvict(cfg, e.slots[c], w) {
        EvictSpendsNothing(cfg, e, cs, ws, k + 1);
      } else if !StaggerOver(cfg, e, w.start) {
        var f := e.(slots := e.slots[c := e.slots[c].(retry := Some(w.done + Stagger(cfg)))]);
        EvictSpendsNothing(cfg, f, cs, ws, k + 1);
      } else {
        hide AttemptBackoff;
        assert SentAgain(cfg, e, c, w).history == e.history + [RecheckStart(c, w.start, w.regOk)];
      }
    }
  }

  lemma RecheckSpendsNothing(cfg: Config, e: Engine, at: int, vs: seq<Visit>, ws: seq<Visit>)
    requires |vs| == |ws| == |e.slots| && NonEmptyProbes(vs)
    ensures SameSpending(e, Recheck(cfg, e, at, vs, ws))
  {
    hide Evict, Retag;
    if RecheckDue(cfg, e, at) {
      var f := e.(lastRecheck := Some(at), stats := e.stats.(recheckRuns := e.stats.recheckRuns + 1));
      RetagFindsShadows(f, vs, 0, map[], []);
      var (g, cs, completed) := Retag(f, vs, 0, map[], []);
      EvictSpendsNothing(cfg, g, cs, ws, 0);
    }
  }

  lemma {:induction false} RunKeepsSpent(cfg: Config, n: nat, steps: seq<Step>)
    requires AllFit(n, steps)
    ensures SpentInv(cfg, EngineRun(cfg, Init(n), steps))
  {
    hide Tick, Recheck;
    if steps != [] {
      var k := |steps| - 1;
      RunKeepsSpent(cfg, n, steps[..k]);
      var e := EngineRun(cfg, Init(n), steps[..k]);
      hide SpentInv;
      match steps[k]
      case TickStep(now, vs) => TickKeepsSpent(cfg, e, now, vs, 0);
      case RecheckStep(at, vs, ws) =>
        RecheckSpendsNothing(cfg, e, at, vs, ws);
        SameSpendingKeeps(cfg, e, Recheck(cfg, e, at, vs, ws));
    }
  }

  /**
   The budget law, over whole runs: the collisions of a backend are its starts, its deferrals and its
   givings up; in managed mode the first MaxAttempts of them are starts and deferrals and the rest are
   givings up. So one that reaches its ceiling was sent to register again MaxAttempts - Deferrals times.
   */
  lemma DeferralsCostAttempts(cfg: Config, n: nat, steps: seq<Step>, i: nat)
    requires AllFit(n, steps) && i < n
    ensures var e := EngineRun(cfg, Init(n), steps);
            var (h, tries) := (e.history, e.slots[i].tries);
            && tries == CollisionsOf(h, i) == TickStarts(h, i) + Deferrals(h, i) + GiveUps(h, i)
            && (cfg.managed ==> TickStarts(h, i) + Deferrals(h, i) == Min(tries, MaxAttempts(cfg)))
            && (cfg.managed && GiveUps(h, i) > 0 ==> TickStarts(h, i) == MaxAttempts(cfg) - Deferrals(h, i))
            && (!cfg.managed ==> GiveUps(h, i) == tries)
  {
    RunKeepsSpent(cfg, n, steps);
    var e := EngineRun(cfg, Init(n), steps);
    assert SpentAt(cfg, e.history, i, e.slots[i].tries);
    CollisionsSplit(e.history, i);
  }

  /** Three backends that probe alike in the first tick: one is admitted, one is sent to register, one is put off. */
  lemma FirstTickDefers(cfg: Config, now: int, ip: string, vs: seq<Visit>)
    requires cfg.effort && cfg.managed && ip != "" && |vs| == 3
    requires forall i :: 0 <= i < 3 ==> !vs[i].cancelled && vs[i].health == Healthy && vs[i].probe == Some(ip)
    requires 0 <= vs[2].start - vs[1].start < Stagger(cfg)
    ensures var e := EngineRun(cfg, Init(3), [TickStep(now, vs)]);
            && e.history == [FirstAdmit(0), TickStart(1, vs[1].start, vs[1].regOk), Deferred(2)]
            && e.slots[2].tries == 1 && TickStarts(e.history, 2) == 0
  {
    var e0 := Init(3);
    var e1 := VisitSlot(cfg, e0, 0, now, vs[0]);
    var e2 := VisitSlot(cfg, e1, 1, now, vs[1]);
    var e3 := VisitSlot(cfg, e2, 2, now, vs[2]);
    hide VisitSlot, EngineRun, TickStarts, Stagger, FreshBehindFirst;
    FirstVisit(cfg, now, vs[0], ip);
    FreshCollision(cfg, e1, 1, now, vs[1], ip);
    FreshCollision(cfg, e2, 2, now, vs[2], ip);
    TickOfThree(cfg, e0, now, vs);
    OneTick(cfg, now, vs);
    StartsOfThree(e3.history);
  }

  /** The first backend has the address, and the fresh backend `i` has done nothing yet. */
  predicate FreshBehindFirst(e: Engine, i: nat, ip: string) {
    && 0 < i < |e.slots| == 3 && e.firstOK
    && e.slots[0].phase == InPool && e.slots[0].ip == ip
    && (forall j :: i <= j < 3 ==> e.slots[j] == Slot(Warming, "", 0, None, 0))
  }

  lemma FirstVisit(cfg: Config, now: int, v: Visit, ip: string)
    requires v.health == Healthy && v.probe == Some(ip) && ip != ""
    ensures var e := VisitSlot(cfg, Init(3), 0, now, v);
            FreshBehindFirst(e, 1, ip) && e.history == [FirstAdmit(0)] && e.lastStart == None
  {}

  /** Its first visit collides: it starts a registration if the stagger is over, and is put off otherwise. */
  lemma FreshCollision(cfg: Config, e: Engine, i: nat, now: int, v: Visit, ip: string)
    requires cfg.effort && cfg.managed && v.health == Healthy && v.probe == Some(ip) && ip != ""
    requires FreshBehindFirst(e, i, ip)
    ensures var f := VisitSlot(cfg, e, i, now, v);
            && f.history == e.history + [if StaggerOver(cfg, e, v.start) then TickStart(i, v.start, v.regOk) else Deferred(i)]
            && (StaggerOver(cfg, e, v.start) ==> f.lastStart == Some(v.start))
            && f.slots[i].tries == 1
            && (i < 2 ==> FreshBehindFirst(f, i + 1, ip))
  {
    assert ip in UsedIPs(e.slots);
    hide UsedIPs, StaggerOver, AttemptBackoff;
    CollisionIsExact(cfg, e, i, now, v);
  }

  lemma TickOfThree(cfg: Config, e: Engine, now: int, vs: seq<Visit>)
    requires |vs| == |e.slots| == 3 && forall i :: 0 <= i < 3 ==> !vs[i].cancelled
    ensures var e1 := VisitSlot(cfg, e, 0, now, vs[0]);
            var e2 := VisitSlot(cfg, e1, 1, now, vs[1]);
            Tick(cfg, e, now, vs, 0) == VisitSlot(cfg, e2, 2, now, vs[2])
  {
    hide VisitSlot;
    var e1 := VisitSlot(cfg, e, 0, now, vs[0]);
    var e2 := VisitSlot(cfg, e1, 1, now, vs[1]);
    assert Tick(cfg, e1, now, vs, 1) == Tick(cfg, e2, now, vs, 2);
    assert Tick(cfg, e2, now, vs, 2) == Tick(cfg, VisitSlot(cfg, e2, 2, now, vs[2]), now, vs, 3);
  }

  lemma OneTick(cfg: Config, now: int, vs: seq<Visit>)
    requires |vs| == 3 && NonEmptyProbes(vs)
    ensures EngineRun(cfg, Init(3), [TickStep(now, vs)]) == Tick(cfg, Init(3), now, vs, 0)
  {
    hide Tick;
    var steps := [TickStep(now, vs)];
    assert steps[..0] == [];
    assert EngineRun(cfg, Init(3), steps[..0]) == Init(3);
  }

  lemma StartsOfThree(h: seq<Record>)
    requires |h| == 3 && h[0].FirstAdmit? && h[1].TickStart? && h[1].i == 1 && h[2].Deferred?
    ensures TickStarts(h, 2) == 0
  {
    assert TickStarts(h[..2], 2) == TickStarts(h[..2][..1], 2) && h[..2][..1] == h[..1] && h[..1][..0] == [];
  }

  // --------------------------------------------- evicted by a recheck

  /** The recheck's eviction loop sent `c` to register again. */
  predicate Evicted(e: Engine, f: Engine, c: nat, at: int, ok: bool) {
    f.history == e.history + [RecheckStart(c, at, ok)]
  }

  /** What that leaves behind: one more recheck spent, a backoff from the end of the registration, and Warming if it succeeded. */
  predicate BackingOff(cfg: Config, s: Slot, s': Slot, w: Visit) {
    && s'.rechecks == s.rechecks + 1 <= RecheckMax(cfg)
    && s'.retry == Some(w.done + AttemptBackoff(cfg, s'.rechecks))
    && s'.phase == (if w.regOk then Warming else s.phase)
  }

  lemma {:induction false} EvictionSetsTheBackoff(
    cfg: Config, e: Engine, cs: seq<nat>, ws: seq<Visit>, k: nat, c: nat, at: int, ok: bool)
    requires |ws| == |e.slots| && forall j :: 0 <= j < |cs| ==> cs[j] < |e.slots|
    requires c < |e.slots| && Evicted(e, Evict(cfg, e, cs, ws, k), c, at, ok)
    ensures at == ws[c].start && ok == ws[c].regOk
    ensures BackingOff(cfg, e.slots[c], Evict(cfg, e, cs, ws, k).slots[c], ws[c])
    decreases |cs| - k
  {
    if k < |cs| && RecheckMax(cfg) > 0 {
      var d, w := cs[k], ws[cs[k]];
      if !MayEvict(cfg, e.slots[d], w) {
        EvictionSetsTheBackoff(cfg, e, cs, ws, k + 1, c, at, ok);
      } else if !StaggerOver(cfg, e, w.start) {
        var f := e.(slots := e.slots[d := e.slots[d].(retry := Some(w.done + Stagger(cfg)))]);
        EvictionSetsTheBackoff(cfg, f, cs, ws, k + 1, c, at, ok);
      } else {
        hide AttemptBackoff;
        var h := SentAgain(cfg, e, d, w).history;
        assert h[|e.history|] == RecheckStart(d, w.start, w.regOk) == RecheckStart(c, at, ok);
      }
    }
  }

  /** The same of a whole recheck. */
  lemma RecheckSetsTheBackoff(cfg: Config, e: Engine, at: int, vs: seq<Visit>, ws: seq<Visit>, c: nat, start: int, ok: bool)
    requires |vs| == |ws| == |e.slots| && NonEmptyProbes(vs) && c < |e.slots|
    requires Evicted(e, Recheck(cfg, e, at, vs, ws), c, start, ok)
    ensures start == ws[c].start && ok == ws[c].regOk
    ensures BackingOff(cfg, e.slots[c], Recheck(cfg, e, at, vs, ws).slots[c], ws[c])
  {
    hide Evict, Retag, AttemptBackoff;
    var h := Recheck(cfg, e, at, vs, ws).history;
    assert h != e.history;
    var f := e.(lastRecheck := Some(at), stats := e.stats.(recheckRuns := e.stats.recheckRuns + 1));
    RetagFindsShadows(f, vs, 0, map[], []);
    RetagOnlyTags(f, vs, 0, map[], []);
    var (g, cs, completed) := Retag(f, vs, 0, map[], []);
    EvictionSetsTheBackoff(cfg, g, cs, ws, 0, c, start, ok);
  }

  /** A backend that a recheck registered again is left alone by everything until that backoff is over. */
  lemma RecheckBackoffIsHonoured(
    cfg: Config, e: Engine, at: int, vs: seq<Visit>, ws: seq<Visit>, c: nat, start: int, steps: seq<Step>)
    requires |vs| == |ws| == |e.slots| && NonEmptyProbes(vs) && c < |e.slots| && AllFit(|e.slots|, steps)
    requires Evicted(e, Recheck(cfg, e, at, vs, ws), c, start, true)
    requires forall k :: 0 <= k < |steps| && steps[k].TickStep? ==>
               steps[k].now < ws[c].done + AttemptBackoff(cfg, e.slots[c].rechecks + 1)
    ensures var f := Recheck(cfg, e, at, vs, ws);
            f.slots[c].phase == Warming && EngineRun(cfg, f, steps).slots[c] == f.slots[c]
  {
    RecheckSetsTheBackoff(cfg, e, at, vs, ws, c, start, true);
    hide Recheck, AttemptBackoff;
    UntouchableForWholeRuns(cfg, Recheck(cfg, e, at, vs, ws), steps, c);
  }
}
