/** Everything one visit and one recheck do, told from the state, the settings and the answers before them. */
module UniquenessLaws {
  import opened Prelude
  import opened Breaker
  import opened Uniqueness
  import opened UniquenessRuns
  import opened UniquenessTheorems
  import opened UniquenessAttempts

  // --------------------------------------------------------------- settings

  /** Positive settings are used as they are; the rest have these defaults (in nanoseconds where they are times). */
  lemma SettingsExactly(cfg: Config)
    ensures MaxAttempts(cfg) == if cfg.attempts > 0 then cfg.attempts else 8
    ensures RecheckMax(cfg) == if cfg.rechecks > 0 then cfg.rechecks else 0
    ensures Stagger(cfg) == if cfg.stagger > 0 then cfg.stagger else if cfg.stagger == 0 then 3_000_000_000 else 0
    ensures BackoffBase(cfg) == if cfg.backoff > 0 then cfg.backoff else 8_000_000_000
    ensures RecheckEvery(cfg) == if cfg.recheckEvery > 0 then cfg.recheckEvery else 60_000_000_000
  {}

  /** The backoff doubles with each of the first four attempts, and is a minute at most. */
  lemma BackoffByAttempt(cfg: Config, attempt: int)
    requires BackoffBase(cfg) < 0x1000_0000_0000_0000
    ensures AttemptBackoff(cfg, attempt)
         == Min(BackoffBase(cfg) * (if attempt <= 1 then 1 else if attempt == 2 then 2 else if attempt == 3 then 4 else 8),
                60_000_000_000)
  {
    var base := BackoffBase(cfg);
    var shift := if attempt <= 1 then 0 else if attempt - 1 > 3 then 3 else attempt - 1;
    assert Pow2(1) == 2 * Pow2(0) && Pow2(2) == 2 * Pow2(1) && Pow2(3) == 2 * Pow2(2);
    hide Pow2, BackoffBase;
    ShiftsBelowOverflow(base, shift);
    hide ShiftLeft;
  }

  // -------------------------------------------------------------- one visit

  /** Some admitted backend has the address. */
  predicate InUse(slots: seq<Slot>, ip: string) {
    exists j :: 0 <= j < |slots| && slots[j].phase == InPool && slots[j].ip == ip
  }

  /** No registration was started less than the stagger ago. */
  predicate PastStagger(cfg: Config, e: Engine, at: int) {
    Stagger(cfg) == 0 || e.lastStart == None || at - e.lastStart.value >= Stagger(cfg)
  }

  /** What is done with a ready backend. */
  function RecordOf(cfg: Config, e: Engine, i: nat, v: Visit): Record
    requires i < |e.slots| && v.probe.Some?
  {
    if !e.firstOK then FirstAdmit(i)
    else if !cfg.effort then FreeAdmit(i)
    else if !InUse(e.slots, v.probe.value) then UniqueAdmit(i)
    else if e.slots[i].tries >= MaxAttempts(cfg) then if cfg.strict then CeilingPark(i) else CeilingAdmit(i)
    else if !cfg.managed then if cfg.strict then AttachPark(i) else AttachAdmit(i)
    else if PastStagger(cfg, e, v.start) then TickStart(i, v.start, v.regOk)
    else Deferred(i)
  }

  /** Where that leaves it. */
  predicate LeftAt(cfg: Config, s: Slot, s': Slot, r: Record, v: Visit)
    requires v.probe.Some?
  {
    && s'.phase == (if r.Deferred? || r.TickStart? then Warming else if r.CeilingPark? || r.AttachPark? then Parked else InPool)
    && s'.ip == (if r.Deferred? || r.TickStart? then s.ip else v.probe.value)
    && s'.tries == s.tries + (if r.FirstAdmit? || r.FreeAdmit? || r.UniqueAdmit? then 0 else 1)
    && s'.retry == (if r.UniqueAdmit? || r.CeilingPark? || r.CeilingAdmit? then None
                    else if r.Deferred? then Some(v.done + Stagger(cfg))
                    else if r.TickStart? then Some(v.done + AttemptBackoff(cfg, s'.tries))
                    else s.retry)
    && s'.rechecks == s.rechecks
  }

  /** What that adds to the counters. */
  predicate CountedAs(t: Stats, t': Stats, r: Record) {
    && t'.admittedUnique == t.admittedUnique + (if r.FirstAdmit? || r.UniqueAdmit? then 1 else 0)
    && t'.admittedResidual == t.admittedResidual + (if r.FreeAdmit? || r.CeilingAdmit? || r.AttachAdmit? then 1 else 0)
    && t'.collisions == t.collisions + (if IsCollision(r) then 1 else 0)
    && t'.reregAttempts == t.reregAttempts + (if r.TickStart? then 1 else 0)
    && t'.reregSuccess == t.reregSuccess + (if r.TickStart? && r.ok then 1 else 0)
    && t'.reregFail == t.reregFail + (if r.TickStart? && !r.ok then 1 else 0)
    && t'.recheckRuns == t.recheckRuns && t'.recheckCollisions == t.recheckCollisions
  }

  /** A visit, exactly: who is left alone, and what is done with everybody else. */
  lemma VisitExactly(cfg: Config, e: Engine, i: nat, now: int, v: Visit)
    requires i < |e.slots| && (v.probe.Some? ==> v.probe.value != "")
    ensures var e' := VisitSlot(cfg, e, i, now, v);
            if !IsReady(e.slots[i], now, v) then e' == e
            else
              var r := RecordOf(cfg, e, i, v);
              && e'.history == e.history + [r]
              && e'.slots == e.slots[i := e'.slots[i]] && LeftAt(cfg, e.slots[i], e'.slots[i], r, v)
              && CountedAs(e.stats, e'.stats, r)
              && e'.firstOK && e'.lastRecheck == e.lastRecheck
              && e'.lastStart == if r.TickStart? then Some(v.start) else e.lastStart
  {
    ReadyIsActing(e.slots[i], now, v);
    if v.probe.Some? { UsedMeansInUse(e.slots, v.probe.value); }
    hide UsedIPs, InUse, AttemptBackoff, Stagger;
  }

  lemma UsedMeansInUse(slots: seq<Slot>, ip: string)
    requires ip != ""
    ensures ip in UsedIPs(slots) <==> InUse(slots, ip)
  {}

  // ------------------------------------------------------------ one recheck

  /** What the refresh pass has left of `e` when it has done the places from `i` on. */
  predicate Retagged(e: Engine, f: Engine, vs: seq<Visit>, i: nat, completed: bool, found: int)
    requires |vs| == |e.slots|
  {
    && |f.slots| == |e.slots| && f == e.(slots := f.slots, stats := f.stats)
    && f.stats.(recheckCollisions := 0) == e.stats.(recheckCollisions := 0)
    && f.stats.recheckCollisions == e.stats.recheckCollisions + found
    && (forall j :: 0 <= j < |vs| ==> f.slots[j] == e.slots[j].(ip := f.slots[j].ip))
    && (forall j :: i <= j < |vs| && completed ==>
          f.slots[j].ip == if Reached(e.slots[j], vs[j]) then vs[j].probe.value else e.slots[j].ip)
    && (forall j :: 0 <= j < i && j < |vs| ==> f.slots[j] == e.slots[j])
  }

  /** The refresh pass: every backend it reached has its probe for a tag, and nothing else about the backends changes. */
  lemma {:induction false} RetagExactly(e: Engine, vs: seq<Visit>, i: nat, seen: map<string, nat>, cs: seq<nat>)
    requires |vs| == |e.slots| && i <= |vs| && NonEmptyProbes(vs) && forall k :: 0 <= k < |cs| ==> cs[k] < |e.slots|
    ensures var (f, found, completed) := Retag(e, vs, i, seen, cs);
            && (completed <==> forall j :: i <= j < |vs| ==> !vs[j].cancelled)
            && Retagged(e, f, vs, i, completed, |found| - |cs|)
    decreases |vs| - i
  {
    hide Tagged, Retagged;
    if i == |vs| || vs[i].cancelled {
      NothingRetagged(e, vs, i, !(i < |vs|));
    } else {
      ReachedIsRechecked(e.slots[i], vs[i]);
      var (f, found, completed) := Retag(e, vs, i, seen, cs);
      if Rechecked(e.slots[i], vs[i]) {
        var (g, seen', cs') := Tagged(e, i, vs[i].probe.value, seen, cs);
        RetagExactly(g, vs, i + 1, seen', cs');
        TagThenRest(e, g, f, vs, i, seen, cs, completed, |found| - |cs'|);
      } else {
        RetagExactly(e, vs, i + 1, seen, cs);
        SkipThenRest(e, f, vs, i, completed, |found| - |cs|);
      }
    }
  }

  lemma NothingRetagged(e: Engine, vs: seq<Visit>, i: nat, completed: bool)
    requires |vs| == |e.slots| && (completed ==> i >= |vs|)
    ensures Retagged(e, e, vs, i, completed, 0)
  {}

  lemma SkipThenRest(e: Engine, f: Engine, vs: seq<Visit>, i: nat, completed: bool, found: int)
    requires |vs| == |e.slots| && i < |vs| && !Reached(e.slots[i], vs[i]) && Retagged(e, f, vs, i + 1, completed, found)
    ensures Retagged(e, f, vs, i, completed, found)
  {}

  lemma TagThenRest(e: Engine, g: Engine, f: Engine, vs: seq<Visit>, i: nat, seen: map<string, nat>, cs: seq<nat>,
                    completed: bool, found: int)
    requires |vs| == |e.slots| && i < |vs| && NonEmptyProbes(vs) && Reached(e.slots[i], vs[i])
    requires forall k :: 0 <= k < |cs| ==> cs[k] < |e.slots|
    requires g == Tagged(e, i, vs[i].probe.value, seen, cs).0 && Retagged(g, f, vs, i + 1, completed, found)
    ensures Retagged(e, f, vs, i, completed, found + |Tagged(e, i, vs[i].probe.value, seen, cs).2| - |cs|)
  {
    assert g.slots == e.slots[i := e.slots[i].(ip := vs[i].probe.value)];
  }

  /** It has rechecks left and is not waiting. */
  predicate HasBudget(cfg: Config, s: Slot, w: Visit) {
    s.rechecks < RecheckMax(cfg) && (s.retry.Some? ==> w.start >= s.retry.value)
  }

  /** It has, and the last registration is a stagger ago. */
  predicate MaySend(cfg: Config, e: Engine, c: nat, w: Visit)
    requires c < |e.slots|
  {
    HasBudget(cfg, e.slots[c], w) && PastStagger(cfg, e, w.start)
  }

  /** The first of the colliders from the `k`-th on that may be sent, or their number. */
  function FirstToSend(cfg: Config, e: Engine, cs: seq<nat>, ws: seq<Visit>, k: nat): (j: nat)
    requires |ws| == |e.slots| && k <= |cs| && forall a :: 0 <= a < |cs| ==> cs[a] < |e.slots|
    ensures k <= j <= |cs|
    ensures forall a :: k <= a < j ==> !MaySend(cfg, e, cs[a], ws[cs[a]])
    ensures j < |cs| ==> MaySend(cfg, e, cs[j], ws[cs[j]])
    decreases |cs| - k
  {
    if k == |cs| || MaySend(cfg, e, cs[k], ws[cs[k]]) then k else FirstToSend(cfg, e, cs, ws, k + 1)
  }

  predicate Ascending(cs: seq<nat>) {
    forall a, b :: 0 <= a < b < |cs| ==> cs[a] < cs[b]
  }

  /** What the eviction pass leaves a backend with: the one sent backs off, those held up before it wait a stagger, the rest stay. */
  predicate EvictedTo(cfg: Config, e: Engine, f: Engine, cs: seq<nat>, ws: seq<Visit>, k: nat, j: nat)
    requires |ws| == |e.slots| == |f.slots| && k <= j <= |cs| && forall a :: 0 <= a < |cs| ==> cs[a] < |e.slots|
  {
    && (j < |cs| ==> BackingOff(cfg, e.slots[cs[j]], f.slots[cs[j]], ws[cs[j]]))
    && (forall a :: k <= a < j ==>
          f.slots[cs[a]] == if HasBudget(cfg, e.slots[cs[a]], ws[cs[a]])
                            then e.slots[cs[a]].(retry := Some(ws[cs[a]].done + Stagger(cfg)))
                            else e.slots[cs[a]])
    && (forall i :: 0 <= i < |e.slots| && (forall a :: k <= a <= j && a < |cs| ==> cs[a] != i) ==> f.slots[i] == e.slots[i])
  }

  /** The eviction pass, exactly: the first that may be sent is sent, and it alone. */
  lemma {:induction false} EvictExactly(cfg: Config, e: Engine, cs: seq<nat>, ws: seq<Visit>, k: nat)
    requires |ws| == |e.slots| && k <= |cs| && Ascending(cs) && forall a :: 0 <= a < |cs| ==> cs[a] < |e.slots|
    ensures EvictedExactly(cfg, e, Evict(cfg, e, cs, ws, k), cs, ws, k)
    decreases |cs| - k
  {
    hide EvictedExactly, SentAgain;
    if k == |cs| || RecheckMax(cfg) == 0 {
      if RecheckMax(cfg) == 0 { NobodyHasBudget(cfg, e, cs, ws, k); }
      NobodySent(cfg, e, cs, ws, k);
    } else {
      var c, w := cs[k], ws[cs[k]];
      StaggersAgree(cfg, e, w.start);
      if !MayEvict(cfg, e.slots[c], w) {
        EvictExactly(cfg, e, cs, ws, k + 1);
        HeldUp(cfg, e, e, Evict(cfg, e, cs, ws, k + 1), cs, ws, k);
      } else if !StaggerOver(cfg, e, w.start) {
        var g := e.(slots := e.slots[c := e.slots[c].(retry := Some(w.done + Stagger(cfg)))]);
        EvictExactly(cfg, g, cs, ws, k + 1);
        HeldUp(cfg, e, g, Evict(cfg, g, cs, ws, k + 1), cs, ws, k);
      } else {
        SentNow(cfg, e, cs, ws, k);
      }
    }
  }

  /** The pass from the `k`-th collider on, in full. */
  predicate EvictedExactly(cfg: Config, e: Engine, f: Engine, cs: seq<nat>, ws: seq<Visit>, k: nat)
    requires |ws| == |e.slots| == |f.slots| && k <= |cs| && forall a :: 0 <= a < |cs| ==> cs[a] < |e.slots|
  {
    var j := FirstToSend(cfg, e, cs, ws, k);
    && f.history == e.history + (if j < |cs| then [RecheckStart(cs[j], ws[cs[j]].start, ws[cs[j]].regOk)] else [])
    && f.lastStart == (if j < |cs| then Some(ws[cs[j]].start) else e.lastStart)
    && EvictedTo(cfg, e, f, cs, ws, k, j)
    && f.lastRecheck == e.lastRecheck && f.firstOK == e.firstOK
    && f.stats.recheckRuns == e.stats.recheckRuns && f.stats.recheckCollisions == e.stats.recheckCollisions
  }

  lemma NobodySent(cfg: Config, e: Engine, cs: seq<nat>, ws: seq<Visit>, k: nat)
    requires |ws| == |e.slots| && k <= |cs| && forall a :: 0 <= a < |cs| ==> cs[a] < |e.slots|
    requires k == |cs| || RecheckMax(cfg) == 0
    ensures EvictedExactly(cfg, e, e, cs, ws, k)
  {
    NobodyHasBudgetOrNobody(cfg, e, cs, ws, k);
    hide FirstToSend, BackingOff;
  }

  lemma NobodyHasBudgetOrNobody(cfg: Config, e: Engine, cs: seq<nat>, ws: seq<Visit>, k: nat)
    requires |ws| == |e.slots| && k <= |cs| && forall a :: 0 <= a < |cs| ==> cs[a] < |e.slots|
    requires k == |cs| || RecheckMax(cfg) == 0
    ensures FirstToSend(cfg, e, cs, ws, k) == |cs|
  {
    if RecheckMax(cfg) == 0 { NobodyHasBudget(cfg, e, cs, ws, k); }
  }

  lemma SentNow(cfg: Config, e: Engine, cs: seq<nat>, ws: seq<Visit>, k: nat)
    requires |ws| == |e.slots| && k < |cs| && Ascending(cs) && forall a :: 0 <= a < |cs| ==> cs[a] < |e.slots|
    requires MaySend(cfg, e, cs[k], ws[cs[k]])
    ensures EvictedExactly(cfg, e, SentAgain(cfg, e, cs[k], ws[cs[k]]), cs, ws, k)
  {
    hide AttemptBackoff, Stagger;
    assert FirstToSend(cfg, e, cs, ws, k) == k;
  }

  /** A collider that may not be sent is passed over: at most it now waits. */
  lemma HeldUp(cfg: Config, e: Engine, g: Engine, f: Engine, cs: seq<nat>, ws: seq<Visit>, k: nat)
    requires |ws| == |e.slots| == |f.slots| && k < |cs| && Ascending(cs) && forall a :: 0 <= a < |cs| ==> cs[a] < |e.slots|
    requires !MaySend(cfg, e, cs[k], ws[cs[k]])
    requires g == if HasBudget(cfg, e.slots[cs[k]], ws[cs[k]])
                  then e.(slots := e.slots[cs[k] := e.slots[cs[k]].(retry := Some(ws[cs[k]].done + Stagger(cfg)))])
                  else e
    requires EvictedExactly(cfg, g, f, cs, ws, k + 1)
    ensures EvictedExactly(cfg, e, f, cs, ws, k)
  {
    SameFirstToSend(cfg, e, g, cs, ws, k + 1);
    var j := FirstToSend(cfg, e, cs, ws, k);
    assert j == FirstToSend(cfg, e, cs, ws, k + 1);
    hide FirstToSend, EvictedTo, Stagger, HasBudget, MaySend;
    HeldUpSlots(cfg, e, g, f, cs, ws, k, j);
  }

  lemma HeldUpSlots(cfg: Config, e: Engine, g: Engine, f: Engine, cs: seq<nat>, ws: seq<Visit>, k: nat, j: nat)
    requires |ws| == |e.slots| == |g.slots| == |f.slots| && Ascending(cs) && forall a :: 0 <= a < |cs| ==> cs[a] < |e.slots|
    requires k < j <= |cs| && EvictedTo(cfg, g, f, cs, ws, k + 1, j)
    requires g.slots[cs[k]] == if HasBudget(cfg, e.slots[cs[k]], ws[cs[k]])
                               then e.slots[cs[k]].(retry := Some(ws[cs[k]].done + Stagger(cfg)))
                               else e.slots[cs[k]]
    requires forall i :: 0 <= i < |e.slots| && i != cs[k] ==> g.slots[i] == e.slots[i]
    ensures EvictedTo(cfg, e, f, cs, ws, k, j)
  {
    hide BackingOff, Stagger, HasBudget;
    assert forall a :: k < a < |cs| ==> cs[a] != cs[k];
    forall i | 0 <= i < |e.slots| && (forall a :: k <= a <= j && a < |cs| ==> cs[a] != i) ensures f.slots[i] == e.slots[i] {
      assert cs[k] != i;
    }
  }

  lemma StaggersAgree(cfg: Config, e: Engine, at: int)
    ensures PastStagger(cfg, e, at) <==> StaggerOver(cfg, e, at)
  {}

  lemma {:induction false} NobodyHasBudget(cfg: Config, e: Engine, cs: seq<nat>, ws: seq<Visit>, k: nat)
    requires |ws| == |e.slots| && k <= |cs| && (forall a :: 0 <= a < |cs| ==> cs[a] < |e.slots|) && RecheckMax(cfg) == 0
    ensures FirstToSend(cfg, e, cs, ws, k) == |cs|
    decreases |cs| - k
  {
    if k < |cs| { NobodyHasBudget(cfg, e, cs, ws, k + 1); }
  }

  lemma {:induction false} SameFirstToSend(cfg: Config, e: Engine, f: Engine, cs: seq<nat>, ws: seq<Visit>, k: nat)
    requires |ws| == |e.slots| == |f.slots| && k <= |cs| && forall a :: 0 <= a < |cs| ==> cs[a] < |e.slots|
    requires f.lastStart == e.lastStart && forall a :: k <= a < |cs| ==> f.slots[cs[a]] == e.slots[cs[a]]
    ensures FirstToSend(cfg, f, cs, ws, k) == FirstToSend(cfg, e, cs, ws, k)
    decreases |cs| - k
  {
    if k < |cs| { SameFirstToSend(cfg, e, f, cs, ws, k + 1); }
  }

  /** Rechecks are on, and the last one is long enough ago. */
  predicate IsDue(cfg: Config, e: Engine, at: int) {
    cfg.effort && cfg.managed && (e.lastRecheck == None || at - e.lastRecheck.value >= RecheckEvery(cfg))
  }

  predicate Uncancelled(vs: seq<Visit>) {
    forall i :: 0 <= i < |vs| ==> !vs[i].cancelled
  }

  /** A recheck that is not due changes nothing; one that is cancelled on its way sends nobody. */
  lemma RecheckNotDue(cfg: Config, e: Engine, at: int, vs: seq<Visit>, ws: seq<Visit>)
    requires |vs| == |ws| == |e.slots| && NonEmptyProbes(vs)
    ensures var f := Recheck(cfg, e, at, vs, ws);
            && (!IsDue(cfg, e, at) ==> f == e)
            && (IsDue(cfg, e, at) ==> f.lastRecheck == Some(at) && f.stats.recheckRuns == e.stats.recheckRuns + 1)
            && (!Uncancelled(vs) ==> f.history == e.history && f.lastStart == e.lastStart)
  {
    if IsDue(cfg, e, at) {
      var g := e.(lastRecheck := Some(at), stats := e.stats.(recheckRuns := e.stats.recheckRuns + 1));
      RetagExactly(g, vs, 0, map[], []);
      CollidersAscend(g, vs);
      hide Evict, Retag;
      var (h, cs, completed) := Retag(g, vs, 0, map[], []);
      if completed { EvictExactly(cfg, h, cs, ws, 0); }
    }
  }

  lemma CollidersAscend(e: Engine, vs: seq<Visit>)
    requires |vs| == |e.slots|
    ensures Retag(e, vs, 0, map[], []).2 ==> Ascending(Retag(e, vs, 0, map[], []).1)
  {
    hide Retag;
    RecheckFindsEveryCollision(e, vs);
  }

  /**
   A due recheck, exactly: it is counted and timed; every backend it reached has its probe for a tag; the
   backends that share an earlier one's probe are found, all of them; and the first of those that has
   budget, is not waiting and is past the stagger is sent to register again, and nobody else.
   */
  lemma RecheckExactly(cfg: Config, e: Engine, at: int, vs: seq<Visit>, ws: seq<Visit>) returns (cs: seq<nat>)
    requires |vs| == |ws| == |e.slots| && NonEmptyProbes(vs) && IsDue(cfg, e, at) && Uncancelled(vs)
    ensures ReportsExactly(e.slots, vs, cs) && forall a :: 0 <= a < |cs| ==> cs[a] < |e.slots|
    ensures var f := Recheck(cfg, e, at, vs, ws);
            var j := FirstToSend(cfg, e, cs, ws, 0);
            && f.lastRecheck == Some(at)
            && f.stats.recheckRuns == e.stats.recheckRuns + 1
            && f.stats.recheckCollisions == e.stats.recheckCollisions + |cs|
            && (forall i :: 0 <= i < |vs| ==>
                  f.slots[i].ip == if Reached(e.slots[i], vs[i]) then vs[i].probe.value else e.slots[i].ip)
            && f.history == e.history + (if j < |cs| then [RecheckStart(cs[j], ws[cs[j]].start, ws[cs[j]].regOk)] else [])
  {
    var g := e.(lastRecheck := Some(at), stats := e.stats.(recheckRuns := e.stats.recheckRuns + 1));
    RetagExactly(g, vs, 0, map[], []);
    RecheckFindsEveryCollision(g, vs);
    RetagFindsShadows(g, vs, 0, map[], []);
    var h := Retag(g, vs, 0, map[], []).0;
    cs := Retag(g, vs, 0, map[], []).1;
    assert Recheck(cfg, e, at, vs, ws) == Evict(cfg, h, cs, ws, 0);
    hide Evict, Retag, ReportsExactly, Doubled, Cosmetic;
    CollidersAscend(g, vs);
    EvictExactly(cfg, h, cs, ws, 0);
    SameFirstAfterTags(cfg, e, h, cs, ws, 0);
    EvictionIsHarmless(cfg, h, cs, ws, 0);
  }

  lemma {:induction false} SameFirstAfterTags(cfg: Config, e: Engine, f: Engine, cs: seq<nat>, ws: seq<Visit>, k: nat)
    requires |ws| == |e.slots| == |f.slots| && k <= |cs| && forall a :: 0 <= a < |cs| ==> cs[a] < |e.slots|
    requires f.lastStart == e.lastStart
    requires forall i :: 0 <= i < |e.slots| ==> f.slots[i].rechecks == e.slots[i].rechecks && f.slots[i].retry == e.slots[i].retry
    ensures FirstToSend(cfg, f, cs, ws, k) == FirstToSend(cfg, e, cs, ws, k)
    decreases |cs| - k
  {
    if k < |cs| { SameFirstAfterTags(cfg, e, f, cs, ws, k + 1); }
  }
}
