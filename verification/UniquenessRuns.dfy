/** What the uniqueness engine keeps over every run, whatever the probes, registrations and clocks do. */
module UniquenessRuns {
  import opened Prelude
  import opened Breaker
  import opened Uniqueness

  // ---------------------------------------------------- counting in history

  function Evictions(h: seq<Record>): nat {
    if h == [] then 0
    else Evictions(h[..|h| - 1]) + if h[|h| - 1].RecheckStart? && h[|h| - 1].ok then 1 else 0
  }

  /** Times of the registrations started, in order. */
  function Starts(h: seq<Record>): seq<int> {
    if h == [] then []
    else
      var r := h[|h| - 1];
      Starts(h[..|h| - 1]) + if r.TickStart? || r.RecheckStart? then [r.at] else []
  }

  function TickStarts(h: seq<Record>, i: nat): nat {
    if h == [] then 0
    else TickStarts(h[..|h| - 1], i) + if h[|h| - 1].TickStart? && h[|h| - 1].i == i then 1 else 0
  }

  function RecheckStarts(h: seq<Record>, i: nat): nat {
    if h == [] then 0
    else RecheckStarts(h[..|h| - 1], i) + if h[|h| - 1].RecheckStart? && h[|h| - 1].i == i then 1 else 0
  }

  predicate IsCollision(r: Record) {
    r.CeilingAdmit? || r.CeilingPark? || r.AttachAdmit? || r.AttachPark? || r.Deferred? || r.TickStart?
  }

  /** Visits that found the backend's address taken. */
  function CollisionsOf(h: seq<Record>, i: nat): nat {
    if h == [] then 0
    else CollisionsOf(h[..|h| - 1], i) + if IsCollision(h[|h| - 1]) && h[|h| - 1].i == i then 1 else 0
  }

  lemma Appended(h: seq<Record>, r: Record)
    ensures Evictions(h + [r]) == Evictions(h) + if r.RecheckStart? && r.ok then 1 else 0
    ensures Starts(h + [r]) == Starts(h) + if r.TickStart? || r.RecheckStart? then [r.at] else []
    ensures forall i :: TickStarts(h + [r], i) == TickStarts(h, i) + if r.TickStart? && r.i == i then 1 else 0
    ensures forall i :: CollisionsOf(h + [r], i) == CollisionsOf(h, i) + if IsCollision(r) && r.i == i then 1 else 0
    ensures forall i :: RecheckStarts(h + [r], i) == RecheckStarts(h, i) + if r.RecheckStart? && r.i == i then 1 else 0
  {
    assert (h + [r])[..|h|] == h;
  }

  // -------------------------------------------------- totals over the slots

  datatype Quantity = Pooled | WarmingUp | ParkedAway | Tries | Work

  /** One slot's share of a quantity; Work is what is left for the engine to do to it. */
  function Share(cfg: Config, q: Quantity, s: Slot): int {
    match q
    case Pooled => if s.phase == InPool then 1 else 0
    case WarmingUp => if s.phase == Warming then 1 else 0
    case ParkedAway => if s.phase == Parked then 1 else 0
    case Tries => s.tries
    case Work =>
      2 * (RecheckMax(cfg) - s.rechecks)
      + (MaxAttempts(cfg) + 1 - Min(s.tries, MaxAttempts(cfg) + 1))
      + (if s.phase == Warming then 1 else 0)
  }

  function Shares(cfg: Config, q: Quantity, slots: seq<Slot>): seq<int> {
    seq(|slots|, i requires 0 <= i < |slots| => Share(cfg, q, slots[i]))
  }

  function Total(cfg: Config, q: Quantity, slots: seq<Slot>): int {
    Sum(Shares(cfg, q, slots))
  }

  lemma TotalMoves(cfg: Config, q: Quantity, slots: seq<Slot>, i: nat, s: Slot)
    requires i < |slots|
    ensures Total(cfg, q, slots[i := s]) == Total(cfg, q, slots) - Share(cfg, q, slots[i]) + Share(cfg, q, s)
  {
    SumUpdate(Shares(cfg, q, slots), i, Share(cfg, q, s));
    assert Shares(cfg, q, slots[i := s]) == Shares(cfg, q, slots)[i := Share(cfg, q, s)];
  }

  // -------------------------------------------------------------- invariant

  /** What holds of each backend. */
  predicate SlotInv(cfg: Config, h: seq<Record>, i: nat, s: Slot) {
    && s.rechecks == RecheckStarts(h, i) <= RecheckMax(cfg)
    && s.tries == CollisionsOf(h, i)
    && TickStarts(h, i) <= Min(s.tries, MaxAttempts(cfg))
    && s.tries <= MaxAttempts(cfg) + s.rechecks + (if s.phase == Warming then 0 else 1)
    && (s.phase == Parked ==> cfg.strict)
    && (s.phase == InPool ==> s.ip != "")
  }

  /** What holds of the counters. */
  predicate CountInv(cfg: Config, e: Engine) {
    && Total(cfg, Pooled, e.slots) == e.stats.admittedUnique + e.stats.admittedResidual - Evictions(e.history)
    && e.stats.collisions == Total(cfg, Tries, e.slots)
    && e.stats.reregAttempts == e.stats.reregSuccess + e.stats.reregFail == |Starts(e.history)|
    && (cfg.effort && cfg.strict ==> e.stats.admittedResidual == 0)
  }

  /** The work left plus the work done never exceeds what there was. */
  predicate WorkInv(cfg: Config, e: Engine) {
    |e.history| + Total(cfg, Work, e.slots) <= |e.slots| * (2 * RecheckMax(cfg) + MaxAttempts(cfg) + 2)
  }

  predicate Spaced(gap: int, ts: seq<int>) {
    forall k :: 0 <= k < |ts| - 1 ==> ts[k + 1] - ts[k] >= gap
  }

  /** The engine remembers its last start, and starts keep their distance. */
  predicate PaceInv(cfg: Config, e: Engine) {
    var ts := Starts(e.history);
    && e.lastStart == (if ts == [] then None else Some(ts[|ts| - 1]))
    && (Stagger(cfg) > 0 ==> Spaced(Stagger(cfg), ts))
  }

  predicate SlotsInv(cfg: Config, e: Engine) {
    forall i :: 0 <= i < |e.slots| ==> SlotInv(cfg, e.history, i, e.slots[i])
  }

  predicate NonEmptyPool(slots: seq<Slot>) {
    exists i :: 0 <= i < |slots| && slots[i].phase == InPool
  }

  predicate Inv(cfg: Config, e: Engine) {
    && SlotsInv(cfg, e) && CountInv(cfg, e) && WorkInv(cfg, e) && PaceInv(cfg, e)
    && (e.firstOK <==> NonEmptyPool(e.slots))
  }

  /** An acting visit is one of these: one slot, one record, and counters to match. */
  predicate OneAct(cfg: Config, e: Engine, e': Engine, i: nat) {
    && i < |e.slots| && |e'.slots| == |e.slots|
    && e'.slots == e.slots[i := e'.slots[i]]
    && |e'.history| == |e.history| + 1 && e'.history[..|e.history|] == e.history
    && e'.history[|e.history|].i == i
  }

  lemma VisitShape(cfg: Config, e: Engine, i: nat, now: int, v: Visit)
    requires i < |e.slots| && Acts(e.slots[i], now, v)
    ensures OneAct(cfg, e, VisitSlot(cfg, e, i, now, v), i)
  {
    var e' := VisitSlot(cfg, e, i, now, v);
    assert e'.history == e.history + [e'.history[|e.history|]];
  }

  /** Numbers one act moves: the history's counts by its record, each total by its slot. */
  lemma ActMoves(cfg: Config, e: Engine, e': Engine, i: nat)
    requires OneAct(cfg, e, e', i)
    ensures var r := e'.history[|e.history|];
            && e'.history == e.history + [r]
            && Evictions(e'.history) == Evictions(e.history) + (if r.RecheckStart? && r.ok then 1 else 0)
            && Starts(e'.history) == Starts(e.history) + (if r.TickStart? || r.RecheckStart? then [r.at] else [])
            && (forall j :: TickStarts(e'.history, j) == TickStarts(e.history, j) + if r.TickStart? && i == j then 1 else 0)
            && (forall j :: CollisionsOf(e'.history, j) == CollisionsOf(e.history, j) + if IsCollision(r) && i == j then 1 else 0)
            && (forall j :: RecheckStarts(e'.history, j) == RecheckStarts(e.history, j) + if r.RecheckStart? && i == j then 1 else 0)
    ensures forall q {:trigger Total(cfg, q, e'.slots)} ::
              Total(cfg, q, e'.slots) == Total(cfg, q, e.slots) - Share(cfg, q, e.slots[i]) + Share(cfg, q, e'.slots[i])
  {
    var r := e'.history[|e.history|];
    assert e'.history == e.history + [r];
    Appended(e.history, r);
    forall q ensures Total(cfg, q, e'.slots) == Total(cfg, q, e.slots) - Share(cfg, q, e.slots[i]) + Share(cfg, q, e'.slots[i]) {
      TotalMoves(cfg, q, e.slots, i, e'.slots[i]);
    }
  }

  lemma VisitKeepsSlots(cfg: Config, e: Engine, i: nat, now: int, v: Visit)
    requires i < |e.slots| && Acts(e.slots[i], now, v) && v.probe.value != "" && SlotsInv(cfg, e)
    ensures SlotsInv(cfg, VisitSlot(cfg, e, i, now, v))
  {
    var e' := VisitSlot(cfg, e, i, now, v);
    VisitShape(cfg, e, i, now, v);
    ActMoves(cfg, e, e', i);
    assert SlotInv(cfg, e.history, i, e.slots[i]);
    assert SlotInv(cfg, e'.history, i, e'.slots[i]);
    hide VisitSlot;
    forall j | 0 <= j < |e'.slots| ensures SlotInv(cfg, e'.history, j, e'.slots[j]) {
      if j != i { assert SlotInv(cfg, e.history, j, e.slots[j]); }
    }
  }

  /** One act's counters against its slot: every admission, collision and start is counted, and some work gets done. */
  predicate Balanced(cfg: Config, e: Engine, e': Engine, i: nat)
    requires OneAct(cfg, e, e', i)
  {
    var (s, s', r) := (e.slots[i], e'.slots[i], e'.history[|e.history|]);
    var started := if r.TickStart? || r.RecheckStart? then 1 else 0;
    && Share(cfg, Pooled, s') - Share(cfg, Pooled, s)
       == (e'.stats.admittedUnique - e.stats.admittedUnique) + (e'.stats.admittedResidual - e.stats.admittedResidual)
          - (if r.RecheckStart? && r.ok then 1 else 0)
    && e'.stats.collisions - e.stats.collisions == s'.tries - s.tries
    && e'.stats.reregAttempts == e.stats.reregAttempts + started
    && e'.stats.reregSuccess + e'.stats.reregFail == e.stats.reregSuccess + e.stats.reregFail + started
    && (cfg.effort && cfg.strict ==> e'.stats.admittedResidual == e.stats.admittedResidual)
    && Share(cfg, Work, s') + 1 <= Share(cfg, Work, s)
  }

  lemma VisitBalances(cfg: Config, e: Engine, i: nat, now: int, v: Visit)
    requires i < |e.slots| && Acts(e.slots[i], now, v)
    ensures OneAct(cfg, e, VisitSlot(cfg, e, i, now, v), i)
    ensures Balanced(cfg, e, VisitSlot(cfg, e, i, now, v), i)
  {
    VisitShape(cfg, e, i, now, v);
    hide UsedIPs, AttemptBackoff;
  }

  lemma ActKeepsCounts(cfg: Config, e: Engine, e': Engine, i: nat)
    requires OneAct(cfg, e, e', i) && Balanced(cfg, e, e', i)
    requires CountInv(cfg, e) && WorkInv(cfg, e)
    ensures CountInv(cfg, e') && WorkInv(cfg, e')
  {
    ActMoves(cfg, e, e', i);
    hide Total, Evictions, Starts;
  }

  lemma VisitKeepsPace(cfg: Config, e: Engine, i: nat, now: int, v: Visit)
    requires i < |e.slots| && Acts(e.slots[i], now, v) && PaceInv(cfg, e)
    ensures PaceInv(cfg, VisitSlot(cfg, e, i, now, v))
  {
    var e' := VisitSlot(cfg, e, i, now, v);
    VisitShape(cfg, e, i, now, v);
    ActMoves(cfg, e, e', i);
    hide Starts, Total, UsedIPs;
  }

  lemma VisitKeepsFirst(cfg: Config, e: Engine, i: nat, now: int, v: Visit)
    requires i < |e.slots| && Acts(e.slots[i], now, v) && (e.firstOK <==> NonEmptyPool(e.slots))
    ensures var e' := VisitSlot(cfg, e, i, now, v); e'.firstOK <==> NonEmptyPool(e'.slots)
  {
    var e' := VisitSlot(cfg, e, i, now, v);
    VisitShape(cfg, e, i, now, v);
    if NonEmptyPool(e.slots) {
      var j :| 0 <= j < |e.slots| && e.slots[j].phase == InPool;
      assert j != i && e'.slots[j] == e.slots[j];
    } else {
      assert e'.slots[i].phase == InPool;
    }
  }

  lemma VisitKeepsInv(cfg: Config, e: Engine, i: nat, now: int, v: Visit)
    requires i < |e.slots| && Inv(cfg, e) && (v.probe.Some? ==> v.probe.value != "")
    ensures Inv(cfg, VisitSlot(cfg, e, i, now, v))
  {
    if Acts(e.slots[i], now, v) {
      VisitKeepsSlots(cfg, e, i, now, v);
      VisitBalances(cfg, e, i, now, v);
      ActKeepsCounts(cfg, e, VisitSlot(cfg, e, i, now, v), i);
      VisitKeepsPace(cfg, e, i, now, v);
      VisitKeepsFirst(cfg, e, i, now, v);
    }
  }

  lemma {:induction false} TickKeepsInv(cfg: Config, e: Engine, now: int, vs: seq<Visit>, i: nat)
    requires |vs| == |e.slots| && NonEmptyProbes(vs) && Inv(cfg, e)
    ensures Inv(cfg, Tick(cfg, e, now, vs, i))
    decreases |vs| - i
  {
    hide Inv, VisitSlot;
    if i < |vs| && !vs[i].cancelled {
      VisitKeepsInv(cfg, e, i, now, vs[i]);
      TickKeepsInv(cfg, VisitSlot(cfg, e, i, now, vs[i]), now, vs, i + 1);
    }
  }

  // ---------------------------------------------------------------- recheck

  /** Nothing that matters to the invariant changed: only tags, retry times and the recheck's own counters. */
  predicate Cosmetic(e: Engine, e': Engine) {
    && |e'.slots| == |e.slots|
    && e'.firstOK == e.firstOK && e'.lastStart == e.lastStart && e'.history == e.history
    && e'.stats.(recheckRuns := 0, recheckCollisions := 0) == e.stats.(recheckRuns := 0, recheckCollisions := 0)
    && forall i :: 0 <= i < |e.slots| ==> CosmeticSlot(e.slots[i], e'.slots[i])
  }

  predicate CosmeticSlot(s: Slot, s': Slot) {
    && s'.phase == s.phase && s'.tries == s.tries && s'.rechecks == s.rechecks
    && (s.phase == InPool && s.ip != "" ==> s'.ip != "")
  }

  lemma CosmeticKeepsInv(cfg: Config, e: Engine, e': Engine)
    requires Inv(cfg, e) && Cosmetic(e, e')
    ensures Inv(cfg, e')
  {
    forall q ensures Total(cfg, q, e'.slots) == Total(cfg, q, e.slots) {
      assert Shares(cfg, q, e'.slots) == Shares(cfg, q, e.slots);
    }
    hide Total;
    forall i | 0 <= i < |e'.slots| ensures SlotInv(cfg, e'.history, i, e'.slots[i]) {
      assert SlotInv(cfg, e.history, i, e.slots[i]);
    }
    if NonEmptyPool(e.slots) {
      var j :| 0 <= j < |e.slots| && e.slots[j].phase == InPool;
      assert e'.slots[j].phase == InPool;
    }
  }

  lemma CosmeticComposes(a: Engine, b: Engine, c: Engine)
    requires Cosmetic(a, b) && Cosmetic(b, c)
    ensures Cosmetic(a, c)
  {
    forall i | 0 <= i < |a.slots| ensures CosmeticSlot(a.slots[i], c.slots[i]) {
      assert CosmeticSlot(a.slots[i], b.slots[i]) && CosmeticSlot(b.slots[i], c.slots[i]);
    }
  }

  /** Refreshing tags is cosmetic, and every collider it reports is shadowed by an earlier backend. */
  lemma {:induction false} RetagFindsShadows(e: Engine, vs: seq<Visit>, i: nat, seen: map<string, nat>, colliders: seq<nat>)
    requires |vs| == |e.slots| && NonEmptyProbes(vs) && RetagInv(e.slots, i, seen, colliders)
    ensures var (f, cs, _) := Retag(e, vs, i, seen, colliders);
            Cosmetic(e, f) && AllShadowed(f.slots, cs)
    decreases |vs| - i
  {
    NothingIsCosmetic(e);
    assert AllShadowed(e.slots, colliders);
    hide Cosmetic, AllShadowed, RetagInv;
    if i < |vs| && !vs[i].cancelled {
      if !Rechecked(e.slots[i], vs[i]) {
        RetagSkip(e.slots, i, seen, colliders);
        RetagFindsShadows(e, vs, i + 1, seen, colliders);
      } else {
        TagIsCosmetic(e, i, vs[i].probe.value, seen, colliders);
        hide Tagged;
        var (f, seen', colliders') := Tagged(e, i, vs[i].probe.value, seen, colliders);
        RetagFindsShadows(f, vs, i + 1, seen', colliders');
        CosmeticComposes(e, f, Retag(f, vs, i + 1, seen', colliders').0);
      }
    }
  }

  /** Refreshing the tag at `i` does not disturb what was found below `i`. */
  lemma RetagOne(slots: seq<Slot>, slots': seq<Slot>, i: nat, seen: map<string, nat>, colliders: seq<nat>)
    requires i < |slots| && RetagInv(slots, i, seen, colliders)
    requires |slots'| == |slots| && forall j :: 0 <= j < |slots| && j != i ==> slots'[j] == slots[j]
    ensures RetagInv(slots', i, seen, colliders)
  {
    forall k | 0 <= k < |colliders| ensures Shadowed(slots', colliders[k]) {
      assert Shadowed(slots, colliders[k]);
      var j :| 0 <= j < colliders[k] && slots[j].phase == InPool && slots[j].ip == slots[colliders[k]].ip;
      assert slots'[j] == slots[j];
    }
  }

  lemma RetagSkip(slots: seq<Slot>, i: nat, seen: map<string, nat>, colliders: seq<nat>)
    requires RetagInv(slots, i, seen, colliders)
    ensures RetagInv(slots, i + 1, seen, colliders)
  {}

  /** Having refreshed the tag at `i`, the loop has done one place more. */
  lemma RetagNext(slots: seq<Slot>, i: nat, seen: map<string, nat>, colliders: seq<nat>)
    requires i < |slots| && slots[i].phase == InPool && RetagInv(slots, i, seen, colliders)
    ensures slots[i].ip in seen ==> RetagInv(slots, i + 1, seen, colliders + [i])
    ensures slots[i].ip !in seen ==> RetagInv(slots, i + 1, seen[slots[i].ip := i], colliders)
  {
    if slots[i].ip in seen {
      assert Shadowed(slots, i) by { assert slots[seen[slots[i].ip]].ip == slots[i].ip; }
    }
  }

  lemma NothingIsCosmetic(e: Engine)
    ensures Cosmetic(e, e)
  {}

  lemma TagIsCosmetic(e: Engine, i: nat, ip: string, seen: map<string, nat>, colliders: seq<nat>)
    requires i < |e.slots| && e.slots[i].phase == InPool && ip != "" && RetagInv(e.slots, i, seen, colliders)
    ensures var (f, seen', colliders') := Tagged(e, i, ip, seen, colliders);
            Cosmetic(e, f) && RetagInv(f.slots, i + 1, seen', colliders')
  {
    var f := Tagged(e, i, ip, seen, colliders).0;
    RetagOne(e.slots, f.slots, i, seen, colliders);
    RetagNext(f.slots, i, seen, colliders);
    hide RetagInv;
  }

  lemma SendingShape(cfg: Config, e: Engine, c: nat, w: Visit)
    requires c < |e.slots| && e.slots[c].phase == InPool && e.slots[c].rechecks < RecheckMax(cfg)
    ensures OneAct(cfg, e, SentAgain(cfg, e, c, w), c)
    ensures Balanced(cfg, e, SentAgain(cfg, e, c, w), c)
  {
    var e' := SentAgain(cfg, e, c, w);
    assert e'.history == e.history + [e'.history[|e.history|]];
    hide AttemptBackoff;
  }

  lemma SendingKeepsInv(cfg: Config, e: Engine, c: nat, w: Visit)
    requires Inv(cfg, e) && Shadowed(e.slots, c)
    requires MayEvict(cfg, e.slots[c], w) && StaggerOver(cfg, e, w.start)
    ensures Inv(cfg, SentAgain(cfg, e, c, w))
  {
    var e' := SentAgain(cfg, e, c, w);
    SendingShape(cfg, e, c, w);
    ActKeepsCounts(cfg, e, e', c);
    SendingKeepsSlots(cfg, e, c, w);
    SendingKeepsPace(cfg, e, c, w);
    hide CountInv, WorkInv, SlotsInv, PaceInv, AttemptBackoff;
    var j :| 0 <= j < c && e.slots[j].phase == InPool && e.slots[j].ip == e.slots[c].ip;
    assert e'.slots[j].phase == InPool;
    assert e.firstOK by { assert NonEmptyPool(e.slots); }
  }

  lemma SendingKeepsSlots(cfg: Config, e: Engine, c: nat, w: Visit)
    requires SlotsInv(cfg, e) && c < |e.slots| && e.slots[c].phase == InPool && e.slots[c].rechecks < RecheckMax(cfg)
    ensures SlotsInv(cfg, SentAgain(cfg, e, c, w))
  {
    var e' := SentAgain(cfg, e, c, w);
    SendingShape(cfg, e, c, w);
    ActMoves(cfg, e, e', c);
    hide Total, Starts, AttemptBackoff;
    forall i | 0 <= i < |e'.slots| ensures SlotInv(cfg, e'.history, i, e'.slots[i]) {
      assert SlotInv(cfg, e.history, i, e.slots[i]);
    }
  }

  lemma SendingKeepsPace(cfg: Config, e: Engine, c: nat, w: Visit)
    requires PaceInv(cfg, e) && c < |e.slots| && e.slots[c].phase == InPool && e.slots[c].rechecks < RecheckMax(cfg)
    requires StaggerOver(cfg, e, w.start)
    ensures PaceInv(cfg, SentAgain(cfg, e, c, w))
  {
    SendingShape(cfg, e, c, w);
    ActMoves(cfg, e, SentAgain(cfg, e, c, w), c);
    hide Total, Starts, AttemptBackoff;
  }

  /** Putting off a shadowed backend is cosmetic, and keeps all the shadows. */
  lemma PutOff(e: Engine, c: nat, t: int, cs: seq<nat>)
    requires c < |e.slots| && AllShadowed(e.slots, cs)
    ensures var f := e.(slots := e.slots[c := e.slots[c].(retry := Some(t))]);
            Cosmetic(e, f) && AllShadowed(f.slots, cs) && UsedIPs(f.slots) == UsedIPs(e.slots)
  {
    var f := e.(slots := e.slots[c := e.slots[c].(retry := Some(t))]);
    forall k | 0 <= k < |cs| ensures Shadowed(f.slots, cs[k]) {
      assert Shadowed(e.slots, cs[k]);
      var j :| 0 <= j < cs[k] && e.slots[j].phase == InPool && e.slots[j].ip == e.slots[cs[k]].ip;
      assert f.slots[j].phase == InPool && f.slots[j].ip == f.slots[cs[k]].ip;
    }
    SameTags(e.slots, f.slots);
  }

  lemma SameTags(a: seq<Slot>, b: seq<Slot>)
    requires |a| == |b| && forall i :: 0 <= i < |a| ==> a[i].phase == b[i].phase && a[i].ip == b[i].ip
    ensures UsedIPs(a) == UsedIPs(b)
  {
    forall ip | ip in UsedIPs(a) ensures ip in UsedIPs(b) {
      var i :| 0 <= i < |a| && a[i].phase == InPool && a[i].ip != "" && a[i].ip == ip;
      assert b[i].ip == ip;
    }
    forall ip | ip in UsedIPs(b) ensures ip in UsedIPs(a) {
      var i :| 0 <= i < |b| && b[i].phase == InPool && b[i].ip != "" && b[i].ip == ip;
      assert a[i].ip == ip;
    }
  }

  lemma {:induction false} EvictKeepsInv(cfg: Config, e: Engine, cs: seq<nat>, ws: seq<Visit>, k: nat)
    requires |ws| == |e.slots| && Inv(cfg, e) && AllShadowed(e.slots, cs)
    ensures Inv(cfg, Evict(cfg, e, cs, ws, k))
    decreases |cs| - k
  {
    hide Inv, SentAgain;
    if k < |cs| && RecheckMax(cfg) > 0 {
      var c, w := cs[k], ws[cs[k]];
      assert Shadowed(e.slots, c);
      if !MayEvict(cfg, e.slots[c], w) {
        EvictKeepsInv(cfg, e, cs, ws, k + 1);
      } else if !StaggerOver(cfg, e, w.start) {
        PutOff(e, c, w.done + Stagger(cfg), cs);
        var f := e.(slots := e.slots[c := e.slots[c].(retry := Some(w.done + Stagger(cfg)))]);
        CosmeticKeepsInv(cfg, e, f);
        EvictKeepsInv(cfg, f, cs, ws, k + 1);
      } else {
        SendingKeepsInv(cfg, e, c, w);
      }
    }
  }

  lemma RecheckKeepsInv(cfg: Config, e: Engine, at: int, vs: seq<Visit>, ws: seq<Visit>)
    requires |vs| == |ws| == |e.slots| && NonEmptyProbes(vs) && Inv(cfg, e)
    ensures Inv(cfg, Recheck(cfg, e, at, vs, ws))
  {
    hide Inv, Evict, Retag;
    if RecheckDue(cfg, e, at) {
      var f := e.(lastRecheck := Some(at), stats := e.stats.(recheckRuns := e.stats.recheckRuns + 1));
      CosmeticKeepsInv(cfg, e, f);
      RetagFindsShadows(f, vs, 0, map[], []);
      var (g, cs, completed) := Retag(f, vs, 0, map[], []);
      CosmeticKeepsInv(cfg, f, g);
      EvictKeepsInv(cfg, g, cs, ws, 0);
    }
  }

  // --------------------------------------------------------------- all runs

  lemma {:induction false} ZeroTotal(cfg: Config, q: Quantity, n: nat)
    requires q == Pooled || q == Tries
    ensures Total(cfg, q, Init(n).slots) == 0
  {
    if n > 0 {
      ZeroTotal(cfg, q, n - 1);
      assert Shares(cfg, q, Init(n).slots)[..n - 1] == Shares(cfg, q, Init(n - 1).slots);
    }
  }

  lemma {:induction false} AllTheWork(cfg: Config, n: nat)
    ensures Total(cfg, Work, Init(n).slots) == n * (2 * RecheckMax(cfg) + MaxAttempts(cfg) + 2)
  {
    if n > 0 {
      AllTheWork(cfg, n - 1);
      assert Shares(cfg, Work, Init(n).slots)[..n - 1] == Shares(cfg, Work, Init(n - 1).slots);
      var w := 2 * RecheckMax(cfg) + MaxAttempts(cfg) + 2;
      assert n * w == (n - 1) * w + w;
    }
  }

  lemma InitInv(cfg: Config, n: nat)
    ensures Inv(cfg, Init(n))
  {
    ZeroTotal(cfg, Pooled, n);
    ZeroTotal(cfg, Tries, n);
    AllTheWork(cfg, n);
    hide Total;
  }

  lemma {:induction false} RunKeepsInv(cfg: Config, n: nat, steps: seq<Step>)
    requires AllFit(n, steps)
    ensures Inv(cfg, EngineRun(cfg, Init(n), steps))
  {
    hide Inv, Tick, Recheck;
    if steps == [] {
      InitInv(cfg, n);
    } else {
      var k := |steps| - 1;
      RunKeepsInv(cfg, n, steps[..k]);
      var e := EngineRun(cfg, Init(n), steps[..k]);
      match steps[k]
      case TickStep(now, vs) => TickKeepsInv(cfg, e, now, vs, 0);
      case RecheckStep(at, vs, ws) => RecheckKeepsInv(cfg, e, at, vs, ws);
    }
  }
}
