/**
 Which backends the attempts of one dial go to. A failed attempt counts against its backend, but
 only an opened circuit takes the backend out of the next selection.
 */
module Failover {
  import opened Prelude
  import opened Breaker
  import opened Selection
  import opened SelectionRuns
  import opened Dialing

  /** A failure at a backend picked at `now` opens its circuit. */
  predicate Opens(b: BackendState, now: int) {
    Refreshed(b, now).fails + 1 >= b.lim.maxFails
  }

  /** After a pick at `t0` that failed at `d0`, the backend still answers yes at `t1`. */
  predicate StaysIn(b: BackendState, t0: int, d0: int, t1: int) {
    !Opens(b, t0) || t1 - d0 >= b.lim.openAfter
  }

  /** `b` as a failed attempt leaves it. */
  predicate FailedAttempt(b: BackendState, t0: int, d0: int, b': BackendState) {
    b' == AfterFailure(Refreshed(b, t0), d0)
  }

  lemma StaysInExactly(b: BackendState, t0: int, d0: int, t1: int, b': BackendState)
    requires Selectable(b, t0) && FailedAttempt(b, t0, d0, b')
    ensures Selectable(b', t1) <==> StaysIn(b, t0, d0, t1)
  {}

  /** A pool after a picked backend failed: it bears the failure, and the others were at most queried. */
  predicate AttemptFailed(bs: seq<BackendState>, p: nat, t0: int, d0: int, bs': seq<BackendState>) {
    && |bs'| == |bs| && p < |bs| && Usable(bs[p], t0)
    && FailedAttempt(bs[p], t0, d0, bs'[p])
    && forall j :: 0 <= j < |bs| && j != p ==> bs'[j] == bs[j] || bs'[j] == Refreshed(bs[j], t0)
  }

  lemma SelectFails(ps: PoolState, key: nat, t0: int, d0: int, p: nat)
    requires Counted(ps.bs) && key < TWO64 && ps.rr < TWO64 && Select(ps, key, t0).0 == Picked(p)
    ensures var t := Settled(Select(ps, key, t0).1, p, d0);
            && AttemptFailed(ps.bs, p, t0, d0, t.bs)
            && t.strategy == ps.strategy && t.stickyTTL == ps.stickyTTL && t.rr < TWO64 && Counted(t.bs)
  {
    hide Select, SelectPanics;
    SelectIsComplete(ps, key, t0);
    var s := Select(ps, key, t0).1;
    SelectLoads(ps, key, t0);
    SettledLoads(ps, s, p, d0);
    hide Usable, Counted, Loads;
    EffectThenFailure(ps.bs, s.bs, p, t0, d0);
  }

  lemma EffectThenFailure(bs: seq<BackendState>, cs: seq<BackendState>, p: nat, t0: int, d0: int)
    requires SelectEffect(bs, Picked(p), cs, t0)
    ensures var b := AfterFailure(cs[p], d0);
            AttemptFailed(bs, p, t0, d0, cs[p := b.(inflight := b.inflight - 1)])
  {
    hide Usable;
    forall j | 0 <= j < |bs| && j != p ensures cs[j] == bs[j] || cs[j] == Refreshed(bs[j], t0) {
      assert Queried(bs[j], cs[j], t0);
      assert cs[j].(inflight := bs[j].inflight) == cs[j];
    }
  }

  /** Later answers and free slots after a failed attempt. */
  lemma AnswersAfter(bs: seq<BackendState>, p: nat, t0: int, d0: int, bs': seq<BackendState>, t1: int)
    requires AttemptFailed(bs, p, t0, d0, bs') && t0 <= t1
    ensures forall j :: 0 <= j < |bs| ==>
              && bs'[j].inflight == bs[j].inflight && bs'[j].lim == bs[j].lim && bs'[j].id == bs[j].id
              && (j != p ==> (Selectable(bs'[j], t1) <==> Selectable(bs[j], t1)))
              && (j != p && Selectable(bs[j], t1) ==> Refreshed(bs'[j], t1).fails == Refreshed(bs[j], t1).fails)
    ensures Selectable(bs'[p], t1) <==> StaysIn(bs[p], t0, d0, t1)
  {
    StaysInExactly(bs[p], t0, d0, t1, bs'[p]);
    hide StaysIn;
  }

  // ------------------------------------------------------ least connections

  /** `p` can serve, nobody who can has fewer connections, and nobody before it has as few. */
  predicate FirstLeast(bs: seq<BackendState>, p: nat, now: int) {
    && p < |bs| && Usable(bs[p], now)
    && forall j :: 0 <= j < |bs| && Usable(bs[j], now) ==>
         bs[p].inflight <= bs[j].inflight && (j < p ==> bs[p].inflight < bs[j].inflight)
  }

  /** Least connections picks exactly that one. */
  lemma LeastConnPicksExactly(bs: seq<BackendState>, now: int, p: nat)
    requires Counted(bs)
    ensures PickLeastConn(bs, now).0 == Picked(p) <==> FirstLeast(bs, p, now)
  {
    PickLeastConnEffect(bs, now);
    HealthyAscends(bs, now);
    var h, o := HealthyList(bs, now), PickLeastConn(bs, now).0;
    hide PickLeastConn;
    if o.Picked? {
      FirstMinimumIsFirstLeast(bs, h, o.pos, now);
    }
    hide Usable;
  }

  lemma FirstMinimumIsFirstLeast(bs: seq<BackendState>, h: seq<nat>, p: nat, now: int)
    requires h == HealthyList(bs, now) && (forall a, b :: 0 <= a < b < |h| ==> h[a] < h[b])
    requires p < |bs| && Usable(bs[p], now) && FirstMinimum(bs, h, p)
    ensures FirstLeast(bs, p, now)
  {
    hide Selectable;
    var c :| IsFirstMinimumAt(bs, h, p, c);
    forall j | 0 <= j < |bs| && Usable(bs[j], now)
      ensures bs[p].inflight <= bs[j].inflight && (j < p ==> bs[p].inflight < bs[j].inflight)
    {
      var d :| 0 <= d < |h| && h[d] == j;
      assert HasRoom(bs[h[d]]);
    }
  }

  /** Every backend but `p` that answers yes at `t1` did so at `t0`. */
  predicate NobodyJoins(bs: seq<BackendState>, p: nat, t0: int, t1: int) {
    forall j :: 0 <= j < |bs| && j != p && Selectable(bs[j], t1) ==> Selectable(bs[j], t0)
  }

  /** The least loaded backend stays the least loaded: the failed attempt gave its slot back. */
  lemma FirstLeastAgain(bs: seq<BackendState>, p: nat, t0: int, d0: int, bs': seq<BackendState>, t1: int)
    requires FirstLeast(bs, p, t0) && AttemptFailed(bs, p, t0, d0, bs') && t0 <= t1 && NobodyJoins(bs, p, t0, t1)
    ensures FirstLeast(bs', p, t1) <==> StaysIn(bs[p], t0, d0, t1)
  {
    AnswersAfter(bs, p, t0, d0, bs', t1);
    hide Selectable, StaysIn, AttemptFailed;
    forall j | 0 <= j < |bs'| && j != p && Usable(bs'[j], t1) ensures Usable(bs[j], t0) {}
  }

  // ----------------------------------------------------- which are loyal

  /** The entry of `key` lasts through the dial, whether it is there already or made by attempt `k`. */
  predicate EntryLasts(ps: PoolState, key: nat, net: seq<Attempt>, k: nat)
    requires |net| == ATTEMPTS && k < ATTEMPTS
  {
    var last := net[ATTEMPTS - 1].start;
    && last - net[k].start < ps.stickyTTL
    && (key in ps.sticky ==> last - ps.sticky[key].updated < ps.stickyTTL)
  }

  /** From attempt `k` on nobody starts to answer yes. */
  predicate OnlyLeaves(bs: seq<BackendState>, net: seq<Attempt>, k: nat) {
    forall i, a, b :: 0 <= i < |bs| && k <= a < b < |net| ==>
      (Selectable(bs[i], net[b].start) ==> Selectable(bs[i], net[a].start))
  }

  /** A pool that picks the same backend again as long as it can. */
  predicate Loyal(ps: PoolState, key: nat, net: seq<Attempt>, k: nat)
    requires |net| == ATTEMPTS && k < ATTEMPTS
  {
    && Counted(ps.bs) && key < TWO64 && ps.rr < TWO64
    && ((ps.strategy in {LeastConn, Unrecognised} && OnlyLeaves(ps.bs, net, k))
        || (ps.strategy == Sticky && DistinctIds(ps.bs) && EntryLasts(ps, key, net, k)))
  }

  /** The next attempt goes to the same backend exactly when that backend still answers yes. */
  lemma LeastConnRetriesTheSame(ps: PoolState, key: nat, t0: int, d0: int, t1: int, p: nat)
    requires Counted(ps.bs) && key < TWO64 && ps.rr < TWO64 && ps.strategy in {LeastConn, Unrecognised}
    requires Select(ps, key, t0).0 == Picked(p) && t0 <= t1 && NobodyJoins(ps.bs, p, t0, t1)
    ensures var t := Settled(Select(ps, key, t0).1, p, d0);
            Select(t, key, t1).0 == Picked(p) <==> StaysIn(ps.bs[p], t0, d0, t1)
  {
    var t := Settled(Select(ps, key, t0).1, p, d0);
    hide *;
    SelectFails(ps, key, t0, d0, p);
    LeastConnSelects(ps, key, t0);
    LeastConnSelects(t, key, t1);
    LeastConnPicksExactly(ps.bs, t0, p);
    LeastConnPicksExactly(t.bs, t1, p);
    FirstLeastAgain(ps.bs, p, t0, d0, t.bs, t1);
  }

  /** A sticky pick leaves an entry for its backend, no older than it was. */
  lemma StickyRemembers(ps: PoolState, key: nat, now: int, p: nat)
    requires ps.strategy == Sticky && Select(ps, key, now).0 == Picked(p)
    ensures var s := Select(ps, key, now).1;
            && key in s.sticky && p < |s.bs| && s.sticky[key].id == s.bs[p].id
            && (s.sticky[key].updated == now || (key in ps.sticky && s.sticky[key].updated == ps.sticky[key].updated))
  {
    hide PickByStrategy, Usable;
  }

  /** So does the next one, as long as that entry lasts. */
  lemma StickyRetriesTheSame(ps: PoolState, key: nat, t0: int, d0: int, t1: int, p: nat)
    requires Counted(ps.bs) && key < TWO64 && ps.rr < TWO64 && ps.strategy == Sticky && DistinctIds(ps.bs)
    requires Select(ps, key, t0).0 == Picked(p) && t0 <= t1
    requires t1 - Select(ps, key, t0).1.sticky[key].updated < ps.stickyTTL
    ensures var t := Settled(Select(ps, key, t0).1, p, d0);
            Select(t, key, t1).0 == Picked(p) <==> StaysIn(ps.bs[p], t0, d0, t1)
  {
    var t := Settled(Select(ps, key, t0).1, p, d0);
    hide *;
    StickyStaysStuck(ps, key, t0, d0, t1, p);
    if StaysIn(ps.bs[p], t0, d0, t1) {
      StuckKeyIsServed(t, key, p, t1);
    } else {
      UnusableIsNotPicked(t, key, t1, p);
    }
  }

  lemma StickyStaysStuck(ps: PoolState, key: nat, t0: int, d0: int, t1: int, p: nat)
    requires Counted(ps.bs) && key < TWO64 && ps.rr < TWO64 && ps.strategy == Sticky && DistinctIds(ps.bs)
    requires Select(ps, key, t0).0 == Picked(p) && t0 <= t1
    requires t1 - Select(ps, key, t0).1.sticky[key].updated < ps.stickyTTL
    ensures var t := Settled(Select(ps, key, t0).1, p, d0);
            && Counted(t.bs) && t.rr < TWO64
            && Sticks(t, key, p, t1) && (Usable(t.bs[p], t1) <==> StaysIn(ps.bs[p], t0, d0, t1))
  {
    hide Select, StaysIn, Selectable, SelectPanics;
    StickyRemembers(ps, key, t0, p);
    SelectFails(ps, key, t0, d0, p);
    AnswersAfter(ps.bs, p, t0, d0, Settled(Select(ps, key, t0).1, p, d0).bs, t1);
  }

  lemma UnusableIsNotPicked(ps: PoolState, key: nat, now: int, p: nat)
    requires Counted(ps.bs) && key < TWO64 && ps.rr < TWO64 && p < |ps.bs| && !Usable(ps.bs[p], now)
    ensures Select(ps, key, now).0 != Picked(p)
  {
    hide Select, SelectPanics;
    SelectIsComplete(ps, key, now);
  }

  // ------------------------------------------------------- whole dials

  /** Every attempt of the dial that fails with another to follow opens the circuit of its backend. */
  predicate EachOpens(ps: PoolState, key: nat, net: seq<Attempt>, k: nat)
    requires |net| == ATTEMPTS
    decreases ATTEMPTS - k
  {
    k + 1 < ATTEMPTS && !net[k].ok ==>
      var (o, s) := Select(ps, key, net[k].start);
      o.Picked? ==>
        && Opens(ps.bs[o.pos], net[k].start)
        && EachOpens(Settled(s, o.pos, net[k].done), key, net, k + 1)
  }

  /** The dial is over before the first opened circuit could half-open. */
  predicate Brisk(bs: seq<BackendState>, net: seq<Attempt>) {
    forall i, j, k :: 0 <= i < |bs| && 0 <= j < k < |net| ==> net[k].start < net[j].done + bs[i].lim.openAfter
  }

  /** Backend `i` answers no to all the attempts from `k` on. */
  predicate OutOfPlay(bs: seq<BackendState>, net: seq<Attempt>, k: nat, i: nat) {
    i < |bs| && forall m :: k <= m < |net| ==> !Selectable(bs[i], net[m].start)
  }

  predicate AllOut(bs: seq<BackendState>, net: seq<Attempt>, k: nat, out: set<nat>) {
    forall i :: i in out ==> OutOfPlay(bs, net, k, i)
  }

  predicate FreshAndDistinct(tried: seq<nat>, out: set<nat>) {
    && (forall a :: 0 <= a < |tried| ==> tried[a] !in out)
    && (forall a, b :: 0 <= a < b < |tried| ==> tried[a] != tried[b])
  }

  lemma OneMoreFresh(p: nat, rest: seq<nat>, out: set<nat>)
    ensures FreshAndDistinct([p] + rest, out) <==> p !in out && FreshAndDistinct(rest, out + {p})
  {
    var all := [p] + rest;
    assert forall a :: 0 <= a < |rest| ==> all[a + 1] == rest[a];
    assert all[0] == p;
  }

  /** The attempts of a dial, one at a time. */
  lemma TriedUnfolds(ps: PoolState, key: nat, net: seq<Attempt>, k: nat)
    requires |net| == ATTEMPTS && k < ATTEMPTS
    ensures var (o, s) := Select(ps, key, net[k].start);
            Tried(ps, key, net, k) ==
              if !o.Picked? then []
              else if net[k].ok || k + 1 == ATTEMPTS then [o.pos]
              else [o.pos] + Tried(Settled(s, o.pos, net[k].done), key, net, k + 1)
  {}

  /** An opened backend is out of a brisk dial, and those that were out stay out. */
  lemma OpenedIsOut(bs: seq<BackendState>, net: seq<Attempt>, k: nat, out: set<nat>, p: nat, bs': seq<BackendState>)
    requires |net| == ATTEMPTS && k < ATTEMPTS && Brisk(bs, net) && AllOut(bs, net, k, out)
    requires AttemptFailed(bs, p, net[k].start, net[k].done, bs')
    ensures Brisk(bs', net) && p !in out
    ensures AllOut(bs', net, k + 1, out)
    ensures Opens(bs[p], net[k].start) ==> AllOut(bs', net, k + 1, out + {p})
  {
    forall m | k < m < |net| ensures Selectable(bs'[p], net[m].start) <==> !Opens(bs[p], net[k].start) {
      StaysInExactly(bs[p], net[k].start, net[k].done, net[m].start, bs'[p]);
    }
    forall i | i in out ensures i != p && bs'[i] == bs[i] {
      assert OutOfPlay(bs, net, k, i);
    }
    AnswersAfter(bs, p, net[k].start, net[k].done, bs', net[k].start);
    hide Selectable, Opens;
    assert !OutOfPlay(bs, net, k, p);
  }

  predicate OnTime(net: seq<Attempt>) {
    forall a, b :: 0 <= a < b < |net| ==> net[a].start <= net[b].start
  }

  /** Whatever the strategy: if each failure opens its circuit, a brisk dial never tries a backend twice. */
  lemma {:induction false} OpeningDialsAreDistinct(ps: PoolState, key: nat, net: seq<Attempt>, k: nat, out: set<nat>)
    requires |net| == ATTEMPTS && Counted(ps.bs) && key < TWO64 && ps.rr < TWO64
    requires Brisk(ps.bs, net) && AllOut(ps.bs, net, k, out) && EachOpens(ps, key, net, k)
    ensures FreshAndDistinct(Tried(ps, key, net, k), out)
    decreases ATTEMPTS - k
  {
    if k < ATTEMPTS && Select(ps, key, net[k].start).0.Picked? {
      var p := Select(ps, key, net[k].start).0.pos;
      var t := Settled(Select(ps, key, net[k].start).1, p, net[k].done);
      EachOpensUnfolds(ps, key, net, k);
      hide *;
      DialStep(ps, key, net, k, out, p);
      if !net[k].ok && k + 1 < ATTEMPTS {
        OpeningDialsAreDistinct(t, key, net, k + 1, out + {p});
        OneMoreFresh(p, Tried(t, key, net, k + 1), out);
      }
    }
  }

  lemma EachOpensUnfolds(ps: PoolState, key: nat, net: seq<Attempt>, k: nat)
    requires |net| == ATTEMPTS && k < ATTEMPTS
    ensures var (o, s) := Select(ps, key, net[k].start);
            EachOpens(ps, key, net, k) <==>
              (k + 1 < ATTEMPTS && !net[k].ok && o.Picked? ==>
                 Opens(ps.bs[o.pos], net[k].start) && EachOpens(Settled(s, o.pos, net[k].done), key, net, k + 1))
  {}

  /** One attempt of a brisk dial: what it adds to the tries, and what it leaves for the rest. */
  lemma DialStep(ps: PoolState, key: nat, net: seq<Attempt>, k: nat, out: set<nat>, p: nat)
    requires |net| == ATTEMPTS && k < ATTEMPTS && Counted(ps.bs) && key < TWO64 && ps.rr < TWO64
    requires Brisk(ps.bs, net) && AllOut(ps.bs, net, k, out)
    requires Select(ps, key, net[k].start).0 == Picked(p)
    ensures p < |ps.bs| && p !in out
    ensures var t := Settled(Select(ps, key, net[k].start).1, p, net[k].done);
            && AttemptFailed(ps.bs, p, net[k].start, net[k].done, t.bs)
            && Counted(t.bs) && t.rr < TWO64 && Brisk(t.bs, net)
            && (Opens(ps.bs[p], net[k].start) ==> AllOut(t.bs, net, k + 1, out + {p}))
            && (if net[k].ok || k + 1 == ATTEMPTS then
                  Tried(ps, key, net, k) == [p] && FreshAndDistinct(Tried(ps, key, net, k), out)
                else
                  Tried(ps, key, net, k) == [p] + Tried(t, key, net, k + 1))
  {
    var t := Settled(Select(ps, key, net[k].start).1, p, net[k].done);
    TriedUnfolds(ps, key, net, k);
    OneMoreFresh(p, [], out);
    hide Select, Settled, Tried, Brisk, AllOut, Opens;
    SelectFails(ps, key, net[k].start, net[k].done, p);
    OpenedIsOut(ps.bs, net, k, out, p, t.bs);
  }

  /** A loyal pool goes to the same backend again exactly when the failure did not open its circuit. */
  lemma LoyalStep(ps: PoolState, key: nat, net: seq<Attempt>, k: nat, p: nat)
    requires |net| == ATTEMPTS && k + 1 < ATTEMPTS && Loyal(ps, key, net, k)
    requires OnTime(net) && Brisk(ps.bs, net) && Select(ps, key, net[k].start).0 == Picked(p)
    ensures p < |ps.bs|
    ensures var t := Settled(Select(ps, key, net[k].start).1, p, net[k].done);
            && Loyal(t, key, net, k + 1)
            && (Select(t, key, net[k + 1].start).0 == Picked(p) <==> !Opens(ps.bs[p], net[k].start))
  {
    var t := Settled(Select(ps, key, net[k].start).1, p, net[k].done);
    SelectFails(ps, key, net[k].start, net[k].done, p);
    BriskStays(ps.bs, net, k, p);
    if ps.strategy == Sticky {
      StickyRemembers(ps, key, net[k].start, p);
      hide Select, Opens, StaysIn, Selectable, Brisk, OnlyLeaves;
      StickyRetriesTheSame(ps, key, net[k].start, net[k].done, net[k + 1].start, p);
      IdsAfter(ps.bs, p, net[k].start, net[k].done, t.bs);
    } else {
      hide Select, Settled, Opens, StaysIn, Selectable, Brisk, EntryLasts;
      LeastConnRetriesTheSame(ps, key, net[k].start, net[k].done, net[k + 1].start, p);
      LeavingGoesOn(ps.bs, net, k, p, t.bs);
    }
  }

  lemma BriskStays(bs: seq<BackendState>, net: seq<Attempt>, k: nat, p: nat)
    requires Brisk(bs, net) && k < |net| && p < |bs|
    ensures forall m :: k < m < |net| ==>
              (StaysIn(bs[p], net[k].start, net[k].done, net[m].start) <==> !Opens(bs[p], net[k].start))
  {}

  lemma IdsAfter(bs: seq<BackendState>, p: nat, t0: int, d0: int, bs': seq<BackendState>)
    requires DistinctIds(bs) && AttemptFailed(bs, p, t0, d0, bs')
    ensures DistinctIds(bs')
  {
    AnswersAfter(bs, p, t0, d0, bs', t0);
    hide AttemptFailed;
  }

  lemma LeavingGoesOn(bs: seq<BackendState>, net: seq<Attempt>, k: nat, p: nat, bs': seq<BackendState>)
    requires k < |net| && OnTime(net) && Brisk(bs, net) && OnlyLeaves(bs, net, k)
    requires AttemptFailed(bs, p, net[k].start, net[k].done, bs')
    ensures OnlyLeaves(bs', net, k + 1)
  {
    BriskStays(bs, net, k, p);
    hide Selectable, StaysIn, Opens, AttemptFailed, Brisk;
    forall i, a, b | 0 <= i < |bs'| && k + 1 <= a < b < |net| && Selectable(bs'[i], net[b].start)
      ensures Selectable(bs'[i], net[a].start)
    {
      AnswersAfter(bs, p, net[k].start, net[k].done, bs', net[a].start);
      AnswersAfter(bs, p, net[k].start, net[k].done, bs', net[b].start);
    }
  }

  /**
   When a dial fails over, exactly: under least connections, or while a sticky entry lasts, the tries
   of a brisk dial are distinct if and only if each failure but the last opens its backend's circuit.
   */
  lemma {:induction false} LoyalDialsFailOverExactly(ps: PoolState, key: nat, net: seq<Attempt>, k: nat, out: set<nat>)
    requires |net| == ATTEMPTS && k < ATTEMPTS && Loyal(ps, key, net, k)
    requires OnTime(net) && Brisk(ps.bs, net) && AllOut(ps.bs, net, k, out)
    ensures FreshAndDistinct(Tried(ps, key, net, k), out) <==> EachOpens(ps, key, net, k)
    decreases ATTEMPTS - k
  {
    hide Tried, Select, Settled, EachOpens, OnlyLeaves, EntryLasts, DistinctIds;
    EachOpensUnfolds(ps, key, net, k);
    TriedUnfolds(ps, key, net, k);
    if Select(ps, key, net[k].start).0.Picked? {
      var p := Select(ps, key, net[k].start).0.pos;
      var t := Settled(Select(ps, key, net[k].start).1, p, net[k].done);
      assert Counted(ps.bs) && key < TWO64 && ps.rr < TWO64;
      hide *;
      DialStep(ps, key, net, k, out, p);
      if !net[k].ok && k + 1 < ATTEMPTS {
        LoyalStep(ps, key, net, k, p);
        OneMoreFresh(p, Tried(t, key, net, k + 1), out);
        if Opens(ps.bs[p], net[k].start) {
          LoyalDialsFailOverExactly(t, key, net, k + 1, out + {p});
        } else {
          SameIsNotFresh(t, key, net, k + 1, out, p);
        }
      }
    }
  }

  lemma SameIsNotFresh(ps: PoolState, key: nat, net: seq<Attempt>, k: nat, out: set<nat>, p: nat)
    requires |net| == ATTEMPTS && k < ATTEMPTS && Select(ps, key, net[k].start).0 == Picked(p)
    ensures !FreshAndDistinct(Tried(ps, key, net, k), out + {p})
  {
    TriedUnfolds(ps, key, net, k);
    hide Tried, Select;
    assert Tried(ps, key, net, k)[0] == p;
  }

  predicate TripsAtOnce(bs: seq<BackendState>) {
    forall i :: 0 <= i < |bs| ==> bs[i].lim.maxFails <= 1
  }

  lemma {:induction false} TrippingDialsOpen(ps: PoolState, key: nat, net: seq<Attempt>, k: nat)
    requires |net| == ATTEMPTS && Counted(ps.bs) && key < TWO64 && ps.rr < TWO64 && TripsAtOnce(ps.bs)
    ensures EachOpens(ps, key, net, k)
    decreases ATTEMPTS - k
  {
    if k + 1 < ATTEMPTS && !net[k].ok && Select(ps, key, net[k].start).0.Picked? {
      var p := Select(ps, key, net[k].start).0.pos;
      var t := Settled(Select(ps, key, net[k].start).1, p, net[k].done);
      EachOpensUnfolds(ps, key, net, k);
      SelectFails(ps, key, net[k].start, net[k].done, p);
      AnswersAfter(ps.bs, p, net[k].start, net[k].done, t.bs, net[k].start);
      hide Select, Settled, AttemptFailed;
      TrippingDialsOpen(t, key, net, k + 1);
    }
  }

  /** With circuits that open at the first failure, a brisk dial never tries the same backend twice. */
  lemma FailoverTriesDistinctBackends(ps: PoolState, key: nat, net: seq<Attempt>, k: nat, out: set<nat>)
    requires |net| == ATTEMPTS && Counted(ps.bs) && key < TWO64 && ps.rr < TWO64
    requires TripsAtOnce(ps.bs) && Brisk(ps.bs, net) && AllOut(ps.bs, net, k, out)
    ensures FreshAndDistinct(Tried(ps, key, net, k), out)
  {
    TrippingDialsOpen(ps, key, net, k);
    OpeningDialsAreDistinct(ps, key, net, k, out);
  }

  // ------------------------------------------------- no failover at all

  /** A backend picked at `now` can take `more` failures without opening. */
  predicate Patient(b: BackendState, now: int, more: int) {
    Refreshed(b, now).fails + more < b.lim.maxFails
  }

  function Repeated(p: nat, n: nat): seq<nat> {
    if n == 0 then [] else [p] + Repeated(p, n - 1)
  }

  lemma PatientStays(bs: seq<BackendState>, p: nat, t0: int, d0: int, bs': seq<BackendState>, t1: int, more: int)
    requires AttemptFailed(bs, p, t0, d0, bs') && more >= 1 && Patient(bs[p], t0, more)
    ensures !Opens(bs[p], t0) && Patient(bs'[p], t1, more - 1)
  {}

  /**
   A loyal pool that can spare the failures never fails over: a dial that does not connect
   goes to the same backend every time, whatever others are idle.
   */
  lemma {:induction false} LoyalDialsStay(ps: PoolState, key: nat, net: seq<Attempt>, k: nat, p: nat)
    requires |net| == ATTEMPTS && k < ATTEMPTS && Loyal(ps, key, net, k) && OnTime(net) && Brisk(ps.bs, net)
    requires Select(ps, key, net[k].start).0 == Picked(p) && p < |ps.bs| && Patient(ps.bs[p], net[k].start, ATTEMPTS - 1 - k)
    requires forall m :: k <= m < ATTEMPTS ==> !net[m].ok
    ensures Tried(ps, key, net, k) == Repeated(p, ATTEMPTS - k)
    decreases ATTEMPTS - k
  {
    TriedUnfolds(ps, key, net, k);
    if k + 1 == ATTEMPTS {
      assert Repeated(p, 1) == [p] + Repeated(p, 0);
    } else {
      var t := Settled(Select(ps, key, net[k].start).1, p, net[k].done);
      assert Counted(ps.bs) && key < TWO64 && ps.rr < TWO64;
      assert Repeated(p, ATTEMPTS - k) == [p] + Repeated(p, ATTEMPTS - (k + 1));
      hide *;
      LoyalStep(ps, key, net, k, p);
      SelectFails(ps, key, net[k].start, net[k].done, p);
      PatientStays(ps.bs, p, net[k].start, net[k].done, t.bs, net[k + 1].start, ATTEMPTS - 1 - k);
      BriskAfter(ps.bs, net, p, net[k].start, net[k].done, t.bs);
      LoyalDialsStay(t, key, net, k + 1, p);
    }
  }

  lemma BriskAfter(bs: seq<BackendState>, net: seq<Attempt>, p: nat, t0: int, d0: int, bs': seq<BackendState>)
    requires AttemptFailed(bs, p, t0, d0, bs') && Brisk(bs, net)
    ensures |bs'| == |bs| && p < |bs| && Brisk(bs', net)
  {
    AnswersAfter(bs, p, t0, d0, bs', t0);
    hide AttemptFailed;
  }

  /** A healthy, admitted, idle backend with the default limit of three failures. */
  function Idle(id: int): BackendState {
    BackendState(id, Limits(3, 30, 60, 8), Healthy, 0, 0, None, InPool, "", 0, 0)
  }

  const TWO_IDLE := PoolState([Idle(0), Idle(1)], LeastConn, 0, map[], 0, 0, 0)

  /** Three attempts that all fail. */
  const DOWN := [Attempt(0, 1, false), Attempt(1, 2, false), Attempt(2, 3, false)]

  /** With the default limit, a dial tries the first of two idle backends three times, and never the second. */
  lemma DefaultsDoNotFailOver(key: nat)
    requires key < TWO64
    ensures Tried(TWO_IDLE, key, DOWN, 0) == [0, 0, 0]
  {
    TwoIdleIsLoyal(key);
    assert DOWN[0].start == 0;
    hide Select, Tried, Loyal, OnTime, Brisk, FirstLeast, Counted;
    LeastConnPicksExactly(TWO_IDLE.bs, 0, 0);
    LeastConnSelects(TWO_IDLE, key, 0);
    hide PickLeastConn;
    LoyalDialsStay(TWO_IDLE, key, DOWN, 0, 0);
    ThreeTimes(0);
  }

  lemma TwoIdleIsLoyal(key: nat)
    requires key < TWO64
    ensures Counted(TWO_IDLE.bs) && FirstLeast(TWO_IDLE.bs, 0, 0)
    ensures Loyal(TWO_IDLE, key, DOWN, 0) && OnTime(DOWN) && Brisk(TWO_IDLE.bs, DOWN)
  {
    assert TWO_IDLE.bs == [Idle(0), Idle(1)];
  }

  lemma ThreeTimes(p: nat)
    ensures Repeated(p, 3) == [p, p, p]
  {
    assert Repeated(p, 1) == [p] + Repeated(p, 0);
    assert Repeated(p, 2) == [p] + Repeated(p, 1);
  }
}
