/** What the sticky table is worth: exactly when a selection follows it, and what it leaves in it. */
module StickyLaws {
  import opened Prelude
  import opened Breaker
  import opened Selection
  import opened SelectionRuns

  /** The table has an entry for the key that is younger than the time to live. */
  predicate EntryIsFresh(ps: PoolState, key: nat, now: int) {
    key in ps.sticky && now - ps.sticky[key].updated < ps.stickyTTL
  }

  /** The entry names the backend at `p`, the first with its id. */
  predicate Names(ps: PoolState, key: nat, p: nat) {
    && key in ps.sticky && p < |ps.bs| && ps.bs[p].id == ps.sticky[key].id
    && forall i :: 0 <= i < p ==> ps.bs[i].id != ps.sticky[key].id
  }

  /** A fresh entry names a backend that can serve. */
  ghost predicate Serves(ps: PoolState, key: nat, now: int) {
    ps.strategy == Sticky && EntryIsFresh(ps, key, now) && exists p: nat :: Names(ps, key, p) && Usable(ps.bs[p], now)
  }

  /** The same pool with no entry for the key. */
  function Forgotten(ps: PoolState, key: nat): PoolState {
    ps.(sticky := ps.sticky - {key})
  }

  /** What a selection leaves in the table: the pick at `now`, if a sticky pool picked one. */
  predicate Noted(ps: PoolState, key: nat, now: int, o: Outcome, ps': PoolState) {
    ps'.sticky == if ps.strategy == Sticky && o.Picked? && o.pos < |ps.bs|
                  then ps.sticky[key := StickyEntry(ps.bs[o.pos].id, now)]
                  else ps.sticky
  }

  lemma {:induction false} NamedIsFirst(bs: seq<BackendState>, id: int, p: nat, k: nat)
    requires k <= p < |bs| && bs[p].id == id && forall i :: k <= i < p ==> bs[i].id != id
    ensures IndexFrom(bs, id, k) == Some(p)
    decreases p - k
  {
    if k < p { NamedIsFirst(bs, id, p, k + 1); }
  }

  lemma {:induction false} IndexIsFirst(bs: seq<BackendState>, id: int, k: nat)
    requires k <= |bs| && IndexFrom(bs, id, k).Some?
    ensures forall i :: k <= i < IndexFrom(bs, id, k).value ==> bs[i].id != id
    decreases |bs| - k
  {
    if bs[k].id != id { IndexIsFirst(bs, id, k + 1); }
  }

  /** The remembered backend is the one a fresh entry names. */
  lemma RememberedIsNamed(ps: PoolState, key: nat, now: int)
    ensures Hit(ps, key, now) <==> Serves(ps, key, now)
    ensures Remembered(ps, key, now).Some? ==>
              ps.strategy == Sticky && EntryIsFresh(ps, key, now) && Names(ps, key, Remembered(ps, key, now).value)
  {
    var m := Remembered(ps, key, now);
    if m.Some? {
      IndexIsFirst(ps.bs, ps.sticky[key].id, 0);
      assert Names(ps, key, m.value);
    }
    forall p: nat | ps.strategy == Sticky && EntryIsFresh(ps, key, now) && Names(ps, key, p) ensures m == Some(p) {
      NamedIsFirst(ps.bs, ps.sticky[key].id, p, 0);
    }
    hide IndexFrom, Usable;
  }

  /** A fresh entry that names a backend that can serve is followed, and neither the table nor the counter changes. */
  lemma FreshEntriesAreFollowed(ps: PoolState, key: nat, now: int, p: nat)
    requires ps.strategy == Sticky && EntryIsFresh(ps, key, now) && Names(ps, key, p) && Usable(ps.bs[p], now)
    ensures var (o, ps') := Select(ps, key, now);
            o == Picked(p) && ps'.sticky == ps.sticky && ps'.rr == ps.rr
  {
    NamedIsFirst(ps.bs, ps.sticky[key].id, p, 0);
    hide IndexFrom;
  }

  /**
   Any other selection is as if there were no entry: one that is missing, too old, or names a backend that is
   gone or cannot serve makes no difference, and a sticky pick is noted in its place.
   */
  lemma OtherEntriesMakeNoDifference(ps: PoolState, key: nat, now: int)
    requires !Serves(ps, key, now) && Counted(ps.bs) && key < TWO64 && ps.rr < TWO64
    ensures var (o, ps') := Select(ps, key, now);
            var (o2, ps2) := Select(Forgotten(ps, key), key, now);
            && o == o2 && ps'.bs == ps2.bs && ps'.rr == ps2.rr
            && ps'.selects == ps2.selects && ps'.selectFail == ps2.selectFail
            && Noted(ps, key, now, o, ps')
  {
    RememberedIsNamed(ps, key, now);
    var q := Looked(ps, key, now);
    var q2 := Looked(Forgotten(ps, key), key, now);
    assert !Hit(ps, key, now) && !Hit(Forgotten(ps, key), key, now);
    LookedPicksAlike(ps, key, now);
    PickEffect(ps.strategy, q.bs, ps.rr, key, now);
    IdsSurvive(q.bs, PickByStrategy(ps.strategy, q.bs, ps.rr, key, now).0, PickByStrategy(ps.strategy, q.bs, ps.rr, key, now).1, now);
    LookedKeepsIds(ps, key, now);
    hide PickByStrategy, Hit, Serves, Usable, Remembered, SelectEffect;
  }

  lemma LookedKeepsIds(ps: PoolState, key: nat, now: int)
    ensures |Looked(ps, key, now).bs| == |ps.bs|
    ensures forall i :: 0 <= i < |ps.bs| ==> Looked(ps, key, now).bs[i].id == ps.bs[i].id
  {}

  /** Having queried the remembered backend does not change what a sticky pool picks. */
  lemma LookedPicksAlike(ps: PoolState, key: nat, now: int)
    ensures PickByStrategy(ps.strategy, Looked(ps, key, now).bs, ps.rr, key, now)
         == PickByStrategy(ps.strategy, ps.bs, ps.rr, key, now)
  {
    var m := Remembered(ps, key, now);
    if m.Some? {
      var bs := ps.bs[m.value := Refreshed(ps.bs[m.value], now)];
      QueryOneFirst(ps.bs, m.value, now);
      hide HealthyUpTo, RefreshAll, Took;
    }
  }

  lemma QueryOneFirst(bs: seq<BackendState>, p: nat, now: int)
    requires p < |bs|
    ensures var cs := bs[p := Refreshed(bs[p], now)];
            HealthyList(cs, now) == HealthyList(bs, now) && RefreshAll(cs, now) == RefreshAll(bs, now)
  {
    var cs := bs[p := Refreshed(bs[p], now)];
    RefreshIsStable(bs[p], now, now);
    SameHealthy(bs, cs, now, |bs|);
    hide HealthyUpTo, Selectable;
    if !(Refreshed(bs[p], now) == bs[p]) { assert RefreshAll(cs, now)[p] == RefreshAll(bs, now)[p]; }
  }

  /** In particular an entry that is too old is no better than none. */
  lemma EntriesExpire(ps: PoolState, key: nat, now: int)
    requires Counted(ps.bs) && key < TWO64 && ps.rr < TWO64
    requires key !in ps.sticky || now - ps.sticky[key].updated >= ps.stickyTTL
    ensures var (o, ps') := Select(ps, key, now);
            var (o2, ps2) := Select(Forgotten(ps, key), key, now);
            o == o2 && ps'.bs == ps2.bs && Noted(ps, key, now, o, ps')
  {
    hide Select;
    OtherEntriesMakeNoDifference(ps, key, now);
  }

  /** Only a round-robin selection with someone to probe moves the counter. */
  lemma OnlyRoundRobinCounts(ps: PoolState, key: nat, now: int)
    ensures Select(ps, key, now).1.rr ==
              if ps.strategy == RoundRobin && Width(ps, now) > 0 then CounterAt(ps.rr, 1) else ps.rr
  {
    hide PickSticky, PickLeastConn, Took, HealthyUpTo;
  }
}
