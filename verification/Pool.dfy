/** The pool as the object requests go through; a `*Backend` is its position in `backends`. */
module Pools {
  import opened Prelude
  import opened Breaker
  import opened Backends
  import Selection
  import opened Dialing

  class Pool {
    const backends: seq<Backend>
    const index: map<int, nat>
    const strategy: Selection.Strategy
    const stickyTTL: int
    var sticky: map<nat, Selection.StickyEntry>
    var rr: nat
    var selects: nat
    var selectFail: nat

    /** Distinct objects with distinct ids, indexed by id. */
    ghost predicate Valid()
      reads this
    {
      && (forall i, j :: 0 <= i < j < |backends| ==> backends[i] != backends[j] && backends[i].id != backends[j].id)
      && (forall i :: 0 <= i < |backends| ==> backends[i].id in index && index[backends[i].id] == i)
      && (forall id :: id in index ==> index[id] < |backends| && backends[index[id]].id == id)
      && rr < Selection.TWO64
    }

    ghost function States(): seq<BackendState>
      reads backends
    {
      seq(|backends|, i requires 0 <= i < |backends| reads backends => backends[i].View())
    }

    ghost function View(): Selection.PoolState
      reads this, backends
    {
      Selection.PoolState(States(), strategy, stickyTTL, sticky, rr, selects, selectFail)
    }

    constructor (backends: seq<Backend>, strategy: Selection.Strategy, stickyTTL: int)
      requires forall i, j :: 0 <= i < j < |backends| ==> backends[i] != backends[j] && backends[i].id != backends[j].id
      ensures Valid() && this.backends == backends
      ensures View() == Selection.PoolState(States(), strategy, stickyTTL, map[], 0, 0, 0)
    {
      this.backends := backends;
      this.strategy := strategy;
      this.stickyTTL := stickyTTL;
      var ix: map<int, nat> := map[];
      for n := 0 to |backends|
        invariant forall i :: 0 <= i < n ==> backends[i].id in ix && ix[backends[i].id] == i
        invariant forall id :: id in ix ==> ix[id] < n && backends[ix[id]].id == id
      {
        ix := ix[backends[n].id := n];
      }
      index := ix;
      sticky, rr, selects, selectFail := map[], 0, 0, 0;
    }

    method Get(id: int) returns (r: Option<nat>)
      requires Valid()
      ensures r == Selection.IndexOf(States(), id)
    {
      if id in index {
        r := Some(index[id]);
        IdAt(index[id], 0);
      } else {
        r := None;
      }
    }

    lemma {:induction false} IdAt(pos: nat, k: nat)
      requires Valid() && k <= pos < |backends|
      ensures Selection.IndexFrom(States(), backends[pos].id, k) == Some(pos)
      decreases pos - k
    {
      if k < pos { IdAt(pos, k + 1); }
    }

    method TryAcquireAt(pos: nat, now: int) returns (ok: bool)
      requires Valid() && pos < |backends|
      modifies backends[pos]
      ensures Valid()
      ensures ok <==> Selection.Usable(old(States())[pos], now)
      ensures var b := Refreshed(old(States())[pos], now);
              States() == old(States())[pos := if ok then b.(inflight := b.inflight + 1) else b]
    {
      ok := backends[pos].TryAcquire(now);
    }

    method QueryAt(pos: nat, now: int) returns (ok: bool)
      requires Valid() && pos < |backends|
      modifies backends[pos]
      ensures Valid()
      ensures ok <==> Selectable(old(States())[pos], now)
      ensures States() == old(States())[pos := Refreshed(old(States())[pos], now)]
    {
      ok := backends[pos].IsSelectable(now);
    }

    method Healthy(now: int) returns (h: seq<nat>)
      requires Valid()
      modifies backends
      ensures Valid()
      ensures h == Selection.HealthyList(old(States()), now)
      ensures States() == Selection.RefreshAll(old(States()), now)
    {
      hide Refreshed, Selectable, Valid, Selection.RefreshUpTo, Selection.RefreshAll;
      ghost var bs := States();
      Selection.RefreshEnds(bs, now);
      h := [];
      for n := 0 to |backends|
        invariant Valid()
        invariant h == Selection.HealthyUpTo(bs, now, n)
        invariant States() == Selection.RefreshUpTo(bs, now, n)
      {
        Selection.RefreshOneMore(bs, now, n);
        var ok := QueryAt(n, now);
        if ok {
          h := h + [n];
        }
      }
    }

    /** One slot of a backend that was refreshed at the same clock reading. */
    method TakeAt(pos: nat, now: int, ghost bs: seq<BackendState>) returns (ok: bool)
      requires Valid() && pos < |backends| == |bs|
      requires States() == Selection.RefreshAll(bs, now) && Selectable(bs[pos], now)
      modifies backends[pos]
      ensures Valid()
      ensures ok <==> Selection.HasRoom(old(States())[pos])
      ensures States() == if ok then Selection.Take(old(States()), pos) else old(States())
    {
      RefreshIsStable(bs[pos], now, now);
      ok := TryAcquireAt(pos, now);
    }

    /** Probes the healthy backends cyclically and takes the first slot it gets. */
    method Probe(h: seq<nat>, start: nat, now: int, ghost bs: seq<BackendState>) returns (o: Selection.Outcome)
      requires Valid() && |bs| == |backends| && |h| > 0
      requires h == Selection.HealthyList(bs, now) && States() == Selection.RefreshAll(bs, now)
      modifies backends
      ensures Valid()
      ensures (o, States()) == Selection.Took(old(States()), Selection.Scan(old(States()), h, start, 0))
    {
      hide Selection.RefreshAll, Selection.HealthyUpTo, Selection.HasRoom, Selection.Take, Selection.ProbePlace;
      hide Refreshed, Selectable, Valid;
      ghost var r := States();
      for i := 0 to |h|
        invariant Valid() && States() == r
        invariant Selection.Scan(r, h, start, 0) == Selection.Scan(r, h, start, i)
      {
        var pos := Selection.ProbeAt(h, start, i);
        var ok := TakeAt(pos, now, bs);
        if ok {
          return Selection.Picked(pos);
        }
      }
      o := Selection.NoBackend;
    }

    method PickRR(now: int) returns (o: Selection.Outcome)
      requires Valid()
      modifies this`rr, backends
      ensures Valid()
      ensures (o, States(), rr) == Selection.PickRR(old(States()), old(rr), now)
    {
      ghost var bs := States();
      var h := Healthy(now);
      if |h| == 0 {
        return Selection.NoBackend;
      }
      hide Selection.Scan, Selection.HealthyUpTo, Refreshed, Selectable;
      var start := Selection.TruncRem(Selection.ToInt64(rr), |h|);
      rr := (rr + 1) % Selection.TWO64;
      if start < 0 {
        // the first index of the loop, start % len, is negative
        return Selection.Panics;
      }
      o := Probe(h, start, now, bs);
    }

    method PickLeastConn(now: int) returns (o: Selection.Outcome)
      requires Valid()
      modifies backends
      ensures Valid()
      ensures (o, States()) == Selection.PickLeastConn(old(States()), now)
    {
      hide Selection.HealthyUpTo, Selection.RefreshAll, Refreshed, Selectable;
      ghost var bs := States();
      var h := Healthy(now);
      ghost var r := States();
      var best: Option<nat> := None;
      var bestLoad := -1;
      for k := 0 to |h|
        invariant Valid() && States() == r
        invariant (best, bestLoad) == Selection.Best(r, h, k)
        invariant best.Some? ==> best.value in h && Selection.HasRoom(r[best.value])
        invariant best.None? ==> bestLoad == -1 && forall j :: 0 <= j < k ==> !Selection.HasRoom(r[h[j]])
      {
        var load := backends[h[k]].inflight;
        assert r[h[k]] == backends[h[k]].View();
        if load < bestLoad || bestLoad < 0 {
          var room := backends[h[k]].HasCapacity();
          if room {
            bestLoad := load;
            best := Some(h[k]);
          }
        }
      }
      if best.Some? {
        var ok := TakeAt(best.value, now, bs);
        if ok {
          return Selection.Picked(best.value);
        }
      }
      FallBack(now, h, bs);
      o := Selection.NoBackend;
    }

    /** Tries every healthy backend once more; run alone, it finds nobody with room. */
    method FallBack(now: int, ghost h: seq<nat>, ghost bs: seq<BackendState>)
      requires Valid() && |bs| == |backends| && h == Selection.HealthyList(bs, now)
      requires States() == Selection.RefreshAll(bs, now)
      requires forall k :: 0 <= k < |h| ==> !Selection.HasRoom(States()[h[k]])
      modifies backends
      ensures Valid() && States() == old(States())
    {
      hide Selection.HealthyUpTo, Selection.RefreshAll, Refreshed, Selectable;
      ghost var r := States();
      Selection.RefreshedList(bs, now);
      var again := Healthy(now);
      for k := 0 to |again|
        invariant Valid() && States() == r
      {
        var ok := TakeAt(again[k], now, bs);
        if ok {
          // a backend with room would have been taken before
          assert false;
        }
      }
    }

    method PickSticky(key: nat, now: int) returns (o: Selection.Outcome)
      requires Valid() && key < Selection.TWO64
      modifies backends
      ensures Valid()
      ensures (o, States()) == Selection.PickSticky(old(States()), key, now)
    {
      var h := Healthy(now);
      if |h| == 0 {
        return Selection.NoBackend;
      }
      var idx := Selection.TruncRem(Selection.ToInt64(key), |h|);
      if idx < 0 || idx >= |h| {
        return Selection.Panics;
      }
      var ok := TakeAt(h[idx], now, old(States()));
      o := if ok then Selection.Picked(h[idx]) else Selection.NoBackend;
    }

    method Select(key: nat, now: int) returns (o: Selection.Outcome)
      requires Valid() && key < Selection.TWO64
      modifies this, backends
      ensures Valid()
      ensures (o, View()) == Selection.Select(old(View()), key, now)
    {
      hide Selection.Missed, Selection.Take, Selection.IndexOf, Refreshed, Selectable, Selection.Usable;
      ghost var ps := View();
      selects := selects + 1;
      var stuck := Revisit(key, now);
      if stuck.Some? {
        return Selection.Picked(stuck.value);
      }
      assert View() == Selection.Looked(ps, key, now);
      o := PickFresh(key, now);
    }

    /** Takes a slot of the remembered backend if its entry is fresh and it can serve. */
    method Revisit(key: nat, now: int) returns (stuck: Option<nat>)
      requires Valid()
      modifies backends
      ensures Valid()
      ensures stuck == if Selection.Hit(old(View()), key, now) then Selection.Remembered(old(View()), key, now) else None
      ensures var bs := Selection.Looked(old(View()), key, now).bs;
              States() == if stuck.Some? then Selection.Take(bs, stuck.value) else bs
    {
      hide Refreshed, Selectable;
      stuck := None;
      if strategy == Selection.Sticky && key in sticky && now - sticky[key].updated < stickyTTL {
        var pos := Get(sticky[key].id);
        if pos.Some? {
          var ok := TryAcquireAt(pos.value, now);
          if ok {
            stuck := pos;
          }
        }
      }
    }

    method PickByStrategy(key: nat, now: int) returns (o: Selection.Outcome)
      requires Valid() && key < Selection.TWO64
      modifies this`rr, backends
      ensures Valid()
      ensures (o, States(), rr) == Selection.PickByStrategy(strategy, old(States()), old(rr), key, now)
    {
      hide Selection.PickRR, Selection.PickSticky, Selection.PickLeastConn;
      match strategy
      case RoundRobin =>
        o := PickRR(now);
      case Sticky =>
        o := PickSticky(key, now);
        if o == Selection.NoBackend {
          o := PickLeastConn(now);
        }
      case _ =>
        o := PickLeastConn(now);
    }

    method PickFresh(key: nat, now: int) returns (o: Selection.Outcome)
      requires Valid() && key < Selection.TWO64
      modifies this, backends
      ensures Valid()
      ensures (o, View()) == Selection.Missed(old(View()), key, now)
    {
      hide Selection.PickByStrategy;
      o := PickByStrategy(key, now);
      if o == Selection.NoBackend {
        selectFail := selectFail + 1;
      }
      if o.Picked? && strategy == Selection.Sticky {
        assert States()[o.pos] == backends[o.pos].View();
        sticky := sticky[key := Selection.StickyEntry(backends[o.pos].id, now)];
      }
    }

    /** Up to three attempts; each lease of a failed attempt is settled before the next. */
    method DialViaSocks(key: nat, net: seq<Attempt>) returns (r: DialResult)
      requires Valid() && key < Selection.TWO64 && |net| == ATTEMPTS
      modifies this, backends
      ensures Valid()
      ensures (r, View()) == Dial(old(View()), key, net, 0)
    {
      hide Selection.Select, Settled, Kept;
      ghost var want := Dial(View(), key, net, 0);
      for attempt := 0 to ATTEMPTS
        invariant Valid()
        invariant Dial(View(), key, net, attempt) == want
      {
        var o := Select(key, net[attempt].start);
        match o
        case NoBackend => return NoneHealthy;
        case Panics => return Crashed;
        case Picked(pos) =>
          if net[attempt].ok {
            Keep(pos, net[attempt].done);
            return Dialed(pos);
          }
          Settle(pos, net[attempt].done);
      }
      r := DialFailed;
    }

    method Settle(pos: nat, now: int)
      requires Valid() && pos < |backends|
      modifies backends[pos]
      ensures Valid() && View() == Settled(old(View()), pos, now)
    {
      backends[pos].MarkFailure(now);
      backends[pos].Release();
    }

    method Keep(pos: nat, now: int)
      requires Valid() && pos < |backends|
      modifies backends[pos]
      ensures Valid() && View() == Kept(old(View()), pos, now)
    {
      backends[pos].MarkSuccess(now);
    }
  }
}
