/** The uniqueness engine as an object over the pool's backends. */
module Engines {
  import opened Prelude
  import opened Breaker
  import opened Backends
  import opened Uniqueness

  /** The breakers with the one at `i` forced to Unknown. */
  ghost function Unknowned(bs: seq<BackendState>, i: nat): seq<BackendState> {
    if i < |bs| then bs[i := bs[i].(state := Unknown)] else bs
  }

  /** The breakers after these records: a registration that succeeded makes its backend Unknown, and nothing else touches one. */
  ghost function Restarted(bs: seq<BackendState>, rs: seq<Record>): seq<BackendState> {
    if rs == [] then bs
    else
      var r := rs[|rs| - 1];
      var before := Restarted(bs, rs[..|rs| - 1]);
      if (r.TickStart? || r.RecheckStart?) && r.ok then Unknowned(before, r.i) else before
  }

  lemma {:induction false} RestartedAgain(bs: seq<BackendState>, rs: seq<Record>, more: seq<Record>)
    ensures Restarted(bs, rs + more) == Restarted(Restarted(bs, rs), more)
  {
    if more == [] {
      assert rs + more == rs;
    } else {
      RestartedAgain(bs, rs, more[..|more| - 1]);
      assert (rs + more)[..|rs + more| - 1] == rs + more[..|more| - 1];
    }
  }

  lemma RestartedJoins(bs: seq<BackendState>, a: seq<Record>, b: seq<Record>, c: seq<Record>)
    requires a <= b <= c
    ensures Restarted(bs, c[|a|..]) == Restarted(Restarted(bs, b[|a|..]), c[|b|..])
  {
    assert c[|a|..] == b[|a|..] + c[|b|..];
    RestartedAgain(bs, b[|a|..], c[|b|..]);
  }

  class UniquenessEngine {
    const cfg: Config
    const backends: seq<Backend>      // in ascending order of id
    var firstOK: bool
    var lastRegStart: Option<int>
    var lastRecheck: Option<int>
    var nextRetry: map<int, int>      // id -> earliest next attempt
    var recheckN: map<int, nat>       // id -> registrations redone by rechecks
    var stats: Stats
    ghost var history: seq<Record>

    ghost predicate Valid()
      reads this
    {
      forall i, j :: 0 <= i < j < |backends| ==> backends[i] != backends[j] && backends[i].id < backends[j].id
    }

    static ghost function SlotOf(b: Backend, retry: map<int, int>, rechecks: map<int, nat>): Slot
      reads b
    {
      Slot(b.admit, b.egressIPv4, b.uniqueTries,
           if b.id in retry then Some(retry[b.id]) else None,
           if b.id in rechecks then rechecks[b.id] else 0)
    }

    static ghost function SlotList(bs: seq<Backend>, retry: map<int, int>, rechecks: map<int, nat>): (s: seq<Slot>)
      reads bs
      ensures |s| == |bs|
    {
      seq(|bs|, i requires 0 <= i < |bs| reads bs => SlotOf(bs[i], retry, rechecks))
    }

    ghost function Slots(): seq<Slot>
      reads this`nextRetry, this`recheckN, backends
    {
      SlotList(backends, nextRetry, recheckN)
    }

    /** The circuit breaker and load of a backend: all of it that admission is not about. */
    static ghost function BreakerOf(b: Backend): BackendState
      reads b
    {
      b.View().(admit := Warming, egressIPv4 := "", uniqueTries := 0, lastChange := 0)
    }

    static ghost function BreakerList(bs: seq<Backend>): (s: seq<BackendState>)
      reads bs
      ensures |s| == |bs|
    {
      seq(|bs|, i requires 0 <= i < |bs| reads bs => BreakerOf(bs[i]))
    }

    ghost function Breakers(): seq<BackendState>
      reads backends
    {
      BreakerList(backends)
    }

    ghost function View(): Engine
      reads this, backends
    {
      Engine(Slots(), firstOK, lastRegStart, lastRecheck, stats, history)
    }

    constructor (cfg: Config, backends: seq<Backend>)
      requires forall i, j :: 0 <= i < j < |backends| ==> backends[i] != backends[j] && backends[i].id < backends[j].id
      requires forall i :: 0 <= i < |backends| ==>
                 backends[i].admit == Warming && backends[i].egressIPv4 == "" && backends[i].uniqueTries == 0
      ensures Valid() && this.cfg == cfg && this.backends == backends
      ensures View() == Init(|backends|)
    {
      this.cfg := cfg;
      this.backends := backends;
      firstOK, lastRegStart, lastRecheck := false, None, None;
      nextRetry, recheckN := map[], map[];
      stats := Stats(0, 0, 0, 0, 0, 0, 0, 0);
      history := [];
    }

    // ------------------------------------------------ one field of one slot

    method Enter(i: nat, phase: AdmitPhase, ip: string, now: int)
      requires Valid() && i < |backends|
      modifies backends[i]
      ensures Valid() && Slots() == old(Slots())[i := Entered(old(Slots())[i], phase, ip)]
      ensures Breakers() == old(Breakers())
    {
      backends[i].SetAdmit(phase, ip, now);
      assert backends[i].admit == backends[i].View().admit && backends[i].egressIPv4 == backends[i].View().egressIPv4;
      assert backends[i].uniqueTries == backends[i].View().uniqueTries;
    }

    method CountAttempt(i: nat) returns (tries: nat)
      requires Valid() && i < |backends|
      modifies backends[i]
      ensures Valid() && tries == old(Slots())[i].tries + 1
      ensures Slots() == old(Slots())[i := old(Slots())[i].(tries := tries)]
      ensures Breakers() == old(Breakers())
    {
      tries := backends[i].IncUniqueAttempt();
      assert backends[i].admit == backends[i].View().admit && backends[i].egressIPv4 == backends[i].View().egressIPv4;
      assert backends[i].uniqueTries == backends[i].View().uniqueTries;
    }

    method RetryAt(i: nat, t: int)
      requires Valid() && i < |backends|
      modifies this`nextRetry
      ensures Valid() && Slots() == old(Slots())[i := old(Slots())[i].(retry := Some(t))]
    {
      nextRetry := nextRetry[backends[i].id := t];
    }

    method ClearRetry(i: nat)
      requires Valid() && i < |backends|
      modifies this`nextRetry
      ensures Valid() && Slots() == old(Slots())[i := old(Slots())[i].(retry := None)]
    {
      nextRetry := nextRetry - {backends[i].id};
    }

    method SetRechecks(i: nat, n: nat)
      requires Valid() && i < |backends|
      modifies this`recheckN
      ensures Valid() && Slots() == old(Slots())[i := old(Slots())[i].(rechecks := n)]
    {
      recheckN := recheckN[backends[i].id := n];
    }

    /** Admits or parks, with the slot's retry entry dropped or kept. */
    method Settle(i: nat, phase: AdmitPhase, ip: string, now: int, clear: bool, ghost r: Record)
      requires Valid() && i < |backends|
      modifies backends[i], this`nextRetry, this`history
      ensures Valid()
      ensures var s := Entered(old(Slots())[i], phase, ip);
              View() == Put(old(View()), i, if clear then s.(retry := None) else s, r)
      ensures Breakers() == old(Breakers())
    {
      Enter(i, phase, ip, now);
      if clear {
        ClearRetry(i);
      }
      history := history + [r];
    }

    /** Of the first `n` backends, `j` is the last admitted one with this address. */
    ghost predicate LastOwner(ip: string, j: int, n: nat)
      requires n <= |backends|
      reads backends
    {
      && 0 <= j < n && backends[j].admit == InPool && backends[j].egressIPv4 == ip
      && forall k :: j < k < n ==> backends[k].admit != InPool || backends[k].egressIPv4 != ip
    }

    /** The addresses in the pool, each with the id of the last backend that has it. */
    method InPoolIPv4Set() returns (used: map<string, int>)
      requires Valid()
      ensures used.Keys == UsedIPs(Slots())
      ensures forall j :: 0 <= j < |backends| && backends[j].admit == InPool && backends[j].egressIPv4 != "" ==>
                backends[j].egressIPv4 in used
      ensures forall ip :: ip in used ==> ip != "" && exists j :: LastOwner(ip, j, |backends|) && backends[j].id == used[ip]
    {
      used := map[];
      for n := 0 to |backends|
        invariant used.Keys == set i | 0 <= i < n && Slots()[i].phase == InPool && Slots()[i].ip != "" :: Slots()[i].ip
        invariant forall j :: 0 <= j < n && backends[j].admit == InPool && backends[j].egressIPv4 != "" ==>
                    backends[j].egressIPv4 in used
        invariant forall ip :: ip in used ==> ip != "" && exists j :: LastOwner(ip, j, n) && backends[j].id == used[ip]
      {
        var b := backends[n];
        assert Slots()[n] == SlotOf(b, nextRetry, recheckN);
        ghost var before := used;
        if b.admit == InPool && b.egressIPv4 != "" {
          used := used[b.egressIPv4 := b.id];
        }
        forall ip | ip in used ensures exists j :: LastOwner(ip, j, n + 1) && backends[j].id == used[ip] {
          if b.admit == InPool && b.egressIPv4 == ip {
            assert LastOwner(ip, n, n + 1);
          } else {
            var j :| LastOwner(ip, j, n) && backends[j].id == before[ip];
            assert LastOwner(ip, j, n + 1);
          }
        }
      }
    }

    // --------------------------------------------------------------- tick

    /** Starts a registration unless the last one is too recent. */
    method TryReregister(i: nat, at: int, regOk: bool) returns (started: bool)
      requires Valid() && i < |backends|
      modifies this`lastRegStart, this`stats, backends[i]
      ensures Valid()
      ensures started <==> StaggerOver(cfg, old(View()), at)
      ensures View() == if started then Started(old(View()), i, at, regOk) else old(View())
      ensures Breakers() == if started && regOk then Unknowned(old(Breakers()), i) else old(Breakers())
    {
      var gap := Stagger(cfg);
      if gap > 0 && lastRegStart.Some? {
        var wait := gap - (at - lastRegStart.value);
        if wait > 0 {
          return false;
        }
      }
      lastRegStart := Some(at);
      stats := stats.(reregAttempts := stats.reregAttempts + 1);
      started := true;
      if !regOk {
        stats := stats.(reregFail := stats.reregFail + 1);
        return;
      }
      stats := stats.(reregSuccess := stats.reregSuccess + 1);
      hide SlotList, BreakerList;
      WarmAgain(i, at);
    }

    /** What a registration that succeeded does to its backend. */
    method WarmAgain(i: nat, now: int)
      requires Valid() && i < |backends|
      modifies backends[i]
      ensures Valid() && Slots() == old(Slots())[i := Entered(old(Slots())[i], Warming, "")]
      ensures Breakers() == Unknowned(old(Breakers()), i)
    {
      hide SlotList, BreakerList;
      ForceUnknown(i, now);
      Enter(i, Warming, "", now);
    }

    method ForceUnknown(i: nat, now: int)
      requires Valid() && i < |backends|
      modifies backends[i]
      ensures Valid() && Slots() == old(Slots())
      ensures Breakers() == Unknowned(old(Breakers()), i)
    {
      ghost var was := backends[i].View();
      backends[i].ForceState(Unknown, now);
      assert backends[i].state == backends[i].View().state;
      assert backends[i].admit == was.admit && backends[i].egressIPv4 == was.egressIPv4 && backends[i].uniqueTries == was.uniqueTries by {
        assert backends[i].View().admit == backends[i].admit && backends[i].View().egressIPv4 == backends[i].egressIPv4;
        assert backends[i].View().uniqueTries == backends[i].uniqueTries;
      }
    }

    /** The address is in the pool, and not as this backend's own. */
    method TakenByAnother(i: nat, ip: string) returns (taken: bool)
      requires Valid() && i < |backends| && backends[i].admit != InPool
      ensures taken <==> ip in UsedIPs(Slots())
    {
      var used := InPoolIPv4Set();
      taken := ip in used && used[ip] != backends[i].id;
    }

    method VisitBackend(i: nat, now: int, v: Visit)
      requires Valid() && i < |backends|
      modifies this, backends[i]
      ensures Valid() && View() == VisitSlot(cfg, old(View()), i, now, v)
      ensures old(history) <= history && Breakers() == Restarted(old(Breakers()), history[|old(history)|..])
    {
      var b := backends[i];
      assert Slots()[i] == SlotOf(b, nextRetry, recheckN);
      if b.admit == InPool || b.admit == Parked {
        return;
      }
      if b.id in nextRetry && now < nextRetry[b.id] {
        return;
      }
      if v.health != Healthy && v.health != Degraded && v.health != Unknown {
        return;
      }
      if v.probe.None? {
        return;
      }
      hide Handled, SlotList;
      AdmitOrCollide(i, v);
    }

    /** A backend that answered its probe. */
    method AdmitOrCollide(i: nat, v: Visit)
      requires Valid() && i < |backends| && backends[i].admit != InPool && v.probe.Some?
      modifies this, backends[i]
      ensures Valid() && View() == Handled(cfg, old(View()), i, v)
      ensures old(history) <= history && Breakers() == Restarted(old(Breakers()), history[|old(history)|..])
    {
      hide SlotList, UsedIPs, Collided, Entered;
      var ip := v.probe.value;
      if !firstOK {
        Settle(i, InPool, ip, v.start, false, FirstAdmit(i));
        firstOK := true;
        stats := stats.(admittedUnique := stats.admittedUnique + 1);
        return;
      }
      if !cfg.effort {
        Settle(i, InPool, ip, v.start, false, FreeAdmit(i));
        stats := stats.(admittedResidual := stats.admittedResidual + 1);
        return;
      }
      var taken := TakenByAnother(i, ip);
      if !taken {
        Settle(i, InPool, ip, v.start, true, UniqueAdmit(i));
        stats := stats.(admittedUnique := stats.admittedUnique + 1);
        return;
      }
      HandleCollision(i, v);
    }

    method HandleCollision(i: nat, v: Visit)
      requires Valid() && i < |backends| && v.probe.Some?
      modifies this, backends[i]
      ensures Valid() && View() == Collided(cfg, old(View()), i, v)
      ensures old(history) <= history && Breakers() == Restarted(old(Breakers()), history[|old(history)|..])
    {
      hide Reregistered, GivenUp, SlotList;
      stats := stats.(collisions := stats.collisions + 1);
      var tries := CountAttempt(i);
      if tries > MaxAttempts(cfg) {
        GiveUp(i, v.probe.value, v.start, true);
      } else if !cfg.managed {
        GiveUp(i, v.probe.value, v.start, false);
      } else {
        Reregister(i, v, tries);
      }
    }

    method GiveUp(i: nat, ip: string, now: int, ceiling: bool)
      requires Valid() && i < |backends|
      modifies this`nextRetry, this`history, this`stats, backends[i]
      ensures Valid() && View() == GivenUp(cfg, old(View()), i, ip, ceiling)
      ensures old(history) <= history && Breakers() == Restarted(old(Breakers()), history[|old(history)|..])
    {
      hide Entered, SlotList;
      if cfg.strict {
        Settle(i, Parked, ip, now, ceiling, if ceiling then CeilingPark(i) else AttachPark(i));
      } else {
        Settle(i, InPool, ip, now, ceiling, if ceiling then CeilingAdmit(i) else AttachAdmit(i));
        stats := stats.(admittedResidual := stats.admittedResidual + 1);
      }
    }

    method Reregister(i: nat, v: Visit, tries: nat)
      requires Valid() && i < |backends| && tries == Slots()[i].tries
      modifies this, backends[i]
      ensures Valid() && View() == Reregistered(cfg, old(View()), i, v)
      ensures old(history) <= history && Breakers() == Restarted(old(Breakers()), history[|old(history)|..])
    {
      hide AttemptBackoff, SlotList;
      var started := TryReregister(i, v.start, v.regOk);
      if !started {
        RetryAt(i, v.done + Stagger(cfg));
        history := history + [Deferred(i)];
        return;
      }
      RetryAt(i, v.done + AttemptBackoff(cfg, tries));
      history := history + [TickStart(i, v.start, v.regOk)];
    }

    method RunTick(now: int, vs: seq<Visit>)
      requires Valid() && |vs| == |backends|
      modifies this, backends
      ensures Valid() && View() == Tick(cfg, old(View()), now, vs, 0)
      ensures old(history) <= history && Breakers() == Restarted(old(Breakers()), history[|old(history)|..])
    {
      hide VisitSlot;
      ghost var want := Tick(cfg, View(), now, vs, 0);
      for i := 0 to |backends|
        invariant Valid()
        invariant Tick(cfg, View(), now, vs, i) == want
        invariant old(history) <= history && Breakers() == Restarted(old(Breakers()), history[|old(history)|..])
      {
        if vs[i].cancelled {
          return;
        }
        ghost var before := history;
        VisitBackend(i, now, vs[i]);
        RestartedJoins(old(Breakers()), old(history), before, history);
      }
    }

    // ------------------------------------------------------------ recheck

    /** Refreshes the tags of the reachable admitted backends and lists the higher-id owners of shared ones. */
    method RefreshTags(vs: seq<Visit>) returns (colliders: seq<nat>, completed: bool)
      requires Valid() && |vs| == |backends|
      modifies this`stats, backends
      ensures Valid()
      ensures (View(), colliders, completed) == Retag(old(View()), vs, 0, map[], [])
      ensures Breakers() == old(Breakers())
      ensures forall k :: 0 <= k < |colliders| ==> colliders[k] < |backends|
    {
      hide Tagged;
      var seen: map<string, nat> := map[];
      colliders := [];
      ghost var want := Retag(View(), vs, 0, map[], []);
      for i := 0 to |backends|
        invariant Valid()
        invariant forall k :: 0 <= k < |colliders| ==> colliders[k] < |backends|
        invariant Retag(View(), vs, i, seen, colliders) == want
        invariant Breakers() == old(Breakers())
      {
        if vs[i].cancelled {
          completed := false;
          return;
        }
        assert Slots()[i] == SlotOf(backends[i], nextRetry, recheckN);
        if backends[i].admit != InPool || (vs[i].health != Healthy && vs[i].health != Degraded) || vs[i].probe.None? {
          continue;
        }
        seen, colliders := Tag(i, vs[i].probe.value, vs[i].start, seen, colliders);
      }
      completed := true;
    }

    method Tag(i: nat, ip: string, now: int, seen: map<string, nat>, colliders: seq<nat>)
      returns (seen': map<string, nat>, colliders': seq<nat>)
      requires Valid() && i < |backends|
      requires forall k :: 0 <= k < |colliders| ==> colliders[k] < |backends|
      modifies this`stats, backends[i]
      ensures Valid()
      ensures (View(), seen', colliders') == Tagged(old(View()), i, ip, seen, colliders)
      ensures Breakers() == old(Breakers())
    {
      hide SlotList, Entered;
      seen', colliders' := seen, colliders;
      Enter(i, InPool, ip, now);
      if ip in seen {
        stats := stats.(recheckCollisions := stats.recheckCollisions + 1);
        colliders' := colliders + [i];
      } else {
        seen' := seen[ip := i];
      }
    }

    /** Sends at most one collider to register again. */
    method EvictOne(colliders: seq<nat>, ws: seq<Visit>)
      requires Valid() && |ws| == |backends|
      requires forall k :: 0 <= k < |colliders| ==> colliders[k] < |backends|
      modifies this, backends
      ensures Valid() && View() == Evict(cfg, old(View()), colliders, ws, 0)
      ensures old(history) <= history && Breakers() == Restarted(old(Breakers()), history[|old(history)|..])
    {
      hide SentAgain;
      var maxPost := RecheckMax(cfg);
      ghost var want := Evict(cfg, View(), colliders, ws, 0);
      for k := 0 to |colliders|
        invariant Valid()
        invariant Evict(cfg, View(), colliders, ws, k) == want
        invariant history == old(history) && Breakers() == old(Breakers())
      {
        if maxPost <= 0 {
          break;
        }
        var c := colliders[k];
        var b := backends[c];
        assert Slots()[c] == SlotOf(b, nextRetry, recheckN);
        var n := if b.id in recheckN then recheckN[b.id] else 0;
        if n >= maxPost || (b.id in nextRetry && ws[c].start < nextRetry[b.id]) {
          continue;
        }
        var started := SendAgain(c, n, ws[c]);
        if started {
          break;
        }
      }
    }

    method SendAgain(c: nat, n: nat, w: Visit) returns (started: bool)
      requires Valid() && c < |backends| && n == Slots()[c].rechecks
      modifies this, backends[c]
      ensures Valid() && (started <==> StaggerOver(cfg, old(View()), w.start))
      ensures View() == if started then SentAgain(cfg, old(View()), c, w)
                        else old(View()).(slots := old(Slots())[c := old(Slots())[c].(retry := Some(w.done + Stagger(cfg)))])
      ensures old(history) <= history && Breakers() == Restarted(old(Breakers()), history[|old(history)|..])
      ensures !started ==> history == old(history)
    {
      hide AttemptBackoff, SlotList, Entered;
      started := TryReregister(c, w.start, w.regOk);
      if !started {
        RetryAt(c, w.done + Stagger(cfg));
        return;
      }
      SetRechecks(c, n + 1);
      RetryAt(c, w.done + AttemptBackoff(cfg, n + 1));
      history := history + [RecheckStart(c, w.start, w.regOk)];
    }

    method RecheckInPool(at: int, vs: seq<Visit>, ws: seq<Visit>)
      requires Valid() && |vs| == |ws| == |backends|
      modifies this, backends
      ensures Valid() && View() == Recheck(cfg, old(View()), at, vs, ws)
      ensures old(history) <= history && Breakers() == Restarted(old(Breakers()), history[|old(history)|..])
    {
      hide Retag, Evict;
      if !cfg.effort || !cfg.managed {
        return;
      }
      if lastRecheck.Some? && at - lastRecheck.value < RecheckEvery(cfg) {
        return;
      }
      lastRecheck := Some(at);
      stats := stats.(recheckRuns := stats.recheckRuns + 1);
      var colliders, completed := RefreshTags(vs);
      if completed {
        EvictOne(colliders, ws);
      }
    }
  }
}
