/**
 How the pool picks a backend, on values: the three strategies, the sticky
 cache, and what one selection changes.
 */
module Selection {
  import opened Prelude
  import opened Breaker

  const TWO63: int := 0x8000_0000_0000_0000
  const TWO64: int := 0x1_0000_0000_0000_0000

  /** Any other configured name selects like LeastConn. */
  datatype Strategy = RoundRobin | LeastConn | Sticky | Unrecognised

  /** Panics is an index-out-of-range crash of the process. */
  datatype Outcome = Picked(pos: nat) | NoBackend | Panics

  datatype StickyEntry = StickyEntry(id: int, updated: int)

  datatype PoolState = PoolState(
    bs: seq<BackendState>, strategy: Strategy, stickyTTL: int,
    sticky: map<nat, StickyEntry>, rr: nat, selects: nat, selectFail: nat)

  // ------------------------------------------------------- machine integers

  /** Reading an unsigned 64-bit value as a signed one. */
  function ToInt64(u: nat): int {
    if u < TWO63 then u else u - TWO64
  }

  /** A remainder that takes the sign of its left operand. */
  function TruncRem(a: int, n: int): int
    requires n > 0
  {
    if a >= 0 then a % n else -((-a) % n)
  }

  /** The remainder of the 64-bit value `u` is a negative index into `n` backends. */
  predicate NegativeIndex(u: nat, n: nat) {
    TWO63 <= u < TWO64 && n > 0 && (TWO64 - u) % n != 0
  }

  lemma IndexIsNegativeWhen(u: nat, n: nat)
    requires u < TWO64 && n > 0
    ensures TruncRem(ToInt64(u), n) < 0 <==> NegativeIndex(u, n)
    ensures 0 - n < TruncRem(ToInt64(u), n) < n
    ensures u < TWO63 ==> TruncRem(ToInt64(u), n) == u % n
  {}

  // ----------------------------------------------------------- healthy list

  predicate HasRoom(b: BackendState) {
    b.inflight < b.lim.maxInflight
  }

  predicate Usable(b: BackendState, now: int) {
    Selectable(b, now) && HasRoom(b)
  }

  function RefreshAll(bs: seq<BackendState>, now: int): seq<BackendState> {
    seq(|bs|, i requires 0 <= i < |bs| => Refreshed(bs[i], now))
  }

  /** After the first `n` have been queried. */
  function RefreshUpTo(bs: seq<BackendState>, now: int, n: nat): seq<BackendState> {
    seq(|bs|, i requires 0 <= i < |bs| => if i < n then Refreshed(bs[i], now) else bs[i])
  }

  lemma RefreshOneMore(bs: seq<BackendState>, now: int, n: nat)
    requires n < |bs|
    ensures |RefreshUpTo(bs, now, n)| == |bs| && RefreshUpTo(bs, now, n)[n] == bs[n]
    ensures RefreshUpTo(bs, now, n + 1) == RefreshUpTo(bs, now, n)[n := Refreshed(bs[n], now)]
  {}

  lemma RefreshEnds(bs: seq<BackendState>, now: int)
    ensures RefreshUpTo(bs, now, 0) == bs && RefreshUpTo(bs, now, |bs|) == RefreshAll(bs, now)
  {}

  /** The positions below `n` that answer a query with yes, in list order. */
  function HealthyUpTo(bs: seq<BackendState>, now: int, n: nat): (h: seq<nat>)
    requires n <= |bs|
    ensures |h| <= n
    ensures forall k :: 0 <= k < |h| ==> h[k] < n && Selectable(bs[h[k]], now)
    ensures forall j, k :: 0 <= j < k < |h| ==> h[j] < h[k]
    ensures forall i :: 0 <= i < n && Selectable(bs[i], now) ==> i in h
  {
    if n == 0 then []
    else if Selectable(bs[n - 1], now) then HealthyUpTo(bs, now, n - 1) + [n - 1]
    else HealthyUpTo(bs, now, n - 1)
  }

  function HealthyList(bs: seq<BackendState>, now: int): seq<nat> {
    HealthyUpTo(bs, now, |bs|)
  }

  function Take(bs: seq<BackendState>, i: nat): seq<BackendState>
    requires i < |bs|
  {
    bs[i := bs[i].(inflight := bs[i].inflight + 1)]
  }

  // -------------------------------------------------------------- pickers

  /** The place of the `k`-th probe in a cycle of `n` that starts at `start`. */
  function ProbePlace(n: nat, start: nat, k: nat): (c: nat)
    requires n > 0
    ensures c < n
  {
    (start + k) % n
  }

  function ProbeAt(h: seq<nat>, start: nat, k: nat): nat
    requires |h| > 0
  {
    h[ProbePlace(|h|, start, k)]
  }

  /** The first position with room in the probe order, from the `k`-th probe on. */
  function Scan(bs: seq<BackendState>, h: seq<nat>, start: nat, k: nat): (r: Option<nat>)
    requires forall j :: 0 <= j < |h| ==> h[j] < |bs|
    ensures r.Some? ==> r.value in h && r.value < |bs| && HasRoom(bs[r.value])
    decreases |h| - k
  {
    if k >= |h| then None
    else
      var i := ProbeAt(h, start, k);
      if HasRoom(bs[i]) then Some(i) else Scan(bs, h, start, k + 1)
  }

  predicate InRange(r: (Outcome, seq<BackendState>), n: nat) {
    |r.1| == n && (r.0.Picked? ==> r.0.pos < n)
  }

  function Took(bs: seq<BackendState>, pick: Option<nat>): (r: (Outcome, seq<BackendState>))
    requires pick.Some? ==> pick.value < |bs|
    ensures InRange(r, |bs|)
  {
    if pick.Some? then (Picked(pick.value), Take(bs, pick.value)) else (NoBackend, bs)
  }

  /** Round robin: outcome, backends, and the moved counter. */
  function PickRR(bs: seq<BackendState>, rr: nat, now: int): (r: (Outcome, seq<BackendState>, nat))
    ensures InRange((r.0, r.1), |bs|)
  {
    var h := HealthyList(bs, now);
    var r := RefreshAll(bs, now);
    if |h| == 0 then (NoBackend, r, rr)
    else
      var start := TruncRem(ToInt64(rr), |h|);
      var rr' := (rr + 1) % TWO64;
      if start < 0 then (Panics, r, rr')
      else
        var (o, t) := Took(r, Scan(r, h, start, 0));
        (o, t, rr')
  }

  /** The running best of the least-connections scan over the first `k` of `h`, and its load (-1 for none). */
  function Best(bs: seq<BackendState>, h: seq<nat>, k: nat): (r: (Option<nat>, int))
    requires k <= |h| && forall j :: 0 <= j < |h| ==> h[j] < |bs|
    ensures r.0.Some? ==> r.0.value in h
  {
    if k == 0 then (None, -1)
    else
      var (best, bestLoad) := Best(bs, h, k - 1);
      var b := bs[h[k - 1]];
      if (b.inflight < bestLoad || bestLoad < 0) && HasRoom(b) then (Some(h[k - 1]), b.inflight)
      else (best, bestLoad)
  }

  function PickLeastConn(bs: seq<BackendState>, now: int): (r: (Outcome, seq<BackendState>))
    ensures InRange(r, |bs|)
  {
    var h := HealthyList(bs, now);
    var r := RefreshAll(bs, now);
    Took(r, Best(r, h, |h|).0)
  }

  function PickSticky(bs: seq<BackendState>, key: nat, now: int): (r: (Outcome, seq<BackendState>))
    ensures InRange(r, |bs|)
  {
    var h := HealthyList(bs, now);
    var r := RefreshAll(bs, now);
    if |h| == 0 then (NoBackend, r)
    else
      var idx := TruncRem(ToInt64(key), |h|);
      if idx < 0 || idx >= |h| then (Panics, r)
      else Took(r, if HasRoom(r[h[idx]]) then Some(h[idx]) else None)
  }

  // --------------------------------------------------------------- Select

  function IndexOf(bs: seq<BackendState>, id: int): (r: Option<nat>)
    ensures r.Some? ==> r.value < |bs| && bs[r.value].id == id
  {
    IndexFrom(bs, id, 0)
  }

  function IndexFrom(bs: seq<BackendState>, id: int, k: nat): (r: Option<nat>)
    requires k <= |bs|
    ensures r.Some? ==> k <= r.value < |bs| && bs[r.value].id == id
    ensures r.None? ==> forall i :: k <= i < |bs| ==> bs[i].id != id
    decreases |bs| - k
  {
    if k == |bs| then None else if bs[k].id == id then Some(k) else IndexFrom(bs, id, k + 1)
  }

  /** The backend a fresh sticky entry points at. */
  function Remembered(ps: PoolState, key: nat, now: int): (r: Option<nat>)
    ensures r.Some? ==> r.value < |ps.bs|
  {
    if ps.strategy == Sticky && key in ps.sticky && now - ps.sticky[key].updated < ps.stickyTTL
    then IndexOf(ps.bs, ps.sticky[key].id)
    else None
  }

  function PickByStrategy(s: Strategy, bs: seq<BackendState>, rr: nat, key: nat, now: int)
    : (r: (Outcome, seq<BackendState>, nat))
    ensures InRange((r.0, r.1), |bs|)
  {
    match s
    case RoundRobin => PickRR(bs, rr, now)
    case Sticky =>
      var (o, t) := PickSticky(bs, key, now);
      if o == NoBackend then
        var (o', t') := PickLeastConn(t, now);
        (o', t', rr)
      else (o, t, rr)
    case _ =>
      var (o, t) := PickLeastConn(bs, now);
      (o, t, rr)
  }

  /** The remembered backend can serve this selection. */
  predicate Hit(ps: PoolState, key: nat, now: int) {
    var m := Remembered(ps, key, now);
    m.Some? && Usable(ps.bs[m.value], now)
  }

  /** Counts the selection; a remembered backend is queried even when it is then full. */
  function Looked(ps: PoolState, key: nat, now: int): PoolState {
    var m := Remembered(ps, key, now);
    var p := ps.(selects := ps.selects + 1);
    if m.Some? then p.(bs := p.bs[m.value := Refreshed(p.bs[m.value], now)]) else p
  }

  function Select(ps: PoolState, key: nat, now: int): (r: (Outcome, PoolState))
    ensures InRange((r.0, r.1.bs), |ps.bs|)
  {
    var q := Looked(ps, key, now);
    if Hit(ps, key, now) then
      var i := Remembered(ps, key, now).value;
      (Picked(i), q.(bs := Take(q.bs, i)))
    else Missed(q, key, now)
  }

  /** A selection without a usable remembered backend. */
  function Missed(q: PoolState, key: nat, now: int): (r: (Outcome, PoolState))
    ensures InRange((r.0, r.1.bs), |q.bs|)
  {
    var (o, t, rr') := PickByStrategy(q.strategy, q.bs, q.rr, key, now);
    var s := q.(bs := t, rr := rr');
    match o
    case Panics => (o, s)
    case NoBackend => (o, s.(selectFail := s.selectFail + 1))
    case Picked(i) =>
      if s.strategy == Sticky
      then (o, s.(sticky := s.sticky[key := StickyEntry(s.bs[i].id, now)]))
      else (o, s)
  }

  // ------------------------------------------------------------- the laws

  /** In-flight counters never go negative while leases are released once. */
  predicate Counted(bs: seq<BackendState>) {
    forall i :: 0 <= i < |bs| ==> bs[i].inflight >= 0
  }

  /** `b` was at most queried at `now`, its in-flight counter aside. */
  predicate Queried(b: BackendState, b': BackendState, now: int) {
    b'.(inflight := b.inflight) == b || b'.(inflight := b.inflight) == Refreshed(b, now)
  }

  /** The only lasting effect of a selection at `now` with this outcome. */
  predicate SelectEffect(bs: seq<BackendState>, o: Outcome, bs': seq<BackendState>, now: int) {
    && |bs'| == |bs|
    && (forall j :: 0 <= j < |bs| ==>
          && Queried(bs[j], bs'[j], now)
          && bs'[j].inflight == bs[j].inflight + if o == Picked(j) then 1 else 0)
    && (o.Picked? ==>
          && o.pos < |bs| && Usable(bs[o.pos], now)
          && bs'[o.pos] == Refreshed(bs[o.pos], now).(inflight := bs[o.pos].inflight + 1))
  }

  /** The settings stay; the counter moves by at most one; only `key`'s entry may change, to the pick. */
  predicate Bookkeeping(ps: PoolState, key: nat, o: Outcome, ps': PoolState, now: int) {
    && ps'.strategy == ps.strategy && ps'.stickyTTL == ps.stickyTTL
    && ps'.rr in {ps.rr, (ps.rr + 1) % TWO64}
    && ps'.selectFail == ps.selectFail + (if o == NoBackend then 1 else 0)
    && (ps'.sticky == ps.sticky
        || (ps.strategy == Sticky && o.Picked? && o.pos < |ps'.bs|
            && ps'.sticky == ps.sticky[key := StickyEntry(ps'.bs[o.pos].id, now)]))
  }

  /** When a selection crashes: the index it computes is negative. */
  predicate SelectPanics(ps: PoolState, key: nat, now: int) {
    var h := |HealthyList(ps.bs, now)|;
    || (ps.strategy == RoundRobin && NegativeIndex(ps.rr, h))
    || (ps.strategy == Sticky && NegativeIndex(key, h) && !Hit(ps, key, now))
  }

  lemma RefreshedList(bs: seq<BackendState>, now: int)
    ensures HealthyList(RefreshAll(bs, now), now) == HealthyList(bs, now)
    ensures RefreshAll(RefreshAll(bs, now), now) == RefreshAll(bs, now)
    ensures SelectEffect(bs, NoBackend, RefreshAll(bs, now), now)
  {
    var r := RefreshAll(bs, now);
    forall i | 0 <= i < |bs| ensures (Selectable(r[i], now) <==> Selectable(bs[i], now)) && Refreshed(r[i], now) == r[i] {
      RefreshIsStable(bs[i], now, now);
    }
    SameHealthy(bs, r, now, |bs|);
    hide Selectable, HealthyUpTo;
  }

  lemma {:induction false} SameHealthy(bs: seq<BackendState>, cs: seq<BackendState>, now: int, n: nat)
    requires n <= |bs| == |cs|
    requires forall i :: 0 <= i < n ==> (Selectable(bs[i], now) <==> Selectable(cs[i], now))
    ensures HealthyUpTo(bs, now, n) == HealthyUpTo(cs, now, n)
  {
    if n > 0 { SameHealthy(bs, cs, now, n - 1); }
  }

  /** The scan returns the first backend of least load among those with room. */
  lemma {:induction false} BestIsFirstMinimum(bs: seq<BackendState>, h: seq<nat>, k: nat)
    requires k <= |h| && forall j :: 0 <= j < |h| ==> h[j] < |bs|
    requires Counted(bs)
    ensures match Best(bs, h, k)
            case (None, l) => l == -1 && forall j :: 0 <= j < k ==> !HasRoom(bs[h[j]])
            case (Some(i), l) => l == bs[i].inflight && FirstMinimum(bs, h[..k], i)
  {
    if k > 0 {
      BestIsFirstMinimum(bs, h, k - 1);
      var (prev, l) := Best(bs, h, k - 1);
      var (best, l') := Best(bs, h, k);
      if best.Some? {
        var c := if best == prev then (var c :| IsFirstMinimumAt(bs, h[..k - 1], best.value, c); c) else k - 1;
        if best != prev && prev.Some? {
          var p :| IsFirstMinimumAt(bs, h[..k - 1], prev.value, p);
        }
        assert forall j :: 0 <= j < k - 1 ==> h[..k][j] == h[..k - 1][j];
        assert IsFirstMinimumAt(bs, h[..k], best.value, c);
      }
    }
  }

  /** At place `c` of `h`: nobody with room has less, nobody earlier with room has as little. */
  predicate IsFirstMinimumAt(bs: seq<BackendState>, h: seq<nat>, i: nat, c: int)
    requires forall j :: 0 <= j < |h| ==> h[j] < |bs|
  {
    && 0 <= c < |h| && h[c] == i && HasRoom(bs[i])
    && (forall j :: 0 <= j < |h| && HasRoom(bs[h[j]]) ==> bs[i].inflight <= bs[h[j]].inflight)
    && (forall j :: 0 <= j < c && HasRoom(bs[h[j]]) ==> bs[i].inflight < bs[h[j]].inflight)
  }

  ghost predicate FirstMinimum(bs: seq<BackendState>, h: seq<nat>, i: nat)
    requires forall j :: 0 <= j < |h| ==> h[j] < |bs|
  {
    exists c :: IsFirstMinimumAt(bs, h, i, c)
  }

  lemma PlaceValue(n: nat, start: nat, k: nat)
    requires start < n && k < n
    ensures ProbePlace(n, start, k) == if start + k < n then start + k else start + k - n
  {
    if start + k < n { DivMod(start + k, n, 0, start + k); } else { DivMod(start + k, n, 1, start + k - n); }
  }

  /** Under saturation the probe order visits every healthy place exactly once. */
  lemma ProbeOrderIsPermutation(n: nat, start: nat, c: nat) returns (k: nat)
    requires start < n && c < n
    ensures k < n && ProbePlace(n, start, k) == c
    ensures forall j: nat :: j < n && j != k ==> ProbePlace(n, start, j) != c
  {
    k := if c >= start then c - start else c + n - start;
    PlaceValue(n, start, k);
    forall j: nat | j < n && j != k ensures ProbePlace(n, start, j) != c {
      PlaceValue(n, start, j);
    }
  }

  lemma {:induction false} ScanMisses(bs: seq<BackendState>, h: seq<nat>, start: nat, k: nat, j: nat)
    requires forall i :: 0 <= i < |h| ==> h[i] < |bs|
    requires Scan(bs, h, start, k).None? && k <= j < |h|
    ensures !HasRoom(bs[ProbeAt(h, start, j)])
    decreases |h| - k
  {
    if k < j { ScanMisses(bs, h, start, k + 1, j); }
  }

  /** The scan takes the first position with room in the probe order. */
  lemma {:induction false} ScanIsFirst(bs: seq<BackendState>, h: seq<nat>, start: nat, k: nat) returns (j: nat)
    requires forall i :: 0 <= i < |h| ==> h[i] < |bs|
    requires Scan(bs, h, start, k).Some?
    ensures k <= j < |h| && Scan(bs, h, start, k) == Some(ProbeAt(h, start, j)) && HasRoom(bs[ProbeAt(h, start, j)])
    ensures forall m :: k <= m < j ==> !HasRoom(bs[ProbeAt(h, start, m)])
    decreases |h| - k
  {
    if HasRoom(bs[ProbeAt(h, start, k)]) {
      j := k;
    } else {
      j := ScanIsFirst(bs, h, start, k + 1);
    }
  }

  /** Refreshing everything and taking a slot of a usable backend is a legal selection effect. */
  lemma TookEffect(bs: seq<BackendState>, pick: Option<nat>, now: int)
    requires pick.Some? ==> pick.value < |bs| && Usable(bs[pick.value], now)
    ensures var (o, t) := Took(RefreshAll(bs, now), pick); SelectEffect(bs, o, t, now)
  {
    var r := RefreshAll(bs, now);
    var (o, t) := Took(r, pick);
    forall j | 0 <= j < |bs|
      ensures Queried(bs[j], t[j], now) && t[j].inflight == bs[j].inflight + if o == Picked(j) then 1 else 0
    {
      assert r[j] == Refreshed(bs[j], now);
      assert t[j] == if o == Picked(j) then r[j].(inflight := r[j].inflight + 1) else r[j];
    }
  }

  lemma RefreshKeepsRoom(bs: seq<BackendState>, now: int, i: nat)
    requires i < |bs|
    ensures HasRoom(RefreshAll(bs, now)[i]) <==> HasRoom(bs[i])
    ensures RefreshAll(bs, now)[i].inflight == bs[i].inflight
  {}

  lemma NoRoomMeansUnusable(bs: seq<BackendState>, rr: nat, now: int)
    requires rr < TWO64 && PickRR(bs, rr, now).0 == NoBackend
    ensures forall i :: 0 <= i < |bs| ==> !Usable(bs[i], now)
  {
    var h := HealthyList(bs, now);
    var r := RefreshAll(bs, now);
    forall i | 0 <= i < |bs| ensures !Usable(bs[i], now) {
      if Selectable(bs[i], now) {
        var c :| 0 <= c < |h| && h[c] == i;
        IndexIsNegativeWhen(rr, |h|);
        var start := TruncRem(ToInt64(rr), |h|);
        var k := ProbeOrderIsPermutation(|h|, start, c);
        ScanMisses(r, h, start, 0, k);
        RefreshKeepsRoom(bs, now, i);
      }
    }
  }

  lemma PickRREffect(bs: seq<BackendState>, rr: nat, now: int)
    requires rr < TWO64
    ensures var (o, t, rr') := PickRR(bs, rr, now);
            && (o == Panics <==> NegativeIndex(rr, |HealthyList(bs, now)|))
            && SelectEffect(bs, o, t, now)
            && rr' in {rr, (rr + 1) % TWO64}
            && (o == NoBackend ==> forall i :: 0 <= i < |bs| ==> !Usable(bs[i], now))
  {
    var h := HealthyList(bs, now);
    var r := RefreshAll(bs, now);
    RefreshedList(bs, now);
    if |h| > 0 {
      IndexIsNegativeWhen(rr, |h|);
      var start := TruncRem(ToInt64(rr), |h|);
      if start >= 0 {
        var pick := Scan(r, h, start, 0);
        if pick.Some? { RefreshKeepsRoom(bs, now, pick.value); }
        TookEffect(bs, pick, now);
      }
    }
    if PickRR(bs, rr, now).0 == NoBackend { NoRoomMeansUnusable(bs, rr, now); }
  }

  lemma PickLeastConnEffect(bs: seq<BackendState>, now: int)
    requires Counted(bs)
    ensures var (o, t) := PickLeastConn(bs, now);
            && o != Panics
            && SelectEffect(bs, o, t, now)
            && (o == NoBackend ==> forall i :: 0 <= i < |bs| ==> !Usable(bs[i], now))
            && (o.Picked? ==> FirstMinimum(bs, HealthyList(bs, now), o.pos))
  {
    var h := HealthyList(bs, now);
    var r := RefreshAll(bs, now);
    assert Counted(r);
    BestIsFirstMinimum(r, h, |h|);
    assert h[..|h|] == h;
    var best := Best(r, h, |h|).0;
    forall i | 0 <= i < |bs| { RefreshKeepsRoom(bs, now, i); }
    if best.Some? {
      var c :| IsFirstMinimumAt(r, h, best.value, c);
      assert IsFirstMinimumAt(bs, h, best.value, c) by { SameMinimum(bs, r, h, best.value, c); }
    } else {
      forall i | 0 <= i < |bs| ensures !Usable(bs[i], now) {
        if Selectable(bs[i], now) {
          var c :| 0 <= c < |h| && h[c] == i;
          assert !HasRoom(r[h[c]]);
        }
      }
    }
    TookEffect(bs, best, now);
  }

  /** Being the first minimum depends only on room and load. */
  lemma SameMinimum(bs: seq<BackendState>, r: seq<BackendState>, h: seq<nat>, i: nat, c: int)
    requires |r| == |bs| && forall j :: 0 <= j < |h| ==> h[j] < |bs|
    requires forall j :: 0 <= j < |bs| ==> r[j].inflight == bs[j].inflight && (HasRoom(r[j]) <==> HasRoom(bs[j]))
    requires IsFirstMinimumAt(r, h, i, c)
    ensures IsFirstMinimumAt(bs, h, i, c)
  {}

  lemma PickStickyEffect(bs: seq<BackendState>, key: nat, now: int)
    requires key < TWO64
    ensures var (o, t) := PickSticky(bs, key, now);
            && (o == Panics <==> NegativeIndex(key, |HealthyList(bs, now)|))
            && SelectEffect(bs, o, t, now)
            && (o == NoBackend ==> t == RefreshAll(bs, now))
  {
    var h := HealthyList(bs, now);
    if |h| > 0 { IndexIsNegativeWhen(key, |h|); }
  }

  /** The outcome of one selection: when it crashes, when it fails, and everything it changes. */
  ghost predicate Correct(ps: PoolState, key: nat, now: int, o: Outcome, ps': PoolState) {
    && (o == Panics <==> SelectPanics(ps, key, now))
    && (!SelectPanics(ps, key, now) ==>
          (o == NoBackend <==> forall i :: 0 <= i < |ps.bs| ==> !Usable(ps.bs[i], now)))
    && SelectEffect(ps.bs, o, ps'.bs, now)
    && Bookkeeping(ps, key, o, ps', now) && ps'.selects == ps.selects + 1
  }

  /**
   Every strategy is complete: unless it crashes, a selection fails exactly when no
   admitted, selectable backend has a free slot, and it changes one counter by one.
   */
  lemma SelectIsComplete(ps: PoolState, key: nat, now: int)
    requires Counted(ps.bs) && key < TWO64 && ps.rr < TWO64
    ensures Correct(ps, key, now, Select(ps, key, now).0, Select(ps, key, now).1)
  {
    hide *;
    if Hit(ps, key, now) {
      HitIsComplete(ps, key, now);
    } else {
      MissIsComplete(ps, key, now);
    }
  }

  /** Two healthy backends and a sticky key of 2^64 - 1: the index is -1. */
  lemma StickyCrash(a: BackendState, b: BackendState, now: int)
    requires Selectable(a, now) && Selectable(b, now)
    ensures Select(PoolState([a, b], Sticky, 0, map[], 0, 0, 0), TWO64 - 1, now).0 == Panics
  {
    var bs := [a, b];
    assert HealthyUpTo(bs, now, 1) == HealthyUpTo(bs, now, 0) + [0];
    assert |HealthyList(bs, now)| == 2;
    IndexIsNegativeWhen(TWO64 - 1, 2);
    hide HealthyUpTo, Refreshed, Selectable;
  }

  lemma HitIsComplete(ps: PoolState, key: nat, now: int)
    requires Hit(ps, key, now)
    ensures Correct(ps, key, now, Select(ps, key, now).0, Select(ps, key, now).1)
  {
    hide Missed, IndexOf;
    RememberedEffect(ps.bs, Remembered(ps, key, now).value, now);
  }

  lemma MissIsComplete(ps: PoolState, key: nat, now: int)
    requires Counted(ps.bs) && key < TWO64 && ps.rr < TWO64
    requires !Hit(ps, key, now)
    ensures Correct(ps, key, now, Select(ps, key, now).0, Select(ps, key, now).1)
  {
    hide Missed, SelectEffect, Hit, Usable, IndexOf;
    var q := Looked(ps, key, now);
    LookedStaysAlike(ps, key, now);
    SameHealthy(ps.bs, q.bs, now, |ps.bs|);
    MissedEffect(q, key, now);
    var (o, ps') := Missed(q, key, now);
    EffectThroughQuery(ps.bs, q.bs, o, ps'.bs, now);
    PickedIsUsable(ps.bs, o, ps'.bs, now);
  }

  lemma PickedIsUsable(bs: seq<BackendState>, o: Outcome, bs': seq<BackendState>, now: int)
    requires SelectEffect(bs, o, bs', now)
    ensures o.Picked? ==> o.pos < |bs| && Usable(bs[o.pos], now)
  {}

  lemma LookedStaysAlike(ps: PoolState, key: nat, now: int)
    ensures var q := Looked(ps, key, now);
            && |q.bs| == |ps.bs|
            && (Counted(ps.bs) ==> Counted(q.bs))
            && forall i :: 0 <= i < |ps.bs| ==>
                 && (q.bs[i] == ps.bs[i] || q.bs[i] == Refreshed(ps.bs[i], now))
                 && (Selectable(q.bs[i], now) <==> Selectable(ps.bs[i], now))
  {}

  lemma RememberedEffect(bs: seq<BackendState>, i: nat, now: int)
    requires i < |bs|
    ensures var q := bs[i := Refreshed(bs[i], now)];
            Usable(bs[i], now) ==> SelectEffect(bs, Picked(i), Take(q, i), now)
  {}

  lemma MissedEffect(q: PoolState, key: nat, now: int)
    requires Counted(q.bs) && key < TWO64 && q.rr < TWO64
    ensures var (o, q') := Missed(q, key, now);
            && (o == Panics <==> ((q.strategy == RoundRobin && NegativeIndex(q.rr, |HealthyList(q.bs, now)|))
                                  || (q.strategy == Sticky && NegativeIndex(key, |HealthyList(q.bs, now)|))))
            && SelectEffect(q.bs, o, q'.bs, now) && Bookkeeping(q, key, o, q', now) && q'.selects == q.selects
            && (o == NoBackend ==> forall i :: 0 <= i < |q.bs| ==> !Usable(q.bs[i], now))
  {
    PickEffect(q.strategy, q.bs, q.rr, key, now);
  }

  lemma PickEffect(s: Strategy, bs: seq<BackendState>, rr: nat, key: nat, now: int)
    requires Counted(bs) && key < TWO64 && rr < TWO64
    ensures var (o, t, rr') := PickByStrategy(s, bs, rr, key, now);
            && (o == Panics <==> ((s == RoundRobin && NegativeIndex(rr, |HealthyList(bs, now)|))
                                  || (s == Sticky && NegativeIndex(key, |HealthyList(bs, now)|))))
            && SelectEffect(bs, o, t, now) && rr' in {rr, (rr + 1) % TWO64}
            && (o == NoBackend ==> forall i :: 0 <= i < |bs| ==> !Usable(bs[i], now))
  {
    match s
    case RoundRobin => PickRREffect(bs, rr, now);
    case Sticky =>
      PickStickyEffect(bs, key, now);
      var r := RefreshAll(bs, now);
      PickLeastConnEffect(r, now);
      var (o, t) := PickLeastConn(r, now);
      EffectThroughQuery(bs, r, o, t, now);
    case _ => PickLeastConnEffect(bs, now);
  }

  /** A selection after a query at the same time is a selection. */
  lemma EffectThroughQuery(bs: seq<BackendState>, cs: seq<BackendState>, o: Outcome, ds: seq<BackendState>, now: int)
    requires |bs| == |cs| && forall j :: 0 <= j < |bs| ==> cs[j] == bs[j] || cs[j] == Refreshed(bs[j], now)
    requires SelectEffect(cs, o, ds, now)
    ensures SelectEffect(bs, o, ds, now)
    ensures (forall i :: 0 <= i < |cs| ==> !Usable(cs[i], now)) ==> forall i :: 0 <= i < |bs| ==> !Usable(bs[i], now)
  {
    forall j | 0 <= j < |bs|
      ensures Queried(bs[j], ds[j], now)
      ensures cs[j].inflight == bs[j].inflight
      ensures Usable(cs[j], now) <==> Usable(bs[j], now)
    {
      assert Queried(cs[j], ds[j], now);
      RefreshIsStable(bs[j], now, now);
    }
  }
}
