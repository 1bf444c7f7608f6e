/** What selection promises over whole runs: draining, fairness, balance, affinity. */
module SelectionRuns {
  import opened Prelude
  import opened Breaker
  import opened Selection

  datatype Request = Request(key: nat, now: int)

  function After(ps: PoolState, rs: seq<Request>): PoolState
    decreases |rs|
  {
    if rs == [] then ps else After(Select(ps, rs[0].key, rs[0].now).1, rs[1..])
  }

  function Outcomes(ps: PoolState, rs: seq<Request>): (os: seq<Outcome>)
    ensures |os| == |rs|
    decreases |rs|
  {
    if rs == [] then []
    else
      var (o, ps') := Select(ps, rs[0].key, rs[0].now);
      [o] + Outcomes(ps', rs[1..])
  }

  /** Times do not run backwards, and each backend answers all the requests' queries as it answers at `t`. */
  predicate FixedSelectable(bs: seq<BackendState>, t: int, rs: seq<Request>) {
    && (forall k :: 0 <= k < |rs| ==> t <= rs[k].now)
    && (forall j, k :: 0 <= j < k < |rs| ==> rs[j].now <= rs[k].now)
    && (forall i, k :: 0 <= i < |bs| && 0 <= k < |rs| ==>
          (Selectable(bs[i], rs[k].now) <==> Selectable(bs[i], t)))
  }

  /** No index the run computes into `n` healthy backends is negative: always so for keys and counters below 2^63. */
  predicate Indexable(ps: PoolState, n: nat, rs: seq<Request>) {
    && ps.rr < TWO64
    && (forall k :: 0 <= k < |rs| ==> rs[k].key < TWO64)
    && (ps.strategy == Sticky ==> forall k :: 0 <= k < |rs| ==> !NegativeIndex(rs[k].key, n))
    && (ps.strategy == RoundRobin ==> forall k :: 0 <= k < |rs| ==> !NegativeIndex(CounterAt(ps.rr, k), n))
  }

  /** The round-robin counter `k` picks later; it wraps. */
  function CounterAt(rr: nat, k: nat): nat {
    (rr + k) % TWO64
  }

  /** The number of backends selectable at `t`. */
  function Width(ps: PoolState, t: int): nat {
    |HealthyList(ps.bs, t)|
  }

  // ------------------------------------------------------------- draining

  function Room(b: BackendState, t: int): nat {
    if Usable(b, t) then b.lim.maxInflight - b.inflight else 0
  }

  function Rooms(bs: seq<BackendState>, t: int): seq<int> {
    seq(|bs|, i requires 0 <= i < |bs| => Room(bs[i], t))
  }

  /** Free slots on the backends selectable at `t`. */
  function Free(bs: seq<BackendState>, t: int): int {
    Sum(Rooms(bs, t))
  }

  lemma EffectKeepsAnswers(bs: seq<BackendState>, o: Outcome, bs': seq<BackendState>, now: int, t: int)
    requires SelectEffect(bs, o, bs', now) && now <= t
    ensures forall i :: 0 <= i < |bs| ==> (Selectable(bs'[i], t) <==> Selectable(bs[i], t)) && bs'[i].lim == bs[i].lim
  {
    forall i | 0 <= i < |bs| ensures (Selectable(bs'[i], t) <==> Selectable(bs[i], t)) && bs'[i].lim == bs[i].lim {
      assert Queried(bs[i], bs'[i], now);
      RefreshIsStable(bs[i], now, t);
      assert Selectable(bs'[i], t) <==> Selectable(bs'[i].(inflight := bs[i].inflight), t);
    }
  }

  lemma FreeAt(bs: seq<BackendState>, t: int, now: int)
    requires forall i :: 0 <= i < |bs| ==> (Selectable(bs[i], t) <==> Selectable(bs[i], now))
    ensures Free(bs, t) == Free(bs, now) >= 0
    ensures Free(bs, t) == 0 <==> forall i :: 0 <= i < |bs| ==> !Usable(bs[i], now)
  {
    assert Rooms(bs, t) == Rooms(bs, now);
    SumZero(Rooms(bs, now));
    assert forall i :: 0 <= i < |bs| ==> (Rooms(bs, now)[i] == 0 <==> !Usable(bs[i], now));
  }

  /** One selection uses up one free slot. */
  lemma SelectUsesOneSlot(bs: seq<BackendState>, o: Outcome, bs': seq<BackendState>, now: int)
    requires SelectEffect(bs, o, bs', now)
    ensures Free(bs', now) == Free(bs, now) - if o.Picked? then 1 else 0
  {
    EffectKeepsAnswers(bs, o, bs', now, now);
    var rooms := Rooms(bs, now);
    if o.Picked? {
      SumUpdate(rooms, o.pos, rooms[o.pos] - 1);
      assert Rooms(bs', now) == rooms[o.pos := rooms[o.pos] - 1];
    } else {
      assert Rooms(bs', now) == rooms;
    }
  }

  /** A round-robin selection with someone to probe moves the counter by one. */
  lemma CounterMoves(ps: PoolState, key: nat, now: int)
    requires ps.strategy == RoundRobin
    ensures Select(ps, key, now).1.rr == if Width(ps, now) > 0 then CounterAt(ps.rr, 1) else ps.rr
  {}

  lemma CounterAfterOne(rr: nat, k: nat)
    ensures CounterAt(CounterAt(rr, 1), k) == CounterAt(rr, k + 1)
  {}

  lemma EmptyHasNoIndex(u: nat)
    ensures !NegativeIndex(u, 0)
  {}

  lemma StaysIndexable(ps: PoolState, ps': PoolState, n: nat, rs: seq<Request>)
    requires rs != [] && Indexable(ps, n, rs) && ps'.strategy == ps.strategy && ps'.rr < TWO64
    requires ps.strategy == RoundRobin && n > 0 ==> ps'.rr == CounterAt(ps.rr, 1)
    ensures Indexable(ps', n, rs[1..])
  {
    hide NegativeIndex, CounterAt;
    assert forall k :: 0 <= k < |rs[1..]| ==> rs[1..][k] == rs[k + 1];
    if ps.strategy == RoundRobin {
      forall k | 0 <= k < |rs[1..]| ensures !NegativeIndex(CounterAt(ps'.rr, k), n) {
        if n == 0 {
          EmptyHasNoIndex(CounterAt(ps'.rr, k));
        } else {
          CounterAfterOne(ps.rr, k);
          assert !NegativeIndex(CounterAt(ps.rr, k + 1), n);
        }
      }
    }
  }

  /** The same answers to the queries give the same healthy list. */
  lemma HealthyWhenAlike(bs: seq<BackendState>, cs: seq<BackendState>, t: int, u: int)
    requires |bs| == |cs|
    requires forall i :: 0 <= i < |bs| ==> (Selectable(bs[i], t) <==> Selectable(cs[i], u))
    ensures HealthyList(bs, t) == HealthyList(cs, u)
  {
    AlikeUpTo(bs, cs, t, u, |bs|);
  }

  lemma {:induction false} AlikeUpTo(bs: seq<BackendState>, cs: seq<BackendState>, t: int, u: int, n: nat)
    requires n <= |bs| == |cs|
    requires forall i :: 0 <= i < n ==> (Selectable(bs[i], t) <==> Selectable(cs[i], u))
    ensures HealthyUpTo(bs, t, n) == HealthyUpTo(cs, u, n)
  {
    if n > 0 { AlikeUpTo(bs, cs, t, u, n - 1); }
  }

  lemma SelectKeepsRunHypotheses(ps: PoolState, t: int, rs: seq<Request>)
    requires rs != [] && Counted(ps.bs) && FixedSelectable(ps.bs, t, rs) && Indexable(ps, Width(ps, t), rs)
    ensures var (o, ps') := Select(ps, rs[0].key, rs[0].now);
            && Counted(ps'.bs) && FixedSelectable(ps'.bs, rs[0].now, rs[1..])
            && Indexable(ps', Width(ps', rs[0].now), rs[1..])
            && ps'.strategy == ps.strategy && o != Panics
            && SelectEffect(ps.bs, o, ps'.bs, rs[0].now)
            && (o == NoBackend <==> forall i :: 0 <= i < |ps.bs| ==> !Usable(ps.bs[i], rs[0].now))
  {
    hide Select, NegativeIndex, HealthyUpTo;
    var (o, ps') := Select(ps, rs[0].key, rs[0].now);
    HealthyWhenAlike(ps.bs, ps.bs, t, rs[0].now);
    assert CounterAt(ps.rr, 0) == ps.rr;
    SelectIsComplete(ps, rs[0].key, rs[0].now);
    EffectKeepsAnswers(ps.bs, o, ps'.bs, rs[0].now, rs[0].now);
    HealthyWhenAlike(ps.bs, ps'.bs, rs[0].now, rs[0].now);
    if ps.strategy == RoundRobin { CounterMoves(ps, rs[0].key, rs[0].now); }
    StaysIndexable(ps, ps', Width(ps, t), rs);
    forall i, k | 0 <= i < |ps'.bs| && 0 <= k < |rs[1..]|
      ensures Selectable(ps'.bs[i], rs[1..][k].now) <==> Selectable(ps'.bs[i], rs[0].now)
    {
      assert rs[1..][k] == rs[k + 1];
      EffectKeepsAnswers(ps.bs, o, ps'.bs, rs[0].now, rs[k + 1].now);
    }
  }

  lemma FixedAtFirst(bs: seq<BackendState>, t: int, rs: seq<Request>)
    requires rs != [] && FixedSelectable(bs, t, rs)
    ensures forall i :: 0 <= i < |bs| ==> (Selectable(bs[i], t) <==> Selectable(bs[i], rs[0].now))
  {}

  /**
   With a fixed selectable set, whatever the strategy and the keys, selections
   succeed exactly as long as there are free slots: the first Free ones, and no more.
   */
  lemma {:induction false} SelectionsDrainThePool(ps: PoolState, t: int, rs: seq<Request>)
    requires Counted(ps.bs) && FixedSelectable(ps.bs, t, rs) && Indexable(ps, Width(ps, t), rs)
    ensures forall k :: 0 <= k < |rs| ==>
              Outcomes(ps, rs)[k] != Panics && (Outcomes(ps, rs)[k].Picked? <==> k < Free(ps.bs, t))
    decreases |rs|
  {
    if rs != [] {
      hide *;
      DrainStep(ps, t, rs);
      var (o, ps') := Select(ps, rs[0].key, rs[0].now);
      SelectionsDrainThePool(ps', rs[0].now, rs[1..]);
      DrainFromFront(ps, t, rs, o, ps');
    }
  }

  lemma DrainStep(ps: PoolState, t: int, rs: seq<Request>)
    requires rs != [] && Counted(ps.bs) && FixedSelectable(ps.bs, t, rs) && Indexable(ps, Width(ps, t), rs)
    ensures var (o, ps') := Select(ps, rs[0].key, rs[0].now);
            && Counted(ps'.bs) && FixedSelectable(ps'.bs, rs[0].now, rs[1..])
            && Indexable(ps', Width(ps', rs[0].now), rs[1..])
            && o != Panics && (o.Picked? <==> 0 < Free(ps.bs, t))
            && Free(ps'.bs, rs[0].now) == Free(ps.bs, t) - (if o.Picked? then 1 else 0) && Free(ps.bs, t) >= 0
  {
    FixedAtFirst(ps.bs, t, rs);
    hide Select, Free, SelectEffect, FixedSelectable, Indexable, Counted, Selectable, Usable;
    var (o, ps') := Select(ps, rs[0].key, rs[0].now);
    SelectKeepsRunHypotheses(ps, t, rs);
    SelectUsesOneSlot(ps.bs, o, ps'.bs, rs[0].now);
    FreeAt(ps.bs, t, rs[0].now);
  }

  lemma DrainFromFront(ps: PoolState, t: int, rs: seq<Request>, o: Outcome, ps': PoolState)
    requires rs != [] && (o, ps') == Select(ps, rs[0].key, rs[0].now)
    requires o != Panics && (o.Picked? <==> 0 < Free(ps.bs, t)) && Free(ps.bs, t) >= 0
    requires Free(ps'.bs, rs[0].now) == Free(ps.bs, t) - if o.Picked? then 1 else 0
    requires forall k :: 0 <= k < |rs[1..]| ==>
               Outcomes(ps', rs[1..])[k] != Panics && (Outcomes(ps', rs[1..])[k].Picked? <==> k < Free(ps'.bs, rs[0].now))
    ensures forall k :: 0 <= k < |rs| ==>
              Outcomes(ps, rs)[k] != Panics && (Outcomes(ps, rs)[k].Picked? <==> k < Free(ps.bs, t))
  {
    hide Select, Free;
    assert Outcomes(ps, rs) == [o] + Outcomes(ps', rs[1..]);
    hide Outcomes;
  }

  function Offer(b: BackendState, t: int): int {
    if Selectable(b, t) then b.lim.maxInflight else 0
  }

  /** The capacity of the backends selectable at `t`. */
  function Capacity(bs: seq<BackendState>, t: int): int {
    Sum(seq(|bs|, i requires 0 <= i < |bs| => Offer(bs[i], t)))
  }

  lemma EmptyIsFree(bs: seq<BackendState>, t: int)
    requires forall i :: 0 <= i < |bs| ==> bs[i].inflight == 0 && bs[i].lim.maxInflight >= 1
    ensures Free(bs, t) == Capacity(bs, t) && Counted(bs)
  {
    assert Rooms(bs, t) == seq(|bs|, i requires 0 <= i < |bs| => Offer(bs[i], t));
  }

  /** Starting empty, exactly the total capacity of the selectable backends is handed out. */
  lemma EmptyPoolServesItsCapacity(ps: PoolState, t: int, rs: seq<Request>)
    requires FixedSelectable(ps.bs, t, rs) && Indexable(ps, Width(ps, t), rs)
    requires forall i :: 0 <= i < |ps.bs| ==> ps.bs[i].inflight == 0 && ps.bs[i].lim.maxInflight >= 1
    ensures forall k :: 0 <= k < |rs| ==> (Outcomes(ps, rs)[k].Picked? <==> k < Capacity(ps.bs, t))
  {
    EmptyIsFree(ps.bs, t);
    SelectionsDrainThePool(ps, t, rs);
  }

  // ------------------------------------------------------------- fairness

  function Occurrences(os: seq<Outcome>, o: Outcome): nat {
    if os == [] then 0 else Occurrences(os[..|os| - 1], o) + if os[|os| - 1] == o then 1 else 0
  }

  /** The outcomes of `m` round-robin picks at consecutive counter values, on whatever pools they met. */
  function RoundRobinPicks(pools: seq<seq<BackendState>>, nows: seq<int>, rr: nat): (os: seq<Outcome>)
    requires |pools| == |nows|
    ensures |os| == |pools|
  {
    seq(|pools|, k requires 0 <= k < |pools| => PickRR(pools[k], rr + k, nows[k]).0)
  }

  /** A pick of a pool whose healthy backends all have room is the next one in the cycle. */
  lemma RoundRobinCycles(bs: seq<BackendState>, rr: nat, now: int)
    requires rr < TWO63 && |HealthyList(bs, now)| > 0
    requires forall k :: 0 <= k < |HealthyList(bs, now)| ==> HasRoom(bs[HealthyList(bs, now)[k]])
    ensures PickRR(bs, rr, now).0 == Picked(HealthyList(bs, now)[rr % |HealthyList(bs, now)|])
    ensures PickRR(bs, rr, now).2 == rr + 1
  {
    var h := HealthyList(bs, now);
    IndexIsNegativeWhen(rr, |h|);
    PlaceValue(|h|, rr % |h|, 0);
    RefreshKeepsRoom(bs, now, h[rr % |h|]);
  }

  /** In general a pick is the first backend with room, counting round the cycle from the counter's place. */
  lemma RoundRobinSkipsFullBackends(bs: seq<BackendState>, rr: nat, now: int) returns (j: nat)
    requires rr < TWO63 && PickRR(bs, rr, now).0.Picked?
    ensures var h := HealthyList(bs, now);
            && j < |h| && PickRR(bs, rr, now).0 == Picked(h[(rr % |h| + j) % |h|])
            && HasRoom(bs[h[(rr % |h| + j) % |h|]])
            && forall m :: 0 <= m < j ==> !HasRoom(bs[ProbeAt(h, rr % |h|, m)])
  {
    var h := HealthyList(bs, now);
    var r := RefreshAll(bs, now);
    IndexIsNegativeWhen(rr, |h|);
    j := ScanIsFirst(r, h, rr % |h|, 0);
    hide PickRR, RefreshAll;
    RefreshKeepsRoom(bs, now, ProbeAt(h, rr % |h|, j));
    forall m | 0 <= m < j ensures !HasRoom(bs[ProbeAt(h, rr % |h|, m)]) {
      RefreshKeepsRoom(bs, now, ProbeAt(h, rr % |h|, m));
    }
  }

  /** Any `m` consecutive picks choose each of the `n` healthy backends floor(m/n) or ceil(m/n) times. */
  lemma {:induction false} RoundRobinIsFair(pools: seq<seq<BackendState>>, nows: seq<int>, rr: nat, h: seq<nat>, c: nat)
    requires |pools| == |nows| && rr + |pools| <= TWO63 && c < |h|
    requires forall k :: 0 <= k < |pools| ==>
               HealthyList(pools[k], nows[k]) == h && forall j :: 0 <= j < |h| ==> HasRoom(pools[k][h[j]])
    ensures var m, n := |pools|, |h|;
            m / n <= Occurrences(RoundRobinPicks(pools, nows, rr), Picked(h[c])) <= (m + n - 1) / n
  {
    hide RoundRobinPicks, HealthyList, HasRoom;
    var os := RoundRobinPicks(pools, nows, rr);
    RoundRobinOutcomes(pools, nows, rr, h);
    if |pools| > 0 {
      OccurrencesOnCycle(os, h, rr, c);
    }
    HitsAreEven(|h|, rr, |pools|, c);
  }

  lemma RoundRobinOutcomes(pools: seq<seq<BackendState>>, nows: seq<int>, rr: nat, h: seq<nat>)
    requires |pools| == |nows| && rr + |pools| <= TWO63 && |h| > 0
    requires forall k :: 0 <= k < |pools| ==>
               HealthyList(pools[k], nows[k]) == h && forall j :: 0 <= j < |h| ==> HasRoom(pools[k][h[j]])
    ensures forall k :: 0 <= k < |pools| ==>
              RoundRobinPicks(pools, nows, rr)[k] == Picked(h[(rr + k) % |h|])
    ensures |pools| > 0 ==> forall a, b :: 0 <= a < b < |h| ==> h[a] < h[b]
  {
    hide PickRR, HasRoom, HealthyUpTo;
    forall k | 0 <= k < |pools|
      ensures RoundRobinPicks(pools, nows, rr)[k] == Picked(h[(rr + k) % |h|])
    {
      assert HealthyList(pools[k], nows[k]) == h;
      RoundRobinCycles(pools[k], rr + k, nows[k]);
    }
    if |pools| > 0 { assert HealthyList(pools[0], nows[0]) == h; }
  }

  /** How many of `start`, ..., `start + m - 1` leave remainder `c`. */
  function Hits(n: nat, start: nat, m: nat, c: nat): nat
    requires n > 0
  {
    if m == 0 then 0 else Hits(n, start, m - 1, c) + if (start + m - 1) % n == c then 1 else 0
  }

  lemma {:induction false} OccurrencesOnCycle(os: seq<Outcome>, h: seq<nat>, rr: nat, c: nat)
    requires c < |h| && forall a, b :: 0 <= a < b < |h| ==> h[a] < h[b]
    requires forall k :: 0 <= k < |os| ==> os[k] == Picked(h[(rr + k) % |h|])
    ensures Occurrences(os, Picked(h[c])) == Hits(|h|, rr, |os|, c)
  {
    if os != [] {
      var k := |os| - 1;
      assert forall j :: 0 <= j < k ==> os[..k][j] == os[j];
      OccurrencesOnCycle(os[..k], h, rr, c);
      assert os[k] == Picked(h[(rr + k) % |h|]);
    }
  }

  /** Passing one more number crosses a multiple of `n` exactly when that number leaves remainder `c`. */
  lemma QuotientStep(x: nat, n: nat, c: nat)
    requires n > 0 && c < n
    ensures (x + n - c) / n == (x + n - 1 - c) / n + if x % n == c then 1 else 0
  {
    QuotientStepAt(x, n, c, x / n, x % n);
  }

  lemma QuotientStepAt(x: nat, n: nat, c: nat, q: int, r: nat)
    requires n > 0 && c < n && r < n && x == n * q + r
    ensures (x + n - c) / n == (x + n - 1 - c) / n + if r == c then 1 else 0
  {
    assert n * (q + 1) == n * q + n;
    if r == c {
      DivMod(x + n - 1 - c, n, q, n - 1);
      DivMod(x + n - c, n, q + 1, 0);
    } else if r < c {
      DivMod(x + n - 1 - c, n, q, r + n - 1 - c);
      DivMod(x + n - c, n, q, r + n - c);
    } else {
      DivMod(x + n - 1 - c, n, q + 1, r - 1 - c);
      DivMod(x + n - c, n, q + 1, r - c);
    }
  }

  /** The hits up to `start + m` as a difference of quotients. */
  lemma {:induction false} HitsAsQuotients(n: nat, start: nat, m: nat, c: nat)
    requires n > 0 && c < n
    ensures Hits(n, start, m, c) == (start + m + n - 1 - c) / n - (start + n - 1 - c) / n
  {
    if m > 0 {
      HitsAsQuotients(n, start, m - 1, c);
      var x: nat := start + m - 1;
      QuotientStep(x, n, c);
      assert x + n - 1 - c == start + (m - 1) + n - 1 - c;
      assert x + n - c == start + m + n - 1 - c;
    }
  }

  lemma RoundedUp(m: nat, n: nat)
    requires n > 0
    ensures (m + n - 1) / n == m / n + if m % n == 0 then 0 else 1
  {
    var q, r := m / n, m % n;
    assert m == n * q + r && n * (q + 1) == n * q + n;
    if r == 0 { DivMod(m + n - 1, n, q, n - 1); } else { DivMod(m + n - 1, n, q + 1, r - 1); }
  }

  /** Quotients are additive up to a carry. */
  lemma QuotientOfSum(y: nat, m: nat, n: nat)
    requires n > 0
    ensures (y + m) / n == y / n + m / n + if y % n + m % n < n then 0 else 1
  {
    var q1, r1, q2, r2 := y / n, y % n, m / n, m % n;
    assert y + m == n * q1 + n * q2 + r1 + r2;
    assert n * (q1 + q2) == n * q1 + n * q2;
    assert n * (q1 + q2 + 1) == n * q1 + n * q2 + n;
    if r1 + r2 < n {
      DivMod(y + m, n, q1 + q2, r1 + r2);
    } else {
      DivMod(y + m, n, q1 + q2 + 1, r1 + r2 - n);
    }
  }

  lemma HitsAreEven(n: nat, start: nat, m: nat, c: nat)
    requires n > 0 && c < n
    ensures m / n <= Hits(n, start, m, c) <= (m + n - 1) / n
  {
    HitsAsQuotients(n, start, m, c);
    var y: nat := start + n - 1 - c;
    QuotientOfSum(y, m, n);
    RoundedUp(m, n);
    assert y + m == start + m + n - 1 - c;
  }

  /** Taking the first number off the front. */
  lemma {:induction false} HitsFromFront(n: nat, start: nat, m: nat, c: nat)
    requires n > 0 && m > 0
    ensures Hits(n, start, m, c) == (if ProbePlace(n, start, 0) == c then 1 else 0) + Hits(n, start + 1, m - 1, c)
  {
    if m > 1 { HitsFromFront(n, start, m - 1, c); }
  }

  /** A backend has room for all the turns the cycle gives it at place `c`. */
  predicate RoomAt(b: BackendState, n: nat, rr: nat, m: nat, c: nat)
    requires n > 0
  {
    Hits(n, rr, m, c) <= b.lim.maxInflight - b.inflight
  }

  predicate RoomForTurns(bs: seq<BackendState>, h: seq<nat>, rr: nat, m: nat)
    requires |h| > 0
  {
    forall c :: 0 <= c < |h| ==> h[c] < |bs| && RoomAt(bs[h[c]], |h|, rr, m, c)
  }

  lemma FirstTurnHasRoom(bs: seq<BackendState>, h: seq<nat>, rr: nat, m: nat)
    requires |h| > 0 && m > 0 && RoomForTurns(bs, h, rr, m)
    ensures ProbeAt(h, rr, 0) < |bs| && HasRoom(bs[ProbeAt(h, rr, 0)])
  {
    HitsFromFront(|h|, rr, m, ProbePlace(|h|, rr, 0));
    assert RoomAt(bs[ProbeAt(h, rr, 0)], |h|, rr, m, ProbePlace(|h|, rr, 0));
  }

  lemma RoomAfterTurn(bs: seq<BackendState>, bs': seq<BackendState>, now: int, h: seq<nat>, rr: nat, m: nat)
    requires m > 0 && |h| > 0 && RoomForTurns(bs, h, rr, m) && forall a, b :: 0 <= a < b < |h| ==> h[a] < h[b]
    requires SelectEffect(bs, Picked(ProbeAt(h, rr, 0)), bs', now)
    ensures RoomForTurns(bs', h, rr + 1, m - 1)
  {
    EffectKeepsAnswers(bs, Picked(ProbeAt(h, rr, 0)), bs', now, now);
    hide Hits, Selectable, ProbePlace;
    forall c | 0 <= c < |h| ensures h[c] < |bs'| && RoomAt(bs'[h[c]], |h|, rr + 1, m - 1, c) {
      assert RoomAt(bs[h[c]], |h|, rr, m, c);
      HitsFromFront(|h|, rr, m, c);
    }
  }

  lemma HealthyAscends(bs: seq<BackendState>, now: int)
    ensures forall a, b :: 0 <= a < b < |HealthyList(bs, now)| ==> HealthyList(bs, now)[a] < HealthyList(bs, now)[b]
    ensures forall a :: 0 <= a < |HealthyList(bs, now)| ==> HealthyList(bs, now)[a] < |bs|
  {}

  /** If the counter's place has room, round robin takes it. */
  lemma PlaceIsPicked(ps: PoolState, key: nat, now: int, h: seq<nat>)
    requires ps.strategy == RoundRobin && ps.rr < TWO63 && |h| > 0 && h == HealthyList(ps.bs, now)
    requires ProbeAt(h, ps.rr, 0) < |ps.bs| && HasRoom(ps.bs[ProbeAt(h, ps.rr, 0)])
    ensures Select(ps, key, now).0 == Picked(ProbeAt(h, ps.rr, 0))
  {
    IndexIsNegativeWhen(ps.rr, |h|);
    PlaceValue(|h|, ps.rr % |h|, 0);
    RefreshKeepsRoom(ps.bs, now, ProbeAt(h, ps.rr, 0));
    assert PickRR(ps.bs, ps.rr, now).0 == Picked(ProbeAt(h, ps.rr, 0));
    hide PickRR, HealthyUpTo, ProbePlace;
  }

  /** One round-robin selection of such a pool takes the counter's place, and leaves room for the remaining turns. */
  lemma RoundRobinTurn(ps: PoolState, key: nat, now: int, h: seq<nat>, m: nat)
    requires ps.strategy == RoundRobin && Counted(ps.bs) && key < TWO64 && ps.rr + m <= TWO63
    requires m > 0 && |h| > 0 && h == HealthyList(ps.bs, now) && RoomForTurns(ps.bs, h, ps.rr, m)
    ensures var (o, ps') := Select(ps, key, now);
            && o == Picked(ProbeAt(h, ps.rr, 0)) && ps'.rr == ps.rr + 1
            && SelectEffect(ps.bs, o, ps'.bs, now) && RoomForTurns(ps'.bs, h, ps.rr + 1, m - 1)
  {
    hide Select, SelectPanics, SelectEffect, Bookkeeping, ProbePlace, RoomForTurns, HealthyList, HasRoom;
    FirstTurnHasRoom(ps.bs, h, ps.rr, m);
    PlaceIsPicked(ps, key, now, h);
    SelectIsComplete(ps, key, now);
    CounterMoves(ps, key, now);
    HealthyAscends(ps.bs, now);
    RoomAfterTurn(ps.bs, Select(ps, key, now).1.bs, now, h, ps.rr, m);
  }

  predicate Keys64(rs: seq<Request>) {
    forall k :: 0 <= k < |rs| ==> rs[k].key < TWO64
  }

  lemma FirstKey(rs: seq<Request>)
    requires rs != [] && Keys64(rs)
    ensures rs[0].key < TWO64 && Keys64(rs[1..])
  {}

  /** A run of round-robin selections goes round the cycle as long as each place has room for its turns. */
  lemma {:induction false} RoundRobinRun(ps: PoolState, t: int, rs: seq<Request>, h: seq<nat>)
    requires ps.strategy == RoundRobin && Counted(ps.bs) && ps.rr + |rs| <= TWO63
    requires FixedSelectable(ps.bs, t, rs) && Keys64(rs)
    requires |h| > 0 && h == HealthyList(ps.bs, t) && RoomForTurns(ps.bs, h, ps.rr, |rs|)
    ensures forall k :: 0 <= k < |rs| ==> Outcomes(ps, rs)[k] == Picked(ProbeAt(h, ps.rr, k))
    decreases |rs|
  {
    if rs != [] {
      hide *;
      RoundRobinStep(ps, t, rs, h);
      var (o, ps') := Select(ps, rs[0].key, rs[0].now);
      RoundRobinRun(ps', rs[0].now, rs[1..], h);
      TurnsFromFront(ps, ps', rs, h, o);
    }
  }

  lemma RoundRobinStep(ps: PoolState, t: int, rs: seq<Request>, h: seq<nat>)
    requires rs != [] && ps.strategy == RoundRobin && Counted(ps.bs) && ps.rr + |rs| <= TWO63
    requires FixedSelectable(ps.bs, t, rs) && Keys64(rs)
    requires |h| > 0 && h == HealthyList(ps.bs, t) && RoomForTurns(ps.bs, h, ps.rr, |rs|)
    ensures var (o, ps') := Select(ps, rs[0].key, rs[0].now);
            && o == Picked(ProbeAt(h, ps.rr, 0)) && ps'.strategy == RoundRobin && Counted(ps'.bs)
            && ps'.rr == ps.rr + 1
            && FixedSelectable(ps'.bs, rs[0].now, rs[1..]) && Keys64(rs[1..])
            && h == HealthyList(ps'.bs, rs[0].now) && RoomForTurns(ps'.bs, h, ps'.rr, |rs[1..]|)
  {
    hide *;
    SmallIsIndexable(ps, t, rs);
    SelectKeepsRunHypotheses(ps, t, rs);
    var (o, ps') := Select(ps, rs[0].key, rs[0].now);
    SameHealthyNext(ps.bs, o, ps'.bs, t, rs);
    FirstKey(rs);
    RoundRobinTurn(ps, rs[0].key, rs[0].now, h, |rs|);
  }

  /** With fixed answers, the healthy list at the first request, before and after it, is the one at `t`. */
  lemma SameHealthyNext(bs: seq<BackendState>, o: Outcome, bs': seq<BackendState>, t: int, rs: seq<Request>)
    requires rs != [] && FixedSelectable(bs, t, rs) && SelectEffect(bs, o, bs', rs[0].now)
    ensures HealthyList(bs, rs[0].now) == HealthyList(bs', rs[0].now) == HealthyList(bs, t)
  {
    FixedAtFirst(bs, t, rs);
    HealthyWhenAlike(bs, bs, t, rs[0].now);
    EffectKeepsAnswers(bs, o, bs', rs[0].now, rs[0].now);
    HealthyWhenAlike(bs, bs', rs[0].now, rs[0].now);
  }

  lemma SmallIsIndexable(ps: PoolState, t: int, rs: seq<Request>)
    requires ps.strategy == RoundRobin && ps.rr + |rs| <= TWO63 && Keys64(rs)
    ensures Indexable(ps, Width(ps, t), rs)
  {
    forall k | 0 <= k < |rs| ensures !NegativeIndex(CounterAt(ps.rr, k), Width(ps, t)) {
      assert CounterAt(ps.rr, k) == ps.rr + k;
    }
  }

  lemma TurnsFromFront(ps: PoolState, ps': PoolState, rs: seq<Request>, h: seq<nat>, o: Outcome)
    requires rs != [] && |h| > 0 && (o, ps') == Select(ps, rs[0].key, rs[0].now)
    requires o == Picked(ProbeAt(h, ps.rr, 0)) && ps'.rr == ps.rr + 1
    requires forall k :: 0 <= k < |rs[1..]| ==> Outcomes(ps', rs[1..])[k] == Picked(ProbeAt(h, ps'.rr, k))
    ensures forall k :: 0 <= k < |rs| ==> Outcomes(ps, rs)[k] == Picked(ProbeAt(h, ps.rr, k))
  {
    hide Select;
    assert Outcomes(ps, rs) == [o] + Outcomes(ps', rs[1..]);
    hide Outcomes;
    forall k | 0 <= k < |rs| ensures Outcomes(ps, rs)[k] == Picked(ProbeAt(h, ps.rr, k)) {
      if k > 0 {
        assert Outcomes(ps', rs[1..])[k - 1] == Picked(ProbeAt(h, ps'.rr, k - 1));
        NextPlace(|h|, ps.rr, k);
      }
    }
  }

  lemma NextPlace(n: nat, start: nat, k: nat)
    requires n > 0 && k > 0
    ensures ProbePlace(n, start + 1, k - 1) == ProbePlace(n, start, k)
  {}

  /** An even share of `m` turns among `n`: floor(m/n) or ceil(m/n). */
  predicate EvenShare(turns: nat, m: nat, n: nat)
    requires n > 0
  {
    m / n <= turns <= CeilDiv(m, n)
  }

  function CeilDiv(m: nat, n: nat): nat
    requires n > 0
  {
    (m + n - 1) / n
  }

  /**
   Fairness of whole runs: with ceil(m/n) slots free on each of the n healthy backends,
   m consecutive selections all succeed and choose each of them floor(m/n) or ceil(m/n) times.
   */
  lemma SelectionsAreFair(ps: PoolState, t: int, rs: seq<Request>, h: seq<nat>)
    requires ps.strategy == RoundRobin && Counted(ps.bs) && ps.rr + |rs| <= TWO63
    requires FixedSelectable(ps.bs, t, rs) && Keys64(rs)
    requires h == HealthyList(ps.bs, t) && |h| > 0 && HasFree(ps.bs, h, CeilDiv(|rs|, |h|))
    ensures forall k :: 0 <= k < |rs| ==> Outcomes(ps, rs)[k].Picked?
    ensures forall c :: 0 <= c < |h| ==> EvenShare(Occurrences(Outcomes(ps, rs), Picked(h[c])), |rs|, |h|)
  {
    HealthyAscends(ps.bs, t);
    hide *;
    EnoughForTurns(ps.bs, t, h, ps.rr, |rs|);
    RoundRobinRun(ps, t, rs, h);
    forall c | 0 <= c < |h| ensures EvenShare(Occurrences(Outcomes(ps, rs), Picked(h[c])), |rs|, |h|) {
      ShareOnCycle(Outcomes(ps, rs), h, ps.rr, c);
    }
  }

  predicate HasFree(bs: seq<BackendState>, h: seq<nat>, free: nat) {
    forall c :: 0 <= c < |h| ==> h[c] < |bs| && free <= bs[h[c]].lim.maxInflight - bs[h[c]].inflight
  }

  lemma ShareOnCycle(os: seq<Outcome>, h: seq<nat>, rr: nat, c: nat)
    requires c < |h| && forall a, b :: 0 <= a < b < |h| ==> h[a] < h[b]
    requires forall k :: 0 <= k < |os| ==> os[k] == Picked(ProbeAt(h, rr, k))
    ensures EvenShare(Occurrences(os, Picked(h[c])), |os|, |h|)
  {
    hide Occurrences, Hits;
    OccurrencesOnCycle(os, h, rr, c);
    HitsAreEven(|h|, rr, |os|, c);
  }

  lemma EnoughForTurns(bs: seq<BackendState>, t: int, h: seq<nat>, rr: nat, m: nat)
    requires |h| > 0 && HasFree(bs, h, CeilDiv(m, |h|))
    ensures RoomForTurns(bs, h, rr, m)
  {
    hide Hits;
    forall c | 0 <= c < |h| ensures h[c] < |bs| && RoomAt(bs[h[c]], |h|, rr, m, c) {
      HitsAreEven(|h|, rr, m, c);
    }
  }

  // -------------------------------------------------------------- balance

  /** Any two selectable backends differ by at most one connection. */
  predicate Balanced(bs: seq<BackendState>, t: int) {
    forall i, j :: 0 <= i < |bs| && 0 <= j < |bs| && Selectable(bs[i], t) && Selectable(bs[j], t) ==>
      bs[i].inflight <= bs[j].inflight + 1
  }

  predicate SameLimit(bs: seq<BackendState>, limit: int) {
    forall i :: 0 <= i < |bs| ==> bs[i].lim.maxInflight == limit
  }

  lemma LeastConnKeepsBalance(bs: seq<BackendState>, limit: int, now: int)
    requires Counted(bs) && SameLimit(bs, limit) && Balanced(bs, now)
    ensures Balanced(PickLeastConn(bs, now).1, now) && SameLimit(PickLeastConn(bs, now).1, limit)
  {
    hide PickLeastConn;
    var (o, bs') := PickLeastConn(bs, now);
    PickLeastConnEffect(bs, now);
    EffectKeepsAnswers(bs, o, bs', now, now);
    if o.Picked? {
      MinimumIsLeast(bs, limit, o.pos, now);
    }
  }

  /** With equal limits, the first minimum among those with room is a minimum among all. */
  lemma MinimumIsLeast(bs: seq<BackendState>, limit: int, pos: nat, now: int)
    requires SameLimit(bs, limit) && pos < |bs| && FirstMinimum(bs, HealthyList(bs, now), pos)
    ensures forall j :: 0 <= j < |bs| && Selectable(bs[j], now) ==> bs[pos].inflight <= bs[j].inflight
  {
    var h := HealthyList(bs, now);
    hide Selectable;
    var c :| IsFirstMinimumAt(bs, h, pos, c);
    forall j | 0 <= j < |bs| && Selectable(bs[j], now)
      ensures bs[pos].inflight <= bs[j].inflight
    {
      var d :| 0 <= d < |h| && h[d] == j;
      assert HasRoom(bs[h[d]]) || bs[j].inflight >= limit;
    }
  }

  /** A release-free least-connections run from a balanced pool stays balanced. */
  lemma {:induction false} LeastConnStaysBalanced(ps: PoolState, limit: int, t: int, rs: seq<Request>)
    requires ps.strategy in {LeastConn, Unrecognised}
    requires Counted(ps.bs) && SameLimit(ps.bs, limit) && Balanced(ps.bs, t)
    requires FixedSelectable(ps.bs, t, rs) && Indexable(ps, Width(ps, t), rs)
    ensures Balanced(After(ps, rs).bs, EndOf(t, rs))
    decreases |rs|
  {
    if rs != [] {
      hide *;
      BalanceStep(ps, limit, t, rs);
      LeastConnStaysBalanced(Select(ps, rs[0].key, rs[0].now).1, limit, rs[0].now, rs[1..]);
      AfterFront(ps, t, rs);
    }
  }

  lemma BalanceStep(ps: PoolState, limit: int, t: int, rs: seq<Request>)
    requires rs != [] && ps.strategy in {LeastConn, Unrecognised}
    requires Counted(ps.bs) && SameLimit(ps.bs, limit) && Balanced(ps.bs, t)
    requires FixedSelectable(ps.bs, t, rs) && Indexable(ps, Width(ps, t), rs)
    ensures var ps' := Select(ps, rs[0].key, rs[0].now).1;
            && ps'.strategy == ps.strategy
            && Counted(ps'.bs) && SameLimit(ps'.bs, limit) && Balanced(ps'.bs, rs[0].now)
            && FixedSelectable(ps'.bs, rs[0].now, rs[1..]) && Indexable(ps', Width(ps', rs[0].now), rs[1..])
  {
    FixedAtFirst(ps.bs, t, rs);
    assert Balanced(ps.bs, rs[0].now);
    hide *;
    SelectKeepsRunHypotheses(ps, t, rs);
    LeastConnKeepsBalance(ps.bs, limit, rs[0].now);
    LeastConnSelects(ps, rs[0].key, rs[0].now);
  }

  lemma AfterFront(ps: PoolState, t: int, rs: seq<Request>)
    requires rs != []
    ensures After(ps, rs) == After(Select(ps, rs[0].key, rs[0].now).1, rs[1..])
    ensures EndOf(rs[0].now, rs[1..]) == EndOf(t, rs)
  {}

  /** The time of the last request, or `t` if there is none. */
  function EndOf(t: int, rs: seq<Request>): int {
    if rs == [] then t else rs[|rs| - 1].now
  }

  /** Least-connections selections, under that name or an unknown one, are the picker and no more. */
  lemma LeastConnSelects(ps: PoolState, key: nat, now: int)
    requires ps.strategy in {LeastConn, Unrecognised}
    ensures Select(ps, key, now).0 == PickLeastConn(ps.bs, now).0
    ensures Select(ps, key, now).1.bs == PickLeastConn(ps.bs, now).1
    ensures Select(ps, key, now).1.strategy == ps.strategy
  {
    hide PickLeastConn;
  }

  /** The place a key names among `n` healthy backends when it does not crash. */
  function StickyPlace(key: nat, n: nat): (c: nat)
    requires n > 0
    ensures c < n
  {
    if key < TWO63 then key % n else 0
  }

  /** A least-connections selection, and a sticky one whose place is full, takes the first backend of least load. */
  lemma LeastLoadedIsSelected(bs: seq<BackendState>, s: Strategy, rr: nat, key: nat, now: int)
    requires Counted(bs) && key < TWO64
    requires s in {LeastConn, Unrecognised}
             || (s == Sticky && |HealthyList(bs, now)| > 0 && !NegativeIndex(key, |HealthyList(bs, now)|)
                 && !HasRoom(bs[HealthyList(bs, now)[StickyPlace(key, |HealthyList(bs, now)|)]]))
    requires PickByStrategy(s, bs, rr, key, now).0.Picked?
    ensures FirstMinimum(bs, HealthyList(bs, now), PickByStrategy(s, bs, rr, key, now).0.pos)
  {
    hide PickLeastConn, FirstMinimum, HealthyUpTo, Counted;
    if s == Sticky {
      var h := HealthyList(bs, now);
      IndexIsNegativeWhen(key, |h|);
      RefreshKeepsRoom(bs, now, h[StickyPlace(key, |h|)]);
      hide NegativeIndex, HasRoom, RefreshAll;
      LeastLoadedAfterRefresh(bs, now);
    } else {
      PickLeastConnEffect(bs, now);
    }
  }

  /** Querying everyone first does not change who is least loaded. */
  lemma LeastLoadedAfterRefresh(bs: seq<BackendState>, now: int)
    requires Counted(bs) && PickLeastConn(RefreshAll(bs, now), now).0.Picked?
    ensures FirstMinimum(bs, HealthyList(bs, now), PickLeastConn(RefreshAll(bs, now), now).0.pos)
  {
    var h, r := HealthyList(bs, now), RefreshAll(bs, now);
    RefreshedList(bs, now);
    assert Counted(r);
    PickLeastConnEffect(r, now);
    var o := PickLeastConn(r, now).0;
    hide PickLeastConn, HealthyUpTo;
    var c :| IsFirstMinimumAt(r, h, o.pos, c);
    forall i | 0 <= i < |bs| { RefreshKeepsRoom(bs, now, i); }
    hide RefreshAll, IsFirstMinimumAt;
    SameMinimum(bs, r, h, o.pos, c);
  }

  // ------------------------------------------------------------- affinity

  /** A sticky key with a free place goes to the healthy backend its remainder names, whatever the loads. */
  lemma StickyKeyNamesItsPlace(bs: seq<BackendState>, rr: nat, key: nat, now: int)
    requires key < TWO64 && |HealthyList(bs, now)| > 0 && !NegativeIndex(key, |HealthyList(bs, now)|)
    requires HasRoom(bs[HealthyList(bs, now)[StickyPlace(key, |HealthyList(bs, now)|)]])
    ensures PickByStrategy(Sticky, bs, rr, key, now).0
         == Picked(HealthyList(bs, now)[StickyPlace(key, |HealthyList(bs, now)|)])
  {
    var h := HealthyList(bs, now);
    IndexIsNegativeWhen(key, |h|);
    RefreshKeepsRoom(bs, now, h[StickyPlace(key, |h|)]);
  }

  predicate DistinctIds(bs: seq<BackendState>) {
    forall i, j :: 0 <= i < j < |bs| ==> bs[i].id != bs[j].id
  }

  /** The entry of `key` names backend `pos` and is `ttl`-fresh at `now`. */
  predicate Sticks(ps: PoolState, key: nat, pos: nat, now: int) {
    && pos < |ps.bs| && ps.strategy == Sticky && DistinctIds(ps.bs)
    && key in ps.sticky && ps.sticky[key].id == ps.bs[pos].id
    && now - ps.sticky[key].updated < ps.stickyTTL
  }

  /** A first selection of a key makes it stick for the whole time to live. */
  lemma SelectionMakesSticky(ps: PoolState, key: nat, now: int)
    requires ps.strategy == Sticky && DistinctIds(ps.bs) && ps.stickyTTL > 0
    requires Counted(ps.bs) && key < TWO64 && ps.rr < TWO64
    requires !Hit(ps, key, now) && Select(ps, key, now).0.Picked?
    ensures var (o, ps') := Select(ps, key, now);
            forall later :: now <= later < now + ps.stickyTTL ==> Sticks(ps', key, o.pos, later)
  {
    var (o, ps') := Select(ps, key, now);
    SelectIsComplete(ps, key, now);
    IdsSurvive(ps.bs, o, ps'.bs, now);
  }

  lemma IdsSurvive(bs: seq<BackendState>, o: Outcome, bs': seq<BackendState>, now: int)
    requires SelectEffect(bs, o, bs', now)
    ensures forall i :: 0 <= i < |bs| ==> bs'[i].id == bs[i].id
  {
    forall i | 0 <= i < |bs| ensures bs'[i].id == bs[i].id {
      assert Queried(bs[i], bs'[i], now);
      assert bs'[i].(inflight := bs[i].inflight).id == bs'[i].id;
    }
  }

  /** While it sticks and its backend can serve, a key is served by that backend; other keys cannot unstick it. */
  lemma StickyAffinity(ps: PoolState, key: nat, pos: nat, other: nat, now: int)
    requires Sticks(ps, key, pos, now) && Counted(ps.bs) && other < TWO64 && ps.rr < TWO64
    ensures Usable(ps.bs[pos], now) ==> Select(ps, key, now).0 == Picked(pos)
    ensures other != key ==> Sticks(Select(ps, other, now).1, key, pos, now)
  {
    if Usable(ps.bs[pos], now) { StuckKeyIsServed(ps, key, pos, now); }
    var (o, ps') := Select(ps, other, now);
    SelectIsComplete(ps, other, now);
    IdsSurvive(ps.bs, o, ps'.bs, now);
  }

  lemma StuckKeyIsServed(ps: PoolState, key: nat, pos: nat, now: int)
    requires Sticks(ps, key, pos, now) && Usable(ps.bs[pos], now)
    ensures Hit(ps, key, now) && Select(ps, key, now).0 == Picked(pos)
  {
    IndexOfDistinct(ps.bs, pos, 0);
    assert Remembered(ps, key, now) == Some(pos);
  }

  lemma {:induction false} IndexOfDistinct(bs: seq<BackendState>, pos: nat, k: nat)
    requires DistinctIds(bs) && k <= pos < |bs|
    ensures IndexFrom(bs, bs[pos].id, k) == Some(pos)
    decreases pos - k
  {
    if k < pos { IndexOfDistinct(bs, pos, k + 1); }
  }
}
