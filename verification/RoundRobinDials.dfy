/**
 Where the attempts of a dial go under round robin, exactly: the counter moves on with every attempt,
 and a failure that opens its circuit shortens the list the counter goes round.
 */
module RoundRobinDials {
  import opened Prelude
  import opened Breaker
  import opened Selection
  import opened SelectionRuns
  import opened Dialing
  import opened Failover

  // -------------------------------------------------------- the hypothesis

  /** The dial is over before the backend, if opened by it, could half-open. */
  predicate BriskFor(b: BackendState, net: seq<Attempt>) {
    forall j, m :: 0 <= j < m < |net| ==> net[m].start < net[j].done + b.lim.openAfter
  }

  /**
   Over the attempts from `k` on, the backend answers as it does then, its own failures aside;
   if it answers yes it has room, and a failure it cannot spare keeps it out for the rest of the dial.
   */
  predicate FixedBackend(b: BackendState, net: seq<Attempt>, k: nat)
    requires |net| == ATTEMPTS && k < ATTEMPTS
  {
    && (forall m :: k <= m < ATTEMPTS ==> (Selectable(b, net[m].start) <==> Selectable(b, net[k].start)))
    && (Selectable(b, net[k].start) ==>
          HasRoom(b) && (Patient(b, net[k].start, ATTEMPTS - 1 - k) || BriskFor(b, net)))
  }

  predicate Fixed(bs: seq<BackendState>, net: seq<Attempt>, k: nat)
    requires |net| == ATTEMPTS && k < ATTEMPTS
  {
    forall i :: 0 <= i < |bs| ==> FixedBackend(bs[i], net, k)
  }

  // --------------------------------------------------------------- the law

  /** `h` without its place `c`. */
  function Without(h: seq<nat>, c: nat): seq<nat>
    requires c < |h|
  {
    h[..c] + h[c + 1..]
  }

  /** How many failures each backend can spare before one opens its circuit. */
  function Spares(bs: seq<BackendState>, now: int): seq<int> {
    seq(|bs|, i requires 0 <= i < |bs| => bs[i].lim.maxFails - Refreshed(bs[i], now).fails - 1)
  }

  /** The attempts a dial makes from `k` on if it is never refused: up to the first that connects. */
  function Made(net: seq<Attempt>, k: nat): nat
    requires |net| == ATTEMPTS && k <= ATTEMPTS
    decreases ATTEMPTS - k
  {
    if k == ATTEMPTS then 0 else if net[k].ok then 1 else 1 + Made(net, k + 1)
  }

  predicate InPlace(h: seq<nat>, n: nat) {
    forall c :: 0 <= c < |h| ==> h[c] < n
  }

  /** `n` tries over the list `h` from counter `rr`: each takes the counter's place, and one that cannot be spared removes it. */
  function CycleTries(h: seq<nat>, rr: nat, spares: seq<int>, n: nat): (tried: seq<nat>)
    requires InPlace(h, |spares|)
    ensures |tried| <= n
    decreases n
  {
    if n == 0 || h == [] then []
    else
      var c := ProbePlace(|h|, rr, 0);
      [h[c]] + CycleTries(if spares[h[c]] <= 0 then Without(h, c) else h, rr + 1, spares[h[c] := spares[h[c]] - 1], n - 1)
  }

  // ------------------------------------------------- one attempt at a time

  lemma OpensIsNoSpare(bs: seq<BackendState>, p: nat, now: int)
    requires p < |bs|
    ensures Opens(bs[p], now) <==> Spares(bs, now)[p] <= 0
  {}

  /** A backend that was at most queried keeps its answers, its room and what it can spare. */
  lemma OthersStayFixed(b: BackendState, b': BackendState, net: seq<Attempt>, k: nat)
    requires |net| == ATTEMPTS && k + 1 < ATTEMPTS && OnTime(net) && FixedBackend(b, net, k)
    requires b' == b || b' == Refreshed(b, net[k].start)
    ensures FixedBackend(b', net, k + 1) && (Selectable(b', net[k + 1].start) <==> Selectable(b, net[k].start))
    ensures Refreshed(b', net[k + 1].start).fails == Refreshed(b, net[k].start).fails && b'.lim == b.lim
  {
    forall m | k < m < ATTEMPTS ensures Selectable(b', net[m].start) <==> Selectable(b, net[k].start) {
      RefreshIsStable(b, net[k].start, net[m].start);
    }
  }

  /** The backend that failed stays if it could spare the failure, and is out otherwise. */
  lemma FailedStaysFixed(b: BackendState, b': BackendState, net: seq<Attempt>, k: nat)
    requires |net| == ATTEMPTS && k + 1 < ATTEMPTS && FixedBackend(b, net, k) && Selectable(b, net[k].start)
    requires FailedAttempt(b, net[k].start, net[k].done, b') && HasRoom(b')
    ensures FixedBackend(b', net, k + 1) && (Selectable(b', net[k + 1].start) <==> !Opens(b, net[k].start))
    ensures Refreshed(b', net[k + 1].start).fails == Refreshed(b, net[k].start).fails + 1 && b'.lim == b.lim
  {
    forall m | k < m < ATTEMPTS ensures Selectable(b', net[m].start) <==> !Opens(b, net[k].start) {
      StaysInExactly(b, net[k].start, net[k].done, net[m].start, b');
    }
  }

  lemma WithoutLast(front: seq<nat>, p: nat)
    ensures Without(front + [p], |front|) == front
  {}

  lemma WithoutInner(front: seq<nat>, last: nat, c: nat)
    requires c < |front|
    ensures Without(front + [last], c) == Without(front, c) + [last]
  {
    assert (front + [last])[..c] == front[..c];
    assert (front + [last])[c + 1..] == front[c + 1..] + [last];
  }

  lemma HealthyUnfolds(bs: seq<BackendState>, now: int, n: nat)
    requires 0 < n <= |bs|
    ensures HealthyUpTo(bs, now, n)
         == if Selectable(bs[n - 1], now) then HealthyUpTo(bs, now, n - 1) + [n - 1] else HealthyUpTo(bs, now, n - 1)
  {}

  /** One backend of the list stopped answering: the list loses its place. */
  lemma {:induction false} HealthyLosesOne(
    bs: seq<BackendState>, cs: seq<BackendState>, t: int, u: int, n: nat, p: nat, c: nat)
    requires n <= |bs| == |cs| && p < n && Selectable(bs[p], t) && !Selectable(cs[p], u)
    requires forall i :: 0 <= i < n && i != p ==> (Selectable(bs[i], t) <==> Selectable(cs[i], u))
    requires c < |HealthyUpTo(bs, t, n)| && HealthyUpTo(bs, t, n)[c] == p
    ensures HealthyUpTo(cs, u, n) == Without(HealthyUpTo(bs, t, n), c)
  {
    hide Selectable, HealthyUpTo, Without;
    HealthyUnfolds(bs, t, n);
    HealthyUnfolds(cs, u, n);
    var front := HealthyUpTo(bs, t, n - 1);
    if n - 1 == p {
      AlikeUpTo(bs, cs, t, u, n - 1);
      WithoutLast(front, p);
    } else {
      HealthyLosesOne(bs, cs, t, u, n - 1, p, c);
      if Selectable(bs[n - 1], t) { WithoutInner(front, n - 1, c); }
    }
  }

  /** A backend's answer and spares at the next attempt, after a failure of the backend at `p`. */
  predicate NextFixed(b: BackendState, b': BackendState, net: seq<Attempt>, k: nat, failed: bool)
    requires |net| == ATTEMPTS && k + 1 < ATTEMPTS
  {
    && FixedBackend(b', net, k + 1) && b'.lim == b.lim
    && Refreshed(b', net[k + 1].start).fails == Refreshed(b, net[k].start).fails + (if failed then 1 else 0)
    && (Selectable(b', net[k + 1].start) <==> Selectable(b, net[k].start) && (failed ==> !Opens(b, net[k].start)))
  }

  lemma EachStaysFixed(bs: seq<BackendState>, net: seq<Attempt>, k: nat, p: nat, bs': seq<BackendState>)
    requires |net| == ATTEMPTS && k + 1 < ATTEMPTS && OnTime(net) && Fixed(bs, net, k)
    requires AttemptFailed(bs, p, net[k].start, net[k].done, bs')
    ensures AllNext(bs, net, k, p, bs')
  {
    AnswersAfter(bs, p, net[k].start, net[k].done, bs', net[k].start);
    hide FixedBackend, Selectable, Refreshed, Opens;
    forall i | 0 <= i < |bs| ensures NextFixed(bs[i], bs'[i], net, k, i == p) {
      assert FixedBackend(bs[i], net, k);
      if i == p {
        FailedStaysFixed(bs[i], bs'[i], net, k);
      } else {
        OthersStayFixed(bs[i], bs'[i], net, k);
      }
    }
  }

  /** What a failed attempt at place `c` of the list leaves for the rest of the dial. */
  lemma FixedGoesOn(bs: seq<BackendState>, net: seq<Attempt>, k: nat, h: seq<nat>, c: nat, bs': seq<BackendState>)
    requires |net| == ATTEMPTS && k + 1 < ATTEMPTS && OnTime(net) && Fixed(bs, net, k)
    requires h == HealthyList(bs, net[k].start) && c < |h|
    requires AttemptFailed(bs, h[c], net[k].start, net[k].done, bs')
    ensures Fixed(bs', net, k + 1)
    ensures HealthyList(bs', net[k + 1].start) == if Opens(bs[h[c]], net[k].start) then Without(h, c) else h
    ensures Spares(bs', net[k + 1].start) == Spares(bs, net[k].start)[h[c] := Spares(bs, net[k].start)[h[c]] - 1]
  {
    EachStaysFixed(bs, net, k, h[c], bs');
    hide *;
    NextList(bs, net, k, h, c, bs');
    NextSpares(bs, net, k, h[c], bs');
  }

  predicate AllNext(bs: seq<BackendState>, net: seq<Attempt>, k: nat, p: nat, bs': seq<BackendState>)
    requires |net| == ATTEMPTS && k + 1 < ATTEMPTS
  {
    && |bs'| == |bs| && p < |bs|
    && forall i :: 0 <= i < |bs| ==> NextFixed(bs[i], bs'[i], net, k, i == p)
  }

  lemma NextList(bs: seq<BackendState>, net: seq<Attempt>, k: nat, h: seq<nat>, c: nat, bs': seq<BackendState>)
    requires |net| == ATTEMPTS && k + 1 < ATTEMPTS && h == HealthyList(bs, net[k].start) && c < |h|
    requires AllNext(bs, net, k, h[c], bs')
    ensures HealthyList(bs', net[k + 1].start) == if Opens(bs[h[c]], net[k].start) then Without(h, c) else h
  {
    hide FixedBackend, Selectable, Refreshed, Opens, HealthyUpTo, Without;
    forall i | 0 <= i < |bs|
      ensures Selectable(bs'[i], net[k + 1].start) <==>
                Selectable(bs[i], net[k].start) && (i == h[c] ==> !Opens(bs[i], net[k].start))
    {
      assert NextFixed(bs[i], bs'[i], net, k, i == h[c]);
    }
    hide NextFixed, AllNext;
    if Opens(bs[h[c]], net[k].start) {
      HealthyLosesOne(bs, bs', net[k].start, net[k + 1].start, |bs|, h[c], c);
    } else {
      HealthyWhenAlike(bs, bs', net[k].start, net[k + 1].start);
    }
  }

  lemma NextSpares(bs: seq<BackendState>, net: seq<Attempt>, k: nat, p: nat, bs': seq<BackendState>)
    requires |net| == ATTEMPTS && k + 1 < ATTEMPTS && AllNext(bs, net, k, p, bs')
    ensures Fixed(bs', net, k + 1)
    ensures Spares(bs', net[k + 1].start) == Spares(bs, net[k].start)[p := Spares(bs, net[k].start)[p] - 1]
  {
    hide FixedBackend, Selectable, Refreshed, Opens;
    forall i | 0 <= i < |bs|
      ensures FixedBackend(bs'[i], net, k + 1) && bs'[i].lim == bs[i].lim
      ensures Refreshed(bs'[i], net[k + 1].start).fails == Refreshed(bs[i], net[k].start).fails + (if i == p then 1 else 0)
    {
      assert NextFixed(bs[i], bs'[i], net, k, i == p);
    }
    hide NextFixed, AllNext;
  }

  lemma FixedHasRoom(bs: seq<BackendState>, net: seq<Attempt>, k: nat, h: seq<nat>, p: nat)
    requires |net| == ATTEMPTS && k < ATTEMPTS && Fixed(bs, net, k) && h == HealthyList(bs, net[k].start) && p in h
    ensures p < |bs| && HasRoom(bs[p])
  {
    assert FixedBackend(bs[p], net, k);
  }

  /** One attempt: it goes to the counter's place, and leaves the next the list, the counter and the spares of the law. */
  lemma RoundRobinTry(ps: PoolState, key: nat, net: seq<Attempt>, k: nat, h: seq<nat>)
    requires |net| == ATTEMPTS && k < ATTEMPTS && OnTime(net) && ps.strategy == RoundRobin
    requires Counted(ps.bs) && key < TWO64 && ps.rr + ATTEMPTS - k <= TWO63
    requires Fixed(ps.bs, net, k) && |h| > 0 && h == HealthyList(ps.bs, net[k].start)
    ensures InPlace(h, |ps.bs|)
    ensures var (o, s) := Select(ps, key, net[k].start);
            var c := ProbePlace(|h|, ps.rr, 0);
            && o == Picked(h[c]) && h[c] < |s.bs|
            && (k + 1 < ATTEMPTS ==>
                  var t := Settled(s, h[c], net[k].done);
                  var spares := Spares(ps.bs, net[k].start);
                  && t.strategy == RoundRobin && Counted(t.bs) && t.rr == ps.rr + 1 && Fixed(t.bs, net, k + 1)
                  && HealthyList(t.bs, net[k + 1].start) == (if spares[h[c]] <= 0 then Without(h, c) else h)
                  && Spares(t.bs, net[k + 1].start) == spares[h[c] := spares[h[c]] - 1])
  {
    hide Select, ProbePlace, HealthyList, Counted, FixedBackend, Spares, Opens, PickRR;
    var c := ProbePlace(|h|, ps.rr, 0);
    HealthyAscends(ps.bs, net[k].start);
    FixedHasRoom(ps.bs, net, k, h, h[c]);
    PlaceIsPicked(ps, key, net[k].start, h);
    CounterMoves(ps, key, net[k].start);
    hide Fixed;
    SelectFails(ps, key, net[k].start, net[k].done, h[c]);
    if k + 1 < ATTEMPTS {
      FixedGoesOn(ps.bs, net, k, h, c, Settled(Select(ps, key, net[k].start).1, h[c], net[k].done).bs);
      OpensIsNoSpare(ps.bs, h[c], net[k].start);
    }
  }

  lemma NobodyHealthy(ps: PoolState, key: nat, now: int)
    requires ps.strategy == RoundRobin && HealthyList(ps.bs, now) == []
    ensures Select(ps, key, now).0 == NoBackend
  {}

  /** The tries of a round-robin dial, whatever the failure limits: the law computes them from the state before the dial. */
  lemma {:induction false} RoundRobinTriesExactly(ps: PoolState, key: nat, net: seq<Attempt>, k: nat, h: seq<nat>)
    requires |net| == ATTEMPTS && k < ATTEMPTS && OnTime(net) && ps.strategy == RoundRobin
    requires Counted(ps.bs) && key < TWO64 && ps.rr + ATTEMPTS - k <= TWO63
    requires Fixed(ps.bs, net, k) && h == HealthyList(ps.bs, net[k].start) && InPlace(h, |ps.bs|)
    ensures Tried(ps, key, net, k) == CycleTries(h, ps.rr, Spares(ps.bs, net[k].start), Made(net, k))
    decreases ATTEMPTS - k
  {
    hide *;
    TriedUnfolds(ps, key, net, k);
    if h == [] {
      NobodyHealthy(ps, key, net[k].start);
      EmptyCycle(ps.rr, Spares(ps.bs, net[k].start), Made(net, k));
    } else {
      RoundRobinTry(ps, key, net, k, h);
      SparesEach(ps.bs, net[k].start);
      CycleUnfolds(h, ps.rr, Spares(ps.bs, net[k].start), net, k);
      if !net[k].ok && k + 1 < ATTEMPTS {
        var t := Settled(Select(ps, key, net[k].start).1, h[ProbePlace(|h|, ps.rr, 0)], net[k].done);
        SparesEach(t.bs, net[k + 1].start);
        RoundRobinTriesExactly(t, key, net, k + 1, HealthyList(t.bs, net[k + 1].start));
      }
    }
  }

  lemma SparesEach(bs: seq<BackendState>, now: int)
    ensures |Spares(bs, now)| == |bs|
    ensures InPlace(HealthyList(bs, now), |bs|)
  {}

  lemma EmptyCycle(rr: nat, spares: seq<int>, n: nat)
    ensures InPlace([], |spares|) && CycleTries([], rr, spares, n) == []
  {}

  lemma CycleUnfolds(h: seq<nat>, rr: nat, spares: seq<int>, net: seq<Attempt>, k: nat)
    requires |net| == ATTEMPTS && k < ATTEMPTS && h != [] && InPlace(h, |spares|)
    ensures var c := ProbePlace(|h|, rr, 0);
            var h' := if spares[h[c]] <= 0 then Without(h, c) else h;
            && InPlace(h', |spares|)
            && CycleTries(h, rr, spares, Made(net, k)) ==
                 if net[k].ok || k + 1 == ATTEMPTS then [h[c]]
                 else [h[c]] + CycleTries(h', rr + 1, spares[h[c] := spares[h[c]] - 1], Made(net, k + 1))
  {
    var c := ProbePlace(|h|, rr, 0);
    WithoutInPlace(h, c, |spares|);
    hide Without, ProbePlace;
    if k + 1 == ATTEMPTS { assert Made(net, k + 1) == 0; }
  }

  lemma WithoutInPlace(h: seq<nat>, c: nat, n: nat)
    requires c < |h| && InPlace(h, n)
    ensures InPlace(Without(h, c), n)
  {}

  // ------------------------------------------------------ when it fails over

  /** The first pick's place in a list of `n` after the second pick, next to it, has left. */
  function PlaceAfterNextLeft(n: nat, rr: nat): int
    requires n >= 2
  {
    Min(ProbePlace(n, rr, 0), n - 2)
  }

  /** When three tries over `n` backends are distinct, given which of the first two open a circuit. */
  predicate ThreeDistinct(n: nat, rr: nat, opens1: bool, opens2: bool) {
    n == 0 ||
    if opens1 then opens2 || n != 2
    else if opens2 then n >= 2 && ProbePlace(n - 1, rr, 2) != PlaceAfterNextLeft(n, rr)
    else n >= 3
  }

  /** The list after the first try. */
  function SecondList(h: seq<nat>, rr: nat, opens1: bool): seq<nat>
    requires h != []
  {
    if opens1 then Without(h, ProbePlace(|h|, rr, 0)) else h
  }

  /** Whether the first try opens its circuit, and the second, told by what the tried backends can spare beforehand. */
  predicate FirstOpens(h: seq<nat>, rr: nat, spares: seq<int>)
    requires InPlace(h, |spares|)
  {
    h != [] && spares[ProbeAt(h, rr, 0)] <= 0
  }

  predicate SecondOpens(h: seq<nat>, rr: nat, spares: seq<int>)
    requires InPlace(h, |spares|)
  {
    && h != []
    && var h2 := SecondList(h, rr, FirstOpens(h, rr, spares));
       && h2 != [] && ProbeAt(h2, rr, 1) < |spares| && spares[ProbeAt(h2, rr, 1)] <= 0
  }

  predicate Ascends(h: seq<nat>) {
    forall a, b :: 0 <= a < b < |h| ==> h[a] < h[b]
  }

  lemma WithoutAscends(h: seq<nat>, c: nat)
    requires c < |h| && Ascends(h)
    ensures |Without(h, c)| == |h| - 1 && Ascends(Without(h, c))
  {}

  /** What is left at place `d` was at place `d` or the next, and is not what was taken out. */
  lemma WithoutAt(h: seq<nat>, c: nat, d: nat)
    requires c < |h| && d < |h| - 1 && Ascends(h)
    ensures |Without(h, c)| == |h| - 1
    ensures Without(h, c)[d] == (if d < c then h[d] else h[d + 1]) && Without(h, c)[d] != h[c]
  {}

  lemma AscendsApart(h: seq<nat>, a: nat, b: nat)
    requires Ascends(h) && a < |h| && b < |h|
    ensures h[a] == h[b] <==> a == b
  {}

  lemma DistinctThree(a: nat, b: nat, c: nat)
    ensures FreshAndDistinct([a, b, c], {}) <==> a != b && b != c && a != c
  {
    var s := [a, b, c];
    assert s[0] == a && s[1] == b && s[2] == c;
  }

  lemma DistinctTwo(a: nat, b: nat)
    ensures FreshAndDistinct([a, b], {}) <==> a != b
  {
    var s := [a, b];
    assert s[0] == a && s[1] == b;
  }

  lemma DistinctOne(a: nat)
    ensures FreshAndDistinct([a], {})
  {}

  /** Three tries, one after the other. */
  lemma ThreeTries(h: seq<nat>, rr: nat, spares: seq<int>)
    requires InPlace(h, |spares|) && h != []
    ensures var p1 := ProbeAt(h, rr, 0);
            var h2 := SecondList(h, rr, spares[p1] <= 0);
            && InPlace(h2, |spares|)
            && CycleTries(h, rr, spares, 3) == [p1] + CycleTries(h2, rr + 1, spares[p1 := spares[p1] - 1], 2)
  {
    WithoutInPlace(h, ProbePlace(|h|, rr, 0), |spares|);
    hide ProbePlace, Without;
  }

  lemma TwoTries(h: seq<nat>, rr: nat, spares: seq<int>)
    requires InPlace(h, |spares|) && h != []
    ensures var p := ProbeAt(h, rr, 1);
            var h3 := if spares[p] <= 0 then Without(h, ProbePlace(|h|, rr, 1)) else h;
            && InPlace(h3, |spares|)
            && CycleTries(h, rr + 1, spares, 2) == [p] + if h3 == [] then [] else [ProbeAt(h3, rr, 2)]
  {
    NextPlace(|h|, rr, 1);
    var c := ProbePlace(|h|, rr, 1);
    WithoutInPlace(h, c, |spares|);
    var h3 := if spares[h[c]] <= 0 then Without(h, c) else h;
    if h3 != [] {
      NextPlace(|h3|, rr, 2);
      NextPlace(|h3|, rr + 1, 1);
    }
    hide ProbePlace, Without;
    assert CycleTries(h3, rr + 2, spares[h[c] := spares[h[c]] - 1], 1) == if h3 == [] then [] else [ProbeAt(h3, rr, 2)] by {
      if h3 != [] { OneTry(h3, rr + 2, spares[h[c] := spares[h[c]] - 1]); }
    }
  }

  lemma OneTry(h: seq<nat>, rr: nat, spares: seq<int>)
    requires InPlace(h, |spares|) && h != []
    ensures CycleTries(h, rr, spares, 1) == [ProbeAt(h, rr, 0)]
  {
    WithoutInPlace(h, ProbePlace(|h|, rr, 0), |spares|);
    hide ProbePlace, Without;
  }

  /** Neighbours on a cycle of two or more differ, and so do places two apart on one of three or more. */
  lemma Neighbours(n: nat, rr: nat)
    requires n > 0
    ensures ProbePlace(n, rr, 0) == ProbePlace(n, rr, 1) <==> n == 1
    ensures ProbePlace(n, rr, 1) == ProbePlace(n, rr, 2) <==> n == 1
    ensures ProbePlace(n, rr, 0) == ProbePlace(n, rr, 2) <==> n <= 2
    ensures n >= 2 ==> ProbePlace(n, rr, 1) == if ProbePlace(n, rr, 0) == n - 1 then 0 else ProbePlace(n, rr, 0) + 1
  {
    if n == 1 {
      hide ProbePlace;
    } else {
      PlacesApart(n, rr, 0, 1);
      NextPlace(n, rr, 1);
      NextPlace(n, rr, 2);
      PlacesApart(n, rr + 1, 0, 1);
      if n == 2 { PlaceRepeats(2, rr); } else { PlacesApart(n, rr, 0, 2); }
      PlaceSuccessor(n, rr);
      hide ProbePlace;
    }
  }

  lemma PlaceSuccessor(n: nat, rr: nat)
    requires n >= 2
    ensures ProbePlace(n, rr, 1) == if ProbePlace(n, rr, 0) == n - 1 then 0 else ProbePlace(n, rr, 0) + 1
  {
    var (q, r) := (rr / n, rr % n);
    assert rr == n * q + r && n * (q + 1) == n * q + n;
    if r == n - 1 { DivMod(rr + 1, n, q + 1, 0); } else { DivMod(rr + 1, n, q, r + 1); }
  }

  /** The first failure opens: the rest goes round a list without it. */
  lemma DistinctAfterOpening(h: seq<nat>, rr: nat, spares: seq<int>)
    requires InPlace(h, |spares|) && Ascends(h) && FirstOpens(h, rr, spares)
    ensures FreshAndDistinct(CycleTries(h, rr, spares, 3), {}) <==> SecondOpens(h, rr, spares) || |h| != 2
  {
    hide CycleTries, ProbePlace, Without, FreshAndDistinct;
    ThreeTries(h, rr, spares);
    var c1 := ProbePlace(|h|, rr, 0);
    var h2 := Without(h, c1);
    var spares2 := spares[h[c1] := spares[h[c1]] - 1];
    WithoutAscends(h, c1);
    if |h| == 1 {
      assert h2 == [];
      EmptyCycle(rr + 1, spares2, 2);
      DistinctOne(h[c1]);
      assert CycleTries(h, rr, spares, 3) == [h[c1]];
    } else {
      TwoTries(h2, rr, spares2);
      var c2 := ProbePlace(|h2|, rr, 1);
      WithoutAt(h, c1, c2);
      if spares[h2[c2]] <= 0 {
        OpeningTwice(h, c1, h2, c2, rr);
      } else {
        var c3 := ProbePlace(|h2|, rr, 2);
        WithoutAt(h, c1, c3);
        Neighbours(|h2|, rr);
        AscendsApart(h2, c2, c3);
        DistinctThree(h[c1], h2[c2], h2[c3]);
        assert CycleTries(h, rr, spares, 3) == [h[c1], h2[c2], h2[c3]];
      }
    }
  }

  lemma OpeningTwice(h: seq<nat>, c1: nat, h2: seq<nat>, c2: nat, rr: nat)
    requires Ascends(h) && c1 < |h| && h2 == Without(h, c1) && c2 < |h2| && Ascends(h2) && |h2| == |h| - 1
    ensures var h3 := Without(h2, c2);
            FreshAndDistinct([h[c1]] + ([h2[c2]] + if h3 == [] then [] else [ProbeAt(h3, rr, 2)]), {})
  {
    hide ProbePlace, Without, FreshAndDistinct;
    var h3 := Without(h2, c2);
    WithoutAscends(h2, c2);
    WithoutAt(h, c1, c2);
    if h3 == [] {
      DistinctTwo(h[c1], h2[c2]);
      assert [h[c1]] + ([h2[c2]] + []) == [h[c1], h2[c2]];
    } else {
      var c3 := ProbePlace(|h3|, rr, 2);
      WithoutAt(h2, c2, c3);
      WithoutAt(h, c1, if c3 < c2 then c3 else c3 + 1);
      DistinctThree(h[c1], h2[c2], h3[c3]);
      assert [h[c1]] + ([h2[c2]] + [h3[c3]]) == [h[c1], h2[c2], h3[c3]];
    }
  }

  /** Only the second failure opens. */
  lemma DistinctAfterSecond(h: seq<nat>, rr: nat, spares: seq<int>)
    requires InPlace(h, |spares|) && Ascends(h) && h != [] && !FirstOpens(h, rr, spares) && SecondOpens(h, rr, spares)
    ensures FreshAndDistinct(CycleTries(h, rr, spares, 3), {}) <==>
              |h| >= 2 && ProbePlace(|h| - 1, rr, 2) != PlaceAfterNextLeft(|h|, rr)
  {
    hide CycleTries, ProbePlace, Without, FreshAndDistinct;
    ThreeTries(h, rr, spares);
    var c1 := ProbePlace(|h|, rr, 0);
    var c2 := ProbePlace(|h|, rr, 1);
    Neighbours(|h|, rr);
    assert |h| >= 2;
    AscendsApart(h, c1, c2);
    TwoTries(h, rr, spares[h[c1] := spares[h[c1]] - 1]);
    WithoutAscends(h, c2);
    var h3 := Without(h, c2);
    var c3 := ProbePlace(|h3|, rr, 2);
    var back := PlaceAfterNextLeft(|h|, rr);
    WithoutAt(h, c2, c3);
    WithoutAt(h, c2, back);
    assert h3[back] == h[c1];
    AscendsApart(h3, back, c3);
    DistinctThree(h[c1], h[c2], h3[c3]);
    assert CycleTries(h, rr, spares, 3) == [h[c1], h[c2], h3[c3]];
  }

  /** Neither does. */
  lemma DistinctWithoutOpening(h: seq<nat>, rr: nat, spares: seq<int>)
    requires InPlace(h, |spares|) && Ascends(h) && h != [] && !FirstOpens(h, rr, spares) && !SecondOpens(h, rr, spares)
    ensures FreshAndDistinct(CycleTries(h, rr, spares, 3), {}) <==> |h| >= 3
  {
    hide CycleTries, ProbePlace, Without, FreshAndDistinct;
    ThreeTries(h, rr, spares);
    var c1, c2, c3 := ProbePlace(|h|, rr, 0), ProbePlace(|h|, rr, 1), ProbePlace(|h|, rr, 2);
    Neighbours(|h|, rr);
    AscendsApart(h, c1, c2);
    AscendsApart(h, c2, c3);
    AscendsApart(h, c1, c3);
    TwoTries(h, rr, spares[h[c1] := spares[h[c1]] - 1]);
    if |h| == 1 {
      SameTwice(h[c1], CycleTries(h, rr, spares, 3));
    } else {
      DistinctThree(h[c1], h[c2], h[c3]);
      assert CycleTries(h, rr, spares, 3) == [h[c1], h[c2], h[c3]];
    }
  }

  lemma SameTwice(a: nat, tried: seq<nat>)
    requires |tried| >= 2 && tried[0] == tried[1] == a
    ensures !FreshAndDistinct(tried, {})
  {}

  lemma CycleIsDistinctExactly(h: seq<nat>, rr: nat, spares: seq<int>)
    requires InPlace(h, |spares|) && Ascends(h)
    ensures FreshAndDistinct(CycleTries(h, rr, spares, 3), {}) <==>
              ThreeDistinct(|h|, rr, FirstOpens(h, rr, spares), SecondOpens(h, rr, spares))
  {
    hide CycleTries, ProbePlace, FreshAndDistinct, FirstOpens, SecondOpens;
    if h == [] {
      EmptyCycle(rr, spares, 3);
      NothingIsDistinct();
    } else if FirstOpens(h, rr, spares) {
      DistinctAfterOpening(h, rr, spares);
    } else if SecondOpens(h, rr, spares) {
      DistinctAfterSecond(h, rr, spares);
    } else {
      DistinctWithoutOpening(h, rr, spares);
    }
  }

  lemma TwoAreDistinctExactly(h: seq<nat>, rr: nat, spares: seq<int>)
    requires InPlace(h, |spares|) && Ascends(h)
    ensures FreshAndDistinct(CycleTries(h, rr, spares, 2), {}) <==> |h| != 1 || FirstOpens(h, rr, spares)
  {
    hide CycleTries, ProbePlace, Without, FreshAndDistinct;
    if h == [] {
      EmptyCycle(rr, spares, 2);
      NothingIsDistinct();
    } else {
      var c1 := ProbePlace(|h|, rr, 0);
      FirstOfTwo(h, rr, spares);
      WithoutAscends(h, c1);
      if FirstOpens(h, rr, spares) {
        var h2 := Without(h, c1);
        if h2 == [] {
          DistinctOne(h[c1]);
        } else {
          WithoutAt(h, c1, ProbePlace(|h2|, rr, 1));
          DistinctTwo(h[c1], ProbeAt(h2, rr, 1));
        }
      } else {
        Neighbours(|h|, rr);
        AscendsApart(h, c1, ProbePlace(|h|, rr, 1));
        DistinctTwo(h[c1], ProbeAt(h, rr, 1));
      }
    }
  }

  lemma NothingIsDistinct()
    ensures FreshAndDistinct([], {})
  {}

  lemma FirstOfTwo(h: seq<nat>, rr: nat, spares: seq<int>)
    requires InPlace(h, |spares|) && h != []
    ensures var p1 := ProbeAt(h, rr, 0);
            var h2 := SecondList(h, rr, spares[p1] <= 0);
            CycleTries(h, rr, spares, 2) == if h2 == [] then [p1] else [p1, ProbeAt(h2, rr, 1)]
  {
    var c := ProbePlace(|h|, rr, 0);
    WithoutInPlace(h, c, |spares|);
    var h2 := SecondList(h, rr, spares[h[c]] <= 0);
    var spares2 := spares[h[c] := spares[h[c]] - 1];
    hide ProbePlace, Without;
    assert CycleTries(h, rr, spares, 2) == [h[c]] + CycleTries(h2, rr + 1, spares2, 1);
    hide CycleTries;
    if h2 == [] {
      EmptyCycle(rr + 1, spares2, 1);
    } else {
      OneTry(h2, rr + 1, spares2);
      NextPlace(|h2|, rr, 1);
    }
  }

  /** What decides it, from the state before the dial. */
  predicate FailsOver(ps: PoolState, net: seq<Attempt>)
    requires |net| == ATTEMPTS && InPlace(HealthyList(ps.bs, net[0].start), |Spares(ps.bs, net[0].start)|)
  {
    var h, spares := HealthyList(ps.bs, net[0].start), Spares(ps.bs, net[0].start);
    if net[0].ok then true
    else if net[1].ok then |h| != 1 || FirstOpens(h, ps.rr, spares)
    else ThreeDistinct(|h|, ps.rr, FirstOpens(h, ps.rr, spares), SecondOpens(h, ps.rr, spares))
  }

  /** When a round-robin dial fails over, exactly, for any failure limits. */
  lemma RoundRobinFailsOverWhen(ps: PoolState, key: nat, net: seq<Attempt>)
    requires |net| == ATTEMPTS && OnTime(net) && ps.strategy == RoundRobin
    requires Counted(ps.bs) && key < TWO64 && ps.rr + ATTEMPTS <= TWO63 && Fixed(ps.bs, net, 0)
    ensures InPlace(HealthyList(ps.bs, net[0].start), |Spares(ps.bs, net[0].start)|)
    ensures FreshAndDistinct(Tried(ps, key, net, 0), {}) <==> FailsOver(ps, net)
  {
    var h, spares := HealthyList(ps.bs, net[0].start), Spares(ps.bs, net[0].start);
    SparesEach(ps.bs, net[0].start);
    MadeOfThree(net);
    AscendingHealthy(ps.bs, net[0].start);
    hide Fixed, Tried, CycleTries, HealthyList, Spares, Made, Counted, OnTime, FirstOpens, SecondOpens, ThreeDistinct;
    RoundRobinTriesExactly(ps, key, net, 0, h);
    if net[0].ok {
      if h == [] { EmptyCycle(ps.rr, spares, 1); } else { OneTry(h, ps.rr, spares); }
    } else if net[1].ok {
      TwoAreDistinctExactly(h, ps.rr, spares);
    } else {
      CycleIsDistinctExactly(h, ps.rr, spares);
    }
  }

  /** If every healthy backend can spare one failure, as clean ones with a limit of two or more can, three healthy backends are enough. */
  lemma SparingOneFailsOver(ps: PoolState, key: nat, net: seq<Attempt>)
    requires |net| == ATTEMPTS && OnTime(net) && ps.strategy == RoundRobin && !net[0].ok && !net[1].ok
    requires Counted(ps.bs) && key < TWO64 && ps.rr + ATTEMPTS <= TWO63 && Fixed(ps.bs, net, 0)
    requires forall i :: 0 <= i < |ps.bs| && Selectable(ps.bs[i], net[0].start) ==> Patient(ps.bs[i], net[0].start, 1)
    ensures FreshAndDistinct(Tried(ps, key, net, 0), {}) <==> Width(ps, net[0].start) !in {1, 2}
  {
    var h, spares := HealthyList(ps.bs, net[0].start), Spares(ps.bs, net[0].start);
    SparesEach(ps.bs, net[0].start);
    forall c | 0 <= c < |h| ensures spares[h[c]] > 0 {
      assert Patient(ps.bs[h[c]], net[0].start, 1);
    }
    hide Fixed, Tried, Selectable, HealthyUpTo, Spares, Counted, OnTime, ProbePlace, FreshAndDistinct;
    RoundRobinFailsOverWhen(ps, key, net);
  }

  lemma AscendingHealthy(bs: seq<BackendState>, now: int)
    ensures Ascends(HealthyList(bs, now))
  {}

  lemma MadeOfThree(net: seq<Attempt>)
    requires |net| == ATTEMPTS
    ensures Made(net, 0) == if net[0].ok then 1 else if net[1].ok then 2 else 3
  {
    assert Made(net, 2) == 1;
    assert Made(net, 1) == if net[1].ok then 1 else 2;
  }

  // ------------------------------------------------ patient pools, and one that is not

  /** Every healthy backend can spare the failures of the whole dial. */
  predicate Steady(bs: seq<BackendState>, net: seq<Attempt>, k: nat)
    requires |net| == ATTEMPTS && k < ATTEMPTS
  {
    && Fixed(bs, net, k)
    && forall i :: 0 <= i < |bs| && Selectable(bs[i], net[k].start) ==> Patient(bs[i], net[k].start, ATTEMPTS - 1 - k)
  }

  lemma {:induction false} PatientCycle(h: seq<nat>, rr: nat, spares: seq<int>, n: nat)
    requires InPlace(h, |spares|) && |h| > 0 && forall c :: 0 <= c < |h| ==> spares[h[c]] >= n - 1
    ensures |CycleTries(h, rr, spares, n)| == n
    ensures forall m :: 0 <= m < n ==> CycleTries(h, rr, spares, n)[m] == ProbeAt(h, rr, m)
    decreases n
  {
    if n > 0 {
      var c := ProbePlace(|h|, rr, 0);
      var spares2 := spares[h[c] := spares[h[c]] - 1];
      if n == 1 {
        OneTry(h, rr, spares);
      } else {
        assert CycleTries(h, rr, spares, n) == [h[c]] + CycleTries(h, rr + 1, spares2, n - 1);
        hide CycleTries, ProbePlace;
        PatientCycle(h, rr + 1, spares2, n - 1);
        NextPlaces(h[c], CycleTries(h, rr + 1, spares2, n - 1), h, rr);
      }
    }
  }

  lemma NextPlaces(p: nat, rest: seq<nat>, h: seq<nat>, rr: nat)
    requires |h| > 0 && p == ProbeAt(h, rr, 0)
    requires forall m :: 0 <= m < |rest| ==> rest[m] == ProbeAt(h, rr + 1, m)
    ensures forall m :: 0 <= m < |[p] + rest| ==> ([p] + rest)[m] == ProbeAt(h, rr, m)
  {
    hide ProbePlace;
    forall m | 0 <= m < |rest| + 1 ensures ([p] + rest)[m] == ProbeAt(h, rr, m) {
      if m > 0 {
        assert rest[m - 1] == ProbeAt(h, rr + 1, m - 1);
        NextPlace(|h|, rr, m);
      }
    }
  }

  /** With such backends round robin goes round the healthy list. */
  lemma RoundRobinTries(ps: PoolState, key: nat, net: seq<Attempt>, k: nat, h: seq<nat>)
    requires |net| == ATTEMPTS && k < ATTEMPTS && OnTime(net) && ps.strategy == RoundRobin
    requires Counted(ps.bs) && key < TWO64 && ps.rr + ATTEMPTS - k <= TWO63
    requires Steady(ps.bs, net, k) && |h| > 0 && h == HealthyList(ps.bs, net[k].start)
    ensures forall m :: 0 <= m < |Tried(ps, key, net, k)| ==> Tried(ps, key, net, k)[m] == ProbeAt(h, ps.rr, m)
  {
    var spares := Spares(ps.bs, net[k].start);
    SparesEach(ps.bs, net[k].start);
    MadeFits(net, k);
    forall c | 0 <= c < |h| ensures spares[h[c]] >= Made(net, k) - 1 {
      assert Patient(ps.bs[h[c]], net[k].start, ATTEMPTS - 1 - k);
    }
    hide *;
    SteadyIsFixed(ps.bs, net, k);
    RoundRobinTriesExactly(ps, key, net, k, h);
    PatientCycle(h, ps.rr, spares, Made(net, k));
  }

  lemma SteadyIsFixed(bs: seq<BackendState>, net: seq<Attempt>, k: nat)
    requires |net| == ATTEMPTS && k < ATTEMPTS && Steady(bs, net, k)
    ensures Fixed(bs, net, k)
  {}

  lemma {:induction false} MadeFits(net: seq<Attempt>, k: nat)
    requires |net| == ATTEMPTS && k <= ATTEMPTS
    ensures Made(net, k) <= ATTEMPTS - k
    decreases ATTEMPTS - k
  {
    if k < ATTEMPTS { MadeFits(net, k + 1); }
  }

  /** So its tries are distinct exactly when there are as many healthy backends as tries. */
  lemma RoundRobinFailsOverExactly(ps: PoolState, key: nat, net: seq<Attempt>)
    requires |net| == ATTEMPTS && OnTime(net) && ps.strategy == RoundRobin
    requires Counted(ps.bs) && key < TWO64 && ps.rr + ATTEMPTS <= TWO63 && Steady(ps.bs, net, 0)
    ensures FreshAndDistinct(Tried(ps, key, net, 0), {}) <==> |Tried(ps, key, net, 0)| <= Width(ps, net[0].start)
  {
    var h := HealthyList(ps.bs, net[0].start);
    HealthyAscends(ps.bs, net[0].start);
    if |h| == 0 {
      TriedUnfolds(ps, key, net, 0);
    } else {
      hide Tried, Select, HealthyUpTo;
      RoundRobinTries(ps, key, net, 0, h);
      hide *;
      TurnsAreDistinct(Tried(ps, key, net, 0), h, ps.rr);
    }
  }

  lemma TurnsAreDistinct(tried: seq<nat>, h: seq<nat>, rr: nat)
    requires |h| > 0 && forall a, b :: 0 <= a < b < |h| ==> h[a] < h[b]
    requires forall m :: 0 <= m < |tried| ==> tried[m] == ProbeAt(h, rr, m)
    ensures FreshAndDistinct(tried, {}) <==> |tried| <= |h|
  {
    if |tried| <= |h| {
      forall a, b | 0 <= a < b < |tried| ensures tried[a] != tried[b] {
        PlacesApart(|h|, rr, a, b);
      }
    } else {
      PlaceRepeats(|h|, rr);
      assert tried[0] == tried[|h|];
    }
  }

  lemma PlacesApart(n: nat, start: nat, a: nat, b: nat)
    requires a < b < n
    ensures ProbePlace(n, start, a) != ProbePlace(n, start, b)
  {
    var (q, r) := ((start + a) / n, (start + a) % n);
    assert start + a == n * q + r;
    assert n * (q + 1) == n * q + n;
    if r + (b - a) < n { DivMod(start + b, n, q, r + (b - a)); } else { DivMod(start + b, n, q + 1, r + (b - a) - n); }
  }

  lemma PlaceRepeats(n: nat, start: nat)
    requires n > 0
    ensures ProbePlace(n, start, 0) == ProbePlace(n, start, n)
  {
    var (q, r) := (start / n, start % n);
    assert start == n * q + r && n * (q + 1) == n * q + n;
    DivMod(start + n, n, q + 1, r);
  }

  /** Backend 0 has two failures of its three; the others are clean and idle. */
  const FOUR := PoolState([Idle(0).(state := Degraded, fails := 2), Idle(1), Idle(2), Idle(3)], RoundRobin, 0, map[], 3, 0, 0)

  /** Opening a circuit can send the counter back: a dial tries backend 3 twice while 1 and 2 are idle. */
  lemma RoundRobinMayComeBack(key: nat)
    requires key < TWO64
    ensures Tried(FOUR, key, DOWN, 0) == [3, 0, 3] && Width(FOUR, DOWN[0].start) == 4
  {
    FourIsFixed();
    FourIsHealthy();
    var h: seq<nat> := [0, 1, 2, 3];
    assert InPlace(h, |FOUR.bs|);
    assert Spares(FOUR.bs, DOWN[0].start) == [0, 2, 2, 2];
    MadeOfThree(DOWN);
    hide Tried, Select, Fixed, HealthyList, Spares, Made, CycleTries;
    RoundRobinTriesExactly(FOUR, key, DOWN, 0, h);
    FourCycle(h);
  }

  lemma FourCycle(h: seq<nat>)
    requires h == [0, 1, 2, 3]
    ensures CycleTries(h, 3, [0, 2, 2, 2], 3) == [3, 0, 3]
  {
    hide CycleTries;
    var spares := [0, 2, 2, 2];
    assert ProbeAt(h, 3, 0) == 3 && ProbeAt(h, 3, 1) == 0;
    ThreeTries(h, 3, spares);
    assert spares[3 := 1] == [0, 2, 2, 1];
    TwoTries(h, 3, [0, 2, 2, 1]);
    assert Without(h, 0) == [1, 2, 3];
    assert ProbeAt([1, 2, 3], 3, 2) == 3;
  }

  lemma FourIsFixed()
    ensures Fixed(FOUR.bs, DOWN, 0) && OnTime(DOWN) && Counted(FOUR.bs)
  {
    assert FOUR.bs == [Idle(0).(state := Degraded, fails := 2), Idle(1), Idle(2), Idle(3)];
  }

  lemma FourIsHealthy()
    ensures HealthyList(FOUR.bs, DOWN[0].start) == [0, 1, 2, 3]
  {
    var bs := FOUR.bs;
    assert HealthyUpTo(bs, 0, 1) == HealthyUpTo(bs, 0, 0) + [0];
    assert HealthyUpTo(bs, 0, 2) == HealthyUpTo(bs, 0, 1) + [1];
    assert HealthyUpTo(bs, 0, 3) == HealthyUpTo(bs, 0, 2) + [2];
  }
}
