/** Dialling a target through the pool, on values: up to three selections, each leased and settled. */
module Dialing {
  import opened Prelude
  import opened Breaker
  import opened Selection

  const ATTEMPTS: nat := 3

  /** One attempt as the network answers it: when it is made, when it ends, and whether it connects. */
  datatype Attempt = Attempt(start: int, done: int, ok: bool)

  datatype DialResult = Dialed(pos: nat) | DialFailed | NoneHealthy | Crashed

  /** A failed attempt: the failure is noted and the lease returned. */
  function Settled(ps: PoolState, i: nat, now: int): PoolState
    requires i < |ps.bs|
  {
    var b := AfterFailure(ps.bs[i], now);
    ps.(bs := ps.bs[i := b.(inflight := b.inflight - 1)])
  }

  /** A successful attempt: the success is noted and the lease kept. */
  function Kept(ps: PoolState, i: nat, now: int): PoolState
    requires i < |ps.bs|
  {
    ps.(bs := ps.bs[i := AfterSuccess(ps.bs[i], now)])
  }

  /** Attempts `k`, `k + 1`, ... of a dial. */
  function Dial(ps: PoolState, key: nat, net: seq<Attempt>, k: nat): (r: (DialResult, PoolState))
    requires |net| == ATTEMPTS
    ensures |r.1.bs| == |ps.bs| && (r.0.Dialed? ==> r.0.pos < |ps.bs|)
    decreases ATTEMPTS - k
  {
    if k >= ATTEMPTS then (DialFailed, ps)
    else
      var (o, s) := Select(ps, key, net[k].start);
      match o
      case Panics => (Crashed, s)
      case NoBackend => (NoneHealthy, s)
      case Picked(i) =>
        if net[k].ok then (Dialed(i), Kept(s, i, net[k].done))
        else Dial(Settled(s, i, net[k].done), key, net, k + 1)
  }

  /** The backends tried by attempts `k`, `k + 1`, ..., in order. */
  function Tried(ps: PoolState, key: nat, net: seq<Attempt>, k: nat): (tried: seq<nat>)
    requires |net| == ATTEMPTS
    ensures forall m :: 0 <= m < |tried| ==> tried[m] < |ps.bs|
    decreases ATTEMPTS - k
  {
    if k >= ATTEMPTS then []
    else
      var (o, s) := Select(ps, key, net[k].start);
      match o
      case Panics => []
      case NoBackend => []
      case Picked(i) =>
        if net[k].ok then [i]
        else [i] + Tried(Settled(s, i, net[k].done), key, net, k + 1)
  }

  predicate Loads(bs: seq<BackendState>, bs': seq<BackendState>, leased: Option<nat>) {
    && |bs'| == |bs|
    && forall j :: 0 <= j < |bs| ==> bs'[j].inflight == bs[j].inflight + if leased == Some(j) then 1 else 0
  }

  lemma SelectLoads(ps: PoolState, key: nat, now: int)
    requires Counted(ps.bs) && key < TWO64 && ps.rr < TWO64
    ensures var (o, s) := Select(ps, key, now);
            && Loads(ps.bs, s.bs, if o.Picked? then Some(o.pos) else None)
            && (o.Picked? ==> o.pos < |ps.bs|)
            && Counted(s.bs) && s.rr < TWO64
  {
    hide Select;
    SelectIsComplete(ps, key, now);
  }

  lemma SettledLoads(ps: PoolState, s: PoolState, i: nat, now: int)
    requires Counted(ps.bs) && i < |ps.bs| && Loads(ps.bs, s.bs, Some(i))
    ensures var t := Settled(s, i, now); Loads(ps.bs, t.bs, None) && Counted(t.bs) && t.rr == s.rr
  {}

  lemma KeptLoads(ps: PoolState, s: PoolState, i: nat, now: int)
    requires i < |ps.bs| && Loads(ps.bs, s.bs, Some(i))
    ensures Loads(ps.bs, Kept(s, i, now).bs, Some(i))
  {}

  lemma LoadsCompose(a: seq<BackendState>, b: seq<BackendState>, c: seq<BackendState>, leased: Option<nat>)
    requires Loads(a, b, None) && Loads(b, c, leased)
    ensures Loads(a, c, leased)
  {}

  /** Leases are conserved: a dial leaves one more connection on the backend of the pool it returns, and none anywhere else. */
  lemma {:induction false} DialKeepsOneLease(ps: PoolState, key: nat, net: seq<Attempt>, k: nat)
    requires |net| == ATTEMPTS && Counted(ps.bs) && key < TWO64 && ps.rr < TWO64
    ensures var (r, ps') := Dial(ps, key, net, k);
            && Loads(ps.bs, ps'.bs, if r.Dialed? then Some(r.pos) else None)
            && (r.Dialed? ==> r.pos < |ps.bs|)
    decreases ATTEMPTS - k
  {
    if k < ATTEMPTS {
      SelectLoads(ps, key, net[k].start);
      hide Select, Counted, Settled, Kept, Loads;
      var (o, s) := Select(ps, key, net[k].start);
      if o.Picked? {
        if net[k].ok {
          KeptLoads(ps, s, o.pos, net[k].done);
        } else {
          var t := Settled(s, o.pos, net[k].done);
          SettledLoads(ps, s, o.pos, net[k].done);
          DialKeepsOneLease(t, key, net, k + 1);
          var (r, u) := Dial(t, key, net, k + 1);
          LoadsCompose(ps.bs, t.bs, u.bs, if r.Dialed? then Some(r.pos) else None);
        }
      }
    }
  }

  /** In total: one more connection after a successful dial, none after any other. */
  lemma DialTotals(ps: PoolState, key: nat, net: seq<Attempt>)
    requires |net| == ATTEMPTS && Counted(ps.bs) && key < TWO64 && ps.rr < TWO64
    ensures var (r, ps') := Dial(ps, key, net, 0);
            TotalInflight(ps'.bs) == TotalInflight(ps.bs) + if r.Dialed? then 1 else 0
  {
    hide Dial, Select;
    DialKeepsOneLease(ps, key, net, 0);
    var (r, ps') := Dial(ps, key, net, 0);
    if r.Dialed? {
      assert Inflights(ps'.bs) == Inflights(ps.bs)[r.pos := ps.bs[r.pos].inflight + 1];
      SumUpdate(Inflights(ps.bs), r.pos, ps.bs[r.pos].inflight + 1);
    } else {
      assert Inflights(ps'.bs) == Inflights(ps.bs);
    }
  }

  function Inflights(bs: seq<BackendState>): seq<int> {
    seq(|bs|, i requires 0 <= i < |bs| => bs[i].inflight)
  }

  function TotalInflight(bs: seq<BackendState>): int {
    Sum(Inflights(bs))
  }

  /**
   How a result follows from the attempts made from `k` on: all but the last failed, the dial
   succeeds exactly when the last connected, and gives up exactly after the last of three did not.
   */
  predicate Explains(r: DialResult, tried: seq<nat>, net: seq<Attempt>, k: nat)
    requires |net| == ATTEMPTS
  {
    && k + |tried| <= ATTEMPTS
    && (forall m :: k <= m < k + |tried| - 1 ==> !net[m].ok)
    && (r.Dialed? <==> tried != [] && net[k + |tried| - 1].ok)
    && (r.Dialed? ==> r.pos == tried[|tried| - 1])
    && (r.DialFailed? <==> k + |tried| == ATTEMPTS && (tried == [] || !net[ATTEMPTS - 1].ok))
  }

  lemma OneMoreTry(r: DialResult, p: nat, rest: seq<nat>, net: seq<Attempt>, k: nat)
    requires |net| == ATTEMPTS && k < ATTEMPTS && !net[k].ok && Explains(r, rest, net, k + 1)
    ensures Explains(r, [p] + rest, net, k)
  {}

  lemma {:induction false} DialOutcome(ps: PoolState, key: nat, net: seq<Attempt>, k: nat)
    requires |net| == ATTEMPTS && k <= ATTEMPTS
    ensures Explains(Dial(ps, key, net, k).0, Tried(ps, key, net, k), net, k)
    decreases ATTEMPTS - k
  {
    hide Select, Settled, Kept;
    if k < ATTEMPTS {
      var (o, s) := Select(ps, key, net[k].start);
      if o.Picked? && !net[k].ok {
        hide Explains;
        var t := Settled(s, o.pos, net[k].done);
        DialOutcome(t, key, net, k + 1);
        OneMoreTry(Dial(t, key, net, k + 1).0, o.pos, Tried(t, key, net, k + 1), net, k);
      }
    }
  }
}
