/** What a dial does to the circuit breakers of the backends it goes to, and how it ends. */
module DialEffects {
  import opened Prelude
  import opened Breaker
  import opened Selection
  import opened SelectionRuns
  import opened Dialing
  import opened Failover

  /** A successful dial clears the record of the backend it returns: it is Healthy, with no failures and no timer. */
  lemma {:induction false} DialHealsItsBackend(ps: PoolState, key: nat, net: seq<Attempt>, k: nat)
    requires |net| == ATTEMPTS && Dial(ps, key, net, k).0.Dialed?
    ensures var (r, ps') := Dial(ps, key, net, k);
            ps'.bs[r.pos].state == Healthy && ps'.bs[r.pos].fails == 0 && ps'.bs[r.pos].openedAt == None
    decreases ATTEMPTS - k
  {
    hide Select, Settled;
    var (o, s) := Select(ps, key, net[k].start);
    if !net[k].ok {
      DialHealsItsBackend(Settled(s, o.pos, net[k].done), key, net, k + 1);
    }
  }

  // -------------------------------------------------------- failures counted

  /** How often `j` occurs. */
  function Times(s: seq<nat>, j: nat): nat {
    if s == [] then 0 else (if s[0] == j then 1 else 0) + Times(s[1..], j)
  }

  /**
   `b'` is `b` with `n` more failures. The count of an open circuit starts again
   at zero if it was let back in at one of the attempts from `k` on.
   */
  predicate Tally(b: BackendState, b': BackendState, n: nat, net: seq<Attempt>, k: nat) {
    || (b'.fails == b.fails + n && (b.state == CircuitOpen ==> n == 0))
    || (b'.fails == n && b.state == CircuitOpen && exists m :: k <= m < |net| && Selectable(b, net[m].start))
  }

  lemma QueryTallies(b: BackendState, b': BackendState, net: seq<Attempt>, k: nat)
    requires k < |net| && (b' == b || b' == Refreshed(b, net[k].start))
    ensures Tally(b, b', 0, net, k)
  {}

  /** A query at attempt `k`, then the rest. */
  lemma QueryThenTally(b: BackendState, c: BackendState, b': BackendState, n: nat, net: seq<Attempt>, k: nat)
    requires k < |net| && (c == b || c == Refreshed(b, net[k].start)) && Tally(c, b', n, net, k + 1)
    ensures Tally(b, b', n, net, k)
  {}

  /** A failure at attempt `k`, then the rest; an opened circuit stays shut for the rest of a brisk dial. */
  lemma FailureThenTally(b: BackendState, c: BackendState, b': BackendState, n: nat, net: seq<Attempt>, k: nat)
    requires k < |net| && Selectable(b, net[k].start) && FailedAttempt(b, net[k].start, net[k].done, c)
    requires forall m :: k < m < |net| ==> net[m].start < net[k].done + b.lim.openAfter
    requires Tally(c, b', n, net, k + 1)
    ensures Tally(b, b', n + 1, net, k)
  {
    forall m | k < m < |net| ensures c.state == CircuitOpen ==> !Selectable(c, net[m].start) {
      StaysInExactly(b, net[k].start, net[k].done, net[m].start, c);
    }
  }

  /** The final pool has, on every backend but the one returned, the failures of the tries on it and no others. */
  ghost predicate AllTallied(ps: PoolState, ps': PoolState, r: DialResult, tried: seq<nat>, net: seq<Attempt>, k: nat) {
    && |ps'.bs| == |ps.bs|
    && forall j :: 0 <= j < |ps.bs| && r != Dialed(j) ==> Tally(ps.bs[j], ps'.bs[j], Times(tried, j), net, k)
  }

  lemma OnlyQueried(ps: PoolState, key: nat, net: seq<Attempt>, k: nat)
    requires |net| == ATTEMPTS && k < ATTEMPTS && Counted(ps.bs) && key < TWO64 && ps.rr < TWO64
    ensures var (o, s) := Select(ps, key, net[k].start);
            && |s.bs| == |ps.bs|
            && forall j :: 0 <= j < |ps.bs| && o != Picked(j) ==> Tally(ps.bs[j], s.bs[j], 0, net, k)
  {
    hide Select, SelectPanics, Usable, Tally;
    SelectIsComplete(ps, key, net[k].start);
    var (o, s) := Select(ps, key, net[k].start);
    forall j | 0 <= j < |ps.bs| && o != Picked(j) ensures Tally(ps.bs[j], s.bs[j], 0, net, k) {
      assert Queried(ps.bs[j], s.bs[j], net[k].start);
      assert s.bs[j].(inflight := ps.bs[j].inflight) == s.bs[j];
      QueryTallies(ps.bs[j], s.bs[j], net, k);
    }
  }

  /** A brisk dial counts each failed try as one failure of its backend, whichever strategy chose it. */
  lemma {:induction false} DialCountsFailures(ps: PoolState, key: nat, net: seq<Attempt>, k: nat)
    requires |net| == ATTEMPTS && k <= ATTEMPTS && Counted(ps.bs) && key < TWO64 && ps.rr < TWO64 && Brisk(ps.bs, net)
    ensures var (r, ps') := Dial(ps, key, net, k);
            AllTallied(ps, ps', r, Tried(ps, key, net, k), net, k)
    decreases ATTEMPTS - k
  {
    if k < ATTEMPTS {
      TriedAndDialed(ps, key, net, k);
      hide Select, Dial, Tried, Settled, Kept, Tally, Counted, Brisk;
      OnlyQueried(ps, key, net, k);
      var (o, s) := Select(ps, key, net[k].start);
      if o.Picked? && !net[k].ok {
        var t := Settled(s, o.pos, net[k].done);
        SelectFails(ps, key, net[k].start, net[k].done, o.pos);
        BriskAfter(ps.bs, net, o.pos, net[k].start, net[k].done, t.bs);
        DialCountsFailures(t, key, net, k + 1);
        TallyStep(ps, t, key, net, k, o.pos);
      } else if o.Picked? {
        KeptOthers(s, o.pos, net[k].done);
      }
    }
  }

  lemma KeptOthers(s: PoolState, p: nat, now: int)
    requires p < |s.bs|
    ensures |Kept(s, p, now).bs| == |s.bs| && forall j :: 0 <= j < |s.bs| && j != p ==> Kept(s, p, now).bs[j] == s.bs[j]
  {}

  /** One attempt of a dial, with its tries. */
  lemma TriedAndDialed(ps: PoolState, key: nat, net: seq<Attempt>, k: nat)
    requires |net| == ATTEMPTS && k < ATTEMPTS
    ensures var (o, s) := Select(ps, key, net[k].start);
            if !o.Picked? then
              !Dial(ps, key, net, k).0.Dialed? && Dial(ps, key, net, k).1 == s
              && forall j :: Times(Tried(ps, key, net, k), j) == 0
            else if net[k].ok then
              Dial(ps, key, net, k) == (Dialed(o.pos), Kept(s, o.pos, net[k].done))
              && forall j :: j != o.pos ==> Times(Tried(ps, key, net, k), j) == 0
            else
              var t := Settled(s, o.pos, net[k].done);
              && Dial(ps, key, net, k) == Dial(t, key, net, k + 1)
              && forall j :: Times(Tried(ps, key, net, k), j)
                          == Times(Tried(t, key, net, k + 1), j) + if j == o.pos then 1 else 0
  {
    hide Select, Settled, Kept;
    var (o, s) := Select(ps, key, net[k].start);
    if o.Picked? && !net[k].ok {
      var rest := Tried(Settled(s, o.pos, net[k].done), key, net, k + 1);
      assert Tried(ps, key, net, k) == [o.pos] + rest && ([o.pos] + rest)[1..] == rest;
    }
  }

  lemma TallyStep(ps: PoolState, t: PoolState, key: nat, net: seq<Attempt>, k: nat, p: nat)
    requires |net| == ATTEMPTS && k < ATTEMPTS && Brisk(ps.bs, net)
    requires AttemptFailed(ps.bs, p, net[k].start, net[k].done, t.bs)
    requires Dial(ps, key, net, k) == Dial(t, key, net, k + 1)
    requires forall j :: Times(Tried(ps, key, net, k), j) == Times(Tried(t, key, net, k + 1), j) + if j == p then 1 else 0
    requires AllTallied(t, Dial(t, key, net, k + 1).1, Dial(t, key, net, k + 1).0, Tried(t, key, net, k + 1), net, k + 1)
    ensures AllTallied(ps, Dial(ps, key, net, k).1, Dial(ps, key, net, k).0, Tried(ps, key, net, k), net, k)
  {
    hide Dial, Tried, Tally, Selectable, Refreshed, FailedAttempt;
    var (r, ps') := Dial(ps, key, net, k);
    forall j: nat | j < |ps.bs| && r != Dialed(j)
      ensures Tally(ps.bs[j], ps'.bs[j], Times(Tried(ps, key, net, k), j), net, k)
    {
      assert Tally(t.bs[j], ps'.bs[j], Times(Tried(t, key, net, k + 1), j), net, k + 1);
      if j == p {
        FailureThenTally(ps.bs[j], t.bs[j], ps'.bs[j], Times(Tried(t, key, net, k + 1), j), net, k);
      } else {
        QueryThenTally(ps.bs[j], t.bs[j], ps'.bs[j], Times(Tried(t, key, net, k + 1), j), net, k);
      }
    }
  }

  // ------------------------------------------------------------ how it ends

  /** Nobody to select: the dial says so at once, and tries nobody. */
  lemma NobodyToDial(ps: PoolState, key: nat, net: seq<Attempt>)
    requires |net| == ATTEMPTS && Counted(ps.bs) && key < TWO64 && ps.rr < TWO64
    requires forall i :: 0 <= i < |ps.bs| ==> !Usable(ps.bs[i], net[0].start)
    ensures Dial(ps, key, net, 0).0 == if SelectPanics(ps, key, net[0].start) then Crashed else NoneHealthy
    ensures Tried(ps, key, net, 0) == []
  {
    hide Select, SelectPanics, Usable;
    SelectIsComplete(ps, key, net[0].start);
  }

  /** A least-connections pool never crashes. */
  lemma {:induction false} LeastConnNeverCrashes(ps: PoolState, key: nat, net: seq<Attempt>, k: nat)
    requires |net| == ATTEMPTS && Counted(ps.bs) && key < TWO64 && ps.rr < TWO64 && ps.strategy in {LeastConn, Unrecognised}
    ensures Dial(ps, key, net, k).0 != Crashed
    decreases ATTEMPTS - k
  {
    if k < ATTEMPTS {
      SelectIsComplete(ps, key, net[k].start);
      hide Select, Settled;
      var (o, s) := Select(ps, key, net[k].start);
      if o.Picked? && !net[k].ok {
        SelectFails(ps, key, net[k].start, net[k].done, o.pos);
        LeastConnNeverCrashes(Settled(s, o.pos, net[k].done), key, net, k + 1);
      }
    }
  }
}
