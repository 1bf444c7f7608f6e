/**
 Every interleaving of the in-flight counter's load / compare / swap loop with
 releases. One action is one atomic operation of one thread.
 */
module InflightCas {
  import opened Threads

  datatype PC =
    | Start                // about to load the counter
    | Loaded(cur: int)     // holds a value, about to compare and swap
    | Leased               // acquired, not yet released
    | Refused              // returned false
    | Released

  datatype Counter = Counter(max: int, inflight: int, threads: map<nat, PC>)

  datatype Action = Spawn(t: nat) | Load(t: nat) | Swap(t: nat) | Release(t: nat)

  predicate Enabled(s: Counter, a: Action) {
    match a
    case Spawn(t) => t !in s.threads
    case Load(t) => t in s.threads && s.threads[t].Start?
    case Swap(t) => t in s.threads && s.threads[t].Loaded?
    case Release(t) => t in s.threads && s.threads[t].Leased?
  }

  function Step(s: Counter, a: Action): Counter
    requires Enabled(s, a)
  {
    match a
    case Spawn(t) => s.(threads := s.threads[t := Start])
    case Load(t) => s.(threads := s.threads[t := Compared(s.max, s.inflight)])
    case Swap(t) =>
      if s.inflight == s.threads[t].cur then
        s.(inflight := s.inflight + 1, threads := s.threads[t := Leased])
      else
        // the failed swap loads again
        s.(threads := s.threads[t := Compared(s.max, s.inflight)])
    case Release(t) => s.(inflight := s.inflight - 1, threads := s.threads[t := Released])
  }

  /** The loop test on a freshly loaded value. */
  function Compared(max: int, cur: int): PC {
    if cur >= max then Refused else Loaded(cur)
  }

  predicate Behaviour(s: Counter, acts: seq<Action>)
    decreases |acts|
  {
    acts == [] || (Enabled(s, acts[0]) && Behaviour(Step(s, acts[0]), acts[1..]))
  }

  function Final(s: Counter, acts: seq<Action>): Counter
    requires Behaviour(s, acts)
    decreases |acts|
  {
    if acts == [] then s else Final(Step(s, acts[0]), acts[1..])
  }

  ghost function Leases(s: Counter): nat {
    Count(s.threads, (p: PC) => p.Leased?)
  }

  ghost predicate Inv(s: Counter) {
    && s.inflight == Leases(s)
    && s.inflight <= s.max
    && forall t :: t in s.threads && s.threads[t].Loaded? ==> s.threads[t].cur < s.max
  }

  lemma StepKeepsInv(s: Counter, a: Action)
    requires Inv(s) && Enabled(s, a)
    ensures Inv(Step(s, a))
  {
    var s' := Step(s, a);
    CountMove(s.threads, a.t, s'.threads[a.t], (p: PC) => p.Leased?);
    assert s'.threads == s.threads[a.t := s'.threads[a.t]];
  }

  /** Whatever the schedule, the counter is the number of leases and stays within the limit. */
  lemma {:induction false} InflightIsLeases(s: Counter, acts: seq<Action>)
    requires Inv(s) && Behaviour(s, acts)
    ensures var f := Final(s, acts); f.inflight == Leases(f) && 0 <= f.inflight <= f.max
    decreases |acts|
  {
    if acts != [] {
      StepKeepsInv(s, acts[0]);
      InflightIsLeases(Step(s, acts[0]), acts[1..]);
    } else {
      assert s.inflight == Leases(s);
    }
  }

  /** An acquire is refused exactly when its load saw the backend full, and a swap takes a slot exactly when the counter has not moved. */
  lemma RefusedExactlyWhenFull(s: Counter, a: Action)
    requires Enabled(s, a) && (a.Load? || a.Swap?)
    ensures var p := Step(s, a).threads[a.t];
            && (p.Leased? <==> a.Swap? && s.inflight == s.threads[a.t].cur)
            && (p.Refused? <==> !p.Leased? && s.inflight >= s.max)
            && (p.Loaded? <==> !p.Leased? && s.inflight < s.max)
            && (p.Loaded? ==> p.cur == s.inflight)
            && Step(s, a).inflight == s.inflight + if p.Leased? then 1 else 0
  {}

  /** A backend starts with no leases. */
  lemma InitialInv(max: int)
    requires max >= 1
    ensures Inv(Counter(max, 0, map[]))
  {
    CountNone(map[], (p: PC) => p.Leased?);
  }

  lemma OneAction(s: Counter, a: Action)
    requires Enabled(s, a)
    ensures Behaviour(s, [a]) && Final(s, [a]) == Step(s, a)
  {
    var none := [a][1..];
    assert none == [];
    assert Behaviour(Step(s, a), none) && Final(Step(s, a), none) == Step(s, a);
  }

  /** The loop is lock-free: a swap fails only because another thread moved the counter since the load. */
  lemma {:induction false} FailedSwapMeansProgress(s: Counter, acts: seq<Action>, t: nat)
    requires Behaviour(s, acts) && t in s.threads && s.threads[t].Loaded?
    requires s.threads[t].cur == s.inflight
    requires forall i :: 0 <= i < |acts| ==> acts[i].t != t
    requires var f := Final(s, acts); t in f.threads && f.threads[t] == s.threads[t] && f.inflight != s.threads[t].cur
    ensures exists i :: 0 <= i < |acts| && Moved(s, acts, i)
    decreases |acts|
  {
    if acts != [] {
      var s1 := Step(s, acts[0]);
      if s1.inflight != s.inflight {
        assert acts[..0] == [] && acts[..1] == [acts[0]];
        OneAction(s, acts[0]);
        assert Moved(s, acts, 0);
      } else {
        FailedSwapMeansProgress(s1, acts[1..], t);
        var i :| 0 <= i < |acts[1..]| && Moved(s1, acts[1..], i);
        assert acts[1..][..i] == acts[..i + 1][1..];
        assert acts[1..][..i + 1] == acts[..i + 2][1..];
        BehaviourPrefix(s1, acts[1..], i);
        BehaviourPrefix(s1, acts[1..], i + 1);
        assert Moved(s, acts, i + 1);
      }
    }
  }

  /** The action at `i` is another thread's successful swap or release. */
  ghost predicate Moved(s: Counter, acts: seq<Action>, i: nat)
    requires i < |acts|
  {
    && (acts[i].Swap? || acts[i].Release?)
    && Behaviour(s, acts[..i]) && Behaviour(s, acts[..i + 1])
    && Final(s, acts[..i]).inflight != Final(s, acts[..i + 1]).inflight
  }

  lemma {:induction false} BehaviourPrefix(s: Counter, acts: seq<Action>, i: nat)
    requires Behaviour(s, acts) && i <= |acts|
    ensures Behaviour(s, acts[..i])
    decreases i
  {
    if i > 0 {
      BehaviourPrefix(Step(s, acts[0]), acts[1..], i - 1);
      assert acts[..i][1..] == acts[1..][..i - 1];
    }
  }
}
