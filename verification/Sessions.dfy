/** Many sessions at once, sharing one limiter and one pool: each arrives, tries, connects and leaves at its own time. */
module Sessions {
  import opened Prelude
  import opened Threads
  import Limiter
  import opened ConnLimits
  import opened Selection
  import opened Dialing

  /** What a session uses of the pool: nothing yet or any more, a backend it is trying, or the one it tunnels through. */
  datatype Use = Nothing | Trying(pos: nat) | Connected(pos: nat)

  /** A session that the limiter accepted, and the attempts its dial has left; and one that is over. */
  datatype Peer = Held(ip: string, left: nat, use: Use) | Gone

  datatype Site = Site(counts: Counts, pool: PoolState, clients: map<nat, Peer>)

  /** What can happen next: a step of one session, or a change elsewhere that leaves the loads alone. */
  datatype Event =
    | Arrive(t: nat, ip: string, now: int)
    | Pick(t: nat, key: nat, now: int)   // an attempt of its dial selects a backend
    | Fail(t: nat, now: int)             // the attempt did not connect: noted, and its lease returned
    | Connect(t: nat, now: int)          // it did: noted, and its lease kept
    | Leave(t: nat)
    | Elsewhere(pool: PoolState)

  predicate Holds(s: Site, t: nat) {
    t in s.clients && s.clients[t].Held?
  }

  predicate Enabled(s: Site, e: Event) {
    match e
    case Arrive(t, ip, now) => t !in s.clients
    case Pick(t, key, now) => Holds(s, t) && s.clients[t].use.Nothing? && s.clients[t].left > 0 && key < TWO64
    case Fail(t, now) => IsTrying(s, t)
    case Connect(t, now) => IsTrying(s, t)
    case Leave(t) => Holds(s, t) && !s.clients[t].use.Trying? && InRange(s.clients[t], |s.pool.bs|)
    case Elsewhere(ps) => Loads(s.pool.bs, ps.bs, None) && ps.rr < TWO64
  }

  /** The backend a session uses is one of `n`. */
  predicate InRange(c: Peer, n: nat) {
    c.Held? && !c.use.Nothing? ==> c.use.pos < n
  }

  predicate IsTrying(s: Site, t: nat) {
    Holds(s, t) && s.clients[t].use.Trying? && InRange(s.clients[t], |s.pool.bs|)
  }

  function Happen(lim: Limiter.Limits, s: Site, e: Event): Site
    requires Enabled(s, e)
  {
    match e
    case Arrive(t, ip, now) =>
      var (a, held) := Acquired(lim, s.counts, ip, now);
      s.(counts := held, clients := s.clients[t := if a == Answer.Granted then Held(ip, ATTEMPTS, Nothing) else Gone])
    case Pick(t, key, now) =>
      var (o, used) := Select(s.pool, key, now);
      var c := s.clients[t];
      s.(pool := used,
         clients := s.clients[t := if o.Picked? then c.(left := c.left - 1, use := Use.Trying(o.pos)) else c.(left := 0)])
    case Fail(t, now) =>
      var c := s.clients[t];
      s.(pool := Settled(s.pool, c.use.pos, now), clients := s.clients[t := c.(use := Nothing)])
    case Connect(t, now) =>
      var c := s.clients[t];
      s.(pool := Kept(s.pool, c.use.pos, now), clients := s.clients[t := c.(left := 0, use := Connected(c.use.pos))])
    case Leave(t) =>
      var c := s.clients[t];
      Site(ReleasedBy(s.counts, c.ip), if c.use.Connected? then Unleased(s.pool, c.use.pos) else s.pool, s.clients[t := Gone])
    case Elsewhere(ps) => s.(pool := ps)
  }

  function Unleased(ps: PoolState, i: nat): PoolState
    requires i < |ps.bs|
  {
    ps.(bs := ps.bs[i := ps.bs[i].(inflight := ps.bs[i].inflight - 1)])
  }

  predicate Behaviour(lim: Limiter.Limits, s: Site, es: seq<Event>)
    decreases |es|
  {
    es == [] || (Enabled(s, es[0]) && Behaviour(lim, Happen(lim, s, es[0]), es[1..]))
  }

  function Final(lim: Limiter.Limits, s: Site, es: seq<Event>): Site
    requires Behaviour(lim, s, es)
    decreases |es|
  {
    if es == [] then s else Final(lim, Happen(lim, s, es[0]), es[1..])
  }

  ghost function Open(): Peer -> bool { (c: Peer) => c.Held? }
  ghost function OpenFrom(ip: string): Peer -> bool { (c: Peer) => c.Held? && c.ip == ip }
  ghost function Using(j: nat): Peer -> bool { (c: Peer) => c.Held? && (c.use == Use.Trying(j) || c.use == Connected(j)) }

  /** Every counter is the number of open sessions that hold it, dials in progress included, and all they use is in the pool. */
  ghost predicate Accounted(s: Site) {
    && s.counts.global == Count(s.clients, Open())
    && (forall ip :: ip != "" ==> EntryOf(s.counts, ip).conns == Count(s.clients, OpenFrom(ip)))
    && (forall j :: 0 <= j < |s.pool.bs| ==> s.pool.bs[j].inflight == Count(s.clients, Using(j)))
    && (forall t :: t in s.clients ==> InRange(s.clients[t], |s.pool.bs|))
    && s.pool.rr < TWO64
  }

  /** One client's change, in every count. */
  lemma ClientMoves(clients: map<nat, Peer>, t: nat, c: Peer)
    ensures Count(clients[t := c], Open()) == Count(clients, Open()) - One(t in clients && clients[t].Held?) + One(c.Held?)
    ensures forall ip ::
              Count(clients[t := c], OpenFrom(ip)) == Count(clients, OpenFrom(ip)) - One(t in clients && OpenFrom(ip)(clients[t])) + One(OpenFrom(ip)(c))
    ensures forall j ::
              Count(clients[t := c], Using(j)) == Count(clients, Using(j)) - One(t in clients && Using(j)(clients[t])) + One(Using(j)(c))
  {
    hide Count;
    CountMove(clients, t, c, Open());
    forall ip { CountMove(clients, t, c, OpenFrom(ip)); }
    forall j { CountMove(clients, t, c, Using(j)); }
  }

  lemma ArriveKeeps(lim: Limiter.Limits, s: Site, e: Event)
    requires Accounted(s) && Enabled(s, e) && e.Arrive?
    ensures Accounted(Happen(lim, s, e))
  {
    var c := Happen(lim, s, e).clients[e.t];
    ClientMoves(s.clients, e.t, c);
    AcquiredCounts(lim, s.counts, e.ip, e.now);
    hide Acquired, EntryOf, Count;
  }

  /** What an acquire adds: one connection in total and one of its address if granted, nothing otherwise. */
  lemma AcquiredCounts(lim: Limiter.Limits, c: Counts, ip: string, now: int)
    ensures var (a, d) := Acquired(lim, c, ip, now);
            var one := if a == Answer.Granted then 1 else 0;
            && d.global == c.global + one
            && forall other :: other != "" ==>
                 EntryOf(d, other).conns == EntryOf(c, other).conns + if other == ip then one else 0
  {}

  lemma ReleasedCounts(c: Counts, ip: string)
    requires ip != "" ==> EntryOf(c, ip).conns > 0
    ensures var d := ReleasedBy(c, ip);
            && d.global == c.global - 1
            && forall other :: other != "" ==>
                 EntryOf(d, other).conns == EntryOf(c, other).conns - if other == ip then 1 else 0
  {}

  lemma PickKeeps(lim: Limiter.Limits, s: Site, e: Event)
    requires Accounted(s) && Enabled(s, e) && e.Pick?
    ensures Accounted(Happen(lim, s, e))
  {
    hide Select, EntryOf, Count;
    assert Counted(s.pool.bs);
    SelectLoads(s.pool, e.key, e.now);
    hide Counted;
    ClientMoves(s.clients, e.t, Happen(lim, s, e).clients[e.t]);
  }

  lemma FailKeeps(lim: Limiter.Limits, s: Site, e: Event)
    requires Accounted(s) && Enabled(s, e) && e.Fail?
    ensures Accounted(Happen(lim, s, e))
  {
    hide EntryOf, Count;
    ClientMoves(s.clients, e.t, Happen(lim, s, e).clients[e.t]);
  }

  lemma ConnectKeeps(lim: Limiter.Limits, s: Site, e: Event)
    requires Accounted(s) && Enabled(s, e) && e.Connect?
    ensures Accounted(Happen(lim, s, e))
  {
    hide EntryOf, Count;
    ClientMoves(s.clients, e.t, Happen(lim, s, e).clients[e.t]);
  }

  lemma LeaveKeeps(lim: Limiter.Limits, s: Site, e: Event)
    requires Accounted(s) && Enabled(s, e) && e.Leave?
    ensures Accounted(Happen(lim, s, e))
  {
    var c := s.clients[e.t];
    ClientMoves(s.clients, e.t, Gone);
    if c.ip != "" {
      assert EntryOf(s.counts, c.ip).conns > 0 by {
        assert Those(s.clients, OpenFrom(c.ip)) != {} by { assert e.t in Those(s.clients, OpenFrom(c.ip)); }
      }
    }
    ReleasedCounts(s.counts, c.ip);
    hide ReleasedBy, EntryOf, Count;
  }

  /**
   Sessions do not leak into one another: however the steps of any number of them interleave, with each
   other and with whatever else goes on, every counter is the number of sessions open at that moment that
   hold it, and every backend's in-flight count the number that are trying it or connected through it.
   */
  lemma {:induction false} SessionsAreAccounted(lim: Limiter.Limits, s: Site, es: seq<Event>)
    requires Accounted(s) && Behaviour(lim, s, es)
    ensures Accounted(Final(lim, s, es))
    decreases |es|
  {
    if es != [] {
      var e := es[0];
      hide Accounted, Happen;
      match e {
        case Arrive(_, _, _) => ArriveKeeps(lim, s, e);
        case Pick(_, _, _) => PickKeeps(lim, s, e);
        case Fail(_, _) => FailKeeps(lim, s, e);
        case Connect(_, _) => ConnectKeeps(lim, s, e);
        case Leave(_) => LeaveKeeps(lim, s, e);
        case Elsewhere(_) => ElsewhereKeeps(lim, s, e);
      }
      SessionsAreAccounted(lim, Happen(lim, s, e), es[1..]);
    }
  }

  lemma ElsewhereKeeps(lim: Limiter.Limits, s: Site, e: Event)
    requires Accounted(s) && Enabled(s, e) && e.Elsewhere?
    ensures Accounted(Happen(lim, s, e))
  {}

  /** It starts with nobody, and when everybody has left nothing is held. */
  lemma NobodyHoldsNothing(s: Site)
    requires s.pool.rr < TWO64 && forall t :: t in s.clients ==> s.clients[t].Gone?
    ensures Accounted(s) <==>
              && s.counts.global == 0
              && (forall ip :: ip != "" ==> EntryOf(s.counts, ip).conns == 0)
              && (forall j :: 0 <= j < |s.pool.bs| ==> s.pool.bs[j].inflight == 0)
  {
    CountNone(s.clients, Open());
    forall ip { CountNone(s.clients, OpenFrom(ip)); }
    forall j { CountNone(s.clients, Using(j)); }
    hide Count;
  }

  // --------------------------------------------------- one dial by itself

  /** The steps of session `t`'s dial from attempt `k` on, when nothing else happens. */
  function DialSteps(ps: PoolState, t: nat, key: nat, net: seq<Attempt>, k: nat): seq<Event>
    requires |net| == ATTEMPTS
    decreases ATTEMPTS - k
  {
    if k >= ATTEMPTS then []
    else
      var (o, s) := Select(ps, key, net[k].start);
      if !o.Picked? then [Pick(t, key, net[k].start)]
      else if net[k].ok then [Pick(t, key, net[k].start), Connect(t, net[k].done)]
      else [Pick(t, key, net[k].start), Fail(t, net[k].done)] + DialSteps(Settled(s, o.pos, net[k].done), t, key, net, k + 1)
  }

  /** What a dial that ended like this leaves its session with. */
  function UseAfter(r: DialResult): Use {
    if r.Dialed? then Connected(r.pos) else Nothing
  }

  lemma {:induction false} BehaviourJoins(lim: Limiter.Limits, s: Site, es: seq<Event>, fs: seq<Event>)
    requires Behaviour(lim, s, es) && Behaviour(lim, Final(lim, s, es), fs)
    ensures Behaviour(lim, s, es + fs) && Final(lim, s, es + fs) == Final(lim, Final(lim, s, es), fs)
    decreases |es|
  {
    if es == [] {
      assert es + fs == fs;
    } else {
      BehaviourJoins(lim, Happen(lim, s, es[0]), es[1..], fs);
      assert (es + fs)[1..] == es[1..] + fs;
    }
  }

  /** One event, and two. */
  lemma OneStep(lim: Limiter.Limits, s: Site, e: Event)
    requires Enabled(s, e)
    ensures Behaviour(lim, s, [e]) && Final(lim, s, [e]) == Happen(lim, s, e)
  {
    hide Happen;
    var none := [e][1..];
    assert none == [];
    assert Behaviour(lim, Happen(lim, s, e), none) && Final(lim, Happen(lim, s, e), none) == Happen(lim, s, e);
  }

  lemma TwoSteps(lim: Limiter.Limits, s: Site, e: Event, f: Event)
    requires Enabled(s, e) && Enabled(Happen(lim, s, e), f)
    ensures Behaviour(lim, s, [e, f]) && Final(lim, s, [e, f]) == Happen(lim, Happen(lim, s, e), f)
  {
    hide Happen, Enabled;
    OneStep(lim, s, e);
    OneStep(lim, Happen(lim, s, e), f);
    BehaviourJoins(lim, s, [e], [f]);
    assert [e] + [f] == [e, f];
  }

  /** What the uninterrupted steps of a dial leave behind. */
  predicate Dials(lim: Limiter.Limits, s: Site, t: nat, es: seq<Event>, r: DialResult, ps: PoolState) {
    && Behaviour(lim, s, es)
    && Final(lim, s, es).pool == ps && Final(lim, s, es).counts == s.counts
    && Holds(Final(lim, s, es), t) && Final(lim, s, es).clients[t].use == UseAfter(r)
  }

  predicate CanDial(s: Site, t: nat, k: nat) {
    k <= ATTEMPTS && Holds(s, t) && s.clients[t].use.Nothing? && s.clients[t].left == ATTEMPTS - k
  }

  /** Uninterrupted, the steps are the dial: the same pool in the end, and the lease of the backend it returns. */
  lemma {:induction false} DialIsItsSteps(lim: Limiter.Limits, s: Site, t: nat, key: nat, net: seq<Attempt>, k: nat)
    requires |net| == ATTEMPTS && key < TWO64 && CanDial(s, t, k)
    ensures Dials(lim, s, t, DialSteps(s.pool, t, key, net, k), Dial(s.pool, key, net, k).0, Dial(s.pool, key, net, k).1)
    decreases ATTEMPTS - k
  {
    hide Select, Happen, Behaviour, Final, Settled, Kept;
    if k == ATTEMPTS {
      NoSteps(lim, s, t);
    } else {
      DialUnfolds(s.pool, t, key, net, k);
      hide *;
      if !Select(s.pool, key, net[k].start).0.Picked? {
        StepNobody(lim, s, t, key, net[k], k);
      } else if net[k].ok {
        StepConnects(lim, s, t, key, net[k], k);
      } else {
        StepFails(lim, s, t, key, net[k], k);
        var s2 := Happen(lim, Happen(lim, s, Pick(t, key, net[k].start)), Fail(t, net[k].done));
        DialIsItsSteps(lim, s2, t, key, net, k + 1);
        StepsJoin(lim, s, t, [Pick(t, key, net[k].start), Fail(t, net[k].done)], s2,
                  DialSteps(s2.pool, t, key, net, k + 1), Dial(s2.pool, key, net, k + 1).0, Dial(s2.pool, key, net, k + 1).1);
      }
    }
  }

  lemma NoSteps(lim: Limiter.Limits, s: Site, t: nat)
    requires CanDial(s, t, ATTEMPTS)
    ensures Dials(lim, s, t, [], DialFailed, s.pool)
  {}

  lemma StepsJoin(lim: Limiter.Limits, s: Site, t: nat, es: seq<Event>, s2: Site, fs: seq<Event>, r: DialResult, ps: PoolState)
    requires Behaviour(lim, s, es) && Final(lim, s, es) == s2 && s2.counts == s.counts && Dials(lim, s2, t, fs, r, ps)
    ensures Dials(lim, s, t, es + fs, r, ps)
  {
    hide Behaviour, Final;
    BehaviourJoins(lim, s, es, fs);
  }

  lemma StepNobody(lim: Limiter.Limits, s: Site, t: nat, key: nat, a: Attempt, k: nat)
    requires k < ATTEMPTS && key < TWO64 && CanDial(s, t, k) && !Select(s.pool, key, a.start).0.Picked?
    ensures forall r: DialResult :: !r.Dialed? ==> Dials(lim, s, t, [Pick(t, key, a.start)], r, Select(s.pool, key, a.start).1)
  {
    OneStep(lim, s, Pick(t, key, a.start));
    hide Select, Behaviour, Final;
  }

  lemma StepConnects(lim: Limiter.Limits, s: Site, t: nat, key: nat, a: Attempt, k: nat)
    requires k < ATTEMPTS && key < TWO64 && CanDial(s, t, k) && Select(s.pool, key, a.start).0.Picked?
    ensures var (o, used) := Select(s.pool, key, a.start);
            Dials(lim, s, t, [Pick(t, key, a.start), Connect(t, a.done)], Dialed(o.pos), Kept(used, o.pos, a.done))
  {
    hide Select, Kept, Behaviour, Final;
    TwoSteps(lim, s, Pick(t, key, a.start), Connect(t, a.done));
  }

  lemma StepFails(lim: Limiter.Limits, s: Site, t: nat, key: nat, a: Attempt, k: nat)
    requires k < ATTEMPTS && key < TWO64 && CanDial(s, t, k) && Select(s.pool, key, a.start).0.Picked?
    ensures var (o, used) := Select(s.pool, key, a.start);
            var (pick, fail) := (Pick(t, key, a.start), Fail(t, a.done));
            && Behaviour(lim, s, [pick, fail]) && Enabled(s, pick) && Enabled(Happen(lim, s, pick), fail)
            && var s2 := Happen(lim, Happen(lim, s, pick), fail);
               && Final(lim, s, [pick, fail]) == s2 && s2.pool == Settled(used, o.pos, a.done)
               && s2.counts == s.counts && CanDial(s2, t, k + 1)
  {
    hide Select, Settled, Behaviour, Final;
    TwoSteps(lim, s, Pick(t, key, a.start), Fail(t, a.done));
  }

  /** One attempt of a dial, and its steps. */
  lemma DialUnfolds(ps: PoolState, t: nat, key: nat, net: seq<Attempt>, k: nat)
    requires |net| == ATTEMPTS && k < ATTEMPTS
    ensures var (o, s) := Select(ps, key, net[k].start);
            var pick := Pick(t, key, net[k].start);
            if !o.Picked? then
              !Dial(ps, key, net, k).0.Dialed? && Dial(ps, key, net, k).1 == s && DialSteps(ps, t, key, net, k) == [pick]
            else if net[k].ok then
              && Dial(ps, key, net, k) == (Dialed(o.pos), Kept(s, o.pos, net[k].done))
              && DialSteps(ps, t, key, net, k) == [pick, Connect(t, net[k].done)]
            else
              var u := Settled(s, o.pos, net[k].done);
              && Dial(ps, key, net, k) == Dial(u, key, net, k + 1)
              && DialSteps(ps, t, key, net, k) == [pick, Fail(t, net[k].done)] + DialSteps(u, t, key, net, k + 1)
  {
    hide Select, Settled, Kept;
  }
}
