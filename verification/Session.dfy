/**
 One client session of the SOCKS server across the parts: the limiter, the
 handshake, the dial through the pool, and the releases at the end.
 */
module Session {
  import opened Prelude
  import Limiter
  import opened ConnLimits
  import opened Selection
  import opened Dialing
  import opened SocksWire
  import opened Handshake

  /** Everything a session shares with the others. */
  datatype World = World(counts: Counts, pool: PoolState)

  /** What the session's peer, clock and network bring. */
  datatype Inputs = Inputs(ip: string, key: nat, now: int, inp: seq<byte>, writes: nat, net: seq<Attempt>)

  /** The lease returned by a dial is released when the session ends. */
  function Returned(ps: PoolState, r: DialResult): PoolState
    requires r.Dialed? ==> r.pos < |ps.bs|
  {
    if r.Dialed? then
      ps.(bs := ps.bs[r.pos := ps.bs[r.pos].(inflight := ps.bs[r.pos].inflight - 1)])
    else ps
  }

  /** The bytes the session sends before any tunnelled ones, and the world after its deferred releases. */
  function Serve(lim: Limiter.Limits, lib: IpLib, auth: Auth, w: World, x: Inputs): (seq<byte>, World)
    requires |x.net| == ATTEMPTS
  {
    var (answer, held) := Acquired(lim, w.counts, x.ip, x.now);
    if answer != Answer.Granted then (Sent([], Reject(1), x.writes), World(held, w.pool))
    else
      var (r, used) := Dial(w.pool, x.key, x.net, 0);
      var s := Server(lib, auth, t => r.Dialed?, x.inp, x.writes);
      (s.out, World(ReleasedBy(held, x.ip), if s.dialed.Some? then Returned(used, r) else w.pool))
  }

  /** No session leaks: whatever the peer sends and the network does, every counter is back where it was. */
  lemma SessionLeaksNothing(lim: Limiter.Limits, lib: IpLib, auth: Auth, w: World, x: Inputs)
    requires |x.net| == ATTEMPTS && Counted(w.pool.bs) && x.key < TWO64 && w.pool.rr < TWO64
    ensures var w' := Serve(lim, lib, auth, w, x).1;
            && w'.counts.global == w.counts.global
            && (forall ip :: EntryOf(w'.counts, ip).conns == EntryOf(w.counts, ip).conns)
            && Loads(w.pool.bs, w'.pool.bs, None)
  {
    hide Dial, Server;
    var (answer, held) := Acquired(lim, w.counts, x.ip, x.now);
    DialKeepsOneLease(w.pool, x.key, x.net, 0);
    var (r, used) := Dial(w.pool, x.key, x.net, 0);
    assert Loads(w.pool.bs, Returned(used, r).bs, None);
    if answer == Answer.Granted {
      ReleaseUndoesAcquire(lim, w.counts, x.ip, x.now);
    }
  }

  /** A peer the limiter refuses is told so in one reply, and costs nothing. */
  lemma RefusedPeersAreTold(lim: Limiter.Limits, lib: IpLib, auth: Auth, w: World, x: Inputs)
    requires |x.net| == ATTEMPTS && Acquired(lim, w.counts, x.ip, x.now).0 != Answer.Granted
    ensures var (out, w') := Serve(lim, lib, auth, w, x);
            && out == (if x.writes == 0 then [] else [5, 1, 0, 1, 0, 0, 0, 0, 0, 0])
            && w'.counts.global == w.counts.global && w'.pool == w.pool
            && forall ip :: EntryOf(w'.counts, ip) == EntryOf(w.counts, ip)
  {
    AcquireTakesOneOfEach(lim, w.counts, x.ip, x.now);
    hide Dial, Server;
  }

  /** The pool is not touched for a peer the limiter refuses or a password server does not know. */
  lemma StrangersDoNotReachThePool(lim: Limiter.Limits, lib: IpLib, auth: Auth, w: World, x: Inputs)
    requires |x.net| == ATTEMPTS && Serve(lim, lib, auth, w, x).1.pool != w.pool
    ensures Acquired(lim, w.counts, x.ip, x.now).0 == Answer.Granted
    ensures auth.Password? ==>
              exists methods, ver, rest :: Credentials(auth, methods) && x.inp == Opening(auth, methods, ver) + rest
  {
    hide Dial, Server;
    var r := Dial(w.pool, x.key, x.net, 0).0;
    if auth.Password? {
      var methods, ver, rest := NothingIsDialedWithoutThePassword(lib, auth, t => r.Dialed?, x.inp, x.writes);
    }
  }
}
