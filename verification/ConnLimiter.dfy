/** The limiter as an object, called by one thread at a time. */
module ConnLimiters {
  import opened Prelude
  import TokenBucket
  import opened Limiter
  import opened ConnLimits

  class IpState {
    var conns: int
    var tokens: int
    var lastAt: int

    ghost function View(): PerIP
      reads this
    {
      PerIP(conns, TokenBucket.Bucket(tokens, lastAt))
    }

    constructor ()
      ensures View() == NEW_PEER
    {
      conns, tokens, lastAt := 0, 0, 0;
    }
  }

  class ConnLimiter {
    const lim: Limits
    var global: int
    var perIP: map<string, IpState>

    /** No two addresses share an entry. */
    ghost predicate Valid()
      reads this
    {
      forall i, j :: i in perIP && j in perIP && i != j ==> perIP[i] != perIP[j]
    }

    ghost function View(): Counts
      reads this, perIP.Values
    {
      Counts(global, map ip | ip in perIP :: perIP[ip].View())
    }

    constructor (maxGlobal: int, maxPerIP: int, maxRPS: int)
      ensures Valid() && View() == Counts(0, map[])
      ensures lim == Limits(maxGlobal, maxPerIP, maxRPS)
    {
      lim := Limits(maxGlobal, maxPerIP, maxRPS);
      global := 0;
      perIP := map[];
    }

    /** The address's entry, made on first use. */
    method Entry(ip: string) returns (st: IpState)
      requires Valid()
      modifies this`perIP
      ensures Valid() && ip in perIP && perIP[ip] == st
      ensures fresh(perIP.Values - old(perIP.Values))
      ensures View() == old(View()).(per := old(View()).per[ip := EntryOf(old(View()), ip)])
    {
      ghost var before := View();
      if ip in perIP {
        st := perIP[ip];
      } else {
        st := new IpState();
        perIP := perIP[ip := st];
      }
      assert View().per == before.per[ip := EntryOf(before, ip)];
    }

    /** Takes one token of an entry, or refuses and leaves it alone. */
    method TakeToken(st: IpState, now: int) returns (ok: bool)
      requires lim.maxRPS > 0
      modifies st`tokens, st`lastAt
      ensures ok <==> TokenBucket.Grants(old(st.View()).bucket, lim.maxRPS, now)
      ensures st.View() == if ok then old(st.View()).(bucket := TokenBucket.Taken(old(st.View()).bucket, lim.maxRPS, now))
                           else old(st.View())
    {
      var last := st.lastAt;
      var add := TokenBucket.Earned(now - last, lim.maxRPS);
      var tokens := st.tokens + add;
      if tokens > lim.maxRPS {
        tokens := lim.maxRPS;
      }
      if tokens < 1 {
        return false;
      }
      st.tokens := tokens - 1;
      st.lastAt := now;
      ok := true;
    }

    method Acquire(ip: string, now: int) returns (a: Answer)
      requires Valid()
      modifies this, perIP.Values
      ensures Valid() && fresh(perIP.Values - old(perIP.Values))
      ensures (a, View()) == Acquired(lim, old(View()), ip, now)
    {
      hide TokenBucket.Grants, TokenBucket.Taken;
      ghost var before := View();
      global := global + 1;
      if lim.maxGlobal > 0 && global > lim.maxGlobal {
        global := global - 1;
        return Refused(GlobalLimit);
      }
      if ip == "" {
        assert View().per == before.per;
        return Answer.Granted;
      }
      assert View().per == before.per;
      a := AcquireFor(ip, now);
    }

    /** One connection and one token of an entry, or neither. */
    method TakeConn(st: IpState, now: int) returns (why: Option<Refusal>)
      modifies st
      ensures (why, st.View()) == Taking(lim, old(st.View()), now)
    {
      hide TokenBucket.Grants, TokenBucket.Taken;
      st.conns := st.conns + 1;
      if lim.maxPerIP > 0 && st.conns > lim.maxPerIP {
        st.conns := st.conns - 1;
        return Some(PerIPLimit);
      }
      if lim.maxRPS > 0 {
        var ok := TakeToken(st, now);
        if !ok {
          st.conns := st.conns - 1;
          return Some(RateLimit);
        }
      }
      why := None;
    }

    /** The part for a peer with an address, the global count taken. */
    method AcquireFor(ip: string, now: int) returns (a: Answer)
      requires Valid() && ip != ""
      requires lim.maxGlobal > 0 ==> global <= lim.maxGlobal
      modifies this, perIP.Values
      ensures Valid() && fresh(perIP.Values - old(perIP.Values))
      ensures (a, View()) == Acquired(lim, old(View()).(global := old(global) - 1), ip, now)
    {
      hide Taking;
      ghost var before := View();
      ghost var e := EntryOf(before, ip);
      var st := Entry(ip);
      assert st in perIP.Values;
      ghost var known := View();
      assert known.per[ip] == st.View() == e;
      var why := TakeConn(st, now);
      assert View().per == before.per[ip := st.View()];
      if why.Some? {
        global := global - 1;
        assert View().per == before.per[ip := st.View()];
        return Refused(why.value);
      }
      a := Answer.Granted;
    }

    method Release(ip: string)
      requires Valid()
      modifies this`global, perIP.Values
      ensures Valid() && perIP == old(perIP)
      ensures View() == ReleasedBy(old(View()), ip)
    {
      ghost var before := View();
      global := global - 1;
      if ip == "" {
        return;
      }
      if ip in perIP {
        assert perIP[ip] in perIP.Values;
        perIP[ip].conns := perIP[ip].conns - 1;
        assert View().per == before.per[ip := before.per[ip].(conns := before.per[ip].conns - 1)];
      }
    }
  }
}
