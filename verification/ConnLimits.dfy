/** The limiter called by one thread at a time: its specification, and that the thread protocol computes it. */
module ConnLimits {
  import opened Prelude
  import opened TokenBucket
  import opened Limiter

  datatype PerIP = PerIP(conns: int, bucket: Bucket)

  datatype Counts = Counts(global: int, per: map<string, PerIP>)

  datatype Answer = Granted | Refused(why: Refusal)

  const NEW_PEER := PerIP(0, Bucket(0, 0))

  function EntryOf(c: Counts, ip: string): PerIP {
    if ip in c.per then c.per[ip] else NEW_PEER
  }

  /** One acquire. A refused request leaves the counters and tokens as they were; a first request leaves an entry. */
  function Acquired(lim: Limits, c: Counts, ip: string, now: int): (Answer, Counts) {
    if lim.maxGlobal > 0 && c.global + 1 > lim.maxGlobal then (Refused(GlobalLimit), c)
    else if ip == "" then (Answer.Granted, c.(global := c.global + 1))
    else
      var (why, e) := Taking(lim, EntryOf(c, ip), now);
      var known := c.(per := c.per[ip := e]);
      if why.Some? then (Refused(why.value), known)
      else (Answer.Granted, known.(global := c.global + 1))
  }

  /** One connection and one token of an address's entry, or a refusal and neither. */
  function Taking(lim: Limits, e: PerIP, now: int): (Option<Refusal>, PerIP) {
    if lim.maxPerIP > 0 && e.conns + 1 > lim.maxPerIP then (Some(PerIPLimit), e)
    else if lim.maxRPS > 0 && !Grants(e.bucket, lim.maxRPS, now) then (Some(RateLimit), e)
    else (None, PerIP(e.conns + 1, if lim.maxRPS > 0 then Taken(e.bucket, lim.maxRPS, now) else e.bucket))
  }

  function ReleasedBy(c: Counts, ip: string): Counts {
    var d := c.(global := c.global - 1);
    if ip == "" || ip !in c.per then d
    else d.(per := d.per[ip := d.per[ip].(conns := d.per[ip].conns - 1)])
  }

  predicate GlobalFull(lim: Limits, c: Counts) {
    lim.maxGlobal > 0 && c.global >= lim.maxGlobal
  }

  predicate AddressFull(lim: Limits, c: Counts, ip: string) {
    ip != "" && lim.maxPerIP > 0 && EntryOf(c, ip).conns >= lim.maxPerIP
  }

  /** Less than a whole token is left of what the address had and what its wait is worth. */
  predicate Dry(lim: Limits, c: Counts, ip: string, now: int) {
    var b := EntryOf(c, ip).bucket;
    ip != "" && lim.maxRPS > 0 && Refilled(b.tokens, lim.maxRPS, now - b.lastAt) < 1
  }

  /** When one caller is refused, and why: exactly when a positive limit is used up, the first of them in this order. */
  lemma RefusedExactlyAtALimit(lim: Limits, c: Counts, ip: string, now: int)
    ensures Acquired(lim, c, ip, now).0 ==
              if GlobalFull(lim, c) then Refused(GlobalLimit)
              else if AddressFull(lim, c, ip) then Refused(PerIPLimit)
              else if Dry(lim, c, ip, now) then Refused(RateLimit)
              else Answer.Granted
  {
    if lim.maxRPS > 0 { RefillIsAvailable(EntryOf(c, ip).bucket, lim.maxRPS, now); }
  }

  /** What an acquire does: granted, one connection in total, and one connection and one token of its address; refused, nothing. */
  lemma AcquireTakesOneOfEach(lim: Limits, c: Counts, ip: string, now: int)
    ensures var (a, d) := Acquired(lim, c, ip, now);
            var one := if a == Answer.Granted then 1 else 0;
            var (e, f) := (EntryOf(c, ip), EntryOf(d, ip));
            && d.global == c.global + one
            && (ip != "" ==> f.conns == e.conns + one)
            && (ip != "" && a == Answer.Granted && lim.maxRPS > 0 ==>
                  f.bucket == Bucket(Refilled(e.bucket.tokens, lim.maxRPS, now - e.bucket.lastAt) - 1, now))
            && (ip == "" || a != Answer.Granted || lim.maxRPS <= 0 ==> f.bucket == e.bucket)
            && forall other :: other != ip ==> EntryOf(d, other) == EntryOf(c, other)
  {
    if lim.maxRPS > 0 { RefillIsAvailable(EntryOf(c, ip).bucket, lim.maxRPS, now); }
  }

  /** A new peer starts without tokens at time 0, the epoch; from a second on it may make a full burst. */
  lemma NewPeersMayBurst(lim: Limits, c: Counts, ip: string, now: int)
    requires ip != "" && ip !in c.per && lim.maxRPS > 0 && now >= SECOND
    ensures EntryOf(c, ip).conns == 0 && Refilled(EntryOf(c, ip).bucket.tokens, lim.maxRPS, now - EntryOf(c, ip).bucket.lastAt) == lim.maxRPS
  {
    FullAfterASecond(EntryOf(c, ip).bucket, lim.maxRPS, now);
    RefillIsAvailable(EntryOf(c, ip).bucket, lim.maxRPS, now);
  }

  /** A release undoes an acquire, tokens aside, and neither touches any other address. */
  lemma ReleaseUndoesAcquire(lim: Limits, c: Counts, ip: string, now: int)
    requires Acquired(lim, c, ip, now).0 == Answer.Granted
    ensures var d := ReleasedBy(Acquired(lim, c, ip, now).1, ip);
            && d.global == c.global
            && EntryOf(d, ip).conns == EntryOf(c, ip).conns
            && forall other :: other != ip ==> EntryOf(d, other) == EntryOf(c, other)
  {}

  /** What a release does, whatever it is called with: one connection less in total, and one less of an address that is known. */
  lemma ReleaseGivesOneOfEach(c: Counts, ip: string)
    ensures var d := ReleasedBy(c, ip);
            && d.global == c.global - 1 && d.per.Keys == c.per.Keys
            && (ip != "" && ip in c.per ==> d.per[ip] == PerIP(c.per[ip].conns - 1, c.per[ip].bucket))
            && forall other :: other in c.per && (other != ip || ip == "") ==> d.per[other] == c.per[other]
  {}

  // ------------------------------------ the protocol, run by one thread alone

  predicate AtRest(p: PC) {
    p.Leased? || p.Finished? || p.Rejected?
  }

  /** Up to `n` moves of one thread with nobody else moving. */
  function Alone(lim: Limits, sh: Shared, t: nat, p: PC, n: nat): (Shared, PC)
    decreases n
  {
    if n == 0 || AtRest(p) || !CanMove(sh, p) then (sh, p)
    else
      var (sh', p') := Next(lim, sh, t, p);
      Alone(lim, sh', t, p', n - 1)
  }

  predicate WellKept(sh: Shared) {
    && MapsOnto(sh)
    && (forall i, j :: i in sh.perIP && j in sh.perIP && i != j ==> sh.perIP[i] != sh.perIP[j])
    && (forall c :: c in sh.cells ==> c < sh.nextCell && sh.cells[c].holder.None?)
  }

  predicate MapsOnto(sh: Shared) {
    forall ip :: ip in sh.perIP ==> sh.perIP[ip] in sh.cells
  }

  function Seen(sh: Shared): Counts
    requires MapsOnto(sh)
  {
    Counts(sh.global, map ip | ip in sh.perIP :: PerIP(sh.cells[sh.perIP[ip]].conns, sh.cells[sh.perIP[ip]].bucket))
  }

  function AnswerOf(p: PC): Answer {
    if p.Rejected? then Refused(p.why) else Answer.Granted
  }

  lemma AloneStep(lim: Limits, sh: Shared, t: nat, p: PC, n: nat)
    requires n > 0 && !AtRest(p) && CanMove(sh, p)
    ensures var (sh', p') := Next(lim, sh, t, p); Alone(lim, sh, t, p, n) == Alone(lim, sh', t, p', n - 1)
  {}

  lemma AloneRest(lim: Limits, sh: Shared, t: nat, p: PC, n: nat)
    requires AtRest(p)
    ensures Alone(lim, sh, t, p, n) == (sh, p)
  {}

  lemma AloneUndo(lim: Limits, sh: Shared, t: nat, ip: string, c: nat, why: Refusal, n: nat)
    requires c in sh.cells && n >= 2
    ensures Alone(lim, sh, t, UndoConn(ip, c, why), n)
         == (SetCell(sh, c, sh.cells[c].(conns := sh.cells[c].conns - 1)).(global := sh.global - 1), Rejected(ip, why))
  {
    AloneStep(lim, sh, t, UndoConn(ip, c, why), n);
    var sh1 := SetCell(sh, c, sh.cells[c].(conns := sh.cells[c].conns - 1));
    AloneStep(lim, sh1, t, UndoGlobal(ip, why), n - 1);
    AloneRest(lim, sh1.(global := sh1.global - 1), t, Rejected(ip, why), n - 2);
  }

  /** Locking and reading, up to the decision. */
  lemma AloneRead(lim: Limits, sh: Shared, t: nat, ip: string, c: nat, n: nat)
    requires c in sh.cells && sh.cells[c].holder.None? && n >= 8
    ensures var sh1 := SetCell(sh, c, sh.cells[c].(holder := Some(t)));
            var tokens := Available(sh.cells[c].bucket, lim.maxRPS, sh.clock);
            Alone(lim, sh, t, WantLock(ip, c), n)
            == Alone(lim, sh1, t, if tokens < 1 then Unlock(ip, c, false) else WriteTokens(ip, c, sh.clock, tokens), n - 4)
  {
    hide Alone, Earned;
    var cell := sh.cells[c];
    var sh1 := SetCell(sh, c, cell.(holder := Some(t)));
    AloneStep(lim, sh, t, WantLock(ip, c), n);
    AloneStep(lim, sh1, t, ReadClock(ip, c), n - 1);
    AloneStep(lim, sh1, t, ReadLast(ip, c, sh.clock), n - 2);
    AloneStep(lim, sh1, t, ReadTokens(ip, c, sh.clock, cell.bucket.lastAt), n - 3);
  }

  /** The critical section, start to end, is one take from the bucket. */
  lemma AloneBucket(lim: Limits, sh: Shared, t: nat, ip: string, c: nat, n: nat)
    requires c in sh.cells && sh.cells[c].holder.None? && lim.maxRPS > 0 && ip != "" && n >= 8
    ensures var (sh', p') := Alone(lim, sh, t, WantLock(ip, c), n);
            var cell := sh.cells[c];
            if Grants(cell.bucket, lim.maxRPS, sh.clock) then
              && p' == Leased(ip)
              && sh' == SetCell(sh, c, cell.(bucket := Taken(cell.bucket, lim.maxRPS, sh.clock), log := cell.log + [sh.clock]))
            else
              && p' == Rejected(ip, RateLimit)
              && sh' == SetCell(sh, c, cell.(conns := cell.conns - 1)).(global := sh.global - 1)
  {
    hide Alone, Earned;
    var cell := sh.cells[c];
    var now := sh.clock;
    var sh1 := SetCell(sh, c, cell.(holder := Some(t)));
    AloneRead(lim, sh, t, ip, c, n);
    var tokens := Available(cell.bucket, lim.maxRPS, now);
    if tokens >= 1 {
      var sh2 := SetCell(sh1, c, sh1.cells[c].(bucket := cell.bucket.(tokens := tokens - 1), log := cell.log + [now]));
      AloneStep(lim, sh1, t, WriteTokens(ip, c, now, tokens), n - 4);
      var sh3 := SetCell(sh2, c, sh2.cells[c].(bucket := Bucket(tokens - 1, now)));
      AloneStep(lim, sh2, t, WriteLast(ip, c, now), n - 5);
      AloneStep(lim, sh3, t, Unlock(ip, c, true), n - 6);
      var sh4 := SetCell(sh3, c, sh3.cells[c].(holder := None));
      AloneRest(lim, sh4, t, Leased(ip), n - 7);
      assert sh4.cells
          == sh.cells[c := cell.(bucket := Bucket(tokens - 1, now), log := cell.log + [now])];
    } else {
      AloneStep(lim, sh1, t, Unlock(ip, c, false), n - 4);
      var sh2 := SetCell(sh1, c, sh1.cells[c].(holder := None));
      assert sh2.cells == sh.cells;
      assert sh2 == sh;
      AloneUndo(lim, sh, t, ip, c, RateLimit, n - 5);
    }
  }

  /** Only the address's own cell changed, so only its own entry did. */
  lemma SeenAfter(sh: Shared, sh': Shared, ip: string, c: nat)
    requires WellKept(sh) && ip in sh.perIP && sh.perIP[ip] == c
    requires sh'.perIP == sh.perIP && c in sh'.cells && sh'.cells == sh.cells[c := sh'.cells[c]]
    ensures MapsOnto(sh') && Seen(sh').per == Seen(sh).per[ip := PerIP(sh'.cells[c].conns, sh'.cells[c].bucket)]
  {}

  lemma AloneAddConn(lim: Limits, sh: Shared, t: nat, ip: string, c: nat, n: nat)
    requires c in sh.cells && sh.cells[c].holder.None? && ip != "" && n >= 9
    ensures var cell := sh.cells[c];
            var more := cell.(conns := cell.conns + 1);
            Alone(lim, sh, t, AddConn(ip, c), n) ==
              if lim.maxPerIP > 0 && cell.conns + 1 > lim.maxPerIP then
                (sh.(global := sh.global - 1), Rejected(ip, PerIPLimit))
              else if lim.maxRPS > 0 && !Grants(cell.bucket, lim.maxRPS, sh.clock) then
                (sh.(global := sh.global - 1), Rejected(ip, RateLimit))
              else if lim.maxRPS > 0 then
                (SetCell(sh, c, more.(bucket := Taken(cell.bucket, lim.maxRPS, sh.clock), log := cell.log + [sh.clock])), Leased(ip))
              else (SetCell(sh, c, more), Leased(ip))
  {
    hide Alone, Earned, Available;
    var cell := sh.cells[c];
    var sh1 := SetCell(sh, c, cell.(conns := cell.conns + 1));
    AloneStep(lim, sh, t, AddConn(ip, c), n);
    assert sh1.cells[c := cell] == sh.cells;
    if lim.maxPerIP > 0 && cell.conns + 1 > lim.maxPerIP {
      AloneUndo(lim, sh1, t, ip, c, PerIPLimit, n - 1);
    } else if lim.maxRPS > 0 {
      AloneBucket(lim, sh1, t, ip, c, n - 1);
      hide Grants, Taken;
      var more := sh1.cells[c].(bucket := Taken(cell.bucket, lim.maxRPS, sh.clock), log := cell.log + [sh.clock]);
      assert sh1.cells[c := more] == sh.cells[c := more];
    } else {
      AloneRest(lim, sh1, t, Leased(ip), n - 1);
    }
  }

  /** From the connection count on. */
  lemma AloneConn(lim: Limits, sh: Shared, t: nat, ip: string, c: nat, before: Counts, n: nat)
    requires WellKept(sh) && ip != "" && ip in sh.perIP && sh.perIP[ip] == c && n >= 9
    requires sh.global == before.global + 1
    requires Seen(sh).per == before.per[ip := EntryOf(before, ip)]
    requires lim.maxGlobal > 0 ==> before.global + 1 <= lim.maxGlobal
    ensures var (sh', p') := Alone(lim, sh, t, AddConn(ip, c), n);
            && AtRest(p') && MapsOnto(sh')
            && (AnswerOf(p'), Seen(sh')) == Acquired(lim, before, ip, sh.clock)
  {
    hide Alone, Earned, Available, Grants, Taken;
    AloneAddConn(lim, sh, t, ip, c, n);
    var (sh', p') := Alone(lim, sh, t, AddConn(ip, c), n);
    var e := EntryOf(before, ip);
    assert Seen(sh).per[ip] == e;
    if p'.Leased? {
      SeenAfter(sh, sh', ip, c);
      assert before.per[ip := e][ip := Seen(sh').per[ip]] == before.per[ip := Seen(sh').per[ip]];
    } else {
      assert Seen(sh').per == Seen(sh).per;
    }
  }

  lemma KnownCell(sh: Shared, ip: string)
    requires WellKept(sh) && ip in sh.perIP
    ensures var counted := sh.(global := sh.global + 1);
            WellKept(counted) && MapsOnto(sh) && MapsOnto(counted)
            && Seen(counted).per == Seen(sh).per[ip := EntryOf(Seen(sh), ip)]
  {}

  /** A new cell, published, is the new peer's entry. */
  lemma FreshCell(sh: Shared, ip: string)
    requires WellKept(sh) && ip !in sh.perIP
    ensures var c := sh.nextCell;
            var added := sh.(global := sh.global + 1, cells := sh.cells[c := NEW_CELL], nextCell := c + 1,
                           perIP := sh.perIP[ip := c]);
            WellKept(added) && MapsOnto(sh) && Seen(added).per == Seen(sh).per[ip := EntryOf(Seen(sh), ip)]
  {}

  /** From the entry's lookup on; a first request publishes a new cell. */
  lemma AloneFromLookup(lim: Limits, sh: Shared, t: nat, ip: string)
    requires WellKept(sh) && ip != "" && (lim.maxGlobal > 0 ==> sh.global + 1 <= lim.maxGlobal)
    ensures var (sh', p') := Alone(lim, sh.(global := sh.global + 1), t, Lookup(ip), 11);
            && AtRest(p') && MapsOnto(sh')
            && (AnswerOf(p'), Seen(sh')) == Acquired(lim, Seen(sh), ip, sh.clock)
  {
    hide Alone, Earned, Available, Grants, Taken, Acquired;
    var sh1 := sh.(global := sh.global + 1);
    AloneStep(lim, sh1, t, Lookup(ip), 11);
    if ip in sh.perIP {
      hide Next, WellKept, MapsOnto;
      KnownCell(sh, ip);
      AloneConn(lim, sh1, t, ip, sh.perIP[ip], Seen(sh), 10);
    } else {
      var c := sh.nextCell;
      var sh2 := sh1.(cells := sh1.cells[c := NEW_CELL], nextCell := c + 1);
      AloneStep(lim, sh2, t, Publish(ip, c), 10);
      hide Next, WellKept, MapsOnto;
      FreshCell(sh, ip);
      AloneConn(lim, sh2.(perIP := sh2.perIP[ip := c]), t, ip, c, Seen(sh), 9);
    }
  }

  /** One thread alone acquires exactly as specified: the protocol refines the sequential limiter. */
  lemma AcquireAlone(lim: Limits, sh: Shared, t: nat, ip: string)
    requires WellKept(sh)
    ensures var (sh', p') := Alone(lim, sh, t, Arrived(ip), 12);
            && AtRest(p') && MapsOnto(sh')
            && (AnswerOf(p'), Seen(sh')) == Acquired(lim, Seen(sh), ip, sh.clock)
  {
    hide Alone, Earned, Available, Grants, Taken;
    var sh1 := sh.(global := sh.global + 1);
    AloneStep(lim, sh, t, Arrived(ip), 12);
    if lim.maxGlobal > 0 && sh1.global > lim.maxGlobal {
      AloneStep(lim, sh1, t, UndoGlobal(ip, GlobalLimit), 11);
      AloneRest(lim, sh, t, Rejected(ip, GlobalLimit), 10);
    } else if ip == "" {
      AloneRest(lim, sh1, t, Leased(ip), 11);
    } else {
      hide Next, Acquired, MapsOnto;
      AloneFromLookup(lim, sh, t, ip);
    }
  }

  /** And releases as specified. */
  lemma ReleaseAlone(lim: Limits, sh: Shared, t: nat, ip: string)
    requires WellKept(sh)
    ensures var (sh1, p1) := Next(lim, sh, t, Leased(ip));
            var (sh', p') := Alone(lim, sh1, t, p1, 2);
            p' == Finished(ip) && MapsOnto(sh') && Seen(sh') == ReleasedBy(Seen(sh), ip)
  {
    hide Alone;
    var (sh1, p1) := Next(lim, sh, t, Leased(ip));
    if ip == "" {
      AloneRest(lim, sh1, t, p1, 2);
    } else {
      AloneStep(lim, sh1, t, DropLookup(ip), 2);
      if ip in sh.perIP {
        var c := sh.perIP[ip];
        AloneStep(lim, sh1, t, DropConn(ip, c), 1);
        var sh2 := SetCell(sh1, c, sh1.cells[c].(conns := sh1.cells[c].conns - 1));
        AloneRest(lim, sh2, t, Finished(ip), 0);
        SeenAfter(sh1, sh2, ip, c);
      } else {
        AloneRest(lim, sh1, t, Finished(ip), 1);
      }
    }
  }

  /** Whatever interleaving came before, a limiter at rest is in a state the two lemmas above start from. */
  lemma RestIsWellKept(lim: Limits, s: State)
    requires Reachable(lim, s) && Quiescent(s)
    ensures WellKept(s.sh)
  {
    ReachableInv(lim, s);
    forall c | c in s.sh.cells ensures s.sh.cells[c].holder.None? {
      forall t: nat ensures s.sh.cells[c].holder != Some(t) {
        assert LockAt(s, c, t);
      }
    }
  }
}
