/**
 The connection limiter under any interleaving: each step is one atomic
 operation (or one bucket access under the address's mutex) of one thread that
 acquires and later releases a lease.
 */
module Limiter {
  import opened Prelude
  import opened Threads
  import opened TokenBucket

  datatype Refusal = GlobalLimit | PerIPLimit | RateLimit

  /** What the next step of a thread will be. An empty `ip` is a peer without an address. */
  datatype PC =
    | Arrived(ip: string)                                    // add one to the global counter
    | Lookup(ip: string)                                     // load the address's cell
    | Publish(ip: string, cell: nat)                         // load-or-store a new cell
    | AddConn(ip: string, cell: nat)                         // add one to the cell's connections
    | WantLock(ip: string, cell: nat)                        // lock the cell's bucket
    | ReadClock(ip: string, cell: nat)
    | ReadLast(ip: string, cell: nat, now: int)
    | ReadTokens(ip: string, cell: nat, now: int, last: int) // and decide
    | WriteTokens(ip: string, cell: nat, now: int, tokens: int)
    | WriteLast(ip: string, cell: nat, now: int)
    | Unlock(ip: string, cell: nat, granted: bool)
    | UndoConn(ip: string, cell: nat, why: Refusal)          // take the connection back
    | UndoGlobal(ip: string, why: Refusal)                   // take the global count back
    | Leased(ip: string)                                     // release: take the global count back
    | DropLookup(ip: string)                                 // release: load the cell
    | DropConn(ip: string, cell: nat)                        // release: take the connection back
    | Finished(ip: string)
    | Rejected(ip: string, why: Refusal)

  datatype Limits = Limits(maxGlobal: int, maxPerIP: int, maxRPS: int)

  /** `log` records the clock readings of the requests this cell has granted. */
  datatype Cell = Cell(conns: int, bucket: Bucket, holder: Option<nat>, log: seq<int>)

  datatype Shared = Shared(global: int, perIP: map<string, nat>, cells: map<nat, Cell>, nextCell: nat, clock: int)

  datatype State = State(sh: Shared, threads: map<nat, PC>)

  datatype Action = Spawn(t: nat, ip: string) | Move(t: nat) | Pass(span: nat)

  const NEW_CELL := Cell(0, Bucket(0, 0), None, [])

  // ------------------------------------------------------------- the steps

  predicate HasCell(p: PC) {
    || p.Publish? || p.AddConn? || p.WantLock? || p.DropConn? || p.UndoConn? || InLock(p)
  }

  /** The critical section of the bucket mutex. */
  predicate InLock(p: PC) {
    p.ReadClock? || p.ReadLast? || p.ReadTokens? || p.WriteTokens? || p.WriteLast? || p.Unlock?
  }

  predicate CanMove(sh: Shared, p: PC) {
    && !p.Finished? && !p.Rejected?
    && (HasCell(p) ==> p.cell in sh.cells)
    && (p.WantLock? ==> sh.cells[p.cell].holder.None?)
  }

  function SetCell(sh: Shared, c: nat, cell: Cell): Shared {
    sh.(cells := sh.cells[c := cell])
  }

  function Next(lim: Limits, sh: Shared, t: nat, p: PC): (Shared, PC)
    requires CanMove(sh, p)
  {
    match p
    case Arrived(ip) =>
      var g := sh.global + 1;
      (sh.(global := g),
       if lim.maxGlobal > 0 && g > lim.maxGlobal then UndoGlobal(ip, GlobalLimit)
       else if ip == "" then Leased(ip)
       else Lookup(ip))
    case Lookup(ip) =>
      if ip in sh.perIP then (sh, AddConn(ip, sh.perIP[ip]))
      else (sh.(cells := sh.cells[sh.nextCell := NEW_CELL], nextCell := sh.nextCell + 1), Publish(ip, sh.nextCell))
    case Publish(ip, c) =>
      if ip in sh.perIP then (sh, AddConn(ip, sh.perIP[ip]))
      else (sh.(perIP := sh.perIP[ip := c]), AddConn(ip, c))
    case AddConn(ip, c) =>
      var n := sh.cells[c].conns + 1;
      (SetCell(sh, c, sh.cells[c].(conns := n)),
       if lim.maxPerIP > 0 && n > lim.maxPerIP then UndoConn(ip, c, PerIPLimit)
       else if lim.maxRPS > 0 then WantLock(ip, c)
       else Leased(ip))
    case WantLock(ip, c) =>
      (SetCell(sh, c, sh.cells[c].(holder := Some(t))), ReadClock(ip, c))
    case ReadClock(ip, c) => (sh, ReadLast(ip, c, sh.clock))
    case ReadLast(ip, c, now) => (sh, ReadTokens(ip, c, now, sh.cells[c].bucket.lastAt))
    case ReadTokens(ip, c, now, last) =>
      var tokens := Min(sh.cells[c].bucket.tokens + Earned(now - last, lim.maxRPS), lim.maxRPS);
      (sh, if tokens < 1 then Unlock(ip, c, false) else WriteTokens(ip, c, now, tokens))
    case WriteTokens(ip, c, now, tokens) =>
      var cell := sh.cells[c];
      (SetCell(sh, c, cell.(bucket := cell.bucket.(tokens := tokens - 1), log := cell.log + [now])),
       WriteLast(ip, c, now))
    case WriteLast(ip, c, now) =>
      var cell := sh.cells[c];
      (SetCell(sh, c, cell.(bucket := cell.bucket.(lastAt := now))), Unlock(ip, c, true))
    case Unlock(ip, c, granted) =>
      (SetCell(sh, c, sh.cells[c].(holder := None)),
       if granted then Leased(ip) else UndoConn(ip, c, RateLimit))
    case UndoConn(ip, c, why) =>
      (SetCell(sh, c, sh.cells[c].(conns := sh.cells[c].conns - 1)), UndoGlobal(ip, why))
    case UndoGlobal(ip, why) => (sh.(global := sh.global - 1), Rejected(ip, why))
    case Leased(ip) =>
      (sh.(global := sh.global - 1), if ip == "" then Finished(ip) else DropLookup(ip))
    case DropLookup(ip) =>
      if ip in sh.perIP then (sh, DropConn(ip, sh.perIP[ip])) else (sh, Finished(ip))
    case DropConn(ip, c) =>
      (SetCell(sh, c, sh.cells[c].(conns := sh.cells[c].conns - 1)), Finished(ip))
    case _ => (sh, p)
  }

  predicate Enabled(s: State, a: Action) {
    match a
    case Spawn(t, ip) => t !in s.threads
    case Move(t) => t in s.threads && CanMove(s.sh, s.threads[t])
    case Pass(_) => true
  }

  function Step(lim: Limits, s: State, a: Action): State
    requires Enabled(s, a)
  {
    match a
    case Spawn(t, ip) => s.(threads := s.threads[t := Arrived(ip)])
    case Move(t) =>
      var (sh, p) := Next(lim, s.sh, t, s.threads[t]);
      State(sh, s.threads[t := p])
    case Pass(span) => s.(sh := s.sh.(clock := s.sh.clock + span))
  }

  function Init(clock: int): State {
    State(Shared(0, map[], map[], 0, clock), map[])
  }

  predicate Behaviour(lim: Limits, s: State, acts: seq<Action>)
    decreases |acts|
  {
    acts == [] || (Enabled(s, acts[0]) && Behaviour(lim, Step(lim, s, acts[0]), acts[1..]))
  }

  function Final(lim: Limits, s: State, acts: seq<Action>): State
    requires Behaviour(lim, s, acts)
    decreases |acts|
  {
    if acts == [] then s else Final(lim, Step(lim, s, acts[0]), acts[1..])
  }

  // ----------------------------------------------------- who holds what

  /** Has added to the global counter and not yet subtracted. */
  predicate HoldsGlobal(p: PC) {
    !(p.Arrived? || p.Rejected? || p.Finished? || p.DropLookup? || p.DropConn?)
  }

  /** Holds the global counter and has passed its check. */
  predicate PassedGlobal(p: PC) {
    HoldsGlobal(p) && !p.UndoGlobal?
  }

  /** Has added to some cell's connections and not yet subtracted. */
  predicate HoldsConn(p: PC) {
    p.WantLock? || InLock(p) || p.UndoConn? || (p.Leased? && p.ip != "") || p.DropLookup? || p.DropConn?
  }

  /** Was granted by the bucket, whatever it did since. */
  predicate Granted(p: PC) {
    && p.ip != ""
    && (p.WriteLast? || (p.Unlock? && p.granted) || p.Leased? || p.DropLookup? || p.DropConn? || p.Finished?)
  }

  ghost function GlobalHolders(): PC -> bool { p => HoldsGlobal(p) }
  ghost function GlobalPassed(): PC -> bool { p => PassedGlobal(p) }
  ghost function AllLeased(): PC -> bool { (p: PC) => p.Leased? }
  ghost function ConnHolders(ip: string): PC -> bool { p => HoldsConn(p) && p.ip == ip }
  ghost function ConnPassed(ip: string): PC -> bool { p => HoldsConn(p) && !p.UndoConn? && p.ip == ip }
  ghost function LeasedFrom(ip: string): PC -> bool { (p: PC) => p.Leased? && p.ip == ip }
  ghost function GrantedTo(ip: string): PC -> bool { p => Granted(p) && p.ip == ip }

  // ---------------------------------------------------------- invariants

  /** Counters and cells belong together: one cell per address, private cells untouched and unshared. */
  ghost predicate CellsInv(s: State) {
    && MapsInv(s.sh)
    && (forall t :: t in s.threads ==> ThreadCellInv(s, t, s.threads[t]))
  }

  ghost predicate ThreadCellInv(s: State, t: nat, p: PC) {
    && (HasCell(p) ==> p.ip != "" && p.cell in s.sh.cells)
    && (HasCell(p) && !p.Publish? ==> p.ip in s.sh.perIP && s.sh.perIP[p.ip] == p.cell)
    && (p.Lookup? || p.DropLookup? ==> p.ip != "")
    && (p.DropLookup? || (p.Leased? && p.ip != "") ==> p.ip in s.sh.perIP)
    && (p.Publish? ==>
          && s.sh.cells[p.cell] == NEW_CELL
          && (forall ip :: ip in s.sh.perIP ==> s.sh.perIP[ip] != p.cell)
          && (forall u :: u in s.threads && u != t && s.threads[u].Publish? ==> s.threads[u].cell != p.cell))
  }

  ghost predicate GlobalInv(lim: Limits, s: State) {
    && s.sh.global == Count(s.threads, GlobalHolders())
    && (lim.maxGlobal > 0 ==> Count(s.threads, GlobalPassed()) <= lim.maxGlobal)
  }

  /** The connections of one address are counted exactly, and those that passed the check are within the limit. */
  ghost predicate ConnAt(lim: Limits, s: State, ip: string) {
    && (ip in s.sh.perIP && s.sh.perIP[ip] in s.sh.cells ==>
          s.sh.cells[s.sh.perIP[ip]].conns == Count(s.threads, ConnHolders(ip)))
    && (ip !in s.sh.perIP ==> Count(s.threads, ConnHolders(ip)) == 0)
    && (lim.maxPerIP > 0 ==> Count(s.threads, ConnPassed(ip)) <= lim.maxPerIP)
  }

  ghost predicate ConnInv(lim: Limits, s: State) {
    forall ip :: ConnAt(lim, s, ip)
  }

  /** A step moves one thread; the rest of the table stays. */
  lemma StepMoves(lim: Limits, s: State, a: Action)
    requires Enabled(s, a) && !a.Pass?
    ensures var s' := Step(lim, s, a);
            a.t in s'.threads && s'.threads == s.threads[a.t := s'.threads[a.t]]
  {}

  lemma StepKeepsGlobal(lim: Limits, s: State, a: Action)
    requires Enabled(s, a) && GlobalInv(lim, s)
    ensures GlobalInv(lim, Step(lim, s, a))
  {
    var s' := Step(lim, s, a);
    if !a.Pass? {
      StepMoves(lim, s, a);
      CountMove(s.threads, a.t, s'.threads[a.t], GlobalHolders());
      CountMove(s.threads, a.t, s'.threads[a.t], GlobalPassed());
      CountLess(s'.threads, GlobalPassed(), GlobalHolders());
    }
  }

  lemma StepKeepsCells(lim: Limits, s: State, a: Action)
    requires Enabled(s, a) && CellsInv(s)
    ensures CellsInv(Step(lim, s, a))
  {
    var s' := Step(lim, s, a);
    hide CellsInv;
    MapsStayGood(lim, s, a);
    forall u | u in s'.threads ensures ThreadCellInv(s', u, s'.threads[u]) {
      ThreadStaysGood(lim, s, a, u);
    }
    CellsInvFrom(s');
  }

  ghost predicate MapsInv(sh: Shared) {
    && (forall ip :: ip in sh.perIP ==> sh.perIP[ip] in sh.cells && ip != "")
    && (forall i, j :: i in sh.perIP && j in sh.perIP && i != j ==> sh.perIP[i] != sh.perIP[j])
    && (forall c :: c in sh.cells ==> c < sh.nextCell)
  }

  lemma CellsInvFrom(s: State)
    requires MapsInv(s.sh) && forall t :: t in s.threads ==> ThreadCellInv(s, t, s.threads[t])
    ensures CellsInv(s)
  {}

  lemma MapsStayGood(lim: Limits, s: State, a: Action)
    requires Enabled(s, a) && CellsInv(s)
    ensures MapsInv(Step(lim, s, a).sh)
  {
    if a.Move? { assert ThreadCellInv(s, a.t, s.threads[a.t]); }
  }

  /** What a move can do to the shared maps. */
  lemma NextShape(lim: Limits, sh: Shared, t: nat, p: PC)
    requires CanMove(sh, p)
    ensures var (sh', p') := Next(lim, sh, t, p);
            && p'.ip == p.ip
            && (sh'.perIP == sh.perIP || (p.Publish? && p.ip !in sh.perIP && sh'.perIP == sh.perIP[p.ip := p.cell]))
            && (forall c :: c in sh.cells ==> c in sh'.cells && ((HasCell(p) && !p.Publish? && c == p.cell)
                                                               || (p.Lookup? && c == sh.nextCell)
                                                               || sh'.cells[c] == sh.cells[c]))
            && (p'.Publish? ==>
                  && p.Lookup? && p'.cell == sh.nextCell && sh'.perIP == sh.perIP
                  && p'.cell in sh'.cells && sh'.cells[p'.cell] == NEW_CELL)
  {}

  lemma ThreadStaysGood(lim: Limits, s: State, a: Action, u: nat)
    requires Enabled(s, a) && CellsInv(s) && u in Step(lim, s, a).threads
    ensures ThreadCellInv(Step(lim, s, a), u, Step(lim, s, a).threads[u])
  {
    if a.Move? {
      if u == a.t { MoverStaysGood(lim, s, u); } else { BystanderStaysGood(lim, s, a.t, u); }
    } else if u in s.threads {
      assert ThreadCellInv(s, u, s.threads[u]);
    }
  }

  lemma BystanderStaysGood(lim: Limits, s: State, t: nat, u: nat)
    requires Enabled(s, Move(t)) && CellsInv(s) && u in s.threads && u != t
    ensures ThreadCellInv(Step(lim, s, Move(t)), u, s.threads[u])
  {
    NextShape(lim, s.sh, t, s.threads[t]);
    hide Next;
    assert ThreadCellInv(s, u, s.threads[u]);
    assert ThreadCellInv(s, t, s.threads[t]);
  }

  lemma MoverStaysGood(lim: Limits, s: State, t: nat)
    requires Enabled(s, Move(t)) && CellsInv(s)
    ensures ThreadCellInv(Step(lim, s, Move(t)), t, Step(lim, s, Move(t)).threads[t])
  {
    var p := s.threads[t];
    assert ThreadCellInv(s, t, p);
    if p.Lookup? {
      NextShape(lim, s.sh, t, p);
      NobodyHasTheNewCell(s);
    } else {
      var (sh', p') := Next(lim, s.sh, t, p);
      assert !p'.Publish?;
    }
  }

  lemma NobodyHasTheNewCell(s: State)
    requires CellsInv(s)
    ensures forall u :: u in s.threads && s.threads[u].Publish? ==> s.threads[u].cell < s.sh.nextCell
  {
    forall u | u in s.threads && s.threads[u].Publish? ensures s.threads[u].cell < s.sh.nextCell {
      assert ThreadCellInv(s, u, s.threads[u]);
    }
  }

  lemma StepKeepsConns(lim: Limits, s: State, a: Action)
    requires Enabled(s, a) && CellsInv(s) && ConnInv(lim, s)
    ensures ConnInv(lim, Step(lim, s, a))
  {
    forall ip ensures ConnAt(lim, Step(lim, s, a), ip) {
      ConnStep(lim, s, a, ip);
    }
  }

  /** What a move adds to the connections of its cell. */
  function ConnDelta(p: PC): int {
    if p.AddConn? then 1 else if p.UndoConn? || p.DropConn? then -1 else 0
  }

  lemma NextConns(lim: Limits, sh: Shared, t: nat, p: PC)
    requires CanMove(sh, p) && (p.DropLookup? ==> p.ip in sh.perIP) && (HasCell(p) ==> p.ip != "")
    ensures var (sh', p') := Next(lim, sh, t, p);
            && One(HoldsConn(p')) - One(HoldsConn(p)) == ConnDelta(p)
            && (HoldsConn(p') && !p'.UndoConn? ==>
                  (HoldsConn(p) && !p.UndoConn?)
                  || (p.AddConn? && (lim.maxPerIP > 0 ==> sh'.cells[p.cell].conns <= lim.maxPerIP)))
            && forall c :: c in sh.cells && c != sh.nextCell ==>
                 c in sh'.cells && sh'.cells[c].conns == sh.cells[c].conns + (if HasCell(p) && c == p.cell then ConnDelta(p) else 0)
  {}

  lemma ConnStep(lim: Limits, s: State, a: Action, ip: string)
    requires Enabled(s, a) && CellsInv(s) && ConnAt(lim, s, ip)
    ensures ConnAt(lim, Step(lim, s, a), ip)
  {
    var s' := Step(lim, s, a);
    if !a.Pass? {
      var p' := s'.threads[a.t];
      StepMoves(lim, s, a);
      CountMove(s.threads, a.t, p', ConnHolders(ip));
      CountMove(s.threads, a.t, p', ConnPassed(ip));
      CountLess(s'.threads, ConnPassed(ip), ConnHolders(ip));
      if a.Move? {
        var p := s.threads[a.t];
        assert ThreadCellInv(s, a.t, p);
        NextConns(lim, s.sh, a.t, p);
        NextShape(lim, s.sh, a.t, p);
        hide Next, HoldsConn, Count;
      }
    }
  }

  // ------------------------------------------- the bucket under its mutex

  /** A cell's mutex is held by exactly the thread inside its critical section. */
  ghost predicate LockAt(s: State, c: nat, t: nat) {
    c in s.sh.cells ==>
      (s.sh.cells[c].holder == Some(t) <==> t in s.threads && InLock(s.threads[t]) && s.threads[t].cell == c)
  }

  ghost predicate LockInv(s: State) {
    forall c, t :: LockAt(s, c, t)
  }

  /** The bucket as it will be once a half-done store is complete. */
  ghost function Settled(s: State, c: nat): Bucket
    requires c in s.sh.cells
  {
    var cell := s.sh.cells[c];
    if cell.holder.Some? && cell.holder.value in s.threads && s.threads[cell.holder.value].WriteLast?
    then Bucket(cell.bucket.tokens, s.threads[cell.holder.value].now)
    else cell.bucket
  }

  ghost predicate BucketAt(lim: Limits, s: State, c: nat) {
    lim.maxRPS > 0 && c in s.sh.cells ==>
      var log := s.sh.cells[c].log;
      && Accounts(lim.maxRPS, log, Settled(s, c))
      && RateBounded(lim.maxRPS, log)
      && (forall i :: 0 <= i < |log| ==> log[i] <= s.sh.clock)
  }

  /** What a thread inside a critical section has read is still so. */
  ghost predicate ReadingAt(lim: Limits, s: State, t: nat) {
    t in s.threads ==>
      var p := s.threads[t];
      && (p.WantLock? || InLock(p) ==> lim.maxRPS > 0)
      && (InLock(p) && p.cell in s.sh.cells ==>
            var cell := s.sh.cells[p.cell];
            && (p.ReadLast? || p.ReadTokens? || p.WriteTokens? || p.WriteLast? ==>
                  p.now <= s.sh.clock && forall i :: 0 <= i < |cell.log| ==> cell.log[i] <= p.now)
            && (p.ReadTokens? ==> p.last == cell.bucket.lastAt)
            && (p.WriteTokens? ==> p.tokens == Available(cell.bucket, lim.maxRPS, p.now) >= 1))
  }

  ghost predicate BucketInv(lim: Limits, s: State) {
    && LockInv(s)
    && (forall c :: BucketAt(lim, s, c))
    && (forall t :: ReadingAt(lim, s, t))
  }

  /** A move touches the guarded part of a cell only from inside its critical section, or to enter it. */
  lemma NextGuarded(lim: Limits, sh: Shared, t: nat, p: PC)
    requires CanMove(sh, p)
    ensures var (sh', p') := Next(lim, sh, t, p);
            && sh'.clock == sh.clock
            && (forall c :: c in sh'.cells <==> c in sh.cells || (p.Lookup? && p.ip !in sh.perIP && c == sh.nextCell))
            && (forall c :: c in sh.cells && c != sh.nextCell && !((p.WantLock? || InLock(p)) && c == p.cell) ==>
                  c in sh'.cells && sh'.cells[c].(conns := sh.cells[c].conns) == sh.cells[c])
            && (InLock(p') ==> (p.WantLock? || InLock(p)) && p'.cell == p.cell)
            && (p'.WantLock? ==> lim.maxRPS > 0)
  {}

  lemma StepKeepsLocks(lim: Limits, s: State, a: Action)
    requires Enabled(s, a) && CellsInv(s) && LockInv(s)
    ensures LockInv(Step(lim, s, a))
  {
    forall c, t ensures LockAt(Step(lim, s, a), c, t) {
      LockStep(lim, s, a, c, t);
    }
  }

  lemma LockStep(lim: Limits, s: State, a: Action, c: nat, t: nat)
    requires Enabled(s, a) && CellsInv(s) && LockInv(s)
    ensures LockAt(Step(lim, s, a), c, t)
  {
    assert LockAt(s, c, t);
    if a.Move? {
      var p := s.threads[a.t];
      assert ThreadCellInv(s, a.t, p);
      if p.WantLock? || InLock(p) {
        GuardedLockStep(lim, s, a.t, c, t);
      } else {
        NextGuarded(lim, s.sh, a.t, p);
        hide Next, CellsInv;
        if t in s.threads { assert ThreadCellInv(s, t, s.threads[t]); }
      }
    }
  }

  /** The locking and unlocking itself: only the mover's cell changes hands. */
  lemma GuardedLockStep(lim: Limits, s: State, u: nat, c: nat, t: nat)
    requires Enabled(s, Move(u)) && CellsInv(s) && LockInv(s) && (s.threads[u].WantLock? || InLock(s.threads[u]))
    ensures LockAt(Step(lim, s, Move(u)), c, t)
  {
    var p := s.threads[u];
    assert ThreadCellInv(s, u, p);
    assert LockAt(s, c, t) && LockAt(s, p.cell, u) && LockAt(s, p.cell, t);
    NextHolder(lim, s.sh, u, p);
    hide Next, CellsInv, LockInv;
  }

  /** Inside the critical section the mover holds its cell's lock exactly until it unlocks; other cells' locks stay. */
  lemma NextHolder(lim: Limits, sh: Shared, t: nat, p: PC)
    requires CanMove(sh, p) && (p.WantLock? || InLock(p))
    ensures var (sh', p') := Next(lim, sh, t, p);
            && (forall c :: c in sh'.cells <==> c in sh.cells)
            && (forall c :: c in sh.cells && c != p.cell ==> sh'.cells[c] == sh.cells[c])
            && (InLock(p') <==> !p.Unlock?) && (InLock(p') ==> p'.cell == p.cell)
            && sh'.cells[p.cell].holder == (if p.Unlock? then None else if p.WantLock? then Some(t) else sh.cells[p.cell].holder)
  {}

  lemma StepKeepsBuckets(lim: Limits, s: State, a: Action)
    requires Enabled(s, a) && CellsInv(s) && BucketInv(lim, s)
    ensures BucketInv(lim, Step(lim, s, a))
  {
    var s' := Step(lim, s, a);
    StepKeepsLocks(lim, s, a);
    forall c ensures BucketAt(lim, s', c) {
      BucketStep(lim, s, a, c);
    }
    forall t ensures ReadingAt(lim, s', t) {
      ReadingStep(lim, s, a, t);
    }
  }

  lemma ReadingStep(lim: Limits, s: State, a: Action, t: nat)
    requires Enabled(s, a) && CellsInv(s) && BucketInv(lim, s)
    ensures ReadingAt(lim, Step(lim, s, a), t)
  {
    assert ReadingAt(lim, s, t);
    if a.Move? {
      if t == a.t { MoverReads(lim, s, t); } else { BystanderReads(lim, s, a.t, t); }
    }
  }

  lemma MoverReads(lim: Limits, s: State, t: nat)
    requires Enabled(s, Move(t)) && CellsInv(s) && BucketInv(lim, s)
    ensures ReadingAt(lim, Step(lim, s, Move(t)), t)
  {
    hide LockInv, Earned, RateBounded;
    var p := s.threads[t];
    assert ReadingAt(lim, s, t) && ThreadCellInv(s, t, p);
    if InLock(p) {
      assert BucketAt(lim, s, p.cell);
    } else {
      NextGuarded(lim, s.sh, t, p);
    }
  }

  lemma BystanderReads(lim: Limits, s: State, t: nat, u: nat)
    requires Enabled(s, Move(t)) && CellsInv(s) && BucketInv(lim, s) && u != t
    ensures ReadingAt(lim, Step(lim, s, Move(t)), u)
  {
    assert ReadingAt(lim, s, u);
    var p := s.threads[t];
    assert ThreadCellInv(s, t, p);
    NextGuarded(lim, s.sh, t, p);
    hide Next, Earned, Available;
    if u in s.threads && InLock(s.threads[u]) {
      assert ThreadCellInv(s, u, s.threads[u]);
      assert LockAt(s, s.threads[u].cell, u);
      if p.WantLock? || InLock(p) { assert LockAt(s, p.cell, t) && LockAt(s, p.cell, u); }
    }
  }

  lemma BucketStep(lim: Limits, s: State, a: Action, c: nat)
    requires Enabled(s, a) && CellsInv(s) && BucketInv(lim, s)
    ensures BucketAt(lim, Step(lim, s, a), c)
  {
    assert BucketAt(lim, s, c);
    if a.Spawn? {
      assert LockAt(s, c, a.t);
    } else if a.Move? {
      var p := s.threads[a.t];
      assert ThreadCellInv(s, a.t, p);
      if (p.WantLock? || InLock(p)) && p.cell == c {
        HolderStep(lim, s, a.t);
      } else {
        NextGuarded(lim, s.sh, a.t, p);
        hide Next;
        assert LockAt(s, c, a.t);
      }
    }
  }

  /** The critical section: only the store of the tokens grants, and it grants what the bucket allows. */
  lemma HolderStep(lim: Limits, s: State, t: nat)
    requires Enabled(s, Move(t)) && CellsInv(s) && BucketInv(lim, s)
    requires s.threads[t].WantLock? || InLock(s.threads[t])
    ensures BucketAt(lim, Step(lim, s, Move(t)), s.threads[t].cell)
  {
    hide Earned;
    var p := s.threads[t];
    assert ThreadCellInv(s, t, p) && ReadingAt(lim, s, t) && BucketAt(lim, s, p.cell) && LockAt(s, p.cell, t);
    hide CellsInv, BucketInv, RateBounded, Accounts;
    if p.WriteTokens? {
      var cell := s.sh.cells[p.cell];
      GrantKeepsBound(lim.maxRPS, cell.log, cell.bucket, p.now);
    }
  }

  // ------------------------------------------------ grants, one per request

  /** With a rate limit, a cell's log holds one entry for each request of its address that was granted. */
  ghost predicate GrantAt(lim: Limits, s: State, ip: string) {
    lim.maxRPS > 0 ==>
      && (ip in s.sh.perIP && s.sh.perIP[ip] in s.sh.cells ==>
            |s.sh.cells[s.sh.perIP[ip]].log| == Count(s.threads, GrantedTo(ip)))
      && (ip !in s.sh.perIP ==> Count(s.threads, GrantedTo(ip)) == 0)
  }

  ghost predicate GrantInv(lim: Limits, s: State) {
    forall ip :: GrantAt(lim, s, ip)
  }

  /** Only the store of the tokens adds to a log, and its thread counts as granted from then on; a refused one never does. */
  lemma NextGrants(lim: Limits, sh: Shared, t: nat, p: PC)
    requires CanMove(sh, p) && lim.maxRPS > 0
    ensures var (sh', p') := Next(lim, sh, t, p);
            && One(Granted(p')) - One(Granted(p)) == One(p.WriteTokens? && p.ip != "")
            && forall c :: c in sh.cells && c != sh.nextCell ==>
                 && c in sh'.cells && |sh'.cells[c].log| == |sh.cells[c].log| + One(p.WriteTokens? && c == p.cell)
                 && (sh'.cells[c].bucket != sh.cells[c].bucket ==> HasCell(p) && c == p.cell && (p.ip != "" ==> Granted(p')))
  {}

  lemma GrantStep(lim: Limits, s: State, a: Action, ip: string)
    requires Enabled(s, a) && CellsInv(s) && GrantAt(lim, s, ip)
    ensures GrantAt(lim, Step(lim, s, a), ip)
  {
    var s' := Step(lim, s, a);
    if !a.Pass? && lim.maxRPS > 0 {
      StepMoves(lim, s, a);
      CountMove(s.threads, a.t, s'.threads[a.t], GrantedTo(ip));
      if a.Move? {
        var p := s.threads[a.t];
        assert ThreadCellInv(s, a.t, p);
        NextGrants(lim, s.sh, a.t, p);
        NextShape(lim, s.sh, a.t, p);
        hide Next, Granted, Count;
      }
    }
  }

  // --------------------------------------------------------------- all runs

  ghost predicate Inv(lim: Limits, s: State) {
    CellsInv(s) && GlobalInv(lim, s) && ConnInv(lim, s) && BucketInv(lim, s) && GrantInv(lim, s)
  }

  lemma InitInv(lim: Limits, clock: int)
    ensures Inv(lim, Init(clock))
  {
    var s := Init(clock);
    CountNone(s.threads, GlobalHolders());
    CountNone(s.threads, GlobalPassed());
    forall ip ensures ConnAt(lim, s, ip) && GrantAt(lim, s, ip) {
      CountNone(s.threads, ConnHolders(ip));
      CountNone(s.threads, ConnPassed(ip));
      CountNone(s.threads, GrantedTo(ip));
    }
  }

  lemma StepKeepsInv(lim: Limits, s: State, a: Action)
    requires Enabled(s, a) && Inv(lim, s)
    ensures Inv(lim, Step(lim, s, a))
  {
    StepKeepsCells(lim, s, a);
    StepKeepsGlobal(lim, s, a);
    StepKeepsConns(lim, s, a);
    StepKeepsBuckets(lim, s, a);
    hide Step, CellsInv, GlobalInv, ConnInv, BucketInv, GrantAt;
    forall ip ensures GrantAt(lim, Step(lim, s, a), ip) {
      GrantStep(lim, s, a, ip);
    }
  }

  lemma {:induction false} RunKeepsInv(lim: Limits, s: State, acts: seq<Action>)
    requires Inv(lim, s) && Behaviour(lim, s, acts)
    ensures Inv(lim, Final(lim, s, acts))
    decreases |acts|
  {
    hide Inv, Step;
    if acts != [] {
      StepKeepsInv(lim, s, acts[0]);
      RunKeepsInv(lim, Step(lim, s, acts[0]), acts[1..]);
    }
  }

  /** A state some interleaving reaches. */
  ghost predicate Reachable(lim: Limits, s: State) {
    exists clock, acts :: Behaviour(lim, Init(clock), acts) && s == Final(lim, Init(clock), acts)
  }

  lemma ReachableInv(lim: Limits, s: State)
    requires Reachable(lim, s)
    ensures Inv(lim, s)
  {
    var clock, acts :| Behaviour(lim, Init(clock), acts) && s == Final(lim, Init(clock), acts);
    InitInv(lim, clock);
    RunKeepsInv(lim, Init(clock), acts);
  }

  /** Both limits hold at every moment, however much the counters overshoot. */
  lemma LeasesStayWithinLimits(lim: Limits, s: State)
    requires Reachable(lim, s)
    ensures lim.maxGlobal > 0 ==> Count(s.threads, AllLeased()) <= lim.maxGlobal
    ensures forall ip :: lim.maxPerIP > 0 && ip != "" ==> Count(s.threads, LeasedFrom(ip)) <= lim.maxPerIP
  {
    ReachableInv(lim, s);
    CountLess(s.threads, AllLeased(), GlobalPassed());
    forall ip | lim.maxPerIP > 0 && ip != "" ensures Count(s.threads, LeasedFrom(ip)) <= lim.maxPerIP {
      CountLess(s.threads, LeasedFrom(ip), ConnPassed(ip));
      assert ConnAt(lim, s, ip);
    }
  }

  /** The counters are exactly the threads that have added and not yet subtracted. */
  lemma CountersAreExact(lim: Limits, s: State)
    requires Reachable(lim, s)
    ensures s.sh.global == Count(s.threads, GlobalHolders())
    ensures forall ip :: ip in s.sh.perIP ==>
              s.sh.perIP[ip] in s.sh.cells && s.sh.cells[s.sh.perIP[ip]].conns == Count(s.threads, ConnHolders(ip))
  {
    ReachableInv(lim, s);
    forall ip | ip in s.sh.perIP
      ensures s.sh.perIP[ip] in s.sh.cells && s.sh.cells[s.sh.perIP[ip]].conns == Count(s.threads, ConnHolders(ip))
    {
      assert ConnAt(lim, s, ip);
    }
  }

  /** However the load-or-stores race, threads of one address share one cell and different addresses share none. */
  lemma OneCellPerAddress(lim: Limits, s: State, t: nat, u: nat)
    requires Reachable(lim, s) && t in s.threads && u in s.threads
    requires HasCell(s.threads[t]) && !s.threads[t].Publish? && HasCell(s.threads[u]) && !s.threads[u].Publish?
    ensures s.threads[t].cell == s.threads[u].cell <==> s.threads[t].ip == s.threads[u].ip
  {
    ReachableInv(lim, s);
    assert ThreadCellInv(s, t, s.threads[t]) && ThreadCellInv(s, u, s.threads[u]);
  }

  /**
   At every moment, the requests of an address granted so far are counted one by one in its
   log, and any window of the log obeys the rate bound.
   */
  lemma AddressesAreRateBounded(lim: Limits, s: State, ip: string)
    requires Reachable(lim, s) && lim.maxRPS > 0 && ip in s.sh.perIP
    ensures s.sh.perIP[ip] in s.sh.cells
    ensures var cell := s.sh.cells[s.sh.perIP[ip]];
            && RateBounded(lim.maxRPS, cell.log)
            && |cell.log| == Count(s.threads, GrantedTo(ip))
            && 0 <= cell.bucket.tokens <= lim.maxRPS
  {
    ReachableInv(lim, s);
    assert GrantAt(lim, s, ip);
    assert BucketAt(lim, s, s.sh.perIP[ip]);
  }

  // --------------------------------------------------------------- refusals

  /** The step of thread `t` from `s` changes the tokens of some address. */
  ghost predicate TakesToken(lim: Limits, s: State, t: nat)
    requires Enabled(s, Move(t))
  {
    var sh' := Step(lim, s, Move(t)).sh;
    exists c :: c in s.sh.cells && c in sh'.cells && sh'.cells[c].bucket != s.sh.cells[c].bucket
  }

  lemma TakerIsGranted(lim: Limits, s: State, t: nat)
    requires Inv(lim, s) && Enabled(s, Move(t)) && TakesToken(lim, s, t)
    ensures lim.maxRPS > 0 && Granted(Step(lim, s, Move(t)).threads[t])
  {
    var p := s.threads[t];
    assert ThreadCellInv(s, t, p) && ReadingAt(lim, s, t);
    if lim.maxRPS > 0 {
      NobodyHasTheNextCell(s);
      NextGrants(lim, s.sh, t, p);
    }
  }

  lemma NobodyHasTheNextCell(s: State)
    requires CellsInv(s)
    ensures s.sh.nextCell !in s.sh.cells
  {}

  lemma {:induction false} GrantedStaysGranted(lim: Limits, s: State, acts: seq<Action>, t: nat)
    requires lim.maxRPS > 0 && Behaviour(lim, s, acts) && t in s.threads && Granted(s.threads[t])
    ensures var f := Final(lim, s, acts); t in f.threads && Granted(f.threads[t])
    decreases |acts|
  {
    if acts != [] {
      if acts[0] == Move(t) { NextGrants(lim, s.sh, t, s.threads[t]); }
      hide Next;
      GrantedStaysGranted(lim, Step(lim, s, acts[0]), acts[1..], t);
    }
  }

  /** A refused request costs no token: a thread that ever changes a bucket is never refused, whatever happens next. */
  lemma RefusalsCostNoToken(lim: Limits, s: State, t: nat, acts: seq<Action>)
    requires Reachable(lim, s) && Enabled(s, Move(t)) && TakesToken(lim, s, t)
    requires Behaviour(lim, Step(lim, s, Move(t)), acts)
    ensures var f := Final(lim, Step(lim, s, Move(t)), acts); t in f.threads && !f.threads[t].Rejected?
  {
    ReachableInv(lim, s);
    TakerIsGranted(lim, s, t);
    hide Next;
    GrantedStaysGranted(lim, Step(lim, s, Move(t)), acts, t);
  }

  /**
   A request is turned away by the global limit exactly when that many other threads hold the
   counter at its step: leases, and requests still on their way in or out.
   */
  lemma GlobalRefusalMeansFull(lim: Limits, s: State, t: nat)
    requires Reachable(lim, s) && Enabled(s, Move(t)) && s.threads[t].Arrived?
    ensures Step(lim, s, Move(t)).threads[t].UndoGlobal? <==>
              lim.maxGlobal > 0 && Count(s.threads, GlobalHolders()) >= lim.maxGlobal
  {
    ReachableInv(lim, s);
  }

  /** And by the limit of its address exactly when that many other threads hold the address's counter. */
  lemma PerIPRefusalMeansFull(lim: Limits, s: State, t: nat)
    requires Reachable(lim, s) && Enabled(s, Move(t)) && s.threads[t].AddConn?
    ensures Step(lim, s, Move(t)).threads[t].UndoConn? <==>
              lim.maxPerIP > 0 && Count(s.threads, ConnHolders(s.threads[t].ip)) >= lim.maxPerIP
  {
    ReachableInv(lim, s);
    assert ThreadCellInv(s, t, s.threads[t]) && ConnAt(lim, s, s.threads[t].ip);
  }

  // ------------------------------------------------------------ quiescence

  /** No thread is in the middle of acquiring or releasing. */
  ghost predicate Quiescent(s: State) {
    forall t :: t in s.threads ==> s.threads[t].Leased? || s.threads[t].Finished? || s.threads[t].Rejected?
  }

  /** The connections recorded for a set of addresses. */
  ghost function ConnsOf(sh: Shared, ips: set<string>): int
    requires forall ip :: ip in ips ==> ip in sh.perIP && sh.perIP[ip] in sh.cells
  {
    if ips == {} then 0
    else
      var ip :| ip in ips;
      sh.cells[sh.perIP[ip]].conns + ConnsOf(sh, ips - {ip})
  }

  ghost function LeasedAmong(ips: set<string>): PC -> bool { (p: PC) => p.Leased? && p.ip in ips }

  lemma {:induction false} ConnsOfAreLeases(s: State, ips: set<string>)
    requires forall ip :: ip in ips ==>
               ip in s.sh.perIP && s.sh.perIP[ip] in s.sh.cells
               && s.sh.cells[s.sh.perIP[ip]].conns == Count(s.threads, LeasedFrom(ip))
    ensures ConnsOf(s.sh, ips) == Count(s.threads, LeasedAmong(ips))
  {
    if ips == {} {
      CountNone(s.threads, LeasedAmong(ips));
    } else {
      var ip :| ip in ips && ConnsOf(s.sh, ips) == s.sh.cells[s.sh.perIP[ip]].conns + ConnsOf(s.sh, ips - {ip});
      ConnsOfAreLeases(s, ips - {ip});
      CountSplit(s.threads, LeasedAmong(ips), LeasedFrom(ip), LeasedAmong(ips - {ip}));
    }
  }

  /** At rest, the global counter is the sum of the addresses' connections plus the leases without an address. */
  lemma QuiescentTotals(lim: Limits, s: State)
    requires Reachable(lim, s) && Quiescent(s)
    ensures forall ip :: ip in s.sh.perIP.Keys ==> ip in s.sh.perIP && s.sh.perIP[ip] in s.sh.cells
    ensures s.sh.global == ConnsOf(s.sh, s.sh.perIP.Keys) + Count(s.threads, LeasedFrom(""))
    ensures s.sh.global == Count(s.threads, AllLeased())
  {
    ReachableInv(lim, s);
    CountSame(s.threads, GlobalHolders(), AllLeased());
    forall ip | ip in s.sh.perIP
      ensures s.sh.cells[s.sh.perIP[ip]].conns == Count(s.threads, LeasedFrom(ip))
    {
      assert ConnAt(lim, s, ip);
      CountSame(s.threads, ConnHolders(ip), LeasedFrom(ip));
    }
    ConnsOfAreLeases(s, s.sh.perIP.Keys);
    forall t | t in s.threads && s.threads[t].Leased?
      ensures s.threads[t].ip == "" || s.threads[t].ip in s.sh.perIP.Keys
    {
      assert ThreadCellInv(s, t, s.threads[t]);
    }
    CountSplit(s.threads, AllLeased(), LeasedFrom(""), LeasedAmong(s.sh.perIP.Keys));
  }
}
