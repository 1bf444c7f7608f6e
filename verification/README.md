# Verified model of go-multi-warp

go-multi-warp spreads client connections over N SOCKS backends. These Dafny
modules model its five stateful parts and prove what each keeps over all of its
runs. `dafny verify dfyconfig.toml` checks everything.

**Reading order.** Each part has a specification on values, and the classes
(which update their fields in place, as the program does) are proved equal to
it, method by method.

| part | specification and theorems | the objects |
|---|---|---|
| backend, circuit breaker | `Breaker`, `BreakerLaws`, `InflightCas` | `Backends.Backend` |
| selection, leases, dialling | `Selection`, `SelectionRuns`, `StickyLaws`, `Dialing`, `DialEffects`, `Failover`, `RoundRobinDials` | `Pools.Pool` |
| connection limiter | `TokenBucket`, `Limiter`, `ConnLimits` | `ConnLimiters.ConnLimiter` |
| uniqueness engine | `Uniqueness`, `UniquenessRuns`, `UniquenessTheorems`, `UniquenessAttempts`, `UniquenessLaws` | `Engines.UniquenessEngine` |
| SOCKS version 5 handshake, sessions | `SocksWire`, `Handshake`, `WireLaws`, `Session`, `Sessions` | `SocksConns` |

Two protocols are modelled at every interleaving of their atomic operations:
the in-flight compare-and-swap loop (`InflightCas`) and the limiter
(`Limiter`). `ConnLimits.AcquireAlone` connects the second one to the
sequential limiter the class computes.

Clocks, probe results, re-registration outcomes, dial outcomes and cancellation
are inputs: every theorem holds whatever they are. Times are integers of
nanoseconds.

## What the code does that its documentation does not say

- A sticky selection indexes with `int(key) % n`. Keys are 64-bit hashes, and
  for a key of 2^63 or more the index is negative, and the process panics,
  unless `n` divides 2^64 - key. `Selection.Select` keeps this as the outcome
  `Panics`; `Selection.SelectIsComplete` says exactly when it happens, and
  `Selection.StickyCrash` shows it for key 2^64 - 1 and two healthy backends. The
  same holds of the round-robin counter once it reaches 2^63.
- A dial makes up to three attempts, but a failed attempt only moves the next one
  to another backend if something makes it. Under least connections, or while a
  sticky entry lasts, that is exactly the opening of the failed backend's circuit
  (`Failover.LoyalDialsFailOverExactly`). With the default limit of three failures
  all three attempts go to the same clean backend, even when another is idle
  (`Failover.DefaultsDoNotFailOver`). Round robin moves its
  counter on with every attempt, but over a list that an opened circuit shortens, so
  it can come back to a backend it has tried: `RoundRobinDials.RoundRobinFailsOverWhen`
  says exactly when, and `RoundRobinDials.RoundRobinMayComeBack` shows it with the
  default limit, four healthy backends and two of them idle.
- The project's README speaks of 8 re-registration attempts. A collision that
  falls inside the stagger uses up an attempt without starting a registration:
  a backend that reaches its ceiling was sent to register again 8 - d times,
  where d is the number of its deferrals (`UniquenessAttempts.DeferralsCostAttempts`).
  The first tick of a run can already defer one (`UniquenessAttempts.FirstTickDefers`).
- The branch of `MarkProbeFail` that would make a backend Unhealthy is never
  taken (`Breaker.ProbeFailIsFailure`).
- The backoff is monotone and capped exactly for bases below 2^60 ns; larger
  ones overflow the shift and give a negative backoff
  (`UniquenessTheorems.BackoffIsMonotoneAndCapped`).
- The fallback loop of the least-connections picker finds nothing when it runs
  alone: `Pools.Pool.FallBack` proves its success branch dead.

## Model

| member | source | states |
|---|---|---|
| Breaker.FailsCountTheStreak | internal/pool/backend.go:146-242 | in every run from a clean backend the failure counter is the number of failures since the last event that resets it |
| Breaker.HealthyIsClean | internal/pool/backend.go:146-242 | in every reachable state, whatever states were forced, Healthy means no failures counted and no open time |
| Breaker.OpenCircuitIsJustified | internal/pool/backend.go:188-200 | with the forced states that occur, an open circuit has reached the failure limit and its timer runs from the latest failure |
| Breaker.OpensExactlyAtTheLimit | internal/pool/backend.go:188-200 | a fresh backend that only fails is Degraded below its limit and CircuitOpen from the limit on |
| Breaker.FailuresInARowOpen | internal/pool/backend.go:188-200 | from any state, enough failures in a row open the circuit, and any failure ends Healthy and Unknown |
| Breaker.Quarantine | internal/pool/backend.go:146-242 | a shut backend whose failures recur inside both timeouts is refused by every query, for any number of failures, queries, admissions and forced Unhealthy states |
| Breaker.QuarantineAfter | internal/health/health.go:58-66 | the quarantine starts in every reachable shut state, counted from its last failure |
| Breaker.Recovery | internal/pool/backend.go:146-173 | from every reachable state an admitted backend left alone for the longer timeout is selectable |
| BreakerLaws.EventsExactly | internal/pool/backend.go:146-242 | what each kind of event does to the health of a backend in any state |
| BreakerLaws.ChangesAreTimed | internal/pool/backend.go:146-282 | which events set the time of the last change |
| BreakerLaws.SelectableExactly | internal/pool/backend.go:146-173 | after any history a backend is selectable if and only if it was last admitted and is not shut, or was marked Unhealthy at least failTimeout ago (counting from the last event that was not a query), or is open and failed last at least openAfter ago |
| BreakerLaws.QuarantineByState | internal/pool/backend.go:146-242 | each shut state holds for its own timeout: while failures recur within the timeout of the state they meet, every query is refused |
| BreakerLaws.ToleratesBelowLimit | internal/pool/backend.go:175-206 | after a success or a good probe, fewer failures than the limit never make an admitted backend unselectable |
| BreakerLaws.AdmissionsDecide | internal/pool/backend.go:274-282 | phase and tag are those of the last admission events, and no event touches connections, attempts or limits |
| BreakerLaws.FailedProbesExactly | internal/health/health.go:58-66 | a backend whose probes all fail is Unhealthy from the third on, and until then degraded or open by its own limit |
| Breaker.ProbeFailIsFailure | internal/pool/backend.go:220-227 | a failed probe changes a backend exactly as a failed connection does |
| Breaker.RefreshIsStable | internal/pool/backend.go:146-173 | the state change of a query never changes the answer of a later one, and a refused query changes nothing |
| Backends.Backend.constructor | internal/pool/backend.go:103-122 | a new backend warms up in state Unknown, with its limits raised to at least one |
| Backends.Backend.TryAcquire | internal/pool/backend.go:128-142 | succeeds exactly when the backend is selectable with a free slot, and then adds one in-flight connection; otherwise leaves only the query's effect |
| Backends.Backend.IsSelectable | internal/pool/backend.go:146-173 | the answer, and the half-opening it may cause |
| Backends.Backend.MarkSuccess | internal/pool/backend.go:175-186 | is the Success event of the state machine |
| Backends.Backend.MarkFailure | internal/pool/backend.go:188-206 | is the Failure event |
| Backends.Backend.MarkProbeOK | internal/pool/backend.go:208-218 | is the ProbeOK event |
| Backends.Backend.MarkProbeFail | internal/pool/backend.go:220-227 | is the ProbeFail event |
| Backends.Backend.ProbeFailed | internal/health/health.go:58-66 | a failed health probe, followed by the forced Unhealthy state from three failures on |
| Backends.Backend.ForceState | internal/pool/backend.go:229-242 | is the Force event |
| Backends.Backend.SetAdmit | internal/pool/backend.go:274-282 | is the Admission event: an empty tag keeps the old one |
| InflightCas.InflightIsLeases | internal/pool/backend.go:128-144 | at every interleaving of load, compare-and-swap and release, in-flight is the number of outstanding leases and lies in 0..MaxInflight |
| InflightCas.RefusedExactlyWhenFull | internal/pool/backend.go:132-141 | an acquire is refused if and only if its load sees the backend full, and a swap takes a slot if and only if the counter has not moved |
| InflightCas.FailedSwapMeansProgress | internal/pool/backend.go:133-141 | lock freedom: a swap fails only if another thread's swap or release moved the counter since the load |
| Selection.SelectIsComplete | internal/pool/pool.go:152-243 | for every strategy: a selection panics exactly when its index is negative; otherwise it fails exactly when no admitted selectable backend has a free slot; it takes one slot of a usable backend, which it has queried, and changes nothing else but queries and its own bookkeeping |
| Selection.IndexIsNegativeWhen | internal/pool/pool.go:197 | exactly when Go's signed remainder of a 64-bit value is a negative index |
| Selection.BestIsFirstMinimum | internal/pool/pool.go:207-220 | the least-connections scan ends on the first backend of minimum load among those with room, or on none exactly when none has room |
| Selection.PickLeastConnEffect | internal/pool/pool.go:207-230 | what least-connections picks, when it fails, and that it changes nothing else |
| Selection.PickRREffect | internal/pool/pool.go:192-205 | when round robin crashes, when it fails, and that it changes nothing else |
| Selection.StickyCrash | internal/pool/pool.go:237 | two healthy backends and a sticky key of 2^64 - 1 crash the selection |
| Selection.PickStickyEffect | internal/pool/pool.go:232-243 | when sticky crashes, and that it changes nothing else |
| Selection.ProbeOrderIsPermutation | internal/pool/pool.go:198-199 | the probe order visits every healthy place exactly once |
| Selection.ScanIsFirst | internal/pool/pool.go:198-203 | round robin takes the first backend with room in the probe order |
| SelectionRuns.SelectionsDrainThePool | internal/pool/pool.go:152-243 | with a fixed selectable set, under any strategy and keys that do not crash, exactly the first Free selections of a run succeed |
| SelectionRuns.EmptyPoolServesItsCapacity | internal/pool/pool.go:152-243 | from empty, exactly the total MaxInflight of the selectable backends is handed out |
| SelectionRuns.RoundRobinCycles | internal/pool/pool.go:192-205 | with room everywhere the pick is the counter's place in the healthy list, and the counter moves by one |
| SelectionRuns.RoundRobinSkipsFullBackends | internal/pool/pool.go:192-205 | in general the pick is the first with room counting round the cycle |
| SelectionRuns.RoundRobinIsFair | internal/pool/pool.go:192-205 | picks at m consecutive counter values, of whatever pools with these n healthy backends and room, choose each floor(m/n) or ceil(m/n) times |
| SelectionRuns.RoundRobinRun | internal/pool/pool.go:152-205 | a run of selections goes round the cycle as long as each place has room for the turns the run gives it |
| SelectionRuns.SelectionsAreFair | internal/pool/pool.go:152-205 | with ceil(m/n) slots free on each of n healthy backends, m consecutive selections all succeed and choose each floor(m/n) or ceil(m/n) times |
| SelectionRuns.LeastConnKeepsBalance | internal/pool/pool.go:207-230 | with equal limits a least-connections pick keeps loads within one of each other |
| SelectionRuns.LeastConnStaysBalanced | internal/pool/pool.go:207-230 | so does every release-free run of selections |
| SelectionRuns.LeastLoadedIsSelected | internal/pool/pool.go:166-178 | a least-connections selection, and a sticky one whose place is full, takes the first least-loaded backend |
| SelectionRuns.StickyKeyNamesItsPlace | internal/pool/pool.go:232-243 | a sticky key whose place has room goes there |
| SelectionRuns.SelectionMakesSticky | internal/pool/pool.go:186-188 | a selection that was not remembered makes its key stick to the picked backend for the whole time to live |
| SelectionRuns.StickyAffinity | internal/pool/pool.go:155-164 | while it sticks and its backend can serve, a key is served by it, and no other key's selection unsticks it |
| StickyLaws.FreshEntriesAreFollowed | internal/pool/pool.go:155-164 | an entry younger than the time to live that names a backend that can serve is followed, and the table stays as it is |
| StickyLaws.OtherEntriesMakeNoDifference | internal/pool/pool.go:155-188 | any other selection gives the same outcome and backends as if the key had no entry, and a sticky pick is noted at its time |
| StickyLaws.EntriesExpire | internal/pool/pool.go:158 | in particular when the entry has reached the time to live |
| StickyLaws.OnlyRoundRobinCounts | internal/pool/pool.go:192-205 | the counter moves by one with a round-robin selection that has someone to probe, and never otherwise |
| Dialing.DialKeepsOneLease | internal/proxy/tunnel.go:19-39 | across a dial of up to three attempts the in-flight count rises by one on the returned backend, which is one of the pool, and nowhere else, and not at all on any failure path |
| Dialing.DialTotals | internal/proxy/tunnel.go:19-39 | the total in-flight count rises by one on success and by nothing otherwise |
| Dialing.DialOutcome | internal/proxy/tunnel.go:21-38 | which attempts were made, and how the result follows from them |
| DialEffects.DialHealsItsBackend | internal/proxy/tunnel.go:35-36 | the backend a successful dial returns is Healthy, with no failures and no timer |
| DialEffects.DialCountsFailures | internal/proxy/tunnel.go:28-33 | a dial shorter than the open time adds to every other backend exactly one failure for each try on it, an open circuit let back in starting from zero |
| DialEffects.NobodyToDial | internal/proxy/tunnel.go:22-25 | with nobody to select, the dial ends at once and says so |
| DialEffects.LeastConnNeverCrashes | internal/proxy/tunnel.go:19-39 | a dial through a least-connections pool never crashes |
| Failover.LeastConnPicksExactly | internal/pool/pool.go:207-230 | least connections picks a backend if and only if it can serve, none that can has fewer connections, and none before it has as few |
| Failover.LeastConnRetriesTheSame | internal/proxy/tunnel.go:21-34 | under least connections, if no other backend joins, the next attempt goes to the failed backend if and only if it is below its failure limit or its open time has passed |
| Failover.StickyRetriesTheSame | internal/proxy/tunnel.go:21-34 | the same while the key's sticky entry lasts |
| Failover.LoyalDialsFailOverExactly | internal/proxy/tunnel.go:19-39 | under either, the tries of a dial shorter than the open time are distinct if and only if each failure but the last opens its backend's circuit |
| Failover.LoyalDialsStay | internal/proxy/tunnel.go:19-39 | a dial that does not connect goes three times to a backend that can spare the failures |
| Failover.DefaultsDoNotFailOver | internal/proxy/tunnel.go:19-39 | with the default limit of three failures, a dial tries the first of two idle backends three times |
| RoundRobinDials.RoundRobinTry | internal/proxy/tunnel.go:21-34 | one attempt under round robin goes to the counter's place, moves the counter by one, and takes that place out of the healthy list if and only if its failure opens the circuit |
| RoundRobinDials.RoundRobinTriesExactly | internal/proxy/tunnel.go:19-39 | for any failure limits, the tries of a dial, computed from the healthy list, the counter and the failures each backend can spare before the dial |
| RoundRobinDials.RoundRobinFailsOverWhen | internal/proxy/tunnel.go:19-39 | for any failure limits, the exact condition, on the state before the dial, for the tries to be distinct |
| RoundRobinDials.CycleIsDistinctExactly | internal/pool/pool.go:197-199 | that condition for three failing tries over n backends, by which of the first two failures open a circuit |
| RoundRobinDials.SparingOneFailsOver | internal/proxy/tunnel.go:19-39 | if every healthy backend can spare one failure, three failing tries are distinct if and only if there are not just one or two of them |
| RoundRobinDials.RoundRobinMayComeBack | internal/proxy/tunnel.go:19-39 | four healthy backends, the first at its last spare failure, counter 3: a dial tries 3, 0 and 3 again while 1 and 2 are idle |
| RoundRobinDials.RoundRobinTries | internal/pool/pool.go:192-205 | if every healthy backend can spare the failures of the dial, its tries go round the healthy list |
| RoundRobinDials.RoundRobinFailsOverExactly | internal/proxy/tunnel.go:19-39 | so they are distinct if and only if they are no more than the healthy backends |
| Failover.OpeningDialsAreDistinct | internal/proxy/tunnel.go:19-39 | under any strategy, if each failure opens its circuit, a dial shorter than the open time never tries a backend twice |
| Failover.FailoverTriesDistinctBackends | internal/proxy/tunnel.go:28-34 | in particular with circuits that open at the first failure |
| Pools.Pool.constructor | internal/pool/pool.go:66-90 | an empty sticky table, counters at zero, and the id index |
| Pools.Pool.Get | internal/pool/pool.go:135-139 | the indexed backend is the one a search through the list finds |
| Pools.Pool.Healthy | internal/pool/pool.go:102-110 | the selectable backends in list order, each queried once |
| Pools.Pool.PickRR | internal/pool/pool.go:192-205 | computes the specified round-robin pick, counter and backends |
| Pools.Pool.PickLeastConn | internal/pool/pool.go:207-230 | computes the specified least-connections pick; its fallback loop never takes anything |
| Pools.Pool.PickSticky | internal/pool/pool.go:232-243 | computes the specified sticky pick, including the crash |
| Pools.Pool.Select | internal/pool/pool.go:152-190 | computes the specified selection and the whole new pool state |
| Pools.Pool.DialViaSocks | internal/proxy/tunnel.go:19-39 | computes the specified dial and the whole new pool state |
| TokenBucket.GrantKeepsBound | internal/pool/pool.go:380-395 | one more grant keeps the account of all earlier grants, and so the rate bound of every window |
| TokenBucket.GrantsAreRateBounded | internal/pool/pool.go:378-397 | grants in any window of T ns number at most maxRPS + maxRPS * T / 10^9 |
| TokenBucket.TokensStayInRange | internal/pool/pool.go:384-394 | stored tokens stay in 0..maxRPS even for a clock that runs backwards |
| TokenBucket.WaitingEarnsAToken | internal/pool/pool.go:383-388 | an address that waits one token's worth of time is served |
| TokenBucket.IdleSecondAllowsABurst | internal/pool/pool.go:383-395 | after an idle second, maxRPS requests in a row are all granted: the bound is reached |
| TokenBucket.WaitIsWorthExactly | internal/pool/pool.go:382-395 | of m requests at one instant, d ns after the last grant left k tokens, exactly the first Min(m, Min(rate, k + d * rate / 10^9)) are granted, and the bucket keeps the rest |
| Limiter.LeasesStayWithinLimits | internal/pool/pool.go:348-418 | at every interleaving of any number of threads, leases never exceed maxGlobal in total or maxPerIP per address |
| Limiter.CountersAreExact | internal/pool/pool.go:348-418 | each counter is exactly the number of threads that have added and not yet subtracted |
| Limiter.OneCellPerAddress | internal/pool/pool.go:361-368 | however the load-or-stores race, all threads of an address use one cell and no two addresses share one |
| Limiter.AddressesAreRateBounded | internal/pool/pool.go:376-397 | at every interleaving, an address's grants are rate bounded and counted one for one, and its tokens are in 0..maxRPS |
| Limiter.RefusalsCostNoToken | internal/pool/pool.go:376-397 | a thread that changes a bucket is never refused, whatever happens next: refused requests cost no token |
| Limiter.GlobalRefusalMeansFull | internal/pool/pool.go:350-354 | a request is turned away by the global limit if and only if that many other threads hold the counter at its step, in transit or leased |
| Limiter.PerIPRefusalMeansFull | internal/pool/pool.go:369-374 | and by its address's limit if and only if that many other threads hold the address's counter |
| Limiter.QuiescentTotals | internal/pool/pool.go:348-418 | at rest the global counter is the sum of the addresses' connections plus the leases without an address |
| Limiter.StepKeepsInv | internal/pool/pool.go:348-418 | every atomic step keeps the invariant behind all of these |
| ConnLimits.AcquireAlone | internal/pool/pool.go:348-400 | the thread protocol, run by one thread, refines the sequential acquire |
| ConnLimits.ReleaseAlone | internal/pool/pool.go:407-418 | and the sequential release |
| ConnLimits.RestIsWellKept | internal/pool/pool.go:348-418 | every reachable limiter at rest is in a state those two start from |
| ConnLimits.RefusedExactlyAtALimit | internal/pool/pool.go:348-400 | one caller is refused if and only if a positive limit is used up, and is told the first of them: global, address, rate |
| ConnLimits.AcquireTakesOneOfEach | internal/pool/pool.go:348-400 | a grant takes one connection in total and one connection and one token of the address, whose wait is paid out exactly; a refusal takes nothing; other addresses are left alone |
| ConnLimits.NewPeersMayBurst | internal/pool/pool.go:361-388 | a peer never seen before may make a full burst |
| ConnLimits.ReleaseUndoesAcquire | internal/pool/pool.go:407-418 | acquire and release cancel, tokens aside, and leave other addresses alone |
| ConnLimits.ReleaseGivesOneOfEach | internal/pool/pool.go:407-418 | a release gives back one connection in total and one of an address that is known, and touches nothing else |
| ConnLimiters.ConnLimiter.constructor | internal/pool/pool.go:340-346 | a limiter that has counted nothing |
| ConnLimiters.ConnLimiter.Acquire | internal/pool/pool.go:348-400 | computes the specified answer and the whole new state |
| ConnLimiters.ConnLimiter.Release | internal/pool/pool.go:407-418 | computes the specified new state |
| UniquenessRuns.VisitKeepsInv | internal/control/uniqueness.go:263-370 | visiting one backend keeps the engine's invariant |
| UniquenessRuns.RecheckKeepsInv | internal/control/uniqueness.go:418-500 | so does a recheck |
| UniquenessRuns.RunKeepsInv | internal/control/uniqueness.go:251-500 | the invariant holds after every run of ticks and rechecks |
| UniquenessTheorems.EngineQuiesces | internal/control/uniqueness.go:251-500 | any run has at most n * (2 * recheckMax + maxAttempts + 2) admissions, parkings, collisions and started re-registrations |
| UniquenessTheorems.PopulationIsAccounted | internal/control/uniqueness.go:251-371 | in pool, warming and parked add up to n; the pool is what was admitted less what rechecks evicted; nobody is parked unless strict |
| UniquenessTheorems.ReregistrationsAreBounded | internal/control/uniqueness.go:324-414 | per backend at most maxAttempts re-registrations from ticks and recheckMax from rechecks for ever, and all counters agree with the history |
| UniquenessTheorems.RegistrationsAreStaggered | internal/control/uniqueness.go:374-393 | starts from ticks and rechecks together are a stagger apart, so k of them span at least (k - 1) staggers |
| UniquenessTheorems.BackoffIsMonotoneAndCapped | internal/control/uniqueness.go:207-222 | the backoff is monotone between min(base, 60 s) and min(8 * base, 60 s) if and only if the base is below 2^60 ns |
| UniquenessLaws.BackoffByAttempt | internal/control/uniqueness.go:207-222 | the backoff is 1, 2, 4 and from the fourth attempt on 8 times the base, a minute at most |
| UniquenessLaws.SettingsExactly | internal/control/uniqueness.go:190-249 | positive settings are used as they are, and the defaults of the rest |
| UniquenessLaws.VisitExactly | internal/control/uniqueness.go:263-370 | who is left alone in a tick, and what is done with everybody else: phase, tag, attempts, retry time and counters in every case |
| UniquenessTheorems.StartSetsTheBackoff | internal/control/uniqueness.go:363-370 | a start from a tick leaves the backend warming up until its backoff is over |
| UniquenessTheorems.BackoffIsHonoured | internal/control/uniqueness.go:272-275 | and nothing handles it before, over whole runs |
| UniquenessAttempts.RecheckSetsTheBackoff | internal/control/uniqueness.go:476-499 | a start from a recheck spends one of its budget, sets its own backoff, and on success sends the backend back to warm up |
| UniquenessAttempts.RecheckBackoffIsHonoured | internal/control/uniqueness.go:272-275 | and nothing handles that backend before, over whole runs |
| UniquenessTheorems.UntouchableForWholeRuns | internal/control/uniqueness.go:267-275 | parked is for good; admitted is for good in attach mode; a waiting backend is left as it is |
| UniquenessAttempts.CollisionIsExact | internal/control/uniqueness.go:311-370 | every collision costs an attempt; in managed mode one below the ceiling starts a registration if and only if the stagger is over and is put off otherwise; what any other collision does |
| UniquenessAttempts.DeferralsCostAttempts | internal/control/uniqueness.go:323-370 | over whole runs a backend's collisions are its starts, deferrals and givings up, and the first maxAttempts of them are the starts and deferrals |
| UniquenessAttempts.FirstTickDefers | internal/control/uniqueness.go:263-370 | in the first tick of three backends that probe alike, one is admitted, one registers again and one is put off |
| UniquenessTheorems.TickActsOnExactlyTheReady | internal/control/uniqueness.go:263-370 | a tick acts on every backend that is warming up, past its retry time, not shut and reached by the probe, and on no other, once each, in order of id |
| UniquenessTheorems.RecheckFindsEveryCollision | internal/control/uniqueness.go:440-474 | a completed recheck reports exactly the probed backends an earlier one shares its address with |
| UniquenessTheorems.OneIsSentWhenOneCanBe | internal/control/uniqueness.go:476-499 | a recheck sends one backend to register again exactly when one may be sent, and never two |
| UniquenessLaws.EvictExactly | internal/control/uniqueness.go:476-499 | the first collider with budget that is not waiting and is past the stagger is sent, nobody else; those held up before it wait a stagger |
| UniquenessLaws.RecheckExactly | internal/control/uniqueness.go:418-499 | a due recheck is counted and timed, gives every backend it reached its probe for a tag, finds every shared one, and sends the first that may be sent |
| UniquenessLaws.RecheckNotDue | internal/control/uniqueness.go:418-447 | a recheck that is not due changes nothing, and one cancelled on its way sends nobody |
| UniquenessTheorems.EvictionIsHarmless | internal/control/uniqueness.go:476-499 | the eviction loop moves at most one backend, and only one whose tag an earlier admitted backend has |
| UniquenessTheorems.HarmlessKeepsDiversity | internal/control/uniqueness.go:416-418 | such a change keeps every tag in use and the lowest admitted backend in place |
| UniquenessTheorems.RecheckNeverEmptiesThePool | internal/control/uniqueness.go:416-500 | a whole recheck only refreshes tags and then evicts harmlessly |
| UniquenessTheorems.FlagMeansNonEmptyPool | internal/control/uniqueness.go:290-300 | over whole runs the first-admit flag is set exactly when the pool is non-empty |
| UniquenessTheorems.PoolStaysNonEmpty | internal/control/uniqueness.go:416-500 | a pool that is not empty stays so under any further ticks and rechecks |
| UniquenessTheorems.UniqueMeansDistinct | internal/control/uniqueness.go:290-361 | over runs of ticks with the effort on: distinct tags = AdmittedUnique, the rest of the pool = AdmittedResidual, and strict mode keeps all tags distinct |
| UniquenessTheorems.TagsAgainstBackends | internal/pool/pool.go:303-319 | distinct tags never outnumber admitted backends, and equal them exactly when no two share a tag |
| Engines.UniquenessEngine.InPoolIPv4Set | internal/pool/pool.go:287-300 | the tags of the admitted backends, all and only those, each with the id of the last admitted backend that has it |
| Engines.UniquenessEngine.VisitBackend | internal/control/uniqueness.go:263-370 | computes the specified effect of one backend's turn in a tick, and touches no breaker except to make a registered backend Unknown |
| Engines.UniquenessEngine.RunTick | internal/control/uniqueness.go:251-371 | computes the specified tick, and makes exactly the backends it registered successfully Unknown |
| Engines.UniquenessEngine.TryReregister | internal/control/uniqueness.go:374-414 | starts exactly when the stagger is over, with the counters and the backend as specified; a success forces the backend's state to Unknown and touches no other part of any breaker |
| Engines.UniquenessEngine.RefreshTags | internal/control/uniqueness.go:440-474 | computes the specified tags and colliders |
| Engines.UniquenessEngine.EvictOne | internal/control/uniqueness.go:476-499 | computes the specified eviction |
| Engines.UniquenessEngine.RecheckInPool | internal/control/uniqueness.go:418-500 | computes the specified recheck, and makes exactly the backend it registered successfully Unknown |
| SocksWire.RequestRoundTrip | internal/proxy/tunnel.go:64-86 | decoding an encoded request gives the target in canonical form, port modulo 2^16, and consumes exactly its bytes (sections 4 and 5 of RFC 1928) |
| SocksWire.EncodingLimits | internal/proxy/tunnel.go:69-75 | a request cannot be encoded exactly when its host is no IP literal and longer than 255 bytes |
| SocksWire.RelayIsIdempotent | internal/proxy/tunnel.go:214-249 | every decodable request can be encoded again, and doing it twice changes nothing more |
| SocksWire.EncodeIgnoresSpelling | internal/proxy/tunnel.go:68-83 | two spellings of one address encode alike |
| Handshake.ConnectLeavesExactlyThePayload | internal/proxy/tunnel.go:92-130 | after any success reply, of any address type, exactly the payload is left unread (section 6 of RFC 1928) |
| Handshake.ConnectSucceedsOnlyOnSuccess | internal/proxy/tunnel.go:49-130 | the client connects on nothing but two writes that succeed and the method reply followed by a success reply |
| Handshake.HandshakeCompletes | internal/proxy/socks5.go:99-194 | client against server: the server dials the client's target, and the client connects exactly when that dial succeeds |
| Handshake.PasswordServerTurnsTheClientAway | internal/proxy/socks5.go:115-119 | the client, which offers no authentication, is turned away by a server that wants a password |
| Handshake.RightPasswordIsServed | internal/proxy/socks5.go:115-147 | behind the right credentials a request is served as it is without |
| Handshake.NothingIsDialedWithoutThePassword | internal/proxy/socks5.go:115-147 | if a password server dials, its input opened with the credentials |
| WireLaws.RequestBytes | internal/proxy/tunnel.go:64-86 | the request byte by byte, for each kind of address (sections 4 and 5 of RFC 1928) |
| WireLaws.DecodesExactly | internal/proxy/tunnel.go:214-249 | what decodes, exactly: enough bytes of a known kind, used up, with the port in the last two |
| WireLaws.RequestsAreAnswered | internal/proxy/socks5.go:162-194 | what every request is answered with: 7 for another command, 4 for a bad address, 1 for a failed dial, 0 for success, nothing for another version |
| WireLaws.GreetingsAreAnswered | internal/proxy/socks5.go:101-158 | what every greeting is answered with, and the phase that follows |
| WireLaws.CredentialsAreAnswered | internal/proxy/socks5.go:120-149 | wrong credentials are rejected and nothing is dialled; right ones are accepted and the request is served |
| WireLaws.ClientSays | internal/proxy/tunnel.go:49-90 | all the client ever sends |
| SocksConns.ReadSocksAddr | internal/proxy/tunnel.go:214-249 | reads step by step what the specified decoder reads, and leaves what it leaves |
| SocksConns.ConnectSOCKS5 | internal/proxy/tunnel.go:41-131 | sends and reads what the specified client does, wherever its writes begin to fail, and fails if the backend cannot be reached |
| SocksConns.ContainsMethod | internal/proxy/socks5.go:200-207 | finds a method exactly when it was offered |
| SocksConns.Handle | internal/proxy/socks5.go:99-194 | sends, dials and tunnels as the specified server does, wherever its writes begin to fail |
| Session.SessionLeaksNothing | internal/proxy/socks5.go:88-198 | whatever the peer sends and the network does, a session run alone leaves the limiter's counters and every backend's in-flight count as they were |
| Session.RefusedPeersAreTold | internal/proxy/socks5.go:91-96 | a peer the limiter refuses gets one rejection and costs nothing |
| Session.StrangersDoNotReachThePool | internal/proxy/socks5.go:91-147 | the pool changes only for a peer the limiter accepted and, with a password, that presented it |
| Sessions.SessionsAreAccounted | internal/proxy/socks5.go:91-190 | however the steps of sessions interleave with each other and with changes elsewhere, the global count and each address's count are the open sessions that hold them, and each backend's in-flight count the sessions trying it or connected through it |
| Sessions.NobodyHoldsNothing | internal/proxy/socks5.go:97-190 | when everybody has left, all of these are zero |
| Sessions.DialIsItsSteps | internal/proxy/tunnel.go:19-39 | uninterrupted, the steps of a session's dial leave the pool and the lease that the dial does |

## Left out

Parts that are not modelled:

- Process control of the backends, HTTP proxying, the admin pages, metrics text, logging, configuration loading: I/O or simple parameter code. The strategy name and whether the uniqueness effort is active are fixed inputs; an unknown strategy name is `Unrecognised`.
- Probing, dialling and re-registering: each is an input that says how it ended, and when it started and ended.
- The tunnel itself. The server reads the handshake through a buffered reader but tunnels from the raw connection, so nothing is claimed about bytes a client sends early.
- The conformance of the two rejection replies, which have the shape of a CONNECT reply, to RFC 1928 and RFC 1929. A failed read is the end of the stream; a write is sent whole or not at all.
- IP address parsing and printing: a pair of functions with the laws `SocksWire.Lawful`. Hashing a peer into its sticky key: the key is an input.
- The totals of successes and failures, the last error and last probe, and the ceiling heuristics: reporting only.

What the model simplifies:

- Selections run one at a time, between those of other sessions; only the in-flight counter's compare-and-swap loop and the limiter are modelled at every interleaving. Each operation takes one clock reading where the code takes several.
- A lease is released at most once, as every caller does with one deferred call.
- Backends have distinct ids and are listed in ascending order, so the engine's sort changes nothing. The program does not check that ids are distinct.
- The health states an engine step reads are inputs of that step, because other goroutines change them. Other parts reach a backend's admission phase only through the engine. A breaker's time of last change is not part of what the engine's contracts say about breakers.
- The engine lists, for each visit, when the registration it may cause starts and ends; the semaphore around it is taken and released under the engine's lock, so its capacity never binds.
- The token refill is exact rational arithmetic, truncated; the code uses floating point. Counters are unbounded integers where the code has 32 or 64 bits, except the sticky key, the round-robin counter and the backoff shift, whose wrap-around is modelled.

Statements with a condition:

- SelectionRuns.SelectionsDrainThePool: no selection of the run may compute a negative index (`Indexable`), since one that does panics; keys and counters below 2^63 always satisfy it.
- SelectionRuns.SelectionsAreFair: for counter values below 2^63, as the next.
- SelectionRuns.RoundRobinIsFair: for counter values below 2^63, which is 2^63 selections; from there on an index can be negative.
- SelectionRuns.StickyKeyNamesItsPlace: for keys that do not panic; `StickyPlace` gives their place.
- UniquenessTheorems.UniqueMeansDistinct: for runs of ticks only, since rechecks re-tag admitted backends; in attach mode rechecks do nothing.
- Breaker.OpenCircuitIsJustified: for the forced states that occur in the program, Unknown and Unhealthy.
- BreakerLaws.SelectableExactly: for the same forced states.
- DialEffects.DialCountsFailures: for dials shorter than the open time; in a longer one an opened circuit may be let back in with its count at zero.
- Failover.LoyalDialsFailOverExactly: no backend starts to answer yes during the dial (under least connections) or the sticky entry outlasts it; and the dial is shorter than the open time, without which `LeastConnRetriesTheSame` and `StickyRetriesTheSame` say what the next attempt does.
- RoundRobinDials.RoundRobinFailsOverWhen: for backends that answer alike throughout the dial, their own failures in it aside, with room on the healthy ones, an open time that outlasts the dial where a failure may open a circuit, and counter values below 2^63.
- RoundRobinDials.RoundRobinFailsOverExactly: for healthy backends that can also spare the failures; otherwise `RoundRobinFailsOverWhen` applies.
- Session.SessionLeaksNothing: one session run alone; `Sessions.SessionsAreAccounted` has the interleavings of any number.
- Sessions.SessionsAreAccounted: each step (arriving, selecting, failing or connecting, leaving) happens at once; `Limiter` and `InflightCas` have the interleavings inside the first two.
