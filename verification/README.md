# Verified core of the infrastructure control plane

A Dafny model of the parts of this control plane whose correctness cannot be settled by running
them: the load balancer's weighted round robin and its live reconfiguration, the protocols that many
processes run against the shared store by compare-and-swap, the compute scheduler, the request
limiter, the resumable replication of disks, and the compiler of the system-call filter. Every
theorem is a statement about all inputs, all runs or all interleavings.

`dafny verify dfyconfig.toml` checks the whole project.

## How it is modelled

* **Code that works in place** keeps its form: classes with fields (`Pool.TargetState`,
  `Pool.Group`, `Proxy.Proxy`, `Limiter.Limiter`) and methods with loops (the scheduler's pass, the
  eviction of idle instances, address allocation, the filter), each proved against a specification.
* **Protocols over the shared store** are step machines. A state holds the store and, for every
  participant, a program point with what it last read. One action is one call, one single store
  operation, one passage of time or one crash; `Exec` runs any sequence of actions, so a theorem about
  `Exec` for an arbitrary schedule is a theorem about every interleaving. Beside each safety theorem
  stand lemmas named `...Alone`, which say exactly what a call does when nobody disturbs it: without
  them a protocol that never did anything would be safe too.
* **The store** is a map with an atomic read, compare-and-swap and delete, where comparing with
  nothing means "only if absent". Stored documents are compared as values: their encoding and the
  hash that names their revision are taken to be injective. Newly generated identifiers and codes are
  taken to be new. Floating-point numbers are real numbers.

| file | models |
|---|---|
| `RoundRobin.dfy`, `Drift.dfy`, `Pool.dfy` | smooth weighted round robin with fixed and with changing candidates, target health, fail-open, building a group |
| `Proxy.dfy` | reload, bind retry and shutdown of the load balancer |
| `Registry.dfy` | optimistic concurrency of the resource registry |
| `Lease.dfy` | the leader lease |
| `Claims.dfy`, `WarmPool.dfy` | claim, release, cold start and eviction of function instances |
| `Device.dfy` | the OAuth 2.0 device authorization store (RFC 8628) |
| `FunctionPorts.dfy` | ports of function computes, claimed by creating a canonical key |
| `Subnet.dfy`, `AddressBook.dfy` | addresses of a subnet and their reservation |
| `Scheduler.dfy` | the scheduling pass over computes, nodes and pools |
| `Limiter.dfy` | the bounded table of token buckets |
| `Replication.dfy`, `Snapshots.dfy` | the resumable, crash-safe pull of a disk, and the crash-safe capture of the snapshots it is served from |
| `Seccomp.dfy` | the generated classic-BPF program |
| `Runs.dfy` | schedules of a state machine given by its step |
| `Options.dfy`, `Sets.dfy` | small helpers |

## What holds only under a condition

* The lease excludes exactly when no two contenders share a holder name (`Lease.ExclusiveIffDistinct`).
* A reservation that was reported as held can be deleted by a release of its previous owner
  (`AddressBook.OverlappingReleasesBreakPromises`). From a state in which the promises hold, this can come
  about without a further release exactly when a pending delete is outdated or two deletes of one
  reservation are pending (`AddressBook.BreakableIff`), and it never does in a schedule that has at no
  moment two deletes of one reservation pending (`AddressBook.PromisesAreKept`).
* `byDeviceCode` keeps what an earlier attempt captured, and can report an authorization that is gone
  (`Device.LookupReportsRemoved`). It reports what the committed attempt found exactly when no earlier
  attempt had found the code before the authorization was dropped (`Device.FindReportsLastAttemptIff`).
* A resumed pull fails exactly when the partial file is not a beginning of the snapshot it is noted as,
  and the next call then succeeds (`Replication.TwoCallsSuffice`).
* A release of a function instance that runs out of attempts leaves the instance assigned with no holder
  (`Claims.ReleaseCanGiveUp`), for good (`Claims.AbandonedIsStuck`). An instance is in use exactly when it
  is held or was abandoned in this way (`Claims.InUseIffHeldOrAbandoned`).
* The warm pool keeps the end of the order of last use exactly when no stale instance follows one that is
  not (`WarmPool.KeepsTheEndIff`); a timestamp that cannot be read can break this
  (`WarmPool.UnreadableLeavesAGap`), while empty and written ones do not (`WarmPool.WrittenStampsAreClocked`,
  `WarmPool.KeepsTheNewest`). Cap and floor hold for any text (`WarmPool.PolicyIsKept`).

## Model

| member | source | states |
|---|---|---|
| `RoundRobin.Winner` | internal/lbproxy/pool.go:153-161 | the scan yields the first candidate whose value no other candidate exceeds, strictly above all earlier ones, and -1 exactly when there is no candidate |
| `RoundRobin.NextAt` | internal/lbproxy/pool.go:153-162 | after a pick every candidate is ahead by its weight, the chosen one is a candidate and paid the candidates' total, and nobody else moved |
| `RoundRobin.PickKeepsSum` | internal/lbproxy/pool.go:153-162 | a pick conserves the sum of all counters |
| `RoundRobin.PickKeepsCandidateSum` | internal/lbproxy/pool.go:153-162 | a pick conserves the sum of the candidates' own counters |
| `RoundRobin.WinnerIsPositive` | internal/lbproxy/pool.go:153-162 | when the candidates' counters sum to zero the winner's offered counter is at least 1, so it never falls to minus the total |
| `RoundRobin.CounterMeasuresShare` | internal/lbproxy/pool.go:127-164 | between any two moments of a run a counter moved by picks times weight minus total times the number of times its target was chosen; a non-candidate is never chosen |
| `RoundRobin.CounterBounds` | internal/lbproxy/pool.go:127-164 | from rest, after any number of picks among n candidates of total weight W, every candidate's counter lies between 1 - W and (n - 1)(W - 1) |
| `RoundRobin.PrefixFairness` | internal/lbproxy/pool.go:127-164 | in the first k picks from rest a target of weight w is chosen c times with c * W at most k * w + W - 1, and at least k * w - (n - 1)(W - 1) |
| `RoundRobin.FullRound` | internal/lbproxy/pool.go:127-164 | W picks from rest choose every candidate exactly its weight times, nobody else, and restore every counter |
| `RoundRobin.RunIsPeriodic` | internal/lbproxy/pool.go:127-164 | from rest the counters repeat every W picks, wherever one starts |
| `RoundRobin.AnyWindow` | internal/lbproxy/pool.go:127-164 | every window of W consecutive picks of a run from rest chooses every candidate exactly its weight times |
| `RoundRobin.CountersSumToZero` | internal/lbproxy/pool.go:110-164 | with candidates that change arbitrarily from pick to pick, the counters of a group sum to zero for ever |
| `Drift.PickKeepsWithin` | internal/lbproxy/pool.go:127-164 | whoever the candidates are, a pick keeps every set of t of the n targets below W * t * (n - t) / 2, where W is the weight of all |
| `Drift.SetsStayWithin` | internal/lbproxy/pool.go:127-164 | in every run from rest, with candidates that change arbitrarily from pick to pick, every set of t of the n targets keeps counters that add up to at most W * t * (n - t) / 2 |
| `Drift.CounterStaysWithin` | internal/lbproxy/pool.go:127-164 | so every single counter stays within (n - 1) * W / 2 of zero in every such run |
| `Drift.CounterIsDueLessWon` | internal/lbproxy/pool.go:127-164 | a counter is what its target was due, its weight for every pick it was a candidate of, less what it won, the weight on offer at every pick it got |
| `Drift.FairUnderHealthChanges` | internal/lbproxy/pool.go:127-164 | however targets come and go, what a target won differs from what it was due by at most (n - 1) * W / 2 |
| `Pool.TargetState.constructor` | internal/lbproxy/pool.go:16-25 | a new state has unknown health and no streak |
| `Pool.TargetState.ObserveCheck` | internal/lbproxy/pool.go:37-57 | the fields after a check are the health machine's next record, which the streak lemmas below characterise |
| `Pool.TargetState.ObserveTraffic` | internal/lbproxy/pool.go:60-73 | the fields after a traffic outcome are the health machine's next record, whatever the healthy threshold |
| `Pool.SuccessesAreAStreak` | internal/lbproxy/pool.go:37-73 | over any history the success count is the number of passed checks in the longest final stretch without a failed check and without a traffic ejection |
| `Pool.FailuresAreAStreak` | internal/lbproxy/pool.go:37-57 | over any history the failure count is the number of failed checks in the longest final stretch without a passed check |
| `Pool.PassiveIsAStreak` | internal/lbproxy/pool.go:37-73 | over any history the passive count is the number of failures in the longest final stretch of traffic without a success or a check that put the target back |
| `Pool.CreditSinceEjection` | internal/lbproxy/pool.go:37-73 | the passed checks an unhealthy target is credited with all came after its ejection: it was unhealthy throughout their stretch |
| `Pool.ReadmissionIsEarned` | internal/lbproxy/pool.go:37-73 | an unhealthy target becomes eligible only by a passed check that ends a stretch of at least the healthy threshold of passed checks and no failed one, throughout which the target was unhealthy |
| `Pool.EjectionIsEarned` | internal/lbproxy/pool.go:37-73 | a target becomes unhealthy only at the end of a stretch of at least the unhealthy threshold of failures, of checks or of traffic |
| `Pool.FailedChecksEject` | internal/lbproxy/pool.go:37-57 | over any final stretch without a passed check the failed checks are all counted, and once they reach the unhealthy threshold the target is unhealthy |
| `Pool.FailedTrafficEjects` | internal/lbproxy/pool.go:60-73 | over any final stretch without a successful exchange or a check that put the target back the failed exchanges are all counted, and once they reach the unhealthy threshold the target is unhealthy |
| `Pool.PassedChecksReadmit` | internal/lbproxy/pool.go:37-57 | over any final stretch without a failed check or a traffic ejection the passed checks are all counted, and once they reach the healthy threshold the target is healthy |
| `Pool.UnhealthyWasEjected` | internal/lbproxy/pool.go:25-73 | a target starts eligible: an unhealthy one was ejected at some event and has been unhealthy ever since |
| `Pool.LastErrorIsLatest` | internal/lbproxy/pool.go:37-73 | the error on record is that of the latest event that was a check or a failure |
| `Pool.Group.constructor` | internal/lbproxy/pool.go:92-103 | a group starts valid, closed and with all counters at zero |
| `Pool.Group.CandidatesAre` | internal/lbproxy/pool.go:27-152 | a target may be picked exactly when it is not excluded and not unhealthy, or not excluded while all that are not excluded are unhealthy; so there is a candidate unless all are excluded |
| `Pool.Group.Gather` | internal/lbproxy/pool.go:130-152 | the candidates are the fit targets, or with no fit target all that are not excluded; whether there is any is reported |
| `Pool.Group.Offer` | internal/lbproxy/pool.go:153-161 | every candidate's counter gains its weight, and the best and the total are those of the offered counters |
| `Pool.Group.Charge` | internal/lbproxy/pool.go:153-163 | the counters become those of one pick of the round robin and the answer is its choice |
| `Pool.Group.Pick` | internal/lbproxy/pool.go:127-164 | nil exactly when every target is excluded; otherwise the round robin's choice among the candidates, with its counters; fail-open is on exactly when a pick had no fit target, and a pick without any target leaves it |
| `Pool.KeysApart` | internal/lbproxy/pool.go:105-107 | targets share a key exactly when they share group, address and port |
| `Pool.Adopt` | internal/lbproxy/pool.go:110-122 | a target gets the state object its key already has, else a fresh one that is filed under its key; every known state stays |
| `Pool.NewGroup` | internal/lbproxy/pool.go:105-122 | the group has the configured targets in order, at rest, each with the state filed under its key; known states are kept and exactly the missing keys are added, with new states |
| `Proxy.WantedIsTargets` | internal/lbproxy/proxy.go:80-87 | the keys a configuration asks for are exactly those of the targets of its groups |
| `Proxy.ByNameHolds` | internal/lbproxy/proxy.go:101-116 | the names a configuration asks for are exactly those of its listeners, each with the listener so called |
| `Proxy.StartCounted` | internal/lbproxy/proxy.go:131-147 | starting a fresh checker under a key keeps the books: every checker started and no longer filed has been cancelled exactly once |
| `Proxy.OpenCounted` | internal/lbproxy/proxy.go:104-115 | opening a fresh listener under a name keeps the books: every listener created and no longer filed has been closed exactly once |
| `Proxy.EarlierGroups` | internal/lbproxy/config.go:181-193 | in a validated configuration no key of an earlier group belongs to a later one, so a repeated key never changes its check within a reload |
| `Proxy.Proxy.constructor` | internal/lbproxy/proxy.go:52-71 | a new proxy runs the empty configuration with nothing started |
| `Proxy.Proxy.EnsureChecker` | internal/lbproxy/proxy.go:131-147 | the running checker is kept when its check is the same; otherwise it is cancelled once and a checker never used before runs the new check on the same state |
| `Proxy.Proxy.CheckTarget` | internal/lbproxy/proxy.go:83-87 | one target gets its checker while everything carried over so far stays carried over and every checker reports to the state filed under its key |
| `Proxy.Proxy.AdoptGroup` | internal/lbproxy/proxy.go:81 | a group routes to its configured targets, each with the state filed under its key; keys that had a state keep it and the others get new ones |
| `Proxy.Proxy.CheckGroup` | internal/lbproxy/proxy.go:83-87 | after the loop exactly the group's targets joined the kept keys, with the group's check |
| `Proxy.Proxy.AddGroup` | internal/lbproxy/proxy.go:80-88 | both for one group: states and checkers are filed under the same keys again |
| `Proxy.Proxy.AddGroups` | internal/lbproxy/proxy.go:80-88 | after the loop exactly the configuration's groups route and exactly its targets are kept, beside what ran before |
| `Proxy.Proxy.Sweep` | internal/lbproxy/proxy.go:89-95 | exactly the kept keys keep their checker and state; every other checker is cancelled once |
| `Proxy.Proxy.PlaceListener` | internal/lbproxy/proxy.go:103-114 | an unchanged bind key keeps the listener and its socket with the new configuration in place; otherwise the old one is closed once and a new listener tries to bind |
| `Proxy.Proxy.DropListeners` | internal/lbproxy/proxy.go:117-122 | exactly the wanted listeners remain, untouched; every other one is closed once |
| `Proxy.Proxy.ApplyTargets` | internal/lbproxy/proxy.go:78-96 | exactly the configuration's targets have a state and one checker with the group's check, and exactly its groups route; surviving keys keep their state object and, if unchanged, their checker; the rest is new |
| `Proxy.Proxy.ApplyListeners` | internal/lbproxy/proxy.go:101-122 | exactly the configuration's listeners exist and serve it; unchanged bind keys keep listener and socket; the rest is new |
| `Proxy.Proxy.Apply` | internal/lbproxy/proxy.go:74-127 | targets and listeners at once, one generation later, with every replaced or dropped checker and listener stopped exactly once; applying the running configuration again changes no state, checker or listener |
| `Proxy.ReloadKeepsAll` | internal/lbproxy/proxy.go:74-127 | whatever a reload of the running configuration may do under the contract of Apply, it leaves all states, checkers and listeners as they were |
| `Proxy.Proxy.RetryBinds` | internal/lbproxy/proxy.go:174-182 | a listener is bound afterwards if it was or if its attempt succeeds; nothing else changes |
| `Proxy.Proxy.RunningAreOnFile` | internal/lbproxy/proxy.go:74-147 | until shutdown the checkers that were started and not cancelled are exactly those on file, one for each target |
| `Proxy.Proxy.OneStatePerTarget` | internal/lbproxy/proxy.go:74-147 | a target of a running group, the state filed under its key and the checker of that key share one state object |
| `Proxy.Proxy.StatesApart` | internal/lbproxy/proxy.go:74-147 | targets of running groups with a different group, address or port never share a state object |
| `Proxy.Proxy.Shutdown` | internal/lbproxy/proxy.go:195-207 | no listener remains, every listener ever created has been closed exactly once, and the context every checker runs under is ended |
| `Registry.UntouchedStays` | internal/registry/registry.go:40-79 | a document changes only by applied calls on its own UID |
| `Registry.CommitKeeps` | internal/registry/registry.go:57-79 | committing a call that the one-step reference applies now keeps store and commit log in agreement |
| `Registry.FirstStepDecides` | internal/registry/registry.go:57-70 | the first store operation of a call decides as the one-step reference does, and commits at once what needs no read |
| `Registry.ReadKeeps` | internal/registry/registry.go:57-70 | what a call has read justifies its later swap as long as the document stays the same |
| `Registry.Serializable` | internal/registry/registry.go:40-141 | in every interleaving of Put, TryUpdate and Delete the store is the one the applied calls give one at a time in commit order, each applied there too and within its own call; a refused call is refused by the reference too, unless a rival on the same UID was applied meanwhile |
| `Registry.AppliedIffCommitted` | internal/registry/registry.go:40-141 | a step reports a call as applied if and only if it appends exactly that call to the log; any other step leaves log and store alone |
| `Registry.SuccessesAreTheLog` | internal/registry/registry.go:40-141 | in every schedule the calls reported as applied and the commits correspond one to one and in order |
| `Registry.NoLostUpdate` | internal/registry/registry.go:115-141 | in every schedule the store is what the calls reported as applied give one at a time in the order of their reports, and each TryUpdate among them mutated exactly the document its predecessors left |
| `Registry.AppliedDoes` | internal/registry/registry.go:40-141 | in every schedule, at the step that reports a call as applied: a Put found its UID absent or at the revision it carried and left its document there, a TryUpdate left what its callback makes of the document that was there, a Delete left nothing, and no other UID changed |
| `Registry.RefusedBecause` | internal/registry/registry.go:40-141 | in every schedule a call that ends otherwise ends as the store at its first operation shows, or with a conflict because its document is no longer the one it read |
| `Registry.AloneIsAtomic` | internal/registry/registry.go:40-141 | undisturbed, each call does to the store and reports what the one-step reference does |
| `Registry.AloneAnswers` | internal/registry/registry.go:40-141 | undisturbed, a Put conflicts exactly when its UID is there unexpectedly or not at its revision, a TryUpdate reports a missing document or a refusing callback, everything else with a UID is applied, and what is not applied changes nothing |
| `Lease.SwapKeeps` | internal/controllers/lease.go:74-85 | a swap that goes through leaves no other contender leading |
| `Lease.Safe` | internal/controllers/lease.go:50-126 | every schedule of contenders with distinct names, from any stored record, keeps the lease invariant |
| `Lease.AtMostOneLeader` | internal/controllers/lease.go:50-126 | in every schedule at most one contender holds an unexpired unreleased grant, it is the one in the store, and it has at most its own ttl left |
| `Lease.YesMeansStored` | internal/controllers/lease.go:50-126 | a step that answers yes to Acquire or Renew leaves the contender's own record in the store, one that answers yes to Release a blank one, and one that answers no, or nothing, leaves record and grants alone |
| `Lease.TermIsGranted` | internal/controllers/lease.go:50-126 | in every schedule what a contender may conclude from its answers alone, that it leads until the expiry stored with the last yes, is exactly its grant |
| `Lease.TermsDoNotOverlap` | internal/controllers/lease.go:50-126 | so in every schedule two contenders that both conclude from their answers that they lead now are one |
| `Lease.TakeoverWaitsForExpiry` | internal/controllers/lease.go:50-85 | a step that replaces another contender's record happens only when the clock has reached that record's expiry |
| `Lease.SharedNameBothLead` | internal/controllers/lease.go:50-85 | two contenders with one name can both lead, by a given schedule |
| `Lease.ExclusiveIffDistinct` | internal/controllers/lease.go:50-126 | the lease is exclusive over all schedules if and only if no two contenders share a name |
| `Lease.AcquireAlone` | internal/controllers/lease.go:50-85 | undisturbed, Acquire succeeds exactly when the record is absent, expired or its own, then holds for its ttl; otherwise it changes nothing |
| `Lease.NoTermNoLease` | internal/controllers/lease.go:51-53 | without a positive ttl Acquire is refused at once |
| `Lease.RenewAlone` | internal/controllers/lease.go:113-126 | undisturbed, Renew extends record and grant exactly when it still holds the lease in time, and otherwise changes nothing |
| `Lease.ReleaseAlone` | internal/controllers/lease.go:87-108 | undisturbed, Release gives up exactly its own lease, after which anyone may acquire it |
| `Claims.WriteKeeps` | internal/function/invoke.go:129-170 | any write that keeps deletion marks and leaves records held by others in use keeps the claim invariant |
| `Claims.Safe` | internal/function/invoke.go:129-316 | every schedule of invokers and controllers keeps the claim invariant |
| `Claims.ClaimsAreExclusive` | internal/function/invoke.go:129-170 | in every schedule an instance has at most one holder between claim and release, and a held instance is on record, assigned and not marked for deletion |
| `Claims.HeldIsLeftAlone` | internal/controllers/function.go:290-322 | no step of anyone else unassigns, marks, removes or re-dates a held instance |
| `Claims.DeletionIsFinal` | internal/controllers/function.go:401-465 | a deletion mark is never taken back and a removed UID never returns |
| `Claims.SecondMarkIsDead` | internal/controllers/function.go:401-447 | after marking an instance the controller finds it marked or gone, so its unconditional second write never happens |
| `Claims.HoldStep` | internal/function/invoke.go:129-316 | a hold begins by taking the record into use and ends by putting it out of use or by giving up without a write; nothing else changes whether a record is in use |
| `Claims.HoldEndsByRelease` | internal/function/invoke.go:266-316 | in every schedule a hold ends only by its own holder's release or cleanup: by one swap that makes the record warm, or by losing the last attempt |
| `Claims.InUseIffHeldOrAbandoned` | internal/function/invoke.go:269-284 | in every schedule a record is assigned and unmarked if and only if someone holds it or a release or cleanup of it gave up, and never both |
| `Claims.AbandonedIsStuck` | internal/function/invoke.go:269-284 | a record whose release gave up stays assigned with no holder in every continuation: no one claims, evicts, marks or removes it |
| `Claims.ReleaseCanGiveUp` | internal/function/invoke.go:269-284 | a schedule in which three lost swaps leave a record assigned with no holder |
| `Claims.GivesUpAfterRivals` | internal/function/invoke.go:200-284 | in every schedule a release gives up only after three, and a cleanup only after sixteen, writes of others to its record since it began |
| `Claims.ClaimAlone` | internal/function/invoke.go:129-170 | undisturbed, a record is claimed exactly when warm and unmarked, and only its use changes |
| `Claims.ReleaseAlone` | internal/function/invoke.go:269-316 | undisturbed, the end of a response body returns the instance as warm and used now, once: a further read or close does nothing, and the next claim succeeds |
| `Claims.EvictAlone` | internal/controllers/function.go:401-427 | undisturbed, an eviction marks the record exactly when it is not assigned |
| `Claims.CleanupAlone` | internal/function/invoke.go:196-215 | undisturbed, a failed cold start leaves its record marked and warm, and a successful one makes its caller the holder |
| `Claims.ForwardFailureAlone` | internal/function/invoke.go:114-122 | undisturbed, a failed forward returns the record as warm and used now, and a successful one goes on to stream with the record still held |
| `Claims.FinalizeAlone` | internal/controllers/function.go:451-465 | undisturbed, finalizing removes a marked record with its last finalizer, takes the function finalizer off otherwise, and leaves unmarked records alone |
| `Claims.SyncAlone` | internal/controllers/function.go:290-322 | undisturbed, a sync records phase and node of an unmarked record and changes nothing else |
| `Claims.CreateAlone` | internal/controllers/function.go:328-350 | a record of the pool starts warm, one of a cold start starts assigned to its caller, both unmarked |
| `WarmPool.SortByLastUsed` | internal/controllers/function.go:359 | the result holds the same instances in the order of the text of their last use |
| `WarmPool.EvictIdle` | internal/controllers/function.go:358-396 | deleted are, in order, those that go, kept the rest, together exactly the given instances; a failing delete ends the pass with its error after exactly the deletes before it |
| `WarmPool.TrimCap` | internal/controllers/function.go:361-370 | the first loop deletes everything over the cap, or stops at the first failing delete |
| `WarmPool.TrimIdle` | internal/controllers/function.go:376-395 | the second deletes the stale below the floor and keeps the rest in order, or stops at the first failing delete |
| `WarmPool.Trim` | internal/controllers/function.go:361-395 | both together delete exactly those that go, in order, and keep the rest, or stop at the first failing delete |
| `WarmPool.KeepsTheEndIff` | internal/controllers/function.go:358-396 | what goes is the beginning of the order and what stays its end if and only if, between cap and floor, no stale instance follows one that is not |
| `WarmPool.UnreadableLeavesAGap` | internal/controllers/function.go:386-394 | an input that fails it: a timestamp that cannot be read and sorts after one that can |
| `WarmPool.KeepsTheNewest` | internal/controllers/function.go:358-396 | where text order is time order it holds: what is kept is the end of the order and what is deleted its beginning |
| `WarmPool.WrittenStampsAreClocked` | internal/controllers/function.go:386 | text order is time order when every text is empty or was written by a formatter that keeps the order of times |
| `WarmPool.PolicyIsKept` | internal/controllers/function.go:352-396 | for any timestamps, at most maxWarm stay when it is set and the newest minWarm up to that cap always stay, as the end of what is kept |
| `WarmPool.OnlyTheStaleGo` | internal/controllers/function.go:376-394 | between those bounds an instance goes exactly when it was not used within the time-to-live or its timestamp cannot be read |
| `Device.RebuildBijective` | internal/idp/device.go:65-74 | the two indexes rebuilt from a good stored table are inverses of each other and hold exactly that table |
| `Device.PurgeKeeps` | internal/idp/device.go:76-80 | purging keeps exactly the unexpired entries, unchanged, and the indexes inverse |
| `Device.ChangeKeeps` | internal/idp/device.go:101-207 | every operation keeps the indexes inverse and the table within 1024 entries |
| `Device.AtomicKeepsGood` | internal/idp/device.go:54-207 | a whole transaction keeps the stored table good |
| `Device.CaptureIsReset` | internal/idp/device.go:136-207 | what approve, deny and poll report does not depend on earlier attempts, nor does what any operation writes |
| `Device.Serializable` | internal/idp/device.go:54-99 | in every schedule of any number of servers the table is what the committed transactions give one at a time in commit order, and approve, deny and poll report what the committed attempt found |
| `Device.OnlyCommitsWrite` | internal/idp/device.go:54-99 | the table changes only when a call commits, and a call reports a result exactly when it commits |
| `Device.ExhaustedAfterSixteen` | internal/idp/device.go:57-99 | in every schedule a transaction is given up exactly when its sixteenth swap is lost, and each swap it lost was lost to a commit made since the read before it |
| `Device.AloneIsAtomic` | internal/idp/device.go:54-207 | undisturbed, a call is one indivisible transaction; only a create is refused, exactly when the unexpired table is full or its user code taken |
| `Device.CreatesIffRoom` | internal/idp/device.go:101-123 | a create is written exactly when fewer than 1024 authorizations are unexpired and none of them has its user code |
| `Device.CreateAloneIffRoom` | internal/idp/device.go:101-123 | undisturbed from every reachable table, a create ends with its authorization stored under exactly that condition, and is refused otherwise |
| `Device.EntryEffect` | internal/idp/device.go:101-207 | exactly what a transaction does to each authorization: it stays unless expired, removed or polled after its verdict; only a decision changes its status and only a poll its pace; a poll of a decided one hands over exactly its entry, one on time of a pending one returns the entry as stored, and expired_token is answered exactly when it is absent or expired |
| `Device.SuccessDecides` | internal/idp/device.go:136-163 | an approve or deny that reports success decided some pending authorization |
| `Device.StageAdvances` | internal/idp/device.go:101-207 | along the commits an authorization only moves forward; a decision moves it from pending to decided and a delivery from decided to gone |
| `Device.OneDecisionOneDelivery` | internal/idp/device.go:136-207 | in every schedule at most one approve or deny of an authorization succeeds and at most one poll receives the approved grant |
| `Device.ReportedSuccessDecides` | internal/idp/device.go:136-163 | in every schedule each success that approve or deny reports decided an authorization |
| `Device.VerdictHasDecision` | internal/idp/device.go:136-163 | a verdict in the table was put there by a committed approve or deny that said so |
| `Device.DeliveredWasApproved` | internal/idp/device.go:178-207 | the grant a poll hands out carries the subject and roles of the one earlier approve, and no other decision was ever made |
| `Device.StaysUntilEnded` | internal/idp/device.go:54-207 | over any stretch of commits an authorization stays exactly until one that finds it expired, removes it or was handed its verdict; its expiry never changes, and once decided nothing of it does |
| `Device.FirstPollAfterApproval` | internal/idp/device.go:178-207 | in every schedule the first poll after an approval is handed exactly the approved grant if nothing removed it and it has not expired, and is told expired_token otherwise |
| `Device.IndexesStayBijective` | internal/idp/device.go:54-123 | in every schedule the stored table has at most 1024 entries, each under its own device code with no user code twice, so the indexes of every transaction are inverses of each other |
| `Device.FindReportsLastAttemptIff` | internal/idp/device.go:124-135 | in every schedule a committed lookup reports what its last attempt found if and only if no earlier attempt had found the code before a commit dropped it or it expired |
| `Device.LookupReportsRemoved` | internal/idp/device.go:124-135 | a schedule in which a lookup reports an authorization that is no longer in the table and that its committed attempt did not find |
| `Device.TableRemembersPace` | internal/idp/device.go:178-207 | a pending entry records its last poll and an interval of five seconds plus five for every slow_down it was answered |
| `Device.PollsArePaced` | internal/idp/device.go:178-207 | section 3.5 of RFC 8628 over every schedule: a poll of a still pending authorization is answered slow_down exactly when it comes sooner than that interval after the previous one, and otherwise is handed the pending entry as stored |
| `FunctionPorts.StepKeeps` | internal/functionpool/pool.go:28-93 | every step keeps each port of the range with the compute that is named after it |
| `FunctionPorts.PortsAreExclusive` | internal/functionpool/pool.go:28-72 | in every schedule no two stored computes map one port of the range, and the one that does is the one named after it |
| `FunctionPorts.AnswerIsRight` | internal/functionpool/pool.go:28-72 | a returned port is from 30000 to 32767, unmapped in the caller's snapshot and unmapped at the moment of creation, and the compute created maps exactly it; exhaustion is reported only when every port was seen used or lost; a failed try writes nothing |
| `FunctionPorts.UserWriteIsScreened` | internal/domain/resource/compute.go:76-82 | a user's compute is stored if and only if it maps no host port from 30000 to 32767 |
| `FunctionPorts.RetiredKeepsItsPort` | internal/functionpool/pool.go:74-93 | a retired compute is marked and keeps its port, which is free again only when the compute is removed |
| `FunctionPorts.CreateLoop` | internal/functionpool/pool.go:35-71 | the loop takes the lowest free port, and exhaustion means that there is none |
| `FunctionPorts.CreateAlone` | internal/functionpool/pool.go:28-72 | undisturbed, the interleaved call takes the lowest free port or is told there is none, within one turn for each port and one more |
| `FunctionPorts.CreateEnds` | internal/functionpool/pool.go:51-71 | in every schedule, whatever the others do, a call is over after that many turns of its own |
| `Subnet.FirstFree` | internal/manager/compute.go:991-1013 | the first offered candidate that is not used, and none exactly when all are used |
| `Subnet.AllocateIP` | internal/manager/compute.go:991-1013 | the scan loop returns that candidate |
| `Subnet.BlockOf` | internal/manager/compute.go:975-989 | masking out n bits names the block of 2^n addresses that the address is in |
| `Subnet.SubnetIsABlock` | internal/manager/compute.go:975-989 | a subnet contains exactly the addresses of one block that ends within 32 bits |
| `Subnet.ParseIsValid` | internal/manager/compute.go:975-989 | parsing an address with a prefix from 0 to 32 yields a valid subnet that contains it |
| `Subnet.LastHostValue` | internal/manager/compute.go:975-989 | under 32-bit wrap-around the last host is the second to last address of the block, or the highest address for the /32 at zero |
| `Subnet.OfferedExactly` | internal/manager/compute.go:991-1013 | offered are exactly the addresses with last octet 10 to 249 in the base's /24 that lie in the subnet below its top six |
| `Subnet.CandidateIs` | internal/manager/compute.go:991-1013 | candidate i is the address of the base's own /24 with last octet i |
| `Subnet.NodeAddressesDistinct` | internal/manager/compute.go:958-973 | hosts of different rank get different addresses, all in the subnet's top six |
| `Subnet.NodeAddressIs` | internal/manager/compute.go:958-973 | a host has an address exactly when its rank is 0 to 4 and the subnet is large enough, and it is the one that far below the last host, whatever wraps around |
| `Subnet.AllocationIsClear` | internal/manager/compute.go:958-1013 | for every subnet from /0 to /32 an allocated address is in it, was not in use, and is no host's address |
| `Subnet.LeftIsBounded` | internal/manager/addressbook.go:48-63 | at most 240 candidates are left to try |
| `Subnet.EachTryCosts` | internal/manager/addressbook.go:48-63 | marking the tried address as used leaves strictly fewer, so allocate ends |
| `AddressBook.StepKeeps` | internal/manager/addressbook.go:30-82 | as long as no two deletes of one reservation are pending, every step keeps all promises on record |
| `AddressBook.PromisesAreKept` | internal/manager/addressbook.go:30-82 | in every schedule that never has two deletes of one reservation pending, whoever was told it holds an address is its recorded owner until it releases it, and no one else was told so |
| `AddressBook.ToldIsOnRecord` | internal/manager/addressbook.go:30-63 | at the step that tells a caller it holds an address, the address is on record as its own and promised to it; any other step but a delete changes neither book nor promises |
| `AddressBook.OnlyReleaseEndsPromise` | internal/manager/addressbook.go:66-82 | a promise ends only by the delete of a release by its own owner |
| `AddressBook.OverlappingReleasesBreakPromises` | internal/manager/addressbook.go:66-82 | a schedule with two overlapping releases after which a promised address is not on record |
| `AddressBook.TwoDeletesBreak` | internal/manager/addressbook.go:66-82 | from any state with two pending deletes of one reservation, four steps without a further release delete the next owner's promised address |
| `AddressBook.OutdatedBreaks` | internal/manager/addressbook.go:66-82 | a pending delete whose reservation is gone or has another owner by now takes the next owner's promised address, in at most three steps |
| `AddressBook.BreakableIff` | internal/manager/addressbook.go:30-82 | in every reachable state in which the promises hold, a promise can be broken without a further release reading its key if and only if a pending delete is outdated or two deletes of one reservation are pending |
| `AddressBook.AllocatedIsClear` | internal/manager/compute.go:821-847 | in every schedule the address about to be reserved is in the subnet, not in use and no host's |
| `AddressBook.AllocateEnds` | internal/manager/addressbook.go:48-63 | in every schedule, whatever the others do, an allocation is over within 480 store operations of its own |
| `AddressBook.ClaimAlone` | internal/manager/addressbook.go:30-45 | undisturbed, a claim succeeds exactly when the address is free or already the owner's |
| `AddressBook.ReleaseAlone` | internal/manager/addressbook.go:66-82 | undisturbed, a release removes exactly its own owner's reservation |
| `AddressBook.AllocateLoop` | internal/manager/addressbook.go:48-63 | the loop reserves the first offered address that is neither in use nor another's, and fails exactly when there is none |
| `AddressBook.AllocateAlone` | internal/manager/addressbook.go:48-63 | undisturbed, the interleaved allocation settles as the loop does and reports what it reserved |
| `Scheduler.PickNode` | internal/controllers/scheduler.go:269-293 | the node picked is ready, matches the selector, has room, and has the fewest pods, the first of equals; none exactly when no node qualifies |
| `Scheduler.EvictAll` | internal/controllers/scheduler.go:105-116 | exactly the computes on nodes that are not ready lose their node, unless the write fails |
| `Scheduler.Account` | internal/controllers/scheduler.go:118-128 | the tracked allocation of each node is the sum over its placed computes that are not being deleted |
| `Scheduler.PlaceOne` | internal/controllers/scheduler.go:130-152 | one turn of the loop is a placement step and the tracked allocation is exact afterwards |
| `Scheduler.PlaceAll` | internal/controllers/scheduler.go:130-152 | the loop is a run of placement steps, with the tracked allocation exact at its end |
| `Scheduler.Reconcile` | internal/controllers/scheduler.go:71-160 | the pass as a whole: evict, account, place, and record node and pool status |
| `Scheduler.CountMembers` | internal/controllers/scheduler.go:239-265 | the counts of a pool are the numbers of its matching and matching ready nodes |
| `Scheduler.UsageOfPlaced` | internal/controllers/scheduler.go:147-150 | placing a compute adds its demand to its node's sum and to no other |
| `Scheduler.StepShape` | internal/controllers/scheduler.go:130-152 | a turn changes nothing or puts its waiting compute on an eligible node, the first of those with the fewest pods; a waiting compute left alone fits nowhere |
| `Scheduler.StuckStays` | internal/controllers/scheduler.go:269-293 | what fits nowhere still fits nowhere after any placement |
| `Scheduler.RunSettles` | internal/controllers/scheduler.go:130-152 | after k turns each of the first k computes is placed or fits nowhere |
| `Scheduler.SettledRunIsStill` | internal/controllers/scheduler.go:130-152 | a loop over settled computes changes nothing |
| `Scheduler.PassSettles` | internal/controllers/scheduler.go:71-152 | after a pass nothing is left to evict and nothing left to place |
| `Scheduler.Idempotent` | internal/controllers/scheduler.go:71-160 | with the same clock, non-negative demands and successful writes, a second pass leaves exactly the world it found |
| `Scheduler.PlacementRespectsCapacity` | internal/controllers/scheduler.go:130-152 | a node within its capacity before placement is within it at every turn and after |
| `Scheduler.PassLeavesPlacedAlone` | internal/controllers/scheduler.go:130-152 | placement never moves a placed compute and never touches one being deleted |
| `Scheduler.WhatWaitsFitsNowhere` | internal/controllers/scheduler.go:130-152 | a pass places all it can: one more placement of whatever still waits would take any ready node matching its pool over its capacity |
| `Scheduler.WhatAPassMoves` | internal/controllers/scheduler.go:71-152 | a pass changes at most the node of a compute, never if it is being deleted, cannot be written or sits on a live node, and leaves every other one on a live node or waiting |
| `Scheduler.SelectorOf` | internal/controllers/scheduler.go:194-205 | the selector is that of the first pool of the name, empty without a name, and none for a name no pool has |
| `Scheduler.PodsArePlaced` | internal/controllers/scheduler.go:118-128 | the pods of a node are the number of computes placed on it and not being deleted |
| `Scheduler.RecordsAreTrue` | internal/controllers/scheduler.go:208-265 | the recorded status is true: of each node its usage after the pass and whether it was seen within the window, of each pool the numbers of matching and of matching ready nodes, and nothing else of them changes |
| `Limiter.Limiter.constructor` | internal/httpsec/limits.go:31-34 | a new limiter knows no peer |
| `Limiter.Limiter.Allow` | internal/httpsec/limits.go:36-61 | the table and the decision after a call are those of the step that the lemmas below characterise |
| `Limiter.Limiter.DropIdle` | internal/httpsec/limits.go:41-47 | the eviction loop removes exactly the peers idle for long enough |
| `Limiter.LevelGrows` | internal/httpsec/limits.go:50-53 | a peer's level rises by 100 a second up to 200, whatever happens in between |
| `Limiter.DroppingIsInvisible` | internal/httpsec/limits.go:41-47 | eviction changes no peer's level, since whoever is evicted had refilled |
| `Limiter.StepByLevel` | internal/httpsec/limits.go:36-61 | a call is admitted exactly when its peer finds a slot and has a token, and costs that peer one token and no one else anything |
| `Limiter.SameLevels` | internal/httpsec/limits.go:36-61 | after every sequence of calls the bounded table and one that never evicts give every peer the same level |
| `Limiter.EvictionIsInvisible` | internal/httpsec/limits.go:36-61 | every call not refused for want of a slot is decided exactly as by a table that never evicts |
| `Limiter.TableIsBounded` | internal/httpsec/limits.go:36-61 | the table never exceeds 4096 peers |
| `Limiter.AdmissionsArePaid` | internal/httpsec/limits.go:36-61 | the admissions of a window are at most the opening level plus the refill less the closing level |
| `Limiter.WindowBound` | internal/httpsec/limits.go:36-61 | every window of T seconds admits a peer at most 200 + 100 T times |
| `Limiter.LevelIsAccounted` | internal/httpsec/limits.go:36-61 | what a peer may spend is exactly a full burst at some call plus the refill since less its admissions since |
| `Limiter.RefusalIsEarned` | internal/httpsec/limits.go:36-61 | a call that found a slot is refused only if its peer was admitted more than 199 + 100 T times in some window of T seconds up to it |
| `Limiter.NewPeerAdmittedIff` | internal/httpsec/limits.go:36-61 | a new peer is admitted if and only if the table is not full or fewer than 4096 of its peers were heard from within ten minutes; a known peer only needs a token |
| `Limiter.OneIdlePeerMakesRoom` | internal/httpsec/limits.go:36-61 | after every sequence of calls one idle peer in the table is enough for a new one to be admitted |
| `Replication.AnswerKeeps` | internal/replication/server.go:110-138 | every answer carries the digest of a captured snapshot |
| `Replication.Safe` | internal/replication/client.go:70-183 | every schedule of steps, failures, crashes and source changes keeps the transfer invariant |
| `Replication.DestinationIsWhole` | internal/replication/client.go:70-170 | at every moment only synced files have been renamed over the destination, so that no crash can tear it; it holds its old content or one complete served snapshot, and a call asks the server at most twice |
| `Replication.OnlyRenameWrites` | internal/replication/client.go:156-169 | the destination changes only by renaming a transfer whose checksum matched, or by a crash that undoes renames whose directory was not synced since, however long ago they were made |
| `Replication.SuccessInstalls` | internal/replication/client.go:70-170 | in every schedule a call that reports success has renamed, since it began, a snapshot the server gave it over the destination, which still holds it, and a crash can no longer undo that |
| `Replication.NoteIsNotChecked` | internal/replication/client.go:163-170 | once the image is in place, failing to remove the note does not fail the call |
| `Replication.CaptureLeavesOne` | internal/replication/server.go:203-246 | every capture leaves the server with that one snapshot, of the disk as it is |
| `Replication.DownloadAlone` | internal/replication/client.go:122-169 | undisturbed, a download installs its content exactly when the checksum matches, and otherwise keeps the destination and drops the note |
| `Replication.FreshPullAlone` | internal/replication/client.go:70-170 | undisturbed and with nothing to resume, a call installs the disk as it is now and leaves no leftovers |
| `Replication.RetryAlone` | internal/replication/client.go:105-113 | a refused resume starts over once and installs the disk as it is now |
| `Replication.ResumedPullAlone` | internal/replication/client.go:70-170 | undisturbed, a resumed call succeeds exactly when the leftovers are a beginning of the snapshot they are noted as |
| `Replication.TwoCallsSuffice` | internal/replication/client.go:70-170 | from any leftovers an undisturbed call fails exactly when it resumes onto something else, and then a second call succeeds |
| `Replication.ResumeCanFail` | internal/replication/client.go:81-131 | a failing resume is reached without a crash: a call that notes a new digest and fails before it truncates an old partial file leaves the next call to fail |
| `Snapshots.Safe` | internal/replication/server.go:171-247 | every schedule of file operations, failures and crashes keeps the snapshot invariant |
| `Snapshots.ImagesAreWhole` | internal/replication/server.go:171-247 | with a crash between any two file operations, every file named after a digest holds exactly the content of that digest, cloned from the disk at some moment, and so does every answer |
| `Snapshots.TakenFromTheDisk` | internal/replication/server.go:203-216 | nothing but the disk's content at the moment of a step is ever taken as a snapshot |
| `Snapshots.FailureLeavesNoTemporary` | internal/replication/server.go:203-226 | a capture that ends before its rename answers an error and removes its temporary file |
| `Snapshots.FailureIsAnswered` | internal/replication/server.go:171-247 | whatever operation fails, the answer is an error; a file is handed out only from what is in the directory under its digest |
| `Snapshots.TemporaryIsNew` | internal/replication/server.go:203-208 | a capture works in a temporary file that was not there |
| `Snapshots.CaptureAlone` | internal/replication/server.go:203-246 | undisturbed, a capture answers with the disk as it is and leaves that one snapshot and nothing else, whatever was left there before |
| `Snapshots.VersionAlone` | internal/replication/server.go:199-202 | a request for a version is answered with exactly that snapshot if and only if it is kept |
| `Snapshots.VersionRefines` | internal/replication/server.go:110-202 | a request for a version leaves and answers what the server of the client's machine does |
| `Snapshots.CaptureRefines` | internal/replication/server.go:110-247 | so does an undisturbed capture, all its file operations together |
| `Snapshots.CrashRefines` | internal/replication/server.go:203-246 | a crash leaves what that machine takes a restarted server to hold: some of the snapshots taken, each whole |
| `Seccomp.AcceptableReturns` | cmd/container-init/main.go:69-81 | a program whose jumps land inside it and which cannot run off its end always returns a verdict |
| `Seccomp.BuildFilter` | cmd/container-init/main.go:60-81 | for every deny list and every call the program gives kill on a foreign architecture or an x32 number on amd64, EPERM on a listed call and allow otherwise, with every jump inside the program |
| `Seccomp.ChecksDecide` | cmd/container-init/main.go:78-81 | from the i-th check on the program refuses exactly what the rest of the list denies |
| `Seccomp.InstallLength` | cmd/container-init/main.go:86-91 | a program is installed exactly when it has 1 to 4096 instructions, and its length then fits the kernel's 16 bits |
| `Seccomp.Harden` | cmd/container-init/main.go:51-101 | the filter is installed exactly for deny lists of at most 2045 calls (2044 on amd64), with its true length and decision |

## Left out

- In-place update and aliasing of the registry, lease, claims, device store, address book, function ports and replication: their state is the shared store, so they are step machines on values rather than classes.
- Store operations that fail ambiguously (a timeout after which the write may or may not have happened): a store operation happens or does not.
- The stamping of kind and API version on a stored document, and listing a whole kind, which is not atomic.
- Several clock readings within one attempt of a device transaction: an attempt sees one time.
- Generation of user codes, device codes and UIDs: they are taken to be new.
- Limiter.Limiter.Allow: the clock does not go back between calls and rounding of float64 is not modelled.
- Proxy.Proxy.Apply: checkers and listeners are numbers never used before rather than goroutines and sockets, closing the idle connections of replaced groups is not modelled, and checker parameters and bind keys are compared field by field, where the source joins them with a bar.
- Proxy.Proxy.PlaceListener: sockets, connection draining and the goroutine that closes a listener are reduced to bound and closed, and whether a socket can be bound is a parameter.
- Request routing and host matching of a listener, certificates and egress policies.
- Replication.AnswerKeeps: the client's machine takes a capture as one step and a crashed server as one that holds any of the snapshots it took; the file operations behind both are modelled in the snapshot machine, which refines them, except that a failing or interleaved capture is related to the client's machine only through the wholeness of its images.
- Proxy.Proxy.Shutdown: that no checker runs once their common context has ended is what a context is, not a result.
- The function controller's fill loop, its readiness conditions and its retirement of orphaned computes, which rests on a grace period.
- Writes to instances or computes made directly through the API, which bypass the claim protocol.
- The micro-VM, disk and replica schedulers, which repeat the compute scheduler; capacity across kinds is not guaranteed by the design.
- Kernel plumbing, the hypervisor, cryptography, HTTP handlers, the command line, Terraform, metrics and the dashboard.
