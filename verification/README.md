# A verified model of the Xata control plane's concurrent and stateful cores

The control plane is mostly plumbing between Kubernetes, Keycloak, gRPC and Postgres. This project
models the parts with real invariants, and proves what every run, every input or every history of
them guarantees:

- **Protocols** as transition systems over every interleaving: the request coalescer, the draining
  wait group of the gateway, the WakeupRequest and pool-claim protocols against the Kubernetes
  store, and the file-lock protocol around downloaded test binaries. Each has a `State`, an
  `Action`, an inductive invariant and theorems over whole runs (`Runs.dfy` holds the one induction
  they share). Where the source is an object, a class holds its critical sections, and each method
  is proved to be exactly one step of the transition system.
- **In-place structures and builders** as classes: the swap-remove metrics registry, which refines
  a plain set even while a collect iterates over an aliased slice; the branch builder; the
  migration runner; the id generator.
- **Decisions and text**: API-key derivation, billing amounts, parameter bounds, UTF-8 truncation
  and Keycloak paging, against independent definitions of what they should compute.

| file | source |
|---|---|
| `Coalescer.dfy` | `internal/coalesce/coalesce.go` |
| `TimedWaitGroup.dfy` | `services/gateway/timedwaitgroup.go` |
| `WakeupRequests.dfy` | `services/clusters/wur.go` |
| `PoolClaims.dfy` | `services/clusters/pool.go` |
| `MetricsRegistry.dfy` | `internal/o11y/metrics.go` |
| `EnvtestLock.dfy` | `internal/envtestutil/envtestutil.go` |
| `ApiKeys.dfy` | `services/auth/api/handler.go` |
| `Migrations.dfy` | `internal/pgroll/pgroll.go` |
| `BranchSpecs.dfy`, `BranchBuilder.dfy` | `services/clusters/branchbuilder.go`, `services/clusters/clusters.go` |
| `BranchMandates.dfy`, `Images.dfy` | `services/clusters/overrides.go`, `internal/postgresversions/versions.go`, `internal/extensions/extensions.go`, `services/branch-operator/pkg/wakeup/branch.go` |
| `OrbAmounts.dfy` | `internal/billing/orbamount/orbamount.go` |
| `KeycloakPaging.dfy` | `services/auth/keycloak/keycloak_rest.go` |
| `SymbolIds.dfy` | `internal/idgen/shortid.go` |
| `Utf8Truncation.dfy` | `internal/grpc/pagination/pagination.go` |
| `ParameterBounds.dfy` | `internal/postgrescfg/parameters.go` |
| `GoText.dfy`, `Runs.dfy` | shared definitions: Go's string functions; runs of a transition system |

`dafny verify dfyconfig.toml` checks everything.

## Where the code does less than one might read into it

In each case the model follows the code, a lemma exhibits the failure, and another states exactly
when the expected property holds.

- The coalescer's comment (`internal/coalesce/coalesce.go:37`) says that fn executes at most once per
  key at any given time. Two executions can overlap (`OverlapHappens`). They do exactly when a call
  finds fn still executing in a flight that can no longer be joined (`OverlapBeginsIff`,
  `AtMostOnceIff`), and then one of the two is cancelled with no caller waiting
  (`OverlapOnlyWithAbandoned`).
- `Wait` of the gateway's wait group can return nil with sessions open although its timeout is not
  zero: a Done that took the counter to zero and was overtaken by an Add before it got the lock
  signals completion once the group is closed. `EarlyReturnIffStaleDone` says that this is the only
  way; `NilMeansDrained` is the strong claim for clients that exclude it.
- `ensureWakeupRequest` deletes by name, so it can delete a request newer than the one it read
  (`NilDoesNotKeepTheRequest`). A request in progress is safe from every further step of callers
  exactly when no call for its branch is about to delete (`RequestSurvivesIff`). What a nil return
  always means is `NilMeansWakeupWasInProgress`.
- A create that is repeated with the same idempotency key ensures a WakeupRequest for the existing
  branch even if that branch is awake again (`RepeatedCreateEnsuresAgain`); `CreateCallEnsuresIff`
  says exactly when a create does so.
- `ApplyMigrations` finds its place by the name of the latest migration. If a name occurs twice, an
  interrupted sequence of runs can report success with migrations skipped (`SkippingRuns`,
  `SuccessIsCompleteIffDistinct`).
- ".5" is half a dollar in cents and in micros, but an error in whole dollars
  (`DollarsParseIffWholeDigits`).
- The amount parsers accept malformed text: "1.23abc" is 123 cents, "." is none, "-" is no micros,
  and ".-5" is minus five cents (`MalformedAmounts`). `AcceptsExactly` says for every string what is
  accepted and as what, `AcceptedIsWellFormedIff` when that is well formed.
- `AdjustValueToBounds` can return a bound that `ValidateParameterValue` rejects, if the bound holds
  a control character that trimming hides from the parser (`TabbedBoundIsRejected`,
  `AdjustedValuesValidate`).
- A duration without a unit that Go does not parse either, such as "30", is read as no time at all
  (`BareNumberIsNoTime`, `DurationOf`).
- `Truncate` promises at most n bytes, but a marker longer than n does not fit (`TruncationFitsIff`).
- An update works on the request's own list of libraries. If a write meets a conflict, the next attempt
  finds that list compacted, and every xatautils that was in it becomes an empty library name:
  `["xatautils", "pg_cron"]` is stored as `["xatautils", "pg_cron", ""]` (`ConflictLeavesBlank`). The
  libraries are those asked for exactly when the first attempt is committed or the request does not
  name xatautils (`LibrariesAsAskedIff`).
- Every mandatory parameter keeps its mandated value for the current image over every history, as long
  as images are plainly named (`CurrentMandatesHold`). An image pinned by a digest after a date suffix
  is adopted by the wakeup reconciler as a newer minor, but has no extensions to look up, so that the
  branch keeps the old value (`PinnedImageKeepsOldValue`, `PinnedPairExists`). `SameKeyIff` says exactly
  which images of one line share their extensions, `CurrentMandatesHoldIff` exactly when the branch
  meets what its image mandates.

## Model

| member | source | states |
|---|---|---|
| `Coalescers.InvPreserved` | internal/coalesce/coalesce.go:100-187 | Every critical section and channel operation keeps the one invariant that ties numWaiters, cancellation, the registry and the goroutine phases together |
| `Coalescers.FlightInvPreserved` | internal/coalesce/coalesce.go:101-187 | After every step numWaiters is the number of attached calls, and until its goroutine releases the context a flight is cancelled exactly when that number is zero |
| `Coalescers.UncancelledStaysRegistered` | internal/coalesce/coalesce.go:101-111 | No step makes a live, uncancelled flight lose its place in the registry |
| `Coalescers.RegistryStaysLive` | internal/coalesce/coalesce.go:143-177 | No step leaves a registered flight whose goroutine has already passed its unregister section |
| `Coalescers.RegistryDiscipline` | internal/coalesce/coalesce.go:101-187 | In every reachable state: at most one running uncancelled flight per key, and it is the registered one; running flights are cancelled exactly when nobody is attached; numWaiters counts the attached calls; registered flights have a live goroutine |
| `Coalescers.ResultsAreUninterrupted` | internal/coalesce/coalesce.go:100-187 | In every run a result received through done comes from an fn execution whose context was not cancelled at any moment while fn was running, whatever other callers did |
| `Coalescers.NoStaleResults` | internal/coalesce/coalesce.go:159-174 | A call that begins after a flight has unregistered never waits for that flight or receives its result |
| `Coalescers.UnregisterKeepsReplacement` | internal/coalesce/coalesce.go:164-170 | Unregistering removes exactly the finished flight; a replacement under the same key stays registered and joinable |
| `Coalescers.AbandonedForever` | internal/coalesce/coalesce.go:180-187 | Once a flight is cancelled and nobody is attached, no step attaches anybody again |
| `Coalescers.OverlapOnlyWithAbandoned` | internal/coalesce/coalesce.go:37-37 | When fn executes twice at once for a key, one of the executions is cancelled and has no waiters |
| `Coalescers.OverlapBeginsIff` | internal/coalesce/coalesce.go:101-111 | A step makes fn execute twice at once for a key if and only if it is a call for that key that finds fn executing in a flight it cannot join |
| `Coalescers.AtMostOnceIff` | internal/coalesce/coalesce.go:37-111 | Over every run: fn executes at most once per key at any given time if and only if no flight is started for a key while fn is still executing for it |
| `Coalescers.OverlapHappens` | internal/coalesce/coalesce.go:101-111 | A run in which fn executes twice at once for one key |
| `Coalescers.WaiterCanFinish` | internal/coalesce/coalesce.go:126-177 | From every reachable state the flight's goroutine alone can run to the end once fn returns, and a waiting call then receives the result |
| `Coalescers.AnyoneCanJoin` | internal/coalesce/coalesce.go:100-111 | From every reachable state a new call is possible: it shares the live uncancelled flight of its key if there is one, counting as one more waiter, and otherwise starts one registered for its key with itself as the only waiter; nothing else changes |
| `Coalescers.CallerCanLeave` | internal/coalesce/coalesce.go:129-187 | From every reachable state a waiting call whose context is done gets out by its own two steps, however many others wait: it gives up, its flight counts one waiter less and is cancelled exactly if that was the last, and nothing else changes |
| `Coalescers.CallEndsOneOfTwoWays` | internal/coalesce/coalesce.go:129-137 | In every step a call stays, sees its context done, gives up after that, or receives the result of its closed flight |
| `Coalescers.Coalescer.constructor` | internal/coalesce/coalesce.go:81-95 | A new coalescer is the initial state |
| `Coalescers.Coalescer.JoinOrStart` | internal/coalesce/coalesce.go:100-111 | The locked section of Do is exactly the join step, keeps the invariant, and starts a flight exactly when none can be joined |
| `Coalescers.Coalescer.LeaveFlight` | internal/coalesce/coalesce.go:180-187 | leave is exactly the leave step and keeps the invariant |
| `Coalescers.Coalescer.UnregisterFlight` | internal/coalesce/coalesce.go:164-170 | The goroutine's registry section is exactly the unregister step and keeps the invariant |
| `TimedWaitGroups.InvPreserved` | services/gateway/timedwaitgroup.go:40-114 | Every step keeps: a Wait blocked at count zero implies completion or a pending Done; waiting or completion implies closed |
| `TimedWaitGroups.NoLostWakeup` | services/gateway/timedwaitgroup.go:57-108 | In every run a Wait blocked while the count is zero can return now, or some Done is about to enter the section after which it can |
| `TimedWaitGroups.CountNeverRisesAfterClose` | services/gateway/timedwaitgroup.go:40-54 | Once closed, the group stays closed and its count never rises |
| `TimedWaitGroups.EarlyReturnIffStaleDone` | services/gateway/timedwaitgroup.go:57-108 | For every reachable open group with a non-zero timeout: closing it can lead to a nil return with sessions open if and only if the count is positive while a Done is pending |
| `TimedWaitGroups.StaleDoneIsReachable` | services/gateway/timedwaitgroup.go:40-68 | A run that reaches such a state |
| `TimedWaitGroups.NilMeansDrained` | services/gateway/timedwaitgroup.go:79-108 | If no Add lands between a Done's decrement to zero and its lock and Dones match Adds, a nil return with non-zero timeout means closed and count zero, then and ever after |
| `TimedWaitGroups.WaitReturnsOrBlocks` | services/gateway/timedwaitgroup.go:79-91 | From every state a Wait that finds no open session or has no timeout returns nil by its own steps, closing the group and signalling completion; any other blocks |
| `TimedWaitGroups.BlockedWaitReturns` | services/gateway/timedwaitgroup.go:99-107 | A blocked Wait returns nil once completion is signalled and an error when it expires, and changes nothing else |
| `TimedWaitGroups.ErrorMeansItBlocked` | services/gateway/timedwaitgroup.go:84-107 | In every run a Wait that returned an error was blocked before |
| `TimedWaitGroups.WaitOutcome` | services/gateway/timedwaitgroup.go:79-107 | In every step nil comes only from the Wait's own signal or a signalled completion, an error only from a blocked Wait, and what has returned stays so |
| `TimedWaitGroups.TimedWaitGroup.AddSessions` | services/gateway/timedwaitgroup.go:40-54 | Add panics on a negative delta, fails on a closed group, and otherwise raises the count by delta; exactly the add step |
| `TimedWaitGroups.TimedWaitGroup.DecrementCount` | services/gateway/timedwaitgroup.go:57-62 | The atomic half of Done is the decrement step and tells whether the locked half follows |
| `TimedWaitGroups.TimedWaitGroup.CompleteIfClosed` | services/gateway/timedwaitgroup.go:62-67 | The locked half of Done is exactly its step |
| `TimedWaitGroups.TimedWaitGroup.Close` | services/gateway/timedwaitgroup.go:80-83 | The locked section of Wait is the closing step |
| `TimedWaitGroups.TimedWaitGroup.Load` | services/gateway/timedwaitgroup.go:84-87 | The load after closing decides between returning at once and blocking, as the step does |
| `TimedWaitGroups.TimedWaitGroup.SignalCompletion` | services/gateway/timedwaitgroup.go:112-114 | signalCompletion completes the group and the Wait returns nil; exactly the signal step |
| `WakeupRequests.StepForCall` | services/clusters/wur.go:74-134 | Any step by anyone, seen from one call: nil is returned only over a request in progress or over one that appeared where the call had left none |
| `WakeupRequests.CallProgress` | services/clusters/wur.go:74-134 | By induction over runs: a call that returned nil, or that finds its name taken when about to create, has had a request in progress |
| `WakeupRequests.NilMeansWakeupWasInProgress` | services/clusters/wur.go:74-134 | If the call returns nil, then at some moment after it was entered a WakeupRequest of the branch existed and was in progress, under every interleaving with callers, reconciler and garbage collection, and with errors that took effect or not |
| `WakeupRequests.RequestsAreAskedFor` | services/clusters/wur.go:109-118 | In every run a request that was not there at the start is for the volume that a call made for its branch gave |
| `WakeupRequests.GetDecides` | services/clusters/wur.go:80-107 | The get leads to nil without a verdict of the request, to its deletion with one, and to a creation if there is none |
| `WakeupRequests.CallTouchesOwnRequest` | services/clusters/wur.go:101-132 | A step of a call leaves the requests of other branches alone, removes its own only when about to delete, and creates only a fresh one without a verdict for the call's own volume |
| `WakeupRequests.DeleteDropsOnlyReplacements` | services/clusters/wur.go:101-107 | In every reachable state, a delete that takes away a request in progress takes a replacement, never the request that was read |
| `WakeupRequests.RequestSurvivesIff` | services/clusters/wur.go:101-134 | A request in progress survives every continuation by callers, with its identity, if and only if no call for its branch has read a finished request and is about to delete |
| `WakeupRequests.NilDoesNotKeepTheRequest` | services/clusters/wur.go:100-134 | A run in which a request in progress is deleted right after a caller got nil for it |
| `WakeupRequests.Server.Perform` | services/clusters/wur.go:74-134 | Each store operation is one step and extends the recorded run |
| `WakeupRequests.EnsureWakeupRequest` | services/clusters/wur.go:74-134 | The get, delete, create sequence, with arbitrary actions of others in between: success implies a request in progress during the call, and failure implies that a store call reported an error; left to itself it leaves exactly one request in progress, fresh and for the given volume unless one was already in progress |
| `WakeupRequests.DeleteFinished` | services/clusters/wur.go:101-107 | The delete of a finished request proceeds to the create exactly when the store reports no error, NotFound included |
| `WakeupRequests.CreateFresh` | services/clusters/wur.go:109-134 | The create succeeds exactly when the store reports no error, AlreadyExists included, and then a request was in progress during the call; if the name is free the request is fresh and for this call's volume |
| `PoolClaims.InvPreserved` | services/clusters/pool.go:22-196 | Every step by any claimant, the pool operator, the wakeup reconciler or anyone else keeps the invariant on versions, claims and scans |
| `PoolClaims.ClaimKeepsInv` | services/clusters/pool.go:187-196 | A swap against the version that was read claims a cluster nobody else has claimed |
| `PoolClaims.PoolVerdict` | services/clusters/pool.go:33-61 | A pool is searched exactly if class, image, CPU and memory match and its size is unset or at most the requested one; a matching one with a malformed size is an error |
| `PoolClaims.ClusterVerdict` | services/clusters/pool.go:152-166 | A cluster is claimed exactly if it is not being deleted, has a ready instance and is of an unset size or one at most the requested; one with a malformed size is an error unless it is being deleted |
| `PoolClaims.NoClusterClaimedTwice` | services/clusters/pool.go:22-196 | In every run, from arbitrarily stale lists, no cluster goes to two callers, or to a caller and the wakeup reconciler |
| `PoolClaims.ReturnedClustersAreEligible` | services/clusters/pool.go:22-179 | Every returned cluster was claimed for the request of the call from the pool returned with it, in a version owned by that pool, which matches the request, and not being deleted and ready; pool and cluster have a size that is understood and at most the requested quantity; and no pool owns it again |
| `PoolClaims.RequestStays` | services/clusters/pool.go:22-73 | A call that finds a cluster finds it for the request it was made with |
| `PoolClaims.ClaimsStay` | services/clusters/pool.go:187-196 | No step revokes a claim |
| `PoolClaims.FindPoolCluster` | services/clusters/pool.go:22-73 | The search driven on the store with arbitrary actions of others in between: a returned cluster was claimed in an eligible version for this request from a matching pool, and nobody else ever gets it; it comes back empty only after every pool differs, is larger or came up empty, which means that everything it listed was being deleted, larger, not ready or no longer current; it fails only when a request fails, a size is malformed or a listed cluster is gone |
| `PoolClaims.TryPool` | services/clusters/pool.go:33-70 | The loop body is the pool step and what follows from it: a pool that does not match or comes up empty is passed over, a malformed size is an error |
| `PoolClaims.FindAvailableCluster` | services/clusters/pool.go:105-131 | Polling goes on with fresh listings until a cluster is claimed, a request fails or the deadline is up; then, as far as nobody interfered, everything listed in any poll was passed over |
| `PoolClaims.FindHealthyCluster` | services/clusters/pool.go:136-179 | On any stale listing the first eligible cluster whose listed version is still current is claimed; every one before it was ineligible or had changed since |
| `PoolClaims.TryCluster` | services/clusters/pool.go:152-176 | The loop body is exactly the cluster step on the store: an eligible cluster that is still current is claimed, losing its owner and nothing else; conflict and error included |
| `MetricsRegistry.Registry.ContentsAreLive` | internal/o11y/metrics.go:44-50 | Between collects the list holds exactly the controllers of the plain set, each once |
| `MetricsRegistry.Registry.constructor` | internal/o11y/metrics.go:44-50 | A new registry is the empty set |
| `MetricsRegistry.Registry.UnregisterWithId` | internal/o11y/metrics.go:287-303 | Swap-remove keeps list and index a bijection and removes exactly the given id |
| `MetricsRegistry.Registry.UnregisterDropped` | internal/o11y/metrics.go:276-285 | Carries out exactly the recorded removals, in any order |
| `MetricsRegistry.Registry.Append` | internal/o11y/metrics.go:217-228 | append changes no slot below the old length, whether or not it reallocates |
| `MetricsRegistry.Registry.RegisterController` | internal/o11y/metrics.go:217-228 | Adds exactly this controller to the set and leaves the slice of a running collect intact |
| `MetricsRegistry.Registry.RemoveController` | internal/o11y/metrics.go:263-274 | Takes exactly this controller out of the set, deferred in the list during a collect, whose slice stays intact |
| `MetricsRegistry.Registry.Others` | internal/o11y/metrics.go:217-274 | Any sequence of registrations and removals refines the same sequence on the set |
| `MetricsRegistry.Registry.BeginCollect` | internal/o11y/metrics.go:154-159 | Taking the aliased slice changes nothing in the set |
| `MetricsRegistry.Registry.EndCollect` | internal/o11y/metrics.go:161-166 | Ending a collect empties the recorded removals and changes nothing in the set |
| `MetricsRegistry.Registry.ExportSnapshot` | internal/o11y/metrics.go:168-172 | The loop exports what the slice held when the collect began, whatever runs before the first and after every export |
| `MetricsRegistry.Registry.Collect` | internal/o11y/metrics.go:153-173 | Without cancellation a collect exports every controller registered at its start exactly once, and its net effect on the set is that of the concurrent operations |
| `MetricsRegistry.ApplyRoundsKeeps` | internal/o11y/metrics.go:217-274 | No schedule of operations during a collect brings back a removed controller or replaces a registered one |
| `EnvtestLock.InvPreserved` | internal/envtestutil/envtestutil.go:174-208 | Every step, crashes included, keeps the invariant relating locks, marker, binaries and process positions |
| `EnvtestLock.NoExecWhileWriting` | internal/envtestutil/envtestutil.go:174-208 | In every run no process executes or writes the binaries while another is writing them |
| `EnvtestLock.MarkerMeansComplete` | internal/envtestutil/envtestutil.go:190-200 | The marker, once present, stays and means complete binaries, whoever crashes |
| `EnvtestLock.SharedStartsNeverDownload` | internal/envtestutil/envtestutil.go:174-208 | Every start under the shared lock finds the marker and complete binaries; no download begins once the marker exists |
| `EnvtestLock.LockNeverWedges` | internal/envtestutil/envtestutil.go:174-208 | A process waiting for the lock can take it, or another process inside it has a next step other than crashing |
| `EnvtestLock.SuccessLeavesMarker` | internal/envtestutil/envtestutil.go:190-208 | In every run, whoever has started successfully leaves the marker and complete binaries for good |
| `EnvtestLock.CanAlwaysStart` | internal/envtestutil/envtestutil.go:174-208 | From every reachable state with the lock free, whatever crashed before, a new process can start by its own steps, downloading unless the binaries are complete, and leaves the marker, complete binaries and a free lock |
| `ApiKeys.RejectMixedWildcard` | services/auth/api/handler.go:495-508 | Rejects exactly the lists that mix the wildcard with another non-empty entry |
| `ApiKeys.CleanPermissionArray` | services/auth/api/handler.go:511-535 | Yields the distinct non-empty entries in order, or only the wildcard |
| `ApiKeys.DistinctKeepsEntries` | services/auth/api/handler.go:511-535 | The cleaned list has no duplicates and exactly the non-empty entries given |
| `ApiKeys.CleanGrantsTheSame` | services/auth/api/handler.go:495-535 | A list that passes the wildcard check grants the same before and after cleaning |
| `ApiKeys.DistinctGrows` | services/auth/api/handler.go:511-535 | Entries are kept in the order of first occurrence |
| `ApiKeys.CleanIsEmptyIff` | services/auth/api/handler.go:511-535 | A list counts as omitted exactly if it has no entry other than empty ones |
| `ApiKeys.MixesWildcardIff` | services/auth/api/handler.go:495-508 | Refused are exactly the lists with the wildcard and another non-empty entry |
| `ApiKeys.CheckKnown` | services/auth/api/handler.go:371-375 | Accepts exactly the lists of known scopes and wildcards |
| `ApiKeys.CheckScopes` | services/auth/api/handler.go:445-449 | Accepts exactly the lists of which every scope is allowed, write-implies-read included |
| `ApiKeys.ValidateResourceList` | services/auth/api/handler.go:550-572 | Accepts exactly the lists of which every entry is granted |
| `ApiKeys.CreateAPIKey` | services/auth/api/handler.go:332-480 | The handler with its loops takes the decision that the chain theorems are about, errors included |
| `ApiKeys.ScopeClosure` | services/auth/api/handler.go:539-547 | If every listed scope is allowed then so is everything the list allows, write-implies-read included |
| `ApiKeys.ScopeAllowedIff` | services/auth/api/handler.go:539-547 | A scope is allowed exactly by the wildcard, by its name, or, if it is for reading, by the one for writing the same |
| `ApiKeys.ChildIsBounded` | services/auth/api/handler.go:332-480 | A key created with another key allows no more, does not outlive it, and neither has an empty list |
| `ApiKeys.ChainsNeverEscalate` | services/auth/api/handler.go:332-480 | The same between any two keys of any derivation chain |
| `ApiKeys.CreatedKeysAreAsAsked` | services/auth/api/handler.go:345-480 | A created key has the expiry asked for, in the future; each of the three lists is the cleaned one if given, else the parent's, else the wildcard; scopes are known or inherited; and the hierarchy check was passed |
| `ApiKeys.KeyCreatedIff` | services/auth/api/handler.go:332-480 | Exactly which requests of an API key are granted: name of 1 to 256 bytes, future expiry not beyond the key's, unmixed known lists of at most 50 entries within the key's lists, and the hierarchy check |
| `ApiKeys.UserKeyCreatedIff` | services/auth/api/handler.go:332-480 | Exactly which requests of a user are granted |
| `ApiKeys.RefusalReasons` | services/auth/api/handler.go:332-345 | An invalid name is reported exactly for names that are empty or too long; an expiry error only for a past expiry or one beyond the parent's; nobody is granted a key anonymously |
| `ApiKeys.RotationInheritsEverything` | services/auth/api/handler.go:390-480 | A request that omits all permissions and asks for the parent's expiry yields an equal key |
| `ApiKeys.UserKeysAreBoundedIff` | services/auth/store/sqlstore/store_sql.go:288-316 | The store turns an omitted list into the wildcard, so a key created by a user stays within a list of the token exactly when the field was given or the token has the wildcard there |
| `ApiKeys.UserKeysAreBounded` | services/auth/rpc/token_claims.go:90-97 | Since user tokens carry the wildcard in all lists, a key created by a user stays within the token whatever is omitted, and has no empty list |
| `Migrations.FindLatest` | internal/pgroll/pgroll.go:111-118 | The search resumes after the last occurrence of the latest name, if there is one |
| `Migrations.ApplyMigrations` | internal/pgroll/pgroll.go:76-156 | The loop computes the specified run for every interruption, and starts only when none is active and completes only when one is |
| `Migrations.ResumeAfterLast` | internal/pgroll/pgroll.go:111-122 | The resume position is just past the last occurrence; there is none exactly when the name is not in the list |
| `Migrations.ExecuteStartsPrefix` | internal/pgroll/pgroll.go:134-153 | A run starts, in order, a prefix of the pending migrations, and all of them when it succeeds, the last of them left active; with nothing pending it changes nothing |
| `Migrations.RunsStartEachOnceInOrder` | internal/pgroll/pgroll.go:95-156 | After any number of runs interrupted anywhere, by releases that append migrations or go back: the migrations started are a prefix of all, each once and in order; success leaves exactly the list of that run; and a run can resume unless the database is ahead of its list |
| `Migrations.ExecuteSucceeds` | internal/pgroll/pgroll.go:134-153 | A run that no library call interrupts succeeds |
| `Migrations.SuccessIsCompleteIffDistinct` | internal/pgroll/pgroll.go:95-156 | Success always means that exactly the list of the run was started if and only if no name occurs twice |
| `Migrations.SkippingRuns` | internal/pgroll/pgroll.go:111-118 | For every list with a repeated name, two runs that report success with migrations skipped |
| `BranchSpecs.ParametersHoldLastWrite` | services/clusters/branchbuilder.go:158-259 | After a create and any history of updates, sleeps and cluster assignments, every parameter holds exactly its last written value, mandatory writes included |
| `BranchMandates.MandatoryParametersAreRegular` | services/clusters/overrides.go:13-49 | The same names are mandatory for every image, and the values depend on it only through what is looked up as its extensions |
| `BranchMandates.MandatoryParameter` | services/clusters/overrides.go:13-49 | The mandated value of each parameter: the list of extensions of the image for one, a fixed one for the others |
| `BranchMandates.MandatesHold` | services/clusters/branchbuilder.go:436-454 | After any history every parameter mandatory for the image last built, by the create or an accepted update, has its mandated value |
| `BranchMandates.ImageIsBuilt` | services/branch-operator/pkg/wakeup/branch.go:61-79 | After any history the current image is the one last built or the one written since by an assignment, which writes the image of the branch it read, however long ago, or the pool's |
| `BranchMandates.CurrentMandatesHold` | services/branch-operator/pkg/wakeup/branch.go:90-111 | The promise over every history with plainly named images and validated upgrades, however late assignments are written: every mandatory parameter has its mandated value for the current image |
| `BranchMandates.CurrentMandatesHoldWhenRead` | services/branch-operator/pkg/wakeup/reconciler.go:140-275 | The same for updates to any image, if assignments act on the branch as it is |
| `BranchMandates.KeyNeverChanges` | services/projects/branch/image.go:66-98 | Under validated upgrades a branch has the extensions of the image it was created with for good |
| `BranchMandates.CurrentMandatesHoldIff` | services/clusters/overrides.go:13-36 | For any images and history: no mandatory parameter is missing, and all have the values of the current image if and only if it mandates the same values as the image last built |
| `BranchMandates.PinnedImageKeepsOldValue` | services/branch-operator/pkg/wakeup/branch.go:90-111 | A pooled branch that sleeps and is woken on a cluster with a pinned newer image keeps the value mandated for the old one |
| `Images.ParsedMajor` | internal/postgresversions/versions.go:324-374 | ParseImageVersion and GetMajorForVersion read the same major version wherever the former succeeds |
| `Images.MajorIsLeadingDigits` | internal/postgresversions/versions.go:324-336 | The major version is the leading digits, also of a pre-release |
| `Images.ShortNames` | internal/postgresversions/versions.go:283-301 | The registry is dropped and the two source names are shown by their display names |
| `Images.NamedVersion` | internal/postgresversions/versions.go:341-374 | A name with offering, major, minor and any dash suffix parses to these |
| `Images.AdoptableIff` | services/branch-operator/pkg/wakeup/branch.go:90-111 | An image is adopted if and only if it is a newer minor of the same offering and major version |
| `Images.SameKeyIff` | internal/extensions/extensions.go:98-109 | Two images of one offering and major version have the same extensions to look up if and only if both or neither have a further colon and, if neither, they write the major alike |
| `Images.PlainAdoptionKeepsKey` | services/branch-operator/pkg/wakeup/branch.go:90-111 | Adopting a plainly named image never changes the extensions |
| `Images.PinnedIsAdoptable` | services/branch-operator/pkg/wakeup/branch.go:90-111 | For all offerings, versions and digests: a pinned newer minor is adopted although it has no extensions to look up and the release has |
| `Images.PinnedPairExists` | internal/postgresversions/versions.go:341-374 | postgres:17.1 and postgres:17.2-1@sha256:0 are such a pair |
| `BranchSpecs.XataUtilsFirst` | services/clusters/branchbuilder.go:415-432 | After any history xatautils is the first library and only there, followed by the libraries last asked for in their order and, if that update met a conflict, by as many empty names as it named xatautils |
| `BranchSpecs.LibrariesAsAskedIff` | services/clusters/clusters.go:422-443 | They are exactly the libraries last asked for if and only if the first attempt was committed or the request did not name xatautils |
| `BranchSpecs.ConflictLeavesBlank` | services/clusters/branchbuilder.go:228-423 | After any history, an update to xatautils and pg_cron that meets one conflict stores an empty third name |
| `BranchSpecs.OthersKeepsCounts` | services/clusters/branchbuilder.go:415-432 | No other library is lost or repeated, and what is missing is xatautils |
| `BranchSpecs.OthersOfConcatenation` | services/clusters/branchbuilder.go:422-425 | Dropping xatautils keeps the other libraries where they are |
| `BranchSpecs.CreatedRoot` | services/clusters/branchbuilder.go:53-279 | A root branch is as requested; from a pool it has that cluster and that pool and only pgbackrest backups, otherwise its own cluster |
| `BranchSpecs.CreatedChild` | services/clusters/branchbuilder.go:105-154 | A child has its parent's image, one instance and backups only if its parent has; as a clone it awaits a cluster of its parent's pool, otherwise it has its own cluster and no pool |
| `BranchSpecs.UpdatedFields` | services/clusters/branchbuilder.go:158-204 | An update replaces image and instances if given, hibernates or wakes by pool or by mode, and keeps pool, restore spec and backups; it is refused exactly when it configures backups that are not there |
| `BranchSpecs.AssignedAndSlept` | services/branch-operator/pkg/wakeup/reconciler.go:140-275 | An assignment and a sleep change only cluster, waiting mark and image, or cluster and mode |
| `BranchSpecs.WakeupPoolInvariant` | services/clusters/branchbuilder.go:134-184 | After any history a branch without a cluster has a wakeup pool, a branch with one has no hibernation mode, and the pool never changes |
| `BranchSpecs.CreateEnsuresIffAwaiting` | services/clusters/wur.go:50-67 | A create that makes the branch ensures a WakeupRequest exactly when it leaves the branch awaiting wakeup, which is when it clones the volume of a parent in a pool |
| `BranchSpecs.CreateCallEnsuresIff` | services/clusters/clusters.go:355-384 | Every create call, repeated ones included and after any history of the branch: one that makes a branch ensures a request exactly when the branch is left awaiting; one that gets an existing branch by its idempotency key does so exactly when that branch was created as a clone and the call names a parent; any other existing branch is an error |
| `BranchSpecs.RepeatedCreateEnsuresAgain` | services/clusters/clusters.go:355-384 | A create repeated after the wakeup has finished ensures a request for a branch that has its cluster and is not awaiting |
| `BranchSpecs.UpdateEnsuresIffItWakes` | services/clusters/wur.go:20-46 | An accepted update ensures a WakeupRequest exactly when it is the one that sets awaiting-wakeup |
| `BranchSpecs.FinishIsIdempotent` | services/clusters/branchbuilder.go:415-454 | Applying the two closing steps twice is applying them once |
| `BranchSpecs.SleepAndWakeRestores` | services/clusters/branchbuilder.go:163-184 | Hibernating and waking a finished branch restores it up to its cluster (in a pool) or its hibernation mode (otherwise) |
| `BranchSpecs.BuiltBranchesAreFinished` | services/clusters/clusters.go:270-283 | Every created and every just updated branch is unchanged by the closing steps |
| `BranchBuilders.ParametersFromMap` | services/clusters/branchbuilder.go:594-608 | Lists the map sorted by name without duplicates |
| `BranchBuilders.MapFromParameters` | services/clusters/branchbuilder.go:215-224 | Reads a parameter list back into a map, the last of equal names winning |
| `BranchBuilders.SortedListIsUnique` | services/clusters/branchbuilder.go:594-608 | Two sorted lists with the same parameters are equal, so the order in which a map is walked does not matter |
| `BranchBuilders.SameSpecSameObject` | services/clusters/branchbuilder.go:594-608 | Two built objects for one spec are equal |
| `BranchBuilders.BranchBuilder.FromCreateClusterRequest` | services/clusters/branchbuilder.go:53-95 | Starts from the request, with a sorted list |
| `BranchBuilders.BranchBuilder.FromExistingBranch` | services/clusters/branchbuilder.go:98-101 | Starts from the existing object |
| `BranchBuilders.BranchBuilder.WithOverridesFromParent` | services/clusters/branchbuilder.go:105-154 | Refines the override on specs: image, Postgres section, pool, clone source and instances of a child |
| `BranchBuilders.BranchBuilder.WithUpdatesFrom` | services/clusters/branchbuilder.go:158-259 | Refines the update on specs: hibernation, merged parameters, replaced libraries; the branch then holds the request's own slice |
| `BranchBuilders.BranchBuilder.WithClusterFromPool` | services/clusters/branchbuilder.go:267-279 | Refines taking a cluster from a pool; an empty name changes nothing |
| `BranchBuilders.DeleteXataUtils` | services/clusters/branchbuilder.go:422-425 | In place, the other libraries move to the front in order and the rest of the slice is cleared |
| `BranchBuilders.BranchBuilder.WithXataUtilsPreloadLibrary` | services/clusters/branchbuilder.go:415-432 | Puts xatautils first and keeps the other libraries in order, changes nothing else in the branch, and leaves a borrowed slice compacted |
| `BranchBuilders.BranchBuilder.WithMandatoryPostgresParameters` | services/clusters/branchbuilder.go:436-454 | Overlays the mandatory parameters of the image on the list, sorted, and changes nothing else |
| `BranchBuilders.CreateBranch` | services/clusters/clusters.go:270-335 | The create pipeline yields a sorted object that stands for the specified branch |
| `BranchBuilders.UpdateBranch` | services/clusters/clusters.go:422-443 | One attempt of an update on any existing object yields the specified branch, sorted, and leaves the request's libraries compacted; or it refuses to configure backups that are not there and changes nothing |
| `BranchBuilders.UpdatePostgresCluster` | services/clusters/clusters.go:413-458 | With one request for all attempts, the version committed after any number of conflicts is that of the request as the first attempt left it |
| `BranchBuilders.BranchAfter` | services/clusters/clusters.go:270-458 | A create followed by any history, with conflicts and late assignments, keeps the parameter list sorted without duplicates, and the object stands for the branch that the history theorems are about |
| `BranchBuilders.ListHoldsLastWrites` | services/clusters/branchbuilder.go:594-608 | After any history the list has an entry exactly for every last written value |
| `OrbAmounts.PadOrCutTruncates` | internal/billing/orbamount/orbamount.go:40-54 | Padding or cutting the fraction to the scale computes the quotient rounded down |
| `OrbAmounts.ParsesWellFormedAmounts` | internal/billing/orbamount/orbamount.go:28-54 | On every well-formed amount with any surrounding white space, value times 10^scale truncated toward zero if that fits 64 bits, and otherwise an error; with the one exception of no whole digit at scale zero |
| `OrbAmounts.DollarsParseIffWholeDigits` | internal/billing/orbamount/orbamount.go:36-38 | Whole dollars in range are parsed correctly if and only if there is a digit before the dot |
| `OrbAmounts.AcceptsExactly` | internal/billing/orbamount/orbamount.go:40-54 | For every string: accepted exactly if the trimmed text is not empty, a sign and digits precede the dot, the characters that count after it are digits, a digit is left after padding, and the number fits 64 bits; if nothing precedes the dot, the sign may follow it |
| `OrbAmounts.AcceptedIsWellFormedIff` | internal/billing/orbamount/orbamount.go:40-54 | An accepted amount is well formed if and only if everything after the dot is a digit and there is a digit before padding |
| `OrbAmounts.MalformedAmounts` | internal/billing/orbamount/orbamount.go:40-54 | "1.23abc", ".", "-" and ".-5" are accepted although no decimal is written so |
| `OrbAmounts.IgnoresBeyondScale` | internal/billing/orbamount/orbamount.go:40-54 | The result does not depend on anything after the digits that count |
| `OrbAmounts.CoarserParsersTruncateFiner` | internal/billing/orbamount/orbamount.go:28-54 | An amount, with any padding, that parses at a finer scale parses at every coarser one, to the finer result truncated; only at scale zero does it need a whole digit |
| `OrbAmounts.CentsAndDollarsFromMicros` | internal/billing/orbamount/orbamount.go:28-38 | Cents are micros truncated by 10^4, and dollars are cents truncated by 100 or, without a whole digit, an error |
| `OrbAmounts.ParseMicrosIsExact` | internal/billing/orbamount/orbamount.go:20-25 | ParseMicros succeeds only with the exact number of micros |
| `OrbAmounts.ParseMicrosIff` | internal/billing/orbamount/orbamount.go:20-25 | Of the well-formed amounts exactly those of at most six places that fit 64 bits are accepted |
| `KeycloakPaging.ReadPage` | services/auth/keycloak/keycloak_rest.go:700-728 | One page adds exactly the records not seen before, without deleted ones where asked, and reports whether it brought anything new |
| `KeycloakPaging.ListAllOrganizations` | services/auth/keycloak/keycloak_rest.go:684-733 | Terminates for all answers with aliases from a finite set; returns the distinct live organizations of the pages read up to the first short one, if every full page before it brought something new, and otherwise an error |
| `KeycloakPaging.EndIsUnique` | services/auth/keycloak/keycloak_rest.go:684-733 | The answers of the server determine the number of pages read and the outcome |
| `KeycloakPaging.ListAllMembers` | services/auth/keycloak/keycloak_rest.go:257-296 | Returns the distinct members up to the first short page, or an error if a request fails or 100 pages were full |
| `KeycloakPaging.DistinctHasNoDuplicates` | services/auth/keycloak/keycloak_rest.go:257-296 | What is kept has no duplicate id and loses none |
| `KeycloakPaging.DistinctGrows` | services/auth/keycloak/keycloak_rest.go:257-296 | The first record of an id is kept, in the order read |
| `KeycloakPaging.LiveOfConcatenation` | services/auth/keycloak/keycloak_rest.go:705-724 | Dropping deleted records keeps the others where they are |
| `KeycloakPaging.OrganizationsAreDistinct` | services/auth/keycloak/keycloak_rest.go:684-733 | Whatever the server answers, no alias is returned twice and no deleted organization at all |
| `KeycloakPaging.StableOrganizations` | services/auth/keycloak/keycloak_rest.go:684-733 | On a stable list exactly the organizations not deleted, in order |
| `KeycloakPaging.StableMembers` | services/auth/keycloak/keycloak_rest.go:257-296 | On a stable list every member if there are fewer than 10000, and an error otherwise |
| `SymbolIds.SymbolIDGenerator.From` | internal/idgen/shortid.go:14-16 | The generator resumes from the given id |
| `SymbolIds.SymbolIDGenerator.Status` | internal/idgen/shortid.go:21-23 | Status is the id last produced |
| `SymbolIds.SymbolIDGenerator.Next` | internal/idgen/shortid.go:26-29 | Next produces the successor and remembers it |
| `SymbolIds.NextAddsOne` | internal/idgen/shortid.go:31-40 | On bijective base-26 numerals getNextID adds exactly one |
| `SymbolIds.EnumeratesEveryIdOnce` | internal/idgen/shortid.go:26-40 | A generator started empty produces each lowercase id exactly once: it is the n-th id if and only if it denotes n |
| `SymbolIds.ResumeContinues` | internal/idgen/shortid.go:14-29 | A generator resumed from Status continues the same sequence |
| `SymbolIds.IdsAreIncreasing` | internal/idgen/shortid.go:31-40 | Ids come out in strictly increasing length-then-alphabetical order |
| `Utf8Truncation.Truncate` | internal/grpc/pagination/pagination.go:39-48 | The loop backs up to the last rune start that leaves room for the marker |
| `Utf8Truncation.RuneStartsAreBoundaries` | internal/grpc/pagination/pagination.go:39-48 | In valid UTF-8 a cut leaves a valid prefix exactly at a rune start |
| `Utf8Truncation.TruncationKeepsLongestPrefix` | internal/grpc/pagination/pagination.go:39-48 | Valid text stays valid: unchanged if it fits, else the longest valid prefix that leaves room for the marker, followed by the marker |
| `Utf8Truncation.TruncationFitsIff` | internal/grpc/pagination/pagination.go:37-48 | The result fits n bytes if and only if the text or the marker does |
| `ParameterBounds.SplitNumber` | internal/postgrescfg/parameters.go:201-213 | The scan from the right splits after the last numeric character |
| `ParameterBounds.ParseBytesScan` | internal/postgrescfg/parameters.go:193-241 | parseBytes with its loop computes the specified size, errors included |
| `ParameterBounds.SizeOf` | internal/postgrescfg/parameters.go:193-241 | A size denotes the number times 1, 1024, 1024², 1024³ or 1024⁴ by its unit, truncated; another unit or number is an error |
| `ParameterBounds.DurationOf` | internal/postgrescfg/parameters.go:244-293 | A duration denotes what Go takes it for, else the number of seconds, minutes, hours or days by its unit; a bare number no time |
| `ParameterBounds.BareNumberIsNoTime` | internal/postgrescfg/parameters.go:259-293 | "30" is read as a duration of zero |
| `ParameterBounds.ZeroSizeAndDuration` | internal/postgrescfg/parameters.go:193-249 | "0B" and "0" are zero before anything is parsed |
| `ParameterBounds.ValidatesTrimmed` | internal/postgrescfg/parameters.go:296-462 | Text, enum and boolean values are judged without the blanks around them |
| `ParameterBounds.BlankValidates` | internal/postgrescfg/parameters.go:296-462 | A blank value is valid exactly as text that may be empty or as a listed enum value |
| `ParameterBounds.ParseIgnoresPadding` | internal/postgrescfg/parameters.go:193-293 | What parses, parses to the same number once trimmed, as validation does |
| `ParameterBounds.AdjustClamps` | internal/postgrescfg/parameters.go:481-610 | For bounds in order, the adjusted value denotes the number clamped to the bounds |
| `ParameterBounds.AdjustIsIdempotentAndMonotone` | internal/postgrescfg/parameters.go:481-610 | Adjusting twice is adjusting once, and adjusting preserves the order of values |
| `ParameterBounds.AdjustedValuesValidate` | internal/postgrescfg/parameters.go:296-510 | An adjusted value without control characters in the original passes validation if and only if the bound that replaces it, if any, has none |
| `ParameterBounds.TabbedBoundIsRejected` | internal/postgrescfg/parameters.go:296-326 | A size bound written with a tab is handed out by adjusting and rejected by validation |
| `ParameterBounds.ValidValuesAreKept` | internal/postgrescfg/parameters.go:296-510 | A valid value is kept; an invalid number is replaced by one of the bounds |

## Left out

- Tracing spans, links, logging and metric export: they do not touch the protocol state.
- HTTP, gRPC, Keycloak and Kubernetes transport: the store is a map of versioned objects, and a failing call may or may not have taken effect.
- Clocks: deadlines, timeouts and context cancellation are choices that may happen at any time; the two clock readings of createAPIKey are inputs.
- Termination under fairness: the liveness results say which step is possible next, not that the scheduler takes it.
- Coalescer flights are identified by their position, and calls by number; pointer identity is not modelled otherwise, and fn's panics are not modelled.
- The 64-bit counter of the wait group is unbounded.
- Wakeup requests: names of branches, volumes and requests are abstract; the objects carry only what ensureWakeupRequest reads.
- PoolClaims assumes, as the operators behave, that nobody puts an orphaned cluster back into a pool (the branch it is assigned to becomes its owner), and takes short image names, CPU, memory and sizes as already parsed quantities.
- EnvtestLock assumes that a start succeeds only with complete binaries and that a crash releases file locks.
- CreateAPIKey: the hierarchy check of the projects service is an input that always answers.
- ApplyMigrations: the pgroll library is a history plus an active flag, so migrations run by anyone else at the same time are not modelled.
- The branch model keeps the fields that the pipeline's invariants are about; storage, resources, affinity, QoS classes and the details of backup and restore specs are left out because they are plain copies.
- WithOverridesFromParent: copies the parent's Postgres section, whereas the program shares the pointer until a later step replaces it.
- UpdatePostgresCluster: any number of conflicts is modelled, while the program gives up after a few; a call that gives up changes nothing.
- CreateBranch: the request's and the parent's lists are copied; the program compacts them too, but reads neither again.
- Secrets of a branch, and their cleanup after a failed creation, which is best effort.
- ParseBytesScan: works on reals, so float rounding, NaN and the overflow of a float converted to int64 are not modelled.
- ParameterBounds treats ParseFloat, time.ParseDuration and ToLower as inputs; ValidateSettings and the filters only map the validators over a specification table.
- Page.Add of the pagination package, and the HTTP decoding and attribute extraction in the Keycloak client, which would only add easy members.
- ListAllMembers: the organization id cache and the lookup before the listing are left out.
- The shutdown order of the gateway server, and every service not named above.
