# A verified model of the MCP platform's protocols

This project models, in Dafny 4.11, the concurrent protocols and the stream and table algorithms of the MCP platform,
and proves what they are for. Every guarded SQL statement is one atomic step on a finite map; every handler, reconcile
loop or bridge process is a sequence of such steps, and the theorems about them hold for every interleaving and every
run. Code that the repository writes as methods that change fields appears as classes whose methods are proved against
specification functions; the properties are then proved about those functions.

| module | what it models |
|---|---|
| `DeviceTable`, `DeviceGrant`, `DeviceLives`, `DeviceHandlers` | the device authorization grant of RFC 8628: the statements, the handlers over stale snapshots in any interleaving, what a row tells of its history, and the handlers as methods |
| `MemoryDeviceStore` | the in-memory device store with its two hash indexes, against the SQL statements |
| `PollArithmetic` | the interval and `slow_down` arithmetic of polling |
| `TokenSessions` | single use of authorization codes and refresh tokens (sections 4.1.2 and 6 of RFC 6749) |
| `Scopes` | scope strings, and counting grants against quantifying over them |
| `Lease` | the control plane's leader lease among any number of instances |
| `TenantTable`, `DesiredTenants` | the tenant table, its statements, and the transaction that turns grants into rows |
| `TenantRuntime`, `Reconciler`, `TurnOutcomes` | planning and applying one action per tenant against the provider; the pass over all tenants; what the row and the run record then say |
| `Convergence`, `WholeCycles` | where tenants and their services end: passes over all tenants, and whole cycles with the grant reconciliation before each pass |
| `DeleteThrottle`, `TenantRuns` | how often deletion is requested, and what stale loops can do |
| `Grants`, `GrantSnapshot` | grant sources, effective grants, and their derivation from the identity provider's groups |
| `Catalog` | admission to the service catalog, the routing snapshot and prefix routing |
| `CredentialBridge` | one rotating credential shared by many processes |
| `SseFilter`, `SseParser` | the stream filter and the event-stream reader of section 9.2.6 of the HTML Standard |
| `SessionPool` | the pool of upstream sessions with eviction |
| `Uuid` | the UUID version 7 codec of section 5.7 of RFC 9562 |
| `GoStrings`, `Collections`, `Wrappers` | the string functions used, facts about finite sets, `Option` |

Time is an integer number of nanoseconds, hashes are injective and therefore omitted, strings are sequences of ASCII
characters standing for bytes, and whatever comes from outside (clocks, replies, fresh identifiers) is a parameter.

## What the code does not do

Some properties one would expect are false of the code. The model keeps the code as it is and states when they hold.

- A suspended static upstream that is healthy is switched between disabled and ready for ever, because the no-op action
  of a static row probes it (`Convergence.SuspendedStaticOscillates`, `Convergence.NeverSettles`).
- A suspended tenant whose grant disappears is marked deleted (`DesiredTenants.SuspendedIsUntouchedIff`,
  `DesiredTenants.SuspendedIsDeleted`).
- A suspended tenant that is resumed after its subject key has changed is marked degraded, so its stopped service is
  repaired instead of started: it runs again only if something about it has drifted
  (`Convergence.RepairKeepsConsistentIff`, `Convergence.StuckIsStartedIff`, `Convergence.NeverSettles`).
- A service that was created is lost to its row, so that the next turn asks for another, exactly when a later step of the
  same turn fails (`TenantRuntime.CreatedIsLostIff`, `TenantRuntime.CreatesIff`).
- When the provider refuses to create a service, the run record names the state before the turn and the row says degraded
  (`TurnOutcomes.RecordTellsRow`); in every other case they agree.
- The root is allowed as internal upstream path and as health path, but no request can save it: the path is trimmed to
  nothing first (`Catalog.RootIsNeverAccepted`).
- A reconcile loop that listed a row marked deleted may remove it after an operator has bound it static
  (`TenantRuns.RemovalIff`, `TenantRuns.StaleRemovalTakesBoundRow`).
- A failed provider lookup restarts the two-minute timer of a pending deletion (`DeleteThrottle.AsksAgainIff`,
  `DeleteThrottle.FailedLookupPostpones`).
- The event-stream reader drops a carriage return at the end of a payload line (`SseParser.DeliveredUnchangedIff`,
  `SseParser.CarriageReturnIsLost`), and takes the id of an event that was cut off before its blank line
  (`SseParser.CursorIsOfCompletedEventsIff`, `SseParser.CutOffIdIsKept`).
- A refresh token is presented again exactly when nothing was stored since its last presentation
  (`CredentialBridge.PresentedAgainIff`): after a refused refresh (`CredentialBridge.RefusedTokenIsPresentedAgain`), a
  refresh that could not be stored (`CredentialBridge.UnstoredTokenIsPresentedAgain`), or a process that died before it
  stored the reply (`CredentialBridge.DeadProcessTokenIsPresentedAgain`). A server that does not rotate gets the same
  token in any case (`CredentialBridge.UnrotatedTokenIsReplayed`).
- A code or refresh token whose session is written again between check and consumption is returned with bindings that
  were not checked (`TokenSessions.RewrittenTokenEscapesTheCheck`); the row taken is the checked one exactly when there
  was no such write (`TokenSessions.ReturnedIsCheckedIff`).
  This is a property of the store; the server makes its refresh tokens fresh (internal/edge/oauth.go:182-192).
- A subject with surrounding white space cannot approve a device on the persistent store, which stores the subject trimmed
  and then names it as given in a column that references stored subjects: the form answers that the authorization is not
  pending, and it stays pending. The in-memory store approves it under the trimmed name
  (`MemoryDeviceStore.ApprovalsAgreeIff`, `MemoryDeviceStore.UntrimmedSubjectIsRefused`).
- The in-memory store keeps its indexes exact only if a created record replaces nothing
  (`MemoryDeviceStore.OverwriteKeepsIndexed`, `MemoryDeviceStore.RecreatedIsNotIndexed`).
- A new bridge session can be evicted before it is first used: its survival is certain exactly when it replaces one, there
  is room, or some other session was used before it was opened (`SessionPool.NewSessionSurvivesIff`,
  `SessionPool.NewSessionIsLostWhenAllOthersAreNewer`).
- The reconciliation of grants can be blocked for all tenants by two subject keys that administrators have chosen, which
  give two tenants the same name (`DesiredTenants.ChosenKeysCanCollide`, `DesiredTenants.NamesCollideIff`); with derived
  keys it never is (`DesiredTenants.DerivedNamesNeverConflict`).

## Model

| member | source | states |
|---|---|---|
| `DeviceGrant.AtMostOneSession` | internal/edge/oauth.go:930-1058 | over every interleaving of handlers, expiry and pruning, a device authorization yields at most one session, only after an approval from pending and a poll before expiry, naming the record's client, subject, scope and resource (section 3.5 of RFC 8628) |
| `DeviceGrant.RunExtends` | internal/platform/sqlite/platformdb/edge.sql.go:47-97 | denied, expired and consumed are final until pruned, approvals are never replaced, a pruned authorization never returns |
| `DeviceGrant.RunKeepsInv` | internal/edge/state_store.go:1319-1386 | the invariant linking rows, stale snapshots, approvals and sessions holds in every reachable state |
| `DeviceLives.StatusStep` | internal/edge/state_store.go:1319-1386 | the state diagram: which step of which handler takes an authorization into which status, and nothing else does |
| `DeviceLives.StatusTellsHistory` | internal/platform/sqlite/platformdb/edge.sql.go:589-597 | over every interleaving a stored row reads denied exactly when a user denied it, consumed exactly when a session was issued, and carries the times of approval and denial |
| `DeviceLives.DeniedIsRefused` | internal/edge/oauth.go:979-981 | after a denial no session is ever issued, and until pruning every poll in time and not too early is told access denied |
| `DeviceLives.ApprovedIsRedeemedOnce` | internal/edge/oauth.go:961-1058 | an approved authorization is exchanged for its subject's session at its next poll, and later polls are told that it is used |
| `DeviceLives.EarlyPollIsSlowedDown` | internal/platform/sqlite/platformdb/edge.sql.go:1354-1377 | a poll that is too early moves the next acceptable one to the old interval and five seconds after itself |
| `DeviceLives.PollsAreCounted` | internal/platform/sqlite/platformdb/edge.sql.go:1385-1405 | over every interleaving the count of a row is the number of its polls that found it unexpired |
| `DeviceLives.StampTellsLastTouch` | internal/platform/sqlite/platformdb/edge.sql.go:589-597 | `updated_at` is the time of the last step that changed the row |
| `DeviceLives.PrunedIff` | internal/platform/sqlite/platformdb/edge.sql.go:1275-1290 | pruning removes exactly the rows that have ended and that nothing has changed after the cutoff |
| `DeviceHandlers.StepsUndisturbed` | internal/edge/oauth.go:961-1058 | the three interleavable steps of a poll have exactly the handler's effect when nothing comes between them |
| `DeviceHandlers.HandleDeviceToken` | internal/edge/oauth.go:930-1058 | a token is issued exactly when the authorization is found, bound to the client, approved, not expired, not throttled, still authorized and not yet consumed; otherwise at most the poll is recorded |
| `DeviceHandlers.PollDeviceToken` | internal/edge/oauth.go:961-1058 | exactly which error answers which poll (expired, `slow_down`, pending, denied, used, refused by a repeated check), when a token is issued, and what each answer has written |
| `DeviceHandlers.RedeemApproved` | internal/edge/oauth.go:992-1058 | the checks repeated after approval and the error of the first that fails; consumption and session creation as one step |
| `DeviceHandlers.HandleDeviceVerificationPost` | internal/edge/oauth.go:755-827 | approval and denial happen exactly under their conditions and change exactly the shown row, whose device is then told access denied or gets its session; every refusal has its reason; an untrimmed subject is told that nothing is pending |
| `DeviceHandlers.SqliteEdgeStateStore.ApproveDeviceAuthorization` | internal/edge/state_store.go:1319-1335 | stores the trimmed subject, then approves unless the foreign key on the subject is broken, which is exactly when an approval names an untrimmed subject |
| `DeviceHandlers.SqliteEdgeStateStore.ConsumeDeviceAuthorizationAndCreateToken` | internal/edge/state_store.go:1134-1165 | the transaction: both the consumption and the session, or neither |
| `MemoryDeviceStore.MemoryEdgeStateStore.CreateDeviceAuthorization` | internal/edge/state_store.go:304-326 | agrees with the INSERT for new identifiers and hashes, and keeps the indexes exact exactly when nothing is replaced |
| `MemoryDeviceStore.MemoryEdgeStateStore.GetByHash` | internal/edge/state_store.go:336-349 | a lookup through an index finds a record exactly when one has that hash |
| `MemoryDeviceStore.MemoryEdgeStateStore.ApproveDeviceAuthorization` | internal/edge/state_store.go:351-364 | ends in the state of the guarded UPDATE for the trimmed subject |
| `MemoryDeviceStore.MemoryEdgeStateStore.MarkExpiredDeviceAuthorizations` | internal/edge/state_store.go:419-432 | ends in the state of the UPDATE and counts the overdue rows |
| `MemoryDeviceStore.MemoryEdgeStateStore.PruneExpiredDeviceAuthorizations` | internal/edge/state_store.go:434-447 | removes exactly the prunable records, from all three maps |
| `MemoryDeviceStore.MemoryEdgeStateStore.ConsumeDeviceAuthorizationAndCreateToken` | internal/edge/state_store.go:388-400 | store, consume, roll back: with fresh tokens the sessions change exactly when the authorization is consumed |
| `MemoryDeviceStore.OverwriteKeepsIndexed` | internal/edge/state_store.go:304-326 | the record map and both indexes stay in exact correspondence if and only if the request is replaceable |
| `MemoryDeviceStore.RecreatedIsNotIndexed` | internal/edge/state_store.go:304-326 | a record created again with another device code leaves the old code's index entry dangling |
| `MemoryDeviceStore.ApprovalsAgreeIff` | internal/edge/state_store.go:1319-1335 | the persistent store fails to approve exactly a pending authorization for an untrimmed subject, and otherwise approves as the in-memory store does |
| `MemoryDeviceStore.UntrimmedSubjectIsRefused` | internal/edge/state_store.go:1676-1689 | a subject with a leading space: approved in memory under its trimmed name, refused by the persistent store |
| `PollArithmetic.IntervalGrowsPerSlowDown` | internal/edge/oauth.go:961-972 | the interval is its start plus five seconds per `slow_down` |
| `PollArithmetic.AnsweredPollsAreSpaced` | internal/edge/oauth.go:961-972 | two answered polls are at least the interval in force apart |
| `PollArithmetic.AnsweredPollsAreBounded` | internal/edge/oauth.go:432-447 | at most the ceiling of TTL over five seconds polls are answered before expiry |
| `PollArithmetic.SteadyClientIsAlwaysAnswered` | internal/edge/state_store.go:402-417 | the bound is reached by a client that keeps the interval |
| `TokenSessions.TokenStore.Get` | internal/edge/state_store.go:1424-1477 | undisturbed, a token is redeemed exactly when its row is unconsumed and passes the checks, once |
| `TokenSessions.PassesIsBound` | internal/edge/state_store.go:1450-1477 | what passes the check belongs to the requesting client and, if a resource is named, spells that resource |
| `TokenSessions.ReturnedOncePerWrite` | internal/platform/sqlite/platformdb/edge.sql.go:123-128 | over every interleaving each write of a session row is returned at most once |
| `TokenSessions.ReturnedAsChecked` | internal/edge/state_store.go:1450-1477 | with tokens never written twice, client binding, resource binding and grants checked beforehand hold for the returned row |
| `TokenSessions.ReturnedIsCheckedIff` | internal/edge/state_store.go:1753-1788 | in any run, the row consumed at one step is the row looked up at an earlier one if and only if no step strictly between wrote a row holding the token |
| `TokenSessions.RewrittenTokenEscapesTheCheck` | internal/platform/sqlite/platformdb/edge.sql.go:1413-1444 | the run in which an upsert between check and consumption defeats the check |
| `Scopes.FieldsOfParts` | internal/policy/capabilities.go:97-118 | white space separates the entries of a scope: the fields of two parts are those of the one, then of the other |
| `Scopes.RequestedOfScope` | internal/policy/capabilities.go:97-118 | a scope written for some services requests exactly these, and is valid if and only if no id has a colon |
| `Scopes.RequestedServiceScopes` | internal/policy/capabilities.go:97-118 | valid exactly when every entry names a service; the ids are distinct and are exactly the requested ones |
| `Scopes.AllowedScopesInMemory` | internal/edge/state_store.go:651-663 | allowed exactly when every requested service is granted, by a loop |
| `Scopes.AllowedScopesBySQL` | internal/edge/state_store.go:1585-1595 | the same verdict by a count |
| `Scopes.CountingQuantifies` | internal/platform/sqlite/platformdb/edge.sql.go:287-294 | the count equals the number of ids if and only if the ids are distinct and all granted |
| `Scopes.ScopeStringAllowed` | internal/edge/oauth.go:1293-1309 | every entry of the scope is allowed |
| `Scopes.SingleServiceFromScope` | internal/edge/oauth.go:1454-1470 | a service is named exactly when the prefixed entries name one |
| `Scopes.OneEntryOneService` | internal/edge/oauth.go:1454-1470 | a scope made of service entries names a service if and only if it has one entry and that requests it |
| `Lease.ControlPlaneLock.Held` | internal/controlplane/store.go:127-148 | a check renews, and any failure latches |
| `Lease.ControlPlaneLock.Release` | internal/controlplane/store.go:109-125 | drops only the holder's own row, once |
| `Lease.AcquireControlPlaneLock` | internal/controlplane/store.go:88-107 | a lock object exists exactly when the upsert returned the caller's identifier |
| `Lease.LeaseExcludes` | internal/platform/sqlite/platformdb/leases.sql.go:12-32 | after a successful check at t without release nobody else acquires or checks before t + TTL, less the clock skew, in any run of any number of instances |
| `Lease.TermsAreDisjoint` | internal/platform/sqlite/platformdb/leases.sql.go:12-32 | on a shared clock the terms of two unreleased holders never overlap |
| `Lease.HolderIsKeptOrTaken` | internal/platform/sqlite/platformdb/leases.sql.go:12-32 | the row stays the leader's, extended, or was taken after it expired |
| `Lease.RowTellsTerm` | internal/platform/sqlite/platformdb/leases.sql.go:12-32 | after any run the row is the last term taken or renewed, unless its holder has released |
| `Lease.AcquiresIff` | internal/platform/sqlite/platformdb/leases.sql.go:24-29 | after any run a new instance acquires the lease if and only if no other's unreleased term is still running |
| `Lease.ChecksIff` | internal/controlplane/store.go:127-148 | an instance that has not failed keeps leading on the same condition, even past its own term |
| `Lease.DeadLeaderIsReplaced` | internal/platform/sqlite/platformdb/leases.sql.go:24-29 | once every term is over anybody can lead |
| `Lease.FailureLatches` | internal/controlplane/store.go:127-148 | an instance whose check failed once never leads again |
| `DesiredTenants.Store.ReconcileDesiredTenants` | internal/controlplane/store.go:481-518 | all rows end as the specification says or, when a name is taken, none changes; without a name conflict it cannot fail, and where no row is to be renamed it fails exactly for a conflict |
| `DesiredTenants.RunMeetsTheGrants` | internal/controlplane/store.go:481-518 | every desired pair has its one row, every undesired non-static row is marked deleted, no row disappears |
| `DesiredTenants.SuspendedIsUntouchedIff` | internal/controlplane/store.go:499-515 | a suspended row is untouched if and only if it is still desired or static |
| `DesiredTenants.SuspendedIsDeleted` | internal/controlplane/store.go:507-515 | a suspended tenant without a grant, and the run that marks it deleted |
| `DesiredTenants.SecondRunChangesNothing` | internal/controlplane/store.go:481-518 | a second run changes no row, also after an identity drift was repaired |
| `DesiredTenants.SecondRunSucceeds` | internal/controlplane/store.go:1156-1176 | nor can it fail on a taken name |
| `DesiredTenants.KeyIsInjective` | internal/controlplane/store.go:1587 | the map key identifies subject and service when service ids have no colon, as catalog validation sees to |
| `DesiredTenants.KeysClashIff` | internal/controlplane/store.go:1587 | for any two service ids, whether distinct pairs can share a key |
| `DesiredTenants.NameIsInjective` | internal/domain/tenant.go:21-23 | instance names identify service and subject key when keys have one length, as derived ones do |
| `DesiredTenants.NamesCollideIff` | internal/domain/tenant.go:21-23 | for any services and keys, when two instance names are equal |
| `DesiredTenants.DerivedNamesNeverConflict` | internal/domain/subject.go:18-21 | with derived subject keys no name is ever taken, so the transaction cannot fail |
| `DesiredTenants.DerivedNamesStay` | internal/controlplane/store.go:1156-1176 | and a run leaves names that are derived again |
| `DesiredTenants.ChosenKeysCanCollide` | internal/controlplane/grants_admin.go:144-174 | two keys chosen by administrators that make the transaction fail |
| `DesiredTenants.RunAdoptsIdentity` | internal/controlplane/store.go:1156-1176 | after a run every wanted enabled row bears its spec's identity: unchanged if it did before, else marked for repair with its references |
| `DesiredTenants.SuspensionDisables` | internal/platform/sqlite/platformdb/controlplane.sql.go:2048-2055 | a suspension asks for the pair's rows to be disabled unless they are marked deleted, and changes nothing else |
| `DesiredTenants.ResumptionEnables` | internal/controlplane/store.go:534-553 | a resumption under a grant asks for them to be enabled, and changes nothing else |
| `DesiredTenants.ResumeUndoesSuspendIff` | internal/controlplane/store_test.go:169-247 | suspending and resuming restores every row except those suspended before |
| `DesiredTenants.Store.SuspendTenantInstance` | internal/controlplane/store.go:520-532 | suspends exactly the pair's row unless it is marked deleted |
| `DesiredTenants.Store.ResumeTenantInstance` | internal/controlplane/store.go:534-553 | resumes only with a grant for an enabled service, and tells the two refusals apart |
| `TenantRuntime.CoolifyTenantRuntime.Apply` | internal/controlplane/tenant_runtime.go:75-120 | for all replies, the requests sent, the status writes in order and the result are those of the specification |
| `TenantRuntime.CoolifyTenantRuntime.Ensure` | internal/controlplane/tenant_runtime.go:159-255 | the create, repair and restart sequence with every early exit |
| `TenantRuntime.CoolifyTenantRuntime.Delete` | internal/controlplane/tenant_runtime.go:304-381 | the delete sequence with its throttle, and when the reconcile mark is skipped |
| `TenantRuntime.CoolifyTenantRuntime.ApplyStaticUpstream` | internal/controlplane/tenant_runtime.go:136-157 | the actions on static rows |
| `TenantRuntime.ActionsAreSound` | internal/controlplane/tenant_runtime.go:159-255 | whatever the replies and the action: a service is created only if there is none, `ready` is the last write and follows a healthy probe, references are dropped only after a refused creation |
| `TenantRuntime.RequestsFollowDesired` | internal/controlplane/tenant_runtime.go:257-381 | whatever the replies: an enabled row is never stopped or deleted and is started when disabled, a suspended one is stopped once and nothing else, a deleted one only deleted, a static one sends nothing |
| `TenantRuntime.CreatesIff` | internal/controlplane/tenant_runtime.go:159-190 | exactly when a service is created |
| `TenantRuntime.EnsureCorrectsDrift` | internal/controlplane/tenant_runtime.go:192-255 | an ensure that is applied has sent exactly the updates for the drift it found and the restart these need |
| `TenantRuntime.CreatedIsLostIff` | internal/controlplane/tenant_runtime.go:177-233 | a created service is not stored in the row if and only if a later step of the turn fails |
| `TurnOutcomes.ProbedTells` | internal/controlplane/tenant_runtime.go:391-461 | after a turn that reached its probe the row says what was found, where, and when it was last healthy |
| `TurnOutcomes.RowTellsTurn` | internal/controlplane/reconciler.go:87-131 | for every environment, how the row ends: failed turns keep it as it was but for a refused creation, and the error and reconcile time it carries |
| `TurnOutcomes.RecordTellsRow` | internal/controlplane/reconciler.go:80-118 | the record says failed exactly for failed turns and names the row's state exactly except after a refused creation |
| `TurnOutcomes.UpstreamIsOwn` | internal/controlplane/tenant_runtime.go:534-537 | tenants of different names never share a built upstream |
| `TurnOutcomes.BoundIsProbed` | internal/controlplane/store.go:389-435 | a row bound to a static upstream is probed there and keeps it |
| `Reconciler.TalliesCount` | internal/controlplane/reconciler.go:92-102 | the summary counts the runs by status |
| `Reconciler.TenantReconciler.RunOnce` | internal/controlplane/reconciler.go:51-145 | each concluded tenant ends as its own turn says, is recorded in order and counted; records go with removed tenants; when the lease is lost the next tenant has at most the runtime's writes and no later one is touched |
| `Reconciler.TenantReconciler.RunReconcileCycle` | internal/controlplane/server.go:212-243 | how far a cycle gets for every outcome of the three lease checks, the grant sync and the tenant transaction; the table between its parts, the pass, its run records and its summary |
| `Reconciler.TenantReconciler.TakeTurn` | internal/controlplane/reconciler.go:63-131 | one turn on whatever row is stored by then: both lease checks, apply, record, then delete, skip or mark; a row that is gone cannot be recorded and ends the pass |
| `Convergence.Converges` | internal/controlplane/reconciler.go:51-145 | with a provider that answers, every tenant that settles is at its goal after as many cycles as an explicit measure says: ready with its service running, disabled with its service stopped, or gone |
| `Convergence.MeasureDecreases` | internal/controlplane/tenant_runtime.go:75-120 | one cycle lowers the measure of every tenant not yet at its goal |
| `Convergence.EveryTenantConverges` | internal/controlplane/reconciler.go:51-145 | in passes over the whole table every settling tenant reaches its goal within its measure, whatever the others do |
| `Convergence.FullPassIsCycle` | internal/controlplane/reconciler.go:51-145 | a complete pass advances every tenant by exactly one cycle of its own |
| `Convergence.StaysConverged` | internal/controlplane/tenant_runtime.go:391-455 | further cycles keep runtime state and references |
| `Convergence.NeverSettles` | internal/controlplane/reconciler.go:157-218 | the other states, named exactly, are never at their goal twice in a row |
| `Convergence.SuspendStopsResumeStarts` | internal/controlplane/store_test.go:169-247 | suspending a served tenant stops its service within a cycle, resuming it starts the same service within another, and the references stay |
| `Convergence.CycleKeepsConsistent` | internal/controlplane/tenant_runtime.go:257-302 | a service is stopped behind exactly the rows that say disabled, and cycles keep it so |
| `Convergence.RepairKeepsConsistentIff` | internal/controlplane/store.go:1156-1176 | adopting an identity keeps that, except exactly for a disabled row with a stopped service and another identity |
| `Convergence.StuckIsStartedIff` | internal/controlplane/tenant_runtime.go:192-220 | a stopped service behind an enabled row that does not say disabled is started exactly when the row is not ready and something has drifted |
| `Convergence.SuspendedStaticOscillates` | internal/controlplane/tenant_runtime.go:136-157 | the cycle of a suspended healthy static upstream |
| `WholeCycles.EveryGrantGetsItsTenant` | internal/controlplane/server.go:212-243 | over whole cycles under unchanging grants, every granted pair has a tenant in its desired state after an explicit number of cycles, also when its row had to be deleted and inserted anew |
| `WholeCycles.RowConverges` | internal/controlplane/server.go:212-243 | a row that settles is at its goal once the cycles since its first reconciliation outnumber its measure |
| `WholeCycles.GoneIsReplaced` | internal/controlplane/store.go:481-518 | when a granted pair's row has been removed, the next cycle inserts a new one |
| `WholeCycles.CycleIsWhole` | internal/controlplane/server.go:212-243 | what the two parts of a reconcile cycle ensure makes up one such cycle |
| `DeleteThrottle.RequestsAreSpaced` | internal/controlplane/tenant_runtime.go:304-381 | for any replies, consecutive delete requests for a row left in `deleting` are at least two minutes apart |
| `DeleteThrottle.IntervalIsReached` | internal/controlplane/tenant_runtime.go:543-548 | the two minutes are exact: with a deletion in progress the next request comes right then |
| `DeleteThrottle.AsksAgainIff` | internal/controlplane/tenant_runtime.go:543-548 | a request is repeated exactly when two minutes have passed since the last one or the last failed turn |
| `DeleteThrottle.AsksAgainInTime` | internal/controlplane/tenant_runtime.go:543-548 | without failures the first turn at or after two minutes asks again |
| `DeleteThrottle.FailedLookupPostpones` | internal/controlplane/reconciler.go:87-131 | a failed lookup restarts the timer |
| `TenantRuns.RunKeepsInv` | internal/controlplane/reconciler.go:51-145 | the table and every stale snapshot stay related over any interleaving of loops and operators |
| `TenantRuns.DeletingMeansDeleted` | internal/controlplane/tenant_runtime.go:358-366 | runtime `deleting` implies desired `deleted` for rows that are not static, so the row alone never keeps these from settling |
| `TenantRuns.DesiredStep` | internal/platform/sqlite/platformdb/controlplane.sql.go:2048-2093 | how what is wanted of a row changes: by suspension, resumption, binding and lost grants, and by nothing else |
| `TenantRuns.OnlyLostGrantsMarkDeleted` | internal/controlplane/store.go:499-515 | in every run only a reconciliation whose grants do not want the pair marks its row deleted |
| `TenantRuns.DeletedIsForGood` | internal/platform/sqlite/platformdb/controlplane.sql.go:2048-2093 | a row marked deleted never leaves that state unless it is made static |
| `TenantRuns.OnlyDeletedRowsAreDestroyed` | internal/controlplane/tenant_runtime.go:335-357 | deletion is requested only for rows that are marked deleted, however stale the loop's view |
| `TenantRuns.RemovalIff` | internal/controlplane/reconciler.go:119-124 | a loop may remove a stored row exactly when the listed row was marked deleted and the provider has no service for it; the stored row is still marked deleted or has been bound static since |
| `TenantRuns.StaleRemovalTakesBoundRow` | internal/controlplane/reconciler.go:119-124 | the run in which a loop removes a row just bound static |
| `Grants.Store.RebuildEffectiveServiceGrants` | internal/platform/sqlite/platformdb/controlplane.sql.go:979-988 | the rebuilt table is the projection: present exactly with a source, manual exactly with a manual one, else the least group |
| `Grants.ProjectionIsUnique` | internal/platform/sqlite/platformdb/controlplane.sql.go:979-988 | the sources determine the effective grants |
| `Grants.Store.SyncSubjectGrantSnapshot` | internal/controlplane/store.go:437-479 | leaves exactly the manual sources and the snapshot's grants for its subjects, or nothing changed when a service is unknown |
| `Grants.SyncIgnoresOrder` | internal/controlplane/store.go:437-479 | whatever order subjects and grants come in |
| `Grants.Store.ReplaceSubjectGrants` | internal/controlplane/store.go:304-317 | replaces all sources of one subject, manual ones included |
| `Grants.Store.UpsertManualServiceGrant` | internal/controlplane/store.go:346-370 | adds one manual source for an enabled service and keeps the projection |
| `Grants.Store.DeleteManualServiceGrant` | internal/controlplane/store.go:372-379 | removes that source only and keeps the projection |
| `Grants.Store.SubjectServiceGranted` | internal/controlplane/store.go:381-387 | granted exactly with a source and an enabled service |
| `GrantSnapshot.DeriveServiceGrants` | internal/controlplane/authentik_client.go:305-341 | the loop over group names computes the order-free meaning: a service's own group before the administrators' |
| `GrantSnapshot.KeysTellApart` | internal/controlplane/authentik_client.go:190-272 | without a subject attribute the unique id decides, and users with neither are told apart by their keys |
| `GrantSnapshot.GrantedByIgnoresOrder` | internal/controlplane/authentik_client.go:305-341 | only the set of group names matters |
| `GrantSnapshot.BuildGrantSnapshot` | internal/controlplane/authentik_client.go:190-272 | one subject per identifier, spoken for by its first user; grants for active users only |
| `GrantSnapshot.SyncStore` | internal/controlplane/authentik_client.go:274-290 | after a sync a pair is effective exactly when it is manual or the user's groups grant it, and labelled accordingly |
| `Catalog.Store.HandleServicePut` | internal/controlplane/catalog_admin.go:93-132 | exactly when a request is saved, refused as invalid, locked or conflicting; what is saved is the request's own fields, each path spelled by its own; the catalog stays well-formed |
| `Catalog.AcceptedPathIsClean` | internal/controlplane/catalog_admin.go:226-258 | an accepted path equals its cleaned form and has no query, fragment, blank or control character |
| `Catalog.DecodingAddsNoSeparator` | internal/controlplane/catalog_admin.go:239-242 | percent-decoding an accepted path brings in no further separator |
| `Catalog.RootIsNeverAccepted` | internal/controlplane/catalog_admin.go:101-109 | internal paths are accepted on the same condition as public ones, so the root never is |
| `Catalog.Store.UpsertAdminServiceCatalogEntry` | internal/controlplane/store.go:230-271 | for any entry, when it is saved, locked or conflicting; keeps enabled public paths pairwise apart by segment and all of them unique |
| `Catalog.Store.EnsureNoPublicPathConflict` | internal/controlplane/store.go:1178-1194 | the loop finds a conflict exactly when another enabled row's path overlaps |
| `Catalog.Store.SeedServiceCatalog` | internal/controlplane/store.go:154-196 | a restart disables exactly the built-in rows, keeps the administrators' rows, and the catalog stays well-formed |
| `Catalog.Store.DisableServiceCatalogEntry` | internal/controlplane/store.go:273-287 | disables unless absent or built in |
| `Catalog.AcceptedIsRoutable` | internal/controlplane/catalog_admin.go:177-272 | what admission accepts the edge can route |
| `Catalog.NewCatalogSnapshot` | internal/edge/catalog_cache.go:123-169 | builds exactly for acceptable entries with distinct ids and paths, and indexes exactly those |
| `Catalog.SnapshotAlwaysBuilds` | internal/edge/catalog_cache.go:123-169 | the snapshot of every admitted catalog builds |
| `Catalog.MatchPublicPath` | internal/edge/catalog_cache.go:185-192 | for any snapshot the first match is the longest, and there is none only if nothing matches |
| `Catalog.AmbiguousIff` | internal/controlplane/store.go:1178-1194 | two paths share a request exactly when the overlap check objects |
| `Catalog.RoutingIsUnambiguous` | internal/edge/catalog_cache.go:185-192 | in an admitted catalog a request belongs to at most one service |
| `Catalog.CatalogCache.Refresh` | internal/edge/catalog_cache.go:41-55 | keeps the last good snapshot when the new one does not build |
| `CredentialBridge.CredentialStore.Token` | internal/credentialbridge/store.go:197-237 | one call, which uses only a credential of this client and resource: the stored token, or a refreshed and stored one, or an error, also when the keystore cannot be read; an error leaves the keystore alone unless its write took effect unreported |
| `CredentialBridge.CredentialStore.RoundTrip` | internal/credentialbridge/store.go:263-293 | at most one retry, only after a 401, with another token |
| `CredentialBridge.RefreshTokensAreNotReplayed` | internal/credentialbridge/store.go:92-112 | over any interleaving of processes, dying ones included, a refresh token is presented again only after its presentation failed or was not stored |
| `CredentialBridge.PresentedAgainIff` | internal/credentialbridge/store.go:197-237 | any two presentations of a run show the same refresh token if and only if no step between them stored a credential |
| `CredentialBridge.PresentedOnce` | internal/credentialbridge/store.go:92-112 | when nothing fails no refresh token is presented twice |
| `CredentialBridge.ForeignIsNeverUsed` | internal/credentialbridge/store.go:203-205 | over any interleaving a token that came with a login for another client or resource is never presented and never handed out |
| `CredentialBridge.RejectedCallersShareARefresh` | internal/credentialbridge/store.go:197-237 | callers refused the same access token share one stored refresh |
| `CredentialBridge.UninterruptedCall` | internal/credentialbridge/store.go:92-112 | the locked steps in sequence do what the method does |
| `CredentialBridge.RefusedTokenIsPresentedAgain` | internal/credentialbridge/store.go:221-227 | the run in which a refused refresh is tried again with the same token |
| `CredentialBridge.UnstoredTokenIsPresentedAgain` | internal/credentialbridge/store.go:92-112 | the run in which a refresh succeeds, cannot be stored, and is tried again with the same token |
| `CredentialBridge.DeadProcessTokenIsPresentedAgain` | internal/credentialbridge/lock_unix.go:18-26 | the run in which a process dies with the reply in hand and its lock is released by the system |
| `CredentialBridge.UnrotatedTokenIsReplayed` | internal/credentialbridge/store.go:221-227 | the run against a server that does not rotate |
| `SseFilter.CopySSEWithoutEndpointEvents` | internal/edge/proxy.go:441-483 | the client has what it takes of the input without its endpoint blocks, also without a final blank line; of a stream that breaks off only the completed blocks; fails exactly when the client does not take it all or the stream breaks off |
| `SseFilter.FilterIsExactAndIdempotent` | internal/edge/proxy.go:441-483 | the output's blocks are exactly the kept blocks, byte for byte and in order; filtering again changes nothing |
| `SseFilter.DroppedIff` | internal/edge/proxy.go:441-483 | a block is dropped exactly when the last of its lines that names the event names it `endpoint` |
| `SseFilter.FilterIsIdentityIff` | internal/edge/proxy.go:441-483 | the filter is the identity if and only if no block is an endpoint event |
| `SseFilter.LinesAreExact` | internal/edge/proxy.go:445 | splitting into lines loses nothing |
| `SseFilter.BlocksOfFlatten` | internal/edge/proxy.go:447-462 | the cutting of a stream into blocks is unique |
| `SseParser.Relay.Sse` | internal/credentialbridge/transport.go:238-315 | the loop returns and fails exactly as the specification of reading, with the scanner's line limit, and the peer has what it takes of the compacted messages |
| `SseParser.FailedWriteCutsShort` | internal/credentialbridge/transport.go:258-285 | a peer that stops taking messages has got exactly those before the one it refused; reading ends so if and only if it does not take them all |
| `SseParser.OneMessagePerLine` | internal/credentialbridge/transport.go:257-265 | the peer finds exactly one message on every line |
| `SseParser.ParseOfPrint` | internal/credentialbridge/transport.go:268-315 | reading any printed stream delivers its events as the reference does, except for carriage returns at line ends |
| `SseParser.RoundTrip` | internal/credentialbridge/transport.go:268-315 | exactly the printed payloads in order, up to the first that answers, and the last id (section 9.2.6 of the HTML Standard) |
| `SseParser.AnsweredIff` | internal/credentialbridge/transport.go:268-315 | reading ends as answered exactly when some message is the response awaited; a request with the same id is none |
| `SseParser.OtherFieldsAreSkipped` | internal/credentialbridge/transport.go:287-312 | comments and fields of other names mean nothing, wherever they stand |
| `SseParser.SpaceIsOptional` | internal/credentialbridge/transport.go:287-312 | one space after the colon is optional (section 9.2.6 of the HTML Standard) |
| `SseParser.ColonIsOptional` | internal/credentialbridge/transport.go:287-312 | so is the colon of an empty field |
| `SseParser.DeliveredUnchangedIff` | internal/credentialbridge/transport.go:268-275 | a message arrives unchanged if and only if no line of it ends with a carriage return |
| `SseParser.StreamUnchangedIff` | internal/credentialbridge/transport.go:268-315 | the messages of a whole stream arrive unchanged if and only if no line of a delivered one ends with a carriage return |
| `SseParser.CarriageReturnIsLost` | internal/credentialbridge/transport.go:268-275 | a message that does not arrive unchanged |
| `SseParser.StrippedIsIdentityIff` | internal/credentialbridge/transport.go:268-275 | which events the scanner leaves alone |
| `SseParser.CursorIsOfCompletedEventsIff` | internal/credentialbridge/transport.go:303-309 | the returned cursor is that of the completed events exactly when the cut-off tail has no other id |
| `SseParser.CutOffIdIsKept` | internal/credentialbridge/transport.go:303-309 | a stream cut off after its id, which becomes the cursor |
| `SseParser.CursorIsLatest` | internal/credentialbridge/transport.go:360-363 | the cursor sent on reconnecting is the id of the latest stream that had one |
| `SessionPool.Bridge.SessionForRequest` | internal/edge/proxy.go:163-198 | prune, then touch and return the session or refuse, or insert the new one and evict; and exactly which streams are closed |
| `SessionPool.Bridge.EvictOldestLocked` | internal/edge/proxy.go:215-229 | terminates at the limit, keeps no session older than one it evicted, closes exactly the evicted |
| `SessionPool.Bridge.PruneIdleSessions` | internal/edge/proxy.go:200-213 | removes exactly the idle sessions |
| `SessionPool.Bridge.RemoveSession` | internal/edge/proxy.go:231-238 | takes the session out only if it was not replaced, and closes it in any case |
| `SessionPool.Bridge.HandleDelete` | internal/edge/proxy.go:144-161 | removes and closes the session under the id, if any |
| `SessionPool.Bridge.Close` | internal/edge/proxy.go:240-251 | empties the pool and closes all of it |
| `SessionPool.UsedIsKeptForTenMinutes` | internal/edge/proxy.go:163-213 | using a session keeps it from being pruned for ten minutes, and no longer |
| `SessionPool.NewestSurvives` | internal/edge/proxy.go:215-229 | a strictly most recently used session is never evicted |
| `SessionPool.EvictionIsMinimal` | internal/edge/proxy.go:215-229 | nobody goes while there is room, and the strictly oldest goes when there is none |
| `SessionPool.NewSessionSurvivesIff` | internal/edge/proxy.go:189-197 | whichever sessions the eviction picks, a new session survives if and only if it replaces one, there is room, or another was used before it was opened |
| `SessionPool.NewSessionIsLostWhenAllOthersAreNewer` | internal/edge/proxy.go:189-197 | a full pool of sessions used since the new one was opened evicts the new one |
| `SessionPool.NoStreamIsLost` | internal/edge/proxy.go:144-251 | over any interleaving: at most 128 sessions under their own ids, and every opened stream is in flight, pooled, about to be closed or closed, a live one in one place only |
| `SessionPool.GoneIsForGood` | internal/edge/proxy.go:144-251 | a stream that was taken out never comes back |
| `Uuid.ToBytes` | internal/ids/codec.go:9-38 | in bounds, and accepts exactly the canonical texts with version and variant |
| `Uuid.EncodeCanonical` | internal/ids/uuidv7.go:43-80 | writes the canonical text of the sixteen bytes |
| `Uuid.New` | internal/ids/uuidv7.go:10-23 | timestamp, version and variant bits, and which random bits remain |
| `Uuid.ParseUndoesPrint` | internal/ids/type.go:14-63 | every valid value is recovered from its text |
| `Uuid.PrintUndoesParse` | internal/ids/type.go:14-63 | every accepted text is the only text of its value |
| `Uuid.ExtraDashIsRefused` | internal/ids/codec.go:14-28 | a dash or any other character out of place is refused |
| `Uuid.EarlierSortsFirst` | internal/ids/uuidv7.go:10-25 | below 2^48 ms an earlier timestamp gives a smaller text (section 5.7 of RFC 9562) |

## Left out

- HTTP handling, HTML, cookies, CSRF secrets, CORS, metadata documents, reverse proxying and JSON decoding: a request is its parsed fields, and the JSON decoder of the event-stream reader is a parameter.
- The OAuth server and token-source libraries: a refresh returns a new token or an error, an unusable reply counts as an error.
- Hashing, encryption and random generation: hashes are injective, fresh values are parameters or premises.
- The SQL engine, drivers, migrations, row conversion, `created_at` and `updated_at` outside the device table: the text of a statement is its meaning, and database failures are not modelled, except broken UNIQUE constraints and the foreign keys of approvals and run records.
- Normalisation of user codes, and the dialogue that renders the device pages.
- `Grants`: the times of grants and their MIN and MAX, and the UNIQUE constraint on subject keys.
- Audit events, logging, health flags and runtime attestations.
- `Reconciler.TenantReconciler.RunReconcileCycle`: the grant sync is an outcome here; it works on other tables, modelled in `Grants`.
- `Convergence.Converges`: assumes a loadable service, a rendering template and a provider that answers and names new services; a service that does not run is never found healthy, one that runs may be found unhealthy for any number of first cycles, deletions may linger for any number of lookups, and an update may or may not start a stopped service.
- `TenantRuns`: binding a static upstream re-enables any row, also a deleted one; such rows are exempt from the claims about deletion.
- `SessionPool`: sessions are values named by their stream, so aliasing beyond identity is not captured.
- `SseFilter.CopySSEWithoutEndpointEvents`: a client takes any number of characters and then none; flushing is not modelled.
- `SseParser.Relay.Sse`: the JSON compaction is a parameter; other streams write whole messages in between, and the protocol version taken from the answer to `initialize` is not recorded.
- Reconnection delays of `listen`, and its HTTP status cases.
- White space outside ASCII, invalid UTF-8 and case folding.
- Memory-bank projects and shares, configuration and the service directory: only easy members.
