# Verified model of the mail control plane

A Dafny 4.11 model of the parts of the repository that hold state or carry meaning, with proofs:

- the provisioning API and its database: validators, constraints, row-level security on pooled
  connections, handlers, audit log (`validators`, `thresholds`, `regex`, `store`, `outcomes`, `pool`,
  `isolation`, `control_plane`);
- the protocol around sesame: request handlers and reconcile workers that race on account rows,
  with a network call between their transactions and a stop possible anywhere (`protocol`,
  `invariants`, `provisioning`, `accounting`, `progress`, `starvation`, `replay`);
- the config compiler: query, grouping, schema check, emitted text, atomic write (`grouping`,
  `schema`, `rcpt`, `ucl`, `ucl_roundtrip`, `routing`, `publishing`, `compiler`);
- the quarantine workflow (`quarantine`);
- access tokens and the signing-key cache (`base64url`, `token`, `jwks`).

`dafny verify dfyconfig.toml` checks everything.

A run of the control plane is a sequence of events applied to an initial system (`Protocol.Run`);
an event that is not possible changes nothing, so a theorem over all event sequences covers all
interleavings, lost answers and crashes. Each service is also a class whose methods work in place
and are tied to the same transaction functions, so what is proved about runs is about them.

`Outcomes` says of every transaction which inputs it refuses, with what, and what the whole store is
otherwise, in terms of the rows alone; `Quarantine.DecisionOutcome`, `ReleaseOutcome` and
`ReportOutcome` do the same for the quarantine. What is promised to happen, not only to be safe, is
proved over runs: an accepted account request becomes an active account
(`Provisioning.PostedAccountIsActivated`), a held message is released by the next release
(`Quarantine.HeldIsReleasedNext`), a lookup answers at once whenever the cache allows it
(`Jwks.StartsExactly`), and an undisturbed compile cycle publishes and logs
(`Publishing.UndisturbedCyclePublishes`).

How the main results lean on each other: the validators and constraints give every reachable store
its invariant (`Invariants.TablesAlwaysOk`); the invariant makes compiled policies printable and
presentable; the reader of the emitted text recovers them (`UclRoundTrip.UclReadsBack`); one
expression selects one domain (`Rcpt.SelectsExactlyTheDomain`); together these are
`Routing.RoutingIsExact` and, for the addresses the API itself made, `Routing.AccountsAreRoutedHome`.
`Publishing.OutputAlwaysRoutes` carries that over to the file on disk, with the control plane and
the compilers running and crashing next to each other.

## Where code, schema and comments part ways

- `validate_fqdn` takes names whose last label is not made of two or more letters, such as `a.1`;
  the table's CHECK refuses them. For an existing tenant a domain request ends in an internal error
  instead of a validation error exactly for these names (`Isolation.InternalErrorExactly`; the
  difference between the two checks is `Validators.FqdnCheckVersusValidator`).
- The CHECK on slugs allows a trailing hyphen, which the validator refuses
  (`Validators.SlugCheckVersusValidator`).
- The CHECKs on `abuse_policy` alone would take an infinite or NaN `reject`, since PostgreSQL orders
  NaN above everything; only the validator keeps the thresholds finite
  (`Thresholds.ValidatorVersusCheck`, `CheckAloneAdmitsNonFinite`).
- The comment on reconciliation calls it the retry that closes the loop. It closes for an account
  that sesame would take, given enough error-free cycles, if fewer than a batch of the accounts
  created no later keep failing; with a batch or more of strictly older ones failing no cycle ever
  selects it, whatever else runs (`Starvation.ActivatedExactly`, `BlockedStaysPending`). Between the
  two the query's order of equal creation times decides, and both outcomes occur in runs of any
  length (`StarvationExactly`); without equal creation times there is nothing between.
- `write_atomic` uses one fixed temporary name. With any number of compilers the settings path is
  safe as long as none creates the temporary file while another is between its Create and its
  Rename (`Publishing.ExclusiveIsCrashSafe`), so with one compiler always (`OutputIsCrashSafe`).
  Exactly: a Create is safe, whatever follows, if and only if every other compiler that has the file
  open has written nothing yet and renders the same text (`CompilerCreateIsSafeExactly`). Otherwise
  a truncated file can be published, an empty one even from an empty store (`EmptyStoreCanSpoil`),
  or the second compiler goes on writing into the file the first has published (`LateWriteLands`).
- A key document fetched earlier can overwrite one fetched later, because the stamp is taken before
  the write lock is awaited (`Jwks.OlderDocumentCanWin`). The cache always holds the newest document
  written exactly if every write finds none fetched later in the cache (`NewestStaysCached`), for
  instance if no two lookups are between fetch and write at once (`SeparateRefreshesKeepNewest`).
  The time to live bounds the age in any case (`FoundKeysAreFresh`).
- Row-level security hides rows but not the global unique indexes: a tenant can tell, exactly by its
  own requests that get as far as the index, whether an id or a name is taken
  (`Isolation.OnlyNamesLeak`, and over whole runs `OthersMayBeStruckOut`).
- PCRE's `$` also matches before a final line feed, so the routing theorem speaks of the recipient
  without one such character.

## Model

| member | source | states |
|---|---|---|
| Validators.FqdnCheckVersusValidator | crates/admin-api/src/models.rs:129-146 | for every string: the column's CHECK and length at most 253 hold if and only if the validator accepts and the last label is two or more letters |
| Validators.ValidatorAdmitsNumericTld | crates/admin-api/migrations/0001_control_plane.sql:47-48 | a name the validator takes and the table refuses |
| Validators.SlugCheckVersusValidator | crates/admin-api/src/models.rs:113-127 | the validator accepts exactly the strings that meet the slug CHECK and do not end in a hyphen |
| Validators.ColumnsDecideChecks | crates/admin-api/migrations/0001_control_plane.sql:20-21 | the decidable column predicates used by the store agree with the regular expressions of the CHECK constraints on every string |
| Validators.LocalPartMatches | crates/admin-api/src/models.rs:148-163 | the validator of local parts accepts exactly the matches of one expression: 1 to 64 of the allowed characters with no dot at either end |
| Thresholds.ValidatorVersusCheck | crates/admin-api/src/models.rs:165-175 | over all 64-bit floats, NaN and infinities included: the request check is the table's check plus finiteness |
| Thresholds.ValidMeansOrdered | crates/admin-api/src/models.rs:165-175 | a policy is valid exactly when its thresholds are finite numbers with 0 < greylist < add_header < reject |
| Thresholds.CheckAloneAdmitsNonFinite | crates/admin-api/migrations/0003_abuse_policy.sql:13-20 | thresholds that pass every CHECK of the table and are not finite |
| Thresholds.DefaultsAreValid | crates/admin-api/src/models.rs:52-65 | the API's defaults equal the compiler's fallbacks and pass validation |
| Thresholds.ActionIsMonotone | crates/admin-api/migrations/0003_abuse_policy.sql:9-11 | under a valid policy a higher score never gets a milder action, each threshold triggers exactly its own action, scores up to 0 are accepted |
| Thresholds.ShownDecimalReadsBack | crates/config-compiler/src/render.rs:221-223 | a printed threshold reads back as the same decimal and consists of digits and dots |
| Pool.SessionsAreExact | crates/og-db/src/db.rs:78-100 | whatever ran on the connection before, a tenant transaction admits exactly that tenant's rows and a platform transaction all rows |
| Pool.UsesLeaveNothingSet | crates/og-db/src/db.rs:84-98 | any sequence of committed, rolled back or failed uses leaves no transaction open and no setting with a value, only empty placeholders |
| Pool.SessionLevelSettingsWouldLeak | crates/og-db/src/db.rs:96 | were the settings session-level, the next tenant on the connection would see everything |
| Pool.PooledConnection.OpenTenantTx | crates/og-db/src/db.rs:80-90 | the opened transaction admits exactly the rows of that tenant |
| Pool.PooledConnection.OpenPlatformTx | crates/og-db/src/db.rs:94-100 | the opened transaction admits every row |
| Pool.PooledConnection.Close | crates/og-db/src/db.rs:80-100 | commit and rollback both leave no setting with a value |
| Isolation.OthersAreUntouched | crates/admin-api/migrations/0001_control_plane.sql:34-139 | a transaction of one tenant, committed or refused, changes nothing another tenant can read |
| Isolation.SliceIsOwnRows | crates/admin-api/migrations/0001_control_plane.sql:34-139 | what a tenant can read is exactly its own rows of every table, unchanged |
| Isolation.ConflictExactly | crates/admin-api/migrations/0001_control_plane.sql:47-77 | a tenant transaction answers with a conflict exactly when every earlier check passes and its id or name is taken |
| Isolation.OnlyNamesLeak | crates/admin-api/src/routes.rs:109-205 | in two stores that look alike to a tenant its transaction has the same outcome, and they stay alike, exactly when it fails an earlier check or its id or name is taken in both or in neither |
| Isolation.OthersMayBeStruckOut | crates/admin-api/migrations/0001_control_plane.sql:34-139 | over whole runs: striking out all other tenants' transactions leaves a tenant's answers the same exactly when no taken-guard it reaches changes, and then also what it reads |
| Isolation.InternalErrorExactly | crates/admin-api/src/routes.rs:109-125 | for an existing tenant a domain request ends in an internal error exactly when the name passes the validator and its last label is not two or more letters |
| Isolation.QuotaErrorExactly | crates/admin-api/src/routes.rs:161-191 | an otherwise valid account request ends in an internal error exactly when its quota is out of range, which no validator looks at |
| Isolation.TakenNameIsSeen | crates/admin-api/migrations/0001_control_plane.sql:47 | the remaining influence: a name held by an invisible row is refused as taken |
| Isolation.PolicyReadIsOwn | crates/admin-api/src/routes.rs:305-321 | the policy a tenant reads depends only on what it may see |
| Invariants.EveryEventIsOneChange | crates/og-db/src/audit.rs:1-33 | every step of every process is at most one change of one row together with its audit entry |
| Invariants.TablesAlwaysOk | crates/admin-api/src/routes.rs:161-205 | in every reachable store names are unique and valid, policies are ordered, each account's email is its local part, `@` and the name of a domain of its own tenant, and accounts are active exactly when they carry an id |
| Invariants.ForeignDomainIsRefused | crates/admin-api/src/routes.rs:170-177 | creating an account under another tenant's domain, or a suspended one, answers not found |
| Invariants.DomainFromEmail | crates/admin-api/src/routes.rs:178 | an account belongs to a domain if and only if the text after the `@` of its email is that domain's name |
| Outcomes.TenantOutcome | crates/admin-api/src/routes.rs:60-92 | every tenant request: refused for its slug, or because id or slug is taken, and otherwise committed as an active tenant with its entry, nothing else changed |
| Outcomes.DomainOutcome | crates/admin-api/src/routes.rs:109-141 | every domain request: validation, then the letters of the top-level label, then taken id or name, then the tenant; otherwise the pending row and its entry |
| Outcomes.AccountOutcome | crates/admin-api/src/routes.rs:161-205 | every account request up to its first commit: local part, then own and not suspended domain, then quota, then taken id or email; otherwise the pending row and its entry |
| Outcomes.ProvisionOutcome | crates/admin-api/src/routes.rs:243-270 | the second transaction commits exactly for an account of an existing tenant of its own, whatever its status, setting status and id and nothing else |
| Outcomes.ReconcileOutcome | crates/job-runner/src/reconcile.rs:83-113 | the guarded update commits with an entry exactly for a pending account, and does nothing to any other |
| Outcomes.PolicyOutcome | crates/admin-api/src/routes.rs:325-363 | a policy request commits exactly if its thresholds are finite, positive and in order and the tenant exists |
| Outcomes.PolicyRead | crates/admin-api/src/routes.rs:305-321 | the policy read is the tenant's row, or 15, 6 and 4 |
| Outcomes.TenantSees | crates/admin-api/migrations/0001_control_plane.sql:34-139 | a tenant session sees of every table the tenant's own rows, all of them |
| Outcomes.AccountPostTakesEffect | crates/admin-api/src/routes.rs:161-219 | the request as an event: the store it leaves, and one handler exactly if sesame is configured |
| Outcomes.WorkerCallExactly | crates/job-runner/src/reconcile.rs:73-82 | a worker's call for every reply: it learns the id sesame then holds, or passes over the row as failed |
| Outcomes.WorkerPersistExactly | crates/job-runner/src/reconcile.rs:83-113 | a worker's update: an active account is left alone, a pending one becomes active with one entry that is counted |
| Outcomes.WorkerRowsExist | crates/job-runner/src/reconcile.rs:83-113 | in every reachable system a worker's update finds its row and tenant, so that it never fails and leaves the account active |
| Outcomes.WorkersComeAndGo | crates/job-runner/src/reconcile.rs:56-115 | a cycle starts with exactly the rows the query answered and returns only when all are done |
| Outcomes.BatchIsOldestPending | crates/job-runner/src/reconcile.rs:58-63 | an if and only if for the answers of the batch query: pending accounts, oldest first, each once, at most the limit, left out only if the limit is reached and none inside is younger |
| Provisioning.ActiveAccountsCarryTheirId | crates/admin-api/src/routes.rs:222-282 | after any run an active account carries the id sesame holds for its email, and no two accounts share one |
| Provisioning.ActivationIsFinal | crates/job-runner/src/reconcile.rs:83-113 | once active, an account stays active with the same id, although one of the two updates ignores the status |
| Provisioning.HandlerPersistSucceeds | crates/admin-api/src/routes.rs:243-270 | a handler holding sesame's answer can always commit it and leaves the account active with that id |
| Provisioning.ProvisionIsIdempotent | crates/wrappers/src/sesame_client.rs:5 | sesame's directory only grows, stays one to one, and tells the caller the id it holds |
| Provisioning.ProvisionExactly | crates/wrappers/src/sesame_client.rs:138-162 | for every reply: sesame gains at most the one user asked for, and the caller learns an id exactly from an answer, the one sesame holds |
| Provisioning.AcceptedPostStartsOneHandler | crates/admin-api/src/routes.rs:207-219 | from every reachable system an accepted account request leaves exactly one live handler for the new account if sesame is configured, and none otherwise |
| Provisioning.AnsweredHandlerActivates | crates/admin-api/src/routes.rs:222-270 | an answered call and, after anything else, the update leave the account active with the id sesame holds |
| Provisioning.PostedAccountIsActivated | crates/admin-api/src/routes.rs:161-282 | the whole way under every interleaving: accepted request, anything else, answered call, anything else, update, active account |
| Accounting.ActivationEntries | crates/job-runner/src/reconcile.rs:97-111 | per account at most one reconciled and one provisioned entry, at least one of them exactly when it is active, reconciled first when both exist |
| Accounting.ReturnedCountsAreTrue | crates/job-runner/src/reconcile.rs:72-114 | after any run every cycle's count is the number of reconciled entries it wrote, no entry is counted by two cycles, and the counts together are the log's entries |
| Progress.CycleSettlesItsBatch | crates/job-runner/src/reconcile.rs:72-113 | when a cycle returns, each account of its batch is active or was refused, whatever else ran meanwhile |
| Progress.CycleReducesWaiting | crates/job-runner/src/reconcile.rs:56-70 | one error-free cycle empties the waiting part of an oldest group or shrinks it by batch minus failing |
| Progress.EveryoneElseIsActivated | crates/job-runner/src/reconcile.rs:56-82 | with fewer failing accounts than a batch, all others of the group are active after ceil(N / (batch - failing)) cycles |
| Progress.HeadOfLineBlocks | crates/job-runner/src/reconcile.rs:62-82 | a cycle refused throughout ends without error, changes neither store nor directory, and the same batch may be answered next |
| Starvation.SelectedExactly | crates/job-runner/src/reconcile.rs:58-63 | no answer of the batch query selects a pending account exactly when a batch of strictly older ones is pending; every answer does exactly when fewer than a batch are at least as old |
| Starvation.BlockedStaysPending | crates/job-runner/src/reconcile.rs:56-82 | over every run in which a batch of strictly older accounts stays pending, no cycle selects the account and it stays pending, unless a request or running cycle held it before |
| Starvation.ActivatedExactly | crates/job-runner/src/reconcile.rs:56-113 | over every run with enough error-free cycles: activated if fewer than a batch of accounts created no later keep failing, not selected if a batch of strictly older ones do; without equal creation times an if and only if |
| Starvation.StarvationExactly | crates/job-runner/src/reconcile.rs:56-113 | equal creation times included: after any number of cycles the account can still wait exactly if a batch of accounts created no later fails, and can be active exactly if fewer than a batch of strictly older ones fail |
| Starvation.StarvationCanLast | crates/job-runner/src/reconcile.rs:73-82 | runs of any number of error-free cycles exist in which a failing batch at the head lets nothing change |
| Replay.ReplayRebuildsTables | crates/admin-api/src/routes.rs:78-90 | folding the audit log of any run yields exactly the audited columns of tenants, domains, accounts and policies |
| Replay.RebuiltColumns | crates/admin-api/src/routes.rs:78-90 | the same column by column: ids, slugs and plans, owners and names, emails, quotas, statuses and sesame ids, thresholds |
| Replay.OneEntryPerChange | crates/og-db/src/audit.rs:1-2 | a step appends at most one entry; without one the audited columns are unchanged, with one they change as replaying that entry says |
| Replay.LogOnlyGrows | crates/admin-api/migrations/0001_control_plane.sql:127-139 | the log before is a prefix of the log after, over any run |
| Replay.DomainIsRebuiltToo | crates/admin-api/src/routes.rs:193-203 | the domain of an account, which no entry names, is the rebuilt domain named after the `@` of the rebuilt email |
| ControlPlane.OrderByCreation | crates/job-runner/src/reconcile.rs:58-63 | the selection loop returns the oldest rows, oldest first, each once, as many as the limit allows |
| ControlPlane.ListRows | crates/admin-api/src/routes.rs:94-103 | a listing holds every visible row once, ordered by creation |
| ControlPlane.Sesame.ProvisionUser | crates/wrappers/src/sesame_client.rs:5-7 | create or fetch by email: known ids never change and an answer is the id held afterwards |
| ControlPlane.Plane.CreateTenant | crates/admin-api/src/routes.rs:60-92 | commits the new row and its entry or leaves the store alone with the specified error |
| ControlPlane.Plane.CreateDomain | crates/admin-api/src/routes.rs:109-141 | commits the new row and its entry or leaves the store alone with the specified error |
| ControlPlane.Plane.InsertAccount | crates/admin-api/src/routes.rs:167-205 | the first transaction of account creation, with each of its error cases |
| ControlPlane.Plane.PersistProvisioned | crates/admin-api/src/routes.rs:243-270 | the second transaction, on whatever the account is by then |
| ControlPlane.Plane.CreateAccount | crates/admin-api/src/routes.rs:161-219 | run alone: when exactly the account is created and with which error not; active with the id sesame holds and a second entry exactly if sesame was asked and answered, pending otherwise; the same as three events of the protocol |
| ControlPlane.Plane.ProvisionIntoSesame | crates/admin-api/src/routes.rs:222-282 | asks sesame; exactly if it answers and the row is the tenant's the row becomes active and that is logged, otherwise only sesame may have changed |
| ControlPlane.Plane.ListTenants | crates/admin-api/src/routes.rs:94-103 | every tenant once, ordered by creation |
| ControlPlane.Plane.ListDomains | crates/admin-api/src/routes.rs:143-155 | the tenant's own domains, all of them, each once, ordered by creation |
| ControlPlane.Plane.ListAccounts | crates/admin-api/src/routes.rs:284-297 | the tenant's own accounts, all of them, each once, ordered by creation |
| ControlPlane.Plane.GetPolicy | crates/admin-api/src/routes.rs:305-321 | the tenant's row, or 15, 6 and 4 |
| ControlPlane.Plane.PutPolicy | crates/admin-api/src/routes.rs:325-363 | afterwards the policy read is the one written, or the store is unchanged with the specified error |
| ControlPlane.Plane.PendingBatch | crates/job-runner/src/reconcile.rs:56-70 | the oldest pending accounts, at most a batch |
| ControlPlane.Plane.PersistReconciled | crates/job-runner/src/reconcile.rs:83-112 | the guarded update: only a pending account is activated, with one entry |
| ControlPlane.Plane.ReconcileRows | crates/job-runner/src/reconcile.rs:72-114 | the loop over the batch follows the protocol row by row and stops at a database error |
| ControlPlane.Plane.ReconcileOnce | crates/job-runner/src/reconcile.rs:50-115 | a whole cycle run alone is the corresponding run of the protocol and returns its worker's count |
| Grouping.GroupRows | crates/config-compiler/src/render.rs:108-131 | the loop yields one policy per slug in strictly increasing order, with the slug's rows in row order and the first row's thresholds |
| Grouping.Drain | crates/config-compiler/src/render.rs:118-130 | walking the map by increasing key gives that grouping |
| Grouping.GroupingIsDetermined | crates/config-compiler/src/render.rs:110-116 | two groupings of rows that agree per slug are equal |
| Grouping.ExchangeKeepsGroups | crates/config-compiler/src/render.rs:111-116 | exchanging neighbouring rows of different slugs changes no group |
| Grouping.GroupingConservesRows | crates/config-compiler/src/render.rs:65 | the audited number of domains equals the number of rows |
| Grouping.SettingsIdInjective | crates/config-compiler/src/render.rs:134-136 | on slugs without underscores the settings id can be undone, so ids never collide |
| Grouping.SettingsIdSpelled | crates/config-compiler/src/render.rs:134-136 | the id is tenant_ and the slug with every hyphen an underscore |
| Schema.TenantPasses | crates/config-compiler/src/render.rs:163-184 | one tenant's document is valid under draft-07 exactly when slug and domains are non-empty, the id has its shape and the thresholds are finite |
| Schema.DocumentPasses | crates/config-compiler/src/render.rs:139-188 | the document is valid exactly when every tenant's part is |
| Schema.DocumentHolds | crates/config-compiler/src/render.rs:139-154 | the checked document holds each tenant's slug, id, domains in order and the three thresholds under their names |
| Schema.SettingsIdFits | crates/config-compiler/src/render.rs:168 | the id made from a valid slug matches the schema's pattern |
| Rcpt.SelectsExactlyTheDomain | crates/config-compiler/src/render.rs:203-213 | for every recipient, the emitted expression matches if and only if the text after the last `@` is the domain |
| Rcpt.UnescapedDotsLeak | crates/config-compiler/src/render.rs:211 | without escaping, an expression matches a recipient at another domain |
| Ucl.RenderUclText | crates/config-compiler/src/render.rs:197-232 | the pushing loop produces the header and the blocks in order |
| Ucl.BlockLayout | crates/config-compiler/src/render.rs:202-230 | a block is the format string of the source with id, expressions and the three thresholds in their places |
| UclRoundTrip.UclReadsBack | crates/config-compiler/src/render.rs:197-232 | a reader of the emitted subset recovers every block: id, expressions in order, thresholds |
| Routing.PoliciesReadBack | crates/config-compiler/src/render.rs:202-230 | from the text the reader recovers slug, id, domains in order and thresholds of each policy |
| Routing.RenderingIsInjective | crates/config-compiler/src/render.rs:197-232 | equal texts come from equal lists of policies |
| Routing.BlockNamesDiffer | crates/config-compiler/src/render.rs:133-136 | no two blocks of one compilation share a name |
| Routing.CompiledAreSound | crates/config-compiler/src/render.rs:118-130 | every policy compiled from a consistent store has a valid slug, its id, well-formed domains, at least one, and ordered thresholds |
| Routing.RowsOfOneTenantAgree | crates/config-compiler/src/render.rs:108-116 | in a reachable store the first row's thresholds are those of every row of the tenant |
| Routing.EffectivePolicy | crates/config-compiler/src/render.rs:90-100 | in every reachable store the API and the compiler agree on every tenant's policy: its row, or 15, 6 and 4; and it is always finite, positive and in order |
| Routing.NoRowIsDefaultRow | crates/config-compiler/src/render.rs:17-23 | storing the defaults for a tenant without a row changes neither the compiler's rows nor the API's answer |
| Routing.OwnOutputPasses | crates/config-compiler/src/render.rs:56-57 | in every reachable store the compiled document passes the compiler's own schema |
| Routing.RoutingIsExact | crates/config-compiler/src/render.rs:87-131 | for every reachable store and every recipient: a block applies exactly when the domain part is an active domain of an active tenant, at most one applies, it is that tenant's and carries the thresholds the API reports |
| Routing.AccountsAreRoutedHome | crates/config-compiler/src/render.rs:203-213 | mail to an account is handled by the block of its own tenant, exactly while the account's domain has status active and its tenant has status active |
| Routing.InactiveTenantIsNotRouted | crates/config-compiler/src/render.rs:96-98 | in every reachable store, no block applies to a recipient at any domain of a tenant that is not active |
| Routing.InactiveDomainIsNotRouted | crates/config-compiler/src/render.rs:96-98 | nor to a recipient at a domain that is not active |
| Routing.AuditedFigures | crates/config-compiler/src/render.rs:65-75 | the audited figures are the number of active tenants with an active domain and the number of active domains of active tenants, both spelled out |
| Publishing.ExclusiveIsCrashSafe | crates/config-compiler/src/render.rs:236-248 | any number of compilers stopped anywhere: if none creates the temporary file while another has it open, the path holds its initial content or one complete rendering that passed the schema, and each audit entry follows its own write |
| Publishing.OutputIsCrashSafe | crates/config-compiler/src/render.rs:53-82 | with one compiler the same without any condition |
| Publishing.OutputAlwaysRoutes | crates/config-compiler/src/render.rs:53-63 | next to a running control plane: once something was put in place, the file routes every recipient exactly as the store asked for when the cycle that put it there loaded it |
| Publishing.OneCompilerAlwaysRoutes | crates/config-compiler/src/render.rs:53-63 | with one compiler the same without any condition, and lists are put in place in the order they were loaded |
| Publishing.InstallsFollowLoads | crates/config-compiler/src/render.rs:54-63 | with several, lists are put in place in load order exactly when each effective Rename finds only lists loaded earlier |
| Publishing.EntriesFollowWrites | crates/config-compiler/src/render.rs:65-79 | every compile entry of the store's own log has the figures of a rendering put in place before it, and no two are about the same |
| Publishing.UndisturbedCycle | crates/config-compiler/src/render.rs:53-82 | from any state of files and compilers, a cycle nobody intervenes in publishes a list that passes whole and logs its figures; of one that does not pass nothing remains |
| Publishing.UndisturbedCyclePublishes | crates/config-compiler/src/render.rs:53-82 | next to a control plane, from every state reached without overlap: such a cycle always passes the check, the file then routes every recipient as the loaded store asks for, and the store's log gets exactly the entry with the store's figures |
| Publishing.CompilerCreateIsSafeExactly | crates/config-compiler/src/render.rs:241-247 | from every fleet of compilers without overlap: after a Create the path stays good under every continuation if and only if each other compiler with the file open has written nothing and renders the same text |
| Publishing.LateWriteLands | crates/config-compiler/src/render.rs:243-247 | a compiler that still has the file open after another renamed it writes into the published file |
| Publishing.TwoCompilersCanSpoil | crates/config-compiler/src/render.rs:241-247 | when a second compiler creates the temporary file while the first writes it, what the first then renames is whole at that moment exactly if nothing had been written, and empty if everything had |
| Publishing.EmptyStoreCanSpoil | crates/config-compiler/src/render.rs:241-247 | two compilers of an empty store can leave an empty settings file |
| Compiler.FitsDecides | crates/config-compiler/src/render.rs:57 | the executable check used by the compile method decides validity under the schema |
| Compiler.ConfigCompiler.WriteAtomic | crates/config-compiler/src/render.rs:236-248 | wherever the file system refuses, the settings path is either untouched or holds the whole new content |
| Compiler.ConfigCompiler.QueryRows | crates/config-compiler/src/render.rs:90-106 | the rows are those of the active domains of active tenants, each once |
| Compiler.ConfigCompiler.CountDomains | crates/config-compiler/src/render.rs:65 | the sum over the list is the total number of domains |
| Compiler.ConfigCompiler.CompileOnce | crates/config-compiler/src/render.rs:53-82 | success writes the rendering and one entry with the right figures; only a failed audit leaves a new file without its entry, every other failure leaves file and store alone; on a reachable store only database and file system can fail |
| Quarantine.ReplayRebuildsItems | crates/abuse-api/src/routes.rs:121-136 | after any run there is one item per tenant and message, and replaying the log yields decision, status, resolver and report of each |
| Quarantine.RebuiltItem | crates/abuse-api/src/routes.rs:121-136 | the same column by column for each item |
| Quarantine.ItemsComeFromFirstDecision | crates/abuse-api/src/routes.rs:102-119 | a message has an item exactly when some decision quarantined it, and the item names the earliest such decision |
| Quarantine.ReleasedNeverReappears | crates/abuse-api/src/routes.rs:144-160 | a released item keeps its resolver and its message is never listed again, even when quarantined anew |
| Quarantine.ReleasedAtMostOnce | crates/abuse-api/src/routes.rs:162-197 | the log shows at most one release per message, and one exactly when its item is released |
| Quarantine.RequestChecksAreTheTables | crates/abuse-api/migrations/0001_abuse.sql:43-52 | the values the service accepts for action and verdict are exactly those the table's CHECKs allow |
| Quarantine.DecisionOutcome | crates/abuse-api/src/routes.rs:60-138 | every decision request: the values, then the ids; otherwise decision and entry are stored, and an item exactly if the message is quarantined and has none |
| Quarantine.ReleaseOutcome | crates/abuse-api/src/routes.rs:162-197 | a release commits exactly if the item exists, is the tenant's and is held; it sets status, resolver and time and nothing else, and is logged; otherwise not found |
| Quarantine.ReportOutcome | crates/abuse-api/src/routes.rs:199-240 | feedback commits exactly if it says spam or ham and the item is the tenant's, released or not; it sets the feedback and nothing else |
| Quarantine.HeldStaysListed | crates/abuse-api/src/routes.rs:144-160 | over every run: an item a decision held stays listed, unchanged but for feedback, until its tenant releases it |
| Quarantine.HeldIsReleasedNext | crates/abuse-api/src/routes.rs:162-197 | and the tenant's next release succeeds, whatever reports and other requests came between |
| Quarantine.ForeignItemIsHidden | crates/abuse-api/migrations/0001_abuse.sql:92-96 | another tenant's item is neither listed nor released nor reported |
| Quarantine.OthersAreUntouched | crates/abuse-api/migrations/0001_abuse.sql:27-96 | a request of one tenant changes nothing another tenant can read |
| Quarantine.OnlyIdsLeak | crates/abuse-api/src/routes.rs:60-240 | in two stores that look alike to a tenant its request has the same answer exactly when it fails an earlier check or its ids are taken in both or in neither, and then they still look alike |
| Quarantine.Desk.Decide | crates/abuse-api/src/routes.rs:60-138 | commits decision, item if new, and entry, or leaves all tables alone with the specified error |
| Quarantine.Desk.Release | crates/abuse-api/src/routes.rs:162-197 | a held visible item is released with resolver and time; anything else is not found |
| Quarantine.Desk.Report | crates/abuse-api/src/routes.rs:199-240 | a visible item takes the feedback whatever its status; bad verdicts are refused first |
| Quarantine.Desk.List | crates/abuse-api/src/routes.rs:144-160 | the tenant's held items, all of them and nothing else, each once, newest first |
| Base64Url.DecodeOfEncode | crates/og-auth/src/mock.rs:87-91 | decoding undoes encoding for all byte strings |
| Base64Url.EncodeOfDecode | crates/og-auth/src/lib.rs:226-228 | encoding undoes decoding, so each byte string has one accepted text |
| Base64Url.DecodeInjective | crates/og-auth/src/lib.rs:315-318 | two accepted texts of the same bytes are equal |
| Base64Url.NoDots | crates/og-auth/src/mock.rs:89-91 | encoded text never holds the separator of token segments |
| Base64Url.TextIsBase64 | crates/og-auth/src/mock.rs:87-91 | the text of three bytes is the number they form in four digits to the base 64, and the rest follows |
| Base64Url.LastTwoAreBase64 | crates/og-auth/src/mock.rs:87-91 | two bytes at the end are filled up with zero bits and make three digits |
| Token.MintHasThreeSegments | crates/og-auth/src/mock.rs:74-92 | a minted token splits into exactly header, payload and a signature of both, with every field of header and payload written out |
| Token.MintedTokenVerifies | crates/og-auth/src/lib.rs:215-249 | verifying a minted token returns its subject, tenant and roles, or exactly the error of the key lookup, the expiry or the issuer |
| Token.AcceptedIsSigned | crates/og-auth/src/lib.rs:215-249 | soundness: an accepted token consists of three canonical segments, an EdDSA header, a signature that verifies under the resolved key and claims neither expired nor of another issuer; subject, tenant and roles of the caller are those of the claims, with none where none are claimed |
| Token.AuthenticIsAccepted | crates/og-auth/src/lib.rs:215-249 | completeness: every token with those properties is accepted, with subject, tenant and roles of the claims |
| Token.CallerIsAsClaimed | crates/og-auth/src/lib.rs:244-248 | of every accepted token: subject is the claimed one, roles are the claimed ones and none if none are claimed, the tenant is the parsed one and none if absent or not an id; no caller has a role its claims do not list |
| Token.RefusedForFirstFailure | crates/og-auth/src/lib.rs:215-249 | the exact answer for every token: the error of the first check that fails, in order |
| Token.TamperingIsNoticed | crates/og-auth/src/lib.rs:229-234 | if only minted inputs verify, an accepted token carries the header and claims of one of them |
| Jwks.ParseJwks | crates/og-auth/src/lib.rs:294-305 | the loop that skips unusable entries computes the key map of the document |
| Jwks.ParsedKeyIsLastUsable | crates/og-auth/src/lib.rs:294-305 | the map holds a kid exactly when the document has a usable entry for it, and then the key of the last one |
| Jwks.EndToEnd | crates/og-auth/src/mock.rs:57-70 | a token minted by the provider verifies against the document the provider serves |
| Jwks.FoundKeysAreFresh | crates/og-auth/src/lib.rs:253-291 | under any interleaving a returned key is the last usable entry of the document written last before the read, stamped at most the time to live earlier |
| Jwks.FailuresAreHonest | crates/og-auth/src/lib.rs:257-258 | a lookup that fetched fails only if the document written last before its second read lacked the kid or had outlived the time to live |
| Jwks.StartsExactly | crates/og-auth/src/lib.rs:253-256 | over every run: a lookup is answered at once, with the last usable entry of the document written last, if and only if there is one and its stamp is at most the time to live old; exactly otherwise it goes on to fetch |
| Jwks.RereadsExactly | crates/og-auth/src/lib.rs:257-258 | the second read decides in the same way between the key and unknown key |
| Jwks.FetchesOnlyOnMiss | crates/og-auth/src/lib.rs:253-268 | a lookup that failed to fetch had asked for the document, and started when no document in the cache answered it |
| Jwks.LoneLookupExactly | crates/og-auth/src/lib.rs:253-291 | from every reachable state a fetching lookup nobody intervenes in ends with the last usable entry of the fetched document if there is one and the second read is within the time to live, with unknown key otherwise, with a failure if no document came |
| Jwks.WithdrawnKeysFade | crates/og-auth/src/lib.rs:261-268 | once no document stamped from some time on holds a key, no lookup returns it after the time to live |
| Jwks.WithdrawnTokensAreRefused | crates/og-auth/src/lib.rs:215-232 | a token signed only by a withdrawn key is refused once the time to live is over |
| Jwks.OlderDocumentCanWin | crates/og-auth/src/lib.rs:285-289 | two concurrent refreshes can leave the document fetched first in the cache |
| Jwks.NewestStaysCached | crates/og-auth/src/lib.rs:270-291 | over every run: the cache always holds the newest document written exactly when documents are written in the order they were fetched, exactly when each write finds none fetched later in the cache |
| Jwks.SeparateRefreshesKeepNewest | crates/og-auth/src/lib.rs:253-291 | if no document arrives while another lookup is between fetch and write, the cache always holds the newest |
| Jwks.Authenticator.Refresh | crates/og-auth/src/lib.rs:270-291 | a failed fetch leaves the cache alone, a successful one replaces it |
| Jwks.Authenticator.KeyFor | crates/og-auth/src/lib.rs:253-268 | run alone: a kid in a cache at most the time to live old is answered without a fetch; otherwise the answer is the last usable entry of the fetched document, or unknown key |

## Left out

- HTTP, routing, middleware, tracing, environment parsing, timers and the service loop: each handler is one method call and each worker cycle a sequence of steps.
- SQL execution and isolation levels: a transaction is atomic in commit order, and an UPDATE looks at the row as it is then. Database outages appear only as a process that stops.
- `created_at`, `held_at` and the other clock columns are parameters of the events, as are new uuids; a uuid that is already taken ends in a conflict. `updated_at` and `stalwart_principal` are not kept.
- Rows with equal creation times may be listed and batched in any order, as in the query; the collation behind ORDER BY slug is not fixed either.
- Status changes of tenants and domains have no handler; they are unaudited environment steps. Account statuses suspended and deleted, quarantine status deleted and row deletion have no writer and are not modelled.
- Optional request fields and their serde defaults (plan, quota, display name, symbols): requests carry all fields. The `symbols` column of decisions is not kept.
- Quarantine items keep verdict and score instead of the formatted reason text; scores are not rounded to single precision.
- UCL beyond what is emitted, including its string unescaping: the quoted element is taken as the text of the expression. Of PCRE only literals, `\.`, `.` and a final `$`.
- Finite floats are represented by the decimal their `Display` prints; rounding while parsing the request is not modelled.
- JSON texts: the schema is checked on document values, and only the keywords this schema uses.
- fsync and power loss: the model's crash stops the process, and what was written stays written. Creating the parent directory and hard links between the two names are not modelled; files are counted in characters.
- Ed25519, JSON encoding of header and claims, and uuid parsing are parameters with the laws they must satisfy; the `x-actor` fallback and the `Bearer` header are not modelled.
- The client side of sesame (its access token cache and error kinds), the other wrappers, `types`, the front ends, deployment files, and features that only the documents describe.
- ControlPlane.Plane.CreateAccount: run without interference; with interference its two transactions are the separate events of the protocol.
- ControlPlane.Plane.ReconcileOnce: run without interference; with interference a cycle is the worker's events of the protocol.
- Jwks.Authenticator.KeyFor: run without interference; concurrent lookups are the events of the cache's state machine.
- Compiler.ConfigCompiler.WriteAtomic: a write error leaves a prefix in the temporary file; how long it is comes from the caller.
