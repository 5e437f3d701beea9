# A verified model of FireISP's stateful cores

FireISP is a back office for internet service providers: an Express application over MySQL, with Redis
as an optional shared cache.  This project models the parts of it that hold real state machines,
concurrent protocols, arithmetic, or a printer and its parser, and proves what they are for.
`dafny verify dfyconfig.toml` checks everything.

How the modules follow the program:

| modules | part of FireISP |
|---|---|
| `TenantPools`, `TenantCommits`, `TenantRouting` | the per-tenant pool router: generations, fingerprints, idle eviction, LRU cap, retries |
| `CacheKeys`, `ResponseCache`, `ResponseFreshness`, `ResponseStaleness`, `ResponseStates` | the version-tag response cache and its key encoding: when answers are fresh, and when they are of one database state |
| `CrudModel`, `CrudTenancy`, `CrudColumns`, `CrudPaging` | the scoped table operations and the generic handlers: tenants, columns, soft delete, paging |
| `CrudLocking`, `CrudSerial`, `CrudTransaction` | transactional writes under row locks, and the clean-up of their connection |
| `ClientMerge`, `MergeChains`, `MergeConsents` | the client merge transaction and chains of merges |
| `CsvExport`, `CsvImport`, `CsvFields`, `CsvRoundTrip` | the CSV printer and the quote-aware parser |
| `FixedWindows`, `BulkEmailBudget`, `BulkEmailOverlap`, `ApiTokenLimits` | fixed-window budgets, and what overlapping calls do to one |
| `PaymentAllocation`, `PaymentRaces`, `PaymentOverspends` | splitting a payment over invoices, one request at a time and overlapping |
| `IpAllowlist`, `IpSpellings` | IPv4 and CIDR matching, from the texts to the decision |
| `StockListing` | the grouped stock listing |
| `EmailSettings`, `ClientGroups` | two small stores with rules that must hold over whole runs |
| `Text`, `Numbers`, `Wrappers` | split, join, trim and numerals; minimum and maximum; Option and Result |

Code that changes state step by step is a class whose methods change its fields, proved against a
specification function (`PoolRouter` against `Commit`, `ModelTable` against `Update`, `ClientStore`
against `Merged`, and so on); protocols are step relations in which every await ends a step, and the
theorems range over all runs.  Lemmas named Exact say what an operation does in terms of its inputs
alone, without the functions that compute it.  Fields of a step relation marked as history record what happened and are
never read by a step.  Money is in integer cents and time in integer milliseconds.  The fingerprint hash
is taken to be injective and ciphertexts are opaque.

What the proofs found, beyond the properties hoped for:

- The list handler multiplies the offset by the limit as it was asked but clamps the page size to 100, so
  with a limit above 100 the announced pages skip rows (`CrudPaging.PagesTile` gives the exact condition).
- A response can be served stale when a bust writes the version counter back to an earlier value, as
  overlapping busts can, or when a counter above 0 is lost, and, for string queries, in no other way: the end of a bust or the loss
  of an entry keeps all later answers fresh if and only if it does neither (`ResponseStaleness.SteadyExactly`).
- A list runs two queries, and a commit may fall between them: its answer, and the body then cached, can
  show the rows of one state with the total of another.  An answer is of one state, whatever the handler,
  if and only if its queries saw equal states (`ResponseStates.OneStateExactly`).
- A repeated query parameter shares its cache key with the comma-joined string.
- A cell with a newline does not survive export and import, because the importer splits lines before it
  looks at quotes; below 10,000 rows the round trip holds if and only if there is none.
- Amounts of an allocation request are not validated: the caps hold for any amounts, but a negative share
  on an invoice already marked paid leaves the mark wrong, and that is the only way a request can
  (`PaymentAllocation.NegativeShareExact`, `NegativeShareCommits`).
- The guards on allocations read with plain SELECTs.  Two open requests of positive amounts and distinct
  invoices can together break a cap if and only if they share exactly one of the payment and an invoice; with
  both, the unique key lets only one commit; with neither, they are serial
  (`PaymentOverspends.ClashExactly`, `OverspendExactly` for any amounts, `PaymentRaces.SafeRunsAreSerial`).
- The bulk e-mail budget is called rolling in its comment, but its window is fixed at the first hit: a
  rolling day can see 2L - 1 recipients for a limit of L, and no more when counts are positive.  It reads and
  stores in two steps: calls that overlap can together pass any multiple of the limit (`BulkEmailOverlap`).
- The header of the IP allowlist names `::ffff:a.b.c.d` as an entry format, but entries are not normalized as
  client addresses are: such an entry is unreadable, and a list of nothing else is disabled and lets everybody
  in (`IpAllowlist.MappedListDisabled`).
- The comment on the saved SMTP password says that `undefined` keeps it; the code tests for the property,
  so a property present with the value `undefined` clears it (`EmailSettings.UndefinedClears`).  No route
  can send that, because a JSON body cannot carry `undefined`; code that builds the fields itself can.
- A group's primary ends up as no live member of it exactly when a client is chosen that is not a live one of
  the organization, or when a primary is archived or is moved by the client's own form (`ClientGroups.StepKeepsPrimaries`).
- A getTenantPool call that had already resolved "no isolated database" from an older registry version when
  its tenant was invalidated answers with the primary pool, and it is the only kind of call that answers
  from an older version; none answers with an old tenant pool (`TenantRouting.InvalidationIsFinal`,
  `StaleAnswerReached`).

## Model

| member | source | states |
|---|---|---|
| TenantPools.FingerprintCoversConfig | src/config/database.js:105-134 | Two registry rows with the same fingerprint give the same connection settings, which the fingerprint stands for, so reusing a pool by fingerprint never serves other settings |
| TenantPools.NormalizeExact | src/config/database.js:105-120 | The configuration of a tenant is exactly the columns of its row, port 3306 when the column is NULL or 0; there is none exactly when the row is missing or not isolated; it is refused exactly when host, name or user is NULL or empty |
| TenantPools.FingerprintExact | src/config/database.js:122-134 | Two usable rows have one fingerprint if and only if no column of a connection tells them apart, so a change of any of them, the port included, replaces the pool |
| TenantPools.PoolRouter.EvictTenantPool | src/config/database.js:173-178 | The entry leaves the cache and its pool is queued for end(), nothing else changes |
| TenantPools.SweepMeaning | src/config/database.js:183-188 | Deleting from the Map while walking it is the plain filter: fresh entries stay in order, idle ones are queued in order |
| TenantPools.PoolRouter.EvictIdleTenantPools | src/config/database.js:183-188 | The loop that deletes while it iterates leaves exactly the fresh entries |
| TenantPools.PoolRouter.PlaceEntry | src/config/database.js:205-230 | Reuses the entry when generation and fingerprint agree, otherwise ends the old pool and builds one; the entry moves to the recent end and each tenant keeps one entry |
| TenantPools.PoolRouter.EnforceCap | src/config/database.js:233-237 | The eviction loop terminates, removes exactly the surplus from the old end, and never reaches the tenant being served |
| TenantPools.PoolRouter.CommitTenantPool | src/config/database.js:202-239 | Sweep, place and cap in one atomic stretch; the returned pool is the most recent one and belongs to the tenant |
| TenantPools.PoolRouter.ResumeTenantPool | src/config/database.js:190-240 | What getTenantPool does after its await: fall back to the primary, look again after an invalidation, or commit |
| TenantPools.PoolRouter.InvalidateTenantDbConfig | src/config/database.js:251-257 | The generation is bumped and the cached pool is removed and ended at once |
| TenantCommits.CommitExact | src/config/database.js:183-239 | Entry by entry: a commit leaves the most recently served of the other tenants that are not idle, one fewer than the cap (at least 1), and the served tenant last; the pool is the cached one exactly when it is not idle and has the generation and fingerprint looked up, otherwise a new one from the settings looked up |
| TenantCommits.InvalidateExact | src/config/database.js:251-257 | Entry by entry: the generation of that tenant alone grows by one, its entry alone leaves, and its pool is ended at once |
| TenantCommits.PrimaryExact | src/config/database.js:190-198 | Entry by entry: falling back to the primary queues that tenant's cached pool for end() and changes nothing else |
| TenantRouting.EvictKeepsPools | src/config/database.js:173-178 | Eviction moves a pool from the cache to the end() queue and loses or duplicates none |
| TenantRouting.CommitKeepsPools | src/config/database.js:202-239 | A commit keeps every pool ever created in exactly one place, exactly once |
| TenantRouting.InvalidateKeepsPools | src/config/database.js:251-257 | So does an invalidation |
| TenantRouting.CommitKeepsCache | src/config/database.js:202-239 | After a commit every cached pool has the current generation of its tenant and the settings of its fingerprint, the cap holds, and the served tenant is last |
| TenantRouting.InvalidateKeepsCache | src/config/database.js:251-257 | After an invalidation the tenant has no cached pool and all other entries are still current |
| TenantRouting.CommitKeepsRecency | src/config/database.js:227-237 | Map insertion order stays the order in which tenants were last served |
| TenantRouting.StepKeepsInv | src/config/database.js:140-257 | Every step of every interleaving keeps the cache, pool, recency and call invariants |
| TenantRouting.RunKeepsInv | src/config/database.js:140-257 | So does every run of registry writes, lookups, invalidations and evictions, from the initial state on |
| TenantRouting.ReachableRouter | src/config/database.js:199-230 | In every reachable state each cached pool has its tenant's current generation, the cap holds, and every pool created is cached, queued or ended exactly once |
| TenantRouting.ReturnedPoolLives | src/config/database.js:190-240 | The pool a call returns is, at its return, cached for its tenant at the recent end with the settings that were read, and neither queued for end() nor ended |
| TenantRouting.AnswerWasHeldDuringCall | src/config/database.js:105-163 | The pool a call returns was built from the columns of a row that the registry held for the tenant between the start of that call and its return; likewise the primary only for a tenant without an isolated row, and the error only for a row that lacks a column |
| TenantRouting.CallKeepsIdentity | src/config/database.js:190-200 | A call in progress keeps its tenant and the moment it began |
| TenantRouting.RetriesBounded | src/config/database.js:140-163 | Registry queries of one call exceed the invalidations during it by at most one, and it gives up only after three of them |
| TenantRouting.GenerationCounts | src/config/database.js:136-138 | A tenant's generation is its number of invalidations |
| TenantRouting.CapEvictsOldest | src/config/database.js:233-237 | A victim of the cap was served strictly before every pool that stays |
| TenantRouting.CommitEvictsOldest | src/config/database.js:202-239 | A commit keeps the served tenant and evicts only idle pools and, beyond the cap, the least recently used |
| TenantRouting.InvalidationIsFinal | src/config/database.js:140-163 | A lookup begun before an invalidation never puts the old pool back: whatever pool is cached or returned for the tenant afterwards was created afterwards. A call then unfinished answers from an older registry version if and only if it had already resolved "no isolated database" from one |
| TenantRouting.StaleAnswerReached | src/config/database.js:140-197 | Witness run: a lookup resolves before the tenant gets its database and falls back to the primary after the row is written and invalidated |
| CacheKeys.EncodeInjective | src/middleware/httpCache.js:81-86 | encodeURIComponent is injective |
| CacheKeys.SortSorts | src/middleware/httpCache.js:82-83 | The sort yields an ordered arrangement by UTF-16 code units |
| CacheKeys.SortedUnique | src/middleware/httpCache.js:82-83 | There is only one ordered arrangement of the same names |
| CacheKeys.QueryStringExact | src/middleware/httpCache.js:81-86 | Two queries share a query string exactly when they have the same names and the same values as strings, in whatever order the parameters came |
| CacheKeys.ResponseKeyInjective | src/middleware/httpCache.js:89-92 | A response key determines organization, resource, version and query string |
| CacheKeys.VersionKeyInjective | src/middleware/httpCache.js:42-45 | A version key determines organization and resource |
| CacheKeys.KeyKindsDiffer | src/middleware/httpCache.js:42-92 | A version key is never a response key |
| CacheKeys.ResponseKeyExact | src/middleware/httpCache.js:81-92 | Two GETs share a response key exactly when organization, resource, version and stringified query agree |
| CacheKeys.StringQueriesNeverShare | src/middleware/httpCache.js:81-86 | For string-valued queries the key determines the query itself |
| CacheKeys.RepeatedParameterShares | src/middleware/httpCache.js:84 | Witness: a repeated parameter shares the key of the comma-joined string |
| ResponseCache.CacheService.GetVersion | src/middleware/httpCache.js:42-45 | The stored counter, 0 when there is none |
| ResponseCache.CacheService.BustCache | src/middleware/httpCache.js:53-63 | The counter becomes one more than what was read, every other entry stays |
| ResponseCache.CacheService.Get | src/middleware/httpCache.js:89-110 | A hit exactly when a body is stored under the key built from the current version |
| ResponseFreshness.StepKeepsInv | src/middleware/httpCache.js:42-123 | Every steady step keeps: each stored body is its own request's rendering, and every query behind it saw a database state that reflects every mutation busted by its version |
| ResponseFreshness.RunKeepsInv | src/middleware/httpCache.js:42-123 | So does every steady run, from the initial state on |
| ResponseFreshness.HitIsOwnRendering | src/middleware/httpCache.js:99-105 | A body found under a request's key is the rendering of that very request |
| ResponseFreshness.AnswerIsFresh | src/middleware/httpCache.js:76-125 | On a steady run, a hit or a miss answers what the handler gives when each of its queries, run in any order and at any time, sees a database state at least as new as every mutation whose bust completed before the request read the version |
| ResponseStaleness.SteadyExactly | src/middleware/httpCache.js:42-63 | The end of a bust, or the loss of an entry, keeps every later answer fresh, whatever was cached before and whatever steady steps follow, if and only if it neither writes a counter back to an earlier value nor loses one above 0 |
| ResponseStaleness.UnsteadyGoesStale | src/middleware/httpCache.js:42-123 | From every state in which a bust can write a counter back, or a counter above 0 can be lost, some run does so and serves a stale answer |
| ResponseStates.AnswerIsOfOneState | src/controllers/crudController.js:303-333 | When moreover no commit falls between the queries behind a body, a hit or a miss answers what the handler gives on one database state, at least as new as every mutation whose bust completed before the request read the version |
| ResponseStates.OneStateExactly | src/controllers/crudController.js:312-324 | Whatever a handler computes, its answer is that of one state if and only if the states its queries saw are equal |
| ResponseStates.ListMayTear | src/controllers/crudController.js:312-324 | Instance: a commit between the two queries of a list gives an answer that no single database state gives |
| ResponseFreshness.NonOverlappingIsSteady | src/controllers/crudController.js:377-419 | Freshness holds in particular when busts of one organization and resource do not overlap and the version key is not lost |
| ResponseStaleness.OverlappingBustsServeStale | src/middleware/httpCache.js:53-63 | Instance, reached from an empty cache: overlapping busts write the counter backwards and a stale body is served |
| ResponseStaleness.LostCounterServesStale | src/middleware/httpCache.js:29-45 | Instance, reached from an empty cache: a lost version key makes an earlier version current again |
| CrudModel.ModelTable.BuildConditions | src/models/BaseModel.js:114-130 | The pushed conditions hold of a row exactly when it is in the tenant, in the chosen soft-delete view and equal on every allowed filter |
| CrudModel.ModelTable.List | src/models/BaseModel.js:106-148 | The page of exactly those rows, in id order; an archived view of a hard-delete model is empty |
| CrudModel.ModelTable.Count | src/models/BaseModel.js:156-184 | Their number |
| CrudModel.ModelTable.FilterData | src/models/BaseModel.js:190-193 | Exactly the fillable part of the body |
| CrudModel.ModelTable.CreateRow | src/models/BaseModel.js:189-203 | Appends one row of the fillable data, or throws and changes nothing |
| CrudModel.ModelTable.UpdateRow | src/models/BaseModel.js:232-271 | Sets the fillable columns of the one visible row; refuses organization_id, an empty match is an error, an empty body reads back |
| CrudModel.ModelTable.DeleteRow | src/models/BaseModel.js:277-303 | Marks the row, or removes it when the model does not soft-delete; an empty match is an error |
| CrudModel.ModelTable.RestoreRow | src/models/BaseModel.js:325-343 | Clears the mark of a deleted row of the tenant; refuses models without soft delete |
| CrudColumns.FindExact | src/models/BaseModel.js:43-58 | A fetch finds exactly the row of that id in the tenant that is not soft-deleted |
| CrudColumns.UpdateExact | src/models/BaseModel.js:232-271 | A successful update gives the named row the body's value in each fillable column of the body, keeps every other column and every other row, and reads that row back; it is refused exactly when it names the organization, and fails exactly when the caller sees no such row |
| CrudColumns.PutThenGet | src/controllers/crudController.js:343-425 | The PUT handler likewise, and a GET that follows gives its answer |
| CrudColumns.PostThenGet | src/controllers/crudController.js:355-372 | A created row is live and holds exactly the fillable values of the body and the caller's tenant; a GET that follows finds it; nothing is created exactly when no column would be set |
| CrudColumns.DestroyExact | src/models/BaseModel.js:277-303 | A delete marks exactly the row the tenant sees, or removes exactly it, and otherwise fails |
| CrudColumns.RestoreExact | src/models/BaseModel.js:325-343 | A restore clears the mark of exactly the deleted row of the tenant, and otherwise fails |
| CrudColumns.ListExact | src/controllers/crudController.js:303-333 | A page is the stretch from (page - 1) * limit of the rows that are in the tenant, in the view asked for, and equal on every filter on a fillable or filterable column, id, status or organization_id; of at most 100 rows, of 50 for a limit of 0 |
| CrudColumns.CountExact | src/models/BaseModel.js:156-184 | The total is the number of exactly those rows |
| CrudTenancy.ApplyUpdateOnPart | src/controllers/crudController.js:216-246 | An update answers and writes as if the other tenants' rows did not exist |
| CrudTenancy.OwnRequest | src/controllers/crudController.js:303-580 | Every handler does: it commutes with restricting the table to its tenant |
| CrudTenancy.ForeignRequest | src/controllers/crudController.js:303-580 | No handler touches a row of another tenant |
| CrudTenancy.OthersInvisible | src/models/BaseModel.js:232-303 | In any run of any tenants, a tenant gets the answers and keeps the rows it would have alone |
| CrudTenancy.TwoRuns | src/models/BaseModel.js:43-183 | Two databases that agree on a tenant's rows and requests give it the same answers and rows, whatever the others hold and do |
| CrudTenancy.TenantNeverChanges | src/models/BaseModel.js:233-239 | No run changes the organization_id of a row |
| CrudTenancy.DeleteThenRestore | src/models/BaseModel.js:277-343 | Soft delete hides the row, a second delete fails, and restore brings the table back exactly |
| CrudPaging.PageNumberOnlyCuts | src/controllers/crudController.js:303-317 | The page number selects from the listing and does not change what is listed |
| CrudPaging.CountsTheListing | src/controllers/crudController.js:312-324 | The count of the list handler ranges over exactly the listed rows |
| CrudPaging.PagesOfTile | src/controllers/crudController.js:306-331 | Cut as the handler cuts, the announced pages tile a sequence exactly under the stated condition on limit and size |
| CrudPaging.PagesTile | src/controllers/crudController.js:303-333 | Pages 1 to totalPages, as counted by the second query, concatenated are the listing, without repeat or gap, if and only if the limit is 1 to 100, or larger with at most 100 rows, or negative with none |
| CrudPaging.ViewsPartition | src/models/BaseModel.js:106-183 | The live and the only-deleted view are the two halves of the with-deleted view |
| CrudLocking.FindByLookUp | src/models/BaseModel.js:43-58 | The scoped fetch is the primary-key row filtered by what the tenant may see |
| CrudLocking.StatementIsLocal | src/models/BaseModel.js:232-343 | An update, delete or restore statement changes exactly the row it names, by a function of that row alone |
| CrudLocking.AloneIsStatement | src/controllers/crudController.js:216-296 | A request run alone that passes its fetch does exactly its statement |
| CrudSerial.CommitIsSerial | src/controllers/crudController.js:255-270 | At commit, installing the written row is what the request does when run alone on the current table, and the guard saw that very version |
| CrudSerial.StepKeepsInv | src/controllers/crudController.js:187-296 | Every step of any interleaving keeps table, locks, transactions and log consistent |
| CrudSerial.RunKeepsInv | src/controllers/crudController.js:187-296 | So does every run |
| CrudSerial.Serialisable | src/controllers/crudController.js:187-296 | Any interleaving of transactional updates, deletes and restores is the serial run of the committed ones in commit order, with their serial answers; each guard of an update or delete accepted the version its write replaced; a request that threw leaves no trace |
| CrudSerial.TenantRunsAlone | src/controllers/crudController.js:187-296 | In any interleaving of any tenants, the answers to a tenant's requests that took effect, and its rows, are those of running them one at a time in commit order in a database without the other tenants |
| CrudSerial.LockedRowStays | src/models/BaseModel.js:43-58 | Between the locking read and the end of its transaction nobody changes the row |
| CrudSerial.OneHolder | src/models/BaseModel.js:52-54 | Two transactions never hold the same row |
| CrudTransaction.Connection.Dispose | src/controllers/crudController.js:271-295 | The connection is released or destroyed, exactly one of the two, once; destroyed exactly when ROLLBACK failed on a destroyable one; and the error of the try block comes out even when ROLLBACK, destroy or release throws |
| CrudTransaction.UpdateInTransaction | src/controllers/crudController.js:255-270 | The try block: the first failure is reported; the update is in the table exactly when it succeeded or the reply to its COMMIT was lost, otherwise the table is untouched |
| CrudTransaction.ApplyUpdate | src/controllers/crudController.js:216-297 | A failed update leaves the table as it was, unless the reply to its COMMIT was lost, and reports its own error although any clean-up call may throw; an open transaction goes back to the pool only when ROLLBACK failed on a connection that cannot be destroyed |
| CrudTransaction.SuccessExact | src/controllers/crudController.js:240-270 | An update succeeds exactly when no driver call throws, the guard accepts the row read, the model accepts the body and the hook accepts the row read back |
| CrudTransaction.FirstErrorExact | src/controllers/crudController.js:216-270 | Otherwise the error is that of the first step that went wrong, in the order of the calls |
| ClientMerge.ClientStore.UpdateOwner | src/models/Client.js:179-185 | Reassigns the source's rows of one table and counts them |
| ClientMerge.ClientStore.ReassignTables | src/models/Client.js:179-185 | The loop reassigns all listed tables and reports those that lost rows |
| ClientMerge.ClientStore.MoveFields | src/models/Client.js:189-197 | Moves and counts the live custom fields whose key the target lacks |
| ClientMerge.ClientStore.MoveFiles | src/models/Client.js:200-204 | Moves and counts the client files |
| ClientMerge.ClientStore.PreserveOptOuts | src/models/Client.js:211-228 | Writes every effective opt-out of the source onto the target |
| ClientMerge.ClientStore.Settle | src/models/Client.js:211-257 | Opt-outs, then consents judged by the new opt-outs, then the source retires |
| ClientMerge.ClientStore.Merge | src/models/Client.js:147-268 | All or nothing: the merge commits as a whole with its exact report, or throws and every table is as it was |
| MergeChains.OwnershipMoves | src/models/Client.js:179-185 | Every row of a reassigned table is kept with only its owner changed; the target ends with both shares |
| MergeChains.ReportExact | src/models/Client.js:179-185 | The report names exactly the tables that lost rows, each with how many |
| MergeChains.AttachmentReportExact | src/models/Client.js:189-204 | Custom fields and files are reported exactly when rows changed hands, with the number of rows that did |
| MergeChains.FieldsMerge | src/models/Client.js:187-197 | The unique key on live custom fields survives, the target's value wins, every other live key moves |
| MergeChains.VetoesUnite | src/models/Client.js:211-228 | The target's opt-outs become exactly the union of both clients', nobody else's change |
| MergeChains.ConsentsSettle | src/models/Client.js:230-250 | No consent is created, the source keeps no marketing consent, the target none on a channel it is opted out of |
| MergeConsents.ConsentsExact | src/models/Client.js:230-250 | A consent is withdrawn after a merge if and only if it was before, or it is a marketing consent of the organization owned by the source, or owned by the target with an opt-out of either client before the merge that covers its channel; all else about it stays |
| MergeConsents.PreferencesExact | src/models/Client.js:211-228 | Each preference row is as it was, but the target's row for a channel the source had opted out of takes that opt-out and keeps its own quiet hours where it has any, and gets a copy of the source's where it had no row; the unique key holds |
| MergeChains.OptOutsFollow | src/models/Client.js:206-228 | After any chain of merges a survivor is opted out of a channel exactly when some client it absorbed was at the start |
| MergeChains.RowsFollow | src/models/Client.js:179-185 | After any chain every row belongs to whoever finally absorbed its owner |
| MergeChains.TenTablesFollow | src/models/Client.js:155-185 | These are the ten tables of the transaction, by name |
| MergeChains.OtherTablesStay | src/models/Client.js:155-185 | A table not on the list keeps its rows |
| MergeChains.FilesFollow | src/models/Client.js:200-204 | So does every client file |
| MergeChains.OnlySourcesRetire | src/models/Client.js:252-257 | A chain retires exactly the absorbed clients |
| MergeChains.SurvivorsRespectOptOuts | src/models/Client.js:230-250 | After any chain no absorbed client has a marketing consent and no survivor of a merge has one on a channel it is opted out of |
| MergeChains.NoConsentCreated | src/models/Client.js:206-250 | No chain puts a consent into force or moves one |
| MergeConsents.ConsentsFollow | src/models/Client.js:206-250 | After any chain a consent is withdrawn if and only if it was at the start, or it is a marketing consent of the organization whose owner was absorbed, or whose owner absorbed another client and it or one of those it absorbed had opted out of the channel |
| MergeConsents.SurvivorKeepsPermission | src/models/Client.js:230-250 | A survivor keeps every permission on a channel that neither it nor any client it absorbed had opted out of |
| MergeConsents.OtherConsentsStay | src/models/Client.js:230-236 | A consent for another purpose or of another organization is never touched |
| MergeChains.FieldsStayUnique | src/models/Client.js:187-197 | The unique key on live custom fields survives every chain |
| MergeChains.FieldsFollow | src/models/Client.js:187-197 | After any chain a survivor has a live custom field under a key exactly when some client it absorbed had one at the start |
| MergeChains.OwnFieldsStay | src/models/Client.js:187-197 | And every custom field it had at the start is as it was |
| CsvExport.RowValues | src/controllers/exportController.js:28-38 | The cells of one row, quoted exactly when they hold a comma, quote or newline |
| CsvExport.ToCsv | src/controllers/exportController.js:22-42 | The exported text |
| CsvFields.TextExact | src/controllers/exportController.js:22-42 | The text is the header line and a line per row; a cell prints as nothing for NULL or no value, as its text when that has no comma, quote or LF, and otherwise in quotes with its own quotes doubled |
| CsvImport.ParseCsvLine | src/controllers/importController.js:50-83 | The character loop computes the scanner's fields |
| CsvFields.LineExact | src/controllers/importController.js:50-83 | Any line at all is cut at exactly the commas that an even number of quotes precedes; each field is what its piece says with quotes opened, closed and halved; 200 fields at most |
| CsvImport.FieldCount | src/controllers/importController.js:50-83 | Between 1 and 200 fields on any line |
| CsvImport.FillRecord | src/controllers/importController.js:35-41 | One record: headers to trimmed fields, a later equal header wins |
| CsvImport.ParseCsv | src/controllers/importController.js:24-44 | The records of a file up to the row cap |
| CsvFields.RecordExact | src/controllers/importController.js:33-40 | A record has exactly the trimmed headers, each with the trimmed field of the last column of that name, empty where the line is too short |
| CsvFields.FileExact | src/controllers/importController.js:24-44 | A file gives one record per line after the first, up to 10,000, each from that line and the first alone |
| Text.TrimExact | src/controllers/importController.js:26-38 | trim cuts off white space only, and all of it at both ends |
| CsvRoundTrip.LineRoundTrip | src/controllers/importController.js:50-83 | Any non-empty list of strings, commas, quotes and newlines included, is read back from its printed line, up to 200 |
| CsvRoundTrip.CrlfIrrelevant | src/controllers/importController.js:24-44 | Writing CRLF for LF changes no record, for any text |
| CsvRoundTrip.FileRoundTrip | src/controllers/exportController.js:22-42 | For plain headers and cells without newline the importer reads back, for each row and header, the trimmed text of a value and the empty text for NULL or no value, up to the row cap |
| CsvRoundTrip.FileRoundTripExact | src/controllers/importController.js:24-44 | Below the row cap it does so if and only if no value contains a newline |
| FixedWindows.RollingBound | src/middleware/rateLimit.js:324-331 | Windows of one length that follow each other allow at most twice the limit in any interval of that length |
| FixedWindows.SharpRollingBound | src/middleware/rateLimit.js:324-331 | When every window was opened by a hit of its own, at most twice the limit less one |
| BulkEmailBudget.BudgetStore.CheckBulkEmailDailyBudget | src/middleware/rateLimit.js:340-357 | The answer and the stored counter of one call; the reset time of a running window never moves |
| BulkEmailBudget.ExpiryInvisible | src/middleware/rateLimit.js:354-355 | The TTL rounded up to seconds neither shortens nor extends a window: every answer is that of a counter kept for ever |
| BulkEmailBudget.WindowsHold | src/middleware/rateLimit.js:340-357 | Recipients accepted inside one window never exceed the limit |
| BulkEmailBudget.AnswerExact | src/middleware/rateLimit.js:340-357 | A call is accepted exactly when its window has room for it after the hits accepted so far, is told what the window has left afterwards, and belongs to the window of an accepted hit that still runs, or else to a new one of 24 hours |
| BulkEmailBudget.RollingDay | src/middleware/rateLimit.js:340-357 | Any 24 hours see at most twice the limit |
| BulkEmailBudget.SharpRollingDay | src/middleware/rateLimit.js:340-357 | With positive counts, at most twice the limit less one |
| BulkEmailBudget.SharpBoundReached | src/middleware/rateLimit.js:340-357 | And that bound is reached for every limit of at least two |
| BulkEmailOverlap.AloneKeepsBudget | src/middleware/rateLimit.js:340-357 | Calls may overlap as long as no two accepted ones do: then every window stays within the limit and every 24 hours within twice the limit |
| BulkEmailOverlap.OverlapExceedsExactly | src/middleware/rateLimit.js:340-357 | Two calls of one window that both read before either stores take it beyond the limit if and only if each fits on its own and both together do not |
| BulkEmailOverlap.OverlapUnbounded | src/middleware/rateLimit.js:340-357 | For every limit and n, n calls at once pass n times the limit in one instant, so no multiple of the limit bounds a day |
| ApiTokenLimits.TokenLimiter.Check | src/middleware/rateLimit.js:266-306 | Every window is incremented, the first one exceeded decides, an unreadable policy refuses |
| ApiTokenLimits.EveryWindowHolds | src/middleware/rateLimit.js:225-230 | Each of the four windows passes at most its limit between resets and at most twice its limit in any rolling interval |
| ApiTokenLimits.ConfiguredExact | src/middleware/rateLimit.js:218-252 | The limit in force is the column's own number when it is in range, and 20, 60, 1,000 or 10,000 when it is NULL; nothing else is accepted |
| ApiTokenLimits.PassExact | src/middleware/rateLimit.js:266-300 | A request passes if and only if in each of the four windows the requests since that window opened are within the limit |
| ApiTokenLimits.PolicyHolds | src/middleware/rateLimit.js:218-300 | Under a policy row, each window lets through what its column or default says between two resets and at most twice that in any interval of its length |
| PaymentAllocation.BillingLedger.InsertAndSettle | src/controllers/billingController.js:89-115 | One share is inserted under the database guards and its invoice marked paid when its allocations reach its total |
| PaymentAllocation.BillingLedger.AllocatePayment | src/controllers/billingController.js:69-141 | All shares or none; a failed request leaves the ledger as it was |
| PaymentAllocation.RequestSettles | src/controllers/billingController.js:83-115 | A committed request takes exactly the sum of its shares from the payment, keeps the caps, and every invoice it touched is marked paid exactly when its allocations reach its total |
| PaymentAllocation.CapsAlways | README.md:868 | Over any run of requests one after another, whatever the amounts, no payment and no invoice is allocated beyond its cap |
| PaymentAllocation.AllocateExact | database/schema.sql:7811-7856 | Which guard refuses a share, by the sums it reads, in order, and which row is recorded otherwise |
| PaymentAllocation.DeletionGivesBack | database/schema.sql:7811-7856 | Marking an allocation deleted gives its amount back to its payment and its invoice and to nobody else |
| PaymentAllocation.DeleteThenAllocate | database/schema.sql:7811-7856 | The same allocation can then be made again, and every sum is what it was |
| PaymentRaces.PublishedIsServed | src/controllers/billingController.js:83-124 | What a transaction computed on its snapshot is what the request does on the committed ledger, when that agrees with the snapshot on the payment and the invoices it names |
| PaymentRaces.CommitTakes | src/controllers/billingController.js:83-124 | Of two open requests of one payment that name a common invoice, the one that commits first leaves the other unable to commit |
| PaymentRaces.SafeRunsAreSerial | src/controllers/billingController.js:83-124 | When no two open requests clash (share exactly one of the payment and an invoice), the ledger is that of the committed requests one at a time, so the caps hold, for any amounts |
| PaymentOverspends.OverspendExactly | database/schema.sql:7811-7856 | Whatever two requests and their amounts, open at the same time they can break a cap of some ledger within its caps if and only if they name no invoice twice and either name one payment, no common invoice, and together more than any beginning of either, or name different payments and both add to one invoice |
| PaymentOverspends.ClashExactly | database/schema.sql:7811-7856 | For positive amounts and distinct invoices: if and only if they clash |
| PaymentOverspends.SharedPaymentOverspends | database/schema.sql:7811-7856 | Instance: two requests of one payment for different invoices |
| PaymentOverspends.SharedInvoiceOverspends | database/schema.sql:7811-7856 | Instance: two requests of different payments for one invoice |
| PaymentAllocation.PaidAlwaysExact | src/controllers/billingController.js:83-115 | Over any run without negative amounts an invoice is marked paid exactly when its allocations reach its total |
| PaymentAllocation.NegativeShareExact | src/controllers/billingController.js:89-115 | A committed request leaves a correctly marked invoice correctly marked if and only if it allocates no negative amount to it or the invoice was not marked paid |
| PaymentAllocation.NegativeShareCommits | src/controllers/billingController.js:89-115 | Witness: a negative share on a paid invoice commits and leaves it marked paid below its total |
| IpAllowlist.Ipv4ToInt | src/middleware/ipAllowlist.js:27-38 | The loop computes the value of a canonical dotted quad, and nothing for any other text |
| IpAllowlist.Ipv4Bijection | src/middleware/ipAllowlist.js:27-38 | A bijection between canonical dotted quads and 0 to 2^32 - 1 |
| IpAllowlist.MaskValue | src/middleware/ipAllowlist.js:86-94 | The shifted mask has exactly the top prefix bits set, prefix 0 included |
| IpAllowlist.MaskKeepsTop | src/middleware/ipAllowlist.js:86-94 | And with a mask drops exactly the low bits |
| IpAllowlist.EntryExact | src/middleware/ipAllowlist.js:73-96 | A parsed entry matches an address exactly when they agree on the leading prefix bits |
| IpAllowlist.AllowlistExact | src/middleware/ipAllowlist.js:105-125 | An address is allowed exactly when some readable entry covers it, or when the list has no readable entry, which disables the feature |
| IpSpellings.CidrExact | src/middleware/ipAllowlist.js:73-96 | An entry is read as address x and prefix p if and only if it spells them: a dotted quad alone (p is 32), or before a slash and a number p of at most 32, with white space around either |
| IpSpellings.SpelledMatches | src/middleware/ipAllowlist.js:73-125 | It then lets in exactly the addresses that agree with x on the leading p bits |
| IpSpellings.CidrSpelling | src/middleware/ipAllowlist.js:73-96 | address/prefix with any white space around its parts spells them |
| IpSpellings.CidrEntryMatches | src/middleware/ipAllowlist.js:73-125 | address/32 lets in that address alone and address/0 everybody |
| IpSpellings.PlainEntryMatches | src/middleware/ipAllowlist.js:91-96 | An address alone lets in exactly itself |
| IpSpellings.UnreadableEntries | src/middleware/ipAllowlist.js:80-86 | A prefix above 32, a negative one, and an address that is no dotted quad are unreadable |
| IpSpellings.AddressExact | src/middleware/ipAllowlist.js:48-66 | A client address is read as x if and only if, up to its zone, it is the quad of x, or ::ffff: in either case before that quad or before its two hexadecimal groups |
| IpSpellings.DecisionExact | src/middleware/ipAllowlist.js:105-125 | The whole decision from the two texts: everybody when no entry can be read, otherwise exactly the client addresses that mean an address in a range some entry spells |
| IpAllowlist.SpellingsAgree | src/middleware/ipAllowlist.js:48-64 | The plain, dotted-mapped and hex-mapped spellings of an address get the same answer from every list |
| IpAllowlist.MappedEntryUnread | src/middleware/ipAllowlist.js:8-96 | An entry in IPv4-mapped form is unreadable whatever follows, although the header lists the format |
| IpAllowlist.MappedListDisabled | src/middleware/ipAllowlist.js:105-125 | A list of such entries alone is disabled and lets every address in |
| IpAllowlist.MappedAddressDisables | src/middleware/ipAllowlist.js:48-110 | One text, a mapped address: as a client address it stands for its IPv4 address, as the whole list it lets everybody in |
| StockListing.WhereBeforeJoin | src/models/InventoryItem.js:83-92 | Filtering the join by item is joining the filtered items |
| StockListing.GroupsAreItems | src/models/InventoryItem.js:83-92 | Grouping the outer join by item id gives each item once, in order, with exactly its own live stock |
| StockListing.QueryMeansListing | src/models/InventoryItem.js:83-92 | The grouped join is the plain listing with the plain sums: same rows, order and page |
| StockListing.FindAllWithStock | src/models/InventoryItem.js:55-96 | findAll's rows, order and page, each with the sum of its stock that is not deleted, 0 when there is none |
| StockListing.StockConserved | src/models/InventoryItem.js:83-92 | Over all items the quantities add up to the live stock |
| EmailSettings.SettingsTable.Upsert | src/models/EmailSettings.js:123-211 | One save: merged, refused or stored, with the public form as the answer |
| EmailSettings.SettingsTable.RecordTestResult | src/models/EmailSettings.js:213-228 | A test result changes nothing else; an untouched function is created disabled |
| EmailSettings.RefusedExactly | src/models/EmailSettings.js:153-163 | A save that does not mention the password is refused exactly when one is stored and the connection would change, or would be left with port 0 |
| EmailSettings.SavedPassword | src/models/EmailSettings.js:142-163 | What a successful save does to the password; a kept one keeps its connection |
| EmailSettings.SaveExact | src/models/EmailSettings.js:133-151 | Every column after a save, by itself: what the body says, nothing for an empty text, or what was there; the port starts at 587 |
| EmailSettings.PasswordNeededExact | src/models/EmailSettings.js:153-163 | The refusal in terms of the columns: a password is stored, the body has no such property, and host, port, security or account would change |
| EmailSettings.EventExact | src/models/EmailSettings.js:16-22 | A save or a test under one function leaves the rows of the other functions and organizations alone; an unknown function means the general one; a test begins a disabled row |
| EmailSettings.PublicExact | src/models/EmailSettings.js:57-81 | The public form column by column |
| EmailSettings.IdentityExact | src/models/EmailSettings.js:153-158 | Two rows name one connection exactly when no column of it tells them apart, no port being 587 |
| EmailSettings.UndefinedClears | src/models/EmailSettings.js:115-151 | A password property with the value undefined clears the password, as the empty string does, where the comment says it keeps it |
| EmailSettings.PublicHidesPassword | src/models/EmailSettings.js:57-81 | The public form tells whether a password is stored and nothing else about it |
| EmailSettings.PasswordBelongs | src/models/EmailSettings.js:123-211 | In every run a stored password is the one entered by the last save that mentioned it, for the host, port, security and account the row still names |
| ClientGroups.GroupTables.Add | src/models/ClientGroup.js:45-65 | The members become the old ones and the eligible clients; the answer is how many are new |
| ClientGroups.GroupTables.Remove | src/models/ClientGroup.js:73-89 | The client leaves the group; the answer tells whether it was a member |
| ClientGroups.AddExact | src/models/ClientGroup.js:45-65 | Client by client and group by group: exactly the named live clients of the organization move, and exactly the named primaries of its other groups are cleared |
| ClientGroups.RemoveExact | src/models/ClientGroup.js:73-89 | Likewise for removing one client |
| ClientGroups.AddKeepsPrimaries | src/models/ClientGroup.js:55-63 | Moving clients never leaves a group with a primary that is no live member |
| ClientGroups.RemoveKeepsPrimaries | src/models/ClientGroup.js:80-86 | Neither does removing one |
| ClientGroups.ChoiceKeepsPrimaries | src/routes/clientGroups.js:24-34 | Choosing a primary keeps the rule if and only if the client is a live one of the organization, and so is, or is made, a member |
| ClientGroups.EditKeepsPrimaries | src/routes/clients.js:72-147 | A write to a client alone (its group, its deletion, its restoration) keeps the rule if and only if the client stays a live member of its group or is no group's primary |
| ClientGroups.StepKeepsPrimaries | src/models/ClientGroup.js:45-89 | Each step keeps every primary a live member of its group if and only if it is sound, by a test its caller can make beforehand |
| ClientGroups.RunKeepsPrimaries | src/models/ClientGroup.js:23-89 | All along a run each group's primary is a live member, as getMembers lists them, if and only if every step is sound where it is taken |

## Left out

- ResponseFreshness.AnswerIsFresh: assumes that no counter above 0 is lost, that no bust writes a counter backwards, and that query values are strings, because freshness fails without each; the exact conditions are in the table.
- CsvRoundTrip.FileRoundTrip: Date cells, headers that need quoting, and a header named `__proto__` are not covered.
- CrudPaging.PagesTile: listings ordered by id only, because ties in another column have no fixed order; a limit of 0 or one that does not parse has no page count and is not covered.
- CrudSerial.Serialisable: guards are functions of the locked row; hooks that read other tables or change the request body are not modelled. A restore's guard runs before its lock is taken, so nothing is claimed about what it saw.
- CrudTenancy.OthersInvisible: for models with an organization column, callers with an organization, and no custom hooks or serializers; a fillable list that contains `id` or `deleted_at` is not modelled.
- CrudTenancy.OwnRequest: the list handler is two requests, its listing and its count; each other request runs to its end before the next, so a create's INSERT and its read-back, and a write and its read-back, are one step.
- CrudSerial.Serialisable: a COMMIT that takes effect although its reply is lost counts as committed; the client then gets an error in place of the logged answer.
- CrudColumns.PostThenGet: column defaults and generated columns of the database are not modelled; a column that was not set reads as NULL.
- CrudTransaction.ApplyUpdate: the catch and finally blocks of inLockedTransaction are the same and are not repeated.
- BulkEmailBudget.RollingDay: calls for one organization do not overlap; `BulkEmailOverlap` says what happens when they do.
- BulkEmailOverlap.OverlapExceedsExactly: both calls find the same window; two calls that each open a window of their own are covered by `OverlapUnbounded` only.
- BulkEmailBudget.ExpiryInvisible: the memory cache evicts its oldest key at 1,000 entries and Redis may evict under memory pressure; a running counter pushed out that way starts its window anew. This and the next two assume that it is not.
- BulkEmailBudget.WindowsHold: assumes that a running counter is not evicted.
- ApiTokenLimits.EveryWindowHolds: assumes that a running counter is not evicted; the policy stays the same over the run.
- PaymentAllocation.AllocatePayment: the credit on the client balance ledger and the payment-receipt calls after commit are left out.
- PaymentRaces.SafeRunsAreSerial: row-lock waits and deadlocks are not modelled; they only delay or abort a request. The trigger reads are taken from the transaction's snapshot, as under REPEATABLE READ.
- ClientMerge.Merge: one merge is atomic against other writers, as its row locks make it; soft-deleted custom fields stay with the source, as in the code.
- EmailSettings.PasswordBelongs: a port is a natural number; a value that is not a number is refused by the request schema.
- ClientGroups.RunKeepsPrimaries: soft deletion of groups, and a merge that retires a primary, are not steps of the model.
- database.close() and the final shutdown of pools: it resets the generations and ends the life of the router.
- Errors of the cache service in the response cache: they bypass the cache or skip a bust; a skipped bust is a mutation whose bust never completes. Entries that expire or are pushed out are modelled as dropped at any time.
- MySQL's collation and coercion in comparisons: taken as an arbitrary relation between a column and a bound value.
- OrganizationDatabaseConfig: its upsert is one arbitrary registry write followed by an invalidation in `TenantRouting`; its field defaults would only add easy members.
- Express wiring, routes, authentication, provisioning, RADIUS, CFDI stamping, dashboards, the GraphQL layer and the front end: plumbing or services whose behaviour is not in these files.
