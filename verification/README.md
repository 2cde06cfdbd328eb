# Verification of the repository's stateful components

A Dafny model of the components of this repository that carry state, protocols or arithmetic, with
proofs of the properties they exist for. `dafny verify dfyconfig.toml` checks the whole project.

| part | files | what is modelled |
|---|---|---|
| schema migration | `Clauses`, `ClauseGrammar`, `Schema`, `SchemaLaws`, `Migration`, `MigrationRun`, `MigrationLaws`, `MigrationAccepts`, `MigrationInput`, `MigrationParsed`, `MigrationCarried` | the clause scanner, the table parser above the regular expressions, the planner, and what a database server does with its statements |
| shared login | `LockProtocol`, `LockRace`, `LockAlone`, `SessionStore` | the lock-file protocol as interleaved steps of any number of processes with crashes, the race it admits, and the polling loops |
| token manager | `ScopeCover`, `ScopeGreedy`, `ScopeMixed`, `TokenManager`, `TokenManagerLaws`, `TokenManagerLife` | greedy scope matching and when it is right, the caches, ID-JAG reuse and the shared issuances, as steps between awaits |
| OAuth server | `OAuthFlow`, `OAuthServer`, `OAuthLaws`, `OAuthWorks` | the handlers as transitions, the handlers as methods over mutable stores, and the laws of whole runs |
| usage ledger | `UsageLedger`, `UsageLaws`, `UsageBudget`, `UsageDollars`, `UsageSnapshot`, `UsageSnapshotLaws`, `UsageSnapshotAccepts`, `UsageText`, `UsageFields`, `UsageSearch`, `UsageTail`, `UsageTailGaps` | recording, the daily report, prices and the daily limit, the persisted file and its older versions, reading the usage out of a response and out of its bounded tail |
| scope discovery | `GenAi`, `GenAiNames`, `Discovery` | the naming convention and the discovery loops over directory replies |
| hub accounts | `HubAccounts`, `HubAccountsLaws`, `HubAccountsRefresh`, `HubAccountsSignIn` | the session callback with its cached accounts |
| scope index | `OpenApiIndex`, `OpenApiSpecificity`, `OpenApiNames` | the route table and the fallback scope of the REST gateway |
| shared | `Results`, `SortedStrings`, `Splitting`, `Texts` | outcome types, sorted lists of distinct strings, splitting at separators, trimming and words |

Code that changes things step by step is a method or a class here, and each such method is proved
equal to a function of its inputs and its old state; the laws are then proved of those functions,
over every input, every run or every interleaving.

Conventions. Digests are injective and drawn tokens are new. A reply of a remote party is an input
that the proofs do not restrict. Texts are ASCII where letters or blanks matter. Scope lists, JSON
records and SQL clauses start where the regular expressions or the JSON reader hand them over.
Instants are numbers of milliseconds; `/` rounds down. Money is counted in ten-millionths of a US
dollar, in which every price of the source is an integer. Where the source sorts with
`localeCompare`, one fixed order of strings is used.

## What the code does not guarantee

The proofs follow the code. In these places a law one might expect is false; the model has inputs
that show it and the exact condition under which it holds.

* Deleting a stale lock file is a check followed by an unlink. Holders that always finish in time
  are not enough for mutual exclusion (`LockRace.TimelyHoldersAloneDoNotExclude`). The invariant
  holds throughout a run exactly when no unlink hits a live holder's file
  (`LockProtocol.InvThroughoutIffNothingStolen`), and any such unlink can be followed by two holders
  (`LockRace.StolenLockLetsTwoIn`).
* Greedy scope matching refuses some requests that could be granted
  (`ScopeGreedy.MixedGreedyCanFail`, `ScopeMixed.RoleOnlyRequestCanFail`). On normalized lists of
  names with at most one marker it does so in exactly two cases
  (`ScopeMixed.NormalizedGreedyIsRightIff`): a requested name that is granted in full spends its role,
  which stands before it, and a later name of that role is not granted in full; or a role-only name
  takes the first granted name left for it, and that name is itself requested later or is the role
  that another name lacks. The second case needs a role-only request
  (`ScopeMixed.QualifiedRobNobody`), which only the scope stated in a token response can hold.
* A NUL lets two callers share a ledger entry (`UsageLaws.NulMergesCallers`). A key names one caller
  among all lines exactly when subject, client id and scope hold no NUL
  (`UsageLaws.KeyIdentifiesCallerIff`), and among the lines that the server can receive exactly when
  subject and client id hold none where it could separate them otherwise
  (`UsageLaws.ReceivableKeyIdentifiesCallerIff`).
* A ledger file of version 4 is accepted although its models do not add up
  (`UsageSnapshotLaws.VersionFourMayBeUnbalanced`); an accepted entry is balanced exactly when its
  counters are the sums over the listed models (`UsageSnapshotLaws.VersionFourBalancedIff`). Of the
  entries with one key the last silently wins (`UsageSnapshotLaws.LastEntryOfEachKeyWins`), so that
  loading is faithful exactly when the keys are distinct (`UsageSnapshotLaws.LoadIsFaithfulIff`).
* The daily limit is checked when a request arrives and the cost is known when it ends, so a day's
  spend can pass the limit. The bound of `UsageBudget.OverrunIsBounded` is reached for every limit,
  number of requests at once and cost (`UsageBudget.MostIsReached`). No day passes its limit when
  every admitted request leaves room for itself and those in flight
  (`UsageBudget.CautionNeverOverruns`), and a request admitted without room can end in an overrun
  (`UsageBudget.NoRoomCanOverrun`).
* The tail of a response need not be metered like the whole: a long answer after its usage is lost
  (`UsageTailGaps.LongAnswerIsNotMetered`), and a cut can lay bare an object that the whole response
  hides in another line (`UsageTailGaps.CutLaysBareAnObject`). The tail alone tells when it can be
  trusted: every response that leaves it is metered like it exactly when it is shorter than the
  bound or a line that begins in it has a usage (`UsageTail.TailDecidesIff`).
  `UsageTail.TailAgreesIff` goes through the cases for one known response.
* A domain shorter than the template's prefix and suffix together can match it
  (`GenAi.OverlapMatchesToo`, `GenAi.TemplateUndoesMatch`). `ValidateRole` looks for the exchanger
  suffix before trimming, so an exchanger role passes it (`GenAi.SpacedExchangerRolePasses`), exactly
  when it ends in a blank (`GenAi.ExchangerRolePassesIff`).
* Signing in to the hub can evict the account that was active
  (`HubAccountsLaws.SignInKeepsIff`, `HubAccountsLaws.SmallestCacheForgets`).
* An OpenAPI description without `paths` clears the route table but not the fallback scope, which
  stays that of the last description with paths (`OpenApiIndex.FallbackIsOfTheLastWithPaths`,
  `OpenApiIndex.StaleFallback`).

## Model

| member | source | states |
|---|---|---|
| Clauses.SplitDefinitions | tools/athenz/athenz_version.py:71-91 | the scanner's loop returns the trimmed pieces of the text, or the error for a closing parenthesis too many or for an unbalanced text |
| Clauses.PiecesRejoin | tools/athenz/athenz_version.py:84-91 | joining the untrimmed pieces with commas gives the text back |
| Clauses.CutsAreTheSeparators | tools/athenz/athenz_version.py:75-86 | a piece ends at a position exactly when an unquoted comma at depth zero stands there |
| Clauses.SplitUndoesJoin | tools/athenz/athenz_version.py:71-91 | every comma-joined list of balanced clauses is accepted and comes back trimmed |
| Clauses.AcceptedIffJoinedClauses | tools/athenz/athenz_version.py:87-91 | exactly the comma-joined lists of balanced clauses are accepted |
| ClauseGrammar.SplitReadsClauses | tools/athenz/athenz_version.py:71-91 | told by a grammar of plain characters, quoted stretches and parenthesized groups, without a scanner: exactly its texts are accepted, and what comes back are the trimmed clauses between the commas outside quotes and groups |
| ClauseGrammar.UnsupportedIff | tools/athenz/athenz_version.py:87-88 | the first of the two errors is met exactly when a text of the grammar is followed by a closing parenthesis |
| ClauseGrammar.ClauseIffIsClause | tools/athenz/athenz_version.py:75-86 | the clauses of the other laws are the texts of the grammar without a comma outside quotes and groups |
| ClauseGrammar.StripIff | tools/athenz/athenz_version.py:85-91 | a clause comes back without the blanks around it and otherwise as it stands |
| Migration.PlanTable | tools/athenz/athenz_version.py:244-306 | one table's loops return the statements, or the first error, of its items in order; `MigrationAccepts` says when and which |
| Migration.PlanSchema | tools/athenz/athenz_version.py:228-307 | the whole planner returns the statements, or the first error, of all items of the release in order; `MigrationAccepts` says when and which |
| MigrationRun.WidenedColumnStays | tools/athenz/athenz_version.py:268-280 | a column that a release was silent about stays so after it is widened for another |
| MigrationRun.StatementFulfills | tools/athenz/athenz_version.py:245-290 | an item's own statement, once carried out, leaves the item nothing to ask for |
| MigrationRun.FulfilledStays | tools/athenz/athenz_version.py:250-306 | a fulfilled item, of any release, stays fulfilled through every planned statement |
| MigrationRun.PendingStays | tools/athenz/athenz_version.py:250-290 | a statement about something else leaves an item's own plan as it was |
| MigrationLaws.ItemsDistinct | tools/athenz/athenz_version.py:239-300 | no two items of a release are about the same thing |
| MigrationLaws.StepOfPlan | tools/athenz/athenz_version.py:496-506 | after the first statement of a plan the new plan is the rest of it |
| MigrationLaws.MigrationResumes | tools/athenz/athenz_version.py:496-506 | after any prefix of an accepted plan, planning again succeeds and gives exactly the remaining statements |
| MigrationLaws.MigrationConverges | tools/athenz/athenz_version.py:498-506 | after the whole plan the verification plan is empty |
| MigrationLaws.EmptyPlanIffServes | tools/athenz/athenz_version.py:228-307 | the plan is empty exactly when every table, column, index and foreign key of the live schema serves the release |
| MigrationAccepts.PlanAcceptedIff | tools/athenz/athenz_version.py:239-306 | planning succeeds exactly when every schema is there and each present table is an InnoDB table whose missing columns are nullable or have a default and are not generated, whose present columns agree or are shorter VARCHARs with named character set and collation, whose missing indexes are not unique and present ones equal, with no extra column or unique key in the way and the same foreign keys |
| MigrationAccepts.PlanHoldsWhatIsLacking | tools/athenz/athenz_version.py:245-290 | an accepted plan holds exactly one kind of statement for each thing: a table for each missing table, a column for each missing column, a widening for each shorter column, an index for each missing index, and nothing else |
| MigrationAccepts.PlanRepeatsNothing | tools/athenz/athenz_version.py:239-307 | no statement stands twice in an accepted plan |
| MigrationLaws.SafeStatementExtends | tools/athenz/athenz_version.py:252-290 | a planned statement drops nothing and narrows nothing |
| MigrationLaws.UpgradeKeepsEarlierRelease | tools/athenz/athenz_version.py:250-306 | a release that was served is still served after any prefix of any other release's plan, and nothing was dropped, narrowed or redefined |
| MigrationInput.ParseTable | tools/athenz/athenz_version.py:161-199 | the loop over a table's clauses fills the table as the clause-by-clause function says, or stops at the first error |
| MigrationParsed.TableIsItsClauses | tools/athenz/athenz_version.py:166-199 | a table is accepted exactly when every clause is known, every column has a supported type and a name of its own and every foreign key stays in the schema; it then holds the columns in their order, the last index and the last foreign key of each name, and nothing else |
| MigrationInput.ParsedTablesAreWellFormed | tools/athenz/athenz_version.py:166-199 | an accepted table has unique column and index names and foreign keys into its own schema, which is what the migration laws require |
| MigrationInput.ParsedColumnCanBeReported | tools/athenz/athenz_version.py:176-185 | for every accepted column there is a report that the planner's comparison takes as the same |
| SchemaLaws.TextGetsTheSmallestClass | tools/athenz/athenz_version.py:94-105 | a TEXT of a number of characters becomes the smallest storage class that holds three bytes for each of them, and is refused exactly when none does |
| SchemaLaws.OtherTypesAgreeIff | tools/athenz/athenz_version.py:105-105 | other types compare as the same exactly when they are, but for the display width of integers and the case of letters |
| SchemaLaws.DefaultIs | tools/athenz/athenz_version.py:108-113 | a default is as good as none exactly when it is NULL in some case of letters, and a quoted one is compared as it stands |
| SchemaLaws.ReplacesTheFirst | tools/athenz/athenz_version.py:113-117 | replacing in defaults, extras and character sets changes the first occurrence and goes on behind it |
| SchemaLaws.OlderNamesAgree | tools/athenz/athenz_version.py:261-264 | a character set or collation named after utf8mb3 agrees with its name after utf8 |
| MigrationInput.GatherMetadata | tools/athenz/athenz_version.py:228-237 | the loop over metadata rows builds the live schema of the rows |
| MigrationInput.GatheringRestoresTheSchema | tools/athenz/athenz_version.py:204-237 | from any listing that keeps the rows of an index or key in order, gathering gives the live schema itself |
| MigrationCarried.ParsedTablesFit | tools/athenz/athenz_version.py:166-199 | the columns and indexes of whatever the parser accepts can be made by a server and reported as declared |
| MigrationCarried.AcceptedPlanRunsIff | tools/athenz/athenz_version.py:496-506 | an accepted plan of such a release has a run exactly when each table it makes has foreign keys that refer to as many columns as they have, at least one |
| LockProtocol.InvKeptIffNothingStolen | components/mcp-credential-broker/src/sharedSession.ts:72-136 | a step of any process keeps the protocol's invariant exactly when it does not unlink a live holder's lock |
| LockProtocol.InvThroughoutIffNothingStolen | components/mcp-credential-broker/src/sharedSession.ts:72-136 | the invariant holds throughout a run exactly when no step of it steals a lock |
| LockProtocol.TimelyHoldersExclude | components/mcp-credential-broker/src/sharedSession.ts:72-270 | with timely holders and an atomic check-and-unlink at most one process holds the lock, in every interleaving with crashes |
| LockProtocol.FreshLocksExclude | components/mcp-credential-broker/src/sharedSession.ts:263-270 | at most one process holds the lock in every interleaving in which no lock file reaches stale age |
| LockProtocol.DeletesExactlyTheRejected | components/mcp-credential-broker/src/sharedSession.ts:111-136 | under the lock `invalidate` goes on to delete if and only if the cached token is the one its caller saw rejected, it still is when it is deleted, and no other step ever deletes |
| LockProtocol.NoDuplicateLogin | components/mcp-credential-broker/src/sharedSession.ts:82-97 | from the moment a credential is stored until its expiry less the skew no process starts a login, unless the credential was invalidated |
| LockAlone.CallComesToItsOutcome | components/mcp-credential-broker/src/sharedSession.ts:72-136 | a call that begins, with nobody else moving, within fifteen steps ends at once with a usable credential, comes around its loop behind a fresh lock with nothing changed, or takes the free or stale lock, leaves the credential as a login or an invalidation should, and frees the lock |
| LockAlone.HolderLetsGo | components/mcp-credential-broker/src/sharedSession.ts:86-97 | wherever a holder of its own lock stands, at most six steps of its own free the lock, and nobody else is moved |
| LockAlone.TriesInTime | components/mcp-credential-broker/src/sharedSession.ts:78-81 | in every interleaving a call goes on from the head of its loop exactly until its longest wait after it began |
| LockAlone.UnlinkingIsPreparedByALook | components/mcp-credential-broker/src/sharedSession.ts:254-270 | in every interleaving who is about to unlink has found its own written file there, or one that was stale |
| LockAlone.LockFileIsOnlyMadeWrittenAndUnlinked | components/mcp-credential-broker/src/sharedSession.ts:168-188 | in every interleaving the lock file is only made where there is none, written by its maker, and unlinked |
| LockRace.StolenLockLetsTwoIn | components/mcp-credential-broker/src/sharedSession.ts:263-270 | every run with a step that unlinks a live holder's lock can be continued, after that step, by three events to two holders |
| LockRace.ThiefLocksToo | components/mcp-credential-broker/src/sharedSession.ts:72-108 | a waiting login that steals a lock before its deadline, with nothing cached, needs nobody else to bring about two holders |
| LockRace.TimelyHoldersAloneDoNotExclude | components/mcp-credential-broker/src/sharedSession.ts:263-270 | for every configuration there is a run with timely holders throughout that ends with two holders |
| SessionStore.SharedSessionStore.TryAcquireLock | components/mcp-credential-broker/src/sharedSession.ts:168-188 | the lock file is created, with the new owner in it, exactly when there is none |
| SessionStore.SharedSessionStore.ReleaseOwnedLock | components/mcp-credential-broker/src/sharedSession.ts:254-261 | the lock file is removed exactly when it carries the given nonce |
| SessionStore.SharedSessionStore.RemoveStaleLock | components/mcp-credential-broker/src/sharedSession.ts:263-270 | the lock file is removed exactly when it is older than the stale age |
| SessionStore.SharedSessionStore.GetOrCreate | components/mcp-credential-broker/src/sharedSession.ts:72-109 | whatever other processes do to lock and credential between its looks, a call that returns has slept at most maxWait/poll times and one that times out once more; it asks for a login only under the lock and with nothing usable cached; a credential it returns without one expires more than the skew after the clock's reading; alone, it outlasts a crashed holder when stale + 2 sleeps is within maxWait |
| SessionStore.SharedSessionStore.InvalidateToken | components/mcp-credential-broker/src/sharedSession.ts:111-136 | the same bounds for `invalidate`, against whatever other processes do, which deletes the credential it finds under the lock exactly when its token is the rejected one |
| SessionStore.LoginWithDefaults | components/mcp-credential-broker/src/sharedSession.ts:45-48 | with the shipped defaults a login call, alone, never times out behind a crashed holder and sleeps at most 4400 times, while each sleep is at most 29.85 s too long |
| ScopeCover.ScopesCover | components/mcp-gateway/src/services/athenz.ts:422-430 | the splicing loop computes the greedy cover |
| ScopeCover.CoverAssigns | components/mcp-gateway/src/services/athenz.ts:422-434 | a cover is an injective assignment of equivalent granted scopes, and a bijection when the lengths agree |
| ScopeCover.CoverIffKeysContained | components/mcp-gateway/src/services/athenz.ts:422-438 | when equivalence is equality of keys, the cover exists exactly when enough of each key is granted |
| ScopeCover.GreedyCompleteByKeys | components/mcp-gateway/src/services/athenz.ts:422-438 | with keys the greedy answer is yes exactly when some assignment exists |
| ScopeCover.QualifiedCoverIsContainment | components/mcp-gateway/src/services/athenz.ts:422-444 | for fully qualified names covering is containment of multisets and exact match is their equality |
| ScopeCover.UnmixedGreedyIsComplete | components/mcp-gateway/src/services/athenz.ts:422-444 | the greedy answer is right when names are all qualified or one side is all role-only |
| ScopeGreedy.CoverIffEnoughUnshadowed | components/mcp-gateway/src/services/athenz.ts:422-438 | on lists of distinct names the greedy answer is yes exactly when each requested name not granted in full has a role of its own granted and no role is spent on a name granted in full while a later name needs it |
| ScopeGreedy.AssignableIffEnough | components/mcp-gateway/src/services/athenz.ts:422-438 | an assignment exists exactly when each requested name not granted in full has a role of its own granted |
| ScopeGreedy.GreedyIsRightIffUnshadowed | components/mcp-gateway/src/services/athenz.ts:422-438 | for qualified requests, in any order, the greedy answer is yes exactly when an assignment exists and no role is spent in that way |
| ScopeMixed.CoverIffNothingLost | components/mcp-gateway/src/services/athenz.ts:422-438 | on sorted lists of single-marker names, qualified and role-only alike, the greedy answer is yes exactly when an assignment exists, no role is spent on a name granted in full while a later name needs it, and no role-only name takes what a later name needs |
| ScopeMixed.NormalizedGreedyIsRightIff | components/mcp-gateway/src/services/athenz.ts:324-326 | the same of whatever lists of such names, once they are normalized, as they are wherever the matching is called |
| ScopeMixed.QualifiedRobNobody | components/mcp-gateway/src/services/athenz.ts:422-438 | without a role-only name in the request only the first of the two failures can occur |
| ScopeMixed.RoleOnlyRequestCanFail | components/mcp-gateway/src/services/athenz.ts:364-366 | a token with two qualified scopes is refused for a stated scope that names one role and one of them, although an assignment exists |
| ScopeGreedy.MixedGreedyCanFail | components/mcp-gateway/src/services/athenz.ts:422-444 | two normalized lists of two names on which the request is refused although an assignment exists |
| SortedStrings.SameNormalFormIffSameSet | components/mcp-gateway/src/services/athenz.ts:324-326 | two scope lists normalize alike exactly when they name the same scopes |
| TokenManager.AthenzAccessTokenManager.FindAccessToken | components/mcp-gateway/src/services/athenz.ts:196-212 | the loop returns the first live entry that answers and deletes the expired ones before it |
| TokenManager.AthenzAccessTokenManager.FindIdJag | components/mcp-gateway/src/services/athenz.ts:214-230 | the loop deletes all expired ID-JAGs and returns the first of those with fewest scopes that cover the request |
| TokenManager.AthenzAccessTokenManager.GetAccessToken | components/mcp-gateway/src/services/athenz.ts:99-120 | the stretch before the first await does to the caches and the in-flight table what the transition function says |
| TokenManager.AthenzAccessTokenManager.OnIdJag | components/mcp-gateway/src/services/athenz.ts:266-313 | the ID-JAG reply is checked, cached, and the issuance moved on or ended as the transition function says, of which the laws of `TokenManagerLife` say what it means |
| TokenManager.AthenzAccessTokenManager.OnToken | components/mcp-gateway/src/services/athenz.ts:237-264 | the token reply is checked, cached even if it falls short, and the issuance ended as the transition function says, of which the laws of `TokenManagerLife` say what it means |
| TokenManager.AthenzAccessTokenManager.OnSettled | components/mcp-gateway/src/services/athenz.ts:115-119 | the starter's clean-up removes its own request from the in-flight table |
| TokenManagerLaws.GrantIsSound | components/mcp-gateway/src/services/athenz.ts:348-382 | an accepted token has more than the skew to live, does not outlive its session, and has normalized scopes and audiences; `TokenManagerLife.GrantIff` says when a token is accepted and how long it lives |
| TokenManagerLife.GrantIff | components/mcp-gateway/src/services/athenz.ts:348-382 | a reply is accepted exactly when it has a token, claims that decode, agreeing scopes, an audience, an expiry claim and a positive lifetime if any, and every one of its bounds is more than the skew away; the accepted expiry is one of those bounds - the claim, the arrival plus the lifetime, the end of the session - and exceeds none |
| TokenManagerLife.TokenReplyAnswersIff | components/mcp-gateway/src/services/athenz.ts:237-264 | a token reply ends its issuance with a token exactly when it is accepted with the audience and scopes asked for, and with insufficient scopes exactly when only those differ |
| TokenManagerLife.IdJagReplyGoesOnIff | components/mcp-gateway/src/services/athenz.ts:266-313 | an ID-JAG reply lets its issuance go on exactly when it is accepted for the token server and covers the request, and ends it with insufficient scopes exactly when only those do not cover it |
| TokenManagerLife.CachedTokensWereBrought | components/mcp-gateway/src/services/athenz.ts:251-259 | every cached token was brought by an earlier reply of the run, for that reply's scopes and audiences and with an expiry bounded by its claim and lifetime |
| TokenManagerLife.HitCameFromALivingReply | components/mcp-gateway/src/services/athenz.ts:196-212 | in every run, a call answered from the cache gets the token of an earlier reply whose claim, and whose lifetime counted from its arrival if it gave one, reach beyond the skew at the time of the call |
| TokenManagerLife.ReusedIdJagCameFromALivingReply | components/mcp-gateway/src/services/athenz.ts:214-236 | the same of an ID-JAG that an issuance reuses |
| TokenManagerLife.OutcomeCameFromItsReply | components/mcp-gateway/src/services/athenz.ts:237-264 | the token an issuance ends with is that of its own reply, which had more than the skew to live when it arrived |
| TokenManagerLife.LivingTokenIsReused | components/mcp-gateway/src/services/athenz.ts:103-104 | a call is answered from the cache whenever a living entry has its audience and scopes |
| TokenManagerLife.LivingIdJagIsReused | components/mcp-gateway/src/services/athenz.ts:234-236 | an issuance asks for no new ID-JAG whenever a living one covers its request |
| TokenManagerLife.StartsByTheIdentityToken | components/mcp-gateway/src/services/athenz.ts:266-269 | without such an ID-JAG the call goes on exactly when the identity token has more than the skew to live |
| TokenManagerLaws.FindTokenIsRight | components/mcp-gateway/src/services/athenz.ts:196-212 | a lookup finds a live answer if there is one and loses no live entry |
| TokenManagerLaws.BestIdJagIsShortest | components/mcp-gateway/src/services/athenz.ts:214-230 | a reused ID-JAG covers the request and no usable one has fewer scopes |
| TokenManagerLaws.RunKeepsInv | components/mcp-gateway/src/services/athenz.ts:99-264 | sound caches, single flight and right answers hold in every interleaving |
| TokenManagerLaws.AtMostOneIssuanceInFlight | components/mcp-gateway/src/services/athenz.ts:106-119 | at most one unfinished issuance serves a session, audience and set of scopes |
| TokenManagerLaws.CachedEntriesDieWithTheSession | components/mcp-gateway/src/services/athenz.ts:251-259 | no cached token or ID-JAG outlives its session, in every run |
| TokenManagerLaws.SameScopesShareAKey | components/mcp-gateway/src/services/athenz.ts:99-108 | requests share a key exactly when they name the same scopes, in whatever order or number |
| TokenManagerLaws.CacheHitIsExact | components/mcp-gateway/src/services/athenz.ts:103-104 | a cache hit has exactly the audience and scopes asked for and more than the skew to live |
| TokenManagerLaws.AudienceIsARequestedDomain | components/mcp-gateway/src/services/athenz.ts:328-346 | an audience is selected exactly when every scope is qualified and the audience is one of their domains |
| TokenManagerLaws.ScopeDomainIff | components/mcp-gateway/src/services/athenz.ts:338-346 | a scope names a domain exactly when its first marker has text on both sides, and then the domain is the text before it |
| TokenManagerLaws.WaitsForItsOwnRequest | components/mcp-gateway/src/services/athenz.ts:106-113 | a call that waits, waits for an issuance of exactly its own request |
| TokenManagerLaws.WaitersGetWhatTheyAskedFor | components/mcp-gateway/src/services/athenz.ts:99-264 | whatever happens in between, a waiter that gets a token gets one for exactly the audience and scopes it asked for |
| OAuthServer.Gateway.Register | components/mcp-gateway/src/routes/oauth.ts:43-65 | the handler registers a client exactly when it names only allowed redirect URIs, as the transition says |
| OAuthServer.Gateway.Authorize | components/mcp-gateway/src/routes/oauth.ts:67-107 | the handler opens a transaction, or refuses, as the transition says |
| OAuthServer.Gateway.Callback | components/mcp-gateway/src/routes/oauth.ts:109-132 | the handler consumes the state first and then refuses or goes upstream, as the transition says |
| OAuthServer.Gateway.Exchanged | components/mcp-gateway/src/routes/oauth.ts:133-153 | the continuation makes a code that carries the transaction's client, redirect URI and challenge, as the transition says |
| OAuthServer.Gateway.Token | components/mcp-gateway/src/routes/oauth.ts:155-192 | the handler consumes the code first and then refuses or makes a session, as the transition says |
| OAuthServer.Gateway.Revoke | components/mcp-gateway/src/routes/oauth.ts:194-198 | the handler deletes the session of a token |
| OAuthServer.Gateway.CreateLogoutTicket | components/mcp-gateway/src/utils/oauthStore.ts:90-102 | the purging loop leaves exactly the live tickets, and the new one is added |
| OAuthServer.Gateway.LogoutTicket | components/mcp-gateway/src/routes/oauth.ts:200-215 | the handler consumes the session and makes a ticket, or refuses, as the transition says |
| OAuthServer.Gateway.Logout | components/mcp-gateway/src/routes/oauth.ts:217-232 | the handler consumes the ticket and redirects, or refuses, as the transition says |
| OAuthFlow.SessionStore.Create | components/mcp-gateway/src/utils/sessionStore.ts:14-22 | a session is stored under its token's digest unless it or its identity has expired |
| OAuthFlow.SessionStore.Lookup | components/mcp-gateway/src/utils/sessionStore.ts:24-35 | a live session is returned and an expired one deleted |
| OAuthFlow.SessionStore.Consume | components/mcp-gateway/src/utils/sessionStore.ts:41-47 | the session is deleted and returned if it was live |
| OAuthFlow.SessionStore.ListActive | components/mcp-gateway/src/utils/sessionStore.ts:49-62 | deleting while iterating leaves exactly the live sessions and returns each of them once |
| OAuthLaws.RunKeepsInv | components/mcp-gateway/src/routes/oauth.ts:43-232 | provenance, freshness and single use hold after every run of the handlers |
| OAuthLaws.SessionsHaveProvenance | components/mcp-gateway/src/routes/oauth.ts:67-192 | every stored session goes back to a token request, a code, a callback, an authorization and a registration, in that order and each in time, whose client, redirect URI and challenge agree with the request's client, redirect URI and verifier |
| OAuthLaws.ProvenanceIsUnique | components/mcp-gateway/src/routes/oauth.ts:67-192 | that chain of requests is the only one for the session's token |
| OAuthLaws.PresentedTwiceIsRefused | components/mcp-gateway/src/utils/oauthStore.ts:67-109 | a state, code, session token or logout ticket that was presented once in its role, whatever came of it, is refused ever after |
| OAuthLaws.RedeemedCodeMakesALiveSession | components/mcp-gateway/src/routes/oauth.ts:155-183 | with the three readings of the clock at instants of their own, the session store's error is met in a run exactly when the code is redeemed and, between the readings, the identity expires or a whole session lifetime passes; never at one reading |
| OAuthWorks.RegistersIff | components/mcp-gateway/src/routes/oauth.ts:43-65 | a client is registered exactly when it names redirect URIs and each parses, has no fragment or login, and is HTTPS or HTTP on the browser's own machine |
| OAuthWorks.RedirectsAreSecure | components/mcp-gateway/src/utils/oauthStore.ts:52-65 | in every run a code or an error is sent only to such an address that a client registered before |
| OAuthWorks.AuthorizesIff | components/mcp-gateway/src/routes/oauth.ts:67-107 | in every run a browser is sent upstream exactly for a code request with state and S256 challenge whose client was registered before with that redirect URI |
| OAuthWorks.StateWorks | components/mcp-gateway/src/routes/oauth.ts:109-132 | a state that nobody presented leads upstream, or back with the provider's error, exactly until its transaction runs out |
| OAuthWorks.CodeWorks | components/mcp-gateway/src/routes/oauth.ts:155-192 | a code that nobody presented buys a session for its identity exactly by a matching request in time |
| OAuthWorks.SessionWorks | components/mcp-gateway/src/utils/sessionStore.ts:24-47 | a session token that nobody revoked gives its session exactly until that runs out |
| OAuthWorks.TicketWorks | components/mcp-gateway/src/routes/oauth.ts:217-232 | a logout ticket that nobody presented signs out exactly until it runs out |
| OAuthWorks.HonestFlowGetsASession | components/mcp-gateway/src/routes/oauth.ts:43-192 | whatever the other requests of a run are, a client that follows the flow in time and whose state, exchange and code nobody else presents gets a session for its own identity |
| OAuthWorks.SignOutCarriesItsOwnIdToken | components/mcp-gateway/src/routes/oauth.ts:200-232 | who is sent to sign out takes along the ID token of the session whose token bought the ticket, which the exchange of that session's own flow brought |
| UsageLedger.UsageStore.Record | components/genai_proxy/src/usage.ts:59-98 | recording finds or makes the entry and the model and adds the request to both, in place |
| UsageLedger.UsageStore.CurrentDailyModels | components/genai_proxy/src/usage.ts:145-166 | the nested loops list each model of the day once, in order, with its total over all entries |
| UsageLaws.DailyReportIsTheLog | components/genai_proxy/src/usage.ts:59-166 | after any sequence of records the daily report is the plain log grouped by model for that project and day, with no model missing |
| UsageLaws.ReplayIsSound | components/genai_proxy/src/usage.ts:59-98 | entries have unique keys, and each one's counters are the sums over its models, which have unique names |
| UsageLaws.EntryIsTheLog | components/genai_proxy/src/usage.ts:59-98 | an entry's four counters, in total and per model, are the sums over the log's lines with its key |
| UsageLaws.ModelIsTheNameGiven | components/genai_proxy/src/usage.ts:82-82 | a request counts for the model it names, without the blanks around the name, and for the default model exactly when it names none or only blanks |
| UsageLaws.DayBeginsAtThreeInTheAfternoonUtc | components/genai_proxy/src/usage.ts:290-292 | the day of an instant is the 24 hours from 15:00 UTC that hold it, and it changes exactly then |
| UsageLaws.CallersDiffer | components/genai_proxy/src/usage.ts:64-64 | without NULs in subject and client id, two requests share a key exactly when day, subject, client and scope agree |
| UsageLaws.KeyIdentifiesCallerIff | components/genai_proxy/src/usage.ts:64-64 | among all lines a key names one caller exactly when that caller's subject, client id and scope hold no NUL |
| UsageLaws.ReceivableKeyIdentifiesCallerIff | components/genai_proxy/src/auth.ts:77-98 | among the lines that the server can receive for a project a key names one caller exactly when its subject has no NUL after the first character of the user and its client id none before its end |
| UsageLaws.NulMergesCallers | components/genai_proxy/src/usage.ts:64-64 | for any receivable line with a NUL in its subject there is another receivable caller whose requests fall into the same entry |
| UsageBudget.EstimatedUsageCost | components/genai_proxy/src/billing.ts:30-32 | the reduction adds up the costs of the report |
| UsageBudget.SpendIsTheLog | components/genai_proxy/src/billing.ts:7-32 | the cost of the daily report is exactly the sum of the costs of the day's requests |
| UsageBudget.SpendIsTheLogAfterARestart | components/genai_proxy/src/server.ts:123-139 | the same after the file was written, read back and recorded to: the report costs what the requests before and after cost |
| UsageBudget.RetryAfterIsTheNextDay | components/genai_proxy/src/server.ts:278-282 | the wait is between 1 and 86400 seconds, reaches the next day in Japan, and one second less does not |
| UsageBudget.RetryAfterFindsAFreshBudget | components/genai_proxy/src/server.ts:123-139 | after that wait, with nothing recorded meanwhile, the daily spend is zero, in any store without entries dated in the future |
| UsageBudget.RetryAfterRecordingFindsAFreshBudget | components/genai_proxy/src/server.ts:123-139 | the same in every store made by recording at times up to now |
| UsageBudget.CheckDailyLimit | components/genai_proxy/src/server.ts:123-139 | a metered request is refused exactly when its service code has a limit and the daily spend has reached it |
| UsageBudget.LimitIsOnTheLog | components/genai_proxy/src/server.ts:123-139 | whenever the report is the log grouped by model, after recording or after a restart, the check decides by the sum over the day's requests |
| UsageDollars.LimitIsReachedInDollarsIff | components/genai_proxy/src/billing.ts:8-32 | counted in dollars by the price list, a report has reached its limit exactly when it has in ten-millionths of a dollar |
| UsageBudget.OverrunIsBounded | components/genai_proxy/src/server.ts:123-197 | in every interleaving of arrivals and completions a day costs at most one unit less than the limit and what the requests allowed at once can cost |
| UsageBudget.MostIsReached | components/genai_proxy/src/server.ts:123-197 | for every limit, number of requests and cost there is an interleaving whose day costs exactly that |
| UsageBudget.CautionNeverOverruns | components/genai_proxy/src/server.ts:123-197 | when every admitted request, at its arrival, leaves room for itself and all in flight, no day passes the limit |
| UsageBudget.NoRoomCanOverrun | components/genai_proxy/src/server.ts:123-197 | from any state in which a request is admitted without such room an interleaving passes the limit on that day |
| UsageSnapshot.LoadSnapshot | components/genai_proxy/src/usage.ts:186-193 | the nested loops fill the store from a parsed file |
| UsageSnapshotLaws.SnapshotRoundTrip | components/genai_proxy/src/usage.ts:187-322 | the file of a store made by recording parses exactly when every name is non-empty and every year has four digits, and then the same entries come back |
| UsageSnapshotLaws.ReplayIsMade | components/genai_proxy/src/usage.ts:59-98 | every store made by recording meets the round trip's requirement, and lines with non-empty names and four-digit years make a store that can be read back |
| UsageSnapshotAccepts.SnapshotAcceptedIff | components/genai_proxy/src/usage.ts:224-288 | a file is accepted exactly when its version is 1 to 4, its project names differ and every entry is complete: texts that are not empty, four numbers, a date unless the version is 1, from version 3 a timestamp of that day, and in version 4 complete models with distinct names |
| UsageSnapshotAccepts.SnapshotIsReadOff | components/genai_proxy/src/usage.ts:224-301 | every field of an accepted file is read as it stands, entry by entry; before version 3 the file's time stands in for the entry's if it falls on its day, and the day's first instant otherwise |
| UsageSnapshotAccepts.FourDigitYearsAre | components/genai_proxy/src/usage.ts:303-306 | the days whose dates have ten characters are those of the calendar years 0 to 9999 |
| UsageSnapshotLaws.SortOrders | components/genai_proxy/src/usage.ts:206-221 | the file lists a project's entries newest first, then by caller |
| UsageSnapshotAccepts.EntriesAreListedInOrder | components/genai_proxy/src/usage.ts:213-218 | in the file later days come first, then later uses, then the callers by subject, client id and scope |
| UsageSnapshotLaws.SortKeepsEntries | components/genai_proxy/src/usage.ts:206-221 | sorting for the file loses and repeats nothing |
| UsageSnapshotLaws.MigrationBalances | components/genai_proxy/src/usage.ts:246-272 | an accepted entry of versions 1 to 3 keeps its counters and identity and gets one default model that carries all of them |
| UsageSnapshotLaws.MigrationKeepsCounters | components/genai_proxy/src/usage.ts:187-272 | loading a project of versions 1 to 3 with unique keys keeps every entry's counters and makes every entry balanced |
| UsageSnapshotLaws.VersionFourMayBeUnbalanced | components/genai_proxy/src/usage.ts:260-288 | version 4 accepts an entry whose models do not add up |
| UsageSnapshotLaws.VersionFourBalancedIff | components/genai_proxy/src/usage.ts:260-288 | an accepted entry of version 4 is balanced exactly when the counters in the file are the sums over the models in the file |
| UsageSnapshotLaws.LastEntryOfEachKeyWins | components/genai_proxy/src/usage.ts:186-193 | loading keeps, of each key, exactly the last entry, for lists of any length |
| UsageSnapshotLaws.LoadIsFaithfulIff | components/genai_proxy/src/usage.ts:186-193 | loading gives the listed entries back exactly when their keys are distinct |
| UsageSnapshotLaws.RestartIsInvisible | components/genai_proxy/src/usage.ts:53-222 | after writing, reading back and recording more, every daily report is that of the whole log before and after |
| UsageTail.ReadTail | components/genai_proxy/src/server.ts:175-179 | however the response was cut into chunks, exactly its last 128 KiB remain |
| UsageText.ExtractTokenUsage | components/genai_proxy/src/usage.ts:347-368 | the loop over the reversed lines returns the usage of the last line whose payload is a braced JSON object with a usage, and otherwise that of the three searches |
| UsageFields.NestedResponseDecides | components/genai_proxy/src/usage.ts:371-375 | the usage of a nested response decides if it has one |
| UsageFields.OpenAiCountersAreRead | components/genai_proxy/src/usage.ts:376-400 | without one, in a usage object prompt_tokens, or input_tokens if that is missing or null, is the prompt, completion_tokens or output_tokens the completion and total_tokens the total, with zeros and the sum for what is no number, and no usage exactly when all three are none |
| UsageFields.OllamaCountersAreRead | components/genai_proxy/src/usage.ts:385-400 | without a usage object either, prompt_eval_count is the prompt, eval_count the completion and their sum the total, and there is no usage exactly when both are no numbers |
| UsageFields.SearchTellsTheFieldsApart | components/genai_proxy/src/usage.ts:364-368 | the three searches find the fields of their own names and do not take one for another |
| UsageText.LastInteger | components/genai_proxy/src/usage.ts:406-410 | the loop over the matches from left to right finds the number of the last position at which the expression matches |
| UsageSearch.SearchFindsTheLast | components/genai_proxy/src/usage.ts:364-410 | the search finds the number of the last place at which one of the names stands in quotes before a colon and a number, blanks between them allowed, and none exactly when there is no such place |
| UsageSearch.PaddedLineIsItsPayload | components/genai_proxy/src/usage.ts:350-350 | a line is read without the blanks around it and, with or without the prefix of an event stream, without the blanks behind that |
| UsageText.MatchesDoNotOverlap | components/genai_proxy/src/usage.ts:364-366 | no match of a field expression begins inside another, so going on behind a match misses none |
| UsageTail.TailMetersTheResponse | components/genai_proxy/src/server.ts:176-196 | when the last metered line lies wholly within the tail, the tail gives the same usage as the whole response, for any chunking |
| UsageTail.MeteredLineExists | components/genai_proxy/src/usage.ts:347-362 | whenever some line of a response has a usage, the last such line can be named, so the condition can be checked |
| UsageTail.SearchAgreesIff | components/genai_proxy/src/usage.ts:364-368 | the search of a tail gives what the search of the whole gives exactly when each number that was cut off equals its default and not all three were |
| UsageTail.TailDecidesIff | components/genai_proxy/src/server.ts:175-181 | for every tail, and every JSON reader that tells two lines apart: all responses that leave this tail are metered like it exactly when it is shorter than the bound or a line that begins in it has a usage |
| UsageTail.LaterLineDecidesIff | components/genai_proxy/src/server.ts:271-276 | whatever was cut off in front, the tail gives the usage of the whole exactly when a line that begins in it has one |
| UsageTail.TailAgreesIff | components/genai_proxy/src/usage.ts:347-368 | for one known response and one cut, the cases in which the two agree: by a line that begins in the tail, by the remnant of the cut line, by the earlier lines, or by the search |
| UsageTailGaps.LongAnswerIsNotMetered | components/genai_proxy/src/server.ts:271-276 | a response of one line with its usage first and an answer longer than the tail is metered as a whole and not from its tail, for all numbers and every JSON reader that reads that line |
| UsageTailGaps.CutLaysBareAnObject | components/genai_proxy/src/server.ts:271-276 | the comment of an event stream that ends in an object as long as the tail gives one number as a whole and any other from its tail |
| UsageTailGaps.ReadersTellApart | components/genai_proxy/src/usage.ts:354-362 | every JSON reader that reads two short answers tells two lines apart |
| GenAi.SplitUndoesScope | components/athenzd/internal/genai/genai.go:91-103 | a scope splits into a domain and a role exactly when it is their join, with a marker-free domain and a valid role |
| GenAi.TargetIsNamedByExchanger | components/athenzd/internal/genai/genai.go:107-114 | a target is found exactly for the exchanger role named after it in the same domain |
| GenAi.TargetIsAScope | components/athenzd/internal/genai/genai.go:107-114 | the target is itself a well-formed scope of that domain |
| GenAi.MatchUndoesTemplate | components/athenzd/internal/genai/genai.go:61-70 | every project's domain matches and gives the project back |
| GenAi.TemplateUndoesMatch | components/athenzd/internal/genai/genai.go:61-70 | a matching domain is the template filled in exactly when it is at least as long as prefix and suffix together |
| GenAi.MatchIsInjective | components/athenzd/internal/genai/genai.go:61-70 | two such domains of one project are equal |
| GenAi.OverlapMatchesToo | components/athenzd/internal/genai/genai.go:61-70 | two domains match one project when prefix and suffix overlap in one of them |
| GenAi.TemplatesParse | components/athenzd/internal/genai/genai.go:35-58 | either placeholder between two valid fragments parses to those fragments |
| GenAi.ParsedTemplatesHaveOnePlaceholder | components/athenzd/internal/genai/genai.go:35-58 | a parsed template is its two valid fragments around one placeholder |
| GenAiNames.FragmentIff | components/athenzd/internal/genai/genai.go:48-58 | what may stand around the placeholder: nothing, or name characters of which the first that is no dot is a word character |
| GenAiNames.MemberNameIsDotted | components/athenzd/internal/zms/client.go:30-30 | the names of users and workloads are two or more simple names with dots between them |
| GenAi.WildcardIsAPrefix | components/athenzd/internal/zms/genai.go:202-207 | a wildcard member matches exactly when it is a prefix of the principal followed by one star |
| GenAi.ExchangerRolePassesIff | components/athenzd/internal/genai/genai.go:74-79 | a role whose trimmed name is an exchanger role is accepted as a target exactly when it ends in a blank |
| GenAi.SpacedExchangerRolePasses | components/athenzd/internal/genai/genai.go:74-79 | such a role |
| Discovery.GatherProjects | components/athenzd/internal/zms/genai.go:68-91 | the first loop keeps exactly the matched domains the user has a role in, with exactly those roles; `Discovery.UserHoldsIff` says which they are |
| Discovery.ExchangerRoles | components/athenzd/internal/zms/genai.go:104-166 | the workload's memberships are the expanded ones and those of matching wildcard members, or the listing failed |
| Discovery.HoldingIsMembership | components/athenzd/internal/zms/genai.go:168-185 | the workload can exchange for a role exactly when it is a member of that role's exchanger in the domain |
| Discovery.UserHoldsIff | components/athenzd/internal/zms/genai.go:69-80 | the user holds a role of a domain exactly when domain and role are well formed and a membership names both, or names the joined scope with no domain or that one |
| Discovery.WorkloadHoldsIff | components/athenzd/internal/zms/genai.go:168-185 | the workload can exchange for a role exactly when a membership names its exchanger role in that domain, short or joined |
| Discovery.WorkloadRolesAre | components/athenzd/internal/zms/genai.go:104-166 | the roles of the workload are those of the expanded listing and those of the members whose name is a prefix of its own followed by a star, in the domain unless they name another |
| Discovery.CollectScopes | components/athenzd/internal/zms/genai.go:168-185 | the loop over memberships collects exactly the targets whose role is among the user's |
| Discovery.DiscoverDomain | components/athenzd/internal/zms/genai.go:102-196 | a domain gets an entry exactly when its baseline exchanger is held, with exactly the exchangeable user roles, strictly sorted |
| Discovery.DiscoverIn | components/athenzd/internal/zms/genai.go:68-197 | the result is the exact intersection in strictly increasing domain order; a failure is that of the first unreadable candidate |
| Discovery.DiscoverGenAiScopes | components/athenzd/internal/zms/genai.go:18-197 | every check of inputs and replies in its order, then the exact intersection, failing exactly when a candidate's listing is unreadable |
| HubAccounts.CompactAccounts | components/idthw_hub/features/auth/lib/auth.ts:107-118 | the seen-set loop keeps the first usable account of each subject, up to the size of the cache |
| HubAccounts.Jwt | components/idthw_hub/features/auth/lib/auth.ts:227-298 | the callback, with its rebinding of accounts and selection, is the step function, of which `HubAccountsRefresh` and `HubAccountsSignIn` say what it makes of profiles, cached accounts and the provider's answers |
| HubAccountsRefresh.ReadOutcome | components/idthw_hub/features/auth/lib/auth.ts:162-297 | a read shows the active account with its own tokens if they are not due, with those of the provider's answer - and its own refresh token and time where the answer has none - if they are, and ends the session if the provider has no answer; the cached copy agrees and the other usable accounts are unchanged |
| HubAccountsRefresh.SwitchOutcomeIs | components/idthw_hub/features/auth/lib/auth.ts:162-297 | a switch does the same for the wanted account, and for the active one without the wanted one if the provider has no answer for that |
| HubAccountsRefresh.SwitchToStranger | components/idthw_hub/features/auth/lib/auth.ts:256-263 | a switch to a subject that is not cached is a read |
| HubAccountsRefresh.ReadGoesOnIff | components/idthw_hub/features/auth/lib/auth.ts:69-79 | in seconds: when a read goes on, and which of the other accounts stay |
| HubAccountsSignIn.SignInOutcome | components/idthw_hub/features/auth/lib/auth.ts:231-297 | a sign-in fails exactly when the profile lacks user name, subject or expiry or its account does not serve; otherwise it makes an account of the profile's fields, with the session's names where it has none, the active one, beside usable accounts of the earlier session |
| HubAccountsSignIn.AccountsAreThoseBrought | components/idthw_hub/features/auth/lib/auth.ts:81-105 | the accounts of any token are its whole cached ones, and its own if no such one has its subject |
| HubAccountsSignIn.TokenWithoutCacheIsTakenUp | components/idthw_hub/features/auth/lib/auth.ts:81-105 | a token without cached accounts keeps its own account, active if it serves |
| HubAccountsLaws.StepMakesInv | components/idthw_hub/features/auth/lib/auth.ts:227-298 | whatever comes in, every token that goes out has distinct subjects, at most as many as the cache holds, and shows the fields of one of them |
| HubAccountsLaws.RunKeepsInv | components/idthw_hub/features/auth/lib/auth.ts:227-298 | so does every token of every run of sign-ins, switches and reads |
| HubAccountsLaws.ReadEndsIff | components/idthw_hub/features/auth/lib/auth.ts:260-297 | a read keeps the session and its active account exactly when that account is usable and, if due, can be refreshed |
| HubAccountsLaws.SwitchOutcome | components/idthw_hub/features/auth/lib/auth.ts:256-297 | a switch activates the wanted account if it serves, else keeps the current one if that serves, else ends the session |
| HubAccountsLaws.NothingElseIsLost | components/idthw_hub/features/auth/lib/auth.ts:260-297 | a read or switch loses no usable account except the one asked for, and that only if it was due and its refresh failed |
| HubAccountsLaws.SignInShowsTheProfile | components/idthw_hub/features/auth/lib/auth.ts:231-255 | a token made by a sign-in shows the profile's subject and names, and its tokens unless they were due at once |
| HubAccountsLaws.SignInKeepsIff | components/idthw_hub/features/auth/lib/auth.ts:231-260 | a sign-in keeps a usable account exactly when fewer than size - 1 usable others stand before it |
| HubAccountsLaws.SmallestCacheForgets | components/idthw_hub/features/auth/lib/auth.ts:107-118 | with a cache of one, signing in as somebody else loses the active account |
| HubAccountsLaws.ActiveStays | components/idthw_hub/features/auth/lib/auth.ts:256-297 | over any stretch of reads, and of switches to it or to accounts that do not serve, the active account stays active as long as it serves |
| HubAccountsLaws.AccountStays | components/idthw_hub/features/auth/lib/auth.ts:256-297 | over any stretch of reads and switches an account stays cached, through every refresh, as long as it is usable and no switch to it fails |
| OpenApiIndex.NormalFormIsCanonical | components/ai_client_gateway/src/utils/openapi.ts:66-77 | scopes normalize alike exactly when they list the same words, and normalizing twice changes nothing |
| OpenApiIndex.MatchingIsFilling | components/ai_client_gateway/src/utils/openapi.ts:83-96 | a path matches exactly when it is the template with its parameters filled in, perhaps with a slash after it |
| OpenApiNames.MatchesIffSpelled | components/ai_client_gateway/src/utils/openapi.ts:83-96 | a path matches a template exactly when it spells its pieces in order, any text without a slash for a braced name and the piece itself otherwise, perhaps with a slash after them |
| OpenApiIndex.RoutesAreScopedOperations | components/ai_client_gateway/src/utils/openapi.ts:111-149 | the routes are exactly the operations with a known method and a scope |
| OpenApiNames.RoutesAre | components/ai_client_gateway/src/utils/openapi.ts:111-149 | field by field: a route has its operation's method in lower case, path, own id or else the generated one, and the sorted words of its scope |
| OpenApiNames.IdIsTheRuns | components/ai_client_gateway/src/utils/openapi.ts:58-64 | a generated id is the runs of letters and digits in method and path, in lower case, with one underscore between them |
| OpenApiNames.SameIdIffSameRuns | components/ai_client_gateway/src/utils/openapi.ts:58-64 | two operations get the same generated id exactly when those runs agree but for case |
| OpenApiIndex.ScopeIndex.RebuildScopeIndexes | components/ai_client_gateway/src/utils/openapi.ts:105-171 | the loops leave the sorted routes, the scopes by operation id and the common scope of the description, but the old fallback if it has no paths |
| OpenApiIndex.ScopeIndex.ResolveRequiredScope | components/ai_client_gateway/src/utils/openapi.ts:250-277 | the loop returns the scope of the first route of the table that serves the request |
| OpenApiIndex.FirstOfSortedIsBest | components/ai_client_gateway/src/utils/openapi.ts:151-277 | that route is a matching operation of maximal specificity, the earliest of equals, and there is none exactly when no scoped operation matches |
| OpenApiIndex.ResolvedIsTheMostSpecific | components/ai_client_gateway/src/utils/openapi.ts:105-277 | after any rebuild a request resolves to the normalized scope of a scoped operation with its method and a matching path of maximal specificity, and to nothing exactly when there is no such operation |
| OpenApiSpecificity.LiteralRaises | components/ai_client_gateway/src/utils/openapi.ts:98-103 | spelling out one parameter of a template raises its specificity by exactly one |
| OpenApiSpecificity.MatchIsMeasured | components/ai_client_gateway/src/utils/openapi.ts:98-103 | the specificity of a template that matches a path and the number of its parameters add up to the number of the path's non-empty pieces |
| OpenApiSpecificity.ResolvedHasFewestParameters | components/ai_client_gateway/src/utils/openapi.ts:105-277 | for every description a request resolves to the scope of an operation that answers it with the fewest parameters in its path |
| OpenApiSpecificity.SpelledOutPathWins | components/ai_client_gateway/src/utils/openapi.ts:105-277 | if a path without parameters answers a request, the request resolves to an operation whose path has none |
| OpenApiIndex.SortSorts | components/ai_client_gateway/src/utils/openapi.ts:151-153 | the sort orders by falling specificity and loses nothing |
| OpenApiIndex.IdMapIsLast | components/ai_client_gateway/src/utils/openapi.ts:117-135 | an operation id leads to the scope of the last operation that carries it |
| OpenApiIndex.ScopeIndex.Intersection | components/ai_client_gateway/src/utils/openapi.ts:158-169 | the loop over the table computes the common scope |
| OpenApiIndex.FallbackIsTheIntersection | components/ai_client_gateway/src/utils/openapi.ts:155-169 | the fallback lists, strictly sorted, exactly the words that every scoped operation needs |
| OpenApiIndex.FallbackIsOfTheLastWithPaths | components/ai_client_gateway/src/utils/openapi.ts:105-109 | after any sequence of descriptions the fallback is the common scope of the last one with paths, and it is the latest one's exactly when that has paths or there was none before |
| OpenApiIndex.StaleFallback | components/ai_client_gateway/src/utils/openapi.ts:105-109 | a scoped description followed by one without paths leaves the old scope in place |

## Left out

- ScopeCover.UnmixedGreedyIsComplete: a sufficient condition for lists of one kind; the exact condition is `ScopeMixed.NormalizedGreedyIsRightIff`.
- ScopeMixed.NormalizedGreedyIsRightIff: names with more than one `:role.` are not covered.
- MigrationInput.ParseTable: starts from clauses that the regular expressions have already recognised.
- TokenManagerLaws.WaitersGetWhatTheyAskedFor: the token had more than the skew to live when it was granted; how long the waiter took to be resumed is not modelled.
- TokenManager.AthenzAccessTokenManager.OnIdJag: does not tell a rejected identity token from any other error of the endpoint; either ends the issuance.
- OAuthWorks.HonestFlowGetsASession: for runs that the gateway survives, as its stores are in memory.
- LockProtocol.NoDuplicateLogin: one issuer at a time, as every issuer has its own pair of files, and one clock, although the source measures deadlines by another call than expiry.
- SessionStore.SharedSessionStore.GetOrCreate: the others may do anything between its looks at the disk, but leave lock and credential alone while it holds the lock, which is what `LockProtocol` proves of all of them together.
- UsageSnapshotLaws.SnapshotRoundTrip: dates are day numbers and timestamps are instants, so texts that spell one instant in two ways, and years past 9999 whose ten-character dates coincide, are not told apart.
- UsageText.ExtractTokenUsage: the JSON reader is a parameter, and numbers are exact where the source has 53 bits.
- UsageTail.ReadTail: a character is a byte; a multi-byte character cut at the front of the tail is not modelled.
- OpenApiIndex.ScopeIndex.ResolveRequiredScope: takes the path after the URL has been parsed.
- What a database server does with a statement is an assumption, stated in `MigrationRun.Effect`, `Reports` and `Realizes`: it reports what it was told, up to the normalizations that the planner itself applies, and may add non-unique indexes.
- Regular expressions other than those of the usage search, SQL and JSON syntax, YAML text and non-ASCII blanks and letters.
- HTTP, TLS, streaming, JSON-RPC routing and header copying; subprocesses, clusters and images.
- Cryptography: hashes, signatures, certificates and the decoding of tokens.
- Floating point: the source adds US dollars as binary fractions and rounds them for display.
- File permissions, symbolic links, flushing to disk, and the unlocked clean-up of malformed files by `clearAll`.
- The JWKS cache of `mcp-runtime-proxy`, the home-domain reconciliation of `athenzd`, its edits of configuration files, the broker's retry on 401, and the hub's template and permission forms: each would add a small idempotence, single-flight or round-trip law of a kind proved here for harder code.
- User interface, logging, dashboards and the demonstration servers.
