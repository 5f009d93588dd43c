# Village verification

A Dafny model of the parts of Village that carry real logic, with proofs of what
they promise. `dafny verify dfyconfig.toml` checks the whole project.

| files | what is modelled |
|---|---|
| `DigestModel`, `DigestBuild`, `DigestTheorems`, `DigestExactness` | building a pull request's prompt digest and restricting it to one reader |
| `Inline`, `RenderModel`, `RenderMethods`, `RenderTheorems`, `RenderReading`, `RenderAccounting`, `RenderPrivacy` | printing the digest as Markdown under a byte cap |
| `Grouping`, `GroupingTheorems`, `GroupingMethods` | turning candidate sessions whose owner links may loop into a paged forest |
| `ScopeLog`, `ScopeCache` | the bounded, expiring cache of disclosure tokens |
| `PublishLocks`, `AssociationLedger`, `PublishProtocol`, `PublishTheorems` | publish locks on one pinned connection, and the append-only association ledger they protect |
| `ObjectLifecycle`, `ObjectTheorems` | stored ciphertext objects under ambiguous commits |
| `OrgSync`, `OrgSyncProtocol` | a user's organizations as one snapshot |
| `JsonPointers`, `Schemas`, `DeclaredFields`, `DeclaredReport`, `CaseVariants` | keeping only the fields a contract declares |
| `AnnotationStore`, `AnnotationPush` | the deduplicated bulk upsert of annotations |
| `Versions`, `VersionObservers`, `IntegrityPass` | checker versions, and one pass of the integrity check |
| `HashPreimage` | length-delimited hash preimages |
| `Governance`, `BatchShare`, `VisibilityProtocol` | visibility and license across edits, republishes and batch shares |
| `Options`, `Sequences`, `StableSorting`, `Names`, `Text` | sequences, stable sorting, names in order, and Go's string helpers |

Where the source updates variables step by step the model has a method with the
same loops, proved against a specification function; the theorems are about that
function. Where goroutines or requests interleave, the model is a state machine
over atomic steps and the theorems range over every run. SQL is an atomic
operation on a map: a compare-and-swap affects one row or none, a transaction
commits whole or not at all, a LIMIT is respected.

## What the code does and its comments do not say

Six promises are false of the code as written. Each is kept as it is, refuted by
a concrete case, and replaced by the exact condition under which it holds.

- `restrict.go` names two exceptions to equalling a fresh build. There is a third
  (`DigestExactness.EqualInstantsCanReorder`): commits authored at one instant
  can change order. `DigestExactness.RestrictIsFreshExactly` gives both directions.
- `resolveCommit` says exactly one candidate must match, and returns the first
  match in map order (`DigestExactness.AmbiguousShaHasTwoAnswers`,
  `DigestExactness.ResolutionDetermined`).
- `grouped_lists.go` says a cycle containing the helper clears its owner. So does
  a chain that only leads into a cycle (`GroupingTheorems.LeadingIntoACycleClears`,
  `GroupingTheorems.OwnerKeptExactly`).
- A stored organization set is not always one snapshot: rows are keyed by the
  login as spelled and deleted by the folded login, so a rename in case leaves
  the old row (`OrgSync.CaseRenameLeavesTheOldRow`, `OrgSync.InstalledExactly`).
- `dedupeAnnotationRecords` keeps the last record of a hash "matching" the
  statement, whose conflict clause keeps the first content
  (`AnnotationStore.DuplicatesDiffer`, `AnnotationStore.BulkMatchesExactly`).
- An unreferenced object can belong to nobody: a republish reads the object it
  supersedes without a row lock and updates unconditionally, a rewrite swaps
  without the publish lock, and an ambiguous replacement reports only its
  candidate (`ObjectTheorems.RepublishCanStrand`). It happens if and only if a
  step forgets the object it displaces and nobody else answers for that object
  (`ObjectTheorems.NewOrphansExactly`, `ObjectTheorems.NoOrphansExactly`).

A page limit above 100 falls back to 20 also on the collective route, which
itself accepts up to 200 (`GroupingMethods.Page`).

## Assumptions

Digests and advisory-lock hashes do not collide; random tokens are new; the
clock a cache sees strictly increases between mints; the case-variant check and
the JSON decoder fold names alike. The contract module's validators, the letter
table of Unicode and that folding are parameters of the theorems, so they hold
for every choice of them.

## Model

| member | source | states |
|---|---|---|
| DigestBuild.ResolveCommit | backend/internal/digest/digest.go:253-264 | the answer is the SHA itself when the commit set holds it, otherwise some member it prefixes, and none only when no member does; which prefix is left open, as map order leaves it |
| DigestBuild.NormalizeCommitSet | backend/internal/digest/digest.go:267-277 | the result is the set of trimmed, lower-cased members that are 7 to 40 hexadecimal digits |
| DigestBuild.AcceptedAnchors | backend/internal/digest/digest.go:228-249 | the anchors are those of the matches, in order, whose SHA was resolved, under a resolution every step of which the code could have made |
| DigestBuild.CollectAnchors | backend/internal/digest/digest.go:92-104 | commits are listed in order of first mention, and each keeps the earliest-authored record of it |
| DigestBuild.NumberInPlace | backend/internal/digest/digest.go:179-185 | prompts are numbered 1, 2, ... in their sorted order, everything else is untouched, and the counter is the number of prompts |
| DigestBuild.Build | backend/internal/digest/digest.go:73-210 | for any input the result is the digest some resolution of its SHAs projects to, or a refusal exactly when the validator rejects that digest |
| DigestBuild.RenumberInPlace | backend/internal/digest/restrict.go:39-54 | the in-place rewrite relabels sessions and prompts consecutively and its four counters are the counts of what was kept |
| DigestBuild.Restrict | backend/internal/digest/restrict.go:28-72 | the result is the recounted digest of the kept items, or a refusal exactly when something was removed and the rest does not validate |
| DigestTheorems.WinnerOf | backend/internal/digest/digest.go:92-104 | the record a commit is attributed to is one of its own and no record of it is earlier |
| DigestTheorems.BuildIsConsistent | backend/internal/digest/digest.go:157-209 | every built digest states its own session, prompt, commit and skill counts and its labels and ordinals truly |
| DigestTheorems.RestrictConsistent | backend/internal/digest/restrict.go:28-72 | restricting a consistent digest gives a consistent one, also on the path that returns it unchanged |
| DigestTheorems.RestrictCompose | backend/internal/digest/restrict.go:28-72 | restricting for one reader and then for another is restricting once to what both may see |
| DigestTheorems.SkillsListed | backend/internal/digest/digest.go:187-191 | the skill list is sorted, without repeats, and names each invoked skill with its number of invocations |
| DigestExactness.RestrictIsFreshExactly | backend/internal/digest/restrict.go:10-72 | a restricted digest equals a fresh one over the kept transcripts, apart from harness and redaction level, if and only if no kept commit is attributed to a removed transcript and no two kept commits of one instant change order |
| DigestExactness.RestrictOfBuild | backend/internal/digest/restrict.go:10-72 | the same equivalence from raw inputs, when each kept SHA resolves in one way |
| DigestExactness.UnsharedCommitsSuffice | backend/internal/digest/restrict.go:15-21 | when no commit is recorded by both a kept and a removed transcript, both conditions hold |
| DigestExactness.RestrictAlwaysAgreesOffCommits | backend/internal/digest/restrict.go:15-26 | with no condition the session, prompt and skill items, the skill list and the session and prompt counts agree, no more commits are covered, and the shown commits are among the fresh digest's |
| DigestExactness.EqualInstantsCanReorder | backend/internal/digest/restrict.go:15-26 | three records for which no commit is lost and yet two commits of one instant change order: a third exception beside the two documented |
| DigestExactness.ResolutionDetermined | backend/internal/digest/digest.go:251-264 | a SHA has one possible answer if and only if it is too short, is a member itself, or prefixes at most one member |
| DigestExactness.AmbiguousShaHasTwoAnswers | backend/internal/digest/digest.go:251-264 | an abbreviation of two commits may be resolved to either, although the comment says exactly one must match |
| StableSorting.StableSortFilter | backend/internal/digest/digest.go:177 | a stable sort commutes with filtering |
| StableSorting.StableSortUnique | backend/internal/digest/digest.go:177 | any sorted result that keeps the order within each key is the stable sort, so any stable algorithm is modelled |
| Inline.Inlined | backend/internal/digest/render.go:386-409 | the loop writes the escape of every rune of the collapsed text |
| Inline.InlineReadsBack | backend/internal/digest/render.go:386-409 | undoing backslash escapes (GFM 0.29 section 6.1) and dropping empty comments gives back the whitespace-collapsed text |
| Inline.InlineIsInert | backend/internal/digest/render.go:380-409 | outside empty comments no special character stands unescaped, no @ or # is directly followed by a word character, and the text opens no list |
| Inline.InlineOneLine | backend/internal/digest/render.go:380-409 | the output is a single line |
| Inline.Clip | backend/internal/digest/render.go:429-436 | the collapsed text when it fits the limit, and otherwise its first limit - 1 characters without their trailing blanks, with the ellipsis |
| RenderMethods.Attached | backend/internal/digest/render.go:86-148 | the sessions' rows in digest order and the commits traced to each, or the first missing row |
| RenderModel.RowsForRefusal | backend/internal/digest/render.go:86-148 | the rows are refused exactly when a session's transcript has none, and the refusal names such a transcript |
| RenderMethods.UncoveredCommits | backend/internal/digest/render.go:319-331 | the list holds each commit the set names and nothing covers, once, and nothing else, in order of first mention |
| RenderMethods.LayTable | backend/internal/digest/render.go:150-189 | the laid rows are as many as the greedy rule with its reserve keeps, and their link definitions belong to exactly those rows |
| RenderMethods.Details | backend/internal/digest/render.go:199-284 | the block is the emitted prefix of the listed prompts and skills and a line counting the rest |
| RenderMethods.RenderPullRequest | backend/internal/digest/render.go:86-190 | the whole rendering, or the first refusal, as the specification composes it |
| RenderTheorems.RenderWithinCap | backend/internal/digest/render.go:86-190 | whenever a capped rendering succeeds it is at most MaxBytes bytes |
| RenderTheorems.RenderRefusesTableExactly | backend/internal/digest/render.go:150-175 | a valid pull request is refused for size if and only if its frame cannot hold one row or the line that counts them |
| RenderTheorems.TableRefusedExactly | backend/internal/digest/render.go:150-175 | the kept rows fail to fit exactly when the frame is too small, so the reserve always suffices otherwise |
| RenderTheorems.DetailsWithin | backend/internal/digest/render.go:239-284 | the details block is within its budget, and the inlined prompts are at most the tier's number and at most the total |
| RenderTheorems.BlocksCountPrompts | backend/internal/digest/render.go:199-237 | the listed blocks hold every prompt of the digest once |
| RenderTheorems.MoreRowMonotone | backend/internal/digest/render.go:291-295 | the line counting fewer transcripts is never longer, which is why a reserve for the most suffices |
| RenderTheorems.MoreLineMonotone | backend/internal/digest/render.go:287-289 | the line counting fewer prompts is never longer |
| RenderReading.TableReads | backend/internal/digest/render.go:150-189 | from the text of the table a reader who counts its rows and reads the number in its last line gets back the number of sessions, however many rows were kept |
| RenderReading.DetailsRead | backend/internal/digest/render.go:239-284 | the numbered lines of the details block are as many as the inlined prompts, the bracketed number is the prompts left out, and the summary's number is their sum |
| RenderAccounting.RenderAccounts | backend/internal/digest/render.go:86-284 | every rendering whose traced SHAs are hexadecimal, as the contract's validator demands, is its head, a table of the first rows, a details block of the first blocks and an ending; rows and counted rest make up the sessions, the inlined prompts are the first listed ones in order, and with the counted rest they make up all of them |
| RenderAccounting.UncappedRendersAll | backend/internal/digest/render.go:150-284 | the text rendered in the tier without a cap and without a limit holds every session's row and every listed prompt in order, and counts none instead |
| RenderTheorems.RowHasThreeCells | backend/internal/digest/render.go:150-189 | whatever title, author and commits a row holds, a Markdown reader sees exactly three cells |
| RenderPrivacy.RenderShowsOnlyTheView | backend/internal/digest/render.go:78-190 | two pull requests with one public view render identically in every tier |
| RenderPrivacy.RenderIgnoresUnlisted | backend/internal/digest/render.go:78-234 | when each prompt and skill belongs to a session of the digest, a rendering equals that of the pull request with every unlisted title, address, prompt and skill taken out |
| Grouping.IdentityTextInjective | backend/internal/handler/grouped_lists.go:196-198 | the joined identity names one account and one session |
| GroupingMethods.Accept | backend/internal/handler/grouped_lists.go:253-280 | rows are accepted exactly when each is valid, has an account, and no identity or id repeats |
| GroupingMethods.KeepOwner | backend/internal/handler/grouped_lists.go:282-309 | the visited walk ends and keeps or clears the owner as the specification says |
| GroupingMethods.GroupVillageRows | backend/internal/handler/grouped_lists.go:253-369 | the answer is the grouping of the accepted rows: every ordinary row, every helper in its one group, every attachment and both orders |
| GroupingTheorems.EveryRowReachedOnce | backend/internal/handler/grouped_lists.go:276-369 | however owner links loop, each row is reached from exactly one top item by exactly one chain of disclosures |
| GroupingTheorems.OnlyRowsReached | backend/internal/handler/grouped_lists.go:251-252 | nothing but a candidate is ever disclosed |
| GroupingTheorems.NoGroupNestsInItself | backend/internal/handler/grouped_lists.go:276-369 | no group occurs twice on the chain to a row, and no helper above one lies as deep as it |
| GroupingTheorems.GroupDeterminesOwner | backend/internal/handler/grouped_lists.go:236-249 | helpers of one group have one owner row and one status |
| GroupingTheorems.OwnerKeptExactly | backend/internal/handler/grouped_lists.go:282-309 | a helper keeps its owner if and only if it is not marked cyclic and its chain of owners among the candidates never repeats |
| GroupingTheorems.LeadingIntoACycleClears | backend/internal/handler/grouped_lists.go:282-309 | a helper outside every cycle loses its owner when its chain leads into one, which the comment does not say |
| GroupingTheorems.GroupingIsUnique | backend/internal/handler/grouped_lists.go:310-369 | one world has one grouping, whatever order maps are walked in |
| GroupingMethods.GroupingIgnoresOrder | backend/internal/handler/grouped_lists.go:310-369 | permuted rows give the same items, groups and counts |
| GroupingMethods.HelperTotal | backend/internal/handler/grouped_lists.go:73-85 | the helper total is the number of helpers, and with the ordinary total it is the number of rows |
| GroupingMethods.Page | backend/internal/handler/grouped_lists.go:166-174 | the page asked for or 1, and the limit asked for when it is within 1 to 100, or else 20 |
| GroupingMethods.Bounds | backend/internal/handler/grouped_lists.go:176-187 | on 64-bit integers the bounds are the page's slice of the list, clipped to it, if and only if the end of that page fits, and the second bound is negative otherwise |
| GroupingMethods.NoOverflow | backend/internal/handler/grouped_lists.go:176-187 | the end of every page fits when the list is not within 100 items of the largest 64-bit integer |
| GroupingMethods.PagesArePrefix | backend/internal/handler/grouped_lists.go:166-187 | the first n pages one after the other are the first n times limit items |
| GroupingMethods.PagesCoverTheList | backend/internal/handler/grouped_lists.go:166-187 | enough pages are the whole list: no gap, no repeat |
| ScopeCache.GroupedScopeService.constructor | backend/internal/handler/grouped_scope.go:60-92 | a new cache holds nothing and refines the empty log |
| ScopeCache.GroupedScopeService.Mint | backend/internal/handler/grouped_scope.go:156-185 | after a mint the entries are exactly the unexpired ones among the last 4096 mints, with the request copied |
| ScopeCache.GroupedScopeService.Lookup | backend/internal/handler/grouped_scope.go:187-201 | it succeeds exactly for the group and viewer an unexpired mint among the last 4096 named, with that request |
| ScopeCache.GroupedScopeService.Purge | backend/internal/handler/grouped_scope.go:156-175 | exactly the expired entries are deleted, in whatever order the map is walked |
| ScopeCache.GroupedScopeService.Oldest | backend/internal/handler/grouped_scope.go:165-180 | the evicted entry expires no later than any other |
| ScopeCache.SizeIsBounded | backend/internal/handler/grouped_scope.go:156-185 | no reachable state holds more than 4096 entries |
| ScopeCache.CallerKeepsItsSlice | backend/internal/handler/grouped_scope.go:156-201 | a caller that overwrites its tag slice after minting changes nothing that was minted |
| ScopeLog.MintWithRoom | backend/internal/handler/grouped_scope.go:156-185 | with room, adding one entry holds exactly the live part of the longer log |
| ScopeLog.MintWhenFull | backend/internal/handler/grouped_scope.go:156-185 | at capacity, dropping the oldest held entry drops exactly the mint that leaves the window |
| ScopeLog.PurgedRefines | backend/internal/handler/grouped_scope.go:156-175 | purging at a later time keeps exactly what is still live |
| PublishLocks.SessionKeyInjective | backend/internal/handler/associations.go:29-33 | different sessions never share a lock key |
| PublishLocks.AssociationKeyInjective | backend/internal/handler/associations.go:35-38 | different associations never share a lock key |
| PublishLocks.LockOrderIncreases | backend/internal/handler/associations.go:69-90 | the taken keys are the requested ones, each once, strictly increasing |
| PublishLocks.LockOrderAgrees | backend/internal/handler/associations.go:69-90 | callers naming the same keys take them in the same order |
| PublishLocks.ConcatIncreases | backend/internal/handler/collective_authority.go:22-45 | publish keys followed by authority keys are one strictly increasing order |
| PublishLocks.Release | backend/internal/handler/associations.go:100-136 | a session that goes back to the pool holds no key; otherwise it leaves the pool |
| PublishLocks.WithPublishLockKeys | backend/internal/handler/associations.go:69-136 | with a pinned connection the callback runs exactly when every lock was granted, holding exactly the requested keys; without a pool it runs at once with none, and without a connection not at all; a session that returns to the pool holds no key |
| AssociationLedger.ValidateBindings | backend/internal/handler/associations.go:142-205 | the request is accepted exactly when no id or commit repeats in it and each association is an exact replay or new under both keys; the answer is the new ones in order |
| AssociationLedger.InsertKeepsWellBound | backend/internal/handler/associations.go:208-235 | inserting what validation returned keeps one binding per id and one id per transcript and commit |
| AssociationLedger.ReplayInsertsNothing | backend/internal/handler/associations.go:142-235 | validating an accepted request again returns nothing to insert |
| AssociationLedger.UnrelatedRows | backend/internal/handler/associations.go:142-205 | rows of other ids and other transcripts never change a verdict |
| PublishProtocol.PublisherIsWellFormed | backend/internal/handler/associations.go:43-56 | a publisher holds the keys of its session and of every association it names, in order |
| PublishProtocol.DeciderIsWellFormed | backend/internal/handler/collective_authority.go:22-72 | a caller of both families asks for its keys in one increasing order |
| PublishTheorems.LedgerIsSafe | backend/internal/handler/associations.go:142-235 | over every interleaving of publishes, with validation, upload and insert apart, and of deletions, both keys stay unique, and a binding once present stays as it is exactly as long as its transcript exists |
| PublishTheorems.RevalidationAgrees | backend/internal/handler/transcripts.go:448-470 | the validation repeated after the upload gives exactly the preflight's answer, unless the transcript it accepted was deleted in between: then what was accepted is refused |
| PublishTheorems.NoDeadlock | backend/internal/handler/associations.go:69-136 | no reachable state pins more connections than the pool has, and one with an unfinished caller has an enabled step of such a caller if and only if the pool has a connection |
| PublishTheorems.RunsEnd | backend/internal/handler/associations.go:69-136 | no run is longer than the steps its callers have and the transcripts there are or will be to delete |
| ObjectTheorems.ReferencedObjectsExist | backend/internal/handler/lifecycle_decisions.go:10-25 | over every run of creates, republishes, rewrites and deletes with committed, rolled-back and ambiguous ends, and cleanups that succeed or fail, no object a committed row names is deleted |
| ObjectTheorems.NewOrphansExactly | backend/internal/handler/transcripts.go:765-850 | a step makes an object nobody's if and only if it forgets the object it displaces and no other operation or report answers for that one, and then it is that object |
| ObjectTheorems.NoOrphansExactly | backend/internal/handler/lifecycle_decisions.go:10-25 | over every run each unreferenced object belongs to an operation under way or is marked for reconciliation, in every state, if and only if no step is of that kind |
| ObjectTheorems.ForgottenExactly | backend/internal/handler/transcripts.go:765-850 | of the transactions that displace an object, those that forget it are exactly those whose own cleanup neither deletes nor reports it |
| ObjectTheorems.RepublishCanStrand | backend/internal/handler/transcripts.go:470-490 | a run in which a rewrite commits between a republish's read and its update, after which an object belongs to nobody |
| OrgSync.FetchSnapshot | backend/internal/handler/auth.go:288-364 | the walk ends within 100 pages with the whole list, distinct in id and in case-folded login, whenever the pages are such a list, and fails exactly when they are not |
| OrgSync.InstallSnapshot | backend/internal/handler/auth.go:253-275 | the transaction leaves what upserting every organization and deleting by folded login leaves |
| OrgSync.InstalledFolds | backend/internal/handler/auth.go:253-275 | without regard to case the stored logins are the snapshot's |
| OrgSync.InstalledRow | backend/internal/handler/auth.go:253-268 | each organization's row carries the snapshot's id and avatar and the visibility stored for that login before, off if none was |
| OrgSync.InstalledExactly | backend/internal/handler/auth.go:253-275 | the stored table is the snapshot's rows and nothing else if and only if no row stored before differs from one of its logins in case alone |
| OrgSync.CaseRenameLeavesTheOldRow | backend/internal/database/queries/user_orgs.sql:1-31 | an organization renamed in case leaves its old row, unchanged, beside the new one |
| OrgSyncProtocol.StoredIsOneSnapshot | backend/internal/handler/auth.go:237-277 | over every interleaving of sign-ins and visibility toggles the stored organizations are the initial ones or, up to case, one whole snapshot, and installed generations strictly increase |
| OrgSyncProtocol.StoredExactly | backend/internal/handler/auth.go:237-277 | they are that snapshot's rows and nothing else, each shown as the last toggle since says or else as it was before, exactly under the same condition on case |
| OrgSyncProtocol.FoundWasStored | backend/internal/handler/auth.go:237-277 | the table that condition speaks of is the one stored when the newest snapshot was installed |
| OrgSyncProtocol.ToggledRow | backend/internal/handler/orgs.go:96-130 | after any toggles a row is as it was, shown as the last toggle of exactly its login says |
| OrgSyncProtocol.SupersededInstallsNothing | backend/internal/handler/auth.go:254-262 | once a newer generation was issued an older one installs nothing, even if the newer fails |
| JsonPointers.UnescapeEscape | backend/internal/handler/contract_body.go:263-265 | escaping a segment and unescaping it (RFC 6901 section 4) gives it back |
| JsonPointers.EvaluatesBack | backend/internal/handler/contract_body.go:263-265 | the pointer of a place in a value evaluates, as RFC 6901 says, to that place |
| Schemas.SchemaProperties | backend/internal/handler/contract_body.go:343-364 | the recursive walk fills the map that the first-visited rule gives |
| Schemas.DeclaredExactly | backend/internal/handler/contract_body.go:343-364 | a name is declared if and only if a schema at most eight compositions away has it as a property, and its schema is one such a schema gives it |
| DeclaredReport.FilterDeclared | backend/internal/handler/contract_body.go:450-483 | the filtered value and the appended pointers are the specified ones, in order |
| DeclaredFields.SurvivesExactly | backend/internal/handler/contract_body.go:450-483 | a place is left exactly when it was there and nothing at or above it is removed, with the same kind, length or scalar |
| DeclaredFields.FilteredTwice | backend/internal/handler/contract_body.go:450-483 | filtering is idempotent |
| DeclaredFields.FilteredRemovesNothing | backend/internal/handler/contract_body.go:450-483 | a second pass reports nothing |
| DeclaredFields.RemovedPathsExactly | backend/internal/handler/contract_body.go:450-483 | the walk meets every removed place exactly once |
| DeclaredReport.ReportedExactly | backend/internal/handler/contract_body.go:450-483 | the reported pointers are distinct, each evaluates to a removed member of the body, and every removed member is reported |
| CaseVariants.FindsExactly | backend/internal/handler/contract_body.go:404-448 | the search finds nothing exactly when no reachable object has an undeclared key that folds to a declared name |
| CaseVariants.DecodingExactly | backend/internal/handler/contract_body.go:295-319 | the search finds nothing if and only if, in whatever order members come, a case-insensitive decoder reads every declared field where it is spelled as declared |
| CaseVariants.FilteredDecodes | backend/internal/handler/contract_body.go:321-341 | such a decoder reads the filtered body at the declared spellings of the raw one, and the raw body alike when the search finds nothing |
| AnnotationStore.Dedupe | backend/internal/handler/annotations_push.go:241-261 | the result keeps, in order, the records no later record shares a hash with |
| AnnotationStore.DedupedExactly | backend/internal/handler/annotations_push.go:241-261 | one record is kept for each hash, and it is the last |
| AnnotationStore.BulkMatchesExactly | backend/internal/database/queries/annotations_push.sql:1-39 | the one statement over the deduplicated records leaves what one statement per record leaves if and only if each hash new to the store has one content in its first and last record |
| AnnotationStore.BulkMatchesTimes | backend/internal/database/queries/annotations_push.sql:1-39 | hashes and times always agree, so every created or updated outcome does |
| AnnotationStore.DuplicatesDiffer | backend/internal/handler/annotations_push.go:241-243 | a hash sent twice with two contents: one by one the first is stored, in bulk the last |
| AnnotationPush.UpsertAnnotationsBulk | backend/internal/handler/annotations_push.go:124-202 | one outcome for each item in input order, each the right one, the counters grow by their numbers and together by the number of items |
| Versions.CompareScryVersions | backend/internal/handler/integrity.go:86-101 | the loop computes the component-wise comparison of the two texts |
| Versions.CompareIsTotal | backend/internal/handler/integrity.go:86-101 | on all texts the comparison is antisymmetric, transitive, and 0 only for equal texts |
| Versions.CompareIsNumeric | backend/internal/handler/integrity.go:83-101 | without leading zeros it is the numeric order of Semantic Versioning 2.0.0 items 2 and 11, for any number of components and any size |
| Versions.CanonicalVersion | backend/internal/handler/integrity.go:83-101 | every text whose components have no leading zeros is the text of its numbers, so the numeric order speaks of all of them |
| VersionObservers.HeldNeverDecreases | backend/internal/handler/integrity.go:67-81 | under every interleaving of compare-and-swap observers the held version never decreases |
| VersionObservers.HeldIsTheMaximum | backend/internal/handler/integrity.go:67-81 | when all have returned it is one that was observed, and none observed is newer |
| VersionObservers.RunsEnd | backend/internal/handler/integrity.go:72-81 | n observers take at most 2n(n + 1) operations, however they race |
| IntegrityPass.Tick | backend/internal/handler/integrity_worker.go:181-236 | a pass checks at most ten transcripts, lists again only when a check left another version held, runs every check under the version held at that moment, and ends for a stated reason |
| HashPreimage.WriteManualAnnotation | backend/internal/handler/manual_annotation_hash.go:32-67 | the bytes written are the specified preimage |
| HashPreimage.PreimageInjective | backend/internal/handler/manual_annotation_hash.go:27-67 | different inputs, an absent and an empty reason included, never share a preimage |
| HashPreimage.WriteParts | backend/internal/handler/grouped_lists.go:241-248 | the bytes written are the delimited parts in order |
| HashPreimage.EncodedInjective | backend/internal/handler/grouped_lists.go:241-248 | different part lists, of one length or two, never share an encoding |
| HashPreimage.GroupPreimageExactly | backend/internal/handler/grouped_lists.go:236-249 | two helpers share a preimage if and only if account and owner agree and, without an owner, the session does; an owner literally named unresolved is no exception |
| Governance.ApplyMetadataPatch | backend/internal/handler/metadata_patch.go:41-72 | a patch is refused exactly when it would silently keep a shared row shared or clear a granted license; otherwise each omitted field, the owner and the project are kept, a license stays granted, a row is shared only if the patch says so, and the same patch again changes nothing |
| BatchShare.WriteBatchShare | backend/internal/handler/group_shares.go:355-444 | the loop gives the specified outcome, and a refused batch leaves the database as it was |
| BatchShare.BatchExactly | backend/internal/handler/group_shares.go:355-444 | a batch is written if and only if the policy stood still, every candidate is the owner's, unchanged, free and consented to if private, and one is new; then every new one is submitted and none stays private |
| BatchShare.ConsentIsNeeded | backend/internal/handler/group_shares.go:395-427 | only a selected private row of the requesting owner changes, only with consent, only its visibility, and together with its submission |
| VisibilityProtocol.NeverWiderThanDecided | backend/internal/handler/metadata_patch.go:92-149 | over every run visibility is never wider than the owner's last decision, and equals it unless a republish is under way or left the transcript private |
| VisibilityProtocol.RepublishKeepsAudience | backend/internal/handler/transcripts.go:393-401 | a republish that commits, or fails and restores, leaves the visibility it found, whatever ran in between, and meanwhile the transcript is private |
| VisibilityProtocol.GrantedLicenseStays | backend/internal/handler/metadata_patch.go:12-18 | over every run, deletions included, a granted license never returns to none while the transcript exists |
| VisibilityProtocol.WidenedOnlyByTheOwner | backend/internal/handler/metadata_patch.go:41-149 | a private transcript becomes readable only by the owner's edit, a batch its owner confirmed and selected it in, or the end of a republish that had narrowed it |

## Left out

- HTTP handlers, OAuth exchanges, the GitHub, Resend and storage clients and the frontend: input, output and prose.
- SQL text, triggers and migrations: each query is the atomic map operation its caller relies on.
- Cryptography and randomness: opaque, with the assumptions above.
- The prompt-attachment flow and its lock: its state table and acceptance rule are not part of this model, and it takes a second pooled connection while holding one.
- A committed delete whose returned columns name no object: it reports the object read before instead, and no written row has such columns.
- The transcript_shares fold: it lives in database views.
- An evicted session's locks until the server notices that its connection is gone: the model says only that the connection left the pool.
- The scope resolver registry, request size limits and route checks of the scope cache: single-branch checks.
- Link-header parsing in the organization fetch: a page says it is the last, that the next one follows, or that its link is not to be trusted.
- Title safety checks, tags and the audit rows of a metadata patch: they do not touch visibility or license.
- The preflight of a batch share and the pluralized refusals: the transaction decides again from locked rows.
- Integrity attempts, their holds and backoff, and the pause between two checks: the pass is modelled through the answers its checks give.
- The null rules of recordFromPushItem: a record's content is opaque to the upsert.
- RenderPreview, decideFreshRead, casOutcome and integrityBackoff: each is true on reading one branch.
- Go's slices and JSON arrays rewritten in place in Restrict, Build and filterDeclared are values here, so aliasing of the input is not modelled; the scope cache's tag slices, where aliasing matters, are arrays.
- Text.Lower: does not model folding outside ASCII, because no such letter folds to a hexadecimal digit and organization logins are ASCII.
- Schemas.Items: does not state which of several element schemas a reader would expect, because the code takes the first one it meets.
- OrgSync.FetchSnapshot: does not model the 30-second timeout or a body over one mebibyte apart from other unavailable responses, because every such failure keeps the old snapshot.
- StableSorting.StableSort: does not model the sort library's algorithm, because every stable sort gives this list.
