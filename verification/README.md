# A verified model of codegraph-go

codegraph-go keeps an index of a source tree in SQLite, answers questions about
it over MCP, and runs as one background daemon per workspace. This project
models the parts of it where a small slip is hard to see, and proves what they
are meant to guarantee. `dafny verify dfyconfig.toml` checks all of it.

**One exclusion rule, two engines.** A directory rule is read by the indexer's
walker (exact name, or Go's `filepath.Match`) and compiled into globs for
ripgrep. `GoPattern` and `RgGlob` give both pattern languages a grammar and a
meaning, and `GoSearch` is the search by which Go's library looks for a match;
`GoChunks`, `RgClass`, `RgTranslate` and `ExcludeRules` are the compiler with
its loops. `PlainRules` says what a rule as it is written names.
`GlobAgreement`, `LostMembers` and `RuleAgreement` show when the two engines
prune the same directories: with a bare rule they do exactly when the
translation keeps its names, with a path rule when it loses no class member and
the library's search finds all that the pattern matches.

**The index store.** `IndexStore` holds the tables as maps with their unique
keys, cascades and row counters. `FileReplacement` replaces one file's rows in a
transaction, `Parking` saves the inbound edges a replacement would lose,
`Database` is the handle whose writes commit or leave everything as it was,
`StoreRuns` is the invariant of every interleaving of the writers, and
`RefLives` follows one unresolved reference through any of them. `BatchBuilder`
and `IndexedFile` build the batch of one file. `EdgeWriter` persists a
resolution pass in batches, `NameMatcher` decides what a reference means,
`EdgesMigration` widens the key of the edges table and recovers from a rebuild
that crashed. `Names` has the name tails both sides use.

**Processes.** `Processes` is the machine: incarnations, zombies, pids that are
handed on. `Termination` is the pidfd protocol that ends a daemon holding the
database lock, `DaemonIdentity` who it may take for one. `Lifecycle` is the
daemon's own life as a step system, `SessionCap` how far its sessions can go
over the cap, and `DaemonSections` its critical sections as they are written;
`ShutdownEnds` shows when a stop can come to its end. `LogWriter` is the
non-blocking log writer, `IndexPass` a full rebuild with its worker pool and the
marking of the schema revision.

**Loops that others lean on.** `EditDistance`, `CommentBlanker`, `LruCache`.

## Where the code differs from what it says, or surprises

- `parseGoClass` says that the ranges it returns have different ends
  (skip.go:847-853); cutting a range at `/` leaves a range of one character
  exactly when it begins at `.` or ends at `0` (`RgClass.AddRange`).
  `NormalizeRgRangeEndpoints` folds those, so the result is unharmed.
- For path rules the walker finds less than `filepath.Match` documents. The
  library puts the chunk behind a star at the first place it fits and never moves
  it, so where a class can stand for `/` it misses matches: with the rule
  `*a[b/]*c` it goes into `aba/c`, which ripgrep prunes
  (`RuleAgreement.SlippingRuleDiffers`). `GoSearch.FindsExactly` says for which
  patterns that happens; names without `/` are never affected.
- A class member that is exactly U+FFFD is dropped (skip.go:869), which its
  comment does not say. For a bare
  rule `LostMembers.LossExactly` and `RuleAgreement.BareRuleExactly` say exactly
  when the two engines then disagree, and `ReplacementRuleDiffers` names a rule.
- A file whose import resolves to a row of that same file is never re-indexed:
  the transaction always rolls back (`IndexedFile.BuiltBatchCommitsExactly`). A
  file with a function `util` that starts to import an unknown `util` is one
  (`IndexedFile.OwnImportIsRefused`).
- A resolution that lands between the park of a file and its replacement loses
  the reference: its ref is deleted, and the replacement then deletes the edge
  (`RefLives.ResolvedBetweenIsLost`). Nothing else that any writer does in between
  loses one (`RefLives.NoRunLosesInboundEdges`, `RefLives.SparedExactly`).
- A synthesized edge can take over the row of a resolved one, and the next
  synthesis deletes it (`Database.ResolvedEdgeOutlivesSynthesis`).
- The resolver and the store cut name tails at different separators
  (name_matcher.go:170-179, query_refs.go:45-54). `Names.TailsAgreeExactly` says
  for which names that matters; `a/b` is one (`Names.TailsOfAPath`).
- Above eighty candidates the answer of `MatchName` depends on their order
  exactly when the referring file has two (`CrowdDependsOnOrderExactly`).
- The cap of 64 sessions can be exceeded: when p connections are between the check
  and their registration at once, by p - 1 and no more, whatever the cap
  (`SessionCap.SessionsAreBounded`, `SessionCap.TheCapIsOverrunByOverlap`).
- A Stop called by the accept loop itself never finishes
  (`Lifecycle.AcceptLoopsOwnStopNeverEnds`), and five failing accepts lead there
  (`Lifecycle.FiveFailuresGetThere`).
- Closing the log writer always waits out a timeout
  (`LogWriter.CloseWaitsOutItsTimeout`). A flush request left behind and picked
  up after the close is never answered and keeps the goroutine for ever
  (`LogWriter.LateRequestIsNeverAnswered`); one timed-out flush before the close
  is enough (`LogWriter.CaughtAfterClose`), and it can happen exactly when a
  request is still queued or being served once the channel is closed
  (`LogWriter.CaughtExactly`).
- A block comment that the text does not close is blanked but for the last byte
  of the text, which is read as code (`CommentBlanker.UnclosedKeepsItsLastByte`).

## Model

| member | source | states |
|---|---|---|
| GoChunks.IsValidGoPattern | internal/extraction/skip.go:579-627 | the chunk-by-chunk check accepts a pattern exactly when the whole pattern is well formed under the grammar of filepath.Match |
| RgClass.ParseGoClass | internal/extraction/skip.go:854-938 | singles and ranges together hold exactly the members Go gives the class, `/` left out when the rule may not match it, U+FFFD singles left out; the next index is right after the class |
| RgClass.AddRange | internal/extraction/skip.go:901-927 | a range adds its characters but a refused `/`, and leaves a range of one character exactly when it is cut at `/` and begins at `.` or ends at `0` |
| RgClass.NormalizeRgRangeEndpoints | internal/extraction/skip.go:948-985 | peeling endpoints off ranges changes no membership and leaves no range that begins or ends on a character the target lexer treats specially |
| RgClass.EmitRgClass | internal/extraction/skip.go:1006-1103 | the emitted text, read back by ripgrep's class lexer, stands for exactly the given members (or all others when negated), or nothing is emitted because the set is empty |
| RgTranslate.EscapeRgLiteral | internal/extraction/skip.go:645-664 | the escaped text is a well-formed glob that matches exactly the one input string |
| RgTranslate.FixRgTrailingEscape | internal/extraction/skip.go:1118-1132 | no glob ends in an even, non-empty run of backslashes afterwards, and one that may be extended is left as it is |
| RgTranslate.TranslateRgGlob | internal/extraction/skip.go:705-819 | a satisfiable translation matches exactly what the pattern matches and may be extended; an unsatisfiable verdict means that the pattern matches nothing of the kind of path the rule is for |
| GlobAgreement.ListsMatchAlike | internal/extraction/skip.go:705-819 | terms of one language and tokens of the other that agree slot by slot match the same paths |
| GlobAgreement.SquashKeepsMeaning | internal/extraction/skip.go:705-819 | runs of stars collapsed into one keep the meaning of a pattern |
| RgGlob.LexConcat | internal/extraction/skip.go:482-537 | text appended to a glob that lexes completely is lexed on its own: nothing dangles into it |
| GoSearch.FoundIsMatch | internal/extraction/skip.go:347-370 | what the library's chunk-by-chunk search reports is a match under the documented meaning |
| GoSearch.MatchIsFound | internal/extraction/skip.go:347-370 | every match of a name without `/` is found, and every match of any name when no chunk between two stars can slip over a `/` |
| GoSearch.FindsExactly | internal/extraction/skip.go:366-372 | the search finds all matches of all names exactly when no chunk between two stars slips, or the pattern matches nothing |
| GoSearch.PlainSlashesNeverSlip | internal/extraction/skip.go:366-372 | nothing slips in a pattern whose classes do not mix `/` with other characters |
| LostMembers.LossExactly | internal/extraction/skip.go:864-874 | the pattern means the same with the lost members exactly when no class loses one, or neither reading matches any name |
| ExcludeRules.NormalizedRule | internal/extraction/skip.go:267-284 | a raw rule is white space, an anchor, the kept pattern, slashes, white space; it is anchored exactly when the anchor is there, and refused exactly when the pattern is empty or a dot segment |
| PlainRules.WrittenRule | internal/extraction/skip.go:267-284 | a text that is white space, nothing or an anchor, a pattern, slashes and white space is the rule of that pattern, anchored exactly when the anchor is there |
| PlainRules.WalkerReads | internal/extraction/skip.go:336-373 | with an anchor in front or a slash inside a rule is compared with the path from the root, any other with the base name alone |
| PlainRules.PlainRuleNames | internal/extraction/skip.go:336-373 | a rule without metacharacters names that one path from the root, or every directory of that name |
| ExcludeRules.RgSafeGlob | internal/extraction/skip.go:546-568 | a malformed pattern becomes a glob for its own text alone; a well-formed one its translation |
| ExcludeRules.RgExcludeGlobs | internal/extraction/skip.go:482-537 | the globs of a rule hit a path exactly when the rule, as parsed, names it by exact text or by match, and each may be extended by the caller |
| RuleAgreement.BareRuleExactly | internal/extraction/skip.go:342-351 | for a bare rule the walker and the globs agree on every directory exactly when the rule keeps its names |
| RuleAgreement.PrefixTestIsAncestor | internal/extraction/skip.go:366-372 | the walker's prefix test prunes nothing beyond the directories it names and what is below them |
| RuleAgreement.PrunesAlike | internal/extraction/skip.go:336-373 | agreement on single directories is agreement on whole subtrees |
| RuleAgreement.ReplacementRuleDiffers | internal/extraction/skip.go:864-874 | the rule that is a class of U+FFFD alone is one the engines read differently |
| RuleAgreement.SlippingRuleDiffers | internal/extraction/skip.go:366-372 | a rule with a class that holds `/` between its stars is one the engines read differently on some path |
| RuleAgreement.ExcludeGlobs | internal/extraction/skip.go:482-537 | from raw text to globs: every glob is well formed and extendable; a rule without metacharacters hits its one path from the root when it has an anchor or a slash, and every directory of its name otherwise; of a rule that keeps its members ripgrep prunes all the walker prunes, and nothing else if the rule is bare or the search finds all its matches; for bare rules the two agree exactly when the rule keeps its names |
| IndexStore.MarkFailedValid | internal/db/query_refs.go:567-586 | a failed attempt keeps the constraints, and failed rows stay below the cap while abandoned ones are at it |
| IndexStore.UpsertNodesFit | internal/db/query_index.go:39-100 | upserting rows hands out one id per row under its own key, reuses rows by key and otherwise takes ids never used before |
| IndexStore.UpsertNodesRows | internal/db/query_index.go:39-100 | each row afterwards is an earlier one nobody wrote, or the last node with its key, whole; a module keeps the row that was there, or the first of its key, in the language of the last |
| FileReplacement.ClearedTables | internal/db/query_index.go:59-67 | the two deletes with their cascades leave exactly the edges between rows of other files and the refs other files filed for such rows |
| FileReplacement.InsertEdgesExactly | internal/db/query_index.go:120-140 | the edges go in exactly when each lands on existing rows; then the keys are the old and the landed ones and the last writer's row wins |
| FileReplacement.ReplaceCommitsExactly | internal/db/query_index.go:101-165 | the replacement commits exactly when every id of the batch names a row that outlives the deletes |
| FileReplacement.ReplaceJoinsWhatWasMeant | internal/db/query_index.go:101-140 | after a commit each edge of the batch joins the rows its placeholders meant, and every other edge is an old one between rows of other files, unchanged |
| FileReplacement.ReplaceLeavesTheRows | internal/db/query_index.go:63-186 | the file's rows are the batch's, whole, under the returned ids, the last of several with one key; rows of other files are equal to what they were but for a module's refreshed language; the file's record is the batch's |
| FileReplacement.ReplaceLeavesTheRefs | internal/db/query_index.go:59-165 | the refs are the batch's, each with the path, language, tail, candidates and status filed for it, and those that other files filed for their own rows, as they were |
| FileReplacement.ReplaceKeepsValid | internal/db/query_index.go:27-186 | foreign keys and unique keys hold after any replacement |
| FileReplacement.ReplaceKeepsHabits | internal/db/query_index.go:27-186 | a batch as the indexer builds it keeps every edge and ref filed under its source's file, and the ages of refs |
| Parking.ParkOne | internal/db/query_refs.go:185-216 | parking one inbound edge writes its ref, keeps an earlier row's id and attempts, and touches nothing else |
| Parking.NoInboundEdgeIsLost | internal/db/query_refs.go:72-218 | after park and replace every symbol-level edge from another file into this one is a pending ref of its source with the same name, kind, line and column |
| Parking.ForeignRefOutlivesReplace | internal/db/query_index.go:59-67 | a ref another file filed is still there, as it was, after the replacement |
| Database.DB.ReplaceFileIndex | internal/db/query_index.go:27-186 | commits the whole replacement with its ids, or leaves the store as it was; rejected only when a row is refused, broken only when SQLite failed by itself |
| Database.DB.ParkInboundRefsForFile | internal/db/query_refs.go:72-136 | the paginated loops park exactly the inbound edges of parkable kinds, or nothing |
| Database.PageOfFile | internal/db/query_refs.go:93-116 | a page holds the next ids in order, none of the file's skipped |
| Database.DB.ApplyResolvedRefs | internal/db/query_refs.go:526-557 | a batch of edges and ref deletes lands whole or not at all |
| Database.DB.UpsertOneEdge | internal/db/query_edges.go:17-35 | one edge by its five-column key, refused exactly by a foreign key |
| Database.DB.DeleteUnresolvedRef | internal/db/query_refs.go:503-508 | the row with this id is gone and the rest is as it was |
| Database.DB.MarkUnresolvedFailed | internal/db/query_refs.go:567-586 | counts one attempt, and reports exactly the one after which the row is abandoned |
| Database.DB.ReplaceSynthesizedEdges | internal/db/query_edges.go:135-167 | old synthesized edges out and new ones in, in one step or not at all |
| Database.DB.ClearFile | internal/db/query_files.go:132-159 | no row, no edge end, no ref and no record of the file is left, all other rows, edges and refs are as they were, no counter goes back, anchors and ages are kept |
| Database.DB.WipeIndex | internal/db/meta.go:79-113 | the tables are empty, the counters stand where they stood, anchors and ages are kept |
| RefLives.DroppedIdsNeverReturn | internal/db/meta.go:79-113 | in no later state of any run does a row, an edge or a ref carry an id that a clear or a wipe dropped |
| Database.ResolvedEdgeOutlivesSynthesis | internal/db/query_edges.go:145-167 | a resolved edge keeps its row through a synthesis, and survives the next one, exactly when no synthesized edge has its key |
| Database.SynthesizedExactly | internal/db/query_edges.go:135-167 | synthesized are the heuristic edges with `synthesizedBy` anywhere in their metadata |
| StoreRuns.EveryStepKeeps | internal/db/query_refs.go:526-586 | every write, with edges drafted from earlier reads still in flight, keeps keys, foreign keys, the anchoring of edges and refs at their source's file, ages, and the truth of drafts |
| StoreRuns.EveryRunKeeps | internal/db/query_index.go:27-186 | all of this holds in every state of every run from the empty store |
| RefLives.NoRunLosesInboundEdges | internal/extraction/index_writer.go:471-479 | in any run, at any time after a park, whatever other writers do and the file's replacement among it: the source row of an inbound edge is gone, or its ref is there and pending, unless a step deleted or marked it by its id |
| RefLives.SparedExactly | internal/db/query_refs.go:503-586 | while its source lives, a step leaves a pending ref pending exactly when it does not delete or mark it by its id |
| RefLives.ResolvedBetweenIsLost | internal/extraction/index_writer.go:471-479 | a ref deleted between the park and the replacement leaves neither a ref nor an edge into the file |
| RefLives.LostWithoutItsRef | internal/db/query_index.go:59-67 | a replacement makes no ref for a row of another file and leaves no edge from one into the file |
| RefLives.FailsAtMostCap | internal/db/query_refs.go:559-586 | in any run, until its key is parked again, a ref is found and marked failed at most cap - attempts times, once when the cap was used up; it is still selected exactly while that is not reached |
| BatchBuilder.FirstOfEachIs | internal/extraction/index_writer.go:194-209 | deduplication keeps one symbol per key, drops no key, and leaves the file first |
| BatchBuilder.FirstOfEachKeepsTheFirst | internal/extraction/index_writer.go:194-209 | of several symbols with one key the first is kept |
| BatchBuilder.Dedupe | internal/extraction/index_writer.go:194-209 | the loop with its seen set computes that list |
| BatchBuilder.LinkMaps | internal/extraction/index_writer.go:216-247 | a name is a bare hit exactly when all its bearers are at one line and rank, and every bearer of a name is listed |
| BatchBuilder.FindTarget | internal/extraction/index_writer.go:255-304 | finds the same-file target a name means, and none when several differently placed symbols bear it and not exactly one is around the line |
| BatchBuilder.MeansOneSymbol | internal/extraction/index_writer.go:211-215 | a same-file name never means two symbols |
| BatchBuilder.MeansExactly | internal/extraction/index_writer.go:211-304 | a name means the first symbol that has it when all of them are on one line and of one sort, and otherwise the only one of them around the line |
| IndexedFile.QueueModules | internal/extraction/index_writer.go:335-384 | one module node per import name nothing was found under, each with its index |
| IndexedFile.Answer | internal/extraction/index_writer.go:253-456 | the edges and parked refs of the batch answer exactly the requests: a link to its target, an import to its row or module, the rest parked |
| IndexedFile.BuiltBatchIsTidy | internal/extraction/index_writer.go:249-319 | a batch so built has its placeholders in range and its own file on every row |
| IndexedFile.BuiltBatchCommitsExactly | internal/extraction/index_writer.go:335-384 | it is refused exactly when an import hangs on a row that the replacement deletes |
| IndexedFile.OwnImportIsRefused | internal/extraction/index_writer.go:343-384 | a concrete file, with its function and an import of that name, that no batch can index |
| IndexedFile.EverySymbolLands | internal/extraction/index_writer.go:170-209 | once committed each symbol has a row of its own with its kind, name, file, line, language and details, and the file has no others |
| IndexedFile.ModulesAreThemselves | internal/extraction/index_writer.go:359-375 | a module made for an import is filed under its own name at line 0, and made only for an import that found nothing |
| IndexedFile.PreferredIs | internal/extraction/index_writer.go:347-358 | an import is attached to the first module found, and to the first row found when none is a module |
| IndexedFile.EveryLinkLands | internal/extraction/index_writer.go:255-304 | once committed, a same-file reference joins the rows of the two symbols it is between |
| IndexedFile.EveryImportLands | internal/extraction/index_writer.go:335-400 | once committed, an import joins the file's row to the row found for it or to the module created under its name |
| IndexedFile.IndexFile | internal/extraction/index_writer.go:170-481 | dedupe, build, park, replace: rejected only for such an import, and otherwise the store after park and replace of that batch |
| EdgeWriter.CommittedBatchIsEach | internal/resolution/resolver.go:237-273 | a batch that commits has done what its plans do one at a time with none refused |
| EdgeWriter.Writer.Add | internal/resolution/resolver.go:213-218 | buffering a plan amounts to applying it alone, however the batch ends; a full batch is written and no other |
| EdgeWriter.Writer.Flush | internal/resolution/resolver.go:242-273 | flushing, with its fallback to single writes, changes nothing of what the buffered plans amount to |
| EdgeWriter.PassKeepsSight | internal/resolution/resolver.go:96-174 | a pass over refs that are no imports changes neither the rows nor the import edges that deciding a ref reads |
| EdgeWriter.PassWrites | internal/resolution/resolver.go:213-273 | after a pass there are the edges there were and, for each ref met first, decided and between rows that exist, the edge from its node to the target under its kind and place, as the last to write it left it; such refs are gone, and each other attempted one has one more attempt |
| EdgeWriter.ResolveQueue | internal/resolution/resolver.go:378-416 | a whole pass with batches of any size, each ref decided while others are still buffered, leaves exactly those tables, ends in the tally of deciding and writing each ref alone in order, and counts as resolved the edges that landed, as failed the others, as abandoned those whose row reached the cap |
| EdgeWriter.NoRefIsUncounted | internal/resolution/resolver.go:53-89 | each ref is counted once, and abandoned ones are among the failed |
| EdgeWriter.MarkEarly | internal/resolution/resolver.go:398-406 | a ref marked failed while others are still buffered ends as if marked at its place |
| EdgeWriter.MarkLate | internal/resolution/resolver.go:407-415 | a refused ref marked after the pass ends as if marked at its place |
| Names.TailsAgreeExactly | internal/resolution/name_matcher.go:170-179 | the two name tails agree exactly when no slash follows the last other separator, or the name ends in its slash and has no other |
| NameMatcher.MatchName | internal/resolution/name_matcher.go:56-132 | up to the ceiling the candidate that beats all other eligible ones, by place first (the file, its directory, around it) and then by kind, exact name and body, or nobody; above it the first eligible candidate of the same file |
| NameMatcher.PlaceThenMeritDecides | internal/resolution/name_matcher.go:78-132 | the maximum of the scores is the winner by place and merit, with the provenance of its place, and there is none exactly when nobody wins |
| NameMatcher.OrderDoesNotMatter | internal/resolution/name_matcher.go:78-132 | reordered candidates get the same answer |
| NameMatcher.TiedCandidatesAreRefused | internal/resolution/name_matcher.go:110-123 | a tie at the top is nobody's |
| NameMatcher.CrowdDependsOnOrderExactly | internal/resolution/name_matcher.go:64-72 | above the ceiling the order decides exactly when the file has two eligible candidates |
| NameMatcher.FilterByImports | internal/resolution/import_resolver.go:250-296 | the candidates in imported files and no others, or no success |
| NameMatcher.DecidesSpelled | internal/resolution/resolver.go:96-174 | the resolution is the winner among the imported, else the winner near enough, else for a call the only callable if imported, in the directory or one below, else nobody |
| NameMatcher.ResolveOne | internal/resolution/resolver.go:96-174 | that resolution, decided by the candidates as a set; it is never the referring node, and for a call something callable |
| NameMatcher.ResolutionIsOne | internal/resolution/resolver.go:96-174 | one set of candidates has one resolution |
| EdgesMigration.OldKeyImpliesNewKey | internal/db/migrate.go:307-313 | rows the three-column key kept apart the five-column key keeps apart, missing lines and columns filled in |
| EdgesMigration.FilledKeeps | internal/db/migrate.go:386-388 | the copy keeps every row's id, ends, kind and other columns, a line or column that was there, and 0 for a missing one |
| EdgesMigration.KeysSpelledOut | internal/db/migrate.go:307-313 | the two uniqueness conditions, column by column |
| EdgesMigration.NewKeyInAnyOrder | internal/db/migrate.go:218-231 | of distinct columns exactly the five of the new key, in any order, are the new key |
| EdgesMigration.EveryCrashPointIsRecoverable | internal/db/migrate.go:233-244 | wherever the old rebuild stopped, all rows are still in the table that recovery will trust |
| EdgesMigration.Connection.RecoverEdgesRebuild | internal/db/migrate.go:245-264 | drops a stale copy or promotes the only one, losing nothing when interrupted |
| EdgesMigration.Connection.RebuildEdgesUniqueKey | internal/db/migrate.go:323-404 | ends under the new key with the original rows and foreign keys back on, or leaves a recoverable database |
| EdgesMigration.Open | internal/db/migrate.go:233-404 | recover, schema, rebuild: a recoverable database stays so when interrupted and comes out migrated; one that is not there yet comes out empty under the new key |
| EdgesMigration.OpenAgainAndAgain | internal/db/migrate.go:233-404 | from any crash point through any number of crashing openings the first that gets through leaves one table with exactly the original rows |
| EdgesMigration.SchemaFirstWouldOrphanTheEdges | internal/db/migrate.go:234-244 | applying the schema before the recovery would lose the rows |
| Processes.EventsGoForward | internal/daemon/recovery.go:246-251 | whatever processes do, no incarnation changes its facts or comes back, and a pid has one holder |
| Processes.ShownStillHolds | internal/daemon/recovery.go:246-251 | what was read under a pid is true of whoever has kept the pid since |
| Processes.Kernel.Send | internal/daemon/pidfd.go:36-48 | a signal reaches the pinned incarnation or nobody |
| Processes.Kernel.WaitForExit | internal/daemon/lock.go:325-334 | success means that everybody who had the pid is gone |
| DaemonIdentity.HolderExactly | internal/daemon/recovery.go:217-240 | an invisible holder is a process started as codegraph, with this root behind its first -workdir, and the daemon's mark in its environment |
| DaemonIdentity.RecordedExactly | internal/daemon/lock.go:398-434 | the recorded daemon was born at the recorded time, serves this root, and runs this very program or bears the mark |
| DaemonIdentity.CodegraphExactly | internal/daemon/lock.go:504-525 | argv[0] names codegraph by its base name, by a segment, or by the last one, and by nothing else |
| Termination.Client.LiveInvisibleHolderMatch | internal/daemon/recovery.go:252-261 | the answer is what the two reads fit; a match says of whoever held the pid through both reads that its own facts fit, and a running target that held it is matched unless a read was refused |
| Termination.Client.TerminateViaPidfd | internal/daemon/pidfd.go:54-90 | signals reach one incarnation whose own facts satisfy the profile, each right behind a recheck that fits, SIGKILL only after SIGTERM to the same; where the recheck fits SIGTERM is sent, and each verdict has its reason in the calls made: success means it is gone, a skip that a recheck did not fit or it had gone, a failure that a signal was refused, survival that it got both |
| Termination.Client.TerminateInvisibleHolder | internal/daemon/recovery.go:281-296 | the same behind one more recheck |
| Termination.Client.KillInvisibleHolderProcs | internal/daemon/recovery.go:135-205 | nobody is signalled while a young pidfile names a live process; otherwise exactly the matching pids of the scan are rechecked in order, targets only, never itself; those counted are distinct incarnations that are gone, and every one not counted has the reason it was skipped for |
| Termination.Client.VerifyDaemonIdentity | internal/daemon/lock.go:398-434 | four separate reads, and yet a verdict about the one incarnation that kept the pid; the recorded daemon is recognised unless a read was refused |
| Termination.Client.TerminateStaleViaPidfd | internal/daemon/lock.go:221-279 | only the recorded daemon of this project is signalled, each signal right behind reads that identify it, SIGKILL after SIGTERM; success in any form means the pinned incarnation is gone, a refusal that the last verification failed with the pid still taken |
| Termination.Client.KillStaleDaemon | internal/daemon/lock.go:158-208 | success leaves nobody that held the recorded pid at the call; a live pid is verified, a verified one pinned and ended, and the pass is refused exactly where the verification fails |
| Lifecycle.EveryStepKeeps | internal/daemon/server.go:253-538 | every step of the accept loop, connections, timers, watchdog and Stop keeps all parts of the invariant |
| Lifecycle.RunsCountAndCleanOnce | internal/daemon/server.go:322-334 | in every run inFlight counts the accepted connections up to their finishConn, clients the sessions among them, and the artifacts are removed once at most, after everybody has gone |
| Lifecycle.IdleStopCutsNobody | internal/daemon/server.go:275-297 | a stop that found the daemon idle cuts no session, then or later |
| Lifecycle.StopCutsEverySession | internal/daemon/server.go:322-330 | once the connections were closed, every session still registered has been cut |
| Lifecycle.NobodyJoinsAShutdown | internal/daemon/server.go:478-491 | after the shutdown's critical section no session registers and nothing new is counted |
| Lifecycle.NoTimerIsLost | internal/daemon/server.go:522-538 | an armed timer means an idle daemon, and an idle daemon with a timeout always has a timer armed or firing or somebody about to arm one |
| Lifecycle.AcceptLoopsOwnStopNeverEnds | internal/daemon/server.go:374-378 | a Stop called by the accept loop waits for itself for ever and removes nothing |
| Lifecycle.FiveFailuresGetThere | internal/daemon/server.go:370-378 | five accepts that fail lead into that stop, in every configuration |
| ShutdownEnds.CanEndExactly | internal/daemon/server.go:253-334 | a stop that has begun can be brought to its end, with every connection through and the artifacts removed once, exactly when the accept loop is not the one waiting for it |
| ShutdownEnds.IdleDaemonCanStop | internal/daemon/server.go:522-538 | from every idle state with a timeout the timers and goroutines that are there can take the daemon to a stop that cuts nobody |
| SessionCap.SessionsAreBounded | internal/daemon/server.go:446-491 | sessions and connections between check and registration together exceed the cap by less than the most connections that were ever between the two at once |
| SessionCap.TheCapHoldsWithoutOverlap | internal/daemon/server.go:446-491 | where no two connections were between check and registration at once the cap holds |
| SessionCap.TheCapIsOverrunByOverlap | internal/daemon/server.go:446-491 | for every cap and every overlap there is a run that reaches the bound |
| DaemonSections.Daemon.AddClient | internal/daemon/server.go:478-491 | the critical section is the two steps of registration, or the refusal |
| DaemonSections.Daemon.CountAccepted | internal/daemon/server.go:388-405 | counting an accepted connection, or refusing it, as one step after the other |
| DaemonSections.Daemon.DropClient | internal/daemon/server.go:509-520 | unregisters the session and arms exactly when it was the last |
| DaemonSections.Daemon.FinishConn | internal/daemon/server.go:497-507 | takes the connection off the count and arms exactly when nothing is left |
| DaemonSections.Daemon.ArmIdleTimer | internal/daemon/server.go:522-531 | makes a timer exactly when the daemon is idle, not stopping, and has none |
| DaemonSections.Daemon.StopIfIdleNow | internal/daemon/server.go:275-289 | stops exactly an idle daemon that is not stopping yet |
| DaemonSections.Daemon.IdleTimeout | internal/daemon/server.go:531-537 | the callback stops an idle daemon or goes on to look whether to arm again |
| LogWriter.EveryStepKeeps | internal/safelog/nonblock.go:81-228 | every step of writers, drain, flushes and close keeps order, counter and acks |
| LogWriter.OutputIsInOrder | internal/safelog/nonblock.go:196-228 | dst has a prefix of the accepted lines, and while the channel is open pending is queued plus in hand plus mid-send |
| LogWriter.AcknowledgedFlushIsComplete | internal/safelog/nonblock.go:98-170 | an acknowledged flush has written every line queued before it was asked for, stale acks or not |
| LogWriter.NoSendOnAClosedChannel | internal/safelog/nonblock.go:204-226 | no write ever meets a closed channel |
| LogWriter.CloseWaitsOutItsTimeout | internal/safelog/nonblock.go:178-194 | while Close flushes, the goroutine it waits for cannot have ended |
| LogWriter.LateRequestIsNeverAnswered | internal/safelog/nonblock.go:100-112 | a request picked up after the close is never acknowledged and the goroutine never ends |
| LogWriter.CaughtAfterClose | internal/safelog/nonblock.go:131-194 | a flush that times out and a close lead there |
| LogWriter.CaughtExactly | internal/safelog/nonblock.go:81-112 | once the channel is closed that can still happen exactly when a request is queued with the goroutine running, or is being served |
| LogWriter.OpenFlushCanBeAnswered | internal/safelog/nonblock.go:81-112 | while the channel is open the goroutine alone can answer a flush that is queued or being served, with every line accepted by then written |
| LogWriter.StaleRequestGivesWay | internal/safelog/nonblock.go:131-155 | a flush that finds a stale request gets its own queued instead |
| LogWriter.EndedMeansWritten | internal/safelog/nonblock.go:81-96 | when the goroutine has ended everything accepted is written |
| LogWriter.QueueKeepsToCapacity | internal/safelog/nonblock.go:196-228 | the queue keeps to its capacity, and a line is dropped only when it is full |
| IndexPass.EveryStepKeeps | internal/extraction/orchestrator.go:245-353 | every step of feeder and workers, the feeder's look at the signal apart from its blocking send, keeps each job accounted for |
| IndexPass.JoinedPoolRanAll | internal/extraction/orchestrator.go:393-401 | no signal at the recheck means that every collected job has its result |
| IndexPass.MarkedMeansComplete | internal/extraction/orchestrator.go:467-497 | the revision is marked only after every collected job ran to its end without a hard error or panic |
| IndexPass.MarkedMeansEveryPhaseSucceeded | internal/extraction/orchestrator.go:467-497 | a marked run went through every phase, and no wipe, collection, prune, resolution, synthesis or mark failed in it |
| IndexPass.SignalledRunsDoNotMark | internal/extraction/orchestrator.go:92-102 | a run signalled before its last recheck never marks |
| IndexPass.NoJobRunsTwice | internal/extraction/orchestrator.go:292-340 | a job gets one result |
| IndexPass.AtMostOneMoreIsFed | internal/extraction/orchestrator.go:345-350 | after the signal the feeder sends at most the one job it was about to |
| IndexPass.UndisturbedPassMarks | internal/extraction/orchestrator.go:467-497 | however many jobs there are, a pass in which nothing goes wrong takes them all and marks |
| EditDistance.LevIsDistance | internal/search/edit_distance.go:12-60 | the recurrence is the fewest edits over all edit scripts |
| EditDistance.RowMinimaGrow | internal/search/edit_distance.go:50-56 | once a whole row is above a bound everything below it is |
| EditDistance.LengthGap | internal/search/edit_distance.go:20-24 | the distance is at least the difference in length |
| EditDistance.FillRow | internal/search/edit_distance.go:38-53 | one row of the table with its minimum, from the row before |
| EditDistance.BoundedEditDistance | internal/search/edit_distance.go:12-60 | the exact distance when it is within the bound, else the distance or the bound and one more, for negative bounds too |
| CommentBlanker.StripCComments | internal/resolution/synth_fnptr.go:191-270 | the loops compute the text with its comments blanked piece by piece |
| CommentBlanker.PiecesInTurn | internal/resolution/synth_fnptr.go:191-270 | string and character literals stay, comments are blanked, any other byte stays, from the left |
| CommentBlanker.LiteralClosesFirst | internal/resolution/synth_fnptr.go:196-243 | a literal ends behind the first quote of its kind with an even number of backslashes before it, or with the text |
| CommentBlanker.BlockClosesFirst | internal/resolution/synth_fnptr.go:248-265 | a block comment ends behind its first closing mark, or one byte before the end of the text |
| CommentBlanker.UnclosedKeepsItsLastByte | internal/resolution/synth_fnptr.go:248-265 | of a block comment that is not closed all is blanked but the last byte, so the whole of it is exactly when that byte is blank or nothing follows the opening |
| CommentBlanker.StrippedKeepsPlaces | internal/resolution/synth_fnptr.go:191-270 | length and newlines stay, and other bytes stay or become spaces |
| CommentBlanker.LineAtCounts | internal/resolution/synthesize.go:317-325 | the line of an offset is one more than the newlines before it, for offsets outside the text too |
| CommentBlanker.LineNumbersAgree | internal/resolution/synthesize.go:317-325 | a line number taken on the blanked text is the one in the source, at any offset |
| CommentBlanker.StrippedIsCommentFree | internal/resolution/synth_fnptr.go:191-270 | no comment is left, unterminated ones and literals included |
| CommentBlanker.NothingToStrip | internal/resolution/synth_fnptr.go:191-270 | a text without comments is not touched |
| CommentBlanker.StrippingTwiceIsStrippingOnce | internal/resolution/synth_fnptr.go:191-270 | blanking is idempotent |
| LruCache.Cache.Get | internal/resolution/synthesize.go:171-178 | a hit exactly for the keys last touched, with the value last put |
| LruCache.Cache.Put | internal/resolution/synthesize.go:180-194 | the cache is the front of a list that forgets nothing, the map leads each key to its own element of the list and to no other, and the size stays within the maximum |
| LruCache.TouchBeyondFront | internal/resolution/synthesize.go:186-193 | what falls out of a full cache is its least recently touched entry |

## Left out

- Tree-sitter and regular-expression extraction, route and bridge detection, import path lookups, configuration, MCP output and the Pi adapter: they are grammars, regular expressions and file probing.
- SQL text, FTS, pragmas, WAL, sockets, `/proc` parsing and the clock: tables are maps, `/proc` entries are the facts of an incarnation, transactions commit or change nothing.
- ripgrep's globset itself: its documented grammar and meaning are one end of the translation, as the grammar of `filepath.Match` and the search of its implementation are the other. Nested alternates and a `**` inside a rule's translation have no meaning in the model; the translation emits neither.
- Strings are sequences of characters; invalid UTF-8, a star of the library that stops inside a character's encoding, and 64-bit overflow of row ids are not modelled.
- RuleAgreement.ExcludeGlobs: for path rules it goes one way only, from no class losing U+FFFD and no slipping chunk to agreement. A path rule that has either still agrees when no relative path can show it, which depends on where its slashes force a doubled or leading separator; both halves are proved for bare rules, and for the library's search over all names.
- The `kill(2)` fallbacks (lock.go:288-318, recovery.go:303-330): they keep a window the code admits, so where no pidfd can be opened the model stops with `Unsupported`.
- `ClearStaleLock` and mutual exclusion by pidfile.
- The lookup of a reference's source symbol by name and line (`nodeIdx`, index_writer.go:521-535) and of a bridge's enclosing function: the source index is given with each request. So are what GetNodeByName found for an import and which unknown names are worth parking.
- EdgeWriter.ResolveQueue: asks that no ref of the queue has the kind `imports`, because a pass that wrote import edges would read its own writes. Extractors file references of other kinds only (extractor_core.go:146, sfc.go:337-369, index_writer.go:414-423), and parking keeps to five kinds (query_refs.go:72-218); the file system that resolving an import path probes is part of the decision function.
- The single insert of an unresolved ref (query_refs.go:12-36): its upsert is the one modelled for batches and for parking, and nothing but tests calls it.
- Failures of single autocommit writes other than a constraint: `UpsertEdge` and `DeleteUnresolvedRef` in the per-ref fallback are taken to fail by foreign keys only.
- Goroutines of server.go, nonblock.go and orchestrator.go are steps of transition systems; for server.go the critical sections are also given as methods. Liveness is not claimed, except where a wait is shown never to end.
- The inline path of runIndexJobs for a single worker is not modelled apart from the pool.
- Synthesis passes other than the cache and the comment blanker are not modelled; that each edge they write carries its source's file is read off synth_fnptr.go:134-147, synth_goframe.go:100-112 and synthesize.go:555-900 and enters `StoreRuns` as the way drafts are made.
