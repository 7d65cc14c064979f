# Verified model of the yayamlls language server

yayamlls is a YAML language server: it keeps open documents, resolves a JSON Schema for each,
publishes diagnostics, renders Flux documents against a source tree, and offers completions and
quick fixes. This project models its stateful protocols and its text algorithms in Dafny and proves
what they promise. `dafny verify dfyconfig.toml` checks all of it.

## What is modelled

Functions that a method is tied to are in turn described by laws that do not use them: what they do
to single characters, entries and steps, or an equivalent said another way. Those laws are in the
`_laws` and `_history` files and in sections headed "what ... do".

**Two-level render cache** (`render_pipeline.dfy`, `flate_tree.dfy`, `render_freshness.dfy`,
`render_roots.dfy`, `render_progress.dfy`, `watched_files.dfy`). The pipeline and the tree renderer
are classes whose methods are single critical sections; each is tied to a function on the state. A
run interleaves those functions in any order: scheduling, timers firing, deadlines passing, the root
and the generation read before a build, the two ends of a build, commits, invalidations and
reconfigurations. The main results are that nothing cut from a tree begun before a watched-file
event survives that event, that nothing cut from another root survives a reload, an exact rule for
when a finished render commits, that no render gets stuck, and what the watched-files handler leaves
behind.

**Schema store** (`schema_store.dfy`, `schema_store_runs.dfy`, `schema_store_serving.dfy`). Compiles
are shared per key, and a trust generation keeps a compile begun under an old trust set out of the
caches. A run interleaves `Get`, the two separate sections of `SetTrustRoot`, every file load of
every compile, and the wake-up of waiters.

**Publish and close** (`publish_server.dfy`, `publish_protocol.dfy`, `publish_versions.dfy`,
`publish_history.dfy`). Handlers run one at a time and `didClose` is a sequence of stages; publish
goroutines, render notifications, show commands and timer callbacks run in between, also between a
section's open check and its write. Getting a document to publish is a step of its own, so a run
knows which version each publish carries.

**Schema URL templates** (`k8s_template.dfy`, `k8s_template_tree.dfy`, `k8s_template_proofs.dfy`,
`k8s_template_meaning.dfy`, `k8s_template_laws.dfy`). Scanning loops, parser, resolver (also as it
rewrites a linked tree in place) and evaluator. The parser undoes a printer for every escaping, its
results are exactly the well-formed trees, and the documented expansions hold as equations between
templates. What any text at all expands to follows from its first character, the balanced expression
it starts with, and that expression's operand, separator and word.

**Text positions, document edits, suppression directives, quick fix** (`strings.dfy`,
`text_positions.dfy`, `cursor.dfy`, `text_laws.dfy`, `document_store.dfy`, `suppressions.dfy`,
`suppression_rules.dfy`, `block_scalar_laws.dfy`, `scanner_laws.dfy`, `quick_fix.dfy`,
`fix_proofs.dfy`, `fix_works.dfy`, `fix_rest.dfy`, `fix_exact.dfy`, `fix_failures.dfy`). Columns are
UTF-16 code units as in the Position section of the Language Server Protocol 3.16 specification
(section 2.1 of RFC 2781), offsets are bytes of UTF-8 (section 3 of RFC 3629). The main results:
which lines of any text its directives suppress, told by its characters alone; and, across all
layers, that the quick fix measures a column, the document store edits bytes there, and the scanner
reads the directive back, proved exactly for which lines that works.

**Tree and pattern algorithms** (`merge_search.dfy`, `merge_proofs.dfy`, `merge_laws.dfy`,
`json_pointer.dfy`, `pointer_laws.dfy`, `rfc_pointer.dfy`, `indent_walker.dfy`, `indent_laws.dfy`,
`indent_layouts.dfy`, `indent_proofs.dfy`, `glob.dfy`, `schema_choice.dfy`, `choice_laws.dfy`,
`merge_directives.dfy`). The merge-key search over possibly cyclic graphs, JSON Pointers and how far
they are those of RFC 6901, the indentation stack machine, glob matching, the choice among matching
globs, and the strategic-merge projection. `options.dfy` holds the optional values that all parts
share.

## Where the code and its documentation differ

- JSON Pointers are looked up as sections 3 and 4 of RFC 6901 say, in every document, exactly when
  they have the RFC's syntax, are not the single slash, and spell no token that is read as an index
  with a sign or a leading zero (`RfcPointer.LookupIsRfc`). Here the single slash is the root and not
  the empty key of the root (`JsonPointer.SlashIsTheRoot`), a pointer may lack its leading slash, a
  tilde may stand for itself, and sequence indices are read leniently (`RfcPointer.IndexSpelling`
  says which spellings that adds).
- `SetTrustRoot` with the set already in force clears nothing. A `Get` right after it compiles anew
  only if nothing serves its key (`SchemaStoreRuns.UnchangedTrustKeepsCompiles`), and a later one
  yields an old compile exactly until the set changes or the key's failure expires
  (`SchemaStoreServing.OldCompileServesUntil`). `SchemaStoreRuns.SameRootKeepsOldSchema` is a run in
  which it yields the schema compiled before.
- A changed file counts only if it lies in the build root in force. When a root is left and taken up
  again, changes made to it in between are missed (`RenderRoots.StaleAfterRootReturns`).
- Publishes are ordered by sequence number. Document versions go out in order too, unless the later
  publish took its document before a change that the earlier one saw
  (`PublishVersions.VersionOrderRule`); `PublishVersions.OlderVersionCanGoOutLast` is a run in which
  that happens.
- The quick fix does not do its work inside an open block scalar or, as a trailing directive, behind
  an unclosed quote; on an empty line of a block scalar that is no deeper than the scalar's parent,
  it does if and only if the rest of the scalar, which is read from then on, is harmless
  (`FixExact.QuickFixExact`, `FixRest.RestIsHarmless`). `FixFailures.FixSuppressesTooMuch` and
  `FixFailures.FixEndsScalar` are texts of two and three lines of which the fix suppresses the whole
  file.
- The indentation walker does not see a key that is more than one space behind its dash, or one that
  holds a blank; it cuts a key at its first colon and takes a quoted key with its quotes.
  `IndentProofs.WalkerRecoversPath` is exact about this, and `IndentProofs.KeysAreMissed` has an
  input for each.

## Model

| member | source | states |
|---|---|---|
| RenderPipeline.Pipeline.constructor | internal/render/pipeline.go:61-70 | a new pipeline has nothing pending or cached and epoch zero |
| RenderPipeline.HitIsSameText | internal/render/pipeline.go:92-102 | a cached result answers for a text iff the render behind it was of that text |
| RenderPipeline.SupersedeLaw | internal/render/pipeline.go:169-181 | superseding stops the timer if it has not fired, cancels the context if its deadline has not passed, drops the entry, and touches no other document |
| RenderPipeline.ScheduleLaw | internal/render/pipeline.go:84-130 | with its text rendered a wanted document has nothing pending and no new render, otherwise one new armed render of exactly this text |
| RenderPipeline.CancelLaw | internal/render/pipeline.go:160-167 | no pending render and no cached result of the document remain, those of others do |
| RenderPipeline.InvalidateAllLaw | internal/render/pipeline.go:153-158 | nothing is cached, the epoch is one higher, pending renders stay |
| RenderPipeline.CommitLaw | internal/render/pipeline.go:111-127 | a render that is still the pending one of this epoch stops being pending and is cached unless its context ended it; any other changes nothing |
| RenderPipeline.Pipeline.CancelPendingLocked | internal/render/pipeline.go:169-181 | the document's pending render is stopped, its context cancelled, its entry gone; nothing else changes |
| RenderPipeline.Pipeline.Schedule | internal/render/pipeline.go:84-130 | supersedes, then answers from the cache iff the cached render was of this very text, else arms one new render of it under the current epoch |
| RenderPipeline.Pipeline.Commit | internal/render/pipeline.go:111-127 | takes effect iff the render is still the pending one of the current epoch, and then caches unless its context ended it |
| RenderPipeline.Pipeline.Latest | internal/render/pipeline.go:136-144 | an output is returned iff it is cached without an error and its render was of this very text |
| RenderPipeline.Pipeline.InvalidateAll | internal/render/pipeline.go:153-158 | the cache is emptied and the epoch raised, pending renders stay |
| RenderPipeline.Pipeline.Cancel | internal/render/pipeline.go:160-167 | pending render and cached result of the document are both dropped |
| FlateTree.Renderer.constructor | internal/render/flate/flate.go:53 | a new renderer has no tree, generation zero and fingerprints trees itself |
| FlateTree.BelowRootCounts | internal/render/flate/flate.go:92-108 | a change of the root or of any path that continues it raises the generation by one |
| FlateTree.ElsewhereDoesNot | internal/render/flate/flate.go:92-108 | a path that is shorter than the root or differs from it at some component changes nothing |
| FlateTree.UnknownPlaceCounts | internal/render/flate/flate.go:92-108 | a change of unknown place raises the generation |
| FlateTree.EnterLaw | internal/render/flate/flate.go:226-242 | the cached tree serves exactly its own root, fingerprint and generation, with its own error or else the document's; otherwise a build begins unless the context is over |
| FlateTree.LeaveLaw | internal/render/flate/flate.go:242-262 | a superseded build leaves the cache as it was, a timed-out one only its error, a finished one its tree and error; only a finished one serves the document |
| FlateTree.Renderer.SetRoot | internal/render/flate/flate.go:60-81 | only the build root changes, whether by configuration or by the workspace |
| FlateTree.Renderer.SetFileWatchActive | internal/render/flate/flate.go:85-87 | only the switch to event-driven invalidation changes |
| FlateTree.Renderer.InvalidateTree | internal/render/flate/flate.go:92-108 | the generation rises iff the path is unknown or goes on from the components of a known build root |
| FlateTree.Renderer.Enter | internal/render/flate/flate.go:232-242 | cached tree under the same root, fingerprint and generation, or an expired waiter's error, or a build with the lock held |
| FlateTree.Renderer.Leave | internal/render/flate/flate.go:242-258 | an interrupted build is not cached, a timed-out one only as its error, a finished one under the key read before it began |
| RenderFreshness.RunGrows | internal/render/pipeline.go:84-167 | along any run the generation and epoch never fall, and an armed render keeps its document, text and epoch |
| RenderFreshness.ScheduleStep | internal/render/pipeline.go:84-130 | in every run, scheduling answers from the cache iff the very text was rendered, else a render of that text is armed under the current epoch |
| RenderFreshness.CancelStep | internal/render/pipeline.go:160-167 | in every run, a cancelled document has neither a pending nor a cached render |
| RenderFreshness.SupersededStaysEnded | internal/render/pipeline.go:169-181 | a superseded or cancelled render is cancelled for good, and a timer that had not fired never fires |
| RenderFreshness.LeaveStep | internal/render/flate/flate.go:242-258 | in every run, what a build that ends leaves cached, by how its context stands |
| RenderProgress.OneBuildAtATime | internal/render/flate/flate.go:226-258 | in every reachable state at most one tree is being built, by the render that holds its section |
| RenderProgress.NoRenderIsStuck | internal/render/pipeline.go:104-130 | in every reachable state, a render that is not over can take a step, or waits for a tree whose builder can leave |
| RenderProgress.AtMostSevenSteps | internal/render/pipeline.go:104-130 | in every run, a render ends after at most seven steps of its own |
| RenderProgress.CallsNeverWait | internal/render/pipeline.go:84-167 | scheduling, cancelling, invalidating and reconfiguring wait for no render |
| RenderFreshness.InvHolds | internal/render/flate/flate.go:219-258 | invariant of every reachable state: each render carries a generation read since it was armed, each cached tree a key no newer than its build |
| RenderFreshness.CachedRendersAreFresh | internal/render/pipeline.go:146-158 | after an event inside the root and then InvalidateAll, with files watched, every cached output is cut from a tree whose build began after the event |
| RenderFreshness.ChangedFilesAreFresh | internal/render/flate/flate.go:92-108 | the same for an event whose path is the build root in force followed by any components |
| RenderFreshness.CommittedRendersAreFresh | internal/render/pipeline.go:111-127 | the same for every later commit that takes effect, cached or not |
| RenderFreshness.CommitRule | internal/render/pipeline.go:95-126 | a finished render commits iff no found Schedule or Cancel of its document and no InvalidateAll ran since it was armed |
| RenderFreshness.CommitCaches | internal/render/pipeline.go:95-126 | after its commit a render is its document's cached one, under its own text, iff nothing of that kind ran and its context did not end it |
| RenderFreshness.CacheIsSound | internal/render/pipeline.go:120-123 | every cache entry is of the current epoch, carries the hash of the text its own render had, and is no context error |
| RenderFreshness.ReloadConfig | internal/lsp/server.go:289-341 | run uninterrupted, a reload puts the new roots in force, then forgets all renders if the configuration differs, then schedules the open documents |
| RenderFreshness.DidChangeWatchedFiles | internal/lsp/handlers.go:264-314 | run uninterrupted, the handler bumps every generation, then reloads a changed configuration that can be read, then forgets all renders and schedules the open documents if anything else changed |
| RenderFreshness.WatchedFilesAreFresh | internal/lsp/handlers.go:291-312 | those steps taken anywhere in a run leave no lookup with a tree begun before any reported change inside the root in force at that change |
| WatchedFiles.DocumentsAwait | internal/lsp/handlers.go:309-311 | with nothing cached, after scheduling every open document with a renderer has a new render of its text pending |
| WatchedFiles.TreesAge | internal/lsp/handlers.go:291-301 | the generation rises iff a changed file counts, and nothing else changes |
| WatchedFiles.ReloadLaw | internal/lsp/server.go:303-341 | after a reload the renderer's root is the new one, and if the configuration differs nothing is cached and the open documents have new renders pending |
| WatchedFiles.HandlerLaw | internal/lsp/handlers.go:287-314 | after the handler: which root, whether the generation rose, and, if any file but the configuration changed, an empty cache, a higher epoch and new renders of the open documents |
| RenderRoots.CachedRendersUseNewRoot | internal/render/flate/flate.go:123-137 | once a root was put in force and the pipeline cleared after it, every cached output is cut from that root until the next reconfiguration |
| RenderRoots.ReloadedRendersUseNewRoot | internal/lsp/server.go:303-341 | so it is after the steps of a reload whose configuration differs, taken anywhere in a run |
| RenderRoots.StaleAfterRootReturns | internal/render/flate/flate.go:92-108 | for any two roots and a path below the first alone, a run from the start that leaves the first root, misses the change of the path, and serves the old tree when the root is back |
| SchemaStore.SecureFileLoader.SetRoot | internal/schema/secure.go:151-161 | afterwards the set asked for is enforced, whatever was before; a change is reported iff enforcement, root or trusted paths differed |
| SchemaStore.SetRootLaw | internal/schema/secure.go:151-161 | the set asked for is in force, and the change counts iff enforcement, root or trusted paths differed |
| SchemaStore.Store.SetTrustRoot | internal/schema/store.go:69-79 | afterwards the loader enforces the set asked for; generation and caches are cleared iff it differed from the set before |
| SchemaStore.Store.Clear | internal/schema/store.go:73-78 | the generation rises and compiled, failed and in-flight entries all go |
| SchemaStore.Store.Cached | internal/schema/store.go:84-93 | the compiled schema of the key and nothing else |
| SchemaStore.Store.Enter | internal/schema/store.go:100-120 | compiled schema, else young failure, else the compile in flight, else a new compile under the current generation |
| SchemaStore.Store.Finish | internal/schema/store.go:130-149 | the owner's answer; caches and the in-flight entry change only for a compile of the current generation |
| SchemaStoreRuns.InvHolds | internal/schema/store.go:95-149 | invariant of every reachable state: coalescing, ownership of calls and getters, and what current compiles loaded |
| SchemaStoreRuns.SetRootStep | internal/schema/store.go:69-73 | in every run, the first section of a change puts the set in force and owes a clear iff it differed |
| SchemaStoreRuns.ClearStep | internal/schema/store.go:73-78 | in every run, the second forgets every compiled schema, failure and compile in flight |
| SchemaStoreRuns.GetStep | internal/schema/store.go:95-120 | in every run, which of the four ways a Get begins, and that it changes nothing else |
| SchemaStoreRuns.FinishStep | internal/schema/store.go:130-149 | in every run, what a finished compile leaves in the caches, by its answer and generation |
| SchemaStoreRuns.LoadStep | internal/schema/secure.go:163-182 | in every run, a file load sees the trust set in force at that moment |
| SchemaStoreRuns.CachesSawCurrentTrust | internal/schema/store.go:66-79 | with no change halfway, every cached schema and failure comes from a compile of its key all of whose loads saw the trust set in force |
| SchemaStoreRuns.GetAfterTrustChangeIsFresh | internal/schema/store.go:95-149 | a Get begun after a change returned never yields a compile begun before it |
| SchemaStoreRuns.GetStartsOwnCompile | internal/schema/store.go:95-120 | a Get yields a compile begun at that moment iff no compiled schema, young failure or compile in flight serves it, else an earlier one |
| SchemaStoreRuns.UnchangedTrustKeepsCompiles | internal/schema/store.go:70-72 | the exception: right after setting the same trust set, a Get yields a compile begun since iff its key is neither compiled, nor a young failure, nor in flight |
| SchemaStoreServing.OldCompileServesUntil | internal/schema/store.go:69-149 | a Get at any later step yields a compile from before iff its key was served then, the trust set has not changed since, and no Get of the key found nothing but an expired failure |
| SchemaStoreRuns.SameRootKeepsOldSchema | internal/schema/store.go:69-93 | for any root and key, a run from the start in which the Get after setting the same root again yields the schema compiled before |
| SchemaStoreRuns.OneCompilePerKey | internal/schema/store.go:109-119 | in-flight entries are exactly the running compiles of the current generation, one to a key, and never for a compiled key |
| SchemaStoreRuns.DoneClosesOnce | internal/schema/store.go:147 | a done channel is open with one owner or closed once |
| SchemaStoreRuns.WaitersGetOwnersAnswer | internal/schema/store.go:112-116 | a waiting Get returns what the owner of the call returns |
| SchemaStoreRuns.EveryGetCanReturn | internal/schema/store.go:109-149 | in every reachable state, the owner of a compile can finish it, and whoever waits for it can wake or wait for that owner |
| SchemaStoreRuns.CallsNeverWait | internal/schema/store.go:69-107 | a Get or a change can begin at any time, and a change that owes a clear can go on |
| SchemaStoreRuns.EntriesStay | internal/schema/store.go:132-146 | until the trust set next changes, no finished compile, stale or not, replaces a compiled schema or the entry of a running compile |
| PublishServer.TeardownCloses | internal/lsp/handlers.go:57-68 | the stages of didClose in their order add up to dropping everything the document has and sending one empty clear |
| PublishServer.Server.SchedulePublish | internal/lsp/server.go:518-532 | an open document gets the next sequence number and one publish job that carries the document it was called with, a closed one nothing |
| PublishServer.Server.Deliver | internal/lsp/server.go:542-552 | the job sends its publish iff its sequence number is still the document's |
| PublishServer.Server.Notify | internal/lsp/server.go:456-486 | for an open document: gets it, stores the result, keeps the first output as baseline, hands out a waiting show command, schedules a publish of the document it got |
| PublishServer.Server.SetPendingShow | internal/lsp/showdocument.go:22-28 | recorded only for an open document |
| PublishServer.Server.TakePendingShow | internal/lsp/showdocument.go:30-38 | returns and removes the entry |
| PublishServer.Server.DebouncePublish | internal/lsp/server.go:572-592 | the old timer is stopped and the new one becomes the entry |
| PublishServer.Server.TimerCallback | internal/lsp/server.go:578-585 | goes on, and removes the entry, iff the entry is this timer |
| PublishServer.Server.CancelDebounceOf | internal/lsp/server.go:596-603 | timer stopped and entry removed |
| PublishServer.Server.ForgetPublishOf | internal/lsp/server.go:607-611 | the sequence entry goes, the counter stays |
| PublishServer.Server.ClearRenderState | internal/lsp/server.go:639-645 | diagnostics, output and baseline of the document all go |
| PublishServer.Server.DidClose | internal/lsp/handlers.go:57-68 | the whole new state after a close that nothing interrupts |
| PublishProtocol.NoStateOutlivesDocument | internal/lsp/server.go:465-479 | in every reachable state, whatever holds an entry in any of the six maps is open, or its didClose is in progress |
| PublishProtocol.PublishesIncrease | internal/lsp/server.go:518-554 | per document, publishes go out in strictly increasing sequence over closes and reopens |
| PublishProtocol.ClearedUntilReopened | internal/lsp/handlers.go:57-68 | after the empty clear, no publish of the document before it is opened again |
| PublishProtocol.OnlyDeliveriesPublish | internal/lsp/server.go:536-553 | messages are only appended, by deliveries that pass the guard and by the clear of a close |
| PublishProtocol.CallbackRemovesOnlyItself | internal/lsp/server.go:580-584 | a fired timer never removes another timer's entry |
| PublishProtocol.DebounceRule | internal/lsp/server.go:568-592 | a timer's callback goes on to publish iff no later change re-armed and no close cancelled the document's timer |
| PublishProtocol.BaselineStays | internal/lsp/server.go:475-477 | over any run, the first rendered output stays the baseline until a close clears it |
| PublishHistory.OpenAtVersion | internal/lsp/handlers.go:27-55 | an open document has the version it was last opened or changed to |
| PublishHistory.ClosedStaysClosed | internal/lsp/handlers.go:57-68 | a closed document is not open until it is opened again |
| PublishHistory.ChecksClaim | internal/lsp/server.go:465-479 | the open check of each section leaves its claim for the write exactly for an open document |
| PublishHistory.DiagnosticsOfLastRender | internal/lsp/server.go:465-474 | a document's rendered diagnostics are those of its last notification, until a close |
| PublishHistory.OutputOfLastRender | internal/lsp/server.go:465-479 | its output is that of the last notification that had one, until a close |
| PublishHistory.ShowWaits | internal/lsp/showdocument.go:22-38 | a recorded show command waits until it is replaced, taken or its document closed |
| PublishHistory.ShowIsTaken | internal/lsp/showdocument.go:30-38 | taken, it is gone |
| PublishHistory.DeliveryRule | internal/lsp/server.go:518-554 | a scheduled publish goes out, with the version fetched for it, iff its document was neither scheduled again nor closed before its delivery |
| PublishHistory.ReplacedTimerNeverFires | internal/lsp/server.go:572-603 | a timer that had not fired when its document changed again or was closed never fires |
| PublishHistory.ChangeArms | internal/lsp/server.go:572-592 | a change leaves its document one armed timer, the newest |
| PublishHistory.CloseWaitsFor | internal/lsp/handlers.go:57-68 | each stage of a close waits for one lock at most |
| PublishHistory.CloseCanRun | internal/lsp/handlers.go:57-68 | any run that ends idle can go on with a whole close: everything of the document is gone, everything of others is as it was, one empty publish is out |
| PublishHistory.ShowCanRun | internal/lsp/showdocument.go:22-28 | any run can go on with a show command for an open document, which is recorded |
| PublishVersions.PublishWasFetched | internal/lsp/server.go:457-542 | behind every publish there is a step that got its document |
| PublishVersions.PublishCarriesFetched | internal/lsp/server.go:457-542 | every publish carries the version its document had when it was fetched for it |
| PublishVersions.VersionOrderRule | internal/lsp/server.go:457-554 | with versions growing, two publishes of a document go out against version order iff the one sent later was fetched first and a change came between the two fetches |
| PublishVersions.OlderVersionCanGoOutLast | internal/lsp/server.go:457-485 | for any document, a run from the start of real fetches in which version 1 goes out after version 2 |
| K8sTemplate.MatchBraces | internal/schema/k8s.go:283-301 | the loop finds the brace that closes the first one, escapes aside |
| K8sTemplate.FindExpression | internal/schema/k8s.go:371-398 | the loop finds the first separator outside escapes and nested expressions |
| K8sTemplate.UnescapeWord | internal/schema/k8s.go:400-416 | the loop and its shortcut both drop each backslash and keep the character after it |
| K8sTemplate.RenderNodes | internal/schema/k8s.go:303-312 | the output is the nodes' outputs in order |
| K8sTemplate.K8sVars | internal/schema/k8s.go:155-162 | the variables are exactly the known names, for every group, version and kind |
| K8sTemplate.VarsMeanWhatTheySay | internal/schema/k8s.go:134-154 | the value of each: groupFirst is the group up to its first dot, the segment forms carry their separator only when not empty |
| K8sTemplateTree.BuildBody | internal/schema/k8s.go:243-260 | parsing allocates a new tree without sharing whose value is the parsed expression |
| K8sTemplateTree.BuildTerm | internal/schema/k8s.go:262-271 | the same for an operand or word, nested or not |
| K8sTemplateTree.ParseTemplate | internal/schema/k8s.go:203-241 | the loop yields text nodes and roots of new trees that share nothing, whose values are the parsed template, or the first error |
| K8sTemplateTree.ResolveBodyInPlace | internal/schema/k8s.go:164-183 | rewriting the tree in place gives the resolved expression, or the first error and still a tree |
| K8sTemplateTree.ResolveTermInPlace | internal/schema/k8s.go:185-201 | the same for a term, touching no node outside its own nested tree |
| K8sTemplateTree.ResolveTemplate | internal/schema/k8s.go:49-55 | the loop rewrites the trees of all expressions into the resolved template, or stops at the first error |
| K8sTemplateTree.ParseAndResolve | internal/schema/k8s.go:41-57 | the whole parser as it allocates and rewrites trees yields exactly the template, or exactly the error, of the parser on values |
| K8sTemplateProofs.MatchStopsAtPrintedEnd | internal/schema/k8s.go:283-301 | started at a printed expression, brace matching stops exactly at its end |
| K8sTemplateProofs.FindStopsAtPrintedSeparator | internal/schema/k8s.go:371-398 | on a printed expression, the search stops at that expression's own separator |
| K8sTemplateProofs.UnescapeUndoesEscape | internal/schema/k8s.go:400-416 | unescaping undoes escaping of any text |
| K8sTemplateProofs.ResolveUndoesQuoteBody | internal/schema/k8s.go:164-201 | resolving what parsing leaves gives the tree that was printed |
| K8sTemplateProofs.ParsePrintedInner | internal/schema/k8s.go:243-271 | parsing a printed expression of any nesting gives it back, words still escaped |
| K8sTemplateProofs.ParserUndoesPrinter | internal/schema/k8s.go:41-57 | every non-empty well-formed template, printed with any choice of escapes, parses and resolves to itself |
| K8sTemplateMeaning.ParserImage | internal/schema/k8s.go:41-57 | the results of parsing are exactly the well-formed templates |
| K8sTemplateMeaning.EvaluationIsTotal | internal/schema/k8s.go:314-348 | once a template parsed, every operand at any depth is a defined variable and every operator pinned |
| K8sTemplateMeaning.VariableLaw | internal/schema/k8s.go:20-27 | {name} is the variable's value |
| K8sTemplateMeaning.LiteralLaw | internal/schema/k8s.go:39-40 | escaped text stands for itself |
| K8sTemplateMeaning.OperandLaw | internal/schema/k8s.go:36-37 | a nested expression in braces is that expression |
| K8sTemplateMeaning.DefaultLaw | internal/schema/k8s.go:31 | {o:-w} is w if o is empty, else o, for operands and words of any nesting |
| K8sTemplateMeaning.AltLaw | internal/schema/k8s.go:32 | {o:+w} is w if o is not empty, else nothing |
| K8sTemplateMeaning.CaseLaw | internal/schema/k8s.go:33-34 | {o@U} and {o@L} are o in upper and lower case |
| K8sTemplateMeaning.LegacyLowerNames | internal/schema/k8s.go:24-25 | kindLower and versionLower are {kind@L} and {version@L} |
| K8sTemplateMeaning.LegacySegments | internal/schema/k8s.go:26-27 | groupSeg and groupFirstSeg are their documented expansions |
| K8sTemplateMeaning.AliasesRenderAlike | internal/schema/k8s.go:314-348 | replacing the legacy lower-case names anywhere in an expression never changes its output |
| K8sTemplateMeaning.AliasTemplatesExpandAlike | internal/schema/k8s.go:62-70 | the same for whole templates as texts: the rewritten one parses and expands alike |
| K8sTemplateMeaning.DefaultTemplate | internal/schema/k8s.go:8-9 | the default template parses and renders the documented URL, core for the empty group |
| K8sTemplateLaws.BracesExactly | internal/schema/k8s.go:283-301 | an opening brace is closed exactly by the brace that has a balanced text before it |
| K8sTemplateLaws.EmptyLaw | internal/schema/k8s.go:203-214 | nothing, or a lone backslash, expands to nothing |
| K8sTemplateLaws.CharacterLaw | internal/schema/k8s.go:206-241 | a text character, or any character behind a backslash, stands for itself in front of what the rest expands to |
| K8sTemplateLaws.ExpressionLaw | internal/schema/k8s.go:215-230 | an expression in braces and the text behind it expand each on its own |
| K8sTemplateLaws.StrayBraceLaw | internal/schema/k8s.go:231-232 | a closing brace in text is an error |
| K8sTemplateLaws.UnterminatedLaw | internal/schema/k8s.go:220-223 | so is an opening one that no balanced text and closing brace follow |
| K8sTemplateLaws.EveryBodyReads | internal/schema/k8s.go:371-398 | every balanced text is one term, or a term, a separator and a word |
| K8sTemplateLaws.BareLaw | internal/schema/k8s.go:243-250 | an expression without separator is its operand: another expression, one of eight names, or an error |
| K8sTemplateLaws.BareHasNoWord | internal/schema/k8s.go:243-250 | such an expression has the empty word and no operator |
| K8sTemplateLaws.DefaultIs | internal/schema/k8s.go:318-322 | any operand text with `:-` and any word text: the word where the operand is empty, else the operand |
| K8sTemplateLaws.AltIs | internal/schema/k8s.go:323-327 | the same with `:+`: the word where the operand is not empty, else nothing |
| K8sTemplateLaws.CaseIs | internal/schema/k8s.go:328-334 | with `@` and U or L the operand in that case, and an error with any other word |
| K8sTemplateLaws.UnescapeLaw | internal/schema/k8s.go:400-416 | words lose their backslashes, character by character |
| K8sTemplateLaws.ExpressionErrors | internal/schema/k8s.go:164-201 | which error: an unknown name, an operator that is neither U nor L, text behind a nested expression |
| K8sTemplateLaws.ErrorBehind | internal/schema/k8s.go:203-241 | the first parse error counts, whatever can be read before it |
| K8sTemplateLaws.RenderLaw | internal/schema/k8s.go:59-90 | plain identifiers render the expansion, anything else nothing |
| K8sTemplateLaws.DefaultSpec | internal/schema/k8s.go:8-9 | an empty spec is the documented default |
| TextPositions.LinesConcat | internal/diagnostics/suppress.go:59 | splitting a concatenation is splitting the parts and gluing the middle line |
| TextPositions.PointInText | internal/yamlast/cursor.go:227-253 | every position names a place in the text |
| TextLaws.LinesAreParts | internal/yamlast/locate.go:370-393 | the lines hold no line feed, and joined with line feeds are the text |
| TextLaws.OnlyTheseLines | internal/yamlast/locate.go:370-393 | they are the only such lines |
| TextLaws.CRIsTrimmed | internal/diagnostics/suppress.go:61 | one carriage return at the end goes |
| TextLaws.BlanksAre | internal/actions/actions.go:82-85 | how many blanks a line starts with, by the line |
| TextLaws.SpaceChars | internal/diagnostics/suppress.go:65 | white space is that of ASCII, Latin-1 and the Unicode property, listed |
| TextLaws.UnitsAdd | internal/yamlast/locate.go:354-361 | a character beyond the first 65536 counts two units, any other one |
| TextLaws.ColumnIs | internal/yamlast/locate.go:332-352 | the units before a rune column, one for each rune missing |
| TextLaws.PositionIs | internal/yamlast/locate.go:322-330 | line and column of a position, a line before the first being the first |
| TextLaws.EncodingIsUtf8 | internal/yamlast/cursor.go:227-253 | offsets count the bytes of UTF-8: length by code point, top bits first, six bits a continuation byte |
| TextLaws.BytesAdd | internal/yamlast/cursor.go:227-253 | a text's bytes are those of its characters in order |
| TextLaws.OrderIs | internal/schema/resolver.go:142 | strings are ordered by prefix or the first code point that differs |
| Cursor.OffsetAt | internal/yamlast/cursor.go:229-253 | the loop returns the byte offset of the place in the named line, clamped before its terminator, or the text's end |
| Cursor.LineText | internal/yamlast/locate.go:370-393 | the loop returns the line of the split text, or that there is none |
| Cursor.UTF16Len | internal/yamlast/locate.go:354-361 | the number of UTF-16 units |
| Cursor.UTF16Column | internal/yamlast/locate.go:332-352 | the units before a 1-based rune column, one per rune missing |
| Cursor.UTF16Position | internal/yamlast/locate.go:322-330 | the position of a 1-based line and rune column |
| Cursor.LineUpToUTF16 | internal/yamlast/cursor.go:273-284 | the shortest prefix that reaches the column, or the whole line |
| Cursor.LinePrefix | internal/yamlast/cursor.go:263-271 | that prefix of the named line, empty when there is none |
| Cursor.PointOnLine | internal/yamlast/cursor.go:227-253 | a position's place is on its own line, before the terminator, the first one at or past the column |
| Cursor.NeverSplitsCRLF | internal/yamlast/cursor.go:236-241 | no position falls between a CR and its LF |
| Cursor.OffsetsAreMonotone | internal/yamlast/cursor.go:229-253 | a later position never has an earlier offset |
| Cursor.PositionRoundTrip | internal/yamlast/locate.go:322-352 | the position of a rune column up to the terminator leads back to that rune |
| Cursor.LinePrefixEndsAtOffset | internal/yamlast/cursor.go:263-284 | the prefix before the cursor is the text between the line's start and the cursor's offset |
| DocumentStore.ApplyRangeChange | internal/document/store.go:88-95 | replacing bytes between two offsets replaces the characters between two positions, in whichever order they come; no character is cut |
| DocumentStore.NoChange | internal/document/store.go:62-86 | no event leaves the text |
| DocumentStore.WholeChange | internal/document/store.go:69-71 | an event without a range gives its text |
| DocumentStore.RangedChange | internal/document/store.go:72-77 | an event with a range keeps what is before the smaller and behind the larger of its two places, and puts its text in between |
| DocumentStore.FoldedOneByOne | internal/document/store.go:62-86 | a batch yields a text iff its events lead there one after the other |
| DocumentStore.FoldedInParts | internal/document/store.go:62-86 | batches of changes compose, and an unknown event anywhere fails the batch |
| DocumentStore.Store.Open | internal/document/store.go:41-47 | the new document replaces any before it, other documents stay |
| DocumentStore.Store.Close | internal/document/store.go:49-53 | exactly this document goes |
| DocumentStore.Store.Get | internal/document/store.go:55-60 | the open document, or that it is not open |
| DocumentStore.Store.Apply | internal/document/store.go:62-86 | all changes or none: on success the text is one that the changes lead to one after the other, with the new version and the old language |
| Suppressions.AtTokenStartAt | internal/diagnostics/suppress.go:119-136 | the loop over blanks decides whether a token can start here |
| Suppressions.CommentStart | internal/diagnostics/suppress.go:97-115 | the loop with its quote state returns where the comment opens, or -1 |
| Suppressions.BlockScalarParentIndent | internal/diagnostics/suppress.go:138-165 | the loop over dashes returns the indent below which a block scalar's lines lie, or -1; BlockScalarLaws says which lines open one |
| Suppressions.HasCodeBeforeComment | internal/diagnostics/suppress.go:173-185 | something other than blanks precedes the first number sign |
| Suppressions.ParseSuppressions | internal/diagnostics/suppress.go:55-92 | a line is suppressed iff the file is, or it is in a disabled stretch, ends in its own directive, or follows one that stands alone |
| SuppressionRules.DisabledStretch | internal/diagnostics/suppress.go:84-87 | a line is blocked iff a disable above it has no enable in between |
| SuppressionRules.FileWideIff | internal/diagnostics/suppress.go:82-83 | the file is suppressed iff some line outside block scalars says so |
| SuppressionRules.InBlockIff | internal/diagnostics/suppress.go:70-77 | a line is skipped iff a line above opened a block scalar and all since are blank or deeper |
| SuppressionRules.PlainComment | internal/diagnostics/suppress.go:94-115 | with no quote at a token start, the comment opens at the first number sign after a blank or at the line's start |
| SuppressionRules.QuotedTextIsSkipped | internal/diagnostics/suppress.go:101-107 | nothing inside single quotes opens a comment |
| BlockScalarLaws.OpensExactly | internal/diagnostics/suppress.go:138-165 | code opens a block scalar iff it is `|` or `>` with indicators in either order, behind nothing, a colon, a dash, or a word that starts with `!` or `&` |
| BlockScalarLaws.HeaderColumn | internal/diagnostics/suppress.go:156-164 | its lines are those deeper than the column behind its leading spaces and list dashes |
| BlockScalarLaws.PlainHeaderColumn | internal/diagnostics/suppress.go:138-165 | without a list dash, deeper than the spaces the line starts with |
| BlockScalarLaws.ScalarHidesLine | internal/diagnostics/suppress.go:64-71 | a blank or deeper line below an opening line could as well be empty: the text suppresses the same |
| ScannerLaws.TokenStarts | internal/diagnostics/suppress.go:117-136 | a token can start after blanks only, a bracket, brace or comma, a colon and blanks, or a dash or question mark of its own and blanks |
| ScannerLaws.CommentExactly | internal/diagnostics/suppress.go:94-115 | a comment opens exactly at the first number sign, at the start or behind a blank, that only whole quoted scalars and other characters precede |
| ScannerLaws.DirectiveIs | internal/diagnostics/suppress.go:81-82 | a line's directive is the first word of its comment |
| ScannerLaws.CodeFirstIs | internal/diagnostics/suppress.go:171-185 | code precedes the comment iff the first character that is no blank is no number sign |
| ScannerLaws.OpensAtIs | internal/diagnostics/suppress.go:138-165 | a line opens a block scalar at a column iff its code, up to its comment, is spaces, list dashes and a text that ends in a header, and that is the column behind the dashes |
| ScannerLaws.InScalarIs | internal/diagnostics/suppress.go:64-71 | a line is skipped iff a line above, not skipped itself, opens a scalar and all since are blank or deeper |
| ScannerLaws.TextIsRead | internal/diagnostics/suppress.go:49-92 | for every text and line: suppressed iff a line outside scalars says so for the file, or one above disables and none since enables, or it says so behind its code, or the line above does without code |
| QuickFix.SuppressAction | internal/actions/actions.go:33-74 | only for the server's own diagnostics: a trailing directive where the line can take one, else a line of its own above |
| ScannerLaws.FixIs | internal/actions/actions.go:33-85 | the literal directive, behind the last unit of a line with visible text and no comment, else on a line above with the same blanks in front |
| ScannerLaws.SourceLineIs | internal/actions/actions.go:38-43 | the line measured is the diagnostic's, without its carriage return |
| QuickFix.TrailingEdit | internal/actions/actions.go:47-58 | the edit lands between the line's code and its terminator, LF or CR LF |
| QuickFix.InsertedEdit | internal/actions/actions.go:59-66 | otherwise the edit is one new line above |
| FixProofs.ScanOfLonger | internal/diagnostics/suppress.go:97-115 | text appended to a line is scanned in the quote state the line ended in |
| FixProofs.BlockIndentIgnoresBlank | internal/diagnostics/suppress.go:142-165 | a blank before the comment never changes which block scalar a line opens |
| FixProofs.TrailingSuppresses | internal/diagnostics/suppress.go:55-92 | a directive at a line's end suppresses that line and no other |
| FixProofs.StandaloneSuppresses | internal/diagnostics/suppress.go:55-92 | a directive on its own line suppresses the line below, the others shifted by one |
| FixWorks.QuickFixWorks | internal/actions/actions.go:33-80 | outside block scalars and open quotes, applying the fix to the text suppresses its line and leaves every other line as it was |
| FixExact.QuickFixExact | internal/actions/actions.go:33-80 | for every line not yet suppressed, exactly when the fix suppresses it and changes no other line: outside block scalars, with closed quotes for a trailing directive, and on an empty line of a block scalar whose rest is harmless |
| FixExact.OwnLineWorksInBlock | internal/actions/actions.go:59-66 | on such an empty line, iff the rest of the scalar is harmless: read as a text of its own it does not suppress the file, and switches off or points at no line that was not suppressed anyway |
| FixExact.PlainRestIsHarmless | internal/actions/actions.go:59-66 | a rest without any disabling directive is harmless |
| FixRest.FreshLine | internal/diagnostics/suppress.go:55-92 | after the inserted line, each line below counts as in the text of the lines below alone |
| FixRest.LineAfter | internal/diagnostics/suppress.go:55-92 | below the scalar, exactly which lines the rest of the scalar now suppresses |
| FixFailures.FixSuppressesTooMuch | internal/actions/actions.go:47-58 | a text with a quoted header and a directive hidden below it, which the fix turns into a wholly suppressed file |
| FixFailures.FixEndsScalar | internal/actions/actions.go:59-66 | a block scalar with an empty line above a hidden directive, which the fix on that line turns into a wholly suppressed file |
| FixWorks.StaleLineAppends | internal/actions/actions.go:38-66 | for a line that is gone, the directive goes to the end of the text |
| MergeSearch.Dereference | internal/yamlast/locate.go:124-144 | the loop follows at most 32 anchors and aliases and never ends on one |
| MergeSearch.Search.Field | internal/yamlast/locate.go:161-197 | the search with its shared set of seen mappings, on any graph |
| MergeProofs.SearchFindsReachable | internal/yamlast/locate.go:161-197 | the key is found iff some mapping reachable through merges defines it, cycles or not, and the hit is such a mapping's entry |
| MergeProofs.RankDrops | internal/yamlast/locate.go:161-197 | from a mapping to which no chain of merges returns, every merge leads to one that reaches strictly less |
| MergeProofs.SearchIsPlain | internal/yamlast/locate.go:161-197 | started where no chain of merges closes on itself: same value, key and alias as the rule "explicit first, then earliest source" without any seen set |
| MergeLaws.DereferenceIs | internal/yamlast/locate.go:118-144 | dereferencing yields a node iff a chain of at most 32 anchors and aliases leads to it, and `via` is the first alias of the chain, also where the chain ends in nothing |
| MergeLaws.ExplicitRule | internal/yamlast/locate.go:168-173 | on any graph the first entry of that name wins |
| MergeLaws.MergeRule | internal/yamlast/locate.go:174-194 | without one, of the sources of all merge keys in order the first that has the key, with the alias that names the source before any met inside |
| MergeLaws.NothingMerged | internal/yamlast/locate.go:174-196 | and nothing if no source has it |
| MergeLaws.MergesAre | internal/yamlast/locate.go:174-184 | which mappings a mapping merges: those that chains from the sources of its merge keys lead to |
| MergeLaws.DefinesIs | internal/yamlast/locate.go:168-173 | which mappings define a key: those with an entry of that name that is no merge key |
| JsonPointer.Pointer | internal/diagnostics/validate.go:354-362 | the loop writes each segment escaped after a slash |
| JsonPointer.EscapesEach | internal/yamlast/fallback.go:98-101 | the two replacements escape each character for itself |
| JsonPointer.UnescapeUndoesEscape | internal/yamlast/locate.go:13-16 | unescaping undoes escaping, for every string |
| JsonPointer.IndexRoundTrip | internal/yamlast/locate.go:243 | a decimal index is read back as that index |
| JsonPointer.Descend | internal/yamlast/locate.go:228-248 | one segment against a node, with a fresh search for mappings |
| JsonPointer.DescendsToItem | internal/yamlast/locate.go:242-245 | in a sequence a decimal segment is that element, or nothing past the end |
| JsonPointer.DescendsToKey | internal/yamlast/locate.go:236-241 | in a mapping a segment is found iff some mapping reachable through merges defines it |
| JsonPointer.Lookup | internal/yamlast/locate.go:199-221 | the loop descends the pointer's segments, or stops at the deepest node that resolves |
| JsonPointer.PointerStandsForSegments | internal/yamlast/locate.go:207-211 | a written pointer is read as its segments, the single empty one excepted |
| JsonPointer.LookupFollowsSegments | internal/yamlast/locate.go:199-221 | looking up a written pointer is descending its raw segments one by one |
| JsonPointer.SlashIsTheRoot | internal/yamlast/locate.go:207-209 | the exception: a single slash is the root |
| JsonPointer.SplitAfter | internal/yamlast/locate.go:210 | a text is cut at its first slash, and without one is a single part |
| PointerLaws.EscapeLaw | internal/yamlast/fallback.go:98-101 | `~` is written `~0`, `/` is written `~1`, any other character as itself |
| PointerLaws.UnescapeLaw | internal/yamlast/locate.go:13-16 | and read back, a tilde before anything else being itself |
| PointerLaws.PointerLaw | internal/diagnostics/validate.go:354-362 | a pointer grows by a slash and the escaped segment |
| PointerLaws.SegmentsLaw | internal/yamlast/locate.go:207-211 | a pointer's segments, first by first; a leading slash changes nothing, nothing and a slash alone have none |
| PointerLaws.IndexLaw | internal/yamlast/locate.go:242-244 | an index is read iff it is decimal digits behind an optional sign, and its value is theirs |
| PointerLaws.StepLaw | internal/yamlast/locate.go:228-248 | where one segment leads from each kind of node, and by which alias |
| PointerLaws.WayLaw | internal/yamlast/locate.go:210-221 | segments are followed from the left, each against where those before it lead, and the first alias is kept |
| RfcPointer.UnescapeIsDecode | internal/yamlast/locate.go:13-16 | the two replacements are the RFC's decoding of a token in one pass |
| RfcPointer.IndexSpelling | internal/yamlast/locate.go:240-242 | what is read as an index is an index of the RFC iff it is that number in decimal, that is, without a sign or leading zero |
| RfcPointer.SignedOrPaddedIsLenient | internal/yamlast/locate.go:240-242 | the spellings read against the RFC include every index with a plus or a zero before it, and minus zero |
| RfcPointer.StepsAgree | internal/yamlast/locate.go:230-245 | one segment leads where the RFC says iff it is not such a spelling of an element of a sequence |
| RfcPointer.LookupInDocument | internal/yamlast/locate.go:201-220 | in a given document, exactly when a pointer of the RFC's syntax is looked up as the RFC says |
| RfcPointer.LookupIsRfc | internal/yamlast/locate.go:201-220 | exactly which pointers are looked up as the RFC says in every document |
| IndentWalker.PushKey | internal/yamlast/fallback.go:29-34 | the loop pops to below the indent and pushes the key |
| IndentWalker.PushSeqItem | internal/yamlast/fallback.go:35-44 | the loop pops to the indent and counts or opens the list |
| IndentWalker.InferPathByIndent | internal/yamlast/fallback.go:8-96 | the pass over the lines above the cursor, as a path of its stack |
| IndentLaws.TrimLaw | internal/yamlast/fallback.go:56 | white space goes from both ends and nothing else |
| IndentLaws.KeyLaw | internal/yamlast/fallback.go:66-75 | a key is what precedes the first colon, and none if that has a blank |
| IndentLaws.LineLaw | internal/yamlast/fallback.go:54-78 | what a line does, by its blanks in front and its trimmed text |
| IndentLaws.KeyPushLaw | internal/yamlast/fallback.go:29-34 | a key takes the place of the frames on top that are at its indent or deeper |
| IndentLaws.ItemPushLaw | internal/yamlast/fallback.go:35-44 | an item takes the place of the deeper ones, and counts on a list at its indent or starts one |
| IndentLaws.PathLaw | internal/yamlast/fallback.go:85-95 | a segment a frame: its key or its number |
| IndentLaws.WalkLaw | internal/yamlast/fallback.go:54-78 | lines are read one after the other |
| IndentLaws.CursorLaw | internal/yamlast/fallback.go:14-20 | the answer from the frames the lines above leave; below the text the last line counts, above it there is no path |
| IndentProofs.StackIsShaped | internal/yamlast/fallback.go:21-44 | on any text the stack's indents never shrink and stay level only from a key to its list |
| IndentProofs.WalkerRecoversPath | internal/yamlast/fallback.go:8-96 | on a laid-out block document, at a mapping line that shares no dash, the answer is that mapping's pointer iff every key above it is unquoted, without blanks and colons, and one space behind its dash if it shares its line |
| IndentProofs.WalkerPointsToMapping | internal/yamlast/fallback.go:8-96 | then, read back as segments, the answer is that mapping's path |
| IndentProofs.KeysAreMissed | internal/yamlast/fallback.go:62-75 | the answers below a key far from its dash, one with a blank, one with a colon, a quoted one, and one with a blank before its colon |
| Glob.GlobMatch | internal/schema/glob.go:34-69 | accepts iff the path splits into pieces that fit the pattern's tokens |
| Glob.PlainPattern | internal/schema/glob.go:63-67 | a pattern without stars accepts itself alone |
| Glob.DoubleStarPattern | internal/schema/glob.go:39-49 | a leading double star and slash accept whatever ends in something the rest accepts |
| SchemaChoice.MatchGlob | internal/schema/glob.go:8-14 | the same after slashes are turned and both sides cleaned |
| SchemaChoice.GlobSpecificity | internal/schema/resolver.go:166-177 | the number of characters that are not stars |
| SchemaChoice.MatchSettings | internal/schema/resolver.go:129-164 | in whatever order the settings are walked: the first reference in order among those owning a matching glob of most literals |
| SchemaChoice.ChoiceIsUnique | internal/schema/resolver.go:135-138 | there is one such reference |
| SchemaChoice.EmptyMeansNoMatch | internal/schema/resolver.go:145-163 | with no empty reference configured, an empty answer means no glob matches, and the other way round |
| ChoiceLaws.PatternLaw | internal/schema/glob.go:34-69 | what a pattern accepts, by whether it starts with another character, a star, two stars, or two stars and a slash |
| ChoiceLaws.SlashesAreTurned | internal/schema/glob.go:10-12 | exactly the separators become slashes, in place |
| ChoiceLaws.MatchesAre | internal/schema/resolver.go:149-155 | a glob matches as it is, or behind `**/` unless it starts with a slash or two stars |
| ChoiceLaws.SpecificityIsLiterals | internal/schema/resolver.go:166-177 | specificity is the length without the stars |
| ChoiceLaws.ChosenIs | internal/schema/resolver.go:129-164 | the reference returned: nothing iff no glob matches, else one owning a matching glob that no other beats in literals, nor equals under an earlier reference |
| MergeDirectives.ProjectionIsDirectiveFree | internal/diagnostics/validate.go:246-282 | no directive key and no mere directive is left at any depth |
| MergeDirectives.FixedPoints | internal/diagnostics/validate.go:259-282 | the projection leaves a document alone iff it holds no directive |
| MergeDirectives.Idempotent | internal/diagnostics/validate.go:259-282 | projecting twice is projecting once |
| MergeDirectives.NothingElseIsLost | internal/diagnostics/validate.go:259-282 | everything not under a directive is still there, projected, list indices lowered by what was removed before them |
| MergeDirectives.NothingIsAdded | internal/diagnostics/validate.go:259-282 | every path of the projection is where a kept path of the original moved to |
| MergeDirectives.DirectiveNames | internal/diagnostics/validate.go:300-313 | the names of directives: two, and everything behind two prefixes |
| MergeDirectives.EntryLaw | internal/diagnostics/validate.go:260-269 | an entry stays, projected, iff its key is no directive and its value is no non-empty mapping of directives alone |
| MergeDirectives.ItemLaw | internal/diagnostics/validate.go:270-282 | items likewise, in order; scalars as they are |

## Left out

- Schema fetching over HTTP, the disk cache, the proxy and address filters, and resolving a reference to an absolute one: I/O; a key is given.
- The schema compiler, the YAML parser, the flate orchestrator and the document analysis that finds what to render: foreign code; a compile, a build and a render are opaque results with the steps around them modelled.
- Wall-clock time: debounce lengths, deadlines and the age of a failure are choices a run makes; where it matters, a failure once too old is taken to stay too old.
- Content hashes are the texts themselves, so collisions of the shortened hash are not modelled.
- Pointer identity of pending renders, in-flight compiles and timers is modelled by indexes into the list of all such records; channels by a counter of closes.
- The order of sink notifications after the pipeline lock is released: results are stated where the render commits.
- Which root a configuration and a workspace give, and what else of a configuration reaches the renderers: a reconfiguration is a new root, and whether a renderer wants a document is a parameter. Paths are already cleaned sequences of components, so a path that climbs does not occur.
- Publishing what a publish goroutine computed: diagnostics are opaque, and a client connection is taken to exist.
- ParseTemplate: its errors have no position or text.
- Invalid UTF-8: texts are sequences of code points, and byte scans for ASCII characters are scans of characters.
- Wrap-around of 32-bit lines and columns: they are natural numbers.
- What the indentation walker answers on a line that starts with a dash, and inside nested dashes on one line, block scalars and flow collections, which it does not understand; keys with blanks before their colon or a question mark before them are no layouts here.
- MatchGlob: path cleaning is any function of the path; `filepath.Separator` is a parameter.
- The anchor table is given with the document, where the program fills it on first use.
- LocateKey, LocateRange and token extents: they only turn the nodes found here into ranges.
- `Suppressor.Filter`, enum quick fixes, hover, completion, folding, symbols, lenses, links, settings merging and the catalog: no property beyond their bodies.
- `internal/schema/walk.go`: its precedence rules and depth limits differ between search and listing, so no agreement holds without heavy side conditions.
- Upper- and lower-casing are any two functions of the text.
