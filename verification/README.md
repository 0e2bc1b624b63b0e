# Verification model of the claude+ workspace

A Dafny model of the parts of the repository where a mistake would be silent: the workflow
graph check and the concurrent executor, the insight library with its status log, the canonical
texts behind drift detection, the reconcile run, the incremental decoders, the event bus, the
shared login, and the slug allocator. Each file is one component:

| file | what it models |
|---|---|
| WorkflowSchema.dfy | the workflow definition check, with Kahn's algorithm |
| WaveExecutor.dfy | the wave executor as a transition system over all interleavings |
| WorkflowRun.dfy | the sorter that cuts a definition into waves, and why its waves suit the executor |
| Library.dfy | the library tables, the snapshot chain, the status log and its reconstruction |
| Lifecycle.dfy | promotion with deferred supersede, revert, retire, revive, consolidation |
| Store.dfy | the store object: nested transactions and the operations in place |
| Rendering.dfy | skill rendering and the cache keyed by skill and snapshot |
| ModuleSplit.dfy | splitting a skill over two children, undoing it, and what it takes from a batch revert |
| Json.dfy, JsonTexts.dfy, Mcp.dfy | the canonical JSON printer and its parser, the texts the parser takes, server entries and the shared document |
| MarkerTexts.dfy, Candidate.dfy, Skill.dfy | the injected learnings block, the multi-file skill serialisation and its envelope |
| AgentFile.dfy | agent files, their frontmatter, and what a push reads out of them |
| Reconcile.dfy | drift reports and the reconcile run over a map-valued config root |
| TerminalInput.dfy, Transcript.dfy | the terminal input parser, the transcript tailer with its delivery buffer across crashes, and the turn harvest |
| EventBus.dfy | replay and live delivery under every interleaving |
| AuthHub.dfy | newer-wins convergence of one login over many roots |
| SlugExport.dfy | slugs, collision suffixes and the export loop |
| Collections.dfy, Ordering.dfy, Numerals.dfy, Text.dfy | sets and sequences, string order and sorting, decimal numerals, text folding and search |

SHA-256 is an arbitrary function of the hashed text. The NLI re-check is an arbitrary predicate on
pairs of insight texts. The reading of one transcript row is an arbitrary function of the line.
A node's run yields any output and any success. JSON texts follow RFC 8259 (section 4 objects,
section 5 arrays, section 6 numbers, section 7 strings).

## What the code does that its documentation does not say

- Reverting a batch fails with an integrity error exactly when a skill that stays names a removed
  skill as its parent (`RevertSucceedsIff`, `RevertAfterPromoteIff`). A skill split always makes such
  children, so right after it the batch that created the skill can be promoted but not reverted
  (`SplitParentBlocksRevert`, with a run in `SplitBatchCannotBeReverted`). Undoing the split gives the
  revert back (`UnsplitUnblocksRevert`), and so does, by the same condition, a member from outside the
  batch in the split skill.
- Undoing a split lists the parent's members in id order, whatever order they had
  (`UnsplitUndoesSplit`, with a library in `UnsplitReorders`); no rendering shows the difference
  (`UnsplitRestoresRendering`).
- A nested transaction joins the outer one. Recovering from an inner failure keeps the inner writes
  (`OnlyOutermostUndoes`); a revert that fails this way inside an outer transaction leaves its
  flips and membership deletions behind (`RevertBatch`).
- `enableMcpjsonServer` is described as order-stable and de-duplicating. Adding a name sorts the list,
  so the listed names keep their order exactly when they were sorted, and repeated names stay repeated
  (`EnableSorts`, with a list in `EnableReorders`). A list item that is not a string reads as the empty
  string.
- A learning whose newline falls where the end marker has a space collapses into the end marker, and
  then the block can be neither stripped nor replaced cleanly (`CollapseCanForgeMarker`; the shipped
  marker has such a space, `ShippedMarkerHasSpace`). That is the only way: both block laws hold exactly
  when no written learning spells the end marker (`StripUndoesApplyIff`, `LastBlockWinsIff`).
- A frontmatter's second line cannot be its closing fence (`FrontmatterIsByLines`).
- A skill with no files has the canonical bytes of a single `SKILL.md` that is empty once its block is
  stripped (`EmptyMapCollides`, `EmptyFileIsEmpty`).
- The body envelope is undone by decoding except for a single `SKILL.md` that itself spells a
  decodable envelope (`EnvelopeRoundTrip`); every such file is lost (`SpelledEnvelopeIsLost`).
- Injecting learnings into a multi-file skill moves its drift hash exactly when another path sorts
  after `SKILL.md` and `SKILL.md` neither was empty nor ended in one newline (`InjectionMovesHashIff`,
  with a skill in `InjectionMovesOne`).
- A served file map without `SKILL.md` is said to be always completed; it is not when the record has
  neither a body nor a description (`FilesForKeeps`).
- A cached rendering stays right exactly when its snapshot had been minted or the skill has no members
  (`FreshForeverIff`); it also goes stale when the skill is named later, which mints no snapshot
  (`LateNameGoesStale`).
- A live event can reach a subscriber before its replay does (`LiveCanOvertakeReplay`); order holds
  exactly when every delivery waits for the older ones owed to the same subscriber (`InOrderIffPatient`).
- Restarting a tailer at its saved offset is described as dropping and repeating nothing. After a crash
  that holds exactly when no envelope sent since the save is still unacknowledged
  (`RestartInStepIff`, `CleanRestartsLoseNothing`); otherwise the lines sent since the save go out again
  under fresh numbers (`DirtyRestartRepeats`), and a second crash before the next save loses a line,
  whose number such a repeat has taken (`SecondCrashLosesLine`). Over all runs each line is held once
  under its own number if every poll finds the next number equal to the lines before the offset, and,
  when no line repeats, only if (`HeldOnceIffInStep`).
- Repointing a tailer is described as free of duplicates because of the sequence numbers. With nothing
  rewound the whole next file goes out behind what HQ holds, and a line is held more often than either
  side has it exactly when both have it (`RepointSendsAgain`, with two files in `RepointHoldsTwice`). After
  a restart that put the number back, HQ ignores as many of the next file's first lines as the number is
  behind.

## Model

| member | source | states |
|---|---|---|
| WorkflowSchema.Check | packages/shared/src/dto.ts:472-550 | the issues raised are exactly the violated rules: repeated id, unknown dependency, unknown checker, cycle; each once |
| WorkflowSchema.CheckDuplicates | packages/shared/src/dto.ts:474-484 | reports exactly the positions whose id occurred before |
| WorkflowSchema.CheckReferences | packages/shared/src/dto.ts:487-509 | reports exactly the dangling dependencies and checkers |
| WorkflowSchema.Peel | packages/shared/src/dto.ts:514-543 | for any node list, each id is popped at most once, the pop order is topological, and all ids are popped exactly when the known-id graph has no closed walk |
| WorkflowSchema.BuildGraph | packages/shared/src/dto.ts:514-528 | indegrees and adjacency record every edge as often as it is listed, unknown dependencies left out |
| WorkflowSchema.Decrement | packages/shared/src/dto.ts:537-541 | subtracting one unit per listed dependent queues exactly the ids that reach zero |
| WorkflowSchema.TopologicalMeansAcyclic | packages/shared/src/dto.ts:511-543 | a dependencies-first listing of all ids leaves room for no cycle |
| WorkflowSchema.StuckMeansCyclic | packages/shared/src/dto.ts:511-543 | ids that all wait for one another contain a cycle, found by pigeonhole on a backward walk |
| WorkflowSchema.DryQueueVerdict | packages/shared/src/dto.ts:543-549 | when the queue is dry, the count equals the number of ids exactly when the graph is acyclic |
| WorkflowSchema.AcyclicIffOrderable | packages/shared/src/dto.ts:511-549 | a graph has no cycle exactly when it can be listed dependencies first |
| WorkflowRun.TopoSort | wrapper/internal/workflow/topo.go:24-69 | fails exactly on a cycle; otherwise each wave is the sorted list of all nodes not yet scheduled whose known dependencies are, and the waves cover every id |
| WorkflowRun.ProcessWave | wrapper/internal/workflow/topo.go:53-62 | peeling a whole wave leaves the next wave as exactly the newly unblocked ids |
| WorkflowRun.WaveFound | wrapper/internal/workflow/topo.go:44-52 | what is collected for a wave is what its definition asks for, and sorting loses nothing |
| WorkflowRun.NoWaveTooLate | wrapper/internal/workflow/topo.go:8-12 | past the first wave every node has a dependency in the wave just before, so no node waits longer than it must |
| WorkflowRun.WavesAreUnique | wrapper/internal/workflow/topo.go:44-45 | the waves are determined by the graph: two complete answers for the same nodes are equal |
| WorkflowRun.WavesMeetContract | wrapper/cmd/claude-plus/workflow.go:173-186 | for every accepted node list, repeated ids included, the waves are duplicate-free and put every dependency in an earlier wave |
| WorkflowRun.Schedule | wrapper/cmd/claude-plus/workflow.go:68-82 | sorting fails exactly on a cycle, a definition the check accepts is always sorted, and the result meets what the executor needs |
| WorkflowRun.DependsOnByIdRecords | wrapper/cmd/claude-plus/workflow.go:182-185 | the node table has every id and, under it, the dependency list of the last node with that id |
| WaveExecutor.InitHolds | wrapper/cmd/claude-plus/workflow.go:187-197 | the invariant holds before the first wave |
| WaveExecutor.PermitsKept | wrapper/cmd/claude-plus/workflow.go:197-207 | every step keeps the permits in use equal to the nodes holding one, and at most two |
| WaveExecutor.LockKept | wrapper/cmd/claude-plus/workflow.go:211-224 | every step keeps the mutex owner equal to the one node in a critical section |
| WaveExecutor.OutputsKept | wrapper/cmd/claude-plus/workflow.go:219-220 | every step keeps the shared map equal to what the nodes have written |
| WaveExecutor.SnapshotsKept | wrapper/cmd/claude-plus/workflow.go:209-216 | every step keeps the copied dependencies equal to outputs of nodes that are over |
| WaveExecutor.ExecutionKeepsInv | wrapper/cmd/claude-plus/workflow.go:199-228 | the whole invariant holds in every state of every interleaving |
| WaveExecutor.BoundedConcurrency | wrapper/cmd/claude-plus/workflow.go:193-207 | at every moment of every interleaving at most two nodes hold a permit and at most one is inside the mutex |
| WaveExecutor.PermitsAreUsed | wrapper/cmd/claude-plus/workflow.go:197-207 | a started node can take a permit whenever fewer than two are in use |
| WaveExecutor.NoDeadlock | wrapper/cmd/claude-plus/workflow.go:199-228 | every reachable state short of the end has a next step |
| WaveExecutor.StepSpendsBudget | wrapper/cmd/claude-plus/workflow.go:199-228 | every step uses up part of a fixed budget |
| WaveExecutor.ExecutionsTerminate | wrapper/cmd/claude-plus/workflow.go:199-228 | every interleaving is no longer than the budget |
| WaveExecutor.FinalVerdict | wrapper/cmd/claude-plus/workflow.go:218-233 | at the end every scheduled node ran exactly once, its output is recorded, and the verdict is "failed" exactly when some node failed |
| WaveExecutor.SnapshotsAreFinal | wrapper/cmd/claude-plus/workflow.go:209-216 | what a node was handed for a dependency is that dependency's output in every later state too |
| Library.LatestRowIsLatest | agent-families/src/agent_families/store.py:1298-1303 | the first query returns the row with the highest snapshot, then the highest row id |
| Library.EarliestRowIsEarliest | agent-families/src/agent_families/store.py:1306-1310 | the second query returns the row with the lowest snapshot, then the lowest row id |
| Library.MintKeepsValid | agent-families/src/agent_families/store.py:1262-1275 | minting adds one snapshot row and one audit row, spelled out, keeps the chain gapless with each parent the row before, and moves current on by one |
| Library.FlipKeepsChain | agent-families/src/agent_families/store.py:1282-1294 | a flip keeps every transition starting where its insight's previous one ended |
| Library.FlipKeepsValid | agent-families/src/agent_families/store.py:1277-1294 | a flip keeps the log ordered and chained and the status column where the log left it |
| Library.StepKeepsValid | agent-families/src/agent_families/store.py:1256-1294 | a registration, or a queue operation with any flips, keeps all of that |
| Library.RunKeepsValid | agent-families/src/agent_families/store.py:1256-1294 | in every state of every run the chain is gapless, the log ordered and chained, the column settled |
| Library.CurrentStatus | agent-families/src/agent_families/store.py:1296-1318 | the status as of the current snapshot is the row's status |
| Library.PastIsFixed | agent-families/src/agent_families/store.py:1296-1318 | no later operation changes the answer for a snapshot that exists |
| Library.HistoryIsExact | agent-families/src/agent_families/store.py:1296-1318 | for any two states of a run, asking the later one about the earlier one's snapshot gives the status then held, several flips under one snapshot included |
| Library.BeforeBirth | agent-families/src/agent_families/store.py:1306-1318 | asking about a snapshot older than the insight gives the status it was registered with |
| LibraryStore.NestedMarkersVanish | agent-families/src/agent_families/store.py:1220-1226 | inside a transaction, a block means the same with its nested transactions taken out |
| LibraryStore.OnlyOutermostUndoes | agent-families/src/agent_families/store.py:1213-1237 | a failed outermost block leaves the library as it was; recovering from a nested one keeps its writes |
| LibraryStore.BlockLaws | agent-families/src/agent_families/store.py:1220-1237 | a failure stops a block where it happens and a write carries on; a failed outermost transaction is as if it had not begun |
| LibraryStore.Store.Enter | agent-families/src/agent_families/store.py:1220-1228 | only the outermost entry records the state to go back to |
| LibraryStore.Store.Leave | agent-families/src/agent_families/store.py:1229-1237 | only a failing outermost exit goes back to it |
| LibraryStore.Store.Execute | agent-families/src/agent_families/store.py:1213-1237 | running any nesting of writes, failures and transactions has the meaning above and leaves the depth balanced |
| LibraryStore.Store.SetStatus | agent-families/src/agent_families/store.py:1277-1294 | refused outside a transaction or for an unknown insight, otherwise one chained flip |
| LibraryStore.Store.OpenQueue | agent-families/src/agent_families/store.py:1255-1275 | joins or begins a transaction and mints the next snapshot with its audit row |
| LibraryStore.Store.ResolveSupersedes | agent-families/src/agent_families/lifecycle.py:188-243 | the loop over open edges in place is the resolution the lemmas speak of |
| LibraryStore.Store.PromoteBatch | agent-families/src/agent_families/lifecycle.py:280-320 | the operation in place is the promotion the lemmas speak of, errors without a trace |
| LibraryStore.Store.RevertBatch | agent-families/src/agent_families/lifecycle.py:323-388 | likewise the revert, and what an integrity failure leaves behind inside an outer transaction |
| LibraryStore.Store.Retire | agent-families/src/agent_families/lifecycle.py:401-408 | retires one insight under one snapshot, or fails without a trace |
| LibraryStore.Store.Revive | agent-families/src/agent_families/lifecycle.py:411-426 | revives a retired or dormant insight, or fails without a trace |
| LibraryStore.Store.DemoteToDormant | agent-families/src/agent_families/lifecycle.py:429-464 | children go dormant and gain evidence edges under one snapshot, or nothing is written |
| LibraryStore.Store.RetireSkill | agent-families/src/agent_families/lifecycle.py:487-499 | every live member retires, the skill stays |
| LibraryStore.Store.ReviveSkill | agent-families/src/agent_families/lifecycle.py:502-511 | every retired member revives |
| Lifecycle.BeatsStrictTotal | agent-families/src/agent_families/lifecycle.py:159-185 | beating is irreflexive, transitive, and decides every pair of distinct insights one way |
| Lifecycle.BeatsExactly | agent-families/src/agent_families/lifecycle.py:54-185 | who beats whom, on the columns: seeded over manual over researched over consolidated over reflector, then more corroborate votes, then the later creation, then the larger id |
| Lifecycle.OpenEdgesMembers | agent-families/src/agent_families/lifecycle.py:118-143 | the edges considered are exactly the contradictions by a promoted challenger against a live, unstamped incumbent |
| Lifecycle.ResolveExact | agent-families/src/agent_families/lifecycle.py:214-243 | whatever the edge order, the loop retires exactly the incumbents with some confirmed edge from a stronger challenger, each once, though an already retired challenger still counts |
| Lifecycle.PromoteEffect | agent-families/src/agent_families/lifecycle.py:188-320 | promotion admits the quarantined members, retires and stamps exactly the live incumbents that a stronger admitted insight contradicts and the re-check, asked about the incumbent first, confirms; it mints one snapshot and leaves every other table alone |
| Lifecycle.PromoteSucceedsIff | agent-families/src/agent_families/lifecycle.py:298-303 | it goes ahead exactly when the batch exists and holds something quarantined, and which refusal it is otherwise |
| Lifecycle.StrongestSurvives | agent-families/src/agent_families/lifecycle.py:188-243 | the admitted insight that is stronger than all the other admitted ones is active afterwards, whatever contradicts it |
| Lifecycle.PromoteIsStep | agent-families/src/agent_families/lifecycle.py:304-317 | a promotion is one queue operation of the log model: admissions first, then retirements, under one snapshot |
| Lifecycle.RevertIsStep | agent-families/src/agent_families/lifecycle.py:339-355 | so is a revert |
| Lifecycle.SingleFlipIsStep | agent-families/src/agent_families/lifecycle.py:401-426 | so are retiring and reviving one insight |
| Lifecycle.DemoteIsStep | agent-families/src/agent_families/lifecycle.py:446-463 | so is consolidation |
| Lifecycle.FlipSkillIsStep | agent-families/src/agent_families/lifecycle.py:487-511 | so are retiring and reviving a skill's members |
| Lifecycle.RetireEffect | agent-families/src/agent_families/lifecycle.py:401-408 | retiring moves that insight alone, from any status but retired, and logs one row |
| Lifecycle.ReviveEffect | agent-families/src/agent_families/lifecycle.py:411-426 | reviving takes a retired or dormant insight to active, that one alone |
| Lifecycle.NoChildError | agent-families/src/agent_families/lifecycle.py:447-457 | consolidation goes ahead exactly when every child is known, not retired and not the parent |
| Lifecycle.FirstChildError | agent-families/src/agent_families/lifecycle.py:447-457 | and otherwise is refused for what is wrong with the first child that is not |
| Lifecycle.DemoteEffect | agent-families/src/agent_families/lifecycle.py:458-463 | every child and nothing else goes dormant, and each gains one edge from the parent, behind the old ones |
| Lifecycle.DedupOrder | agent-families/src/agent_families/lifecycle.py:446 | the children are taken in the order of their first mention |
| Lifecycle.RetireSkillEffect | agent-families/src/agent_families/lifecycle.py:470-499 | every member ends retired, nothing else moves; refused exactly when no member is live |
| Lifecycle.ReviveSkillEffect | agent-families/src/agent_families/lifecycle.py:470-511 | every retired member ends active, nothing else moves; refused exactly when none is retired |
| Lifecycle.RevertEffect | agent-families/src/agent_families/lifecycle.py:323-388 | a revert retires the batch's active and quarantined members, closes exactly their open flags under the new snapshot, removes exactly the skills that the batch created and all of whose members belong to it, with their membership, mints one snapshot, and leaves every other row alone |
| Lifecycle.RevertSucceedsIff | agent-families/src/agent_families/lifecycle.py:323-388 | a revert goes through exactly when the batch exists, has something to revert, and no remaining skill names a removed one as parent; which refusal it is otherwise |
| Lifecycle.RevertAfterPromoteIff | agent-families/src/agent_families/lifecycle.py:280-388 | a batch just promoted, whatever else of it is active, can be reverted exactly when no skill that stays names a removed one as its parent, and fails with the integrity error otherwise |
| Lifecycle.PromoteThenRevert | agent-families/src/agent_families/lifecycle.py:280-388 | promote then revert of a batch without active members fails only for such a child; otherwise the active set is the old one less the superseded incumbents, and no reference dangles |
| ModuleSplit.ExecuteSplit | agent-families/src/agent_families/reflector/agent_split.py:74-164 | the split in place, its refusals in order, and what a failing write leaves |
| ModuleSplit.SplitGoesAheadIff | agent-families/src/agent_families/reflector/agent_split.py:89-120 | a split goes ahead exactly for two non-empty, disjoint, duplicate-free clusters that cover a skill's members, and which refusal it is otherwise |
| ModuleSplit.SplitEffect | agent-families/src/agent_families/reflector/agent_split.py:124-158 | the first child holds the first cluster, the second the other, in id order, named after the parent, which keeps its row and loses its members; nothing else moves |
| ModuleSplit.UnsplitGoesAheadIff | agent-families/src/agent_families/reflector/agent_split.py:177-213 | undoing goes ahead exactly when no other skill names a child as its parent, the children share no member, and a parent without members is there to take theirs |
| ModuleSplit.SplitIsStep | agent-families/src/agent_families/reflector/agent_split.py:124-125 | a split is one queue operation that moves no status, so the laws of runs cover it |
| ModuleSplit.SplitKeepsConsistent | agent-families/src/agent_families/reflector/agent_split.py:126-158 | after a split every reference still names a row |
| ModuleSplit.UnsplitUndoesSplit | agent-families/src/agent_families/reflector/agent_split.py:167-213 | reverting a split gives every table but the log back, the parent's members in id order, which is the order they had exactly when they were in id order |
| ModuleSplit.UnsplitUnblocksRevert | agent-families/src/agent_families/reflector/agent_split.py:167-213 | whether a batch's skills can be removed is again as it was before the split |
| ModuleSplit.UnsplitRestoresRendering | agent-families/src/agent_families/reflector/agent_split.py:167-213 | every skill renders as before the split, at every snapshot |
| ModuleSplit.SplitParentBlocksRevert | agent-families/src/agent_families/lifecycle.py:372-387 | right after a batch's skill was split, promoting the batch and then reverting it fails on the children's parent reference |
| ModuleSplit.SplitBatchCannotBeReverted | agent-families/src/agent_families/lifecycle.py:372-387 | a library in which a split, a promotion and then that failure happen |
| Rendering.Renderer.RenderConcat | agent-families/src/agent_families/rendering.py:206-232 | a hit returns the cached text, a miss renders and, for active-only, caches; an unknown skill is refused |
| Rendering.RenderSpelled | agent-families/src/agent_families/rendering.py:102-127 | the text is the header and one block per member active as of the snapshot (or quarantined, when asked for), ids ascending, each spelled from its id, precondition, action and outcome; marked empty exactly when there is none |
| Rendering.SameRender | agent-families/src/agent_families/rendering.py:189-232 | the text depends only on header, membership, member text and which members are visible |
| Rendering.CachedStaysFresh | agent-families/src/agent_families/rendering.py:206-232 | in every run, a text cached for a snapshot that existed equals a fresh one while header, membership and member text stay |
| Rendering.RevertRestoresRendering | agent-families/src/agent_families/lifecycle.py:280-388 | when a promotion retired nobody, its revert gives every remaining skill its old text |
| Rendering.FreshForeverIff | agent-families/src/agent_families/rendering.py:206-232 | a text stays the fresh one in every continuation that keeps the skill's content exactly when its snapshot was minted or the skill has no members |
| Rendering.FutureSnapshotGoesStale | agent-families/src/agent_families/rendering.py:213-231 | a text cached for any snapshot not minted yet goes stale at the next operation that shows or hides a member: the fresh text is longer or shorter |
| Rendering.LateNameGoesStale | agent-families/src/agent_families/export.py:151-160 | naming a skill mints no snapshot, and every text cached under the placeholder differs from the fresh one |
| Ordering.BelowSpelled | wrapper/internal/config/mcp.go:120-127 | the order of keys and paths: the first place where two strings part decides, by code point, and a prefix comes first |
| Json.ParseShow | wrapper/internal/config/mcp.go:101-113 | the parser reads back any printed document, whatever delimiter follows |
| Json.PrintInjective | wrapper/internal/config/mcp.go:118-163 | printed text, even with delimited text behind it, determines the value |
| Json.CanonicalIdempotent | wrapper/internal/config/mcp.go:101-163 | canonicalising canonical text changes nothing |
| Json.CanonicalExact | wrapper/internal/config/mcp.go:96-163 | two texts have one canonical form exactly when they decode to the same value |
| Json.CanonicalIgnoresOnlyKeyOrder | wrapper/internal/config/mcp.go:96-163 | two documents without repeated keys print alike exactly when they differ at most in key order, at any depth |
| JsonTexts.CanonicalIgnoresSpacing | wrapper/internal/config/mcp.go:96-113 | a document hashes alike however its tokens are spaced out |
| JsonTexts.CanonicalIgnoresOnlyOrderAndSpacing | wrapper/internal/config/mcp.go:96-163 | two texts without repeated keys, each spaced out in its own way, hash alike exactly when they differ at most in key order |
| JsonTexts.IsNumberExactly | wrapper/internal/config/mcp.go:101-113 | the number literals kept as text are exactly those of the JSON grammar |
| JsonTexts.UnescapeUnit | wrapper/internal/config/mcp.go:101-113 | the \u escape of a character, in either case, is read as that character |
| JsonTexts.UnescapePair | wrapper/internal/config/mcp.go:101-113 | so is an escaped surrogate pair |
| JsonTexts.UnescapeLone | wrapper/internal/config/mcp.go:101-113 | and any other surrogate as the replacement character |
| Mcp.WriteCanonical | wrapper/internal/config/mcp.go:118-163 | the recursive buffer writer appends exactly the canonical text of the value |
| Mcp.WriteObject | wrapper/internal/config/mcp.go:120-142 | whatever order the map yields its keys in, members are written in key order |
| Mcp.WriteArray | wrapper/internal/config/mcp.go:143-154 | items are written in their own order |
| Mcp.EntryRoundTrip | wrapper/internal/config/mcp.go:57-94 | reading back a written entry restores every field, the omitted ones too |
| Mcp.ReadStringsExactly | wrapper/internal/config/mcp.go:57-65 | a string list reads text items as they are, null as nothing, and refuses any other type |
| Mcp.PulledEntryHashesAlike | wrapper/internal/config/mcp.go:84-94 | the entry text HQ sends decodes to the entry, and its canonical form is itself |
| Mcp.CanonicalIsHashBasis | wrapper/internal/config/mcp.go:215-221 | hashing canonical text trims and folds nothing |
| Mcp.McpFile.EnableServer | wrapper/internal/config/mcp.go:253-272 | the approval list in place becomes the enabled list the lemmas speak of |
| Mcp.McpFile.Merge | wrapper/internal/config/mcp.go:230-244 | sets exactly one server entry and enables it |
| Mcp.EnableKeepsOthers | wrapper/internal/config/mcp.go:246-272 | the server is enabled, whoever was enabled stays so, and no other top-level key moves |
| Mcp.EnableIdempotent | wrapper/internal/config/mcp.go:246-272 | enabling again changes nothing |
| Mcp.EnableAddsAtMostOne | wrapper/internal/config/mcp.go:259-270 | every name occurs as often as before, plus once if it was missing |
| Mcp.EnableSorts | wrapper/internal/config/mcp.go:246-270 | a new name leaves the list sorted: the listed names keep their order exactly when they were sorted, and the list is duplicate-free exactly when it was |
| Mcp.EnableReorders | wrapper/internal/config/mcp.go:246-270 | a list that is reordered and keeps its duplicate |
| Mcp.PushedBackIff | wrapper/internal/config/remote.go:724-750 | a record pulled to disk, read back and pushed is itself exactly when it holds no field of the other transport; an unknown transport never reaches the disk |
| Text.NormalizePair | wrapper/internal/config/claude.go:295-299 | line-end folding turns each CRLF into one newline and nothing else |
| Candidate.RenderBlock | wrapper/internal/config/candidate.go:75-99 | the loop writes the framed block, one bullet per non-blank learning |
| Candidate.BlockSpelled | wrapper/internal/config/candidate.go:71-99 | the block is the opening marker, heading, intro and an empty line, one collapsed bullet per learning that is not blank, in order, and the closing marker |
| Candidate.CollapseSpelled | wrapper/internal/config/candidate.go:90-95 | collapsing folds line ends and turns every newline into one space |
| Candidate.MarkersUsable | wrapper/internal/config/candidate.go:71-99 | the shipped marker texts meet what the format relies on |
| Candidate.StripSpelled | wrapper/internal/config/candidate.go:41-66 | what stripping takes out, for every body: from the first opening marker with the newlines before it to the first closing one with those after it, or to the end when there is none |
| Candidate.StripUndoesApplyIff | wrapper/internal/config/candidate.go:41-116 | stripping after setting gives the body back up to its trailing newlines exactly when no written learning spells the end marker |
| Candidate.LastBlockWinsIff | wrapper/internal/config/candidate.go:101-116 | setting any block over an earlier one equals setting it on the original exactly when no learning of the earlier block spells the end marker |
| Candidate.NothingToInject | wrapper/internal/config/candidate.go:101-110 | without learnings, injecting only takes a stale block out |
| Candidate.InjectionInvisibleIff | wrapper/internal/config/candidate.go:41-116 | the hashed body is untouched exactly when it was empty or ended in one newline |
| Candidate.InjectionKeepsHash | wrapper/internal/config/skill.go:81-93 | a single-file skill's hash basis never sees the block |
| Candidate.CollapseCanForgeMarker | wrapper/internal/config/candidate.go:90-95 | a marker-free learning for which both of these laws fail, for every body and every later block |
| SkillFiles.SkillFilesCanonical | wrapper/internal/config/skill.go:87-121 | the builder loop yields the canonical bytes whatever order the paths were iterated in |
| SkillFiles.CanonicalSpelled | wrapper/internal/config/skill.go:87-121 | those bytes, spelled out: the content of a single SKILL.md, otherwise one frame per path, paths ascending |
| SkillFiles.FormsDiffer | wrapper/internal/config/skill.go:87-121 | a single-file form never equals a multi-file form |
| SkillFiles.CanonicalExact | wrapper/internal/config/skill.go:73-121 | for NUL-free skills, canonical bytes agree exactly when paths agree and contents agree up to line ends and the block |
| SkillFiles.EmptyMapCollides | wrapper/internal/config/skill.go:87-121 | the one exception: no file at all reads like exactly the single SKILL.md files that strip to nothing |
| SkillFiles.HashExact | wrapper/internal/config/claude.go:295-299 | what the hash adds, for any two skills free of NUL whose carriage returns all belong to line ends: they hash alike exactly when both are framed and differ at most in the last path's trailing spaces, or neither is and they differ at most in the spaces around the text |
| SkillFiles.InjectionKeepsBytesIff | wrapper/internal/config/skill.go:106-119 | in a multi-file skill the block stays out of the bytes exactly when SKILL.md was empty or ended in one newline |
| SkillFiles.InjectionMovesHashIff | wrapper/internal/config/skill.go:106-128 | it moves the hash exactly when, besides, another path sorts after SKILL.md |
| SkillFiles.InjectionMovesOne | wrapper/internal/config/skill.go:106-128 | a skill and a learning for which it does |
| SkillFiles.EnvelopeRoundTrip | wrapper/internal/config/skill.go:40-68 | decoding undoes encoding exactly unless a single SKILL.md spells a decodable envelope |
| SkillFiles.SpelledEnvelopeIsLost | wrapper/internal/config/skill.go:40-68 | for every file map, the SKILL.md that spells its envelope comes back as that map |
| SkillFiles.EnvelopeAlone | wrapper/internal/config/skill.go:55-68 | an envelope with more text behind it is taken as a plain body |
| SkillFiles.FilesForKeeps | wrapper/internal/config/remote.go:189-218 | resolving a served record keeps every served file, adds at most SKILL.md, and lacks SKILL.md exactly when the map does and the record has no text |
| AgentFile.RenderSpelled | wrapper/internal/config/remote.go:110-135 | the file line by line, without a line for no tools or no model |
| AgentFile.ParseUndoesRender | wrapper/internal/config/remote.go:110-163 | name, description, model and tools come back for every well-formed record, and the prompt with CRLF folded and one final newline, fences and stray carriage returns in the prompt included |
| AgentFile.RenderUndoesParse | wrapper/internal/config/remote.go:110-163 | for a prompt without carriage returns, re-rendering the parsed record gives the file byte for byte |
| AgentFile.BlockOfRendered | wrapper/internal/config/frontmatter.go:21-34 | rendered text splits at its own closing fence and nowhere earlier |
| AgentFile.FrontmatterIsByLines | wrapper/internal/config/frontmatter.go:21-34 | for every text, the fences found as substrings are a fence on the first line and the first fence line from the third on |
| AgentFile.BarePromptPushed | wrapper/internal/config/remote.go:661-682 | a file without such fences is pushed whole as the prompt, with no other field but its name and the inherited model |
| AgentFile.PushRoundTrip | wrapper/internal/config/remote.go:661-682 | whatever a file holds, the record a push sends is written by the next pull to a file that reads back as that record, prompt folded and ended by one newline: the frontmatter is never wrapped twice |
| Reconcile.UnionLocal | wrapper/internal/config/claude.go:86-103 | per key, the user's items win and the root's are kept only where the user has none |
| Reconcile.Diff | wrapper/internal/config/sync.go:50-91 | the loops over maps yield the report the lemmas speak of, and every counter counts its rows |
| Reconcile.LocalRowSpelled | wrapper/internal/config/sync.go:62-81 | row by row, what a report says of a local item: malformed, unknown to HQ, different, in sync, and under which scope |
| Reconcile.PullRowSpelled | wrapper/internal/config/sync.go:83-89 | every later row is a remote item to pull whose key is not local |
| Reconcile.DiffPulls | wrapper/internal/config/sync.go:82-89 | the keys to pull are exactly the remote keys that are not local, each once when remote keys are unique |
| Reconcile.InSyncIff | wrapper/internal/config/sync.go:50-97 | a report is clean exactly when every local item is well formed and matches HQ, and nothing remote is missing |
| Reconcile.FetchServes | wrapper/internal/config/remote.go:450-581 | publishing effective records one by one gives hashes and bodies that agree with the records, which is what the reconcile results assume |
| Reconcile.ApplyKeepsOthers | wrapper/internal/config/claude.go:250-291 | a pull changes no other definition and no other top-level key |
| Reconcile.ApplyStores | wrapper/internal/config/claude.go:250-291 | under a free key the body is decoded to exactly HQ's record |
| Reconcile.ParityIffWhole | wrapper/internal/config/claude.go:120-240 | what was stored reads back clean with HQ's hash exactly when the definition is not empty |
| Reconcile.MalformedIsFlagged | wrapper/internal/config/claude.go:120-240 | a shared document that cannot be read shows as one malformed item and as no server |
| Reconcile.BlankIff | wrapper/internal/config/claude.go:155-186 | a definition is empty exactly when it is all white space |
| Reconcile.ValidJsonTexts | wrapper/internal/config/claude.go:155-186 | a workflow file is one JSON value: canonical text is valid, with a comma behind it or empty it is not |
| Reconcile.Root.ApplyPulled | wrapper/internal/config/claude.go:250-291 | the write in place, and which bodies it refuses |
| Reconcile.Root.EnsureAgentSkillDeps | wrapper/internal/config/sync.go:243-268 | the nested loops in place are the dependency run the lemmas speak of |
| Reconcile.Root.Reconcile | wrapper/internal/config/sync.go:165-235 | the whole run in place, with its three counts |
| Reconcile.ReconcileOnlyAdds | wrapper/internal/config/sync.go:165-268 | whatever fails, what was there stays, only HQ's records are added, the approved servers are those approved before and the pulled ones, and the pull count is the number of added keys, so a shared dependency is pulled once |
| Reconcile.ReconcileCounts | wrapper/internal/config/sync.go:165-268 | for any rows, the three counts on the rows and the source: pulls and pushes that worked, those that failed, and each missing dependency of an agent at hand once; only the stored keys move |
| Reconcile.ReconcileExactly | wrapper/internal/config/sync.go:165-268 | whatever fails, every key holds HQ's record if its pull lands, and what it held before otherwise |
| Reconcile.ReconcileConverges | wrapper/internal/config/sync.go:158-235 | without errors every missing definition is present and, exactly when it is not empty, reads back with HQ's hash; every local one reads as before |
| Reconcile.SecondRunPullsNothing | wrapper/internal/config/sync.go:161-164 | a fresh report reconciled again pulls nothing and leaves the root alone |
| TerminalInput.ParseInput | wrapper/cmd/claude-plus/attach.go:509-558 | for every split into reads the events are those of the one-shot reading of the whole stream |
| TerminalInput.Advance | wrapper/cmd/claude-plus/attach.go:516-552 | one byte keeps parser state, held bytes and events in step with the one-shot reading |
| TerminalInput.TokensConserve | wrapper/cmd/claude-plus/attach.go:509-558 | the tokens' bytes and the held-back tail make up the stream in order, and the tail is an unfinished sequence |
| TerminalInput.TokensResume | wrapper/cmd/claude-plus/attach.go:509-558 | reading on continues from the held-back tail |
| TerminalInput.EncodeSpelled | wrapper/cmd/claude-plus/attach.go:564-570 | the sequence written for a mouse event, character by character |
| TerminalInput.EncodedMouseDecodes | wrapper/cmd/claude-plus/attach.go:560-584 | for all 64-bit codes and positions an encoded mouse event is one token that decodes to itself, 1-based turned 0-based |
| Transcript.LinesCover | wrapper/internal/capture/jsonl.go:142-160 | the complete lines spell exactly the consumed bytes and no newline is left behind |
| Transcript.LinesResume | wrapper/internal/capture/jsonl.go:142-160 | after an append, reading continues from the unfinished rest |
| Transcript.Tailer.Poll | wrapper/internal/capture/jsonl.go:122-162 | whatever is appended between its reads, hands over every complete line past the offset as of its last read, once and in order, stops at the unfinished rest, and is the poll of the runs below |
| Transcript.Tailer.SetOffset | wrapper/internal/capture/jsonl.go:179-184 | seeds the offset and forgets the rest |
| Transcript.HeldOnceIffInStep | wrapper/internal/capture/jsonl.go:122-184 | over every run of appends, polls, deliveries with or without acknowledgement, saves and crashes, HQ and the buffer hold the first lines of the file, each once under its own number, if every poll finds the next number equal to the lines before the offset, and, when no line repeats, only if |
| Transcript.PollOutOfStep | wrapper/internal/capture/jsonl.go:122-162 | what any poll leaves held: the lines so far and behind them those from some line on; all lines once exactly when in step |
| Transcript.RestartInStepIff | wrapper/internal/daemon/runtime.go:217-256 | after a crash the number counts the lines before the saved offset exactly when no envelope sent since the save is unacknowledged |
| Transcript.CleanRestartsLoseNothing | wrapper/internal/capture/jsonl.go:164-184 | while every crash finds those acknowledged, every line is held once, and after a last poll all complete lines are |
| Transcript.DirtyRestartRepeats | wrapper/internal/daemon/runtime.go:217-256 | otherwise the lines sent since the save are held a second time, under fresh numbers |
| Transcript.SecondCrashLosesLine | wrapper/internal/daemon/runtime.go:217-256 | for any two lines, a run with two crashes before a save that loses the second |
| Transcript.DeliverKeepsHeld | wrapper/internal/transport/wsclient.go:266-284 | delivering, acknowledged or not, moves nothing in or out of what HQ holds in the end |
| Transcript.PollCatchesUp | wrapper/internal/capture/jsonl.go:122-184 | after a last poll in step, HQ and the buffer hold exactly all complete lines |
| Transcript.RepointSendsAgain | wrapper/internal/capture/jsonl.go:195-211 | what HQ holds of the next file, rewound or not; all of it exactly when nothing was rewound, and then a line is held more often than before and than the new file has it exactly when both hold it |
| Transcript.RepointHoldsTwice | wrapper/internal/capture/jsonl.go:195-211 | for any two lines, two files that begin alike and the line held twice |
| Transcript.HarvestTurn | wrapper/internal/capture/jsonl.go:404-435 | folds the same lines a poll from that offset hands over and stops at the same byte |
| Transcript.HarvestLine | wrapper/internal/capture/jsonl.go:441-505 | last prompt, reply and title win, blank ones are ignored |
| Transcript.LatestWins | wrapper/internal/capture/jsonl.go:463-484 | a title, prompt or reply is blank exactly when all were, and otherwise is the latest one that was not blank |
| Transcript.FilesAreFirstTouches | wrapper/internal/capture/jsonl.go:485-502 | the touched files are each path once, in the order first touched |
| EventBus.Registry.Record | wrapper/internal/daemon/events.go:16-25 | the buffer keeps the last 200 and every registered callback is copied once, in any order |
| EventBus.Registry.Register | wrapper/internal/daemon/events.go:33-37 | takes over the id and copies the buffer |
| EventBus.Registry.RemoveEventSink | wrapper/internal/daemon/events.go:44-48 | forgets the id and nothing else |
| EventBus.RecentStep | wrapper/internal/daemon/events.go:17-20 | trimming step by step keeps the last events of the whole log |
| EventBus.StepKeepsInv | wrapper/internal/daemon/events.go:14-48 | every locked section and every single delivery keeps the books balanced |
| EventBus.Accounted | wrapper/internal/daemon/events.go:14-48 | in every interleaving the buffer is the last 200 events, and received plus owed is, event for event, what a registration is promised |
| EventBus.ExactlyOnce | wrapper/internal/daemon/events.go:14-48 | a registration receives nothing beyond the last 200 events before it and all from then to its end, and once its deliveries are done exactly those, each once |
| EventBus.InOrderIffPatient | wrapper/internal/daemon/events.go:26-40 | in every interleaving a registration has its events in publishing order if each was delivered only after everything older owed to it, and, when no event was published twice, only if |
| AuthHub.FileSystem.CopyFile | wrapper/internal/config/overlay.go:366-400 | replaces the destination with time and content, or fails and changes nothing |
| AuthHub.FileSystem.SyncAuthFile | wrapper/internal/config/overlay.go:292-322 | the branches in place either change nothing or give both sides the winner, and the latter whenever the copy succeeds |
| AuthHub.SyncConverges | wrapper/internal/config/overlay.go:278-322 | both sides end with the newer credential, ties with the base's, and a second sync finds nothing to do |
| AuthHub.SyncSpelled | wrapper/internal/config/overlay.go:292-322 | what a sync leaves: the one usable file at both paths, of two the newer, on a tie the base's; an empty file never counts |
| AuthHub.RunIsNoWorse | wrapper/internal/config/overlay.go:284-291 | over any spawns, failing copies included, no credential is lost to an empty or an older one |
| AuthHub.PassCollects | wrapper/internal/config/overlay.go:292-322 | one pass over distinct roots puts the first newest credential in the base and leaves no root newer |
| AuthHub.NewestIsFirst | wrapper/internal/config/overlay.go:309-319 | that credential is newest, and strictly newer than all visited before it, the base first |
| AuthHub.TwoPassesConverge | wrapper/internal/config/overlay.go:278-322 | a second pass in any order makes base and all roots equal to it |
| AuthHub.AgreementIsStable | wrapper/internal/config/overlay.go:286-291 | once they agree further passes change no file |
| SlugExport.SlugifySound | agent-families/src/agent_families/export.py:49-54 | a slug is never empty, never over the cap, hyphenated in single steps, and keeps the name's letters and digits in order |
| SlugExport.SlugifySpelled | agent-families/src/agent_families/export.py:46-54 | a slug is the lower-cased name's runs of letters and digits joined by hyphens, cut at the cap less the hyphens there; a name without any is called skill |
| SlugExport.SlugifyIdempotent | agent-families/src/agent_families/export.py:49-54 | a slug is its own slug |
| SlugExport.CandidateInjective | agent-families/src/agent_families/export.py:63-64 | candidates for different numbers differ |
| SlugExport.CandidateIsNumbered | agent-families/src/agent_families/export.py:63-64 | the one text that ends in the number and begins as the base does, as far as it fits and less the hyphens at the cut |
| SlugExport.TakenBound | agent-families/src/agent_families/export.py:61-67 | numbers can only all be taken by as many used slugs, by pigeonhole |
| SlugExport.AllocateSlug | agent-families/src/agent_families/export.py:57-67 | the loop returns the base or the first free candidate, after at most one try more than there are used slugs |
| SlugExport.ProbeSound | agent-families/src/agent_families/export.py:57-67 | what is allocated was free, fits the cap and is a slug again |
| SlugExport.ExportSkills | agent-families/src/agent_families/export.py:112-202 | the export loop in place is the export of the ids in ascending order, each once |
| SlugExport.ExportSound | agent-families/src/agent_families/export.py:139-189 | for every table and id list the exported slugs are well formed, at most 64 characters and pairwise distinct, and do not depend on order or repetition of the ids |
| SlugExport.ExportPartitions | agent-families/src/agent_families/export.py:142-202 | every listed id is exported or skipped, each once, exactly when all ids exist |
| SlugExport.ExportDecides | agent-families/src/agent_families/export.py:142-202 | up to the first id that does not exist, the skills with an active insight are exported and the others skipped, in id order |
| SlugExport.ExportSlugs | agent-families/src/agent_families/export.py:183-189 | each exported skill has the slug of its name, given now or before, or module- and its id; if one exported earlier has that, the same with the first free number |
| SlugExport.ReexportIsStable | agent-families/src/agent_families/export.py:10-14 | exporting again gives the same slugs, names assigned the first time included |

## Left out

- CDK stacks, the web app, the template app, npm shims and build configuration: declarations and plumbing.
- HTTP transport, login, credentials, git, process and port handling: foreign effects; `Reconcile.Source` is what one fetch left in memory.
- `HTTPRemoteSource.Fetch`: bundle expansion and opt-in intersection; the model starts from the effective records.
- A node's run and its rerun loop: any output and any success; the loop would add an easy bound only.
- The empty-workflow error before sorting, and the run record posted to HQ.
- The NLI model, embeddings, judge and derive passes: predicates and functions as parameters.
- SQL schema migrations, enum and range checks, zod field shapes and command-line printing: each is settled by reading one branch.
- Writers in other processes: `BEGIN IMMEDIATE` serialises them, and the model has one writer.
- LibraryStore.Store.SetStatus: does not model the error texts, only whether the call is refused.
- Reconcile.Root.ApplyPulled: does not model a half-written skill directory; a failed write leaves the tree as it was, and file paths are already clean and relative.
- Reconcile.UnionLocal: does not model the final sort by kind and name; every result holds for a listing in any order.
- Reconcile: directory-form agents, files without a known suffix, unreadable files and names with path separators; a push reports success or failure only, and pushed items are not served back.
- Json: texts over 10000 levels deep, invalid UTF-8, and the indented layout of the written document; characters are Unicode scalars.
- Windows path separators: slash paths are taken as they are.
- SkillFiles.CanonicalExact: asks for NUL-free paths and contents, as the framing does.
- Candidate.StripUndoesApplyIff: asks for bodies clear of the markers, and for text without carriage returns outside line ends, where CRLF folding is not idempotent.
- ModuleSplit: the flag that a finalized split sets, which stops it from being undone.
- ModuleSplit.ExecuteSplit: does not model the unique name per agent, as agents are not modelled, nor the split's own snapshot column; what a repeated id leaves half-written inside an outer transaction is open.
- Transcript.HeldOnceIffInStep: does not model repointing inside a run (`RepointSendsAgain` says what one repoint does), a crash halfway through a poll, nor a buffer torn by a failed write; each line is one envelope, and numbers start at 0.
- Transcript: what a row means is a parameter; the once-only first-turn and first-exchange callbacks are not modelled.
- TerminalInput: tab hit-testing, double clicks and timing.
- EventBus: the status line updated on publishing; callbacks are numbered per registration.
- AuthHub.FileSystem.CopyFile: does not model a copy that succeeds but fails to keep the time; symbolic links and seed-once files are not modelled.
- SlugExport.ExportSkills: does not model the written file content; whether a skill has active members is given.
- SlugExport.SlugifySound: models lower-casing as far as it yields ASCII letters; other letters are separators either way.
