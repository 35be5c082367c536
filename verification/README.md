# Compendium, verified

A Dafny 4.11 model of the parts of Compendium whose correctness spans several functions or a whole run, and
proofs of what those parts promise. `dafny verify dfyconfig.toml` checks everything.

Code that changes state is modelled as classes and methods with loops; each method is tied by its `ensures`
to a function of the old state, and the theorems are lemmas about those functions and about runs of them.
Identifiers (UUIDs, node ids) are integers, since only equality and one total order on them matter; scores are
real numbers.

| files | what they cover |
|---|---|
| `EdgeRules`, `SemanticGraph`, `Replay`, `DualStore`, `MirrorRuns`, `EdgeTheorems`, `EdgeStores`, `Extraction`, `ExtractionEdges` | semantic edges written to the graph and to the table, the collision rule, replay on rebuild, the extraction pass |
| `Corpus`, `IndexQueue`, `IndexTheorems`, `IngestTheorems`, `IndexRuns`, `IndexedEntries`, `StaleTopics`, `IngestedTexts`, `IndexSync`, `CorpusWriters` | canonical rows, the sync queue, drain and reindex, the vault writer, ingestion, deletion, tagging |
| `Texts`, `Windows`, `Chunking`, `ChunkTexts` | cutting a text into overlapping windows, and the chunks made of them |
| `Sorting`, `Fusion`, `Coverage`, `Expansion` | stable sorting, reciprocal rank fusion, the coverage score, graph expansion and its merge |
| `TopicTree` | the topic rules of the vault lint |
| `Slug`, `BodyHash`, `PageText` | slugs, the normal form behind the content hash, printing and parsing pages |
| `Signals`, `Contradictions`, `ProposedPairs`, `SignalRuns`, `SignalEdges`, `SignalTable` | curation signals, their lifecycle, the contradiction pass, and the edges that settling a signal writes |

## Main results

1. **Rebuild loses nothing.** After every sequence of curator writes, LLM writes, deletes, backfills and
   rebuilds, dropping the graph and replaying the ordered table hits no collision and restores exactly the
   table (`EdgeTheorems.RebuildIsLossless`). For arbitrary rows the exact condition is
   `Replay.ReplayLosslessIff`. The argument needs that an id fixes its node's label; without that an edge can
   be lost (`EdgeTheorems.SharedIdLosesAnEdge`).
2. **When the stores mirror each other.** Over all runs every row of the table stands in the graph with its author
   and its values, an LLM edge being the same in both (`DualStore.RunKeepsInvariants`). The stores agree entirely
   if and only if no edge is left behind: no delete took the edge's row while its best-effort graph delete got to
   neither node, unless a later rebuild, backfill, write of the edge or delete has settled it
   (`MirrorRuns.RunMirrorsIff`; `MirrorRuns.DeleteLeavesEdgeBehind` is a run of two steps that ends so). A
   backfill settles such an edge by giving the deleted source's edge its row back. A rebuild never makes the
   extraction watermark later, and keeps it exactly when some latest LLM edge is not left behind
   (`EdgeTheorems.WatermarkSurvivesRebuildOverRuns`). A curator's edge is safe from the extractor over all runs
   that do not delete its pages (`EdgeTheorems.CuratorProtectedOverRuns`), and what an extraction pass leaves on every
   edge of both stores is read off its proposals (`ExtractionEdges.PassLeaves`).
3. **The derived indexes are eventually right**, whatever writes fail and whenever drains run. In every state
   of every run each live page and chunk has its sync rows and the ingestion rules hold
   (`IndexRuns.RunsStayTended`). An indexed row tells the truth if and only if none of three things has happened
   since the row was last enqueued or processed (`IndexRuns.IndexedRowsAreTruthfulIff`): its page has lost a topic
   link to a deleted source page (the cascade drops the link and does not enqueue the page); a reindex has dropped
   its entry and raised before enqueueing anything; the page's file has another text, left there by a page write
   whose rows were rolled back because a topic does not exist. `StaleTopics.DeletedTopicStaysIndexed` is a run of
   five steps with the first of them, after which the page cannot be written again as it stands.
   `IndexRuns.RunsStayConsistentIff` says which runs are free of all three, and a full reindex always repairs them
   (`IndexRuns.ReindexRestoresConsistency`, `IndexRuns.ReindexIsExact`). What such a row's entry shows is stated
   field by field (`IndexedEntries.IndexedEntryShowsIff`), and a tag is followed to all four stores
   (`IndexedEntries.SourceTagReachesEntries`).
4. **Windows are cut between words, never go backwards and cover the text**: their rules, stated on positions and
   characters, leave exactly one choice, which is what the loop returns (`Windows.SpansAreWindowing`,
   `Windows.WindowsAreDetermined`, `Windows.WindowsCoverText`). In every reachable corpus every window of an ingested
   document that is not blank has a stored chunk, and every chunk comes from such a window
   (`IngestedTexts.EveryWindowIsRepresented`, `IngestedTexts.ChunkRowComesFromWindow`).
5. **Rankings**: fusion does not depend on the order of its lists; it keeps dominance for every setting of at
   least -2 and for no smaller one; expansion cannot push a strong direct hit from its rank for
   settings of at least -1. With weights up to 1 the best hit keeps the first place for exactly these settings, or
   without weight and decay: smaller settings make all scores negative, and then expansion lifts a page above its
   seed (`Fusion.FusionIgnoresListOrder`, `Fusion.DominanceIsKept`, `Fusion.DominanceNeedsSetting`,
   `Expansion.QuerySparesStrongHits`, `Expansion.BestHitStaysFirst`, `Expansion.BestHitNeedsSettings`).
6. **The topic cycle rule is exact** for vaults with distinct ids, and a vault passes both topic rules exactly
   when its topics form a forest (`TopicTree.CycleRuleIsExact`, `TopicTree.CleanVaultIsForest`). With two pages
   of one id the rule can report a chain that ends (`TopicTree.MisreportedExactly`).
7. **Slugs** are free, well shaped and use the least free suffix. The suffix is added after the cut at 80
   characters, so it can be too long for the lint; it fits exactly when some free numbered name fits (`Slug.NumberedSlugFitsIff`).
8. **The content hash survives a write and a read exactly when the first line with content is not indented**
   (`BodyHash.NormalSurvivesIff`, `PageText.WrittenPagePassesHashRuleIff`).
9. **Signals**: open signals never share kind and key; a pair of slugs is proposed as a contradiction at most
   once, exactly when no labelling call has accepted labels that name one slug twice or a pair whose earlier
   proposal lacks a slug (`SignalRuns.OpenSignalsStayUnique`, `SignalRuns.PairsStayUniqueIff`). An approved
   contradiction leaves a curator's edge that stands through every later run (`SignalEdges.ApprovedEdgeStays`), and
   a verdict on a proposal is final (`SignalRuns.VerdictIsFinal`). Any settled signal stays settled exactly until a
   draft is begun from it, which nothing forbids for the other kinds (`SignalRuns.StaysSettledIff`,
   `SignalRuns.DroppedSignalIsRevived`).

Where code and documentation differ, the model follows the code: the docstring of `upsert_semantic_edge`
(compendium/graph/schema.py:142-170) and a comment in `link` (compendium/graph/links.py:66-69) speak of
symmetric types being canonicalised, which the code does for LLM writes only; the documented lifecycle `open →
in_progress` (compendium/curate/lifecycle.py:6) is not guarded, and `begin` also moves a dropped or addressed
signal; a comment in the delete (compendium/maintenance/delete.py:112-113) says that a reindex and a graph
rebuild reconcile what it missed, which a graph backfill run before the rebuild undoes; the slug documentation
(compendium/wiki/slug.py:16-26) does not say that a numbered slug may exceed 80 characters; and the lint's
pattern, meant for whole slugs, also accepts one newline behind a slug (`Slug.TrailingNewlinePasses`).

## Model

| member | source | states |
|---|---|---|
| EdgeRules.RegistryMembership | compendium/graph/edge_type.py:39-67 | the extractor may write RELATED_TO and PREREQUISITE_FOR only, the curator sets exactly the semantic types, and RELATED_TO is the one symmetric type |
| EdgeRules.RanksAreAlphabetical | compendium/db/repository.py:1436-1442 | the query orders edge types by their names |
| SemanticGraph.MergeTakesAuthor | compendium/graph/schema.py:201-206 | a write that names an author decides the edge's class, and everything it carries is on the edge afterwards |
| SemanticGraph.CuratorEdgeSurvivesWrite | compendium/graph/schema.py:171-209 | no write of any kind turns a curator edge into an LLM edge or removes it; an LLM write leaves it untouched |
| SemanticGraph.PairTestsIgnoreOrientation | compendium/graph/schema.py:175-199 | for a symmetric type the protection and linkage tests give the same answer for both directions |
| SemanticGraph.CollisionExactly | compendium/graph/schema.py:175-199 | a write collides if and only if it is the LLM's and a curator edge stands on the pair; a collision changes nothing |
| SemanticGraph.WriteTouchesOneEdge | compendium/graph/schema.py:188-209 | an accepted write changes exactly one tuple: under every key it names the edge carries its value, under every other what the edge carried before |
| Replay.TableLists | compendium/db/repository.py:1436-1442 | a list of rows with distinct keys lists a table: same keys, same provenance |
| Replay.ReplayRestores | compendium/graph/semantic_edges.py:102-118 | replaying rows that are all unblocked restores them verbatim without a collision |
| Replay.ReplayKeepsStructure | compendium/graph/rebuild.py:33-55 | the replay never touches a structural edge |
| Replay.ReplayLosslessIff | compendium/graph/semantic_edges.py:102-118 | replay restores the table if and only if every LLM row of a symmetric type runs smaller id first and no curator row for the opposite direction comes before it |
| DualStore.RecordShape | compendium/graph/semantic_edges.py:51-68 | a recorded write changes both stores on the same tuple, or neither |
| DualStore.WriteKeepsMirror | compendium/graph/semantic_edges.py:51-68 | a write keeps the stores mirrored: same keys, same author class, table values equal to the graph's, LLM edges equal throughout |
| DualStore.QueryOrderIsReplayable | compendium/db/repository.py:1436-1442 | with one label per id, the query's order puts every LLM row of a symmetric type before a reversed curator row |
| DualStore.RebuildRestoresTable | compendium/graph/rebuild.py:33-55 | drop, structural pass and replay leave the table's edges exactly, from any reachable state |
| DualStore.DeleteKeepsMirror | compendium/maintenance/delete.py:99-110 | deleting a source's edges from the table and its nodes from the graph keeps the stores mirrored when both deletes take effect |
| DualStore.DeleteMirrorsIff | compendium/maintenance/delete.py:158-171 | however far the best-effort graph delete gets, it leaves mirrored stores mirrored if and only if it reaches a node of every edge whose row goes |
| DualStore.BackfillKeepsMirror | compendium/graph/semantic_edges.py:129-163 | a backfill of mirrored stores keeps them mirrored, the table now holding the graph's provenance |
| DualStore.BackfillMirrorsIff | compendium/graph/semantic_edges.py:129-163 | a backfill brings stores whose rows stand in the graph back in step if and only if every semantic edge of the graph names its author |
| DualStore.StepKeepsInvariants | compendium/graph/semantic_edges.py:32-163 | every step keeps LLM rows of symmetric types smaller id first and the rows of the table standing in the graph, partial deletes included; rebuild and backfill bring the stores in step, and only a partial delete can take them out of step |
| DualStore.RunKeepsInvariants | compendium/graph/semantic_edges.py:32-163 | after every admissible run from empty stores the shape of the edges holds, every graph edge names its author, and every row of the table stands in the graph with its author and values, equal throughout when it is an LLM edge |
| MirrorRuns.StepOrphans | compendium/maintenance/delete.py:158-171 | an edge of the graph is without a row after a step if and only if the step takes its row and reaches neither node, or it was without one and the step does not settle it |
| MirrorRuns.RunOrphansIff | compendium/maintenance/delete.py:158-171 | after every run an edge stands in the graph without a row if and only if some delete left it behind and no later rebuild, backfill, write of it or delete of its nodes settled it |
| MirrorRuns.RunMirrorsIff | compendium/graph/semantic_edges.py:32-163 | after every run the stores mirror each other if and only if the run leaves no edge behind |
| MirrorRuns.DeleteLeavesEdgeBehind | compendium/maintenance/delete.py:158-171 | a curator's write and a delete that does not reach the graph end with an edge in the graph alone; a backfill then gives the deleted source's edge its row again |
| EdgeTheorems.RebuildIsLossless | compendium/graph/rebuild.py:33-55 | for every run from empty stores, a rebuild hits no collision and leaves exactly the table's edges and provenance |
| EdgeTheorems.SharedIdLosesAnEdge | compendium/db/repository.py:1436-1442 | the order of the query ignores labels: two nodes that share an id give rows whose replay loses an LLM edge |
| EdgeTheorems.BackfillThenRebuild | compendium/graph/semantic_edges.py:129-163 | every semantic edge of the graph survives backfill and rebuild with all it carries; an authorless one comes back as the curator's |
| EdgeTheorems.RunKeepsValue | compendium/graph/schema.py:201-206 | over every run a value stays under its key on an edge of the graph until a write on the tuple names the key, a delete detaches the edge, or a rebuild replaces it |
| EdgeTheorems.WatermarkSurvivesRebuild | compendium/graph/schema.py:268-279 | for mirrored stores the extraction watermark is the same before and after a rebuild |
| EdgeTheorems.WatermarkAfterRebuild | compendium/graph/schema.py:268-279 | when some graph edges have no row, a rebuild never makes the watermark later, and keeps it if and only if there was none or a latest LLM edge has a row |
| EdgeTheorems.WatermarkSurvivesRebuildOverRuns | compendium/graph/schema.py:268-279 | over every run from empty stores, a rebuild never makes the watermark later, and keeps it if and only if there was none or a latest LLM edge has not been left behind by a delete |
| EdgeTheorems.CuratorWriteHolds | compendium/graph/links.py:23-74 | a curator write holds its pair in both stores |
| EdgeTheorems.CuratorProtectedOverRuns | compendium/graph/schema.py:175-199 | once a curator edge stands on a pair, after any later run an LLM write on the pair collides and leaves both stores unchanged |
| EdgeTheorems.OneLlmEdgePerPair | compendium/graph/schema.py:97-118 | in stores whose LLM edges run smaller id first, at most one LLM edge stands on an unordered pair of a symmetric type |
| EdgeTheorems.OneLlmEdgePerPairOverRuns | compendium/graph/schema.py:97-118 | in every reachable state at most one LLM edge stands on an unordered pair of a symmetric type |
| EdgeTheorems.LlmDisposition | compendium/graph/schema.py:175-209 | an LLM write answers written if and only if nothing stands on its pair, refreshed if and only if only LLM edges do |
| EdgeTheorems.LlmWriteGrowth | compendium/graph/semantic_edges.py:51-90 | an LLM write adds one edge to the graph when it answers written and none otherwise; the table gains a row then, or when the write refreshes an edge that had none |
| EdgeStores.GraphStore.UpsertSemanticEdge | compendium/graph/schema.py:133-209 | the code with its flags leaves the graph and returns the disposition that the write rule says |
| EdgeStores.GraphStore.MaxLlmExtractedAt | compendium/graph/schema.py:268-279 | returns the latest extraction time over LLM edges, none when there is none |
| EdgeStores.EdgeTable.UpsertRow | compendium/db/repository.py:1370-1415 | the row of the key is replaced as a whole; other rows stay |
| EdgeStores.EdgeTable.DeleteForNodes | compendium/db/repository.py:209-221 | exactly the rows that touch one of the ids go, and their number is returned |
| EdgeStores.EdgeTable.AllSemanticEdges | compendium/db/repository.py:1436-1442 | lists every row once in the query's order |
| EdgeStores.RecordSemanticEdge | compendium/graph/semantic_edges.py:32-68 | writes the graph, and the table on the graph's tuple unless the write collided |
| EdgeStores.RecordExtractedEdge | compendium/graph/semantic_edges.py:71-90 | refuses a type that is not extractable and then changes nothing; otherwise records the edge |
| EdgeStores.ReplayIntoGraph | compendium/graph/semantic_edges.py:102-118 | the loop leaves the replayed graph and counts the rows |
| EdgeStores.RebuildGraph | compendium/graph/rebuild.py:33-55 | drops, projects and replays; from a reachable state the graph's semantic edges are the table, and its structural ones exactly those projected |
| EdgeStores.BackfillEdges | compendium/graph/semantic_edges.py:129-163 | captures every semantic edge of the graph into the table and counts them |
| EdgeStores.Link | compendium/graph/links.py:23-74 | refuses unknown pages and types that curators may not write, otherwise records an edge of the type, with the curator as author and the weight, from the one page's node to the other's, a source page's being its source's; it then holds its pair in both stores |
| Extraction.FromExtractedEdges | compendium/curate/extract.py:248-340 | the nested loops leave the stores as the accepted proposals do, and the report tallies every answer and every drop |
| Extraction.PassGrowth | compendium/curate/extract.py:303-338 | from any state with well-shaped edges a pass loses no graph edge and gains exactly the writes answered with written; on agreeing stores the table does the same and the stores go on agreeing |
| Extraction.PassTheorem | compendium/curate/extract.py:303-338 | after any run, a pass keeps every graph edge, adds exactly `report.written`, and counts each accepted proposal once; if the run left no edge behind, the table grows alike and the stores agree |
| ExtractionEdges.PassLeaves | compendium/curate/extract.py:264-338 | for every edge, exactly what a pass leaves in both stores: where a curator's edge protects the pair or no proposal asks for the edge, what was there; otherwise the model, confidence, time, revision and weight of the last proposal that asks for it. A proposal asks when it is sure enough and names, last with its id, a neighbour that is present and not structurally linked; a backward prerequisite runs from the neighbour to the page, any other from the page, a related pair from the smaller id |
| ExtractionEdges.PassChangesComeFromOffers | compendium/curate/extract.py:264-338 | every edge that a pass adds or changes comes from such a proposal |
| ExtractionEdges.PassCounts | compendium/curate/extract.py:276-314 | the report's drops are, page by page, the number of structurally linked neighbours and of proposals that are not sure enough |
| IndexTheorems.DrainKeeps | compendium/index/sync.py:92-120 | a drain with any failures renews exactly the claimed rows: each of them is truthful afterwards, every other row keeps row, entry and projection |
| IndexTheorems.PageWriteKeeps | compendium/wiki/vault.py:36-117 | the vault writer renews the page's rows and leaves row, entry and projection of every other one alone |
| IndexTheorems.PageWriteGoesThroughIff | compendium/wiki/vault.py:60-108 | a page write goes through if and only if the page has no lint error, no other page has its kind and slug, and source, parent and topics exist; a missing topic alone leaves the file written |
| IndexTheorems.WrittenPage | compendium/wiki/vault.py:64-117 | the row has every field handed over, with the parent for a topic, source and inspection for a source page, aliases for a concept and none of these for the others; topic links, file and pending sync rows likewise; nothing else changes |
| IndexTheorems.FileOnlyKeeps | compendium/wiki/vault.py:92-108 | a page write that is rolled back because a topic does not exist leaves rows, sync rows and entries alone, and of every projection all but the file's text |
| IndexTheorems.StoreKeeps | compendium/ingest/pipeline.py:158-204 | storing a source renews the rows of its new chunks and leaves every other one alone |
| IndexTheorems.IngestKeeps | compendium/ingest/pipeline.py:82-155 | so does a whole ingestion, on every branch |
| IndexTheorems.TagKeeps | compendium/__main__.py:170-199 | a tag change renews everything whose entry shows the tag and leaves every other row alone, for a page and for a source with all its chunks |
| IndexTheorems.ReindexKeeps | compendium/index/sync.py:188-218 | a reindex renews the rows of its target and leaves every other one alone |
| IndexTheorems.DeleteKeepsRow | compendium/maintenance/delete.py:99-110 | a delete touches no remaining row or entry; a remaining projection changes if and only if its page lists the deleted page, and then loses just that topic |
| IndexTheorems.DeleteRemovesExactly | compendium/maintenance/delete.py:99-119 | a delete takes exactly the source with its documents, chunks and tags, the page with its tags and topic links, and the page's file when that goes through |
| IndexTheorems.DeleteKeepsIff | compendium/maintenance/delete.py:66-130 | a source delete keeps the indexes truthful if and only if no other page with an indexed row lists the deleted page among its topics |
| IndexRuns.RunsStayTended | compendium/index/sync.py:92-120 | in every state of every run the sync rows are exactly those of the live entities, the references between pages, topics, sources and chunks resolve, and content hashes, documents, paths and chunk numbering are in order |
| IndexRuns.IndexedRowsAreTruthfulIff | compendium/index/sync.py:92-120 | in every state of every run an indexed row's store holds the current projection if and only if, since the row was last enqueued or processed, its page has lost no topic link to a deleted source page, no aborted reindex has dropped its entry, and the page's file has kept its text |
| IndexRuns.ChunksAreOutdatedIff | compendium/index/projectors.py:72-81 | a chunk's row is in that exception if and only if an aborted reindex has dropped its entry since |
| IndexedEntries.ProjectionShows | compendium/index/projectors.py:54-105 | what a projector writes is exactly the entry that shows the entity: every field of its row, its own and its source's tags, its topic links, its file |
| IndexedEntries.IndexedEntryShowsIff | compendium/index/sync.py:92-120 | in every state of every run the entry of an indexed row shows its entity, field by field, if and only if the row is not in that exception |
| IndexedEntries.SourceTagReachesEntries | compendium/index/projectors.py:44-56 | a tag added to the page of a source is, after a drain without failure, on the entries of the page and of all the source's chunks in all four stores; a removed one is on none of the chunks' and on the page's only if the page has it of its own; other tags show as before |
| IndexedEntries.PageTagReachesEntries | compendium/__main__.py:170-199 | a tag on any other page is on its entries if and only if it has been added |
| IndexRuns.RunsStayConsistentIff | compendium/maintenance/delete.py:99-110 | a run is consistent throughout if and only if no step of it deletes a source page that a page with an indexed row lists, aborts a reindex after dropping the entry of an indexed row, or rewrites the file of a page with an indexed row and has its rows rolled back |
| StaleTopics.DeletedTopicStaysIndexed | compendium/maintenance/delete.py:99-110 | five steps from the empty state, every write succeeding, after which a row says indexed and its store shows a topic that is gone; writing the page again with that topic is rolled back |
| IndexRuns.QuiescentStoresAgree | compendium/index/sync.py:92-120 | when nothing is pending or failed, a store holds the current projection of a live entity if and only if the entity is not in the exception of IndexedRowsAreTruthfulIff |
| IndexRuns.ReindexIsExact | compendium/index/sync.py:188-218 | when no write fails, a reindex leaves in each target store exactly the live entities with their projections |
| IndexRuns.ReindexRestoresConsistency | compendium/index/sync.py:188-218 | from any state of any run a full reindex in which no write fails makes every indexed row truthful again |
| IndexRuns.ReindexSparesOthers | compendium/index/sync.py:188-218 | whatever fails, the stores and rows of other indexes are unchanged |
| IndexRuns.DrainAccounts | compendium/index/sync.py:92-120 | no claimed row is left pending; a row is failed if and only if its write raised, with at most 2000 characters of the error; each row tried has one more attempt; unclaimed rows are unchanged |
| IndexSync.Database.EnqueueIndex | compendium/db/repository.py:635-658 | the entity's rows are pending again with no attempts and no error; all others are unchanged |
| IndexSync.WriteOne | compendium/index/sync.py:87-120 | one row is written, skipped or failed, and the report counts it |
| IndexSync.Drain | compendium/index/sync.py:92-120 | the loop leaves queue and store as the drain rule says; indexed, failed and skipped add up to the rows claimed, with one error per failure |
| IndexSync.Reindex | compendium/index/sync.py:188-218 | drops and creates the target stores in order, enqueues the live entities and drains; a call that raises leaves the stores dropped so far empty and the queue as it was |
| CorpusWriters.WritePage | compendium/wiki/vault.py:36-117 | the writer's steps amount to the page rule: rows, topic links, file and sync rows; nothing when refused; the file alone when a topic does not exist |
| CorpusWriters.Store | compendium/ingest/pipeline.py:158-204 | a source's row, document, chunks and sync rows are replaced as a whole |
| CorpusWriters.ReadDocument | compendium/ingest/pipeline.py:109-147 | a document's chunks are the chunker's, none when it could not be parsed or did not pass inspection |
| CorpusWriters.IngestDocument | compendium/ingest/pipeline.py:82-155 | known bytes change nothing, a known path updates its source, anything else becomes a new source |
| CorpusWriters.DeleteSource | compendium/maintenance/delete.py:66-171 | canonical rows and sync rows go, derived entries as far as the deletes reach; the edge rows that go are exactly those with the source, one of its chunks or its page at either end, which is the table side of the removal the mirror theorems are about; a dry run, an unknown source or a refusal changes nothing; the report counts what went and lists the errors |
| CorpusWriters.CleanDeleteLeavesNothing | compendium/maintenance/delete.py:111-171 | after a delete whose report lists no error, no sync row, store entry or file of the removed entities is left |
| CorpusWriters.Tag | compendium/__main__.py:170-199 | changes the link and enqueues everything whose entry shows the tag |
| IngestTheorems.IngestKeepsSources | compendium/ingest/pipeline.py:82-204 | content hashes stay unique, each source has one document, paths are unshared, chunk hashes are distinct per source and positions run from 0 without a gap |
| IngestTheorems.ReingestIsIdempotent | compendium/ingest/pipeline.py:94-108 | ingesting bytes already stored, from whatever path, changes nothing |
| IngestTheorems.UpdateReplacesInPlace | compendium/ingest/pipeline.py:109-204 | new bytes at a known path keep the source's id and kind, replace its rows, and touch no other source |
| IngestTheorems.NewPathAddsSource | compendium/ingest/pipeline.py:109-204 | new bytes at a new path add one source and touch no other |
| IngestTheorems.DeleteKeepsSources | compendium/maintenance/delete.py:99-110 | the ingestion invariants survive a delete |
| IngestedTexts.ChunksComeFromIngestion | compendium/ingest/pipeline.py:176-204 | in every state of every run each source's chunks are exactly those of the document its last ingestion read, in order; no later step stores the source |
| IngestedTexts.EveryWindowIsRepresented | compendium/ingest/chunking.py:48-77 | in every reachable corpus every window of a source's document that is not blank has a stored chunk with its normalised hash |
| IngestedTexts.ChunkRowComesFromWindow | compendium/ingest/pipeline.py:176-204 | in every reachable corpus every chunk of a source is the stripped text of a window of its document, with the section's heading, the hash of its normal form and the token estimate |
| Windows.RFindIsLast | compendium/ingest/chunking.py:90-92 | `rfind` finds the last occurrence |
| Windows.SlidingWindows | compendium/ingest/chunking.py:80-100 | the loop ends and returns the windows of the recursive definition |
| Windows.CutsNeverGoBack | compendium/ingest/chunking.py:90-97 | a window that starts before a cut and reaches further is cut at or after it, whichever of space, newline and hard cut each takes |
| Windows.SpansFit | compendium/ingest/chunking.py:80-100 | every window is non-empty and at most the target long; the last ends the text |
| Windows.SpansFollow | compendium/ingest/chunking.py:96-98 | starts strictly increase, ends never go backwards, and a window starts the overlap before the end of the previous, or at that end where the overlap would not move it on |
| Windows.SpansAreWellCut | compendium/ingest/chunking.py:88-95 | every window but the last ends at the last space strictly between its start and its limit; without a space there, at the last newline; without either, at the limit |
| Windows.SpansAreWindowing | compendium/ingest/chunking.py:80-100 | the windows keep all the rules: first start, cuts, overlaps, last end |
| Windows.WindowsAreDetermined | compendium/ingest/chunking.py:80-100 | the rules leave one choice: whatever keeps them is what the loop returns |
| Windows.SharedEndsComeInPairs | compendium/ingest/chunking.py:86-98 | at most two consecutive windows share an end |
| Windows.WindowsCoverText | compendium/ingest/chunking.py:80-100 | the windows without their overlaps, joined, are the text |
| Chunking.HashesAreThePieces | compendium/ingest/chunking.py:48-77 | the chunks' hashes are exactly the normalised hashes of the pieces |
| Chunking.StoredOnce | compendium/ingest/chunking.py:48-77 | chunk hashes are distinct and positions are 0 to n-1 |
| Chunking.ChunksAreFirstOccurrences | compendium/ingest/chunking.py:48-77 | each chunk is made of the first piece with its hash |
| Chunking.EveryWindowIsStored | compendium/ingest/chunking.py:30-77 | every window that is not blank is represented by a chunk |
| Chunking.ChunkSections | compendium/ingest/chunking.py:30-77 | the loops with the seen set and the counter return those chunks, for any token settings |
| ChunkTexts.SameNormalIffSameWords | compendium/ingest/hashing.py:16-21 | two texts have the same normal form behind the hash if and only if they have the same words in the same order |
| ChunkTexts.SectionTextsAre | compendium/ingest/chunking.py:46-57 | the texts of a section are exactly those that the windows of its stripped body cover |
| ChunkTexts.ChunkComesFromWindow | compendium/ingest/chunking.py:43-77 | every chunk is the stripped text of such a window, with its section's heading, hash, token estimate and position |
| ChunkTexts.WindowHasChunk | compendium/ingest/chunking.py:43-77 | every such window that is not blank has a chunk with the hash of its words |
| Fusion.ReciprocalRankFusion | compendium/retrieve/fusion.py:27-50 | the accumulating loops give every id of the union once, with its summed score, ranks and first fields, best first, for every integer setting; they fail if and only if a rank cancels the setting |
| Fusion.FusionOrder | compendium/retrieve/fusion.py:50 | the higher score comes first, among equal scores the smaller id |
| Fusion.ListScoreIsItsTerm | compendium/retrieve/fusion.py:38-50 | a list that ranks an id contributes 1/(rrf_k + rank), stated as a product, and records that rank |
| Fusion.RanksAreRecorded | compendium/retrieve/fusion.py:38-46 | an entry records exactly the retrievers that answer the id, each with its rank |
| Fusion.FieldsAreTheFirst | compendium/retrieve/fusion.py:47-49 | an entry's fields are those of the first hit that carries any |
| Fusion.FusionIgnoresListOrder | compendium/retrieve/fusion.py:38-50 | ids, scores and order do not depend on the order in which lists are visited |
| Fusion.DominanceIsKept | compendium/retrieve/fusion.py:38-50 | an id ranked ahead of another in every list that contains the other precedes it in the output, for every setting of at least -2 |
| Fusion.DominanceNeedsSetting | compendium/retrieve/fusion.py:38-50 | for every smaller setting there are lists in which an id ranked ahead everywhere scores less |
| Fusion.ScoreNegative | compendium/retrieve/fusion.py:38-50 | with a negative setting a fusion that does not fail gives every id a negative score |
| Coverage.CoverageInRange | compendium/retrieve/coverage.py:28-40 | coverage lies in [1/min(top_k, n), 1] |
| Coverage.CoverageLocatesMean | compendium/retrieve/coverage.py:28-40 | coverage says how far, from the lowest score to the highest, the mean of the best min(top_k, n) scores lies |
| Coverage.NothingCovered | compendium/retrieve/coverage.py:28-29 | without scores or without a window the coverage is 0 |
| Coverage.FullCoverageIffTies | compendium/retrieve/coverage.py:28-40 | coverage is 1 if and only if the best min(top_k, n) scores tie |
| Coverage.CoverageIgnoresOrder | compendium/retrieve/coverage.py:28-40 | permuting the scores changes nothing |
| Coverage.CoverageIgnoresScale | compendium/retrieve/coverage.py:28-40 | rescaling by a positive factor and shifting changes nothing |
| Coverage.CoverageFallsWithWindow | compendium/retrieve/coverage.py:28-40 | coverage never increases as top_k grows |
| Expansion.ScoreReached | compendium/retrieve/expansion.py:27-62 | the loop keeps for every reached page the first row with its best score, and returns them strongest first |
| Expansion.HopsDecay | compendium/retrieve/expansion.py:37-38 | one hop from its seed a page scores weight times the seed's score; every further hop multiplies by decay |
| Expansion.ReachedIsBestRow | compendium/retrieve/expansion.py:39-51 | a reached page carries title, hop and seed of the first row with its page's best score |
| Expansion.ReachedOrder | compendium/retrieve/expansion.py:51 | reached pages come strongest first, among equal scores by id |
| Expansion.OutcomeIsDetermined | compendium/retrieve/expansion.py:34-51 | rows and settings determine the reached pages, their scores and their order |
| Expansion.ReachedBelowBestSeed | compendium/retrieve/expansion.py:34-51 | a reached page scores at most weight times the best seed |
| Expansion.ExpandPages | compendium/retrieve/pipeline.py:193-221 | the expansion stage: no change when disabled or nothing new is reached, otherwise the stable merge cut at top_k |
| Expansion.DirectHitsAreFirst | compendium/retrieve/pipeline.py:189 | the direct hits are the first top_k fused hits, with their scores and ranks |
| Expansion.ReachedPageIsPlaced | compendium/retrieve/pipeline.py:206-220 | a reached page that is no direct hit is among the pages, marked with its hops, unless top_k pages score no less |
| Expansion.MergeSparesStrongHits | compendium/retrieve/pipeline.py:208-220 | the merge has distinct ids and at most top_k pages, keeps a prefix of the direct hits in order, and keeps the rank of each one that scores at least the bound |
| Expansion.MergeKeepsTheBest | compendium/retrieve/pipeline.py:219-220 | no page left out scores above a page kept |
| Expansion.ExpansionSparesStrongHits | compendium/retrieve/pipeline.py:193-221 | for every ranking of positive scores and every walk, a direct hit that scores at least weight times the best fused score keeps its rank |
| Expansion.QuerySparesStrongHits | compendium/retrieve/pipeline.py:189-221 | the same from the ranked lists on, for every fusion with a setting of at least -1 |
| Expansion.BestHitStaysFirst | compendium/retrieve/pipeline.py:189-221 | with a weight up to 1 and a fusion setting of at least -1, or neither weight nor decay, the best direct hit keeps the first place in every query |
| Expansion.BestHitNeedsSettings | compendium/retrieve/pipeline.py:189-221 | for all other settings with a weight up to 1 there is a query whose only hit loses its place to a page reached from it |
| TopicTree.MeetsCycle | compendium/wiki/page_kind.py:110-122 | the walk ends for every vault and reports whether the chain meets an id twice |
| TopicTree.EndlessRevisits | compendium/wiki/page_kind.py:114-122 | a chain that never ends is reported |
| TopicTree.RevisitIsEndless | compendium/wiki/page_kind.py:114-122 | a reported chain never ends, for a page its own id leads to |
| TopicTree.MisreportedExactly | compendium/wiki/page_kind.py:114-122 | for any vault the report is wrong if and only if the chain ends after leading to another page that bears the page's id and names a parent |
| TopicTree.SharedIdIsReportedWrongly | compendium/wiki/page_kind.py:114-122 | a vault with a shared id in which a chain that ends is reported |
| TopicTree.LintTopics | compendium/wiki/lint.py:111-145 | the loop over the vault reports exactly the unresolved parents and the circular chains |
| TopicTree.CycleRuleIsExact | compendium/wiki/page_kind.py:110-122 | with distinct non-empty ids a topic is reported if and only if its links never reach a parentless page or an unresolved id |
| TopicTree.CleanVaultIsForest | compendium/wiki/lint.py:111-145 | a vault with distinct ids passes both topic rules if and only if every topic has a finite depth below a root topic |
| Slug.Slugify | compendium/wiki/slug.py:15-50 | the steps and the suffix loop end and return the base, or the base with the least free suffix, at most the number of taken slugs plus one |
| Slug.WordsStayApart | compendium/wiki/slug.py:26-43 | words of letters and digits set apart by whitespace and underscores come out set apart by single hyphens |
| Slug.BlankTitleIsUntitled | compendium/wiki/slug.py:41-42 | a title of whitespace and underscores, or none, is untitled |
| Slug.AsciiSeparator | compendium/wiki/slug.py:8-16 | which printable and space characters separate words |
| Slug.WordCharsAre | compendium/wiki/slug.py:9 | words are made of lower-case letters and digits |
| Slug.DecimalReads | compendium/wiki/slug.py:47-50 | the number behind a slug reads as the suffix it was made from |
| Slug.ShapedIsAccepted | compendium/wiki/lint.py:29 | the pattern up to the end of the text, as an automaton, accepts exactly the non-empty texts of slug characters without double or outer hyphens |
| Slug.PatternAccepts | compendium/wiki/lint.py:29 | the lint's pattern accepts exactly these texts, each with or without one newline behind it |
| Slug.AcceptedIsFixedIff | compendium/wiki/lint.py:83-85 | what the lint accepts is its own base slug if and only if no newline ends it |
| Slug.TrailingNewlinePasses | compendium/wiki/lint.py:83-85 | a slug with a newline behind it that the lint lets pass |
| Slug.BaseIsAccepted | compendium/wiki/slug.py:26-43 | the base slug of every title has the pattern's shape without the newline, at most 80 characters, and so passes the lint |
| Slug.ShortenedIsWholeWords | compendium/wiki/slug.py:36-39 | a long text is cut before the last hyphen among its first 80 characters, within a word only when there is none |
| Slug.TriedWithinTaken | compendium/wiki/slug.py:45-50 | the base and numbered names that are all taken are no more than the taken ones: the suffix search ends by suffix number of taken slugs plus one |
| Slug.SlugIsFreeAndShaped | compendium/wiki/slug.py:44-50 | the slug is not taken and matches the lint's pattern, for every title and every taken set |
| Slug.SlugIsDetermined | compendium/wiki/slug.py:44-50 | title and taken set determine the slug |
| Slug.FreeSlugIsFixed | compendium/wiki/slug.py:26-46 | without a collision the slug has at most 80 characters and is its own slug |
| Slug.NumberedSlugFitsIff | compendium/wiki/slug.py:47-50 | after a collision the slug passes the lint if and only if some numbered form of the base is not taken and has at most 80 characters |
| Slug.LongCollisionIsRefused | compendium/wiki/slug.py:47-50 | two pages titled with the same 80 letters: the second slug has 82 characters and the lint refuses it |
| BodyHash.NormalIsIdempotent | compendium/wiki/page.py:42-50 | normalising a body twice is normalising it once |
| BodyHash.NormalForm | compendium/wiki/page.py:48-49 | the normal form is the indentation of the first line with content and the stripped body with trimmed lines |
| BodyHash.LinesAreTrimmed | compendium/wiki/page.py:48-49 | trimming keeps the lines, each up to its last character that is no whitespace |
| BodyHash.NormalSurvivesIff | compendium/wiki/page.py:42-50 | the normal form survives write and read if and only if that line is not indented; otherwise it loses just that indentation |
| BodyHash.StoredHashMatchesIff | compendium/wiki/lint.py:90-92 | the stored hash matches the body read back if and only if that line is not indented |
| BodyHash.IndentedBodyDrifts | compendium/wiki/lint.py:90-92 | a body for which the hash rule fails |
| PageText.ParseOfPrint | compendium/wiki/page.py:107-125 | parsing a printed page gives its fields and its stripped body, also when the body has `---` lines |
| PageText.ReadOfWritten | compendium/wiki/vault.py:92-94 | the same through a text file whose line ends are read as newlines |
| PageText.ReadPageIsFixed | compendium/wiki/page.py:107-150 | a page that was read is a fixed point of writing and reading |
| PageText.FieldsReturn | compendium/wiki/page.py:88-105 | the front matter gives back every common field and the fields of the page's kind |
| PageText.FrontmatterNames | compendium/wiki/page.py:88-105 | the front matter has exactly the common keys and those of the page's kind, each with the page's field of that name |
| PageText.ParseRefusesIff | compendium/wiki/page.py:119-124 | a text is refused for lack of a block, or for one that is not closed, exactly when the opening or a closing line of three hyphens is missing |
| PageText.EmptyHeaderIsDraft | compendium/wiki/page.py:130-150 | the defaults of a page whose front matter says nothing |
| PageText.WrittenPagePassesHashRuleIff | compendium/wiki/vault.py:59 | a written page, read from the vault, passes the hash rule if and only if the first line with content is not indented |
| Signals.RunRepresentsEveryCandidate | compendium/curate/run.py:118-134 | after a run every candidate's kind and key is among the open signals |
| Signals.RunKeepsUnique | compendium/curate/run.py:118-134 | a run keeps open signals distinct in kind and key |
| Signals.KeysTellSubjectsApart | compendium/db/repository.py:1215-1222 | the dedup key tells queries, pages and edges apart |
| Signals.RunAddsCandidates | compendium/curate/run.py:118-134 | a run adds candidates as they are, open, and only those no open signal has the key of |
| Signals.EverySubjectIsRepresented | compendium/curate/run.py:118-134 | after a run every query, page and edge of its candidates has an open signal of its kind |
| SignalTable.InsertCandidates | compendium/curate/run.py:118-134 | the loop with its key set inserts exactly the candidates that no open signal represents, and its tallies count the rows added |
| SignalTable.Begin | compendium/curate/lifecycle.py:29-42 | the signal is in progress and carries its draft, whatever its status was |
| SignalTable.AddressOnPromote | compendium/curate/lifecycle.py:45-64 | one in-progress signal whose draft has the slug becomes addressed with the revision, and a promoted concept gets the curator's SYNTHESIZES edge to each source when the graph is up; without a signal nothing changes |
| SignalTable.Resolve | compendium/curate/resolve.py:69-95 | each verdict and each refusal; an approval leaves the curator's CONTRADICTS edge, with weight 1, from the one page's node to the other's in both stores and settles the signal, nothing else touches the stores |
| SignalTable.FromContradictionCandidates | compendium/curate/contradict.py:194-276 | the loops add exactly the proposals of the pass, and every report counter is the number of rows, drops or doubtful labels it names |
| Contradictions.NeighboursAreAccountedFor | compendium/curate/contradict.py:223-243 | each neighbour is asked about or dropped for exactly one reason |
| Contradictions.PageKeepsPairsIff | compendium/curate/contradict.py:248-273 | one page keeps the proposed pairs unique if and only if the slugs its accepted labels name are distinct and none belongs to a pair whose earlier proposal lacks a slug |
| Contradictions.ProposalsNameAcceptedSlugs | compendium/curate/contradict.py:248-273 | a proposal is made for every accepted label, in order, and names its slug |
| ProposedPairs.LabelAddsItsSignal | compendium/curate/contradict.py:222-273 | label by label: a signal is added if and only if the label is sure enough and names a neighbour that is present, not linked and not in a known pair; it means the last with its id, and carries both slugs, the rationale and the fixed priority |
| ProposedPairs.PassKnowsExactly | compendium/curate/contradict.py:210-274 | at every page the pairs not asked about again are exactly those with a proposal in the table, in any status, with both slugs if it is from before the pass |
| ProposedPairs.ReportCounts | compendium/curate/contradict.py:213-273 | page by page the report counts the signals, the unsure labels, the linked neighbours and the known pairs |
| Contradictions.WithSlugsDistinctIsEnough | compendium/curate/contradict.py:248-273 | where page and neighbours have slugs, distinctness alone is the condition |
| Contradictions.PassKeepsPairsIff | compendium/curate/contradict.py:213-273 | so does a whole pass, call by call |
| Contradictions.RepeatedLabelRepeatsPair | compendium/curate/contradict.py:248-273 | a labeller that names one neighbour twice gets two proposals for one pair |
| Contradictions.TallyCountsNewRows | compendium/curate/contradict.py:194-276 | `report.proposed` is the number of rows added, behind the old ones |
| SignalRuns.OpenSignalsStayUnique | compendium/db/repository.py:1201-1222 | over every run of curating, beginning, resolving and promoting, no two open signals of the registry kinds share kind and dedup key |
| SignalRuns.OneOpenSignalEach | compendium/db/repository.py:1201-1222 | over every run two open signals of a kind are about different queries, pages or edges |
| SignalRuns.CuratedSubjectsAreOpen | compendium/curate/run.py:118-134 | over every run a curation leaves an open signal for each query, page and edge its candidates are about |
| SignalRuns.StepKeepsSignals | compendium/db/repository.py:1255-1300 | no step reopens a signal, and none changes a signal's kind, slugs or dedup key |
| SignalRuns.VerdictSettles | compendium/curate/resolve.py:69-95 | a drop works on every unsettled signal, an approval exactly on such a proposal with both slugs leading to pages; the one marks it dropped, the other addressed, nothing else changes and the next verdict is refused |
| SignalRuns.DraftSteps | compendium/curate/lifecycle.py:29-64 | beginning a draft puts the signal in progress and tags it with page id and slug, a promotion marks it addressed by the revision; nothing else changes |
| SignalRuns.RunsAddressRightly | compendium/curate/resolve.py:69-95 | over every run a signal is addressed only by a revision or as an approved proposal with both slugs |
| SignalRuns.SettledUntilBegun | compendium/curate/lifecycle.py:29-42 | a step leaves a settled signal settled, and its row as it is, if and only if it does not begin a draft from it; then verdicts apply again |
| SignalRuns.StaysSettledIff | compendium/curate/lifecycle.py:29-42 | over every run a settled signal is settled in all later states if and only if no later step begins a draft from it |
| SignalRuns.SettledRowStays | compendium/curate/lifecycle.py:29-42 | over every run without such a step its row stays exactly as it is |
| SignalRuns.DroppedSignalIsRevived | compendium/curate/lifecycle.py:41-42 | a query's signal is proposed, dropped and begun, and is in progress again |
| SignalRuns.VerdictIsFinal | compendium/curate/resolve.py:1-12 | over every run of the program's callers a dropped or approved contradiction proposal stays exactly as it is, and every further verdict on it is refused |
| SignalRuns.BegunSignalIsAddressed | compendium/curate/lifecycle.py:29-64 | promoting a signal's draft closes a signal, and that very one when no other in progress has the slug |
| SignalRuns.PairsStayUniqueIff | compendium/db/repository.py:1597-1608 | over every run at most one proposal exists per unordered pair of slugs in any status if and only if no labelling call has accepted labels that name one slug twice or a pair whose earlier proposal lacks a slug |
| SignalEdges.ApprovedEdgeStays | compendium/curate/resolve.py:42-66 | after any later run that spares the two pages, rebuilds included, the approved CONTRADICTS edge stands in both stores as the curator's, and an extractor's write on it collides |
| SignalEdges.SynthesisHoldsEverySource | compendium/curate/lifecycle.py:66-86 | after the loop of a promotion the SYNTHESIZES edge from the concept to every source is held in both stores |
| SignalEdges.SynthesisSparesOthers | compendium/curate/lifecycle.py:66-86 | a promotion leaves every other edge as it is, and with a page that is no concept all of them |
| SignalRuns.MissingSlugIsProposedAgain | compendium/db/repository.py:1608 | a neighbour without a slug is proposed again by the next run |

## Left out

- DualStore.RunKeepsInvariants: writes name nodes as the program resolves them (one label per id), carry an author, and carry the extractor's whole bag when they are the extractor's.
- Unknown edge-type, label and kind strings: types and labels are datatypes, so a malformed name is not expressible.
- Slug resolution in `link` and the JSON parsing of LLM answers: resolved pages and parsed labels are inputs.
- `delete_semantic_edge_row` (compendium/db/repository.py:1418): nothing in the program calls it.
- The order in which a drain claims rows: the result is proved for every order, since each row has its own entry.
- Graph nodes and structural edges after a drain: the graph projector only merges, so they are not compared; the structural pass of a rebuild counts as adding no semantic edge.
- Transactions rolled back after a graph write, or after a vault write for another reason than a missing topic; concurrent drains or runs, and edits of vault files by hand: steps are atomic and run one at a time.
- Foreign keys from revisions, promotions and signals on delete; provenance entries that are explicitly null; rows without an author, which the schema forbids (migrations/versions/0013_semantic_edges.py:34-48).
- Fusion.FusionIgnoresListOrder: speaks of ids, scores and order; the ranks and fields of an entry may depend on the order in which lists name the same retriever or carry fields first.
- CorpusWriters.WritePage: the body stands for the file's text, since the indexes read nothing else of the file.
- Signals.EverySubjectIsRepresented: payloads are as the generators fill them (compendium/curate/signals.py:30-84), with a query text that is not empty.
- SignalRuns.VerdictIsFinal: drafts are begun through `synth_from_signal` (compendium/curate/synth.py:29-53), which raises for the two contradiction kinds because their payloads have no title; `SignalRuns.StaysSettledIff` needs no such rule.
- Expansion.ExpansionSparesStrongHits: top_k and seed_k are natural numbers, walk rows are at least one hop away (as the graph query returns them), and the graph walk itself is an input.
- Rounding of floating-point scores: scores are real numbers.
- SHA-256, YAML, and Unicode lowercasing and decomposition are parameters with the laws a lemma names: YAML reads back what it wrote and puts no bare `---` line behind the first line of a block; lowercasing and decomposition keep slug characters; the hash tells the two normal forms of a lemma apart.
- PageText.ParseOfPrint: field values are text, lists of text, text mappings or null; how Python shows any other value is a parameter, and the order of front-matter keys is not modelled.
- SignalTable.Resolve: the pages that a proposal's slugs lead to are inputs, and so are the sources of a promoted page's grounding chunks in `SignalTable.AddressOnPromote`.
- Titles, kinds, confidence and prompt id inside a proposal's payload, which no modelled code reads; which pages changed since the last proposal is an input.
- Autonomous drafting (`curate/autocurate.py`), page statuses, query normalisation, the remaining lint rules (required fields, timestamps, aliases, concept topic ids, source ids), and everything that renders, serves or measures: they add plumbing or easy members.
- The older copy of the program under `2Deploy/`.
