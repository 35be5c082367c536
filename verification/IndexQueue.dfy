/** The sync queue and the derived stores: every step that changes canonical rows, the queue or the
    stores, and the invariant that ties the three together. */
module IndexQueue {
  import opened Wrappers
  import opened Corpus
  import Chunking

  datatype SyncState = Pending | Indexed | Failed

  datatype SyncRow = SyncRow(state: SyncState, attempts: nat, lastError: Option<string>)

  const ENQUEUED := SyncRow(Pending, 0, None)

  type Queue = map<RowKey, SyncRow>

  /** Canonical rows, sync queue, and the content of the derived stores. */
  datatype World = World(corpus: Corpus, rows: Queue, store: map<RowKey, Entry>)

  // ----- the queue -----------------------------------------------------------------------------

  /** Insert or reset: pending, no attempts, no error. */
  function Enqueued(rows: Queue, keys: set<RowKey>): (q: Queue)
    ensures q.Keys == rows.Keys + keys
    ensures forall r :: r in q ==> q[r] == if r in keys then ENQUEUED else rows[r]
  {
    rows + map r | r in keys :: ENQUEUED
  }

  function Dequeued(rows: Queue, gone: set<RowKey>): (q: Queue)
    ensures q.Keys == rows.Keys - gone
    ensures forall r :: r in q ==> q[r] == rows[r]
  {
    rows - gone
  }

  function Claimed(rows: Queue, kinds: set<IndexKind>): set<RowKey> {
    set r | r in rows && rows[r].state.Pending? && r.index in kinds
  }

  // ----- draining ------------------------------------------------------------------------------

  // What the outside world does to one write: it succeeds, or raises with or without the store
  // having taken the entry.
  datatype Fate = Succeeds | Raises(taken: bool, error: string)

  type Fates = RowKey -> Fate

  /** What each claimed row's projector would write now. */
  type Plan = map<RowKey, Option<Entry>>

  function PlanOf(c: Corpus, claimed: set<RowKey>): (plan: Plan)
    ensures plan.Keys == claimed
    ensures forall r :: r in plan ==> plan[r] == Projection(c, r)
  {
    map r | r in claimed :: Projection(c, r)
  }

  /** The entity is gone: its row is dropped. */
  predicate Skips(entry: Option<Entry>, fate: Fate) {
    fate.Succeeds? && entry.None?
  }

  /** The write reaches the store. Graph nodes are not compared, so they are not stored here. */
  predicate Lands(r: RowKey, entry: Option<Entry>, fate: Fate) {
    Tracked(r) && entry.Some? && (fate.Succeeds? || fate.taken)
  }

  function Marked(row: SyncRow, fate: Fate): SyncRow {
    match fate
    case Succeeds => SyncRow(Indexed, row.attempts + 1, None)
    case Raises(_, e) => SyncRow(Failed, row.attempts + 1, Some(if |e| > 2000 then e[..2000] else e))
  }

  function DrainedRows(rows: Queue, plan: Plan, fate: Fates): (q: Queue)
    ensures forall r :: r in q <==> r in rows && !(r in plan && Skips(plan[r], fate(r)))
    ensures forall r :: r in q ==> q[r] == if r in plan then Marked(rows[r], fate(r)) else rows[r]
  {
    map r | r in rows && !(r in plan && Skips(plan[r], fate(r))) ::
      if r in plan then Marked(rows[r], fate(r)) else rows[r]
  }

  function DrainedStore(store: map<RowKey, Entry>, plan: Plan, fate: Fates): (m: map<RowKey, Entry>)
    ensures forall r :: r in m <==> r in store || (r in plan && Lands(r, plan[r], fate(r)))
    ensures forall r :: r in m ==>
              m[r] == if r in plan && Lands(r, plan[r], fate(r)) then plan[r].value else store[r]
  {
    store + map r | r in plan && Lands(r, plan[r], fate(r)) :: plan[r].value
  }

  /** All claimed rows processed, each on its own. */
  function Drained(w: World, claimed: set<RowKey>, fate: Fates): World {
    var plan := PlanOf(w.corpus, claimed);
    World(w.corpus, DrainedRows(w.rows, plan, fate), DrainedStore(w.store, plan, fate))
  }

  datatype Target = Pages | Chunks | All

  function TargetKinds(t: Target): set<IndexKind> {
    match t
    case Pages => {OpenSearchPages, QdrantPages}
    case Chunks => {OpenSearchChunks, QdrantChunks}
    case All => {OpenSearchPages, QdrantPages, OpenSearchChunks, QdrantChunks}
  }

  /** The rows of some entities for some indexes. */
  function KeysOf(entity: EntityKind, ids: set<Id>, kinds: set<IndexKind>): (keys: set<RowKey>)
    ensures forall r :: r in keys <==> r.entity == entity && r.id in ids && r.index in kinds
  {
    set id, i | id in ids && i in kinds :: RowKey(entity, id, i)
  }

  const PAGE_KINDS := {OpenSearchPages, QdrantPages}
  const CHUNK_KINDS := {OpenSearchChunks, QdrantChunks}

  /** The rows a reindex enqueues: every live entity of the target, for the target's indexes. */
  function TargetRows(c: Corpus, t: Target): (keys: set<RowKey>)
    ensures forall r :: r in keys <==> Live(c, r) && r.index in TargetKinds(t)
  {
    (if t.Chunks? then {} else KeysOf(PageEntity, c.pages.Keys, PAGE_KINDS))
    + if t.Pages? then {} else KeysOf(ChunkEntity, c.chunks.Keys, CHUNK_KINDS)
  }

  /** The entries left when the stores of some indexes are recreated empty. */
  function Emptied(store: map<RowKey, Entry>, kinds: set<IndexKind>): map<RowKey, Entry> {
    map r | r in store && r.index !in kinds :: store[r]
  }

  /** The target stores recreated empty and every live entity of the target enqueued. */
  function Restarted(w: World, t: Target): World {
    World(w.corpus, Enqueued(w.rows, TargetRows(w.corpus, t)), Emptied(w.store, TargetKinds(t)))
  }

  /** The order in which a reindex recreates its stores. */
  function RecreateOrder(t: Target): seq<IndexKind> {
    (if t.Chunks? then [] else [OpenSearchPages, QdrantPages])
    + if t.Pages? then [] else [OpenSearchChunks, QdrantChunks]
  }

  function FirstKinds(t: Target, n: nat): set<IndexKind>
    requires n <= |RecreateOrder(t)|
  {
    set k | k in RecreateOrder(t)[..n]
  }

  /** A reindex that raises when n stores have been dropped: nothing is enqueued, and the rows stay as they were. */
  function Aborted(w: World, t: Target, n: nat): World
    requires n <= |RecreateOrder(t)|
  {
    World(w.corpus, w.rows, Emptied(w.store, FirstKinds(t, n)))
  }

  function Reindexed(w: World, t: Target, fate: Fates): World {
    var e := Restarted(w, t);
    Drained(e, Claimed(e.rows, TargetKinds(t)), fate)
  }

  // ----- writing a page --------------------------------------------------------------------------

  /** A page as a writer hands it over: id None for a new page; lintClean says that no error-severity
      rule fired. */
  datatype PageWrite = PageWrite(id: Option<Id>, row: PageRow, topics: set<Id>, text: string, lintClean: bool)

  datatype Result<T> = Done(value: T) | Refused

  /** The kind decides which optional columns a row carries. */
  function KindColumns(row: PageRow): PageRow {
    match row.kind
    case SourcePage => row.(aliases := [], parentTopic := None)
    case ConceptPage => row.(parentTopic := None, sourceId := None, inspection := "")
    case TopicPage => row.(aliases := [], sourceId := None, inspection := "")
  }

  predicate SlugTaken(c: Corpus, id: Id, row: PageRow) {
    exists p :: p in c.pages && p != id && c.pages[p].Path() == row.Path()
  }

  /** The lint refusal and the constraint violations raised before the file is touched. */
  predicate PageAccepted(c: Corpus, id: Id, row: PageRow, lintClean: bool) {
    && lintClean
    && !SlugTaken(c, id, row)
    && (row.sourceId.Some? ==> row.sourceId.value in c.sources)
    && (row.parentTopic.Some? ==> row.parentTopic.value in c.pages || row.parentTopic.value == id)
  }

  function PageWritten(c: Corpus, id: Id, row: PageRow, topics: set<Id>, text: string): Corpus {
    c.(pages := c.pages[id := row],
       topics := if row.kind.ConceptPage?
                 then (set t | t in c.topics && t.0 != id) + set t | t in topics :: (id, t)
                 else c.topics,
       vault := c.vault[row.Path() := text])
  }

  /** The foreign key of a concept's topic links. */
  predicate TopicsExist(c: Corpus, id: Id, row: PageRow, topics: set<Id>) {
    row.kind.ConceptPage? ==> forall t :: t in topics ==> t in c.pages || t == id
  }

  // What the vault writer does: write everything; write the file and have the rows rolled back, since a topic
  // does not exist; or refuse.
  datatype PageOutcome = Saved(world: World) | FileOnly(world: World) | NotWritten

  function WritePage(w: World, pw: PageWrite, newId: Id): PageOutcome {
    var id := pw.id.GetOr(newId);
    var row := KindColumns(pw.row);
    if !PageAccepted(w.corpus, id, row, pw.lintClean) then NotWritten
    else if !TopicsExist(w.corpus, id, row, pw.topics) then
      FileOnly(World(w.corpus.(vault := w.corpus.vault[row.Path() := pw.text]), w.rows, w.store))
    else
      Saved(World(PageWritten(w.corpus, id, row, pw.topics, pw.text), Enqueued(w.rows, PageKeys(id)), w.store))
  }

  function AfterPage(w: World, o: PageOutcome): World {
    match o
    case Saved(v) => v
    case FileOnly(v) => v
    case NotWritten => w
  }

  /** What every caller of the vault writer sees to: an update names an existing page and keeps its
      kind, a new page gets a new id, and a source page is only written for a source that has none or
      whose page it is. */
  ghost predicate WriterOk(w: World, pw: PageWrite, newId: Id) {
    && (pw.id.Some? ==> pw.id.value in w.corpus.pages && w.corpus.pages[pw.id.value].kind == pw.row.kind)
    && (pw.id.None? ==> newId !in w.corpus.pages && newId !in w.corpus.chunks)
    && (forall p :: p in w.corpus.pages && p != pw.id.GetOr(newId) && KindColumns(pw.row).sourceId.Some? ==>
          w.corpus.pages[p].sourceId != KindColumns(pw.row).sourceId)
  }

  // ----- ingesting -------------------------------------------------------------------------------

  datatype ChunkInput = ChunkInput(section: Option<string>, body: string, bodyHash: string, tokens: nat)

  /** What parsing gives, with the chunk sizes of the configuration. */
  datatype Parsed = Parsed(sections: seq<Chunking.Section>, targetTokens: int, overlapTokens: int)

  /** A read document; parsed is None when it could not be parsed or did not pass inspection. */
  datatype Document = Document(
    path: string, contentHash: string, kind: string, title: string, parsed: Option<Parsed>, chunks: seq<ChunkInput>)

  function InputOf(c: Chunking.Chunk<string>): ChunkInput {
    ChunkInput(c.parentSection, c.body, c.bodyHash, c.tokenCount)
  }

  function InputsOf(chunks: seq<Chunking.Chunk<string>>): seq<ChunkInput> {
    seq(|chunks|, i requires 0 <= i < |chunks| => InputOf(chunks[i]))
  }

  /** The inputs carry what the chunks do. */
  predicate AreInputsOf(inputs: seq<ChunkInput>, chunks: seq<Chunking.Chunk<string>>) {
    && |inputs| == |chunks|
    && forall i :: 0 <= i < |inputs| ==>
         && inputs[i].section == chunks[i].parentSection && inputs[i].body == chunks[i].body
         && inputs[i].bodyHash == chunks[i].bodyHash && inputs[i].tokens == chunks[i].tokenCount
  }

  /** The document's chunks are the chunker's, none for a document without sections. */
  ghost predicate ChunkedWith(doc: Document, sha: string -> string) {
    match doc.parsed
    case None => doc.chunks == []
    case Some(p) =>
      AreInputsOf(doc.chunks, Chunking.ChunksFor(p.sections, p.targetTokens, p.overlapTokens, sha))
  }

  /** The chunker gives no two chunks of a document the same hash. */
  lemma ChunkedAreDistinct(doc: Document, sha: string -> string)
    requires ChunkedWith(doc, sha)
    ensures forall i, j :: 0 <= i < j < |doc.chunks| ==> doc.chunks[i].bodyHash != doc.chunks[j].bodyHash
  {
    if doc.parsed.Some? {
      var p := doc.parsed.value;
      Chunking.StoredOnce(Chunking.AllPieces(p.sections, Chunking.AtLeast(1, p.targetTokens * 4),
                                             Chunking.AtLeast(0, p.overlapTokens * 4)), sha);
    }
  }

  // Ids the database generates for the inserted rows.
  datatype NewIds = NewIds(source: Id, document: Id, chunks: seq<Id>)

  predicate Known(c: Corpus, hash: string) {
    exists s :: s in c.sources && c.sources[s].contentHash == hash
  }

  predicate HasDocumentAt(c: Corpus, path: string) {
    exists d :: d in c.documents && c.documents[d].path == path
  }

  /** The source whose document is at the path. Paths are unique in every reachable corpus. */
  ghost function SourceAt(c: Corpus, path: string): Id
    requires HasDocumentAt(c, path)
  {
    var d :| d in c.documents && c.documents[d].path == path;
    c.documents[d].sourceId
  }

  function ChunksOf(c: Corpus, s: Id): set<Id> {
    set ch | ch in c.chunks && c.chunks[ch].sourceId == s
  }

  function KeysOfChunks(ids: set<Id>): (keys: set<RowKey>)
    ensures forall r :: r in keys <==>
              r.entity.ChunkEntity? && r.id in ids && r.index in {OpenSearchChunks, QdrantChunks, Memgraph}
  {
    KeysOf(ChunkEntity, ids, {OpenSearchChunks, QdrantChunks, Memgraph})
  }

  function StoredChunk(s: Id, position: nat, x: ChunkInput): ChunkRow {
    ChunkRow(s, position, x.section, x.body, x.bodyHash, x.tokens)
  }

  function NewChunks(s: Id, inputs: seq<ChunkInput>, ids: seq<Id>): (m: map<Id, ChunkRow>)
    requires |ids| == |inputs| && Distinct(ids)
    ensures forall id :: id in m <==> id in ids
    ensures forall i :: 0 <= i < |ids| ==> m[ids[i]] == StoredChunk(s, i, inputs[i])
  {
    map i | 0 <= i < |ids| :: ids[i] := StoredChunk(s, i, inputs[i])
  }

  predicate Distinct(ids: seq<Id>) {
    forall i, j :: 0 <= i < j < |ids| ==> ids[i] != ids[j]
  }

  /** One source's chunk rows replaced by new ones. */
  function ChunksReplaced(chunks: map<Id, ChunkRow>, s: Id, inputs: seq<ChunkInput>, ids: seq<Id>)
    : (m: map<Id, ChunkRow>)
    requires |ids| == |inputs| && Distinct(ids)
    ensures forall ch :: ch in m <==> ch in ids || (ch in chunks && chunks[ch].sourceId != s)
    ensures forall ch :: ch in m && ch !in ids ==> m[ch] == chunks[ch]
    ensures forall i :: 0 <= i < |ids| ==> m[ids[i]] == StoredChunk(s, i, inputs[i])
  {
    (map ch | ch in chunks && chunks[ch].sourceId != s :: chunks[ch]) + NewChunks(s, inputs, ids)
  }

  /** The rows of one source replaced: its row, its document, its chunks. An update keeps the kind. */
  function Stored(c: Corpus, s: Id, doc: Document, ids: NewIds): Corpus
    requires |ids.chunks| == |doc.chunks| && Distinct(ids.chunks)
  {
    var kind := if s in c.sources then c.sources[s].kind else doc.kind;
    var kept := map d | d in c.documents && c.documents[d].sourceId != s :: c.documents[d];
    c.(sources := c.sources[s := SourceRow(kind, doc.title, doc.contentHash)],
       documents := kept[ids.document := DocumentRow(s, doc.path)],
       chunks := ChunksReplaced(c.chunks, s, doc.chunks, ids.chunks))
  }

  function StoredRows(w: World, s: Id, doc: Document, ids: NewIds): Queue {
    Enqueued(Dequeued(w.rows, set r | r in w.rows && r.entity.ChunkEntity? && r.id in ChunksOf(w.corpus, s)),
             KeysOfChunks(set id | id in ids.chunks))
  }

  datatype IngestStatus = Unchanged | Updated | Ingested

  datatype IngestOutcome = IngestOutcome(status: IngestStatus, world: World)

  /** One document ingested: nothing for bytes already known, otherwise stored over the source at its
      path, or as a new source. */
  ghost function Ingest(w: World, doc: Document, ids: NewIds): IngestOutcome
    requires |ids.chunks| == |doc.chunks| && Distinct(ids.chunks)
  {
    if Known(w.corpus, doc.contentHash) then IngestOutcome(Unchanged, w)
    else
      var update := HasDocumentAt(w.corpus, doc.path);
      var s := if update then SourceAt(w.corpus, doc.path) else ids.source;
      IngestOutcome(
        if update then Updated else Ingested,
        World(Stored(w.corpus, s, doc, ids), StoredRows(w, s, doc, ids), w.store))
  }

  /** Generated ids are new, and the chunks are the chunker's for some body hash. */
  ghost predicate IngestOk(w: World, doc: Document, ids: NewIds) {
    && |ids.chunks| == |doc.chunks| && Distinct(ids.chunks)
    && ids.source !in w.corpus.sources && ids.document !in w.corpus.documents
    && (forall id :: id in ids.chunks ==> id !in w.corpus.chunks && id !in w.corpus.pages)
    && exists sha: string -> string :: ChunkedWith(doc, sha)
  }

  // ----- deleting and tagging ----------------------------------------------------------------------

  predicate IsPageOf(c: Corpus, p: Id, s: Id) {
    p in c.pages && c.pages[p].sourceId == Some(s)
  }

  /** The rows that go with a source and its page, if it has one. */
  function SourceRemoved(c: Corpus, s: Id, page: Option<Id>, fileGone: bool): Corpus {
    var goneFile := if page.Some? && page.value in c.pages && fileGone then {c.pages[page.value].Path()} else {};
    var gonePage := if page.Some? then {page.value} else {};
    Corpus(
      c.sources - {s},
      (map d | d in c.documents && c.documents[d].sourceId != s :: c.documents[d]),
      (map ch | ch in c.chunks && c.chunks[ch].sourceId != s :: c.chunks[ch]),
      c.pages - gonePage,
      (set t | t in c.topics && t.0 !in gonePage && t.1 !in gonePage),
      (set t | t in c.sourceTags && t.0 != s),
      (set t | t in c.pageTags && t.0 !in gonePage),
      c.vault - goneFile)
  }

  function RemovedEntities(c: Corpus, s: Id, page: Option<Id>): set<Id> {
    ChunksOf(c, s) + if page.Some? then {page.value} else {}
  }

  /** A foreign key without cascade points at what would be deleted. */
  predicate StillReferenced(c: Corpus, s: Id, page: Option<Id>) {
    exists p :: p in c.pages && Some(p) != page
                && (c.pages[p].sourceId == Some(s) || (page.Some? && c.pages[p].parentTopic == page))
  }

  /** A hard delete: canonical rows and sync rows first, then whatever part of the derived entries the
      best-effort deletes reach. */
  function DeleteSource(w: World, s: Id, page: Option<Id>, fileGone: bool, reached: set<RowKey>): Result<World> {
    if StillReferenced(w.corpus, s, page) then Refused
    else
      var ids := RemovedEntities(w.corpus, s, page);
      Done(World(SourceRemoved(w.corpus, s, page, fileGone),
                 Dequeued(w.rows, set r | r in w.rows && r.id in ids),
                 w.store - (set r | r in w.store && r in reached && r.id in ids)))
  }

  /** The source exists, and the page is the source's page if it has one. */
  ghost predicate DeleteOk(w: World, s: Id, page: Option<Id>) {
    && s in w.corpus.sources
    && (page.Some? ==> IsPageOf(w.corpus, page.value, s))
    && (page.None? ==> forall p :: !IsPageOf(w.corpus, p, s))
  }

  function Retagged(tags: set<(Id, string)>, id: Id, name: string, add: bool): set<(Id, string)> {
    if add then tags + {(id, name)} else tags - {(id, name)}
  }

  function PageIndexKeys(page: Id): set<RowKey> {
    KeysOf(PageEntity, {page}, PAGE_KINDS)
  }

  function TagPage(w: World, page: Id, name: string, add: bool): World {
    World(w.corpus.(pageTags := Retagged(w.corpus.pageTags, page, name, add)),
          Enqueued(w.rows, PageIndexKeys(page)), w.store)
  }

  function TrackedKeysOfChunks(ids: set<Id>): set<RowKey> {
    KeysOf(ChunkEntity, ids, CHUNK_KINDS)
  }

  function TagSource(w: World, page: Id, s: Id, name: string, add: bool): World {
    World(w.corpus.(sourceTags := Retagged(w.corpus.sourceTags, s, name, add)),
          Enqueued(w.rows, PageIndexKeys(page) + TrackedKeysOfChunks(ChunksOf(w.corpus, s))), w.store)
  }

  /** The tag verb on a page: a source page's tag goes to its source, and everything whose entry
      carries the tag is enqueued again. */
  function Tag(w: World, page: Id, name: string, add: bool): World
    requires page in w.corpus.pages
  {
    var p := w.corpus.pages[page];
    if p.kind.SourcePage? && p.sourceId.Some? then TagSource(w, page, p.sourceId.value, name, add)
    else TagPage(w, page, name, add)
  }
}
