/** The writers of canonical rows: each changes its rows and enqueues what it made stale, in one
    transaction. */
module CorpusWriters {
  import opened Wrappers
  import opened Corpus
  import opened IndexQueue
  import opened IngestTheorems
  import opened IndexSync
  import Chunking
  import DualStore
  import EdgeStores

  /** The three indexes every page and chunk is projected into. */
  const PAGE_INDEXES := {OpenSearchPages, QdrantPages, Memgraph}
  const CHUNK_INDEXES := {OpenSearchChunks, QdrantChunks, Memgraph}

  /** Replace a page's topic links. */
  method SetPageTopics(db: Database, page: Id, topics: set<Id>)
    modifies db`corpus
    ensures db.corpus == old(db.corpus).(
              topics := (set t | t in old(db.corpus).topics && t.0 != page) + set t | t in topics :: (page, t))
  {
    var others := set t | t in db.corpus.topics && t.0 != page;
    var links: set<(Id, Id)> := {};
    var rest := topics;
    while rest != {}
      invariant rest <= topics
      invariant links == set t | t in topics && t !in rest :: (page, t)
      decreases rest
    {
      var topic :| topic in rest;
      links := links + {(page, topic)};
      rest := rest - {topic};
    }
    db.corpus := db.corpus.(topics := others + links);
  }

  /** Lint, write the row and the file, link the topics of a concept, enqueue. When a topic does not exist, the
      database goes back to where it was, and the file stays written. */
  method WritePage(db: Database, pw: PageWrite, newId: Id) returns (accepted: bool)
    modifies db
    ensures var w := World(old(db.corpus), old(db.rows), map[]);
            && (accepted <==> IndexQueue.WritePage(w, pw, newId).Saved?)
            && World(db.corpus, db.rows, map[]) == AfterPage(w, IndexQueue.WritePage(w, pw, newId))
  {
    var id := pw.id.GetOr(newId);
    var row := KindColumns(pw.row);
    if !PageAccepted(db.corpus, id, row, pw.lintClean) {
      return false;
    }
    var before := db.corpus;
    db.corpus := before.(pages := before.pages[id := row], vault := before.vault[row.Path() := pw.text]);
    if row.kind.ConceptPage? {
      if exists t :: t in pw.topics && t !in db.corpus.pages {
        db.corpus := before.(vault := db.corpus.vault);
        return false;
      }
      SetPageTopics(db, id, pw.topics);
    }
    db.EnqueueIndex(PageEntity, id, PAGE_INDEXES);
    assert KeysOf(PageEntity, {id}, PAGE_INDEXES) == PageKeys(id);
    accepted := true;
  }

  method InsertChunks(s: Id, inputs: seq<ChunkInput>, ids: seq<Id>) returns (chunks: map<Id, ChunkRow>)
    requires |ids| == |inputs| && Distinct(ids)
    ensures chunks == NewChunks(s, inputs, ids)
  {
    chunks := map[];
    var i := 0;
    while i < |inputs|
      invariant i <= |inputs|
      invariant forall id :: id in chunks <==> id in ids[..i]
      invariant forall j :: 0 <= j < i ==> chunks[ids[j]] == StoredChunk(s, j, inputs[j])
    {
      chunks := chunks[ids[i] := StoredChunk(s, i, inputs[i])];
      i := i + 1;
    }
    assert ids[..i] == ids;
  }

  /** Write a source, its document and its chunks; drop the sync rows of the chunks it had and enqueue
      the new ones. */
  method Store(db: Database, s: Id, doc: Document, ids: NewIds)
    requires |ids.chunks| == |doc.chunks| && Distinct(ids.chunks)
    modifies db
    ensures db.corpus == Stored(old(db.corpus), s, doc, ids)
    ensures db.rows == StoredRows(World(old(db.corpus), old(db.rows), map[]), s, doc, ids)
  {
    var c := db.corpus;
    var gone := set r | r in db.rows && r.entity.ChunkEntity? && r.id in ChunksOf(c, s);
    db.rows := Dequeued(db.rows, gone);
    var kind := if s in c.sources then c.sources[s].kind else doc.kind;
    var others := map ch | ch in c.chunks && c.chunks[ch].sourceId != s :: c.chunks[ch];
    var documents := map d | d in c.documents && c.documents[d].sourceId != s :: c.documents[d];
    var inserted := InsertChunks(s, doc.chunks, ids.chunks);
    db.corpus := c.(sources := c.sources[s := SourceRow(kind, doc.title, doc.contentHash)],
                    documents := documents[ids.document := DocumentRow(s, doc.path)],
                    chunks := others + inserted);
    db.EnqueueAll(ChunkEntity, (set id | id in ids.chunks), CHUNK_INDEXES);
  }

  /** Read a document: what was parsed and passed inspection is chunked. */
  method ReadDocument(path: string, contentHash: string, kind: string, title: string, parsed: Option<Parsed>,
                      sha: string -> string)
    returns (doc: Document)
    ensures doc == Document(path, contentHash, kind, title, parsed, doc.chunks) && ChunkedWith(doc, sha)
  {
    var inputs: seq<ChunkInput> := [];
    if parsed.Some? {
      var p := parsed.value;
      var chunks := Chunking.ChunkSections(p.sections, p.targetTokens, p.overlapTokens, sha);
      inputs := InputsOf(chunks);
    }
    doc := Document(path, contentHash, kind, title, parsed, inputs);
  }

  /** Ingest one document: leave known bytes alone, update the source at the path in place, or add a
      source. */
  method IngestDocument(db: Database, doc: Document, ids: NewIds) returns (status: IngestStatus)
    requires DocumentsOk(db.corpus.sources.Keys, db.corpus.documents)
    requires |ids.chunks| == |doc.chunks| && Distinct(ids.chunks)
    modifies db
    ensures IngestOutcome(status, World(db.corpus, db.rows, map[]))
            == Ingest(World(old(db.corpus), old(db.rows), map[]), doc, ids)
  {
    if Known(db.corpus, doc.contentHash) {
      return Unchanged;
    }
    if HasDocumentAt(db.corpus, doc.path) {
      var d :| d in db.corpus.documents && db.corpus.documents[d].path == doc.path;
      Store(db, db.corpus.documents[d].sourceId, doc, ids);
      status := Updated;
    } else {
      Store(db, ids.source, doc, ids);
      status := Ingested;
    }
  }

  datatype DeleteReport = DeleteReport(
    found: bool, chunkCount: nat, pageRemoved: bool, semanticEdgesRemoved: nat, syncRowsRemoved: nat,
    derivedErrors: seq<string>)

  /** How the best-effort deletes went: the error of each, and the entries they reached. */
  datatype Derived = Derived(
    file: Option<string>, opensearch: Option<string>, qdrant: Option<string>, memgraph: Option<string>,
    reached: set<RowKey>)

  function Line(prefix: string, error: Option<string>): seq<string> {
    if error.Some? then [prefix + error.value] else []
  }

  function Errors(derived: Derived, hasPage: bool): seq<string> {
    (if hasPage then Line("vault file: ", derived.file) else [])
    + Line("opensearch: ", derived.opensearch) + Line("qdrant: ", derived.qdrant) + Line("memgraph: ", derived.memgraph)
  }

  /** A store whose deletes raised no error has none of the removed entries left. */
  ghost predicate Honest(store: map<RowKey, Entry>, derived: Derived, ids: set<Id>) {
    forall r :: r in store && r.id in ids ==>
      match r.index
      case OpenSearchPages => derived.opensearch.None? ==> r in derived.reached
      case OpenSearchChunks => derived.opensearch.None? ==> r in derived.reached
      case QdrantPages => derived.qdrant.None? ==> r in derived.reached
      case QdrantChunks => derived.qdrant.None? ==> r in derived.reached
      case Memgraph => true
  }

  /** The id is the source's, one of its chunks', or its page's. */
  predicate BelongsTo(id: int, c: Corpus, s: Id, page: Option<Id>) {
    || id == s
    || (exists ch :: ch in c.chunks && c.chunks[ch].sourceId == s && id == ch)
    || (page.Some? && id == page.value)
  }

  /** What a delete of the source takes out of the two stores of edges. */
  ghost function RemovalOf(c: Corpus, s: Id, page: Option<Id>): DualStore.Removal {
    DualStore.Removal(s, (set ch | ch in c.chunks && c.chunks[ch].sourceId == s :: ch as int),
                      if page.Some? then Some(page.value as int) else None)
  }

  function EdgeIds(c: Corpus, s: Id, page: Option<Id>): set<int> {
    {s} + set id | id in RemovedEntities(c, s, page) :: id as int
  }

  lemma EdgeIdsBelong(c: Corpus, s: Id, page: Option<Id>)
    ensures forall id :: id in EdgeIds(c, s, page) <==> BelongsTo(id, c, s, page)
    ensures EdgeIds(c, s, page) == RemovalOf(c, s, page).TableIds()
  {
    var ids := RemovedEntities(c, s, page);
    forall id: int
      ensures id in EdgeIds(c, s, page) <==> BelongsTo(id, c, s, page)
      ensures id in RemovalOf(c, s, page).TableIds() <==> BelongsTo(id, c, s, page)
    {
      if id >= 0 {
        assert id in ids <==> (id in c.chunks && c.chunks[id].sourceId == s) || page == Some(id);
      }
    }
  }

  function SyncRowsOf(rows: Queue, ids: set<Id>): set<RowKey> {
    set r | r in rows && r.id in ids
  }

  /** Delete a source, its page, and everything keyed on them; a dry run only counts. Refused while another
      page refers to either, and then nothing changes. */
  method DeleteSource(db: Database, conn: EdgeStores.EdgeTable, stores: DerivedStores, s: Id, page: Option<Id>,
                      dryRun: bool, derived: Derived)
    returns (refused: bool, report: DeleteReport)
    modifies db, conn, stores
    ensures report.found <==> s in old(db.corpus).sources
    ensures report.found ==> report.chunkCount == |ChunksOf(old(db.corpus), s)|
    ensures !report.found || dryRun ==> !refused
    ensures !report.found || dryRun || refused ==>
              WorldOf(db, stores) == old(WorldOf(db, stores)) && conn.rows == old(conn.rows)
    ensures report.found && !dryRun ==>
              var r := IndexQueue.DeleteSource(old(WorldOf(db, stores)), s, page, derived.file.None?, derived.reached);
              && refused == r.Refused?
              && (!refused ==> r == Done(WorldOf(db, stores)))
    ensures report.found && !dryRun && !refused ==>
              var ids := RemovedEntities(old(db.corpus), s, page);
              && report.pageRemoved == page.Some?
              && report.syncRowsRemoved == |old(db.rows)| - |db.rows|
              && (forall k :: k in conn.rows <==>
                    && k in old(conn.rows)
                    && !BelongsTo(k.fromId, old(db.corpus), s, page) && !BelongsTo(k.toId, old(db.corpus), s, page))
              && (forall g, reach ::
                    conn.rows == DualStore.Deleted(DualStore.Stores(g, old(conn.rows)),
                                                   RemovalOf(old(db.corpus), s, page), reach).table)
              && (forall k :: k in conn.rows ==> conn.rows[k] == old(conn.rows[k]))
              && report.semanticEdgesRemoved == |old(conn.rows)| - |conn.rows|
              && report.derivedErrors == Errors(derived, page.Some?)
  {
    refused := false;
    if s !in db.corpus.sources {
      return false, DeleteReport(false, 0, false, 0, 0, []);
    }
    report := DeleteReport(true, |ChunksOf(db.corpus, s)|, false, 0, 0, []);
    if dryRun {
      return;
    }
    refused := StillReferenced(db.corpus, s, page);
    if refused {
      return;
    }
    var ids := RemovedEntities(db.corpus, s, page);
    EdgeIdsBelong(db.corpus, s, page);
    var edges := conn.DeleteForNodes(EdgeIds(db.corpus, s, page));
    var gone := SyncRowsOf(db.rows, ids);
    assert |db.rows| == |db.rows.Keys| && (db.rows.Keys - gone) + gone == db.rows.Keys;
    db.rows := Dequeued(db.rows, gone);
    assert |db.rows| == |db.rows.Keys|;
    db.corpus := SourceRemoved(db.corpus, s, page, derived.file.None?);
    stores.entries := stores.entries - (set r | r in stores.entries && r in derived.reached && r.id in ids);
    report := report.(pageRemoved := page.Some?, semanticEdgesRemoved := edges, syncRowsRemoved := |gone|,
                      derivedErrors := Errors(derived, page.Some?));
  }

  /** A report without errors means what it says: no sync row and no store entry of the removed entities is
      left, and neither is the page's file. */
  lemma CleanDeleteLeavesNothing(w: World, s: Id, page: Option<Id>, derived: Derived)
    requires Honest(w.store, derived, RemovedEntities(w.corpus, s, page)) && Errors(derived, page.Some?) == []
    requires IndexQueue.DeleteSource(w, s, page, derived.file.None?, derived.reached).Done?
    ensures var v := IndexQueue.DeleteSource(w, s, page, derived.file.None?, derived.reached).value;
            && (forall r :: r in v.rows ==> r.id !in RemovedEntities(w.corpus, s, page))
            && (forall r :: r in v.store && Tracked(r) ==> r.id !in RemovedEntities(w.corpus, s, page))
            && (page.Some? && page.value in w.corpus.pages ==> w.corpus.pages[page.value].Path() !in v.corpus.vault)
  {
  }

  /** Add or remove a tag; the affected entities are projected again. */
  method Tag(db: Database, page: Id, name: string, add: bool)
    requires page in db.corpus.pages
    modifies db
    ensures World(db.corpus, db.rows, map[])
            == IndexQueue.Tag(World(old(db.corpus), old(db.rows), map[]), page, name, add)
  {
    var p := db.corpus.pages[page];
    var isSource := p.kind.SourcePage? && p.sourceId.Some?;
    ghost var rows0 := db.rows;
    if isSource {
      var tags := db.corpus.sourceTags;
      db.corpus := db.corpus.(
        sourceTags := if add then tags + {(p.sourceId.value, name)} else tags - {(p.sourceId.value, name)});
    } else {
      var tags := db.corpus.pageTags;
      db.corpus := db.corpus.(pageTags := if add then tags + {(page, name)} else tags - {(page, name)});
    }
    db.EnqueueIndex(PageEntity, page, PAGE_KINDS);
    if isSource {
      var chunks := ChunksOf(db.corpus, p.sourceId.value);
      EnqueuedMore(rows0, PageIndexKeys(page), KeysOf(ChunkEntity, chunks, CHUNK_KINDS));
      db.EnqueueAll(ChunkEntity, chunks, CHUNK_KINDS);
    }
  }
}
