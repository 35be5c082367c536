/** Agreement of the derived indexes with the canonical rows, over every run. */
module IndexTheorems {
  import opened Wrappers
  import opened Corpus
  import opened IndexQueue

  // ----- the invariant -------------------------------------------------------------------------

  /** The store holds the entity's current projection. */
  ghost predicate Agrees(w: World, r: RowKey) {
    r in w.store && Some(w.store[r]) == Projection(w.corpus, r)
  }

  /** A row that says indexed tells the truth. */
  ghost predicate Truthful(w: World, r: RowKey) {
    r in w.rows && w.rows[r].state.Indexed? && Tracked(r) ==> Agrees(w, r)
  }

  ghost predicate Covered(w: World) {
    forall r :: r in w.rows <==> Live(w.corpus, r)
  }

  /** The canonical rows are in order, and the sync rows are exactly those of the live entities. */
  ghost predicate Tended(w: World) {
    PagesOk(w.corpus) && Covered(w)
  }

  /** Tended, and every indexed row is truthful. */
  ghost predicate Consistent(w: World) {
    Tended(w) && forall r :: r in w.rows ==> Truthful(w, r)
  }

  lemma LiveHasProjection(c: Corpus, r: RowKey)
    requires PagesOk(c) && Live(c, r)
    ensures Projection(c, r).Some?
  {
  }

  /** A step left the row and the store's entry for it as they were. */
  ghost predicate Untouched(w: World, v: World, r: RowKey) {
    && r in w.rows && r in v.rows && v.rows[r] == w.rows[r]
    && (r in v.store <==> r in w.store)
    && (r in v.store ==> v.store[r] == w.store[r])
  }

  /** What a step does to a row: it renews the row, which then tells the truth if it says indexed, or it
      leaves row, entry and projection alone. */
  ghost predicate KeptRow(w: World, v: World, r: RowKey, renewed: set<RowKey>) {
    if r in renewed then Truthful(v, r)
    else Untouched(w, v, r) && Projection(v.corpus, r) == Projection(w.corpus, r)
  }

  ghost predicate Kept(w: World, v: World, renewed: set<RowKey>) {
    Tended(v) && forall r :: r in v.rows && Tracked(r) ==> KeptRow(w, v, r, renewed)
  }

  /** A step that keeps every row keeps the invariant. */
  lemma KeptIsConsistent(w: World, v: World, renewed: set<RowKey>)
    requires Consistent(w) && Kept(w, v, renewed)
    ensures Consistent(v)
  {
    forall r | r in v.rows
      ensures Truthful(v, r)
    {
      if Tracked(r) {
        assert KeptRow(w, v, r, renewed);
      }
    }
  }

  /** A page's projections read its row, its file, its tags and its topics, and nothing else. */
  lemma PageReads(c: Corpus, d: Corpus, r: RowKey)
    requires r.entity.PageEntity? && Live(c, r) && Live(d, r)
    requires c.pages[r.id] == d.pages[r.id]
    requires var path := c.pages[r.id].Path(); path in c.vault && path in d.vault && c.vault[path] == d.vault[path]
    requires PageTags(c, r.id) == PageTags(d, r.id)
    requires TopicsOf(c.topics, r.id) == TopicsOf(d.topics, r.id)
    ensures Projection(c, r) == Projection(d, r)
  {
  }

  /** A chunk's projections read its row, its source's row and its source's tags. */
  lemma ChunkReads(c: Corpus, d: Corpus, r: RowKey)
    requires r.entity.ChunkEntity? && Live(c, r) && Live(d, r)
    requires c.chunks[r.id] == d.chunks[r.id]
    requires var s := c.chunks[r.id].sourceId;
             && s in c.sources && s in d.sources && c.sources[s] == d.sources[s]
             && TagsOf(c.sourceTags, s) == TagsOf(d.sourceTags, s)
    ensures Projection(c, r) == Projection(d, r)
  {
  }

  // ----- steps -----------------------------------------------------------------------------------

  lemma DrainKeepsRow(w: World, claimed: set<RowKey>, fate: Fates, r: RowKey)
    requires Tended(w) && claimed <= w.rows.Keys && r in w.rows
    ensures r in Drained(w, claimed, fate).rows
    ensures Tracked(r) ==> KeptRow(w, Drained(w, claimed, fate), r, claimed)
  {
    LiveHasProjection(w.corpus, r);
    assert !Skips(Projection(w.corpus, r), fate(r));
  }

  /** A drain with any failures renews the rows it claims. */
  lemma DrainKeeps(w: World, claimed: set<RowKey>, fate: Fates)
    requires Tended(w) && claimed <= w.rows.Keys
    ensures Kept(w, Drained(w, claimed, fate), claimed)
  {
    var v := Drained(w, claimed, fate);
    forall r | r in w.rows
      ensures r in v.rows && (Tracked(r) ==> KeptRow(w, v, r, claimed))
    {
      DrainKeepsRow(w, claimed, fate, r);
    }
  }

  /** A reindex renews the rows of its target. */
  lemma ReindexKeeps(w: World, t: Target, fate: Fates)
    requires Tended(w)
    ensures Kept(w, Reindexed(w, t, fate), TargetRows(w.corpus, t))
  {
    var e := Restarted(w, t);
    RestartedClaims(w, t);
    DrainKeeps(e, TargetRows(w.corpus, t), fate);
    var v := Reindexed(w, t, fate);
    forall r | r in v.rows && Tracked(r)
      ensures KeptRow(w, v, r, TargetRows(w.corpus, t))
    {
      assert KeptRow(e, v, r, TargetRows(w.corpus, t));
    }
  }

  lemma RestartedClaims(w: World, t: Target)
    requires Covered(w)
    ensures Claimed(Restarted(w, t).rows, TargetKinds(t)) == TargetRows(w.corpus, t)
    ensures Restarted(w, t).rows.Keys == w.rows.Keys
  {
    var e := Restarted(w, t);
    forall r | r in Claimed(e.rows, TargetKinds(t))
      ensures r in TargetRows(w.corpus, t)
    {
      assert r in w.rows;
    }
  }

  /** A page write leaves every other page's and every chunk's projection as it was. */
  lemma PageWriteFrame(c: Corpus, id: Id, row: PageRow, topics: set<Id>, text: string, r: RowKey)
    requires PagesOk(c) && !SlugTaken(c, id, row) && Live(c, r)
    requires r !in PageKeys(id)
    ensures Projection(PageWritten(c, id, row, topics, text), r) == Projection(c, r)
  {
    var d := PageWritten(c, id, row, topics, text);
    if r.entity.PageEntity? {
      assert r.id != id;
      assert c.pages[r.id].Path() != row.Path();
      assert TopicsOf(d.topics, r.id) == TopicsOf(c.topics, r.id);
      assert PageTags(d, r.id) == PageTags(c, r.id);
    }
  }

  /** A page write goes through exactly when the page is free of lint errors, no other page has its kind and slug, and
      the source, the parent and the topics it names exist. With everything but a topic in order only the file is
      written; otherwise nothing is. */
  lemma PageWriteGoesThroughIff(w: World, pw: PageWrite, newId: Id)
    ensures var id, c := pw.id.GetOr(newId), w.corpus;
            var inOrder :=
              && pw.lintClean
              && (forall p :: p in c.pages && p != id ==>
                    c.pages[p].kind != pw.row.kind || c.pages[p].slug != pw.row.slug)
              && (pw.row.kind.SourcePage? && pw.row.sourceId.Some? ==> pw.row.sourceId.value in c.sources)
              && (pw.row.kind.TopicPage? && pw.row.parentTopic.Some? ==>
                    pw.row.parentTopic.value in c.pages || pw.row.parentTopic.value == id);
            var topicsExist := pw.row.kind.ConceptPage? ==> forall t :: t in pw.topics ==> t in c.pages || t == id;
            && (WritePage(w, pw, newId).Saved? <==> inOrder && topicsExist)
            && (WritePage(w, pw, newId).FileOnly? <==> inOrder && !topicsExist)
  {
    var id := pw.id.GetOr(newId);
    assert forall p :: p in w.corpus.pages ==>
             (w.corpus.pages[p].Path() == KindColumns(pw.row).Path()
              <==> w.corpus.pages[p].kind == pw.row.kind && w.corpus.pages[p].slug == pw.row.slug);
  }

  /** What an accepted page write leaves: the row as it was handed over, with the parent for a topic, the source and
      the inspection for a source page and the aliases for a concept, and without these for the other kinds; for a
      concept exactly the given topic links; the text in the page's file; the page's three sync rows pending. Nothing
      else changes. */
  lemma WrittenPage(w: World, pw: PageWrite, newId: Id)
    requires WritePage(w, pw, newId).Saved?
    ensures var id, v := pw.id.GetOr(newId), WritePage(w, pw, newId).world;
            && id in v.corpus.pages
            && var row := v.corpus.pages[id];
            && row.kind == pw.row.kind && row.slug == pw.row.slug && row.title == pw.row.title
            && row.status == pw.row.status && row.stamp == pw.row.stamp
            && row.inspection == (if row.kind.SourcePage? then pw.row.inspection else "")
            && row.parentTopic == (if row.kind.TopicPage? then pw.row.parentTopic else None)
            && row.sourceId == (if row.kind.SourcePage? then pw.row.sourceId else None)
            && row.aliases == (if row.kind.ConceptPage? then pw.row.aliases else [])
            && v.corpus.vault == w.corpus.vault[(pw.row.kind, pw.row.slug) := pw.text]
            && (forall p, t ::
                  (p, t) in v.corpus.topics
                  <==> if p == id && row.kind.ConceptPage? then t in pw.topics else (p, t) in w.corpus.topics)
            && v.corpus == w.corpus.(
                             pages := w.corpus.pages[id := row], topics := v.corpus.topics, vault := v.corpus.vault)
            && v.store == w.store
            && (forall r :: r in v.rows <==> r in w.rows || r in PageKeys(id))
            && (forall r :: r in v.rows ==>
                  v.rows[r] == if r in PageKeys(id) then SyncRow(Pending, 0, None) else w.rows[r])
  {
  }

  lemma PageWriteKeepsPagesOk(w: World, pw: PageWrite, newId: Id)
    requires PagesOk(w.corpus) && WriterOk(w, pw, newId) && WritePage(w, pw, newId).Saved?
    ensures PagesOk(WritePage(w, pw, newId).world.corpus)
  {
    var id, row := pw.id.GetOr(newId), KindColumns(pw.row);
    var d := WritePage(w, pw, newId).world.corpus;
    forall p, q | p in d.pages && q in d.pages && p != q
      ensures d.pages[p].Path() != d.pages[q].Path()
      ensures d.pages[p].sourceId.Some? ==> d.pages[p].sourceId != d.pages[q].sourceId
    {
      assert !SlugTaken(w.corpus, id, row);
    }
  }

  lemma PageWriteKeepsCovered(w: World, pw: PageWrite, newId: Id)
    requires Covered(w) && WritePage(w, pw, newId).Saved?
    ensures Covered(WritePage(w, pw, newId).world)
  {
    var id, v := pw.id.GetOr(newId), WritePage(w, pw, newId).world;
    forall r: RowKey
      ensures r in v.rows <==> Live(v.corpus, r)
    {
      assert r in w.rows <==> Live(w.corpus, r);
      assert r in v.rows <==> r in w.rows || r in PageKeys(id);
    }
  }

  lemma PageWriteKeepsRow(w: World, pw: PageWrite, newId: Id, r: RowKey)
    requires Tended(w) && WriterOk(w, pw, newId) && WritePage(w, pw, newId).Saved?
    requires r in WritePage(w, pw, newId).world.rows && Tracked(r)
    ensures KeptRow(w, WritePage(w, pw, newId).world, r, PageKeys(pw.id.GetOr(newId)))
  {
    var id, row := pw.id.GetOr(newId), KindColumns(pw.row);
    if r !in PageKeys(id) {
      PageWriteFrame(w.corpus, id, row, pw.topics, pw.text, r);
    }
  }

  /** What the vault writer changes it enqueues. */
  lemma PageWriteKeeps(w: World, pw: PageWrite, newId: Id)
    requires Tended(w) && WriterOk(w, pw, newId) && WritePage(w, pw, newId).Saved?
    ensures Kept(w, WritePage(w, pw, newId).world, PageKeys(pw.id.GetOr(newId)))
  {
    PageWriteKeepsPagesOk(w, pw, newId);
    PageWriteKeepsCovered(w, pw, newId);
    var v := WritePage(w, pw, newId).world;
    forall r | r in v.rows && Tracked(r)
      ensures KeptRow(w, v, r, PageKeys(pw.id.GetOr(newId)))
    {
      PageWriteKeepsRow(w, pw, newId, r);
    }
  }

  /** The text of the page's file; "" for a chunk. */
  function FileText(c: Corpus, r: RowKey): string {
    if r.entity.PageEntity? && r.id in c.pages && c.pages[r.id].Path() in c.vault then c.vault[c.pages[r.id].Path()]
    else ""
  }

  /** The text of a file that an entry carries. */
  function EntryText(e: Option<Entry>): string {
    match e
    case Some(PageDocument(_, _, _, body)) => body
    case Some(PagePoint(_, _, body)) => body
    case _ => ""
  }

  /** The rest of the entry. */
  function Textless(e: Option<Entry>): Option<Entry> {
    match e
    case Some(PageDocument(fields, inspection, aliases, _)) => Some(PageDocument(fields, inspection, aliases, ""))
    case Some(PagePoint(fields, title, _)) => Some(PagePoint(fields, title, ""))
    case _ => e
  }

  /** A page write whose rows are rolled back leaves rows, entries and sync rows alone, and of every projection all
      but the file's text. */
  lemma FileOnlyKeeps(w: World, pw: PageWrite, newId: Id, r: RowKey)
    requires Tended(w) && WritePage(w, pw, newId).FileOnly?
    ensures var v := WritePage(w, pw, newId).world;
            && Tended(v) && v.rows == w.rows && v.store == w.store
            && (Live(w.corpus, r) && Tracked(r) ==>
                  Textless(Projection(v.corpus, r)) == Textless(Projection(w.corpus, r)))
  {
    var v := WritePage(w, pw, newId).world;
    assert v.corpus == w.corpus.(vault := v.corpus.vault) && w.corpus.vault.Keys <= v.corpus.vault.Keys;
    OtherFilesKeep(w.corpus, v.corpus, r);
    assert forall q :: Live(v.corpus, q) <==> Live(w.corpus, q);
  }

  lemma OtherFilesKeep(c: Corpus, d: Corpus, r: RowKey)
    requires PagesOk(c) && d == c.(vault := d.vault) && c.vault.Keys <= d.vault.Keys
    ensures PagesOk(d)
    ensures Live(c, r) && Tracked(r) ==> Textless(Projection(d, r)) == Textless(Projection(c, r))
  {
  }

  /** What storing a source leaves alone. */
  lemma StoredElsewhere(c: Corpus, s: Id, doc: Document, ids: NewIds)
    requires |ids.chunks| == |doc.chunks| && Distinct(ids.chunks)
    ensures var d := Stored(c, s, doc, ids);
            && d.pages == c.pages && d.vault == c.vault && d.topics == c.topics
            && d.pageTags == c.pageTags && d.sourceTags == c.sourceTags
            && d.sources.Keys == c.sources.Keys + {s}
            && (forall t :: t in c.sources && t != s ==> d.sources[t] == c.sources[t])
            && (forall ch :: ch in d.chunks <==> ch in ids.chunks || (ch in c.chunks && c.chunks[ch].sourceId != s))
            && (forall ch :: ch in d.chunks && ch !in ids.chunks ==> d.chunks[ch] == c.chunks[ch])
            && (forall ch :: ch in ids.chunks ==> d.chunks[ch].sourceId == s)
  {
    forall ch | ch in ids.chunks
      ensures ch in Stored(c, s, doc, ids).chunks && Stored(c, s, doc, ids).chunks[ch].sourceId == s
    {
      var i :| 0 <= i < |ids.chunks| && ids.chunks[i] == ch;
    }
  }

  lemma StoredRowsElsewhere(w: World, s: Id, doc: Document, ids: NewIds)
    requires Covered(w) && IngestOk(w, doc, ids)
    ensures var q := StoredRows(w, s, doc, ids);
            && q.Keys == (w.rows.Keys - KeysOfChunks(ChunksOf(w.corpus, s)))
                         + KeysOfChunks(set id | id in ids.chunks)
            && (forall r :: r in q ==>
                  q[r] == if r in KeysOfChunks(set id | id in ids.chunks) then ENQUEUED else w.rows[r])
  {
    var old_ := set r | r in w.rows && r.entity.ChunkEntity? && r.id in ChunksOf(w.corpus, s);
    assert old_ == KeysOfChunks(ChunksOf(w.corpus, s));
  }

  lemma StoreKeepsCovered(w: World, s: Id, doc: Document, ids: NewIds)
    requires Covered(w) && IngestOk(w, doc, ids)
    ensures Covered(World(Stored(w.corpus, s, doc, ids), StoredRows(w, s, doc, ids), w.store))
  {
    StoredElsewhere(w.corpus, s, doc, ids);
    StoredRowsElsewhere(w, s, doc, ids);
  }

  lemma StoreKeepsPagesOk(w: World, s: Id, doc: Document, ids: NewIds)
    requires PagesOk(w.corpus) && IngestOk(w, doc, ids)
    ensures PagesOk(Stored(w.corpus, s, doc, ids))
  {
    StoredElsewhere(w.corpus, s, doc, ids);
  }

  lemma StoreCarriesOver(w: World, s: Id, doc: Document, ids: NewIds, r: RowKey)
    requires Tended(w) && IngestOk(w, doc, ids)
    ensures Live(w.corpus, r) && Live(Stored(w.corpus, s, doc, ids), r)
            && !(r.entity.ChunkEntity? && r.id in ids.chunks) ==>
              Projection(Stored(w.corpus, s, doc, ids), r) == Projection(w.corpus, r)
  {
    var d := Stored(w.corpus, s, doc, ids);
    StoredElsewhere(w.corpus, s, doc, ids);
    if Live(w.corpus, r) && Live(d, r) {
      if r.entity.PageEntity? {
        PageReads(w.corpus, d, r);
      } else if r.id !in ids.chunks {
        ChunkReads(w.corpus, d, r);
      }
    }
  }

  /** Storing a source replaces its chunks together with their sync rows. */
  lemma StoreKeeps(w: World, s: Id, doc: Document, ids: NewIds)
    requires Tended(w) && IngestOk(w, doc, ids)
    ensures Kept(w, World(Stored(w.corpus, s, doc, ids), StoredRows(w, s, doc, ids), w.store),
                 KeysOfChunks(set id | id in ids.chunks))
  {
    var v := World(Stored(w.corpus, s, doc, ids), StoredRows(w, s, doc, ids), w.store);
    StoreKeepsPagesOk(w, s, doc, ids);
    StoreKeepsCovered(w, s, doc, ids);
    StoredRowsElsewhere(w, s, doc, ids);
    forall r | r in v.rows && Tracked(r)
      ensures KeptRow(w, v, r, KeysOfChunks(set id | id in ids.chunks))
    {
      if r !in KeysOfChunks(set id | id in ids.chunks) {
        StoreCarriesOver(w, s, doc, ids, r);
      }
    }
  }

  /** An ingestion renews the rows of the chunks it inserts, on every branch. */
  lemma IngestKeeps(w: World, doc: Document, ids: NewIds)
    requires Tended(w) && IngestOk(w, doc, ids)
    ensures Kept(w, Ingest(w, doc, ids).world,
                 if Known(w.corpus, doc.contentHash) then {} else KeysOfChunks(set id | id in ids.chunks))
  {
    if !Known(w.corpus, doc.contentHash) {
      var s := if HasDocumentAt(w.corpus, doc.path) then SourceAt(w.corpus, doc.path) else ids.source;
      StoreKeeps(w, s, doc, ids);
    }
  }

  lemma TagsElsewhere(tags: set<(Id, string)>, id: Id, name: string, add: bool, other: Id)
    requires other != id
    ensures TagsOf(Retagged(tags, id, name, add), other) == TagsOf(tags, other)
  {
    var after := Retagged(tags, id, name, add);
    assert forall t: (Id, string) :: t.0 == other ==> (t in after <==> t in tags);
  }

  /** A tag on a page changes no entry but the page's own. */
  lemma PageTagFrame(c: Corpus, page: Id, name: string, add: bool, r: RowKey)
    requires PagesOk(c) && Live(c, r)
    requires r.entity.PageEntity? ==> r.id != page
    ensures Projection(c.(pageTags := Retagged(c.pageTags, page, name, add)), r) == Projection(c, r)
  {
    var d := c.(pageTags := Retagged(c.pageTags, page, name, add));
    if r.entity.PageEntity? {
      TagsElsewhere(c.pageTags, page, name, add, r.id);
      PageReads(c, d, r);
    } else {
      ChunkReads(c, d, r);
    }
  }

  /** A tag on a source changes no entry but its page's and its chunks'. */
  lemma SourceTagFrame(c: Corpus, s: Id, name: string, add: bool, r: RowKey)
    requires PagesOk(c) && Live(c, r)
    requires r.entity.PageEntity? ==> c.pages[r.id].sourceId != Some(s)
    requires r.entity.ChunkEntity? ==> c.chunks[r.id].sourceId != s
    ensures Projection(c.(sourceTags := Retagged(c.sourceTags, s, name, add)), r) == Projection(c, r)
  {
    var d := c.(sourceTags := Retagged(c.sourceTags, s, name, add));
    if r.entity.PageEntity? {
      if c.pages[r.id].sourceId.Some? {
        TagsElsewhere(c.sourceTags, s, name, add, c.pages[r.id].sourceId.value);
      }
      PageReads(c, d, r);
    } else {
      TagsElsewhere(c.sourceTags, s, name, add, c.chunks[r.id].sourceId);
      ChunkReads(c, d, r);
    }
  }

  lemma RetaggedShape(w: World, d: Corpus, keys: set<RowKey>)
    requires PagesOk(w.corpus) && Covered(w) && keys <= w.rows.Keys
    requires d == w.corpus.(sourceTags := d.sourceTags, pageTags := d.pageTags)
    ensures PagesOk(d) && Covered(World(d, Enqueued(w.rows, keys), w.store))
  {
  }

  lemma RetaggedRow(w: World, d: Corpus, keys: set<RowKey>, r: RowKey)
    requires r in w.rows && (r in keys || Projection(d, r) == Projection(w.corpus, r))
    ensures KeptRow(w, World(d, Enqueued(w.rows, keys), w.store), r, keys)
  {
  }

  /** A retagging keeps every row when it enqueues every tracked one whose entry it changes. */
  lemma RetaggingKeeps(w: World, d: Corpus, keys: set<RowKey>)
    requires Tended(w) && keys <= w.rows.Keys
    requires d == w.corpus.(sourceTags := d.sourceTags, pageTags := d.pageTags)
    requires forall r :: r in w.rows && r !in keys && Tracked(r) ==> Projection(d, r) == Projection(w.corpus, r)
    ensures Kept(w, World(d, Enqueued(w.rows, keys), w.store), keys)
  {
    RetaggedShape(w, d, keys);
    var v := World(d, Enqueued(w.rows, keys), w.store);
    forall r | r in v.rows && Tracked(r)
      ensures KeptRow(w, v, r, keys)
    {
      RetaggedRow(w, d, keys, r);
    }
  }

  /** The rows a tag on this page enqueues. */
  function TagKeys(c: Corpus, page: Id): set<RowKey>
    requires page in c.pages
  {
    var p := c.pages[page];
    if p.kind.SourcePage? && p.sourceId.Some? then SourceTagKeys(c, page, p.sourceId.value) else PageIndexKeys(page)
  }

  lemma TagPageKeeps(w: World, page: Id, name: string, add: bool)
    requires Tended(w) && page in w.corpus.pages
    ensures Kept(w, TagPage(w, page, name, add), PageIndexKeys(page))
  {
    var d := TagPage(w, page, name, add).corpus;
    forall r | r in w.rows && r !in PageIndexKeys(page) && Tracked(r)
      ensures Projection(d, r) == Projection(w.corpus, r)
    {
      TagPageLeaves(w, page, name, add, r);
    }
    RowsOfPageExist(w, page);
    RetaggingKeeps(w, d, PageIndexKeys(page));
  }

  lemma TagPageLeaves(w: World, page: Id, name: string, add: bool, r: RowKey)
    requires Tended(w) && page in w.corpus.pages
    requires r in w.rows && r !in PageIndexKeys(page) && Tracked(r)
    ensures Projection(TagPage(w, page, name, add).corpus, r) == Projection(w.corpus, r)
  {
    PageTagFrame(w.corpus, page, name, add, r);
  }

  lemma RowsOfPageExist(w: World, page: Id)
    requires Covered(w) && page in w.corpus.pages
    ensures PageIndexKeys(page) <= w.rows.Keys
  {
  }

  function SourceTagKeys(c: Corpus, page: Id, s: Id): set<RowKey> {
    PageIndexKeys(page) + TrackedKeysOfChunks(ChunksOf(c, s))
  }

  /** A row that a source's tag does not enqueue is neither its page's nor one of its chunks'. */
  lemma UntaggedRow(w: World, page: Id, s: Id, r: RowKey)
    requires Tended(w) && IsPageOf(w.corpus, page, s)
    requires r in w.rows && r !in SourceTagKeys(w.corpus, page, s) && Tracked(r)
    ensures Live(w.corpus, r)
    ensures r.entity.PageEntity? ==> w.corpus.pages[r.id].sourceId != Some(s)
    ensures r.entity.ChunkEntity? ==> w.corpus.chunks[r.id].sourceId != s
  {
    if r.entity.PageEntity? {
      assert r.id != page;
    } else {
      assert r.id !in ChunksOf(w.corpus, s);
    }
  }

  lemma TagSourceKeeps(w: World, page: Id, s: Id, name: string, add: bool)
    requires Tended(w) && IsPageOf(w.corpus, page, s)
    ensures Kept(w, TagSource(w, page, s, name, add), SourceTagKeys(w.corpus, page, s))
  {
    var d := TagSource(w, page, s, name, add).corpus;
    var keys := SourceTagKeys(w.corpus, page, s);
    forall r | r in w.rows && r !in keys && Tracked(r)
      ensures Projection(d, r) == Projection(w.corpus, r)
    {
      TagSourceLeaves(w, page, s, name, add, r);
    }
    RowsOfSourceExist(w, page, s);
    RetaggingKeeps(w, d, keys);
  }

  lemma TagSourceLeaves(w: World, page: Id, s: Id, name: string, add: bool, r: RowKey)
    requires Tended(w) && IsPageOf(w.corpus, page, s)
    requires r in w.rows && r !in SourceTagKeys(w.corpus, page, s) && Tracked(r)
    ensures Projection(TagSource(w, page, s, name, add).corpus, r) == Projection(w.corpus, r)
  {
    UntaggedRow(w, page, s, r);
    SourceTagFrame(w.corpus, s, name, add, r);
  }

  lemma RowsOfSourceExist(w: World, page: Id, s: Id)
    requires Covered(w) && page in w.corpus.pages
    ensures SourceTagKeys(w.corpus, page, s) <= w.rows.Keys
  {
  }

  /** A tag change enqueues everything whose entry shows the tag. */
  lemma TagKeeps(w: World, page: Id, name: string, add: bool)
    requires Tended(w) && page in w.corpus.pages
    ensures Kept(w, Tag(w, page, name, add), TagKeys(w.corpus, page))
  {
    var p := w.corpus.pages[page];
    if p.kind.SourcePage? && p.sourceId.Some? {
      TagSourceKeeps(w, page, p.sourceId.value, name, add);
    } else {
      TagPageKeeps(w, page, name, add);
    }
  }

  // ----- deleting ----------------------------------------------------------------------------------

  lemma RemovedElsewhere(c: Corpus, s: Id, page: Option<Id>, fileGone: bool)
    ensures var d := SourceRemoved(c, s, page, fileGone);
            && (forall p :: p in d.pages <==> p in c.pages && Some(p) != page)
            && (forall p :: p in d.pages ==> d.pages[p] == c.pages[p])
            && (forall ch :: ch in d.chunks <==> ch in c.chunks && c.chunks[ch].sourceId != s)
            && (forall ch :: ch in d.chunks ==> d.chunks[ch] == c.chunks[ch])
            && (forall t :: t in d.sources <==> t in c.sources && t != s)
            && (forall t :: t in d.sources ==> d.sources[t] == c.sources[t])
            && (forall f :: f in d.vault ==> f in c.vault && d.vault[f] == c.vault[f])
            && (forall f :: f in c.vault && f !in d.vault ==>
                  page.Some? && page.value in c.pages && f == c.pages[page.value].Path())
  {
  }

  /** What a delete takes away: the source, its documents, chunks and tags, the page with its tags and every topic
      link from or to it, and the page's file when its removal goes through; nothing else. */
  lemma DeleteRemovesExactly(c: Corpus, s: Id, page: Option<Id>, fileGone: bool)
    ensures var d := SourceRemoved(c, s, page, fileGone);
            && d.sources.Keys == c.sources.Keys - {s}
            && (forall x :: x in d.documents <==> x in c.documents && c.documents[x].sourceId != s)
            && (forall ch :: ch in d.chunks <==> ch in c.chunks && c.chunks[ch].sourceId != s)
            && (forall p :: p in d.pages <==> p in c.pages && page != Some(p))
            && (forall a, b :: (a, b) in d.topics <==> (a, b) in c.topics && page != Some(a) && page != Some(b))
            && (forall a, t :: (a, t) in d.sourceTags <==> (a, t) in c.sourceTags && a != s)
            && (forall a, t :: (a, t) in d.pageTags <==> (a, t) in c.pageTags && page != Some(a))
            && (forall f :: f in d.vault <==>
                  f in c.vault
                  && !(fileGone && page.Some? && page.value in c.pages && f == c.pages[page.value].Path()))
    ensures var d := SourceRemoved(c, s, page, fileGone);
            && (forall t :: t in d.sources ==> d.sources[t] == c.sources[t])
            && (forall x :: x in d.documents ==> d.documents[x] == c.documents[x])
            && (forall ch :: ch in d.chunks ==> d.chunks[ch] == c.chunks[ch])
            && (forall p :: p in d.pages ==> d.pages[p] == c.pages[p])
            && (forall f :: f in d.vault ==> d.vault[f] == c.vault[f])
  {
  }

  lemma DeleteKeepsPagesOk(c: Corpus, s: Id, page: Option<Id>, fileGone: bool)
    requires PagesOk(c) && !StillReferenced(c, s, page)
    ensures PagesOk(SourceRemoved(c, s, page, fileGone))
  {
    RemovedElsewhere(c, s, page, fileGone);
    var d := SourceRemoved(c, s, page, fileGone);
    forall p | p in d.pages
      ensures d.pages[p].Path() in d.vault
      ensures d.pages[p].sourceId.Some? ==> d.pages[p].sourceId.value in d.sources
    {
      assert Some(p) != page && p in c.pages;
    }
  }

  lemma DeleteKeepsLive(w: World, s: Id, page: Option<Id>, fileGone: bool, reached: set<RowKey>, r: RowKey)
    requires Tended(w) && DeleteOk(w, s, page) && DeleteSource(w, s, page, fileGone, reached).Done?
    ensures var v := DeleteSource(w, s, page, fileGone, reached).value;
            r in v.rows <==> Live(v.corpus, r)
  {
    RemovedElsewhere(w.corpus, s, page, fileGone);
    assert r in w.rows <==> Live(w.corpus, r);
  }

  lemma DeleteKeepsCovered(w: World, s: Id, page: Option<Id>, fileGone: bool, reached: set<RowKey>)
    requires Tended(w) && DeleteOk(w, s, page)
    requires DeleteSource(w, s, page, fileGone, reached).Done?
    ensures Covered(DeleteSource(w, s, page, fileGone, reached).value)
  {
    var v := DeleteSource(w, s, page, fileGone, reached).value;
    forall r: RowKey
      ensures r in v.rows <==> Live(v.corpus, r)
    {
      DeleteKeepsLive(w, s, page, fileGone, reached, r);
    }
  }

  lemma TagsOfOther(tags: set<(Id, string)>, gone: set<Id>, id: Id)
    requires id !in gone
    ensures TagsOf((set t | t in tags && t.0 !in gone), id) == TagsOf(tags, id)
  {
    assert forall t: (Id, string) :: t in (set t | t in tags && t.0 !in gone) && t.0 == id <==> t in tags && t.0 == id;
  }

  /** A delete leaves a remaining page's tags alone. */
  lemma DeleteKeepsTags(c: Corpus, s: Id, page: Option<Id>, fileGone: bool, p: Id)
    requires PagesOk(c) && !StillReferenced(c, s, page)
    requires p in SourceRemoved(c, s, page, fileGone).pages
    ensures PageTags(SourceRemoved(c, s, page, fileGone), p) == PageTags(c, p)
  {
    RemovedElsewhere(c, s, page, fileGone);
    TagsOfOther(c.pageTags, if page.Some? then {page.value} else {}, p);
    if c.pages[p].sourceId.Some? {
      assert c.pages[p].sourceId.value != s;
      var d := SourceRemoved(c, s, page, fileGone);
      assert forall t: (Id, string) :: t.0 != s ==> (t in d.sourceTags <==> t in c.sourceTags);
      assert TagsOf(d.sourceTags, c.pages[p].sourceId.value) == TagsOf(c.sourceTags, c.pages[p].sourceId.value);
    }
  }

  /** A remaining page's topics change exactly when it lists the deleted page. */
  lemma DeleteTopics(c: Corpus, s: Id, page: Option<Id>, fileGone: bool, p: Id)
    requires p in SourceRemoved(c, s, page, fileGone).pages
    ensures var d := SourceRemoved(c, s, page, fileGone);
            TopicsOf(d.topics, p) == TopicsOf(c.topics, p)
            <==> !(page.Some? && (p, page.value) in c.topics)
  {
    RemovedElsewhere(c, s, page, fileGone);
    var d := SourceRemoved(c, s, page, fileGone);
    if page.Some? && (p, page.value) in c.topics {
      assert page.value in TopicsOf(c.topics, p);
      assert page.value !in TopicsOf(d.topics, p);
    } else {
      assert forall t: (Id, Id) :: t.0 == p ==> (t in d.topics <==> t in c.topics);
    }
  }

  /** What a delete leaves of the other entities' entries: a chunk's stay, a page's stay exactly when
      it did not list the deleted page as a topic. */
  lemma DeleteFrame(w: World, s: Id, page: Option<Id>, fileGone: bool, r: RowKey)
    requires PagesOk(w.corpus) && !StillReferenced(w.corpus, s, page) && Tracked(r)
    requires Live(w.corpus, r) && Live(SourceRemoved(w.corpus, s, page, fileGone), r)
    ensures Projection(SourceRemoved(w.corpus, s, page, fileGone), r) == Projection(w.corpus, r)
            <==> !(r.entity.PageEntity? && page.Some? && (r.id, page.value) in w.corpus.topics)
  {
    var c, d := w.corpus, SourceRemoved(w.corpus, s, page, fileGone);
    RemovedElsewhere(c, s, page, fileGone);
    DeleteKeepsPagesOk(c, s, page, fileGone);
    if r.entity.PageEntity? {
      DeleteKeepsTags(c, s, page, fileGone, r.id);
      DeleteTopics(c, s, page, fileGone, r.id);
      if !(page.Some? && (r.id, page.value) in c.topics) {
        PageReads(c, d, r);
      }
    } else {
      assert forall t: (Id, string) :: t.0 != s ==> (t in d.sourceTags <==> t in c.sourceTags);
      ChunkReads(c, d, r);
    }
  }

  /** Row of another page that lists the deleted page among its topics. */
  predicate LinksTo(c: Corpus, r: RowKey, page: Option<Id>) {
    Tracked(r) && r.entity.PageEntity? && Some(r.id) != page && page.Some? && (r.id, page.value) in c.topics
  }

  /** The topics an entry shows. */
  function EntryTopics(e: Option<Entry>): set<Id> {
    if e.Some? && (e.value.PageDocument? || e.value.PagePoint?) then e.value.fields.topics else {}
  }

  /** A delete touches no remaining row and no entry of one. A remaining projection changes exactly when its
      page lists the deleted page, and then loses just that topic. */
  lemma DeleteKeepsRow(w: World, s: Id, page: Option<Id>, fileGone: bool, reached: set<RowKey>, r: RowKey)
    requires Tended(w) && DeleteOk(w, s, page) && DeleteSource(w, s, page, fileGone, reached).Done?
    requires r in DeleteSource(w, s, page, fileGone, reached).value.rows && Tracked(r)
    ensures var v := DeleteSource(w, s, page, fileGone, reached).value;
            && Untouched(w, v, r)
            && (Projection(v.corpus, r) == Projection(w.corpus, r) <==> !LinksTo(w.corpus, r, page))
            && (LinksTo(w.corpus, r, page) ==>
                  && page.value in EntryTopics(Projection(w.corpus, r))
                  && EntryTopics(Projection(v.corpus, r)) == EntryTopics(Projection(w.corpus, r)) - {page.value})
  {
    DeleteKeepsLive(w, s, page, fileGone, reached, r);
    DeleteFrame(w, s, page, fileGone, r);
    if LinksTo(w.corpus, r, page) {
      DeleteLosesLink(w.corpus, s, page, fileGone, r);
    }
  }

  lemma DeleteLosesLink(c: Corpus, s: Id, page: Option<Id>, fileGone: bool, r: RowKey)
    requires PagesOk(c) && !StillReferenced(c, s, page) && LinksTo(c, r, page)
    requires Live(c, r) && Live(SourceRemoved(c, s, page, fileGone), r)
    ensures page.value in EntryTopics(Projection(c, r))
    ensures EntryTopics(Projection(SourceRemoved(c, s, page, fileGone), r))
            == EntryTopics(Projection(c, r)) - {page.value}
  {
    DeleteKeepsPagesOk(c, s, page, fileGone);
    LinkGone(c, s, page, fileGone, r.id);
    ShownTopics(c, r);
    ShownTopics(SourceRemoved(c, s, page, fileGone), r);
  }

  lemma ShownTopics(c: Corpus, r: RowKey)
    requires PagesOk(c) && Live(c, r) && Tracked(r) && r.entity.PageEntity?
    ensures EntryTopics(Projection(c, r)) == TopicsOf(c.topics, r.id)
  {
  }

  lemma LinkGone(c: Corpus, s: Id, page: Option<Id>, fileGone: bool, p: Id)
    requires page.Some? && p != page.value
    ensures TopicsOf(SourceRemoved(c, s, page, fileGone).topics, p) == TopicsOf(c.topics, p) - {page.value}
  {
    var d := SourceRemoved(c, s, page, fileGone);
    assert forall t: Id :: (p, t) in d.topics <==> (p, t) in c.topics && t != page.value;
  }

  lemma DeleteKeepsTended(w: World, s: Id, page: Option<Id>, fileGone: bool, reached: set<RowKey>)
    requires Tended(w) && DeleteOk(w, s, page) && DeleteSource(w, s, page, fileGone, reached).Done?
    ensures Tended(DeleteSource(w, s, page, fileGone, reached).value)
  {
    DeleteKeepsPagesOk(w.corpus, s, page, fileGone);
    DeleteKeepsCovered(w, s, page, fileGone, reached);
  }

  /** A row still marked indexed for a page that lists the deleted page among its topics. */
  predicate ListsAsTopic(w: World, r: RowKey, page: Option<Id>) {
    r in w.rows && w.rows[r].state.Indexed? && LinksTo(w.corpus, r, page)
  }

  /** A source delete keeps the indexes truthful exactly when no other page with an indexed row lists
      the deleted source page among its topics: the cascade drops that topic link without enqueueing
      the page. Topic ids that name topic pages never meet the exception. */
  lemma DeleteKeepsIff(w: World, s: Id, page: Option<Id>, fileGone: bool, reached: set<RowKey>)
    requires Consistent(w) && DeleteOk(w, s, page)
    requires DeleteSource(w, s, page, fileGone, reached).Done?
    ensures Consistent(DeleteSource(w, s, page, fileGone, reached).value)
            <==> forall r :: !ListsAsTopic(w, r, page)
  {
    var v := DeleteSource(w, s, page, fileGone, reached).value;
    DeleteKeepsTended(w, s, page, fileGone, reached);
    forall r | r in v.rows && Tracked(r) && w.rows[r].state.Indexed?
      ensures Truthful(v, r) <==> !ListsAsTopic(w, r, page)
    {
      assert Truthful(w, r);
      DeleteKeepsRow(w, s, page, fileGone, reached, r);
    }
    if r :| ListsAsTopic(w, r, page) {
      assert r in v.rows;
    }
  }
}
