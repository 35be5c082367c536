/** What an entry of a derived index shows, field by field, and how a tag reaches the entries. */
module IndexedEntries {
  import opened Wrappers
  import opened Corpus
  import opened IndexQueue
  import opened IndexTheorems
  import opened IndexRuns

  // ----- what an entry shows -------------------------------------------------------------------

  /** The page has the tag of its own, or inherits it as the page of a tagged source. */
  ghost predicate TaggedPage(c: Corpus, p: Id, name: string) {
    || (p, name) in c.pageTags
    || exists s ::
         p in c.pages && c.pages[p].kind.SourcePage? && c.pages[p].sourceId == Some(s) && (s, name) in c.sourceTags
  }

  ghost predicate ShowsPage(c: Corpus, p: Id, f: PageFields)
    requires p in c.pages
  {
    var row := c.pages[p];
    && f.id == p && f.kind == row.kind && f.title == row.title && f.slug == row.slug && f.status == row.status
    && f.parentTopic == row.parentTopic && f.sourceId == row.sourceId && f.stamp == row.stamp
    && (forall name :: name in f.tags <==> TaggedPage(c, p, name))
    && (forall t :: t in f.topics <==> (p, t) in c.topics)
  }

  ghost predicate ShowsChunk(c: Corpus, ch: Id, f: ChunkFields)
    requires ch in c.chunks && c.chunks[ch].sourceId in c.sources
  {
    var row := c.chunks[ch];
    && f.id == ch && f.sourceId == row.sourceId && f.sourceKind == c.sources[row.sourceId].kind
    && f.position == row.position && f.section == row.section && f.tokens == row.tokens
    && forall name :: name in f.tags <==> (row.sourceId, name) in c.sourceTags
  }

  /** The entry has its store's shape and shows the canonical row, the tags, the topic links and the file. */
  ghost predicate ShowsEntry(c: Corpus, r: RowKey, e: Entry)
    requires PagesOk(c) && Live(c, r) && Tracked(r)
  {
    match r.index
    case OpenSearchPages =>
      var row := c.pages[r.id];
      e.PageDocument? && ShowsPage(c, r.id, e.fields)
      && e.inspection == row.inspection && e.aliases == row.aliases && e.body == c.vault[(row.kind, row.slug)]
    case QdrantPages =>
      var row := c.pages[r.id];
      e.PagePoint? && ShowsPage(c, r.id, e.fields)
      && e.embeddedTitle == row.title && e.embeddedBody == c.vault[(row.kind, row.slug)]
    case OpenSearchChunks =>
      var row := c.chunks[r.id];
      e.ChunkDocument? && ShowsChunk(c, r.id, e.chunk)
      && e.sourceTitle == c.sources[row.sourceId].title && e.body == row.body
    case QdrantChunks =>
      e.ChunkPoint? && ShowsChunk(c, r.id, e.chunk) && e.embeddedBody == c.chunks[r.id].body
  }

  lemma TagsOfHas(tags: set<(Id, string)>, id: Id)
    ensures forall name :: name in TagsOf(tags, id) <==> (id, name) in tags
  {
  }

  lemma PageTagsHas(c: Corpus, p: Id)
    requires p in c.pages
    ensures forall name :: name in PageTags(c, p) <==> TaggedPage(c, p, name)
  {
    TagsOfHas(c.pageTags, p);
    if c.pages[p].sourceId.Some? {
      TagsOfHas(c.sourceTags, c.pages[p].sourceId.value);
    }
  }

  lemma FieldsShow(c: Corpus, p: Id, f: PageFields)
    requires p in c.pages
    ensures f == FieldsOf(c, p) <==> ShowsPage(c, p, f)
  {
    PageTagsHas(c, p);
    assert forall t :: t in TopicsOf(c.topics, p) <==> (p, t) in c.topics;
    if ShowsPage(c, p, f) {
      assert f.tags == PageTags(c, p);
      assert f.topics == TopicsOf(c.topics, p);
    }
  }

  lemma ChunkFieldsShow(c: Corpus, ch: Id, f: ChunkFields)
    requires ch in c.chunks && c.chunks[ch].sourceId in c.sources
    ensures f == ChunkFieldsOf(c, ch) <==> ShowsChunk(c, ch, f)
  {
    TagsOfHas(c.sourceTags, c.chunks[ch].sourceId);
    if ShowsChunk(c, ch, f) {
      assert f.tags == TagsOf(c.sourceTags, c.chunks[ch].sourceId);
    }
  }

  /** What the projector writes is exactly the entry that shows the entity. */
  lemma ProjectionShows(c: Corpus, r: RowKey, e: Entry)
    requires PagesOk(c) && Live(c, r) && Tracked(r)
    ensures Projection(c, r) == Some(e) <==> ShowsEntry(c, r, e)
  {
    if e.PageDocument? || e.PagePoint? {
      if r.entity.PageEntity? {
        FieldsShow(c, r.id, e.fields);
      }
    } else if e.ChunkDocument? || e.ChunkPoint? {
      if r.entity.ChunkEntity? {
        ChunkFieldsShow(c, r.id, e.chunk);
      }
    }
  }

  /** In every state of every run the entry of an indexed row shows its entity, field by field, if and only if the
      row is not outdated. */
  lemma IndexedEntryShowsIff(states: seq<World>, ops: seq<Op>, n: nat, r: RowKey)
    requires IsRun(states, ops) && n < |states|
    requires r in states[n].rows && states[n].rows[r].state.Indexed? && Tracked(r)
    ensures PagesOk(states[n].corpus) && Live(states[n].corpus, r)
    ensures (r in states[n].store && ShowsEntry(states[n].corpus, r, states[n].store[r]))
            <==> !Outdated(states, ops, n, r)
  {
    RunsStayTended(states, ops, n);
    IndexedRowsAreTruthfulIff(states, ops, n, r);
    if r in states[n].store {
      ProjectionShows(states[n].corpus, r, states[n].store[r]);
    }
  }

  // ----- a tag on its way --------------------------------------------------------------------------

  const SEARCH_KINDS := {OpenSearchPages, QdrantPages, OpenSearchChunks, QdrantChunks}

  /** The entry carries the tag. */
  predicate Carries(e: Entry, name: string) {
    match e
    case PageDocument(fields, _, _, _) => name in fields.tags
    case PagePoint(fields, _, _) => name in fields.tags
    case ChunkDocument(chunk, _, _) => name in chunk.tags
    case ChunkPoint(chunk, _) => name in chunk.tags
    case GraphNode => false
  }

  /** The world after the tag verb and a drain of the page and chunk kinds. */
  function TaggedAndDrained(w: World, page: Id, name: string, add: bool, fate: Fates): World
    requires page in w.corpus.pages
  {
    var v := Tag(w, page, name, add);
    Drained(v, Claimed(v.rows, SEARCH_KINDS), fate)
  }

  /** A pending row that is drained without a failure has its entity's entry in the store. */
  lemma DrainedRowIsShown(v: World, r: RowKey, fate: Fates)
    requires Tended(v) && r in v.rows && v.rows[r].state.Pending? && r.index in SEARCH_KINDS && fate(r).Succeeds?
    ensures var z := Drained(v, Claimed(v.rows, SEARCH_KINDS), fate);
            r in z.store && Live(v.corpus, r) && ShowsEntry(v.corpus, r, z.store[r])
  {
    LiveHasProjection(v.corpus, r);
    assert r in Claimed(v.rows, SEARCH_KINDS);
    var z := Drained(v, Claimed(v.rows, SEARCH_KINDS), fate);
    ProjectionShows(v.corpus, r, z.store[r]);
  }

  /** The rows of a page's own entries. */
  predicate OfPage(r: RowKey, page: Id) {
    r.entity.PageEntity? && r.id == page && r.index in {OpenSearchPages, QdrantPages}
  }

  /** The rows of the entries of a source's chunks. */
  predicate OfChunk(c: Corpus, r: RowKey, s: Id) {
    && r.entity.ChunkEntity? && r.id in c.chunks && c.chunks[r.id].sourceId == s
    && r.index in {OpenSearchChunks, QdrantChunks}
  }

  lemma TagEnqueuesPage(w: World, page: Id, name: string, add: bool, r: RowKey)
    requires page in w.corpus.pages && OfPage(r, page)
    ensures var v := Tag(w, page, name, add); r in v.rows && v.rows[r] == ENQUEUED
  {
    assert r in PageIndexKeys(page);
  }

  lemma TagEnqueuesChunk(w: World, page: Id, s: Id, name: string, add: bool, r: RowKey)
    requires page in w.corpus.pages && OfChunk(w.corpus, r, s)
    requires w.corpus.pages[page].kind.SourcePage? && w.corpus.pages[page].sourceId == Some(s)
    ensures var v := Tag(w, page, name, add); r in v.rows && v.rows[r] == ENQUEUED
  {
    assert r.id in ChunksOf(w.corpus, s);
    assert r in TrackedKeysOfChunks(ChunksOf(w.corpus, s));
  }

  lemma EntryCarries(c: Corpus, r: RowKey, e: Entry, name: string)
    requires PagesOk(c) && Live(c, r) && Tracked(r) && ShowsEntry(c, r, e)
    ensures r.entity.PageEntity? ==> (Carries(e, name) <==> TaggedPage(c, r.id, name))
    ensures r.entity.ChunkEntity? ==> (Carries(e, name) <==> (c.chunks[r.id].sourceId, name) in c.sourceTags)
  {
  }

  /** A pending row is drained to an entry that carries exactly the tags the entity has. */
  lemma DrainedRowCarries(v: World, r: RowKey, fate: Fates, t: string)
    requires Tended(v) && r in v.rows && v.rows[r].state.Pending? && r.index in SEARCH_KINDS && fate(r).Succeeds?
    ensures var z, c := Drained(v, Claimed(v.rows, SEARCH_KINDS), fate), v.corpus;
            && r in z.store && Live(c, r)
            && (r.entity.PageEntity? ==> (Carries(z.store[r], t) <==> TaggedPage(c, r.id, t)))
            && (r.entity.ChunkEntity? ==> (Carries(z.store[r], t) <==> (c.chunks[r.id].sourceId, t) in c.sourceTags))
  {
    DrainedRowIsShown(v, r, fate);
    EntryCarries(v.corpus, r, Drained(v, Claimed(v.rows, SEARCH_KINDS), fate).store[r], t);
  }

  lemma TagKeepsTended(w: World, page: Id, name: string, add: bool)
    requires Tended(w) && page in w.corpus.pages
    ensures Tended(Tag(w, page, name, add))
  {
    TagKeeps(w, page, name, add);
  }

  lemma RetaggedHas(tags: set<(Id, string)>, id: Id, name: string, add: bool, i: Id, t: string)
    ensures (i, t) in Retagged(tags, id, name, add)
            <==> if (i, t) == (id, name) then add else (i, t) in tags
  {
  }

  /** The tag verb on the page of a source changes that one tag of the source. */
  lemma SourceTagChanges(w: World, page: Id, s: Id, name: string, add: bool, t: string)
    requires page in w.corpus.pages
    requires w.corpus.pages[page].kind.SourcePage? && w.corpus.pages[page].sourceId == Some(s)
    ensures var c, d := w.corpus, Tag(w, page, name, add).corpus;
            && d.pages == c.pages && d.chunks == c.chunks && d.pageTags == c.pageTags
            && ((s, t) in d.sourceTags <==> if t == name then add else (s, t) in c.sourceTags)
  {
    RetaggedHas(w.corpus.sourceTags, s, name, add, s, t);
    assert Tag(w, page, name, add) == TagSource(w, page, s, name, add);
  }

  /** On any other page it changes that one tag of the page. */
  lemma PageTagChanges(w: World, page: Id, name: string, add: bool, t: string)
    requires page in w.corpus.pages && !w.corpus.pages[page].kind.SourcePage?
    ensures var c, d := w.corpus, Tag(w, page, name, add).corpus;
            && d.pages == c.pages
            && ((page, t) in d.pageTags <==> if t == name then add else (page, t) in c.pageTags)
  {
    RetaggedHas(w.corpus.pageTags, page, name, add, page, t);
    assert Tag(w, page, name, add) == TagPage(w, page, name, add);
  }

  /** A tag that is added to the page of a source reaches the entries of the page and of all chunks of the source;
      a removed one leaves the chunks' entries, and the page's unless the page has the tag of its own. Every other
      tag shows as before. */
  lemma SourceTagReachesEntries(w: World, page: Id, s: Id, name: string, add: bool, fate: Fates, r: RowKey, t: string)
    requires Tended(w) && page in w.corpus.pages && forall q :: fate(q).Succeeds?
    requires w.corpus.pages[page].kind.SourcePage? && w.corpus.pages[page].sourceId == Some(s)
    requires OfPage(r, page) || OfChunk(w.corpus, r, s)
    ensures var z := TaggedAndDrained(w, page, name, add, fate);
            && r in z.store
            && (Carries(z.store[r], t)
                <==> (if t == name then add else (s, t) in w.corpus.sourceTags)
                     || (OfPage(r, page) && (page, t) in w.corpus.pageTags))
  {
    if OfPage(r, page) {
      TagEnqueuesPage(w, page, name, add, r);
    } else {
      TagEnqueuesChunk(w, page, s, name, add, r);
    }
    SourceTagChanges(w, page, s, name, add, t);
    TagKeepsTended(w, page, name, add);
    DrainedRowCarries(Tag(w, page, name, add), r, fate, t);
  }

  /** A tag on any other page is the page's own, and its entries carry it exactly when it has been added. */
  lemma PageTagReachesEntries(w: World, page: Id, name: string, add: bool, fate: Fates, r: RowKey, t: string)
    requires Tended(w) && page in w.corpus.pages && forall q :: fate(q).Succeeds?
    requires !w.corpus.pages[page].kind.SourcePage? && OfPage(r, page)
    ensures var z := TaggedAndDrained(w, page, name, add, fate);
            && r in z.store
            && (Carries(z.store[r], t) <==> if t == name then add else (page, t) in w.corpus.pageTags)
  {
    TagEnqueuesPage(w, page, name, add, r);
    PageTagChanges(w, page, name, add, t);
    TagKeepsTended(w, page, name, add);
    DrainedRowCarries(Tag(w, page, name, add), r, fate, t);
  }
}
