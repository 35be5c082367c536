/** The canonical rows and vault files, and the index documents derived from them. */
module Corpus {
  import opened Wrappers

  // UUIDs.
  type Id = nat

  datatype PageKind = SourcePage | ConceptPage | TopicPage

  /** A wiki_pages row; stamp stands for the columns no rule looks at (revision, timestamps, source
      kind and metadata). */
  datatype PageRow = PageRow(
    kind: PageKind, slug: string, title: string, status: string, aliases: seq<string>,
    parentTopic: Option<Id>, sourceId: Option<Id>, inspection: string, stamp: string
  ) {
    /** The vault file, one per kind and slug. */
    function Path(): (PageKind, string) {
      (kind, slug)
    }
  }

  datatype SourceRow = SourceRow(kind: string, title: string, contentHash: string)

  datatype DocumentRow = DocumentRow(sourceId: Id, path: string)

  datatype ChunkRow = ChunkRow(
    sourceId: Id, position: nat, section: Option<string>, body: string, bodyHash: string, tokens: nat
  )

  datatype Corpus = Corpus(
    sources: map<Id, SourceRow>,
    documents: map<Id, DocumentRow>,
    chunks: map<Id, ChunkRow>,
    pages: map<Id, PageRow>,
    topics: set<(Id, Id)>,
    sourceTags: set<(Id, string)>,
    pageTags: set<(Id, string)>,
    vault: map<(PageKind, string), string>
  )

  const EMPTY_CORPUS := Corpus(map[], map[], map[], map[], {}, {}, {}, map[])

  // ----- what the indexes hold -----------------------------------------------------------------

  datatype IndexKind = OpenSearchPages | QdrantPages | OpenSearchChunks | QdrantChunks | Memgraph

  datatype EntityKind = PageEntity | ChunkEntity

  /** The unique key of a sync row, and of an entry of a derived store. */
  datatype RowKey = RowKey(entity: EntityKind, id: Id, index: IndexKind)

  datatype PageFields = PageFields(
    id: Id, kind: PageKind, title: string, slug: string, status: string,
    parentTopic: Option<Id>, sourceId: Option<Id>, stamp: string, tags: set<string>, topics: set<Id>
  )

  datatype ChunkFields = ChunkFields(
    id: Id, sourceId: Id, sourceKind: string, tags: set<string>,
    position: nat, section: Option<string>, tokens: nat
  )

  /** The shapes of documents.py: a field either store carries appears in its shape, the vector is
      represented by the text it embeds. */
  datatype Entry =
    | PageDocument(fields: PageFields, inspection: string, aliases: seq<string>, body: string)
    | PagePoint(fields: PageFields, embeddedTitle: string, embeddedBody: string)
    | ChunkDocument(chunk: ChunkFields, sourceTitle: string, body: string)
    | ChunkPoint(chunk: ChunkFields, embeddedBody: string)
    | GraphNode

  function TagsOf(tags: set<(Id, string)>, id: Id): set<string> {
    set t | t in tags && t.0 == id :: t.1
  }

  function TopicsOf(topics: set<(Id, Id)>, page: Id): set<Id> {
    set t | t in topics && t.0 == page :: t.1
  }

  /** A source page inherits its source's tags. */
  function PageTags(c: Corpus, id: Id): set<string>
    requires id in c.pages
  {
    var page := c.pages[id];
    TagsOf(c.pageTags, id)
    + if page.kind.SourcePage? && page.sourceId.Some? then TagsOf(c.sourceTags, page.sourceId.value) else {}
  }

  function FieldsOf(c: Corpus, id: Id): PageFields
    requires id in c.pages
  {
    var p := c.pages[id];
    PageFields(id, p.kind, p.title, p.slug, p.status, p.parentTopic, p.sourceId, p.stamp,
               PageTags(c, id), TopicsOf(c.topics, id))
  }

  function ChunkFieldsOf(c: Corpus, id: Id): ChunkFields
    requires id in c.chunks && c.chunks[id].sourceId in c.sources
  {
    var ch := c.chunks[id];
    ChunkFields(id, ch.sourceId, c.sources[ch.sourceId].kind, TagsOf(c.sourceTags, ch.sourceId),
                ch.position, ch.section, ch.tokens)
  }

  /** What a projector would write for a row now; None when the entity, or a page's file, is gone. */
  function Projection(c: Corpus, r: RowKey): Option<Entry> {
    match r.index
    case OpenSearchPages =>
      if r.id in c.pages && c.pages[r.id].Path() in c.vault then
        var p := c.pages[r.id];
        Some(PageDocument(FieldsOf(c, r.id), p.inspection, p.aliases, c.vault[p.Path()]))
      else None
    case QdrantPages =>
      if r.id in c.pages && c.pages[r.id].Path() in c.vault then
        var p := c.pages[r.id];
        Some(PagePoint(FieldsOf(c, r.id), p.title, c.vault[p.Path()]))
      else None
    case OpenSearchChunks =>
      if r.id in c.chunks && c.chunks[r.id].sourceId in c.sources then
        var ch := c.chunks[r.id];
        Some(ChunkDocument(ChunkFieldsOf(c, r.id), c.sources[ch.sourceId].title, ch.body))
      else None
    case QdrantChunks =>
      if r.id in c.chunks && c.chunks[r.id].sourceId in c.sources then
        Some(ChunkPoint(ChunkFieldsOf(c, r.id), c.chunks[r.id].body))
      else None
    case Memgraph =>
      if (if r.entity.PageEntity? then r.id in c.pages else r.id in c.chunks) then Some(GraphNode) else None
  }

  /** The four stores whose content is compared with the canonical rows. */
  predicate Tracked(r: RowKey) {
    !r.index.Memgraph?
  }

  /** The entity exists and the kind is one of its entity's indexes. */
  predicate Live(c: Corpus, r: RowKey) {
    match r.entity
    case PageEntity => r.id in c.pages && r.index in {OpenSearchPages, QdrantPages, Memgraph}
    case ChunkEntity => r.id in c.chunks && r.index in {OpenSearchChunks, QdrantChunks, Memgraph}
  }

  function PageKeys(id: Id): set<RowKey> {
    {RowKey(PageEntity, id, OpenSearchPages), RowKey(PageEntity, id, QdrantPages), RowKey(PageEntity, id, Memgraph)}
  }

  // ----- integrity -------------------------------------------------------------------------------

  /** Every page has its file, kinds and slugs are unique, a source has at most one page, the
      foreign keys resolve, and page ids and chunk ids are distinct UUIDs. */
  ghost predicate PagesOk(c: Corpus) {
    && (forall p :: p in c.pages ==> c.pages[p].Path() in c.vault)
    && (forall p, q :: p in c.pages && q in c.pages && p != q ==> c.pages[p].Path() != c.pages[q].Path())
    && (forall p :: p in c.pages && c.pages[p].sourceId.Some? ==> c.pages[p].sourceId.value in c.sources)
    && (forall p :: p in c.pages && c.pages[p].parentTopic.Some? ==> c.pages[p].parentTopic.value in c.pages)
    && (forall p, t :: (p, t) in c.topics ==> p in c.pages && t in c.pages)
    && (forall p, q :: p in c.pages && q in c.pages && p != q && c.pages[p].sourceId.Some? ==>
          c.pages[p].sourceId != c.pages[q].sourceId)
    && (forall ch :: ch in c.chunks ==> c.chunks[ch].sourceId in c.sources && ch !in c.pages)
  }

  ghost predicate HashesUnique(sources: map<Id, SourceRow>) {
    forall s, t :: s in sources && t in sources && s != t ==> sources[s].contentHash != sources[t].contentHash
  }

  /** Every source has exactly one document, and no path is shared. */
  ghost predicate DocumentsOk(sources: set<Id>, documents: map<Id, DocumentRow>) {
    && (forall d :: d in documents ==> documents[d].sourceId in sources)
    && (forall d, e :: d in documents && e in documents && d != e ==>
          documents[d].sourceId != documents[e].sourceId && documents[d].path != documents[e].path)
    && (forall s :: s in sources ==> exists d :: d in documents && documents[d].sourceId == s)
  }

  predicate Precedes(chunks: map<Id, ChunkRow>, b: Id, a: Id)
    requires a in chunks
  {
    b in chunks && chunks[b].sourceId == chunks[a].sourceId && chunks[b].position + 1 == chunks[a].position
  }

  /** A source's chunks have distinct body hashes and positions 0..n-1. */
  ghost predicate ChunksOk(chunks: map<Id, ChunkRow>) {
    && (forall a, b :: a in chunks && b in chunks && a != b && chunks[a].sourceId == chunks[b].sourceId ==>
          chunks[a].bodyHash != chunks[b].bodyHash && chunks[a].position != chunks[b].position)
    && (forall a :: a in chunks && chunks[a].position > 0 ==> exists b :: Precedes(chunks, b, a))
  }

  /** What ingestion keeps. */
  ghost predicate SourcesOk(c: Corpus) {
    HashesUnique(c.sources) && DocumentsOk(c.sources.Keys, c.documents) && ChunksOk(c.chunks)
  }
}
