/** What ingestion keeps about sources, documents and chunks. */
module IngestTheorems {
  import opened Wrappers
  import opened Corpus
  import opened IndexQueue
  import opened IndexTheorems

  /** The source an ingestion writes: the one at the path, or the new one. */
  ghost function Destination(c: Corpus, doc: Document, ids: NewIds): Id {
    if HasDocumentAt(c, doc.path) then SourceAt(c, doc.path) else ids.source
  }

  lemma StoreKeepsHashes(c: Corpus, s: Id, doc: Document, ids: NewIds)
    requires HashesUnique(c.sources) && !Known(c, doc.contentHash)
    requires |ids.chunks| == |doc.chunks| && Distinct(ids.chunks)
    ensures HashesUnique(Stored(c, s, doc, ids).sources)
  {
  }

  /** One source's documents replaced by a single one, whose path no other source has. */
  lemma ReplaceDocument(
    sources: set<Id>, docs: map<Id, DocumentRow>, after: map<Id, DocumentRow>, s: Id, x: Id, path: string)
    requires DocumentsOk(sources, docs)
    requires forall d :: d in docs && docs[d].path == path ==> docs[d].sourceId == s
    requires forall d :: d in after <==> d == x || (d in docs && docs[d].sourceId != s)
    requires forall d :: d in after && d != x ==> after[d] == docs[d]
    requires x !in docs && after[x] == DocumentRow(s, path)
    ensures DocumentsOk(sources + {s}, after)
  {
    forall t | t in sources + {s}
      ensures exists d :: d in after && after[d].sourceId == t
    {
      if t == s {
        assert x in after;
      } else {
        var d :| d in docs && docs[d].sourceId == t;
        assert d in after;
      }
    }
  }

  lemma StoreKeepsDocuments(c: Corpus, s: Id, doc: Document, ids: NewIds)
    requires DocumentsOk(c.sources.Keys, c.documents)
    requires |ids.chunks| == |doc.chunks| && Distinct(ids.chunks)
    requires ids.document !in c.documents
    requires s == Destination(c, doc, ids)
    ensures DocumentsOk(Stored(c, s, doc, ids).sources.Keys, Stored(c, s, doc, ids).documents)
  {
    forall x | x in c.documents && c.documents[x].path == doc.path
      ensures c.documents[x].sourceId == s
    {
    }
    ReplaceDocument(c.sources.Keys, c.documents, Stored(c, s, doc, ids).documents, s, ids.document, doc.path);
  }

  lemma StoreKeepsChunks(chunks: map<Id, ChunkRow>, s: Id, inputs: seq<ChunkInput>, ids: seq<Id>)
    requires ChunksOk(chunks) && |ids| == |inputs| && Distinct(ids)
    requires forall id :: id in ids ==> id !in chunks
    requires forall i, j :: 0 <= i < j < |inputs| ==> inputs[i].bodyHash != inputs[j].bodyHash
    ensures ChunksOk(ChunksReplaced(chunks, s, inputs, ids))
  {
    var d := ChunksReplaced(chunks, s, inputs, ids);
    forall a, b | a in d && b in d && a != b && d[a].sourceId == d[b].sourceId
      ensures d[a].bodyHash != d[b].bodyHash && d[a].position != d[b].position
    {
      ReplacedDiffer(chunks, s, inputs, ids, a, b);
    }
    forall a | a in d && d[a].position > 0
      ensures exists b :: Precedes(d, b, a)
    {
      ReplacedFollow(chunks, s, inputs, ids, a);
    }
  }

  lemma ReplacedDiffer(chunks: map<Id, ChunkRow>, s: Id, inputs: seq<ChunkInput>, ids: seq<Id>, a: Id, b: Id)
    requires ChunksOk(chunks) && |ids| == |inputs| && Distinct(ids)
    requires forall i, j :: 0 <= i < j < |inputs| ==> inputs[i].bodyHash != inputs[j].bodyHash
    requires var d := ChunksReplaced(chunks, s, inputs, ids);
             a in d && b in d && a != b && d[a].sourceId == d[b].sourceId
    ensures var d := ChunksReplaced(chunks, s, inputs, ids);
            d[a].bodyHash != d[b].bodyHash && d[a].position != d[b].position
  {
    if a in ids {
      var i :| 0 <= i < |ids| && ids[i] == a;
      if b in ids {
        var j :| 0 <= j < |ids| && ids[j] == b;
      }
    }
  }

  lemma ReplacedFollow(chunks: map<Id, ChunkRow>, s: Id, inputs: seq<ChunkInput>, ids: seq<Id>, a: Id)
    requires ChunksOk(chunks) && |ids| == |inputs| && Distinct(ids)
    requires forall id :: id in ids ==> id !in chunks
    requires a in ChunksReplaced(chunks, s, inputs, ids) && ChunksReplaced(chunks, s, inputs, ids)[a].position > 0
    ensures exists b :: Precedes(ChunksReplaced(chunks, s, inputs, ids), b, a)
  {
    var d := ChunksReplaced(chunks, s, inputs, ids);
    if a in ids {
      var i :| 0 <= i < |ids| && ids[i] == a;
      assert Precedes(d, ids[i - 1], a);
    } else {
      var b :| Precedes(chunks, b, a);
      assert Precedes(d, b, a);
    }
  }

  /** Ingestion keeps content hashes unique, one document per source, no shared path, and every
      source's chunks distinct and numbered from zero. */
  lemma IngestKeepsSources(w: World, doc: Document, ids: NewIds)
    requires SourcesOk(w.corpus) && IngestOk(w, doc, ids)
    ensures SourcesOk(Ingest(w, doc, ids).world.corpus)
  {
    if !Known(w.corpus, doc.contentHash) {
      var s := Destination(w.corpus, doc, ids);
      StoreKeepsHashes(w.corpus, s, doc, ids);
      StoreKeepsDocuments(w.corpus, s, doc, ids);
      var sha: string -> string :| ChunkedWith(doc, sha);
      ChunkedAreDistinct(doc, sha);
      StoreKeepsChunks(w.corpus.chunks, s, doc.chunks, ids.chunks);
    }
  }

  /** Re-ingesting bytes already stored, from whatever path, changes nothing. */
  lemma ReingestIsIdempotent(w: World, doc: Document, ids: NewIds, again: Document, ids': NewIds)
    requires IngestOk(w, doc, ids) && again.contentHash == doc.contentHash
    requires |ids'.chunks| == |again.chunks| && Distinct(ids'.chunks)
    ensures var v := Ingest(w, doc, ids).world;
            Ingest(v, again, ids') == IngestOutcome(Unchanged, v)
  {
    var v := Ingest(w, doc, ids).world;
    if !Known(w.corpus, doc.contentHash) {
      var s := Destination(w.corpus, doc, ids);
      assert v.corpus.sources[s].contentHash == doc.contentHash;
    }
  }

  /** New bytes at a known path replace that source in place: its id and kind stay, its one document is
      the path, its chunks are the new ones in order, and no other source is touched. */
  lemma UpdateReplacesInPlace(w: World, doc: Document, ids: NewIds, d: Id)
    requires SourcesOk(w.corpus) && IngestOk(w, doc, ids) && !Known(w.corpus, doc.contentHash)
    requires d in w.corpus.documents && w.corpus.documents[d].path == doc.path
    ensures var s := w.corpus.documents[d].sourceId;
            var o := Ingest(w, doc, ids);
            && s in w.corpus.sources
            && o.status == Updated
            && o.world.corpus.sources
               == w.corpus.sources[s := SourceRow(w.corpus.sources[s].kind, doc.title, doc.contentHash)]
            && HoldsExactly(o.world.corpus, s, doc, ids)
            && SameElsewhere(w.corpus, o.world.corpus, s)
  {
    var s := w.corpus.documents[d].sourceId;
    StoredHoldsExactly(w.corpus, s, doc, ids);
  }

  /** New bytes at a new path become a new source, and no other source is touched. */
  lemma NewPathAddsSource(w: World, doc: Document, ids: NewIds)
    requires SourcesOk(w.corpus) && IngestOk(w, doc, ids)
    requires !Known(w.corpus, doc.contentHash) && !HasDocumentAt(w.corpus, doc.path)
    ensures var o := Ingest(w, doc, ids);
            && o.status == Ingested
            && o.world.corpus.sources
               == w.corpus.sources[ids.source := SourceRow(doc.kind, doc.title, doc.contentHash)]
            && HoldsExactly(o.world.corpus, ids.source, doc, ids)
            && SameElsewhere(w.corpus, o.world.corpus, ids.source)
  {
    StoredHoldsExactly(w.corpus, ids.source, doc, ids);
  }

  /** The source's chunk at a position carries what was given. */
  predicate IsChunk(c: Corpus, id: Id, s: Id, position: nat, x: ChunkInput) {
    && id in c.chunks
    && var row := c.chunks[id];
    && row.sourceId == s && row.position == position
    && row.section == x.section && row.body == x.body && row.bodyHash == x.bodyHash && row.tokens == x.tokens
  }

  /** The source's documents and chunks are the given ones, chunk i at position i. */
  ghost predicate HoldsExactly(c: Corpus, s: Id, doc: Document, ids: NewIds)
    requires |ids.chunks| == |doc.chunks|
  {
    && (forall x :: x in c.documents && c.documents[x].sourceId == s ==> c.documents[x].path == doc.path)
    && (forall ch :: ch in c.chunks && c.chunks[ch].sourceId == s <==> ch in ids.chunks)
    && (forall i :: 0 <= i < |ids.chunks| ==>
          IsChunk(c, ids.chunks[i], s, i, doc.chunks[i]))
  }

  ghost predicate SameElsewhere(c: Corpus, d: Corpus, s: Id) {
    && (forall x :: x in c.documents && c.documents[x].sourceId != s ==>
          x in d.documents && d.documents[x] == c.documents[x])
    && (forall ch :: ch in c.chunks && c.chunks[ch].sourceId != s ==> ch in d.chunks && d.chunks[ch] == c.chunks[ch])
    && (forall ch :: ch in d.chunks && d.chunks[ch].sourceId != s ==> ch in c.chunks)
    && d.pages == c.pages && d.vault == c.vault
  }

  lemma StoredHoldsExactly(c: Corpus, s: Id, doc: Document, ids: NewIds)
    requires |ids.chunks| == |doc.chunks| && Distinct(ids.chunks)
    requires ids.document !in c.documents
    requires forall id :: id in ids.chunks ==> id !in c.chunks
    ensures HoldsExactly(Stored(c, s, doc, ids), s, doc, ids)
    ensures SameElsewhere(c, Stored(c, s, doc, ids), s)
  {
    StoredElsewhere(c, s, doc, ids);
    forall i | 0 <= i < |ids.chunks|
      ensures IsChunk(Stored(c, s, doc, ids), ids.chunks[i], s, i, doc.chunks[i])
    {
      assert Stored(c, s, doc, ids).chunks[ids.chunks[i]] == StoredChunk(s, i, doc.chunks[i]);
    }
    StoredElsewhereSame(c, s, doc, ids);
  }

  lemma StoredElsewhereSame(c: Corpus, s: Id, doc: Document, ids: NewIds)
    requires |ids.chunks| == |doc.chunks| && Distinct(ids.chunks)
    requires ids.document !in c.documents
    requires forall id :: id in ids.chunks ==> id !in c.chunks
    ensures SameElsewhere(c, Stored(c, s, doc, ids), s)
  {
    StoredElsewhere(c, s, doc, ids);
  }

  lemma DeleteKeepsChunks(chunks: map<Id, ChunkRow>, after: map<Id, ChunkRow>, s: Id)
    requires ChunksOk(chunks)
    requires forall ch :: ch in after <==> ch in chunks && chunks[ch].sourceId != s
    requires forall ch :: ch in after ==> after[ch] == chunks[ch]
    ensures ChunksOk(after)
  {
    forall a | a in after && after[a].position > 0
      ensures exists b :: Precedes(after, b, a)
    {
      var b :| Precedes(chunks, b, a);
      assert Precedes(after, b, a);
    }
  }

  lemma DeleteKeepsSources(c: Corpus, s: Id, page: Option<Id>, fileGone: bool)
    requires SourcesOk(c)
    ensures SourcesOk(SourceRemoved(c, s, page, fileGone))
  {
    var d := SourceRemoved(c, s, page, fileGone);
    RemovedElsewhere(c, s, page, fileGone);
    DeleteKeepsChunks(c.chunks, d.chunks, s);
    forall t | t in d.sources.Keys
      ensures exists x :: x in d.documents && d.documents[x].sourceId == t
    {
      var x :| x in c.documents && c.documents[x].sourceId == t;
      assert x in d.documents;
    }
  }
}
