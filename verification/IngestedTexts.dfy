/** Where the chunks of a reachable corpus come from: no window of an ingested text is missing. */
module IngestedTexts {
  import opened Wrappers
  import opened Corpus
  import opened IndexQueue
  import opened IndexTheorems
  import opened IngestTheorems
  import opened IndexRuns
  import Chunking
  import Texts
  import ChunkTexts

  /** The step stores the source's rows. */
  ghost predicate Stores(w: World, op: Op, s: Id) {
    op.IngestOp? && Admissible(w, op) && !Known(w.corpus, op.doc.contentHash)
    && s == Destination(w.corpus, op.doc, op.ids)
  }

  /** The source's chunks are the document's, chunk i at position i. */
  ghost predicate HoldsChunks(c: Corpus, s: Id, op: Op)
    requires op.IngestOp?
  {
    && |op.ids.chunks| == |op.doc.chunks|
    && (forall ch :: ch in c.chunks && c.chunks[ch].sourceId == s <==> ch in op.ids.chunks)
    && (forall i :: 0 <= i < |op.ids.chunks| ==>
          IsChunk(c, op.ids.chunks[i], s, i, op.doc.chunks[i]))
  }

  /** No step between m and n stores the source. */
  ghost predicate NotStoredSince(states: seq<World>, ops: seq<Op>, m: int, n: nat, s: Id)
    requires 0 <= m && n <= |ops| < |states|
  {
    forall k :: m < k < n ==> !Stores(states[k], ops[k], s)
  }

  /** Step m stored the source as it stands in state n, and no later step before n stores it. */
  ghost predicate StoredBy(states: seq<World>, ops: seq<Op>, n: nat, s: Id, m: int)
    requires n <= |ops| < |states|
  {
    && 0 <= m < n && Stores(states[m], ops[m], s) && HoldsChunks(states[n].corpus, s, ops[m])
    && NotStoredSince(states, ops, m, n, s)
  }

  lemma StoreHolds(w: World, op: Op, s: Id)
    requires Stores(w, op, s)
    ensures HoldsChunks(Step(w, op).corpus, s, op)
  {
    StoredHoldsExactly(w.corpus, s, op.doc, op.ids);
  }

  /** A step that does not store a remaining source leaves it and its chunks alone. */
  lemma OtherSourcesStay(w: World, op: Op, s: Id)
    requires Admissible(w, op) && !Stores(w, op, s) && s in Step(w, op).corpus.sources
    ensures s in w.corpus.sources
    ensures SameChunksOf(w.corpus, Step(w, op).corpus, s)
  {
    if op.IngestOp? {
      if !Known(w.corpus, op.doc.contentHash) {
        var d := Destination(w.corpus, op.doc, op.ids);
        StoredHoldsExactly(w.corpus, d, op.doc, op.ids);
      }
    } else if op.DeleteOp? {
      RemovedElsewhere(w.corpus, op.source, op.sourcePage, op.fileGone);
    } else {
      OtherStepsLeaveSources(w, op);
    }
  }

  ghost predicate SameChunksOf(c: Corpus, d: Corpus, s: Id) {
    forall ch :: (ch in c.chunks && c.chunks[ch].sourceId == s <==> ch in d.chunks && d.chunks[ch].sourceId == s)
                 && (ch in d.chunks && d.chunks[ch].sourceId == s ==> d.chunks[ch] == c.chunks[ch])
  }

  lemma SameChunksHold(c: Corpus, d: Corpus, s: Id, op: Op)
    requires op.IngestOp? && HoldsChunks(c, s, op) && SameChunksOf(c, d, s)
    ensures HoldsChunks(d, s, op)
  {
    forall i | 0 <= i < |op.ids.chunks|
      ensures IsChunk(d, op.ids.chunks[i], s, i, op.doc.chunks[i])
    {
      assert op.ids.chunks[i] in op.ids.chunks;
    }
  }

  /** In every state of every run, each source's chunks are exactly those of the document that the last
      ingestion of the source read. */
  lemma {:induction false} ChunksComeFromIngestion(states: seq<World>, ops: seq<Op>, n: nat, s: Id) returns (m: nat)
    requires IsRun(states, ops) && n < |states| && s in states[n].corpus.sources
    ensures StoredBy(states, ops, n, s, m)
  {
    var now := LastStep(states, ops, n, s);
    if now {
      m := n - 1;
    } else {
      m := ChunksComeFromIngestion(states, ops, n - 1, s);
    }
  }

  /** The last step stored the source, or whatever stored it before still counts. */
  lemma LastStep(states: seq<World>, ops: seq<Op>, n: nat, s: Id) returns (now: bool)
    requires IsRun(states, ops) && 0 < n < |states| && s in states[n].corpus.sources
    ensures now ==> StoredBy(states, ops, n, s, n - 1)
    ensures !now ==> s in states[n - 1].corpus.sources
    ensures !now ==> forall m: nat :: StoredBy(states, ops, n - 1, s, m) ==> StoredBy(states, ops, n, s, m)
  {
    var w, op := states[n - 1], ops[n - 1];
    assert states[n - 1 + 1] == Step(w, op);
    now := Stores(w, op, s);
    if now {
      StoreHolds(w, op, s);
    } else {
      OtherSourcesStay(w, op, s);
      forall m: nat | StoredBy(states, ops, n - 1, s, m)
        ensures StoredBy(states, ops, n, s, m)
      {
        StoredByGrows(states, ops, n, s, m);
      }
    }
  }

  lemma StoredByGrows(states: seq<World>, ops: seq<Op>, n: nat, s: Id, m: nat)
    requires 0 < n <= |ops| < |states| && StoredBy(states, ops, n - 1, s, m)
    requires SameChunksOf(states[n - 1].corpus, states[n].corpus, s) && !Stores(states[n - 1], ops[n - 1], s)
    ensures StoredBy(states, ops, n, s, m)
  {
    SameChunksHold(states[n - 1].corpus, states[n].corpus, s, ops[m]);
    NotStoredGrows(states, ops, m, n, s);
  }

  lemma NotStoredGrows(states: seq<World>, ops: seq<Op>, m: nat, n: nat, s: Id)
    requires 0 < n <= |ops| < |states| && NotStoredSince(states, ops, m, n - 1, s)
    requires !Stores(states[n - 1], ops[n - 1], s)
    ensures NotStoredSince(states, ops, m, n, s)
  {
    forall k | m < k < n
      ensures !Stores(states[k], ops[k], s)
    {
      if k == n - 1 {
        assert !Stores(states[n - 1], ops[n - 1], s);
      }
    }
  }

  /** Some chunk of the source carries the text's normalised hash. */
  ghost predicate Represented(c: Corpus, s: Id, text: string, sha: string -> string) {
    exists ch :: ch in c.chunks && c.chunks[ch].sourceId == s
                 && c.chunks[ch].bodyHash == sha(Chunking.Normalised(Texts.Strip(text)))
  }

  /** The windows of a section, at the sizes the document was read with. */
  function WindowsOf(p: Parsed, j: nat): seq<string>
    requires j < |p.sections|
  {
    Chunking.SectionTexts(p.sections[j], Chunking.AtLeast(1, p.targetTokens * 4),
                          Chunking.AtLeast(0, p.overlapTokens * 4))
  }

  lemma HashHasChunk(chunks: seq<Chunking.Chunk<string>>, hash: string) returns (i: nat)
    requires hash in Chunking.Hashes(chunks)
    ensures i < |chunks| && chunks[i].bodyHash == hash
  {
    var c :| c in chunks && c.bodyHash == hash;
    i :| i < |chunks| && chunks[i] == c;
  }

  /** Window i of section j of the document is there and is not blank. */
  predicate HasText(doc: Document, j: nat, i: nat) {
    && doc.parsed.Some? && j < |doc.parsed.value.sections| && i < |WindowsOf(doc.parsed.value, j)|
    && Texts.Strip(WindowsOf(doc.parsed.value, j)[i]) != ""
  }

  /** A source that holds the chunks of its document represents every window of it. */
  lemma WindowIsRepresented(c: Corpus, s: Id, op: Op, sha: string -> string, j: nat, i: nat)
    requires op.IngestOp? && HoldsChunks(c, s, op)
    ensures ChunkedWith(op.doc, sha) && HasText(op.doc, j, i) ==>
              Represented(c, s, WindowsOf(op.doc.parsed.value, j)[i], sha)
  {
    if ChunkedWith(op.doc, sha) && HasText(op.doc, j, i) {
      var p := op.doc.parsed.value;
      var hash := sha(Chunking.Normalised(Texts.Strip(WindowsOf(p, j)[i])));
      Chunking.EveryWindowIsStored(p.sections, Chunking.AtLeast(1, p.targetTokens * 4),
                                   Chunking.AtLeast(0, p.overlapTokens * 4), sha, j, i);
      var k := HashHasChunk(Chunking.ChunksFor(p.sections, p.targetTokens, p.overlapTokens, sha), hash);
      var ch := op.ids.chunks[k];
      assert IsChunk(c, ch, s, k, op.doc.chunks[k]);
    }
  }

  /** In every reachable corpus every window of every section of a source's document that is not blank is
      represented by a stored chunk of that source. */
  lemma EveryWindowIsRepresented(states: seq<World>, ops: seq<Op>, n: nat, s: Id) returns (m: nat)
    requires IsRun(states, ops) && n < |states| && s in states[n].corpus.sources
    ensures StoredBy(states, ops, n, s, m)
    ensures forall sha: string -> string, j: nat, i: nat ::
              ChunkedWith(ops[m].doc, sha) && HasText(ops[m].doc, j, i) ==>
                Represented(states[n].corpus, s, WindowsOf(ops[m].doc.parsed.value, j)[i], sha)
  {
    m := ChunksComeFromIngestion(states, ops, n, s);
    forall sha: string -> string, j: nat, i: nat | ChunkedWith(ops[m].doc, sha) && HasText(ops[m].doc, j, i)
      ensures Represented(states[n].corpus, s, WindowsOf(ops[m].doc.parsed.value, j)[i], sha)
    {
      WindowIsRepresented(states[n].corpus, s, ops[m], sha, j, i);
    }
  }

  /** And every chunk of the source is the stripped text of a window of its document: under the window's heading, with
      the hash of its normal form, at its place. */
  lemma ChunkRowComesFromWindow(states: seq<World>, ops: seq<Op>, n: nat, ch: Id)
    returns (m: nat, sha: string -> string, j: nat, text: string)
    requires IsRun(states, ops) && n < |states| && ch in states[n].corpus.chunks
    requires states[n].corpus.chunks[ch].sourceId in states[n].corpus.sources
    ensures StoredBy(states, ops, n, states[n].corpus.chunks[ch].sourceId, m) && ChunkedWith(ops[m].doc, sha)
    ensures ops[m].doc.parsed.Some? && j < |ops[m].doc.parsed.value.sections|
    ensures var p, row := ops[m].doc.parsed.value, states[n].corpus.chunks[ch];
            && ChunkTexts.IsTextOf(p.sections[j], Chunking.AtLeast(1, p.targetTokens * 4),
                                   Chunking.AtLeast(0, p.overlapTokens * 4), text)
            && row.body == Texts.Strip(text) != "" && row.bodyHash == sha(Chunking.Normalised(row.body))
            && row.section == (if p.sections[j].heading == "" then None else Some(p.sections[j].heading))
            && row.tokens == Chunking.AtLeast(1, |row.body| / 4)
  {
    var c := states[n].corpus;
    var s := c.chunks[ch].sourceId;
    m := ChunksComeFromIngestion(states, ops, n, s);
    var op := ops[m];
    assert IngestOk(states[m], op.doc, op.ids);
    sha :| ChunkedWith(op.doc, sha);
    var k :| 0 <= k < |op.ids.chunks| && op.ids.chunks[k] == ch;
    assert IsChunk(c, ch, s, k, op.doc.chunks[k]);
    var p := op.doc.parsed.value;
    j, text := ChunkTexts.ChunkComesFromWindow(p.sections, p.targetTokens, p.overlapTokens, sha, k);
  }
}
