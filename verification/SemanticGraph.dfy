/** Semantic edges as values: keys, provenance, and the one guarded write every writer of a
    semantic edge goes through. */
module SemanticGraph {
  import opened Wrappers
  import opened EdgeRules

  // Node ids are UUID texts; only their total order is used, so integers stand for them.
  type NodeId = int

  /** The directed tuple both stores key an edge on. */
  datatype EdgeKey = EdgeKey(
    etype: EdgeType, fromLabel: NodeLabel, fromId: NodeId, toLabel: NodeLabel, toId: NodeId
  ) {
    function Reverse(): EdgeKey {
      EdgeKey(etype, toLabel, toId, fromLabel, fromId)
    }

    /** Whether the edge type has one edge per unordered pair and this tuple is the larger-first one. */
    predicate Descending() {
      IsSymmetric(etype) && fromId > toId
    }
  }

  datatype Author = Llm | NonLlm(name: string)

  /** The provenance bag. A missing dict key, a missing graph property and a NULL column are None.
      Timestamps are ISO-8601 texts, of which only the order is used. */
  datatype Provenance = Provenance(
    extractedBy: Option<Author>,
    model: Option<string>,
    confidence: Option<real>,
    extractedAt: Option<int>,
    sourceRevisionId: Option<string>,
    weight: Option<real>
  ) {
    predicate ByLlm() {
      extractedBy == Some(Llm)
    }

    /** Every key of the bag is present, as the extractor supplies it. */
    predicate Complete() {
      extractedBy.Some? && model.Some? && confidence.Some? && extractedAt.Some?
      && sourceRevisionId.Some? && weight.Some?
    }
  }

  const NO_PROVENANCE := Provenance(None, None, None, None, None, None)

  function Newer<T>(old_: Option<T>, new_: Option<T>): Option<T> {
    if new_.Some? then new_ else old_
  }

  /** SET r += props: keys the write carries are replaced, the others are kept. */
  function Merge(old_: Provenance, new_: Provenance): Provenance {
    Provenance(
      Newer(old_.extractedBy, new_.extractedBy),
      Newer(old_.model, new_.model),
      Newer(old_.confidence, new_.confidence),
      Newer(old_.extractedAt, new_.extractedAt),
      Newer(old_.sourceRevisionId, new_.sourceRevisionId),
      Newer(old_.weight, new_.weight)
    )
  }

  /** Every non-null value of a table row is the graph edge's value. */
  ghost predicate Reflects(row: Provenance, edge: Provenance) {
    && (row.extractedBy.Some? ==> edge.extractedBy == row.extractedBy)
    && (row.model.Some? ==> edge.model == row.model)
    && (row.confidence.Some? ==> edge.confidence == row.confidence)
    && (row.extractedAt.Some? ==> edge.extractedAt == row.extractedAt)
    && (row.sourceRevisionId.Some? ==> edge.sourceRevisionId == row.sourceRevisionId)
    && (row.weight.Some? ==> edge.weight == row.weight)
  }

  type Edges = map<EdgeKey, Provenance>

  /** The orientation an edge is written with: an LLM write of a symmetric type runs from the
      smaller id to the larger, every other write keeps the caller's orientation. */
  function CanonicalEndpoints(key: EdgeKey, byLlm: bool): (k: EdgeKey)
    ensures byLlm ==> !k.Descending()
    ensures k == key || (k == key.Reverse() && key.Descending() && byLlm)
  {
    if IsSymmetric(key.etype) && byLlm && key.fromId > key.toId then key.Reverse() else key
  }

  predicate LlmAt(g: Edges, k: EdgeKey) {
    k in g && g[k].ByLlm()
  }

  /** A curator edge, or one without provenance, stands on the directed pair. */
  predicate CuratorAt(g: Edges, k: EdgeKey) {
    k in g && !g[k].ByLlm()
  }

  /** A curator edge on the pair: in either direction when the type is symmetric. */
  predicate Protected(g: Edges, k: EdgeKey) {
    CuratorAt(g, k) || (IsSymmetric(k.etype) && CuratorAt(g, k.Reverse()))
  }

  /** Any edge on the pair, in either direction when the type is symmetric. */
  predicate Linked(g: Edges, k: EdgeKey) {
    k in g || (IsSymmetric(k.etype) && k.Reverse() in g)
  }

  predicate LlmLinked(g: Edges, k: EdgeKey) {
    LlmAt(g, k) || (IsSymmetric(k.etype) && LlmAt(g, k.Reverse()))
  }

  datatype Disposition = Written | Refreshed | Collision | Rejected

  datatype Outcome = Outcome(disposition: Disposition, edges: Edges)

  /** The edges after a merge of provenance onto one tuple. */
  function Stamp(g: Edges, k: EdgeKey, p: Provenance): Edges {
    g[k := Merge(if k in g then g[k] else NO_PROVENANCE, p)]
  }

  /** The guarded write of the graph. Rejected stands for the error raised on a type that is
      not semantic. */
  function UpsertSemantic(g: Edges, key: EdgeKey, p: Provenance): Outcome {
    var k := CanonicalEndpoints(key, p.ByLlm());
    if !IsSemantic(key.etype) then
      Outcome(Rejected, g)
    else if p.ByLlm() && Protected(g, k) then
      Outcome(Collision, g)
    else
      var again := if p.ByLlm() then LlmLinked(g, k) else Linked(g, k);
      Outcome(if again then Refreshed else Written, Stamp(g, k, p))
  }

  // ----- what one write does -----------------------------------------------------------------

  /** Merging never loses authority: a write that names an author decides the class of the edge. */
  lemma MergeTakesAuthor(old_: Provenance, p: Provenance)
    requires p.extractedBy.Some?
    ensures Merge(old_, p).extractedBy == p.extractedBy
    ensures Reflects(p, Merge(old_, p))
    ensures p.Complete() ==> Merge(old_, p) == p
    ensures Merge(NO_PROVENANCE, p) == p
  {
  }

  /** A curator edge survives every write: an LLM write leaves it untouched, and any other write
      leaves a curator edge on the same tuple. */
  lemma CuratorEdgeSurvivesWrite(g: Edges, key: EdgeKey, p: Provenance, held: EdgeKey)
    requires p.extractedBy.Some? && CuratorAt(g, held)
    ensures CuratorAt(UpsertSemantic(g, key, p).edges, held)
    ensures p.ByLlm() ==> UpsertSemantic(g, key, p).edges[held] == g[held]
  {
  }

  /** The direction a caller names is irrelevant to protection and to linkage of a symmetric type. */
  lemma PairTestsIgnoreOrientation(g: Edges, k: EdgeKey)
    requires IsSymmetric(k.etype)
    ensures Protected(g, k) == Protected(g, k.Reverse())
    ensures Linked(g, k) == Linked(g, k.Reverse())
    ensures LlmLinked(g, k) == LlmLinked(g, k.Reverse())
  {
    assert k.Reverse().Reverse() == k;
  }

  /** An LLM write collides exactly when a curator edge stands on the pair it names, in either
      direction for a symmetric type, and a collision changes nothing. */
  lemma CollisionExactly(g: Edges, key: EdgeKey, p: Provenance)
    requires IsSemantic(key.etype)
    ensures UpsertSemantic(g, key, p).disposition.Collision? <==> p.ByLlm() && Protected(g, key)
    ensures UpsertSemantic(g, key, p).disposition.Collision? ==> UpsertSemantic(g, key, p).edges == g
  {
    if IsSymmetric(key.etype) {
      PairTestsIgnoreOrientation(g, key);
    }
  }

  /** The keys of the bag. */
  datatype BagKey = AuthorKey | ModelKey | ConfidenceKey | TimeKey | RevisionKey | WeightKey

  predicate Names(p: Provenance, key: BagKey) {
    match key
    case AuthorKey => p.extractedBy.Some?
    case ModelKey => p.model.Some?
    case ConfidenceKey => p.confidence.Some?
    case TimeKey => p.extractedAt.Some?
    case RevisionKey => p.sourceRevisionId.Some?
    case WeightKey => p.weight.Some?
  }

  predicate SameUnder(p: Provenance, q: Provenance, key: BagKey) {
    match key
    case AuthorKey => p.extractedBy == q.extractedBy
    case ModelKey => p.model == q.model
    case ConfidenceKey => p.confidence == q.confidence
    case TimeKey => p.extractedAt == q.extractedAt
    case RevisionKey => p.sourceRevisionId == q.sourceRevisionId
    case WeightKey => p.weight == q.weight
  }

  /** A write that is not blocked touches one tuple, leaves its whole bag on it, and keeps what the
      edge already carried under every key the write does not name. */
  lemma WriteTouchesOneEdge(g: Edges, key: EdgeKey, p: Provenance)
    requires IsSemantic(key.etype) && p.extractedBy.Some?
    requires !(p.ByLlm() && Protected(g, key))
    ensures var k := CanonicalEndpoints(key, p.ByLlm());
            var after := UpsertSemantic(g, key, p).edges;
            && after.Keys == g.Keys + {k}
            && Reflects(p, after[k])
            && (forall other :: other in g && other != k ==> after[other] == g[other])
            && (forall key :: Names(p, key) ==> SameUnder(after[k], p, key))
            && (k in g ==> forall key :: !Names(p, key) ==> SameUnder(after[k], g[k], key))
            && (k !in g ==> after[k] == p)
  {
    CollisionExactly(g, key, p);
  }
}
