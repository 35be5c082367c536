/** The semantic edges that settling a signal writes, and how long they stand. */
module SignalEdges {
  import opened Wrappers
  import opened EdgeRules
  import opened SemanticGraph
  import opened DualStore
  import opened EdgeTheorems
  import opened EdgeStores

  // ----- an approved contradiction ------------------------------------------------------------------

  const LINK_WEIGHT := 1.0

  function ContradictionKey(from_: PageRef, to: PageRef): EdgeKey {
    KeyBetween(Contradicts, PageNodeRef(from_), PageNodeRef(to))
  }

  function Contradicted(s: Stores, from_: PageRef, to: PageRef): Stores {
    Record(s, ContradictionKey(from_, to), CuratorBag(Some(LINK_WEIGHT))).stores
  }

  /** An approval lasts: after any later run of writes, backfills, rebuilds and deletes that spare the two
      pages, the CONTRADICTS edge stands in both stores as the curator's, and an extractor's write on it
      collides. */
  lemma ApprovedEdgeStays(s: Stores, lab: Labelling, from_: PageRef, to: PageRef, ops: seq<Op>, p: Provenance)
    requires StoresOk(s, lab) && WellLabelled(ContradictionKey(from_, to), lab)
    requires AdmissibleRun(Contradicted(s, from_, to), ops, lab) && SparesEdge(ops, ContradictionKey(from_, to))
    requires p.ByLlm()
    ensures var after := Run(Contradicted(s, from_, to), ops);
            && ContradictionKey(from_, to).etype == Contradicts && RunsBetween(ContradictionKey(from_, to), from_, to)
            && HeldAt(after, ContradictionKey(from_, to))
            && Record(after, ContradictionKey(from_, to), p) == Recorded(Collision, after)
  {
    var k, bag := ContradictionKey(from_, to), CuratorBag(Some(LINK_WEIGHT));
    CuratorWriteHolds(s, k, bag);
    WriteKeepsOk(s, k, bag, lab);
    RunKeepsHeld(Contradicted(s, from_, to), ops, lab, k);
    RegistryMembership(Contradicts);
    CollisionExactly(Run(Contradicted(s, from_, to), ops).graph, k, p);
  }

  // ----- a promoted draft -----------------------------------------------------------------------------

  /** The promoted page, with the sources its grounding chunks come from: none when its file is gone. */
  datatype PromotedPage = PromotedPage(id: NodeId, slug: string, isConcept: bool, sourceIds: seq<NodeId>)

  function SynthesisKey(page: NodeId, source: NodeId): EdgeKey {
    EdgeKey(Synthesizes, ConceptNode, page, SourceNode, source)
  }

  function SynthesisWrites(page: PromotedPage): seq<Op> {
    seq(|page.sourceIds|, i requires 0 <= i < |page.sourceIds| =>
      Write(SynthesisKey(page.id, page.sourceIds[i]), CuratorBag(None)))
  }

  function Synthesized(s: Stores, page: PromotedPage): Stores {
    if page.isConcept then Run(s, SynthesisWrites(page)) else s
  }

  lemma HeldSurvivesCuratorWrite(s: Stores, held: EdgeKey, key: EdgeKey, p: Provenance)
    requires HeldAt(s, held) && p.extractedBy.Some? && !p.ByLlm()
    ensures HeldAt(Record(s, key, p).stores, held)
  {
    CuratorEdgeSurvivesWrite(s.graph, CanonicalEndpoints(key, false), p, held);
  }

  lemma {:induction false} WritesHoldEach(s: Stores, page: PromotedPage, n: nat, i: nat)
    requires i < n <= |page.sourceIds|
    ensures HeldAt(Run(s, SynthesisWrites(page)[..n]), SynthesisKey(page.id, page.sourceIds[i]))
  {
    var writes := SynthesisWrites(page);
    assert writes[..n][..n - 1] == writes[..n - 1];
    var before, key := Run(s, writes[..n - 1]), SynthesisKey(page.id, page.sourceIds[n - 1]);
    CuratorWriteHolds(before, key, CuratorBag(None));
    if i < n - 1 {
      WritesHoldEach(s, page, n - 1, i);
      HeldSurvivesCuratorWrite(before, SynthesisKey(page.id, page.sourceIds[i]), key, CuratorBag(None));
    }
  }

  /** A promotion leaves every other edge as it is, and with a page that is no concept all of them. */
  lemma SynthesisSparesOthers(s: Stores, page: PromotedPage, k: EdgeKey)
    requires page.isConcept ==>
               k.etype != Synthesizes || k.fromId != page.id || k.toId !in page.sourceIds
    ensures var t := Synthesized(s, page);
            && (k in t.graph <==> k in s.graph) && (k in t.graph ==> t.graph[k] == s.graph[k])
            && (k in t.table <==> k in s.table) && (k in t.table ==> t.table[k] == s.table[k])
  {
    if page.isConcept {
      var writes := SynthesisWrites(page);
      WritesSpareOthers(s, page, |writes|, k);
      assert writes[..|writes|] == writes;
    }
  }

  lemma {:induction false} WritesSpareOthers(s: Stores, page: PromotedPage, n: nat, k: EdgeKey)
    requires n <= |page.sourceIds| && (k.etype != Synthesizes || k.fromId != page.id || k.toId !in page.sourceIds)
    ensures var t := Run(s, SynthesisWrites(page)[..n]);
            && (k in t.graph <==> k in s.graph) && (k in t.graph ==> t.graph[k] == s.graph[k])
            && (k in t.table <==> k in s.table) && (k in t.table ==> t.table[k] == s.table[k])
  {
    if n > 0 {
      var writes := SynthesisWrites(page);
      assert writes[..n][..n - 1] == writes[..n - 1];
      WritesSpareOthers(s, page, n - 1, k);
      assert page.sourceIds[n - 1] in page.sourceIds;
      RecordShape(Run(s, writes[..n - 1]), SynthesisKey(page.id, page.sourceIds[n - 1]), CuratorBag(None));
    }
  }

  /** Promoting a concept holds its SYNTHESIZES edge, from the concept, to every source, after the whole loop. */
  lemma SynthesisHoldsEverySource(s: Stores, page: PromotedPage, i: nat)
    requires page.isConcept && i < |page.sourceIds|
    ensures HeldAt(Synthesized(s, page), EdgeKey(Synthesizes, ConceptNode, page.id, SourceNode, page.sourceIds[i]))
  {
    var writes := SynthesisWrites(page);
    WritesHoldEach(s, page, |writes|, i);
    assert writes[..|writes|] == writes;
  }
}
