/** What the two stores of semantic edges promise over whole runs. */
module EdgeTheorems {
  import opened Wrappers
  import opened EdgeRules
  import opened SemanticGraph
  import opened Replay
  import opened DualStore
  import opened MirrorRuns

  // ----- rebuild -------------------------------------------------------------------------------

  /** After any run, a rebuild that replays the ordered query's answer hits no collision and leaves
      exactly the table's edges, whatever the graph had become. */
  lemma RebuildIsLossless(ops: seq<Op>, structural: seq<EdgeKey>, rows: seq<Row>, lab: Labelling)
    requires AdmissibleRun(EMPTY, ops, lab) && IsQueryResult(Run(EMPTY, ops).table, rows)
    ensures var s := Run(EMPTY, ops);
            && Semantic(Rebuilt(s, structural, rows).graph) == s.table
            && Collisions(Projected(map[], structural), rows) == 0
  {
    RunKeepsInvariants(ops, lab);
    RebuildRestoresTable(Run(EMPTY, ops), structural, rows, lab);
  }

  /** Without the rule that an id fixes its node's label the rebuild can lose an edge: the order of
      the query does not separate two nodes that share an id. */
  lemma SharedIdLosesAnEdge(whole: Provenance)
    requires whole.ByLlm() && whole.Complete()
    ensures var curator := Row(EdgeKey(RelatedTo, ConceptNode, 1, TopicNode, 1),
                               NO_PROVENANCE.(extractedBy := Some(NonLlm("curator"))));
            var llm := Row(EdgeKey(RelatedTo, TopicNode, 1, ConceptNode, 1), whole);
            && IsQueryResult(AsTable([curator, llm]), [curator, llm])
            && Semantic(Replayed(map[], [curator, llm])) != AsTable([curator, llm])
  {
    var curator := Row(EdgeKey(RelatedTo, ConceptNode, 1, TopicNode, 1),
                       NO_PROVENANCE.(extractedBy := Some(NonLlm("curator"))));
    var llm := Row(EdgeKey(RelatedTo, TopicNode, 1, ConceptNode, 1), whole);
    assert !Replayable([curator, llm], 1) by {
      assert [curator, llm][0].key == llm.key.Reverse();
    }
    ReplayLosslessIff(map[], [curator, llm]);
  }

  /** Edges that exist in the graph alone survive a rebuild once they have been captured: backfill and
      rebuild give back every edge, an authorless one as the curator's. */
  lemma BackfillThenRebuild(s: Stores, structural: seq<EdgeKey>, rows: seq<Row>, lab: Labelling, k: EdgeKey)
    requires StoresOk(s, lab) && IsQueryResult(Backfilled(s).table, rows)
    requires k in s.graph && IsSemantic(k.etype)
    ensures var after := Rebuilt(Backfilled(s), structural, rows).graph;
            && k in after
            && (forall key: BagKey :: !key.AuthorKey? ==> SameUnder(after[k], s.graph[k], key))
            && after[k].extractedBy
               == if s.graph[k].extractedBy.None? then Some(NonLlm("curator")) else s.graph[k].extractedBy
  {
    BackfillKeepsOk(s, lab);
    RebuildRestoresTable(Backfilled(s), structural, rows, lab);
    BackfillEntry(s, k);
    assert k in Semantic(Rebuilt(Backfilled(s), structural, rows).graph);
  }

  // ----- the extraction watermark ---------------------------------------------------------------

  predicate Stamped(g: Edges, k: EdgeKey) {
    LlmAt(g, k) && g[k].extractedAt.Some?
  }

  predicate LatestAt(g: Edges, k: EdgeKey, w: Option<int>) {
    Stamped(g, k) && g[k].extractedAt == w
  }

  /** w is the latest extraction time over LLM edges, None when there is none. */
  ghost predicate IsWatermark(g: Edges, w: Option<int>) {
    && (forall k :: Stamped(g, k) ==> w.Some? && g[k].extractedAt.value <= w.value)
    && (w.Some? ==> exists k :: LatestAt(g, k, w))
  }

  /** The watermark reads the stamped edges only. */
  lemma StampsDecideWatermark(g: Edges, h: Edges, w: Option<int>)
    requires forall k :: Stamped(g, k) <==> Stamped(h, k)
    requires forall k :: Stamped(h, k) && Stamped(g, k) ==> h[k] == g[k]
    requires IsWatermark(g, w)
    ensures IsWatermark(h, w)
  {
    if w.Some? {
      var k :| LatestAt(g, k, w);
      assert LatestAt(h, k, w);
    }
  }

  /** The watermark is the same before and after a rebuild of mirrored stores. */
  lemma WatermarkSurvivesRebuild(
    s: Stores, structural: seq<EdgeKey>, rows: seq<Row>, lab: Labelling, w: Option<int>)
    requires StoresOk(s, lab) && Mirrored(s) && IsQueryResult(s.table, rows)
    ensures IsWatermark(s.graph, w) <==> IsWatermark(Rebuilt(s, structural, rows).graph, w)
  {
    RebuildKeepsOk(s, structural, rows, lab);
    var after := Rebuilt(s, structural, rows);
    forall k: EdgeKey
      ensures Stamped(s.graph, k) <==> Stamped(after.graph, k)
      ensures Stamped(after.graph, k) ==> after.graph[k] == s.graph[k]
    {
    }
    if IsWatermark(s.graph, w) {
      StampsDecideWatermark(s.graph, after.graph, w);
    }
    if IsWatermark(after.graph, w) {
      StampsDecideWatermark(after.graph, s.graph, w);
    }
  }

  /** What a rebuild does to the watermark when some edges of the graph have no row: it is never later
      afterwards, and it is the same exactly when there was none or one of the latest LLM edges has a row. */
  lemma WatermarkAfterRebuild(
    s: Stores, structural: seq<EdgeKey>, rows: seq<Row>, lab: Labelling, w: Option<int>, v: Option<int>)
    requires StoresOk(s, lab) && TableStands(s) && IsQueryResult(s.table, rows)
    requires IsWatermark(s.graph, w)
    ensures var after := Rebuilt(s, structural, rows).graph;
            && (IsWatermark(after, w) <==> w.None? || exists k :: LatestAt(s.graph, k, w) && k in s.table)
            && (IsWatermark(after, v) && v.Some? ==> w.Some? && v.value <= w.value)
  {
    RebuildKeepsOk(s, structural, rows, lab);
    var after := Rebuilt(s, structural, rows);
    forall k: EdgeKey
      ensures Stamped(after.graph, k) <==> Stamped(s.graph, k) && k in s.table
      ensures Stamped(after.graph, k) ==> after.graph[k] == s.graph[k]
    {
      RowsAreStamped(s, k, lab);
      RowsAreStamped(after, k, lab);
    }
    FewerStamps(s.graph, after.graph, s.table, w, v);
  }

  lemma RowsAreStamped(s: Stores, k: EdgeKey, lab: Labelling)
    requires StoresOk(s, lab) && TableStands(s)
    ensures Stamped(s.table, k) <==> Stamped(s.graph, k) && k in s.table
    ensures Stamped(s.table, k) ==> s.graph[k] == s.table[k]
  {
  }

  lemma FewerStamps(g: Edges, h: Edges, table: Edges, w: Option<int>, v: Option<int>)
    requires forall k :: Stamped(h, k) <==> Stamped(g, k) && k in table
    requires forall k :: Stamped(h, k) && Stamped(g, k) ==> h[k] == g[k]
    requires IsWatermark(g, w)
    ensures IsWatermark(h, w) <==> w.None? || exists k :: LatestAt(g, k, w) && k in table
    ensures IsWatermark(h, v) && v.Some? ==> w.Some? && v.value <= w.value
  {
    if k :| LatestAt(g, k, w) && k in table {
      assert LatestAt(h, k, w);
    }
    if w.Some? && IsWatermark(h, w) {
      var k :| LatestAt(h, k, w);
      assert LatestAt(g, k, w);
    }
  }

  /** Over every run, partial deletes included: a rebuild never makes the watermark later, and leaves it the
      same exactly when there was none or some latest LLM edge has not been left behind by a delete. */
  lemma WatermarkSurvivesRebuildOverRuns(
    ops: seq<Op>, structural: seq<EdgeKey>, rows: seq<Row>, lab: Labelling, w: Option<int>, v: Option<int>)
    requires AdmissibleRun(EMPTY, ops, lab) && IsQueryResult(Run(EMPTY, ops).table, rows)
    requires IsWatermark(Run(EMPTY, ops).graph, w)
    ensures var after := Rebuilt(Run(EMPTY, ops), structural, rows).graph;
            && (IsWatermark(after, w)
                <==> w.None? || exists k :: LatestAt(Run(EMPTY, ops).graph, k, w) && !Orphaned(ops, k))
            && (IsWatermark(after, v) && v.Some? ==> w.Some? && v.value <= w.value)
  {
    var s := Run(EMPTY, ops);
    RunKeepsInvariants(ops, lab);
    WatermarkAfterRebuild(s, structural, rows, lab, w, v);
    forall k | LatestAt(s.graph, k, w)
      ensures k in s.table <==> !Orphaned(ops, k)
    {
      RunOrphansIff(ops, lab, k);
    }
  }

  // ----- what an edge carries --------------------------------------------------------------------

  /** The step replaces what the edge carries under a key, or takes the edge away: a write on its tuple that names
      the key and does not collide, a rebuild, or a delete that gets to one of its nodes. */
  predicate Replaces(s: Stores, op: Op, k: EdgeKey, key: BagKey) {
    match op
    case Write(named, p) =>
      CanonicalEndpoints(named, p.ByLlm()) == k && Names(p, key) && !Record(s, named, p).disposition.Collision?
    case Rebuild(_, _) => true
    case Delete(r, reach) => Detached(k, r.Reached(reach))
    case Backfill => false
  }

  lemma StepKeepsValue(s: Stores, op: Op, k: EdgeKey, key: BagKey)
    requires k in s.graph && !Replaces(s, op, k, key)
    ensures k in Step(s, op).graph && SameUnder(Step(s, op).graph[k], s.graph[k], key)
  {
    if op.Write? {
      var c := CanonicalEndpoints(op.key, op.provenance.ByLlm());
      assert CanonicalEndpoints(c, op.provenance.ByLlm()) == c;
    }
  }

  /** A value under a key stays on an edge of the graph until a write on the tuple names the key, a delete detaches
      the edge, or a rebuild replaces it. */
  lemma {:induction false} RunKeepsValue(s: Stores, ops: seq<Op>, k: EdgeKey, key: BagKey)
    requires k in s.graph
    requires forall i :: 0 <= i < |ops| ==> !Replaces(Run(s, ops[..i]), ops[i], k, key)
    ensures k in Run(s, ops).graph && SameUnder(Run(s, ops).graph[k], s.graph[k], key)
    decreases |ops|
  {
    if ops != [] {
      var n := |ops| - 1;
      assert forall i :: 0 <= i < n ==> ops[..n][..i] == ops[..i];
      RunKeepsValue(s, ops[..n], k, key);
      StepKeepsValue(Run(s, ops[..n]), ops[n], k, key);
    }
  }

  // ----- curator protection ---------------------------------------------------------------------

  /** A curator edge on the pair, in both stores and in the same direction. */
  predicate HeldAt(s: Stores, k: EdgeKey) {
    CuratorAt(s.graph, k) && CuratorAt(s.table, k)
  }

  predicate Held(s: Stores, k: EdgeKey) {
    HeldAt(s, k) || (IsSymmetric(k.etype) && HeldAt(s, k.Reverse()))
  }

  predicate Spares(op: Op, k: EdgeKey) {
    op.Delete? ==> !Touches(k, op.removal.TableIds()) && !Detached(k, op.removal.GraphNodes())
  }

  /** No delete of the run takes one of the edge's endpoints away. */
  predicate SparesEdge(ops: seq<Op>, k: EdgeKey) {
    forall i :: 0 <= i < |ops| ==> Spares(ops[i], k)
  }

  /** A curator write holds its pair from then on. */
  lemma CuratorWriteHolds(s: Stores, key: EdgeKey, p: Provenance)
    requires IsSemantic(key.etype) && p.extractedBy.Some? && !p.ByLlm()
    ensures HeldAt(Record(s, key, p).stores, key)
    ensures Record(s, key, p).disposition.Refreshed? <==> Linked(s.graph, key)
  {
  }

  lemma StepKeepsHeld(s: Stores, op: Op, lab: Labelling, k: EdgeKey)
    requires StoresOk(s, lab) && Admissible(s, op, lab) && IsSemantic(k.etype)
    requires HeldAt(s, k) && Spares(op, k)
    ensures HeldAt(Step(s, op), k)
  {
    match op
    case Write(key, p) =>
      CuratorEdgeSurvivesWrite(s.graph, CanonicalEndpoints(key, p.ByLlm()), p, k);
    case Rebuild(structural, rows) =>
      RebuildRestoresTable(s, structural, rows, lab);
      assert k in Semantic(Rebuilt(s, structural, rows).graph);
    case Delete(r, reach) =>
    case Backfill =>
      BackfillEntry(s, k);
  }

  lemma {:induction false} RunKeepsHeld(s: Stores, ops: seq<Op>, lab: Labelling, k: EdgeKey)
    requires StoresOk(s, lab) && AdmissibleRun(s, ops, lab) && IsSemantic(k.etype)
    requires HeldAt(s, k) && SparesEdge(ops, k)
    ensures StoresOk(Run(s, ops), lab) && HeldAt(Run(s, ops), k)
    decreases |ops|
  {
    if ops != [] {
      var n := |ops| - 1;
      RunKeepsHeld(s, ops[..n], lab, k);
      var before := Run(s, ops[..n]);
      StepKeepsInvariants(before, ops[n], lab);
      StepKeepsHeld(before, ops[n], lab, k);
      assert Run(s, ops) == Step(before, ops[n]);
    }
  }

  /** Once a curator edge stands on a pair, every later LLM write on that pair, in whichever
      direction it is named for a symmetric type, collides and changes neither store, however writes,
      backfills, rebuilds and other deletes are interleaved. */
  lemma CuratorProtectedOverRuns(
    s: Stores, ops: seq<Op>, lab: Labelling, k: EdgeKey, p: Provenance)
    requires StoresOk(s, lab) && AdmissibleRun(s, ops, lab) && IsSemantic(k.etype)
    requires Held(s, k) && SparesEdge(ops, k) && SparesEdge(ops, k.Reverse()) && p.ByLlm()
    ensures Record(Run(s, ops), k, p) == Recorded(Collision, Run(s, ops))
  {
    if HeldAt(s, k) {
      RunKeepsHeld(s, ops, lab, k);
    } else {
      RunKeepsHeld(s, ops, lab, k.Reverse());
    }
    var t := Run(s, ops);
    assert Protected(t.graph, k);
    var c := CanonicalEndpoints(k, true);
    CollisionExactly(t.graph, c, p);
    if IsSymmetric(k.etype) {
      PairTestsIgnoreOrientation(t.graph, k);
    }
  }

  // ----- one LLM edge per pair, and what an extraction pass adds --------------------------------

  /** At most one LLM edge stands on an unordered pair of a symmetric type. */
  lemma OneLlmEdgePerPair(s: Stores, lab: Labelling, k: EdgeKey)
    requires StoresOk(s, lab) && IsSemantic(k.etype) && IsSymmetric(k.etype)
    requires LlmAt(s.graph, k) && LlmAt(s.graph, k.Reverse())
    ensures k == k.Reverse()
  {
    assert EdgeOk(k, s.graph[k], lab) && EdgeOk(k.Reverse(), s.graph[k.Reverse()], lab);
  }

  /** In every reachable state at most one LLM edge stands on an unordered pair of a symmetric type. */
  lemma OneLlmEdgePerPairOverRuns(ops: seq<Op>, lab: Labelling, k: EdgeKey)
    requires AdmissibleRun(EMPTY, ops, lab) && IsSymmetric(k.etype)
    requires LlmAt(Run(EMPTY, ops).graph, k) && LlmAt(Run(EMPTY, ops).graph, k.Reverse())
    ensures k == k.Reverse()
  {
    RunKeepsInvariants(ops, lab);
    RegistryMembership(k.etype);
    OneLlmEdgePerPair(Run(EMPTY, ops), lab, k);
  }

  /** An LLM write answers written exactly when nothing stands on the pair it names, refreshed exactly
      when only LLM edges do. */
  lemma LlmDisposition(g: Edges, key: EdgeKey, p: Provenance)
    requires IsSemantic(key.etype) && p.ByLlm()
    ensures var d := UpsertSemantic(g, key, p).disposition;
            && (d.Written? <==> !Linked(g, key))
            && (d.Refreshed? <==> Linked(g, key) && !Protected(g, key))
  {
    CollisionExactly(g, key, p);
    if IsSymmetric(key.etype) {
      PairTestsIgnoreOrientation(g, key);
    }
  }

  /** A refreshing LLM write finds its edge on the very tuple it writes. */
  lemma RefreshFindsItsEdge(s: Stores, lab: Labelling, k: EdgeKey)
    requires StoresOk(s, lab) && IsSemantic(k.etype) && WellLabelled(k, lab) && !k.Descending()
    requires Linked(s.graph, k) && !Protected(s.graph, k)
    ensures k in s.graph
  {
    if k.Reverse() in s.graph {
      assert EdgeOk(k.Reverse(), s.graph[k.Reverse()], lab);
    }
  }

  /** k has joined the keys when it grew, and nothing else has. */
  ghost predicate Grew(before: Edges, after: Edges, k: EdgeKey, grew: bool) {
    if grew then k !in before && after.Keys == before.Keys + {k} else after.Keys == before.Keys
  }

  /** An LLM write that does not collide writes its tuple, and a refreshing one finds its edge there. */
  lemma LlmWriteLands(s: Stores, lab: Labelling, key: EdgeKey, p: Provenance)
    requires StoresOk(s, lab) && Admissible(s, Write(key, p), lab) && IsSemantic(key.etype) && p.ByLlm()
    ensures var r := Record(s, key, p);
            var k := CanonicalEndpoints(key, true);
            if r.disposition.Collision? then r.stores == s
            else
              && r.stores.graph.Keys == s.graph.Keys + {k} && r.stores.table.Keys == s.table.Keys + {k}
              && (k in s.graph <==> r.disposition.Refreshed?) && (k !in s.graph <==> r.disposition.Written?)
  {
    var k := CanonicalEndpoints(key, true);
    LlmDisposition(s.graph, k, p);
    CollisionExactly(s.graph, k, p);
    if Linked(s.graph, k) && !Protected(s.graph, k) {
      RefreshFindsItsEdge(s, lab, k);
    }
  }

  /** An LLM write adds one edge to the graph when it answers written, and none otherwise. The table gains a
      row then, and also when the write refreshes an edge that stood without one. */
  lemma LlmWriteGrowth(s: Stores, lab: Labelling, key: EdgeKey, p: Provenance)
    requires StoresOk(s, lab) && Admissible(s, Write(key, p), lab) && IsSemantic(key.etype) && p.ByLlm()
    ensures var r := Record(s, key, p);
            var k := CanonicalEndpoints(key, true);
            && Grew(s.graph, r.stores.graph, k, r.disposition.Written?)
            && (TableStands(s) ==>
                  Grew(s.table, r.stores.table, k,
                       r.disposition.Written? || (r.disposition.Refreshed? && Orphan(s, k))))
  {
    LlmWriteLands(s, lab, key, p);
  }
}
