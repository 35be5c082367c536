/** Exactly when the two stores of semantic edges mirror each other over a run: which edges a partial graph
    delete leaves behind, and what takes them back. */
module MirrorRuns {
  import opened Wrappers
  import opened EdgeRules
  import opened SemanticGraph
  import opened DualStore

  /** A semantic edge of the graph that has no row. */
  predicate Orphan(s: Stores, k: EdgeKey) {
    k in s.graph && IsSemantic(k.etype) && k !in s.table
  }

  /** The delete takes the edge's row and does not get to either of its nodes in the graph. */
  predicate LeavesBehind(s: Stores, op: Op, k: EdgeKey) {
    op.Delete? && k in s.table && Touches(k, op.removal.TableIds()) && !Detached(k, op.removal.Reached(op.reach))
  }

  /** The step gives the edge a row again or takes it out of the graph: a rebuild, a backfill, a write of
      the edge that does not collide, or a delete that gets to one of its nodes. */
  predicate Settles(s: Stores, op: Op, k: EdgeKey) {
    match op
    case Write(key, p) => CanonicalEndpoints(key, p.ByLlm()) == k && !Record(s, key, p).disposition.Collision?
    case Rebuild(_, _) => true
    case Delete(r, reach) => Detached(k, r.Reached(reach))
    case Backfill => true
  }

  /** Step m left the edge behind, and no later step settles it. */
  ghost predicate LeftAt(ops: seq<Op>, m: nat, k: EdgeKey)
    requires m < |ops|
  {
    && LeavesBehind(Run(EMPTY, ops[..m]), ops[m], k)
    && forall j :: m < j < |ops| ==> !Settles(Run(EMPTY, ops[..j]), ops[j], k)
  }

  /** Some delete of the run left the edge behind, and no later step settles it. */
  ghost predicate Orphaned(ops: seq<Op>, k: EdgeKey) {
    exists m :: 0 <= m < |ops| && LeftAt(ops, m, k)
  }

  // ----- one step ------------------------------------------------------------------------------

  lemma WriteOrphans(s: Stores, key: EdgeKey, p: Provenance, k: EdgeKey)
    requires p.extractedBy.Some?
    ensures Orphan(Record(s, key, p).stores, k) <==> Orphan(s, k) && !Settles(s, Write(key, p), k)
  {
  }

  lemma DeleteOrphans(s: Stores, r: Removal, reach: GraphDelete, k: EdgeKey)
    requires TableStands(s) && (k in s.table ==> IsSemantic(k.etype))
    ensures Orphan(Deleted(s, r, reach), k)
            <==> LeavesBehind(s, Delete(r, reach), k) || (Orphan(s, k) && !Detached(k, r.Reached(reach)))
  {
  }

  /** An edge stands without a row after a step exactly when the step leaves it behind, or it stood so before
      and the step does not settle it. */
  lemma StepOrphans(s: Stores, op: Op, lab: Labelling, k: EdgeKey)
    requires StoresOk(s, lab) && TableStands(s) && Admissible(s, op, lab)
    ensures Orphan(Step(s, op), k) <==> LeavesBehind(s, op, k) || (Orphan(s, k) && !Settles(s, op, k))
  {
    match op
    case Write(key, p) => WriteOrphans(s, key, p, k);
    case Rebuild(structural, rows) => RebuildKeepsOk(s, structural, rows, lab);
    case Delete(r, reach) => DeleteOrphans(s, r, reach, k);
    case Backfill => BackfillEntry(s, k);
  }

  // ----- over runs -----------------------------------------------------------------------------

  /** A run that is one step longer has left an edge behind exactly when the last step does, or it was left
      behind before and the last step does not settle it. */
  lemma OrphanedGrows(ops: seq<Op>, op: Op, k: EdgeKey)
    ensures Orphaned(ops + [op], k)
            <==> LeavesBehind(Run(EMPTY, ops), op, k) || (Orphaned(ops, k) && !Settles(Run(EMPTY, ops), op, k))
  {
    var more := ops + [op];
    var n := |ops|;
    assert more[..n] == ops;
    forall m: nat | m < n
      ensures LeftAt(more, m, k) <==> LeftAt(ops, m, k) && !Settles(Run(EMPTY, ops), op, k)
    {
      LeftAtGrows(ops, op, m, k);
    }
    assert LeftAt(more, n, k) <==> LeavesBehind(Run(EMPTY, ops), op, k);
    if Orphaned(ops, k) && !Settles(Run(EMPTY, ops), op, k) {
      var m :| 0 <= m < n && LeftAt(ops, m, k);
      assert LeftAt(more, m, k);
    }
  }

  lemma LeftAtGrows(ops: seq<Op>, op: Op, m: nat, k: EdgeKey)
    requires m < |ops|
    ensures LeftAt(ops + [op], m, k) <==> LeftAt(ops, m, k) && !Settles(Run(EMPTY, ops), op, k)
  {
    var more := ops + [op];
    forall j | 0 <= j < |ops|
      ensures more[..j] == ops[..j] && more[j] == ops[j]
    {
    }
    assert more[..|ops|] == ops;
  }

  /** After every run, an edge stands in the graph without a row exactly when some delete of the run took the
      row, did not get to either node of the edge, and no later step settled it. */
  lemma {:induction false} RunOrphansIff(ops: seq<Op>, lab: Labelling, k: EdgeKey)
    requires AdmissibleRun(EMPTY, ops, lab)
    ensures Orphan(Run(EMPTY, ops), k) <==> Orphaned(ops, k)
    decreases |ops|
  {
    if ops != [] {
      var init, op := ops[..|ops| - 1], ops[|ops| - 1];
      RunOrphansIff(init, lab, k);
      RunKeepsInvariants(init, lab);
      assert ops == init + [op];
      LastStepOrphans(init, op, lab, k);
    }
  }

  lemma LastStepOrphans(init: seq<Op>, op: Op, lab: Labelling, k: EdgeKey)
    requires var s := Run(EMPTY, init); StoresOk(s, lab) && TableStands(s) && Admissible(s, op, lab)
    requires Orphan(Run(EMPTY, init), k) <==> Orphaned(init, k)
    ensures Orphan(Run(EMPTY, init + [op]), k) <==> Orphaned(init + [op], k)
  {
    var s := Run(EMPTY, init);
    assert Run(EMPTY, init + [op]) == Step(s, op) by {
      assert (init + [op])[..|init|] == init;
    }
    OrphanedGrows(init, op, k);
    StepOrphans(s, op, lab, k);
  }

  lemma MirrorIsNoOrphan(s: Stores)
    requires TableStands(s)
    ensures Mirrored(s) <==> forall k :: !Orphan(s, k)
  {
    assert forall k :: Orphan(s, k) <==> k in s.graph && IsSemantic(k.etype) && k !in s.table;
  }

  /** After every run the stores mirror each other exactly when the run leaves no edge behind. */
  lemma RunMirrorsIff(ops: seq<Op>, lab: Labelling)
    requires AdmissibleRun(EMPTY, ops, lab)
    ensures Mirrored(Run(EMPTY, ops)) <==> forall k :: !Orphaned(ops, k)
  {
    var s := Run(EMPTY, ops);
    RunKeepsInvariants(ops, lab);
    MirrorIsNoOrphan(s);
    forall k: EdgeKey
      ensures Orphan(s, k) <==> Orphaned(ops, k)
    {
      RunOrphansIff(ops, lab, k);
    }
  }

  // ----- a run that ends out of step -----------------------------------------------------------

  const EDGE := EdgeKey(Synthesizes, ConceptNode, 1, SourceNode, 0)
  const CURATED := NO_PROVENANCE.(extractedBy := Some(NonLlm("curator")))

  // A curator's edge to source 0; the source deleted while the graph cannot be reached.
  const WRITE := Write(EDGE, CURATED)
  const DELETE := Delete(Removal(0, {}, None), NothingDetached)

  lemma TwoSteps(a: Op, b: Op)
    ensures Run(EMPTY, [a]) == Step(EMPTY, a)
    ensures Run(EMPTY, [a, b]) == Step(Step(EMPTY, a), b)
  {
    assert [a][..0] == [] && [a, b][..1] == [a];
    assert Run(EMPTY, [a]) == Step(Run(EMPTY, []), a);
    assert Run(EMPTY, [a, b]) == Step(Run(EMPTY, [a]), b);
  }

  /** After a curator's write and a delete that does not reach the graph the edge stands in the graph alone.
      A backfill then brings the stores back in step by giving the deleted source's edge its row again. */
  lemma DeleteLeavesEdgeBehind(lab: Labelling)
    requires lab(0) == Some(SourceNode) && lab(1) == Some(ConceptNode)
    ensures AdmissibleRun(EMPTY, [WRITE, DELETE], lab)
    ensures var s := Run(EMPTY, [WRITE, DELETE]);
            && !Mirrored(s) && Orphan(s, EDGE)
            && Mirrored(Backfilled(s)) && Backfilled(s).table == map[EDGE := CURATED]
  {
    var ops := [WRITE, DELETE];
    TwoSteps(WRITE, DELETE);
    assert ops[..1] == [WRITE] && [WRITE][..0] == [];
    assert AdmissibleRun(EMPTY, [WRITE], lab);
    var s := Run(EMPTY, ops);
    assert Step(EMPTY, WRITE) == Stores(map[EDGE := CURATED], map[EDGE := CURATED]);
    assert s.table == map[];
    assert s.graph == map[EDGE := CURATED];
    RunKeepsInvariants(ops, lab);
    BackfillMirrorsIff(s);
    assert Backfilled(s).table == map[EDGE := CURATED];
  }
}
