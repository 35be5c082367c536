/** One pass of the edge extractor: propose, filter, write through the coordinator, tally. */
module Extraction {
  import opened Wrappers
  import opened EdgeRules
  import opened SemanticGraph
  import opened DualStore
  import opened MirrorRuns
  import opened EdgeTheorems
  import opened EdgeStores

  type Node = (NodeLabel, NodeId)

  // A nearest neighbour; its node is None when the page row is gone.
  datatype Neighbour = Neighbour(entityId: int, node: Option<Node>)

  datatype Proposal = Proposal(
    neighbourId: int, etype: EdgeType, confidence: real, backward: bool, at: int
  )

  /** A changed page with what the stores and the labeller answer about it. */
  datatype PageJob = PageJob(
    node: Node,
    revision: string,
    neighbours: seq<Neighbour>,
    structural: set<NodeId>,
    proposals: seq<Proposal>
  )

  datatype Config = Config(minConfidence: real, model: string)

  datatype Report = Report(
    written: nat, refreshed: nat, droppedConfidence: nat, droppedCollision: nat, pages: nat
  )

  /** The neighbours an LLM call is worth making for: still there, and not structurally linked. */
  function Fresh(neighbours: seq<Neighbour>, structural: set<NodeId>): seq<Neighbour> {
    if neighbours == [] then []
    else
      var n := neighbours[|neighbours| - 1];
      Fresh(neighbours[..|neighbours| - 1], structural)
      + if n.node.Some? && n.node.value.1 !in structural then [n] else []
  }

  /** How many neighbours the structural filter drops. */
  function StructuralDrops(neighbours: seq<Neighbour>, structural: set<NodeId>): nat {
    if neighbours == [] then 0
    else
      var n := neighbours[|neighbours| - 1];
      StructuralDrops(neighbours[..|neighbours| - 1], structural)
      + if n.node.Some? && n.node.value.1 in structural then 1 else 0
  }

  function ById(candidates: seq<Neighbour>): map<int, Neighbour> {
    if candidates == [] then map[]
    else
      var n := candidates[|candidates| - 1];
      ById(candidates[..|candidates| - 1])[n.entityId := n]
  }

  lemma {:induction false} FreshHaveNodes(neighbours: seq<Neighbour>, structural: set<NodeId>)
    ensures forall n :: n in Fresh(neighbours, structural) ==>
              n in neighbours && n.node.Some? && n.node.value.1 !in structural
  {
    if neighbours != [] {
      FreshHaveNodes(neighbours[..|neighbours| - 1], structural);
    }
  }

  lemma {:induction false} ByIdFindsMembers(candidates: seq<Neighbour>)
    ensures forall id :: id in ById(candidates) ==>
              ById(candidates)[id] in candidates && ById(candidates)[id].entityId == id
    ensures forall n :: n in candidates ==> n.entityId in ById(candidates)
  {
    if candidates != [] {
      ByIdFindsMembers(candidates[..|candidates| - 1]);
    }
  }

  function Bag(job: PageJob, p: Proposal, cfg: Config): Provenance {
    Provenance(Some(Llm), Some(cfg.model), Some(p.confidence), Some(p.at), Some(job.revision), Some(p.confidence))
  }

  /** Only a prerequisite has a direction: backward means from the neighbour to the page. */
  function KeyOf(job: PageJob, p: Proposal, neighbour: Node): EdgeKey {
    if p.etype == PrerequisiteFor && p.backward then KeyBetween(p.etype, neighbour, job.node)
    else KeyBetween(p.etype, job.node, neighbour)
  }

  /** The write a proposal leads to: it names a candidate with enough confidence. */
  function WritesOf(job: PageJob, nodes: map<int, Neighbour>, p: Proposal, cfg: Config): seq<Op>
    requires forall id :: id in nodes ==> nodes[id].node.Some?
  {
    if p.neighbourId in nodes && p.confidence >= cfg.minConfidence
    then [Write(KeyOf(job, p, nodes[p.neighbourId].node.value), Bag(job, p, cfg))]
    else []
  }

  /** The writes a page's proposals lead to. */
  function Accepted(job: PageJob, nodes: map<int, Neighbour>, proposals: seq<Proposal>, cfg: Config): seq<Op>
    requires forall id :: id in nodes ==> nodes[id].node.Some?
  {
    if proposals == [] then []
    else
      var n := |proposals| - 1;
      Accepted(job, nodes, proposals[..n], cfg) + WritesOf(job, nodes, proposals[n], cfg)
  }

  /** The proposal is for a candidate and not sure enough. */
  predicate Doubtful(nodes: map<int, Neighbour>, p: Proposal, cfg: Config) {
    p.neighbourId in nodes && p.confidence < cfg.minConfidence
  }

  /** How many proposals for a candidate are not sure enough. */
  function Doubts(nodes: map<int, Neighbour>, proposals: seq<Proposal>, cfg: Config): nat {
    if proposals == [] then 0
    else
      var n := |proposals| - 1;
      Doubts(nodes, proposals[..n], cfg) + if Doubtful(nodes, proposals[n], cfg) then 1 else 0
  }

  function PassDoubts(jobs: seq<PageJob>, cfg: Config): nat {
    if jobs == [] then 0
    else
      var job := jobs[|jobs| - 1];
      PassDoubts(jobs[..|jobs| - 1], cfg) + Doubts(ById(Fresh(job.neighbours, job.structural)), job.proposals, cfg)
  }

  function PageWrites(job: PageJob, cfg: Config): seq<Op> {
    FreshHaveNodes(job.neighbours, job.structural);
    var candidates := Fresh(job.neighbours, job.structural);
    ByIdFindsMembers(candidates);
    Accepted(job, ById(candidates), job.proposals, cfg)
  }

  function PassWrites(jobs: seq<PageJob>, cfg: Config): seq<Op> {
    if jobs == [] then []
    else PassWrites(jobs[..|jobs| - 1], cfg) + PageWrites(jobs[|jobs| - 1], cfg)
  }

  function PassDrops(jobs: seq<PageJob>): nat {
    if jobs == [] then 0
    else
      var job := jobs[|jobs| - 1];
      PassDrops(jobs[..|jobs| - 1]) + StructuralDrops(job.neighbours, job.structural)
  }

  /** Nodes are resolved through page_node_ref, and the parser keeps extractable labels only. */
  ghost predicate JobOk(job: PageJob, lab: Labelling) {
    && lab(job.node.1) == Some(job.node.0)
    && (forall n :: n in job.neighbours && n.node.Some? ==> lab(n.node.value.1) == Some(n.node.value.0))
    && (forall p :: p in job.proposals ==> IsExtractable(p.etype))
  }

  method FilterNeighbours(job: PageJob) returns (candidates: seq<Neighbour>, dropped: nat)
    ensures candidates == Fresh(job.neighbours, job.structural)
    ensures dropped == StructuralDrops(job.neighbours, job.structural)
  {
    candidates, dropped := [], 0;
    var i := 0;
    while i < |job.neighbours|
      invariant i <= |job.neighbours|
      invariant candidates == Fresh(job.neighbours[..i], job.structural)
      invariant dropped == StructuralDrops(job.neighbours[..i], job.structural)
    {
      var n := job.neighbours[i];
      i := i + 1;
      assert job.neighbours[..i][..i - 1] == job.neighbours[..i - 1];
      if n.node.None? {
        continue;
      }
      if n.node.value.1 in job.structural {
        dropped := dropped + 1;
        continue;
      }
      candidates := candidates + [n];
    }
    assert job.neighbours[..i] == job.neighbours;
  }

  lemma KeysCount(before: Edges, after: Edges, k: EdgeKey, grew: bool)
    requires Grew(before, after, k, grew)
    ensures before.Keys <= after.Keys && |after| == |before| + if grew then 1 else 0
  {
    assert |after| == |after.Keys| && |before| == |before.Keys|;
  }

  /** How many writes of a run were answered with d. */
  function Answers(s: Stores, ops: seq<Op>, d: Disposition): nat {
    if ops == [] then 0
    else
      var n := |ops| - 1;
      Answers(s, ops[..n], d)
      + if ops[n].Write? && Record(Run(s, ops[..n]), ops[n].key, ops[n].provenance).disposition == d
        then 1 else 0
  }

  /** A write the extractor makes: an extractable type between resolved nodes, with the whole bag. */
  predicate ExtractorWrite(op: Op, lab: Labelling) {
    op.Write? && IsExtractable(op.key.etype) && WellLabelled(op.key, lab)
    && op.provenance.ByLlm() && op.provenance.Complete()
  }

  lemma RunAppends(s: Stores, ops: seq<Op>, op: Op)
    ensures Run(s, ops + [op]) == Step(Run(s, ops), op)
    ensures forall d :: Answers(s, ops + [op], d)
              == Answers(s, ops, d)
                 + if op.Write? && Record(Run(s, ops), op.key, op.provenance).disposition == d then 1 else 0
  {
    assert (ops + [op])[..|ops|] == ops;
  }

  /** An accepted proposal adds an edge exactly when it is answered with written. */
  lemma PassStep(s: Stores, op: Op, lab: Labelling)
    requires StoresOk(s, lab) && ExtractorWrite(op, lab)
    ensures var d, t := Record(s, op.key, op.provenance).disposition, Step(s, op);
            && StoresOk(t, lab) && !d.Rejected?
            && s.graph.Keys <= t.graph.Keys && |t.graph| == |s.graph| + (if d.Written? then 1 else 0)
            && (Mirrored(s) ==>
                  && Mirrored(t)
                  && s.table.Keys <= t.table.Keys && |t.table| == |s.table| + (if d.Written? then 1 else 0))
  {
    RegistryMembership(op.key.etype);
    StepKeepsInvariants(s, op, lab);
    LlmWriteGrowth(s, lab, op.key, op.provenance);
    var d, t, k := Record(s, op.key, op.provenance).disposition, Step(s, op), CanonicalEndpoints(op.key, true);
    KeysCount(s.graph, t.graph, k, d.Written?);
    if Mirrored(s) {
      KeysCount(s.table, t.table, k, d.Written?);
    }
  }

  /** Whatever the extractor proposes, no edge of the graph disappears, and the number of edges grows by exactly
      the writes answered with written. Stores that agree go on agreeing, and the table grows alike. */
  lemma {:induction false} PassGrowth(s: Stores, ops: seq<Op>, lab: Labelling)
    requires StoresOk(s, lab) && forall op :: op in ops ==> ExtractorWrite(op, lab)
    ensures StoresOk(Run(s, ops), lab)
    ensures s.graph.Keys <= Run(s, ops).graph.Keys
    ensures |Run(s, ops).graph| == |s.graph| + Answers(s, ops, Written)
    ensures Answers(s, ops, Written) + Answers(s, ops, Refreshed) + Answers(s, ops, Collision) == |ops|
    ensures Mirrored(s) ==>
              && Mirrored(Run(s, ops))
              && s.table.Keys <= Run(s, ops).table.Keys
              && |Run(s, ops).table| == |s.table| + Answers(s, ops, Written)
    decreases |ops|
  {
    if ops != [] {
      var init, op := ops[..|ops| - 1], ops[|ops| - 1];
      assert ops == init + [op];
      PassGrowth(s, init, lab);
      PassStep(Run(s, init), op, lab);
      RunAppends(s, init, op);
    }
  }

  lemma {:induction false} AcceptedAreExtractorWrites(
    job: PageJob, nodes: map<int, Neighbour>, proposals: seq<Proposal>, cfg: Config, lab: Labelling)
    requires lab(job.node.1) == Some(job.node.0)
    requires forall p :: p in proposals ==> IsExtractable(p.etype)
    requires forall id :: id in nodes ==>
               nodes[id].node.Some? && lab(nodes[id].node.value.1) == Some(nodes[id].node.value.0)
    ensures forall op :: op in Accepted(job, nodes, proposals, cfg) ==> ExtractorWrite(op, lab)
  {
    if proposals != [] {
      AcceptedAreExtractorWrites(job, nodes, proposals[..|proposals| - 1], cfg, lab);
      assert proposals[|proposals| - 1] in proposals;
    }
  }

  lemma {:induction false} PassMakesExtractorWrites(jobs: seq<PageJob>, cfg: Config, lab: Labelling)
    requires forall job :: job in jobs ==> JobOk(job, lab)
    ensures forall op :: op in PassWrites(jobs, cfg) ==> ExtractorWrite(op, lab)
  {
    if jobs != [] {
      var job := jobs[|jobs| - 1];
      PassMakesExtractorWrites(jobs[..|jobs| - 1], cfg, lab);
      assert JobOk(job, lab);
      var candidates := Fresh(job.neighbours, job.structural);
      FreshHaveNodes(job.neighbours, job.structural);
      ByIdFindsMembers(candidates);
      AcceptedAreExtractorWrites(job, ById(candidates), job.proposals, cfg, lab);
    }
  }

  /** The report of a pass tallies the answers its writes got. */
  ghost predicate Tallies(report: Report, start: Stores, ops: seq<Op>, drops: nat) {
    && report.written == Answers(start, ops, Written)
    && report.refreshed == Answers(start, ops, Refreshed)
    && report.droppedCollision == drops + Answers(start, ops, Collision)
  }

  method WriteOne(
    conn: EdgeTable, driver: GraphStore, key: EdgeKey, props: Provenance,
    report0: Report, ghost start: Stores, ghost ops: seq<Op>, ghost drops: nat)
    returns (report: Report)
    requires IsExtractable(key.etype) && props.extractedBy.Some?
    requires Both(conn, driver) == Run(start, ops) && Tallies(report0, start, ops, drops)
    modifies conn, driver
    ensures Both(conn, driver) == Run(start, ops + [Write(key, props)])
    ensures Tallies(report, start, ops + [Write(key, props)], drops)
    ensures report.pages == report0.pages && report.droppedConfidence == report0.droppedConfidence
  {
    report := report0;
    RunAppends(start, ops, Write(key, props));
    var disposition := RecordExtractedEdge(conn, driver, key, props);
    if disposition == Some(Written) {
      report := report.(written := report.written + 1);
    } else if disposition == Some(Refreshed) {
      report := report.(refreshed := report.refreshed + 1);
    } else if disposition == Some(Collision) {
      report := report.(droppedCollision := report.droppedCollision + 1);
    }
  }

  /** One proposal: it leads to a write, counts as a doubt, or names no candidate. */
  method WriteProposal(
    conn: EdgeTable, driver: GraphStore, job: PageJob, nodes: map<int, Neighbour>, p: Proposal, cfg: Config,
    report0: Report, ghost start: Stores, ghost ops: seq<Op>, ghost drops: nat)
    returns (report: Report)
    requires IsExtractable(p.etype) && forall id :: id in nodes ==> nodes[id].node.Some?
    requires Both(conn, driver) == Run(start, ops) && Tallies(report0, start, ops, drops)
    modifies conn, driver
    ensures var more := ops + WritesOf(job, nodes, p, cfg);
            Both(conn, driver) == Run(start, more) && Tallies(report, start, more, drops)
    ensures report.pages == report0.pages
    ensures report.droppedConfidence == report0.droppedConfidence + if Doubtful(nodes, p, cfg) then 1 else 0
  {
    report := report0;
    assert ops + [] == ops;
    if p.neighbourId !in nodes {
      return;
    }
    if p.confidence < cfg.minConfidence {
      report := report.(droppedConfidence := report.droppedConfidence + 1);
      return;
    }
    var key := KeyOf(job, p, nodes[p.neighbourId].node.value);
    report := WriteOne(conn, driver, key, Bag(job, p, cfg), report, start, ops, drops);
  }

  /** What one more proposal adds. */
  lemma OneMoreProposal(job: PageJob, nodes: map<int, Neighbour>, i: nat, cfg: Config, earlier: seq<Op>)
    requires i < |job.proposals| && forall id :: id in nodes ==> nodes[id].node.Some?
    ensures earlier + Accepted(job, nodes, job.proposals[..i + 1], cfg)
            == earlier + Accepted(job, nodes, job.proposals[..i], cfg) + WritesOf(job, nodes, job.proposals[i], cfg)
    ensures Doubts(nodes, job.proposals[..i + 1], cfg)
            == Doubts(nodes, job.proposals[..i], cfg) + if Doubtful(nodes, job.proposals[i], cfg) then 1 else 0
  {
    assert job.proposals[..i + 1][..i] == job.proposals[..i];
  }

  /** Write one page's proposals. */
  method WriteProposals(
    conn: EdgeTable, driver: GraphStore, job: PageJob, nodes: map<int, Neighbour>, cfg: Config,
    report0: Report, ghost start: Stores, ghost earlier: seq<Op>, ghost drops: nat)
    returns (report: Report)
    requires forall id :: id in nodes ==> nodes[id].node.Some?
    requires forall p :: p in job.proposals ==> IsExtractable(p.etype)
    requires Both(conn, driver) == Run(start, earlier) && Tallies(report0, start, earlier, drops)
    modifies conn, driver
    ensures var ops := earlier + Accepted(job, nodes, job.proposals, cfg);
            Both(conn, driver) == Run(start, ops) && Tallies(report, start, ops, drops)
    ensures report.pages == report0.pages
    ensures report.droppedConfidence == report0.droppedConfidence + Doubts(nodes, job.proposals, cfg)
  {
    report := report0;
    assert earlier + Accepted(job, nodes, [], cfg) == earlier;
    var i := 0;
    while i < |job.proposals|
      invariant i <= |job.proposals|
      invariant var ops := earlier + Accepted(job, nodes, job.proposals[..i], cfg);
                Both(conn, driver) == Run(start, ops) && Tallies(report, start, ops, drops)
      invariant report.pages == report0.pages
      invariant report.droppedConfidence == report0.droppedConfidence + Doubts(nodes, job.proposals[..i], cfg)
    {
      var p := job.proposals[i];
      ghost var ops := earlier + Accepted(job, nodes, job.proposals[..i], cfg);
      OneMoreProposal(job, nodes, i, cfg, earlier);
      report := WriteProposal(conn, driver, job, nodes, p, cfg, report, start, ops, drops);
      i := i + 1;
    }
    assert job.proposals[..i] == job.proposals;
  }

  lemma AcceptedNamesById(candidates: seq<Neighbour>, neighbours: seq<Neighbour>, structural: set<NodeId>)
    requires candidates == Fresh(neighbours, structural)
    ensures forall id :: id in ById(candidates) ==> ById(candidates)[id].node.Some?
  {
    FreshHaveNodes(neighbours, structural);
    ByIdFindsMembers(candidates);
  }

  method IndexById(candidates: seq<Neighbour>) returns (nodes: map<int, Neighbour>)
    ensures nodes == ById(candidates)
  {
    nodes := map[];
    var i := 0;
    while i < |candidates|
      invariant i <= |candidates|
      invariant nodes == ById(candidates[..i])
    {
      nodes := nodes[candidates[i].entityId := candidates[i]];
      i := i + 1;
      assert candidates[..i][..i - 1] == candidates[..i - 1];
    }
    assert candidates[..i] == candidates;
  }

  /** One extraction pass over the changed pages. The stores end as the accepted proposals leave them,
      and the report tallies the structural drops and every answer. */
  method FromExtractedEdges(conn: EdgeTable, driver: GraphStore, jobs: seq<PageJob>, cfg: Config)
    returns (report: Report)
    requires forall job :: job in jobs ==> forall p :: p in job.proposals ==> IsExtractable(p.etype)
    modifies conn, driver
    ensures Both(conn, driver) == Run(old(Both(conn, driver)), PassWrites(jobs, cfg))
    ensures Tallies(report, old(Both(conn, driver)), PassWrites(jobs, cfg), PassDrops(jobs))
    ensures report.pages == |jobs| && report.droppedConfidence == PassDoubts(jobs, cfg)
  {
    report := Report(0, 0, 0, 0, 0);
    ghost var start := Both(conn, driver);
    var i := 0;
    while i < |jobs|
      invariant i <= |jobs|
      invariant Both(conn, driver) == Run(start, PassWrites(jobs[..i], cfg))
      invariant Tallies(report, start, PassWrites(jobs[..i], cfg), PassDrops(jobs[..i]))
      invariant report.pages == i && report.droppedConfidence == PassDoubts(jobs[..i], cfg)
    {
      var job := jobs[i];
      ghost var earlier, drops := PassWrites(jobs[..i], cfg), PassDrops(jobs[..i]);
      assert jobs[..i + 1][..i] == jobs[..i];
      i := i + 1;
      report := report.(pages := report.pages + 1);
      var candidates, dropped := FilterNeighbours(job);
      report := report.(droppedCollision := report.droppedCollision + dropped);
      AcceptedNamesById(candidates, job.neighbours, job.structural);
      var nodes := IndexById(candidates);
      report := WriteProposals(conn, driver, job, nodes, cfg, report, start, earlier, drops + dropped);
    }
    assert jobs[..i] == jobs;
  }

  /** What a whole pass does after any run: every edge of the graph stays, the graph gains exactly as many as
      were written, and every accepted proposal is accounted for once. When the run before left no edge behind,
      the stores agree afterwards and the table has grown alike. */
  lemma PassTheorem(before: seq<Op>, jobs: seq<PageJob>, cfg: Config, lab: Labelling, report: Report)
    requires AdmissibleRun(EMPTY, before, lab) && forall job :: job in jobs ==> JobOk(job, lab)
    requires Tallies(report, Run(EMPTY, before), PassWrites(jobs, cfg), PassDrops(jobs))
    ensures var start := Run(EMPTY, before);
            var after := Run(start, PassWrites(jobs, cfg));
            && start.graph.Keys <= after.graph.Keys && |after.graph| == |start.graph| + report.written
            && report.written + report.refreshed + report.droppedCollision
               == |PassWrites(jobs, cfg)| + PassDrops(jobs)
            && ((forall k :: !Orphaned(before, k)) ==>
                  && Mirrored(after)
                  && start.table.Keys <= after.table.Keys && |after.table| == |start.table| + report.written)
  {
    RunKeepsInvariants(before, lab);
    RunMirrorsIff(before, lab);
    PassMakesExtractorWrites(jobs, cfg, lab);
    PassGrowth(Run(EMPTY, before), PassWrites(jobs, cfg), lab);
  }
}
