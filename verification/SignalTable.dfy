/** The curation-signal table and the code that changes it. */
module SignalTable {
  import opened Wrappers
  import opened Signals
  import opened Contradictions
  import EdgeRules
  import DualStore
  import EdgeTheorems
  import EdgeStores
  import SignalEdges

  class Table {
    var rows: seq<Signal>

    constructor ()
      ensures rows == []
    {
      rows := [];
    }

    method Insert(c: Candidate) returns (id: nat)
      modifies this
      ensures rows == old(rows) + [NewSignal(c)] && id == |old(rows)|
    {
      id := |rows|;
      rows := rows + [NewSignal(c)];
    }

    method SetStatus(id: nat, status: Status, revision: Option<string>)
      modifies this
      ensures rows == WithStatus(old(rows), id, status, revision)
    {
      if id < |rows| {
        var row := rows[id].(status := status);
        if revision.Some? {
          row := row.(addressedRevision := revision);
        }
        rows := rows[id := row];
      }
    }

    method AttachSynthPage(id: nat, pageId: string, slug: string)
      modifies this
      ensures rows == WithSynthPage(old(rows), id, pageId, slug)
    {
      if id < |rows| {
        rows := rows[id := rows[id].(payload := rows[id].payload.(synthPageId := pageId, synthSlug := slug))];
      }
    }

    /** An in-progress signal whose draft has this slug, if there is one. */
    method FindInProgress(slug: string) returns (found: Option<nat>)
      ensures IsMatch(rows, slug, found)
    {
      var id := 0;
      while id < |rows|
        invariant id <= |rows|
        invariant forall i: nat :: i < id ==> !AwaitsPromotion(rows, i, slug)
      {
        if AwaitsPromotion(rows, id, slug) {
          return Some(id);
        }
        id := id + 1;
      }
      return None;
    }
  }

  // ----- the run's deduplicated insertion -----------------------------------------------------------

  lemma TallyGrows(byKind: map<Kind, nat>, rows: Rows, s: Signal)
    requires IsTally(byKind, rows)
    ensures IsTally(byKind[s.kind := 1 + if s.kind in byKind then byKind[s.kind] else 0], rows + [s])
  {
    assert (rows + [s])[..|rows|] == rows;
  }

  method InsertCandidates(table: Table, candidates: seq<Candidate>, listKey: ListKey)
    returns (inserted: nat, byKind: map<Kind, nat>)
    modifies table
    ensures old(table.rows) <= table.rows
    ensures table.rows == Deduplicated(old(table.rows), candidates, listKey)
    ensures inserted == |table.rows| - |old(table.rows)|
    ensures IsTally(byKind, table.rows[|old(table.rows)|..])
  {
    var openKeys := OpenKeys(table.rows, listKey);
    ghost var before := table.rows;
    inserted, byKind := 0, map[];
    var n := 0;
    assert table.rows[|before|..] == [];
    while n < |candidates|
      invariant n <= |candidates|
      invariant before <= table.rows && table.rows == Deduplicated(before, candidates[..n], listKey)
      invariant openKeys == OpenKeys(table.rows, listKey)
      invariant inserted == |table.rows| - |before|
      invariant IsTally(byKind, table.rows[|before|..])
    {
      var c := candidates[n];
      assert candidates[..n + 1][..n] == candidates[..n];
      if CandidateKey(c, listKey) !in openKeys {
        ghost var rows := table.rows;
        var id := table.Insert(c);
        OpenKeysGrow(rows, c, listKey);
        openKeys := openKeys + {CandidateKey(c, listKey)};
        inserted := inserted + 1;
        TallyGrows(byKind, rows[|before|..], NewSignal(c));
        byKind := byKind[c.kind := 1 + if c.kind in byKind then byKind[c.kind] else 0];
        assert table.rows[|before|..] == rows[|before|..] + [NewSignal(c)];
      }
      n := n + 1;
    }
    assert candidates[..n] == candidates;
  }

  // ----- the signal's lifecycle ------------------------------------------------------------------------

  method Begin(table: Table, id: nat, pageId: string, slug: string)
    modifies table
    ensures table.rows == Begun(old(table.rows), id, pageId, slug)
  {
    table.SetStatus(id, InProgress, None);
    table.AttachSynthPage(id, pageId, slug);
  }

  /** Close the signal whose draft is promoted. A concept is then linked to every source that its grounding
      chunks come from, when the graph can be reached; the edges are the curator's. */
  method AddressOnPromote(table: Table, conn: EdgeStores.EdgeTable, driver: EdgeStores.GraphStore,
                          page: SignalEdges.PromotedPage, revision: string, graphUp: bool)
    returns (found: Option<nat>)
    modifies table, conn, driver
    ensures IsMatch(old(table.rows), page.slug, found)
    ensures table.rows == Promoted(old(table.rows), found, revision)
    ensures EdgeStores.Both(conn, driver)
            == if found.Some? && graphUp then SignalEdges.Synthesized(old(EdgeStores.Both(conn, driver)), page)
               else old(EdgeStores.Both(conn, driver))
  {
    found := table.FindInProgress(page.slug);
    if found.None? {
      return;
    }
    table.SetStatus(found.value, Addressed, Some(revision));
    if page.isConcept && graphUp {
      ghost var before := EdgeStores.Both(conn, driver);
      var writes := SignalEdges.SynthesisWrites(page);
      var i := 0;
      while i < |page.sourceIds|
        invariant i <= |page.sourceIds|
        invariant table.rows == Promoted(old(table.rows), found, revision)
        invariant EdgeStores.Both(conn, driver) == DualStore.Run(before, writes[..i])
      {
        assert writes[..i + 1][..i] == writes[..i];
        var _ := EdgeStores.RecordSemanticEdge(
          conn, driver, SignalEdges.SynthesisKey(page.id, page.sourceIds[i]), EdgeStores.CuratorBag(None));
        i := i + 1;
      }
      assert writes[..i] == writes;
    }
  }

  /** The curator's verdict. from_ and to are the pages the proposal's slugs lead to. An approval writes the
      CONTRADICTS edge between them before the signal is settled; nothing else touches the stores. */
  method Resolve(table: Table, conn: EdgeStores.EdgeTable, driver: EdgeStores.GraphStore, id: nat, approve: bool,
                 from_: Option<EdgeStores.PageRef>, to: Option<EdgeStores.PageRef>)
    returns (verdict: Verdict)
    modifies table, conn, driver
    ensures verdict == VerdictOn(old(table.rows), id, approve, from_.Some? && to.Some?)
    ensures table.rows == Resolved(old(table.rows), id, approve, from_.Some? && to.Some?)
    ensures verdict.Approved? ==>
              && from_.Some? && to.Some?
              && EdgeStores.Both(conn, driver)
                 == SignalEdges.Contradicted(old(EdgeStores.Both(conn, driver)), from_.value, to.value)
              && var k := SignalEdges.ContradictionKey(from_.value, to.value);
              && k.etype == EdgeRules.Contradicts && EdgeStores.RunsBetween(k, from_.value, to.value)
              && EdgeTheorems.HeldAt(EdgeStores.Both(conn, driver), k)
              && conn.rows[k].weight == Some(1.0)
    ensures !verdict.Approved? ==> EdgeStores.Both(conn, driver) == old(EdgeStores.Both(conn, driver))
  {
    if id >= |table.rows| {
      return UnknownSignal;
    }
    var signal := table.rows[id];
    if !signal.status.Open? && !signal.status.InProgress? {
      return AlreadySettled;
    }
    if !approve {
      table.SetStatus(id, Dropped, None);
      return SignalDropped;
    }
    if !signal.kind.ContradictionCandidate? {
      return NoApproveAction;
    }
    if signal.payload.fromSlug == "" || signal.payload.toSlug == "" {
      return NoSlugs;
    }
    var result := EdgeStores.Link(conn, driver, from_, to, EdgeRules.Contradicts, SignalEdges.LINK_WEIGHT);
    if !result.Linked? {
      return LinkFailed;
    }
    table.SetStatus(id, Addressed, None);
    return Approved;
  }

  // ----- the contradiction pass ---------------------------------------------------------------------------

  /** The neighbours worth asking about, and how many were dropped for what reason. */
  method FilterNeighbours(job: Job, pairs: set<Pair>) returns (askable: seq<Neighbour>, linked: nat, proposed: nat)
    ensures askable == WithFate(job.neighbours, job, pairs, Askable)
    ensures linked == |WithFate(job.neighbours, job, pairs, AlreadyLinked)|
    ensures proposed == |WithFate(job.neighbours, job, pairs, AlreadyProposed)|
  {
    askable, linked, proposed := [], 0, 0;
    var i := 0;
    while i < |job.neighbours|
      invariant i <= |job.neighbours|
      invariant askable == WithFate(job.neighbours[..i], job, pairs, Askable)
      invariant linked == |WithFate(job.neighbours[..i], job, pairs, AlreadyLinked)|
      invariant proposed == |WithFate(job.neighbours[..i], job, pairs, AlreadyProposed)|
    {
      var n := job.neighbours[i];
      assert job.neighbours[..i + 1][..i] == job.neighbours[..i];
      if n.nodeId.Some? {
        if n.nodeId.value in job.linked {
          linked := linked + 1;
        } else if PairOf(job.slug, n.slug) in pairs {
          proposed := proposed + 1;
        } else {
          askable := askable + [n];
        }
      }
      i := i + 1;
    }
    assert job.neighbours[..i] == job.neighbours;
  }

  /** A signal for every label that names an askable neighbour and is sure enough. */
  method InsertProposals(table: Table, pairs0: set<Pair>, job: Job, nodes: map<int, Neighbour>, minConfidence: real)
    returns (pairs: set<Pair>, proposed: nat, doubtful: nat)
    modifies table
    ensures table.rows == old(table.rows) + Proposals(job, nodes, job.labels, minConfidence)
    ensures pairs == pairs0 + PairsOf(Proposals(job, nodes, job.labels, minConfidence))
    ensures proposed == |Proposals(job, nodes, job.labels, minConfidence)|
    ensures doubtful == Doubtful(nodes, job.labels, minConfidence)
  {
    ghost var before, made := table.rows, [];
    pairs, proposed, doubtful := pairs0, 0, 0;
    var n := 0;
    while n < |job.labels|
      invariant n <= |job.labels|
      invariant made == Proposals(job, nodes, job.labels[..n], minConfidence)
      invariant table.rows == before + made
      invariant pairs == pairs0 + PairsOf(made)
      invariant proposed == |made|
      invariant doubtful == Doubtful(nodes, job.labels[..n], minConfidence)
    {
      var l := job.labels[n];
      LabelStep(job, nodes, n, minConfidence);
      if l.neighbourId in nodes {
        if l.confidence < minConfidence {
          doubtful := doubtful + 1;
        } else {
          var neighbour := nodes[l.neighbourId];
          var id := table.Insert(ProposalOf(job, neighbour, l));
          PairsOfGrow(pairs0, made, ProposalFor(job, neighbour, l));
          made := made + [ProposalFor(job, neighbour, l)];
          pairs := pairs + {PairOf(job.slug, neighbour.slug)};
          proposed := proposed + 1;
        }
      }
      n := n + 1;
    }
    assert job.labels[..n] == job.labels;
  }

  /** One page: filter its neighbours, ask about the rest, insert what is sure enough. */
  method ProposeForPage(table: Table, pairs0: set<Pair>, job: Job, minConfidence: real, report0: Report)
    returns (pairs: set<Pair>, report: Report)
    modifies table
    ensures var pass := Pass(old(table.rows), pairs0);
            && Pass(table.rows, pairs) == AfterPage(pass, job, minConfidence)
            && report == PageTally(pass, job, minConfidence, report0)
  {
    var askable, linked, known := FilterNeighbours(job, pairs0);
    var proposed, doubtful;
    pairs, proposed, doubtful := InsertProposals(table, pairs0, job, ById(askable), minConfidence);
    report := Report(report0.pages + 1, report0.proposed + proposed, report0.droppedConfidence + doubtful,
                     report0.droppedCollision + linked, report0.droppedAlreadyProposed + known);
  }

  lemma LabelStep(job: Job, nodes: map<int, Neighbour>, n: nat, minConfidence: real)
    requires n < |job.labels|
    ensures var l := job.labels[n];
            var before := Proposals(job, nodes, job.labels[..n], minConfidence);
            Proposals(job, nodes, job.labels[..n + 1], minConfidence)
            == if l.neighbourId in nodes && l.confidence >= minConfidence
               then before + [ProposalFor(job, nodes[l.neighbourId], l)] else before
    ensures var l := job.labels[n];
            Doubtful(nodes, job.labels[..n + 1], minConfidence)
            == Doubtful(nodes, job.labels[..n], minConfidence)
               + if l.neighbourId in nodes && l.confidence < minConfidence then 1 else 0
  {
    assert job.labels[..n + 1][..n] == job.labels[..n];
  }

  lemma PairsOfGrow(known: set<Pair>, rows: Rows, s: Signal)
    ensures known + PairsOf(rows + [s]) == known + PairsOf(rows) + {SignalPair(s)}
  {
    var after := rows + [s];
    assert forall i :: 0 <= i < |rows| ==> after[i] == rows[i];
    assert after[|rows|] == s;
  }

  /** The whole pass over the changed pages. */
  method FromContradictionCandidates(table: Table, jobs: seq<Job>, minConfidence: real) returns (report: Report)
    modifies table
    ensures table.rows == Proposed(old(table.rows), jobs, minConfidence)
    ensures report == Tally(Pass(old(table.rows), SignalPairs(old(table.rows))), jobs, minConfidence)
  {
    ghost var pass := Pass(table.rows, SignalPairs(table.rows));
    var pairs := SignalPairs(table.rows);
    report := Report(0, 0, 0, 0, 0);
    var n := 0;
    while n < |jobs|
      invariant n <= |jobs|
      invariant Pass(table.rows, pairs) == AfterPages(pass, jobs[..n], minConfidence)
      invariant report == Tally(pass, jobs[..n], minConfidence)
    {
      assert jobs[..n + 1][..n] == jobs[..n];
      pairs, report := ProposeForPage(table, pairs, jobs[n], minConfidence, report);
      n := n + 1;
    }
    assert jobs[..n] == jobs;
  }
}
