/** Which contradictions a page's labels propose, read off the neighbours and what is known of them. */
module ProposedPairs {
  import opened Wrappers
  import opened Signals
  import opened Contradictions

  /** The neighbour is still there, not linked to the page, and not part of a pair that is already known. */
  predicate CanBeAsked(n: Neighbour, job: Job, pairs: set<Pair>) {
    n.nodeId.Some? && n.nodeId.value !in job.linked && {job.slug, n.slug} !in pairs
  }

  /** Position i holds the last neighbour with the id that can be asked about. */
  predicate LastAskable(neighbours: seq<Neighbour>, job: Job, pairs: set<Pair>, id: int, i: nat) {
    && i < |neighbours| && neighbours[i].entityId == id && CanBeAsked(neighbours[i], job, pairs)
    && forall j :: i < j < |neighbours| && neighbours[j].entityId == id ==> !CanBeAsked(neighbours[j], job, pairs)
  }

  /** The signal a label leads to. */
  predicate IsSignalOf(s: Signal, job: Job, n: Neighbour, l: Label) {
    && s.kind == ContradictionCandidate && s.priority == 15 && s.status == Open && s.addressedRevision.None?
    && s.payload.fromSlug == job.slug && s.payload.toSlug == n.slug && s.payload.details == l.rationale
    && s.payload.pageId == s.payload.queryText == s.payload.edgeId == s.payload.synthPageId == s.payload.synthSlug == ""
    && s.payload.missingConcepts == []
  }

  lemma ByIdAppends(candidates: seq<Neighbour>, n: Neighbour)
    ensures ById(candidates + [n]) == ById(candidates)[n.entityId := n]
  {
    assert (candidates + [n])[..|candidates|] == candidates;
  }

  lemma AskableOfLonger(neighbours: seq<Neighbour>, job: Job, pairs: set<Pair>)
    requires neighbours != []
    ensures var n := neighbours[|neighbours| - 1];
            var before := ById(WithFate(neighbours[..|neighbours| - 1], job, pairs, Askable));
            ById(WithFate(neighbours, job, pairs, Askable))
            == if CanBeAsked(n, job, pairs) then before[n.entityId := n] else before
  {
    var n := neighbours[|neighbours| - 1];
    var before := WithFate(neighbours[..|neighbours| - 1], job, pairs, Askable);
    if CanBeAsked(n, job, pairs) {
      assert WithFate(neighbours, job, pairs, Askable) == before + [n];
      ByIdAppends(before, n);
    } else {
      assert WithFate(neighbours, job, pairs, Askable) == before + [] == before;
    }
  }

  lemma LastOfLonger(neighbours: seq<Neighbour>, job: Job, pairs: set<Pair>, id: int, i: nat)
    requires neighbours != []
    requires var n := neighbours[|neighbours| - 1]; !(CanBeAsked(n, job, pairs) && n.entityId == id)
    ensures LastAskable(neighbours, job, pairs, id, i)
            <==> LastAskable(neighbours[..|neighbours| - 1], job, pairs, id, i)
  {
    var init := neighbours[..|neighbours| - 1];
    assert forall j :: 0 <= j < |init| ==> init[j] == neighbours[j];
  }

  /** The filtered index leads an id to its last askable neighbour, and to nothing else. */
  lemma {:induction false} IndexLeadsToLast(neighbours: seq<Neighbour>, job: Job, pairs: set<Pair>, id: int)
    ensures id in ById(WithFate(neighbours, job, pairs, Askable))
            <==> exists i: nat :: LastAskable(neighbours, job, pairs, id, i)
    ensures forall i: nat :: LastAskable(neighbours, job, pairs, id, i) ==>
              && id in ById(WithFate(neighbours, job, pairs, Askable))
              && ById(WithFate(neighbours, job, pairs, Askable))[id] == neighbours[i]
  {
    if neighbours != [] {
      var m := |neighbours| - 1;
      var init := neighbours[..m];
      IndexLeadsToLast(init, job, pairs, id);
      if CanBeAsked(neighbours[m], job, pairs) && neighbours[m].entityId == id {
        assert LastAskable(neighbours, job, pairs, id, m);
      } else {
        forall i: nat
          ensures LastAskable(neighbours, job, pairs, id, i) <==> LastAskable(init, job, pairs, id, i)
        {
          LastOfLonger(neighbours, job, pairs, id, i);
        }
      }
      AskableOfLonger(neighbours, job, pairs);
    }
  }

  /** The signals of a page, label by label: a label adds one behind the others exactly when it is sure enough and
      names a neighbour that can be asked about; of several with its id it means the last. */
  lemma LabelAddsItsSignal(job: Job, pairs: set<Pair>, n: nat, minConfidence: real)
    requires n < |job.labels|
    ensures var nodes, l := ById(WithFate(job.neighbours, job, pairs, Askable)), job.labels[n];
            var before, after := Proposals(job, nodes, job.labels[..n], minConfidence),
                                 Proposals(job, nodes, job.labels[..n + 1], minConfidence);
            if l.confidence < minConfidence
               || forall i: nat :: !LastAskable(job.neighbours, job, pairs, l.neighbourId, i)
            then after == before
            else
              && |after| == |before| + 1 && before == after[..|before|]
              && forall i: nat :: LastAskable(job.neighbours, job, pairs, l.neighbourId, i) ==>
                   IsSignalOf(after[|before|], job, job.neighbours[i], l)
  {
    assert job.labels[..n + 1][..n] == job.labels[..n];
    IndexLeadsToLast(job.neighbours, job, pairs, job.labels[n].neighbourId);
  }

  // ----- what the report counts ------------------------------------------------------------------------

  /** The positions of the neighbours with a fate. */
  function Positions(neighbours: seq<Neighbour>, job: Job, pairs: set<Pair>, fate: Fate): set<int> {
    set i | 0 <= i < |neighbours| && FateOf(neighbours[i], job, pairs) == fate
  }

  lemma {:induction false} FatesAreCounted(neighbours: seq<Neighbour>, job: Job, pairs: set<Pair>, fate: Fate)
    ensures |WithFate(neighbours, job, pairs, fate)| == |Positions(neighbours, job, pairs, fate)|
  {
    if neighbours != [] {
      var n := |neighbours| - 1;
      FatesAreCounted(neighbours[..n], job, pairs, fate);
      assert Positions(neighbours, job, pairs, fate)
             == Positions(neighbours[..n], job, pairs, fate)
                + if FateOf(neighbours[n], job, pairs) == fate then {n} else {};
    }
  }

  /** The positions of the neighbours that are linked to the page. */
  function LinkedAt(job: Job): set<int> {
    set i | 0 <= i < |job.neighbours| && job.neighbours[i].nodeId.Some? && job.neighbours[i].nodeId.value in job.linked
  }

  /** The positions of the others whose pair with the page is known. */
  function KnownAt(job: Job, pairs: set<Pair>): set<int> {
    set i | && 0 <= i < |job.neighbours| && job.neighbours[i].nodeId.Some?
            && job.neighbours[i].nodeId.value !in job.linked && {job.slug, job.neighbours[i].slug} in pairs
  }

  /** The label names a neighbour that can be asked about, and is not sure enough. */
  ghost predicate Unsure(job: Job, pairs: set<Pair>, l: Label, minConfidence: real) {
    l.confidence < minConfidence && exists i: nat :: LastAskable(job.neighbours, job, pairs, l.neighbourId, i)
  }

  /** The positions of the unsure labels among the first n. */
  ghost function UnsureAt(job: Job, pairs: set<Pair>, n: nat, minConfidence: real): set<int>
    requires n <= |job.labels|
  {
    set j | 0 <= j < n && Unsure(job, pairs, job.labels[j], minConfidence)
  }

  lemma DoubtfulIsUnsure(job: Job, pairs: set<Pair>, n: nat, minConfidence: real)
    requires n < |job.labels|
    ensures var nodes := ById(WithFate(job.neighbours, job, pairs, Askable));
            Doubtful(nodes, job.labels[..n + 1], minConfidence)
            == Doubtful(nodes, job.labels[..n], minConfidence)
               + if Unsure(job, pairs, job.labels[n], minConfidence) then 1 else 0
  {
    assert job.labels[..n + 1][..n] == job.labels[..n];
    IndexLeadsToLast(job.neighbours, job, pairs, job.labels[n].neighbourId);
  }

  lemma UnsureGrows(job: Job, pairs: set<Pair>, n: nat, minConfidence: real)
    requires n < |job.labels|
    ensures |UnsureAt(job, pairs, n + 1, minConfidence)|
            == |UnsureAt(job, pairs, n, minConfidence)|
               + if Unsure(job, pairs, job.labels[n], minConfidence) then 1 else 0
  {
    assert UnsureAt(job, pairs, n + 1, minConfidence)
           == UnsureAt(job, pairs, n, minConfidence)
              + if Unsure(job, pairs, job.labels[n], minConfidence) then {n} else {};
  }

  lemma {:induction false} DoubtsAreCounted(job: Job, pairs: set<Pair>, n: nat, minConfidence: real)
    requires n <= |job.labels|
    ensures Doubtful(ById(WithFate(job.neighbours, job, pairs, Askable)), job.labels[..n], minConfidence)
            == |UnsureAt(job, pairs, n, minConfidence)|
  {
    if n > 0 {
      DoubtsAreCounted(job, pairs, n - 1, minConfidence);
      DoubtfulIsUnsure(job, pairs, n - 1, minConfidence);
      UnsureGrows(job, pairs, n - 1, minConfidence);
    }
  }

  /** Page by page the report counts the page, its signals, its unsure labels, the linked neighbours and the known
      pairs. */
  lemma ReportCounts(pass: Pass, jobs: seq<Job>, job: Job, minConfidence: real)
    ensures var before := AfterPages(pass, jobs, minConfidence);
            var r, r' := Tally(pass, jobs, minConfidence), Tally(pass, jobs + [job], minConfidence);
            && r'.pages == r.pages + 1
            && r'.proposed == r.proposed + |PageProposals(before, job, minConfidence)|
            && r'.droppedConfidence == r.droppedConfidence + |UnsureAt(job, before.pairs, |job.labels|, minConfidence)|
            && r'.droppedCollision == r.droppedCollision + |LinkedAt(job)|
            && r'.droppedAlreadyProposed == r.droppedAlreadyProposed + |KnownAt(job, before.pairs)|
  {
    assert (jobs + [job])[..|jobs|] == jobs;
    var pairs := AfterPages(pass, jobs, minConfidence).pairs;
    DoubtsAreCounted(job, pairs, |job.labels|, minConfidence);
    assert job.labels[..|job.labels|] == job.labels;
    FatesAreCounted(job.neighbours, job, pairs, AlreadyLinked);
    FatesAreCounted(job.neighbours, job, pairs, AlreadyProposed);
    assert LinkedAt(job) == Positions(job.neighbours, job, pairs, AlreadyLinked);
    assert KnownAt(job, pairs) == Positions(job.neighbours, job, pairs, AlreadyProposed);
  }

  // ----- what a pass knows -------------------------------------------------------------------------------

  /** The row is a proposal for the pair that the pass knows of: one with both slugs from before, or a new one. */
  predicate KnownFrom(rows: Rows, old_: nat, i: nat, pair: Pair) {
    && i < |rows| && IsProposal(rows[i]) && pair == {rows[i].payload.fromSlug, rows[i].payload.toSlug}
    && (i >= old_ || (rows[i].payload.fromSlug != "" && rows[i].payload.toSlug != ""))
  }

  /** A page adds its signals behind the others, each known. */
  lemma PageRows(pass: Pass, old_: nat, job: Job, minConfidence: real, i: nat, pair: Pair)
    requires old_ <= |pass.rows|
    ensures var more, rows := PageProposals(pass, job, minConfidence), AfterPage(pass, job, minConfidence).rows;
            KnownFrom(rows, old_, i, pair)
            <==> if i < |pass.rows| then KnownFrom(pass.rows, old_, i, pair)
                 else i < |rows| && pair == SignalPair(more[i - |pass.rows|])
  {
    var more, rows := PageProposals(pass, job, minConfidence), AfterPage(pass, job, minConfidence).rows;
    PageProposalShape(pass, job, minConfidence);
    if i < |pass.rows| {
      assert rows[i] == pass.rows[i];
    } else if i < |rows| {
      assert rows[i] == more[i - |pass.rows|];
    }
  }

  lemma OnePageKnows(pass: Pass, old_: nat, job: Job, minConfidence: real, pair: Pair)
    requires old_ <= |pass.rows|
    requires pair in pass.pairs <==> exists i: nat :: KnownFrom(pass.rows, old_, i, pair)
    ensures var after := AfterPage(pass, job, minConfidence);
            pair in after.pairs <==> exists i: nat :: KnownFrom(after.rows, old_, i, pair)
  {
    var more, after := PageProposals(pass, job, minConfidence), AfterPage(pass, job, minConfidence);
    if i: nat :| KnownFrom(after.rows, old_, i, pair) {
      PageRows(pass, old_, job, minConfidence, i, pair);
    }
    if pair in pass.pairs {
      var i: nat :| KnownFrom(pass.rows, old_, i, pair);
      PageRows(pass, old_, job, minConfidence, i, pair);
    } else if pair in PairsOf(more) {
      var j :| 0 <= j < |more| && SignalPair(more[j]) == pair;
      PageRows(pass, old_, job, minConfidence, |pass.rows| + j, pair);
    }
  }

  /** At every page, the pairs that are not asked about again are exactly those with a proposal in the table, in any
      status: with both slugs if it is from before the pass. */
  lemma {:induction false} PassKnowsExactly(rows: Rows, jobs: seq<Job>, minConfidence: real, pair: Pair)
    ensures var pass := AfterPages(Pass(rows, SignalPairs(rows)), jobs, minConfidence);
            && |rows| <= |pass.rows|
            && (pair in pass.pairs <==> exists i: nat :: KnownFrom(pass.rows, |rows|, i, pair))
  {
    if jobs == [] {
      if pair in SignalPairs(rows) {
        var i :| 0 <= i < |rows| && IsProposal(rows[i]) && HasSlugs(rows[i]) && SignalPair(rows[i]) == pair;
        assert KnownFrom(rows, |rows|, i, pair);
      }
    } else {
      var init := jobs[..|jobs| - 1];
      PassKnowsExactly(rows, init, minConfidence, pair);
      OnePageKnows(AfterPages(Pass(rows, SignalPairs(rows)), init, minConfidence), |rows|, jobs[|jobs| - 1],
                   minConfidence, pair);
    }
  }
}
