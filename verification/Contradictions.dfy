/** The contradiction pass: proposing pairs of pages to the curator, each pair once. */
module Contradictions {
  import opened Wrappers
  import opened Signals

  // A neighbour; its node id is None when the page row is gone.
  datatype Neighbour = Neighbour(entityId: int, slug: string, nodeId: Option<int>)

  datatype Label = Label(neighbourId: int, confidence: real, rationale: string)

  /** A changed page with what the stores and the labeller answer about it. */
  datatype Job = Job(slug: string, neighbours: seq<Neighbour>, linked: set<int>, labels: seq<Label>)

  datatype Report = Report(
    pages: nat, proposed: nat, droppedConfidence: nat, droppedCollision: nat, droppedAlreadyProposed: nat)

  /** An unordered pair of slugs. */
  type Pair = set<string>

  function PairOf(a: string, b: string): Pair {
    {a, b}
  }

  function SignalPair(s: Signal): Pair {
    PairOf(s.payload.fromSlug, s.payload.toSlug)
  }

  predicate IsProposal(s: Signal) {
    s.kind.ContradictionCandidate?
  }

  predicate HasSlugs(s: Signal) {
    s.payload.fromSlug != "" && s.payload.toSlug != ""
  }

  /** The pairs that already carry a proposal, in any status; rows without slugs do not count. */
  function SignalPairs(rows: Rows): set<Pair> {
    set i | 0 <= i < |rows| && IsProposal(rows[i]) && HasSlugs(rows[i]) :: SignalPair(rows[i])
  }

  // ----- one page ----------------------------------------------------------------------------------------

  datatype Fate = Gone | AlreadyLinked | AlreadyProposed | Askable

  function FateOf(n: Neighbour, job: Job, pairs: set<Pair>): Fate {
    if n.nodeId.None? then Gone
    else if n.nodeId.value in job.linked then AlreadyLinked
    else if PairOf(job.slug, n.slug) in pairs then AlreadyProposed
    else Askable
  }

  function WithFate(neighbours: seq<Neighbour>, job: Job, pairs: set<Pair>, fate: Fate): seq<Neighbour> {
    if neighbours == [] then []
    else
      var n := neighbours[|neighbours| - 1];
      WithFate(neighbours[..|neighbours| - 1], job, pairs, fate) + if FateOf(n, job, pairs) == fate then [n] else []
  }

  function ById(neighbours: seq<Neighbour>): map<int, Neighbour> {
    if neighbours == [] then map[]
    else
      var n := neighbours[|neighbours| - 1];
      ById(neighbours[..|neighbours| - 1])[n.entityId := n]
  }

  const PRIORITY := 15

  function ProposalOf(job: Job, n: Neighbour, l: Label): Candidate {
    Candidate(ContradictionCandidate, PRIORITY, Payload("", "", "", [], job.slug, n.slug, "", "", l.rationale))
  }

  function ProposalFor(job: Job, n: Neighbour, l: Label): Signal {
    NewSignal(ProposalOf(job, n, l))
  }

  /** The signals a page's labels lead to. */
  function Proposals(job: Job, nodes: map<int, Neighbour>, labels: seq<Label>, minConfidence: real): Rows {
    if labels == [] then []
    else
      var l := labels[|labels| - 1];
      Proposals(job, nodes, labels[..|labels| - 1], minConfidence)
      + if l.neighbourId in nodes && l.confidence >= minConfidence
        then [ProposalFor(job, nodes[l.neighbourId], l)]
        else []
  }

  /** The slugs that the accepted labels of one call name: those of askable neighbours, sure enough. */
  function AcceptedSlugs(nodes: map<int, Neighbour>, labels: seq<Label>, minConfidence: real): seq<string> {
    if labels == [] then []
    else
      var l := labels[|labels| - 1];
      AcceptedSlugs(nodes, labels[..|labels| - 1], minConfidence)
      + if l.neighbourId in nodes && l.confidence >= minConfidence then [nodes[l.neighbourId].slug] else []
  }

  /** A proposal is made for every accepted label, in their order. */
  lemma {:induction false} ProposalsNameAcceptedSlugs(
    job: Job, nodes: map<int, Neighbour>, labels: seq<Label>, minConfidence: real)
    ensures var proposals := Proposals(job, nodes, labels, minConfidence);
            var slugs := AcceptedSlugs(nodes, labels, minConfidence);
            |proposals| == |slugs| && forall i :: 0 <= i < |slugs| ==> proposals[i].payload.toSlug == slugs[i]
  {
    if labels != [] {
      ProposalsNameAcceptedSlugs(job, nodes, labels[..|labels| - 1], minConfidence);
    }
  }

  function Doubtful(nodes: map<int, Neighbour>, labels: seq<Label>, minConfidence: real): nat {
    if labels == [] then 0
    else
      var l := labels[|labels| - 1];
      Doubtful(nodes, labels[..|labels| - 1], minConfidence)
      + if l.neighbourId in nodes && l.confidence < minConfidence then 1 else 0
  }

  function PairsOf(rows: Rows): set<Pair> {
    set i | 0 <= i < |rows| :: SignalPair(rows[i])
  }

  /** What a pass carries from page to page. */
  datatype Pass = Pass(rows: Rows, pairs: set<Pair>)

  function PageProposals(pass: Pass, job: Job, minConfidence: real): Rows {
    Proposals(job, ById(WithFate(job.neighbours, job, pass.pairs, Askable)), job.labels, minConfidence)
  }

  function AfterPage(pass: Pass, job: Job, minConfidence: real): Pass {
    var proposals := PageProposals(pass, job, minConfidence);
    Pass(pass.rows + proposals, pass.pairs + PairsOf(proposals))
  }

  function AfterPages(pass: Pass, jobs: seq<Job>, minConfidence: real): Pass {
    if jobs == [] then pass
    else AfterPage(AfterPages(pass, jobs[..|jobs| - 1], minConfidence), jobs[|jobs| - 1], minConfidence)
  }

  function Proposed(rows: Rows, jobs: seq<Job>, minConfidence: real): Rows {
    AfterPages(Pass(rows, SignalPairs(rows)), jobs, minConfidence).rows
  }

  /** Every neighbour of a page is a candidate, or dropped for exactly one reason. */
  lemma {:induction false} NeighboursAreAccountedFor(neighbours: seq<Neighbour>, job: Job, pairs: set<Pair>)
    ensures |WithFate(neighbours, job, pairs, Gone)| + |WithFate(neighbours, job, pairs, AlreadyLinked)|
            + |WithFate(neighbours, job, pairs, AlreadyProposed)| + |WithFate(neighbours, job, pairs, Askable)|
            == |neighbours|
  {
    if neighbours != [] {
      NeighboursAreAccountedFor(neighbours[..|neighbours| - 1], job, pairs);
    }
  }

  lemma {:induction false} ByIdComesFrom(neighbours: seq<Neighbour>, id: int)
    requires id in ById(neighbours)
    ensures ById(neighbours)[id] in neighbours && ById(neighbours)[id].entityId == id
  {
    if neighbours[|neighbours| - 1].entityId != id {
      ByIdComesFrom(neighbours[..|neighbours| - 1], id);
    }
  }

  lemma {:induction false} WithFateHas(neighbours: seq<Neighbour>, job: Job, pairs: set<Pair>, fate: Fate, n: Neighbour)
    requires n in WithFate(neighbours, job, pairs, fate)
    ensures n in neighbours && FateOf(n, job, pairs) == fate
  {
    var last := neighbours[|neighbours| - 1];
    if n != last || FateOf(last, job, pairs) != fate {
      WithFateHas(neighbours[..|neighbours| - 1], job, pairs, fate, n);
    }
  }

  /** A page proposes no pair that was known when its labels were asked for. */
  lemma {:induction false} ProposalIsNew(
    pass: Pass, job: Job, labels: seq<Label>, minConfidence: real, i: nat)
    requires var nodes := ById(WithFate(job.neighbours, job, pass.pairs, Askable));
             i < |Proposals(job, nodes, labels, minConfidence)|
    ensures var nodes := ById(WithFate(job.neighbours, job, pass.pairs, Askable));
            var s := Proposals(job, nodes, labels, minConfidence)[i];
            && IsProposal(s) && s.status.Open? && s.payload.fromSlug == job.slug
            && SignalPair(s) !in pass.pairs
            && exists n :: n in job.neighbours && n.slug == s.payload.toSlug
  {
    var candidates := WithFate(job.neighbours, job, pass.pairs, Askable);
    var nodes := ById(candidates);
    var init, l := labels[..|labels| - 1], labels[|labels| - 1];
    if i < |Proposals(job, nodes, init, minConfidence)| {
      ProposalIsNew(pass, job, init, minConfidence, i);
    } else {
      ByIdComesFrom(candidates, l.neighbourId);
      WithFateHas(job.neighbours, job, pass.pairs, Askable, nodes[l.neighbourId]);
    }
  }

  // ----- each pair once ------------------------------------------------------------------------------------

  /** At most one proposal for every unordered pair of slugs, in any status. */
  ghost predicate PairsUnique(rows: Rows) {
    forall i, j :: 0 <= i < j < |rows| && IsProposal(rows[i]) && IsProposal(rows[j]) ==>
      SignalPair(rows[i]) != SignalPair(rows[j])
  }

  predicate SlugsGiven(job: Job) {
    job.slug != "" && forall i :: 0 <= i < |job.neighbours| ==> job.neighbours[i].slug != ""
  }

  predicate Distinct(slugs: seq<string>) {
    forall i, j :: 0 <= i < j < |slugs| ==> slugs[i] != slugs[j]
  }

  /** What a page's accepted labels name, given what is known when they are asked for. */
  function Targets(pass: Pass, job: Job, minConfidence: real): seq<string> {
    AcceptedSlugs(ById(WithFate(job.neighbours, job, pass.pairs, Askable)), job.labels, minConfidence)
  }

  /** The table has a proposal for the pair that lacks a slug, which later passes do not remember. */
  predicate ProposedWithoutSlugs(rows: Rows, pair: Pair) {
    exists i :: 0 <= i < |rows| && IsProposal(rows[i]) && !HasSlugs(rows[i]) && SignalPair(rows[i]) == pair
  }

  /** The labels of one call name distinct slugs, as far as they are accepted, and none names a pair whose
      earlier proposal lacks a slug. */
  ghost predicate NewTargets(pass: Pass, job: Job, minConfidence: real) {
    var targets := Targets(pass, job, minConfidence);
    && Distinct(targets)
    && forall i :: 0 <= i < |targets| ==> !ProposedWithoutSlugs(pass.rows, PairOf(job.slug, targets[i]))
  }

  /** The pass knows every pair that the table has a proposal for, slugs given. */
  ghost predicate KnowsPairs(pass: Pass) {
    forall i :: 0 <= i < |pass.rows| && IsProposal(pass.rows[i]) && HasSlugs(pass.rows[i]) ==>
      SignalPair(pass.rows[i]) in pass.pairs
  }

  lemma PageProposalShape(pass: Pass, job: Job, minConfidence: real)
    ensures var proposals, targets := PageProposals(pass, job, minConfidence), Targets(pass, job, minConfidence);
            && |proposals| == |targets|
            && forall i :: 0 <= i < |proposals| ==>
                 && IsProposal(proposals[i]) && proposals[i].payload.fromSlug == job.slug
                 && proposals[i].payload.toSlug == targets[i] && SignalPair(proposals[i]) !in pass.pairs
  {
    var proposals, targets := PageProposals(pass, job, minConfidence), Targets(pass, job, minConfidence);
    var nodes := ById(WithFate(job.neighbours, job, pass.pairs, Askable));
    ProposalsNameAcceptedSlugs(job, nodes, job.labels, minConfidence);
    forall i | 0 <= i < |proposals|
      ensures IsProposal(proposals[i]) && proposals[i].payload.fromSlug == job.slug
      ensures proposals[i].payload.toSlug == targets[i] && SignalPair(proposals[i]) !in pass.pairs
    {
      ProposalIsNew(pass, job, job.labels, minConfidence, i);
    }
  }

  lemma SameTargetIsSamePair(slug: string, a: string, b: string)
    ensures PairOf(slug, a) == PairOf(slug, b) <==> a == b
  {
    if PairOf(slug, a) == PairOf(slug, b) {
      assert a in PairOf(slug, b) && b in PairOf(slug, a);
    }
  }

  /** One page keeps the pairs unique exactly when its accepted labels name distinct slugs, and no pair whose
      earlier proposal lacks a slug. */
  lemma PageKeepsPairsIff(pass: Pass, job: Job, minConfidence: real)
    requires KnowsPairs(pass) && PairsUnique(pass.rows)
    ensures PairsUnique(AfterPage(pass, job, minConfidence).rows) <==> NewTargets(pass, job, minConfidence)
  {
    if NewTargets(pass, job, minConfidence) {
      NewTargetsKeepPairs(pass, job, minConfidence);
    }
    if PairsUnique(AfterPage(pass, job, minConfidence).rows) {
      UniquePairsNeedNewTargets(pass, job, minConfidence);
    }
  }

  lemma NewTargetsKeepPairs(pass: Pass, job: Job, minConfidence: real)
    requires KnowsPairs(pass) && PairsUnique(pass.rows) && NewTargets(pass, job, minConfidence)
    ensures PairsUnique(AfterPage(pass, job, minConfidence).rows)
  {
    var more := PageProposals(pass, job, minConfidence);
    var all := pass.rows + more;
    PageProposalShape(pass, job, minConfidence);
    forall i, j | 0 <= i < j < |all| && IsProposal(all[i]) && IsProposal(all[j])
      ensures SignalPair(all[i]) != SignalPair(all[j])
    {
      if |pass.rows| <= i {
        SameTargetIsSamePair(job.slug, all[i].payload.toSlug, all[j].payload.toSlug);
      } else if |pass.rows| <= j {
        var target := Targets(pass, job, minConfidence)[j - |pass.rows|];
        assert !ProposedWithoutSlugs(pass.rows, PairOf(job.slug, target));
        assert all[i] == pass.rows[i];
      }
    }
  }

  lemma UniquePairsNeedNewTargets(pass: Pass, job: Job, minConfidence: real)
    requires PairsUnique(AfterPage(pass, job, minConfidence).rows)
    ensures NewTargets(pass, job, minConfidence)
  {
    var more, targets := PageProposals(pass, job, minConfidence), Targets(pass, job, minConfidence);
    var all, n := pass.rows + more, |pass.rows|;
    PageProposalShape(pass, job, minConfidence);
    forall i, j | 0 <= i < j < |targets|
      ensures targets[i] != targets[j]
    {
      assert all[n + i] == more[i] && all[n + j] == more[j];
    }
    forall j | 0 <= j < |targets|
      ensures !ProposedWithoutSlugs(pass.rows, PairOf(job.slug, targets[j]))
    {
      assert all[n + j] == more[j];
      assert forall i :: 0 <= i < n ==> all[i] == pass.rows[i];
    }
  }

  /** Where slugs are given, only distinctness is asked for. */
  lemma WithSlugsDistinctIsEnough(pass: Pass, job: Job, minConfidence: real)
    requires SlugsGiven(job)
    ensures NewTargets(pass, job, minConfidence) <==> Distinct(Targets(pass, job, minConfidence))
  {
    var targets := Targets(pass, job, minConfidence);
    PageProposalShape(pass, job, minConfidence);
    forall i | 0 <= i < |targets|
      ensures !ProposedWithoutSlugs(pass.rows, PairOf(job.slug, targets[i]))
    {
      ProposalIsNew(pass, job, job.labels, minConfidence, i);
      var pair := PairOf(job.slug, targets[i]);
      assert "" !in pair;
      forall k | 0 <= k < |pass.rows| && !HasSlugs(pass.rows[k])
        ensures SignalPair(pass.rows[k]) != pair
      {
        assert "" in SignalPair(pass.rows[k]);
      }
    }
  }

  /** Every call of the pass gets labels with new targets. */
  ghost predicate NewCalls(pass: Pass, jobs: seq<Job>, minConfidence: real) {
    jobs == []
    || (&& NewCalls(pass, jobs[..|jobs| - 1], minConfidence)
        && NewTargets(AfterPages(pass, jobs[..|jobs| - 1], minConfidence), jobs[|jobs| - 1], minConfidence))
  }

  lemma RepeatedPairStays(rows: Rows, more: Rows)
    requires PairsUnique(rows + more)
    ensures PairsUnique(rows)
  {
    var all := rows + more;
    assert forall i :: 0 <= i < |rows| ==> all[i] == rows[i];
  }

  lemma {:induction false} PassKeepsPairsIff(pass: Pass, jobs: seq<Job>, minConfidence: real)
    requires KnowsPairs(pass) && PairsUnique(pass.rows)
    ensures KnowsPairs(AfterPages(pass, jobs, minConfidence))
    ensures PairsUnique(AfterPages(pass, jobs, minConfidence).rows) <==> NewCalls(pass, jobs, minConfidence)
  {
    if jobs != [] {
      var init, job := jobs[..|jobs| - 1], jobs[|jobs| - 1];
      PassKeepsPairsIff(pass, init, minConfidence);
      var before := AfterPages(pass, init, minConfidence);
      if PairsUnique(before.rows) {
        PageKeepsPairsIff(before, job, minConfidence);
      } else if PairsUnique(AfterPages(pass, jobs, minConfidence).rows) {
        RepeatedPairStays(before.rows, PageProposals(before, job, minConfidence));
      }
    }
  }

  /** A labeller that names one neighbour twice gets two proposals for one pair. */
  lemma RepeatedLabelRepeatsPair()
    ensures var job := Job("a", [Neighbour(1, "b", Some(1))], {}, [Label(1, 0.9, ""), Label(1, 0.8, "")]);
            !PairsUnique(Proposed([], [job], 0.5))
  {
    var n := Neighbour(1, "b", Some(1));
    var l, m := Label(1, 0.9, ""), Label(1, 0.8, "");
    var job := Job("a", [n], {}, [l, m]);
    OnlyNeighbourIsAsked(job, n);
    TwoLabels(job, n, l, m);
    OnePage([], job, 0.5);
    assert SignalPairs([]) == {};
    var rows := Proposed([], [job], 0.5);
    assert rows == [ProposalFor(job, n, l), ProposalFor(job, n, m)];
    assert IsProposal(rows[0]) && IsProposal(rows[1]) && SignalPair(rows[0]) == SignalPair(rows[1]);
  }

  lemma OnlyNeighbourIsAsked(job: Job, n: Neighbour)
    requires job.neighbours == [n] && n.nodeId.Some? && n.nodeId.value !in job.linked
    ensures ById(WithFate(job.neighbours, job, {}, Askable)) == map[n.entityId := n]
  {
    assert [n][..0] == [] && ById([]) == map[];
    assert WithFate([n], job, {}, Askable) == [n];
  }

  lemma TwoLabels(job: Job, n: Neighbour, l: Label, m: Label)
    requires l.neighbourId == n.entityId == m.neighbourId && l.confidence >= 0.5 && m.confidence >= 0.5
    ensures Proposals(job, map[n.entityId := n], [l, m], 0.5) == [ProposalFor(job, n, l), ProposalFor(job, n, m)]
  {
    var nodes := map[n.entityId := n];
    assert [l, m][..1] == [l] && [l][..0] == [];
    assert Proposals(job, nodes, [], 0.5) == [];
    assert Proposals(job, nodes, [l], 0.5) == [ProposalFor(job, n, l)];
  }

  lemma OnePage(rows: Rows, job: Job, minConfidence: real)
    ensures Proposed(rows, [job], minConfidence)
            == rows + PageProposals(Pass(rows, SignalPairs(rows)), job, minConfidence)
  {
    assert [job][..0] == [];
    var pass := Pass(rows, SignalPairs(rows));
    assert AfterPages(pass, [], minConfidence) == pass;
    assert AfterPages(pass, [job], minConfidence) == AfterPage(pass, job, minConfidence);
  }

  // ----- the tally of a pass ---------------------------------------------------------------------------------

  function PageTally(pass: Pass, job: Job, minConfidence: real, r: Report): Report {
    var nodes := ById(WithFate(job.neighbours, job, pass.pairs, Askable));
    Report(r.pages + 1,
           r.proposed + |Proposals(job, nodes, job.labels, minConfidence)|,
           r.droppedConfidence + Doubtful(nodes, job.labels, minConfidence),
           r.droppedCollision + |WithFate(job.neighbours, job, pass.pairs, AlreadyLinked)|,
           r.droppedAlreadyProposed + |WithFate(job.neighbours, job, pass.pairs, AlreadyProposed)|)
  }

  function Tally(pass: Pass, jobs: seq<Job>, minConfidence: real): Report {
    if jobs == [] then Report(0, 0, 0, 0, 0)
    else
      var init := jobs[..|jobs| - 1];
      PageTally(AfterPages(pass, init, minConfidence), jobs[|jobs| - 1], minConfidence,
                Tally(pass, init, minConfidence))
  }

  /** The report counts exactly the rows the pass adds, and it adds them behind the old ones. */
  lemma {:induction false} TallyCountsNewRows(pass: Pass, jobs: seq<Job>, minConfidence: real)
    ensures pass.rows <= AfterPages(pass, jobs, minConfidence).rows
    ensures Tally(pass, jobs, minConfidence).pages == |jobs|
    ensures Tally(pass, jobs, minConfidence).proposed == |AfterPages(pass, jobs, minConfidence).rows| - |pass.rows|
  {
    if jobs != [] {
      TallyCountsNewRows(pass, jobs[..|jobs| - 1], minConfidence);
    }
  }
}
