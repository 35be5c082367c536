/** Which edges an extraction pass leaves in the two stores, read off the proposals and the neighbours. */
module ExtractionEdges {
  import opened Wrappers
  import opened EdgeRules
  import opened SemanticGraph
  import opened DualStore
  import opened EdgeTheorems
  import opened Extraction

  /** A proposal with the page it was made for. */
  datatype Offer = Offer(job: PageJob, proposal: Proposal)

  function PageOffers(job: PageJob, proposals: seq<Proposal>): seq<Offer> {
    if proposals == [] then []
    else PageOffers(job, proposals[..|proposals| - 1]) + [Offer(job, proposals[|proposals| - 1])]
  }

  /** All proposals of a pass, in the order they are read. */
  function Offers(jobs: seq<PageJob>): seq<Offer> {
    if jobs == [] then []
    else
      var job := jobs[|jobs| - 1];
      Offers(jobs[..|jobs| - 1]) + PageOffers(job, job.proposals)
  }

  /** The neighbour is still there and not structurally linked to the page. */
  predicate Linkable(n: Neighbour, structural: set<NodeId>) {
    n.node.Some? && n.node.value.1 !in structural
  }

  /** Position i holds the last linkable neighbour with the id. */
  predicate LastWithId(neighbours: seq<Neighbour>, structural: set<NodeId>, id: int, i: nat) {
    && i < |neighbours| && neighbours[i].entityId == id && Linkable(neighbours[i], structural)
    && forall j :: i < j < |neighbours| && neighbours[j].entityId == id ==> !Linkable(neighbours[j], structural)
  }

  predicate RunsFrom(k: EdgeKey, a: Node, b: Node) {
    k.fromLabel == a.0 && k.fromId == a.1 && k.toLabel == b.0 && k.toId == b.1
  }

  /** The edge a proposal for this neighbour means: a backward prerequisite runs from the neighbour to the page,
      any other from the page to the neighbour; a related pair runs from the smaller id to the larger. */
  predicate Means(p: Proposal, page: Node, neighbour: Node, k: EdgeKey) {
    && k.etype == p.etype
    && if p.etype == PrerequisiteFor then
         if p.backward then RunsFrom(k, neighbour, page) else RunsFrom(k, page, neighbour)
       else
         k.fromId <= k.toId && (RunsFrom(k, page, neighbour) || RunsFrom(k, neighbour, page))
  }

  /** The offer asks for the edge: it is sure enough, and means it for the last linkable neighbour with its id. */
  ghost predicate Asks(o: Offer, cfg: Config, k: EdgeKey) {
    && o.proposal.confidence >= cfg.minConfidence
    && exists i: nat ::
         && LastWithId(o.job.neighbours, o.job.structural, o.proposal.neighbourId, i)
         && Means(o.proposal, o.job.node, o.job.neighbours[i].node.value, k)
  }

  /** The last of the offers that ask for the edge. */
  ghost predicate LastAsk(offers: seq<Offer>, cfg: Config, k: EdgeKey, x: nat) {
    && x < |offers| && Asks(offers[x], cfg, k)
    && forall y :: x < y < |offers| ==> !Asks(offers[y], cfg, k)
  }

  ghost predicate Asked(offers: seq<Offer>, cfg: Config, k: EdgeKey) {
    exists x :: 0 <= x < |offers| && Asks(offers[x], cfg, k)
  }

  /** The edge carries what the offer says of it. */
  predicate Carries(p: Provenance, o: Offer, cfg: Config) {
    && p.extractedBy == Some(Llm) && p.model == Some(cfg.model)
    && p.confidence == Some(o.proposal.confidence) == p.weight
    && p.extractedAt == Some(o.proposal.at) && p.sourceRevisionId == Some(o.job.revision)
  }

  predicate SameAt(s: Stores, t: Stores, k: EdgeKey) {
    && (k in t.graph <==> k in s.graph) && (k in t.graph ==> t.graph[k] == s.graph[k])
    && (k in t.table <==> k in s.table) && (k in t.table ==> t.table[k] == s.table[k])
  }

  // ----- one proposal ----------------------------------------------------------------------------

  /** The filtered index leads an id to its last linkable neighbour, and to nothing else. */
  lemma {:induction false} IndexLeadsToLast(neighbours: seq<Neighbour>, structural: set<NodeId>, id: int)
    ensures id in ById(Fresh(neighbours, structural)) <==> exists i: nat :: LastWithId(neighbours, structural, id, i)
    ensures forall i: nat :: LastWithId(neighbours, structural, id, i) ==>
              id in ById(Fresh(neighbours, structural)) && ById(Fresh(neighbours, structural))[id] == neighbours[i]
  {
    if neighbours != [] {
      var m := |neighbours| - 1;
      var init := neighbours[..m];
      IndexLeadsToLast(init, structural, id);
      if Linkable(neighbours[m], structural) && neighbours[m].entityId == id {
        assert LastWithId(neighbours, structural, id, m);
      } else {
        forall i: nat
          ensures LastWithId(neighbours, structural, id, i) <==> LastWithId(init, structural, id, i)
        {
          LastOfLonger(neighbours, structural, id, i);
        }
      }
      FreshOfLonger(neighbours, structural);
    }
  }

  lemma LastOfLonger(neighbours: seq<Neighbour>, structural: set<NodeId>, id: int, i: nat)
    requires neighbours != []
    requires var n := neighbours[|neighbours| - 1]; !(Linkable(n, structural) && n.entityId == id)
    ensures LastWithId(neighbours, structural, id, i)
            <==> LastWithId(neighbours[..|neighbours| - 1], structural, id, i)
  {
    var init := neighbours[..|neighbours| - 1];
    assert forall j :: 0 <= j < |init| ==> init[j] == neighbours[j];
  }

  lemma ByIdAppends(candidates: seq<Neighbour>, n: Neighbour)
    ensures ById(candidates + [n]) == ById(candidates)[n.entityId := n]
  {
    assert (candidates + [n])[..|candidates|] == candidates;
  }

  lemma FreshOfLonger(neighbours: seq<Neighbour>, structural: set<NodeId>)
    requires neighbours != []
    ensures var n := neighbours[|neighbours| - 1];
            var before := ById(Fresh(neighbours[..|neighbours| - 1], structural));
            ById(Fresh(neighbours, structural)) == if Linkable(n, structural) then before[n.entityId := n] else before
  {
    var n := neighbours[|neighbours| - 1];
    var before := Fresh(neighbours[..|neighbours| - 1], structural);
    if Linkable(n, structural) {
      assert Fresh(neighbours, structural) == before + [n];
      ByIdAppends(before, n);
    } else {
      assert Fresh(neighbours, structural) == before + [] == before;
    }
  }

  /** The writes an offer leads to. */
  ghost function OfferWrites(o: Offer, cfg: Config): seq<Op> {
    AcceptedNamesById(Fresh(o.job.neighbours, o.job.structural), o.job.neighbours, o.job.structural);
    WritesOf(o.job, ById(Fresh(o.job.neighbours, o.job.structural)), o.proposal, cfg)
  }

  /** The orientation an LLM write is stored with is the one that is meant. */
  lemma StoredAsMeant(o: Offer, neighbour: Node, k: EdgeKey, lab: Labelling)
    requires IsExtractable(o.proposal.etype)
    requires lab(o.job.node.1) == Some(o.job.node.0) && lab(neighbour.1) == Some(neighbour.0)
    ensures CanonicalEndpoints(KeyOf(o.job, o.proposal, neighbour), true) == k
            <==> Means(o.proposal, o.job.node, neighbour, k)
  {
    RegistryMembership(o.proposal.etype);
  }

  lemma LastIsOne(neighbours: seq<Neighbour>, structural: set<NodeId>, id: int, i: nat, j: nat)
    requires LastWithId(neighbours, structural, id, i) && LastWithId(neighbours, structural, id, j)
    ensures i == j
  {
  }

  /** For a candidate: the edge its sure-enough offers ask for is the one their write stores. */
  lemma AskedIsStored(o: Offer, cfg: Config, k: EdgeKey, lab: Labelling, i: nat)
    requires OfferOk(o, lab) && o.proposal.confidence >= cfg.minConfidence
    requires LastWithId(o.job.neighbours, o.job.structural, o.proposal.neighbourId, i)
    ensures var neighbour := o.job.neighbours[i].node.value;
            && lab(neighbour.1) == Some(neighbour.0)
            && (Asks(o, cfg, k) <==> CanonicalEndpoints(KeyOf(o.job, o.proposal, neighbour), true) == k)
  {
    var job, p := o.job, o.proposal;
    assert job.neighbours[i] in job.neighbours;
    StoredAsMeant(o, job.neighbours[i].node.value, k, lab);
    if Asks(o, cfg, k) {
      var j: nat :| LastWithId(job.neighbours, job.structural, p.neighbourId, j)
                    && Means(p, job.node, job.neighbours[j].node.value, k);
      LastIsOne(job.neighbours, job.structural, p.neighbourId, i, j);
    }
  }

  /** The one write of a sure-enough offer for a candidate. */
  lemma SureOfferWrites(o: Offer, cfg: Config, lab: Labelling, i: nat)
    requires OfferOk(o, lab) && o.proposal.confidence >= cfg.minConfidence
    requires LastWithId(o.job.neighbours, o.job.structural, o.proposal.neighbourId, i)
    ensures var op := Write(KeyOf(o.job, o.proposal, o.job.neighbours[i].node.value), Bag(o.job, o.proposal, cfg));
            OfferWrites(o, cfg) == [op] && ExtractorWrite(op, lab) && Carries(op.provenance, o, cfg)
  {
    IndexLeadsToLast(o.job.neighbours, o.job.structural, o.proposal.neighbourId);
    assert o.job.neighbours[i] in o.job.neighbours;
  }

  lemma OtherOfferIsSilent(o: Offer, cfg: Config)
    requires o.proposal.confidence < cfg.minConfidence
             || forall i: nat :: !LastWithId(o.job.neighbours, o.job.structural, o.proposal.neighbourId, i)
    ensures OfferWrites(o, cfg) == []
    ensures forall k :: !Asks(o, cfg, k)
  {
    IndexLeadsToLast(o.job.neighbours, o.job.structural, o.proposal.neighbourId);
  }

  /** An offer that asks for an edge writes it and nothing else; one that does not ask for it does not write it. */
  lemma OfferWritesWhatItAsks(o: Offer, cfg: Config, k: EdgeKey, lab: Labelling)
    requires OfferOk(o, lab)
    ensures var ops := OfferWrites(o, cfg);
            if Asks(o, cfg, k) then
              && |ops| == 1 && ExtractorWrite(ops[0], lab)
              && CanonicalEndpoints(ops[0].key, true) == k && Carries(ops[0].provenance, o, cfg)
            else
              ops == []
              || (|ops| == 1 && ExtractorWrite(ops[0], lab) && CanonicalEndpoints(ops[0].key, true) != k)
  {
    if i: nat :| o.proposal.confidence >= cfg.minConfidence
                 && LastWithId(o.job.neighbours, o.job.structural, o.proposal.neighbourId, i) {
      SureOfferWrites(o, cfg, lab, i);
      AskedIsStored(o, cfg, k, lab, i);
    } else {
      OtherOfferIsSilent(o, cfg);
    }
  }

  // ----- a pass is its offers ----------------------------------------------------------------------

  ghost function AllWrites(offers: seq<Offer>, cfg: Config): seq<Op> {
    if offers == [] then [] else AllWrites(offers[..|offers| - 1], cfg) + OfferWrites(offers[|offers| - 1], cfg)
  }

  lemma {:induction false} WritesOfTwo(a: seq<Offer>, b: seq<Offer>, cfg: Config)
    ensures AllWrites(a + b, cfg) == AllWrites(a, cfg) + AllWrites(b, cfg)
    decreases |b|
  {
    if b == [] {
      assert a + b == a;
    } else {
      var init := b[..|b| - 1];
      assert (a + b)[..|a + b| - 1] == a + init;
      WritesOfTwo(a, init, cfg);
    }
  }

  lemma {:induction false} PageIsItsOffers(job: PageJob, proposals: seq<Proposal>, cfg: Config)
    requires forall id :: id in ById(Fresh(job.neighbours, job.structural)) ==>
               ById(Fresh(job.neighbours, job.structural))[id].node.Some?
    ensures Accepted(job, ById(Fresh(job.neighbours, job.structural)), proposals, cfg)
            == AllWrites(PageOffers(job, proposals), cfg)
  {
    if proposals != [] {
      var init, p := proposals[..|proposals| - 1], proposals[|proposals| - 1];
      PageIsItsOffers(job, init, cfg);
      assert PageOffers(job, proposals)[..|PageOffers(job, proposals)| - 1] == PageOffers(job, init);
    }
  }

  lemma {:induction false} PassIsItsOffers(jobs: seq<PageJob>, cfg: Config)
    ensures PassWrites(jobs, cfg) == AllWrites(Offers(jobs), cfg)
  {
    if jobs != [] {
      var init, job := jobs[..|jobs| - 1], jobs[|jobs| - 1];
      PassIsItsOffers(init, cfg);
      AcceptedNamesById(Fresh(job.neighbours, job.structural), job.neighbours, job.structural);
      PageIsItsOffers(job, job.proposals, cfg);
      WritesOfTwo(Offers(init), PageOffers(job, job.proposals), cfg);
    }
  }

  ghost predicate OfferOk(o: Offer, lab: Labelling) {
    JobOk(o.job, lab) && IsExtractable(o.proposal.etype)
  }

  ghost predicate OffersOk(offers: seq<Offer>, lab: Labelling) {
    forall x :: 0 <= x < |offers| ==> OfferOk(offers[x], lab)
  }

  lemma {:induction false} PageOffersOk(job: PageJob, proposals: seq<Proposal>, lab: Labelling)
    requires JobOk(job, lab) && forall p :: p in proposals ==> IsExtractable(p.etype)
    ensures OffersOk(PageOffers(job, proposals), lab)
  {
    if proposals != [] {
      PageOffersOk(job, proposals[..|proposals| - 1], lab);
      assert proposals[|proposals| - 1] in proposals;
    }
  }

  lemma {:induction false} PassOffersOk(jobs: seq<PageJob>, lab: Labelling)
    requires forall job :: job in jobs ==> JobOk(job, lab)
    ensures OffersOk(Offers(jobs), lab)
  {
    if jobs != [] {
      var job := jobs[|jobs| - 1];
      PassOffersOk(jobs[..|jobs| - 1], lab);
      assert job in jobs;
      PageOffersOk(job, job.proposals, lab);
    }
  }

  // ----- what the pass leaves -----------------------------------------------------------------------

  /** One LLM write: it lands on its own tuple unless the pair is protected, and protects or frees no pair. */
  lemma ExtractorWriteAt(s: Stores, op: Op, lab: Labelling, k: EdgeKey)
    requires ExtractorWrite(op, lab)
    ensures var t, c := Step(s, op), CanonicalEndpoints(op.key, true);
            && (Protected(t.graph, k) <==> Protected(s.graph, k))
            && (if c == k && !Protected(s.graph, k) then
                  k in t.graph && k in t.table && t.graph[k] == op.provenance == t.table[k]
                else SameAt(s, t, k))
  {
    RegistryMembership(op.key.etype);
    var c := CanonicalEndpoints(op.key, true);
    assert CanonicalEndpoints(c, true) == c;
    CollisionExactly(s.graph, c, op.provenance);
    if IsSymmetric(k.etype) && c == k.Reverse() {
      PairTestsIgnoreOrientation(s.graph, k);
    }
  }

  /** Both stores hold the edge as the offer says. */
  ghost predicate HeldAsOffered(t: Stores, o: Offer, cfg: Config, k: EdgeKey) {
    k in t.graph && k in t.table && t.graph[k] == t.table[k] && Carries(t.graph[k], o, cfg)
  }

  /** What one edge is after the offers: what the last offer that asked for it says, or what it was. */
  ghost predicate LeftBy(s: Stores, t: Stores, offers: seq<Offer>, cfg: Config, k: EdgeKey) {
    && (Protected(t.graph, k) <==> Protected(s.graph, k))
    && (Protected(s.graph, k) || !Asked(offers, cfg, k) ==> SameAt(s, t, k))
    && (!Protected(s.graph, k) ==>
          forall x: nat :: LastAsk(offers, cfg, k, x) ==> HeldAsOffered(t, offers[x], cfg, k))
  }

  lemma LastAskOfMore(init: seq<Offer>, o: Offer, cfg: Config, k: EdgeKey, x: nat)
    requires LastAsk(init + [o], cfg, k, x)
    ensures if Asks(o, cfg, k) then (init + [o])[x] == o else LastAsk(init, cfg, k, x) && (init + [o])[x] == init[x]
  {
    var offers := init + [o];
    assert offers[|init|] == o;
    assert forall y :: 0 <= y < |init| ==> offers[y] == init[y];
  }

  lemma AskedOfMore(init: seq<Offer>, o: Offer, cfg: Config, k: EdgeKey)
    ensures Asked(init + [o], cfg, k) <==> Asked(init, cfg, k) || Asks(o, cfg, k)
  {
    var offers := init + [o];
    assert offers[|init|] == o;
    if Asked(init, cfg, k) {
      var x :| 0 <= x < |init| && Asks(init[x], cfg, k);
      assert offers[x] == init[x];
    }
  }

  /** What one offer does to an edge. */
  ghost predicate OfferDoes(t: Stores, u: Stores, o: Offer, cfg: Config, k: EdgeKey) {
    && (Protected(u.graph, k) <==> Protected(t.graph, k))
    && if Asks(o, cfg, k) && !Protected(t.graph, k) then HeldAsOffered(u, o, cfg, k) else SameAt(t, u, k)
  }

  lemma LeftByOneMore(s: Stores, t: Stores, u: Stores, init: seq<Offer>, o: Offer, cfg: Config, k: EdgeKey)
    requires LeftBy(s, t, init, cfg, k) && OfferDoes(t, u, o, cfg, k)
    ensures LeftBy(s, u, init + [o], cfg, k)
  {
    AskedOfMore(init, o, cfg, k);
    forall x: nat | !Protected(s.graph, k) && LastAsk(init + [o], cfg, k, x)
      ensures HeldAsOffered(u, (init + [o])[x], cfg, k)
    {
      LastAskOfMore(init, o, cfg, k, x);
    }
  }

  lemma OneOffer(s: Stores, earlier: seq<Op>, o: Offer, cfg: Config, lab: Labelling, k: EdgeKey)
    requires OfferOk(o, lab)
    ensures OfferDoes(Run(s, earlier), Run(s, earlier + OfferWrites(o, cfg)), o, cfg, k)
  {
    var ops := OfferWrites(o, cfg);
    OfferWritesWhatItAsks(o, cfg, k, lab);
    if ops == [] {
      assert earlier + ops == earlier;
    } else {
      assert ops == [ops[0]];
      RunAppends(s, earlier, ops[0]);
      ExtractorWriteAt(Run(s, earlier), ops[0], lab, k);
    }
  }

  lemma NothingOffered(s: Stores, cfg: Config, k: EdgeKey)
    ensures LeftBy(s, Run(s, AllWrites([], cfg)), [], cfg, k)
  {
  }

  lemma OneMoreOffer(s: Stores, init: seq<Offer>, o: Offer, cfg: Config, lab: Labelling, k: EdgeKey)
    requires OfferOk(o, lab)
    requires LeftBy(s, Run(s, AllWrites(init, cfg)), init, cfg, k)
    ensures LeftBy(s, Run(s, AllWrites(init + [o], cfg)), init + [o], cfg, k)
  {
    assert (init + [o])[..|init|] == init;
    OneOffer(s, AllWrites(init, cfg), o, cfg, lab, k);
    LeftByOneMore(s, Run(s, AllWrites(init, cfg)), Run(s, AllWrites(init + [o], cfg)), init, o, cfg, k);
  }

  lemma {:induction false} OffersLeave(s: Stores, offers: seq<Offer>, cfg: Config, lab: Labelling, k: EdgeKey)
    requires OffersOk(offers, lab)
    ensures LeftBy(s, Run(s, AllWrites(offers, cfg)), offers, cfg, k)
    decreases |offers|
  {
    if offers == [] {
      NothingOffered(s, cfg, k);
    } else {
      var init, o := offers[..|offers| - 1], offers[|offers| - 1];
      assert offers == init + [o];
      assert OfferOk(offers[|offers| - 1], lab);
      OffersLeave(s, init, cfg, lab, k);
      OneMoreOffer(s, init, o, cfg, lab, k);
    }
  }

  /** Exactly what a pass does to every edge. Where a curator's edge protects the pair, or no offer asks for the
      edge, it is in both stores what it was before. Otherwise both stores hold it as the last offer that asks for it
      says. */
  lemma PassLeaves(start: Stores, jobs: seq<PageJob>, cfg: Config, lab: Labelling, k: EdgeKey)
    requires forall job :: job in jobs ==> JobOk(job, lab)
    ensures var after, offers := Run(start, PassWrites(jobs, cfg)), Offers(jobs);
            && (Protected(start.graph, k) || !Asked(offers, cfg, k) ==> SameAt(start, after, k))
            && (!Protected(start.graph, k) ==>
                  forall x: nat :: LastAsk(offers, cfg, k, x) ==> HeldAsOffered(after, offers[x], cfg, k))
  {
    PassOffersOk(jobs, lab);
    PassIsItsOffers(jobs, cfg);
    OffersLeave(start, Offers(jobs), cfg, lab, k);
  }

  lemma {:induction false} SomeAskIsLast(offers: seq<Offer>, cfg: Config, k: EdgeKey) returns (x: nat)
    requires Asked(offers, cfg, k)
    ensures LastAsk(offers, cfg, k, x)
    decreases |offers|
  {
    var n := |offers| - 1;
    if Asks(offers[n], cfg, k) {
      x := n;
    } else {
      var y :| 0 <= y < |offers| && Asks(offers[y], cfg, k);
      assert offers[..n][y] == offers[y];
      x := SomeAskIsLast(offers[..n], cfg, k);
    }
  }

  /** Every edge that a pass adds or changes comes from an offer that asks for it. */
  lemma PassChangesComeFromOffers(start: Stores, jobs: seq<PageJob>, cfg: Config, lab: Labelling, k: EdgeKey)
    returns (x: nat)
    requires forall job :: job in jobs ==> JobOk(job, lab)
    requires !SameAt(start, Run(start, PassWrites(jobs, cfg)), k)
    ensures var after := Run(start, PassWrites(jobs, cfg));
            && LastAsk(Offers(jobs), cfg, k, x) && !Protected(start.graph, k)
            && HeldAsOffered(after, Offers(jobs)[x], cfg, k)
  {
    PassLeaves(start, jobs, cfg, lab, k);
    x := SomeAskIsLast(Offers(jobs), cfg, k);
  }

  // ----- what the report counts ---------------------------------------------------------------------

  /** The neighbour is there, and structurally linked to the page. */
  predicate StructurallyLinked(n: Neighbour, structural: set<NodeId>) {
    n.node.Some? && n.node.value.1 in structural
  }

  /** The offer names a linkable neighbour and is not sure enough. */
  ghost predicate Doubted(o: Offer, cfg: Config) {
    && o.proposal.confidence < cfg.minConfidence
    && exists i: nat :: LastWithId(o.job.neighbours, o.job.structural, o.proposal.neighbourId, i)
  }

  lemma {:induction false} DropsAreCounted(neighbours: seq<Neighbour>, structural: set<NodeId>)
    ensures StructuralDrops(neighbours, structural)
            == |set i | 0 <= i < |neighbours| && StructurallyLinked(neighbours[i], structural)|
  {
    if neighbours != [] {
      var n := |neighbours| - 1;
      var init := neighbours[..n];
      DropsAreCounted(init, structural);
      var fewer := set i | 0 <= i < |init| && StructurallyLinked(init[i], structural);
      var all := set i | 0 <= i < |neighbours| && StructurallyLinked(neighbours[i], structural);
      assert all == fewer + if StructurallyLinked(neighbours[n], structural) then {n} else {};
    }
  }

  ghost function DoubtfulAt(job: PageJob, proposals: seq<Proposal>, cfg: Config): set<int> {
    set j | 0 <= j < |proposals| && Doubted(Offer(job, proposals[j]), cfg)
  }

  lemma DoubtfulIsDoubted(o: Offer, cfg: Config)
    ensures Doubtful(ById(Fresh(o.job.neighbours, o.job.structural)), o.proposal, cfg) <==> Doubted(o, cfg)
  {
    IndexLeadsToLast(o.job.neighbours, o.job.structural, o.proposal.neighbourId);
  }

  lemma {:induction false} DoubtsAreCounted(job: PageJob, proposals: seq<Proposal>, cfg: Config)
    ensures Doubts(ById(Fresh(job.neighbours, job.structural)), proposals, cfg)
            == |DoubtfulAt(job, proposals, cfg)|
  {
    if proposals != [] {
      var n := |proposals| - 1;
      var init := proposals[..n];
      DoubtsAreCounted(job, init, cfg);
      assert n !in DoubtfulAt(job, init, cfg);
      DoubtfulIsDoubted(Offer(job, proposals[n]), cfg);
      assert DoubtfulAt(job, proposals, cfg)
             == DoubtfulAt(job, init, cfg) + if Doubted(Offer(job, proposals[n]), cfg) then {n} else {} by {
        assert forall j :: 0 <= j < n ==> init[j] == proposals[j];
      }
    }
  }

  /** Page by page, the pass counts the structurally linked neighbours and the offers that are not sure enough. */
  lemma PassCounts(jobs: seq<PageJob>, job: PageJob, cfg: Config)
    ensures PassDrops([]) == 0 && PassDoubts([], cfg) == 0
    ensures PassDrops(jobs + [job])
            == PassDrops(jobs)
               + |set i | 0 <= i < |job.neighbours| && StructurallyLinked(job.neighbours[i], job.structural)|
    ensures PassDoubts(jobs + [job], cfg)
            == PassDoubts(jobs, cfg)
               + |DoubtfulAt(job, job.proposals, cfg)|
  {
    assert (jobs + [job])[..|jobs|] == jobs;
    DropsAreCounted(job.neighbours, job.structural);
    DoubtsAreCounted(job, job.proposals, cfg);
  }
}
