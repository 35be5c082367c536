/** Whole runs over the signal table. */
module SignalRuns {
  import opened Wrappers
  import opened Signals
  import opened Contradictions

  /** One step of the curation loop. A run first proposes contradictions, then inserts its candidates. */
  datatype Op =
    | Curate(jobs: seq<Job>, minConfidence: real, candidates: seq<Candidate>)
    | Begin(id: nat, pageId: string, slug: string)
    | Resolve(id: nat, approve: bool, pagesFound: bool)
    | Promote(slug: string, found: Option<nat>, revision: string)

  function Step(rows: Rows, op: Op, listKey: ListKey): Rows {
    match op
    case Curate(jobs, minConfidence, candidates) =>
      Deduplicated(Proposed(rows, jobs, minConfidence), candidates, listKey)
    case Begin(id, pageId, slug) => Begun(rows, id, pageId, slug)
    case Resolve(id, approve, pagesFound) => Resolved(rows, id, approve, pagesFound)
    case Promote(_, found, revision) => Promoted(rows, found, revision)
  }

  function After(ops: seq<Op>, listKey: ListKey): Rows {
    if ops == [] then [] else Step(After(ops[..|ops| - 1], listKey), ops[|ops| - 1], listKey)
  }

  /** Generators emit the registry's kinds. */
  ghost predicate OpOk(op: Op) {
    op.Curate? ==> forall i :: 0 <= i < |op.candidates| ==> IsRegistryKind(op.candidates[i].kind)
  }

  ghost predicate OpsOk(ops: seq<Op>) {
    forall i :: 0 <= i < |ops| ==> OpOk(ops[i])
  }

  // ----- open signals stay unique -------------------------------------------------------------------------

  lemma {:induction false} ProposalsKeepUnique(rows: Rows, more: Rows, listKey: ListKey)
    requires OpenUnique(rows, listKey) && forall i :: 0 <= i < |more| ==> IsProposal(more[i])
    ensures OpenUnique(rows + more, listKey)
    decreases |more|
  {
    if more == [] {
      assert rows + more == rows;
    } else {
      var init, s := more[..|more| - 1], more[|more| - 1];
      ProposalsKeepUnique(rows, init, listKey);
      AppendKeepsUnique(rows + init, s, listKey);
      assert (rows + init) + [s] == rows + more;
    }
  }

  lemma {:induction false} PassKeepsUnique(pass: Pass, jobs: seq<Job>, minConfidence: real, listKey: ListKey)
    requires OpenUnique(pass.rows, listKey)
    ensures OpenUnique(AfterPages(pass, jobs, minConfidence).rows, listKey)
  {
    if jobs != [] {
      var init, job := jobs[..|jobs| - 1], jobs[|jobs| - 1];
      PassKeepsUnique(pass, init, minConfidence, listKey);
      var before := AfterPages(pass, init, minConfidence);
      var more := PageProposals(before, job, minConfidence);
      forall i | 0 <= i < |more|
        ensures IsProposal(more[i])
      {
        ProposalIsNew(before, job, job.labels, minConfidence, i);
      }
      ProposalsKeepUnique(before.rows, more, listKey);
    }
  }

  /** Over every run: no two open signals of the registry kinds share kind and dedup key. */
  lemma {:induction false} OpenSignalsStayUnique(ops: seq<Op>, listKey: ListKey)
    ensures OpenUnique(After(ops, listKey), listKey)
  {
    if ops != [] {
      var before := After(ops[..|ops| - 1], listKey);
      OpenSignalsStayUnique(ops[..|ops| - 1], listKey);
      match ops[|ops| - 1]
      case Curate(jobs, minConfidence, candidates) =>
        PassKeepsUnique(Pass(before, SignalPairs(before)), jobs, minConfidence, listKey);
        RunKeepsUnique(Proposed(before, jobs, minConfidence), candidates, listKey);
      case Begin(id, pageId, slug) =>
        ClosingKeepsUnique(before, Begun(before, id, pageId, slug), listKey);
      case Resolve(id, approve, pagesFound) =>
        ClosingKeepsUnique(before, Resolved(before, id, approve, pagesFound), listKey);
      case Promote(slug, found, revision) =>
        ClosingKeepsUnique(before, Promoted(before, found, revision), listKey);
    }
  }

  // ----- one open signal for each query, page and edge ---------------------------------------------------

  /** Generators fill the payloads of their kinds. */
  ghost predicate OpsShaped(ops: seq<Op>) {
    forall i :: 0 <= i < |ops| && ops[i].Curate? ==>
      forall n :: 0 <= n < |ops[i].candidates| ==> Shaped(ops[i].candidates[n].kind, ops[i].candidates[n].payload)
  }

  lemma StepKeepsShape(rows: Rows, op: Op, listKey: ListKey)
    requires RowsShaped(rows) && OpsShaped([op])
    ensures RowsShaped(Step(rows, op, listKey))
  {
    if op.Curate? {
      assert [op][0] == op;
      var middle := Proposed(rows, op.jobs, op.minConfidence);
      TallyCountsNewRows(Pass(rows, SignalPairs(rows)), op.jobs, op.minConfidence);
      forall i | |rows| <= i < |middle|
        ensures IsProposal(middle[i])
      {
        PassAddsOpen(Pass(rows, SignalPairs(rows)), op.jobs, op.minConfidence, i);
      }
      RunKeepsShape(middle, op.candidates, listKey);
    }
  }

  lemma {:induction false} RunsStayShaped(ops: seq<Op>, listKey: ListKey)
    requires OpsShaped(ops)
    ensures RowsShaped(After(ops, listKey))
  {
    if ops != [] {
      RunsStayShaped(ops[..|ops| - 1], listKey);
      StepKeepsShape(After(ops[..|ops| - 1], listKey), ops[|ops| - 1], listKey);
    }
  }

  /** Over every run two open signals of a kind are about different queries, pages or edges. */
  lemma OneOpenSignalEach(ops: seq<Op>, listKey: ListKey, i: nat, j: nat)
    requires OpsShaped(ops) && i < j < |After(ops, listKey)|
    requires var a, b := After(ops, listKey)[i], After(ops, listKey)[j];
             && a.status.Open? && b.status.Open? && a.kind == b.kind && IsRegistryKind(a.kind)
    ensures !SameSubject(After(ops, listKey)[i].kind, After(ops, listKey)[i].payload, After(ops, listKey)[j].payload)
  {
    var rows := After(ops, listKey);
    RunsStayShaped(ops, listKey);
    OpenSignalsStayUnique(ops, listKey);
    KeysTellSubjectsApart(rows[i].kind, rows[i].payload, rows[j].payload, listKey);
    assert !Clash(rows[i], rows[j], listKey);
  }

  /** And a curation run leaves an open signal for each query, page and edge its candidates are about. */
  lemma CuratedSubjectsAreOpen(ops: seq<Op>, op: Op, listKey: ListKey, n: nat) returns (i: nat)
    requires OpsShaped(ops) && OpsShaped([op]) && op.Curate?
    requires n < |op.candidates| && IsRegistryKind(op.candidates[n].kind)
    ensures i < |Step(After(ops, listKey), op, listKey)|
    ensures Represents(Step(After(ops, listKey), op, listKey)[i], op.candidates[n])
  {
    var rows := After(ops, listKey);
    RunsStayShaped(ops, listKey);
    assert [op][0] == op;
    var none := Curate(op.jobs, op.minConfidence, []);
    assert Step(rows, none, listKey) == Proposed(rows, op.jobs, op.minConfidence);
    StepKeepsShape(rows, none, listKey);
    i := EverySubjectIsRepresented(Proposed(rows, op.jobs, op.minConfidence), op.candidates, listKey, n);
  }

  /** A signal that is not open never opens again, and signals keep their place, kind and slugs. */
  lemma StepKeepsSignals(rows: Rows, op: Op, listKey: ListKey, i: nat)
    requires i < |rows|
    ensures var after := Step(rows, op, listKey);
            && i < |after|
            && after[i].kind == rows[i].kind
            && after[i].payload.fromSlug == rows[i].payload.fromSlug
            && after[i].payload.toSlug == rows[i].payload.toSlug
            && DedupKey(after[i].payload, listKey) == DedupKey(rows[i].payload, listKey)
            && (after[i].status.Open? ==> rows[i].status.Open?)
  {
    if op.Curate? {
      TallyCountsNewRows(Pass(rows, SignalPairs(rows)), op.jobs, op.minConfidence);
      DeduplicatedExtends(Proposed(rows, op.jobs, op.minConfidence), op.candidates, listKey);
    }
  }

  // ----- one signal's way through -----------------------------------------------------------------------

  predicate Settled(s: Signal) {
    s.status.Addressed? || s.status.Dropped?
  }

  /** A drop works on every signal that is not settled. An approval works on such a signal exactly when it is a
      proposal with both slugs, which lead to pages. Either settles the signal, in its own way, and changes nothing
      else; the next verdict on it is refused. A refused verdict changes nothing in the first place. */
  lemma VerdictSettles(rows: Rows, id: nat, approve: bool, pagesFound: bool, again: bool, pagesFoundAgain: bool)
    ensures var v := VerdictOn(rows, id, approve, pagesFound);
            var after := Resolved(rows, id, approve, pagesFound);
            if v.SignalDropped? || v.Approved? then
              && id < |rows| && !Settled(rows[id]) && Settled(after[id])
              && after == rows[id := rows[id].(status := if approve then Addressed else Dropped)]
              && VerdictOn(after, id, again, pagesFoundAgain) == AlreadySettled
              && Resolved(after, id, again, pagesFoundAgain) == after
            else
              after == rows
    ensures VerdictOn(rows, id, approve, pagesFound).SignalDropped?
            <==> id < |rows| && !Settled(rows[id]) && !approve
    ensures VerdictOn(rows, id, approve, pagesFound).Approved?
            <==> && id < |rows| && !Settled(rows[id]) && approve
                 && IsProposal(rows[id]) && HasSlugs(rows[id]) && pagesFound
  {
  }

  /** Beginning a draft puts the signal in progress and tags it with the page's id and slug; a promotion that finds
      a signal marks it addressed by the revision. Neither changes anything else. */
  lemma DraftSteps(rows: Rows, id: nat, pageId: string, slug: string, revision: string)
    requires id < |rows|
    ensures var s := rows[id];
            var tagged := s.payload.(synthPageId := pageId, synthSlug := slug);
            Begun(rows, id, pageId, slug) == rows[id := s.(status := InProgress, payload := tagged)]
    ensures Promoted(rows, Some(id), revision)
            == rows[id := rows[id].(status := Addressed, addressedRevision := Some(revision))]
    ensures Promoted(rows, None, revision) == rows
  {
  }

  /** A signal is addressed by a revision, or by an approval of a proposal with both slugs. */
  predicate AddressedRightly(s: Signal) {
    s.status.Addressed? ==> s.addressedRevision.Some? || (IsProposal(s) && HasSlugs(s))
  }

  lemma StepAddressesRightly(rows: Rows, op: Op, listKey: ListKey)
    requires forall i :: 0 <= i < |rows| ==> AddressedRightly(rows[i])
    ensures var after := Step(rows, op, listKey); forall i :: 0 <= i < |after| ==> AddressedRightly(after[i])
  {
    var after := Step(rows, op, listKey);
    if op.Curate? {
      forall i | 0 <= i < |after|
        ensures AddressedRightly(after[i])
      {
        CuratedRow(rows, op, listKey, i);
      }
    }
  }

  /** A row after a curation run is an old one or a new open one. */
  lemma CuratedRow(rows: Rows, op: Op, listKey: ListKey, i: nat)
    requires op.Curate? && i < |Step(rows, op, listKey)|
    ensures var s := Step(rows, op, listKey)[i]; if i < |rows| then s == rows[i] else s.status.Open?
  {
    var middle := Proposed(rows, op.jobs, op.minConfidence);
    TallyCountsNewRows(Pass(rows, SignalPairs(rows)), op.jobs, op.minConfidence);
    DeduplicatedExtends(middle, op.candidates, listKey);
    if |middle| <= i {
      var n := RunAddsCandidates(middle, op.candidates, listKey, i);
    } else if |rows| <= i {
      PassAddsOpen(Pass(rows, SignalPairs(rows)), op.jobs, op.minConfidence, i);
    }
  }

  lemma {:induction false} PassAddsOpen(pass: Pass, jobs: seq<Job>, minConfidence: real, i: nat)
    requires |pass.rows| <= i < |AfterPages(pass, jobs, minConfidence).rows|
    ensures AfterPages(pass, jobs, minConfidence).rows[i].status.Open?
    ensures IsProposal(AfterPages(pass, jobs, minConfidence).rows[i])
  {
    var init, job := jobs[..|jobs| - 1], jobs[|jobs| - 1];
    var before := AfterPages(pass, init, minConfidence);
    if i < |before.rows| {
      PassAddsOpen(pass, init, minConfidence, i);
    } else {
      ProposalIsNew(before, job, job.labels, minConfidence, i - |before.rows|);
    }
  }

  /** Over every run only promoted drafts and approved proposals become addressed. */
  lemma RunsAddressRightly(ops: seq<Op>, listKey: ListKey, i: nat)
    requires i < |After(ops, listKey)|
    ensures AddressedRightly(After(ops, listKey)[i])
  {
    AllAddressedRightly(ops, listKey);
  }

  lemma {:induction false} AllAddressedRightly(ops: seq<Op>, listKey: ListKey)
    ensures forall i :: 0 <= i < |After(ops, listKey)| ==> AddressedRightly(After(ops, listKey)[i])
  {
    if ops != [] {
      AllAddressedRightly(ops[..|ops| - 1], listKey);
      StepAddressesRightly(After(ops[..|ops| - 1], listKey), ops[|ops| - 1], listKey);
    }
  }

  /** From draft to promotion: promoting a page whose draft began from a signal finds a signal to close, and
      it is that one when no other signal in progress has the slug; it ends addressed by the revision. */
  lemma BegunSignalIsAddressed(rows: Rows, id: nat, pageId: string, slug: string, found: Option<nat>, revision: string)
    requires id < |rows| && IsMatch(Begun(rows, id, pageId, slug), slug, found)
    ensures found.Some?
    ensures var begun := Begun(rows, id, pageId, slug);
            (forall other: nat :: other != id ==> !AwaitsPromotion(rows, other, slug)) ==>
              && found == Some(id)
              && Promoted(begun, found, revision)[id].status.Addressed?
              && Promoted(begun, found, revision)[id].addressedRevision == Some(revision)
  {
    var begun := Begun(rows, id, pageId, slug);
    assert AwaitsPromotion(begun, id, slug);
    if forall other: nat :: other != id ==> !AwaitsPromotion(rows, other, slug) {
      assert forall other: nat :: other != id ==>
               (AwaitsPromotion(begun, other, slug) <==> AwaitsPromotion(rows, other, slug));
    }
  }

  // ----- how long a settled signal stays settled ------------------------------------------------------------

  /** The kinds a draft can be synthesized from: they carry a query, missing concepts or a page's title. */
  predicate HasTarget(kind: Kind) {
    kind in {LowCoverageQuery, Gap, ThinGrounding, DanglingConcept}
  }

  predicate Begins(op: Op, id: nat) {
    op.Begin? && op.id == id
  }

  /** What the callers see to: a promotion closes what its query finds. */
  ghost predicate Matching(rows: Rows, op: Op) {
    op.Promote? ==> IsMatch(rows, op.slug, op.found)
  }

  /** And a draft is begun only from a signal that a concept's name can be derived from. */
  ghost predicate StepOk(rows: Rows, op: Op) {
    Matching(rows, op) && (op.Begin? && op.id < |rows| ==> HasTarget(rows[op.id].kind))
  }

  ghost predicate RunMatching(ops: seq<Op>, listKey: ListKey) {
    forall i :: 0 <= i < |ops| ==> Matching(After(ops[..i], listKey), ops[i])
  }

  ghost predicate RunOk(ops: seq<Op>, listKey: ListKey) {
    forall i :: 0 <= i < |ops| ==> StepOk(After(ops[..i], listKey), ops[i])
  }

  /** A settled signal stays settled exactly when the step does not begin a draft from it, whatever its kind;
      then its row stays exactly as it is. A begun one takes verdicts again. */
  lemma SettledUntilBegun(rows: Rows, op: Op, listKey: ListKey, id: nat)
    requires id < |rows| && Settled(rows[id]) && Matching(rows, op)
    ensures var after := Step(rows, op, listKey);
            && id < |after|
            && (Settled(after[id]) <==> !Begins(op, id))
            && (!Begins(op, id) ==> after[id] == rows[id])
            && forall approve, found :: VerdictOn(after, id, approve, found).AlreadySettled? <==> !Begins(op, id)
  {
    if op.Curate? {
      TallyCountsNewRows(Pass(rows, SignalPairs(rows)), op.jobs, op.minConfidence);
      DeduplicatedExtends(Proposed(rows, op.jobs, op.minConfidence), op.candidates, listKey);
    }
  }

  /** The signal is in the table after n steps, and settled. */
  predicate SettledAt(ops: seq<Op>, n: nat, id: nat, listKey: ListKey)
    requires n <= |ops|
  {
    var rows := After(ops[..n], listKey);
    id < |rows| && Settled(rows[id])
  }

  lemma SettledStep(ops: seq<Op>, n: nat, id: nat, listKey: ListKey)
    requires RunMatching(ops, listKey) && n < |ops| && SettledAt(ops, n, id, listKey)
    ensures SettledAt(ops, n + 1, id, listKey) <==> !Begins(ops[n], id)
    ensures !Begins(ops[n], id) ==> After(ops[..n + 1], listKey)[id] == After(ops[..n], listKey)[id]
  {
    AfterOneMore(ops, n, listKey);
    SettledUntilBegun(After(ops[..n], listKey), ops[n], listKey, id);
  }

  /** Over every run that goes on without beginning a draft from it, a settled signal's row stays as it is. */
  lemma {:induction false} SettledRowStays(ops: seq<Op>, n: nat, m: nat, id: nat, listKey: ListKey)
    requires RunMatching(ops, listKey) && n <= m <= |ops| && SettledAt(ops, n, id, listKey)
    requires forall i :: n <= i < m ==> !Begins(ops[i], id)
    ensures SettledAt(ops, m, id, listKey)
    ensures After(ops[..m], listKey)[id] == After(ops[..n], listKey)[id]
    decreases m
  {
    if n < m {
      SettledRowStays(ops, n, m - 1, id, listKey);
      SettledStep(ops, m - 1, id, listKey);
    }
  }

  lemma AfterOneMore(ops: seq<Op>, n: nat, listKey: ListKey)
    requires n < |ops|
    ensures After(ops[..n + 1], listKey) == Step(After(ops[..n], listKey), ops[n], listKey)
  {
    assert ops[..n + 1][..n] == ops[..n];
  }

  /** Over every run: from the moment a signal is settled it is settled in every later state exactly when no later
      step begins a draft from it. */
  lemma {:induction false} StaysSettledIff(ops: seq<Op>, n: nat, id: nat, listKey: ListKey)
    requires RunMatching(ops, listKey) && n <= |ops| && SettledAt(ops, n, id, listKey)
    ensures (forall m :: n <= m <= |ops| ==> SettledAt(ops, m, id, listKey))
            <==> (forall i :: n <= i < |ops| ==> !Begins(ops[i], id))
  {
    if forall i :: n <= i < |ops| ==> !Begins(ops[i], id) {
      forall m: nat | n <= m <= |ops|
        ensures SettledAt(ops, m, id, listKey)
      {
        SettledRowStays(ops, n, m, id, listKey);
      }
    } else {
      var i :| n <= i < |ops| && Begins(ops[i], id);
      if SettledAt(ops, i, id, listKey) {
        SettledStep(ops, i, id, listKey);
      }
    }
  }

  /** A settled proposal: no step of the callers begins a draft from it. */
  predicate SettledProposal(rows: Rows, id: nat) {
    id < |rows| && Settled(rows[id]) && IsProposal(rows[id])
  }

  lemma SettledProposalStep(ops: seq<Op>, n: nat, id: nat, listKey: ListKey)
    requires RunOk(ops, listKey) && n < |ops| && SettledProposal(After(ops[..n], listKey), id)
    ensures SettledProposal(After(ops[..n + 1], listKey), id)
    ensures After(ops[..n + 1], listKey)[id] == After(ops[..n], listKey)[id]
  {
    AfterOneMore(ops, n, listKey);
    assert StepOk(After(ops[..n], listKey), ops[n]);
    SettledUntilBegun(After(ops[..n], listKey), ops[n], listKey, id);
  }

  lemma {:induction false} SettledProposalStays(ops: seq<Op>, n: nat, m: nat, id: nat, listKey: ListKey)
    requires RunOk(ops, listKey) && n <= m <= |ops| && SettledProposal(After(ops[..n], listKey), id)
    ensures SettledProposal(After(ops[..m], listKey), id)
    ensures After(ops[..m], listKey)[id] == After(ops[..n], listKey)[id]
    decreases m
  {
    if n < m {
      SettledProposalStays(ops, n, m - 1, id, listKey);
      SettledProposalStep(ops, m - 1, id, listKey);
    }
  }

  /** A verdict on a contradiction proposal is final: over every later run the proposal stays exactly as the
      drop or the approval left it, and every further verdict on it is refused. */
  lemma VerdictIsFinal(ops: seq<Op>, n: nat, m: nat, id: nat, listKey: ListKey, approve: bool, pagesFound: bool)
    requires RunOk(ops, listKey) && n <= m <= |ops| && SettledProposal(After(ops[..n], listKey), id)
    ensures SettledProposal(After(ops[..m], listKey), id)
    ensures After(ops[..m], listKey)[id] == After(ops[..n], listKey)[id]
    ensures VerdictOn(After(ops[..m], listKey), id, approve, pagesFound) == AlreadySettled
    ensures Resolved(After(ops[..m], listKey), id, approve, pagesFound) == After(ops[..m], listKey)
  {
    SettledProposalStays(ops, n, m, id, listKey);
  }

  /** Other signals can come back: a query's signal is proposed, dropped, and begun all the same. */
  lemma DroppedSignalIsRevived(listKey: ListKey)
    ensures var c := Candidate(LowCoverageQuery, 1, Payload("", "q", "", [], "", "", "", "", ""));
            var ops := [Curate([], 0.0, [c]), Resolve(0, false, true), Begin(0, "p", "s")];
            && OpsOk(ops) && RunOk(ops, listKey)
            && SettledAt(ops, 2, 0, listKey) && After(ops[..2], listKey)[0].status.Dropped?
            && |After(ops[..3], listKey)| == 1 && After(ops[..3], listKey)[0].status.InProgress?
            && !SettledAt(ops, 3, 0, listKey)
            && !VerdictOn(After(ops[..3], listKey), 0, false, true).AlreadySettled?
  {
    var c := Candidate(LowCoverageQuery, 1, Payload("", "q", "", [], "", "", "", "", ""));
    var ops := [Curate([], 0.0, [c]), Resolve(0, false, true), Begin(0, "p", "s")];
    assert ops[..0] == [] && [c][..0] == [];
    assert Proposed([], [], 0.0) == [];
    assert OpenKeys([], listKey) == {};
    assert Deduplicated([], [], listKey) == [];
    assert Deduplicated([], [c], listKey) == [NewSignal(c)];
    AfterOneMore(ops, 0, listKey);
    assert After(ops[..1], listKey) == [NewSignal(c)];
    AfterOneMore(ops, 1, listKey);
    AfterOneMore(ops, 2, listKey);
  }

  // ----- every pair is proposed once ------------------------------------------------------------------------

  /** In every call of every run the accepted labels name distinct slugs, and no pair whose earlier proposal
      lacks a slug. */
  ghost predicate CallsNew(ops: seq<Op>, listKey: ListKey) {
    ops == []
    || (var before := After(ops[..|ops| - 1], listKey);
        var op := ops[|ops| - 1];
        && CallsNew(ops[..|ops| - 1], listKey)
        && (op.Curate? ==> NewCalls(Pass(before, SignalPairs(before)), op.jobs, op.minConfidence)))
  }

  /** Deduplicated insertion adds registry kinds only, which are no proposals. */
  lemma {:induction false} RunKeepsProposals(rows: Rows, candidates: seq<Candidate>, listKey: ListKey)
    requires forall i :: 0 <= i < |candidates| ==> IsRegistryKind(candidates[i].kind)
    ensures var after := Deduplicated(rows, candidates, listKey);
            rows <= after && forall i :: |rows| <= i < |after| ==> !IsProposal(after[i])
  {
    if candidates != [] {
      RunKeepsProposals(rows, candidates[..|candidates| - 1], listKey);
    }
  }

  /** The same proposals in the same places. */
  ghost predicate SameProposals(a: Rows, b: Rows) {
    && |a| <= |b|
    && (forall i :: 0 <= i < |a| ==> IsProposal(a[i]) == IsProposal(b[i]) && SignalPair(a[i]) == SignalPair(b[i]))
    && (forall i :: |a| <= i < |b| ==> !IsProposal(b[i]))
  }

  lemma SameProposalsSameVerdict(a: Rows, b: Rows)
    requires SameProposals(a, b)
    ensures PairsUnique(a) <==> PairsUnique(b)
  {
    if PairsUnique(b) {
      forall i, j | 0 <= i < j < |a| && IsProposal(a[i]) && IsProposal(a[j])
        ensures SignalPair(a[i]) != SignalPair(a[j])
      {
        assert SignalPair(b[i]) != SignalPair(b[j]);
      }
    }
  }

  lemma OtherStepsKeepProposals(rows: Rows, op: Op, listKey: ListKey)
    requires !op.Curate?
    ensures SameProposals(rows, Step(rows, op, listKey))
  {
    var after := Step(rows, op, listKey);
    forall i | 0 <= i < |rows|
      ensures IsProposal(rows[i]) == IsProposal(after[i]) && SignalPair(rows[i]) == SignalPair(after[i])
    {
      StepKeepsSignals(rows, op, listKey, i);
    }
  }

  lemma CurateKeepsPairsIff(rows: Rows, op: Op, listKey: ListKey)
    requires op.Curate? && OpOk(op)
    ensures PairsUnique(rows) ==>
              (PairsUnique(Step(rows, op, listKey))
               <==> NewCalls(Pass(rows, SignalPairs(rows)), op.jobs, op.minConfidence))
    ensures PairsUnique(Step(rows, op, listKey)) ==> PairsUnique(rows)
  {
    var pass := Pass(rows, SignalPairs(rows));
    var middle := Proposed(rows, op.jobs, op.minConfidence);
    RunKeepsProposals(middle, op.candidates, listKey);
    SameProposalsSameVerdict(middle, Step(rows, op, listKey));
    TallyCountsNewRows(pass, op.jobs, op.minConfidence);
    if PairsUnique(middle) {
      assert middle == rows + middle[|rows|..];
      RepeatedPairStays(rows, middle[|rows|..]);
    }
    if PairsUnique(rows) {
      PassKeepsPairsIff(pass, op.jobs, op.minConfidence);
    }
  }

  /** Over every run: at most one contradiction proposal exists for every unordered pair of slugs, in any
      status, exactly when no labelling call ever has two accepted labels naming one slug, or one naming a
      pair whose earlier proposal lacks a slug. */
  lemma {:induction false} PairsStayUniqueIff(ops: seq<Op>, listKey: ListKey)
    requires OpsOk(ops)
    ensures PairsUnique(After(ops, listKey)) <==> CallsNew(ops, listKey)
  {
    if ops != [] {
      var init, op := ops[..|ops| - 1], ops[|ops| - 1];
      PairsStayUniqueIff(init, listKey);
      var before := After(init, listKey);
      if op.Curate? {
        CurateKeepsPairsIff(before, op, listKey);
      } else {
        OtherStepsKeepProposals(before, op, listKey);
        SameProposalsSameVerdict(before, Step(before, op, listKey));
      }
    }
  }

  /** Without slugs the memory of a pass does not reach the next one: a neighbour whose slug is missing is
      proposed again by the next run. */
  lemma MissingSlugIsProposedAgain(listKey: ListKey)
    ensures var job := Job("a", [Neighbour(1, "", Some(1))], {}, [Label(1, 0.9, "")]);
            !PairsUnique(After([Curate([job], 0.5, []), Curate([job], 0.5, [])], listKey))
  {
    var job := Job("a", [Neighbour(1, "", Some(1))], {}, [Label(1, 0.9, "")]);
    var op := Curate([job], 0.5, []);
    var s := ProposalFor(job, job.neighbours[0], job.labels[0]);
    assert [op][..0] == [] && [op, op][..1] == [op];
    OneProposal([], job, s);
    assert After([op], listKey) == [] + [s] == [s];
    OneProposal([s], job, s);
    var rows := After([op, op], listKey);
    assert rows == [s] + [s];
    assert IsProposal(rows[0]) && IsProposal(rows[1]) && SignalPair(rows[0]) == SignalPair(rows[1]);
  }

  lemma OneProposal(rows: Rows, job: Job, s: Signal)
    requires job == Job("a", [Neighbour(1, "", Some(1))], {}, [Label(1, 0.9, "")])
    requires s == ProposalFor(job, job.neighbours[0], job.labels[0])
    requires forall r :: r in rows ==> r == s
    ensures Proposed(rows, [job], 0.5) == rows + [s]
  {
    var n, l := job.neighbours[0], job.labels[0];
    assert SignalPairs(rows) == {} by {
      assert forall i :: 0 <= i < |rows| ==> rows[i] in rows;
    }
    OnlyNeighbourIsAsked(job, n);
    OnePage(rows, job, 0.5);
    assert [l][..0] == [] && Proposals(job, map[1 := n], [], 0.5) == [];
    assert Proposals(job, map[1 := n], [l], 0.5) == [s];
  }
}
