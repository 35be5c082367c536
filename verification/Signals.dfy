/** Curation signals: the rows, what happens to them, and which of them can coexist. */
module Signals {
  import opened Wrappers

  datatype Kind =
    | LowCoverageQuery | ThinGrounding | DanglingConcept | UnresolvedContradiction | Gap | ContradictionCandidate

  datatype Status = Open | InProgress | Addressed | Dropped

  /** The parts of a payload that code reads; "" where the payload has no such entry. Everything else is in
      details. */
  datatype Payload = Payload(
    pageId: string, queryText: string, edgeId: string, missingConcepts: seq<string>,
    fromSlug: string, toSlug: string, synthPageId: string, synthSlug: string, details: string)

  datatype Signal = Signal(
    kind: Kind, priority: int, payload: Payload, status: Status, addressedRevision: Option<string>)

  datatype Candidate = Candidate(kind: Kind, priority: int, payload: Payload)

  // A row's id is its place in the table: rows are added and never removed.
  type Rows = seq<Signal>

  /** The kinds the generators of the registry emit. */
  predicate IsRegistryKind(kind: Kind) {
    kind in {LowCoverageQuery, ThinGrounding, DanglingConcept, UnresolvedContradiction}
  }

  /** How str(sorted(...)) writes a list of concepts: the order of the list does not matter. */
  type ListKey = multiset<string> -> string

  function DedupKey(p: Payload, listKey: ListKey): string {
    if p.pageId != "" then p.pageId
    else if p.queryText != "" then p.queryText
    else if p.edgeId != "" then p.edgeId
    else listKey(multiset(p.missingConcepts))
  }

  function KeyOf(s: Signal, listKey: ListKey): (Kind, string) {
    (s.kind, DedupKey(s.payload, listKey))
  }

  /** What a run compares its candidates with. */
  function OpenKeys(rows: Rows, listKey: ListKey): set<(Kind, string)> {
    set i | 0 <= i < |rows| && rows[i].status.Open? :: KeyOf(rows[i], listKey)
  }

  function NewSignal(c: Candidate): Signal {
    Signal(c.kind, c.priority, c.payload, Open, None)
  }

  function CandidateKey(c: Candidate, listKey: ListKey): (Kind, string) {
    (c.kind, DedupKey(c.payload, listKey))
  }

  // ----- a run's deduplicated insertion --------------------------------------------------------------

  /** The table after a run: each candidate becomes a signal unless an open one has its kind and key. */
  function Deduplicated(rows: Rows, candidates: seq<Candidate>, listKey: ListKey): Rows {
    if candidates == [] then rows
    else
      var before := Deduplicated(rows, candidates[..|candidates| - 1], listKey);
      var c := candidates[|candidates| - 1];
      if CandidateKey(c, listKey) in OpenKeys(before, listKey) then before else before + [NewSignal(c)]
  }

  function CountKind(rows: Rows, kind: Kind): nat {
    if rows == [] then 0
    else CountKind(rows[..|rows| - 1], kind) + if rows[|rows| - 1].kind == kind then 1 else 0
  }

  /** The tally a report shows. */
  ghost predicate IsTally(byKind: map<Kind, nat>, rows: Rows) {
    forall kind :: (kind in byKind <==> CountKind(rows, kind) > 0)
                   && (kind in byKind ==> byKind[kind] == CountKind(rows, kind))
  }

  lemma {:induction false} DeduplicatedExtends(rows: Rows, candidates: seq<Candidate>, listKey: ListKey)
    ensures rows <= Deduplicated(rows, candidates, listKey)
  {
    if candidates != [] {
      DeduplicatedExtends(rows, candidates[..|candidates| - 1], listKey);
    }
  }

  lemma OpenKeysGrow(rows: Rows, c: Candidate, listKey: ListKey)
    ensures OpenKeys(rows + [NewSignal(c)], listKey) == OpenKeys(rows, listKey) + {CandidateKey(c, listKey)}
  {
    var after := rows + [NewSignal(c)];
    forall i | 0 <= i < |after| && after[i].status.Open?
      ensures KeyOf(after[i], listKey) in OpenKeys(rows, listKey) + {CandidateKey(c, listKey)}
    {
      assert i < |rows| ==> after[i] == rows[i];
    }
    forall i | 0 <= i < |rows| && rows[i].status.Open?
      ensures KeyOf(rows[i], listKey) in OpenKeys(after, listKey)
    {
      assert after[i] == rows[i];
    }
    assert after[|rows|] == NewSignal(c);
  }

  /** After a run every candidate is represented among the open signals. */
  lemma {:induction false} RunRepresentsEveryCandidate(rows: Rows, candidates: seq<Candidate>, listKey: ListKey, i: nat)
    requires i < |candidates|
    ensures CandidateKey(candidates[i], listKey) in OpenKeys(Deduplicated(rows, candidates, listKey), listKey)
  {
    var init, c := candidates[..|candidates| - 1], candidates[|candidates| - 1];
    OpenKeysGrow(Deduplicated(rows, init, listKey), c, listKey);
    if i < |init| {
      RunRepresentsEveryCandidate(rows, init, listKey, i);
    }
  }

  /** What the generators put into a payload: the query of a weak one, the page of a thin or dangling one, the edge of
      a contradiction between pages. */
  predicate Shaped(kind: Kind, p: Payload) {
    match kind
    case LowCoverageQuery => p.pageId == "" && p.queryText != ""
    case ThinGrounding => p.pageId != ""
    case DanglingConcept => p.pageId != ""
    case UnresolvedContradiction => p.pageId == "" && p.queryText == "" && p.edgeId != ""
    case _ => true
  }

  /** Two signals of the kind are about the same query, page or edge. */
  predicate SameSubject(kind: Kind, p: Payload, q: Payload) {
    match kind
    case LowCoverageQuery => p.queryText == q.queryText
    case ThinGrounding => p.pageId == q.pageId
    case DanglingConcept => p.pageId == q.pageId
    case UnresolvedContradiction => p.edgeId == q.edgeId
    case _ => p == q
  }

  predicate RowsShaped(rows: Rows) {
    forall i :: 0 <= i < |rows| ==> Shaped(rows[i].kind, rows[i].payload)
  }

  /** The dedup key tells queries, pages and edges apart. */
  lemma KeysTellSubjectsApart(kind: Kind, p: Payload, q: Payload, listKey: ListKey)
    requires IsRegistryKind(kind) && Shaped(kind, p) && Shaped(kind, q)
    ensures DedupKey(p, listKey) == DedupKey(q, listKey) <==> SameSubject(kind, p, q)
  {
  }

  /** An open signal of the kind about the same query, page or edge. */
  predicate Represents(s: Signal, c: Candidate) {
    s.status.Open? && s.kind == c.kind && SameSubject(c.kind, s.payload, c.payload)
  }

  /** A run adds its candidates as they are, each as an open signal, and only those that no open signal
      represents. */
  lemma {:induction false} RunAddsCandidates(rows: Rows, candidates: seq<Candidate>, listKey: ListKey, i: nat)
    returns (n: nat)
    requires |rows| <= i < |Deduplicated(rows, candidates, listKey)|
    ensures var after := Deduplicated(rows, candidates, listKey);
            && n < |candidates|
            && after[i] == Signal(candidates[n].kind, candidates[n].priority, candidates[n].payload, Open, None)
            && CandidateKey(candidates[n], listKey) !in OpenKeys(after[..i], listKey)
  {
    var m := |candidates| - 1;
    var before := Deduplicated(rows, candidates[..m], listKey);
    if i < |before| {
      n := RunAddsCandidates(rows, candidates[..m], listKey, i);
      assert Deduplicated(rows, candidates, listKey)[..i] == before[..i];
    } else {
      n := m;
      assert Deduplicated(rows, candidates, listKey)[..i] == before;
    }
  }

  lemma {:induction false} RunKeepsShape(rows: Rows, candidates: seq<Candidate>, listKey: ListKey)
    requires RowsShaped(rows)
    requires forall n :: 0 <= n < |candidates| ==> Shaped(candidates[n].kind, candidates[n].payload)
    ensures RowsShaped(Deduplicated(rows, candidates, listKey))
  {
    if candidates != [] {
      RunKeepsShape(rows, candidates[..|candidates| - 1], listKey);
    }
  }

  /** After a run every query, page and edge of its candidates has an open signal of its own. */
  lemma EverySubjectIsRepresented(rows: Rows, candidates: seq<Candidate>, listKey: ListKey, n: nat) returns (i: nat)
    requires RowsShaped(rows) && n < |candidates| && IsRegistryKind(candidates[n].kind)
    requires forall m :: 0 <= m < |candidates| ==> Shaped(candidates[m].kind, candidates[m].payload)
    ensures i < |Deduplicated(rows, candidates, listKey)|
    ensures Represents(Deduplicated(rows, candidates, listKey)[i], candidates[n])
  {
    var after := Deduplicated(rows, candidates, listKey);
    RunKeepsShape(rows, candidates, listKey);
    RunRepresentsEveryCandidate(rows, candidates, listKey, n);
    i :| i < |after| && after[i].status.Open? && KeyOf(after[i], listKey) == CandidateKey(candidates[n], listKey);
    KeysTellSubjectsApart(candidates[n].kind, after[i].payload, candidates[n].payload, listKey);
  }

  // ----- what else happens to signals ---------------------------------------------------------------------

  function WithStatus(rows: Rows, id: nat, status: Status, revision: Option<string>): Rows {
    if id < |rows|
    then rows[id := rows[id].(status := status,
                              addressedRevision := if revision.Some? then revision else rows[id].addressedRevision)]
    else rows
  }

  function WithSynthPage(rows: Rows, id: nat, pageId: string, slug: string): Rows {
    if id < |rows|
    then rows[id := rows[id].(payload := rows[id].payload.(synthPageId := pageId, synthSlug := slug))]
    else rows
  }

  /** A draft was synthesized from the signal; its status is not asked for. */
  function Begun(rows: Rows, id: nat, pageId: string, slug: string): Rows {
    WithSynthPage(WithStatus(rows, id, InProgress, None), id, pageId, slug)
  }

  datatype Verdict =
    | SignalDropped | Approved
    | UnknownSignal | AlreadySettled | NoApproveAction | NoSlugs | LinkFailed

  /** The curator's verdict; pagesFound says whether the slugs of the proposal still lead to pages. */
  function VerdictOn(rows: Rows, id: nat, approve: bool, pagesFound: bool): Verdict {
    if id >= |rows| then UnknownSignal
    else if rows[id].status !in {Open, InProgress} then AlreadySettled
    else if !approve then SignalDropped
    else if rows[id].kind != ContradictionCandidate then NoApproveAction
    else if rows[id].payload.fromSlug == "" || rows[id].payload.toSlug == "" then NoSlugs
    else if !pagesFound then LinkFailed
    else Approved
  }

  function Resolved(rows: Rows, id: nat, approve: bool, pagesFound: bool): Rows {
    match VerdictOn(rows, id, approve, pagesFound)
    case SignalDropped => WithStatus(rows, id, Dropped, None)
    case Approved => WithStatus(rows, id, Addressed, None)
    case _ => rows
  }

  predicate AwaitsPromotion(rows: Rows, id: nat, slug: string) {
    id < |rows| && rows[id].status.InProgress? && rows[id].payload.synthSlug == slug
  }

  /** The query for the signal a promoted page closes may return any match. */
  ghost predicate IsMatch(rows: Rows, slug: string, found: Option<nat>) {
    match found
    case Some(id) => AwaitsPromotion(rows, id, slug)
    case None => forall id: nat :: !AwaitsPromotion(rows, id, slug)
  }

  function Promoted(rows: Rows, found: Option<nat>, revision: string): Rows {
    match found
    case Some(id) => WithStatus(rows, id, Addressed, Some(revision))
    case None => rows
  }

  // ----- no two open signals for one thing -----------------------------------------------------------------

  ghost predicate Clash(a: Signal, b: Signal, listKey: ListKey) {
    a.status.Open? && b.status.Open? && IsRegistryKind(a.kind) && KeyOf(a, listKey) == KeyOf(b, listKey)
  }

  /** No two open signals of the registry kinds share kind and dedup key. */
  ghost predicate OpenUnique(rows: Rows, listKey: ListKey) {
    forall i, j :: 0 <= i < j < |rows| ==> !Clash(rows[i], rows[j], listKey)
  }

  /** No signal opens again, and open ones keep kind and key; every row stays in its place. */
  ghost predicate OnlyCloses(before: Rows, after: Rows, listKey: ListKey) {
    && |after| == |before|
    && forall i :: 0 <= i < |before| && after[i].status.Open? ==>
         before[i].status.Open? && KeyOf(after[i], listKey) == KeyOf(before[i], listKey)
  }

  lemma ClosingKeepsUnique(before: Rows, after: Rows, listKey: ListKey)
    requires OpenUnique(before, listKey) && OnlyCloses(before, after, listKey)
    ensures OpenUnique(after, listKey)
  {
    forall i, j | 0 <= i < j < |after|
      ensures !Clash(after[i], after[j], listKey)
    {
      assert !Clash(before[i], before[j], listKey);
    }
  }

  lemma {:induction false} RunKeepsUnique(rows: Rows, candidates: seq<Candidate>, listKey: ListKey)
    requires OpenUnique(rows, listKey)
    ensures OpenUnique(Deduplicated(rows, candidates, listKey), listKey)
  {
    if candidates != [] {
      var init, c := candidates[..|candidates| - 1], candidates[|candidates| - 1];
      RunKeepsUnique(rows, init, listKey);
      var before := Deduplicated(rows, init, listKey);
      if CandidateKey(c, listKey) !in OpenKeys(before, listKey) {
        AppendKeepsUnique(before, NewSignal(c), listKey);
      }
    }
  }

  lemma AppendKeepsUnique(rows: Rows, s: Signal, listKey: ListKey)
    requires OpenUnique(rows, listKey)
    requires IsRegistryKind(s.kind) && s.status.Open? ==> KeyOf(s, listKey) !in OpenKeys(rows, listKey)
    ensures OpenUnique(rows + [s], listKey)
  {
    var after := rows + [s];
    forall i, j | 0 <= i < j < |after|
      ensures !Clash(after[i], after[j], listKey)
    {
      if j < |rows| {
        assert !Clash(rows[i], rows[j], listKey);
      } else {
        assert rows[i].status.Open? ==> KeyOf(rows[i], listKey) in OpenKeys(rows, listKey);
      }
    }
  }
}
