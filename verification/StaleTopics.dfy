/** A run in which a delete leaves an index behind: the smallest case of the stale topic link. */
module StaleTopics {
  import opened Wrappers
  import opened Corpus
  import opened IndexQueue
  import opened IndexTheorems
  import opened IndexRuns

  const DOC := Document("a.md", "hash", "paper", "A", None, [])
  const SOURCE_PAGE := PageRow(SourcePage, "a", "A", "draft", [], None, Some(0), "passed", "")
  const CONCEPT := PageRow(ConceptPage, "c", "C", "draft", [], None, None, "", "")

  // Ingest source 0; write its page 1 and a concept page 2 that lists page 1 as a topic; drain; delete the
  // source with its page.
  const INGEST := IngestOp(DOC, NewIds(0, 0, []))
  const WRITE_SOURCE_PAGE := WritePageOp(PageWrite(None, SOURCE_PAGE, {}, "text of a", true), 1)
  const WRITE_CONCEPT := WritePageOp(PageWrite(None, CONCEPT, {1}, "text of c", true), 2)
  const DRAIN := DrainOp({OpenSearchPages}, _ => Succeeds)
  const DELETE := DeleteOp(0, Some(1), true, {})

  const OPS := [INGEST, WRITE_SOURCE_PAGE, WRITE_CONCEPT, DRAIN, DELETE]

  const ROW := RowKey(PageEntity, 2, OpenSearchPages)

  /** The canonical rows so far: source 0 without chunks, and these pages. */
  ghost predicate Holds(c: Corpus, pages: map<Id, PageRow>) {
    c.sources.Keys == {0} && c.chunks == map[] && c.pages == pages
  }

  lemma AfterIngest() returns (w: World)
    ensures Admissible(START, INGEST) && w == Step(START, INGEST)
    ensures Holds(w.corpus, map[])
  {
    var sha: string -> string := t => t;
    assert ChunkedWith(DOC, sha);
    w := Step(START, INGEST);
  }

  lemma AfterSourcePage(v: World) returns (w: World)
    requires Holds(v.corpus, map[])
    ensures Admissible(v, WRITE_SOURCE_PAGE) && w == Step(v, WRITE_SOURCE_PAGE)
    ensures Holds(w.corpus, map[1 := SOURCE_PAGE])
  {
    w := Step(v, WRITE_SOURCE_PAGE);
  }

  lemma AfterConcept(v: World) returns (w: World)
    requires Holds(v.corpus, map[1 := SOURCE_PAGE])
    ensures Admissible(v, WRITE_CONCEPT) && w == Step(v, WRITE_CONCEPT)
    ensures Holds(w.corpus, map[1 := SOURCE_PAGE, 2 := CONCEPT])
    ensures (2, 1) in w.corpus.topics && ROW in w.rows && w.rows[ROW] == ENQUEUED
    ensures Projection(w.corpus, ROW).Some?
  {
    w := Step(v, WRITE_CONCEPT);
    assert ROW in PageKeys(2);
  }

  lemma AfterDrain(v: World) returns (w: World)
    requires ROW in v.rows && v.rows[ROW] == ENQUEUED && Projection(v.corpus, ROW).Some?
    ensures Admissible(v, DRAIN) && w == Step(v, DRAIN)
    ensures w.corpus == v.corpus && ROW in w.rows && w.rows[ROW].state.Indexed?
  {
    w := Step(v, DRAIN);
    assert ROW in Claimed(v.rows, {OpenSearchPages});
  }

  lemma AfterDelete(v: World) returns (w: World)
    requires Holds(v.corpus, map[1 := SOURCE_PAGE, 2 := CONCEPT])
    requires (2, 1) in v.corpus.topics && ROW in v.rows && v.rows[ROW].state.Indexed?
    ensures Admissible(v, DELETE) && w == Step(v, DELETE)
    ensures LosesLink(v, DELETE, ROW) && w.corpus.pages == map[2 := CONCEPT]
    ensures ROW in w.rows && w.rows[ROW].state.Indexed?
  {
    assert !StillReferenced(v.corpus, 0, Some(1));
    assert RemovedEntities(v.corpus, 0, Some(1)) == {1};
    w := Step(v, DELETE);
  }

  ghost predicate Leads(w: World, op: Op, v: World) {
    Admissible(w, op) && v == Step(w, op)
  }

  /** A run that ends in w. */
  ghost predicate RunTo(states: seq<World>, ops: seq<Op>, w: World) {
    IsRun(states, ops) && states[|ops|] == w
  }

  /** A run goes on with any step its last state admits. */
  lemma RunGoesOn(states: seq<World>, ops: seq<Op>, w: World, op: Op, v: World)
    requires RunTo(states, ops, w) && Leads(w, op, v)
    ensures RunTo(states + [v], ops + [op], v)
  {
    var longer, more := states + [v], ops + [op];
    forall i | 0 <= i < |more|
      ensures Admissible(longer[i], more[i]) && longer[i + 1] == Step(longer[i], more[i])
    {
      assert i < |ops| ==> longer[i] == states[i] && longer[i + 1] == states[i + 1] && more[i] == ops[i];
    }
  }

  lemma TwoSteps(states: seq<World>, ops: seq<Op>, w: World, a: Op, w1: World, b: Op, w2: World)
    requires RunTo(states, ops, w) && Leads(w, a, w1) && Leads(w1, b, w2)
    ensures RunTo(states + [w1, w2], ops + [a, b], w2)
  {
    RunGoesOn(states, ops, w, a, w1);
    RunGoesOn(states + [w1], ops + [a], w1, b, w2);
    assert (states + [w1]) + [w2] == states + [w1, w2] && (ops + [a]) + [b] == ops + [a, b];
  }

  lemma FiveSteps(a: Op, b: Op, c: Op, d: Op, e: Op, w1: World, w2: World, w3: World, w4: World, w5: World)
    requires Leads(START, a, w1) && Leads(w1, b, w2) && Leads(w2, c, w3) && Leads(w3, d, w4) && Leads(w4, e, w5)
    ensures IsRun([START] + [w1, w2, w3, w4, w5], [a, b, c, d, e])
  {
    TwoSteps([START], [], START, a, w1, b, w2);
    TwoSteps([START] + [w1, w2], [] + [a, b], w2, c, w3, d, w4);
    RunGoesOn([START] + [w1, w2] + [w3, w4], [] + [a, b] + [c, d], w4, e, w5);
    Flat([START], w1, w2, w3, w4, w5);
    Flat([], a, b, c, d, e);
    assert [] + [a, b, c, d, e] == [a, b, c, d, e];
  }

  lemma Flat<T>(first: seq<T>, a: T, b: T, c: T, d: T, e: T)
    ensures first + [a, b] + [c, d] + [e] == first + [a, b, c, d, e]
  {
  }

  lemma EarlierStepsHarmless(states: seq<World>, i: nat)
    requires IsRun(states, OPS) && i < 4
    ensures !Harmful(states[i], OPS[i])
  {
    assert forall r :: !Harms(states[i], OPS[i], r);
  }

  /** Every step goes through. */
  lemma Worlds() returns (w1: World, w2: World, w3: World, w4: World, w5: World)
    ensures Leads(START, INGEST, w1) && Leads(w1, WRITE_SOURCE_PAGE, w2) && Leads(w2, WRITE_CONCEPT, w3)
    ensures Leads(w3, DRAIN, w4) && Leads(w4, DELETE, w5)
    ensures LosesLink(w4, DELETE, ROW) && ROW in w5.rows && w5.rows[ROW].state.Indexed?
    ensures w5.corpus.pages == map[2 := CONCEPT]
  {
    w1 := AfterIngest();
    w2 := AfterSourcePage(w1);
    w3 := AfterConcept(w2);
    w4 := AfterDrain(w3);
    w5 := AfterDelete(w4);
  }

  /** A run of the five steps that ends with the row indexed has left it stale. */
  lemma Conclusion(states: seq<World>)
    requires IsRun(states, OPS) && LosesLink(states[4], DELETE, ROW)
    requires ROW in states[5].rows && states[5].rows[ROW].state.Indexed?
    ensures Live(states[5].corpus, ROW)
    ensures !Agrees(states[5], ROW) && !Consistent(states[5]) && Consistent(states[4])
  {
    assert OPS[4] == DELETE;
    assert Stale(states, OPS, 5, ROW);
    IndexedRowsAreTruthfulIff(states, OPS, 5, ROW);
    forall i | 0 <= i < 4
      ensures !Harmful(states[i], OPS[i])
    {
      EarlierStepsHarmless(states, i);
    }
    RunsStayConsistentIff(states, OPS, 4);
  }

  /** The concept page written again as its file says, with the topic that is gone: the rows are rolled back, and
      the file has the new text. */
  lemma RewriteIsRolledBack(w: World, text: string)
    requires w.corpus.pages == map[2 := CONCEPT]
    ensures WritePage(w, PageWrite(Some(2), CONCEPT, {1}, text, true), 0).FileOnly?
  {
    assert !TopicsExist(w.corpus, 2, CONCEPT, {1}) by {
      assert 1 in {1};
    }
  }

  /** The run is possible, every write of it succeeds, and it ends with a row that says indexed while the
      store shows a topic that no longer exists. Before the delete everything was consistent; after it the
      concept page cannot be written again with the topics its file lists. */
  lemma DeletedTopicStaysIndexed() returns (states: seq<World>)
    ensures IsRun(states, OPS)
    ensures ROW in states[5].rows && states[5].rows[ROW].state.Indexed? && Live(states[5].corpus, ROW)
    ensures !Agrees(states[5], ROW) && !Consistent(states[5]) && Consistent(states[4])
    ensures forall text :: WritePage(states[5], PageWrite(Some(2), CONCEPT, {1}, text, true), 0).FileOnly?
  {
    var w1, w2, w3, w4, w5 := Worlds();
    FiveSteps(INGEST, WRITE_SOURCE_PAGE, WRITE_CONCEPT, DRAIN, DELETE, w1, w2, w3, w4, w5);
    states := [START] + [w1, w2, w3, w4, w5];
    Conclusion(states);
    forall text
      ensures WritePage(w5, PageWrite(Some(2), CONCEPT, {1}, text, true), 0).FileOnly?
    {
      RewriteIsRolledBack(w5, text);
    }
  }
}
