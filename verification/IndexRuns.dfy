/** Every run of page writes, ingests, tag changes, deletes, drains and reindexes. */
module IndexRuns {
  import opened Wrappers
  import opened Corpus
  import opened IndexQueue
  import opened IndexTheorems
  import opened IngestTheorems

  datatype Op =
    | WritePageOp(pw: PageWrite, newId: Id)
    | IngestOp(doc: Document, ids: NewIds)
    | TagOp(page: Id, name: string, add: bool)
    | DeleteOp(source: Id, sourcePage: Option<Id>, fileGone: bool, reached: set<RowKey>)
    | DrainOp(kinds: set<IndexKind>, fate: Fates)
    | ReindexOp(target: Target, fate: Fates)
    | AbortedReindexOp(target: Target, dropped: nat)

  function OrSame(w: World, r: Result<World>): World {
    match r
    case Done(v) => v
    case Refused => w
  }

  ghost predicate Admissible(w: World, op: Op) {
    match op
    case WritePageOp(pw, newId) => WriterOk(w, pw, newId)
    case IngestOp(doc, ids) => IngestOk(w, doc, ids)
    case TagOp(page, _, _) => page in w.corpus.pages
    case DeleteOp(s, page, _, _) => DeleteOk(w, s, page)
    case DrainOp(_, _) => true
    case ReindexOp(_, _) => true
    case AbortedReindexOp(t, n) => n <= |RecreateOrder(t)|
  }

  ghost function Step(w: World, op: Op): World
    requires Admissible(w, op)
  {
    match op
    case WritePageOp(pw, newId) => AfterPage(w, WritePage(w, pw, newId))
    case IngestOp(doc, ids) => Ingest(w, doc, ids).world
    case TagOp(page, name, add) => Tag(w, page, name, add)
    case DeleteOp(s, page, fileGone, reached) => OrSame(w, DeleteSource(w, s, page, fileGone, reached))
    case DrainOp(kinds, fate) => Drained(w, Claimed(w.rows, kinds), fate)
    case ReindexOp(t, fate) => Reindexed(w, t, fate)
    case AbortedReindexOp(t, n) => Aborted(w, t, n)
  }

  const START := World(EMPTY_CORPUS, map[], map[])

  /** States and steps alternate from the empty state on, whatever the stores fail at. */
  ghost predicate IsRun(states: seq<World>, ops: seq<Op>) {
    && |states| == |ops| + 1 && states[0] == START
    && forall i :: 0 <= i < |ops| ==> Admissible(states[i], ops[i]) && states[i + 1] == Step(states[i], ops[i])
  }

  // ----- what one step does to a row ----------------------------------------------------------------

  /** The rows a step enqueues or processes. */
  ghost function Renewed(w: World, op: Op): set<RowKey>
    requires Admissible(w, op)
  {
    match op
    case WritePageOp(pw, newId) => if WritePage(w, pw, newId).Saved? then PageKeys(pw.id.GetOr(newId)) else {}
    case IngestOp(doc, ids) =>
      if Known(w.corpus, doc.contentHash) then {} else KeysOfChunks(set id | id in ids.chunks)
    case TagOp(page, _, _) => TagKeys(w.corpus, page)
    case DeleteOp(_, _, _, _) => {}
    case DrainOp(kinds, _) => Claimed(w.rows, kinds)
    case ReindexOp(t, _) => TargetRows(w.corpus, t)
    case AbortedReindexOp(_, _) => {}
  }

  /** The step deletes a source page that the row's page lists among its topics. */
  ghost predicate LosesLink(w: World, op: Op, r: RowKey) {
    op.DeleteOp? && DeleteSource(w, op.source, op.sourcePage, op.fileGone, op.reached).Done?
    && LinksTo(w.corpus, r, op.sourcePage)
  }

  /** The step drops the store that holds the row's entry, and raises before it enqueues the row. */
  predicate LosesEntry(op: Op, r: RowKey) {
    op.AbortedReindexOp? && op.dropped <= |RecreateOrder(op.target)| && r.index in FirstKinds(op.target, op.dropped)
  }

  /** The step writes a page's file and has its rows rolled back. */
  predicate FileWritten(w: World, op: Op) {
    op.WritePageOp? && WritePage(w, op.pw, op.newId).FileOnly?
  }

  /** A step that enqueues what it changes: no delete, no aborted reindex, no page write that is rolled back. */
  predicate Enqueues(w: World, op: Op) {
    !op.DeleteOp? && !op.AbortedReindexOp? && !FileWritten(w, op)
  }

  /** Such a step keeps every row: it renews it, or leaves row, entry and projection alone. */
  lemma OtherStepsKeep(w: World, op: Op)
    requires Tended(w) && Admissible(w, op) && Enqueues(w, op)
    ensures Kept(w, Step(w, op), Renewed(w, op))
  {
    match op
    case WritePageOp(pw, newId) =>
      if WritePage(w, pw, newId).Saved? {
        PageWriteKeeps(w, pw, newId);
      }
    case IngestOp(doc, ids) => IngestKeeps(w, doc, ids);
    case TagOp(page, name, add) => TagKeeps(w, page, name, add);
    case DrainOp(kinds, fate) => DrainKeeps(w, Claimed(w.rows, kinds), fate);
    case ReindexOp(t, fate) => ReindexKeeps(w, t, fate);
  }

  /** Every step keeps the sync rows to exactly the live entities. */
  lemma StepKeepsTended(w: World, op: Op)
    requires Tended(w) && Admissible(w, op)
    ensures Tended(Step(w, op))
  {
    if op.DeleteOp? {
      if DeleteSource(w, op.source, op.sourcePage, op.fileGone, op.reached).Done? {
        DeleteKeepsTended(w, op.source, op.sourcePage, op.fileGone, op.reached);
      }
    } else if FileWritten(w, op) {
      FileOnlyKeeps(w, op.pw, op.newId, RowKey(PageEntity, 0, Memgraph));
    } else if Enqueues(w, op) {
      OtherStepsKeep(w, op);
    }
  }

  /** The row is as it was, and so is its entry unless its store was dropped. */
  ghost predicate LeftAlone(w: World, v: World, r: RowKey, dropped: bool) {
    && r in w.rows && r in v.rows && v.rows[r] == w.rows[r]
    && (r in v.store <==> r in w.store && !dropped)
    && (r in v.store ==> v.store[r] == w.store[r])
  }

  /** A row that a step does not renew stays as it is. Its entry goes exactly when the step drops its store. Its
      projection keeps all but the file's text, unless the step deletes a page that the row's page lists: then it
      loses that topic. */
  lemma UnrenewedRow(w: World, op: Op, r: RowKey)
    requires Tended(w) && Admissible(w, op)
    ensures r in Step(w, op).rows && Tracked(r) && r !in Renewed(w, op) ==>
              && LeftAlone(w, Step(w, op), r, LosesEntry(op, r))
              && (if LosesLink(w, op, r) then LostTopic(w.corpus, Step(w, op).corpus, r, op.sourcePage)
                  else Textless(Projection(Step(w, op).corpus, r)) == Textless(Projection(w.corpus, r)))
  {
    if r in Step(w, op).rows && Tracked(r) && r !in Renewed(w, op) {
      if op.DeleteOp? {
        if DeleteSource(w, op.source, op.sourcePage, op.fileGone, op.reached).Done? {
          DeleteKeepsRow(w, op.source, op.sourcePage, op.fileGone, op.reached, r);
        }
      } else if FileWritten(w, op) {
        FileOnlyKeeps(w, op.pw, op.newId, r);
      } else if Enqueues(w, op) {
        OtherStepsKeep(w, op);
        assert KeptRow(w, Step(w, op), r, Renewed(w, op));
      }
    }
  }

  /** The projection has lost the page as a topic, and no other topic. */
  ghost predicate LostTopic(c: Corpus, d: Corpus, r: RowKey, page: Option<Id>) {
    && page.Some? && page.value in EntryTopics(Projection(c, r))
    && EntryTopics(Projection(d, r)) == EntryTopics(Projection(c, r)) - {page.value}
  }

  lemma RenewedRow(w: World, op: Op, r: RowKey)
    requires Tended(w) && Admissible(w, op) && Tracked(r) && r in Renewed(w, op)
    ensures Truthful(Step(w, op), r)
  {
    OtherStepsKeep(w, op);
    if r in Step(w, op).rows {
      assert KeptRow(w, Step(w, op), r, Renewed(w, op));
    }
  }

  // ----- the ingestion rules ---------------------------------------------------------------------------

  lemma StepKeepsSources(w: World, op: Op)
    requires SourcesOk(w.corpus) && Admissible(w, op)
    ensures SourcesOk(Step(w, op).corpus)
  {
    if op.IngestOp? {
      IngestKeepsSources(w, op.doc, op.ids);
    } else if op.DeleteOp? {
      if DeleteSource(w, op.source, op.sourcePage, op.fileGone, op.reached).Done? {
        DeleteKeepsSources(w.corpus, op.source, op.sourcePage, op.fileGone);
      }
    } else {
      OtherStepsLeaveSources(w, op);
    }
  }

  ghost predicate SameSources(c: Corpus, d: Corpus) {
    d.sources == c.sources && d.documents == c.documents && d.chunks == c.chunks
  }

  lemma TagLeavesSources(w: World, page: Id, name: string, add: bool)
    requires page in w.corpus.pages
    ensures SameSources(w.corpus, Tag(w, page, name, add).corpus)
  {
    var p := w.corpus.pages[page];
    var d := if p.kind.SourcePage? && p.sourceId.Some? then TagSource(w, page, p.sourceId.value, name, add).corpus
             else TagPage(w, page, name, add).corpus;
    assert SameSources(w.corpus, d);
  }

  lemma OtherStepsLeaveSources(w: World, op: Op)
    requires Admissible(w, op) && !op.IngestOp? && !op.DeleteOp?
    ensures SameSources(w.corpus, Step(w, op).corpus)
  {
    if op.TagOp? {
      TagLeavesSources(w, op.page, op.name, op.add);
    }
  }

  // ----- over whole runs ---------------------------------------------------------------------------------

  /** In every state of every run the sync rows are exactly those of the live entities, and the ingestion
      rules hold. */
  lemma {:induction false} RunsStayTended(states: seq<World>, ops: seq<Op>, n: nat)
    requires IsRun(states, ops) && n < |states|
    ensures Tended(states[n]) && SourcesOk(states[n].corpus)
  {
    if n > 0 {
      RunsStayTended(states, ops, n - 1);
      StepKeepsTended(states[n - 1], ops[n - 1]);
      StepKeepsSources(states[n - 1], ops[n - 1]);
      assert states[n - 1 + 1] == Step(states[n - 1], ops[n - 1]);
    }
  }

  /** Since the row was last enqueued or processed, its page has lost a topic link to a deleted source page, or an
      aborted reindex has dropped its entry. */
  ghost predicate Stale(states: seq<World>, ops: seq<Op>, n: nat, r: RowKey)
    requires IsRun(states, ops) && n < |states|
  {
    n > 0 && r !in Renewed(states[n - 1], ops[n - 1])
    && (LosesLink(states[n - 1], ops[n - 1], r) || LosesEntry(ops[n - 1], r) || Stale(states, ops, n - 1, r))
  }

  /** The text of the page's file when the row was last enqueued or processed. */
  ghost function TextThen(states: seq<World>, ops: seq<Op>, n: nat, r: RowKey): string
    requires IsRun(states, ops) && n < |states|
  {
    if n == 0 then ""
    else if r in Renewed(states[n - 1], ops[n - 1]) then FileText(states[n].corpus, r)
    else TextThen(states, ops, n - 1, r)
  }

  /** What makes an indexed row untruthful, read off the run: it is stale, or its page's file has another text
      than when the row was last enqueued or processed, left there by page writes that were rolled back. */
  ghost predicate Outdated(states: seq<World>, ops: seq<Op>, n: nat, r: RowKey)
    requires IsRun(states, ops) && n < |states|
  {
    Stale(states, ops, n, r) || FileText(states[n].corpus, r) != TextThen(states, ops, n, r)
  }

  /** The entry is gone, or shows a topic that the current projection no longer has. */
  ghost predicate ShowsLoss(w: World, r: RowKey) {
    r !in w.store || exists t :: t in EntryTopics(Some(w.store[r])) && t !in EntryTopics(Projection(w.corpus, r))
  }

  /** The entry is the projection, but for the file's text, which is this one. */
  ghost predicate ShowsText(w: World, r: RowKey, text: string) {
    && r in w.store && Textless(Some(w.store[r])) == Textless(Projection(w.corpus, r))
    && EntryText(Some(w.store[r])) == text
  }

  /** What an indexed row's store holds. */
  ghost predicate Holds(w: World, r: RowKey, stale: bool, text: string) {
    r in w.rows && w.rows[r].state.Indexed? ==> if stale then ShowsLoss(w, r) else ShowsText(w, r, text)
  }

  /** Without its text an entry shows the same topics. */
  lemma TextlessTopics(e: Option<Entry>)
    ensures EntryTopics(Textless(e)) == EntryTopics(e)
  {
  }

  lemma LossStays(w: World, op: Op, r: RowKey)
    requires Tended(w) && Admissible(w, op) && Tracked(r) && ShowsLoss(w, r)
    requires r in Step(w, op).rows && r !in Renewed(w, op)
    ensures ShowsLoss(Step(w, op), r)
  {
    var v := Step(w, op);
    UnrenewedRow(w, op, r);
    TextlessTopics(Projection(w.corpus, r));
    TextlessTopics(Projection(v.corpus, r));
    if r in v.store {
      var t :| t in EntryTopics(Some(w.store[r])) && t !in EntryTopics(Projection(w.corpus, r));
      assert t !in EntryTopics(Projection(v.corpus, r));
    }
  }

  lemma LossAppears(w: World, op: Op, r: RowKey, text: string)
    requires Tended(w) && Admissible(w, op) && Tracked(r) && ShowsText(w, r, text)
    requires r in Step(w, op).rows && r !in Renewed(w, op)
    ensures if LosesLink(w, op, r) || LosesEntry(op, r) then ShowsLoss(Step(w, op), r)
            else ShowsText(Step(w, op), r, text)
  {
    var v := Step(w, op);
    UnrenewedRow(w, op, r);
    if LosesLink(w, op, r) {
      TextlessTopics(Some(w.store[r]));
      TextlessTopics(Projection(w.corpus, r));
      assert op.sourcePage.value in EntryTopics(Some(v.store[r]));
    }
  }

  lemma AgreesIffText(w: World, r: RowKey)
    requires Tended(w) && r in w.rows && Tracked(r)
    ensures Agrees(w, r) <==> ShowsText(w, r, FileText(w.corpus, r))
  {
  }

  lemma StepHolds(w: World, op: Op, r: RowKey, stale: bool, text: string)
    requires Tended(w) && Admissible(w, op) && Tracked(r) && Holds(w, r, stale, text)
    ensures var v := Step(w, op);
            if r in Renewed(w, op) then Holds(v, r, false, FileText(v.corpus, r))
            else Holds(v, r, LosesLink(w, op, r) || LosesEntry(op, r) || stale, text)
  {
    var v := Step(w, op);
    if r in v.rows && v.rows[r].state.Indexed? {
      if r in Renewed(w, op) {
        RenewedRow(w, op, r);
        StepKeepsTended(w, op);
        AgreesIffText(v, r);
      } else {
        UnrenewedRow(w, op, r);
        if stale {
          LossStays(w, op, r);
        } else {
          LossAppears(w, op, r, text);
        }
      }
    }
  }

  lemma {:induction false} RunHolds(states: seq<World>, ops: seq<Op>, n: nat, r: RowKey)
    requires IsRun(states, ops) && n < |states| && Tracked(r)
    ensures Holds(states[n], r, Stale(states, ops, n, r), TextThen(states, ops, n, r))
  {
    if n > 0 {
      RunHolds(states, ops, n - 1, r);
      RunsStayTended(states, ops, n - 1);
      StepHolds(states[n - 1], ops[n - 1], r, Stale(states, ops, n - 1, r), TextThen(states, ops, n - 1, r));
      assert states[n - 1 + 1] == Step(states[n - 1], ops[n - 1]);
    }
  }

  /** In every state of every run an indexed row of a live entity means that its store holds the current
      projection, if and only if since the row was last enqueued or processed its page has lost no topic link to a
      deleted source page, no aborted reindex has dropped its entry, and no rolled-back page write has changed the
      text of its page's file. */
  lemma IndexedRowsAreTruthfulIff(states: seq<World>, ops: seq<Op>, n: nat, r: RowKey)
    requires IsRun(states, ops) && n < |states|
    requires r in states[n].rows && states[n].rows[r].state.Indexed? && Tracked(r)
    ensures Live(states[n].corpus, r)
    ensures Agrees(states[n], r) <==> !Outdated(states, ops, n, r)
  {
    RunsStayTended(states, ops, n);
    RunHolds(states, ops, n, r);
    AgreesIffText(states[n], r);
  }

  /** Eventual consistency: when no tracked row is pending or failed, the stores agree with the canonical
      data on every live entity that is not outdated. */
  lemma QuiescentStoresAgree(states: seq<World>, ops: seq<Op>, n: nat, r: RowKey)
    requires IsRun(states, ops) && n < |states|
    requires forall q :: q in states[n].rows && Tracked(q) ==> states[n].rows[q].state.Indexed?
    requires Live(states[n].corpus, r) && Tracked(r)
    ensures Agrees(states[n], r) <==> !Outdated(states, ops, n, r)
  {
    RunsStayTended(states, ops, n);
    IndexedRowsAreTruthfulIff(states, ops, n, r);
  }

  /** An aborted reindex has dropped the row's store since the row was last enqueued or processed. */
  ghost predicate EntryLost(states: seq<World>, ops: seq<Op>, n: nat, r: RowKey)
    requires IsRun(states, ops) && n < |states|
  {
    n > 0 && r !in Renewed(states[n - 1], ops[n - 1])
    && (LosesEntry(ops[n - 1], r) || EntryLost(states, ops, n - 1, r))
  }

  /** A chunk's row is outdated for this reason only. */
  lemma {:induction false} ChunksAreOutdatedIff(states: seq<World>, ops: seq<Op>, n: nat, r: RowKey)
    requires IsRun(states, ops) && n < |states| && r.entity.ChunkEntity?
    ensures Outdated(states, ops, n, r) <==> EntryLost(states, ops, n, r)
    ensures TextThen(states, ops, n, r) == ""
  {
    if n > 0 {
      ChunksAreOutdatedIff(states, ops, n - 1, r);
    }
  }

  // ----- runs that stay consistent ---------------------------------------------------------------------

  ghost predicate IndexedRow(w: World, r: RowKey) {
    r in w.rows && w.rows[r].state.Indexed? && Tracked(r)
  }

  /** The step writes another text into the file of the row's page and has the page's rows rolled back. */
  predicate Rewords(w: World, op: Op, r: RowKey) {
    && FileWritten(w, op) && r.entity.PageEntity? && r.id in w.corpus.pages
    && w.corpus.pages[r.id].Path() == op.pw.row.Path()
    && op.pw.text != FileText(w.corpus, r)
  }

  /** The step makes the indexed row untruthful: it deletes its page's topic under way, drops its entry, or changes
      its page's file. */
  ghost predicate Harms(w: World, op: Op, r: RowKey) {
    || (LosesLink(w, op, r) && ListsAsTopic(w, r, op.sourcePage))
    || (IndexedRow(w, r) && (LosesEntry(op, r) || Rewords(w, op, r)))
  }

  ghost predicate Harmful(w: World, op: Op) {
    exists r :: Harms(w, op, r)
  }

  lemma DeleteConsistentIff(w: World, op: Op)
    requires Consistent(w) && Admissible(w, op) && op.DeleteOp?
    ensures Consistent(Step(w, op)) <==> !Harmful(w, op)
  {
    if DeleteSource(w, op.source, op.sourcePage, op.fileGone, op.reached).Done? {
      DeleteKeepsIff(w, op.source, op.sourcePage, op.fileGone, op.reached);
    }
    DeleteHarmsIff(w, op);
  }

  lemma DeleteHarmsIff(w: World, op: Op)
    requires op.DeleteOp?
    ensures Harmful(w, op)
            <==> DeleteSource(w, op.source, op.sourcePage, op.fileGone, op.reached).Done?
                 && exists r :: ListsAsTopic(w, r, op.sourcePage)
  {
    if r :| ListsAsTopic(w, r, op.sourcePage) {
      assert LosesLink(w, op, r) ==> Harms(w, op, r);
    }
  }

  lemma AbortedConsistentIff(w: World, op: Op)
    requires Consistent(w) && Admissible(w, op) && op.AbortedReindexOp?
    ensures Consistent(Step(w, op)) <==> !Harmful(w, op)
  {
    var v := Step(w, op);
    forall r: RowKey
      ensures r in w.rows ==> (Truthful(v, r) <==> !Harms(w, op, r))
      ensures Harms(w, op, r) ==> r in w.rows
    {
    }
  }

  lemma RewordedRow(w: World, op: Op, r: RowKey)
    requires Consistent(w) && Admissible(w, op) && FileWritten(w, op) && IndexedRow(w, r)
    ensures Agrees(Step(w, op), r) <==> !Rewords(w, op, r)
  {
    FileOnlyKeeps(w, op.pw, op.newId, r);
    assert Truthful(w, r);
    RewordedAgrees(w, Step(w, op), r);
  }

  lemma RewordedAgrees(w: World, v: World, r: RowKey)
    requires Tended(w) && Tended(v) && v.rows == w.rows && v.store == w.store
    requires r in w.rows && Tracked(r) && Agrees(w, r)
    requires Textless(Projection(v.corpus, r)) == Textless(Projection(w.corpus, r))
    ensures Agrees(v, r) <==> FileText(v.corpus, r) == FileText(w.corpus, r)
  {
    AgreesIffText(w, r);
    AgreesIffText(v, r);
  }

  lemma FileWrittenConsistentIff(w: World, op: Op)
    requires Consistent(w) && Admissible(w, op) && FileWritten(w, op)
    ensures Consistent(Step(w, op)) <==> !Harmful(w, op)
  {
    var v := Step(w, op);
    FileOnlyKeeps(w, op.pw, op.newId, RowKey(PageEntity, 0, Memgraph));
    forall r: RowKey
      ensures r in w.rows ==> (Truthful(v, r) <==> !Harms(w, op, r))
      ensures Harms(w, op, r) ==> r in w.rows
    {
      if IndexedRow(w, r) {
        RewordedRow(w, op, r);
      }
    }
  }

  lemma EnqueuingKeepsConsistent(w: World, op: Op)
    requires Consistent(w) && Admissible(w, op) && Enqueues(w, op)
    ensures Consistent(Step(w, op)) && !Harmful(w, op)
  {
    assert !Harmful(w, op);
    OtherStepsKeep(w, op);
    KeptIsConsistent(w, Step(w, op), Renewed(w, op));
  }

  lemma StepConsistentIff(w: World, op: Op)
    requires Consistent(w) && Admissible(w, op)
    ensures Consistent(Step(w, op)) <==> !Harmful(w, op)
  {
    if op.DeleteOp? {
      DeleteConsistentIff(w, op);
    } else if op.AbortedReindexOp? {
      AbortedConsistentIff(w, op);
    } else if FileWritten(w, op) {
      FileWrittenConsistentIff(w, op);
    } else {
      EnqueuingKeepsConsistent(w, op);
    }
  }

  lemma NextStateConsistentIff(states: seq<World>, ops: seq<Op>, n: nat)
    requires IsRun(states, ops) && n < |ops|
    ensures Consistent(states[n]) ==> (Consistent(states[n + 1]) <==> !Harmful(states[n], ops[n]))
  {
    if Consistent(states[n]) {
      StepConsistentIff(states[n], ops[n]);
    }
  }

  /** A run is consistent throughout exactly when none of its steps deletes a source page that a page with an
      indexed row lists among its topics, aborts a reindex that has dropped the entry of an indexed row, or writes
      another text into the file of a page with an indexed row and has the page's rows rolled back. */
  lemma {:induction false} RunsStayConsistentIff(states: seq<World>, ops: seq<Op>, n: nat)
    requires IsRun(states, ops) && n < |states|
    ensures (forall i :: 0 <= i <= n ==> Consistent(states[i]))
            <==> (forall i :: 0 <= i < n ==> !Harmful(states[i], ops[i]))
  {
    if n > 0 {
      RunsStayConsistentIff(states, ops, n - 1);
      NextStateConsistentIff(states, ops, n - 1);
    }
  }

  // ----- reindexing -------------------------------------------------------------------------------

  lemma AllLandOnEmpty(store: map<RowKey, Entry>, rows: Queue, plan: Plan, fate: Fates, r: RowKey)
    requires fate(r).Succeeds? && r !in store && Tracked(r)
    requires r in plan ==> r in rows && plan[r].Some?
    requires r in rows ==> r in plan
    ensures var m, q := DrainedStore(store, plan, fate), DrainedRows(rows, plan, fate);
            && (r in m <==> r in plan)
            && (r in m ==> Some(m[r]) == plan[r])
            && (r in q <==> r in plan)
            && (r in q ==> q[r].state.Indexed?)
  {
  }

  predicate OfPages(i: IndexKind) {
    i.OpenSearchPages? || i.QdrantPages?
  }

  /** Reindex is exact: when no write fails, each target store holds exactly the projections of the
      live entities, so entries of entities long gone are dropped. */
  lemma ReindexIsExact(w: World, t: Target, fate: Fates, r: RowKey)
    requires Tended(w)
    requires fate(r).Succeeds? && Tracked(r) && (t.Pages? ==> OfPages(r.index)) && (t.Chunks? ==> !OfPages(r.index))
    ensures var v := Reindexed(w, t, fate);
            && (r in v.store <==> Live(w.corpus, r))
            && (r in v.store ==> Some(v.store[r]) == Projection(w.corpus, r))
            && (r in v.rows <==> Live(w.corpus, r))
            && (r in v.rows ==> v.rows[r].state.Indexed?)
  {
    var e := Restarted(w, t);
    RestartedClaims(w, t);
    var plan := PlanOf(w.corpus, TargetRows(w.corpus, t));
    if Live(w.corpus, r) {
      LiveHasProjection(w.corpus, r);
    }
    assert r in plan <==> Live(w.corpus, r);
    AllLandOnEmpty(e.store, e.rows, plan, fate, r);
  }

  /** From any state of any run, a reindex of everything in which no write fails makes the stores consistent,
      stale rows included. */
  lemma ReindexRestoresConsistency(states: seq<World>, ops: seq<Op>, n: nat, fate: Fates)
    requires IsRun(states, ops) && n < |states|
    requires forall r :: fate(r).Succeeds?
    ensures Consistent(Reindexed(states[n], All, fate))
  {
    RunsStayTended(states, ops, n);
    ReindexRestores(states[n], fate);
  }

  lemma ReindexRestores(w: World, fate: Fates)
    requires Tended(w) && forall r :: fate(r).Succeeds?
    ensures Consistent(Reindexed(w, All, fate))
  {
    var v := Reindexed(w, All, fate);
    ReindexKeeps(w, All, fate);
    forall r | r in v.rows && Tracked(r)
      ensures Truthful(v, r)
    {
      ReindexedRowAgrees(w, fate, r);
    }
  }

  lemma ReindexedRowAgrees(w: World, fate: Fates, r: RowKey)
    requires Tended(w) && fate(r).Succeeds? && Tracked(r) && r in Reindexed(w, All, fate).rows
    ensures Agrees(Reindexed(w, All, fate), r)
  {
    ReindexIsExact(w, All, fate, r);
  }

  /** Whatever fails, a reindex changes neither the stores nor the queue of the other indexes. */
  lemma ReindexSparesOthers(w: World, t: Target, fate: Fates, r: RowKey)
    requires Covered(w) && (Tracked(r) ==> (t.Pages? && !OfPages(r.index)) || (t.Chunks? && OfPages(r.index)))
    ensures var v := Reindexed(w, t, fate);
            && (r in v.store <==> r in w.store)
            && (r in v.store ==> v.store[r] == w.store[r])
            && (r in v.rows <==> r in w.rows)
            && (r in v.rows ==> v.rows[r] == w.rows[r])
  {
    assert r.index !in TargetKinds(t);
    var e := Restarted(w, t);
    assert r !in Claimed(e.rows, TargetKinds(t)) && r !in TargetRows(w.corpus, t);
  }

  /** The row waits, for one of the kinds that are drained. */
  predicate Waits(w: World, r: RowKey, kinds: set<IndexKind>) {
    r in w.rows && w.rows[r].state.Pending? && r.index in kinds
  }

  /** After any drain, with any failures: no row of its kinds waits, a row that waited is marked failed exactly when
      its write raised, with the start of the error, and has one more attempt if it is left, and the other rows are
      as they were. */
  lemma DrainAccounts(w: World, kinds: set<IndexKind>, fate: Fates)
    ensures var v := Drained(w, Claimed(w.rows, kinds), fate);
            && (forall r :: !Waits(v, r, kinds))
            && (forall r :: Waits(w, r, kinds) ==>
                  (fate(r).Raises? <==> r in v.rows && v.rows[r].state.Failed?))
            && (forall r :: Waits(w, r, kinds) && r in v.rows ==>
                  && v.rows[r].attempts == w.rows[r].attempts + 1
                  && match fate(r)
                     case Succeeds => v.rows[r].state.Indexed? && v.rows[r].lastError.None?
                     case Raises(_, e) =>
                       && v.rows[r].lastError.Some?
                       && v.rows[r].lastError.value <= e
                       && |v.rows[r].lastError.value| == if |e| < 2000 then |e| else 2000)
            && (forall r :: r in w.rows && !Waits(w, r, kinds) ==> r in v.rows && v.rows[r] == w.rows[r])
  {
  }
}
