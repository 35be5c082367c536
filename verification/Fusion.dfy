/** Reciprocal rank fusion: the accumulating loop, and what the fused order means. */
module Fusion {
  import opened Sorting
  import opened Wrappers

  // Entity ids; ties in score break by their order.
  type Id = int

  /** A search hit; fields is "" when the retriever carried none. */
  datatype Hit = Hit(id: Id, fields: string)

  datatype RankedList = RankedList(retriever: string, hits: seq<Hit>)

  datatype FusedHit = FusedHit(id: Id, score: real, ranks: map<string, nat>, fields: string)

  // ----- the meaning of a fused entry --------------------------------------------------------------

  /** 1 / (rrf_k + rank); the setting may be any integer, and where the sum is 0 the division fails. */
  function Term(k: int, rank: int): real {
    if k + rank == 0 then 0.0 else 1.0 / (k + rank) as real
  }

  /** Some list is long enough for the sum of setting and rank to be 0. */
  predicate DividesByZero(lists: seq<RankedList>, k: int) {
    exists i :: 0 <= i < |lists| && HitsZero(lists[i].hits, k)
  }

  predicate HitsZero(hits: seq<Hit>, k: int) {
    1 <= -k <= |hits|
  }

  /** What one list contributes to an id: a term for every rank it has there. */
  function ListScore(hits: seq<Hit>, k: int, id: Id): real {
    if hits == [] then 0.0
    else
      ListScore(hits[..|hits| - 1], k, id) + if hits[|hits| - 1].id == id then Term(k, |hits|) else 0.0
  }

  function Score(lists: seq<RankedList>, k: int, id: Id): real {
    if lists == [] then 0.0
    else Score(lists[..|lists| - 1], k, id) + ListScore(lists[|lists| - 1].hits, k, id)
  }

  /** The rank recorded for a list, 0 when the id is not in it. */
  function ListRank(hits: seq<Hit>, id: Id): nat {
    if hits == [] then 0
    else if hits[|hits| - 1].id == id then |hits|
    else ListRank(hits[..|hits| - 1], id)
  }

  function Ranks(lists: seq<RankedList>, id: Id): map<string, nat> {
    if lists == [] then map[]
    else
      var l := lists[|lists| - 1];
      var earlier := Ranks(lists[..|lists| - 1], id);
      if ListRank(l.hits, id) > 0 then earlier[l.retriever := ListRank(l.hits, id)] else earlier
  }

  /** The first fields carried for the id within a list. */
  function ListFields(hits: seq<Hit>, id: Id): string {
    if hits == [] then ""
    else
      var earlier := ListFields(hits[..|hits| - 1], id);
      if earlier == "" && hits[|hits| - 1].id == id then hits[|hits| - 1].fields else earlier
  }

  function Fields(lists: seq<RankedList>, id: Id): string {
    if lists == [] then ""
    else
      var earlier := Fields(lists[..|lists| - 1], id);
      if earlier == "" then ListFields(lists[|lists| - 1].hits, id) else earlier
  }

  predicate InList(hits: seq<Hit>, id: Id) {
    exists p :: 0 <= p < |hits| && hits[p].id == id
  }

  predicate Appears(lists: seq<RankedList>, id: Id) {
    exists i :: 0 <= i < |lists| && InList(lists[i].hits, id)
  }

  function Entry(lists: seq<RankedList>, k: int, id: Id): FusedHit {
    FusedHit(id, Score(lists, k, id), Ranks(lists, id), Fields(lists, id))
  }

  // ----- the loop ------------------------------------------------------------------------------------

  ghost predicate Accumulated(fused: map<Id, FusedHit>, lists: seq<RankedList>, k: int) {
    && (forall id :: id in fused <==> Appears(lists, id))
    && (forall id :: id in fused ==> fused[id] == Entry(lists, k, id))
  }

  /** The lists read so far, the last one up to some rank. */
  function SoFar(lists: seq<RankedList>, i: nat, r: nat): seq<RankedList>
    requires i < |lists| && r <= |lists[i].hits|
  {
    lists[..i] + [RankedList(lists[i].retriever, lists[i].hits[..r])]
  }

  /** An id no list mentions has nothing to its name. */
  lemma {:induction false} AbsentFromList(hits: seq<Hit>, k: int, id: Id)
    requires !InList(hits, id)
    ensures ListScore(hits, k, id) == 0.0 && ListRank(hits, id) == 0 && ListFields(hits, id) == ""
  {
    if hits != [] {
      var init := hits[..|hits| - 1];
      assert forall p :: 0 <= p < |init| ==> init[p] == hits[p];
      AbsentFromList(init, k, id);
    }
  }

  lemma {:induction false} AbsentEverywhere(lists: seq<RankedList>, k: int, id: Id)
    requires !Appears(lists, id)
    ensures Entry(lists, k, id) == FusedHit(id, 0.0, map[], "")
  {
    if lists != [] {
      var init := lists[..|lists| - 1];
      assert forall p :: 0 <= p < |init| ==> init[p] == lists[p];
      AbsentEverywhere(init, k, id);
      AbsentFromList(lists[|lists| - 1].hits, k, id);
    }
  }

  /** Starting on a list that has contributed nothing yet. */
  lemma StartList(lists: seq<RankedList>, k: int, i: nat, id: Id)
    requires i < |lists|
    ensures Entry(SoFar(lists, i, 0), k, id) == Entry(lists[..i], k, id)
    ensures Appears(SoFar(lists, i, 0), id) <==> Appears(lists[..i], id)
  {
    var s := SoFar(lists, i, 0);
    assert s[..i] == lists[..i];
    if Appears(lists[..i], id) {
      var j :| 0 <= j < i && InList(lists[..i][j].hits, id);
      assert s[j] == lists[..i][j];
    }
    if Appears(s, id) {
      var j :| 0 <= j < |s| && InList(s[j].hits, id);
      assert j < i && lists[..i][j] == s[j];
    }
  }

  /** One more hit read. */
  lemma OneMoreHit(lists: seq<RankedList>, k: int, i: nat, r: nat, id: Id)
    requires i < |lists| && r < |lists[i].hits|
    ensures var before, after := Entry(SoFar(lists, i, r), k, id), Entry(SoFar(lists, i, r + 1), k, id);
            var hit := lists[i].hits[r];
            if hit.id != id then after == before
            else after == FusedHit(id, before.score + Term(k, r + 1),
                                   before.ranks[lists[i].retriever := r + 1],
                                   if before.fields == "" then hit.fields else before.fields)
  {
    var l := lists[i];
    var s, t := SoFar(lists, i, r), SoFar(lists, i, r + 1);
    assert s[..i] == lists[..i] == t[..i];
    assert l.hits[..r + 1][..r] == l.hits[..r];
  }

  lemma OneMoreHitAppears(lists: seq<RankedList>, i: nat, r: nat, id: Id)
    requires i < |lists| && r < |lists[i].hits|
    ensures Appears(SoFar(lists, i, r + 1), id) <==> Appears(SoFar(lists, i, r), id) || lists[i].hits[r].id == id
  {
    var l := lists[i];
    var s, t := SoFar(lists, i, r), SoFar(lists, i, r + 1);
    assert InList(t[i].hits, id) <==> InList(s[i].hits, id) || l.hits[r].id == id by {
      assert forall p :: 0 <= p < r ==> t[i].hits[p] == s[i].hits[p];
      assert t[i].hits[r] == l.hits[r];
    }
    assert forall j :: 0 <= j < i ==> s[j] == t[j];
    if Appears(t, id) {
      var j :| 0 <= j < |t| && InList(t[j].hits, id);
      assert j < i ==> InList(s[j].hits, id);
    }
    if Appears(s, id) {
      var j :| 0 <= j < |s| && InList(s[j].hits, id);
      assert InList(t[j].hits, id);
    }
    if l.hits[r].id == id {
      assert InList(t[i].hits, id);
    }
  }

  /** Better score first, smaller id first among equals. */
  predicate RanksBefore(a: FusedHit, b: FusedHit) {
    a.score > b.score || (a.score == b.score && a.id < b.id)
  }

  /** The fused list: every id of the union once, with its entry, in strict order. */
  ghost predicate IsFusion(r: seq<FusedHit>, lists: seq<RankedList>, k: int) {
    && (forall i :: 0 <= i < |r| ==> Appears(lists, r[i].id) && r[i] == Entry(lists, k, r[i].id))
    && (forall id :: Appears(lists, id) ==> exists i :: 0 <= i < |r| && r[i].id == id)
    && StrictlyRanked(r)
  }

  /** A dictionary keeps its keys in the order of insertion. */
  ghost predicate InInsertionOrder(order: seq<Id>, fused: map<Id, FusedHit>) {
    && (forall i, j :: 0 <= i < j < |order| ==> order[i] != order[j])
    && (forall id :: id in order <==> id in fused)
  }

  method AddHit(
    fused0: map<Id, FusedHit>, order0: seq<Id>, lists: seq<RankedList>, k: int, i: nat, r: nat)
    returns (fused: map<Id, FusedHit>, order: seq<Id>)
    requires i < |lists| && r < |lists[i].hits| && Accumulated(fused0, SoFar(lists, i, r), k)
    requires InInsertionOrder(order0, fused0)
    ensures Accumulated(fused, SoFar(lists, i, r + 1), k) && InInsertionOrder(order, fused)
  {
    order := if lists[i].hits[r].id in fused0 then order0 else order0 + [lists[i].hits[r].id];
    var hit := lists[i].hits[r];
    var entry := if hit.id in fused0 then fused0[hit.id] else FusedHit(hit.id, 0.0, map[], "");
    if hit.id !in fused0 {
      AbsentEverywhere(SoFar(lists, i, r), k, hit.id);
    }
    entry := entry.(score := entry.score + Term(k, r + 1), ranks := entry.ranks[lists[i].retriever := r + 1]);
    if entry.fields == "" && hit.fields != "" {
      entry := entry.(fields := hit.fields);
    }
    fused := fused0[hit.id := entry];
    OneMoreHit(lists, k, i, r, hit.id);
    forall id: Id
      ensures id in fused <==> Appears(SoFar(lists, i, r + 1), id)
      ensures id in fused ==> fused[id] == Entry(SoFar(lists, i, r + 1), k, id)
    {
      OneMoreHitAppears(lists, i, r, id);
      OneMoreHit(lists, k, i, r, id);
    }
  }

  lemma ListStarts(fused: map<Id, FusedHit>, lists: seq<RankedList>, k: int, i: nat)
    requires i < |lists| && Accumulated(fused, lists[..i], k)
    ensures Accumulated(fused, SoFar(lists, i, 0), k)
  {
    forall id: Id
      ensures id in fused <==> Appears(SoFar(lists, i, 0), id)
      ensures id in fused ==> fused[id] == Entry(SoFar(lists, i, 0), k, id)
    {
      StartList(lists, k, i, id);
    }
  }

  /** One list read, rank by rank. */
  method ReadList(fused0: map<Id, FusedHit>, order0: seq<Id>, lists: seq<RankedList>, k: int, i: nat)
    returns (failed: bool, fused: map<Id, FusedHit>, order: seq<Id>)
    requires i < |lists| && Accumulated(fused0, lists[..i], k) && InInsertionOrder(order0, fused0)
    ensures failed <==> HitsZero(lists[i].hits, k)
    ensures !failed ==> Accumulated(fused, lists[..i + 1], k) && InInsertionOrder(order, fused)
  {
    failed, fused, order := false, fused0, order0;
    ListStarts(fused, lists, k, i);
    var r := 0;
    while r < |lists[i].hits|
      invariant r <= |lists[i].hits| && !(1 <= -k <= r)
      invariant Accumulated(fused, SoFar(lists, i, r), k) && InInsertionOrder(order, fused)
    {
      if k + r + 1 == 0 {
        failed := true;
        return;
      }
      fused, order := AddHit(fused, order, lists, k, i, r);
      r := r + 1;
    }
    assert lists[i].hits[..r] == lists[i].hits;
    assert SoFar(lists, i, r) == lists[..i + 1];
  }

  method Accumulate(lists: seq<RankedList>, k: int)
    returns (failed: bool, fused: map<Id, FusedHit>, order: seq<Id>)
    ensures failed <==> DividesByZero(lists, k)
    ensures !failed ==> Accumulated(fused, lists, k) && InInsertionOrder(order, fused)
  {
    failed, fused, order := false, map[], [];
    var i := 0;
    while i < |lists|
      invariant i <= |lists|
      invariant forall j :: 0 <= j < i ==> !HitsZero(lists[j].hits, k)
      invariant Accumulated(fused, lists[..i], k) && InInsertionOrder(order, fused)
    {
      failed, fused, order := ReadList(fused, order, lists, k, i);
      if failed {
        return;
      }
      i := i + 1;
    }
    assert lists[..i] == lists;
  }

  /** Sorting entries with distinct ids puts them in strict order and keeps each of them once. */
  lemma SortedEntries(entries: seq<FusedHit>)
    requires forall i, j :: 0 <= i < j < |entries| ==> entries[i].id != entries[j].id
    ensures var r := StableSort(entries, RanksBefore);
            && (forall e :: e in r <==> e in entries)
            && (forall i, j :: 0 <= i < j < |r| ==> RanksBefore(r[i], r[j]))
  {
    StrictSort(entries, RanksBefore);
  }

  /** The accumulated entries, sorted, are the fusion. */
  lemma SortedEntriesAreFusion(
    lists: seq<RankedList>, k: int, fused: map<Id, FusedHit>, order: seq<Id>, entries: seq<FusedHit>)
    requires Accumulated(fused, lists, k) && InInsertionOrder(order, fused) && |entries| == |order|
    requires forall i :: 0 <= i < |order| ==> order[i] in fused && entries[i] == fused[order[i]]
    ensures IsFusion(StableSort(entries, RanksBefore), lists, k)
  {
    var ranking := StableSort(entries, RanksBefore);
    SortedEntries(entries);
    forall i | 0 <= i < |ranking|
      ensures Appears(lists, ranking[i].id) && ranking[i] == Entry(lists, k, ranking[i].id)
    {
      assert ranking[i] in entries;
      var j :| 0 <= j < |entries| && entries[j] == ranking[i];
    }
    forall id | Appears(lists, id)
      ensures exists i :: 0 <= i < |ranking| && ranking[i].id == id
    {
      assert id in order;
      var j :| 0 <= j < |order| && order[j] == id;
      assert entries[j] in ranking;
    }
  }

  lemma OrderIsFused(order: seq<Id>, fused: map<Id, FusedHit>)
    requires InInsertionOrder(order, fused)
    ensures forall i :: 0 <= i < |order| ==> order[i] in fused
  {
    forall i | 0 <= i < |order|
      ensures order[i] in fused
    {
      assert order[i] in order;
    }
  }

  /** Fuse named ranked lists into one, best first; None when a rank makes the division fail. */
  method ReciprocalRankFusion(lists: seq<RankedList>, k: int) returns (result: Option<seq<FusedHit>>)
    ensures result.None? <==> DividesByZero(lists, k)
    ensures result.Some? ==> IsFusion(result.value, lists, k)
  {
    var failed, fused, order := Accumulate(lists, k);
    if failed {
      return None;
    }
    OrderIsFused(order, fused);
    var entries := seq(|order|, i requires 0 <= i < |order| && order[i] in fused => fused[order[i]]);
    SortedEntriesAreFusion(lists, k, fused, order, entries);
    return Some(StableSort(entries, RanksBefore));
  }

  /** The fused order: the higher score first, among equal scores the smaller id. */
  lemma FusionOrder(r: seq<FusedHit>, lists: seq<RankedList>, k: int, i: nat, j: nat)
    requires IsFusion(r, lists, k) && i < j < |r|
    ensures r[i].score > r[j].score || (r[i].score == r[j].score && r[i].id < r[j].id)
  {
    assert RanksBefore(r[i], r[j]);
  }

  // ----- what fusion promises ------------------------------------------------------------------------

  predicate DistinctIds(hits: seq<Hit>) {
    forall p, q :: 0 <= p < q < |hits| ==> hits[p].id != hits[q].id
  }

  /** A retriever that answers an id once, at some rank, contributes 1 / (setting + rank) and that rank. */
  lemma {:induction false} ListScoreIsItsTerm(hits: seq<Hit>, k: int, p: nat)
    requires DistinctIds(hits) && p < |hits|
    ensures ListScore(hits, k, hits[p].id) == Term(k, p + 1)
    ensures k + p + 1 != 0 ==> ListScore(hits, k, hits[p].id) * (k + p + 1) as real == 1.0
    ensures ListRank(hits, hits[p].id) == p + 1
  {
    var init := hits[..|hits| - 1];
    if p < |init| {
      ListScoreIsItsTerm(init, k, p);
    } else {
      AbsentFromList(init, k, hits[p].id);
    }
  }

  /** No list of the union, up to hit p of list i, carries fields for the id. */
  predicate NoFieldsBefore(lists: seq<RankedList>, id: Id, i: nat, p: nat)
    requires i < |lists|
  {
    && (forall j, q :: 0 <= j < i && 0 <= q < |lists[j].hits| && lists[j].hits[q].id == id ==>
          lists[j].hits[q].fields == "")
    && (forall q :: 0 <= q < p && q < |lists[i].hits| && lists[i].hits[q].id == id ==> lists[i].hits[q].fields == "")
  }

  lemma {:induction false} FirstFieldsOfList(hits: seq<Hit>, id: Id, p: nat)
    requires p < |hits| && hits[p].id == id && hits[p].fields != ""
    requires forall q :: 0 <= q < p && hits[q].id == id ==> hits[q].fields == ""
    ensures ListFields(hits, id) == hits[p].fields
  {
    var init := hits[..|hits| - 1];
    if p < |init| {
      FirstFieldsOfList(init, id, p);
    } else {
      NoFieldsInList(init, id);
    }
  }

  lemma {:induction false} NoFieldsInList(hits: seq<Hit>, id: Id)
    requires forall q :: 0 <= q < |hits| && hits[q].id == id ==> hits[q].fields == ""
    ensures ListFields(hits, id) == ""
  {
    if hits != [] {
      NoFieldsInList(hits[..|hits| - 1], id);
    }
  }

  lemma {:induction false} NoFieldsAnywhere(lists: seq<RankedList>, id: Id)
    requires forall j, q :: 0 <= j < |lists| && 0 <= q < |lists[j].hits| && lists[j].hits[q].id == id ==>
               lists[j].hits[q].fields == ""
    ensures Fields(lists, id) == ""
  {
    if lists != [] {
      NoFieldsAnywhere(lists[..|lists| - 1], id);
      NoFieldsInList(lists[|lists| - 1].hits, id);
    }
  }

  /** The fields of an entry are those of the first hit that carries any. */
  lemma {:induction false} FieldsAreTheFirst(lists: seq<RankedList>, id: Id, i: nat, p: nat)
    requires i < |lists| && p < |lists[i].hits| && lists[i].hits[p].id == id && lists[i].hits[p].fields != ""
    requires NoFieldsBefore(lists, id, i, p)
    ensures Fields(lists, id) == lists[i].hits[p].fields
  {
    var init := lists[..|lists| - 1];
    assert forall j :: 0 <= j < |init| ==> init[j] == lists[j];
    if i < |init| {
      FieldsAreTheFirst(init, id, i, p);
    } else {
      NoFieldsAnywhere(init, id);
      FirstFieldsOfList(lists[i].hits, id, p);
    }
  }

  predicate DistinctRetrievers(lists: seq<RankedList>) {
    forall i, j :: 0 <= i < j < |lists| ==> lists[i].retriever != lists[j].retriever
  }

  /** An entry records exactly the retrievers that answer the id, each with its rank there. */
  lemma {:induction false} RanksAreRecorded(lists: seq<RankedList>, id: Id, i: nat)
    requires DistinctRetrievers(lists) && i < |lists|
    ensures lists[i].retriever in Ranks(lists, id) <==> ListRank(lists[i].hits, id) > 0
    ensures lists[i].retriever in Ranks(lists, id) ==>
              Ranks(lists, id)[lists[i].retriever] == ListRank(lists[i].hits, id)
  {
    var init := lists[..|lists| - 1];
    if i < |init| {
      RanksAreRecorded(init, id, i);
    } else {
      OtherRetriever(init, id, lists[i].retriever);
    }
  }

  lemma {:induction false} OtherRetriever(lists: seq<RankedList>, id: Id, name: string)
    requires forall j :: 0 <= j < |lists| ==> lists[j].retriever != name
    ensures name !in Ranks(lists, id)
  {
    if lists != [] {
      OtherRetriever(lists[..|lists| - 1], id, name);
    }
  }

  lemma {:induction false} ScoreSplits(a: seq<RankedList>, b: seq<RankedList>, k: int, id: Id)
    ensures Score(a + b, k, id) == Score(a, k, id) + Score(b, k, id)
    decreases |b|
  {
    if b == [] {
      assert a + b == a;
    } else {
      assert (a + b)[..|a + b| - 1] == a + b[..|b| - 1];
      ScoreSplits(a, b[..|b| - 1], k, id);
    }
  }

  /** The score of an id does not depend on the order in which the lists are visited. */
  lemma {:induction false} ScoreIgnoresListOrder(a: seq<RankedList>, b: seq<RankedList>, k: int, id: Id)
    requires multiset(a) == multiset(b)
    ensures Score(a, k, id) == Score(b, k, id)
    decreases |a|
  {
    SameElements(a, b);
    if a != [] {
      var x := a[|a| - 1];
      assert x in b;
      var i :| 0 <= i < |b| && b[i] == x;
      var rest := b[..i] + b[i + 1..];
      assert b == b[..i] + [x] + b[i + 1..];
      DropLast(a);
      assert multiset(rest) == multiset(b) - multiset{x};
      ScoreIgnoresListOrder(a[..|a| - 1], rest, k, id);
      ScoreSplits(b[..i], b[i + 1..], k, id);
      ScoreSplits(b[..i] + [x], b[i + 1..], k, id);
      assert (b[..i] + [x])[..i] == b[..i];
    }
  }

  lemma AppearsIgnoresListOrder(a: seq<RankedList>, b: seq<RankedList>, id: Id)
    requires multiset(a) == multiset(b)
    ensures Appears(a, id) ==> Appears(b, id)
  {
    SameElements(a, b);
    if Appears(a, id) {
      var i :| 0 <= i < |a| && InList(a[i].hits, id);
      assert a[i] in b;
      var j :| 0 <= j < |b| && b[j] == a[i];
    }
  }

  predicate Holds(r: seq<FusedHit>, id: Id, score: real) {
    exists i :: 0 <= i < |r| && r[i].id == id && r[i].score == score
  }

  ghost predicate StrictlyRanked(r: seq<FusedHit>) {
    forall i, j :: 0 <= i < j < |r| ==> RanksBefore(r[i], r[j])
  }

  ghost predicate SameScores(r: seq<FusedHit>, r': seq<FusedHit>) {
    |r| == |r'| && forall i :: 0 <= i < |r| ==> r'[i].id == r[i].id && r'[i].score == r[i].score
  }

  /** In a strict ranking places and ranks say the same. */
  lemma RankedAt(r: seq<FusedHit>, i: nat, j: nat)
    requires StrictlyRanked(r) && i < |r| && j < |r|
    ensures i < j <==> RanksBefore(r[i], r[j])
  {
    assert j < i ==> RanksBefore(r[j], r[i]);
  }

  /** An entry reduced to its id and score. */
  function Bare(h: FusedHit): FusedHit {
    FusedHit(h.id, h.score, map[], "")
  }

  function Bares(r: seq<FusedHit>): seq<FusedHit> {
    seq(|r|, i requires 0 <= i < |r| => Bare(r[i]))
  }

  /** The reduced entries of a ranking appear in another that holds the same ids with the same scores. */
  lemma BaresHeld(r: seq<FusedHit>, r': seq<FusedHit>, x: FusedHit)
    requires forall i :: 0 <= i < |r| ==> Holds(r', r[i].id, r[i].score)
    requires x in Bares(r)
    ensures x in Bares(r')
  {
    var i :| 0 <= i < |r| && Bares(r)[i] == x;
    assert Holds(r', r[i].id, r[i].score);
    var j :| 0 <= j < |r'| && r'[j].id == r[i].id && r'[j].score == r[i].score;
    assert Bares(r')[j] == x;
  }

  lemma SameOrder(r: seq<FusedHit>, r': seq<FusedHit>)
    requires StrictlyRanked(r) && StrictlyRanked(r')
    requires forall i :: 0 <= i < |r| ==> Holds(r', r[i].id, r[i].score)
    requires forall j :: 0 <= j < |r'| ==> Holds(r, r'[j].id, r'[j].score)
    ensures SameScores(r, r')
  {
    forall x | x in Bares(r)
      ensures x in Bares(r')
    {
      BaresHeld(r, r', x);
    }
    forall x | x in Bares(r')
      ensures x in Bares(r)
    {
      BaresHeld(r', r, x);
    }
    BaresRanked(r);
    BaresRanked(r');
    StrictIsUnique(Bares(r), Bares(r'), RanksBefore);
    forall i | 0 <= i < |r|
      ensures |r'| == |r| && r'[i].id == r[i].id && r'[i].score == r[i].score
    {
      assert Bares(r)[i] == Bares(r')[i];
    }
  }

  lemma BaresRanked(r: seq<FusedHit>)
    requires StrictlyRanked(r)
    ensures StrictlySorted(Bares(r), RanksBefore)
  {
    forall i, j | 0 <= i < j < |r|
      ensures RanksBefore(Bares(r)[i], Bares(r)[j])
    {
      assert RanksBefore(r[i], r[j]);
    }
  }

  /** Visiting the lists in another order gives the same ids with the same scores in the same order. */
  lemma FusionIgnoresListOrder(a: seq<RankedList>, b: seq<RankedList>, k: int, r: seq<FusedHit>, r': seq<FusedHit>)
    requires multiset(a) == multiset(b) && IsFusion(r, a, k) && IsFusion(r', b, k)
    ensures SameScores(r, r')
  {
    forall i | 0 <= i < |r|
      ensures Holds(r', r[i].id, r[i].score)
    {
      AppearsIgnoresListOrder(a, b, r[i].id);
      ScoreIgnoresListOrder(a, b, k, r[i].id);
      var j :| 0 <= j < |r'| && r'[j].id == r[i].id;
    }
    forall j | 0 <= j < |r'|
      ensures Holds(r, r'[j].id, r'[j].score)
    {
      AppearsIgnoresListOrder(b, a, r'[j].id);
      ScoreIgnoresListOrder(a, b, k, r'[j].id);
      var i :| 0 <= i < |r| && r[i].id == r'[j].id;
    }
    SameOrder(r, r');
  }

  /** In this list x stands ahead of y, or y does not stand in it at all. */
  ghost predicate Ahead(hits: seq<Hit>, x: Id, y: Id) {
    forall q :: 0 <= q < |hits| && hits[q].id == y ==> exists p :: 0 <= p < q && hits[p].id == x
  }

  lemma {:induction false} ScoreNonNegative(hits: seq<Hit>, k: int, id: Id)
    requires k >= 0
    ensures ListScore(hits, k, id) >= 0.0
  {
    if hits != [] {
      ScoreNonNegative(hits[..|hits| - 1], k, id);
    }
  }

  lemma {:induction false} PresentScoresPositive(hits: seq<Hit>, k: int, id: Id)
    requires k >= 0 && InList(hits, id)
    ensures ListScore(hits, k, id) > 0.0
  {
    var init := hits[..|hits| - 1];
    ScoreNonNegative(init, k, id);
    if hits[|hits| - 1].id != id {
      var p :| 0 <= p < |hits| && hits[p].id == id;
      assert init[p].id == id;
      PresentScoresPositive(init, k, id);
    }
  }

  /** A setting of at least 0 gives every id of the union a positive score. */
  lemma {:induction false} ScorePositive(lists: seq<RankedList>, k: int, id: Id)
    requires k >= 0
    ensures Score(lists, k, id) >= 0.0
    ensures Appears(lists, id) ==> Score(lists, k, id) > 0.0
  {
    if lists != [] {
      var init, last := lists[..|lists| - 1], lists[|lists| - 1];
      ScorePositive(init, k, id);
      ScoreNonNegative(last.hits, k, id);
      if InList(last.hits, id) {
        PresentScoresPositive(last.hits, k, id);
      } else if Appears(lists, id) {
        var i :| 0 <= i < |lists| && InList(lists[i].hits, id);
        assert init[i] == lists[i];
      }
    }
  }

  lemma {:induction false} ListScoreNegative(hits: seq<Hit>, k: int, id: Id)
    requires |hits| < -k
    ensures ListScore(hits, k, id) <= 0.0
    ensures InList(hits, id) ==> ListScore(hits, k, id) < 0.0
  {
    if hits != [] {
      var init := hits[..|hits| - 1];
      ListScoreNegative(init, k, id);
      if InList(hits, id) && hits[|hits| - 1].id != id {
        var p :| 0 <= p < |hits| && hits[p].id == id;
        assert init[p].id == id;
      }
    }
  }

  /** A negative setting with which no division fails gives every id of the union a negative score. */
  lemma {:induction false} ScoreNegative(lists: seq<RankedList>, k: int, id: Id)
    requires k < 0 && !DividesByZero(lists, k)
    ensures Score(lists, k, id) <= 0.0
    ensures Appears(lists, id) ==> Score(lists, k, id) < 0.0
  {
    if lists != [] {
      var init, last := lists[..|lists| - 1], lists[|lists| - 1];
      assert forall i :: 0 <= i < |init| ==> init[i] == lists[i];
      assert !HitsZero(last.hits, k);
      ScoreNegative(init, k, id);
      ListScoreNegative(last.hits, k, id);
      if Appears(lists, id) && !InList(last.hits, id) {
        var i :| 0 <= i < |lists| && InList(lists[i].hits, id);
        assert init[i] == lists[i];
      }
    }
  }

  lemma EarlierRankScoresMore(k: int, p: nat, q: nat)
    requires k >= 0 && 1 <= p < q
    ensures Term(k, p) > Term(k, q)
  {
    var a, b := (k + p) as real, (k + q) as real;
    assert 1.0 / a - 1.0 / b == (b - a) / (a * b);
  }

  lemma AheadScoresMore(hits: seq<Hit>, k: int, x: Id, y: Id)
    requires k >= 0 && DistinctIds(hits) && Ahead(hits, x, y)
    ensures ListScore(hits, k, x) >= ListScore(hits, k, y)
    ensures InList(hits, y) ==> ListScore(hits, k, x) > ListScore(hits, k, y)
  {
    if InList(hits, y) {
      var q :| 0 <= q < |hits| && hits[q].id == y;
      var p :| 0 <= p < q && hits[p].id == x;
      ListScoreIsItsTerm(hits, k, q);
      ListScoreIsItsTerm(hits, k, p);
      EarlierRankScoresMore(k, p + 1, q + 1);
    } else {
      AbsentFromList(hits, k, y);
      ScoreNonNegative(hits, k, x);
    }
  }

  lemma {:induction false} AheadEverywhereScoresMore(lists: seq<RankedList>, k: int, x: Id, y: Id)
    requires k >= 0
    requires forall i :: 0 <= i < |lists| ==> DistinctIds(lists[i].hits) && Ahead(lists[i].hits, x, y)
    ensures Score(lists, k, x) >= Score(lists, k, y)
    ensures Appears(lists, y) ==> Score(lists, k, x) > Score(lists, k, y)
  {
    if lists != [] {
      var n := |lists| - 1;
      AheadEverywhereScoresMore(lists[..n], k, x, y);
      AheadScoresMore(lists[n].hits, k, x, y);
      if Appears(lists, y) && !InList(lists[n].hits, y) {
        var i :| 0 <= i < |lists| && InList(lists[i].hits, y);
        assert lists[..n][i] == lists[i];
      }
    }
  }

  /** For the settings -1 and -2 a fusion that does not fail reads lists of at most one hit: nothing is ranked
      behind anything. */
  lemma ShortListsHaveNothingBehind(lists: seq<RankedList>, k: int, x: Id, y: Id)
    requires -2 <= k < 0 && !DividesByZero(lists, k)
    requires forall i :: 0 <= i < |lists| ==> Ahead(lists[i].hits, x, y)
    ensures !Appears(lists, y)
  {
    forall i | 0 <= i < |lists|
      ensures !InList(lists[i].hits, y)
    {
      assert !HitsZero(lists[i].hits, k);
      assert Ahead(lists[i].hits, x, y);
    }
  }

  /** Dominance: an id ranked ahead of another in every list that contains the other comes out ahead. This
      takes a setting of at least -2; see below for the others. */
  lemma DominanceIsKept(lists: seq<RankedList>, k: int, r: seq<FusedHit>, i: nat, j: nat)
    requires k >= -2 && !DividesByZero(lists, k)
    requires IsFusion(r, lists, k) && i < |r| && j < |r|
    requires forall l :: 0 <= l < |lists| ==>
               DistinctIds(lists[l].hits) && Ahead(lists[l].hits, r[i].id, r[j].id)
    ensures i < j
  {
    if k >= 0 {
      AheadEverywhereScoresMore(lists, k, r[i].id, r[j].id);
      assert r[i].score > r[j].score;
      RankedAt(r, i, j);
    } else {
      ShortListsHaveNothingBehind(lists, k, r[i].id, r[j].id);
    }
  }

  lemma NegativeTerms(k: int)
    requires k <= -3
    ensures 3.0 * Term(k, 1) < Term(k, 2)
  {
    var a, b := (-k - 1) as real, (-k - 2) as real;
    assert Term(k, 1) == -(1.0 / a) && Term(k, 2) == -(1.0 / b);
    assert 3.0 / a - 1.0 / b == (3.0 * b - a) / (a * b);
  }

  lemma OneList(hits: seq<Hit>, l: Hit, k: int, id: Id)
    ensures ListScore(hits + [l], k, id) == ListScore(hits, k, id) + if l.id == id then Term(k, |hits| + 1) else 0.0
  {
    assert (hits + [l])[..|hits|] == hits;
  }

  lemma OneMoreList(lists: seq<RankedList>, l: RankedList, k: int, id: Id)
    ensures Score(lists + [l], k, id) == Score(lists, k, id) + ListScore(l.hits, k, id)
  {
    assert (lists + [l])[..|lists|] == lists;
  }

  /** Two hits in one list score their two terms. */
  lemma TwoHitsScore(hx: Hit, hy: Hit, k: int, id: Id)
    ensures ListScore([hx], k, id) == if id == hx.id then Term(k, 1) else 0.0
    ensures ListScore([hx, hy], k, id) == ListScore([hx], k, id) + if id == hy.id then Term(k, 2) else 0.0
  {
    assert [] + [hx] == [hx] && [hx] + [hy] == [hx, hy];
    OneList([], hx, k, id);
    OneList([hx], hy, k, id);
  }

  lemma ThreeListsScore(a: RankedList, b: RankedList, k: int, id: Id)
    ensures Score([a] + [b] + [b], k, id)
            == ListScore(a.hits, k, id) + ListScore(b.hits, k, id) + ListScore(b.hits, k, id)
  {
    assert [] + [a] == [a];
    OneMoreList([], a, k, id);
    OneMoreList([a], b, k, id);
    OneMoreList([a] + [b], b, k, id);
  }

  /** With any smaller setting dominance fails: x is ahead of y in the one list that has y, and alone in two
      more, which only lower its score. */
  lemma DominanceNeedsSetting(k: int, x: Id, y: Id)
    requires k <= -3 && x != y
    ensures var ahead, alone := RankedList("a", [Hit(x, ""), Hit(y, "")]), RankedList("b", [Hit(x, "")]);
            var lists := [ahead] + [alone] + [alone];
            && !DividesByZero(lists, k)
            && (forall l :: 0 <= l < |lists| ==> DistinctIds(lists[l].hits) && Ahead(lists[l].hits, x, y))
            && Score(lists, k, x) < Score(lists, k, y)
  {
    var hx, hy := Hit(x, ""), Hit(y, "");
    var ahead, alone := RankedList("a", [hx, hy]), RankedList("b", [hx]);
    TwoHitsScore(hx, hy, k, x);
    TwoHitsScore(hx, hy, k, y);
    ThreeListsScore(ahead, alone, k, x);
    ThreeListsScore(ahead, alone, k, y);
    NegativeTerms(k);
    assert ahead.hits[0].id == x;
  }
}
