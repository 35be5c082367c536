/** Graph expansion: scoring the pages a walk reached, and merging them into the direct hits. */
module Expansion {
  import opened Sorting
  import opened Fusion

  /** A walk reached page id from a seed after hop edges. */
  datatype WalkRow = WalkRow(seedId: Id, id: Id, title: string, hop: nat)

  datatype Reached = Reached(id: Id, title: string, hop: nat, seedId: Id, score: real)

  function Times(a: real, b: real): real {
    a * b
  }

  function Pow(base: real, n: nat): real {
    if n == 0 then 1.0 else Times(base, Pow(base, n - 1))
  }

  /** What scoring depends on: the fused scores of the seeds and two settings. */
  datatype Scoring = Scoring(seeds: map<Id, real>, decay: real, weight: real) {

    function SeedScore(id: Id): real {
      if id in seeds then seeds[id] else 0.0
    }

    function Score(row: WalkRow): real
      requires row.hop >= 1
    {
      Times(Times(SeedScore(row.seedId), weight), Pow(decay, row.hop - 1))
    }

    function Entry(row: WalkRow): Reached
      requires row.hop >= 1
    {
      Reached(row.id, row.title, row.hop, row.seedId, Score(row))
    }

    /** Row k is the first row with the best score of its page. */
    ghost predicate FirstBest(rows: seq<WalkRow>, k: nat)
      requires Walked(rows)
    {
      && k < |rows|
      && forall j :: 0 <= j < |rows| && rows[j].id == rows[k].id ==>
           Score(rows[j]) <= Score(rows[k]) && (j < k ==> Score(rows[j]) < Score(rows[k]))
    }

    ghost predicate IsBest(entry: Reached, rows: seq<WalkRow>)
      requires Walked(rows)
    {
      exists k: nat :: FirstBest(rows, k) && entry == Entry(rows[k])
    }
  }

  /** A walk row is at least one edge away from its seed. */
  predicate Walked(rows: seq<WalkRow>) {
    forall i :: 0 <= i < |rows| ==> rows[i].hop >= 1
  }

  predicate Reaches(rows: seq<WalkRow>, id: Id) {
    exists j :: 0 <= j < |rows| && rows[j].id == id
  }

  predicate Listed(reached: seq<Reached>, id: Id) {
    exists i :: 0 <= i < |reached| && reached[i].id == id
  }

  /** key=(-score, entity_id) */
  predicate StrongerReach(a: Reached, b: Reached) {
    a.score > b.score || (a.score == b.score && a.id < b.id)
  }

  /** Every reached page once, with its first best row, strongest first. */
  ghost predicate IsOutcome(reached: seq<Reached>, rows: seq<WalkRow>, scoring: Scoring)
    requires Walked(rows)
  {
    && (forall i :: 0 <= i < |reached| ==> scoring.IsBest(reached[i], rows))
    && (forall id :: Reaches(rows, id) ==> Listed(reached, id))
    && StrictlySorted(reached, StrongerReach)
  }

  // ----- the loop over the rows ------------------------------------------------------------------------

  /** The dictionary after some rows; order lists its keys. */
  ghost predicate BestSoFar(best: map<Id, Reached>, order: seq<Id>, rows: seq<WalkRow>, scoring: Scoring)
    requires Walked(rows)
  {
    && (forall id :: id in best <==> Reaches(rows, id))
    && (forall id :: id in best ==> best[id].id == id && scoring.IsBest(best[id], rows))
    && (forall i, j :: 0 <= i < j < |order| ==> order[i] != order[j])
    && (forall id :: id in order <==> id in best)
  }

  lemma BestGrows(rows: seq<WalkRow>, n: nat, scoring: Scoring, entry: Reached)
    requires Walked(rows) && n < |rows| && scoring.IsBest(entry, rows[..n])
    requires rows[n].id != entry.id || scoring.Score(rows[n]) <= entry.score
    ensures scoring.IsBest(entry, rows[..n + 1])
  {
    var k: nat :| scoring.FirstBest(rows[..n], k) && entry == scoring.Entry(rows[..n][k]);
    var next := rows[..n + 1];
    forall j | 0 <= j < |next| && next[j].id == next[k].id
      ensures scoring.Score(next[j]) <= scoring.Score(next[k])
      ensures j < k ==> scoring.Score(next[j]) < scoring.Score(next[k])
    {
      assert j < n ==> next[j] == rows[..n][j];
    }
    assert scoring.FirstBest(next, k);
  }

  lemma NewBest(rows: seq<WalkRow>, n: nat, scoring: Scoring)
    requires Walked(rows) && n < |rows|
    requires forall j :: 0 <= j < n && rows[j].id == rows[n].id ==> scoring.Score(rows[j]) < scoring.Score(rows[n])
    ensures scoring.IsBest(scoring.Entry(rows[n]), rows[..n + 1])
  {
    assert scoring.FirstBest(rows[..n + 1], n);
  }

  /** The best entry scores no less than any row of its page. */
  lemma BestBoundsRow(rows: seq<WalkRow>, scoring: Scoring, entry: Reached, j: nat)
    requires Walked(rows) && scoring.IsBest(entry, rows)
    requires j < |rows| && rows[j].id == entry.id
    ensures scoring.Score(rows[j]) <= entry.score
  {
    var k: nat :| scoring.FirstBest(rows, k) && entry == scoring.Entry(rows[k]);
  }

  lemma ReachesMore(rows: seq<WalkRow>, n: nat, id: Id)
    requires n < |rows|
    ensures Reaches(rows[..n + 1], id) <==> Reaches(rows[..n], id) || rows[n].id == id
  {
    if Reaches(rows[..n], id) {
      var j :| 0 <= j < n && rows[..n][j].id == id;
      assert rows[..n + 1][j].id == id;
    }
    if rows[n].id == id {
      assert rows[..n + 1][n].id == id;
    }
    if Reaches(rows[..n + 1], id) && rows[n].id != id {
      var j :| 0 <= j < n + 1 && rows[..n + 1][j].id == id;
      assert rows[..n][j].id == id;
    }
  }

  /** The best of a page over the rows so far bounds the next row, or the next row beats them all. */
  lemma NextRow(rows: seq<WalkRow>, n: nat, scoring: Scoring, best: map<Id, Reached>, order: seq<Id>)
    requires Walked(rows) && n < |rows| && BestSoFar(best, order, rows[..n], scoring)
    ensures var id := rows[n].id;
            id !in best || scoring.Score(rows[n]) > best[id].score ==>
              scoring.IsBest(scoring.Entry(rows[n]), rows[..n + 1])
  {
    var id := rows[n].id;
    if id !in best || scoring.Score(rows[n]) > best[id].score {
      forall j | 0 <= j < n && rows[j].id == id
        ensures scoring.Score(rows[j]) < scoring.Score(rows[n])
      {
        assert rows[..n][j].id == id;
        BestBoundsRow(rows[..n], scoring, best[id], j);
      }
      NewBest(rows, n, scoring);
    }
  }

  method ScoreRow(best0: map<Id, Reached>, order0: seq<Id>, rows: seq<WalkRow>, n: nat, scoring: Scoring)
    returns (best: map<Id, Reached>, order: seq<Id>)
    requires Walked(rows) && n < |rows| && BestSoFar(best0, order0, rows[..n], scoring)
    ensures BestSoFar(best, order, rows[..n + 1], scoring)
  {
    best, order := best0, order0;
    var row := rows[n];
    var score := scoring.Score(row);
    NextRow(rows, n, scoring, best0, order0);
    if row.id !in best || score > best[row.id].score {
      best := best[row.id := scoring.Entry(row)];
      if row.id !in best0 {
        order := order + [row.id];
      }
    }
    forall id: Id
      ensures id in best <==> Reaches(rows[..n + 1], id)
      ensures id in best ==> best[id].id == id && scoring.IsBest(best[id], rows[..n + 1])
    {
      ReachesMore(rows, n, id);
      if id in best0 && (id != row.id || score <= best0[id].score) {
        BestGrows(rows, n, scoring, best0[id]);
      }
    }
  }

  lemma StrongerIsKeyOrder()
    ensures KeyOrder(StrongerReach)
  {
  }

  /** The entries of the dictionary, in the order of its keys. */
  ghost predicate ListsBest(entries: seq<Reached>, best: map<Id, Reached>, order: seq<Id>) {
    |entries| == |order| && forall i :: 0 <= i < |order| ==> order[i] in best && entries[i] == best[order[i]]
  }

  lemma SortedBestsAreOutcome(
    best: map<Id, Reached>, order: seq<Id>, entries: seq<Reached>, rows: seq<WalkRow>, scoring: Scoring)
    requires Walked(rows) && BestSoFar(best, order, rows, scoring) && ListsBest(entries, best, order)
    ensures IsOutcome(StableSort(entries, StrongerReach), rows, scoring)
  {
    var reached := StableSort(entries, StrongerReach);
    StrongerIsKeyOrder();
    EntriesSeparated(best, order, entries);
    StrictSort(entries, StrongerReach);
    ReachedAreBest(best, order, entries, rows, scoring, reached);
    ReachedAreAll(best, order, entries, rows, scoring, reached);
  }

  lemma ReachedAreBest(best: map<Id, Reached>, order: seq<Id>, entries: seq<Reached>, rows: seq<WalkRow>,
                       scoring: Scoring, reached: seq<Reached>)
    requires Walked(rows) && BestSoFar(best, order, rows, scoring) && ListsBest(entries, best, order)
    requires forall x :: x in reached ==> x in entries
    ensures forall i :: 0 <= i < |reached| ==> scoring.IsBest(reached[i], rows)
  {
    forall i | 0 <= i < |reached|
      ensures scoring.IsBest(reached[i], rows)
    {
      assert reached[i] in reached;
      EntryIsBest(best, order, entries, rows, scoring, reached[i]);
    }
  }

  lemma ReachedAreAll(best: map<Id, Reached>, order: seq<Id>, entries: seq<Reached>, rows: seq<WalkRow>,
                      scoring: Scoring, reached: seq<Reached>)
    requires Walked(rows) && BestSoFar(best, order, rows, scoring) && ListsBest(entries, best, order)
    requires forall x :: x in entries ==> x in reached
    ensures forall id :: Reaches(rows, id) ==> Listed(reached, id)
  {
    forall id | Reaches(rows, id)
      ensures Listed(reached, id)
    {
      var e := EntryOf(best, order, entries, rows, scoring, id);
      ElementIsListed(reached, e);
    }
  }

  lemma ElementIsListed(reached: seq<Reached>, e: Reached)
    requires e in reached
    ensures Listed(reached, e.id)
  {
    var i :| 0 <= i < |reached| && reached[i] == e;
  }

  lemma EntriesSeparated(best: map<Id, Reached>, order: seq<Id>, entries: seq<Reached>)
    requires forall id :: id in best ==> best[id].id == id
    requires forall i, j :: 0 <= i < j < |order| ==> order[i] != order[j]
    requires ListsBest(entries, best, order)
    ensures Separated(entries, StrongerReach)
  {
    assert forall i :: 0 <= i < |order| ==> entries[i].id == order[i];
  }

  lemma EntryIsBest(best: map<Id, Reached>, order: seq<Id>, entries: seq<Reached>, rows: seq<WalkRow>,
                    scoring: Scoring, e: Reached)
    requires Walked(rows) && BestSoFar(best, order, rows, scoring) && ListsBest(entries, best, order)
    requires e in entries
    ensures scoring.IsBest(e, rows)
  {
    var j :| 0 <= j < |entries| && entries[j] == e;
  }

  lemma EntryOf(best: map<Id, Reached>, order: seq<Id>, entries: seq<Reached>, rows: seq<WalkRow>,
                scoring: Scoring, id: Id)
    returns (e: Reached)
    requires Walked(rows) && BestSoFar(best, order, rows, scoring) && ListsBest(entries, best, order)
    requires Reaches(rows, id)
    ensures e in entries && e.id == id
  {
    assert id in order;
    var j :| 0 <= j < |order| && order[j] == id;
    e := entries[j];
  }

  lemma KeysAreKnown(best: map<Id, Reached>, order: seq<Id>, rows: seq<WalkRow>, scoring: Scoring)
    requires Walked(rows) && BestSoFar(best, order, rows, scoring)
    ensures forall i :: 0 <= i < |order| ==> order[i] in best
  {
    forall i | 0 <= i < |order|
      ensures order[i] in best
    {
      assert order[i] in order;
    }
  }

  method ScoreReached(rows: seq<WalkRow>, scoring: Scoring) returns (reached: seq<Reached>)
    requires Walked(rows)
    ensures IsOutcome(reached, rows, scoring)
  {
    var best: map<Id, Reached>, order: seq<Id> := map[], [];
    var n := 0;
    while n < |rows|
      invariant n <= |rows|
      invariant BestSoFar(best, order, rows[..n], scoring)
    {
      best, order := ScoreRow(best, order, rows, n, scoring);
      n := n + 1;
    }
    assert rows[..n] == rows;
    KeysAreKnown(best, order, rows, scoring);
    var entries := seq(|order|, i requires 0 <= i < |order| && order[i] in best => best[order[i]]);
    reached := StableSort(entries, StrongerReach);
    SortedBestsAreOutcome(best, order, entries, rows, scoring);
  }

  // ----- what scoring promises ---------------------------------------------------------------------------

  /** A page one hop from its seed scores weight times the seed's score; every further hop multiplies by decay. */
  lemma HopsDecay(scoring: Scoring, row: WalkRow)
    requires row.hop >= 1 && row.seedId in scoring.seeds
    ensures row.hop == 1 ==> scoring.Score(row) == scoring.seeds[row.seedId] * scoring.weight
    ensures scoring.Score(row.(hop := row.hop + 1)) == scoring.Score(row) * scoring.decay
  {
    var strength, fading := Times(scoring.seeds[row.seedId], scoring.weight), Pow(scoring.decay, row.hop - 1);
    assert Pow(scoring.decay, row.hop) == Times(scoring.decay, fading);
    Reassociate(strength, scoring.decay, fading);
  }

  lemma Reassociate(a: real, b: real, c: real)
    ensures Times(a, Times(b, c)) == Times(a, c) * b
  {
  }

  /** The reached pages come strongest first, among equal scores by id. */
  lemma ReachedOrder(reached: seq<Reached>, rows: seq<WalkRow>, scoring: Scoring, i: nat, j: nat)
    requires Walked(rows) && IsOutcome(reached, rows, scoring) && i < j < |reached|
    ensures var a, b := reached[i], reached[j]; a.score > b.score || (a.score == b.score && a.id < b.id)
  {
    assert StrongerReach(reached[i], reached[j]);
  }

  /** Each reached page is a row of the walk, the first of those with the page's best score. */
  lemma ReachedIsBestRow(reached: seq<Reached>, rows: seq<WalkRow>, scoring: Scoring, i: nat) returns (k: nat)
    requires Walked(rows) && IsOutcome(reached, rows, scoring) && i < |reached|
    ensures k < |rows| && rows[k].id == reached[i].id && rows[k].title == reached[i].title
    ensures rows[k].hop == reached[i].hop && rows[k].seedId == reached[i].seedId
    ensures reached[i].score == scoring.Score(rows[k])
    ensures forall j :: 0 <= j < |rows| && rows[j].id == rows[k].id ==>
              scoring.Score(rows[j]) <= reached[i].score && (j < k ==> scoring.Score(rows[j]) < reached[i].score)
  {
    assert scoring.IsBest(reached[i], rows);
    k :| scoring.FirstBest(rows, k) && reached[i] == scoring.Entry(rows[k]);
  }

  /** The rows and settings determine the reached pages, their scores and their order. */
  lemma OutcomeIsDetermined(a: seq<Reached>, b: seq<Reached>, rows: seq<WalkRow>, scoring: Scoring)
    requires Walked(rows) && IsOutcome(a, rows, scoring) && IsOutcome(b, rows, scoring)
    ensures a == b
  {
    StrongerIsKeyOrder();
    forall x | x in a
      ensures x in b
    {
      OutcomeHolds(a, b, rows, scoring, x);
    }
    forall x | x in b
      ensures x in a
    {
      OutcomeHolds(b, a, rows, scoring, x);
    }
    StrictIsUnique(a, b, StrongerReach);
  }

  lemma OutcomeHolds(a: seq<Reached>, b: seq<Reached>, rows: seq<WalkRow>, scoring: Scoring, x: Reached)
    requires Walked(rows) && IsOutcome(a, rows, scoring) && IsOutcome(b, rows, scoring) && x in a
    ensures x in b
  {
    var i :| 0 <= i < |a| && a[i] == x;
    var k: nat :| scoring.FirstBest(rows, k) && x == scoring.Entry(rows[k]);
    assert Reaches(rows, x.id);
    var j :| 0 <= j < |b| && b[j].id == x.id;
    var m: nat :| scoring.FirstBest(rows, m) && b[j] == scoring.Entry(rows[m]);
    assert k == m;
  }

  lemma {:induction false} PowInRange(base: real, n: nat)
    requires 0.0 <= base <= 1.0
    ensures 0.0 <= Pow(base, n) <= 1.0
  {
    if n > 0 {
      PowInRange(base, n - 1);
      ProductInRange(base, Pow(base, n - 1));
    }
  }

  lemma ProductInRange(a: real, b: real)
    requires 0.0 <= a && 0.0 <= b <= 1.0
    ensures 0.0 <= Times(a, b) <= a
  {
  }

  lemma TimesKeepsOrder(a: real, b: real, weight: real)
    requires a <= b && 0.0 <= weight
    ensures Times(a, weight) <= Times(b, weight)
  {
  }

  predicate Damping(scoring: Scoring) {
    scoring.weight >= 0.0 && 0.0 <= scoring.decay <= 1.0
  }

  /** No walk row scores above its seed's weighted score, at any distance. */
  lemma RowBelowSeed(row: WalkRow, scoring: Scoring)
    requires row.hop >= 1 && Damping(scoring) && scoring.SeedScore(row.seedId) >= 0.0
    ensures 0.0 <= scoring.Score(row) <= Times(scoring.SeedScore(row.seedId), scoring.weight)
  {
    PowInRange(scoring.decay, row.hop - 1);
    TimesKeepsOrder(0.0, scoring.SeedScore(row.seedId), scoring.weight);
    var strength, fading := Times(scoring.SeedScore(row.seedId), scoring.weight), Pow(scoring.decay, row.hop - 1);
    assert strength >= 0.0;
    ProductInRange(strength, fading);
  }

  /** Every seed score lies between 0 and the given best. */
  ghost predicate SeedsWithin(scoring: Scoring, best: real) {
    best >= 0.0 && forall id :: id in scoring.seeds ==> 0.0 <= scoring.seeds[id] <= best
  }

  lemma RowBelowBestSeed(row: WalkRow, scoring: Scoring, best: real)
    requires row.hop >= 1 && Damping(scoring) && SeedsWithin(scoring, best)
    ensures 0.0 <= scoring.Score(row) <= Times(best, scoring.weight)
  {
    RowBelowSeed(row, scoring);
    TimesKeepsOrder(scoring.SeedScore(row.seedId), best, scoring.weight);
  }

  /** Every reached page scores at most weight times the best seed. */
  lemma ReachedBelowBestSeed(reached: seq<Reached>, rows: seq<WalkRow>, scoring: Scoring, best: real, i: nat)
    requires Walked(rows) && IsOutcome(reached, rows, scoring) && Damping(scoring) && SeedsWithin(scoring, best)
    requires i < |reached|
    ensures 0.0 <= reached[i].score <= Times(best, scoring.weight)
  {
    assert scoring.IsBest(reached[i], rows);
    var k: nat :| scoring.FirstBest(rows, k) && reached[i] == scoring.Entry(rows[k]);
    RowBelowBestSeed(rows[k], scoring, best);
  }

  // ----- merging into the direct hits ----------------------------------------------------------------------

  datatype Page = Page(id: Id, score: real, ranks: map<string, nat>)

  function FromHit(hit: FusedHit): Page {
    Page(hit.id, hit.score, hit.ranks)
  }

  function FromReached(r: Reached): Page {
    Page(r.id, r.score, map["expansion_hop" := r.hop])
  }

  /** key=-score */
  predicate Higher(a: Page, b: Page) {
    a.score > b.score
  }

  function Take<T>(s: seq<T>, n: nat): seq<T> {
    if n < |s| then s[..n] else s
  }

  function DirectHits(fused: seq<FusedHit>, topK: nat): seq<Page> {
    seq(|Take(fused, topK)|, i requires 0 <= i < |Take(fused, topK)| => FromHit(Take(fused, topK)[i]))
  }

  function SeedScores(fused: seq<FusedHit>): map<Id, real> {
    if fused == [] then map[]
    else SeedScores(fused[..|fused| - 1])[fused[|fused| - 1].id := fused[|fused| - 1].score]
  }

  predicate Present(pages: seq<Page>, id: Id) {
    exists i :: 0 <= i < |pages| && pages[i].id == id
  }

  /** The reached pages that are no direct hits. */
  function Extras(pages: seq<Page>, reached: seq<Reached>): seq<Page> {
    if reached == [] then []
    else
      var r := reached[|reached| - 1];
      Extras(pages, reached[..|reached| - 1]) + if Present(pages, r.id) then [] else [FromReached(r)]
  }

  function Merged(pages: seq<Page>, reached: seq<Reached>, topK: nat): seq<Page> {
    var extras := Extras(pages, reached);
    if extras == [] then pages else Take(StableSort(pages + extras, Higher), topK)
  }

  /** The expansion stage of a query: seeds are the best fused hits, and what the walk from them reached
      competes with the direct hits for the top_k places. */
  method ExpandPages(fused: seq<FusedHit>, topK: nat, enabled: bool, seedK: nat, rows: seq<WalkRow>, decay: real,
                     weight: real)
    returns (pages: seq<Page>, reached: seq<Reached>)
    requires Walked(rows)
    ensures if enabled && fused != [] then
              && IsOutcome(reached, rows, Scoring(SeedScores(Take(fused, seedK)), decay, weight))
              && pages == Merged(DirectHits(fused, topK), reached, topK)
            else
              reached == [] && pages == DirectHits(fused, topK)
  {
    pages, reached := DirectHits(fused, topK), [];
    if enabled && fused != [] {
      reached := ScoreReached(rows, Scoring(SeedScores(Take(fused, seedK)), decay, weight));
      var extras: seq<Page> := [];
      var n := 0;
      while n < |reached|
        invariant n <= |reached|
        invariant extras == Extras(pages, reached[..n])
      {
        assert reached[..n + 1][..n] == reached[..n];
        if !Present(pages, reached[n].id) {
          extras := extras + [FromReached(reached[n])];
        }
        n := n + 1;
      }
      assert reached[..n] == reached;
      if extras != [] {
        pages := Take(StableSort(pages + extras, Higher), topK);
      }
    }
  }

  // ----- what merging promises -------------------------------------------------------------------------------

  ghost predicate DistinctPages(pages: seq<Page>) {
    forall i, j :: 0 <= i < j < |pages| ==> pages[i].id != pages[j].id
  }

  ghost predicate DistinctReached(reached: seq<Reached>) {
    forall i, j :: 0 <= i < j < |reached| ==> reached[i].id != reached[j].id
  }

  /** The pages of s that are direct hits, in their order. */
  function Direct(s: seq<Page>, pages: seq<Page>): seq<Page> {
    if s == [] then []
    else
      Direct(s[..|s| - 1], pages) + if Present(pages, s[|s| - 1].id) then [s[|s| - 1]] else []
  }

  lemma {:induction false} DirectSplits(a: seq<Page>, b: seq<Page>, pages: seq<Page>)
    ensures Direct(a + b, pages) == Direct(a, pages) + Direct(b, pages)
    decreases |b|
  {
    if b == [] {
      assert a + b == a;
    } else {
      assert (a + b)[..|a + b| - 1] == a + b[..|b| - 1];
      DirectSplits(a, b[..|b| - 1], pages);
    }
  }

  /** Taking part in the sort does not reorder the direct hits. */
  lemma DirectIgnoresInsert(s: seq<Page>, x: Page, pages: seq<Page>)
    requires !Present(pages, x.id)
    ensures Direct(Insert(s, x, Higher), pages) == Direct(s, pages)
  {
    var p := Place(s, x, Higher);
    assert s == s[..p] + s[p..];
    DirectSplits(s[..p], s[p..], pages);
    DirectSplits(s[..p] + [x], s[p..], pages);
    assert (s[..p] + [x])[..p] == s[..p];
  }

  lemma HigherIsKeyOrder()
    ensures KeyOrder(Higher)
  {
  }

  /** Where s holds the direct hits in order, and the strong ones of them in place. */
  ghost predicate Keeps(s: seq<Page>, pages: seq<Page>, bound: real) {
    && SortedBy(s, Higher)
    && Direct(s, pages) == pages
    && |pages| <= |s|
    && forall i :: 0 <= i < |pages| && pages[i].score >= bound ==> s[i] == pages[i]
  }

  lemma InsertKeeps(s: seq<Page>, x: Page, pages: seq<Page>, bound: real)
    requires Keeps(s, pages, bound) && !Present(pages, x.id) && x.score <= bound
    ensures Keeps(Insert(s, x, Higher), pages, bound)
  {
    HigherIsKeyOrder();
    InsertSorts(s, x, Higher);
    DirectIgnoresInsert(s, x, pages);
    PlaceSplits(s, x, Higher);
    var p, t := Place(s, x, Higher), Insert(s, x, Higher);
    forall i | 0 <= i < |pages| && pages[i].score >= bound
      ensures t[i] == pages[i]
    {
      assert !Higher(x, s[i]);
    }
  }

  lemma {:induction false} MergeKeeps(pages: seq<Page>, extras: seq<Page>, bound: real)
    requires SortedBy(pages, Higher)
    requires forall i :: 0 <= i < |extras| ==> !Present(pages, extras[i].id) && extras[i].score <= bound
    ensures Keeps(StableSort(pages + extras, Higher), pages, bound)
    decreases |extras|
  {
    if extras == [] {
      assert pages + extras == pages;
      HigherIsKeyOrder();
      SortOfSorted(pages, Higher);
      DirectOfDirect(pages, pages);
    } else {
      var init, x := extras[..|extras| - 1], extras[|extras| - 1];
      MergeKeeps(pages, init, bound);
      assert pages + extras == (pages + init) + [x];
      SortAppends(pages + init, x, Higher);
      InsertKeeps(StableSort(pages + init, Higher), x, pages, bound);
    }
  }

  lemma {:induction false} DirectOfDirect(s: seq<Page>, pages: seq<Page>)
    requires forall i :: 0 <= i < |s| ==> Present(pages, s[i].id)
    ensures Direct(s, pages) == s
  {
    if s != [] {
      var init := s[..|s| - 1];
      assert forall i :: 0 <= i < |init| ==> init[i] == s[i];
      DirectOfDirect(init, pages);
      assert s == init + [s[|s| - 1]];
    }
  }

  /** Every extra page comes from a reached one. */
  lemma {:induction false} ExtraComesFrom(pages: seq<Page>, reached: seq<Reached>, i: nat)
    requires i < |Extras(pages, reached)|
    ensures var x := Extras(pages, reached)[i];
            !Present(pages, x.id) && exists j :: 0 <= j < |reached| && x == FromReached(reached[j])
  {
    var init := reached[..|reached| - 1];
    if i < |Extras(pages, init)| {
      ExtraComesFrom(pages, init, i);
      var j :| 0 <= j < |init| && Extras(pages, init)[i] == FromReached(init[j]);
      assert reached[j] == init[j];
    } else {
      assert Extras(pages, reached)[i] == FromReached(reached[|reached| - 1]);
    }
  }

  lemma {:induction false} ExtrasDistinct(pages: seq<Page>, reached: seq<Reached>)
    requires DistinctReached(reached)
    ensures DistinctPages(Extras(pages, reached))
  {
    if reached != [] {
      var init, r := reached[..|reached| - 1], reached[|reached| - 1];
      ExtrasDistinct(pages, init);
      forall i | 0 <= i < |Extras(pages, init)|
        ensures Extras(pages, init)[i].id != r.id
      {
        ExtraComesFrom(pages, init, i);
      }
    }
  }

  lemma InsertDistinct(s: seq<Page>, x: Page)
    requires DistinctPages(s) && !Present(s, x.id)
    ensures DistinctPages(Insert(s, x, Higher))
  {
    var p, t := Place(s, x, Higher), Insert(s, x, Higher);
    forall i, j | 0 <= i < j < |t|
      ensures t[i].id != t[j].id
    {
      assert i != p ==> t[i] == s[if i < p then i else i - 1];
      assert j != p ==> t[j] == s[if j < p then j else j - 1];
    }
  }

  lemma {:induction false} SortDistinct(xs: seq<Page>)
    requires DistinctPages(xs)
    ensures DistinctPages(StableSort(xs, Higher))
  {
    if xs != [] {
      var init, x := xs[..|xs| - 1], xs[|xs| - 1];
      SortDistinct(init);
      var s := StableSort(init, Higher);
      forall i | 0 <= i < |s|
        ensures s[i].id != x.id
      {
        StableSortPermutes(init, Higher);
        FoundIn(s, init, i);
      }
      InsertDistinct(s, x);
    }
  }

  lemma {:induction false} TakeDirect(s: seq<Page>, pages: seq<Page>, n: nat)
    ensures Direct(Take(s, n), pages) <= Direct(s, pages)
  {
    if n < |s| {
      assert s == s[..n] + s[n..];
      DirectSplits(s[..n], s[n..], pages);
    }
  }

  ghost predicate Spares(merged: seq<Page>, pages: seq<Page>, topK: nat, bound: real) {
    && |pages| <= |merged| <= topK
    && DistinctPages(merged)
    && SortedBy(merged, Higher)
    && Direct(merged, pages) <= pages
    && forall i :: 0 <= i < |pages| && pages[i].score >= bound ==> merged[i] == pages[i]
  }

  /** Expansion cannot displace strong direct hits. Given direct hits in score order and reached pages that
      score at most bound: the result has distinct ids and at most top_k pages, the direct hits it keeps
      are the first ones in their old order, and each direct hit scoring at least bound keeps its rank. */
  lemma MergeSparesStrongHits(pages: seq<Page>, reached: seq<Reached>, topK: nat, bound: real)
    requires SortedBy(pages, Higher) && DistinctPages(pages) && |pages| <= topK && DistinctReached(reached)
    requires forall j :: 0 <= j < |reached| ==> reached[j].score <= bound
    ensures Spares(Merged(pages, reached, topK), pages, topK, bound)
  {
    var extras := Extras(pages, reached);
    forall i | 0 <= i < |extras|
      ensures !Present(pages, extras[i].id) && extras[i].score <= bound
    {
      ExtraComesFrom(pages, reached, i);
    }
    if extras == [] {
      DirectOfDirect(pages, pages);
    } else {
      MergeKeeps(pages, extras, bound);
      var s := StableSort(pages + extras, Higher);
      TakeDirect(s, pages, topK);
      ExtrasDistinct(pages, reached);
      DistinctUnion(pages, extras);
      SortDistinct(pages + extras);
    }
  }

  lemma DistinctUnion(pages: seq<Page>, extras: seq<Page>)
    requires DistinctPages(pages) && DistinctPages(extras)
    requires forall i :: 0 <= i < |extras| ==> !Present(pages, extras[i].id)
    ensures DistinctPages(pages + extras)
  {
    var all := pages + extras;
    forall i, j | 0 <= i < j < |all|
      ensures all[i].id != all[j].id
    {
      if i < |pages| <= j {
        assert !Present(pages, extras[j - |pages|].id);
      }
    }
  }

  /** Nothing left out outranks what was kept. */
  lemma MergeKeepsTheBest(pages: seq<Page>, reached: seq<Reached>, topK: nat, x: Page, kept: nat)
    requires SortedBy(pages, Higher) && |pages| <= topK
    requires x in pages + Extras(pages, reached) && x !in Merged(pages, reached, topK)
    requires kept < |Merged(pages, reached, topK)|
    ensures x.score <= Merged(pages, reached, topK)[kept].score
  {
    var all := pages + Extras(pages, reached);
    var s := StableSort(all, Higher);
    HigherIsKeyOrder();
    StableSortSorts(all, Higher);
    StableSortPermutes(all, Higher);
    SameElements(s, all);
    if Extras(pages, reached) != [] {
      assert x in s;
      var i :| 0 <= i < |s| && s[i] == x;
      assert !Higher(s[i], s[kept]);
    }
  }

  /** The direct hits are the first fused hits, as many as fit. */
  lemma DirectHitsAreFirst(fused: seq<FusedHit>, topK: nat, i: nat)
    ensures |DirectHits(fused, topK)| == if topK < |fused| then topK else |fused|
    ensures i < |DirectHits(fused, topK)| ==>
              DirectHits(fused, topK)[i] == Page(fused[i].id, fused[i].score, fused[i].ranks)
  {
  }

  lemma {:induction false} ReachedIsExtra(pages: seq<Page>, reached: seq<Reached>, j: nat)
    requires j < |reached| && !Present(pages, reached[j].id)
    ensures FromReached(reached[j]) in Extras(pages, reached)
  {
    if j < |reached| - 1 {
      ReachedIsExtra(pages, reached[..|reached| - 1], j);
    }
  }

  lemma MergedIsFull(pages: seq<Page>, reached: seq<Reached>, topK: nat, x: Page)
    requires x in Extras(pages, reached) && x !in Merged(pages, reached, topK)
    ensures |Merged(pages, reached, topK)| == topK
  {
    var all := pages + Extras(pages, reached);
    StableSortPermutes(all, Higher);
    SameElements(StableSort(all, Higher), all);
    assert x in all && x in StableSort(all, Higher);
  }

  /** A reached page that is no direct hit gets its place among the pages, marked with its hops, unless the places
      are taken by pages that score no less. */
  lemma ReachedPageIsPlaced(pages: seq<Page>, reached: seq<Reached>, topK: nat, j: nat)
    requires SortedBy(pages, Higher) && |pages| <= topK
    requires j < |reached| && !Present(pages, reached[j].id)
    ensures var merged, r := Merged(pages, reached, topK), reached[j];
            || Page(r.id, r.score, map["expansion_hop" := r.hop]) in merged
            || (|merged| == topK && forall i :: 0 <= i < |merged| ==> merged[i].score >= r.score)
  {
    var merged, x := Merged(pages, reached, topK), FromReached(reached[j]);
    ReachedIsExtra(pages, reached, j);
    if x !in merged {
      MergedIsFull(pages, reached, topK, x);
      forall i | 0 <= i < |merged|
        ensures merged[i].score >= x.score
      {
        MergeKeepsTheBest(pages, reached, topK, x, i);
      }
    }
  }

  // ----- the whole stage ---------------------------------------------------------------------------------------

  lemma {:induction false} SeedScoresComeFrom(fused: seq<FusedHit>, id: Id)
    requires id in SeedScores(fused)
    ensures exists i :: 0 <= i < |fused| && fused[i].id == id && SeedScores(fused)[id] == fused[i].score
  {
    var n := |fused| - 1;
    if fused[n].id != id {
      SeedScoresComeFrom(fused[..n], id);
      var i :| 0 <= i < n && fused[..n][i].id == id && SeedScores(fused[..n])[id] == fused[..n][i].score;
      assert fused[i].id == id;
    }
  }

  lemma SeedsBelowFirst(fused: seq<FusedHit>, seedK: nat, scoring: Scoring)
    requires StrictlyRanked(fused) && fused != [] && scoring.seeds == SeedScores(Take(fused, seedK))
    requires forall i :: 0 <= i < |fused| ==> fused[i].score > 0.0
    ensures SeedsWithin(scoring, fused[0].score)
  {
    var seeds := Take(fused, seedK);
    forall id | id in scoring.seeds
      ensures 0.0 <= scoring.seeds[id] <= fused[0].score
    {
      SeedScoresComeFrom(seeds, id);
      var i :| 0 <= i < |seeds| && seeds[i].id == id && scoring.seeds[id] == seeds[i].score;
      assert i == 0 || RanksBefore(fused[0], fused[i]);
    }
  }

  /** For a ranking of positive scores, settings weight >= 0 and 0 <= decay <= 1, and any walk: every direct
      hit that scores at least weight times the best fused score keeps its rank, and the direct hits that
      remain keep their order. */
  lemma ExpansionSparesStrongHits(
    fused: seq<FusedHit>, topK: nat, seedK: nat, rows: seq<WalkRow>, decay: real, weight: real, reached: seq<Reached>)
    requires StrictlyRanked(fused) && fused != [] && Walked(rows)
    requires forall i :: 0 <= i < |fused| ==> fused[i].score > 0.0
    requires forall i, j :: 0 <= i < j < |fused| ==> fused[i].id != fused[j].id
    requires weight >= 0.0 && 0.0 <= decay <= 1.0
    requires IsOutcome(reached, rows, Scoring(SeedScores(Take(fused, seedK)), decay, weight))
    ensures Spares(Merged(DirectHits(fused, topK), reached, topK), DirectHits(fused, topK), topK,
                   Times(fused[0].score, weight))
  {
    var scoring := Scoring(SeedScores(Take(fused, seedK)), decay, weight);
    var best := fused[0].score;
    SeedsBelowFirst(fused, seedK, scoring);
    forall j | 0 <= j < |reached|
      ensures reached[j].score <= Times(best, weight)
    {
      ReachedBelowBestSeed(reached, rows, scoring, best, j);
    }
    OutcomeIsDistinct(reached, rows, scoring);
    DirectHitsRanked(fused, topK);
    MergeSparesStrongHits(DirectHits(fused, topK), reached, topK, Times(best, weight));
  }

  lemma FusedIdsDiffer(lists: seq<RankedList>, k: int, fused: seq<FusedHit>)
    requires IsFusion(fused, lists, k)
    ensures forall i, j :: 0 <= i < j < |fused| ==> fused[i].id != fused[j].id
  {
    forall i, j | 0 <= i < j < |fused|
      ensures fused[i].id != fused[j].id
    {
      assert RanksBefore(fused[i], fused[j]);
      assert fused[i] == Entry(lists, k, fused[i].id) && fused[j] == Entry(lists, k, fused[j].id);
    }
  }

  /** The same from the ranked lists on: fuse with a setting of at least -1, expand, merge. With -1 a fusion
      that does not fail has no hits. */
  lemma QuerySparesStrongHits(
    lists: seq<RankedList>, k: int, fused: seq<FusedHit>, topK: nat, seedK: nat, rows: seq<WalkRow>, decay: real,
    weight: real, reached: seq<Reached>)
    requires k >= -1 && !DividesByZero(lists, k)
    requires IsFusion(fused, lists, k) && fused != [] && Walked(rows)
    requires weight >= 0.0 && 0.0 <= decay <= 1.0
    requires IsOutcome(reached, rows, Scoring(SeedScores(Take(fused, seedK)), decay, weight))
    ensures Spares(Merged(DirectHits(fused, topK), reached, topK), DirectHits(fused, topK), topK,
                   Times(fused[0].score, weight))
  {
    FusedIdsDiffer(lists, k, fused);
    if k == -1 {
      MinusOneFails(lists, fused[0].id);
    }
    forall i | 0 <= i < |fused|
      ensures fused[i].score > 0.0
    {
      ScorePositive(lists, k, fused[i].id);
    }
    ExpansionSparesStrongHits(fused, topK, seedK, rows, decay, weight, reached);
  }

  /** With the setting -1 the first hit of every list divides by 0. */
  lemma MinusOneFails(lists: seq<RankedList>, id: Id)
    requires Appears(lists, id)
    ensures DividesByZero(lists, -1)
  {
    var i :| 0 <= i < |lists| && InList(lists[i].hits, id);
    assert HitsZero(lists[i].hits, -1);
  }

  // ----- the best hit, for every setting -------------------------------------------------------------------------

  /** Every row of the walk starts from a seed. */
  predicate FromSeeds(rows: seq<WalkRow>, seeds: map<Id, real>) {
    forall i :: 0 <= i < |rows| ==> rows[i].seedId in seeds
  }

  /** The settings, weights up to 1, with which no query loses its best hit. */
  predicate KeepsBest(k: int, decay: real, weight: real) {
    k >= -1 || (decay == 1.0 && weight == 1.0)
  }

  /** A reached page never takes the first place from the best direct hit. This takes a fusion setting of at least
      -1, or neither decay nor weight; see below for the others. */
  lemma BestHitStaysFirst(
    lists: seq<RankedList>, k: int, fused: seq<FusedHit>, topK: nat, seedK: nat, rows: seq<WalkRow>, decay: real,
    weight: real, reached: seq<Reached>)
    requires KeepsBest(k, decay, weight) && 0.0 <= weight <= 1.0 && 0.0 <= decay <= 1.0
    requires !DividesByZero(lists, k) && IsFusion(fused, lists, k) && fused != [] && topK > 0
    requires Walked(rows) && FromSeeds(rows, SeedScores(Take(fused, seedK)))
    requires IsOutcome(reached, rows, Scoring(SeedScores(Take(fused, seedK)), decay, weight))
    ensures var merged := Merged(DirectHits(fused, topK), reached, topK);
            merged != [] && merged[0] == FromHit(fused[0])
  {
    var best, pages := fused[0].score, DirectHits(fused, topK);
    if k >= -1 {
      if k == -1 {
        MinusOneFails(lists, fused[0].id);
      }
      ScorePositive(lists, k, fused[0].id);
      ProductInRange(best, weight);
      QuerySparesStrongHits(lists, k, fused, topK, seedK, rows, decay, weight, reached);
    } else {
      var scoring := Scoring(SeedScores(Take(fused, seedK)), decay, weight);
      forall j | 0 <= j < |reached|
        ensures reached[j].score <= best
      {
        assert scoring.IsBest(reached[j], rows);
        var r: nat :| scoring.FirstBest(rows, r) && reached[j] == scoring.Entry(rows[r]);
        SeedBelowFirst(fused, seedK, rows[r].seedId);
        NoDecay(rows[r].hop - 1);
      }
      FusedIdsDiffer(lists, k, fused);
      OutcomeIsDistinct(reached, rows, scoring);
      DirectHitsRanked(fused, topK);
      MergeSparesStrongHits(pages, reached, topK, best);
    }
    assert pages[0] == FromHit(fused[0]);
  }

  lemma SeedBelowFirst(fused: seq<FusedHit>, seedK: nat, id: Id)
    requires StrictlyRanked(fused) && id in SeedScores(Take(fused, seedK))
    ensures fused != [] && SeedScores(Take(fused, seedK))[id] <= fused[0].score
  {
    var seeds := Take(fused, seedK);
    SeedScoresComeFrom(seeds, id);
    var i :| 0 <= i < |seeds| && seeds[i].id == id && SeedScores(seeds)[id] == seeds[i].score;
    assert i == 0 || RanksBefore(fused[0], fused[i]);
  }

  lemma {:induction false} NoDecay(n: nat)
    ensures Pow(1.0, n) == 1.0
  {
    if n > 0 {
      NoDecay(n - 1);
    }
  }

  /** With any other settings a query can lose its only hit: scores are negative, so a weight below 1, or decay on
      the second hop, lifts a reached page above its own seed. */
  lemma BestHitNeedsSettings(k: int, decay: real, weight: real, x: Id, y: Id)
    returns (fused: seq<FusedHit>, rows: seq<WalkRow>, reached: seq<Reached>)
    requires !KeepsBest(k, decay, weight) && 0.0 <= weight <= 1.0 && 0.0 <= decay <= 1.0 && x != y
    ensures var lists := [RankedList("a", [Hit(x, "")])];
            && !DividesByZero(lists, k) && IsFusion(fused, lists, k) && |fused| == 1
            && Walked(rows) && FromSeeds(rows, SeedScores(Take(fused, 1)))
            && IsOutcome(reached, rows, Scoring(SeedScores(Take(fused, 1)), decay, weight))
            && |Merged(DirectHits(fused, 1), reached, 1)| == 1
            && Merged(DirectHits(fused, 1), reached, 1)[0].id == y
  {
    var e := Entry([RankedList("a", [Hit(x, "")])], k, x);
    fused := [e];
    OnlyHit([RankedList("a", [Hit(x, "")])], k, x);
    OnlySeed(e);
    var scoring := Scoring(map[x := e.score], decay, weight);
    rows := [WalkRow(x, y, "", if weight < 1.0 then 1 else 2)];
    Lifted(rows[0], scoring, e.score);
    reached := [scoring.Entry(rows[0])];
    OnlyOutcome(rows, scoring);
    OneExtra(FromHit(e), reached[0]);
    assert DirectHits(fused, 1) == [FromHit(e)];
  }

  lemma OnlySeed(e: FusedHit)
    ensures SeedScores(Take([e], 1)) == map[e.id := e.score]
  {
    assert [e][..0] == [] && SeedScores([]) == map[];
  }

  lemma OnlyOutcome(rows: seq<WalkRow>, scoring: Scoring)
    requires |rows| == 1 && Walked(rows)
    ensures IsOutcome([scoring.Entry(rows[0])], rows, scoring)
  {
    var entry := scoring.Entry(rows[0]);
    assert scoring.FirstBest(rows, 0);
    assert scoring.IsBest(entry, rows);
    forall id | Reaches(rows, id)
      ensures Listed([entry], id)
    {
      assert [entry][0].id == id;
    }
  }

  lemma OnlyHit(lists: seq<RankedList>, k: int, x: Id)
    requires lists == [RankedList("a", [Hit(x, "")])] && k <= -2
    ensures !DividesByZero(lists, k) && IsFusion([Entry(lists, k, x)], lists, k)
    ensures Entry(lists, k, x).score < 0.0
  {
    assert lists[0].hits[0].id == x;
    assert InList(lists[0].hits, x) && Appears(lists, x);
    assert forall id :: Appears(lists, id) ==> id == x;
    ScoreNegative(lists, k, x);
    var r := [Entry(lists, k, x)];
    assert r[0].id == x;
  }

  lemma Lifted(row: WalkRow, scoring: Scoring, score: real)
    requires scoring.SeedScore(row.seedId) == score < 0.0
    requires (scoring.weight < 1.0 && row.hop == 1) || (scoring.weight == 1.0 && scoring.decay < 1.0 && row.hop == 2)
    ensures scoring.Score(row) > score
  {
    if row.hop == 1 {
      assert Pow(scoring.decay, 0) == 1.0;
      assert scoring.Score(row) == score * scoring.weight;
    } else {
      assert Pow(scoring.decay, 1) == Times(scoring.decay, Pow(scoring.decay, 0)) == scoring.decay;
      assert scoring.Score(row) == score * scoring.decay;
    }
  }

  lemma OneExtra(direct: Page, r: Reached)
    requires direct.id != r.id && r.score > direct.score
    ensures Merged([direct], [r], 1) == [FromReached(r)]
  {
    var extra := FromReached(r);
    assert [r][..0] == [] && Extras([direct], []) == [];
    assert Extras([direct], [r]) == [extra];
    var all := [direct] + [extra];
    assert all[..1] == [direct] && [direct][..0] == [];
    assert StableSort([direct], Higher) == [direct] by {
      assert StableSort([], Higher) == [];
    }
    assert Higher(extra, direct);
    assert Place([direct], extra, Higher) == 0;
    assert StableSort(all, Higher) == [extra, direct];
  }

  lemma DirectHitsRanked(fused: seq<FusedHit>, topK: nat)
    requires StrictlyRanked(fused)
    requires forall i, j :: 0 <= i < j < |fused| ==> fused[i].id != fused[j].id
    ensures SortedBy(DirectHits(fused, topK), Higher) && DistinctPages(DirectHits(fused, topK))
  {
    var pages := DirectHits(fused, topK);
    forall i, j | 0 <= i < j < |pages|
      ensures !Higher(pages[j], pages[i]) && pages[i].id != pages[j].id
    {
      assert RanksBefore(fused[i], fused[j]);
    }
  }

  lemma OutcomeIsDistinct(reached: seq<Reached>, rows: seq<WalkRow>, scoring: Scoring)
    requires Walked(rows) && IsOutcome(reached, rows, scoring)
    ensures DistinctReached(reached)
  {
    forall i, j | 0 <= i < j < |reached|
      ensures reached[i].id != reached[j].id
    {
      assert scoring.IsBest(reached[i], rows) && scoring.IsBest(reached[j], rows);
      var k: nat :| scoring.FirstBest(rows, k) && reached[i] == scoring.Entry(rows[k]);
      var m: nat :| scoring.FirstBest(rows, m) && reached[j] == scoring.Entry(rows[m]);
      assert StrongerReach(reached[i], reached[j]);
    }
  }
}
