/** The topic tree: walking parent links, and what the cycle rule of the vault lint says about them. */
module TopicTree {
  import opened Wrappers

  datatype Kind = Topic | OtherKind

  /** parent is "" when the page has none; id is "" on a page that was never written. */
  datatype Page = Page(kind: Kind, id: string, parent: string)

  // ----- the shared context ------------------------------------------------------------------------

  /** Pages by id; of pages that share an id the last one stays. */
  function ById(pages: seq<Page>): map<string, Page> {
    if pages == [] then map[]
    else
      var p := pages[|pages| - 1];
      var earlier := ById(pages[..|pages| - 1]);
      if p.id == "" then earlier else earlier[p.id := p]
  }

  function TopicIds(pages: seq<Page>): set<string> {
    set i | 0 <= i < |pages| && pages[i].kind.Topic? && pages[i].id != "" :: pages[i].id
  }

  predicate IsIndex(index: map<string, Page>) {
    forall id :: id in index ==> id != "" && index[id].id == id
  }

  lemma {:induction false} ByIdIsIndex(pages: seq<Page>)
    ensures IsIndex(ById(pages))
    ensures forall id :: id in ById(pages) ==> ById(pages)[id] in pages
  {
    if pages != [] {
      var init := pages[..|pages| - 1];
      ByIdIsIndex(init);
      assert forall p :: p in init ==> p in pages;
    }
  }

  ghost predicate DistinctIds(pages: seq<Page>) {
    && (forall i :: 0 <= i < |pages| ==> pages[i].id != "")
    && (forall i, j :: 0 <= i < j < |pages| ==> pages[i].id != pages[j].id)
  }

  /** With distinct ids every page is the one its id leads to. */
  lemma {:induction false} DistinctIdsIndexEveryPage(pages: seq<Page>, i: nat)
    requires DistinctIds(pages) && i < |pages|
    ensures pages[i].id in ById(pages) && ById(pages)[pages[i].id] == pages[i]
  {
    if i < |pages| - 1 {
      DistinctIdsIndexEveryPage(pages[..|pages| - 1], i);
    }
  }

  // ----- the chain of parents ------------------------------------------------------------------------

  /** The page a link leads to, if it leads anywhere. */
  function Follow(index: map<string, Page>, page: Page): Option<Page> {
    if page.parent != "" && page.parent in index then Some(index[page.parent]) else None
  }

  /** The page after n links. */
  function At(index: map<string, Page>, page: Page, n: nat): Option<Page> {
    if n == 0 then Some(page)
    else if At(index, page, n - 1).None? then None
    else Follow(index, At(index, page, n - 1).value)
  }

  /** After n links there is a page, and it names a parent. */
  predicate Onward(index: map<string, Page>, page: Page, n: nat) {
    At(index, page, n).Some? && At(index, page, n).value.parent != ""
  }

  /** Following links never reaches a parentless page or an id that leads nowhere. */
  ghost predicate Endless(index: map<string, Page>, page: Page) {
    forall n: nat :: At(index, page, n).Some?
  }

  predicate SameIdAt(index: map<string, Page>, page: Page, i: nat, j: nat) {
    Onward(index, page, i) && Onward(index, page, j)
    && At(index, page, i).value.id == At(index, page, j).value.id
  }

  /** The chain meets an id twice before it ends. */
  ghost predicate Revisits(index: map<string, Page>, page: Page) {
    exists i: nat, j: nat :: i < j && SameIdAt(index, page, i, j)
  }

  lemma {:induction false} EarlierOnward(index: map<string, Page>, page: Page, i: nat, j: nat)
    requires i < j && At(index, page, j).Some?
    ensures Onward(index, page, i)
    decreases j
  {
    if i < j - 1 {
      EarlierOnward(index, page, i, j - 1);
    }
  }

  /** Every page after the start comes from the index. */
  lemma FromIndex(index: map<string, Page>, page: Page, n: nat)
    requires IsIndex(index) && n > 0 && At(index, page, n).Some?
    ensures var q := At(index, page, n).value; q.id in index && index[q.id] == q
  {
  }

  // ----- the walk --------------------------------------------------------------------------------------

  predicate IdAt(index: map<string, Page>, page: Page, i: nat, id: string) {
    Onward(index, page, i) && At(index, page, i).value.id == id
  }

  /** The first pages of the chain, each naming a parent. */
  ghost predicate IsTrail(index: map<string, Page>, page: Page, trail: seq<Page>) {
    forall i {:trigger trail[i]} :: 0 <= i < |trail| ==> trail[i].parent != "" && At(index, page, i) == Some(trail[i])
  }

  /** seen holds the ids of the trail, and no id twice. */
  ghost predicate Seen(trail: seq<Page>, seen: set<string>) {
    && (forall i :: 0 <= i < |trail| ==> trail[i].id in seen)
    && (forall id :: id in seen ==> exists i :: 0 <= i < |trail| && trail[i].id == id)
    && (forall i, j :: 0 <= i < j < |trail| ==> trail[i].id != trail[j].id)
  }

  lemma SeenGoesOn(trail: seq<Page>, seen: set<string>, next: Page)
    requires Seen(trail, seen) && next.id !in seen
    ensures Seen(trail + [next], seen + {next.id})
  {
    var longer := trail + [next];
    forall id | id in seen + {next.id}
      ensures exists i :: 0 <= i < |longer| && longer[i].id == id
    {
      if id in seen {
        var i :| 0 <= i < |trail| && trail[i].id == id;
        assert longer[i].id == id;
      } else {
        assert longer[|trail|].id == id;
      }
    }
  }

  lemma WalkRepeats(index: map<string, Page>, page: Page, trail: seq<Page>, seen: set<string>)
    requires IsTrail(index, page, trail) && Seen(trail, seen)
    requires Onward(index, page, |trail|) && At(index, page, |trail|).value.id in seen
    ensures Revisits(index, page)
  {
    var i :| 0 <= i < |trail| && trail[i].id == At(index, page, |trail|).value.id;
    assert SameIdAt(index, page, i, |trail|);
  }

  lemma WalkEnds(index: map<string, Page>, page: Page, trail: seq<Page>, seen: set<string>)
    requires IsTrail(index, page, trail) && Seen(trail, seen) && !Onward(index, page, |trail|)
    ensures !Revisits(index, page)
  {
    forall i: nat, j: nat | i < j
      ensures !SameIdAt(index, page, i, j)
    {
      if |trail| < j && At(index, page, j).Some? {
        EarlierOnward(index, page, |trail|, j);
      }
      if j < |trail| {
        assert trail[i].id != trail[j].id;
      }
    }
  }

  /** The walk of the cycle rule. It always ends: it meets each id at most once. */
  method MeetsCycle(index: map<string, Page>, page: Page) returns (cycle: bool)
    requires IsIndex(index)
    ensures cycle <==> Revisits(index, page)
  {
    var seen: set<string> := {};
    var current := Some(page);
    ghost var trail: seq<Page> := [];
    while current.Some? && current.value.parent != ""
      invariant current == At(index, page, |trail|)
      invariant IsTrail(index, page, trail) && Seen(trail, seen)
      decreases ({page.id} + index.Keys) - seen
    {
      if current.value.id in seen {
        WalkRepeats(index, page, trail, seen);
        return true;
      }
      if trail != [] {
        FromIndex(index, page, |trail|);
      }
      SeenGoesOn(trail, seen, current.value);
      seen := seen + {current.value.id};
      trail := trail + [current.value];
      current := Follow(index, current.value);
    }
    WalkEnds(index, page, trail, seen);
    return false;
  }

  // ----- what the walk means -----------------------------------------------------------------------------

  lemma {:induction false} SamePageSameRest(index: map<string, Page>, page: Page, i: nat, j: nat, d: nat)
    requires At(index, page, i) == At(index, page, j)
    ensures At(index, page, i + d) == At(index, page, j + d)
  {
    if d > 0 {
      SamePageSameRest(index, page, i, j, d - 1);
    }
  }

  lemma {:induction false} RepeatGoesOn(index: map<string, Page>, page: Page, i: nat, j: nat, n: nat)
    requires i < j && At(index, page, i) == At(index, page, j) && At(index, page, j).Some?
    ensures At(index, page, n).Some?
    decreases n
  {
    if n < j {
      EarlierOnward(index, page, n, j);
    } else {
      SamePageSameRest(index, page, i, j, n - j);
      RepeatGoesOn(index, page, i, j, i + n - j);
    }
  }

  /** The id of the start leads back to the start, or it has none. */
  predicate Resolves(index: map<string, Page>, page: Page) {
    page.id == "" || (page.id in index && index[page.id] == page)
  }

  /** Soundness: for a page its id leads to, meeting an id twice means that the links never end. */
  lemma RevisitIsEndless(index: map<string, Page>, page: Page)
    requires IsIndex(index) && Resolves(index, page) && Revisits(index, page)
    ensures Endless(index, page)
  {
    var i: nat, j: nat :| i < j && SameIdAt(index, page, i, j);
    FromIndex(index, page, j);
    if i > 0 {
      FromIndex(index, page, i);
    }
    forall n: nat
      ensures At(index, page, n).Some?
    {
      RepeatGoesOn(index, page, i, j, n);
    }
  }

  /** The ids met at positions 1 to m. */
  ghost function Met(index: map<string, Page>, page: Page, m: nat): set<string>
    requires Endless(index, page)
  {
    if m == 0 then {} else Met(index, page, m - 1) + {At(index, page, m).value.id}
  }

  lemma {:induction false} MetDistinct(index: map<string, Page>, page: Page, m: nat)
    requires IsIndex(index) && Endless(index, page) && !Revisits(index, page)
    ensures |Met(index, page, m)| == m && Met(index, page, m) <= index.Keys
    ensures forall id :: id in Met(index, page, m)
              ==> exists i: nat :: 1 <= i <= m && IdAt(index, page, i, id)
  {
    if m > 0 {
      MetDistinct(index, page, m - 1);
      FromIndex(index, page, m);
      EarlierOnward(index, page, m, m + 1);
      var id := At(index, page, m).value.id;
      assert IdAt(index, page, m, id);
      forall i: nat | 1 <= i <= m - 1
        ensures !IdAt(index, page, i, id)
      {
        assert !SameIdAt(index, page, i, m);
      }
    }
  }

  lemma SubsetIsNoLarger<T>(a: set<T>, b: set<T>)
    requires a <= b
    ensures |a| <= |b|
  {
    assert b == a + (b - a);
  }

  /** Completeness: links that never end meet an id twice, since the vault is finite. */
  lemma EndlessRevisits(index: map<string, Page>, page: Page)
    requires IsIndex(index) && Endless(index, page)
    ensures Revisits(index, page)
  {
    if !Revisits(index, page) {
      var m := |index.Keys| + 1;
      MetDistinct(index, page, m);
      SubsetIsNoLarger(Met(index, page, m), index.Keys);
    }
  }

  /** A page that shares its id with another may be reported although its links do end: p (id x) has the
      parent y, y has the parent x, and x leads to another page, whose parent is the root. */
  lemma SharedIdIsReportedWrongly()
    ensures var pages := [Page(Topic, "x", "y"), Page(Topic, "y", "x"), Page(Topic, "x", "r"), Page(Topic, "r", "")];
            Revisits(ById(pages), pages[0]) && !Endless(ById(pages), pages[0])
  {
    var p, y, q, r := Page(Topic, "x", "y"), Page(Topic, "y", "x"), Page(Topic, "x", "r"), Page(Topic, "r", "");
    var pages := [p, y, q, r];
    var index := ById(pages);
    assert index == map["x" := q, "y" := y, "r" := r] by {
      assert pages[..3] == [p, y, q] && [p, y, q][..2] == [p, y] && [p, y][..1] == [p];
      assert [p][..0] == [];
      assert ById([p]) == map["x" := p];
      assert ById([p, y]) == map["x" := p, "y" := y];
      assert ById([p, y, q]) == map["x" := q, "y" := y];
    }
    assert At(index, p, 0) == Some(p) && At(index, p, 1) == Some(y) && At(index, p, 2) == Some(q);
    assert At(index, p, 3) == Some(r) && At(index, p, 4) == None;
    assert SameIdAt(index, p, 0, 2);
  }

  /** For any vault the report is wrong exactly for a page whose links end after leading to another page
      that bears its id and names a parent; this takes two pages with one id. */
  lemma MisreportedExactly(index: map<string, Page>, page: Page)
    requires IsIndex(index)
    ensures (Revisits(index, page) <==> Endless(index, page))
            <==> (Endless(index, page) || forall j: nat :: j > 0 ==> !IdAt(index, page, j, page.id))
  {
    if Endless(index, page) {
      EndlessRevisits(index, page);
    } else {
      forall i: nat, j: nat | 0 < i < j
        ensures !SameIdAt(index, page, i, j)
      {
        if SameIdAt(index, page, i, j) {
          LaterRevisitIsEndless(index, page, i, j);
        }
      }
      forall j: nat | j > 0 && IdAt(index, page, j, page.id)
        ensures SameIdAt(index, page, 0, j)
      {
        EarlierOnward(index, page, 0, j);
      }
      if Revisits(index, page) {
        var i: nat, j: nat :| i < j && SameIdAt(index, page, i, j);
        assert IdAt(index, page, j, page.id);
      }
    }
  }

  lemma LaterRevisitIsEndless(index: map<string, Page>, page: Page, i: nat, j: nat)
    requires IsIndex(index) && 0 < i < j && SameIdAt(index, page, i, j)
    ensures Endless(index, page)
  {
    FromIndex(index, page, i);
    FromIndex(index, page, j);
    forall n: nat
      ensures At(index, page, n).Some?
    {
      RepeatGoesOn(index, page, i, j, n);
    }
  }

  // ----- the rules over a vault ----------------------------------------------------------------------------

  /** A finding names the position of the page in the vault. */
  datatype Issue = UnresolvedParent(page: nat) | TopicCycle(page: nat)

  ghost predicate Unresolved(pages: seq<Page>, i: nat) {
    i < |pages| && pages[i].kind.Topic? && pages[i].parent != "" && pages[i].parent !in TopicIds(pages)
  }

  ghost predicate Circular(pages: seq<Page>, i: nat) {
    i < |pages| && pages[i].kind.Topic? && Revisits(ById(pages), pages[i])
  }

  /** Both topic rules over the whole vault. */
  method LintTopics(pages: seq<Page>) returns (issues: seq<Issue>)
    ensures forall i: nat :: UnresolvedParent(i) in issues <==> Unresolved(pages, i)
    ensures forall i: nat :: TopicCycle(i) in issues <==> Circular(pages, i)
  {
    var topicIds, index := TopicIds(pages), ById(pages);
    ByIdIsIndex(pages);
    issues := [];
    var n := 0;
    while n < |pages|
      invariant n <= |pages|
      invariant forall i: nat :: UnresolvedParent(i) in issues <==> i < n && Unresolved(pages, i)
      invariant forall i: nat :: TopicCycle(i) in issues <==> i < n && Circular(pages, i)
    {
      var p := pages[n];
      if p.kind.Topic? {
        if p.parent != "" && p.parent !in topicIds {
          issues := issues + [UnresolvedParent(n)];
        }
        var cycle := MeetsCycle(index, p);
        if cycle {
          issues := issues + [TopicCycle(n)];
        }
      }
      n := n + 1;
    }
  }

  /** In a vault with distinct, non-empty ids a topic is reported for a cycle exactly when following its
      parent links never reaches a parentless page or an unresolved id. */
  lemma CycleRuleIsExact(pages: seq<Page>, i: nat)
    requires DistinctIds(pages) && i < |pages| && pages[i].kind.Topic?
    ensures Circular(pages, i) <==> Endless(ById(pages), pages[i])
  {
    ByIdIsIndex(pages);
    DistinctIdsIndexEveryPage(pages, i);
    if Circular(pages, i) {
      RevisitIsEndless(ById(pages), pages[i]);
    }
    if Endless(ById(pages), pages[i]) {
      EndlessRevisits(ById(pages), pages[i]);
    }
  }

  predicate TopicAt(index: map<string, Page>, page: Page, k: nat) {
    At(index, page, k).Some? && At(index, page, k).value.kind.Topic?
  }

  /** Through topics only, n links lead to a topic without a parent. */
  ghost predicate RootAt(index: map<string, Page>, page: Page, n: nat) {
    && At(index, page, n).Some? && At(index, page, n).value.parent == ""
    && forall k: nat :: k <= n ==> TopicAt(index, page, k)
  }

  /** The topics form a forest: every topic has a finite depth below a root topic. */
  ghost predicate Forest(pages: seq<Page>) {
    forall i :: 0 <= i < |pages| && pages[i].kind.Topic? ==>
      exists n: nat :: RootAt(ById(pages), pages[i], n)
  }

  /** Where no parent is unresolved, every page a topic's links lead to is a topic of the vault. */
  lemma {:induction false} ChainStaysInTopics(pages: seq<Page>, i: nat, n: nat)
    requires DistinctIds(pages) && i < |pages| && pages[i].kind.Topic?
    requires forall k: nat :: !Unresolved(pages, k)
    requires At(ById(pages), pages[i], n).Some?
    ensures var q := At(ById(pages), pages[i], n).value;
            q in pages && q.kind.Topic? && (q.parent != "" ==> At(ById(pages), pages[i], n + 1).Some?)
  {
    var index := ById(pages);
    if n > 0 {
      ChainStaysInTopics(pages, i, n - 1);
      var before := At(index, pages[i], n - 1).value;
      TopicParent(pages, before);
    }
    var q := At(index, pages[i], n).value;
    if q.parent != "" {
      TopicParent(pages, q);
    }
  }

  lemma TopicParent(pages: seq<Page>, q: Page)
    requires DistinctIds(pages) && q in pages && q.kind.Topic? && q.parent != ""
    requires forall k: nat :: !Unresolved(pages, k)
    ensures q.parent in ById(pages) && ById(pages)[q.parent] in pages && ById(pages)[q.parent].kind.Topic?
  {
    var k :| 0 <= k < |pages| && pages[k] == q;
    assert !Unresolved(pages, k);
    var t :| 0 <= t < |pages| && pages[t].kind.Topic? && pages[t].id == q.parent;
    DistinctIdsIndexEveryPage(pages, t);
  }

  /** A vault with distinct ids passes both rules exactly when its topics form a forest. */
  lemma CleanVaultIsForest(pages: seq<Page>)
    requires DistinctIds(pages)
    ensures (forall i: nat :: !Unresolved(pages, i) && !Circular(pages, i)) <==> Forest(pages)
  {
    if forall i: nat :: !Unresolved(pages, i) && !Circular(pages, i) {
      forall i | 0 <= i < |pages| && pages[i].kind.Topic?
        ensures exists n: nat :: RootAt(ById(pages), pages[i], n)
      {
        CycleRuleIsExact(pages, i);
        RootOf(pages, i);
      }
    }
    if Forest(pages) {
      forall i: nat
        ensures !Unresolved(pages, i) && !Circular(pages, i)
      {
        if i < |pages| && pages[i].kind.Topic? {
          ForestIsClean(pages, i);
        }
      }
    }
  }

  lemma RootOf(pages: seq<Page>, i: nat)
    requires DistinctIds(pages) && i < |pages| && pages[i].kind.Topic?
    requires forall k: nat :: !Unresolved(pages, k)
    requires !Endless(ById(pages), pages[i])
    ensures exists n: nat :: RootAt(ById(pages), pages[i], n)
  {
    var index := ById(pages);
    var end: nat :| At(index, pages[i], end).None?;
    var n := LastPage(index, pages[i], end);
    forall k: nat | k <= n
      ensures TopicAt(index, pages[i], k)
    {
      TopicsOnTheWay(pages, i, n, k);
    }
    ChainStaysInTopics(pages, i, n);
    assert RootAt(index, pages[i], n);
  }

  lemma TopicsOnTheWay(pages: seq<Page>, i: nat, n: nat, k: nat)
    requires DistinctIds(pages) && i < |pages| && pages[i].kind.Topic?
    requires forall k: nat :: !Unresolved(pages, k)
    requires At(ById(pages), pages[i], n).Some? && k <= n
    ensures TopicAt(ById(pages), pages[i], k)
  {
    if k < n {
      EarlierOnward(ById(pages), pages[i], k, n);
    }
    ChainStaysInTopics(pages, i, k);
  }

  /** The last position of a chain that ends. */
  lemma {:induction false} LastPage(index: map<string, Page>, page: Page, end: nat) returns (n: nat)
    requires At(index, page, end).None?
    ensures At(index, page, n).Some? && At(index, page, n + 1).None?
  {
    if At(index, page, end - 1).Some? {
      n := end - 1;
    } else {
      n := LastPage(index, page, end - 1);
    }
  }

  lemma ForestIsClean(pages: seq<Page>, i: nat)
    requires DistinctIds(pages) && Forest(pages) && i < |pages| && pages[i].kind.Topic?
    ensures !Unresolved(pages, i) && !Circular(pages, i)
  {
    var n: nat :| RootAt(ById(pages), pages[i], n);
    assert At(ById(pages), pages[i], n + 1).None?;
    CycleRuleIsExact(pages, i);
    if pages[i].parent != "" {
      RootedParent(pages, i, n);
    }
  }

  lemma RootedParent(pages: seq<Page>, i: nat, n: nat)
    requires i < |pages| && pages[i].parent != "" && RootAt(ById(pages), pages[i], n)
    ensures pages[i].parent in TopicIds(pages)
  {
    var index := ById(pages);
    ByIdIsIndex(pages);
    assert TopicAt(index, pages[i], 1);
    assert At(index, pages[i], 0) == Some(pages[i]);
    assert 1 <= n && At(index, pages[i], 1) == Follow(index, pages[i]);
    var parent := index[pages[i].parent];
    assert parent.kind.Topic? && parent.id == pages[i].parent && parent in pages;
  }
}
