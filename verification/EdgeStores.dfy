/** The two stores of semantic edges as the program holds them, and the coordinator that writes
    both. Each method is tied to the value-level operation its properties are proved about. */
module EdgeStores {
  import opened Wrappers
  import opened EdgeRules
  import opened SemanticGraph
  import opened Replay
  import opened DualStore
  import opened EdgeTheorems

  /** The graph database, as far as edges go. */
  class GraphStore {
    var edges: Edges

    constructor ()
      ensures edges == map[]
    {
      edges := map[];
    }

    /** The guarded write: look forward, look back for a symmetric type unless the forward edge
        already protects the pair, then merge. */
    method UpsertSemanticEdge(key: EdgeKey, provenance: Provenance) returns (disposition: Disposition)
      modifies this
      ensures Outcome(disposition, edges) == UpsertSemantic(old(edges), key, provenance)
    {
      if !IsSemantic(key.etype) {
        return Rejected;
      }
      var byLlm := provenance.extractedBy == Some(Llm);
      var symmetric := IsSymmetric(key.etype);
      var k := CanonicalEndpoints(key, byLlm);
      var existed := k in edges;
      var guarded := byLlm && existed && edges[k].extractedBy != Some(Llm);
      var llmExists := existed && edges[k].extractedBy == Some(Llm);
      if symmetric && !guarded {
        var back := k.Reverse();
        if back in edges {
          existed := true;
          if byLlm && edges[back].extractedBy != Some(Llm) {
            guarded := true;
          } else if edges[back].extractedBy == Some(Llm) {
            llmExists := true;
          }
        }
      }
      if guarded {
        return Collision;
      }
      edges := edges[k := Merge(if k in edges then edges[k] else NO_PROVENANCE, provenance)];
      if byLlm {
        return if llmExists then Refreshed else Written;
      }
      return if existed then Refreshed else Written;
    }

    /** A structural edge; answers false, changing nothing, for a semantic type. */
    method UpsertEdge(key: EdgeKey) returns (accepted: bool)
      modifies this
      ensures accepted <==> !IsSemantic(key.etype)
      ensures edges == UpsertStructural(old(edges), key)
    {
      accepted := !IsSemantic(key.etype);
      if accepted {
        edges := Stamp(edges, key, NO_PROVENANCE);
      }
    }

    method DropAll()
      modifies this
      ensures edges == map[]
    {
      edges := map[];
    }

    /** The change-detection watermark. */
    method MaxLlmExtractedAt() returns (latest: Option<int>)
      ensures IsWatermark(edges, latest)
    {
      latest := None;
      var rest := edges.Keys;
      while rest != {}
        invariant rest <= edges.Keys
        invariant forall k :: Stamped(edges, k) && k !in rest ==>
                    latest.Some? && edges[k].extractedAt.value <= latest.value
        invariant latest.Some? ==> exists k :: LatestAt(edges, k, latest)
        decreases rest
      {
        var k :| k in rest;
        rest := rest - {k};
        if edges[k].ByLlm() && edges[k].extractedAt.Some? {
          assert Stamped(edges, k);
          if latest.None? || edges[k].extractedAt.value > latest.value {
            latest := edges[k].extractedAt;
            assert LatestAt(edges, k, latest);
          }
        }
      }
    }
  }

  /** The semantic_edges table: at most one row per directed tuple. */
  class EdgeTable {
    var rows: Edges

    constructor ()
      ensures rows == map[]
    {
      rows := map[];
    }

    /** INSERT ... ON CONFLICT DO UPDATE: every provenance column is replaced. The author column is
        NOT NULL. */
    method UpsertRow(key: EdgeKey, provenance: Provenance)
      requires provenance.extractedBy.Some?
      modifies this
      ensures rows == old(rows)[key := provenance]
    {
      rows := rows[key := provenance];
    }

    /** Rows touching any of the nodes go; answers how many. */
    method DeleteForNodes(ids: set<NodeId>) returns (count: nat)
      modifies this
      ensures rows == Without(old(rows), set k | k in old(rows) && Touches(k, ids))
      ensures count + |rows| == |old(rows)|
      ensures forall k :: k in old(rows) ==> (k in rows <==> !Touches(k, ids))
    {
      var gone := set k | k in rows && Touches(k, ids);
      assert (rows - gone).Keys == rows.Keys - gone;
      count := |gone|;
      rows := rows - gone;
    }

    /** SELECT ... ORDER BY edge_type, from_id, to_id. */
    method AllSemanticEdges() returns (listed: seq<Row>)
      ensures IsQueryResult(rows, listed)
      ensures |listed| == |rows|
    {
      listed := [];
      var rest := rows.Keys;
      while rest != {}
        invariant rest <= rows.Keys
        invariant DistinctKeys(listed) && Sorted(listed)
        invariant forall i :: 0 <= i < |listed| ==>
                    && listed[i].key in rows && listed[i].key !in rest
                    && listed[i].provenance == rows[listed[i].key]
        invariant forall k :: k in rows && k !in rest ==> exists i :: 0 <= i < |listed| && listed[i].key == k
        invariant |listed| + |rest| == |rows|
        decreases rest
      {
        var k :| k in rest;
        var at := 0;
        while at < |listed| && Precedes(listed[at].key, k)
          invariant at <= |listed|
          invariant forall i :: 0 <= i < at ==> Precedes(listed[i].key, k)
        {
          at := at + 1;
        }
        InsertKeepsOrder(listed, at, Row(k, rows[k]));
        listed := listed[..at] + [Row(k, rows[k])] + listed[at..];
        rest := rest - {k};
      }
      ListingIsTable(rows, listed);
    }
  }

  lemma InsertKeepsOrder(rows: seq<Row>, at: nat, row: Row)
    requires at <= |rows| && DistinctKeys(rows) && Sorted(rows)
    requires forall i :: 0 <= i < |rows| ==> rows[i].key != row.key
    requires forall i :: 0 <= i < at ==> Precedes(rows[i].key, row.key)
    requires at < |rows| ==> !Precedes(rows[at].key, row.key)
    ensures var all := rows[..at] + [row] + rows[at..];
            && DistinctKeys(all) && Sorted(all)
            && all[at] == row
            && (forall i :: 0 <= i < |rows| ==> all[if i < at then i else i + 1] == rows[i])
  {
    var all := rows[..at] + [row] + rows[at..];
    forall i | 0 <= i < |rows|
      ensures all[if i < at then i else i + 1] == rows[i]
    {
    }
    forall i, j | 0 <= i < j < |all|
      ensures Precedes(all[i].key, all[j].key) && all[i].key != all[j].key
    {
      if i != at && j != at {
        var i', j' := if i < at then i else i - 1, if j < at then j else j - 1;
        assert all[i] == rows[i'] && all[j] == rows[j'];
      } else if i == at {
        assert all[j] == rows[j - 1];
        assert at == j - 1 || Precedes(rows[at].key, rows[j - 1].key);
      }
    }
  }

  lemma ListingIsTable(table: Edges, rows: seq<Row>)
    requires DistinctKeys(rows)
    requires forall i :: 0 <= i < |rows| ==>
               rows[i].key in table && rows[i].provenance == table[rows[i].key]
    requires forall k :: k in table ==> exists i :: 0 <= i < |rows| && rows[i].key == k
    ensures AsTable(rows) == table
  {
    TableLists(rows);
    forall k | k in table
      ensures AsTable(rows)[k] == table[k]
    {
      var i :| 0 <= i < |rows| && rows[i].key == k;
    }
  }

  // ----- the coordinator -----------------------------------------------------------------------

  /** Both stores as one value. */
  ghost function Both(conn: EdgeTable, driver: GraphStore): Stores
    reads conn, driver
  {
    Stores(driver.edges, conn.rows)
  }

  /** Write both stores: the graph resolves the write, the table mirrors it unless it collided. */
  method RecordSemanticEdge(conn: EdgeTable, driver: GraphStore, key: EdgeKey, provenance: Provenance)
    returns (disposition: Disposition)
    requires provenance.extractedBy.Some?
    modifies conn, driver
    ensures Recorded(disposition, Both(conn, driver)) == Record(old(Both(conn, driver)), key, provenance)
  {
    var k := CanonicalEndpoints(key, provenance.ByLlm());
    disposition := driver.UpsertSemanticEdge(k, provenance);
    if disposition != Collision && disposition != Rejected {
      conn.UpsertRow(k, provenance);
    }
  }

  /** An LLM write; None stands for the error raised on a type the extractor may not write. */
  method RecordExtractedEdge(conn: EdgeTable, driver: GraphStore, key: EdgeKey, props: Provenance)
    returns (disposition: Option<Disposition>)
    requires props.extractedBy.Some?
    modifies conn, driver
    ensures disposition.Some? <==> IsExtractable(key.etype)
    ensures disposition.None? ==> Both(conn, driver) == old(Both(conn, driver))
    ensures disposition.Some? ==>
              Recorded(disposition.value, Both(conn, driver)) == Record(old(Both(conn, driver)), key, props)
  {
    if !IsExtractable(key.etype) {
      return None;
    }
    var d := RecordSemanticEdge(conn, driver, key, props);
    disposition := Some(d);
  }

  /** Replay every stored row into the graph; the table is only read. */
  method ReplayIntoGraph(conn: EdgeTable, driver: GraphStore) returns (count: nat, ghost rows: seq<Row>)
    requires forall k :: k in conn.rows ==> conn.rows[k].extractedBy.Some?
    modifies driver
    ensures IsQueryResult(conn.rows, rows) && count == |conn.rows|
    ensures driver.edges == Replayed(old(driver.edges), rows)
  {
    var listed := conn.AllSemanticEdges();
    rows := listed;
    var i := 0;
    while i < |listed|
      invariant i <= |listed|
      invariant driver.edges == Replayed(old(driver.edges), listed[..i])
    {
      var _ := driver.UpsertSemanticEdge(listed[i].key, listed[i].provenance);
      i := i + 1;
      assert listed[..i][..i - 1] == listed[..i - 1];
    }
    assert listed[..i] == listed;
    count := |listed|;
  }

  /** The structural pass over an empty graph. */
  method ProjectStructural(driver: GraphStore, structural: seq<EdgeKey>)
    requires driver.edges == map[]
    modifies driver
    ensures driver.edges == Projected(map[], structural)
    ensures forall k :: k in driver.edges <==> k in structural && !IsSemantic(k.etype)
  {
    var i := 0;
    while i < |structural|
      invariant i <= |structural|
      invariant driver.edges == Projected(map[], structural[..i])
      invariant forall k :: k in driver.edges ==> k in structural && !IsSemantic(k.etype)
      invariant forall j :: 0 <= j < i && !IsSemantic(structural[j].etype) ==> structural[j] in driver.edges
    {
      var _ := driver.UpsertEdge(structural[i]);
      i := i + 1;
      assert structural[..i][..i - 1] == structural[..i - 1];
    }
    assert structural[..i] == structural;
  }

  /** Drop the graph, project the structural edges, replay the semantic ones. From stores in any
      reachable condition the graph ends with exactly the table's semantic edges. */
  method RebuildGraph(conn: EdgeTable, driver: GraphStore, structural: seq<EdgeKey>, ghost lab: Labelling)
    requires StoresOk(Both(conn, driver), lab)
    modifies driver
    ensures Semantic(driver.edges) == conn.rows
    ensures StoresOk(Both(conn, driver), lab) && Mirrored(Both(conn, driver))
    ensures forall k: EdgeKey :: !IsSemantic(k.etype) ==> (k in driver.edges <==> k in structural)
  {
    ghost var before := Both(conn, driver);
    driver.DropAll();
    ProjectStructural(driver, structural);
    ghost var skeleton := driver.edges;
    var _, rows := ReplayIntoGraph(conn, driver);
    RebuildRestoresTable(before, structural, rows, lab);
    RebuildKeepsOk(before, structural, rows, lab);
    forall k: EdgeKey | !IsSemantic(k.etype)
      ensures k in driver.edges <==> k in structural
    {
      ReplayKeepsStructure(skeleton, rows, k);
    }
  }

  /** Capture every semantic edge of the graph in the table; answers how many were captured. */
  method BackfillEdges(conn: EdgeTable, driver: GraphStore) returns (count: nat)
    modifies conn
    ensures Both(conn, driver) == Backfilled(old(Both(conn, driver)))
    ensures count == |Semantic(driver.edges)|
  {
    count := CaptureRows(conn, Semantic(driver.edges));
  }

  method CaptureRows(conn: EdgeTable, edges: Edges) returns (count: nat)
    modifies conn
    ensures conn.rows == old(conn.rows) + CapturedRows(edges)
    ensures count == |edges|
  {
    count := 0;
    ghost var before := conn.rows;
    var rest := edges.Keys;
    while rest != {}
      invariant rest <= edges.Keys
      invariant forall k :: k in conn.rows <==> k in before || (k in edges && k !in rest)
      invariant forall k :: k in edges && k !in rest ==> conn.rows[k] == Captured(edges[k])
      invariant forall k :: k in before && !(k in edges && k !in rest) ==> conn.rows[k] == before[k]
      invariant count + |rest| == |edges|
      decreases rest
    {
      var k :| k in rest;
      var provenance := edges[k];
      if provenance.extractedBy.None? {
        provenance := provenance.(extractedBy := Some(NonLlm("curator")));
      }
      conn.UpsertRow(k, provenance);
      count := count + 1;
      rest := rest - {k};
    }
    OverlayOf(before, CapturedRows(edges), conn.rows);
  }

  lemma OverlayOf(base: Edges, over: Edges, all: Edges)
    requires forall k :: k in all <==> k in base || k in over
    requires forall k :: k in over ==> all[k] == over[k]
    requires forall k :: k in base && k !in over ==> all[k] == base[k]
    ensures all == base + over
  {
  }

  // ----- writers -------------------------------------------------------------------------------

  datatype PageKind = SourcePage | ConceptPage | TopicPage

  datatype PageRef = PageRef(kind: PageKind, pageId: NodeId, sourceId: NodeId)

  /** The graph node of a page: a source page is its source's node, keyed by the source id. */
  function PageNodeRef(page: PageRef): (NodeLabel, NodeId) {
    match page.kind
    case SourcePage => (SourceNode, page.sourceId)
    case ConceptPage => (ConceptNode, page.pageId)
    case TopicPage => (TopicNode, page.pageId)
  }

  /** The node stands for the page: it has the page's kind of label, and its id, for a source page the source's. */
  predicate StandsFor(nodeLabel: NodeLabel, id: NodeId, page: PageRef) {
    && (nodeLabel.SourceNode? <==> page.kind.SourcePage?)
    && (nodeLabel.ConceptNode? <==> page.kind.ConceptPage?)
    && (nodeLabel.TopicNode? <==> page.kind.TopicPage?)
    && id == if page.kind.SourcePage? then page.sourceId else page.pageId
  }

  /** The tuple runs from the one page's node to the other's. */
  predicate RunsBetween(k: EdgeKey, from_: PageRef, to: PageRef) {
    StandsFor(k.fromLabel, k.fromId, from_) && StandsFor(k.toLabel, k.toId, to)
  }

  function KeyBetween(etype: EdgeType, a: (NodeLabel, NodeId), b: (NodeLabel, NodeId)): EdgeKey {
    EdgeKey(etype, a.0, a.1, b.0, b.1)
  }

  datatype LinkResult = Linked(disposition: Disposition) | NotSettable | FromNotFound | ToNotFound

  /** What a curator's link carries. */
  function CuratorBag(weight: Option<real>): (p: Provenance)
    ensures p.extractedBy.Some? && !p.ByLlm()
  {
    NO_PROVENANCE.(weight := weight, extractedBy := Some(NonLlm("curator")))
  }

  /** A curator's link between two resolved pages. It always takes effect, and holds its pair against
      the extractor from then on. */
  method Link(conn: EdgeTable, driver: GraphStore, from_: Option<PageRef>, to: Option<PageRef>,
              etype: EdgeType, weight: real)
    returns (result: LinkResult)
    modifies conn, driver
    ensures result.NotSettable? <==> !IsSemantic(etype)
    ensures result.FromNotFound? <==> IsSemantic(etype) && from_.None?
    ensures result.ToNotFound? <==> IsSemantic(etype) && from_.Some? && to.None?
    ensures !result.Linked? ==> Both(conn, driver) == old(Both(conn, driver))
    ensures result.Linked? ==>
              var key := KeyBetween(etype, PageNodeRef(from_.value), PageNodeRef(to.value));
              && key.etype == etype && RunsBetween(key, from_.value, to.value)
              && HeldAt(Both(conn, driver), key)
              && Recorded(result.disposition, Both(conn, driver))
                 == Record(old(Both(conn, driver)), key, CuratorBag(Some(weight)))
              && conn.rows == old(conn.rows)[key := conn.rows[key]]
              && conn.rows[key].weight == Some(weight) == driver.edges[key].weight
              && conn.rows[key].extractedBy == Some(NonLlm("curator")) == driver.edges[key].extractedBy
              && (result.disposition.Refreshed? <==> SemanticGraph.Linked(old(driver.edges), key))
  {
    if !IsSemantic(etype) {
      return NotSettable;
    }
    if from_.None? {
      return FromNotFound;
    }
    if to.None? {
      return ToNotFound;
    }
    var key := KeyBetween(etype, PageNodeRef(from_.value), PageNodeRef(to.value));
    var p := CuratorBag(Some(weight));
    CuratorWriteHolds(Both(conn, driver), key, p);
    var d := RecordSemanticEdge(conn, driver, key, p);
    result := LinkResult.Linked(d);
  }
}
