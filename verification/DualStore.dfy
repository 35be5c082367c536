/** The two stores of semantic edges over whole runs: what every writer, delete, backfill and
    rebuild keeps, and what a rebuild restores. */
module DualStore {
  import opened Wrappers
  import opened EdgeRules
  import opened SemanticGraph
  import opened Replay

  /** The graph store (all edges, structural ones included) and the semantic_edges table. */
  datatype Stores = Stores(graph: Edges, table: Edges)

  const EMPTY := Stores(map[], map[])

  // ----- single operations -------------------------------------------------------------------

  datatype Recorded = Recorded(disposition: Disposition, stores: Stores)

  /** The one write of both stores: the graph decides, the table mirrors the resolved edge. */
  function Record(s: Stores, key: EdgeKey, p: Provenance): Recorded {
    var k := CanonicalEndpoints(key, p.ByLlm());
    var o := UpsertSemantic(s.graph, k, p);
    Recorded(o.disposition,
             Stores(o.edges,
                    if o.disposition.Collision? || o.disposition.Rejected? then s.table
                    else s.table[k := p]))
  }

  /** A structural edge merged by projection; a semantic type is refused. */
  function UpsertStructural(g: Edges, k: EdgeKey): Edges {
    if IsSemantic(k.etype) then g else Stamp(g, k, NO_PROVENANCE)
  }

  function Projected(g: Edges, structural: seq<EdgeKey>): Edges {
    if structural == [] then g
    else
      var n := |structural| - 1;
      UpsertStructural(Projected(g, structural[..n]), structural[n])
  }

  /** Drop everything, project the structural edges, replay the table's rows. */
  function Rebuilt(s: Stores, structural: seq<EdgeKey>, rows: seq<Row>): Stores {
    Stores(Replayed(Projected(map[], structural), rows), s.table)
  }

  predicate Touches(k: EdgeKey, ids: set<NodeId>) {
    k.fromId in ids || k.toId in ids
  }

  /** DETACH DELETE of some nodes, by label and id. */
  predicate Detached(k: EdgeKey, nodes: set<(NodeLabel, NodeId)>) {
    (k.fromLabel, k.fromId) in nodes || (k.toLabel, k.toId) in nodes
  }

  // How far the best-effort graph deletes of a source got.
  datatype GraphDelete = NothingDetached | SourceDetached | AllDetached

  datatype Removal = Removal(sourceId: NodeId, chunkIds: set<NodeId>, pageId: Option<NodeId>) {
    function TableIds(): set<NodeId> {
      {sourceId} + chunkIds + if pageId.Some? then {pageId.value} else {}
    }

    function GraphNodes(): set<(NodeLabel, NodeId)> {
      {(SourceNode, sourceId)} + set c | c in chunkIds :: (ChunkNode, c)
    }

    /** The nodes a graph delete got to. */
    function Reached(reach: GraphDelete): set<(NodeLabel, NodeId)> {
      match reach
      case NothingDetached => {}
      case SourceDetached => {(SourceNode, sourceId)}
      case AllDetached => GraphNodes()
    }
  }

  function Without(m: Edges, gone: set<EdgeKey>): Edges {
    m - gone
  }

  function Deleted(s: Stores, r: Removal, reach: GraphDelete): Stores {
    var table := Without(s.table, set k | k in s.table && Touches(k, r.TableIds()));
    Stores(Without(s.graph, set k | k in s.graph && Detached(k, r.Reached(reach))), table)
  }

  /** A row as backfill captures it: an edge without an author counts as the curator's. */
  function Captured(p: Provenance): Provenance {
    if p.extractedBy.None? then p.(extractedBy := Some(NonLlm("curator"))) else p
  }

  function CapturedRows(edges: Edges): (c: Edges)
    ensures c.Keys == edges.Keys
  {
    map k | k in edges :: Captured(edges[k])
  }

  function Backfilled(s: Stores): Stores {
    Stores(s.graph, s.table + CapturedRows(Semantic(s.graph)))
  }

  // ----- runs --------------------------------------------------------------------------------

  datatype Op =
    | Write(key: EdgeKey, provenance: Provenance)
    | Rebuild(structural: seq<EdgeKey>, rows: seq<Row>)
    | Delete(removal: Removal, reach: GraphDelete)
    | Backfill

  function Step(s: Stores, op: Op): Stores {
    match op
    case Write(key, p) => Record(s, key, p).stores
    case Rebuild(structural, rows) => Rebuilt(s, structural, rows)
    case Delete(r, reach) => Deleted(s, r, reach)
    case Backfill => Backfilled(s)
  }

  function Run(s: Stores, ops: seq<Op>): Stores {
    if ops == [] then s else Step(Run(s, ops[..|ops| - 1]), ops[|ops| - 1])
  }

  // A graph node's id determines its label (ids are UUIDs); None for an id that names no node,
  // such as the page id of a source page, whose node is keyed by its source id.
  type Labelling = NodeId -> Option<NodeLabel>

  predicate WellLabelled(k: EdgeKey, lab: Labelling) {
    lab(k.fromId) == Some(k.fromLabel) && lab(k.toId) == Some(k.toLabel)
  }

  /** The ids a source delete gathers: the source's node, its chunks' nodes, and the page's own id. */
  ghost predicate RemovesSource(r: Removal, lab: Labelling) {
    && lab(r.sourceId) == Some(SourceNode)
    && (r.pageId.Some? ==> lab(r.pageId.value) == None)
    && forall c :: c in r.chunkIds ==> lab(c) == Some(ChunkNode)
  }

  /** What the callers supply: resolved node references, an author on every write, the whole bag on
      an LLM write; a rebuild replays some answer of the ordered query. */
  ghost predicate Admissible(s: Stores, op: Op, lab: Labelling) {
    match op
    case Write(key, p) =>
      WellLabelled(key, lab) && p.extractedBy.Some? && (p.ByLlm() ==> p.Complete())
    case Rebuild(_, rows) => IsQueryResult(s.table, rows)
    case Delete(r, _) =>
      RemovesSource(r, lab)
    case Backfill => true
  }

  ghost predicate AdmissibleRun(s: Stores, ops: seq<Op>, lab: Labelling) {
    ops != [] ==>
      var n := |ops| - 1;
      AdmissibleRun(s, ops[..n], lab) && Admissible(Run(s, ops[..n]), ops[n], lab)
  }

  // ----- invariants --------------------------------------------------------------------------

  /** An edge as the writers leave it: an LLM edge carries the whole bag and, when its type is
      symmetric, runs from the smaller id to the larger. */
  ghost predicate EdgeOk(k: EdgeKey, p: Provenance, lab: Labelling) {
    WellLabelled(k, lab) && (p.ByLlm() ==> p.Complete() && !k.Descending())
  }

  ghost predicate StoresOk(s: Stores, lab: Labelling) {
    && (forall k :: k in s.graph && IsSemantic(k.etype) ==> EdgeOk(k, s.graph[k], lab))
    && (forall k :: k in s.graph && !IsSemantic(k.etype) ==> s.graph[k] == NO_PROVENANCE)
    && (forall k :: k in s.table ==>
          IsSemantic(k.etype) && s.table[k].extractedBy.Some? && EdgeOk(k, s.table[k], lab))
  }

  /** The graph's edge has the row's author and every value the row holds, and is the row when it is an LLM's. */
  ghost predicate StandsAs(row: Provenance, edge: Provenance) {
    && edge.extractedBy == row.extractedBy
    && Reflects(row, edge)
    && (row.ByLlm() ==> edge == row)
  }

  /** Every row of the table stands in the graph. */
  ghost predicate TableStands(s: Stores) {
    && (forall k :: k in s.table ==> k in s.graph)
    && (forall k :: k in s.table ==> StandsAs(s.table[k], s.graph[k]))
  }

  /** Every semantic edge of the graph names its author. */
  ghost predicate Authored(g: Edges) {
    forall k :: k in g && IsSemantic(k.etype) ==> g[k].extractedBy.Some?
  }

  /** The stores agree: the table's rows stand in the graph, and every semantic edge of the graph has a row. */
  ghost predicate Mirrored(s: Stores) {
    TableStands(s) && forall k :: k in s.graph && IsSemantic(k.etype) ==> k in s.table
  }

  /** The operations alone tell that the stores agree: every partial delete is behind a rebuild or a backfill. */
  function InStep(start: bool, ops: seq<Op>): bool {
    if ops == [] then start
    else
      match ops[|ops| - 1]
      case Rebuild(_, _) => true
      case Backfill => true
      case Delete(_, reach) => reach.AllDetached? && InStep(start, ops[..|ops| - 1])
      case Write(_, _) => InStep(start, ops[..|ops| - 1])
  }

  // ----- each operation keeps the invariants --------------------------------------------------

  /** A write leaves both stores alone, or stamps its bag on one tuple of each. */
  lemma RecordShape(s: Stores, key: EdgeKey, p: Provenance)
    requires p.extractedBy.Some?
    ensures var k := CanonicalEndpoints(key, p.ByLlm());
            var t := Record(s, key, p).stores;
            t != s ==>
              && IsSemantic(key.etype)
              && t == Stores(Stamp(s.graph, k, p), s.table[k := p])
              && Stamp(s.graph, k, p)[k].extractedBy == p.extractedBy
              && Reflects(p, Stamp(s.graph, k, p)[k])
              && (p.Complete() ==> Stamp(s.graph, k, p)[k] == p)
  {
    var k := CanonicalEndpoints(key, p.ByLlm());
    MergeTakesAuthor(if k in s.graph then s.graph[k] else NO_PROVENANCE, p);
  }

  lemma WriteKeepsOk(s: Stores, key: EdgeKey, p: Provenance, lab: Labelling)
    requires StoresOk(s, lab) && Admissible(s, Write(key, p), lab)
    ensures StoresOk(Record(s, key, p).stores, lab)
  {
    RecordShape(s, key, p);
    var k := CanonicalEndpoints(key, p.ByLlm());
    var t := Record(s, key, p).stores;
    if t != s {
      assert EdgeOk(k, p, lab);
      assert EdgeOk(k, t.graph[k], lab);
    }
  }

  lemma WriteKeepsTable(s: Stores, key: EdgeKey, p: Provenance, lab: Labelling)
    requires TableStands(s) && Authored(s.graph) && Admissible(s, Write(key, p), lab)
    ensures var t := Record(s, key, p).stores; TableStands(t) && Authored(t.graph)
  {
    RecordShape(s, key, p);
  }

  lemma WriteKeepsMirror(s: Stores, key: EdgeKey, p: Provenance, lab: Labelling)
    requires StoresOk(s, lab) && Mirrored(s) && Admissible(s, Write(key, p), lab)
    ensures Mirrored(Record(s, key, p).stores)
  {
    RecordShape(s, key, p);
  }

  lemma {:induction false} ProjectionIsStructural(structural: seq<EdgeKey>)
    ensures forall k :: k in Projected(map[], structural) ==>
              !IsSemantic(k.etype) && Projected(map[], structural)[k] == NO_PROVENANCE
  {
    if structural != [] {
      ProjectionIsStructural(structural[..|structural| - 1]);
    }
  }

  /** The order of the query puts every LLM row before a curator row for the opposite direction. */
  lemma QueryOrderIsReplayable(table: Edges, rows: seq<Row>, lab: Labelling, j: nat)
    requires StoresOk(Stores(map[], table), lab) && IsQueryResult(table, rows) && j < |rows|
    ensures Replayable(rows, j)
  {
    TableLists(rows);
    assert AsTable(rows)[rows[j].key] == rows[j].provenance;
    if rows[j].provenance.ByLlm() && IsSymmetric(rows[j].key.etype) {
      forall i | 0 <= i < j
        ensures rows[i].key != rows[j].key.Reverse()
      {
        assert Precedes(rows[i].key, rows[j].key) && rows[i].key != rows[j].key;
      }
    }
  }

  lemma QueryRowsAreStored(table: Edges, rows: seq<Row>, lab: Labelling)
    requires StoresOk(Stores(map[], table), lab) && IsQueryResult(table, rows)
    ensures StoredRows(rows)
  {
    TableLists(rows);
    forall i | 0 <= i < |rows|
      ensures IsSemantic(rows[i].key.etype) && rows[i].provenance.extractedBy.Some?
    {
      assert rows[i].key in table;
      assert table[rows[i].key] == rows[i].provenance;
    }
  }

  /** Rebuild is lossless: whatever the graph was, its semantic part becomes exactly the table, and
      no row collides. */
  lemma RebuildRestoresTable(s: Stores, structural: seq<EdgeKey>, rows: seq<Row>, lab: Labelling)
    requires StoresOk(s, lab) && IsQueryResult(s.table, rows)
    ensures Semantic(Rebuilt(s, structural, rows).graph) == s.table
    ensures Rebuilt(s, structural, rows).table == s.table
    ensures Collisions(Projected(map[], structural), rows) == 0
  {
    ProjectionIsStructural(structural);
    QueryRowsAreStored(s.table, rows, lab);
    forall j | 0 <= j < |rows|
      ensures Replayable(rows, j)
    {
      QueryOrderIsReplayable(s.table, rows, lab, j);
    }
    ReplayRestores(Projected(map[], structural), rows);
  }

  lemma RebuildKeepsOk(s: Stores, structural: seq<EdgeKey>, rows: seq<Row>, lab: Labelling)
    requires StoresOk(s, lab) && IsQueryResult(s.table, rows)
    ensures StoresOk(Rebuilt(s, structural, rows), lab) && Mirrored(Rebuilt(s, structural, rows))
  {
    RebuildRestoresTable(s, structural, rows, lab);
    ProjectionIsStructural(structural);
    var g := Rebuilt(s, structural, rows).graph;
    forall k | k in g
      ensures IsSemantic(k.etype) ==> k in s.table && g[k] == s.table[k]
      ensures !IsSemantic(k.etype) ==> g[k] == NO_PROVENANCE
    {
      if IsSemantic(k.etype) {
        assert k in Semantic(g) && Semantic(g)[k] == g[k];
      } else {
        ReplayKeepsStructure(Projected(map[], structural), rows, k);
      }
    }
    forall k | k in s.table
      ensures k in g
    {
      assert k in Semantic(g);
    }
  }

  /** The table deletes by id alone, the graph by label and id; on well-labelled edges that is the same. */
  lemma TableAndGraphDeleteAlike(k: EdgeKey, r: Removal, lab: Labelling)
    requires WellLabelled(k, lab) && RemovesSource(r, lab)
    ensures Touches(k, r.TableIds()) <==> Detached(k, r.GraphNodes())
  {
  }

  /** An edge that a graph delete detaches touches an id that the table delete names. */
  lemma DetachedIsTouched(k: EdgeKey, r: Removal, reach: GraphDelete)
    requires Detached(k, r.Reached(reach))
    ensures Touches(k, r.TableIds())
  {
  }

  lemma DeleteKeepsTable(s: Stores, r: Removal, reach: GraphDelete)
    requires TableStands(s) && Authored(s.graph)
    ensures var t := Deleted(s, r, reach); TableStands(t) && Authored(t.graph)
  {
    var t := Deleted(s, r, reach);
    forall k: EdgeKey
      ensures k in t.table ==> k in t.graph && t.graph[k] == s.graph[k] && k in s.table && t.table[k] == s.table[k]
      ensures k in t.graph ==> k in s.graph && t.graph[k] == s.graph[k]
    {
      if Detached(k, r.Reached(reach)) {
        DetachedIsTouched(k, r, reach);
      }
    }
  }

  /** A delete keeps the stores mirrored exactly when the graph delete gets to an endpoint of every edge
      whose row goes. */
  lemma DeleteMirrorsIff(s: Stores, r: Removal, reach: GraphDelete, lab: Labelling)
    requires StoresOk(s, lab) && Mirrored(s)
    ensures Mirrored(Deleted(s, r, reach))
            <==> forall k :: k in s.table && Touches(k, r.TableIds()) ==> Detached(k, r.Reached(reach))
  {
    var t := Deleted(s, r, reach);
    DeleteKeepsTable(s, r, reach);
    forall k: EdgeKey
      ensures k in t.graph && IsSemantic(k.etype) && k !in t.table
              <==> k in s.table && Touches(k, r.TableIds()) && !Detached(k, r.Reached(reach))
    {
    }
  }

  lemma DeleteKeepsMirror(s: Stores, r: Removal, lab: Labelling)
    requires StoresOk(s, lab) && Mirrored(s) && Admissible(s, Delete(r, AllDetached), lab)
    ensures Mirrored(Deleted(s, r, AllDetached))
  {
    forall k | k in s.table && Touches(k, r.TableIds())
      ensures Detached(k, r.GraphNodes())
    {
      assert EdgeOk(k, s.table[k], lab);
      TableAndGraphDeleteAlike(k, r, lab);
    }
    DeleteMirrorsIff(s, r, AllDetached, lab);
  }

  lemma DeleteKeepsOk(s: Stores, r: Removal, reach: GraphDelete, lab: Labelling)
    requires StoresOk(s, lab)
    ensures StoresOk(Deleted(s, r, reach), lab)
  {
    var t := Deleted(s, r, reach);
    assert forall k :: k in t.graph ==> k in s.graph && t.graph[k] == s.graph[k];
    assert forall k :: k in t.table ==> k in s.table && t.table[k] == s.table[k];
  }

  lemma BackfillEntry(s: Stores, k: EdgeKey)
    ensures var t := Backfilled(s).table;
            && (k in s.graph && IsSemantic(k.etype) ==> k in t && t[k] == Captured(s.graph[k]))
            && (!(k in s.graph && IsSemantic(k.etype)) ==> (k in t <==> k in s.table))
            && (!(k in s.graph && IsSemantic(k.etype)) && k in t ==> t[k] == s.table[k])
  {
  }

  lemma BackfillKeepsOk(s: Stores, lab: Labelling)
    requires StoresOk(s, lab)
    ensures StoresOk(Backfilled(s), lab)
  {
    var t := Backfilled(s).table;
    forall k | k in t
      ensures IsSemantic(k.etype) && t[k].extractedBy.Some? && EdgeOk(k, t[k], lab)
    {
      BackfillEntry(s, k);
    }
  }

  /** What stands in the table at an edge after a backfill stands in the graph, unless
      it is an edge without an author. */
  lemma BackfilledRowStands(s: Stores, k: EdgeKey)
    requires TableStands(s) && k in Backfilled(s).table
    ensures k in s.graph
    ensures StandsAs(Backfilled(s).table[k], s.graph[k]) <==> !(IsSemantic(k.etype) && s.graph[k].extractedBy.None?)
  {
    BackfillEntry(s, k);
  }

  /** A backfill brings the stores back in step exactly when every semantic edge of the graph names its
      author. */
  lemma BackfillMirrorsIff(s: Stores)
    requires TableStands(s)
    ensures Mirrored(Backfilled(s)) <==> Authored(s.graph)
  {
    var t := Backfilled(s);
    if Authored(s.graph) {
      forall k | k in t.table
        ensures k in t.graph && StandsAs(t.table[k], t.graph[k])
      {
        BackfilledRowStands(s, k);
      }
      forall k | k in t.graph && IsSemantic(k.etype)
        ensures k in t.table
      {
        BackfillEntry(s, k);
      }
    } else {
      var k :| k in s.graph && IsSemantic(k.etype) && s.graph[k].extractedBy.None?;
      BackfillEntry(s, k);
      BackfilledRowStands(s, k);
    }
  }

  lemma BackfillKeepsMirror(s: Stores, lab: Labelling)
    requires StoresOk(s, lab) && Mirrored(s)
    ensures Mirrored(Backfilled(s))
  {
    BackfillMirrorsIff(s);
  }

  /** Every step keeps the shape of the edges. The rows of the table go on standing in the graph, partial
      deletes included; a rebuild brings the stores in step from any state. */
  lemma StepKeepsInvariants(s: Stores, op: Op, lab: Labelling)
    requires StoresOk(s, lab) && Admissible(s, op, lab)
    ensures StoresOk(Step(s, op), lab)
    ensures TableStands(s) && Authored(s.graph) ==> TableStands(Step(s, op)) && Authored(Step(s, op).graph)
    ensures op.Rebuild? ==> Mirrored(Step(s, op))
    ensures op.Backfill? && TableStands(s) && Authored(s.graph) ==> Mirrored(Step(s, op))
    ensures Mirrored(s) && !(op.Delete? && !op.reach.AllDetached?) ==> Mirrored(Step(s, op))
  {
    match op
    case Write(key, p) =>
      WriteKeepsOk(s, key, p, lab);
      if TableStands(s) && Authored(s.graph) {
        WriteKeepsTable(s, key, p, lab);
      }
      if Mirrored(s) {
        WriteKeepsMirror(s, key, p, lab);
      }
    case Rebuild(structural, rows) =>
      RebuildKeepsOk(s, structural, rows, lab);
    case Delete(r, reach) =>
      DeleteKeepsOk(s, r, reach, lab);
      if TableStands(s) && Authored(s.graph) {
        DeleteKeepsTable(s, r, reach);
      }
      if Mirrored(s) && reach.AllDetached? {
        DeleteKeepsMirror(s, r, lab);
      }
    case Backfill =>
      BackfillKeepsOk(s, lab);
      if TableStands(s) {
        BackfillMirrorsIff(s);
      }
  }

  /** Over every run from empty stores, partial deletes included: LLM edges stay whole and smaller id first in
      both stores, every edge of the graph names its author, and every row of the table stands in the graph
      with its author and values. When every partial delete is behind a rebuild or a backfill, the stores mirror
      each other. */
  lemma {:induction false} RunKeepsInvariants(ops: seq<Op>, lab: Labelling)
    requires AdmissibleRun(EMPTY, ops, lab)
    ensures StoresOk(Run(EMPTY, ops), lab) && TableStands(Run(EMPTY, ops)) && Authored(Run(EMPTY, ops).graph)
    ensures InStep(true, ops) ==> Mirrored(Run(EMPTY, ops))
    decreases |ops|
  {
    if ops != [] {
      var n := |ops| - 1;
      RunKeepsInvariants(ops[..n], lab);
      StepKeepsInvariants(Run(EMPTY, ops[..n]), ops[n], lab);
    }
  }
}
