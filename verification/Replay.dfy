/** Replaying stored rows through the guarded write: what a rebuild puts back, and exactly when
    it puts back everything. */
module Replay {
  import opened EdgeRules
  import opened SemanticGraph

  datatype Row = Row(key: EdgeKey, provenance: Provenance)

  /** ORDER BY edge_type, from_id, to_id: labels are not part of the order, so rows that differ in
      their labels alone may come either way round. */
  predicate Precedes(a: EdgeKey, b: EdgeKey) {
    NameRank(a.etype) < NameRank(b.etype)
    || (a.etype == b.etype
        && (a.fromId < b.fromId || (a.fromId == b.fromId && a.toId <= b.toId)))
  }

  ghost predicate Sorted(rows: seq<Row>) {
    forall i, j :: 0 <= i < j < |rows| ==> Precedes(rows[i].key, rows[j].key)
  }

  ghost predicate DistinctKeys(rows: seq<Row>) {
    forall i, j :: 0 <= i < j < |rows| ==> rows[i].key != rows[j].key
  }

  /** The table a sequence of rows lists. */
  function AsTable(rows: seq<Row>): Edges {
    if rows == [] then map[]
    else
      var n := |rows| - 1;
      AsTable(rows[..n])[rows[n].key := rows[n].provenance]
  }

  lemma {:induction false} TableLists(rows: seq<Row>)
    ensures forall k :: k in AsTable(rows) <==> exists i :: 0 <= i < |rows| && rows[i].key == k
    ensures DistinctKeys(rows) ==>
              forall i :: 0 <= i < |rows| ==> AsTable(rows)[rows[i].key] == rows[i].provenance
  {
    if rows != [] {
      var n := |rows| - 1;
      TableLists(rows[..n]);
      assert forall i :: 0 <= i < n ==> rows[..n][i] == rows[i];
    }
  }

  /** The answer of SELECT ... ORDER BY: every row once, in order. */
  ghost predicate IsQueryResult(table: Edges, rows: seq<Row>) {
    DistinctKeys(rows) && Sorted(rows) && AsTable(rows) == table
  }

  /** Replaying rows one after the other onto a graph. */
  function Replayed(g: Edges, rows: seq<Row>): Edges {
    if rows == [] then g
    else
      var n := |rows| - 1;
      UpsertSemantic(Replayed(g, rows[..n]), rows[n].key, rows[n].provenance).edges
  }

  /** How many of the replayed rows the guard turned away. */
  function Collisions(g: Edges, rows: seq<Row>): nat {
    if rows == [] then 0
    else
      var n := |rows| - 1;
      var o := UpsertSemantic(Replayed(g, rows[..n]), rows[n].key, rows[n].provenance);
      Collisions(g, rows[..n]) + if o.disposition.Collision? then 1 else 0
  }

  /** The semantic part of a graph. */
  function Semantic(g: Edges): (s: Edges)
    ensures forall k :: k in s <==> k in g && IsSemantic(k.etype)
    ensures forall k :: k in s ==> s[k] == g[k]
  {
    map k | k in g && IsSemantic(k.etype) :: g[k]
  }

  ghost predicate StoredRows(rows: seq<Row>) {
    DistinctKeys(rows)
    && forall i :: 0 <= i < |rows| ==>
         IsSemantic(rows[i].key.etype) && rows[i].provenance.extractedBy.Some?
  }

  /** Row j can be put back: an LLM row is already stored smaller id first, and no curator row for
      the opposite direction comes before it. */
  ghost predicate Replayable(rows: seq<Row>, j: nat)
    requires j < |rows|
  {
    rows[j].provenance.ByLlm() && IsSymmetric(rows[j].key.etype) ==>
      && !rows[j].key.Descending()
      && forall i :: 0 <= i < j && rows[i].key == rows[j].key.Reverse() ==> rows[i].provenance.ByLlm()
  }

  // ----- sufficiency -------------------------------------------------------------------------

  /** A row that is not blocked lands verbatim on an empty tuple. */
  lemma FreshRowLands(g: Edges, k: EdgeKey, p: Provenance)
    requires IsSemantic(k.etype) && p.extractedBy.Some? && k !in g
    requires p.ByLlm() ==> !k.Descending() && !Protected(g, k)
    ensures UpsertSemantic(g, k, p).edges == g[k := p]
    ensures !UpsertSemantic(g, k, p).disposition.Collision?
  {
  }

  lemma ReplayablePrefix(rows: seq<Row>, n: nat, j: nat)
    requires n <= |rows| && j < n && Replayable(rows, j)
    ensures Replayable(rows[..n], j)
  {
    assert forall i :: 0 <= i < n ==> rows[..n][i] == rows[i];
  }

  /** On a graph that holds the earlier rows, nothing blocks a row that can be put back. */
  lemma NextRowUnblocked(g: Edges, rows: seq<Row>)
    requires rows != [] && StoredRows(rows) && Replayable(rows, |rows| - 1)
    requires Semantic(g) == AsTable(rows[..|rows| - 1])
    ensures var last := rows[|rows| - 1];
            && last.key !in g
            && (last.provenance.ByLlm() ==> !last.key.Descending() && !Protected(g, last.key))
  {
    var n := |rows| - 1;
    var k := rows[n].key;
    assert forall i :: 0 <= i < n ==> rows[..n][i] == rows[i];
    TableLists(rows[..n]);
    if rows[n].provenance.ByLlm() && IsSymmetric(k.etype) && k.Reverse() in g {
      assert k.Reverse() in Semantic(g);
      var i :| 0 <= i < n && rows[..n][i].key == k.Reverse();
      assert g[k.Reverse()] == AsTable(rows[..n])[rows[..n][i].key] == rows[i].provenance;
    }
  }

  lemma SemanticOfUpdate(g: Edges, k: EdgeKey, p: Provenance)
    requires IsSemantic(k.etype)
    ensures Semantic(g[k := p]) == Semantic(g)[k := p]
  {
  }

  /** Rows that can all be put back are all put back, verbatim and without a collision. */
  lemma {:induction false} ReplayRestores(g: Edges, rows: seq<Row>)
    requires StoredRows(rows) && Semantic(g) == map[]
    requires forall j :: 0 <= j < |rows| ==> Replayable(rows, j)
    ensures Semantic(Replayed(g, rows)) == AsTable(rows)
    ensures Collisions(g, rows) == 0
    decreases |rows|
  {
    if rows != [] {
      var n := |rows| - 1;
      forall j | 0 <= j < n
        ensures Replayable(rows[..n], j)
      {
        ReplayablePrefix(rows, n, j);
      }
      var before := Replayed(g, rows[..n]);
      ReplayRestores(g, rows[..n]);
      NextRowUnblocked(before, rows);
      FreshRowLands(before, rows[n].key, rows[n].provenance);
      SemanticOfUpdate(before, rows[n].key, rows[n].provenance);
      calc {
        Semantic(Replayed(g, rows));
        Semantic(before[rows[n].key := rows[n].provenance]);
        Semantic(before)[rows[n].key := rows[n].provenance];
        AsTable(rows[..n])[rows[n].key := rows[n].provenance];
        AsTable(rows);
      }
    }
  }

  /** Replaying semantic rows never touches a structural edge. */
  lemma {:induction false} ReplayKeepsStructure(g: Edges, rows: seq<Row>, k: EdgeKey)
    requires !IsSemantic(k.etype)
    ensures k in Replayed(g, rows) <==> k in g
    ensures k in g ==> Replayed(g, rows)[k] == g[k]
    decreases |rows|
  {
    if rows != [] {
      ReplayKeepsStructure(g, rows[..|rows| - 1], k);
    }
  }

  // ----- necessity ---------------------------------------------------------------------------

  /** A curator row is on the graph as soon as it has been replayed, and stays. */
  lemma {:induction false} CuratorRowStays(g: Edges, rows: seq<Row>, i: nat)
    requires StoredRows(rows) && i < |rows| && !rows[i].provenance.ByLlm()
    ensures CuratorAt(Replayed(g, rows), rows[i].key)
    decreases |rows|
  {
    var n := |rows| - 1;
    var before := Replayed(g, rows[..n]);
    if i == n {
      CollisionExactly(before, rows[n].key, rows[n].provenance);
    } else {
      CuratorRowStays(g, rows[..n], i);
      CuratorEdgeSurvivesWrite(before, rows[n].key, rows[n].provenance, rows[i].key);
    }
  }

  /** A row that cannot be put back does not land where it stood when its own turn comes. */
  lemma LostAtItsTurn(g: Edges, rows: seq<Row>, j: nat)
    requires StoredRows(rows) && j < |rows| && !Replayable(rows, j)
    requires rows[j].key !in Replayed(g, rows[..j])
    ensures rows[j].key !in Replayed(g, rows[..j + 1])
  {
    var k := rows[j].key;
    assert rows[..j + 1][..j] == rows[..j];
    if !k.Descending() {
      var i :| 0 <= i < j && rows[i].key == k.Reverse() && !rows[i].provenance.ByLlm();
      assert rows[..j][i] == rows[i];
      CuratorRowStays(g, rows[..j], i);
    }
  }

  /** Nor does any other row land there. */
  lemma OthersLandElsewhere(g: Edges, rows: seq<Row>, j: nat, n: nat)
    requires StoredRows(rows) && j < |rows| && n < |rows| && n != j && !Replayable(rows, j)
    requires rows[j].key !in g
    ensures rows[j].key !in UpsertSemantic(g, rows[n].key, rows[n].provenance).edges
  {
  }

  /** The row that cannot be put back leaves its tuple empty. */
  lemma {:induction false} LostRow(g: Edges, rows: seq<Row>, j: nat, upto: nat)
    requires StoredRows(rows) && Semantic(g) == map[] && j < |rows| && upto <= |rows|
    requires !Replayable(rows, j)
    ensures rows[j].key !in Replayed(g, rows[..upto])
    decreases upto
  {
    if upto == 0 {
      assert rows[..0] == [];
    } else {
      var n := upto - 1;
      assert rows[..upto][..n] == rows[..n];
      LostRow(g, rows, j, n);
      if n == j {
        LostAtItsTurn(g, rows, j);
      } else {
        OthersLandElsewhere(Replayed(g, rows[..n]), rows, j, n);
      }
    }
  }

  /** Rebuild is lossless exactly when every LLM row of a symmetric type runs smaller id first and
      is not preceded by a curator row for the opposite direction. */
  lemma {:induction false} ReplayLosslessIff(g: Edges, rows: seq<Row>)
    requires StoredRows(rows) && Semantic(g) == map[]
    ensures Semantic(Replayed(g, rows)) == AsTable(rows)
            <==> forall j :: 0 <= j < |rows| ==> Replayable(rows, j)
  {
    if forall j :: 0 <= j < |rows| ==> Replayable(rows, j) {
      ReplayRestores(g, rows);
    } else {
      var j :| 0 <= j < |rows| && !Replayable(rows, j);
      LostRow(g, rows, j, |rows|);
      assert rows[..|rows|] == rows;
      TableLists(rows);
      assert rows[j].key in AsTable(rows);
    }
  }
}
