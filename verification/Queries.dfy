/** The recursive tree queries. */
module Queries {
  import opened Wrappers
  import opened Ids
  import opened Tables

  /** `rows` climbs from a row to a root, one parent at a time. */
  ghost predicate Climbs(rows: seq<NodeId>, nodes: NodeTable) {
    (forall k | 0 <= k < |rows| :: rows[k] in nodes)
    && forall k | 0 <= k < |rows| - 1 :: nodes[rows[k]].parent == Some(rows[k + 1])
  }

  lemma StepUp(nodes: NodeTable, at: NodeId)
    requires Fits(nodes) && at in nodes
    ensures nodes[at].depth == DepthOf(at) && nodes[at].parent == ParentOf(at) && nodes[at].source == SourceOf(at)
    ensures var up := nodes[at].parent;
            if up.Some? then up.value in nodes && Below(at, up.value) && SourceOf(up.value) == SourceOf(at)
                             && DepthOf(at) == 1 + DepthOf(up.value)
            else DepthOf(at) == 1
  {
    assert RowFits(at, nodes[at]);
  }

  /** How far a climb from `id` has come: the rows so far, and the row to take next. */
  ghost predicate Climbed(nodes: NodeTable, id: NodeId, rows: seq<NodeId>, next: Option<NodeId>)
    requires id in nodes
  {
    Climbs(rows, nodes)
    && (if rows == [] then next == Some(id) else rows[0] == id && next == nodes[rows[|rows| - 1]].parent)
    && (next.Some? ==> next.value in nodes && Below(id, next.value) && SourceOf(next.value) == SourceOf(id))
    && |rows| + (if next.Some? then DepthOf(next.value) else 0) == DepthOf(id) == nodes[id].depth
    && Levels(nodes, rows, DepthOf(id), SourceOf(id)) && Passed(id, rows, next)
  }

  /** One level up from row to row, all in one file. */
  ghost predicate Levels(nodes: NodeTable, rows: seq<NodeId>, depth: nat, source: string) {
    forall k | 0 <= k < |rows| ::
      rows[k] in nodes && nodes[rows[k]].depth == depth - k && nodes[rows[k]].source == source
  }

  lemma RowsOne(nodes: NodeTable, rows: seq<NodeId>, at: NodeId, depth: nat, source: string)
    requires Climbs(rows, nodes) && Levels(nodes, rows, depth, source) && at in nodes
    requires rows != [] ==> nodes[rows[|rows| - 1]].parent == Some(at)
    requires nodes[at].depth == depth - |rows| && nodes[at].source == source
    ensures Climbs(rows + [at], nodes) && Levels(nodes, rows + [at], depth, source)
  {}

  /** Every ancestor is among the rows so far or still to come. */
  ghost predicate Passed(id: NodeId, rows: seq<NodeId>, next: Option<NodeId>) {
    forall top :: Below(id, top) <==> top in rows || (next.Some? && Below(next.value, top))
  }

  lemma ClimbOne(nodes: NodeTable, id: NodeId, rows: seq<NodeId>, at: NodeId)
    requires Fits(nodes) && id in nodes && Climbed(nodes, id, rows, Some(at))
    ensures Climbed(nodes, id, rows + [at], nodes[at].parent)
    ensures nodes[at].parent.Some? ==> DepthOf(nodes[at].parent.value) < DepthOf(at)
  {
    var up := nodes[at].parent;
    StepUp(nodes, at);
    RowsOne(nodes, rows, at, DepthOf(id), SourceOf(id));
    PassedOne(id, rows, at, up);
    if up.Some? {
      BelowTransitive(id, at, up.value);
    }
  }

  lemma PassedOne(id: NodeId, rows: seq<NodeId>, at: NodeId, up: Option<NodeId>)
    requires Passed(id, rows, Some(at)) && up == ParentOf(at)
    ensures Passed(id, rows + [at], up)
  {
    forall top
      ensures Below(id, top) <==> top in rows + [at] || (up.Some? && Below(up.value, top))
    {
      assert Below(at, top) <==> top == at || (up.Some? && Below(up.value, top));
    }
  }

  /**
   The recursive ancestor query. On a table whose rows fit their IDs it terminates, and it
   returns as many rows as the depth of the first, all of one file, the last one a root.
  */
  method GetAncestors(nodes: NodeTable, id: NodeId) returns (rows: seq<NodeId>)
    requires Fits(nodes)
    ensures id !in nodes ==> rows == []
    ensures Climbs(rows, nodes)
    ensures id in nodes ==>
              |rows| == nodes[id].depth > 0 && rows[0] == id && nodes[rows[|rows| - 1]].parent.None?
    ensures forall k | 0 <= k < |rows| :: nodes[rows[k]].depth == |rows| - k && nodes[rows[k]].source == SourceOf(id)
    ensures forall top :: top in rows <==> id in nodes && Below(id, top)
  {
    rows := [];
    var next := if id in nodes then Some(id) else None;
    while next.Some?
      invariant id !in nodes ==> rows == [] && next.None?
      invariant id in nodes ==> Climbed(nodes, id, rows, next)
      decreases if next.Some? then DepthOf(next.value) else 0
    {
      ClimbOne(nodes, id, rows, next.value);
      rows, next := rows + [next.value], nodes[next.value].parent;
    }
  }

  function Max(a: int, b: int): int {
    if a < b then b else a
  }

  /**
   The recursive descendant query, level by level. The first level is taken before the
   limit is looked at, so a limit below one still yields the children.
  */
  method GetDescendants(nodes: NodeTable, id: NodeId, maxDepth: int) returns (found: set<NodeId>)
    requires Fits(nodes)
    ensures forall x :: x in found <==>
                x in nodes && x != id && Below(x, id) && DepthOf(x) <= DepthOf(id) + Max(1, maxDepth)
  {
    var level := 1;
    var frontier := ChildrenOf(nodes, {id});
    found := frontier;
    FirstLevel(nodes, id);
    while level < maxDepth
      invariant 1 <= level <= Max(1, maxDepth)
      invariant forall x :: x in frontier <==> x in nodes && Below(x, id) && DepthOf(x) == DepthOf(id) + level
      invariant forall x :: x in found <==>
                  x in nodes && x != id && Below(x, id) && DepthOf(x) <= DepthOf(id) + level
    {
      NextLevel(nodes, id, level, frontier);
      frontier := ChildrenOf(nodes, frontier);
      level := level + 1;
      found := found + frontier;
    }
  }

  lemma FirstLevel(nodes: NodeTable, id: NodeId)
    requires Fits(nodes)
    ensures forall x :: x in ChildrenOf(nodes, {id}) <==> x in nodes && Below(x, id) && DepthOf(x) == DepthOf(id) + 1
    ensures forall x | Below(x, id) && x != id :: DepthOf(x) > DepthOf(id)
  {
    forall x | Below(x, id)
      ensures DepthOf(x) > DepthOf(id) || x == id
      ensures x != id && DepthOf(x) == DepthOf(id) + 1 ==> ParentOf(x) == Some(id)
    {
      BelowIsDeeper(x, id);
      if x != id {
        BelowIsDeeper(ParentOf(x).value, id);
      }
    }
  }

  lemma NextLevel(nodes: NodeTable, id: NodeId, level: nat, frontier: set<NodeId>)
    requires Fits(nodes) && level >= 1
    requires forall x :: x in frontier <==> x in nodes && Below(x, id) && DepthOf(x) == DepthOf(id) + level
    ensures forall x :: x in ChildrenOf(nodes, frontier) <==>
                x in nodes && Below(x, id) && DepthOf(x) == DepthOf(id) + level + 1
  {
    forall x | x in nodes && Below(x, id) && DepthOf(x) == DepthOf(id) + level + 1
      ensures x in ChildrenOf(nodes, frontier)
    {
      var p := ParentOf(x).value;
      assert p in nodes && Below(p, id) && DepthOf(p) == DepthOf(id) + level;
    }
  }
}
