/** The tool handlers and the rescan purge, each a read-modify-write under the operation lock. */
module Handlers {
  import opened Wrappers
  import opened Ids
  import opened Ast
  import opened Diff
  import opened Tables
  import opened Stores
  import opened Operations
  import opened Rows

  datatype ToolError = TemperatureOutOfRange | NoSuchNode | Failed(cause: TxError)

  method EmitNodeChange(st: Store, node: ContextNode, prev: State, rank: NodeId -> nat,
                        weather: nat -> Weather, patient: nat -> bool)
    returns (err: Option<TxError>, ghost order: seq<NodeId>)
    modifies st
    ensures ListsRemoved(order, Flatten([node]), prev)
    ensures var req := Request([node], DiffOf(Flatten([node]), prev, order), CursorHashFlat(Flatten([node])), "");
            var before := old(st.Contents());
            (err.None? <==> Lands(before, req, weather, patient))
            && st.Contents() == if err.None? then Emitted(before, req).value else before
  {
    var flat := CollectNodes([], [node]);
    assert flat == Flatten([node]);
    var deltas := DiffFlat(flat, prev, rank);
    order :| ListsRemoved(order, flat, prev) && SortedBy(order, rank) && deltas == DiffOf(flat, prev, order);
    err := st.Emit(Request([node], deltas, CursorHashFlat(flat), ""), weather, patient);
  }

  method HandleWrite(st: Store, anchor: Option<NodeId>, payload: string, title: string, rank: NodeId -> nat,
                     weather: nat -> Weather, patient: nat -> bool)
    returns (err: Option<TxError>, ghost order: seq<NodeId>)
    modifies st
    ensures var before := old(st.Contents()); var op := Write(anchor, payload, title);
            Lists(order, before, op)
            && (err.None? <==> Lands(before, RequestOf(before, op, order), weather, patient))
            && st.Contents() == Attempted(before, op, order, weather, patient)
            && (err.None? && Fits(before.nodes) && Legal(before, op) ==>
                  var id := if anchor.Some? then anchor.value else Payload(payload);
                  st.nodes == Noted(before.nodes, id, payload, title))
  {
    ghost var before := st.Contents();
    ghost var op := Write(anchor, payload, title);
    var id := if anchor.Some? then anchor.value else Payload(payload);
    var prev: State := map[];
    var node;
    if id in st.nodes {
      var row := st.nodes[id];
      prev := prev[id := NodeState(row.hash, row.content)];
      node := ContextNode(id, row.parent, row.source, row.kind, row.depth, title, payload, HashOf(payload), None, []);
    } else {
      node := ContextNode(id, None, WRITE_SOURCE, "text", 1, title, payload, HashOf(payload), None, []);
    }
    err, order := EmitNodeChange(st, node, prev, rank, weather, patient);
    if err.None? && Fits(before.nodes) && Legal(before, op) {
      WriteNotes(before, anchor, payload, title, order);
    }
  }

  method HandleSummarize(st: Store, id: NodeId, summary: string, title: string, temp: Option<real>, rebound: real,
                         rank: NodeId -> nat, weather: nat -> Weather, patient: nat -> bool)
    returns (err: Option<ToolError>, ghost order: seq<NodeId>)
    modifies st
    ensures err.Some? ==> st.Contents() == old(st.Contents())
    ensures err == Some(TemperatureOutOfRange) <==> temp.Some? && !(0.0 <= temp.value <= 1.0)
    ensures err == Some(NoSuchNode) <==> (temp.Some? ==> 0.0 <= temp.value <= 1.0) && id !in old(st.nodes)
    ensures (temp.Some? ==> 0.0 <= temp.value <= 1.0) && id in old(st.nodes) ==>
              var before := old(st.Contents());
              var op := Summarize(id, summary, title, if temp.Some? then temp.value else rebound);
              Lists(order, before, op)
              && (err.None? <==> Lands(before, RequestOf(before, op, order), weather, patient))
              && st.Contents() == Attempted(before, op, order, weather, patient)
              && (err.None? && Fits(before.nodes) ==> st.nodes == Summarised(before.nodes, id, summary, title, op.temp))
  {
    ghost var before := st.Contents();
    order := [];
    if temp.Some? && (temp.value < 0.0 || temp.value > 1.0) {
      return Some(TemperatureOutOfRange), order;
    }
    if id !in st.nodes {
      return Some(NoSuchNode), order;
    }
    var row := st.nodes[id];
    var prev: State := map[id := NodeState(row.hash, row.content)];
    var after := if temp.Some? then temp.value else rebound;
    var node := ContextNode(
      id, row.parent, row.source, row.kind, row.depth, title, summary, HashOf(summary), Some(after), []);
    var failed;
    failed, order := EmitNodeChange(st, node, prev, rank, weather, patient);
    err := if failed.Some? then Some(Failed(failed.value)) else None;
    if err.None? && Fits(before.nodes) {
      SummaryRewrites(before, id, summary, title, after, order);
    }
  }

  /** Rows in whatever order the query yields them. */
  method Enumerate(ids: set<NodeId>) returns (rows: seq<NodeId>)
    ensures NoDuplicates(rows) && forall id :: id in rows <==> id in ids
  {
    rows := [];
    var left := ids;
    while left != {}
      invariant left <= ids && NoDuplicates(rows)
      invariant forall id :: id in rows <==> id in ids && id !in left
      decreases left
    {
      var id :| id in left;
      left := left - {id};
      rows := rows + [id];
    }
  }

  /** Deletes the rows of files that are gone, as one snapshot in a cursor domain of its own. */
  method ReconcileDeleted(st: Store, deleted: set<string>, weather: nat -> Weather, patient: nat -> bool)
    returns (err: Option<TxError>, ghost order: seq<NodeId>)
    modifies st
    ensures var before := old(st.Contents()); var op := Purge(deleted);
            Lists(order, before, op)
            && (err.None? <==> Lands(before, RequestOf(before, op, order), weather, patient))
            && st.Contents() == Attempted(before, op, order, weather, patient)
  {
    var prev := NodesByFiles(st.nodes, deleted);
    var rows := Enumerate(prev.Keys);
    order := rows;
    var deltas, synthetic := PurgeDeltas(rows, prev);
    ghost var op := Purge(deleted);
    assert TreeOf(st.nodes, op) == [] && DiffOf([], prev, rows) == deltas;
    var req := Request([], deltas, CursorHash(multiset(synthetic)), "");
    assert req == RequestOf(st.Contents(), op, order);
    err := st.Emit(req, weather, patient);
  }

  method PurgeDeltas(rows: seq<NodeId>, prev: State) returns (deltas: seq<Delta>, synthetic: seq<HashedPair>)
    requires forall id | id in rows :: id in prev
    ensures deltas == Removals(rows, prev) && synthetic == PurgedPairs(rows, prev)
  {
    deltas, synthetic := [], [];
    for i := 0 to |rows|
      invariant |deltas| == |synthetic| == i
      invariant forall j | 0 <= j < i :: deltas[j] == Delta(rows[j], Rem, Some(prev[rows[j]]), None)
      invariant forall j | 0 <= j < i :: synthetic[j] == Purged(rows[j], prev[rows[j]].hash)
    {
      deltas := deltas + [Delta(rows[i], Rem, Some(prev[rows[i]]), None)];
      synthetic := synthetic + [Purged(rows[i], prev[rows[i]].hash)];
    }
  }
}
