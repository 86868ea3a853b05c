/** What an operation leaves in each row, column by column. */
module Rows {
  import opened Wrappers
  import opened Ids
  import opened Ast
  import opened Diff
  import opened Tables
  import opened Stores
  import opened Emission
  import opened Replication
  import opened Operations

  /** The seed if the node carries one, else what was stored, else the middle of the scale. */
  ghost predicate TempIs(temp: real, seed: Option<real>, nodes: NodeTable, id: NodeId) {
    (seed.Some? ==> temp == seed.value)
    && (seed.None? && id in nodes ==> temp == nodes[id].temp)
    && (seed.None? && id !in nodes ==> temp == 0.5)
  }

  /** The row holds the node, field by field. */
  ghost predicate RowHolds(row: Row, n: ContextNode, nodes: NodeTable) {
    row.parent == n.parentId && row.source == n.source && row.kind == n.kind && row.depth == n.depth
    && row.title == n.title && row.content == n.content && row.hash == n.hash
    && TempIs(row.temp, n.temp, nodes, n.id)
  }

  lemma RowOfHolds(n: ContextNode, nodes: NodeTable)
    ensures RowHolds(RowOf(n, nodes), n, nodes)
  {}

  /**
   A node that the diff mentions has exactly its fields in its row, and its seed for a
   temperature if it carries one. A row that the diff does not mention stays as it is or goes
   with a row above it. A row that the diff mentions and the tree lacks is gone.
  */
  lemma RowAfter(db: Db, op: Operation, order: seq<NodeId>, id: NodeId)
    requires Fits(db.nodes) && Legal(db, op) && Lists(order, db, op) && Outcome(db, op, order).Ok?
    ensures var after, tree := Outcome(db, op, order).value.nodes, ById(TreeOf(db.nodes, op));
            var mentioned := Mentions(RequestOf(db, op, order).deltas, id);
            (mentioned && id in tree ==> id in after && tree[id].id == id && RowHolds(after[id], tree[id], db.nodes))
            && (mentioned && id !in tree ==> id !in after)
            && (!mentioned && id in after ==> id in db.nodes && after[id] == db.nodes[id])
            && (!mentioned && id in db.nodes && id !in after ==> Gone(id, TreeOf(db.nodes, op), ScopeOf(db, op)))
  {
    var flat, prev := TreeOf(db.nodes, op), ScopeOf(db, op);
    SuccessMeans(db, op, order);
    OperationIsChange(db, op);
    DiffMentions(flat, prev, order, id);
    if RequestOf(db, op, order).deltas != [] {
      RowInAfter(db.nodes, flat, prev, order, id);
    }
  }

  lemma RowInAfter(nodes: NodeTable, flat: seq<ContextNode>, prev: State, order: seq<NodeId>, id: NodeId)
    requires Fits(nodes) && Change(nodes, flat, prev) && ListsRemoved(order, flat, prev)
    ensures var after, tree := After(nodes, flat, prev), ById(flat);
            var mentioned := Mentions(DiffOf(flat, prev, order), id);
            (mentioned && id in tree ==> id in after && tree[id].id == id && RowHolds(after[id], tree[id], nodes))
            && (mentioned && id !in tree ==> id !in after)
            && (!mentioned && id in after ==> id in nodes && after[id] == nodes[id])
            && (!mentioned && id in nodes && id !in after ==> Gone(id, flat, prev))
  {
    DiffMentions(flat, prev, order, id);
    IdsFound(flat);
    assert Below(id, id);
    if id in ById(flat) {
      FoundById(flat, id);
      RowOfHolds(ById(flat)[id], nodes);
    }
  }

  // ----- notes and summaries -----

  /** The table once a text is noted under an ID: only that row differs, and only if its text is new. */
  function Noted(nodes: NodeTable, id: NodeId, text: string, title: string): NodeTable {
    if id !in nodes then nodes[id := Row(None, "mcp:write", "text", 1, title, text, HashOf(text), 0.5)]
    else if nodes[id].content == text then nodes
    else nodes[id := nodes[id].(title := title, content := text, hash := HashOf(text))]
  }

  /** The same for a summary of a stored node, which also sets its temperature. */
  function Summarised(nodes: NodeTable, id: NodeId, text: string, title: string, temp: real): NodeTable
    requires id in nodes
  {
    if nodes[id].content == text then nodes
    else nodes[id := nodes[id].(title := title, content := text, hash := HashOf(text), temp := temp)]
  }

  /** An operation on one node emits that node if it is new or its hash is, and nothing else. */
  lemma SingleDelta(db: Db, op: Operation, order: seq<NodeId>, n: ContextNode)
    requires (op.Write? || op.Summarize?) && RootsOf(db.nodes, op) == [n] && n.children == []
    requires Lists(order, db, op) && ScopeOf(db, op) == OneRow(db.nodes, n.id)
    ensures TreeOf(db.nodes, op) == [n] && ById([n]) == map[n.id := n]
    ensures forall id :: Mentions(RequestOf(db, op, order).deltas, id)
                         <==> id == n.id && !(id in db.nodes && db.nodes[id].hash == n.hash)
    ensures forall id :: !Gone(id, [n], ScopeOf(db, op))
  {
    var prev := ScopeOf(db, op);
    OneNodeTree(n);
    assert [n][..0] == [] && IdsOf([n]) == {n.id};
    forall id
      ensures Mentions(RequestOf(db, op, order).deltas, id)
              <==> id == n.id && !(id in db.nodes && db.nodes[id].hash == n.hash)
    {
      DiffMentions([n], prev, order, id);
      OneDelta(db.nodes, n, id);
      var found := DeltaOf(id, [n], prev);
      assert found != [] ==> found[0].id == id && Mentions(RequestOf(db, op, order).deltas, id);
    }
  }

  lemma OneDelta(nodes: NodeTable, n: ContextNode, id: NodeId)
    ensures DeltaOf(id, [n], OneRow(nodes, n.id)) != []
            <==> id == n.id && !(id in nodes && nodes[id].hash == n.hash)
  {
    assert [n][..0] == [] && ById([n]) == map[n.id := n];
    assert n.id in nodes ==> OneRow(nodes, n.id)[n.id].hash == nodes[n.id].hash;
  }

  lemma SingleRow(db: Db, op: Operation, order: seq<NodeId>, n: ContextNode, wanted: NodeTable)
    requires Fits(db.nodes) && Legal(db, op) && Lists(order, db, op) && Outcome(db, op, order).Ok?
    requires (op.Write? || op.Summarize?) && RootsOf(db.nodes, op) == [n] && n.children == []
    requires ScopeOf(db, op) == OneRow(db.nodes, n.id)
    requires wanted.Keys == db.nodes.Keys + {n.id}
    requires forall id | id in db.nodes && id != n.id :: wanted[id] == db.nodes[id]
    requires if n.id in db.nodes && db.nodes[n.id].hash == n.hash then wanted[n.id] == db.nodes[n.id]
             else RowHolds(wanted[n.id], n, db.nodes)
    ensures Outcome(db, op, order).value.nodes == wanted
  {
    var after := Outcome(db, op, order).value.nodes;
    SingleDelta(db, op, order, n);
    forall id
      ensures id in after <==> id in wanted
      ensures id in after ==> after[id] == wanted[id]
    {
      RowAfter(db, op, order, id);
      if id == n.id {
        SameHolder(db, op, order, n, wanted[id]);
      }
    }
  }

  lemma SameHolder(db: Db, op: Operation, order: seq<NodeId>, n: ContextNode, row: Row)
    requires Fits(db.nodes) && Legal(db, op) && Lists(order, db, op) && Outcome(db, op, order).Ok?
    requires (op.Write? || op.Summarize?) && RootsOf(db.nodes, op) == [n] && n.children == []
    requires ScopeOf(db, op) == OneRow(db.nodes, n.id)
    requires if n.id in db.nodes && db.nodes[n.id].hash == n.hash then row == db.nodes[n.id]
             else RowHolds(row, n, db.nodes)
    ensures var after := Outcome(db, op, order).value.nodes; n.id in after && after[n.id] == row
  {
    SingleDelta(db, op, order, n);
    RowAfter(db, op, order, n.id);
  }

  lemma NotedRow(nodes: NodeTable, id: NodeId, n: ContextNode, text: string, title: string)
    requires Fits(nodes) && n.id == id
    requires n == if id in nodes then Rewritten(id, nodes[id], text, title, None) else FreshNote(id, text, title)
    ensures var wanted := Noted(nodes, id, text, title);
            wanted.Keys == nodes.Keys + {id} && (forall x | x in nodes && x != id :: wanted[x] == nodes[x])
            && if id in nodes && nodes[id].hash == n.hash then wanted[id] == nodes[id]
               else RowHolds(wanted[id], n, nodes)
  {
    assert id in nodes ==> RowFits(id, nodes[id]);
  }

  lemma WriteRoots(nodes: NodeTable, anchor: Option<NodeId>, payload: string, title: string)
    ensures var op := Write(anchor, payload, title);
            var id := if anchor.Some? then anchor.value else Payload(payload);
            RootsOf(nodes, op)
            == [if id in nodes then Rewritten(id, nodes[id], payload, title, None) else FreshNote(id, payload, title)]
  {}

  /** A note that succeeds leaves exactly the table that is meant, every column of every row. */
  lemma WriteNotes(db: Db, anchor: Option<NodeId>, payload: string, title: string, order: seq<NodeId>)
    requires var op := Write(anchor, payload, title);
             Fits(db.nodes) && Legal(db, op) && Lists(order, db, op) && Outcome(db, op, order).Ok?
    ensures Outcome(db, Write(anchor, payload, title), order).value.nodes
         == Noted(db.nodes, if anchor.Some? then anchor.value else Payload(payload), payload, title)
  {
    var op := Write(anchor, payload, title);
    var id := if anchor.Some? then anchor.value else Payload(payload);
    var n := RootsOf(db.nodes, op)[0];
    WriteRoots(db.nodes, anchor, payload, title);
    NotedRow(db.nodes, id, n, payload, title);
    SingleRow(db, op, order, n, Noted(db.nodes, id, payload, title));
  }

  /** So does a summary; in particular a summary whose text is new ends at the temperature it was given. */
  lemma SummaryRewrites(db: Db, id: NodeId, summary: string, title: string, temp: real, order: seq<NodeId>)
    requires var op := Summarize(id, summary, title, temp);
             Fits(db.nodes) && id in db.nodes && Lists(order, db, op) && Outcome(db, op, order).Ok?
    ensures Outcome(db, Summarize(id, summary, title, temp), order).value.nodes
         == Summarised(db.nodes, id, summary, title, temp)
  {
    var op := Summarize(id, summary, title, temp);
    assert RowFits(id, db.nodes[id]);
    SingleRow(db, op, order, RootsOf(db.nodes, op)[0], Summarised(db.nodes, id, summary, title, temp));
  }
}
