/** The meaning of the SQL statements, on values. */
module Tables {
  import opened Wrappers
  import opened Ids
  import opened Ast
  import opened Diff

  datatype Row = Row(
    parent: Option<NodeId>, source: string, kind: string, depth: nat,
    title: string, content: string, hash: Hash, temp: real)

  type NodeTable = map<NodeId, Row>

  datatype StoreError = NodeNotFound(id: NodeId) | ForeignKey(id: NodeId) | CursorReused

  /** Why a transaction failed: a constraint, a lock, any other driver error, or a caller that stopped waiting. */
  datatype TxError = Rejected(cause: StoreError) | Busy | Aborted | Cancelled

  /**
   What one attempt meets, at its first statement that fails: nothing, a locked database, or
   something that is not retried, such as a context cancelled in the middle.
  */
  datatype Weather = Clear | Locked | Broken

  const DEFAULT_TEMP := 0.5

  function View(nodes: NodeTable): State {
    map id | id in nodes :: NodeState(nodes[id].hash, nodes[id].content)
  }

  /** An insert takes the seed or the default; an update without a seed keeps the stored temperature. */
  function RowOf(n: ContextNode, nodes: NodeTable): Row {
    var temp := if n.temp.Some? then n.temp.value else if n.id in nodes then nodes[n.id].temp else DEFAULT_TEMP;
    Row(n.parentId, n.source, n.kind, n.depth, n.title, n.content, n.hash, temp)
  }

  /** The constraint is checked when the statement is done, so a row may be its own parent. */
  predicate ParentExists(n: ContextNode, nodes: NodeTable) {
    n.parentId.Some? ==> n.parentId.value == n.id || n.parentId.value in nodes
  }

  function Upsert(nodes: NodeTable, n: ContextNode): Result<NodeTable, StoreError> {
    if ParentExists(n, nodes) then Ok(nodes[n.id := RowOf(n, nodes)]) else Err(ForeignKey(n.id))
  }

  function ChildrenOf(nodes: NodeTable, parents: set<NodeId>): set<NodeId> {
    set id | id in nodes && nodes[id].parent.Some? && nodes[id].parent.value in parents
  }

  /** The rows that ON DELETE CASCADE takes along with `dead`. */
  function Cascade(nodes: NodeTable, dead: set<NodeId>): set<NodeId>
    decreases nodes.Keys - dead
  {
    var next := ChildrenOf(nodes, dead);
    if next <= dead then dead
    else
      assert nodes.Keys - (dead + next) < nodes.Keys - dead by {
        var x :| x in next && x !in dead;
        assert x in nodes.Keys - dead && x !in nodes.Keys - (dead + next);
      }
      Cascade(nodes, dead + next)
  }

  function Delete(nodes: NodeTable, id: NodeId): NodeTable {
    if id in nodes then nodes - Cascade(nodes, {id}) else nodes
  }

  // ----- the cascade is the least set closed under children -----

  ghost predicate ClosedUnderChildren(nodes: NodeTable, s: set<NodeId>) {
    ChildrenOf(nodes, s) <= s
  }

  lemma {:induction false} CascadeIsLeast(nodes: NodeTable, dead: set<NodeId>, s: set<NodeId>)
    ensures dead <= Cascade(nodes, dead) && ClosedUnderChildren(nodes, Cascade(nodes, dead))
    ensures dead <= s && ClosedUnderChildren(nodes, s) ==> Cascade(nodes, dead) <= s
    decreases nodes.Keys - dead
  {
    var next := ChildrenOf(nodes, dead);
    if !(next <= dead) {
      assert nodes.Keys - (dead + next) < nodes.Keys - dead by {
        var x :| x in next && x !in dead;
        assert x in nodes.Keys - dead && x !in nodes.Keys - (dead + next);
      }
      CascadeIsLeast(nodes, dead + next, s);
      if dead <= s && ClosedUnderChildren(nodes, s) {
        assert next <= ChildrenOf(nodes, s);
      }
    }
  }

  // ----- a table whose rows agree with their IDs -----

  predicate RowFits(id: NodeId, row: Row) {
    WellPlaced(id)
    && row.parent == ParentOf(id) && row.source == SourceOf(id) && row.depth == DepthOf(id)
    && row.hash == HashOf(row.content)
  }

  ghost predicate Fits(nodes: NodeTable) {
    forall id | id in nodes :: RowFits(id, nodes[id]) && (ParentOf(id).Some? ==> ParentOf(id).value in nodes)
  }

  function Prune(nodes: NodeTable, top: NodeId): NodeTable {
    map id | id in nodes && !Below(id, top) :: nodes[id]
  }

  lemma {:induction false} AncestorsArePresent(nodes: NodeTable, id: NodeId, top: NodeId)
    requires Fits(nodes) && id in nodes && Below(id, top)
    ensures top in nodes
  {
    if id != top {
      AncestorsArePresent(nodes, ParentOf(id).value, top);
    }
  }

  lemma {:induction false} BelowIsCascaded(nodes: NodeTable, s: set<NodeId>, id: NodeId, top: NodeId)
    requires Fits(nodes) && ClosedUnderChildren(nodes, s) && top in s && id in nodes && Below(id, top)
    ensures id in s
  {
    if id != top {
      BelowIsCascaded(nodes, s, ParentOf(id).value, top);
      assert id in ChildrenOf(nodes, s);
    }
  }

  /** The cascade through the parent column removes exactly the subtree that the IDs describe. */
  lemma DeleteIsPrune(nodes: NodeTable, top: NodeId)
    requires Fits(nodes)
    ensures Delete(nodes, top) == Prune(nodes, top)
  {
    if top in nodes {
      var subtree := set id | id in nodes && Below(id, top);
      forall id | id in ChildrenOf(nodes, subtree)
        ensures id in subtree
      {
        assert Below(ParentOf(id).value, top);
      }
      var s := Cascade(nodes, {top});
      CascadeIsLeast(nodes, {top}, subtree);
      forall id | id in nodes
        ensures id in s <==> Below(id, top)
      {
        if Below(id, top) {
          BelowIsCascaded(nodes, s, id, top);
        }
      }
      assert Delete(nodes, top) == Prune(nodes, top);
    } else {
      forall id | id in nodes && Below(id, top)
        ensures false
      {
        AncestorsArePresent(nodes, id, top);
      }
      assert Delete(nodes, top) == Prune(nodes, top);
    }
  }

  lemma DeleteKeepsFit(nodes: NodeTable, top: NodeId)
    requires Fits(nodes)
    ensures Fits(Delete(nodes, top))
  {
    DeleteIsPrune(nodes, top);
    forall id | id in Prune(nodes, top) && ParentOf(id).Some?
      ensures ParentOf(id).value in Prune(nodes, top)
    {
      assert Below(ParentOf(id).value, top) ==> Below(id, top);
    }
  }

  lemma UpsertKeepsFit(nodes: NodeTable, n: ContextNode)
    requires Fits(nodes) && Placed(n) && ParentExists(n, nodes)
    ensures Upsert(nodes, n).Ok? && Fits(Upsert(nodes, n).value)
    ensures View(Upsert(nodes, n).value) == View(nodes)[n.id := StateOf(n)]
  {}

  /** An upsert is accepted if and only if the row's parent, if it has one, is in the table once the row is. */
  lemma ForeignKeyHoldsAfter(nodes: NodeTable, n: ContextNode)
    ensures var after := nodes[n.id := RowOf(n, nodes)];
            Upsert(nodes, n)
            == if n.parentId.Some? ==> n.parentId.value in after then Ok(after) else Err(ForeignKey(n.id))
  {}
}
