/**
 What a diff does to the table when it is emitted. Compiles, writes, summaries and
 purges are all of this kind: a flattened tree is compared with some rows of the table,
 and the deltas are applied in order.
*/
module Emission {
  import opened Wrappers
  import opened Ids
  import opened Ast
  import opened Diff
  import opened Tables
  import opened Stores

  /** `prev` was read from the table. */
  ghost predicate ReadFrom(prev: State, nodes: NodeTable) {
    prev.Keys <= nodes.Keys && forall id | id in prev :: prev[id] == View(nodes)[id]
  }

  /** The row sits in the subtree of a previous node that the tree no longer has. */
  predicate Gone(id: NodeId, flat: seq<ContextNode>, prev: State) {
    exists top | top in prev :: top !in IdsOf(flat) && Below(id, top)
  }

  /** What every handler guarantees of the tree and the rows that it compares. */
  ghost predicate Change(nodes: NodeTable, flat: seq<ContextNode>, prev: State) {
    DistinctIds(flat) && ParentsKnown(flat, nodes.Keys) && (forall n | n in flat :: Placed(n))
    && ReadFrom(prev, nodes)
    && forall n | n in flat :: !Gone(n.id, flat, prev)
  }

  function EmittedRow(n: ContextNode, nodes: NodeTable, prev: State): Row {
    if n.id in nodes && ChangeOf(n, prev) == [] then nodes[n.id] else RowOf(n, nodes)
  }

  /** The table afterwards, with no mention of the order of the deltas. */
  function After(nodes: NodeTable, flat: seq<ContextNode>, prev: State): NodeTable {
    map id | id in nodes.Keys + ById(flat).Keys && !Gone(id, flat, prev) ::
      if id in ById(flat) then EmittedRow(ById(flat)[id], nodes, prev) else nodes[id]
  }

  // ----- applying deltas one by one -----

  lemma {:induction false} ApplyConcat(nodes: NodeTable, a: seq<Delta>, b: seq<Delta>, tree: map<NodeId, ContextNode>)
    requires ApplyDeltas(nodes, a, tree).Ok?
    ensures ApplyDeltas(nodes, a + b, tree) == ApplyDeltas(ApplyDeltas(nodes, a, tree).value, b, tree)
    decreases a
  {
    if a == [] {
      assert a + b == b;
    } else {
      assert (a + b)[1..] == a[1..] + b;
      ApplyConcat(ApplyDelta(nodes, a[0], tree).value, a[1..], b, tree);
    }
  }

  /** `after` is `nodes` with the changed nodes of `flat` written over it. */
  ghost predicate Written(after: NodeTable, nodes: NodeTable, flat: seq<ContextNode>, prev: State) {
    after.Keys == nodes.Keys + IdsOf(flat)
    && (forall n | n in flat :: after[n.id] == EmittedRow(n, nodes, prev))
    && forall id | id in nodes && id !in IdsOf(flat) :: after[id] == nodes[id]
  }

  /** One node: skipped, or upserted with its parent already there. */
  lemma ChangeApplies(nodes: NodeTable, n: ContextNode, prev: State, tree: map<NodeId, ContextNode>)
    requires Fits(nodes) && Placed(n) && ParentExists(n, nodes)
    requires n.id in tree && tree[n.id] == n
    requires n.id in prev ==> n.id in nodes
    ensures var r := ApplyDeltas(nodes, ChangeOf(n, prev), tree);
            r.Ok? && Fits(r.value) && Written(r.value, nodes, [n], prev)
  {
    var ds := ChangeOf(n, prev);
    assert IdsOf([n]) == {n.id};
    if ds == [] {
      assert ApplyDeltas(nodes, ds, tree) == Ok(nodes);
    } else {
      UpsertKeepsFit(nodes, n);
      assert ds[1..] == [];
      assert ApplyDeltas(nodes, ds, tree) == Upsert(nodes, n);
    }
  }

  lemma {:induction false} ChangesApply(
      nodes: NodeTable, flat: seq<ContextNode>, prev: State, tree: map<NodeId, ContextNode>)
    requires Fits(nodes) && DistinctIds(flat) && ParentsKnown(flat, nodes.Keys)
    requires forall n | n in flat :: Placed(n) && n.id in tree && tree[n.id] == n
    requires forall n | n in flat && n.id in prev :: n.id in nodes
    ensures var r := ApplyDeltas(nodes, Changes(flat, prev), tree);
            r.Ok? && Fits(r.value) && Written(r.value, nodes, flat, prev)
    decreases flat
  {
    if flat != [] {
      var n, rest := flat[0], flat[1..];
      assert flat == [n] + rest;
      ChangeApplies(nodes, n, prev, tree);
      var mid := ApplyDeltas(nodes, ChangeOf(n, prev), tree).value;
      assert n.id in mid && mid.Keys == nodes.Keys + {n.id};
      ChangesApply(mid, rest, prev, tree);
      ApplyConcat(nodes, ChangeOf(n, prev), Changes(rest, prev), tree);
      WrittenTwice(ApplyDeltas(mid, Changes(rest, prev), tree).value, mid, nodes, n, rest, prev);
    }
  }

  lemma WrittenTwice(
      after: NodeTable, mid: NodeTable, nodes: NodeTable, n: ContextNode, rest: seq<ContextNode>, prev: State)
    requires Written(mid, nodes, [n], prev) && Written(after, mid, rest, prev) && DistinctIds([n] + rest)
    ensures Written(after, nodes, [n] + rest, prev)
  {
    IdsOfCons(n, rest);
    IdsOfCons(n, []);
    DistinctCons(n, rest);
    assert [n] + [] == [n] && n in [n];
    forall m | m in [n] + rest
      ensures after[m.id] == EmittedRow(m, nodes, prev)
    {
      RowWrittenTwice(after, mid, nodes, n, rest, prev, m);
    }
  }

  lemma RowWrittenTwice(
      after: NodeTable, mid: NodeTable, nodes: NodeTable, n: ContextNode, rest: seq<ContextNode>, prev: State,
      m: ContextNode)
    requires Written(mid, nodes, [n], prev) && Written(after, mid, rest, prev)
    requires n.id !in IdsOf(rest) && m in [n] + rest
    ensures m.id in after && after[m.id] == EmittedRow(m, nodes, prev)
  {
    assert IdsOf([n]) == {n.id} && n in [n];
    if m in rest {
      assert m.id in IdsOf(rest) && m.id != n.id;
      SameEmittedRow(m, mid, nodes, prev);
    } else {
      assert m == n && after[n.id] == mid[n.id];
    }
  }

  /** What is emitted for a node depends on the table at its own ID only. */
  lemma SameEmittedRow(n: ContextNode, a: NodeTable, b: NodeTable, prev: State)
    requires (n.id in a <==> n.id in b) && (n.id in a ==> a[n.id] == b[n.id])
    ensures EmittedRow(n, a, prev) == EmittedRow(n, b, prev)
  {}

  function PruneAll(nodes: NodeTable, tops: seq<NodeId>): NodeTable {
    map id | id in nodes && (forall top | top in tops :: !Below(id, top)) :: nodes[id]
  }

  lemma {:induction false} RemovalsApply(
      nodes: NodeTable, order: seq<NodeId>, prev: State, tree: map<NodeId, ContextNode>)
    requires Fits(nodes) && forall id | id in order :: id in prev
    ensures ApplyDeltas(nodes, Removals(order, prev), tree) == Ok(PruneAll(nodes, order))
    ensures Fits(PruneAll(nodes, order))
    decreases order
  {
    if order == [] {
      assert PruneAll(nodes, order) == nodes;
    } else {
      var ds := Removals(order, prev);
      var top, rest := order[0], order[1..];
      assert order == [top] + rest;
      assert ds[1..] == Removals(rest, prev);
      DeleteIsPrune(nodes, top);
      DeleteKeepsFit(nodes, top);
      RemovalsApply(Prune(nodes, top), rest, prev, tree);
      assert PruneAll(Prune(nodes, top), rest) == PruneAll(nodes, order);
    }
  }

  /**
   Emitting a change never violates the parent foreign key and never misses a node. Its
   effect is the same for every order of the removals, and the rows still fit their IDs.
  */
  lemma ChangeTakesEffect(nodes: NodeTable, roots: seq<ContextNode>, prev: State, order: seq<NodeId>)
    requires Fits(nodes)
    requires Change(nodes, Flatten(roots), prev) && ListsRemoved(order, Flatten(roots), prev)
    ensures var flat := Flatten(roots);
            ApplyDeltas(nodes, DiffOf(flat, prev, order), ById(flat)) == Ok(After(nodes, flat, prev))
            && Fits(After(nodes, flat, prev))
  {
    var flat := Flatten(roots);
    var tree := ById(flat);
    ByIdOfDistinct(flat);
    ChangesApply(nodes, flat, prev, tree);
    var mid := ApplyDeltas(nodes, Changes(flat, prev), tree).value;
    RemovalsApply(mid, order, prev, tree);
    ApplyConcat(nodes, Changes(flat, prev), Removals(order, prev), tree);
    AfterIsPruned(mid, nodes, flat, prev, order);
  }

  lemma AfterIsPruned(mid: NodeTable, nodes: NodeTable, flat: seq<ContextNode>, prev: State, order: seq<NodeId>)
    requires Written(mid, nodes, flat, prev) && DistinctIds(flat) && ListsRemoved(order, flat, prev)
    ensures PruneAll(mid, order) == After(nodes, flat, prev)
  {
    IdsFound(flat);
    var pruned, after := PruneAll(mid, order), After(nodes, flat, prev);
    forall id
      ensures id in pruned <==> id in after
      ensures id in pruned ==> pruned[id] == after[id]
    {
      RemovedAbove(id, flat, prev, order);
      if id in ById(flat) {
        FoundById(flat, id);
      }
    }
    assert pruned.Keys == after.Keys && pruned == after;
  }

  lemma RemovedAbove(id: NodeId, flat: seq<ContextNode>, prev: State, order: seq<NodeId>)
    requires ListsRemoved(order, flat, prev)
    ensures (forall top | top in order :: !Below(id, top)) <==> !Gone(id, flat, prev)
  {
    if Gone(id, flat, prev) {
      var top :| top in prev && top !in IdsOf(flat) && Below(id, top);
      assert top in order;
    }
  }
}
