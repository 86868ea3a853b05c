/** The operations that version the store: what each compares, what it emits, what it keeps. */
module Operations {
  import opened Wrappers
  import opened Ids
  import opened Ast
  import opened Transformer
  import opened Diff
  import opened Tables
  import opened Stores
  import opened Emission
  import opened Replication

  datatype Operation =
    | CompileFiles(forest: seq<ParsedNode>, root: string)     // Compile, CompileFile, rescan
    | CompileTree(forest: seq<ParsedNode>, root: string)      // CompileDir that found a file
    | Write(anchor: Option<NodeId>, payload: string, title: string)
    | Summarize(id: NodeId, summary: string, title: string, temp: real)
    | Purge(files: set<string>)

  function FilesOf(flat: seq<ContextNode>): set<string> {
    set n | n in flat :: n.source
  }

  function WriteTarget(op: Operation): NodeId
    requires op.Write?
  {
    if op.anchor.Some? then op.anchor.value else Payload(op.payload)
  }

  /** The stored row with new text, as writes and summaries rebuild it. */
  function Rewritten(id: NodeId, row: Row, text: string, title: string, temp: Option<real>): ContextNode {
    ContextNode(id, row.parent, row.source, row.kind, row.depth, title, text, HashOf(text), temp, [])
  }

  function FreshNote(id: NodeId, text: string, title: string): ContextNode {
    ContextNode(id, None, WRITE_SOURCE, "text", 1, title, text, HashOf(text), None, [])
  }

  function RootsOf(nodes: NodeTable, op: Operation): seq<ContextNode> {
    match op
    case CompileFiles(forest, _) => Enrich(forest)
    case CompileTree(forest, _) => Enrich(forest)
    case Write(_, payload, title) =>
      var id := WriteTarget(op);
      if id in nodes then [Rewritten(id, nodes[id], payload, title, None)] else [FreshNote(id, payload, title)]
    case Summarize(id, summary, title, temp) =>
      if id in nodes then [Rewritten(id, nodes[id], summary, title, Some(temp))] else []
    case Purge(_) => []
  }

  function TreeOf(nodes: NodeTable, op: Operation): seq<ContextNode> {
    Flatten(RootsOf(nodes, op))
  }

  function OneRow(nodes: NodeTable, id: NodeId): State {
    if id in nodes then map[id := View(nodes)[id]] else map[]
  }

  /** The rows each operation compares its tree with. */
  function ScopeOf(db: Db, op: Operation): State {
    match op
    case CompileFiles(_, _) => NodesByFiles(db.nodes, FilesOf(TreeOf(db.nodes, op)))
    case CompileTree(_, root) => NodesByCompileRoot(db, root)
    case Write(_, _, _) => OneRow(db.nodes, WriteTarget(op))
    case Summarize(id, _, _, _) => OneRow(db.nodes, id)
    case Purge(files) => NodesByFiles(db.nodes, files)
  }

  function PurgedPairs(rows: seq<NodeId>, prev: State): seq<HashedPair>
    requires forall id | id in rows :: id in prev
  {
    seq(|rows|, i requires 0 <= i < |rows| => Purged(rows[i], prev[rows[i]].hash))
  }

  function RequestOf(db: Db, op: Operation, order: seq<NodeId>): Request
    requires forall id | id in order :: id in ScopeOf(db, op)
  {
    var flat, prev := TreeOf(db.nodes, op), ScopeOf(db, op);
    Request(RootsOf(db.nodes, op), DiffOf(flat, prev, order),
            if op.Purge? then CursorHash(multiset(PurgedPairs(order, prev))) else CursorHashFlat(flat),
            if op.CompileFiles? || op.CompileTree? then op.root else "")
  }

  /**
   The parsers' guarantee, an absolute directory, and an anchor that does not name a
   position which the table has no row for.
  */
  ghost predicate Legal(db: Db, op: Operation) {
    match op
    case CompileFiles(forest, _) => WellParsedForest(forest)
    case CompileTree(forest, root) => WellParsedForest(forest) && root != ""
    case Write(anchor, _, _) => anchor.Some? && anchor.value.Pos? ==> anchor.value in db.nodes
    case _ => true
  }

  function Outcome(db: Db, op: Operation, order: seq<NodeId>): Result<Db, StoreError>
    requires forall id | id in order :: id in ScopeOf(db, op)
  {
    Emitted(db, RequestOf(db, op, order))
  }

  /** A request is emitted: the store accepts it and, unless it is empty, some attempt gets through. */
  ghost predicate Lands(db: Db, req: Request, weather: nat -> Weather, patient: nat -> bool) {
    Emitted(db, req).Ok? && (req.deltas == [] || ClearEventually(weather, patient))
  }

  /** What the store holds once an operation was attempted. */
  ghost function Attempted(db: Db, op: Operation, order: seq<NodeId>, weather: nat -> Weather, patient: nat -> bool): Db
    requires forall id | id in order :: id in ScopeOf(db, op)
  {
    if Lands(db, RequestOf(db, op, order), weather, patient) then Outcome(db, op, order).value else db
  }

  ghost predicate Lists(order: seq<NodeId>, db: Db, op: Operation) {
    ListsRemoved(order, TreeOf(db.nodes, op), ScopeOf(db, op))
  }

  // ----- every operation is a change -----

  lemma OneNodeTree(n: ContextNode)
    requires n.children == []
    ensures Flatten([n]) == [n]
  {
    FlattenCons(n, []);
    assert [n] == [n] + [];
  }

  lemma SingletonIsChange(nodes: NodeTable, n: ContextNode, prev: State)
    requires Fits(nodes) && Placed(n) && (n.parentId.Some? ==> n.parentId.value in nodes)
    requires prev == OneRow(nodes, n.id)
    ensures Change(nodes, [n], prev)
  {
    IdsOfCons(n, []);
    assert [n] + [] == [n] && [n][1..] == [];
  }

  lemma TreeIsChange(nodes: NodeTable, forest: seq<ParsedNode>, prev: State)
    requires Fits(nodes) && WellParsedForest(forest) && ReadFrom(prev, nodes)
    ensures Wired(Flatten(Enrich(forest))) && Change(nodes, Flatten(Enrich(forest)), prev)
  {
    var flat := Flatten(Enrich(forest));
    EnrichIsWired(forest);
    ParentsKnownMonotone(flat, {}, nodes.Keys);
    forall n | n in flat
      ensures !Gone(n.id, flat, prev)
    {
      forall top | Below(n.id, top)
        ensures top in IdsOf(flat)
      {
        AncestorsAreListed(flat, {}, n, top);
      }
    }
  }

  lemma OperationIsChange(db: Db, op: Operation)
    requires Fits(db.nodes) && Legal(db, op)
    ensures Change(db.nodes, TreeOf(db.nodes, op), ScopeOf(db, op))
  {
    match op
    case CompileFiles(forest, _) => TreeIsChange(db.nodes, forest, ScopeOf(db, op));
    case CompileTree(forest, _) => TreeIsChange(db.nodes, forest, ScopeOf(db, op));
    case Write(_, _, _) =>
      var n := RootsOf(db.nodes, op)[0];
      OneNodeTree(n);
      SingletonIsChange(db.nodes, n, ScopeOf(db, op));
    case Summarize(id, _, _, _) =>
      if id in db.nodes {
        var n := RootsOf(db.nodes, op)[0];
        OneNodeTree(n);
        SingletonIsChange(db.nodes, n, ScopeOf(db, op));
      }
    case Purge(_) =>
  }

  /**
   An operation succeeds if and only if it has nothing to emit or its cursor hash is new.
   No foreign key fails and no node is missed.
  */
  lemma SucceedsIff(db: Db, op: Operation, order: seq<NodeId>)
    requires Fits(db.nodes) && Legal(db, op) && Lists(order, db, op)
    ensures var req := RequestOf(db, op, order);
            (Outcome(db, op, order).Ok? <==> req.deltas == [] || !CursorUsed(db.snapshots, req.cursor))
            && (Outcome(db, op, order).Err? ==> Outcome(db, op, order).error == CursorReused)
  {
    OperationIsChange(db, op);
    ChangeTakesEffect(db.nodes, RootsOf(db.nodes, op), ScopeOf(db, op), order);
  }

  /** The tables after a success, in terms of what was compared. */
  lemma SuccessMeans(db: Db, op: Operation, order: seq<NodeId>)
    requires Fits(db.nodes) && Legal(db, op) && Lists(order, db, op) && Outcome(db, op, order).Ok?
    ensures var after := Outcome(db, op, order).value; var flat, prev := TreeOf(db.nodes, op), ScopeOf(db, op);
            View(after.nodes) == View(After(db.nodes, flat, prev)) && Fits(after.nodes)
            && (RequestOf(db, op, order).deltas != [] ==> after.nodes == After(db.nodes, flat, prev))
            && (RequestOf(db, op, order).deltas == [] ==> after == db)
  {
    OperationIsChange(db, op);
    EmittedMeans(db, RootsOf(db.nodes, op), ScopeOf(db, op), order, RequestOf(db, op, order));
  }

  /** The same of any change; nothing to emit means that the rows already are what was wanted. */
  lemma EmittedMeans(db: Db, roots: seq<ContextNode>, prev: State, order: seq<NodeId>, req: Request)
    requires Fits(db.nodes) && Change(db.nodes, Flatten(roots), prev) && ListsRemoved(order, Flatten(roots), prev)
    requires req.roots == roots && req.deltas == DiffOf(Flatten(roots), prev, order) && Emitted(db, req).Ok?
    ensures var after, wanted := Emitted(db, req).value, After(db.nodes, Flatten(roots), prev);
            View(after.nodes) == View(wanted) && Fits(after.nodes)
            && (if req.deltas == [] then after == db else after.nodes == wanted)
  {
    if req.deltas == [] {
      NothingMeans(db.nodes, roots, prev, order);
    } else {
      ChangeTakesEffect(db.nodes, roots, prev, order);
    }
  }

  lemma NothingMeans(nodes: NodeTable, roots: seq<ContextNode>, prev: State, order: seq<NodeId>)
    requires Fits(nodes) && Change(nodes, Flatten(roots), prev) && ListsRemoved(order, Flatten(roots), prev)
    requires DiffOf(Flatten(roots), prev, order) == []
    ensures View(nodes) == View(After(nodes, Flatten(roots), prev))
  {
    ReplayIsExact(nodes, roots, prev, order);
    assert Replay(View(nodes), []) == View(nodes);
  }
}
