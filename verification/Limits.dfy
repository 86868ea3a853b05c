/** Where the versioned store falls short of what its callers may expect, and exactly when. */
module Limits {
  import opened Wrappers
  import opened Ids
  import opened Ast
  import opened Diff
  import opened Tables
  import opened Stores
  import opened Emission
  import opened Replication
  import opened Operations
  import opened Compiler
  import opened Versioning

  // ----- going back to an earlier state -----

  /**
   An operation is rejected if and only if its cursor hash was used by any snapshot before and
   the rows that it compares are not already as it wants them. A purge wants none.
  */
  lemma RejectedIff(db: Db, op: Operation, order: seq<NodeId>)
    requires Fits(db.nodes) && Legal(db, op) && Lists(order, db, op)
    ensures Outcome(db, op, order) == Err(CursorReused) <==>
              CursorUsed(db.snapshots, RequestOf(db, op, order).cursor)
              && ScopeOf(db, op) != WholeParse(TreeOf(db.nodes, op))
    ensures Outcome(db, op, order) != Err(CursorReused) ==> Outcome(db, op, order).Ok?
  {
    var flat, prev := TreeOf(db.nodes, op), ScopeOf(db, op);
    SucceedsIff(db, op, order);
    OperationIsChange(db, op);
    EmptyDiff(flat, prev, order);
    SameParseIff(db.nodes, flat, prev);
  }

  lemma SameParseIff(nodes: NodeTable, flat: seq<ContextNode>, prev: State)
    requires Fits(nodes) && Change(nodes, flat, prev)
    ensures prev == WholeParse(flat) <==>
            prev.Keys == IdsOf(flat) && forall n | n in flat :: prev[n.id].hash == n.hash
  {
    WholeIs(flat);
    if prev.Keys == IdsOf(flat) && forall n | n in flat :: prev[n.id].hash == n.hash {
      HashesDecide(nodes, flat, prev);
    }
  }

  lemma HashesDecide(nodes: NodeTable, flat: seq<ContextNode>, prev: State)
    requires Fits(nodes) && Change(nodes, flat, prev)
    requires prev.Keys == IdsOf(flat) && forall n | n in flat :: prev[n.id].hash == n.hash
    ensures prev == WholeParse(flat)
  {
    IdsFound(flat);
    forall id | id in prev
      ensures prev[id] == WholeParse(flat)[id]
    {
      FoundById(flat, id);
      HashDecides(nodes, ById(flat)[id], prev);
    }
  }

  lemma WholeIs(flat: seq<ContextNode>)
    requires DistinctIds(flat)
    ensures WholeParse(flat).Keys == IdsOf(flat) == ById(flat).Keys
    ensures forall n | n in flat :: WholeParse(flat)[n.id] == StateOf(n)
  {
    ByIdOfDistinct(flat);
  }

  lemma HashDecides(nodes: NodeTable, n: ContextNode, prev: State)
    requires Fits(nodes) && Placed(n) && ReadFrom(prev, nodes) && n.id in prev && prev[n.id].hash == n.hash
    ensures prev[n.id] == StateOf(n)
  {
    assert RowFits(n.id, nodes[n.id]);
  }

  /** A cursor hash once used stays used in every run. */
  lemma CursorsStayUsed(db: Db, events: seq<Event>, cursor: CursorHash)
    requires AllowedRun(db, events) && CursorUsed(db.snapshots, cursor)
    ensures CursorUsed(Run(db, events).snapshots, cursor)
  {
    RunExtends(db, events);
    var s :| s in db.snapshots && s.cursor == cursor;
    assert s in Run(db, events).snapshots;
  }

  lemma CommittedCursor(db: Db, req: Request)
    requires Commit(db, req).Ok?
    ensures CursorUsed(Commit(db, req).value.snapshots, req.cursor)
  {
    var after := Commit(db, req).value;
    assert after.snapshots[|db.snapshots|] in after.snapshots;
  }

  /**
   Whatever operation committed a cursor, and whatever ran since, an operation that digests to
   the same cursor and has something to change is rejected.
  */
  lemma RevertIsRejected(
      db: Db, first: Operation, order: seq<NodeId>, events: seq<Event>, again: Operation, later: seq<NodeId>)
    requires Fits(db.nodes) && Legal(db, first) && Lists(order, db, first)
    requires RequestOf(db, first, order).deltas != [] && Outcome(db, first, order).Ok?
    requires AllowedRun(Outcome(db, first, order).value, events)
    requires var now := Run(Outcome(db, first, order).value, events);
             Legal(now, again) && Lists(later, now, again)
             && RequestOf(now, again, later).cursor == RequestOf(db, first, order).cursor
             && ScopeOf(now, again) != WholeParse(TreeOf(now.nodes, again))
    ensures Outcome(Run(Outcome(db, first, order).value, events), again, later) == Err(CursorReused)
  {
    var after := Outcome(db, first, order).value;
    SuccessMeans(db, first, order);
    RunKeepsFit(after, events);
    CommittedCursor(db, RequestOf(db, first, order));
    CursorsStayUsed(after, events, RequestOf(db, first, order).cursor);
    RejectedIff(Run(after, events), again, later);
  }

  /**
   Compiling the same files again, once their rows have become anything else, is rejected, both
   for a whole directory and for the files of a rescan.
  */
  lemma RecompileIsRejected(
      db: Db, op: Operation, order: seq<NodeId>, events: seq<Event>, later: seq<NodeId>)
    requires Fits(db.nodes) && (op.CompileTree? || op.CompileFiles?) && Legal(db, op) && Lists(order, db, op)
    requires RequestOf(db, op, order).deltas != [] && Outcome(db, op, order).Ok?
    requires AllowedRun(Outcome(db, op, order).value, events)
    requires var now := Run(Outcome(db, op, order).value, events);
             Lists(later, now, op) && ScopeOf(now, op) != WholeParse(TreeOf(now.nodes, op))
    ensures Outcome(Run(Outcome(db, op, order).value, events), op, later) == Err(CursorReused)
  {
    RevertIsRejected(db, op, order, events, op, later);
  }

  /** A text written or summarised under an ID can never be put back once it was replaced or deleted. */
  lemma RewriteIsRejected(
      db: Db, first: Operation, order: seq<NodeId>, events: seq<Event>, again: Operation, later: seq<NodeId>)
    requires Fits(db.nodes) && Legal(db, first) && Lists(order, db, first) && SingleText(db, first).Some?
    requires RequestOf(db, first, order).deltas != [] && Outcome(db, first, order).Ok?
    requires AllowedRun(Outcome(db, first, order).value, events)
    requires var now := Run(Outcome(db, first, order).value, events);
             Legal(now, again) && Lists(later, now, again) && SingleText(now, again) == SingleText(db, first)
             && var (id, text) := SingleText(db, first).value; id in now.nodes ==> now.nodes[id].content != text
    ensures Outcome(Run(Outcome(db, first, order).value, events), again, later) == Err(CursorReused)
  {
    var now := Run(Outcome(db, first, order).value, events);
    SingleTree(db, first);
    SingleTree(now, again);
    RevertIsRejected(db, first, order, events, again, later);
  }

  /** The one node a write or a summary emits: its ID and the text it gets. */
  function SingleText(db: Db, op: Operation): Option<(NodeId, string)> {
    match op
    case Write(_, payload, _) => Some((WriteTarget(op), payload))
    case Summarize(id, summary, _, _) => if id in db.nodes then Some((id, summary)) else None
    case _ => None
  }

  lemma SingleTree(db: Db, op: Operation)
    requires SingleText(db, op).Some?
    ensures var (id, text) := SingleText(db, op).value; var flat := TreeOf(db.nodes, op);
            CursorHashFlat(flat) == CursorHash(multiset{Live(id, HashOf(text))})
            && WholeParse(flat) == map[id := NodeState(HashOf(text), text)]
            && ScopeOf(db, op) == OneRow(db.nodes, id)
  {
    var n := RootsOf(db.nodes, op)[0];
    OneNodeTree(n);
    ById1(n);
    assert LivePairs([n]) == [Live(n.id, n.hash)];
  }

  lemma {:induction false} OnceEach<T>(s: seq<T>, x: T)
    requires NoDuplicates(s)
    ensures multiset(s)[x] == if x in s then 1 else 0
  {
    if s != [] {
      assert s == [s[0]] + s[1..];
      assert s[0] !in s[1..] by {
        assert forall k | 0 <= k < |s| - 1 :: s[1..][k] == s[k + 1];
      }
      OnceEach(s[1..], x);
    }
  }

  lemma PurgedPairMembers(order: seq<NodeId>, prev: State, p: HashedPair)
    requires NoDuplicates(order) && forall id :: id in order <==> id in prev
    ensures multiset(PurgedPairs(order, prev))[p]
         == if p.Purged? && p.id in prev && p.hash == prev[p.id].hash then 1 else 0
  {
    var pairs := PurgedPairs(order, prev);
    OnceEach(pairs, p);
    if p.Purged? && p.id in prev && p.hash == prev[p.id].hash {
      var i :| 0 <= i < |order| && order[i] == p.id;
      assert pairs[i] == p;
    }
    assert forall i | 0 <= i < |order| :: order[i] in order;
  }

  /** A purge digests the rows it takes, in whatever order the query lists them. */
  lemma PurgeCursorIsOfRows(order: seq<NodeId>, other: seq<NodeId>, prev: State)
    requires NoDuplicates(order) && (forall id :: id in order <==> id in prev)
    requires NoDuplicates(other) && (forall id :: id in other <==> id in prev)
    ensures CursorHash(multiset(PurgedPairs(order, prev))) == CursorHash(multiset(PurgedPairs(other, prev)))
  {
    var a, b := multiset(PurgedPairs(order, prev)), multiset(PurgedPairs(other, prev));
    forall p
      ensures a[p] == b[p]
    {
      PurgedPairMembers(order, prev, p);
      PurgedPairMembers(other, prev, p);
    }
    assert a == b;
  }

  /** Rows that were purged once can never be purged again in the same state: the file restored keeps them. */
  lemma PurgeAgainIsRejected(
      db: Db, files: set<string>, order: seq<NodeId>, events: seq<Event>, again: set<string>, later: seq<NodeId>)
    requires Fits(db.nodes) && Lists(order, db, Purge(files)) && Outcome(db, Purge(files), order).Ok?
    requires NodesByFiles(db.nodes, files) != map[]
    requires AllowedRun(Outcome(db, Purge(files), order).value, events)
    requires var now := Run(Outcome(db, Purge(files), order).value, events);
             Lists(later, now, Purge(again)) && NodesByFiles(now.nodes, again) == NodesByFiles(db.nodes, files)
    ensures Outcome(Run(Outcome(db, Purge(files), order).value, events), Purge(again), later) == Err(CursorReused)
  {
    var prev := NodesByFiles(db.nodes, files);
    var id :| id in prev;
    assert TreeOf(db.nodes, Purge(files)) == [];
    assert id in order;
    PurgeCursorIsOfRows(order, later, prev);
    RevertIsRejected(db, Purge(files), order, events, Purge(again), later);
  }

  // ----- writes and the scope of a rescan -----

  lemma ById1(n: ContextNode)
    ensures ById([n]) == map[n.id := n]
  {
    assert [n][..0] == [];
  }

  lemma FirstRemoved(order: seq<NodeId>, flat: seq<ContextNode>, prev: State)
    requires ListsRemoved(order, flat, prev) && order != []
    ensures order[0] in prev && order[0] !in IdsOf(flat)
  {
    assert order[0] in order;
  }

  /** A write emits at most the delta of its own node. */
  lemma WriteDeltas(db: Db, op: Operation, order: seq<NodeId>)
    requires op.Write? && Lists(order, db, op)
    ensures var n := RootsOf(db.nodes, op)[0];
            TreeOf(db.nodes, op) == [n] && n.id == WriteTarget(op) && order == []
            && RequestOf(db, op, order).deltas == ChangeOf(n, ScopeOf(db, op))
  {
    var n, prev := RootsOf(db.nodes, op)[0], ScopeOf(db, op);
    OneNodeTree(n);
    SingleScope(db, op);
    if order != [] {
      FirstRemoved(order, TreeOf(db.nodes, op), prev);
      assert false;
    }
    assert [n][1..] == [];
    assert Changes([n], prev) == ChangeOf(n, prev) + Changes([n][1..], prev) == ChangeOf(n, prev);
  }

  lemma WriteEffect(db: Db, op: Operation, order: seq<NodeId>)
    requires Fits(db.nodes) && op.Write? && Legal(db, op) && Lists(order, db, op)
    requires RequestOf(db, op, order).deltas != [] && Outcome(db, op, order).Ok?
    ensures var req, after := RequestOf(db, op, order), Outcome(db, op, order).value;
            Commit(db, req) == Ok(after) && req.compileRoot == ""
            && after.nodes.Keys == db.nodes.Keys + {WriteTarget(op)}
            && forall id :: Mentions(req.deltas, id) <==> id == WriteTarget(op)
  {
    var n, flat, prev := RootsOf(db.nodes, op)[0], TreeOf(db.nodes, op), ScopeOf(db, op);
    WriteDeltas(db, op, order);
    SuccessMeans(db, op, order);
    SingleScope(db, op);
    KeysAfterOne(db.nodes, n, prev);
    var d := ChangeOf(n, prev)[0];
    assert ChangeOf(n, prev) == [d] && d in [d];
  }

  lemma KeysAfterOne(nodes: NodeTable, n: ContextNode, prev: State)
    requires forall top | top in prev :: top in IdsOf([n])
    ensures After(nodes, [n], prev).Keys == nodes.Keys + {n.id}
  {
    ById1(n);
    assert forall id :: !Gone(id, [n], prev);
  }

  /** A write takes its node out of the scope of every rescan, and changes the scope in no other way. */
  lemma WriteLeavesScope(db: Db, op: Operation, order: seq<NodeId>, root: string)
    requires Fits(db.nodes) && LogBounded(db) && root != ""
    requires op.Write? && Legal(db, op) && Lists(order, db, op)
    requires RequestOf(db, op, order).deltas != [] && Outcome(db, op, order).Ok?
    ensures NodesByCompileRoot(Outcome(db, op, order).value, root).Keys
         == NodesByCompileRoot(db, root).Keys - {WriteTarget(op)}
  {
    WriteEffect(db, op, order);
    RootlessCommit(db, RequestOf(db, op, order), root, WriteTarget(op));
  }

  lemma RootlessCommit(db: Db, req: Request, root: string, target: NodeId)
    requires LogBounded(db) && Commit(db, req).Ok? && req.compileRoot != root
    requires Commit(db, req).value.nodes.Keys == db.nodes.Keys + {target}
    requires forall id :: Mentions(req.deltas, id) <==> id == target
    ensures NodesByCompileRoot(Commit(db, req).value, root).Keys == NodesByCompileRoot(db, root).Keys - {target}
  {
    var after := Commit(db, req).value;
    forall id
      ensures id in NodesByCompileRoot(after, root) <==> id in NodesByCompileRoot(db, root) && id != target
    {
      LatestRootAfter(db, req, id, root);
    }
  }

  /**
   Rescan a tree, write to a node below another, rescan without the upper one: the written
   row is deleted by the cascade, yet no delta says so, and a client that patches ID by ID
   keeps it.
  */
  lemma WrittenRowVanishesSilently(
      db: Db, w: Operation, second: seq<NodeId>, db2: Db, b: Operation, third: seq<NodeId>, top: NodeId)
    requires Fits(db.nodes) && LogBounded(db) && w.Write? && Legal(db, w) && Lists(second, db, w)
    requires RequestOf(db, w, second).deltas != [] && Outcome(db, w, second) == Ok(db2)
    requires b.CompileTree? && Legal(db2, b) && top in NodesByCompileRoot(db, b.root)
    requires WriteTarget(w) in db.nodes && Below(WriteTarget(w), top) && WriteTarget(w) != top
    requires Lists(third, db2, b) && !CursorUsed(db2.snapshots, RequestOf(db2, b, third).cursor)
    requires top in third
    ensures WriteTarget(w) in db2.nodes && Outcome(db2, b, third).Ok?
    ensures var db3, deltas := Outcome(db2, b, third).value, RequestOf(db2, b, third).deltas;
            WriteTarget(w) !in db3.nodes && !Mentions(deltas, WriteTarget(w))
            && Patch(View(db2.nodes), deltas) != View(db3.nodes)
            && Replay(View(db2.nodes), deltas) == View(db3.nodes)
  {
    SuccessMeans(db, w, second);
    WrittenIsStored(db, w, second);
    WrittenRowIsUnlisted(db, w, second, b.root, top);
    UnlistedRowVanishes(db2, b, third, top, WriteTarget(w));
  }

  lemma WrittenRowIsUnlisted(db: Db, w: Operation, order: seq<NodeId>, root: string, top: NodeId)
    requires Fits(db.nodes) && LogBounded(db) && root != ""
    requires w.Write? && Legal(db, w) && Lists(order, db, w)
    requires RequestOf(db, w, order).deltas != [] && Outcome(db, w, order).Ok?
    requires top in NodesByCompileRoot(db, root) && WriteTarget(w) != top
    ensures var scope := NodesByCompileRoot(Outcome(db, w, order).value, root); top in scope && WriteTarget(w) !in scope
  {
    WriteLeavesScope(db, w, order, root);
  }

  lemma WrittenIsStored(db: Db, w: Operation, order: seq<NodeId>)
    requires Fits(db.nodes) && w.Write? && Legal(db, w) && Lists(order, db, w)
    requires RequestOf(db, w, order).deltas != [] && Outcome(db, w, order).Ok?
    ensures WriteTarget(w) in Outcome(db, w, order).value.nodes
  {
    WriteEffect(db, w, order);
  }

  lemma UnlistedRowVanishes(db: Db, op: Operation, order: seq<NodeId>, top: NodeId, child: NodeId)
    requires Fits(db.nodes) && Legal(db, op) && Lists(order, db, op)
    requires !CursorUsed(db.snapshots, RequestOf(db, op, order).cursor)
    requires top in order && Below(child, top) && child in db.nodes && child !in ScopeOf(db, op)
    ensures Outcome(db, op, order).Ok?
    ensures var after := Outcome(db, op, order).value; var deltas := RequestOf(db, op, order).deltas;
            child !in after.nodes && !Mentions(deltas, child)
            && Patch(View(db.nodes), deltas) != View(after.nodes)
            && Replay(View(db.nodes), deltas) == View(after.nodes)
  {
    var flat, prev := TreeOf(db.nodes, op), ScopeOf(db, op);
    SucceedsIff(db, op, order);
    OperationIsChange(db, op);
    SuccessMeans(db, op, order);
    assert Gone(child, flat, prev);
    AfterLookup(db.nodes, flat, prev, child);
    assert child !in View(After(db.nodes, flat, prev));
    DiffMentions(flat, prev, order, child);
    PatchIsExactIff(db.nodes, flat, prev, order);
    ReplayIsExact(db.nodes, RootsOf(db.nodes, op), prev, order);
  }

  // ----- stale anchors -----

  /**
   A write keeps the table a forest described by its IDs if and only if its target is in the
   table or is no position: an anchor for a position that was deleted creates a root row
   under an ID that says otherwise.
  */
  lemma WriteKeepsFitIff(db: Db, op: Operation)
    requires Fits(db.nodes) && op.Write? && Lists([], db, op) && Outcome(db, op, []).Ok?
    ensures var id := WriteTarget(op);
            Fits(Outcome(db, op, []).value.nodes)
            <==> id in db.nodes || !id.Pos? || (id.parent.None? && id.source == WRITE_SOURCE)
  {
    var id := WriteTarget(op);
    if id in db.nodes || !id.Pos? {
      assert Legal(db, op);
      SuccessMeans(db, op, []);
    } else {
      FreshRow(db, op);
      var after := Outcome(db, op, []).value.nodes;
      assert RowFits(id, after[id]) <==> id.parent.None? && id.source == WRITE_SOURCE;
      assert forall x | x in db.nodes :: x in after && after[x] == db.nodes[x];
    }
  }

  lemma FreshRow(db: Db, op: Operation)
    requires op.Write? && Lists([], db, op) && Outcome(db, op, []).Ok? && WriteTarget(op) !in db.nodes
    ensures var n := FreshNote(WriteTarget(op), op.payload, op.title);
            Outcome(db, op, []).value.nodes == db.nodes[n.id := RowOf(n, db.nodes)]
  {
    var n := FreshNote(WriteTarget(op), op.payload, op.title);
    WriteDeltas(db, op, []);
    ById1(n);
    var ds := ChangeOf(n, map[]);
    assert ds[1..] == [];
    assert ApplyDeltas(db.nodes, ds, map[n.id := n]) == Upsert(db.nodes, n);
  }
}
