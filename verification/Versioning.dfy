/** Whole runs: what every reachable state of the store satisfies. */
module Versioning {
  import opened Wrappers
  import opened Ids
  import opened Ast
  import opened Diff
  import opened Tables
  import opened Stores
  import opened Emission
  import opened Replication
  import opened Operations
  import opened Compiler

  /**
   An operation with the order its removals come out in, and whether the attempts all met a
   locked database; or a decay, boost or reseed, which rewrites temperatures only.
  */
  datatype Event = Operate(op: Operation, order: seq<NodeId>, locked: bool) | Retemper(temps: map<NodeId, real>)

  function WithTemps(nodes: NodeTable, temps: map<NodeId, real>): NodeTable {
    map id | id in nodes :: if id in temps then nodes[id].(temp := temps[id]) else nodes[id]
  }

  ghost predicate Allowed(db: Db, e: Event) {
    e.Operate? ==> Legal(db, e.op) && Lists(e.order, db, e.op)
  }

  ghost function Exec(db: Db, e: Event): Db
    requires Allowed(db, e)
  {
    match e
    case Retemper(temps) => db.(nodes := WithTemps(db.nodes, temps))
    case Operate(op, order, locked) =>
      if locked || Outcome(db, op, order).Err? then db else Outcome(db, op, order).value
  }

  ghost predicate AllowedRun(db: Db, events: seq<Event>)
    decreases events
  {
    events == [] || (Allowed(db, events[0]) && AllowedRun(Exec(db, events[0]), events[1..]))
  }

  ghost function Run(db: Db, events: seq<Event>): Db
    requires AllowedRun(db, events)
    decreases events
  {
    if events == [] then db else Run(Exec(db, events[0]), events[1..])
  }

  // ----- the invariant -----

  /** A linear chain: IDs count up, each parent is the snapshot before, HEAD is the last, hashes differ. */
  ghost predicate Chained(db: Db) {
    (forall k | 0 <= k < |db.snapshots| ::
       db.snapshots[k].id == k + 1 && db.snapshots[k].parent == if k == 0 then None else Some(k))
    && db.head == (if db.snapshots == [] then None else Some(|db.snapshots|))
    && (forall j, k | 0 <= j < k < |db.snapshots| :: db.snapshots[j].cursor != db.snapshots[k].cursor)
  }

  ghost predicate HasEntry(diffs: seq<DiffRecord>, snapshotId: nat) {
    exists r | r in diffs :: r.snapshotId == snapshotId
  }

  /** The log is in snapshot order and every snapshot has an entry. */
  ghost predicate Logged(db: Db) {
    LogBounded(db)
    && (forall i, j | 0 <= i < j < |db.diffs| :: db.diffs[i].snapshotId <= db.diffs[j].snapshotId)
    && (forall k | 1 <= k <= |db.snapshots| :: HasEntry(db.diffs, k))
  }

  function DeltasOf(records: seq<DiffRecord>): seq<Delta> {
    seq(|records|, i requires 0 <= i < |records| => records[i].delta)
  }

  ghost predicate Replayable(db: Db) {
    Replay(map[], DeltasOf(db.diffs)) == View(db.nodes)
  }

  ghost predicate Inv(db: Db) {
    Fits(db.nodes) && Chained(db) && Logged(db) && Replayable(db)
  }

  lemma EmptyInv()
    ensures Inv(EMPTY_DB)
  {}

  // ----- one step -----

  lemma CommitKeepsChain(db: Db, req: Request)
    requires Chained(db) && Commit(db, req).Ok?
    ensures Chained(Commit(db, req).value)
  {
    var after := Commit(db, req).value;
    var last := after.snapshots[|db.snapshots|];
    forall k | 0 <= k < |db.snapshots|
      ensures db.snapshots[k].cursor != last.cursor
    {
      assert db.snapshots[k] in db.snapshots;
    }
  }

  lemma CommitKeepsLog(db: Db, req: Request)
    requires Logged(db) && req.deltas != [] && Commit(db, req).Ok?
    ensures Logged(Commit(db, req).value)
  {
    var after, n := Commit(db, req).value, |db.diffs|;
    var added := Records(|db.snapshots| + 1, req.deltas);
    forall k | 1 <= k <= |after.snapshots|
      ensures HasEntry(after.diffs, k)
    {
      if k <= |db.snapshots| {
        assert HasEntry(db.diffs, k);
        var r :| r in db.diffs && r.snapshotId == k;
        assert r in after.diffs;
      } else {
        assert after.diffs[n] == added[0] && after.diffs[n] in after.diffs;
      }
    }
    forall i, j | 0 <= i < j < |after.diffs|
      ensures after.diffs[i].snapshotId <= after.diffs[j].snapshotId
    {
      if i < n <= j {
        assert db.diffs[i] in db.diffs;
      }
    }
  }

  lemma DeltasConcat(a: seq<DiffRecord>, sid: nat, deltas: seq<Delta>)
    ensures DeltasOf(a + Records(sid, deltas)) == DeltasOf(a) + deltas
  {}

  lemma OperationKeepsInv(db: Db, op: Operation, order: seq<NodeId>)
    requires Inv(db) && Legal(db, op) && Lists(order, db, op) && Outcome(db, op, order).Ok?
    ensures Inv(Outcome(db, op, order).value)
  {
    var req := RequestOf(db, op, order);
    SuccessMeans(db, op, order);
    if req.deltas != [] {
      CommitKeepsChain(db, req);
      CommitKeepsLog(db, req);
      DeltasReplay(db, op, order);
      CommitKeepsReplay(db, req);
    }
  }

  lemma DeltasReplay(db: Db, op: Operation, order: seq<NodeId>)
    requires Fits(db.nodes) && Legal(db, op) && Lists(order, db, op) && Outcome(db, op, order).Ok?
    ensures Replay(View(db.nodes), RequestOf(db, op, order).deltas) == View(Outcome(db, op, order).value.nodes)
  {
    SuccessMeans(db, op, order);
    OperationIsChange(db, op);
    ReplayIsExact(db.nodes, RootsOf(db.nodes, op), ScopeOf(db, op), order);
  }

  lemma CommitKeepsReplay(db: Db, req: Request)
    requires Replayable(db) && Commit(db, req).Ok?
    requires Replay(View(db.nodes), req.deltas) == View(Commit(db, req).value.nodes)
    ensures Replayable(Commit(db, req).value)
  {
    ReplayConcat(map[], DeltasOf(db.diffs), req.deltas);
    DeltasConcat(db.diffs, |db.snapshots| + 1, req.deltas);
  }

  lemma RetemperKeepsInv(db: Db, temps: map<NodeId, real>)
    requires Inv(db)
    ensures Inv(db.(nodes := WithTemps(db.nodes, temps)))
  {
    assert View(WithTemps(db.nodes, temps)) == View(db.nodes);
  }

  lemma StepKeepsInv(db: Db, e: Event)
    requires Inv(db) && Allowed(db, e)
    ensures Inv(Exec(db, e))
  {
    match e
    case Retemper(temps) => RetemperKeepsInv(db, temps);
    case Operate(op, order, locked) =>
      if !locked && Outcome(db, op, order).Ok? {
        OperationKeepsInv(db, op, order);
      }
  }

  /** In every state that compiles, writes, summaries, purges and temperature changes can reach. */
  lemma {:induction false} RunKeepsInv(db: Db, events: seq<Event>)
    requires Inv(db) && AllowedRun(db, events)
    ensures Inv(Run(db, events))
    decreases events
  {
    if events != [] {
      StepKeepsInv(db, events[0]);
      RunKeepsInv(Exec(db, events[0]), events[1..]);
    }
  }

  lemma {:induction false} RunKeepsFit(db: Db, events: seq<Event>)
    requires Fits(db.nodes) && AllowedRun(db, events)
    ensures Fits(Run(db, events).nodes)
    decreases events
  {
    if events != [] {
      StepKeepsFit(db, events[0]);
      RunKeepsFit(Exec(db, events[0]), events[1..]);
    }
  }

  lemma StepKeepsFit(db: Db, e: Event)
    requires Fits(db.nodes) && Allowed(db, e)
    ensures Fits(Exec(db, e).nodes)
  {
    if e.Operate? && !e.locked && Outcome(db, e.op, e.order).Ok? {
      SuccessMeans(db, e.op, e.order);
    }
  }

  /**
   Every state that can be reached from the empty store: the table is a forest that agrees with
   its IDs, the snapshots are a chain with distinct hashes and a diff each, and replaying the log
   from empty gives the table.
  */
  lemma ReachableStates(events: seq<Event>)
    requires AllowedRun(EMPTY_DB, events)
    ensures var db := Run(EMPTY_DB, events);
            Fits(db.nodes) && Chained(db) && Logged(db) && Replay(map[], DeltasOf(db.diffs)) == View(db.nodes)
  {
    EmptyInv();
    RunKeepsInv(EMPTY_DB, events);
  }

  // ----- resynchronising a client -----

  /** The log only grows, by entries of later snapshots. */
  ghost predicate Extends(later: Db, db: Db) {
    |db.diffs| <= |later.diffs| && later.diffs[..|db.diffs|] == db.diffs
    && (forall i | |db.diffs| <= i < |later.diffs| :: |db.snapshots| < later.diffs[i].snapshotId)
    && db.snapshots <= later.snapshots
  }

  lemma StepExtends(db: Db, e: Event)
    requires Allowed(db, e)
    ensures Extends(Exec(db, e), db)
  {}

  lemma ExtendsTransitive(c: Db, b: Db, a: Db)
    requires Extends(c, b) && Extends(b, a)
    ensures Extends(c, a)
  {
    assert c.diffs[..|a.diffs|] == c.diffs[..|b.diffs|][..|a.diffs|];
    forall i | |a.diffs| <= i < |c.diffs|
      ensures |a.snapshots| < c.diffs[i].snapshotId
    {
      if i < |b.diffs| {
        assert c.diffs[i] == c.diffs[..|b.diffs|][i] == b.diffs[i];
      }
    }
  }

  lemma {:induction false} RunExtends(db: Db, events: seq<Event>)
    requires AllowedRun(db, events)
    ensures Extends(Run(db, events), db)
    decreases events
  {
    if events != [] {
      StepExtends(db, events[0]);
      RunExtends(Exec(db, events[0]), events[1..]);
      ExtendsTransitive(Run(db, events), Exec(db, events[0]), db);
    }
  }

  lemma {:induction false} SinceIsSuffix(diffs: seq<DiffRecord>, since: nat, cut: nat)
    requires cut <= |diffs|
    requires forall i | 0 <= i < cut :: diffs[i].snapshotId <= since
    requires forall i | cut <= i < |diffs| :: since < diffs[i].snapshotId
    ensures DiffsSince(diffs, since) == diffs[cut..]
    decreases diffs
  {
    if diffs != [] {
      SinceIsSuffix(diffs[1..], since, if cut == 0 then 0 else cut - 1);
      assert cut > 0 ==> diffs[cut..] == diffs[1..][cut - 1..];
    }
  }

  lemma LaterDiffs(later: Db, db: Db)
    requires LogBounded(db) && Extends(later, db)
    ensures DiffsSince(later.diffs, |db.snapshots|) == later.diffs[|db.diffs|..]
  {
    forall i | 0 <= i < |db.diffs|
      ensures later.diffs[i].snapshotId <= |db.snapshots|
    {
      assert later.diffs[i] == later.diffs[..|db.diffs|][i] == db.diffs[i];
      assert db.diffs[i] in db.diffs;
    }
    SinceIsSuffix(later.diffs, |db.snapshots|, |db.diffs|);
  }

  lemma ResyncFrom(before: seq<DiffRecord>, since: seq<DiffRecord>, held: State, now: State)
    requires Replay(map[], DeltasOf(before)) == held && Replay(map[], DeltasOf(before + since)) == now
    ensures Replay(held, DeltasOf(since)) == now
  {
    assert DeltasOf(before + since) == DeltasOf(before) + DeltasOf(since);
    ReplayConcat(map[], DeltasOf(before), DeltasOf(since));
  }

  lemma ResyncAt(db: Db, now: Db)
    requires Inv(db) && Inv(now) && Extends(now, db)
    ensures Replay(View(db.nodes), DeltasOf(DiffsSince(now.diffs, |db.snapshots|))) == View(now.nodes)
  {
    LaterDiffs(now, db);
    var since := now.diffs[|db.diffs|..];
    assert now.diffs == db.diffs + since;
    ResyncFrom(db.diffs, since, View(db.nodes), View(now.nodes));
  }

  /**
   A client that holds the state of a snapshot and replays the diffs since it reaches the
   current state, whatever happened in between.
  */
  lemma ClientResyncs(db: Db, events: seq<Event>)
    requires Inv(db) && AllowedRun(db, events)
    ensures var now := Run(db, events);
            Replay(View(db.nodes), DeltasOf(DiffsSince(now.diffs, |db.snapshots|))) == View(now.nodes)
  {
    RunKeepsInv(db, events);
    RunExtends(db, events);
    ResyncAt(db, Run(db, events));
  }

  // ----- recorded old values -----

  /** The old side of each delta is the row just before the commit; an add says nothing of it. */
  lemma OldValuesAreCurrent(db: Db, op: Operation, order: seq<NodeId>, d: Delta)
    requires Inv(db) && Legal(db, op) && Lists(order, db, op) && d in RequestOf(db, op, order).deltas
    ensures d.op == Add <==> d.was.None?
    ensures d.was.Some? ==> d.id in db.nodes && d.was.value == View(db.nodes)[d.id]
    ensures d.op == Rem <==> d.now.None?
  {
    var flat, prev := TreeOf(db.nodes, op), ScopeOf(db, op);
    OperationIsChange(db, op);
    DiffSides(flat, prev, order, d);
  }

  lemma DiffSides(flat: seq<ContextNode>, prev: State, order: seq<NodeId>, d: Delta)
    requires ListsRemoved(order, flat, prev) && d in DiffOf(flat, prev, order)
    ensures d.op == Add <==> d.was.None?
    ensures d.was.Some? ==> d.id in prev && d.was.value == prev[d.id]
    ensures d.op == Rem <==> d.now.None?
  {
    if d in Changes(flat, prev) {
      ChangesMembers(flat, prev, d);
      var n :| n in flat && ChangeOf(n, prev) == [d];
      assert d == [d][0];
    } else {
      var i :| 0 <= i < |order| && Removals(order, prev)[i] == d;
      assert order[i] in order;
    }
  }

  // ----- undoing and plain patching, operation by operation -----

  /** Only a full rescan can meet rows outside what it compares. */
  lemma ScopedOperationsAreCovered(db: Db, op: Operation)
    requires Fits(db.nodes) && Legal(db, op) && !op.CompileTree?
    ensures var flat, prev := TreeOf(db.nodes, op), ScopeOf(db, op);
            CascadeListed(db.nodes, flat, prev) && NothingReAdded(db.nodes, flat, prev)
  {
    var flat, prev := TreeOf(db.nodes, op), ScopeOf(db, op);
    OperationIsChange(db, op);
    ByIdOfDistinct(flat);
    forall id | id in db.nodes && Gone(id, flat, prev)
      ensures id in prev
    {
      GoneIsCovered(db, op, id);
    }
    forall id | id in db.nodes && id in ById(flat)
      ensures id in prev
    {
      TreeIsCovered(db, op, id);
    }
  }

  lemma GoneIsCovered(db: Db, op: Operation, id: NodeId)
    requires Fits(db.nodes) && Legal(db, op) && !op.CompileTree?
    requires id in db.nodes && Gone(id, TreeOf(db.nodes, op), ScopeOf(db, op))
    ensures id in ScopeOf(db, op)
  {
    var flat, prev := TreeOf(db.nodes, op), ScopeOf(db, op);
    if op.CompileFiles? || op.Purge? {
      GoneKeepsSource(id, flat, prev, db.nodes);
    } else {
      SingleScope(db, op);
      assert false;
    }
  }

  lemma SingleScope(db: Db, op: Operation)
    requires op.Write? || op.Summarize?
    ensures forall top | top in ScopeOf(db, op) :: top in IdsOf(TreeOf(db.nodes, op))
  {
    if RootsOf(db.nodes, op) != [] {
      var n := RootsOf(db.nodes, op)[0];
      OneNodeTree(n);
      assert n in TreeOf(db.nodes, op);
    }
  }

  lemma TreeIsCovered(db: Db, op: Operation, id: NodeId)
    requires Fits(db.nodes) && Legal(db, op) && !op.CompileTree?
    requires id in db.nodes && id in ById(TreeOf(db.nodes, op))
    ensures id in ScopeOf(db, op)
  {
    if op.CompileFiles? {
      CompiledIsCovered(db, op, id);
    } else if !op.Purge? {
      OneNodeTree(RootsOf(db.nodes, op)[0]);
      assert TreeOf(db.nodes, op) == [RootsOf(db.nodes, op)[0]];
    }
  }

  /** A node of a compiled tree is of a file of the tree, and so is the row with its ID. */
  lemma CompiledIsCovered(db: Db, op: Operation, id: NodeId)
    requires Fits(db.nodes) && Legal(db, op) && op.CompileFiles?
    requires id in db.nodes && id in ById(TreeOf(db.nodes, op))
    ensures id in ScopeOf(db, op)
  {
    var flat := TreeOf(db.nodes, op);
    OperationIsChange(db, op);
    FoundById(flat, id);
    assert Placed(ById(flat)[id]) && RowFits(id, db.nodes[id]);
  }

  /** Undoing a file-scoped compile, a write, a summary or a purge gives back the state before it. */
  lemma ScopedUndoIsExact(db: Db, op: Operation, order: seq<NodeId>)
    requires Inv(db) && Legal(db, op) && Lists(order, db, op) && !op.CompileTree?
    requires Outcome(db, op, order).Ok?
    ensures Undo(View(Outcome(db, op, order).value.nodes), RequestOf(db, op, order).deltas) == View(db.nodes)
  {
    SuccessMeans(db, op, order);
    OperationIsChange(db, op);
    ScopedOperationsAreCovered(db, op);
    UndoIsExactIff(db.nodes, TreeOf(db.nodes, op), ScopeOf(db, op), order);
  }

  /** And a client that patches ID by ID follows it. */
  lemma ScopedPatchIsExact(db: Db, op: Operation, order: seq<NodeId>)
    requires Inv(db) && Legal(db, op) && Lists(order, db, op) && !op.CompileTree?
    requires Outcome(db, op, order).Ok?
    ensures Patch(View(db.nodes), RequestOf(db, op, order).deltas) == View(Outcome(db, op, order).value.nodes)
  {
    SuccessMeans(db, op, order);
    OperationIsChange(db, op);
    ScopedOperationsAreCovered(db, op);
    PatchIsExactIff(db.nodes, TreeOf(db.nodes, op), ScopeOf(db, op), order);
  }

  /** For a full rescan both hold exactly when nothing outside its scope is touched. */
  lemma RescanUndoIff(db: Db, op: Operation, order: seq<NodeId>)
    requires Inv(db) && Legal(db, op) && Lists(order, db, op) && op.CompileTree?
    requires Outcome(db, op, order).Ok?
    ensures var flat, prev := TreeOf(db.nodes, op), ScopeOf(db, op);
            var after := View(Outcome(db, op, order).value.nodes);
            (Undo(after, RequestOf(db, op, order).deltas) == View(db.nodes)
             <==> CascadeListed(db.nodes, flat, prev) && NothingReAdded(db.nodes, flat, prev))
            && (Patch(View(db.nodes), RequestOf(db, op, order).deltas) == after
                <==> CascadeListed(db.nodes, flat, prev))
  {
    SuccessMeans(db, op, order);
    OperationIsChange(db, op);
    UndoIsExactIff(db.nodes, TreeOf(db.nodes, op), ScopeOf(db, op), order);
    PatchIsExactIff(db.nodes, TreeOf(db.nodes, op), ScopeOf(db, op), order);
  }
}
