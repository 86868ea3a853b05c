/** The four tables, the transactional statements over them, and the emitter's transaction. */
module Stores {
  import opened Wrappers
  import opened Ids
  import opened Ast
  import opened Diff
  import opened Tables

  datatype Snapshot = Snapshot(id: nat, cursor: CursorHash, parent: Option<nat>, compileRoot: string)

  datatype DiffRecord = DiffRecord(snapshotId: nat, delta: Delta)

  /** Snapshot IDs come from AUTOINCREMENT and no snapshot is ever deleted: the k-th snapshot has ID k. */
  datatype Db = Db(nodes: NodeTable, snapshots: seq<Snapshot>, diffs: seq<DiffRecord>, head: Option<nat>)

  const EMPTY_DB := Db(map[], [], [], None)

  datatype Request = Request(roots: seq<ContextNode>, deltas: seq<Delta>, cursor: CursorHash, compileRoot: string)

  // ----- what one transaction computes -----

  function ApplyDelta(nodes: NodeTable, d: Delta, tree: map<NodeId, ContextNode>): Result<NodeTable, StoreError> {
    if d.op == Rem then Ok(Delete(nodes, d.id))
    else if d.id in tree then Upsert(nodes, tree[d.id])
    else Err(NodeNotFound(d.id))
  }

  function ApplyDeltas(nodes: NodeTable, deltas: seq<Delta>, tree: map<NodeId, ContextNode>)
    : Result<NodeTable, StoreError>
    decreases deltas
  {
    if deltas == [] then Ok(nodes)
    else
      match ApplyDelta(nodes, deltas[0], tree)
      case Ok(next) => ApplyDeltas(next, deltas[1..], tree)
      case Err(e) => Err(e)
  }

  predicate CursorUsed(snapshots: seq<Snapshot>, cursor: CursorHash) {
    exists s | s in snapshots :: s.cursor == cursor
  }

  function Records(snapshotId: nat, deltas: seq<Delta>): seq<DiffRecord> {
    seq(|deltas|, i requires 0 <= i < |deltas| => DiffRecord(snapshotId, deltas[i]))
  }

  function Commit(db: Db, req: Request): Result<Db, StoreError> {
    match ApplyDeltas(db.nodes, req.deltas, ById(Flatten(req.roots)))
    case Err(e) => Err(e)
    case Ok(nodes) =>
      if CursorUsed(db.snapshots, req.cursor) then Err(CursorReused)
      else
        var id := |db.snapshots| + 1;
        Ok(Db(nodes, db.snapshots + [Snapshot(id, req.cursor, db.head, req.compileRoot)],
              db.diffs + Records(id, req.deltas), Some(id)))
  }

  /** Nothing to do is a success that leaves no snapshot. */
  function Emitted(db: Db, req: Request): Result<Db, StoreError> {
    if req.deltas == [] then Ok(db) else Commit(db, req)
  }

  // ----- the store -----

  class Store {
    var nodes: NodeTable
    var snapshots: seq<Snapshot>
    var diffs: seq<DiffRecord>
    var head: Option<nat>

    function Contents(): Db
      reads this
    {
      Db(nodes, snapshots, diffs, head)
    }

    constructor ()
      ensures Contents() == EMPTY_DB
    {
      nodes, snapshots, diffs, head := map[], [], [], None;
    }

    method UpsertNodeTx(n: ContextNode) returns (err: Option<StoreError>)
      modifies this`nodes
      ensures match Upsert(old(nodes), n)
              case Ok(after) => err == None && nodes == after
              case Err(e) => err == Some(e) && nodes == old(nodes)
    {
      if n.parentId.Some? && n.parentId.value != n.id && n.parentId.value !in nodes {
        return Some(ForeignKey(n.id));
      }
      nodes := nodes[n.id := RowOf(n, nodes)];
      err := None;
    }

    /** Deletes the row, then round by round the rows whose parent is gone. */
    method DeleteNodeTx(id: NodeId)
      modifies this`nodes
      ensures nodes == Delete(old(nodes), id)
    {
      if id in nodes {
        var dead := {id};
        var next := ChildrenOf(nodes, dead);
        while !(next <= dead)
          invariant next == ChildrenOf(nodes, dead)
          invariant Cascade(nodes, dead) == Cascade(nodes, {id})
          decreases nodes.Keys - dead
        {
          ghost var x :| x in next && x !in dead;
          assert x in nodes.Keys - dead && x !in nodes.Keys - (dead + next);
          dead := dead + next;
          next := ChildrenOf(nodes, dead);
        }
        nodes := nodes - dead;
      }
    }

    method CreateSnapshotTx(cursor: CursorHash, compileRoot: string) returns (r: Result<nat, StoreError>)
      modifies this`snapshots
      ensures CursorUsed(old(snapshots), cursor) ==> r == Err(CursorReused) && snapshots == old(snapshots)
      ensures !CursorUsed(old(snapshots), cursor) ==>
                r == Ok(|old(snapshots)| + 1)
                && snapshots == old(snapshots) + [Snapshot(|old(snapshots)| + 1, cursor, head, compileRoot)]
    {
      if CursorUsed(snapshots, cursor) {
        return Err(CursorReused);
      }
      var id := |snapshots| + 1;
      snapshots := snapshots + [Snapshot(id, cursor, head, compileRoot)];
      r := Ok(id);
    }

    method InsertDiffTx(rec: DiffRecord)
      modifies this`diffs
      ensures diffs == old(diffs) + [rec]
    {
      diffs := diffs + [rec];
    }

    method AdvanceCursorTx(snapshotId: nat)
      modifies this`head
      ensures head == Some(snapshotId)
    {
      head := Some(snapshotId);
    }

    method ApplyAll(deltas: seq<Delta>, tree: map<NodeId, ContextNode>) returns (err: Option<StoreError>)
      modifies this`nodes
      ensures match ApplyDeltas(old(nodes), deltas, tree)
              case Ok(after) => err == None && nodes == after
              case Err(e) => err == Some(e)
    {
      for i := 0 to |deltas|
        invariant ApplyDeltas(nodes, deltas[i..], tree) == ApplyDeltas(old(nodes), deltas, tree)
      {
        var d := deltas[i];
        assert deltas[i..][0] == d && deltas[i..][1..] == deltas[i + 1..];
        if d.op == Rem {
          DeleteNodeTx(d.id);
        } else {
          if d.id !in tree {
            return Some(NodeNotFound(d.id));
          }
          err := UpsertNodeTx(tree[d.id]);
          if err.Some? {
            return;
          }
        }
      }
      err := None;
    }

    method RecordAll(snapshotId: nat, deltas: seq<Delta>)
      modifies this`diffs
      ensures diffs == old(diffs) + Records(snapshotId, deltas)
    {
      for i := 0 to |deltas|
        invariant diffs == old(diffs) + Records(snapshotId, deltas)[..i]
      {
        InsertDiffTx(DiffRecord(snapshotId, deltas[i]));
      }
    }

    /** The body of the emitter's transaction. On an error it may leave the tables half changed. */
    method EmitBody(req: Request, tree: map<NodeId, ContextNode>) returns (err: Option<StoreError>)
      requires tree == ById(Flatten(req.roots))
      modifies this
      ensures match Commit(old(Contents()), req)
              case Ok(after) => err == None && Contents() == after
              case Err(e) => err == Some(e)
    {
      err := ApplyAll(req.deltas, tree);
      if err.Some? {
        return;
      }
      var created := CreateSnapshotTx(req.cursor, req.compileRoot);
      if created.Err? {
        return Some(created.error);
      }
      RecordAll(created.value, req.deltas);
      AdvanceCursorTx(created.value);
    }

    /** One attempt: begin, body, commit, any of which may fail for reasons of its own. */
    method RunTx(req: Request, tree: map<NodeId, ContextNode>, weather: Weather) returns (err: Option<TxError>)
      requires tree == ById(Flatten(req.roots))
      modifies this
      ensures err.Some? ==> Contents() == old(Contents())
      ensures weather == Locked ==> err == Some(Busy)
      ensures weather == Broken ==> err == Some(Aborted)
      ensures weather == Clear ==> match Commit(old(Contents()), req)
                          case Ok(after) => err == None && Contents() == after
                          case Err(e) => err == Some(Rejected(e))
    {
      var before := Contents();
      var cause := EmitBody(req, tree);
      err := if weather == Locked then Some(Busy)
             else if weather == Broken then Some(Aborted)
             else if cause.Some? then Some(Rejected(cause.value)) else None;
      if err.Some? {
        nodes, snapshots, diffs, head := before.nodes, before.snapshots, before.diffs, before.head;
      }
    }

    /**
     At most six attempts. Only a locked database is retried, after a sleep that the
     caller's context may cut short. `weather` and `patient` say what each attempt meets.
    */
    method Tx(req: Request, tree: map<NodeId, ContextNode>, weather: nat -> Weather, patient: nat -> bool)
      returns (err: Option<TxError>, attempts: nat)
      requires tree == ById(Flatten(req.roots))
      modifies this
      ensures 1 <= attempts <= MAX_ATTEMPTS
      ensures forall i | 0 <= i < attempts - 1 :: weather(i) == Locked && patient(i)
      ensures err.Some? ==> Contents() == old(Contents())
      ensures err.None? ==> Commit(old(Contents()), req) == Ok(Contents())
      ensures err.None? <==> Commit(old(Contents()), req).Ok? && ClearEventually(weather, patient)
      ensures err == Some(Busy) ==> attempts == MAX_ATTEMPTS
      ensures err == Some(Aborted) ==> weather(attempts - 1) == Broken
      ensures err.Some? && err.value.Rejected? ==> Commit(old(Contents()), req) == Err(err.value.cause)
    {
      var attempt := 0;
      while true
        invariant 0 <= attempt < MAX_ATTEMPTS
        invariant forall i | 0 <= i < attempt :: weather(i) == Locked && patient(i)
        invariant Contents() == old(Contents())
        decreases MAX_ATTEMPTS - attempt
      {
        err := RunTx(req, tree, weather(attempt));
        attempts := attempt + 1;
        if err.None? {
          return;
        }
        if attempt >= MAX_ATTEMPTS - 1 || err != Some(Busy) {
          return;
        }
        if !patient(attempt) {
          return Some(Cancelled), attempts;
        }
        attempt := attempt + 1;
      }
    }

    method Emit(req: Request, weather: nat -> Weather, patient: nat -> bool) returns (err: Option<TxError>)
      modifies this
      ensures err.Some? ==> Contents() == old(Contents())
      ensures err.None? ==> Emitted(old(Contents()), req) == Ok(Contents())
      ensures err.Some? && err.value.Rejected? ==> Emitted(old(Contents()), req) == Err(err.value.cause)
      ensures err.None? <==>
                Emitted(old(Contents()), req).Ok? && (req.deltas == [] || ClearEventually(weather, patient))
    {
      if |req.deltas| == 0 {
        return None;
      }
      var tree := FlattenMap(req.roots);
      var attempts;
      err, attempts := Tx(req, tree, weather, patient);
    }
  }

  const MAX_ATTEMPTS: nat := 6

  /** Some attempt within the limit is clear, all before it are locked, and the caller waits for it. */
  ghost predicate ClearEventually(weather: nat -> Weather, patient: nat -> bool) {
    exists i: nat | i < MAX_ATTEMPTS ::
      weather(i) == Clear && forall j: nat | j < i :: weather(j) == Locked && patient(j)
  }

  // ----- queries -----

  /** The snapshot of the latest diff of a node, or 0. */
  function LatestSnapshot(diffs: seq<DiffRecord>, id: NodeId): nat {
    if diffs == [] then 0
    else
      var rest := LatestSnapshot(diffs[1..], id);
      if diffs[0].delta.id == id && rest < diffs[0].snapshotId then diffs[0].snapshotId else rest
  }

  predicate LatestRootIs(db: Db, id: NodeId, root: string) {
    var sid := LatestSnapshot(db.diffs, id);
    0 < sid <= |db.snapshots| && db.snapshots[sid - 1].compileRoot == root
  }

  /** Rows whose most recent diff was written under `root`. */
  function NodesByCompileRoot(db: Db, root: string): State {
    map id | id in db.nodes && LatestRootIs(db, id, root) :: View(db.nodes)[id]
  }

  function NodesByFiles(nodes: NodeTable, files: set<string>): State {
    map id | id in nodes && nodes[id].source in files :: View(nodes)[id]
  }

  /** Diffs of later snapshots, in commit order. */
  function DiffsSince(diffs: seq<DiffRecord>, since: nat): seq<DiffRecord> {
    if diffs == [] then []
    else (if since < diffs[0].snapshotId then [diffs[0]] else []) + DiffsSince(diffs[1..], since)
  }
}
