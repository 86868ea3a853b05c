/**
 The full-text mirror. Triggers keep an external-content index beside the table: an insert
 indexes the new row, a delete hands the index the old values to take out, an update does
 both. Taking out values that are not what the index holds would corrupt it.
*/
module FtsIndex {
  import opened Wrappers
  import opened Ids
  import opened Ast
  import opened Diff
  import opened Tables
  import opened Stores
  import opened Operations
  import opened Versioning

  datatype Text = Text(title: string, content: string, kind: string)

  /** A table with the rowid of each row, the row at each rowid, and the indexed text per rowid. */
  datatype Indexed = Indexed(
    nodes: NodeTable, rowids: map<NodeId, nat>, owners: map<nat, NodeId>, index: map<nat, Text>)

  datatype IndexError = NotIndexed(rowid: nat) | IndexedTwice(rowid: nat) | Statement(cause: StoreError)

  function TextOf(row: Row): Text {
    Text(row.title, row.content, row.kind)
  }

  /** The index's own insert, and its 'delete' command, which must supply what was indexed. */
  function PutIn(index: map<nat, Text>, rowid: nat, text: Text): Result<map<nat, Text>, IndexError> {
    if rowid in index then Err(IndexedTwice(rowid)) else Ok(index[rowid := text])
  }

  function TakeOut(index: map<nat, Text>, rowid: nat, text: Text): Result<map<nat, Text>, IndexError> {
    if rowid in index && index[rowid] == text then Ok(index - {rowid}) else Err(NotIndexed(rowid))
  }

  // ----- one row at a time: the statement, then its trigger -----

  function InsertRow(s: Indexed, id: NodeId, row: Row, rowid: nat): Result<Indexed, IndexError> {
    match PutIn(s.index, rowid, TextOf(row))
    case Err(e) => Err(e)
    case Ok(index) => Ok(Indexed(s.nodes[id := row], s.rowids[id := rowid], s.owners[rowid := id], index))
  }

  function UpdateRow(s: Indexed, id: NodeId, row: Row): Result<Indexed, IndexError>
    requires id in s.nodes && id in s.rowids
  {
    match TakeOut(s.index, s.rowids[id], TextOf(s.nodes[id]))
    case Err(e) => Err(e)
    case Ok(without) =>
      match PutIn(without, s.rowids[id], TextOf(row))
      case Err(e) => Err(e)
      case Ok(index) => Ok(s.(nodes := s.nodes[id := row], index := index))
  }

  function DeleteRow(s: Indexed, id: NodeId): Result<Indexed, IndexError>
    requires id in s.nodes && id in s.rowids
  {
    match TakeOut(s.index, s.rowids[id], TextOf(s.nodes[id]))
    case Err(e) => Err(e)
    case Ok(index) => Ok(Indexed(s.nodes - {id}, s.rowids - {id}, s.owners - {s.rowids[id]}, index))
  }

  // ----- the mirror -----

  /** The entry of one row is there, and is its own. */
  ghost predicate MirrorsRow(s: Indexed, id: NodeId) {
    id in s.nodes && id in s.rowids && s.rowids[id] in s.index && s.rowids[id] in s.owners
    && s.index[s.rowids[id]] == TextOf(s.nodes[id]) && s.owners[s.rowids[id]] == id
  }

  /** One entry per row, holding its current label, content and type, and nothing else. */
  ghost predicate Mirrors(s: Indexed) {
    s.rowids.Keys == s.nodes.Keys && s.owners.Keys == s.index.Keys
    && (forall id | id in s.nodes :: MirrorsRow(s, id))
    && forall r | r in s.index :: s.owners[r] in s.nodes && s.rowids[s.owners[r]] == r
  }

  /** A search finds the row by what its columns hold: the entry at its rowid has them, each in its place. */
  ghost predicate EntryHolds(s: Indexed, id: NodeId) {
    id in s.nodes && id in s.rowids && s.rowids[id] in s.index
    && s.index[s.rowids[id]].title == s.nodes[id].title
    && s.index[s.rowids[id]].content == s.nodes[id].content
    && s.index[s.rowids[id]].kind == s.nodes[id].kind
  }

  /** Every row has its entry, no two rows share one, and there is no other entry. */
  ghost predicate EntriesAreRows(s: Indexed) {
    (forall id | id in s.nodes :: EntryHolds(s, id))
    && (forall a, b | a in s.nodes && b in s.nodes && s.rowids[a] == s.rowids[b] :: a == b)
    && forall r | r in s.index :: exists id :: id in s.nodes && s.rowids[id] == r
  }

  lemma MirrorHolds(s: Indexed)
    requires Mirrors(s)
    ensures EntriesAreRows(s)
  {
    forall id | id in s.nodes
      ensures EntryHolds(s, id) && s.owners[s.rowids[id]] == id
    {
      assert MirrorsRow(s, id);
    }
    forall r | r in s.index
      ensures exists id :: id in s.nodes && s.rowids[id] == r
    {
      assert s.owners[r] in s.nodes && s.rowids[s.owners[r]] == r;
    }
  }

  /**
   Without the update trigger the index would be left behind: once a row has changed, its removal
   fails if and only if a column that is indexed has.
  */
  lemma StaleEntryFailsIff(s: Indexed, id: NodeId, row: Row)
    requires Mirrors(s) && id in s.nodes
    ensures DeleteRow(s.(nodes := s.nodes[id := row]), id).Err?
            <==> row.title != s.nodes[id].title || row.content != s.nodes[id].content || row.kind != s.nodes[id].kind
  {
    assert MirrorsRow(s, id);
  }

  lemma InsertMirrors(s: Indexed, id: NodeId, row: Row, rowid: nat)
    requires Mirrors(s) && id !in s.nodes && rowid !in s.owners
    ensures InsertRow(s, id, row, rowid).Ok? && Mirrors(InsertRow(s, id, row, rowid).value)
  {
    var next := InsertRow(s, id, row, rowid).value;
    forall x | x in next.nodes
      ensures MirrorsRow(next, x)
    {
      if x != id {
        assert MirrorsRow(s, x);
      }
    }
  }

  lemma DeleteMirrors(s: Indexed, id: NodeId)
    requires Mirrors(s) && id in s.nodes
    ensures DeleteRow(s, id).Ok? && Mirrors(DeleteRow(s, id).value)
  {
    assert MirrorsRow(s, id);
    var next := DeleteRow(s, id).value;
    forall x | x in next.nodes
      ensures MirrorsRow(next, x)
    {
      assert MirrorsRow(s, x);
    }
  }

  lemma UpdateMirrors(s: Indexed, id: NodeId, row: Row)
    requires Mirrors(s) && id in s.nodes
    ensures UpdateRow(s, id, row).Ok? && Mirrors(UpdateRow(s, id, row).value)
  {
    assert MirrorsRow(s, id);
    var next := UpdateRow(s, id, row).value;
    forall x | x in next.nodes
      ensures MirrorsRow(next, x)
    {
      assert MirrorsRow(s, x);
    }
  }

  // ----- whole statements -----

  function UpsertStatement(s: Indexed, n: ContextNode, rowid: nat): Result<Indexed, IndexError>
    requires s.rowids.Keys == s.nodes.Keys
  {
    if !ParentExists(n, s.nodes) then Err(Statement(ForeignKey(n.id)))
    else if n.id in s.nodes then UpdateRow(s, n.id, RowOf(n, s.nodes))
    else InsertRow(s, n.id, RowOf(n, s.nodes), rowid)
  }

  /** Rows going one after another, as a cascade takes them; rows already gone are passed over. */
  function DeleteRows(s: Indexed, ids: seq<NodeId>): Result<Indexed, IndexError>
    requires s.rowids.Keys == s.nodes.Keys
    decreases ids
  {
    if ids == [] then Ok(s)
    else if ids[0] !in s.nodes then DeleteRows(s, ids[1..])
    else
      match DeleteRow(s, ids[0])
      case Err(e) => Err(e)
      case Ok(next) => DeleteRows(next, ids[1..])
  }

  /** An update of temperatures fires the trigger for every row it touches. */
  function RetemperRows(s: Indexed, ids: seq<NodeId>, temps: map<NodeId, real>): Result<Indexed, IndexError>
    requires s.rowids.Keys == s.nodes.Keys
    decreases ids
  {
    if ids == [] then Ok(s)
    else if ids[0] !in s.nodes || ids[0] !in temps then RetemperRows(s, ids[1..], temps)
    else
      match UpdateRow(s, ids[0], s.nodes[ids[0]].(temp := temps[ids[0]]))
      case Err(e) => Err(e)
      case Ok(next) => RetemperRows(next, ids[1..], temps)
  }

  /** An upsert does to the table what it does without the index, and every entry it takes out was there. */
  lemma UpsertKeepsMirror(s: Indexed, n: ContextNode, rowid: nat)
    requires Mirrors(s) && rowid !in s.owners
    ensures match Upsert(s.nodes, n)
            case Ok(nodes) => UpsertStatement(s, n, rowid).Ok? && Mirrors(UpsertStatement(s, n, rowid).value)
                              && UpsertStatement(s, n, rowid).value.nodes == nodes
            case Err(e) => UpsertStatement(s, n, rowid) == Err(Statement(e))
  {
    if n.id in s.nodes {
      UpdateMirrors(s, n.id, RowOf(n, s.nodes));
    } else {
      InsertMirrors(s, n.id, RowOf(n, s.nodes), rowid);
    }
  }

  function Members(ids: seq<NodeId>): set<NodeId> {
    set id | id in ids
  }

  lemma {:induction false} DeleteRowsMirrors(s: Indexed, ids: seq<NodeId>)
    requires Mirrors(s)
    ensures DeleteRows(s, ids).Ok? && Mirrors(DeleteRows(s, ids).value)
    ensures DeleteRows(s, ids).value.nodes == s.nodes - Members(ids)
    decreases ids
  {
    if ids != [] {
      var id, rest := ids[0], ids[1..];
      assert Members(ids) == {id} + Members(rest) by {
        assert ids == [id] + rest;
      }
      if id in s.nodes {
        DeleteMirrors(s, id);
        var next := DeleteRow(s, id).value;
        DeleteRowsMirrors(next, rest);
        assert next.nodes - Members(rest) == s.nodes - Members(ids);
      } else {
        DeleteRowsMirrors(s, rest);
        assert s.nodes - Members(rest) == s.nodes - Members(ids);
      }
    }
  }

  /** In whatever order the cascade visits the rows. */
  lemma CascadeKeepsMirror(s: Indexed, id: NodeId, ids: seq<NodeId>)
    requires Mirrors(s) && id in s.nodes && forall x :: x in ids <==> x in Cascade(s.nodes, {id})
    ensures DeleteRows(s, ids).Ok? && Mirrors(DeleteRows(s, ids).value)
    ensures DeleteRows(s, ids).value.nodes == Delete(s.nodes, id)
  {
    DeleteRowsMirrors(s, ids);
    assert Members(ids) == Cascade(s.nodes, {id});
  }

  /** The temperatures that an update has set once it is through with these rows. */
  function Restricted(temps: map<NodeId, real>, ids: seq<NodeId>): map<NodeId, real> {
    map id | id in temps && id in ids :: temps[id]
  }

  lemma RetemperOne(s: Indexed, id: NodeId, temp: real)
    requires Mirrors(s) && id in s.nodes
    ensures var row := s.nodes[id].(temp := temp); var r := UpdateRow(s, id, row);
            r.Ok? && Mirrors(r.value) && r.value.index == s.index && r.value.nodes == s.nodes[id := row]
  {
    UpdateMirrors(s, id, s.nodes[id].(temp := temp));
  }

  lemma TempsCons(nodes: NodeTable, temps: map<NodeId, real>, id: NodeId, rest: seq<NodeId>)
    ensures var few, more := Restricted(temps, rest), Restricted(temps, [id] + rest);
            if id in nodes && id in temps
            then WithTemps(nodes[id := nodes[id].(temp := temps[id])], few) == WithTemps(nodes, more)
            else WithTemps(nodes, few) == WithTemps(nodes, more)
  {
    var few, more := Restricted(temps, rest), Restricted(temps, [id] + rest);
    assert forall x :: x in more <==> x in temps && (x == id || x in few);
    if id in nodes && id in temps {
      var next := nodes[id := nodes[id].(temp := temps[id])];
      forall x | x in next
        ensures WithTemps(next, few)[x] == WithTemps(nodes, more)[x]
      {
        assert x != id ==> next[x] == nodes[x];
      }
    }
  }

  lemma {:induction false} RetemperMirrors(s: Indexed, ids: seq<NodeId>, temps: map<NodeId, real>)
    requires Mirrors(s)
    ensures RetemperRows(s, ids, temps).Ok? && Mirrors(RetemperRows(s, ids, temps).value)
    ensures RetemperRows(s, ids, temps).value.index == s.index
    decreases ids
  {
    if ids != [] {
      if ids[0] in s.nodes && ids[0] in temps {
        RetemperOne(s, ids[0], temps[ids[0]]);
        RetemperMirrors(UpdateRow(s, ids[0], s.nodes[ids[0]].(temp := temps[ids[0]])).value, ids[1..], temps);
      } else {
        RetemperMirrors(s, ids[1..], temps);
      }
    }
  }

  /** The table gets its temperatures, and the index stays as it is. */
  lemma {:induction false} RetemperKeepsMirror(s: Indexed, ids: seq<NodeId>, temps: map<NodeId, real>)
    requires Mirrors(s)
    ensures RetemperRows(s, ids, temps).Ok? && Mirrors(RetemperRows(s, ids, temps).value)
    ensures RetemperRows(s, ids, temps).value.index == s.index
    ensures RetemperRows(s, ids, temps).value.nodes == WithTemps(s.nodes, Restricted(temps, ids))
    decreases ids
  {
    RetemperMirrors(s, ids, temps);
    if ids == [] {
      assert WithTemps(s.nodes, Restricted(temps, ids)) == s.nodes;
    } else {
      TempsCons(s.nodes, temps, ids[0], ids[1..]);
      assert [ids[0]] + ids[1..] == ids;
      if ids[0] in s.nodes && ids[0] in temps {
        RetemperOne(s, ids[0], temps[ids[0]]);
        RetemperKeepsMirror(UpdateRow(s, ids[0], s.nodes[ids[0]].(temp := temps[ids[0]])).value, ids[1..], temps);
      } else {
        RetemperKeepsMirror(s, ids[1..], temps);
      }
    }
  }

  // ----- a transaction's deltas -----

  /**
   Every way a delta can go against the indexed table, failures of the index included: any unused
   rowid, any order of the rows that a cascade takes.
  */
  ghost predicate RunsOne(s: Indexed, d: Delta, tree: map<NodeId, ContextNode>, r: Result<Indexed, IndexError>)
    requires s.rowids.Keys == s.nodes.Keys
  {
    if d.op == Rem then
      exists ids :: CascadeOrder(s.nodes, d.id, ids) && r == DeleteRows(s, ids)
    else if d.id in tree then
      exists rowid: nat :: rowid !in s.owners && r == UpsertStatement(s, tree[d.id], rowid)
    else r == Err(Statement(NodeNotFound(d.id)))
  }

  /** The rows that a delete takes, in some order; none if there is no such row. */
  ghost predicate CascadeOrder(nodes: NodeTable, id: NodeId, ids: seq<NodeId>) {
    if id in nodes then forall x :: x in ids <==> x in Cascade(nodes, {id}) else ids == []
  }

  /** Every way the deltas can go, one after another up to the first failure. */
  ghost predicate Runs(s: Indexed, deltas: seq<Delta>, tree: map<NodeId, ContextNode>, r: Result<Indexed, IndexError>)
    requires s.rowids.Keys == s.nodes.Keys
    decreases deltas
  {
    if deltas == [] then r == Ok(s)
    else
      exists mid :: RunsOne(s, deltas[0], tree, mid)
                    && if mid.Err? then r == mid
                       else mid.value.rowids.Keys == mid.value.nodes.Keys && Runs(mid.value, deltas[1..], tree, r)
  }

  /** What a result on the indexed table must be, given what happens to the table without an index. */
  ghost predicate Follows(r: Result<Indexed, IndexError>, plain: Result<NodeTable, StoreError>) {
    match plain
    case Ok(nodes) => r.Ok? && Mirrors(r.value) && r.value.nodes == nodes
    case Err(e) => r == Err(Statement(e))
  }

  lemma DeltaKeepsMirror(s: Indexed, d: Delta, tree: map<NodeId, ContextNode>, r: Result<Indexed, IndexError>)
    requires Mirrors(s) && RunsOne(s, d, tree, r)
    ensures Follows(r, ApplyDelta(s.nodes, d, tree))
  {
    if d.op == Rem {
      var ids :| CascadeOrder(s.nodes, d.id, ids) && r == DeleteRows(s, ids);
      if d.id in s.nodes {
        CascadeKeepsMirror(s, d.id, ids);
      }
    } else if d.id in tree {
      var rowid: nat :| rowid !in s.owners && r == UpsertStatement(s, tree[d.id], rowid);
      UpsertKeepsMirror(s, tree[d.id], rowid);
    }
  }

  /**
   However a transaction's deltas go against the indexed table, they do to it what they do
   without an index, no index command fails, and the index mirrors the table again.
  */
  lemma {:induction false} DeltasKeepMirror(
      s: Indexed, deltas: seq<Delta>, tree: map<NodeId, ContextNode>, r: Result<Indexed, IndexError>)
    requires Mirrors(s) && Runs(s, deltas, tree, r)
    ensures Follows(r, ApplyDeltas(s.nodes, deltas, tree))
    decreases deltas
  {
    if deltas != [] {
      var mid :| RunsOne(s, deltas[0], tree, mid)
                 && if mid.Err? then r == mid
                    else mid.value.rowids.Keys == mid.value.nodes.Keys && Runs(mid.value, deltas[1..], tree, r);
      DeltaKeepsMirror(s, deltas[0], tree, mid);
      if mid.Ok? {
        DeltasKeepMirror(mid.value, deltas[1..], tree, r);
      }
    }
  }

  // ----- and they always can go -----

  lemma UnusedRowid(used: set<nat>) returns (rowid: nat)
    ensures rowid !in used
  {
    rowid := 0;
    var left := used;
    while left != {}
      invariant left <= used && forall r | r in used && r !in left :: r < rowid
      decreases left
    {
      var r :| r in left;
      left := left - {r};
      if rowid <= r {
        rowid := r + 1;
      }
    }
  }

  lemma Listing(ids: set<NodeId>) returns (order: seq<NodeId>)
    ensures forall x :: x in order <==> x in ids
  {
    order := [];
    var left := ids;
    while left != {}
      invariant left <= ids && forall x :: x in order <==> x in ids && x !in left
      decreases left
    {
      var x :| x in left;
      left := left - {x};
      order := order + [x];
    }
  }

  lemma DeltaCanRun(s: Indexed, d: Delta, tree: map<NodeId, ContextNode>) returns (r: Result<Indexed, IndexError>)
    requires Mirrors(s)
    ensures RunsOne(s, d, tree, r)
  {
    if d.op == Rem {
      var ids := [];
      if d.id in s.nodes {
        ids := Listing(Cascade(s.nodes, {d.id}));
      }
      assert CascadeOrder(s.nodes, d.id, ids);
      r := DeleteRows(s, ids);
    } else if d.id in tree {
      var rowid := UnusedRowid(s.owners.Keys);
      r := UpsertStatement(s, tree[d.id], rowid);
    } else {
      r := Err(Statement(NodeNotFound(d.id)));
    }
  }

  lemma {:induction false} DeltasCanRun(s: Indexed, deltas: seq<Delta>, tree: map<NodeId, ContextNode>)
      returns (r: Result<Indexed, IndexError>)
    requires Mirrors(s)
    ensures Runs(s, deltas, tree, r)
    decreases deltas
  {
    if deltas == [] {
      r := Ok(s);
    } else {
      var mid := DeltaCanRun(s, deltas[0], tree);
      DeltaKeepsMirror(s, deltas[0], tree, mid);
      if mid.Ok? {
        r := DeltasCanRun(mid.value, deltas[1..], tree);
      } else {
        r := mid;
      }
    }
  }

  // ----- whole runs -----

  const EMPTY_INDEX := Indexed(map[], map[], map[], map[])

  /** Every way an event can go: a rolled-back transaction takes its index commands back with it. */
  ghost predicate EventRuns(s: Indexed, db: Db, e: Event, r: Result<Indexed, IndexError>)
    requires s.rowids.Keys == s.nodes.Keys && Allowed(db, e)
  {
    match e
    case Retemper(temps) => exists ids :: Touches(s.nodes, temps, ids) && r == RetemperRows(s, ids, temps)
    case Operate(op, order, locked) =>
      var req := RequestOf(db, op, order);
      if locked || Outcome(db, op, order).Err? || req.deltas == [] then r == Ok(s)
      else Runs(s, req.deltas, ById(Flatten(req.roots)), r)
  }

  /** The update meets every row that it has a temperature for. */
  ghost predicate Touches(nodes: NodeTable, temps: map<NodeId, real>, ids: seq<NodeId>) {
    forall id | id in nodes && id in temps :: id in ids
  }

  /** Every way a run can go. */
  ghost predicate RunOf(s: Indexed, db: Db, events: seq<Event>, r: Result<Indexed, IndexError>)
    requires s.rowids.Keys == s.nodes.Keys && AllowedRun(db, events)
    decreases events
  {
    if events == [] then r == Ok(s)
    else
      exists mid :: EventRuns(s, db, events[0], mid)
                    && if mid.Err? then r == mid
                       else mid.value.rowids.Keys == mid.value.nodes.Keys
                            && RunOf(mid.value, Exec(db, events[0]), events[1..], r)
  }

  lemma EventKeepsMirror(s: Indexed, db: Db, e: Event, r: Result<Indexed, IndexError>)
    requires Mirrors(s) && s.nodes == db.nodes && Allowed(db, e) && EventRuns(s, db, e, r)
    ensures r.Ok? && Mirrors(r.value) && r.value.nodes == Exec(db, e).nodes
  {
    match e
    case Retemper(temps) =>
      var ids :| Touches(s.nodes, temps, ids) && r == RetemperRows(s, ids, temps);
      RetemperKeepsMirror(s, ids, temps);
      AllTouched(s.nodes, temps, ids);
    case Operate(op, order, locked) => OperationKeepsMirror(s, db, op, order, locked, r);
  }

  lemma AllTouched(nodes: NodeTable, temps: map<NodeId, real>, ids: seq<NodeId>)
    requires Touches(nodes, temps, ids)
    ensures WithTemps(nodes, Restricted(temps, ids)) == WithTemps(nodes, temps)
  {
    assert forall id | id in nodes :: id in Restricted(temps, ids) <==> id in temps;
  }

  lemma OperationKeepsMirror(
      s: Indexed, db: Db, op: Operation, order: seq<NodeId>, locked: bool, r: Result<Indexed, IndexError>)
    requires Mirrors(s) && s.nodes == db.nodes && Allowed(db, Operate(op, order, locked))
    requires EventRuns(s, db, Operate(op, order, locked), r)
    ensures r.Ok? && Mirrors(r.value) && r.value.nodes == Exec(db, Operate(op, order, locked)).nodes
  {
    var req := RequestOf(db, op, order);
    if !locked && Outcome(db, op, order).Ok? && req.deltas != [] {
      CommittedNodes(db, req);
      DeltasKeepMirror(s, req.deltas, ById(Flatten(req.roots)), r);
    }
  }

  lemma CommittedNodes(db: Db, req: Request)
    requires Commit(db, req).Ok?
    ensures ApplyDeltas(db.nodes, req.deltas, ById(Flatten(req.roots))) == Ok(Commit(db, req).value.nodes)
  {}

  /**
   In every committed state of every run, however rowids and cascades fall out, no index command
   ever failed, the table is the one of the plain run, and the index mirrors it.
  */
  lemma {:induction false} RunsKeepMirror(s: Indexed, db: Db, events: seq<Event>, r: Result<Indexed, IndexError>)
    requires Mirrors(s) && s.nodes == db.nodes && AllowedRun(db, events) && RunOf(s, db, events, r)
    ensures r.Ok? && Mirrors(r.value) && EntriesAreRows(r.value) && r.value.nodes == Run(db, events).nodes
    decreases events
  {
    if events == [] {
      MirrorHolds(s);
    }
    if events != [] {
      var mid :| EventRuns(s, db, events[0], mid)
                 && if mid.Err? then r == mid
                    else mid.value.rowids.Keys == mid.value.nodes.Keys
                         && RunOf(mid.value, Exec(db, events[0]), events[1..], r);
      EventKeepsMirror(s, db, events[0], mid);
      RunsKeepMirror(mid.value, Exec(db, events[0]), events[1..], r);
    }
  }

  lemma EventCanRun(s: Indexed, db: Db, e: Event) returns (r: Result<Indexed, IndexError>)
    requires Mirrors(s) && Allowed(db, e)
    ensures EventRuns(s, db, e, r)
  {
    match e
    case Retemper(temps) =>
      var ids := Listing(s.nodes.Keys);
      assert Touches(s.nodes, temps, ids);
      r := RetemperRows(s, ids, temps);
    case Operate(op, order, locked) =>
      var req := RequestOf(db, op, order);
      if locked || Outcome(db, op, order).Err? || req.deltas == [] {
        r := Ok(s);
      } else {
        r := DeltasCanRun(s, req.deltas, ById(Flatten(req.roots)));
      }
  }

  /** Every run of the store from empty goes through with the index, and ends with an index that mirrors the table. */
  lemma ReachableIndex(events: seq<Event>) returns (s: Indexed)
    requires AllowedRun(EMPTY_DB, events)
    ensures RunOf(EMPTY_INDEX, EMPTY_DB, events, Ok(s)) && Mirrors(s) && s.nodes == Run(EMPTY_DB, events).nodes
    ensures EntriesAreRows(s)
  {
    s := RunCanGo(EMPTY_INDEX, EMPTY_DB, events);
    MirrorHolds(s);
  }

  lemma {:induction false} RunCanGo(s: Indexed, db: Db, events: seq<Event>) returns (last: Indexed)
    requires Mirrors(s) && s.nodes == db.nodes && AllowedRun(db, events)
    ensures RunOf(s, db, events, Ok(last)) && Mirrors(last) && last.nodes == Run(db, events).nodes
    decreases events
  {
    if events == [] {
      last := s;
    } else {
      var mid := EventCanRun(s, db, events[0]);
      EventKeepsMirror(s, db, events[0], mid);
      last := RunCanGo(mid.value, Exec(db, events[0]), events[1..]);
    }
  }
}
