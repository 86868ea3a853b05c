/** What a cursor hash stands for: two commits share one if and only if they were about the same nodes. */
module Cursors {
  import opened Wrappers
  import opened Ids
  import opened Ast
  import opened Diff
  import opened Tables
  import opened Stores
  import opened Emission
  import opened Operations
  import opened Compiler
  import opened Versioning
  import opened Limits

  // ----- trees -----

  lemma LivePairsAreDistinct(flat: seq<ContextNode>)
    requires DistinctIds(flat)
    ensures NoDuplicates(LivePairs(flat))
  {
    var pairs := LivePairs(flat);
    forall j, k | 0 <= j < k < |pairs|
      ensures pairs[j] != pairs[k]
    {
      assert flat[j].id != flat[k].id;
    }
  }

  /** The digest of a tree holds the pair of each node once, and nothing else. */
  lemma LivePairMembers(flat: seq<ContextNode>, p: HashedPair)
    requires DistinctIds(flat)
    ensures multiset(LivePairs(flat))[p]
         == if p.Live? && p.id in ById(flat) && ById(flat)[p.id].hash == p.hash then 1 else 0
  {
    var pairs := LivePairs(flat);
    LivePairsAreDistinct(flat);
    OnceEach(pairs, p);
    ByIdOfDistinct(flat);
    if p in pairs {
      var k :| 0 <= k < |flat| && pairs[k] == p;
      assert flat[k] in flat;
    }
    if p.Live? && p.id in ById(flat) && ById(flat)[p.id].hash == p.hash {
      FoundById(flat, p.id);
      var k :| 0 <= k < |flat| && flat[k] == ById(flat)[p.id];
      assert pairs[k] == p;
    }
  }

  ghost predicate AllPlaced(flat: seq<ContextNode>) {
    DistinctIds(flat) && forall n | n in flat :: Placed(n)
  }

  lemma PlacedById(flat: seq<ContextNode>, id: NodeId)
    requires AllPlaced(flat) && id in ById(flat)
    ensures ById(flat)[id].hash == HashOf(ById(flat)[id].content)
  {
    FoundById(flat, id);
  }

  /** Two trees have one cursor if and only if they have the same nodes with the same contents. */
  lemma TreesShareCursorIff(a: seq<ContextNode>, b: seq<ContextNode>)
    requires AllPlaced(a) && AllPlaced(b)
    ensures CursorHashFlat(a) == CursorHashFlat(b) <==> WholeParse(a) == WholeParse(b)
  {
    if CursorHashFlat(a) == CursorHashFlat(b) {
      forall id
        ensures id in WholeParse(a) <==> id in WholeParse(b)
        ensures id in WholeParse(a) ==> WholeParse(a)[id] == WholeParse(b)[id]
      {
        if id in ById(a) {
          SameNodeIn(a, b, id);
        }
        if id in ById(b) {
          SameNodeIn(b, a, id);
        }
      }
      assert WholeParse(a).Keys == WholeParse(b).Keys;
      assert WholeParse(a) == WholeParse(b);
    }
    if WholeParse(a) == WholeParse(b) {
      forall p
        ensures multiset(LivePairs(a))[p] == multiset(LivePairs(b))[p]
      {
        SamePairIn(a, b, p);
      }
      assert multiset(LivePairs(a)) == multiset(LivePairs(b));
    }
  }

  lemma SameNodeIn(a: seq<ContextNode>, b: seq<ContextNode>, id: NodeId)
    requires AllPlaced(a) && AllPlaced(b) && CursorHashFlat(a) == CursorHashFlat(b) && id in ById(a)
    ensures id in ById(b) && StateOf(ById(b)[id]) == StateOf(ById(a)[id])
  {
    var p := Live(id, ById(a)[id].hash);
    LivePairMembers(a, p);
    LivePairMembers(b, p);
    PlacedById(a, id);
    PlacedById(b, id);
  }

  lemma SamePairIn(a: seq<ContextNode>, b: seq<ContextNode>, p: HashedPair)
    requires AllPlaced(a) && AllPlaced(b) && WholeParse(a) == WholeParse(b)
    ensures multiset(LivePairs(a))[p] == multiset(LivePairs(b))[p]
  {
    LivePairMembers(a, p);
    LivePairMembers(b, p);
    if p.Live? {
      assert p.id in ById(a) <==> p.id in WholeParse(a);
      assert p.id in ById(b) <==> p.id in WholeParse(b);
      if p.id in ById(a) {
        assert WholeParse(a)[p.id] == WholeParse(b)[p.id];
      }
    }
  }

  // ----- purges -----

  /** `order` lists the rows of a state, once each. */
  ghost predicate Enumerates(order: seq<NodeId>, rows: State) {
    NoDuplicates(order) && forall id :: id in order <==> id in rows
  }

  ghost predicate HashesFit(rows: State) {
    forall id | id in rows :: rows[id].hash == HashOf(rows[id].content)
  }

  /** Two purges have one cursor if and only if they take the same rows. */
  lemma PurgesShareCursorIff(order: seq<NodeId>, rows: State, other: seq<NodeId>, more: State)
    requires Enumerates(order, rows) && Enumerates(other, more) && HashesFit(rows) && HashesFit(more)
    ensures multiset(PurgedPairs(order, rows)) == multiset(PurgedPairs(other, more)) <==> rows == more
  {
    if multiset(PurgedPairs(order, rows)) == multiset(PurgedPairs(other, more)) {
      forall id
        ensures id in rows <==> id in more
        ensures id in rows ==> rows[id] == more[id]
      {
        if id in rows {
          PurgedPairMembers(order, rows, Purged(id, rows[id].hash));
          PurgedPairMembers(other, more, Purged(id, rows[id].hash));
        }
        if id in more {
          PurgedPairMembers(order, rows, Purged(id, more[id].hash));
          PurgedPairMembers(other, more, Purged(id, more[id].hash));
        }
      }
      assert rows.Keys == more.Keys;
    } else if rows == more {
      PurgeCursorIsOfRows(order, other, rows);
    }
  }

  /** A purge shares its cursor with a tree only if it takes nothing and the tree is empty. */
  lemma PurgeSharesWithTreeIff(order: seq<NodeId>, rows: State, flat: seq<ContextNode>)
    requires Enumerates(order, rows) && DistinctIds(flat)
    ensures multiset(PurgedPairs(order, rows)) == multiset(LivePairs(flat))
            <==> rows == map[] && WholeParse(flat) == map[]
  {
    WholeIs(flat);
    if order != [] {
      assert order[0] in order;
      var p := PurgedPairs(order, rows)[0];
      assert p in PurgedPairs(order, rows) && p in multiset(PurgedPairs(order, rows));
      LivePairMembers(flat, p);
    } else if flat != [] {
      assert flat[0] in flat && WholeParse(flat)[flat[0].id] == StateOf(flat[0]);
      assert LivePairs(flat)[0] in multiset(LivePairs(flat));
      assert PurgedPairs(order, rows) == [];
    } else {
      assert rows == map[] && PurgedPairs(order, rows) == [] && LivePairs(flat) == [];
    }
  }

  // ----- operations -----

  /** What an operation's cursor is about: the rows a purge takes, or the nodes that any other one wants. */
  function Concern(db: Db, op: Operation): State {
    if op.Purge? then ScopeOf(db, op) else WholeParse(TreeOf(db.nodes, op))
  }

  ghost predicate SameConcern(db: Db, op: Operation, other: Db, again: Operation) {
    Concern(db, op) == Concern(other, again) && ((op.Purge? <==> again.Purge?) || Concern(db, op) == map[])
  }

  lemma TreeIsPlaced(db: Db, op: Operation)
    requires Fits(db.nodes) && Legal(db, op)
    ensures AllPlaced(TreeOf(db.nodes, op))
  {
    OperationIsChange(db, op);
  }

  lemma PurgeEnumerates(db: Db, op: Operation, order: seq<NodeId>)
    requires Fits(db.nodes) && op.Purge? && Lists(order, db, op)
    ensures Enumerates(order, ScopeOf(db, op)) && HashesFit(ScopeOf(db, op))
  {
    assert TreeOf(db.nodes, op) == [];
    assert forall id | id in ScopeOf(db, op) :: RowFits(id, db.nodes[id]);
  }

  function Digested(db: Db, op: Operation, order: seq<NodeId>): multiset<HashedPair>
    requires forall id | id in order :: id in ScopeOf(db, op)
  {
    multiset(if op.Purge? then PurgedPairs(order, ScopeOf(db, op)) else LivePairs(TreeOf(db.nodes, op)))
  }

  lemma CursorDigests(db: Db, op: Operation, order: seq<NodeId>)
    requires forall id | id in order :: id in ScopeOf(db, op)
    ensures RequestOf(db, op, order).cursor == CursorHash(Digested(db, op, order))
  {}

  lemma PurgeDigestsMeet(db: Db, op: Operation, order: seq<NodeId>, other: Db, again: Operation, later: seq<NodeId>)
    requires op.Purge? && Fits(db.nodes) && Legal(db, op) && Lists(order, db, op)
    requires Fits(other.nodes) && Legal(other, again) && Lists(later, other, again)
    ensures Digested(db, op, order) == Digested(other, again, later) <==> SameConcern(db, op, other, again)
  {
    PurgeEnumerates(db, op, order);
    if again.Purge? {
      PurgeEnumerates(other, again, later);
      PurgesShareCursorIff(order, ScopeOf(db, op), later, ScopeOf(other, again));
    } else {
      TreeIsPlaced(other, again);
      PurgeSharesWithTreeIff(order, ScopeOf(db, op), TreeOf(other.nodes, again));
    }
  }

  lemma TreeDigestsMeet(db: Db, op: Operation, order: seq<NodeId>, other: Db, again: Operation, later: seq<NodeId>)
    requires !op.Purge? && !again.Purge? && Fits(db.nodes) && Legal(db, op) && Lists(order, db, op)
    requires Fits(other.nodes) && Legal(other, again) && Lists(later, other, again)
    ensures Digested(db, op, order) == Digested(other, again, later) <==> SameConcern(db, op, other, again)
  {
    TreeIsPlaced(db, op);
    TreeIsPlaced(other, again);
    TreesShareCursorIff(TreeOf(db.nodes, op), TreeOf(other.nodes, again));
  }

  /** Two operations digest to one cursor, at whatever times, if and only if they are about the same. */
  lemma CursorsMeetIff(db: Db, op: Operation, order: seq<NodeId>, other: Db, again: Operation, later: seq<NodeId>)
    requires Fits(db.nodes) && Legal(db, op) && Lists(order, db, op)
    requires Fits(other.nodes) && Legal(other, again) && Lists(later, other, again)
    ensures RequestOf(db, op, order).cursor == RequestOf(other, again, later).cursor
            <==> SameConcern(db, op, other, again)
  {
    CursorDigests(db, op, order);
    CursorDigests(other, again, later);
    if op.Purge? {
      PurgeDigestsMeet(db, op, order, other, again, later);
    } else if again.Purge? {
      PurgeDigestsMeet(other, again, later, db, op, order);
    } else {
      TreeDigestsMeet(db, op, order, other, again, later);
    }
  }

  // ----- runs -----

  /** The event leaves a snapshot. */
  ghost predicate Commits(db: Db, e: Event)
    requires Allowed(db, e)
  {
    e.Operate? && !e.locked && RequestOf(db, e.op, e.order).deltas != [] && Outcome(db, e.op, e.order).Ok?
  }

  /** Some event of the run committed what `op` is about now. */
  ghost predicate CommittedBefore(db: Db, events: seq<Event>, now: Db, op: Operation)
    requires AllowedRun(db, events)
    decreases events
  {
    events != []
    && ((Commits(db, events[0]) && SameConcern(db, events[0].op, now, op))
        || CommittedBefore(Exec(db, events[0]), events[1..], now, op))
  }

  lemma StepUses(db: Db, e: Event, cursor: CursorHash)
    requires Allowed(db, e)
    ensures CursorUsed(Exec(db, e).snapshots, cursor)
            <==> CursorUsed(db.snapshots, cursor) || (Commits(db, e) && RequestOf(db, e.op, e.order).cursor == cursor)
  {
    if Commits(db, e) {
      var req, after := RequestOf(db, e.op, e.order), Exec(db, e);
      var last := after.snapshots[|db.snapshots|];
      assert after.snapshots == db.snapshots + [last] && last.cursor == req.cursor && last in after.snapshots;
      if CursorUsed(db.snapshots, cursor) {
        var s :| s in db.snapshots && s.cursor == cursor;
        assert s in after.snapshots;
      }
    }
  }

  lemma {:induction false} UsedIff(db: Db, events: seq<Event>, now: Db, op: Operation, order: seq<NodeId>)
    requires Fits(db.nodes) && AllowedRun(db, events)
    requires Fits(now.nodes) && Legal(now, op) && Lists(order, now, op)
    ensures var cursor := RequestOf(now, op, order).cursor;
            CursorUsed(Run(db, events).snapshots, cursor)
            <==> CursorUsed(db.snapshots, cursor) || CommittedBefore(db, events, now, op)
    decreases events
  {
    if events != [] {
      var e := events[0];
      StepKeepsFit(db, e);
      StepUses(db, e, RequestOf(now, op, order).cursor);
      if Commits(db, e) {
        CursorsMeetIff(db, e.op, e.order, now, op, order);
      }
      UsedIff(Exec(db, e), events[1..], now, op, order);
    }
  }

  /**
   After any run from the empty store an operation is rejected if and only if it has something to
   change and some commit of the run was about the same nodes with the same contents, or about
   the same rows if both are purges. In particular what was never committed is always accepted.
  */
  lemma RejectedIffCommittedBefore(events: seq<Event>, op: Operation, order: seq<NodeId>)
    requires AllowedRun(EMPTY_DB, events)
    requires var now := Run(EMPTY_DB, events); Legal(now, op) && Lists(order, now, op)
    ensures var now := Run(EMPTY_DB, events);
            (Outcome(now, op, order) == Err(CursorReused)
             <==> ScopeOf(now, op) != WholeParse(TreeOf(now.nodes, op)) && CommittedBefore(EMPTY_DB, events, now, op))
            && (Outcome(now, op, order).Ok? <==> Outcome(now, op, order) != Err(CursorReused))
  {
    var now := Run(EMPTY_DB, events);
    RunKeepsFit(EMPTY_DB, events);
    RejectedIff(now, op, order);
    UsedIff(EMPTY_DB, events, now, op, order);
  }
}
