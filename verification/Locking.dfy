/**
 One server, many goroutines: operations hold the operation lock from before they read to
 after they commit, while temperature ticks and boosts commit at any moment without it.
*/
module Locking {
  import opened Wrappers
  import opened Ids
  import opened Ast
  import opened Diff
  import opened Tables
  import opened Stores
  import opened Emission
  import opened Operations
  import opened Replication
  import opened Rows
  import opened Versioning

  /** Where a goroutine stands. `seen` is the database it read its request from. */
  datatype Stage =
    | Idle
    | Holding(op: Operation)
    | Ready(op: Operation, order: seq<NodeId>, req: Request, seen: Db)
    | Committed

  datatype System = System(db: Db, owner: Option<nat>, stages: map<nat, Stage>)

  datatype Action =
    | Acquire(who: nat, op: Operation)
    | Read(who: nat, order: seq<NodeId>)
    | CommitStep(who: nat, locked: bool)
    | Release(who: nat)
    | Warm(temps: map<NodeId, real>)

  function StageOf(s: System, who: nat): Stage {
    if who in s.stages then s.stages[who] else Idle
  }

  ghost predicate Enabled(s: System, a: Action) {
    match a
    case Acquire(who, _) => s.owner.None? && StageOf(s, who).Idle?
    case Read(who, order) =>
      var stage := StageOf(s, who);
      stage.Holding? && Legal(s.db, stage.op) && Lists(order, s.db, stage.op)
    case CommitStep(who, _) => StageOf(s, who).Ready?
    case Release(who) => StageOf(s, who).Committed?
    case Warm(_) => true
  }

  ghost function Do(s: System, a: Action): System
    requires Enabled(s, a)
  {
    match a
    case Acquire(who, op) => s.(owner := Some(who), stages := s.stages[who := Holding(op)])
    case Read(who, order) =>
      var op := StageOf(s, who).op;
      s.(stages := s.stages[who := Ready(op, order, RequestOf(s.db, op, order), s.db)])
    case CommitStep(who, locked) =>
      var result := Emitted(s.db, StageOf(s, who).req);
      s.(db := if locked || result.Err? then s.db else result.value, stages := s.stages[who := Committed])
    case Release(who) => s.(owner := None, stages := s.stages[who := Idle])
    case Warm(temps) => s.(db := s.db.(nodes := WithTemps(s.db.nodes, temps)))
  }

  ghost predicate EnabledRun(s: System, actions: seq<Action>)
    decreases actions
  {
    actions == [] || (Enabled(s, actions[0]) && EnabledRun(Do(s, actions[0]), actions[1..]))
  }

  ghost function Final(s: System, actions: seq<Action>): System
    requires EnabledRun(s, actions)
    decreases actions
  {
    if actions == [] then s else Final(Do(s, actions[0]), actions[1..])
  }

  // ----- the lock protects everything but temperatures -----

  ghost predicate SameButTemps(a: Db, b: Db) {
    a.snapshots == b.snapshots && a.diffs == b.diffs && a.head == b.head
    && a.nodes.Keys == b.nodes.Keys
    && forall id | id in a.nodes :: a.nodes[id].(temp := 0.0) == b.nodes[id].(temp := 0.0)
  }

  ghost predicate StageOk(s: System, who: nat) {
    var stage := StageOf(s, who);
    (!stage.Idle? ==> s.owner == Some(who))
    && (stage.Ready? ==>
          SameButTemps(s.db, stage.seen) && Fits(stage.seen.nodes)
          && Legal(stage.seen, stage.op) && Lists(stage.order, stage.seen, stage.op)
          && stage.req == RequestOf(stage.seen, stage.op, stage.order))
  }

  ghost predicate SystemInv(s: System) {
    Inv(s.db) && forall who: nat :: StageOk(s, who)
  }

  lemma WarmKeepsTheRest(db: Db, temps: map<NodeId, real>, seen: Db)
    requires SameButTemps(db, seen)
    ensures SameButTemps(db.(nodes := WithTemps(db.nodes, temps)), seen)
  {}

  lemma StepKeepsSystemInv(s: System, a: Action)
    requires SystemInv(s) && Enabled(s, a)
    ensures SystemInv(Do(s, a))
  {
    var next := Do(s, a);
    match a {
      case Warm(temps) => RetemperKeepsInv(s.db, temps);
      case CommitStep(who, locked) =>
        assert StageOk(s, who);
        CommitIsFresh(s, who);
        var stage := StageOf(s, who);
        if !locked && Emitted(s.db, stage.req).Ok? {
          OperationKeepsInv(s.db, stage.op, stage.order);
        }
      case _ =>
    }
    forall who: nat
      ensures StageOk(next, who)
    {
      assert StageOk(s, who);
      assert StageOk(s, if a.Warm? then who else a.who);
      if a.Warm? && StageOf(s, who).Ready? {
        WarmKeepsTheRest(s.db, a.temps, StageOf(s, who).seen);
      }
    }
  }

  // ----- what was read is still true at the commit -----

  lemma RequestIgnoresTemps(db: Db, seen: Db, op: Operation, order: seq<NodeId>)
    requires SameButTemps(db, seen) && Legal(seen, op) && Lists(order, seen, op)
    ensures Legal(db, op) && Lists(order, db, op)
    ensures RequestOf(db, op, order) == RequestOf(seen, op, order)
  {
    TreeIgnoresTemps(db, seen, op);
    ScopeIgnoresTemps(db, seen, op);
  }

  lemma RowIgnoresTemp(db: Db, seen: Db, id: NodeId)
    requires SameButTemps(db, seen) && id in db.nodes
    ensures db.nodes[id].source == seen.nodes[id].source && db.nodes[id].parent == seen.nodes[id].parent
    ensures db.nodes[id].kind == seen.nodes[id].kind && db.nodes[id].depth == seen.nodes[id].depth
    ensures View(db.nodes)[id] == View(seen.nodes)[id]
  {
    assert db.nodes[id].(temp := 0.0) == seen.nodes[id].(temp := 0.0);
  }

  lemma TreeIgnoresTemps(db: Db, seen: Db, op: Operation)
    requires SameButTemps(db, seen)
    ensures RootsOf(db.nodes, op) == RootsOf(seen.nodes, op)
  {
    if op.Write? && WriteTarget(op) in db.nodes {
      RowIgnoresTemp(db, seen, WriteTarget(op));
    } else if op.Summarize? && op.id in db.nodes {
      RowIgnoresTemp(db, seen, op.id);
    }
  }

  lemma ScopeIgnoresTemps(db: Db, seen: Db, op: Operation)
    requires SameButTemps(db, seen)
    ensures ScopeOf(db, op) == ScopeOf(seen, op)
  {
    TreeIgnoresTemps(db, seen, op);
    ViewIgnoresTemps(db, seen);
    match op
    case CompileFiles(_, _) => FilesIgnoreTemps(db, seen, FilesOf(TreeOf(db.nodes, op)));
    case CompileTree(_, root) => RootIgnoresTemps(db, seen, root);
    case Purge(files) => FilesIgnoreTemps(db, seen, files);
    case _ =>
  }

  lemma ViewIgnoresTemps(db: Db, seen: Db)
    requires SameButTemps(db, seen)
    ensures View(db.nodes) == View(seen.nodes)
  {
    forall id | id in db.nodes
      ensures View(db.nodes)[id] == View(seen.nodes)[id]
    {
      RowIgnoresTemp(db, seen, id);
    }
  }

  lemma FilesIgnoreTemps(db: Db, seen: Db, files: set<string>)
    requires SameButTemps(db, seen)
    ensures NodesByFiles(db.nodes, files) == NodesByFiles(seen.nodes, files)
  {
    ViewIgnoresTemps(db, seen);
    forall id | id in db.nodes
      ensures db.nodes[id].source == seen.nodes[id].source
    {
      RowIgnoresTemp(db, seen, id);
    }
  }

  lemma RootIgnoresTemps(db: Db, seen: Db, root: string)
    requires SameButTemps(db, seen)
    ensures NodesByCompileRoot(db, root) == NodesByCompileRoot(seen, root)
  {
    ViewIgnoresTemps(db, seen);
  }

  /**
   At the moment of the commit the request is the one a fresh read would give, so each old
   hash and content it records is the row's value just before the commit.
  */
  lemma CommitIsFresh(s: System, who: nat)
    requires SystemInv(s) && StageOf(s, who).Ready?
    ensures var stage := StageOf(s, who);
            Legal(s.db, stage.op) && Lists(stage.order, s.db, stage.op)
            && stage.req == RequestOf(s.db, stage.op, stage.order)
            && forall d | d in stage.req.deltas && d.was.Some? ::
                 d.id in s.db.nodes && d.was.value == View(s.db.nodes)[d.id]
  {
    var stage := StageOf(s, who);
    assert StageOk(s, who);
    RequestIgnoresTemps(s.db, stage.seen, stage.op, stage.order);
    forall d | d in stage.req.deltas && d.was.Some?
      ensures d.id in s.db.nodes && d.was.value == View(s.db.nodes)[d.id]
    {
      OldValuesAreCurrent(s.db, stage.op, stage.order, d);
    }
  }

  /**
   A commit sets the temperature of a row if and only if its diff mentions the row and the node
   carries a seed; every other row keeps the boosts and ticks that came in while it was prepared.
  */
  lemma BoostsSurvive(s: System, who: nat, id: NodeId)
    requires SystemInv(s) && StageOf(s, who).Ready?
    requires Emitted(s.db, StageOf(s, who).req).Ok?
    requires id in s.db.nodes && id in Do(s, CommitStep(who, false)).db.nodes
    ensures var req := StageOf(s, who).req; var tree := ById(Flatten(req.roots));
            Do(s, CommitStep(who, false)).db.nodes[id].temp
            == if Mentions(req.deltas, id) && id in tree && tree[id].temp.Some? then tree[id].temp.value
               else s.db.nodes[id].temp
  {
    var stage := StageOf(s, who);
    FreshOutcome(s, who);
    TempAfter(s.db, stage.op, stage.order, id);
  }

  lemma FreshOutcome(s: System, who: nat)
    requires SystemInv(s) && StageOf(s, who).Ready? && Emitted(s.db, StageOf(s, who).req).Ok?
    ensures var stage := StageOf(s, who);
            Fits(s.db.nodes) && Legal(s.db, stage.op) && Lists(stage.order, s.db, stage.op)
            && stage.req == RequestOf(s.db, stage.op, stage.order)
            && Outcome(s.db, stage.op, stage.order) == Ok(Do(s, CommitStep(who, false)).db)
  {
    CommitIsFresh(s, who);
  }

  lemma TempAfter(db: Db, op: Operation, order: seq<NodeId>, id: NodeId)
    requires Fits(db.nodes) && Legal(db, op) && Lists(order, db, op) && Outcome(db, op, order).Ok?
    requires id in db.nodes && id in Outcome(db, op, order).value.nodes
    ensures var tree := ById(TreeOf(db.nodes, op));
            Outcome(db, op, order).value.nodes[id].temp
            == if Mentions(RequestOf(db, op, order).deltas, id) && id in tree && tree[id].temp.Some?
               then tree[id].temp.value else db.nodes[id].temp
  {
    RowAfter(db, op, order, id);
  }

  // ----- a goroutine gets through -----

  /**
   While nobody holds the lock any operation can be carried through from acquiring to releasing
   it, with temperature changes in between; it does what it would have done after them.
  */
  lemma OperationGoesThrough(
      s: System, who: nat, op: Operation, order: seq<NodeId>, temps: map<NodeId, real>, locked: bool)
    requires SystemInv(s) && s.owner.None? && Legal(s.db, op) && Lists(order, s.db, op)
    ensures var actions := [Acquire(who, op), Read(who, order), Warm(temps), CommitStep(who, locked), Release(who)];
            var events := [Retemper(temps), Operate(op, order, locked)];
            EnabledRun(s, actions) && AllowedRun(s.db, events)
            && Final(s, actions).db == Run(s.db, events) && Final(s, actions).owner.None?
  {
    var actions := [Acquire(who, op), Read(who, order), Warm(temps), CommitStep(who, locked), Release(who)];
    assert StageOk(s, who) && StageOf(s, who).Idle?;
    var held := Do(s, Acquire(who, op));
    var read := Do(held, Read(who, order));
    ActionsInTurn(s, actions, held);
    ActionsInTurn(held, actions[1..], read);
    ReadyGoesThrough(s, read, who, op, order, temps, locked);
    assert actions[1..][1..] == [Warm(temps), CommitStep(who, locked), Release(who)];
  }

  lemma ReadyGoesThrough(s: System, read: System, who: nat, op: Operation, order: seq<NodeId>,
                         temps: map<NodeId, real>, locked: bool)
    requires Legal(s.db, op) && Lists(order, s.db, op)
    requires read.db == s.db && StageOf(read, who) == Ready(op, order, RequestOf(s.db, op, order), s.db)
    ensures var actions := [Warm(temps), CommitStep(who, locked), Release(who)];
            var events := [Retemper(temps), Operate(op, order, locked)];
            EnabledRun(read, actions) && AllowedRun(s.db, events)
            && Final(read, actions).db == Run(s.db, events) && Final(read, actions).owner.None?
  {
    var actions := [Warm(temps), CommitStep(who, locked), Release(who)];
    var warmed := Exec(s.db, Retemper(temps));
    WarmKeepsTheRest(s.db, temps, s.db);
    RequestIgnoresTemps(warmed, s.db, op, order);
    var warm := Do(read, Warm(temps));
    var done := Do(warm, CommitStep(who, locked));
    ActionsInTurn(read, actions, warm);
    ActionsInTurn(warm, actions[1..], done);
    ActionsInTurn(done, actions[1..][1..], Do(done, Release(who)));
    assert actions[1..][1..][1..] == [];
    TwoEvents(s.db, Retemper(temps), Operate(op, order, locked));
    assert done.db == Exec(warmed, Operate(op, order, locked));
  }

  lemma TwoEvents(db: Db, first: Event, second: Event)
    requires Allowed(db, first) && Allowed(Exec(db, first), second)
    ensures AllowedRun(db, [first, second]) && Run(db, [first, second]) == Exec(Exec(db, first), second)
  {
    FirstEvent(Exec(db, first), second, []);
    FirstEvent(db, first, [second]);
    assert [second] + [] == [second] && [first] + [second] == [first, second];
  }

  lemma ActionsInTurn(s: System, actions: seq<Action>, next: System)
    requires actions != [] && Enabled(s, actions[0]) && Do(s, actions[0]) == next
    ensures EnabledRun(s, actions) <==> EnabledRun(next, actions[1..])
    ensures EnabledRun(s, actions) ==> Final(s, actions) == Final(next, actions[1..])
  {}

  // ----- every interleaving is a serial run -----

  /** The events that the actions amount to, in commit order. */
  ghost function Serial(s: System, actions: seq<Action>): seq<Event>
    requires EnabledRun(s, actions)
    decreases actions
  {
    if actions == [] then []
    else
      var a := actions[0];
      (match a
       case CommitStep(who, locked) => [Operate(StageOf(s, who).op, StageOf(s, who).order, locked)]
       case Warm(temps) => [Retemper(temps)]
       case _ => [])
      + Serial(Do(s, a), actions[1..])
  }

  lemma {:induction false} InterleavingIsSerial(s: System, actions: seq<Action>)
    requires SystemInv(s) && EnabledRun(s, actions)
    ensures SystemInv(Final(s, actions))
    ensures AllowedRun(s.db, Serial(s, actions)) && Run(s.db, Serial(s, actions)) == Final(s, actions).db
    decreases actions
  {
    if actions != [] {
      var a := actions[0];
      var next := Do(s, a);
      StepKeepsSystemInv(s, a);
      InterleavingIsSerial(next, actions[1..]);
      var rest := Serial(next, actions[1..]);
      match a {
        case CommitStep(who, locked) =>
          CommitIsExec(s, who, locked);
          var e := Operate(StageOf(s, who).op, StageOf(s, who).order, locked);
          assert Serial(s, actions) == [e] + rest;
          FirstEvent(s.db, e, rest);
        case Warm(temps) =>
          assert Serial(s, actions) == [Retemper(temps)] + rest;
          FirstEvent(s.db, Retemper(temps), rest);
        case _ =>
          assert Serial(s, actions) == rest;
      }
    }
  }

  lemma FirstEvent(db: Db, e: Event, rest: seq<Event>)
    requires Allowed(db, e) && AllowedRun(Exec(db, e), rest)
    ensures AllowedRun(db, [e] + rest) && Run(db, [e] + rest) == Run(Exec(db, e), rest)
  {
    assert ([e] + rest)[1..] == rest;
  }

  /** A commit step is its operation executed on the state of that moment. */
  lemma CommitIsExec(s: System, who: nat, locked: bool)
    requires SystemInv(s) && StageOf(s, who).Ready?
    ensures var stage := StageOf(s, who); var e := Operate(stage.op, stage.order, locked);
            Allowed(s.db, e) && Exec(s.db, e) == Do(s, CommitStep(who, locked)).db
  {
    CommitIsFresh(s, who);
  }
}
