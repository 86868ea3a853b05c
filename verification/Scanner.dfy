/** The rescan loop's code: one scan, from the walk to the recorded times. */
module Scanner {
  import opened Wrappers
  import opened Ids
  import opened Ast
  import opened Passes
  import opened Diff
  import opened Tables
  import opened Stores
  import opened Operations
  import opened Compiler
  import opened Handlers
  import opened Rescan

  /** One selected file as the walk meets it; without a time its file information could not be read. */
  datatype Visited = Visited(path: string, mtime: Option<int>, settled: bool)

  lemma NextVisited(walk: seq<Visited>, i: nat)
    requires i < |walk| && OncePerFile(walk)
    ensures walk[..i + 1] == walk[..i] + [walk[i]] && walk[..i + 1][..i] == walk[..i]
    ensures SeenIn(walk[..i + 1]) == SeenIn(walk[..i]) + {walk[i].path} && walk[i].path !in SeenIn(walk[..i])
  {
    assert walk[..i + 1] == walk[..i] + [walk[i]];
  }

  predicate Changed(v: Visited, modTimes: map<string, int>) {
    v.mtime.Some? && v.settled && (v.path in modTimes ==> modTimes[v.path] < v.mtime.value)
  }

  function SeenIn(walk: seq<Visited>): set<string> {
    set v | v in walk :: v.path
  }

  function PendingIn(walk: seq<Visited>, modTimes: map<string, int>): map<string, int> {
    if walk == [] then map[]
    else
      var last := walk[|walk| - 1];
      var before := PendingIn(walk[..|walk| - 1], modTimes);
      if Changed(last, modTimes) then before[last.path := last.mtime.value] else before
  }

  /** The changed files, in walk order. */
  function ChangedIn(walk: seq<Visited>, modTimes: map<string, int>): seq<string> {
    if walk == [] then []
    else
      var last := walk[|walk| - 1];
      ChangedIn(walk[..|walk| - 1], modTimes) + (if Changed(last, modTimes) then [last.path] else [])
  }

  /** The times after a complete walk: unseen files are forgotten, and a compile that is emitted records its own. */
  function TimesAfter(modTimes: map<string, int>, walk: seq<Visited>, applied: bool): map<string, int> {
    var kept := modTimes - (modTimes.Keys - SeenIn(walk));
    if applied then kept + PendingIn(walk, modTimes) else kept
  }

  ghost predicate OncePerFile(walk: seq<Visited>) {
    forall i, j | 0 <= i < j < |walk| :: walk[i].path != walk[j].path
  }

  /** What is changed and what is pending: the visited files that changed, each once, with the times seen. */
  lemma PendingIs(walk: seq<Visited>, modTimes: map<string, int>)
    requires OncePerFile(walk)
    ensures var pending, changed := PendingIn(walk, modTimes), ChangedIn(walk, modTimes);
            NoDuplicates(changed) && (forall p :: p in changed <==> p in pending)
            && (forall p | p in pending :: p in SeenIn(walk))
            && forall v | v in walk :: (v.path in pending <==> Changed(v, modTimes))
                                       && (v.path in pending ==> pending[v.path] == v.mtime.value)
  {
    ChangedOnce(walk, modTimes);
    forall v | v in walk
      ensures (v.path in PendingIn(walk, modTimes) <==> Changed(v, modTimes))
              && (v.path in PendingIn(walk, modTimes) ==> PendingIn(walk, modTimes)[v.path] == v.mtime.value)
    {
      PendingOne(walk, modTimes, v);
    }
  }

  lemma {:induction false} ChangedOnce(walk: seq<Visited>, modTimes: map<string, int>)
    requires OncePerFile(walk)
    ensures var pending, changed := PendingIn(walk, modTimes), ChangedIn(walk, modTimes);
            NoDuplicates(changed) && (forall p :: p in changed <==> p in pending)
            && (forall p | p in pending :: p in SeenIn(walk))
    decreases |walk|
  {
    if walk != [] {
      var init, last := walk[..|walk| - 1], walk[|walk| - 1];
      assert walk == init + [last];
      ChangedOnce(init, modTimes);
      NextVisited(walk, |walk| - 1);
      AddedOnce(ChangedIn(init, modTimes), last.path);
    }
  }

  lemma {:induction false} PendingOne(walk: seq<Visited>, modTimes: map<string, int>, v: Visited)
    requires OncePerFile(walk) && v in walk
    ensures var pending := PendingIn(walk, modTimes);
            (v.path in pending <==> Changed(v, modTimes))
            && (v.path in pending ==> pending[v.path] == v.mtime.value)
    decreases |walk|
  {
    var init, last := walk[..|walk| - 1], walk[|walk| - 1];
    assert walk == init + [last];
    ChangedOnce(init, modTimes);
    NextVisited(walk, |walk| - 1);
    if v != last {
      assert v in init && v.path in SeenIn(init);
      PendingOne(init, modTimes, v);
    }
  }

  lemma AddedOnce(paths: seq<string>, path: string)
    requires NoDuplicates(paths) && path !in paths
    ensures NoDuplicates(paths + [path])
  {}

  // ----- the scan as a run of steps -----

  /** The actions can be taken one after another, and they end in `next`. */
  ghost predicate Leads(w: World, actions: seq<Action>, next: World, root: string) {
    EnabledRun(w, actions, root) && Final(w, actions, root) == next
  }

  lemma {:induction false} OneMore(w: World, actions: seq<Action>, mid: World, a: Action, root: string)
    requires Leads(w, actions, mid, root) && Enabled(mid, a, root)
    ensures Leads(w, actions + [a], Do(mid, a, root), root)
    decreases actions
  {
    if actions == [] {
      assert [] + [a] == [a] && [a][1..] == [];
    } else {
      assert (actions + [a])[0] == actions[0] && (actions + [a])[1..] == actions[1..] + [a];
      OneMore(Do(w, actions[0], root), actions[1..], mid, a, root);
    }
  }

  lemma {:induction false} MoreSteps(w: World, a: seq<Action>, mid: World, b: seq<Action>, next: World, root: string)
    requires Leads(w, a, mid, root) && Leads(mid, b, next, root)
    ensures Leads(w, a + b, next, root)
    decreases a
  {
    if a == [] {
      assert a + b == b;
    } else {
      assert (a + b)[0] == a[0] && (a + b)[1..] == a[1..] + b;
      MoreSteps(Do(w, a[0], root), a[1..], mid, b, next, root);
    }
  }

  /** The walk saw the disk as it is, each file once; a walk that did not fail saw all of it. */
  ghost predicate WalkedDisk(w: World, walk: seq<Visited>, walkFailed: bool) {
    (forall v | v in walk ::
       v.path in w.watched && v.path in w.disk && (v.mtime.Some? ==> v.mtime.value == w.disk[v.path].mtime))
    && OncePerFile(walk)
    && (!walkFailed ==> w.disk.Keys * w.watched <= SeenIn(walk))
  }

  /** The world at the end of a walk. */
  function WalkEnd(w: World, walk: seq<Visited>): World {
    w.(phase := Walking(SeenIn(walk), PendingIn(walk, w.modTimes), w.disk.Keys * w.watched))
  }

  function VisitOf(v: Visited): Action {
    Visit(v.path, v.settled && v.mtime.Some?)
  }

  lemma VisitStep(w: World, walk: seq<Visited>, v: Visited, root: string)
    requires v.path in w.watched && v.path in w.disk && (v.mtime.Some? ==> v.mtime.value == w.disk[v.path].mtime)
    ensures Enabled(WalkEnd(w, walk), VisitOf(v), root)
    ensures Do(WalkEnd(w, walk), VisitOf(v), root) == WalkEnd(w, walk + [v])
  {
    assert (walk + [v])[..|walk|] == walk;
    assert SeenIn(walk + [v]) == SeenIn(walk) + {v.path};
  }

  /** The steps of a walk, up to its end. */
  lemma {:induction false} WalkSteps(w: World, walk: seq<Visited>, root: string) returns (actions: seq<Action>)
    requires w.phase.Waiting? && WalkedDisk(w, walk, true)
    ensures Leads(w, actions, WalkEnd(w, walk), root)
    decreases |walk|
  {
    if walk == [] {
      assert SeenIn([]) == {};
      OneMore(w, [], w, StartWalk, root);
      actions := [] + [StartWalk];
    } else {
      var init, last := walk[..|walk| - 1], walk[|walk| - 1];
      assert walk == init + [last] && last in walk && forall v | v in init :: v in walk;
      var before := WalkSteps(w, init, root);
      VisitStep(w, init, last, root);
      OneMore(w, before, WalkEnd(w, init), VisitOf(last), root);
      actions := before + [VisitOf(last)];
    }
  }

  /** Reading a watched file gives what the disk holds, up to the passes of the transformer. */
  ghost predicate ReadsDisk(w: World, read: string -> Option<ParsedFile>, root: string) {
    forall p | p in w.disk && p in w.watched ::
      (read(p).Some? <==> w.disk[p].parsed.Parsed?)
      && (read(p).Some? ==> read(p).value.temp.None?
                            && Transformed(read(p).value.nodes, root) == w.disk[p].parsed.nodes)
  }

  lemma {:induction false} PassConcat(a: seq<ParsedNode>, b: seq<ParsedNode>, prefix: string)
    ensures PassNodes(a + b, prefix) == PassNodes(a, prefix) + PassNodes(b, prefix)
  {
    if a == [] {
      assert a + b == b;
    } else {
      assert (a + b)[1..] == a[1..] + b;
      PassConcat(a[1..], b, prefix);
    }
  }

  /** What the compile wires is what the steps loaded, file by file. */
  lemma {:induction false} LoadedForest(
      w: World, paths: seq<string>, read: string -> Option<ParsedFile>, root: string, loaded: map<string, File>)
    requires root != "" && ReadsDisk(w, read, root)
    requires forall p | p in paths ::
               p in w.disk && p in w.watched && read(p).Some? && p in loaded && loaded[p] == w.disk[p]
    ensures var files := seq(|paths|, i requires 0 <= i < |paths| => assert paths[i] in paths; read(paths[i]).value);
            (forall p | p in paths :: loaded[p].parsed.Parsed?) && ForestAt(files, root) == Forest(paths, loaded)
    decreases |paths|
  {
    var files := seq(|paths|, i requires 0 <= i < |paths| => assert paths[i] in paths; read(paths[i]).value);
    if paths != [] {
      assert paths[0] in paths && forall p | p in paths[1..] :: p in paths;
      LoadedForest(w, paths[1..], read, root, loaded);
      var rest := seq(|paths| - 1, i requires 0 <= i < |paths| - 1 =>
                        assert paths[1..][i] in paths; read(paths[1..][i]).value);
      assert files[1..] == rest;
      PassConcat(files[0].nodes, ForestOf(rest), PrefixOf(root));
    }
  }

  lemma ChangedForest(
      w: World, changed: seq<string>, results: seq<Option<ParsedFile>>, read: string -> Option<ParsedFile>,
      root: string)
    requires root != "" && ReadsDisk(w, read, root) && forall p | p in changed :: p in w.disk && p in w.watched
    requires results == seq(|changed|, i requires 0 <= i < |changed| => read(changed[i])) && None !in results
    ensures forall p | p in changed :: read(p).Some? && w.disk[p].parsed.Parsed?
    ensures ForestAt(AllRead(results), root) == Forest(changed, FilesAt(w.disk, changed))
  {
    forall p | p in changed
      ensures read(p).Some?
    {
      var i :| 0 <= i < |changed| && changed[i] == p;
      assert results[i] in results;
    }
    LoadedForest(w, changed, read, root, FilesAt(w.disk, changed));
    assert AllRead(results)
        == seq(|changed|, i requires 0 <= i < |changed| => assert changed[i] in changed; read(changed[i]).value);
  }

  lemma NothingListed(db: Db, root: string)
    ensures Lists([], db, CompileFiles([], root))
  {
    assert TreeOf(db.nodes, CompileFiles([], root)) == [];
    assert ScopeOf(db, CompileFiles([], root)) == map[];
  }

  function FilesAt(disk: map<string, File>, paths: seq<string>): map<string, File>
    requires forall p | p in paths :: p in disk
  {
    map p | p in paths :: disk[p]
  }

  /** The world once the changed files are read. */
  function ReadEnd(w: World, paths: seq<string>): World
    requires w.phase.Compiling? && forall p | p in paths :: p in w.disk
  {
    w.(phase := Compiling(w.phase.pending, FilesAt(w.disk, paths)))
  }

  lemma ReadStep(w: World, paths: seq<string>, path: string, root: string)
    requires w.phase.Compiling? && forall p | p in paths :: p in w.disk
    requires path in w.phase.pending && path in w.disk && w.disk[path].parsed.Parsed?
    ensures Enabled(ReadEnd(w, paths), ReadFile(path), root)
    ensures Do(ReadEnd(w, paths), ReadFile(path), root) == ReadEnd(w, paths + [path])
  {
    assert FilesAt(w.disk, paths + [path]) == FilesAt(w.disk, paths)[path := w.disk[path]];
  }

  /** The steps that read every changed file. */
  lemma {:induction false} ReadSteps(w: World, paths: seq<string>, root: string) returns (actions: seq<Action>)
    requires w.phase.Compiling? && w.phase.loaded == map[]
    requires forall p | p in paths :: p in w.phase.pending && p in w.disk && w.disk[p].parsed.Parsed?
    ensures Leads(w, actions, ReadEnd(w, paths), root)
    decreases |paths|
  {
    if paths == [] {
      actions := [];
      assert FilesAt(w.disk, paths) == map[];
    } else {
      var init, last := paths[..|paths| - 1], paths[|paths| - 1];
      assert paths == init + [last] && last in paths && forall p | p in init :: p in paths;
      var before := ReadSteps(w, init, root);
      ReadStep(w, init, last, root);
      OneMore(w, before, ReadEnd(w, init), ReadFile(last), root);
      actions := before + [ReadFile(last)];
    }
  }

  /** The store once the purge of a scan was attempted. */
  function Purged(w: World, walk: seq<Visited>, purged: seq<NodeId>): Db
    requires forall id | id in purged :: id in ScopeOf(w.db, Purge(w.modTimes.Keys - SeenIn(walk)))
  {
    var result := Outcome(w.db, Purge(w.modTimes.Keys - SeenIn(walk)), purged);
    if result.Ok? then result.value else w.db
  }

  /** The world between purge and compile, with the unseen files forgotten. */
  function PurgeEnd(w: World, walk: seq<Visited>, purged: seq<NodeId>): World
    requires forall id | id in purged :: id in ScopeOf(w.db, Purge(w.modTimes.Keys - SeenIn(walk)))
  {
    w.(modTimes := w.modTimes - (w.modTimes.Keys - SeenIn(walk)), db := Purged(w, walk, purged),
       phase := Compiling(PendingIn(walk, w.modTimes), map[]))
  }

  /** The world between purge and compile, with whatever the attempt left in the store. */
  function Unlocked(w: World, walk: seq<Visited>, db: Db): World {
    w.(modTimes := w.modTimes - (w.modTimes.Keys - SeenIn(walk)), db := db,
       phase := Compiling(PendingIn(walk, w.modTimes), map[]))
  }

  lemma PurgeAttempt(w: World, walk: seq<Visited>, purged: seq<NodeId>, locked: bool, root: string)
      returns (actions: seq<Action>)
    requires w.phase.Waiting? && WalkedDisk(w, walk, false)
    requires Lists(purged, w.db, Purge(w.modTimes.Keys - SeenIn(walk)))
    ensures Leads(w, actions, Unlocked(w, walk, if locked then w.db else Purged(w, walk, purged)), root)
  {
    var walked := WalkSteps(w, walk, root);
    var end := WalkEnd(w, walk);
    OneMore(w, walked, end, FinishWalk, root);
    OneMore(w, walked + [FinishWalk], Do(end, FinishWalk, root), PurgeDeleted(purged, locked), root);
    actions := walked + [FinishWalk] + [PurgeDeleted(purged, locked)];
  }

  /** The world once the compile was attempted. */
  function CompileEnd(w: World, changed: seq<string>, order: seq<NodeId>, root: string): World
    requires w.phase.Compiling? && forall p | p in changed :: p in w.disk && w.disk[p].parsed.Parsed?
    requires forall id | id in order :: id in ScopeOf(w.db, CompileOp(changed, FilesAt(w.disk, changed), root))
  {
    var result := Outcome(w.db, CompileOp(changed, FilesAt(w.disk, changed), root), order);
    if result.Ok? then w.(modTimes := w.modTimes + w.phase.pending, db := result.value, phase := Waiting)
    else w.(phase := Waiting)
  }

  lemma EmitStep(w: World, changed: seq<string>, order: seq<NodeId>, root: string)
    requires w.phase.Compiling? && NoDuplicates(changed) && (forall p :: p in changed <==> p in w.phase.pending)
    requires forall p | p in changed :: p in w.disk && w.disk[p].parsed.Parsed?
    requires Lists(order, w.db, CompileOp(changed, FilesAt(w.disk, changed), root))
    ensures Enabled(ReadEnd(w, changed), EmitCompile(changed, order, false), root)
    ensures Do(ReadEnd(w, changed), EmitCompile(changed, order, false), root) == CompileEnd(w, changed, order, root)
  {
    assert ReadEnd(w, changed).phase.loaded == FilesAt(w.disk, changed);
    if w.phase.pending == map[] {
      assert forall p :: p !in changed;
      assert changed == [];
      EmptyEnd(w, order, root);
    }
  }

  lemma EmptyEnd(w: World, order: seq<NodeId>, root: string)
    requires w.phase.Compiling? && w.phase.pending == map[] && Lists(order, w.db, CompileFiles([], root))
    ensures CompileEnd(w, [], order, root) == w.(phase := Waiting)
  {
    NothingEmitted(w.db, order, root);
    assert w.modTimes + map[] == w.modTimes;
  }

  lemma NothingEmitted(db: Db, order: seq<NodeId>, root: string)
    requires Lists(order, db, CompileFiles([], root))
    ensures Outcome(db, CompileFiles([], root), order) == Ok(db)
  {
    NothingListed(db, root);
    Memberless(order);
  }

  lemma FirstMember<T>(order: seq<T>)
    requires order != []
    ensures order[0] in order
  {}

  lemma Memberless<T>(order: seq<T>)
    requires forall x :: x !in order
    ensures order == []
  {
    if order != [] {
      FirstMember(order);
      assert false;
    }
  }

  lemma CompileSteps(w: World, changed: seq<string>, order: seq<NodeId>, root: string) returns (actions: seq<Action>)
    requires w.phase.Compiling? && w.phase.loaded == map[]
    requires NoDuplicates(changed) && (forall p :: p in changed <==> p in w.phase.pending)
    requires forall p | p in changed :: p in w.disk && w.disk[p].parsed.Parsed?
    requires Lists(order, w.db, CompileOp(changed, FilesAt(w.disk, changed), root))
    ensures Leads(w, actions, CompileEnd(w, changed, order, root), root)
  {
    var before := ReadSteps(w, changed, root);
    EmitStep(w, changed, order, root);
    OneMore(w, before, ReadEnd(w, changed), EmitCompile(changed, order, false), root);
    actions := before + [EmitCompile(changed, order, false)];
  }

  /** The steps of a whole scan that nothing disturbs, whether or not its purge and its compile can commit. */
  lemma ScanSteps(
      w: World, walk: seq<Visited>, purged: seq<NodeId>, changed: seq<string>, order: seq<NodeId>, root: string)
      returns (actions: seq<Action>)
    requires w.phase.Waiting? && WalkedDisk(w, walk, false)
    requires NoDuplicates(changed) && (forall p :: p in changed <==> p in PendingIn(walk, w.modTimes))
    requires forall p | p in changed :: p in w.disk && w.disk[p].parsed.Parsed?
    requires Lists(purged, w.db, Purge(w.modTimes.Keys - SeenIn(walk)))
    requires Lists(order, Purged(w, walk, purged), CompileOp(changed, FilesAt(w.disk, changed), root))
    ensures Leads(w, actions, CompileEnd(PurgeEnd(w, walk, purged), changed, order, root), root)
  {
    var mid := PurgeEnd(w, walk, purged);
    assert FilesAt(mid.disk, changed) == FilesAt(w.disk, changed);
    var before := PurgeAttempt(w, walk, purged, false, root);
    var after := CompileSteps(mid, changed, order, root);
    MoreSteps(w, before, mid, after, CompileEnd(mid, changed, order, root), root);
    actions := before + after;
  }

  // ----- the loop -----

  class RescanLoop {
    const st: Store
    const root: string
    var modTimes: map<string, int>

    constructor (st: Store, root: string)
      ensures this.st == st && this.root == root && modTimes == map[]
    {
      this.st, this.root := st, root;
      modTimes := map[];
    }

    /** Forgets the tracked files that the walk did not see. */
    method ForgetUnseen(seen: set<string>) returns (deleted: set<string>)
      modifies this`modTimes
      ensures deleted == old(modTimes).Keys - seen && modTimes == old(modTimes) - deleted
    {
      deleted := {};
      var left := modTimes.Keys;
      while left != {}
        invariant left <= old(modTimes).Keys && deleted == (old(modTimes).Keys - left) - seen
        invariant modTimes == old(modTimes) - deleted
        decreases left
      {
        var path :| path in left;
        left := left - {path};
        if path !in seen {
          modTimes := modTimes - {path};
          deleted := deleted + {path};
        }
      }
    }

    /** The walk's visitor, file by file. */
    method VisitFiles(walk: seq<Visited>) returns (seen: set<string>, pending: map<string, int>, changed: seq<string>)
      requires OncePerFile(walk)
      ensures seen == SeenIn(walk) && pending == PendingIn(walk, modTimes) && changed == ChangedIn(walk, modTimes)
      ensures NoDuplicates(changed) && (forall p :: p in changed <==> p in pending)
      ensures forall p | p in changed :: p in seen
      ensures forall v | v in walk :: (v.path in changed <==> Changed(v, modTimes))
                                      && (v.path in changed ==> pending[v.path] == v.mtime.value)
    {
      seen, pending, changed := {}, map[], [];
      for i := 0 to |walk|
        invariant seen == SeenIn(walk[..i])
        invariant pending == PendingIn(walk[..i], modTimes) && changed == ChangedIn(walk[..i], modTimes)
      {
        var v := walk[i];
        NextVisited(walk, i);
        seen := seen + {v.path};
        if v.mtime.Some? && v.settled {
          if v.path !in modTimes || modTimes[v.path] < v.mtime.value {
            changed := changed + [v.path];
            pending := pending[v.path := v.mtime.value];
          }
        }
      }
      assert walk[..|walk|] == walk;
      PendingIs(walk, modTimes);
    }

    /** Compiles the changed files, and records their times if that is emitted. */
    method CompileChanged(changed: seq<string>, pending: map<string, int>, read: string -> Option<ParsedFile>,
                          rank: NodeId -> nat, weather: nat -> Weather, patient: nat -> bool, ghost w: World)
      returns (applied: bool, ghost order: seq<NodeId>, ghost actions: seq<Action>)
      requires root != "" && w.modTimes == modTimes && w.db == st.Contents() && w.phase == Compiling(pending, map[])
      requires NoDuplicates(changed) && (forall p :: p in changed <==> p in pending)
      requires ReadsDisk(w, read, root) && forall p | p in changed :: p in w.disk && p in w.watched
      modifies this`modTimes, st
      ensures Leads(w, actions, w.(modTimes := modTimes, db := st.Contents(), phase := Waiting), root)
      ensures modTimes == if applied then old(modTimes) + pending else old(modTimes)
      ensures CompiledChanged(w.disk, w.db, changed, root, rank, weather, patient, applied, order, st.Contents())
    {
      order := [];
      if |changed| == 0 {
        actions := NothingChanged(w, root);
        return false, order, actions;
      }
      var results := seq(|changed|, i requires 0 <= i < |changed| => read(changed[i]));
      ReadableIff(w, changed, results, read, root);
      var err;
      err, order := Compile(st, results, root, false, rank, weather, patient);
      if err.Some? {
        OneMore(w, [], w, FailCompile, root);
        return false, order, [] + [FailCompile];
      }
      actions := CompileSteps(w, changed, order, root);
      modTimes := modTimes + pending;
      applied := true;
    }

    /**
     One scan. It is a run of the loop's steps on the world that it starts in, so it keeps
     whatever they keep. A failed walk changes nothing. Otherwise the unseen files are forgotten,
     their rows are purged if that can be emitted, the changed files are compiled if they can all
     be read and that can be emitted, and exactly then their times are recorded.
    */
    method Scan(walk: seq<Visited>, walkFailed: bool, read: string -> Option<ParsedFile>, rank: NodeId -> nat,
                purgeWeather: nat -> Weather, purgePatient: nat -> bool, weather: nat -> Weather, patient: nat -> bool,
                ghost w: World)
      returns (applied: bool, ghost purged: seq<NodeId>, ghost order: seq<NodeId>, ghost actions: seq<Action>)
      requires root != "" && w.modTimes == modTimes && w.db == st.Contents() && w.phase.Waiting?
      requires WalkedDisk(w, walk, walkFailed) && ReadsDisk(w, read, root)
      modifies this`modTimes, st
      ensures Leads(w, actions, w.(modTimes := modTimes, db := st.Contents()), root)
      ensures WorldInv(w) ==> WorldInv(w.(modTimes := modTimes, db := st.Contents()))
      ensures WorldInv(w) && !walkFailed ==>
                CaughtUpIff(w, w.(modTimes := modTimes, db := st.Contents()), walk, applied)
      ensures walkFailed ==> !applied && modTimes == old(modTimes) && st.Contents() == old(st.Contents())
      ensures !walkFailed ==>
                var deleted := old(modTimes).Keys - SeenIn(walk);
                modTimes == TimesAfter(old(modTimes), walk, applied)
                && Lists(purged, w.db, Purge(deleted))
                && CompiledChanged(w.disk, Attempted(w.db, Purge(deleted), purged, purgeWeather, purgePatient),
                                   ChangedIn(walk, w.modTimes), root, rank, weather, patient, applied, order,
                                   st.Contents())
    {
      purged, order := [], [];
      var seen, pending, changed := VisitFiles(walk);
      if walkFailed {
        actions := FailedWalk(w, walk, root);
        ScanKeeps(w, actions, w, walk, walkFailed, false, root);
        return false, purged, order, actions;
      }
      var deleted := ForgetUnseen(seen);
      var failed;
      failed, purged := ReconcileDeleted(st, deleted, purgeWeather, purgePatient);
      actions := PurgeAttempt(w, walk, purged, failed.Some?, root);
      ghost var mid, rest := Unlocked(w, walk, st.Contents()), [];
      applied, order, rest := CompileChanged(changed, pending, read, rank, weather, patient, mid);
      ghost var after := w.(modTimes := modTimes, db := st.Contents());
      MoreSteps(w, actions, mid, rest, after, root);
      actions := actions + rest;
      ScanKeeps(w, actions, after, walk, walkFailed, applied, root);
    }
  }

  lemma FailedWalk(w: World, walk: seq<Visited>, root: string) returns (actions: seq<Action>)
    requires w.phase.Waiting? && WalkedDisk(w, walk, true)
    ensures Leads(w, actions, w, root)
  {
    actions := WalkSteps(w, walk, root);
    OneMore(w, actions, WalkEnd(w, walk), AbortWalk, root);
    actions := actions + [AbortWalk];
  }

  // ----- what a scan's compile does -----

  ghost predicate Readable(disk: map<string, File>, changed: seq<string>) {
    forall p | p in changed :: p in disk && disk[p].parsed.Parsed?
  }

  /**
   Nothing happens without a changed file or with one that cannot be read or parsed. Otherwise
   the changed files are compiled as they are on disk, exactly if that can be emitted.
  */
  ghost predicate CompiledChanged(
      disk: map<string, File>, db: Db, changed: seq<string>, root: string, rank: NodeId -> nat,
      weather: nat -> Weather, patient: nat -> bool, applied: bool, order: seq<NodeId>, after: Db)
  {
    if changed == [] || !Readable(disk, changed) then !applied && after == db
    else
      var op := CompileOp(changed, FilesAt(disk, changed), root);
      Lists(order, db, op) && SortedBy(order, rank)
      && (applied <==> Lands(db, RequestOf(db, op, order), weather, patient))
      && after == Attempted(db, op, order, weather, patient)
  }

  lemma NothingChanged(w: World, root: string) returns (actions: seq<Action>)
    requires w.phase == Compiling(map[], map[])
    ensures Leads(w, actions, w.(phase := Waiting), root)
  {
    NothingListed(w.db, root);
    OneMore(w, [], w, EmitCompile([], [], false), root);
    actions := [] + [EmitCompile([], [], false)];
  }

  lemma ReadableIff(
      w: World, changed: seq<string>, results: seq<Option<ParsedFile>>, read: string -> Option<ParsedFile>,
      root: string)
    requires root != "" && ReadsDisk(w, read, root) && forall p | p in changed :: p in w.disk && p in w.watched
    requires results == seq(|changed|, i requires 0 <= i < |changed| => read(changed[i]))
    ensures None in results <==> !Readable(w.disk, changed)
    ensures None !in results ==> ForestAt(AllRead(results), root) == Forest(changed, FilesAt(w.disk, changed))
  {
    if None in results {
      var i :| 0 <= i < |results| && results[i] == None;
      assert changed[i] in changed;
    } else {
      ChangedForest(w, changed, results, read, root);
    }
  }

  // ----- catching up -----

  /** The file is tracked at its time on disk, and its rows are its parse unless that is empty. */
  ghost predicate CaughtUp(w: World, file: string) {
    file in w.disk && file in w.modTimes && w.modTimes[file] == w.disk[file].mtime
    && w.disk[file].parsed.Parsed?
    && (w.disk[file].parsed.nodes != [] ==> RowsOf(w.db.nodes, file) == AloneParse(file, w.disk[file].parsed.nodes))
  }

  /** A complete scan brings a file into step if and only if it was, or has settled and the compile is emitted. */
  ghost predicate CaughtUpIff(w: World, after: World, walk: seq<Visited>, applied: bool) {
    forall v | v in walk ::
      CaughtUp(after, v.path) <==> CaughtUp(w, v.path) || (applied && v.settled && v.mtime.Some?)
  }

  lemma CatchesUp(w: World, after: World, walk: seq<Visited>, applied: bool)
    requires WorldInv(w) && WorldInv(after) && WalkedDisk(w, walk, false) && after.disk == w.disk
    requires after.modTimes == TimesAfter(w.modTimes, walk, applied)
    ensures CaughtUpIff(w, after, walk, applied)
  {
    PendingIs(walk, w.modTimes);
    forall v | v in walk
      ensures CaughtUp(after, v.path) <==> CaughtUp(w, v.path) || (applied && v.settled && v.mtime.Some?)
    {
      TrackedIsCaughtUp(w, v.path);
      TrackedIsCaughtUp(after, v.path);
      TimeAfter(w, after, walk, applied, v);
    }
  }

  lemma ScanKeeps(
      w: World, actions: seq<Action>, after: World, walk: seq<Visited>, walkFailed: bool, applied: bool, root: string)
    requires Leads(w, actions, after, root) && WalkedDisk(w, walk, walkFailed) && after.disk == w.disk
    requires !walkFailed ==> after.modTimes == TimesAfter(w.modTimes, walk, applied)
    ensures WorldInv(w) ==> WorldInv(after) && (!walkFailed ==> CaughtUpIff(w, after, walk, applied))
  {
    if WorldInv(w) {
      ScansStayInStep(w, actions, root);
      if !walkFailed {
        CatchesUp(w, after, walk, applied);
      }
    }
  }

  /** In step with the disk, a file is caught up as soon as it is tracked at its time on disk. */
  lemma TrackedIsCaughtUp(w: World, file: string)
    requires WorldInv(w)
    ensures CaughtUp(w, file) <==> TrackedNow(w, file)
  {
    assert InStep(w, file);
  }

  predicate TrackedNow(w: World, file: string) {
    file in w.disk && file in w.modTimes && w.modTimes[file] == w.disk[file].mtime
  }

  lemma TimeAfter(w: World, after: World, walk: seq<Visited>, applied: bool, v: Visited)
    requires WorldInv(w) && WalkedDisk(w, walk, false) && after.disk == w.disk && v in walk
    requires after.modTimes == TimesAfter(w.modTimes, walk, applied)
    ensures TrackedNow(after, v.path) <==> TrackedNow(w, v.path) || (applied && v.settled && v.mtime.Some?)
  {
    PendingIs(walk, w.modTimes);
    assert v.path in SeenIn(walk);
    assert w.disk[v.path].mtime == w.saved[v.path];
    assert v.path in w.modTimes ==> w.modTimes[v.path] <= w.saved[v.path];
  }

  // ----- scanning a disk that stands still -----

  /** A visited file is compiled if and only if it has settled and is not tracked at its time on disk. */
  lemma ChangedIffBehind(w: World, walk: seq<Visited>, v: Visited)
    requires WorldInv(w) && WalkedDisk(w, walk, true) && v in walk
    ensures v.path in ChangedIn(walk, w.modTimes) <==> v.mtime.Some? && v.settled && !TrackedNow(w, v.path)
  {
    PendingIs(walk, w.modTimes);
    assert w.disk[v.path].mtime == w.saved[v.path];
    assert v.path in w.modTimes ==> w.modTimes[v.path] <= w.saved[v.path];
  }

  /**
   A complete scan that meets every tracked file again, and no settled file that is behind, leaves
   the store and the recorded times as they are.
  */
  lemma QuietScan(w: World, walk: seq<Visited>, purged: seq<NodeId>, weather: nat -> Weather, patient: nat -> bool)
    requires WorldInv(w) && WalkedDisk(w, walk, false) && w.modTimes.Keys <= SeenIn(walk)
    requires forall v | v in walk && v.mtime.Some? && v.settled :: TrackedNow(w, v.path)
    requires Lists(purged, w.db, Purge(w.modTimes.Keys - SeenIn(walk)))
    ensures ChangedIn(walk, w.modTimes) == [] && TimesAfter(w.modTimes, walk, false) == w.modTimes
    ensures Attempted(w.db, Purge(w.modTimes.Keys - SeenIn(walk)), purged, weather, patient) == w.db
  {
    PendingIs(walk, w.modTimes);
    forall p
      ensures p !in ChangedIn(walk, w.modTimes)
    {
      if p in SeenIn(walk) {
        var v :| v in walk && v.path == p;
        ChangedIffBehind(w, walk, v);
      }
    }
    Memberless(ChangedIn(walk, w.modTimes));
    assert w.modTimes.Keys - SeenIn(walk) == {};
    NothingPurged(w.db, purged);
  }

  lemma NothingPurged(db: Db, purged: seq<NodeId>)
    requires Lists(purged, db, Purge({}))
    ensures RequestOf(db, Purge({}), purged).deltas == [] && Outcome(db, Purge({}), purged) == Ok(db)
  {
    assert TreeOf(db.nodes, Purge({})) == [] && ScopeOf(db, Purge({})) == map[];
    Memberless(purged);
  }
}
