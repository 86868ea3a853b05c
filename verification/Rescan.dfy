/**
 The rescan loop against a disk that keeps changing. A scan walks the tree, forgets deleted
 files, purges their rows, compiles what changed and only then records modification times.
 Saves, deletions and other database work may fall between any two of these steps.
*/
module Rescan {
  import opened Ids
  import opened Ast
  import opened Transformer
  import opened Diff
  import opened Tables
  import opened Stores
  import opened Emission
  import opened Replication
  import opened Operations
  import opened Compiler
  import opened Versioning

  /** What a parser makes of a file's bytes. */
  datatype Parsed = Malformed | Parsed(nodes: seq<ParsedNode>)

  datatype File = File(mtime: int, parsed: Parsed)

  datatype Phase =
    | Waiting
    | Walking(seen: set<string>, pending: map<string, int>, present: set<string>)
    | Purging(deleted: set<string>, pending: map<string, int>, spared: set<string>)
    | Compiling(pending: map<string, int>, loaded: map<string, File>)

  /**
   `watched` are the paths that the walk may select, relative to the watched directory, and
   `saved` is the time of the latest save a path has ever had.
  */
  datatype World = World(
    watched: set<string>, disk: map<string, File>, saved: map<string, int>, modTimes: map<string, int>, db: Db,
    phase: Phase)

  datatype Action =
    | Save(path: string, file: File)
    | Remove(path: string)
    | Elsewhere(events: seq<Event>)
    | StartWalk
    | Visit(path: string, settled: bool)
    | AbortWalk
    | FinishWalk
    | PurgeDeleted(order: seq<NodeId>, locked: bool)
    | ReadFile(path: string)
    | FailCompile
    | EmitCompile(paths: seq<string>, order: seq<NodeId>, locked: bool)

  function Forest(paths: seq<string>, loaded: map<string, File>): seq<ParsedNode>
    requires forall p | p in paths :: p in loaded && loaded[p].parsed.Parsed?
  {
    if paths == [] then [] else loaded[paths[0]].parsed.nodes + Forest(paths[1..], loaded)
  }

  function CompileOp(paths: seq<string>, loaded: map<string, File>, root: string): Operation
    requires forall p | p in paths :: p in loaded && loaded[p].parsed.Parsed?
  {
    CompileFiles(Forest(paths, loaded), root)
  }

  /** A parser stamps every node with the path it was given. */
  predicate GoodFile(path: string, file: File) {
    file.parsed.Parsed? ==> forall n | n in file.parsed.nodes :: WellParsed(n, path, 1)
  }

  ghost predicate Enabled(w: World, a: Action, root: string) {
    match a
    case Save(path, file) => GoodFile(path, file) && (path in w.saved ==> w.saved[path] < file.mtime)
    case Remove(path) => path in w.disk
    case Elsewhere(events) =>
      AllowedRun(w.db, events)
      && forall f | f in w.watched :: RowsOf(Run(w.db, events).nodes, f) == RowsOf(w.db.nodes, f)
    case StartWalk => w.phase.Waiting?
    case Visit(path, _) => w.phase.Walking? && path in w.disk && path in w.watched
    case AbortWalk => w.phase.Walking?
    case FinishWalk => w.phase.Walking? && w.phase.present <= w.phase.seen
    case PurgeDeleted(order, _) => w.phase.Purging? && Lists(order, w.db, Purge(w.phase.deleted))
    case ReadFile(path) =>
      w.phase.Compiling? && path in w.phase.pending && path in w.disk && w.disk[path].parsed.Parsed?
    case FailCompile => w.phase.Compiling?
    case EmitCompile(paths, order, _) =>
      w.phase.Compiling? && NoDuplicates(paths) && (forall p :: p in paths <==> p in w.phase.pending)
      && (forall p | p in paths :: p in w.phase.loaded && w.phase.loaded[p].parsed.Parsed?)
      && Lists(order, w.db, CompileOp(paths, w.phase.loaded, root))
  }

  function Visited(w: World, path: string, settled: bool): Phase
    requires w.phase.Walking? && path in w.disk
  {
    var mtime := w.disk[path].mtime;
    var changed := settled && (path in w.modTimes ==> w.modTimes[path] < mtime);
    w.phase.(seen := w.phase.seen + {path},
             pending := if changed then w.phase.pending[path := mtime] else w.phase.pending)
  }

  ghost function Do(w: World, a: Action, root: string): World
    requires Enabled(w, a, root)
  {
    match a
    case Save(path, file) => w.(disk := w.disk[path := file], saved := w.saved[path := file.mtime])
    case Remove(path) =>
      w.(disk := w.disk - {path},
         phase := if w.phase.Walking? then w.phase.(present := w.phase.present - {path}) else w.phase)
    case Elsewhere(events) => w.(db := Run(w.db, events))
    case StartWalk => w.(phase := Walking({}, map[], w.disk.Keys * w.watched))
    case Visit(path, settled) => w.(phase := Visited(w, path, settled))
    case AbortWalk => w.(phase := Waiting)
    case FinishWalk =>
      var deleted := w.modTimes.Keys - w.phase.seen;
      w.(modTimes := w.modTimes - deleted, phase := Purging(deleted, w.phase.pending, w.phase.seen))
    case PurgeDeleted(order, locked) =>
      var result := Outcome(w.db, Purge(w.phase.deleted), order);
      w.(db := if locked || result.Err? then w.db else result.value, phase := Compiling(w.phase.pending, map[]))
    case ReadFile(path) => w.(phase := w.phase.(loaded := w.phase.loaded[path := w.disk[path]]))
    case FailCompile => w.(phase := Waiting)
    case EmitCompile(paths, order, locked) =>
      var result := Outcome(w.db, CompileOp(paths, w.phase.loaded, root), order);
      if w.phase.pending == map[] || locked || result.Err? then w.(phase := Waiting)
      else w.(db := result.value, modTimes := w.modTimes + w.phase.pending, phase := Waiting)
  }

  // ----- the invariant -----

  /** What the rows of a file would be if it were compiled alone. */
  function AloneParse(path: string, nodes: seq<ParsedNode>): State {
    ParseOf(ById(Flatten(Enrich(nodes))), path)
  }

  /** The rows of a tracked file whose disk time is the recorded one are exactly its parse. */
  ghost predicate InStep(w: World, path: string) {
    path in w.modTimes && path in w.disk && w.disk[path].mtime == w.modTimes[path] ==>
      w.disk[path].parsed.Parsed?
      && (w.disk[path].parsed.nodes != [] ==>
            RowsOf(w.db.nodes, path) == AloneParse(path, w.disk[path].parsed.nodes))
  }

  ghost predicate TimesOk(w: World, times: map<string, int>) {
    forall p | p in times :: p in w.watched && p in w.saved && times[p] <= w.saved[p]
  }

  /** A file read for the compile is at least as new as the walk saw it, and is still current if its time is. */
  ghost predicate LoadedOk(w: World, pending: map<string, int>, loaded: map<string, File>) {
    forall p | p in loaded :: LoadedFileOk(w, pending, loaded, p)
  }

  ghost predicate LoadedFileOk(w: World, pending: map<string, int>, loaded: map<string, File>, p: string)
    requires p in loaded
  {
    p in pending && p in w.saved && pending[p] <= loaded[p].mtime <= w.saved[p]
    && loaded[p].parsed.Parsed? && GoodFile(p, loaded[p])
    && (p in w.disk && w.disk[p].mtime == loaded[p].mtime ==> w.disk[p] == loaded[p])
  }

  ghost predicate PhaseOk(w: World) {
    match w.phase
    case Waiting => true
    case Walking(_, pending, _) => TimesOk(w, pending) && pending.Keys <= w.phase.seen
    case Purging(deleted, pending, spared) =>
      TimesOk(w, pending) && pending.Keys <= spared
      && deleted !! w.modTimes.Keys && deleted <= w.watched && deleted !! spared
    case Compiling(pending, loaded) => TimesOk(w, pending) && LoadedOk(w, pending, loaded)
  }

  ghost predicate DiskOk(w: World) {
    forall p | p in w.disk :: GoodFile(p, w.disk[p]) && p in w.saved && w.disk[p].mtime == w.saved[p]
  }

  ghost predicate WorldInv(w: World) {
    Inv(w.db) && DiskOk(w) && TimesOk(w, w.modTimes) && PhaseOk(w) && forall p :: InStep(w, p)
  }

  // ----- what a step does to the records -----

  ghost predicate SavesGrow(w: World, next: World) {
    next.watched == w.watched && forall p | p in w.saved :: p in next.saved && w.saved[p] <= next.saved[p]
  }

  lemma TimesStay(w: World, next: World, times: map<string, int>)
    requires TimesOk(w, times) && SavesGrow(w, next)
    ensures TimesOk(next, times)
  {}

  lemma StepKeepsDisk(w: World, a: Action, root: string)
    requires WorldInv(w) && Enabled(w, a, root)
    ensures var next := Do(w, a, root); SavesGrow(w, next) && DiskOk(next)
  {}

  lemma StepKeepsTimes(w: World, a: Action, root: string)
    requires WorldInv(w) && Enabled(w, a, root)
    ensures var next := Do(w, a, root); SavesGrow(w, next) && DiskOk(next) && TimesOk(next, next.modTimes)
  {
    var next := Do(w, a, root);
    StepKeepsDisk(w, a, root);
    TimesStay(w, next, w.modTimes);
    if a.EmitCompile? {
      TimesStay(w, next, w.phase.pending);
    }
  }

  lemma StepKeepsPhase(w: World, a: Action, root: string)
    requires WorldInv(w) && Enabled(w, a, root)
    ensures PhaseOk(Do(w, a, root))
  {
    var next := Do(w, a, root);
    StepKeepsTimes(w, a, root);
    if !next.phase.Waiting? && !w.phase.Waiting? {
      TimesStay(w, next, w.phase.pending);
      if w.phase.Walking? {
        WalkKeepsPhase(w, a, root);
      } else if w.phase.Compiling? {
        CompilingKeepsPhase(w, a, root);
      }
    }
  }

  lemma WalkKeepsPhase(w: World, a: Action, root: string)
    requires WorldInv(w) && Enabled(w, a, root) && w.phase.Walking?
    requires TimesOk(Do(w, a, root), w.phase.pending)
    ensures PhaseOk(Do(w, a, root))
  {
    if a.Visit? {
      assert w.disk[a.path].mtime == w.saved[a.path];
    }
  }

  lemma CompilingKeepsPhase(w: World, a: Action, root: string)
    requires WorldInv(w) && Enabled(w, a, root) && w.phase.Compiling?
    requires TimesOk(Do(w, a, root), w.phase.pending)
    ensures PhaseOk(Do(w, a, root))
  {
    var next := Do(w, a, root);
    if next.phase.Compiling? {
      forall p | p in next.phase.loaded
        ensures LoadedFileOk(next, w.phase.pending, next.phase.loaded, p)
      {
        assert p in w.phase.loaded ==> LoadedFileOk(w, w.phase.pending, w.phase.loaded, p);
      }
    }
  }

  /** The events of the versioned store that a step amounts to. */
  ghost function EventsOf(w: World, a: Action, root: string): seq<Event>
    requires Enabled(w, a, root)
  {
    match a
    case Elsewhere(events) => events
    case PurgeDeleted(order, locked) => [Operate(Purge(w.phase.deleted), order, locked)]
    case EmitCompile(paths, order, locked) =>
      if w.phase.pending == map[] then [] else [Operate(CompileOp(paths, w.phase.loaded, root), order, locked)]
    case _ => []
  }

  lemma OneEvent(db: Db, e: Event)
    requires Allowed(db, e)
    ensures AllowedRun(db, [e]) && Run(db, [e]) == Exec(db, e)
  {
    assert [e][1..] == [];
  }

  /** Each step of the loop and of the world around it is a run of the versioned store. */
  lemma StepIsRun(w: World, a: Action, root: string)
    requires WorldInv(w) && Enabled(w, a, root)
    ensures AllowedRun(w.db, EventsOf(w, a, root)) && Run(w.db, EventsOf(w, a, root)) == Do(w, a, root).db
  {
    match a
    case PurgeDeleted(order, locked) => OneEvent(w.db, Operate(Purge(w.phase.deleted), order, locked));
    case EmitCompile(paths, order, locked) => EmitIsRun(w, paths, order, locked, root);
    case _ =>
  }

  lemma EmitIsRun(w: World, paths: seq<string>, order: seq<NodeId>, locked: bool, root: string)
    requires WorldInv(w) && Enabled(w, EmitCompile(paths, order, locked), root)
    ensures var a := EmitCompile(paths, order, locked);
            AllowedRun(w.db, EventsOf(w, a, root)) && Run(w.db, EventsOf(w, a, root)) == Do(w, a, root).db
  {
    if w.phase.pending != map[] {
      LoadedIsLegal(w, paths, root);
      OneEvent(w.db, Operate(CompileOp(paths, w.phase.loaded, root), order, locked));
    }
  }

  lemma LoadedIsLegal(w: World, paths: seq<string>, root: string)
    requires WorldInv(w) && w.phase.Compiling? && NoDuplicates(paths)
    requires forall p | p in paths :: p in w.phase.loaded && w.phase.loaded[p].parsed.Parsed?
    ensures Legal(w.db, CompileOp(paths, w.phase.loaded, root))
    ensures forall p | p in paths :: GoodFile(p, w.phase.loaded[p])
  {
    forall p | p in paths
      ensures GoodFile(p, w.phase.loaded[p])
    {
      assert LoadedFileOk(w, w.phase.pending, w.phase.loaded, p);
    }
    ForestIsWellParsed(paths, w.phase.loaded);
  }

  // ----- the purge -----

  /** A purge removes the rows of the deleted files and no others. */
  lemma PurgeIsExact(db: Db, files: set<string>, order: seq<NodeId>, file: string)
    requires Fits(db.nodes) && Lists(order, db, Purge(files)) && Outcome(db, Purge(files), order).Ok?
    ensures var after := Outcome(db, Purge(files), order).value.nodes;
            Fits(after) && RowsOf(after, file) == if file in files then map[] else RowsOf(db.nodes, file)
  {
    var after := Outcome(db, Purge(files), order).value.nodes;
    SuccessMeans(db, Purge(files), order);
    forall id
      ensures id in after <==> id in db.nodes && db.nodes[id].source !in files
      ensures id in after ==> after[id].source == db.nodes[id].source && View(after)[id] == View(db.nodes)[id]
    {
      PurgedRow(db, files, order, id);
    }
    PurgedFile(after, db.nodes, files, file);
  }

  lemma PurgedFile(after: NodeTable, before: NodeTable, files: set<string>, file: string)
    requires forall id :: id in after <==> id in before && before[id].source !in files
    requires forall id | id in after :: after[id].source == before[id].source && View(after)[id] == View(before)[id]
    ensures RowsOf(after, file) == if file in files then map[] else RowsOf(before, file)
  {
    if file !in files {
      assert RowsOf(after, file).Keys == RowsOf(before, file).Keys;
    }
  }

  lemma PurgedRow(db: Db, files: set<string>, order: seq<NodeId>, id: NodeId)
    requires Fits(db.nodes) && Lists(order, db, Purge(files)) && Outcome(db, Purge(files), order).Ok?
    ensures var after := Outcome(db, Purge(files), order).value.nodes;
            (id in after <==> id in db.nodes && db.nodes[id].source !in files)
            && (id in after ==> after[id].source == db.nodes[id].source && View(after)[id] == View(db.nodes)[id])
  {
    var op := Purge(files);
    var after, prev := Outcome(db, op, order).value.nodes, ScopeOf(db, op);
    SuccessMeans(db, op, order);
    OperationIsChange(db, op);
    AfterLookup(db.nodes, [], prev, id);
    assert id in after <==> id in View(After(db.nodes, [], prev));
    if id in db.nodes {
      assert RowFits(id, db.nodes[id]) && (id in after ==> RowFits(id, after[id]));
      if Gone(id, [], prev) {
        GoneKeepsSource(id, [], prev, db.nodes);
      }
      assert id in prev ==> Gone(id, [], prev) by {
        assert Below(id, id);
      }
    }
  }

  lemma PurgeInStep(w: World, order: seq<NodeId>, locked: bool, root: string, p: string)
    requires WorldInv(w) && Enabled(w, PurgeDeleted(order, locked), root)
    ensures InStep(Do(w, PurgeDeleted(order, locked), root), p)
  {
    assert InStep(w, p);
    if !locked && Outcome(w.db, Purge(w.phase.deleted), order).Ok? {
      PurgeIsExact(w.db, w.phase.deleted, order, p);
    }
  }

  // ----- the compile -----

  lemma {:induction false} OnlyParsedConcat(a: seq<ParsedNode>, b: seq<ParsedNode>, source: string)
    ensures OnlyParsed(a + b, source) == OnlyParsed(a, source) + OnlyParsed(b, source)
  {
    if a == [] {
      assert a + b == b;
    } else {
      OnlyParsedConcat(a[1..], b, source);
      OnlyParsedCons(a[0], a[1..], source);
      OnlyParsedCons(a[0], a[1..] + b, source);
      assert a == [a[0]] + a[1..] && a + b == [a[0]] + (a[1..] + b);
    }
  }

  lemma OnlyParsedCons(n: ParsedNode, rest: seq<ParsedNode>, source: string)
    ensures OnlyParsed([n] + rest, source) == (if n.source == source then [n] else []) + OnlyParsed(rest, source)
  {
    assert ([n] + rest)[1..] == rest;
  }

  lemma {:induction false} OnlyParsedUniform(nodes: seq<ParsedNode>, from: string, source: string)
    requires forall n | n in nodes :: WellParsed(n, from, 1)
    ensures OnlyParsed(nodes, source) == if from == source then nodes else []
  {
    if nodes != [] {
      assert nodes[0] in nodes && forall n | n in nodes[1..] :: n in nodes;
      OnlyParsedUniform(nodes[1..], from, source);
    }
  }

  /** Filtering the forest of several files to one of them gives that file's own parse. */
  lemma {:induction false} ForestHolds(paths: seq<string>, loaded: map<string, File>, file: string)
    requires NoDuplicates(paths)
    requires forall p | p in paths :: p in loaded && loaded[p].parsed.Parsed? && GoodFile(p, loaded[p])
    ensures OnlyParsed(Forest(paths, loaded), file) == if file in paths then loaded[file].parsed.nodes else []
    decreases |paths|
  {
    if paths != [] {
      var p, rest := paths[0], paths[1..];
      TailHasNoDuplicates(paths);
      ForestHolds(rest, loaded, file);
      OnlyParsedConcat(loaded[p].parsed.nodes, Forest(rest, loaded), file);
      OnlyParsedUniform(loaded[p].parsed.nodes, p, file);
    }
  }

  lemma {:induction false} ForestIsWellParsed(paths: seq<string>, loaded: map<string, File>)
    requires forall p | p in paths :: p in loaded && loaded[p].parsed.Parsed? && GoodFile(p, loaded[p])
    ensures WellParsedForest(Forest(paths, loaded))
    decreases |paths|
  {
    if paths != [] {
      assert paths[0] in paths && forall p | p in paths[1..] :: p in paths;
      ForestIsWellParsed(paths[1..], loaded);
    }
  }

  lemma {:induction false} OnlyFlatMembers(flat: seq<ContextNode>, source: string)
    ensures forall n :: n in OnlyFlat(flat, source) <==> n in flat && n.source == source
  {
    if flat != [] {
      assert flat == [flat[0]] + flat[1..];
      OnlyFlatMembers(flat[1..], source);
    }
  }

  lemma ParseByMember(flat: seq<ContextNode>, file: string, id: NodeId)
    requires DistinctIds(flat)
    ensures id in ParseOf(ById(flat), file) <==> exists n | n in flat :: n.id == id && n.source == file
    ensures forall n | n in flat && n.source == file ::
              n.id in ParseOf(ById(flat), file) && ParseOf(ById(flat), file)[n.id] == StateOf(n)
  {
    ByIdOfDistinct(flat);
    if id in ById(flat) {
      var n :| n in flat && n.id == id;
      assert ById(flat)[id] == n;
    }
  }

  /** A file's rows in a joint compile are the rows it would get alone. */
  lemma JointParseIsAlone(forest: seq<ParsedNode>, file: string)
    requires WellParsedForest(forest)
    ensures var own := OnlyParsed(forest, file); var flat := Flatten(Enrich(forest));
            ParseOf(ById(flat), file) == AloneParse(file, own) && (file in FilesOf(flat) <==> own != [])
  {
    var own, flat := OnlyParsed(forest, file), Flatten(Enrich(forest));
    var alone := Flatten(Enrich(own));
    FileIdsAreIndependent(forest, file, map[], map[]);
    assert OnlyFlat(flat, file) == alone;
    OnlyFlatMembers(flat, file);
    EnrichIsWired(forest);
    OwnIsWired(forest, file);
    SameMembersSameParse(flat, alone, file);
    if own != [] {
      assert alone[0] in alone && alone[0] in flat && alone[0].source == file;
    } else {
      assert alone == [];
    }
  }

  lemma SameMembersSameParse(flat: seq<ContextNode>, alone: seq<ContextNode>, file: string)
    requires DistinctIds(flat) && DistinctIds(alone)
    requires forall n :: n in alone <==> n in flat && n.source == file
    ensures ParseOf(ById(flat), file) == ParseOf(ById(alone), file)
  {
    var joint, own := ParseOf(ById(flat), file), ParseOf(ById(alone), file);
    forall id
      ensures id in joint <==> id in own
      ensures id in joint && id in own ==> joint[id] == own[id]
    {
      ParseByMember(flat, file, id);
      ParseByMember(alone, file, id);
      if id in joint {
        var n :| n in flat && n.id == id && n.source == file;
      }
    }
    assert joint.Keys == own.Keys;
  }

  lemma {:induction false} OwnIsWired(forest: seq<ParsedNode>, file: string)
    requires WellParsedForest(forest)
    ensures WellParsedForest(OnlyParsed(forest, file)) && Wired(Flatten(Enrich(OnlyParsed(forest, file))))
    ensures forall n | n in OnlyParsed(forest, file) :: n in forest
  {
    OnlyParsedMembers(forest, file);
    EnrichIsWired(OnlyParsed(forest, file));
  }

  lemma {:induction false} OnlyParsedMembers(forest: seq<ParsedNode>, file: string)
    ensures forall n | n in OnlyParsed(forest, file) :: n in forest
  {
    if forest != [] {
      OnlyParsedMembers(forest[1..], file);
      assert forest == [forest[0]] + forest[1..];
    }
  }

  /** One file's rows after the compile of a scan. */
  lemma CompiledFile(
      db: Db, paths: seq<string>, loaded: map<string, File>, order: seq<NodeId>, root: string, file: string)
    requires Fits(db.nodes) && NoDuplicates(paths)
    requires forall p | p in paths :: p in loaded && loaded[p].parsed.Parsed? && GoodFile(p, loaded[p])
    requires Lists(order, db, CompileOp(paths, loaded, root)) && Outcome(db, CompileOp(paths, loaded, root), order).Ok?
    ensures var after := Outcome(db, CompileOp(paths, loaded, root), order).value.nodes;
            (file in paths && loaded[file].parsed.nodes != [] ==>
               RowsOf(after, file) == AloneParse(file, loaded[file].parsed.nodes))
            && (file !in paths ==> RowsOf(after, file) == RowsOf(db.nodes, file))
  {
    var op := CompileOp(paths, loaded, root);
    var after := Outcome(db, op, order).value.nodes;
    ForestHolds(paths, loaded, file);
    ForestIsWellParsed(paths, loaded);
    JointParseIsAlone(op.forest, file);
    CompiledRows(db, op, order, file);
  }

  lemma CompileInStep(w: World, paths: seq<string>, order: seq<NodeId>, locked: bool, root: string, file: string)
    requires WorldInv(w) && Enabled(w, EmitCompile(paths, order, locked), root)
    ensures InStep(Do(w, EmitCompile(paths, order, locked), root), file)
  {
    var result := Outcome(w.db, CompileOp(paths, w.phase.loaded, root), order);
    if w.phase.pending == map[] || locked || result.Err? {
      assert InStep(w, file);
    } else {
      LoadedIsLegal(w, paths, root);
      CompiledFile(w.db, paths, w.phase.loaded, order, root, file);
      InStepWith(w, result.value, file);
    }
  }

  /** What the file's rows must be after the commit for it to be in step. */
  lemma InStepWith(w: World, after: Db, file: string)
    requires WorldInv(w) && w.phase.Compiling?
    requires file in w.phase.pending ==> file in w.phase.loaded
    requires file in w.phase.pending && w.phase.loaded[file].parsed.nodes != [] ==>
               RowsOf(after.nodes, file) == AloneParse(file, w.phase.loaded[file].parsed.nodes)
    requires file !in w.phase.pending ==> RowsOf(after.nodes, file) == RowsOf(w.db.nodes, file)
    ensures InStep(w.(db := after, modTimes := w.modTimes + w.phase.pending, phase := Waiting), file)
  {
    assert InStep(w, file);
    if file in w.phase.pending && file in w.disk && w.disk[file].mtime == w.phase.pending[file] {
      LoadedIsCurrent(w, file);
    }
  }

  /** A file whose disk time is still the one the walk saw was read in its current version. */
  lemma LoadedIsCurrent(w: World, file: string)
    requires WorldInv(w) && w.phase.Compiling? && file in w.phase.loaded && file in w.disk
    requires file in w.phase.pending && w.disk[file].mtime == w.phase.pending[file]
    ensures w.disk[file] == w.phase.loaded[file]
  {
    assert LoadedFileOk(w, w.phase.pending, w.phase.loaded, file);
  }

  lemma StepInStep(w: World, a: Action, root: string, p: string)
    requires WorldInv(w) && Enabled(w, a, root)
    ensures InStep(Do(w, a, root), p)
  {
    match a
    case PurgeDeleted(order, locked) => PurgeInStep(w, order, locked, root, p);
    case EmitCompile(paths, order, locked) => CompileInStep(w, paths, order, locked, root, p);
    case _ => assert InStep(w, p);
  }

  lemma StepKeepsWorldInv(w: World, a: Action, root: string)
    requires WorldInv(w) && Enabled(w, a, root)
    ensures WorldInv(Do(w, a, root))
  {
    StepKeepsTimes(w, a, root);
    StepKeepsPhase(w, a, root);
    StepIsRun(w, a, root);
    RunKeepsInv(w.db, EventsOf(w, a, root));
    forall p {
      StepInStep(w, a, root, p);
    }
  }

  // ----- whole runs -----

  ghost predicate EnabledRun(w: World, actions: seq<Action>, root: string)
    decreases actions
  {
    actions == [] || (Enabled(w, actions[0], root) && EnabledRun(Do(w, actions[0], root), actions[1..], root))
  }

  ghost function Final(w: World, actions: seq<Action>, root: string): World
    requires EnabledRun(w, actions, root)
    decreases actions
  {
    if actions == [] then w else Final(Do(w, actions[0], root), actions[1..], root)
  }

  /** However saves, deletions and scans interleave, a tracked file in step with the disk has exactly its parse. */
  lemma {:induction false} ScansStayInStep(w: World, actions: seq<Action>, root: string)
    requires WorldInv(w) && EnabledRun(w, actions, root)
    ensures WorldInv(Final(w, actions, root))
    decreases actions
  {
    if actions != [] {
      StepKeepsWorldInv(w, actions[0], root);
      ScansStayInStep(Do(w, actions[0], root), actions[1..], root);
    }
  }

  ghost function AllEvents(w: World, actions: seq<Action>, root: string): seq<Event>
    requires EnabledRun(w, actions, root)
    decreases actions
  {
    if actions == [] then [] else EventsOf(w, actions[0], root) + AllEvents(Do(w, actions[0], root), actions[1..], root)
  }

  lemma {:induction false} RunConcat(db: Db, a: seq<Event>, b: seq<Event>)
    requires AllowedRun(db, a) && AllowedRun(Run(db, a), b)
    ensures AllowedRun(db, a + b) && Run(db, a + b) == Run(Run(db, a), b)
    decreases a
  {
    if a == [] {
      assert a + b == b;
    } else {
      assert (a + b)[0] == a[0] && (a + b)[1..] == a[1..] + b;
      RunConcat(Exec(db, a[0]), a[1..], b);
    }
  }

  /**
   Whatever the loop and the world around it do is a run of the versioned store, so what every
   such run keeps, and what its log gives a client, holds along the loop as well.
  */
  lemma {:induction false} LoopIsRun(w: World, actions: seq<Action>, root: string)
    requires WorldInv(w) && EnabledRun(w, actions, root)
    ensures var events := AllEvents(w, actions, root);
            AllowedRun(w.db, events) && Run(w.db, events) == Final(w, actions, root).db
    decreases actions
  {
    if actions != [] {
      var next := Do(w, actions[0], root);
      StepKeepsWorldInv(w, actions[0], root);
      StepIsRun(w, actions[0], root);
      LoopIsRun(next, actions[1..], root);
      RunConcat(w.db, EventsOf(w, actions[0], root), AllEvents(next, actions[1..], root));
    }
  }

  /** The loop starts with nothing recorded, over any table that fits and any disk. */
  lemma FreshLoop(watched: set<string>, disk: map<string, File>, db: Db)
    requires Inv(db) && forall p | p in disk :: GoodFile(p, disk[p])
    ensures WorldInv(World(watched, disk, map p | p in disk :: disk[p].mtime, map[], db, Waiting))
  {}

  // ----- what a purge takes, and what it leaves -----

  /** What may happen while the loop waits for the operation lock. */
  predicate Waits(actions: seq<Action>) {
    forall a | a in actions :: a.Save? || a.Remove? || a.Elsewhere?
  }

  lemma {:induction false} WaitingKeepsScan(w: World, actions: seq<Action>, root: string)
    requires WorldInv(w) && EnabledRun(w, actions, root) && Waits(actions) && !w.phase.Walking?
    ensures var next := Final(w, actions, root);
            WorldInv(next) && next.phase == w.phase && next.modTimes == w.modTimes && next.watched == w.watched
            && forall f | f in w.watched :: RowsOf(next.db.nodes, f) == RowsOf(w.db.nodes, f)
    decreases actions
  {
    if actions != [] {
      StepKeepsWorldInv(w, actions[0], root);
      assert actions[0] in actions && forall a | a in actions[1..] :: a in actions;
      WaitingKeepsScan(Do(w, actions[0], root), actions[1..], root);
    }
  }

  function PurgeCursor(w: World, order: seq<NodeId>): CursorHash
    requires w.phase.Purging? && forall id | id in order :: id in ScopeOf(w.db, Purge(w.phase.deleted))
  {
    CursorHash(multiset(PurgedPairs(order, ScopeOf(w.db, Purge(w.phase.deleted)))))
  }

  /**
   A file to be purged is no longer tracked, and it loses its rows if and only if it had none or
   the purge can commit: the database is free and no earlier purge took the same rows. If it
   does not lose them it keeps them all.
  */
  lemma PurgeStepIff(w: World, order: seq<NodeId>, locked: bool, root: string, file: string)
    requires WorldInv(w) && Enabled(w, PurgeDeleted(order, locked), root) && file in w.phase.deleted
    ensures var after := Do(w, PurgeDeleted(order, locked), root);
            var commits := !locked && !CursorUsed(w.db.snapshots, PurgeCursor(w, order));
            file !in after.modTimes
            && (RowsOf(after.db.nodes, file) == map[] <==> RowsOf(w.db.nodes, file) == map[] || commits)
            && (!commits ==> RowsOf(after.db.nodes, file) == RowsOf(w.db.nodes, file))
  {
    var op := Purge(w.phase.deleted);
    SucceedsIff(w.db, op, order);
    if Outcome(w.db, op, order).Ok? {
      PurgeIsExact(w.db, w.phase.deleted, order, file);
      if RequestOf(w.db, op, order).deltas == [] {
        assert Outcome(w.db, op, order).value == w.db;
      }
    }
  }

  /**
   A tracked file that a completed walk did not see is forgotten at once, and whatever happens
   while the loop waits for the lock, its rows go if and only if the purge can commit.
  */
  lemma UnseenFilesArePurgedIff(
      w: World, actions: seq<Action>, order: seq<NodeId>, locked: bool, root: string, file: string)
    requires WorldInv(w) && Enabled(w, FinishWalk, root) && file in w.modTimes && file !in w.phase.seen
    requires EnabledRun(Do(w, FinishWalk, root), actions, root) && Waits(actions)
    requires Enabled(Final(Do(w, FinishWalk, root), actions, root), PurgeDeleted(order, locked), root)
    ensures var later := Final(Do(w, FinishWalk, root), actions, root);
            var after := Do(later, PurgeDeleted(order, locked), root);
            file in later.phase.deleted && file !in later.modTimes && file !in after.modTimes
            && (RowsOf(after.db.nodes, file) == map[] <==>
                  RowsOf(w.db.nodes, file) == map[]
                  || (!locked && !CursorUsed(later.db.snapshots, PurgeCursor(later, order))))
  {
    var mid := Do(w, FinishWalk, root);
    StepKeepsWorldInv(w, FinishWalk, root);
    WaitingKeepsScan(mid, actions, root);
    PurgeStepIff(Final(mid, actions, root), order, locked, root, file);
  }

  /**
   In every run a file that the walk saw, settling or not, and so every file that was on disk
   all through the walk, keeps its rows through the purge that follows, whatever happens between.
  */
  lemma SeenFilesSurvive(w: World, actions: seq<Action>, order: seq<NodeId>, locked: bool, root: string, file: string)
    requires WorldInv(w) && Enabled(w, FinishWalk, root) && (file in w.phase.seen || file in w.phase.present)
    requires file in w.watched
    requires EnabledRun(Do(w, FinishWalk, root), actions, root) && Waits(actions)
    requires Enabled(Final(Do(w, FinishWalk, root), actions, root), PurgeDeleted(order, locked), root)
    ensures var after := Do(Final(Do(w, FinishWalk, root), actions, root), PurgeDeleted(order, locked), root);
            RowsOf(after.db.nodes, file) == RowsOf(w.db.nodes, file)
  {
    var mid := Do(w, FinishWalk, root);
    StepKeepsWorldInv(w, FinishWalk, root);
    WaitingKeepsScan(mid, actions, root);
    PurgeSparesSeen(Final(mid, actions, root), order, locked, root, file);
  }

  lemma PurgeKeeps(w: World, order: seq<NodeId>, locked: bool, root: string, file: string)
    requires WorldInv(w) && Enabled(w, PurgeDeleted(order, locked), root) && file !in w.phase.deleted
    ensures RowsOf(Do(w, PurgeDeleted(order, locked), root).db.nodes, file) == RowsOf(w.db.nodes, file)
  {
    if !locked && Outcome(w.db, Purge(w.phase.deleted), order).Ok? {
      PurgeIsExact(w.db, w.phase.deleted, order, file);
    }
  }

  /** The same at any purge of any run: the phase remembers what its walk saw. */
  lemma PurgeSparesSeen(w: World, order: seq<NodeId>, locked: bool, root: string, file: string)
    requires WorldInv(w) && Enabled(w, PurgeDeleted(order, locked), root) && file in w.phase.spared
    ensures RowsOf(Do(w, PurgeDeleted(order, locked), root).db.nodes, file) == RowsOf(w.db.nodes, file)
  {
    PurgeKeeps(w, order, locked, root, file);
  }

  // ----- forgotten files -----

  /** Neither tracked nor on the way to be compiled or purged. */
  predicate Forgotten(w: World, file: string) {
    file in w.watched && file !in w.modTimes
    && match w.phase
       case Waiting => true
       case Walking(_, pending, _) => file !in pending
       case Purging(deleted, pending, _) => file !in deleted && file !in pending
       case Compiling(pending, _) => file !in pending
  }

  /** The walk does not come upon the file in a settled state. */
  predicate NeverSettled(actions: seq<Action>, file: string) {
    forall a | a in actions && a.Visit? && a.path == file :: !a.settled
  }

  /**
   Rows left behind by a purge that could not commit outlive every later scan, until the file is
   back on disk and settled: a forgotten file is never purged again.
  */
  lemma {:induction false} ForgottenRowsStay(w: World, actions: seq<Action>, root: string, file: string)
    requires WorldInv(w) && EnabledRun(w, actions, root) && Forgotten(w, file) && NeverSettled(actions, file)
    ensures var next := Final(w, actions, root);
            Forgotten(next, file) && RowsOf(next.db.nodes, file) == RowsOf(w.db.nodes, file)
    decreases actions
  {
    if actions != [] {
      var next := Do(w, actions[0], root);
      assert actions[0] in actions && forall a | a in actions[1..] :: a in actions;
      StepKeepsWorldInv(w, actions[0], root);
      ForgottenStep(w, actions[0], root, file);
      ForgottenRowsStay(next, actions[1..], root, file);
    }
  }

  lemma CompileKeeps(w: World, paths: seq<string>, order: seq<NodeId>, locked: bool, root: string, file: string)
    requires WorldInv(w) && Enabled(w, EmitCompile(paths, order, locked), root) && file !in w.phase.pending
    ensures RowsOf(Do(w, EmitCompile(paths, order, locked), root).db.nodes, file) == RowsOf(w.db.nodes, file)
  {
    if !locked && Outcome(w.db, CompileOp(paths, w.phase.loaded, root), order).Ok? {
      LoadedIsLegal(w, paths, root);
      CompiledFile(w.db, paths, w.phase.loaded, order, root, file);
    }
  }

  lemma ForgottenStep(w: World, a: Action, root: string, file: string)
    requires WorldInv(w) && Enabled(w, a, root) && Forgotten(w, file)
    requires a.Visit? && a.path == file ==> !a.settled
    ensures var next := Do(w, a, root); Forgotten(next, file) && RowsOf(next.db.nodes, file) == RowsOf(w.db.nodes, file)
  {
    match a
    case PurgeDeleted(order, locked) =>
      PurgeKeeps(w, order, locked, root, file);
    case EmitCompile(paths, order, locked) => CompileKeeps(w, paths, order, locked, root, file);
    case _ =>
  }
}
