/** Compiling files and directories. */
module Compiler {
  import opened Wrappers
  import opened Ids
  import opened Ast
  import opened Transformer
  import opened Diff
  import opened Tables
  import opened Stores
  import opened Emission
  import opened Replication
  import opened Operations
  import opened Passes

  // ----- the pipeline -----

  /** One file of a compile: what its parser returned, and the temperature its path resolves to. */
  datatype ParsedFile = ParsedFile(nodes: seq<ParsedNode>, temp: Option<real>)

  function Seeded(nodes: seq<ParsedNode>, t: real): seq<ParsedNode>
    decreases nodes, 0
  {
    if nodes == [] then [] else [SeededNode(nodes[0], t)] + Seeded(nodes[1..], t)
  }

  function SeededNode(n: ParsedNode, t: real): ParsedNode
    decreases n
  {
    n.(temp := Some(t), children := Seeded(n.children, t))
  }

  function ForestOf(files: seq<ParsedFile>): seq<ParsedNode> {
    if files == [] then []
    else
      (if files[0].temp.Some? then Seeded(files[0].nodes, files[0].temp.value) else files[0].nodes)
      + ForestOf(files[1..])
  }

  method UniqueFilesFlat(flat: seq<ContextNode>) returns (files: seq<string>)
    ensures forall f :: f in files <==> f in FilesOf(flat)
    ensures forall i, j | 0 <= i < j < |files| :: files[i] != files[j]
  {
    var seen: set<string> := {};
    files := [];
    for i := 0 to |flat|
      invariant forall f :: f in files <==> f in FilesOf(flat[..i])
      invariant forall f :: f in seen <==> f in files
      invariant forall j, k | 0 <= j < k < |files| :: files[j] != files[k]
    {
      assert flat[..i + 1] == flat[..i] + [flat[i]];
      if flat[i].source !in seen {
        seen := seen + {flat[i].source};
        files := files + [flat[i].source];
      }
    }
    assert flat[..|flat|] == flat;
  }

  method BuildPrevState(st: Store, flat: seq<ContextNode>, fullRescan: bool, root: string) returns (prev: State)
    ensures prev == if fullRescan && root != "" then NodesByCompileRoot(st.Contents(), root)
                    else NodesByFiles(st.nodes, FilesOf(flat))
  {
    if fullRescan && root != "" {
      prev := NodesByCompileRoot(st.Contents(), root);
    } else {
      var files := UniqueFilesFlat(flat);
      var wanted := set f | f in files;
      assert wanted == FilesOf(flat);
      prev := NodesByFiles(st.nodes, wanted);
    }
  }

  function CompileOf(forest: seq<ParsedNode>, root: string, fullRescan: bool): Operation {
    if fullRescan && root != "" then CompileTree(forest, root) else CompileFiles(forest, root)
  }

  datatype CompileError = BadTemperatures | Unreadable | NotEmitted(cause: TxError)

  /** What reading and parsing each path gave, if all of them could be read and parsed. */
  function AllRead(results: seq<Option<ParsedFile>>): seq<ParsedFile>
    requires None !in results
  {
    seq(|results|, i requires 0 <= i < |results| => assert results[i] in results; results[i].value)
  }

  /** The forest of a compile as it is wired: all trees in path order, after the content passes. */
  function ForestAt(files: seq<ParsedFile>, root: string): seq<ParsedNode> {
    Transformed(ForestOf(files), root)
  }

  method Compile(st: Store, results: seq<Option<ParsedFile>>, root: string, fullRescan: bool,
                 rank: NodeId -> nat, weather: nat -> Weather, patient: nat -> bool)
    returns (err: Option<CompileError>, ghost order: seq<NodeId>)
    modifies st
    ensures err == Some(Unreadable) <==> None in results
    ensures None in results ==> st.Contents() == old(st.Contents())
    ensures None !in results ==>
              var before := old(st.Contents()); var op := CompileOf(ForestAt(AllRead(results), root), root, fullRescan);
              Lists(order, before, op) && SortedBy(order, rank)
              && (err.None? <==> Lands(before, RequestOf(before, op, order), weather, patient))
              && st.Contents() == Attempted(before, op, order, weather, patient)
              && (err.Some? ==> err.value.NotEmitted?)
              && (err.Some? && err.value.cause.Rejected? ==> Outcome(before, op, order) == Err(err.value.cause.cause))
  {
    order := [];
    if None in results {
      return Some(Unreadable), order;
    }
    var forest := ForestAt(AllRead(results), root);
    ghost var op := CompileOf(forest, root, fullRescan);
    var roots := WireIdentity(forest, None);
    var flat := CollectNodes([], roots);
    assert flat == TreeOf(st.nodes, op);
    var prev := BuildPrevState(st, flat, fullRescan, root);
    assert prev == ScopeOf(st.Contents(), op);
    var deltas := DiffFlat(flat, prev, rank);
    order :| ListsRemoved(order, flat, prev) && SortedBy(order, rank) && deltas == DiffOf(flat, prev, order);
    var req := Request(roots, deltas, CursorHashFlat(flat), root);
    assert req == RequestOf(st.Contents(), op, order);
    var failed := st.Emit(req, weather, patient);
    err := if failed.Some? then Some(NotEmitted(failed.value)) else None;
  }

  // ----- a file-scoped compile -----

  lemma GoneKeepsSource(id: NodeId, flat: seq<ContextNode>, prev: State, nodes: NodeTable)
    requires Fits(nodes) && id in nodes && Gone(id, flat, prev) && prev.Keys <= nodes.Keys
    ensures exists top | top in prev :: nodes[top].source == nodes[id].source
  {
    var top :| top in prev && top !in IdsOf(flat) && Below(id, top);
    BelowKeepsSource(id, top);
  }

  /** The rows of `files` are exactly the nodes of `tree`; the other rows are as before. */
  ghost predicate FilesReplaced(
      after: NodeTable, before: NodeTable, tree: map<NodeId, ContextNode>, files: set<string>)
  {
    (forall id | id in tree ::
       id in after && View(after)[id] == StateOf(tree[id]) && after[id].source == tree[id].source)
    && (forall id | id in after && after[id].source in files :: id in tree)
    && (forall id | id in before && before[id].source !in files :: id in after && after[id] == before[id])
    && (forall id | id in after && after[id].source !in files :: id in before && after[id] == before[id])
  }

  /**
   After a file-scoped compile the rows of each file that contributed a node are exactly the
   nodes of the flattened tree, and every other row is untouched.
  */
  lemma FileCompileIsExact(db: Db, op: Operation, order: seq<NodeId>)
    requires Fits(db.nodes) && op.CompileFiles? && Legal(db, op) && Lists(order, db, op)
    requires Outcome(db, op, order).Ok?
    ensures var flat := TreeOf(db.nodes, op);
            FilesReplaced(Outcome(db, op, order).value.nodes, db.nodes, ById(flat), FilesOf(flat))
  {
    var after, flat := Outcome(db, op, order).value.nodes, TreeOf(db.nodes, op);
    forall id
      ensures FileRowAt(after, db.nodes, flat, id)
    {
      CompiledRow(db, op, order, id);
    }
    var tree, files := ById(flat), FilesOf(flat);
    forall id | id in tree
      ensures id in after && View(after)[id] == StateOf(tree[id]) && after[id].source == tree[id].source
    {
      assert FileRowAt(after, db.nodes, flat, id);
    }
    forall id | id in after || id in db.nodes
      ensures id in after && after[id].source in files ==> id in tree
      ensures id in db.nodes && db.nodes[id].source !in files ==> id in after && after[id] == db.nodes[id]
      ensures id in after && after[id].source !in files ==> id in db.nodes && after[id] == db.nodes[id]
    {
      assert FileRowAt(after, db.nodes, flat, id);
    }
  }

  ghost predicate FileRowAt(after: NodeTable, before: NodeTable, flat: seq<ContextNode>, id: NodeId) {
    if id in ById(flat) then
      id in after && View(after)[id] == StateOf(ById(flat)[id])
      && after[id].source == ById(flat)[id].source && after[id].source in FilesOf(flat)
      && (id in before ==> before[id].source == after[id].source)
    else if id in before && before[id].source !in FilesOf(flat) then id in after && after[id] == before[id]
    else id !in after
  }

  lemma CompiledRow(db: Db, op: Operation, order: seq<NodeId>, id: NodeId)
    requires Fits(db.nodes) && op.CompileFiles? && Legal(db, op) && Lists(order, db, op)
    requires Outcome(db, op, order).Ok?
    ensures FileRowAt(Outcome(db, op, order).value.nodes, db.nodes, TreeOf(db.nodes, op), id)
  {
    var after, flat, prev := Outcome(db, op, order).value.nodes, TreeOf(db.nodes, op), ScopeOf(db, op);
    SuccessMeans(db, op, order);
    OperationIsChange(db, op);
    ByIdOfDistinct(flat);
    AfterLookup(db.nodes, flat, prev, id);
    assert id in after <==> id in View(After(db.nodes, flat, prev));
    if id in ById(flat) {
      var n :| n in flat && n.id == id;
      assert Placed(n) && RowFits(id, after[id]);
    } else if id in db.nodes && db.nodes[id].source !in FilesOf(flat) {
      OtherFilesUntouched(db, op, order, id);
    } else if id in db.nodes {
      assert id in prev && Below(id, id);
    }
  }

  lemma OtherFilesUntouched(db: Db, op: Operation, order: seq<NodeId>, id: NodeId)
    requires Fits(db.nodes) && op.CompileFiles? && Legal(db, op) && Lists(order, db, op)
    requires Outcome(db, op, order).Ok?
    requires id in db.nodes && db.nodes[id].source !in FilesOf(TreeOf(db.nodes, op))
    ensures var after := Outcome(db, op, order).value.nodes; id in after && after[id] == db.nodes[id]
  {
    var flat, prev := TreeOf(db.nodes, op), ScopeOf(db, op);
    SuccessMeans(db, op, order);
    OperationIsChange(db, op);
    ByIdOfDistinct(flat);
    if Gone(id, flat, prev) {
      GoneKeepsSource(id, flat, prev, db.nodes);
    }
    forall n | n in flat
      ensures n.id != id
    {
      assert Placed(n) && RowFits(id, db.nodes[id]);
    }
  }

  /** What one file of the tree says its rows should be. */
  function ParseOf(tree: map<NodeId, ContextNode>, file: string): State {
    map id | id in tree && tree[id].source == file :: StateOf(tree[id])
  }

  function RowsOf(nodes: NodeTable, file: string): State {
    NodesByFiles(nodes, {file})
  }

  /**
   A file's rows equal its parse after the compile if and only if the parse is not empty or
   the file had no rows: a file that stops producing nodes is in no scope and keeps its old rows.
  */
  lemma FileRowsAreParseIff(db: Db, op: Operation, order: seq<NodeId>, file: string)
    requires Fits(db.nodes) && op.CompileFiles? && Legal(db, op) && Lists(order, db, op)
    requires Outcome(db, op, order).Ok?
    ensures var after := Outcome(db, op, order).value.nodes; var flat := TreeOf(db.nodes, op);
            RowsOf(after, file) == ParseOf(ById(flat), file)
            <==> file in FilesOf(flat) || RowsOf(db.nodes, file) == map[]
  {
    FileCompileIsExact(db, op, order);
    OperationIsChange(db, op);
    var flat := TreeOf(db.nodes, op);
    NodeSources(flat);
    ReplacedFile(Outcome(db, op, order).value.nodes, db.nodes, ById(flat), FilesOf(flat), file);
  }

  lemma NodeSources(flat: seq<ContextNode>)
    requires DistinctIds(flat)
    ensures forall id | id in ById(flat) :: ById(flat)[id].source in FilesOf(flat)
  {
    ByIdOfDistinct(flat);
    forall id | id in ById(flat)
      ensures ById(flat)[id].source in FilesOf(flat)
    {
      var n :| n in flat && n.id == id;
    }
  }

  lemma ReplacedFile(
      after: NodeTable, before: NodeTable, tree: map<NodeId, ContextNode>, files: set<string>, file: string)
    requires FilesReplaced(after, before, tree, files) && forall id | id in tree :: tree[id].source in files
    ensures RowsOf(after, file) == ParseOf(tree, file) <==> file in files || RowsOf(before, file) == map[]
  {
    if file in files {
      assert RowsOf(after, file).Keys == ParseOf(tree, file).Keys;
      assert RowsOf(after, file) == ParseOf(tree, file);
    } else {
      assert ParseOf(tree, file) == map[];
      ReplacedElsewhere(after, before, tree, files, file);
    }
  }

  lemma ReplacedElsewhere(
      after: NodeTable, before: NodeTable, tree: map<NodeId, ContextNode>, files: set<string>, file: string)
    requires FilesReplaced(after, before, tree, files) && file !in files
    ensures RowsOf(after, file) == RowsOf(before, file)
  {
    assert RowsOf(after, file).Keys == RowsOf(before, file).Keys;
  }

  /** The rows of one file: its parse if it has a node in the tree, else what they were. */
  lemma CompiledRows(db: Db, op: Operation, order: seq<NodeId>, file: string)
    requires Fits(db.nodes) && op.CompileFiles? && Legal(db, op) && Lists(order, db, op) && Outcome(db, op, order).Ok?
    ensures var after := Outcome(db, op, order).value.nodes; var flat := TreeOf(db.nodes, op);
            (file in FilesOf(flat) ==> RowsOf(after, file) == ParseOf(ById(flat), file))
            && (file !in FilesOf(flat) ==> RowsOf(after, file) == RowsOf(db.nodes, file))
  {
    FileRowsAreParseIff(db, op, order, file);
    if file !in FilesOf(TreeOf(db.nodes, op)) {
      FileCompileIsExact(db, op, order);
      ReplacedElsewhere(Outcome(db, op, order).value.nodes, db.nodes, ById(TreeOf(db.nodes, op)),
                        FilesOf(TreeOf(db.nodes, op)), file);
    }
  }

  // ----- files and the names that are left of them -----

  lemma {:induction false} SourcesOf(nodes: seq<ParsedNode>, source: string)
    requires nodes != [] && forall n | n in nodes :: WellParsed(n, source, 1)
    ensures WellParsedForest(nodes) && FilesOf(Flatten(Enrich(nodes))) == {source}
  {
    var flat := Flatten(Enrich(nodes));
    EnrichIsWired(nodes);
    OneSource(nodes, map[], source);
    assert flat == [flat[0]] + flat[1..];
    assert flat[0] in flat && flat[0].source == source;
  }

  lemma {:induction false} OneSource(nodes: seq<ParsedNode>, perFile: map<string, nat>, source: string)
    requires forall n | n in nodes :: WellParsed(n, source, 1)
    ensures var flat := Flatten(WireRoots(nodes, perFile));
            |nodes| <= |flat| && forall n | n in flat :: n.source == source
    decreases |nodes|
  {
    if nodes != [] {
      assert nodes[0] in nodes && forall m | m in nodes[1..] :: m in nodes;
      OneSource(nodes[1..], Counted(perFile, source), source);
      FirstSource(nodes, perFile, source);
    }
  }

  lemma {:induction false} FirstSource(nodes: seq<ParsedNode>, perFile: map<string, nat>, source: string)
    requires nodes != [] && WellParsed(nodes[0], source, 1)
    ensures var w := WireNode(nodes[0], None, Next(perFile, source));
            Flatten(WireRoots(nodes, perFile))
            == [w] + Flatten(w.children) + Flatten(WireRoots(nodes[1..], Counted(perFile, source)))
            && w.source == source && forall n | n in Flatten(w.children) :: n.source == source
  {
    NodeSource(nodes[0], Next(perFile, source));
    FlattenCons(WireNode(nodes[0], None, Next(perFile, source)), WireRoots(nodes[1..], Counted(perFile, source)));
  }

  lemma {:induction false} NodeSource(n: ParsedNode, index: nat)
    requires WellParsed(n, n.source, 1)
    ensures forall m | m in Flatten(WireNode(n, None, index).children) :: m.source == n.source
  {
    NodeIsWired(n, None, index, 1);
  }

  /**
   One file compiled under its own root, then another under its own: the first still has its
   parse in the table if and only if different names are left of the two, or the parses are the
   same. Compiling a single file takes its directory for the root, so its base name is what is left.
  */
  lemma FilesStayApartIff(
      db: Db, f: string, rootF: string, treeF: seq<ParsedNode>, orderF: seq<NodeId>, db1: Db,
      g: string, rootG: string, treeG: seq<ParsedNode>, orderG: seq<NodeId>, db2: Db)
    requires Fits(db.nodes) && rootF != "" && rootG != "" && treeF != [] && treeG != []
    requires (forall n | n in treeF :: WellParsed(n, f, 1)) && (forall n | n in treeG :: WellParsed(n, g, 1))
    requires var opF := CompileFiles(Transformed(treeF, rootF), rootF);
             var opG := CompileFiles(Transformed(treeG, rootG), rootG);
             Lists(orderF, db, opF) && Outcome(db, opF, orderF) == Ok(db1)
             && Lists(orderG, db1, opG) && Outcome(db1, opG, orderG) == Ok(db2)
    ensures var nameF, nameG := TrimPrefix(f, PrefixOf(rootF)), TrimPrefix(g, PrefixOf(rootG));
            var parseF := ParseOf(ById(Flatten(Enrich(Transformed(treeF, rootF)))), nameF);
            var parseG := ParseOf(ById(Flatten(Enrich(Transformed(treeG, rootG)))), nameG);
            RowsOf(db2.nodes, nameF) == parseF <==> nameF != nameG || parseF == parseG
  {
    OneFileCompiled(db, f, rootF, treeF, orderF);
    OneFileCompiled(db1, g, rootG, treeG, orderG);
  }

  lemma OneFileCompiled(db: Db, f: string, root: string, tree: seq<ParsedNode>, order: seq<NodeId>)
    requires Fits(db.nodes) && root != "" && tree != [] && forall n | n in tree :: WellParsed(n, f, 1)
    requires var op := CompileFiles(Transformed(tree, root), root); Lists(order, db, op) && Outcome(db, op, order).Ok?
    ensures var op := CompileFiles(Transformed(tree, root), root); var name := TrimPrefix(f, PrefixOf(root));
            var after := Outcome(db, op, order).value.nodes;
            Fits(after) && RowsOf(after, name) == ParseOf(ById(Flatten(Enrich(op.forest))), name)
            && forall other | other != name :: RowsOf(after, other) == RowsOf(db.nodes, other)
  {
    var op, name := CompileFiles(Transformed(tree, root), root), TrimPrefix(f, PrefixOf(root));
    PassedFile(tree, f, root);
    SourcesOf(Transformed(tree, root), name);
    assert Fits(Outcome(db, op, order).value.nodes) by {
      SuccessMeans(db, op, order);
    }
    forall file {
      CompiledRows(db, op, order, file);
    }
  }

  // ----- a full rescan -----

  /** Every diff belongs to a snapshot that exists. */
  ghost predicate LogBounded(db: Db) {
    forall r | r in db.diffs :: 1 <= r.snapshotId <= |db.snapshots|
  }

  lemma {:induction false} LatestAppend(diffs: seq<DiffRecord>, sid: nat, deltas: seq<Delta>, id: NodeId)
    requires forall r | r in diffs :: r.snapshotId < sid
    ensures LatestSnapshot(diffs + Records(sid, deltas), id)
         == if Mentions(deltas, id) then sid else LatestSnapshot(diffs, id)
    ensures LatestSnapshot(diffs, id) < sid || diffs == []
    decreases |diffs| + |deltas|
  {
    var more := Records(sid, deltas);
    if diffs != [] {
      assert (diffs + more)[1..] == diffs[1..] + more;
      LatestAppend(diffs[1..], sid, deltas, id);
    } else if deltas != [] {
      assert diffs + more == more && more[1..] == Records(sid, deltas[1..]);
      LatestAppend([], sid, deltas[1..], id);
      assert [] + more[1..] == more[1..];
      assert deltas == [deltas[0]] + deltas[1..];
    }
  }

  lemma LatestRootAfter(db: Db, req: Request, id: NodeId, root: string)
    requires LogBounded(db) && Commit(db, req).Ok?
    ensures LatestRootIs(Commit(db, req).value, id, root)
            <==> if Mentions(req.deltas, id) then req.compileRoot == root else LatestRootIs(db, id, root)
  {
    LatestAppend(db.diffs, |db.snapshots| + 1, req.deltas, id);
  }

  function WholeParse(flat: seq<ContextNode>): State {
    map id | id in ById(flat) :: StateOf(ById(flat)[id])
  }

  /**
   After a successful full rescan of `root` the rows whose latest diff belongs to `root`
   are exactly the flattened tree: nothing parsed is lost to a cascade, nothing stale is left.
  */
  lemma RescanIsExact(db: Db, op: Operation, order: seq<NodeId>)
    requires Fits(db.nodes) && LogBounded(db) && op.CompileTree? && Legal(db, op) && Lists(order, db, op)
    requires Outcome(db, op, order).Ok?
    ensures NodesByCompileRoot(Outcome(db, op, order).value, op.root) == WholeParse(TreeOf(db.nodes, op))
  {
    var after, flat := Outcome(db, op, order).value, TreeOf(db.nodes, op);
    forall id {
      RescanAt(db, op, order, id);
    }
    RootIsParse(after, op.root, flat);
  }

  lemma RootIsParse(after: Db, root: string, flat: seq<ContextNode>)
    requires forall id :: id in NodesByCompileRoot(after, root) <==> id in ById(flat)
    requires forall id | id in ById(flat) :: id in after.nodes && View(after.nodes)[id] == StateOf(ById(flat)[id])
    ensures NodesByCompileRoot(after, root) == WholeParse(flat)
  {
    var got, want := NodesByCompileRoot(after, root), WholeParse(flat);
    assert got.Keys == want.Keys;
    assert forall id | id in want :: got[id] == View(after.nodes)[id] == want[id];
  }

  lemma RescanAt(db: Db, op: Operation, order: seq<NodeId>, id: NodeId)
    requires Fits(db.nodes) && LogBounded(db) && op.CompileTree? && Legal(db, op) && Lists(order, db, op)
    requires Outcome(db, op, order).Ok?
    ensures var after := Outcome(db, op, order).value; var flat := TreeOf(db.nodes, op);
            (id in NodesByCompileRoot(after, op.root) <==> id in ById(flat))
            && (id in ById(flat) ==> id in after.nodes && View(after.nodes)[id] == StateOf(ById(flat)[id]))
  {
    var req := RequestOf(db, op, order);
    var after, flat, prev := Outcome(db, op, order).value, TreeOf(db.nodes, op), ScopeOf(db, op);
    SuccessMeans(db, op, order);
    OperationIsChange(db, op);
    AfterLookup(db.nodes, flat, prev, id);
    assert id in after.nodes <==> id in View(After(db.nodes, flat, prev));
    if req.deltas == [] {
      EmptyDiff(flat, prev, order);
      ByIdOfDistinct(flat);
    } else {
      if id in after.nodes {
        RescanRootAt(db, req, flat, prev, order, id, op.root);
      }
    }
  }

  /** Which root a surviving row belongs to once the diff is logged. */
  lemma RescanRootAt(
      db: Db, req: Request, flat: seq<ContextNode>, prev: State, order: seq<NodeId>, id: NodeId, root: string)
    requires Fits(db.nodes) && LogBounded(db) && Change(db.nodes, flat, prev) && ListsRemoved(order, flat, prev)
    requires prev == NodesByCompileRoot(db, root) && req.deltas == DiffOf(flat, prev, order)
    requires req.compileRoot == root && Commit(db, req).Ok?
    requires id in After(db.nodes, flat, prev)
    ensures LatestRootIs(Commit(db, req).value, id, root) <==> id in ById(flat)
  {
    LatestRootAfter(db, req, id, root);
    DiffMentions(flat, prev, order, id);
    AfterLookup(db.nodes, flat, prev, id);
    ByIdOfDistinct(flat);
    assert id in prev && id !in ById(flat) ==> Gone(id, flat, prev) by {
      assert Below(id, id);
    }
  }

  /** Rescanning the same files again finds nothing to do, so it leaves no snapshot. */
  lemma RescanTwiceIsIdle(db: Db, op: Operation, order: seq<NodeId>, again: seq<NodeId>)
    requires Fits(db.nodes) && LogBounded(db) && op.CompileTree? && Legal(db, op) && Lists(order, db, op)
    requires Outcome(db, op, order).Ok? && Lists(again, Outcome(db, op, order).value, op)
    ensures var after := Outcome(db, op, order).value;
            RequestOf(after, op, again).deltas == [] && Outcome(after, op, again) == Ok(after)
  {
    var after, flat := Outcome(db, op, order).value, TreeOf(db.nodes, op);
    RescanIsExact(db, op, order);
    OperationIsChange(db, op);
    ByIdOfDistinct(flat);
    EmptyDiff(flat, ScopeOf(after, op), again);
  }

  /** The same holds of a file-scoped compile. */
  lemma RecompileIsIdle(db: Db, op: Operation, order: seq<NodeId>, again: seq<NodeId>)
    requires Fits(db.nodes) && op.CompileFiles? && Legal(db, op) && Lists(order, db, op)
    requires Outcome(db, op, order).Ok? && Lists(again, Outcome(db, op, order).value, op)
    ensures var after := Outcome(db, op, order).value;
            RequestOf(after, op, again).deltas == [] && Outcome(after, op, again) == Ok(after)
  {
    var after, flat := Outcome(db, op, order).value, TreeOf(db.nodes, op);
    FileCompileIsExact(db, op, order);
    OperationIsChange(db, op);
    NodeSources(flat);
    ReplacedScope(after.nodes, db.nodes, ById(flat), FilesOf(flat));
    NothingToDo(flat, NodesByFiles(after.nodes, FilesOf(flat)), again);
  }

  lemma NothingToDo(flat: seq<ContextNode>, prev: State, order: seq<NodeId>)
    requires DistinctIds(flat) && prev.Keys == ById(flat).Keys && ListsRemoved(order, flat, prev)
    requires forall id | id in ById(flat) :: prev[id] == StateOf(ById(flat)[id])
    ensures DiffOf(flat, prev, order) == []
  {
    ByIdOfDistinct(flat);
    EmptyDiff(flat, prev, order);
  }

  lemma ReplacedScope(after: NodeTable, before: NodeTable, tree: map<NodeId, ContextNode>, files: set<string>)
    requires FilesReplaced(after, before, tree, files) && forall id | id in tree :: tree[id].source in files
    ensures NodesByFiles(after, files).Keys == tree.Keys
    ensures forall id | id in tree :: NodesByFiles(after, files)[id] == StateOf(tree[id])
  {}

  // ----- the root that a row belongs to -----

  /**
   After an operation that leaves a snapshot a row's latest diff belongs to a root if and only if
   the diff mentions the row and was compiled under that root, or does not mention it and it did before.
   A compile of single files counts under its root as much as a full rescan does.
  */
  lemma RootAfter(db: Db, op: Operation, order: seq<NodeId>, id: NodeId, root: string)
    requires LogBounded(db) && Lists(order, db, op) && Outcome(db, op, order).Ok? && root != ""
    requires RequestOf(db, op, order).deltas != []
    ensures LogBounded(Outcome(db, op, order).value)
    ensures LatestRootIs(Outcome(db, op, order).value, id, root)
            <==> if Mentions(RequestOf(db, op, order).deltas, id)
                 then (op.CompileFiles? || op.CompileTree?) && op.root == root
                 else LatestRootIs(db, id, root)
  {
    LatestRootAfter(db, RequestOf(db, op, order), id, root);
  }

  lemma OutcomeIsBounded(db: Db, op: Operation, order: seq<NodeId>)
    requires LogBounded(db) && Lists(order, db, op) && Outcome(db, op, order).Ok?
    ensures LogBounded(Outcome(db, op, order).value)
  {}

  /** All rows of the file belong to the root. */
  ghost predicate RootedFile(db: Db, file: string, root: string) {
    forall id | id in RowsOf(db.nodes, file) :: LatestRootIs(db, id, root)
  }

  /** A compile of a file under a root makes all its rows belong to the root, if all there were did before. */
  lemma CompileRootsFile(db: Db, op: Operation, order: seq<NodeId>, file: string)
    requires Fits(db.nodes) && LogBounded(db) && op.CompileFiles? && op.root != "" && Legal(db, op)
    requires Lists(order, db, op) && Outcome(db, op, order).Ok?
    requires file in FilesOf(TreeOf(db.nodes, op)) && RootedFile(db, file, op.root)
    ensures var after := Outcome(db, op, order).value;
            RootedFile(after, file, op.root)
            && RowsOf(after.nodes, file) == ParseOf(ById(TreeOf(db.nodes, op)), file)
  {
    var after, flat, prev := Outcome(db, op, order).value, TreeOf(db.nodes, op), ScopeOf(db, op);
    FileRowsAreParseIff(db, op, order, file);
    OperationIsChange(db, op);
    SuccessMeans(db, op, order);
    if RequestOf(db, op, order).deltas != [] {
      forall id | id in RowsOf(after.nodes, file)
        ensures LatestRootIs(after, id, op.root)
      {
        RootAfter(db, op, order, id, op.root);
        DiffMentions(flat, prev, order, id);
        FileCompileIsExact(db, op, order);
        AfterLookup(db.nodes, flat, prev, id);
        UnmentionedIsRooted(db, op, order, file, id);
      }
    }
  }

  lemma UnmentionedIsRooted(db: Db, op: Operation, order: seq<NodeId>, file: string, id: NodeId)
    requires Fits(db.nodes) && op.CompileFiles? && Legal(db, op) && Lists(order, db, op)
    requires file in FilesOf(TreeOf(db.nodes, op)) && RootedFile(db, file, op.root)
    requires id in ById(TreeOf(db.nodes, op)) && ById(TreeOf(db.nodes, op))[id].source == file
    ensures Mentions(RequestOf(db, op, order).deltas, id) || LatestRootIs(db, id, op.root)
  {
    var flat, prev := TreeOf(db.nodes, op), ScopeOf(db, op);
    OperationIsChange(db, op);
    DiffMentions(flat, prev, order, id);
    FoundById(flat, id);
    if id in prev {
      assert RowFits(id, db.nodes[id]) && Placed(ById(flat)[id]);
      assert id in RowsOf(db.nodes, file);
    }
  }

  /** A full rescan without a file removes all rows of the file that belong to its root. */
  lemma RescanDropsFile(db: Db, op: Operation, order: seq<NodeId>, file: string)
    requires Fits(db.nodes) && LogBounded(db) && op.CompileTree? && Legal(db, op) && Lists(order, db, op)
    requires Outcome(db, op, order).Ok?
    requires file !in FilesOf(TreeOf(db.nodes, op)) && RootedFile(db, file, op.root)
    ensures RowsOf(Outcome(db, op, order).value.nodes, file) == map[]
  {
    var after := Outcome(db, op, order).value.nodes;
    forall id | id in after
      ensures after[id].source != file
    {
      RescannedRow(db, op, order, file, id);
    }
    assert RowsOf(after, file).Keys == {};
  }

  lemma RescannedRow(db: Db, op: Operation, order: seq<NodeId>, file: string, id: NodeId)
    requires Fits(db.nodes) && op.CompileTree? && Legal(db, op) && Lists(order, db, op)
    requires Outcome(db, op, order).Ok? && id in Outcome(db, op, order).value.nodes
    requires file !in FilesOf(TreeOf(db.nodes, op)) && RootedFile(db, file, op.root)
    ensures Outcome(db, op, order).value.nodes[id].source != file
  {
    var after, flat, prev := Outcome(db, op, order).value.nodes, TreeOf(db.nodes, op), ScopeOf(db, op);
    SuccessMeans(db, op, order);
    OperationIsChange(db, op);
    IdsFound(flat);
    AfterLookup(db.nodes, flat, prev, id);
    assert RowFits(id, after[id]) && id in View(after);
    if id in ById(flat) {
      FoundById(flat, id);
      assert Placed(ById(flat)[id]);
    } else {
      assert RowFits(id, db.nodes[id]) && Below(id, id);
      assert id in RowsOf(db.nodes, file) ==> id in prev;
    }
  }

  /**
   A file compiled on its own under a root, with no rows from elsewhere, and then missing when the
   root is rescanned: its rows are there after the first and all gone after the second.
  */
  lemma CompiledFileIsDropped(
      db: Db, one: Operation, order: seq<NodeId>, mid: Db, all: Operation, later: seq<NodeId>, file: string)
    requires Fits(db.nodes) && LogBounded(db) && one.CompileFiles? && one.root != "" && Legal(db, one)
    requires Lists(order, db, one) && Outcome(db, one, order) == Ok(mid)
    requires file in FilesOf(TreeOf(db.nodes, one)) && RootedFile(db, file, one.root)
    requires all.CompileTree? && all.root == one.root && Legal(mid, all) && Lists(later, mid, all)
    requires Outcome(mid, all, later).Ok? && file !in FilesOf(TreeOf(mid.nodes, all))
    ensures RowsOf(mid.nodes, file) == ParseOf(ById(TreeOf(db.nodes, one)), file)
    ensures RowsOf(Outcome(mid, all, later).value.nodes, file) == map[]
  {
    CompileRootsFile(db, one, order, file);
    SuccessMeans(db, one, order);
    OutcomeIsBounded(db, one, order);
    RescanDropsFile(mid, all, later, file);
  }

  /**
   Files compiled on their own under a root, which has no other rows, and then rescanned as they
   are: the rescan finds nothing to do.
  */
  lemma CompiledFilesAreRescanned(
      db: Db, one: Operation, order: seq<NodeId>, mid: Db, all: Operation, later: seq<NodeId>)
    requires Fits(db.nodes) && LogBounded(db) && one.CompileFiles? && one.root != "" && Legal(db, one)
    requires Lists(order, db, one) && Outcome(db, one, order) == Ok(mid)
    requires NodesByCompileRoot(db, one.root) == NodesByFiles(db.nodes, FilesOf(TreeOf(db.nodes, one)))
    requires all == CompileTree(one.forest, one.root) && Lists(later, mid, all)
    ensures RequestOf(mid, all, later).deltas == [] && Outcome(mid, all, later) == Ok(mid)
  {
    var flat := TreeOf(db.nodes, one);
    OperationIsChange(db, one);
    forall id {
      RootedAfter(db, one, order, id);
    }
    RootIsParse(mid, one.root, flat);
    ByIdOfDistinct(flat);
    EmptyDiff(flat, ScopeOf(mid, all), later);
  }

  lemma RootedAfter(db: Db, op: Operation, order: seq<NodeId>, id: NodeId)
    requires Fits(db.nodes) && LogBounded(db) && op.CompileFiles? && op.root != "" && Legal(db, op)
    requires Lists(order, db, op) && Outcome(db, op, order).Ok?
    requires NodesByCompileRoot(db, op.root) == NodesByFiles(db.nodes, FilesOf(TreeOf(db.nodes, op)))
    ensures var after := Outcome(db, op, order).value; var flat := TreeOf(db.nodes, op);
            (id in NodesByCompileRoot(after, op.root) <==> id in ById(flat))
            && (id in ById(flat) ==> id in after.nodes && View(after.nodes)[id] == StateOf(ById(flat)[id]))
  {
    var after, flat, prev := Outcome(db, op, order).value, TreeOf(db.nodes, op), ScopeOf(db, op);
    assert prev == NodesByCompileRoot(db, op.root);
    SuccessMeans(db, op, order);
    OperationIsChange(db, op);
    AfterLookup(db.nodes, flat, prev, id);
    assert id in after.nodes <==> id in View(After(db.nodes, flat, prev));
    if RequestOf(db, op, order).deltas == [] {
      EmptyDiff(flat, prev, order);
      ByIdOfDistinct(flat);
    } else if id in after.nodes {
      RescanRootAt(db, RequestOf(db, op, order), flat, prev, order, id, op.root);
    }
  }
}
