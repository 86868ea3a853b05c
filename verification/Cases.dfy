/**
 Runs from the empty store that end where the versioned store falls short: small forests, one
 operation after another, each shown to commit or to be refused.
*/
module Cases {
  import opened Wrappers
  import opened Ids
  import opened Ast
  import opened Transformer
  import opened Strings
  import opened Compress
  import opened Passes
  import opened Diff
  import opened Tables
  import opened Stores
  import opened Emission
  import opened Replication
  import opened Operations
  import opened Compiler
  import opened Versioning
  import opened Limits
  import opened Rescan
  import opened Scanner

  // ----- small forests -----

  function Leaf(source: string, title: string, text: string): ParsedNode {
    ParsedNode(source, "text", 1, title, text, None, [])
  }

  function Section(source: string, text: string, body: string): ParsedNode {
    ParsedNode(source, "heading", 1, text, text, None, [ParsedNode(source, "text", 2, body, body, None, [])])
  }

  function RootId(source: string): NodeId {
    Pos(source, None, 0)
  }

  function ChildId(source: string): NodeId {
    Pos(source, Some(RootId(source)), 0)
  }

  function LeafNode(source: string, title: string, text: string): ContextNode {
    ContextNode(RootId(source), None, source, "text", 1, title, text, HashOf(text), None, [])
  }

  function BodyNode(source: string, body: string): ContextNode {
    ContextNode(ChildId(source), Some(RootId(source)), source, "text", 2, body, body, HashOf(body), None, [])
  }

  function SectionNode(source: string, text: string, body: string): ContextNode {
    ContextNode(RootId(source), None, source, "heading", 1, text, text, HashOf(text), None, [BodyNode(source, body)])
  }

  function TextState(text: string): NodeState {
    NodeState(HashOf(text), text)
  }

  lemma OneRoot(n: ParsedNode, perFile: map<string, nat>)
    ensures WireRoots([n], perFile) == [WireNode(n, None, Next(perFile, n.source))]
  {
    assert [n][1..] == [];
    assert WireRoots([], perFile[n.source := Next(perFile, n.source) + 1]) == [];
  }

  lemma LeafForest(source: string, title: string, text: string)
    ensures Flatten(Enrich([Leaf(source, title, text)])) == [LeafNode(source, title, text)]
    ensures WellParsedForest([Leaf(source, title, text)])
  {
    OneRoot(Leaf(source, title, text), map[]);
    assert WireChildren([], RootId(source), 0) == [];
    OneNodeTree(LeafNode(source, title, text));
  }

  lemma TwoLeafForest(f: string, x: string, g: string, y: string)
    requires f != g
    ensures Flatten(Enrich([Leaf(f, x, x), Leaf(g, y, y)])) == [LeafNode(f, x, x), LeafNode(g, y, y)]
    ensures WellParsedForest([Leaf(f, x, x), Leaf(g, y, y)])
  {
    var forest := [Leaf(f, x, x), Leaf(g, y, y)];
    var later := (map[])[f := 1];
    assert forest[1..] == [Leaf(g, y, y)];
    OneRoot(Leaf(g, y, y), later);
    assert WireChildren([], RootId(f), 0) == [] && WireChildren([], RootId(g), 0) == [];
    assert Enrich(forest) == [LeafNode(f, x, x)] + [LeafNode(g, y, y)];
    FlattenCons(LeafNode(f, x, x), [LeafNode(g, y, y)]);
    OneNodeTree(LeafNode(g, y, y));
  }

  lemma SectionForest(source: string, text: string, body: string)
    ensures Flatten(Enrich([Section(source, text, body)])) == [SectionNode(source, text, body), BodyNode(source, body)]
    ensures WellParsedForest([Section(source, text, body)])
  {
    var n := Section(source, text, body);
    OneRoot(n, map[]);
    assert n.children[1..] == [] && WireChildren([], RootId(source), 1) == [];
    assert WireChildren([], ChildId(source), 0) == [];
    assert WireChildren(n.children, RootId(source), 0) == [BodyNode(source, body)];
    FlattenCons(SectionNode(source, text, body), []);
    OneNodeTree(BodyNode(source, body));
  }

  lemma Flat1(n: ContextNode)
    ensures WholeParse([n]) == map[n.id := StateOf(n)] && IdsOf([n]) == {n.id} && FilesOf([n]) == {n.source}
    ensures ParseOf(ById([n]), n.source) == map[n.id := StateOf(n)]
    ensures CursorHashFlat([n]) == CursorHash(multiset{Live(n.id, n.hash)})
  {
    ById1(n);
    assert n in [n];
    assert LivePairs([n]) == [Live(n.id, n.hash)];
  }

  lemma Flat2(m: ContextNode, n: ContextNode)
    requires m.id != n.id
    ensures WholeParse([m, n]) == map[m.id := StateOf(m), n.id := StateOf(n)] && IdsOf([m, n]) == {m.id, n.id}
    ensures FilesOf([m, n]) == {m.source, n.source} && ById([m, n]) == map[m.id := m, n.id := n]
    ensures CursorHashFlat([m, n]) == CursorHash(multiset{Live(m.id, m.hash), Live(n.id, n.hash)})
  {
    ById1(m);
    ByIdSnoc([m], n);
    assert [m] + [n] == [m, n] && m in [m, n] && n in [m, n];
    assert LivePairs([m, n]) == [Live(m.id, m.hash), Live(n.id, n.hash)];
  }

  // ----- committing -----

  lemma Commits(db: Db, op: Operation, order: seq<NodeId>)
    requires Inv(db) && Legal(db, op) && Lists(order, db, op)
    requires !CursorUsed(db.snapshots, RequestOf(db, op, order).cursor)
    requires ScopeOf(db, op) != WholeParse(TreeOf(db.nodes, op))
    ensures RequestOf(db, op, order).deltas != [] && Outcome(db, op, order).Ok? && Inv(Outcome(db, op, order).value)
    ensures forall c :: CursorUsed(Outcome(db, op, order).value.snapshots, c)
                        <==> CursorUsed(db.snapshots, c) || c == RequestOf(db, op, order).cursor
  {
    var req := RequestOf(db, op, order);
    RejectedIff(db, op, order);
    OperationIsChange(db, op);
    EmptyDiff(TreeOf(db.nodes, op), ScopeOf(db, op), order);
    SameParseIff(db.nodes, TreeOf(db.nodes, op), ScopeOf(db, op));
    OperationKeepsInv(db, op, order);
    NewCursors(db, req);
  }

  lemma NewCursors(db: Db, req: Request)
    requires Commit(db, req).Ok?
    ensures forall c ::
              CursorUsed(Commit(db, req).value.snapshots, c) <==> CursorUsed(db.snapshots, c) || c == req.cursor
  {
    var after := Commit(db, req).value.snapshots;
    var last := after[|db.snapshots|];
    assert after == db.snapshots + [last] && last.cursor == req.cursor;
    forall c
      ensures CursorUsed(after, c) <==> CursorUsed(db.snapshots, c) || c == req.cursor
    {
      assert last in after;
      assert forall s | s in db.snapshots :: s in after;
    }
  }

  /** A compile of one file that commits: what is compared next time is its parse. */
  lemma CompileCommits(db: Db, op: Operation, order: seq<NodeId>, file: string)
    requires Inv(db) && (op.CompileTree? || op.CompileFiles?) && Legal(db, op) && Lists(order, db, op)
    requires !CursorUsed(db.snapshots, CursorHashFlat(TreeOf(db.nodes, op)))
    requires ScopeOf(db, op) != WholeParse(TreeOf(db.nodes, op))
    requires var flat := TreeOf(db.nodes, op); FilesOf(flat) == {file} && ParseOf(ById(flat), file) == WholeParse(flat)
    ensures Outcome(db, op, order).Ok?
    ensures var after, flat := Outcome(db, op, order).value, TreeOf(db.nodes, op);
            Inv(after)
            && (forall c :: CursorUsed(after.snapshots, c) <==>
                  CursorUsed(db.snapshots, c) || c == CursorHashFlat(flat))
            && (if op.CompileTree? then NodesByCompileRoot(after, op.root) else RowsOf(after.nodes, file))
               == WholeParse(flat)
  {
    Commits(db, op, order);
    if op.CompileTree? {
      RescanIsExact(db, op, order);
    } else {
      CompiledRows(db, op, order, file);
    }
  }

  // ----- going back to an earlier text -----

  function LeafOp(file: string, text: string, root: string, whole: bool): Operation {
    if whole then CompileTree([Leaf(file, text, text)], root) else CompileFiles([Leaf(file, text, text)], root)
  }

  function LeafState(file: string, text: string): State {
    map[RootId(file) := TextState(text)]
  }

  function LeafCursor(file: string, text: string): CursorHash {
    CursorHash(multiset{Live(RootId(file), HashOf(text))})
  }

  lemma LeafTree(nodes: NodeTable, file: string, text: string, root: string, whole: bool)
    ensures var op := LeafOp(file, text, root, whole); var flat := TreeOf(nodes, op);
            flat == [LeafNode(file, text, text)] && WellParsedForest(op.forest)
            && WholeParse(flat) == LeafState(file, text) && CursorHashFlat(flat) == LeafCursor(file, text)
            && IdsOf(flat) == {RootId(file)} && FilesOf(flat) == {file}
            && ParseOf(ById(flat), file) == LeafState(file, text)
  {
    LeafForest(file, text, text);
    Flat1(LeafNode(file, text, text));
  }

  /** One file compiled, as a directory or as a changed file. */
  lemma LeafCommits(db: Db, file: string, text: string, root: string, whole: bool)
    requires Inv(db) && root != "" && !CursorUsed(db.snapshots, LeafCursor(file, text))
    requires ScopeOf(db, LeafOp(file, text, root, whole)).Keys <= {RootId(file)}
    requires ScopeOf(db, LeafOp(file, text, root, whole)) != LeafState(file, text)
    ensures Lists([], db, LeafOp(file, text, root, whole)) && Outcome(db, LeafOp(file, text, root, whole), []).Ok?
    ensures var after := Outcome(db, LeafOp(file, text, root, whole), []).value;
            Inv(after)
            && (forall c :: CursorUsed(after.snapshots, c) <==>
                  CursorUsed(db.snapshots, c) || c == LeafCursor(file, text))
            && (if whole then NodesByCompileRoot(after, root) else RowsOf(after.nodes, file)) == LeafState(file, text)
  {
    var op := LeafOp(file, text, root, whole);
    LeafTree(db.nodes, file, text, root, whole);
    CompileCommits(db, op, [], file);
  }

  /** What the next compile of the file is compared with. */
  lemma LeafScope(db: Db, file: string, text: string, root: string, whole: bool)
    ensures ScopeOf(db, LeafOp(file, text, root, whole))
         == if whole then NodesByCompileRoot(db, root) else RowsOf(db.nodes, file)
  {
    LeafTree(db.nodes, file, text, root, whole);
  }

  lemma DifferentCursors(id: NodeId, a: string, b: string)
    requires a != b
    ensures CursorHash(multiset{Live(id, HashOf(a))}) != CursorHash(multiset{Live(id, HashOf(b))})
    ensures map[id := TextState(a)] != map[id := TextState(b)]
  {
    assert multiset{Live(id, HashOf(a))}[Live(id, HashOf(a))] == 1;
    assert multiset{Live(id, HashOf(b))}[Live(id, HashOf(a))] == 0;
    assert map[id := TextState(a)][id] != map[id := TextState(b)][id];
  }

  /** The last of three versions, in a store that has seen the first two. */
  lemma LeafRefused(db: Db, file: string, text: string, root: string, whole: bool)
    requires Inv(db) && root != "" && CursorUsed(db.snapshots, LeafCursor(file, text))
    requires ScopeOf(db, LeafOp(file, text, root, whole)).Keys <= {RootId(file)}
    requires ScopeOf(db, LeafOp(file, text, root, whole)) != LeafState(file, text)
    ensures Lists([], db, LeafOp(file, text, root, whole))
    ensures Outcome(db, LeafOp(file, text, root, whole), []) == Err(CursorReused)
  {
    LeafTree(db.nodes, file, text, root, whole);
    RejectedIff(db, LeafOp(file, text, root, whole), []);
  }

  /** The first file anyone edits and restores: its third version is refused, as a directory and as a changed file. */
  lemma RevertHappens(file: string, a: string, b: string, root: string, whole: bool)
    requires a != b && root != ""
    ensures var opA, opB := LeafOp(file, a, root, whole), LeafOp(file, b, root, whole);
            Lists([], EMPTY_DB, opA) && Outcome(EMPTY_DB, opA, []).Ok?
            && var db1 := Outcome(EMPTY_DB, opA, []).value;
               Lists([], db1, opB) && Outcome(db1, opB, []).Ok?
               && var db2 := Outcome(db1, opB, []).value;
                  Lists([], db2, opA) && Outcome(db2, opA, []) == Err(CursorReused)
  {
    EmptyInv();
    DifferentCursors(RootId(file), a, b);
    LeafScope(EMPTY_DB, file, a, root, whole);
    LeafCommits(EMPTY_DB, file, a, root, whole);
    var db1 := Outcome(EMPTY_DB, LeafOp(file, a, root, whole), []).value;
    LeafScope(db1, file, b, root, whole);
    LeafCommits(db1, file, b, root, whole);
    var db2 := Outcome(db1, LeafOp(file, b, root, whole), []).value;
    LeafScope(db2, file, a, root, whole);
    LeafRefused(db2, file, a, root, whole);
  }

  // ----- the same by writes -----

  function NoteOp(id: NodeId, text: string): Operation {
    Write(Some(id), text, "")
  }

  lemma NoteTree(db: Db, id: NodeId, text: string)
    ensures var op := NoteOp(id, text); var flat := TreeOf(db.nodes, op);
            WholeParse(flat) == map[id := TextState(text)] && IdsOf(flat) == {id}
            && ScopeOf(db, op) == OneRow(db.nodes, id)
            && CursorHashFlat(flat) == CursorHash(multiset{Live(id, HashOf(text))}) && Lists([], db, op)
  {
    var op := NoteOp(id, text);
    var n := RootsOf(db.nodes, op)[0];
    SingleTree(db, op);
    OneNodeTree(n);
    assert n in TreeOf(db.nodes, op);
  }

  lemma NoteCommits(db: Db, id: NodeId, text: string)
    requires Inv(db) && (id.Pos? ==> id in db.nodes) && (id in db.nodes ==> db.nodes[id].content != text)
    requires !CursorUsed(db.snapshots, CursorHash(multiset{Live(id, HashOf(text))}))
    ensures Lists([], db, NoteOp(id, text)) && Outcome(db, NoteOp(id, text), []).Ok?
    ensures RequestOf(db, NoteOp(id, text), []).deltas != []
    ensures var after := Outcome(db, NoteOp(id, text), []).value;
            Inv(after) && id in after.nodes && after.nodes[id].content == text
            && forall c :: CursorUsed(after.snapshots, c) <==>
                 CursorUsed(db.snapshots, c) || c == CursorHash(multiset{Live(id, HashOf(text))})
  {
    var op := NoteOp(id, text);
    NoteTree(db, id, text);
    assert ScopeOf(db, op) != WholeParse(TreeOf(db.nodes, op)) by {
      assert id in ScopeOf(db, op) ==> ScopeOf(db, op)[id].content != text;
      assert WholeParse(TreeOf(db.nodes, op))[id].content == text;
    }
    Commits(db, op, []);
    NoteStored(db, id, text);
  }

  lemma NoteStored(db: Db, id: NodeId, text: string)
    requires Fits(db.nodes) && Legal(db, NoteOp(id, text)) && Lists([], db, NoteOp(id, text))
    requires Outcome(db, NoteOp(id, text), []).Ok? && (id in db.nodes ==> db.nodes[id].content != text)
    ensures var after := Outcome(db, NoteOp(id, text), []).value; id in after.nodes && after.nodes[id].content == text
  {
    var op := NoteOp(id, text);
    var flat, prev, after := TreeOf(db.nodes, op), ScopeOf(db, op), Outcome(db, op, []).value;
    NoteTree(db, id, text);
    SuccessMeans(db, op, []);
    OperationIsChange(db, op);
    AfterLookup(db.nodes, flat, prev, id);
    assert id in WholeParse(flat) && View(After(db.nodes, flat, prev))[id] == WholeParse(flat)[id];
    assert View(after.nodes)[id].content == text;
  }

  /** A note written over and then put back is refused as well. */
  lemma NoteRevertHappens(id: NodeId, a: string, b: string)
    requires a != b && !id.Pos?
    ensures Lists([], EMPTY_DB, NoteOp(id, a)) && Outcome(EMPTY_DB, NoteOp(id, a), []).Ok?
    ensures var db1 := Outcome(EMPTY_DB, NoteOp(id, a), []).value;
            Lists([], db1, NoteOp(id, b)) && Outcome(db1, NoteOp(id, b), []).Ok?
            && var db2 := Outcome(db1, NoteOp(id, b), []).value;
               Lists([], db2, NoteOp(id, a)) && Outcome(db2, NoteOp(id, a), []) == Err(CursorReused)
  {
    EmptyInv();
    DifferentCursors(id, a, b);
    NoteCommits(EMPTY_DB, id, a);
    var db1 := Outcome(EMPTY_DB, NoteOp(id, a), []).value;
    NoteCommits(db1, id, b);
    var db2 := Outcome(db1, NoteOp(id, b), []).value;
    NoteTree(db2, id, a);
    assert OneRow(db2.nodes, id)[id].content == b;
    assert map[id := TextState(a)][id].content == a;
    RejectedIff(db2, NoteOp(id, a), []);
  }

  // ----- a file deleted, restored and deleted again -----

  function PairOp(f: string, x: string, g: string, y: string, root: string): Operation {
    CompileFiles([Leaf(f, x, x), Leaf(g, y, y)], root)
  }

  function PairCursor(f: string, x: string, g: string, y: string): CursorHash {
    CursorHash(multiset{Live(RootId(f), HashOf(x)), Live(RootId(g), HashOf(y))})
  }

  lemma PairTree(nodes: NodeTable, f: string, x: string, g: string, y: string, root: string)
    requires f != g
    ensures var op := PairOp(f, x, g, y, root); var flat := TreeOf(nodes, op);
            WellParsedForest(op.forest) && FilesOf(flat) == {f, g} && CursorHashFlat(flat) == PairCursor(f, x, g, y)
            && RootId(f) in WholeParse(flat) && ParseOf(ById(flat), f) == LeafState(f, x)
  {
    TwoLeafForest(f, x, g, y);
    Flat2(LeafNode(f, x, x), LeafNode(g, y, y));
  }

  lemma PairCompiled(f: string, x: string, g: string, y: string, root: string)
    requires f != g
    ensures Lists([], EMPTY_DB, PairOp(f, x, g, y, root)) && Outcome(EMPTY_DB, PairOp(f, x, g, y, root), []).Ok?
    ensures var after := Outcome(EMPTY_DB, PairOp(f, x, g, y, root), []).value;
            Inv(after) && RowsOf(after.nodes, f) == LeafState(f, x)
            && forall c :: CursorUsed(after.snapshots, c) <==> c == PairCursor(f, x, g, y)
  {
    var op := PairOp(f, x, g, y, root);
    EmptyInv();
    PairTree(map[], f, x, g, y, root);
    assert ScopeOf(EMPTY_DB, op) == map[];
    Commits(EMPTY_DB, op, []);
    CompiledRows(EMPTY_DB, op, [], f);
  }

  function PurgedCursor(f: string, x: string): CursorHash {
    CursorHash(multiset{Purged(RootId(f), HashOf(x))})
  }

  lemma PurgeOfOne(db: Db, f: string, x: string)
    requires RowsOf(db.nodes, f) == LeafState(f, x)
    ensures Lists([RootId(f)], db, Purge({f})) && ScopeOf(db, Purge({f})) == LeafState(f, x)
    ensures RequestOf(db, Purge({f}), [RootId(f)]).cursor == PurgedCursor(f, x)
    ensures WholeParse(TreeOf(db.nodes, Purge({f}))) == map[]
  {
    var prev := ScopeOf(db, Purge({f}));
    assert prev == LeafState(f, x) && TreeOf(db.nodes, Purge({f})) == [];
    assert PurgedPairs([RootId(f)], prev) == [Purged(RootId(f), HashOf(x))];
    assert RootId(f) in prev && LeafState(f, x) != map[];
  }

  lemma FilePurged(db: Db, f: string, x: string)
    requires Inv(db) && RowsOf(db.nodes, f) == LeafState(f, x) && !CursorUsed(db.snapshots, PurgedCursor(f, x))
    ensures Lists([RootId(f)], db, Purge({f})) && Outcome(db, Purge({f}), [RootId(f)]).Ok?
    ensures var after := Outcome(db, Purge({f}), [RootId(f)]).value;
            Inv(after) && RowsOf(after.nodes, f) == map[]
            && forall c :: CursorUsed(after.snapshots, c) <==> CursorUsed(db.snapshots, c) || c == PurgedCursor(f, x)
  {
    PurgeOfOne(db, f, x);
    assert RootId(f) in LeafState(f, x);
    Commits(db, Purge({f}), [RootId(f)]);
    PurgeIsExact(db, {f}, [RootId(f)], f);
  }

  lemma FileNotPurged(db: Db, f: string, x: string)
    requires Inv(db) && RowsOf(db.nodes, f) == LeafState(f, x) && CursorUsed(db.snapshots, PurgedCursor(f, x))
    ensures Lists([RootId(f)], db, Purge({f})) && Outcome(db, Purge({f}), [RootId(f)]) == Err(CursorReused)
  {
    PurgeOfOne(db, f, x);
    assert RootId(f) in LeafState(f, x);
    RejectedIff(db, Purge({f}), [RootId(f)]);
  }

  // What the loop sees of it, scan by scan.

  function LeafFile(file: string, text: string, mtime: int): File {
    File(mtime, Parsed([Leaf(file, text, text)]))
  }

  function Seen(path: string, mtime: int): Visited {
    Visited(path, Some(mtime), true)
  }

  lemma Walk1(v: Visited, modTimes: map<string, int>)
    ensures SeenIn([v]) == {v.path}
    ensures PendingIn([v], modTimes) == if Changed(v, modTimes) then map[v.path := v.mtime.value] else map[]
  {
    assert [v][..0] == [];
    assert PendingIn([], modTimes) == map[];
  }

  lemma Walk2(u: Visited, v: Visited, modTimes: map<string, int>)
    ensures SeenIn([u, v]) == {u.path, v.path}
    ensures PendingIn([u, v], modTimes)
         == var before := if Changed(u, modTimes) then map[u.path := u.mtime.value] else map[];
            if Changed(v, modTimes) then before[v.path := v.mtime.value] else before
  {
    assert [u, v][..1] == [u];
    Walk1(u, modTimes);
  }

  lemma BothChanged(f: string, s: int, g: string, t: int)
    requires f != g
    ensures PendingIn([Seen(f, s), Seen(g, t)], map[]) == map[f := s, g := t]
    ensures map[] + map[f := s, g := t] == map[f := s, g := t]
  {
    Walk2(Seen(f, s), Seen(g, t), map[]);
  }

  lemma OneChanged(f: string, s: int, g: string, modTimes: map<string, int>)
    requires f != g && modTimes.Keys == {g}
    ensures PendingIn([Seen(f, s), Seen(g, modTimes[g])], modTimes) == map[f := s]
  {
    Walk2(Seen(f, s), Seen(g, modTimes[g]), modTimes);
  }

  lemma NothingPurged(db: Db)
    ensures Lists([], db, Purge({})) && Outcome(db, Purge({}), []) == Ok(db)
  {
    assert ScopeOf(db, Purge({})) == map[] && TreeOf(db.nodes, Purge({})) == [];
  }

  /** A walk that meets both files leaves nothing to purge. */
  lemma BothSeen(w: World, f: string, g: string, walk: seq<Visited>)
    requires f != g && w.watched == {f, g} && w.disk.Keys == {f, g} && w.modTimes.Keys <= {f, g}
    requires walk == [Seen(f, w.disk[f].mtime), Seen(g, w.disk[g].mtime)]
    ensures WalkedDisk(w, walk, false) && Lists([], w.db, Purge(w.modTimes.Keys - SeenIn(walk)))
    ensures PurgeEnd(w, walk, []) == w.(phase := Compiling(PendingIn(walk, w.modTimes), map[]))
  {
    Walk2(walk[0], walk[1], w.modTimes);
    assert w.modTimes.Keys - SeenIn(walk) == {};
    assert w.modTimes - {} == w.modTimes;
    NothingPurged(w.db);
  }

  lemma OneSeen(w: World, f: string, g: string, walk: seq<Visited>, order: seq<NodeId>, root: string)
    requires f != g && w.watched == {f, g} && w.disk.Keys == {g} && walk == [Seen(g, w.disk[g].mtime)]
    requires w.modTimes.Keys == {f, g} && w.modTimes[g] == w.disk[g].mtime && Lists(order, w.db, Purge({f}))
    ensures WalkedDisk(w, walk, false) && w.modTimes.Keys - SeenIn(walk) == {f} && PendingIn(walk, w.modTimes) == map[]
    ensures var result := Outcome(w.db, Purge({f}), order); var mid := PurgeEnd(w, walk, order);
            mid == w.(modTimes := w.modTimes - {f}, db := if result.Ok? then result.value else w.db,
                      phase := Compiling(map[], map[]))
  {
    Walk1(walk[0], w.modTimes);
    assert w.modTimes.Keys - SeenIn(walk) == {f};
  }

  lemma NothingCompiled(w: World, root: string)
    requires w.phase.Compiling? && w.phase.pending == map[]
    ensures FilesAt(w.disk, []) == map[] && Lists([], w.db, CompileFiles([], root))
    ensures CompileOp([], map[], root) == CompileFiles([], root)
    ensures CompileEnd(w, [], [], root) == w.(phase := Waiting)
  {
    assert FilesAt(w.disk, []) == map[];
    NothingListed(w.db, root);
    NothingEmitted(w.db, [], root);
    assert w.modTimes + map[] == w.modTimes;
  }

  /** A scan that finds one file gone and the other as it was. */
  lemma DeletionScan(w: World, f: string, g: string, order: seq<NodeId>, root: string) returns (actions: seq<Action>)
    requires f != g && w.phase.Waiting? && w.watched == {f, g} && w.disk.Keys == {g}
    requires w.modTimes.Keys == {f, g} && w.modTimes[g] == w.disk[g].mtime && Lists(order, w.db, Purge({f}))
    ensures var result := Outcome(w.db, Purge({f}), order);
            Leads(w, actions, w.(modTimes := w.modTimes - {f}, db := if result.Ok? then result.value else w.db), root)
  {
    var walk := [Seen(g, w.disk[g].mtime)];
    OneSeen(w, f, g, walk, order, root);
    NothingCompiled(PurgeEnd(w, walk, order), root);
    assert FilesAt(w.disk, []) == map[];
    actions := ScanSteps(w, walk, order, [], [], root);
  }

  /** What one compile leaves, once it is known to commit. */
  lemma CompiledEnd(w: World, changed: seq<string>, op: Operation, root: string)
    requires w.phase.Compiling? && forall p | p in changed :: p in w.disk && w.disk[p].parsed.Parsed?
    requires op == CompileOp(changed, FilesAt(w.disk, changed), root)
    requires Lists([], w.db, op) && Outcome(w.db, op, []).Ok?
    ensures CompileEnd(w, changed, [], root)
         == w.(modTimes := w.modTimes + w.phase.pending, db := Outcome(w.db, op, []).value, phase := Waiting)
  {}

  /** A scan that sees both files and compiles those that changed. */
  lemma CompileScan(
      w: World, f: string, g: string, walk: seq<Visited>, changed: seq<string>, op: Operation, root: string)
      returns (actions: seq<Action>)
    requires f != g && w.phase.Waiting? && w.watched == {f, g} && w.disk.Keys == {f, g} && w.modTimes.Keys <= {f, g}
    requires walk == [Seen(f, w.disk[f].mtime), Seen(g, w.disk[g].mtime)]
    requires NoDuplicates(changed) && forall p :: p in changed <==> p in PendingIn(walk, w.modTimes)
    requires forall p | p in changed :: p in w.disk && w.disk[p].parsed.Parsed?
    requires op == CompileOp(changed, FilesAt(w.disk, changed), root)
    requires Lists([], w.db, op) && Outcome(w.db, op, []).Ok?
    ensures Leads(w, actions, w.(modTimes := w.modTimes + PendingIn(walk, w.modTimes),
                                 db := Outcome(w.db, op, []).value), root)
  {
    BothSeen(w, f, g, walk);
    var mid := PurgeEnd(w, walk, []);
    assert FilesAt(w.disk, changed) == FilesAt(mid.disk, changed);
    CompiledEnd(mid, changed, op, root);
    actions := ScanSteps(w, walk, [], changed, [], root);
  }

  /** A scan that finds one file restored and the other as it was. */
  lemma RestoreScan(w: World, f: string, x: string, g: string, root: string) returns (actions: seq<Action>)
    requires f != g && w.phase.Waiting? && w.watched == {f, g} && w.disk.Keys == {f, g}
    requires w.modTimes.Keys == {g} && w.modTimes[g] == w.disk[g].mtime && w.disk[f] == LeafFile(f, x, w.disk[f].mtime)
    requires Lists([], w.db, LeafOp(f, x, root, false)) && Outcome(w.db, LeafOp(f, x, root, false), []).Ok?
    ensures Leads(w, actions, w.(modTimes := w.modTimes + map[f := w.disk[f].mtime],
                                 db := Outcome(w.db, LeafOp(f, x, root, false), []).value), root)
  {
    var walk := [Seen(f, w.disk[f].mtime), Seen(g, w.disk[g].mtime)];
    OneChanged(f, w.disk[f].mtime, g, w.modTimes);
    LeafAlone(f, x, FilesAt(w.disk, [f]));
    actions := CompileScan(w, f, g, walk, [f], LeafOp(f, x, root, false), root);
  }

  /** The first scan, over two files. */
  lemma FirstScan(w: World, f: string, x: string, g: string, y: string, root: string) returns (actions: seq<Action>)
    requires f != g && w.phase.Waiting? && w.watched == {f, g} && w.disk.Keys == {f, g} && w.modTimes == map[]
    requires w.disk[f] == LeafFile(f, x, w.disk[f].mtime) && w.disk[g] == LeafFile(g, y, w.disk[g].mtime)
    requires Lists([], w.db, PairOp(f, x, g, y, root)) && Outcome(w.db, PairOp(f, x, g, y, root), []).Ok?
    ensures Leads(w, actions, w.(modTimes := map[f := w.disk[f].mtime, g := w.disk[g].mtime],
                                 db := Outcome(w.db, PairOp(f, x, g, y, root), []).value), root)
  {
    var walk := [Seen(f, w.disk[f].mtime), Seen(g, w.disk[g].mtime)];
    BothChanged(f, w.disk[f].mtime, g, w.disk[g].mtime);
    PairForest(f, x, g, y, FilesAt(w.disk, [f, g]));
    actions := CompileScan(w, f, g, walk, [f, g], PairOp(f, x, g, y, root), root);
  }

  lemma LeafAlone(f: string, x: string, loaded: map<string, File>)
    requires f in loaded && loaded[f].parsed == Parsed([Leaf(f, x, x)])
    ensures Forest([f], loaded) == [Leaf(f, x, x)]
  {
    assert Forest([f], loaded) == [Leaf(f, x, x)] + Forest([f][1..], loaded);
  }

  lemma PairForest(f: string, x: string, g: string, y: string, loaded: map<string, File>)
    requires f in loaded && loaded[f].parsed == Parsed([Leaf(f, x, x)])
    requires g in loaded && loaded[g].parsed == Parsed([Leaf(g, y, y)])
    ensures Forest([f, g], loaded) == [Leaf(f, x, x), Leaf(g, y, y)]
  {
    assert [f, g][1..] == [g];
    LeafAlone(g, y, loaded);
  }

  /** The loop at rest, with the file deleted and forgotten but its rows still there. */
  ghost predicate Stranded(w: World, file: string) {
    w.phase.Waiting? && WorldInv(w) && Forgotten(w, file) && file !in w.disk && RowsOf(w.db.nodes, file) != map[]
  }

  /** The world in which the loop has just started over two files. */
  function TwoFiles(f: string, x: string, g: string, y: string): World {
    Both(f, x, g, y, 1, EMPTY_DB).(modTimes := map[])
  }

  /** The loop at rest after a scan of both files. */
  function Both(f: string, x: string, g: string, y: string, mtime: int, db: Db): World {
    World({f, g}, map[f := LeafFile(f, x, mtime), g := LeafFile(g, y, 1)],
          map[f := mtime, g := 1], map[f := mtime, g := 1], db, Waiting)
  }

  /** The loop at rest after a scan without the first file. */
  function Without(f: string, g: string, y: string, mtime: int, db: Db): World {
    World({f, g}, map[g := LeafFile(g, y, 1)], map[f := mtime, g := 1], map[g := 1], db, Waiting)
  }

  lemma TwoEntries<T>(f: string, a: T, b: T, g: string, c: T)
    requires f != g
    ensures map[f := a, g := c] - {f} == map[g := c] && map[f := a, g := c][f := b] == map[f := b, g := c]
    ensures map[g := c][f := b] == map[f := b, g := c] && map[g := c] + map[f := b] == map[f := b, g := c]
  {}

  lemma Then(w: World, a: Action, rest: seq<Action>, next: World, root: string) returns (actions: seq<Action>)
    requires Enabled(w, a, root) && Leads(Do(w, a, root), rest, next, root)
    ensures Leads(w, actions, next, root)
  {
    OneMore(w, [], w, a, root);
    MoreSteps(w, [] + [a], Do(w, a, root), rest, next, root);
    actions := [] + [a] + rest;
  }

  lemma DeleteRun(f: string, x: string, g: string, y: string, mtime: int, db: Db, after: Db, root: string)
      returns (actions: seq<Action>)
    requires f != g && Lists([RootId(f)], db, Purge({f}))
    requires var result := Outcome(db, Purge({f}), [RootId(f)]); after == if result.Ok? then result.value else db
    ensures Leads(Both(f, x, g, y, mtime, db), actions, Without(f, g, y, mtime, after), root)
  {
    var w := Both(f, x, g, y, mtime, db);
    TwoEntries(f, LeafFile(f, x, mtime), LeafFile(f, x, mtime), g, LeafFile(g, y, 1));
    TwoEntries(f, mtime, mtime, g, 1);
    var gone := Do(w, Remove(f), root);
    var rest := DeletionScan(gone, f, g, [RootId(f)], root);
    actions := Then(w, Remove(f), rest, Without(f, g, y, mtime, after), root);
  }

  lemma RestoreRun(f: string, x: string, g: string, y: string, mtime: int, later: int, db: Db, after: Db, root: string)
      returns (actions: seq<Action>)
    requires f != g && mtime < later
    requires Lists([], db, LeafOp(f, x, root, false)) && Outcome(db, LeafOp(f, x, root, false), []) == Ok(after)
    ensures Leads(Without(f, g, y, mtime, db), actions, Both(f, x, g, y, later, after), root)
  {
    var w, file := Without(f, g, y, mtime, db), LeafFile(f, x, later);
    TwoEntries(f, file, file, g, LeafFile(g, y, 1));
    TwoEntries(f, mtime, later, g, 1);
    assert GoodFile(f, file);
    var back := Do(w, Save(f, file), root);
    var rest := RestoreScan(back, f, x, g, root);
    actions := Then(w, Save(f, file), rest, Both(f, x, g, y, later, after), root);
  }

  lemma FirstRun(f: string, x: string, g: string, y: string, after: Db, root: string) returns (actions: seq<Action>)
    requires f != g
    requires Lists([], EMPTY_DB, PairOp(f, x, g, y, root))
    requires Outcome(EMPTY_DB, PairOp(f, x, g, y, root), []) == Ok(after)
    ensures Leads(TwoFiles(f, x, g, y), actions, Both(f, x, g, y, 1, after), root)
  {
    actions := FirstScan(TwoFiles(f, x, g, y), f, x, g, y, root);
  }

  /** The cursors of the four commits are of different sizes or kinds, but for the two purges. */
  lemma PurgeCursors(f: string, x: string, g: string, y: string)
    ensures PurgedCursor(f, x) != PairCursor(f, x, g, y) && LeafCursor(f, x) != PairCursor(f, x, g, y)
    ensures PurgedCursor(f, x) != LeafCursor(f, x)
  {
    assert |PairCursor(f, x, g, y).pairs| == 2 && |PurgedCursor(f, x).pairs| == 1 && |LeafCursor(f, x).pairs| == 1;
    assert Purged(RootId(f), HashOf(x)) in PurgedCursor(f, x).pairs;
    assert Purged(RootId(f), HashOf(x)) !in LeafCursor(f, x).pairs;
  }

  lemma FirstPurgeCommits(f: string, x: string, g: string, y: string, root: string) returns (db1: Db, db2: Db)
    requires f != g && root != ""
    ensures Lists([], EMPTY_DB, PairOp(f, x, g, y, root)) && Outcome(EMPTY_DB, PairOp(f, x, g, y, root), []) == Ok(db1)
    ensures Lists([RootId(f)], db1, Purge({f})) && Outcome(db1, Purge({f}), [RootId(f)]) == Ok(db2)
    ensures Inv(db2) && RowsOf(db2.nodes, f) == map[]
    ensures forall c :: CursorUsed(db2.snapshots, c) <==> c == PairCursor(f, x, g, y) || c == PurgedCursor(f, x)
  {
    PurgeCursors(f, x, g, y);
    PairCompiled(f, x, g, y, root);
    db1 := Outcome(EMPTY_DB, PairOp(f, x, g, y, root), []).value;
    FilePurged(db1, f, x);
    db2 := Outcome(db1, Purge({f}), [RootId(f)]).value;
  }

  lemma RestoredNotPurged(db2: Db, f: string, x: string, root: string) returns (db3: Db)
    requires Inv(db2) && root != "" && RowsOf(db2.nodes, f) == map[]
    requires !CursorUsed(db2.snapshots, LeafCursor(f, x)) && CursorUsed(db2.snapshots, PurgedCursor(f, x))
    ensures Lists([], db2, LeafOp(f, x, root, false)) && Outcome(db2, LeafOp(f, x, root, false), []) == Ok(db3)
    ensures Lists([RootId(f)], db3, Purge({f})) && Outcome(db3, Purge({f}), [RootId(f)]) == Err(CursorReused)
    ensures RowsOf(db3.nodes, f) != map[]
  {
    LeafScope(db2, f, x, root, false);
    assert RootId(f) in LeafState(f, x);
    LeafCommits(db2, f, x, root, false);
    db3 := Outcome(db2, LeafOp(f, x, root, false), []).value;
    FileNotPurged(db3, f, x);
  }

  /** The four commits of the run, as the store sees them: the second purge is refused. */
  lemma SecondPurgeRefused(f: string, x: string, g: string, y: string, root: string)
      returns (db1: Db, db2: Db, db3: Db)
    requires f != g && root != ""
    ensures Lists([], EMPTY_DB, PairOp(f, x, g, y, root)) && Outcome(EMPTY_DB, PairOp(f, x, g, y, root), []) == Ok(db1)
    ensures Lists([RootId(f)], db1, Purge({f})) && Outcome(db1, Purge({f}), [RootId(f)]) == Ok(db2)
    ensures Lists([], db2, LeafOp(f, x, root, false)) && Outcome(db2, LeafOp(f, x, root, false), []) == Ok(db3)
    ensures Lists([RootId(f)], db3, Purge({f})) && Outcome(db3, Purge({f}), [RootId(f)]) == Err(CursorReused)
    ensures RowsOf(db3.nodes, f) != map[]
  {
    PurgeCursors(f, x, g, y);
    db1, db2 := FirstPurgeCommits(f, x, g, y, root);
    db3 := RestoredNotPurged(db2, f, x, root);
  }

  lemma TwoFilesInv(f: string, x: string, g: string, y: string)
    requires f != g
    ensures WorldInv(TwoFiles(f, x, g, y))
  {
    var w := TwoFiles(f, x, g, y);
    assert GoodFile(f, w.disk[f]) && GoodFile(g, w.disk[g]);
    EmptyInv();
    FreshLoop(w.watched, w.disk, EMPTY_DB);
  }

  lemma DeletedTwice(f: string, x: string, g: string, y: string, root: string)
      returns (actions: seq<Action>, last: World)
    requires f != g && root != ""
    ensures Leads(TwoFiles(f, x, g, y), actions, last, root)
    ensures last.phase.Waiting? && last.watched == {f, g} && f !in last.disk && f !in last.modTimes
    ensures RowsOf(last.db.nodes, f) != map[]
  {
    var db1, db2, db3 := SecondPurgeRefused(f, x, g, y, root);
    var w := TwoFiles(f, x, g, y);
    actions := FirstRun(f, x, g, y, db1, root);
    var more := DeleteRun(f, x, g, y, 1, db1, db2, root);
    MoreSteps(w, actions, Both(f, x, g, y, 1, db1), more, Without(f, g, y, 1, db2), root);
    actions := actions + more;
    more := RestoreRun(f, x, g, y, 1, 2, db2, db3, root);
    MoreSteps(w, actions, Without(f, g, y, 1, db2), more, Both(f, x, g, y, 2, db3), root);
    actions := actions + more;
    more := DeleteRun(f, x, g, y, 2, db3, db3, root);
    last := Without(f, g, y, 2, db3);
    MoreSteps(w, actions, Both(f, x, g, y, 2, db3), more, last, root);
    actions := actions + more;
  }

  /**
   Two files scanned together, one of them deleted, restored as it was and deleted again: after
   the scan of the second deletion the loop has forgotten the file, and its rows are still there.
   `Rescan.ForgottenRowsStay` says that no later scan removes them.
  */
  lemma DeletedTwiceIsStranded(f: string, x: string, g: string, y: string, root: string)
    requires f != g && root != ""
    ensures WorldInv(TwoFiles(f, x, g, y))
    ensures exists actions ::
              EnabledRun(TwoFiles(f, x, g, y), actions, root) && Stranded(Final(TwoFiles(f, x, g, y), actions, root), f)
  {
    var actions, last := DeletedTwice(f, x, g, y, root);
    TwoFilesInv(f, x, g, y);
    ScansStayInStep(TwoFiles(f, x, g, y), actions, root);
    assert Stranded(last, f);
  }

  // ----- a written row lost without a delta -----

  function SectionOp(file: string, text: string, body: string, root: string, whole: bool): Operation {
    var forest := [Section(file, text, body)];
    if whole then CompileTree(forest, root) else CompileFiles(forest, root)
  }

  function SectionCursor(file: string, text: string, body: string): CursorHash {
    CursorHash(multiset{Live(RootId(file), HashOf(text)), Live(ChildId(file), HashOf(body))})
  }

  function SectionState(file: string, text: string, body: string): State {
    map[RootId(file) := TextState(text), ChildId(file) := TextState(body)]
  }

  lemma SectionTree(nodes: NodeTable, file: string, text: string, body: string, root: string, whole: bool)
    ensures var op := SectionOp(file, text, body, root, whole); var flat := TreeOf(nodes, op);
            WellParsedForest(op.forest) && FilesOf(flat) == {file} && IdsOf(flat) == {RootId(file), ChildId(file)}
            && WholeParse(flat) == SectionState(file, text, body) == ParseOf(ById(flat), file)
            && CursorHashFlat(flat) == SectionCursor(file, text, body)
  {
    SectionForest(file, text, body);
    SectionFlat(file, text, body);
  }

  lemma SectionFlat(file: string, text: string, body: string)
    ensures var flat := [SectionNode(file, text, body), BodyNode(file, body)];
            FilesOf(flat) == {file} && IdsOf(flat) == {RootId(file), ChildId(file)}
            && WholeParse(flat) == SectionState(file, text, body) == ParseOf(ById(flat), file)
            && CursorHashFlat(flat) == SectionCursor(file, text, body)
  {
    Flat2(SectionNode(file, text, body), BodyNode(file, body));
  }

  lemma SectionRows(file: string, text: string, body: string)
    ensures var state, id := SectionState(file, text, body), ChildId(file);
            id in state && state[id] == TextState(body) && RootId(file) in state && state.Keys - {id} == {RootId(file)}
            && state != map[]
  {}

  /** The first compile of a heading with one paragraph. */
  lemma SectionCompiled(file: string, text: string, body: string, root: string, whole: bool)
    requires root != ""
    ensures var op := SectionOp(file, text, body, root, whole);
            Lists([], EMPTY_DB, op) && Outcome(EMPTY_DB, op, []).Ok?
            && var after := Outcome(EMPTY_DB, op, []).value;
               Inv(after) && (forall c :: CursorUsed(after.snapshots, c) <==> c == SectionCursor(file, text, body))
               && (if whole then NodesByCompileRoot(after, root) else RowsOf(after.nodes, file))
                  == SectionState(file, text, body)
  {
    var op := SectionOp(file, text, body, root, whole);
    EmptyInv();
    SectionTree(map[], file, text, body, root, whole);
    assert ScopeOf(EMPTY_DB, op) == map[];
    SectionRows(file, text, body);
    CompileCommits(EMPTY_DB, op, [], file);
  }

  lemma SectionCursors(file: string, text: string, body: string, id: NodeId, note: string)
    ensures SectionCursor(file, text, body) != CursorHash(multiset{Live(id, HashOf(note))})
  {
    assert |SectionCursor(file, text, body).pairs| == 2 && |multiset{Live(id, HashOf(note))}| == 1;
  }

  /** The paragraph is written to, so it leaves the scope of the directory. */
  lemma BodyWritten(db: Db, file: string, text: string, body: string, note: string, root: string)
    requires Inv(db) && root != "" && NodesByCompileRoot(db, root) == SectionState(file, text, body) && note != body
    requires forall c :: CursorUsed(db.snapshots, c) <==> c == SectionCursor(file, text, body)
    ensures var w := NoteOp(ChildId(file), note);
            Legal(db, w) && Lists([], db, w) && RequestOf(db, w, []).deltas != [] && Outcome(db, w, []).Ok?
            && var after := Outcome(db, w, []).value;
               Inv(after) && NodesByCompileRoot(after, root).Keys == {RootId(file)}
               && forall c :: CursorUsed(after.snapshots, c) ==>
                    c == SectionCursor(file, text, body) || c == CursorHash(multiset{Live(ChildId(file), HashOf(note))})
  {
    var id := ChildId(file);
    assert id in db.nodes && db.nodes[id].content == body by {
      SectionRows(file, text, body);
      assert id in NodesByCompileRoot(db, root) && NodesByCompileRoot(db, root)[id] == View(db.nodes)[id];
    }
    SectionCursors(file, text, body, id, note);
    NoteCommits(db, id, note);
    BodyScope(db, file, text, body, note, root);
  }

  lemma BodyScope(db: Db, file: string, text: string, body: string, note: string, root: string)
    requires Inv(db) && root != "" && NodesByCompileRoot(db, root) == SectionState(file, text, body)
    requires ChildId(file) in db.nodes && Lists([], db, NoteOp(ChildId(file), note))
    requires RequestOf(db, NoteOp(ChildId(file), note), []).deltas != []
    requires Outcome(db, NoteOp(ChildId(file), note), []).Ok?
    ensures NodesByCompileRoot(Outcome(db, NoteOp(ChildId(file), note), []).value, root).Keys == {RootId(file)}
  {
    SectionRows(file, text, body);
    WriteLeavesScope(db, NoteOp(ChildId(file), note), [], root);
  }

  /** Then the file is gone, and the directory holds another one. */
  lemma OtherFileScanned(
      db: Db, file: string, text: string, body: string, note: string, other: string, u: string, root: string)
    requires Inv(db) && root != "" && file != other && NodesByCompileRoot(db, root).Keys == {RootId(file)}
    requires forall c :: CursorUsed(db.snapshots, c) ==>
               c == SectionCursor(file, text, body) || c == CursorHash(multiset{Live(ChildId(file), HashOf(note))})
    ensures var b := LeafOp(other, u, root, true);
            Legal(db, b) && Lists([RootId(file)], db, b)
            && !CursorUsed(db.snapshots, RequestOf(db, b, [RootId(file)]).cursor)
  {
    var b := LeafOp(other, u, root, true);
    LeafTree(db.nodes, other, u, root, true);
    SectionCursors(file, text, body, RootId(other), u);
    assert LeafCursor(other, u) != CursorHash(multiset{Live(ChildId(file), HashOf(note))}) by {
      assert Live(RootId(other), HashOf(u)) in LeafCursor(other, u).pairs;
    }
    assert ScopeOf(db, b) != LeafState(other, u) by {
      assert RootId(other) in LeafState(other, u) && RootId(other) !in ScopeOf(db, b);
    }
    Commits(db, b, [RootId(file)]);
  }

  lemma WrittenBodyVanishes(
      db1: Db, file: string, text: string, body: string, note: string, b: Operation, db2: Db)
    requires Inv(db1) && b.CompileTree? && NodesByCompileRoot(db1, b.root) == SectionState(file, text, body)
    requires var w := NoteOp(ChildId(file), note);
             Legal(db1, w) && Lists([], db1, w) && RequestOf(db1, w, []).deltas != [] && Outcome(db1, w, []) == Ok(db2)
    requires Inv(db2) && Legal(db2, b) && Lists([RootId(file)], db2, b)
    requires !CursorUsed(db2.snapshots, RequestOf(db2, b, [RootId(file)]).cursor)
    ensures Outcome(db2, b, [RootId(file)]).Ok?
    ensures var db3 := Outcome(db2, b, [RootId(file)]).value; var deltas := RequestOf(db2, b, [RootId(file)]).deltas;
            ChildId(file) in db2.nodes && ChildId(file) !in db3.nodes && !Mentions(deltas, ChildId(file))
            && Patch(View(db2.nodes), deltas) != View(db3.nodes) && Undo(View(db3.nodes), deltas) != View(db2.nodes)
  {
    SectionRows(file, text, body);
    assert Below(ChildId(file), RootId(file)) && RootId(file) in [RootId(file)];
    WrittenRowVanishesSilently(db1, NoteOp(ChildId(file), note), [], db2, b, [RootId(file)], RootId(file));
    RescanUndoIff(db2, b, [RootId(file)]);
  }

  /**
   From the empty store: a directory with a heading and its paragraph, a write to the paragraph,
   and a rescan once the file was replaced by another. The written row is gone and no delta says
   so; a client that patches ID by ID keeps it, and undoing the rescan does not bring it back.
  */
  lemma SilentLossHappens(
      file: string, text: string, body: string, note: string, other: string, u: string, root: string)
    requires note != body && file != other && root != ""
    ensures var a, b := SectionOp(file, text, body, root, true), LeafOp(other, u, root, true);
            var w := NoteOp(ChildId(file), note);
            Lists([], EMPTY_DB, a) && Outcome(EMPTY_DB, a, []).Ok?
            && var db1 := Outcome(EMPTY_DB, a, []).value;
               Lists([], db1, w) && Outcome(db1, w, []).Ok?
               && var db2 := Outcome(db1, w, []).value;
                  Lists([RootId(file)], db2, b) && Outcome(db2, b, [RootId(file)]).Ok?
                  && var db3 := Outcome(db2, b, [RootId(file)]).value;
                     var deltas := RequestOf(db2, b, [RootId(file)]).deltas;
                     ChildId(file) in db2.nodes && ChildId(file) !in db3.nodes && !Mentions(deltas, ChildId(file))
                     && Patch(View(db2.nodes), deltas) != View(db3.nodes)
                     && Undo(View(db3.nodes), deltas) != View(db2.nodes)
  {
    var a, w, b := SectionOp(file, text, body, root, true), NoteOp(ChildId(file), note), LeafOp(other, u, root, true);
    var order := [RootId(file)];
    SectionCompiled(file, text, body, root, true);
    var db1 := Outcome(EMPTY_DB, a, []).value;
    BodyWritten(db1, file, text, body, note, root);
    var db2 := Outcome(db1, w, []).value;
    OtherFileScanned(db2, file, text, body, note, other, u, root);
    WrittenBodyVanishes(db1, file, text, body, note, b, db2);
  }

  // ----- a stale anchor -----

  /** A write to a position that the table no longer has succeeds, and leaves a table that does not fit its IDs. */
  lemma StaleAnchorBreaksFit(db: Db, id: NodeId, text: string)
    requires Inv(db) && id.Pos? && id.parent.Some? && id !in db.nodes
    requires !CursorUsed(db.snapshots, CursorHash(multiset{Live(id, HashOf(text))}))
    ensures Lists([], db, NoteOp(id, text)) && Outcome(db, NoteOp(id, text), []).Ok?
    ensures !Fits(Outcome(db, NoteOp(id, text), []).value.nodes)
  {
    var op := NoteOp(id, text);
    var n := FreshNote(id, text, "");
    NoteTree(db, id, text);
    WriteDeltas(db, op, []);
    ById1(n);
    var ds := ChangeOf(n, map[]);
    assert ds[1..] == [] && ApplyDeltas(db.nodes, ds, map[n.id := n]) == Upsert(db.nodes, n);
    WriteKeepsFitIff(db, op);
  }

  lemma PurgeOfSection(db: Db, file: string, text: string, body: string)
    requires RowsOf(db.nodes, file) == SectionState(file, text, body)
    ensures var order := [RootId(file), ChildId(file)];
            Lists(order, db, Purge({file})) && ScopeOf(db, Purge({file})) != WholeParse(TreeOf(db.nodes, Purge({file})))
            && Purged(RootId(file), HashOf(text)) in RequestOf(db, Purge({file}), order).cursor.pairs
  {
    var order := [RootId(file), ChildId(file)];
    var prev := ScopeOf(db, Purge({file}));
    assert prev == SectionState(file, text, body) && TreeOf(db.nodes, Purge({file})) == [];
    assert RootId(file) in order && ChildId(file) in order && RootId(file) in prev;
    var pairs := PurgedPairs(order, prev);
    assert pairs[0] == Purged(RootId(file), HashOf(text)) && pairs[0] in pairs;
  }

  lemma SectionPurged(db: Db, file: string, text: string, body: string)
    requires Inv(db) && RowsOf(db.nodes, file) == SectionState(file, text, body)
    requires forall c :: CursorUsed(db.snapshots, c) <==> c == SectionCursor(file, text, body)
    ensures var order := [RootId(file), ChildId(file)];
            Lists(order, db, Purge({file})) && Outcome(db, Purge({file}), order).Ok?
            && var after := Outcome(db, Purge({file}), order).value;
               Inv(after) && RowsOf(after.nodes, file) == map[]
               && forall note :: !CursorUsed(after.snapshots, CursorHash(multiset{Live(ChildId(file), HashOf(note))}))
  {
    var order := [RootId(file), ChildId(file)];
    var cursor := RequestOf(db, Purge({file}), order).cursor;
    PurgeOfSection(db, file, text, body);
    assert Purged(RootId(file), HashOf(text)) !in SectionCursor(file, text, body).pairs;
    Commits(db, Purge({file}), order);
    PurgeIsExact(db, {file}, order, file);
    forall note
      ensures CursorHash(multiset{Live(ChildId(file), HashOf(note))}) != SectionCursor(file, text, body)
      ensures CursorHash(multiset{Live(ChildId(file), HashOf(note))}) != cursor
    {
      SectionCursors(file, text, body, ChildId(file), note);
    }
  }

  /** From the empty store: a file compiled and purged, then a write to the ID its paragraph had. */
  lemma StaleAnchorHappens(file: string, text: string, body: string, note: string, root: string)
    requires root != ""
    ensures var a, p, w := SectionOp(file, text, body, root, false), Purge({file}), NoteOp(ChildId(file), note);
            var order := [RootId(file), ChildId(file)];
            Lists([], EMPTY_DB, a) && Outcome(EMPTY_DB, a, []).Ok?
            && var db1 := Outcome(EMPTY_DB, a, []).value;
               Lists(order, db1, p) && Outcome(db1, p, order).Ok?
               && var db2 := Outcome(db1, p, order).value;
                  Lists([], db2, w) && Outcome(db2, w, []).Ok? && !Fits(Outcome(db2, w, []).value.nodes)
  {
    SectionCompiled(file, text, body, root, false);
    var db1 := Outcome(EMPTY_DB, SectionOp(file, text, body, root, false), []).value;
    SectionPurged(db1, file, text, body);
    var db2 := Outcome(db1, Purge({file}), [RootId(file), ChildId(file)]).value;
    var id := ChildId(file);
    assert id in db2.nodes ==> id in RowsOf(db2.nodes, file);
    StaleAnchorBreaksFit(db2, id, note);
  }

  // ----- a file that is emptied -----

  lemma EmptyTree(nodes: NodeTable, file: string, text: string, root: string)
    ensures ParseOf(ById(TreeOf(nodes, CompileFiles([], root))), file) == map[] != LeafState(file, text)
  {
    assert TreeOf(nodes, CompileFiles([], root)) == [] && RootId(file) in LeafState(file, text);
  }

  lemma LeafFirst(file: string, text: string, root: string)
    requires root != ""
    ensures Lists([], EMPTY_DB, LeafOp(file, text, root, false))
    ensures Outcome(EMPTY_DB, LeafOp(file, text, root, false), []).Ok?
    ensures RowsOf(Outcome(EMPTY_DB, LeafOp(file, text, root, false), []).value.nodes, file) == LeafState(file, text)
  {
    EmptyInv();
    LeafScope(EMPTY_DB, file, text, root, false);
    assert RootId(file) in LeafState(file, text);
    LeafCommits(EMPTY_DB, file, text, root, false);
  }

  /** From the empty store: a file compiled, then compiled again with nothing left in it. Its rows stay. */
  lemma EmptiedFileStays(file: string, text: string, root: string)
    requires root != ""
    ensures var a, b := LeafOp(file, text, root, false), CompileFiles([], root);
            Lists([], EMPTY_DB, a) && Outcome(EMPTY_DB, a, []).Ok?
            && var db1 := Outcome(EMPTY_DB, a, []).value;
               Lists([], db1, b) && Outcome(db1, b, []) == Ok(db1)
               && RowsOf(db1.nodes, file) != map[] == ParseOf(ById(TreeOf(db1.nodes, b)), file)
  {
    LeafFirst(file, text, root);
    var db1 := Outcome(EMPTY_DB, LeafOp(file, text, root, false), []).value;
    NothingListed(db1, root);
    NothingEmitted(db1, [], root);
    EmptyTree(db1.nodes, file, text, root);
  }

  // ----- two files of one name -----

  lemma LeafPassed(dir: string, name: string, text: string)
    requires dir != "" && !HasSuffix(dir, "/")
    ensures Transformed([Leaf(dir + "/" + name, text, text)], dir) == [Leaf(name, text, Compressed(text))]
    ensures TrimPrefix(dir + "/" + name, PrefixOf(dir)) == name
  {
    var n := Leaf(dir + "/" + name, text, text);
    assert HasPrefix(n.source, dir + "/") && n.source[|dir + "/"|..] == name;
    assert PrefixFor([n], dir) == dir + "/";
    assert PassNodes([n], dir + "/") == [PassNode(n, dir + "/")] + PassNodes([n][1..], dir + "/");
    assert PassNode(n, dir + "/")
        == n.(source := name, content := Compressed(text), children := PassNodes([], dir + "/"));
  }

  lemma PassedTree(nodes: NodeTable, name: string, title: string, text: string, root: string)
    ensures var op := CompileFiles([Leaf(name, title, text)], root); var flat := TreeOf(nodes, op);
            WellParsedForest(op.forest) && IdsOf(flat) == {RootId(name)} && FilesOf(flat) == {name}
            && WholeParse(flat) == LeafState(name, text) == ParseOf(ById(flat), name)
            && CursorHashFlat(flat) == LeafCursor(name, text)
  {
    LeafForest(name, title, text);
    Flat1(LeafNode(name, title, text));
  }

  lemma PassedCommits(db: Db, name: string, title: string, text: string, root: string)
    requires Inv(db) && RowsOf(db.nodes, name).Keys <= {RootId(name)} && RowsOf(db.nodes, name) != LeafState(name, text)
    requires !CursorUsed(db.snapshots, LeafCursor(name, text))
    ensures var op := CompileFiles([Leaf(name, title, text)], root);
            Lists([], db, op) && Outcome(db, op, []).Ok?
            && var after := Outcome(db, op, []).value;
               Inv(after) && RowsOf(after.nodes, name) == LeafState(name, text)
               && forall c :: CursorUsed(after.snapshots, c) <==>
                    CursorUsed(db.snapshots, c) || c == LeafCursor(name, text)
  {
    var op := CompileFiles([Leaf(name, title, text)], root);
    PassedTree(db.nodes, name, title, text, root);
    CompileCommits(db, op, [], name);
  }

  /**
   Two files with one base name in two directories, each compiled alone, as `/r/a/x.md` and
   `/r/b/x.md`: both commit, and the first one's rows are then those of the second.
  */
  lemma SameNameReplaces(a: string, b: string, name: string, s: string, t: string)
    requires a != "" && b != "" && !HasSuffix(a, "/") && !HasSuffix(b, "/") && Compressed(s) != Compressed(t)
    ensures var opA := CompileFiles(Transformed([Leaf(a + "/" + name, s, s)], a), a);
            var opB := CompileFiles(Transformed([Leaf(b + "/" + name, t, t)], b), b);
            Lists([], EMPTY_DB, opA) && Outcome(EMPTY_DB, opA, []).Ok?
            && var db1 := Outcome(EMPTY_DB, opA, []).value;
               Lists([], db1, opB) && Outcome(db1, opB, []).Ok?
               && RowsOf(db1.nodes, name) == LeafState(name, Compressed(s))
               && RowsOf(Outcome(db1, opB, []).value.nodes, name) == LeafState(name, Compressed(t))
               && LeafState(name, Compressed(t)) != LeafState(name, Compressed(s))
  {
    LeafPassed(a, name, s);
    LeafPassed(b, name, t);
    OneNameTwice(a, b, name, s, Compressed(s), t, Compressed(t));
  }

  lemma OneNameTwice(a: string, b: string, name: string, s: string, x: string, t: string, y: string)
    requires x != y
    ensures var opA, opB := CompileFiles([Leaf(name, s, x)], a), CompileFiles([Leaf(name, t, y)], b);
            Lists([], EMPTY_DB, opA) && Outcome(EMPTY_DB, opA, []).Ok?
            && var db1 := Outcome(EMPTY_DB, opA, []).value;
               Lists([], db1, opB) && Outcome(db1, opB, []).Ok? && RowsOf(db1.nodes, name) == LeafState(name, x)
               && RowsOf(Outcome(db1, opB, []).value.nodes, name) == LeafState(name, y) != LeafState(name, x)
  {
    EmptyInv();
    DifferentCursors(RootId(name), x, y);
    assert RowsOf(EMPTY_DB.nodes, name) == map[] && RootId(name) in LeafState(name, x);
    PassedCommits(EMPTY_DB, name, s, x, a);
    PassedCommits(Outcome(EMPTY_DB, CompileFiles([Leaf(name, s, x)], a), []).value, name, t, y, b);
  }
}
