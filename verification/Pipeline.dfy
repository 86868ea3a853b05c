/** From what the parsers returned to what a compile wires: node by node, in source order. */
module Pipeline {
  import opened Wrappers
  import opened Ids
  import opened Ast
  import opened Compress
  import opened Strings
  import opened Passes
  import opened Transformer
  import opened Compiler

  // ----- what was parsed -----

  /** A parsed node, and the temperature that its file is seeded with. */
  datatype Origin = Origin(node: ParsedNode, seed: Option<real>)

  /** The nodes of a parsed forest, each before what is below it. */
  function Listed(nodes: seq<ParsedNode>): seq<ParsedNode> {
    if nodes == [] then [] else [nodes[0]] + Listed(nodes[0].children) + Listed(nodes[1..])
  }

  function Seeding(nodes: seq<ParsedNode>, seed: Option<real>): seq<Origin> {
    seq(|nodes|, i requires 0 <= i < |nodes| => Origin(nodes[i], seed))
  }

  /** All nodes of all files, file after file. */
  function Origins(files: seq<ParsedFile>): seq<Origin> {
    if files == [] then [] else Seeding(Listed(files[0].nodes), files[0].temp) + Origins(files[1..])
  }

  /** What is left of a file's name once `prefix` is cut off. */
  predicate NameIs(name: string, file: string, prefix: string) {
    if HasPrefix(file, prefix) then file == prefix + name else name == file
  }

  /** The wired node holds what was parsed, compressed, renamed and seeded. */
  predicate Carries(n: ContextNode, from: Origin, prefix: string) {
    n.kind == from.node.kind && n.title == from.node.title && n.depth == from.node.depth
    && n.content == Compressed(from.node.content) && n.hash == HashOf(n.content)
    && NameIs(n.source, from.node.source, prefix)
    && n.temp == (if from.seed.Some? then from.seed else from.node.temp)
  }

  ghost predicate CarryAll(flat: seq<ContextNode>, from: seq<Origin>, prefix: string) {
    |flat| == |from| && forall k | 0 <= k < |flat| :: Carries(flat[k], from[k], prefix)
  }

  lemma CarryConcat(a: seq<ContextNode>, b: seq<ContextNode>, from: seq<Origin>, more: seq<Origin>, prefix: string)
    requires CarryAll(a, from, prefix) && CarryAll(b, more, prefix)
    ensures CarryAll(a + b, from + more, prefix)
  {}

  // ----- tree by tree -----

  function SeedOne(n: ParsedNode, seed: Option<real>): ParsedNode {
    if seed.Some? then SeededNode(n, seed.value) else n
  }

  function SeedAll(nodes: seq<ParsedNode>, seed: Option<real>): seq<ParsedNode> {
    if seed.Some? then Seeded(nodes, seed.value) else nodes
  }

  lemma SeedingConcat(a: seq<ParsedNode>, b: seq<ParsedNode>, seed: Option<real>)
    ensures Seeding(a + b, seed) == Seeding(a, seed) + Seeding(b, seed)
  {}

  lemma ListedCons(n: ParsedNode, rest: seq<ParsedNode>, seed: Option<real>)
    ensures Seeding(Listed([n] + rest), seed)
         == [Origin(n, seed)] + Seeding(Listed(n.children), seed) + Seeding(Listed(rest), seed)
  {
    assert ([n] + rest)[1..] == rest;
    SeedingConcat([n] + Listed(n.children), Listed(rest), seed);
    SeedingConcat([n], Listed(n.children), seed);
  }

  lemma {:induction false} NodeCarries(
      n: ParsedNode, seed: Option<real>, prefix: string, parent: Option<NodeId>, index: nat)
    ensures var w := WireNode(PassNode(SeedOne(n, seed), prefix), parent, index);
            Carries(w, Origin(n, seed), prefix)
            && CarryAll(Flatten(w.children), Seeding(Listed(n.children), seed), prefix)
    decreases n
  {
    var w := WireNode(PassNode(SeedOne(n, seed), prefix), parent, index);
    ChildrenCarry(n.children, seed, prefix, w.id, 0);
    assert SeedOne(n, seed).children == SeedAll(n.children, seed);
  }

  lemma {:induction false} ChildrenCarry(
      nodes: seq<ParsedNode>, seed: Option<real>, prefix: string, parent: NodeId, index: nat)
    ensures CarryAll(Flatten(WireChildren(PassNodes(SeedAll(nodes, seed), prefix), parent, index)),
                     Seeding(Listed(nodes), seed), prefix)
    decreases nodes, 0
  {
    if nodes != [] {
      var n, rest := nodes[0], nodes[1..];
      NodeCarries(n, seed, prefix, Some(parent), index);
      ChildrenCarry(rest, seed, prefix, parent, index + 1);
      var w := WireNode(PassNode(SeedOne(n, seed), prefix), Some(parent), index);
      var tail := WireChildren(PassNodes(SeedAll(rest, seed), prefix), parent, index + 1);
      FirstSeeded(nodes, seed, prefix);
      assert WireChildren(PassNodes(SeedAll(nodes, seed), prefix), parent, index) == [w] + tail;
      TreeThenRest(n, seed, w, tail, Seeding(Listed(rest), seed), prefix);
      assert nodes == [n] + rest;
      ListedCons(n, rest, seed);
    }
  }

  lemma FirstSeeded(nodes: seq<ParsedNode>, seed: Option<real>, prefix: string)
    requires nodes != []
    ensures SeedAll(nodes, seed) == [SeedOne(nodes[0], seed)] + SeedAll(nodes[1..], seed)
    ensures PassNodes(SeedAll(nodes, seed), prefix)
         == [PassNode(SeedOne(nodes[0], seed), prefix)] + PassNodes(SeedAll(nodes[1..], seed), prefix)
  {
    assert nodes == [nodes[0]] + nodes[1..];
    assert SeedAll(nodes, seed)[1..] == SeedAll(nodes[1..], seed);
  }

  lemma TreeThenRest(n: ParsedNode, seed: Option<real>, w: ContextNode, tail: seq<ContextNode>,
                     more: seq<Origin>, prefix: string)
    requires Carries(w, Origin(n, seed), prefix) && CarryAll(Flatten(tail), more, prefix)
    requires CarryAll(Flatten(w.children), Seeding(Listed(n.children), seed), prefix)
    ensures CarryAll(Flatten([w] + tail), [Origin(n, seed)] + Seeding(Listed(n.children), seed) + more, prefix)
  {
    FlattenCons(w, tail);
    CarryConcat([w], Flatten(w.children), [Origin(n, seed)], Seeding(Listed(n.children), seed), prefix);
    CarryConcat([w] + Flatten(w.children), Flatten(tail), [Origin(n, seed)] + Seeding(Listed(n.children), seed), more,
                prefix);
  }

  // ----- file by file -----

  /** The roots of all files, each with its file's temperature. */
  function RootOrigins(files: seq<ParsedFile>): seq<Origin> {
    if files == [] then [] else Seeding(files[0].nodes, files[0].temp) + RootOrigins(files[1..])
  }

  function SeedEach(roots: seq<Origin>): seq<ParsedNode> {
    seq(|roots|, i requires 0 <= i < |roots| => SeedOne(roots[i].node, roots[i].seed))
  }

  function ListEach(roots: seq<Origin>): seq<Origin> {
    if roots == [] then []
    else [roots[0]] + Seeding(Listed(roots[0].node.children), roots[0].seed) + ListEach(roots[1..])
  }

  lemma {:induction false} SeedAllAt(nodes: seq<ParsedNode>, seed: Option<real>)
    ensures SeedAll(nodes, seed) == SeedEach(Seeding(nodes, seed))
  {
    if nodes != [] {
      SeedAllAt(nodes[1..], seed);
      FirstSeeded(nodes, seed, "");
    }
  }

  lemma {:induction false} ForestIsSeeded(files: seq<ParsedFile>)
    ensures ForestOf(files) == SeedEach(RootOrigins(files))
  {
    if files != [] {
      SeedAllAt(files[0].nodes, files[0].temp);
      ForestIsSeeded(files[1..]);
    }
  }

  lemma {:induction false} ListEachConcat(a: seq<Origin>, b: seq<Origin>)
    ensures ListEach(a + b) == ListEach(a) + ListEach(b)
  {
    if a == [] {
      assert a + b == b;
    } else {
      assert (a + b)[1..] == a[1..] + b;
      ListEachConcat(a[1..], b);
      var own := [a[0]] + Seeding(Listed(a[0].node.children), a[0].seed);
      assert own + (ListEach(a[1..]) + ListEach(b)) == own + ListEach(a[1..]) + ListEach(b);
    }
  }

  lemma {:induction false} ListOneFile(nodes: seq<ParsedNode>, seed: Option<real>)
    ensures ListEach(Seeding(nodes, seed)) == Seeding(Listed(nodes), seed)
  {
    if nodes != [] {
      var n, rest := nodes[0], nodes[1..];
      assert nodes == [n] + rest && Seeding(nodes, seed)[1..] == Seeding(rest, seed);
      ListedCons(n, rest, seed);
      ListOneFile(rest, seed);
    }
  }

  lemma {:induction false} OriginsAreListed(files: seq<ParsedFile>)
    ensures ListEach(RootOrigins(files)) == Origins(files)
  {
    if files != [] {
      OriginsAreListed(files[1..]);
      ListOneFile(files[0].nodes, files[0].temp);
      ListEachConcat(Seeding(files[0].nodes, files[0].temp), RootOrigins(files[1..]));
    }
  }

  lemma {:induction false} RootsCarry(roots: seq<Origin>, prefix: string, perFile: map<string, nat>)
    ensures CarryAll(Flatten(WireRoots(PassNodes(SeedEach(roots), prefix), perFile)), ListEach(roots), prefix)
    decreases |roots|
  {
    if roots != [] {
      var first, rest := roots[0], roots[1..];
      var passed := PassNode(SeedOne(first.node, first.seed), prefix);
      var i := Next(perFile, passed.source);
      assert SeedEach(roots)[1..] == SeedEach(rest);
      assert PassNodes(SeedEach(roots), prefix) == [passed] + PassNodes(SeedEach(rest), prefix);
      NodeCarries(first.node, first.seed, prefix, None, i);
      RootsCarry(rest, prefix, perFile[passed.source := i + 1]);
      var tail := WireRoots(PassNodes(SeedEach(rest), prefix), perFile[passed.source := i + 1]);
      TreeThenRest(first.node, first.seed, WireNode(passed, None, i), tail, ListEach(rest), prefix);
    }
  }

  /**
   What a compile wires is what was parsed, all of it and nothing else: the k-th node of the
   flattened forest carries the k-th node of the files, read in path order and each node before
   what is below it, with its text compressed, the prefix cut off its file's name, and its
   file's temperature if the file has one.
  */
  lemma CompileCarriesParse(results: seq<Option<ParsedFile>>, files: seq<ParsedFile>, root: string)
    requires |results| == |files| && forall i | 0 <= i < |files| :: results[i] == Some(files[i])
    ensures var flat := Flatten(Enrich(ForestAt(AllRead(results), root)));
            var prefix := PrefixFor(ForestOf(files), root);
            |flat| == |Origins(files)| && forall k | 0 <= k < |flat| :: Carries(flat[k], Origins(files)[k], prefix)
  {
    assert AllRead(results) == files;
    ForestIsSeeded(files);
    OriginsAreListed(files);
    RootsCarry(RootOrigins(files), PrefixFor(ForestOf(files), root), map[]);
  }

  // ----- what the prefix is -----

  /** A directory of the file, with the slash behind it. */
  predicate IsDirOf(dir: string, file: string) {
    HasSuffix(dir, "/") && HasPrefix(file, dir)
  }

  lemma {:induction false} SplitOfDir(dir: string, name: string)
    ensures SplitOn(dir + "/" + name, '/') == SplitOn(dir, '/') + SplitOn(name, '/')
  {
    SplitConcat(dir, name, '/');
  }

  /** A directory of a file lists the first of the parts that the file's own directory has. */
  lemma DirIsParts(dir: string, file: string)
    requires IsDirOf(dir, file)
    ensures SplitOn(dir[..|dir| - 1], '/') <= DirParts(file)
  {
    var d, name := dir[..|dir| - 1], file[|dir|..];
    assert dir == d + "/" && file == d + "/" + name;
    SplitOfDir(d, name);
    var parts := SplitOn(file, '/');
    assert parts[..|SplitOn(d, '/')|] == SplitOn(d, '/');
  }

  lemma {:induction false} CommonIsLongest(a: seq<string>, b: seq<string>, c: seq<string>)
    requires c <= a && c <= b
    ensures c <= Common(a, b)
  {
    if c != [] {
      assert c[0] == a[0] == b[0];
      CommonIsLongest(a[1..], b[1..], c[1..]);
    }
  }

  lemma {:induction false} CommonOfAllIsLongest(paths: seq<string>, c: seq<string>)
    requires paths != [] && forall p | p in paths :: c <= DirParts(p)
    ensures c <= CommonOfAll(paths)
    decreases |paths|
  {
    var last := paths[|paths| - 1];
    assert last in paths;
    if |paths| > 1 {
      var init := paths[..|paths| - 1];
      assert forall p | p in init :: p in paths;
      CommonOfAllIsLongest(init, c);
      CommonIsLongest(CommonOfAll(init), DirParts(last), c);
    }
  }

  /**
   With a compile root the root's directory is cut off. Without one it is the longest directory
   that all files are in; a directory of nothing but a slash or a dot is never cut off.
  */
  lemma PrefixIs(forest: seq<ParsedNode>, root: string, dir: string)
    ensures var prefix := PrefixFor(forest, root);
            if root != "" then prefix == if HasSuffix(root, "/") then root else root + "/"
            else if forest == [] then prefix == ""
            else (forall n | n in forest :: HasPrefix(n.source, prefix)) && (prefix == "" || HasSuffix(prefix, "/"))
                 && ((forall n | n in forest :: IsDirOf(dir, n.source)) ==>
                       HasPrefix(prefix, dir) || dir in {"/", "./", "//"})
  {
    if root == "" && forest != [] {
      var paths := seq(|forest|, i requires 0 <= i < |forest| => forest[i].source);
      forall n | n in forest
        ensures n.source in paths
      {
        var i :| 0 <= i < |forest| && forest[i] == n;
        assert paths[i] == n.source;
      }
      forall p | p in paths
        ensures HasPrefix(p, PrefixFor(forest, root))
      {
        PrefixOfText(paths, p);
      }
      if forall n | n in forest :: IsDirOf(dir, n.source) {
        forall p | p in paths
          ensures IsDirOf(dir, p)
        {
          var i :| 0 <= i < |paths| && paths[i] == p;
          assert forest[i] in forest;
        }
        CommonIsDeepest(paths, dir);
      }
    }
  }

  lemma CommonIsDeepest(paths: seq<string>, dir: string)
    requires paths != [] && forall p | p in paths :: IsDirOf(dir, p)
    ensures HasPrefix(AsPrefix(CommonOfAll(paths)), dir) || dir in {"/", "./", "//"}
  {
    assert paths[0] in paths;
    forall p | p in paths
      ensures SplitOn(dir[..|dir| - 1], '/') <= DirParts(p)
    {
      DirIsParts(dir, p);
    }
    CommonOfAllIsLongest(paths, SplitOn(dir[..|dir| - 1], '/'));
    LongerPrefix(dir, CommonOfAll(paths));
  }

  lemma LongerPrefix(dir: string, common: seq<string>)
    requires HasSuffix(dir, "/") && SplitOn(dir[..|dir| - 1], '/') <= common
    ensures HasPrefix(AsPrefix(common), dir) || dir in {"/", "./", "//"}
  {
    var d := dir[..|dir| - 1];
    var parts := SplitOn(d, '/');
    JoinOfSplit(d, '/');
    assert dir == d + "/";
    if parts == common {
      assert JoinOn(common, '/') == d;
      if d in {"", ".", "/"} {
        assert dir == "/" || dir == "./" || dir == "//";
      } else {
        assert AsPrefix(common) == dir;
      }
    } else {
      JoinOfFewer(parts, common, '/');
      var whole := JoinOn(common, '/');
      assert dir <= whole;
      if whole in {"", ".", "/"} {
        assert dir[|dir| - 1] == whole[|dir| - 1] == '/';
      } else {
        assert AsPrefix(common) == whole + "/";
      }
    }
  }

  // ----- positions -----

  /** The earlier roots of the same file. */
  function EarlierRoots(nodes: seq<ParsedNode>, j: nat): set<nat>
    requires j < |nodes|
  {
    set i: nat | i < j && nodes[i].source == nodes[j].source
  }

  /** The j-th child of a node is numbered j below it. */
  lemma {:induction false} ChildPosition(nodes: seq<ParsedNode>, parent: NodeId, index: nat, j: nat)
    requires j < |nodes|
    ensures |WireChildren(nodes, parent, index)| == |nodes|
    ensures var c := WireChildren(nodes, parent, index)[j];
            c.id == Pos(nodes[j].source, Some(parent), index + j) && c.parentId == Some(parent)
    decreases |nodes|
  {
    if j > 0 {
      ChildPosition(nodes[1..], parent, index + 1, j - 1);
    } else if |nodes| > 1 {
      ChildPosition(nodes[1..], parent, index + 1, 0);
    }
  }

  /** A root is numbered by the roots of its own file before it. */
  lemma RootPosition(nodes: seq<ParsedNode>, j: nat)
    requires j < |nodes|
    ensures |Enrich(nodes)| == |nodes|
    ensures var r := Enrich(nodes)[j];
            r.id == Pos(nodes[j].source, None, |EarlierRoots(nodes, j)|) && r.parentId == None
  {
    RootFrom(nodes, map[], j);
  }

  lemma {:induction false} RootFrom(nodes: seq<ParsedNode>, perFile: map<string, nat>, j: nat)
    requires j < |nodes|
    ensures |WireRoots(nodes, perFile)| == |nodes|
    ensures var r := WireRoots(nodes, perFile)[j];
            r.id == Pos(nodes[j].source, None, Next(perFile, nodes[j].source) + |EarlierRoots(nodes, j)|)
            && r.parentId == None
    decreases |nodes|
  {
    var later := perFile[nodes[0].source := Next(perFile, nodes[0].source) + 1];
    if j > 0 {
      RootFrom(nodes[1..], later, j - 1);
      CountFirst(nodes, j);
    } else {
      assert EarlierRoots(nodes, 0) == {};
      if |nodes| > 1 {
        RootFrom(nodes[1..], later, 0);
      }
    }
  }

  lemma CountFirst(nodes: seq<ParsedNode>, j: nat)
    requires 0 < j < |nodes|
    ensures |EarlierRoots(nodes, j)|
         == |EarlierRoots(nodes[1..], j - 1)| + if nodes[0].source == nodes[j].source then 1 else 0
  {
    var rest := EarlierRoots(nodes[1..], j - 1);
    var shifted := Shifted(rest);
    ShiftKeepsSize(rest);
    forall i: nat
      ensures i in EarlierRoots(nodes, j) <==> i in shifted || (i == 0 && nodes[0].source == nodes[j].source)
    {
      if 0 < i < j {
        assert nodes[1..][i - 1] == nodes[i];
        assert i - 1 in rest <==> i in EarlierRoots(nodes, j);
      }
    }
    assert EarlierRoots(nodes, j) == shifted + if nodes[0].source == nodes[j].source then {0} else {};
  }

  function Shifted(s: set<nat>): set<nat> {
    set i | i in s :: i + 1
  }

  lemma {:induction false} ShiftKeepsSize(s: set<nat>)
    ensures |Shifted(s)| == |s|
    decreases s
  {
    if s != {} {
      var x :| x in s;
      ShiftKeepsSize(s - {x});
      forall y
        ensures y in Shifted(s) <==> y == x + 1 || y in Shifted(s - {x})
      {
        if y == x + 1 {
          assert x in s;
        } else if y in Shifted(s) {
          assert y - 1 in s - {x};
        }
      }
      assert Shifted(s) == Shifted(s - {x}) + {x + 1} && x + 1 !in Shifted(s - {x});
    }
  }
}
