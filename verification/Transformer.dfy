/** Identity wiring: IDs from file, parent and sibling position. */
module Transformer {
  import opened Wrappers
  import opened Ids
  import opened Ast

  function Next(perFile: map<string, nat>, source: string): nat {
    if source in perFile then perFile[source] else 0
  }

  function WireNode(n: ParsedNode, parent: Option<NodeId>, index: nat): ContextNode
    decreases n
  {
    var id := Pos(n.source, parent, index);
    ContextNode(id, parent, n.source, n.kind, n.depth, n.title, n.content, HashOf(n.content), n.temp,
                WireChildren(n.children, id, 0))
  }

  function WireChildren(nodes: seq<ParsedNode>, parent: NodeId, index: nat): seq<ContextNode>
    decreases nodes, 0
  {
    if nodes == [] then []
    else [WireNode(nodes[0], Some(parent), index)] + WireChildren(nodes[1..], parent, index + 1)
  }

  /** Roots are numbered per file, so that files compiled together do not shift each other. */
  function WireRoots(nodes: seq<ParsedNode>, perFile: map<string, nat>): seq<ContextNode> {
    if nodes == [] then []
    else
      var i := Next(perFile, nodes[0].source);
      [WireNode(nodes[0], None, i)] + WireRoots(nodes[1..], perFile[nodes[0].source := i + 1])
  }

  function Enrich(forest: seq<ParsedNode>): seq<ContextNode> {
    WireRoots(forest, map[])
  }

  lemma NextRoot(nodes: seq<ParsedNode>, perFile: map<string, nat>, i: nat)
    requires i < |nodes|
    ensures var k := Next(perFile, nodes[i].source);
            WireRoots(nodes[i..], perFile)
            == [WireNode(nodes[i], None, k)] + WireRoots(nodes[i + 1..], perFile[nodes[i].source := k + 1])
  {
    assert nodes[i..][0] == nodes[i] && nodes[i..][1..] == nodes[i + 1..];
  }

  lemma NextChild(nodes: seq<ParsedNode>, parent: NodeId, i: nat)
    requires i < |nodes|
    ensures WireChildren(nodes[i..], parent, i)
         == [WireNode(nodes[i], Some(parent), i)] + WireChildren(nodes[i + 1..], parent, i + 1)
  {
    assert nodes[i..][0] == nodes[i] && nodes[i..][1..] == nodes[i + 1..];
  }

  lemma MoveNode(a: seq<ContextNode>, n: ContextNode, b: seq<ContextNode>)
    ensures a + ([n] + b) == (a + [n]) + b
  {}

  method WireIdentity(nodes: seq<ParsedNode>, parent: Option<NodeId>) returns (wired: seq<ContextNode>)
    ensures wired == if parent.None? then Enrich(nodes) else WireChildren(nodes, parent.value, 0)
    decreases nodes, 1
  {
    wired := [];
    if parent.None? {
      var perFile: map<string, nat> := map[];
      for i := 0 to |nodes|
        invariant wired + WireRoots(nodes[i..], perFile) == Enrich(nodes)
      {
        var n := nodes[i];
        NextRoot(nodes, perFile, i);
        var k := Next(perFile, n.source);
        perFile := perFile[n.source := k + 1];
        var w := SetIdentity(n, None, k);
        MoveNode(wired, w, WireRoots(nodes[i + 1..], perFile));
        wired := wired + [w];
      }
    } else {
      for i := 0 to |nodes|
        invariant wired + WireChildren(nodes[i..], parent.value, i) == WireChildren(nodes, parent.value, 0)
      {
        NextChild(nodes, parent.value, i);
        var w := SetIdentity(nodes[i], parent, i);
        MoveNode(wired, w, WireChildren(nodes[i + 1..], parent.value, i + 1));
        wired := wired + [w];
      }
    }
  }

  method SetIdentity(n: ParsedNode, parent: Option<NodeId>, index: nat) returns (w: ContextNode)
    ensures w == WireNode(n, parent, index)
    decreases n, 2
  {
    var id := Pos(n.source, parent, index);
    var children := WireIdentity(n.children, Some(id));
    w := ContextNode(id, parent, n.source, n.kind, n.depth, n.title, n.content, HashOf(n.content), n.temp, children);
  }

  // ----- the wired forest is placed, distinct and parent-first -----

  /** The index of the ancestor of `id` that hangs directly under `parent`. */
  function Slot(id: NodeId, parent: Option<NodeId>): nat {
    match id
    case Pos(_, p, i) => if p == parent then i else if p.Some? then Slot(p.value, parent) else 0
    case _ => 0
  }

  /** What holds of the subtrees wired under one parent from slot `low` on. */
  ghost predicate Branch(flat: seq<ContextNode>, parent: NodeId, low: nat) {
    DistinctIds(flat)
    && forall n | n in flat ::
         Placed(n) && n.id != parent && Below(n.id, parent) && n.source == SourceOf(parent)
         && low <= Slot(n.id, Some(parent))
  }

  lemma {:induction false} SlotOfDescendant(id: NodeId, mid: NodeId, parent: NodeId)
    requires Below(id, mid) && ParentOf(mid) == Some(parent)
    ensures Slot(id, Some(parent)) == mid.index
    ensures Below(id, parent) && id != parent
  {
    BelowIsDeeper(id, mid);
    if id == mid {
      assert Below(parent, parent);
    } else {
      var p := ParentOf(id).value;
      SlotOfDescendant(p, mid, parent);
      if p == parent {
        BelowIsDeeper(p, mid);
      }
    }
  }

  lemma {:induction false} NodeIsWired(n: ParsedNode, parent: Option<NodeId>, index: nat, depth: nat)
    requires WellParsed(n, n.source, depth)
    requires parent.None? ==> depth == 1
    requires parent.Some? ==> parent.value.Pos? && WellPlaced(parent.value)
    requires parent.Some? ==> parent.value.source == n.source && depth == DepthOf(parent.value) + 1
    ensures var w := WireNode(n, parent, index);
            Placed(w) && Branch(Flatten(w.children), w.id, 0) && ParentsKnown(Flatten(w.children), {w.id})
    decreases n
  {
    var id := Pos(n.source, parent, index);
    ChildrenAreWired(n.children, id, 0, depth + 1);
  }

  lemma {:induction false} ChildrenAreWired(nodes: seq<ParsedNode>, parent: NodeId, low: nat, depth: nat)
    requires parent.Pos? && WellPlaced(parent) && depth == DepthOf(parent) + 1
    requires forall n | n in nodes :: WellParsed(n, parent.source, depth)
    ensures var flat := Flatten(WireChildren(nodes, parent, low));
            Branch(flat, parent, low) && ParentsKnown(flat, {parent})
    decreases nodes, 0
  {
    if nodes != [] {
      var n, rest := nodes[0], nodes[1..];
      assert n in nodes && forall m | m in rest :: m in nodes;
      NodeIsWired(n, Some(parent), low, depth);
      ChildrenAreWired(rest, parent, low + 1, depth);
      var w, tail := WireNode(n, Some(parent), low), WireChildren(rest, parent, low + 1);
      FlattenCons(w, tail);
      JoinBranches(w, Flatten(w.children), Flatten(tail), parent);
    }
  }

  /** A subtree at slot `w.id.index` followed by the later slots of the same parent. */
  lemma JoinBranches(w: ContextNode, own: seq<ContextNode>, others: seq<ContextNode>, parent: NodeId)
    requires Placed(w) && w.parentId == Some(parent) && Branch(own, w.id, 0) && ParentsKnown(own, {w.id})
    requires Branch(others, parent, w.id.index + 1) && ParentsKnown(others, {parent})
    ensures Branch([w] + own + others, parent, w.id.index) && ParentsKnown([w] + own + others, {parent})
  {
    SubtreeSlots(w, own, parent);
    DistinctConcat([w] + own, others);
    assert ([w] + own)[1..] == own;
    ParentsKnownMonotone(own, {w.id}, {parent} + {w.id});
    ParentsKnownMonotone(others, {parent}, {parent} + IdsOf([w] + own));
    ParentsKnownConcat([w] + own, others, {parent});
  }

  lemma SubtreeSlots(w: ContextNode, own: seq<ContextNode>, parent: NodeId)
    requires Placed(w) && w.parentId == Some(parent) && Branch(own, w.id, 0)
    ensures forall a | a in [w] + own :: Slot(a.id, Some(parent)) == w.id.index
                                      && Below(a.id, parent) && a.id != parent
    ensures DistinctIds([w] + own)
  {
    forall a | a in [w] + own
      ensures Slot(a.id, Some(parent)) == w.id.index && Below(a.id, parent) && a.id != parent
    {
      SlotOfDescendant(a.id, w.id, parent);
    }
  }

  lemma {:induction false} RootSlot(id: NodeId, root: NodeId)
    requires Below(id, root) && root.Pos? && root.parent.None?
    ensures Slot(id, None) == root.index
  {
    if id != root {
      RootSlot(ParentOf(id).value, root);
    }
  }

  lemma {:induction false} RootsAreWired(nodes: seq<ParsedNode>, perFile: map<string, nat>)
    requires WellParsedForest(nodes)
    ensures var flat := Flatten(WireRoots(nodes, perFile));
            Wired(flat) && forall n | n in flat :: Next(perFile, n.source) <= Slot(n.id, None)
    decreases |nodes|
  {
    if nodes != [] {
      var n, rest := nodes[0], nodes[1..];
      assert n in nodes && forall m | m in rest :: m in nodes;
      var i := Next(perFile, n.source);
      var later := perFile[n.source := i + 1];
      NodeIsWired(n, None, i, 1);
      RootsAreWired(rest, later);
      var w, tail := WireNode(n, None, i), WireRoots(rest, later);
      assert WireRoots(nodes, perFile) == [w] + tail;
      FlattenCons(w, tail);
      JoinRoots(w, Flatten(w.children), Flatten(tail), perFile);
    }
  }

  lemma JoinRoots(w: ContextNode, own: seq<ContextNode>, others: seq<ContextNode>, perFile: map<string, nat>)
    requires Placed(w) && w.parentId == None && Branch(own, w.id, 0) && ParentsKnown(own, {w.id})
    requires w.id.Pos? && w.id.index == Next(perFile, w.source)
    requires Wired(others)
    requires forall n | n in others :: Next(perFile[w.source := w.id.index + 1], n.source) <= Slot(n.id, None)
    ensures Wired([w] + own + others)
    ensures forall n | n in [w] + own + others :: Next(perFile, n.source) <= Slot(n.id, None)
  {
    forall a | a in [w] + own
      ensures Placed(a) && a.source == w.source && Slot(a.id, None) == w.id.index
    {
      RootSlot(a.id, w.id);
    }
    forall n | n in others
      ensures Next(perFile, n.source) <= Slot(n.id, None)
      ensures n.source == w.source ==> w.id.index < Slot(n.id, None)
    {
      assert Next(perFile[w.source := w.id.index + 1], n.source) <= Slot(n.id, None);
    }
    DistinctConcat([w], own);
    forall a, b | a in [w] + own && b in others
      ensures a.id != b.id
    {
      assert a.id == b.id ==> a.source == b.source;
    }
    DistinctConcat([w] + own, others);
    assert ([w] + own)[1..] == own;
    ParentsKnownMonotone(own, {w.id}, {} + {w.id});
    ParentsKnownMonotone(others, {}, {} + IdsOf([w] + own));
    ParentsKnownConcat([w] + own, others, {});
  }

  /** IDs over the whole forest are pairwise distinct, parents come first, and every derived field matches its ID. */
  lemma EnrichIsWired(forest: seq<ParsedNode>)
    requires WellParsedForest(forest)
    ensures Wired(Flatten(Enrich(forest)))
  {
    RootsAreWired(forest, map[]);
  }

  // ----- a file's IDs do not depend on what it is compiled with -----

  function OnlyParsed(nodes: seq<ParsedNode>, source: string): seq<ParsedNode> {
    if nodes == [] then []
    else (if nodes[0].source == source then [nodes[0]] else []) + OnlyParsed(nodes[1..], source)
  }

  function OnlyFlat(flat: seq<ContextNode>, source: string): seq<ContextNode> {
    if flat == [] then []
    else (if flat[0].source == source then [flat[0]] else []) + OnlyFlat(flat[1..], source)
  }

  lemma {:induction false} OnlyFlatConcat(a: seq<ContextNode>, b: seq<ContextNode>, source: string)
    ensures OnlyFlat(a + b, source) == OnlyFlat(a, source) + OnlyFlat(b, source)
  {
    if a == [] {
      assert a + b == b;
    } else {
      OnlyFlatConcat(a[1..], b, source);
      OnlyFlatCons(a[0], a[1..], source);
      OnlyFlatCons(a[0], a[1..] + b, source);
      assert a == [a[0]] + a[1..] && a + b == [a[0]] + (a[1..] + b);
    }
  }

  lemma OnlyFlatCons(n: ContextNode, rest: seq<ContextNode>, source: string)
    ensures OnlyFlat([n] + rest, source) == (if n.source == source then [n] else []) + OnlyFlat(rest, source)
  {
    assert ([n] + rest)[1..] == rest;
  }

  lemma {:induction false} OnlyFlatUniform(flat: seq<ContextNode>, from: string, source: string)
    requires forall n | n in flat :: n.source == from
    ensures OnlyFlat(flat, source) == if from == source then flat else []
  {
    if flat != [] {
      assert flat[0] in flat && forall n | n in flat[1..] :: n in flat;
      OnlyFlatUniform(flat[1..], from, source);
    }
  }

  lemma FilterOneTree(n: ParsedNode, index: nat, tail: seq<ContextNode>, source: string)
    requires WellParsed(n, n.source, 1)
    ensures var w := WireNode(n, None, index);
            OnlyFlat(Flatten([w] + tail), source)
            == (if n.source == source then [w] + Flatten(w.children) else []) + OnlyFlat(Flatten(tail), source)
  {
    var w := WireNode(n, None, index);
    NodeIsWired(n, None, index, 1);
    FlattenCons(w, tail);
    var own := [w] + Flatten(w.children);
    OnlyFlatConcat(own, Flatten(tail), source);
    OnlyFlatUniform(own, n.source, source);
  }

  lemma KeepOneTree(n: ParsedNode, rest: seq<ParsedNode>, perFile: map<string, nat>)
    ensures var i := Next(perFile, n.source); var w := WireNode(n, None, i);
            Flatten(WireRoots([n] + rest, perFile))
            == [w] + Flatten(w.children) + Flatten(WireRoots(rest, perFile[n.source := i + 1]))
  {
    var i := Next(perFile, n.source);
    assert ([n] + rest)[1..] == rest;
    FlattenCons(WireNode(n, None, i), WireRoots(rest, perFile[n.source := i + 1]));
  }

  lemma FilterFirst(forest: seq<ParsedNode>, source: string, perFile: map<string, nat>)
    requires forest != [] && WellParsed(forest[0], forest[0].source, 1)
    ensures var i := Next(perFile, forest[0].source); var w := WireNode(forest[0], None, i);
            OnlyFlat(Flatten(WireRoots(forest, perFile)), source)
            == (if forest[0].source == source then [w] + Flatten(w.children) else [])
               + OnlyFlat(Flatten(WireRoots(forest[1..], perFile[forest[0].source := i + 1])), source)
  {
    var i := Next(perFile, forest[0].source);
    FilterOneTree(forest[0], i, WireRoots(forest[1..], perFile[forest[0].source := i + 1]), source);
  }

  lemma KeepFirst(forest: seq<ParsedNode>, source: string, alone: map<string, nat>)
    requires forest != []
    ensures var i := Next(alone, source); var w := WireNode(forest[0], None, i);
            var kept := OnlyParsed(forest[1..], source);
            Flatten(WireRoots(OnlyParsed(forest, source), alone))
            == if forest[0].source == source
               then [w] + Flatten(w.children) + Flatten(WireRoots(kept, alone[source := i + 1]))
               else Flatten(WireRoots(kept, alone))
  {
    var kept := OnlyParsed(forest[1..], source);
    if forest[0].source == source {
      assert OnlyParsed(forest, source) == [forest[0]] + kept;
      KeepOneTree(forest[0], kept, alone);
    } else {
      assert OnlyParsed(forest, source) == kept;
    }
  }

  /** The counters once the first root is numbered. */
  function Counted(counts: map<string, nat>, source: string): map<string, nat> {
    counts[source := Next(counts, source) + 1]
  }

  /** The file's nodes, picked from the joint wiring, are those of wiring the file alone. */
  ghost predicate Independent(
      forest: seq<ParsedNode>, source: string, perFile: map<string, nat>, alone: map<string, nat>)
  {
    OnlyFlat(Flatten(WireRoots(forest, perFile)), source) == Flatten(WireRoots(OnlyParsed(forest, source), alone))
  }

  lemma OwnRootFirst(forest: seq<ParsedNode>, source: string, perFile: map<string, nat>, alone: map<string, nat>)
    requires forest != [] && WellParsed(forest[0], source, 1) && Next(perFile, source) == Next(alone, source)
    requires Independent(forest[1..], source, Counted(perFile, source), Counted(alone, source))
    ensures Independent(forest, source, perFile, alone)
  {
    FilterFirst(forest, source, perFile);
    KeepFirst(forest, source, alone);
  }

  lemma OtherRootFirst(forest: seq<ParsedNode>, source: string, perFile: map<string, nat>, alone: map<string, nat>)
    requires forest != [] && WellParsed(forest[0], forest[0].source, 1) && forest[0].source != source
    requires Independent(forest[1..], source, Counted(perFile, forest[0].source), alone)
    ensures Independent(forest, source, perFile, alone)
  {
    FilterFirst(forest, source, perFile);
    KeepFirst(forest, source, alone);
  }

  /**
   Filtering the wired forest to one file gives exactly what wiring that file alone gives:
   identities do not depend on the other files, nor on how their roots are interleaved.
  */
  lemma {:induction false} FileIdsAreIndependent(
      forest: seq<ParsedNode>, source: string, perFile: map<string, nat>, alone: map<string, nat>)
    requires WellParsedForest(forest) && Next(perFile, source) == Next(alone, source)
    ensures OnlyFlat(Flatten(WireRoots(forest, perFile)), source)
         == Flatten(WireRoots(OnlyParsed(forest, source), alone))
    decreases |forest|
  {
    if forest != [] {
      var n, rest := forest[0], forest[1..];
      assert n in forest && forall m | m in rest :: m in forest;
      if n.source == source {
        FileIdsAreIndependent(rest, source, Counted(perFile, source), Counted(alone, source));
        OwnRootFirst(forest, source, perFile, alone);
      } else {
        FileIdsAreIndependent(rest, source, Counted(perFile, n.source), alone);
        OtherRootFirst(forest, source, perFile, alone);
      }
    }
  }

  // ----- nor on any content -----

  predicate SameShape(a: ParsedNode, b: ParsedNode) {
    a.source == b.source && SameShapes(a.children, b.children)
  }

  predicate SameShapes(a: seq<ParsedNode>, b: seq<ParsedNode>)
    decreases a, 0
  {
    if a == [] || b == [] then a == b == []
    else SameShape(a[0], b[0]) && SameShapes(a[1..], b[1..])
  }

  function IdSeq(flat: seq<ContextNode>): seq<NodeId> {
    seq(|flat|, i requires 0 <= i < |flat| => flat[i].id)
  }

  lemma {:induction false} NodeIdsIgnoreContent(a: ParsedNode, b: ParsedNode, parent: Option<NodeId>, index: nat)
    requires SameShape(a, b)
    ensures var wa, wb := WireNode(a, parent, index), WireNode(b, parent, index);
            wa.id == wb.id && IdSeq(Flatten(wa.children)) == IdSeq(Flatten(wb.children))
    decreases a
  {
    ChildIdsIgnoreContent(a.children, b.children, Pos(a.source, parent, index), 0);
  }

  lemma {:induction false} ChildIdsIgnoreContent(a: seq<ParsedNode>, b: seq<ParsedNode>, parent: NodeId, index: nat)
    requires SameShapes(a, b)
    ensures IdSeq(Flatten(WireChildren(a, parent, index))) == IdSeq(Flatten(WireChildren(b, parent, index)))
    decreases a, 0
  {
    if a != [] {
      NodeIdsIgnoreContent(a[0], b[0], Some(parent), index);
      ChildIdsIgnoreContent(a[1..], b[1..], parent, index + 1);
      ConsIds(WireNode(a[0], Some(parent), index), WireChildren(a[1..], parent, index + 1),
              WireNode(b[0], Some(parent), index), WireChildren(b[1..], parent, index + 1));
    }
  }

  lemma ConsIds(wa: ContextNode, ta: seq<ContextNode>, wb: ContextNode, tb: seq<ContextNode>)
    requires wa.id == wb.id && IdSeq(Flatten(wa.children)) == IdSeq(Flatten(wb.children))
    requires IdSeq(Flatten(ta)) == IdSeq(Flatten(tb))
    ensures IdSeq(Flatten([wa] + ta)) == IdSeq(Flatten([wb] + tb))
  {
    FlattenCons(wa, ta);
    FlattenCons(wb, tb);
    IdSeqConcat(wa, Flatten(wa.children), Flatten(ta));
    IdSeqConcat(wb, Flatten(wb.children), Flatten(tb));
  }

  lemma IdSeqConcat(w: ContextNode, own: seq<ContextNode>, rest: seq<ContextNode>)
    ensures IdSeq([w] + own + rest) == [w.id] + IdSeq(own) + IdSeq(rest)
  {}

  ghost predicate SameIds(a: seq<ParsedNode>, b: seq<ParsedNode>, perFile: map<string, nat>) {
    IdSeq(Flatten(WireRoots(a, perFile))) == IdSeq(Flatten(WireRoots(b, perFile)))
  }

  lemma FirstIds(a: seq<ParsedNode>, b: seq<ParsedNode>, perFile: map<string, nat>)
    requires a != [] && b != [] && SameShape(a[0], b[0]) && SameIds(a[1..], b[1..], Counted(perFile, a[0].source))
    ensures SameIds(a, b, perFile)
  {
    var i, later := Next(perFile, a[0].source), Counted(perFile, a[0].source);
    NodeIdsIgnoreContent(a[0], b[0], None, i);
    ConsIds(WireNode(a[0], None, i), WireRoots(a[1..], later), WireNode(b[0], None, i), WireRoots(b[1..], later));
  }

  /** Two forests of the same files and shape get the same IDs, whatever they contain. */
  lemma {:induction false} IdsIgnoreContent(a: seq<ParsedNode>, b: seq<ParsedNode>, perFile: map<string, nat>)
    requires SameShapes(a, b)
    ensures IdSeq(Flatten(WireRoots(a, perFile))) == IdSeq(Flatten(WireRoots(b, perFile)))
    decreases |a|
  {
    if a != [] {
      IdsIgnoreContent(a[1..], b[1..], Counted(perFile, a[0].source));
      FirstIds(a, b, perFile);
    }
  }
}
