/** The context tree, before and after the transformer has enriched it. */
module Ast {
  import opened Wrappers
  import opened Ids

  /** A node as a parser leaves it. The label is `title`. */
  datatype ParsedNode = ParsedNode(
    source: string, kind: string, depth: nat, title: string, content: string,
    temp: Option<real>, children: seq<ParsedNode>)

  /** A node with its identity and content hash set. */
  datatype ContextNode = ContextNode(
    id: NodeId, parentId: Option<NodeId>, source: string, kind: string, depth: nat,
    title: string, content: string, hash: Hash, temp: Option<real>,
    children: seq<ContextNode>)

  /** What every parser guarantees: one file per tree, and depths that count from 1. */
  predicate WellParsed(n: ParsedNode, source: string, depth: nat) {
    n.source == source && n.depth == depth
    && forall c | c in n.children :: WellParsed(c, source, depth + 1)
  }

  predicate WellParsedForest(forest: seq<ParsedNode>) {
    forall n | n in forest :: WellParsed(n, n.source, 1)
  }

  /** Pre-order. */
  function Flatten(nodes: seq<ContextNode>): seq<ContextNode> {
    if nodes == [] then [] else [nodes[0]] + Flatten(nodes[0].children) + Flatten(nodes[1..])
  }

  method CollectNodes(acc: seq<ContextNode>, nodes: seq<ContextNode>) returns (out: seq<ContextNode>)
    ensures out == acc + Flatten(nodes)
    decreases nodes
  {
    out := acc;
    for i := 0 to |nodes|
      invariant out + Flatten(nodes[i..]) == acc + Flatten(nodes)
    {
      var n := nodes[i];
      assert nodes[i..][0] == n && nodes[i..][1..] == nodes[i + 1..];
      out := out + [n];
      out := CollectNodes(out, n.children);
    }
  }

  lemma FlattenCons(w: ContextNode, rest: seq<ContextNode>)
    ensures Flatten([w] + rest) == [w] + Flatten(w.children) + Flatten(rest)
  {
    assert ([w] + rest)[1..] == rest;
  }

  /** The node a lookup by ID finds; a later node replaces an earlier one. */
  function ById(flat: seq<ContextNode>): map<NodeId, ContextNode> {
    if flat == [] then map[] else ById(flat[..|flat| - 1])[flat[|flat| - 1].id := flat[|flat| - 1]]
  }

  lemma ByIdSnoc(flat: seq<ContextNode>, n: ContextNode)
    ensures ById(flat + [n]) == ById(flat)[n.id := n]
  {
    assert (flat + [n])[..|flat|] == flat;
  }

  lemma NextById(flat: seq<ContextNode>, i: nat)
    requires i < |flat|
    ensures ById(flat[..i + 1]) == ById(flat[..i])[flat[i].id := flat[i]]
  {
    assert flat[..i + 1] == flat[..i] + [flat[i]];
    ByIdSnoc(flat[..i], flat[i]);
  }

  method FlattenMap(nodes: seq<ContextNode>) returns (m: map<NodeId, ContextNode>)
    ensures m == ById(Flatten(nodes))
  {
    var flat := CollectNodes([], nodes);
    m := map[];
    for i := 0 to |flat|
      invariant m == ById(flat[..i])
    {
      NextById(flat, i);
      m := m[flat[i].id := flat[i]];
    }
    WholePrefix(flat);
  }

  lemma WholePrefix(flat: seq<ContextNode>)
    ensures flat[..|flat|] == flat
  {}

  ghost predicate DistinctIds(flat: seq<ContextNode>) {
    forall j, k | 0 <= j < k < |flat| :: flat[j].id != flat[k].id
  }

  lemma DistinctConcat(a: seq<ContextNode>, b: seq<ContextNode>)
    requires DistinctIds(a) && DistinctIds(b)
    requires forall x, y | x in a && y in b :: x.id != y.id
    ensures DistinctIds(a + b)
  {
    var ab := a + b;
    forall j, k | 0 <= j < k < |ab|
      ensures ab[j].id != ab[k].id
    {
      if j < |a| <= k {
        assert a[j] in a && b[k - |a|] in b;
      }
    }
  }

  function IdsOf(flat: seq<ContextNode>): set<NodeId> {
    set n | n in flat :: n.id
  }

  lemma IdsOfCons(n: ContextNode, rest: seq<ContextNode>)
    ensures IdsOf([n] + rest) == {n.id} + IdsOf(rest)
    ensures IdsOf([n]) == {n.id}
  {}

  lemma DistinctCons(n: ContextNode, rest: seq<ContextNode>)
    requires DistinctIds([n] + rest)
    ensures DistinctIds(rest) && n.id !in IdsOf(rest)
  {
    var flat := [n] + rest;
    forall i, j | 0 <= i < j < |rest|
      ensures rest[i].id != rest[j].id
    {
      assert flat[i + 1].id != flat[j + 1].id;
    }
    forall i | 0 <= i < |rest|
      ensures rest[i].id != n.id
    {
      assert flat[0].id != flat[i + 1].id;
    }
  }

  /** Every parent precedes its children, or was known from the start. */
  predicate ParentsKnown(flat: seq<ContextNode>, known: set<NodeId>) {
    flat == [] || (
      (flat[0].parentId.Some? ==> flat[0].parentId.value in known)
      && ParentsKnown(flat[1..], known + {flat[0].id}))
  }

  /** The fields derived from position and content agree with the ID. */
  predicate Placed(n: ContextNode) {
    WellPlaced(n.id)
    && n.parentId == ParentOf(n.id) && n.source == SourceOf(n.id) && n.depth == DepthOf(n.id)
    && n.hash == HashOf(n.content)
  }

  /** What the rest of the pipeline relies on in a flattened, wired forest. */
  ghost predicate Wired(flat: seq<ContextNode>) {
    DistinctIds(flat) && ParentsKnown(flat, {}) && forall n | n in flat :: Placed(n)
  }

  lemma {:induction false} ByIdOfDistinct(flat: seq<ContextNode>)
    requires DistinctIds(flat)
    ensures ById(flat).Keys == IdsOf(flat)
    ensures forall n | n in flat :: ById(flat)[n.id] == n
  {
    if flat != [] {
      var init, last := flat[..|flat| - 1], flat[|flat| - 1];
      ByIdOfDistinct(init);
      assert flat == init + [last];
    }
  }

  /** What a lookup finds is the node of the tree with that ID. */
  lemma FoundById(flat: seq<ContextNode>, id: NodeId)
    requires DistinctIds(flat) && id in ById(flat)
    ensures ById(flat)[id] in flat && ById(flat)[id].id == id
  {
    ByIdOfDistinct(flat);
    var n :| n in flat && n.id == id;
  }

  lemma IdsFound(flat: seq<ContextNode>)
    requires DistinctIds(flat)
    ensures ById(flat).Keys == IdsOf(flat)
  {
    ByIdOfDistinct(flat);
  }

  lemma {:induction false} ParentsKnownMonotone(flat: seq<ContextNode>, known: set<NodeId>, more: set<NodeId>)
    requires ParentsKnown(flat, known) && known <= more
    ensures ParentsKnown(flat, more)
  {
    if flat != [] {
      ParentsKnownMonotone(flat[1..], known + {flat[0].id}, more + {flat[0].id});
    }
  }

  lemma {:induction false} ParentsKnownConcat(a: seq<ContextNode>, b: seq<ContextNode>, known: set<NodeId>)
    requires ParentsKnown(a, known) && ParentsKnown(b, known + IdsOf(a))
    ensures ParentsKnown(a + b, known)
  {
    if a == [] {
      assert a + b == b && known + IdsOf(a) == known;
    } else {
      assert (a + b)[1..] == a[1..] + b;
      assert known + IdsOf(a) == known + {a[0].id} + IdsOf(a[1..]) by {
        assert a == [a[0]] + a[1..];
      }
      ParentsKnownConcat(a[1..], b, known + {a[0].id});
    }
  }

  /** In a wired forest the ancestors of a node are nodes of the forest. */
  lemma {:induction false} AncestorsAreListed(flat: seq<ContextNode>, known: set<NodeId>, n: ContextNode, top: NodeId)
    requires ParentsKnown(flat, known) && (forall m | m in flat :: Placed(m))
    requires forall x, y | x in known && Below(x, y) :: y in known
    requires n in flat && Below(n.id, top)
    ensures top in known + IdsOf(flat)
    decreases flat
  {
    var head, rest := flat[0], flat[1..];
    assert flat == [head] + rest;
    assert IdsOf(flat) == {head.id} + IdsOf(rest);
    if n == head {
      if top != n.id {
        assert Below(ParentOf(n.id).value, top);
      }
    } else {
      forall x, y | x in known + {head.id} && Below(x, y)
        ensures y in known + {head.id}
      {
        if x == head.id && y != x {
          var p := ParentOf(x).value;
          assert Placed(head) && p in known && Below(p, y);
        }
      }
      AncestorsAreListed(rest, known + {head.id}, n, top);
    }
  }
}
