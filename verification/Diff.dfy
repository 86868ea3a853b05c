/** Deltas between a flattened tree and a previous state. */
module Diff {
  import opened Wrappers
  import opened Ids
  import opened Ast

  datatype NodeState = NodeState(hash: Hash, content: string)

  datatype Op = Add | Mod | Rem

  /** `None` stands for the empty hash and content that an add lacks before and a rem lacks after. */
  datatype Delta = Delta(id: NodeId, op: Op, was: Option<NodeState>, now: Option<NodeState>)

  /**
   A cursor hash digests the sorted "id:hash" pairs of a tree, so it stands for their
   multiset. Purges digest pairs with a "rem:" prefix, which no other operation does.
  */
  datatype HashedPair = Live(id: NodeId, hash: Hash) | Purged(id: NodeId, hash: Hash)

  datatype CursorHash = CursorHash(pairs: multiset<HashedPair>)

  function LivePairs(flat: seq<ContextNode>): seq<HashedPair> {
    seq(|flat|, i requires 0 <= i < |flat| => Live(flat[i].id, flat[i].hash))
  }

  function CursorHashFlat(flat: seq<ContextNode>): CursorHash {
    CursorHash(multiset(LivePairs(flat)))
  }

  type State = map<NodeId, NodeState>

  function StateOf(n: ContextNode): NodeState {
    NodeState(n.hash, n.content)
  }

  function ChangeOf(n: ContextNode, prev: State): seq<Delta> {
    if n.id !in prev then [Delta(n.id, Add, None, Some(StateOf(n)))]
    else if prev[n.id].hash != n.hash then [Delta(n.id, Mod, Some(prev[n.id]), Some(StateOf(n)))]
    else []
  }

  function Changes(flat: seq<ContextNode>, prev: State): seq<Delta> {
    if flat == [] then [] else ChangeOf(flat[0], prev) + Changes(flat[1..], prev)
  }

  function Removals(order: seq<NodeId>, prev: State): seq<Delta>
    requires forall id | id in order :: id in prev
  {
    seq(|order|, i requires 0 <= i < |order| => Delta(order[i], Rem, Some(prev[order[i]]), None))
  }

  ghost predicate NoDuplicates<T>(order: seq<T>) {
    forall j, k | 0 <= j < k < |order| :: order[j] != order[k]
  }

  lemma TailHasNoDuplicates<T>(s: seq<T>)
    requires NoDuplicates(s) && s != []
    ensures NoDuplicates(s[1..]) && s[0] !in s[1..] && forall x :: x in s <==> x == s[0] || x in s[1..]
  {
    assert s == [s[0]] + s[1..];
    assert forall k | 0 <= k < |s| - 1 :: s[1..][k] == s[k + 1];
  }

  /** `order` lists, once each, the previous nodes that are gone. */
  ghost predicate ListsRemoved(order: seq<NodeId>, flat: seq<ContextNode>, prev: State) {
    NoDuplicates(order) && forall id :: id in order <==> id in prev && id !in IdsOf(flat)
  }

  function DiffOf(flat: seq<ContextNode>, prev: State, order: seq<NodeId>): seq<Delta>
    requires forall id | id in order :: id in prev
  {
    Changes(flat, prev) + Removals(order, prev)
  }

  /** Sorted by `rank`, the number whose fixed-width digits are the ID's text. */
  ghost predicate SortedBy(order: seq<NodeId>, rank: NodeId -> nat) {
    forall j, k | 0 <= j < k < |order| :: rank(order[j]) <= rank(order[k])
  }

  method Sort(ids: set<NodeId>, rank: NodeId -> nat) returns (order: seq<NodeId>)
    ensures NoDuplicates(order) && SortedBy(order, rank)
    ensures forall id :: id in order <==> id in ids
  {
    order := [];
    var left := ids;
    while left != {}
      invariant left <= ids && NoDuplicates(order) && SortedBy(order, rank)
      invariant forall id :: id in order <==> id in ids && id !in left
      decreases left
    {
      var id :| id in left;
      left := left - {id};
      order := InsertSorted(order, id, rank);
    }
  }

  method InsertSorted(order: seq<NodeId>, id: NodeId, rank: NodeId -> nat) returns (longer: seq<NodeId>)
    requires NoDuplicates(order) && SortedBy(order, rank) && id !in order
    ensures NoDuplicates(longer) && SortedBy(longer, rank)
    ensures forall x :: x in longer <==> x in order || x == id
  {
    var at := 0;
    while at < |order| && rank(order[at]) <= rank(id)
      invariant 0 <= at <= |order|
      invariant forall j | 0 <= j < at :: rank(order[j]) <= rank(id)
    {
      at := at + 1;
    }
    longer := order[..at] + [id] + order[at..];
    InsertedMembers(order, id, at);
    InsertedIsSorted(order, id, at, rank);
  }

  /** Where the element at `k` of the longer list comes from. */
  function FromBefore(k: int, at: nat): int {
    if k < at then k else k - 1
  }

  lemma InsertedAt(order: seq<NodeId>, id: NodeId, at: nat)
    requires at <= |order|
    ensures var longer := order[..at] + [id] + order[at..];
            longer[at] == id && forall k | 0 <= k < |longer| && k != at :: longer[k] == order[FromBefore(k, at)]
  {
  }

  lemma InsertedMembers(order: seq<NodeId>, id: NodeId, at: nat)
    requires at <= |order|
    ensures forall x :: x in order[..at] + [id] + order[at..] <==> x in order || x == id
  {
    assert order == order[..at] + order[at..];
    assert forall x :: x in order <==> x in order[..at] || x in order[at..];
  }

  lemma InsertedIsSorted(order: seq<NodeId>, id: NodeId, at: nat, rank: NodeId -> nat)
    requires NoDuplicates(order) && SortedBy(order, rank) && id !in order && at <= |order|
    requires forall j | 0 <= j < at :: rank(order[j]) <= rank(id)
    requires at < |order| ==> rank(id) < rank(order[at])
    ensures NoDuplicates(order[..at] + [id] + order[at..]) && SortedBy(order[..at] + [id] + order[at..], rank)
  {
    var longer := order[..at] + [id] + order[at..];
    InsertedAt(order, id, at);
    forall j, k | 0 <= j < k < |longer|
      ensures longer[j] != longer[k] && rank(longer[j]) <= rank(longer[k])
    {
      if k == at {
        assert longer[j] == order[j] && order[j] in order;
      } else if j == at {
        assert longer[k] == order[k - 1] && order[k - 1] in order;
        assert rank(order[at]) <= rank(order[k - 1]);
      } else {
        assert longer[j] == order[FromBefore(j, at)] && longer[k] == order[FromBefore(k, at)];
      }
    }
  }

  lemma ChangesFrom(flat: seq<ContextNode>, prev: State, i: nat)
    requires i < |flat|
    ensures Changes(flat[i..], prev) == ChangeOf(flat[i], prev) + Changes(flat[i + 1..], prev)
  {
    assert flat[i..][0] == flat[i] && flat[i..][1..] == flat[i + 1..];
  }

  lemma IdsUpTo(flat: seq<ContextNode>, i: nat)
    requires i < |flat|
    ensures IdsOf(flat[..i + 1]) == IdsOf(flat[..i]) + {flat[i].id}
  {
    assert flat[..i + 1] == flat[..i] + [flat[i]];
  }

  /** The removed nodes come in rank order, behind the changes. */
  ghost predicate IsDiff(deltas: seq<Delta>, flat: seq<ContextNode>, prev: State, rank: NodeId -> nat) {
    exists order :: ListsRemoved(order, flat, prev) && SortedBy(order, rank) && deltas == DiffOf(flat, prev, order)
  }

  method DiffFlat(flat: seq<ContextNode>, prev: State, rank: NodeId -> nat) returns (deltas: seq<Delta>)
    ensures IsDiff(deltas, flat, prev, rank)
  {
    var changed, seen := ChangedDeltas(flat, prev);
    var removed := Sort(prev.Keys - seen, rank);
    var gone := RemovedDeltas(removed, prev);
    deltas := changed + gone;
    assert ListsRemoved(removed, flat, prev) && deltas == DiffOf(flat, prev, removed);
  }

  lemma Regroup(a: seq<Delta>, b: seq<Delta>, c: seq<Delta>)
    ensures a + (b + c) == (a + b) + c
  {
  }

  method ChangedDeltas(flat: seq<ContextNode>, prev: State) returns (deltas: seq<Delta>, seen: set<NodeId>)
    ensures deltas == Changes(flat, prev) && seen == IdsOf(flat)
  {
    seen, deltas := {}, [];
    for i := 0 to |flat|
      invariant seen == IdsOf(flat[..i])
      invariant deltas + Changes(flat[i..], prev) == Changes(flat, prev)
    {
      var n := flat[i];
      ChangesFrom(flat, prev, i);
      IdsUpTo(flat, i);
      Regroup(deltas, ChangeOf(n, prev), Changes(flat[i + 1..], prev));
      ghost var before := deltas;
      seen := seen + {n.id};
      if n.id !in prev {
        deltas := deltas + [Delta(n.id, Add, None, Some(StateOf(n)))];
      } else if prev[n.id].hash != n.hash {
        deltas := deltas + [Delta(n.id, Mod, Some(prev[n.id]), Some(StateOf(n)))];
      }
      assert deltas == before + ChangeOf(n, prev);
    }
    assert flat[..|flat|] == flat && flat[|flat|..] == [];
  }

  method RemovedDeltas(removed: seq<NodeId>, prev: State) returns (deltas: seq<Delta>)
    requires forall id | id in removed :: id in prev
    ensures deltas == Removals(removed, prev)
  {
    deltas := [];
    for i := 0 to |removed|
      invariant |deltas| == i
      invariant forall j | 0 <= j < i :: deltas[j] == Removals(removed, prev)[j]
    {
      deltas := deltas + [Delta(removed[i], Rem, Some(prev[removed[i]]), None)];
    }
  }

  /** When ranks do not collide the sorted order is the only one, so the output is deterministic. */
  lemma {:induction false} SortedOrderIsUnique(a: seq<NodeId>, b: seq<NodeId>, rank: NodeId -> nat)
    requires NoDuplicates(a) && NoDuplicates(b) && SortedBy(a, rank) && SortedBy(b, rank)
    requires forall id :: id in a <==> id in b
    requires forall x, y | x in a && y in a && rank(x) == rank(y) :: x == y
    ensures a == b
  {
    if a == [] {
      NoMembers(a, b);
    } else {
      assert a[0] in a && a[0] in b && b[0] in b;
      SameLeast(a, b, rank);
      TailsAlike(a, b);
      TailIsSorted(a, rank);
      TailIsSorted(b, rank);
      SortedOrderIsUnique(a[1..], b[1..], rank);
    }
  }

  lemma TailIsSorted(a: seq<NodeId>, rank: NodeId -> nat)
    requires a != [] && NoDuplicates(a) && SortedBy(a, rank)
    ensures NoDuplicates(a[1..]) && SortedBy(a[1..], rank) && forall x | x in a[1..] :: x in a
  {}

  lemma NoMembers(a: seq<NodeId>, b: seq<NodeId>)
    requires a == [] && forall id :: id in a <==> id in b
    ensures b == []
  {
    if b != [] {
      FirstIsMember(b);
      assert false;
    }
  }

  lemma FirstIsMember(s: seq<NodeId>)
    requires s != []
    ensures s[0] in s
  {}

  lemma TailsAlike(a: seq<NodeId>, b: seq<NodeId>)
    requires a != [] && b != [] && a[0] == b[0] && NoDuplicates(a) && NoDuplicates(b)
    requires forall id :: id in a <==> id in b
    ensures forall id :: id in a[1..] <==> id in b[1..]
  {
    forall id
      ensures id in a[1..] <==> id in b[1..]
    {
      HeadIsUnique(a, id);
      HeadIsUnique(b, id);
    }
  }

  lemma SameLeast(a: seq<NodeId>, b: seq<NodeId>, rank: NodeId -> nat)
    requires a != [] && b != [] && SortedBy(a, rank) && SortedBy(b, rank)
    requires a[0] in b && b[0] in a
    requires forall x, y | x in a && y in a && rank(x) == rank(y) :: x == y
    ensures a[0] == b[0]
  {
    var i :| 0 <= i < |b| && b[i] == a[0];
    var j :| 0 <= j < |a| && a[j] == b[0];
    assert a[0] in a && b[0] in a;
    assert rank(b[0]) <= rank(b[i]) && rank(a[0]) <= rank(a[j]);
  }

  lemma HeadIsUnique(a: seq<NodeId>, id: NodeId)
    requires a != [] && NoDuplicates(a)
    ensures id in a[1..] <==> id in a && id != a[0]
  {
    assert a == [a[0]] + a[1..];
  }

  // ----- what a diff says -----

  /** The change recorded for a node depends on nothing but that node and its previous state. */
  lemma {:induction false} ChangesMembers(flat: seq<ContextNode>, prev: State, d: Delta)
    ensures d in Changes(flat, prev) <==> exists n | n in flat :: ChangeOf(n, prev) == [d]
  {
    if flat != [] {
      assert flat == [flat[0]] + flat[1..];
      ChangesMembers(flat[1..], prev, d);
      if d in ChangeOf(flat[0], prev) {
        assert ChangeOf(flat[0], prev) == [d];
      }
    }
  }

  /** No delta at all means that the tree and the previous state have the same IDs and hashes, and conversely. */
  lemma EmptyDiff(flat: seq<ContextNode>, prev: State, order: seq<NodeId>)
    requires ListsRemoved(order, flat, prev)
    ensures DiffOf(flat, prev, order) == [] <==>
            prev.Keys == IdsOf(flat) && forall n | n in flat :: prev[n.id].hash == n.hash
  {
    NoChanges(flat, prev);
    if order == [] {
      assert forall id | id in prev :: id in IdsOf(flat);
    } else {
      assert order[0] in order;
    }
  }

  lemma {:induction false} NoChanges(flat: seq<ContextNode>, prev: State)
    ensures Changes(flat, prev) == [] <==> forall n | n in flat :: n.id in prev && prev[n.id].hash == n.hash
  {
    if flat != [] {
      assert flat == [flat[0]] + flat[1..];
      NoChanges(flat[1..], prev);
    }
  }
}
