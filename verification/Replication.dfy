/** What the diff log is worth: replaying it, and undoing a snapshot. */
module Replication {
  import opened Wrappers
  import opened Ids
  import opened Ast
  import opened Diff
  import opened Tables
  import opened Stores
  import opened Emission

  // ----- replay with cascade -----

  function ReplayStep(st: State, d: Delta): State {
    if d.now.Some? then st[d.id := d.now.value] else map id | id in st && !Below(id, d.id) :: st[id]
  }

  function Replay(st: State, deltas: seq<Delta>): State
    decreases deltas
  {
    if deltas == [] then st else Replay(ReplayStep(st, deltas[0]), deltas[1..])
  }

  lemma {:induction false} ReplayConcat(st: State, a: seq<Delta>, b: seq<Delta>)
    ensures Replay(st, a + b) == Replay(Replay(st, a), b)
    decreases a
  {
    if a == [] {
      assert a + b == b;
    } else {
      assert (a + b)[1..] == a[1..] + b;
      ReplayConcat(ReplayStep(st, a[0]), a[1..], b);
    }
  }

  /** A delta and the tree agree on what is written. */
  predicate Faithful(d: Delta, tree: map<NodeId, ContextNode>) {
    if d.op == Rem then d.now.None?
    else d.id in tree && tree[d.id].id == d.id && Placed(tree[d.id]) && d.now == Some(StateOf(tree[d.id]))
  }

  lemma {:induction false} ReplayFollowsTable(nodes: NodeTable, deltas: seq<Delta>, tree: map<NodeId, ContextNode>)
    requires Fits(nodes) && ApplyDeltas(nodes, deltas, tree).Ok?
    requires forall d | d in deltas :: Faithful(d, tree)
    ensures Replay(View(nodes), deltas) == View(ApplyDeltas(nodes, deltas, tree).value)
    decreases deltas
  {
    if deltas != [] {
      var d := deltas[0];
      assert d in deltas && forall x | x in deltas[1..] :: x in deltas;
      var next := ApplyDelta(nodes, d, tree).value;
      if d.op == Rem {
        DeleteIsPrune(nodes, d.id);
        DeleteKeepsFit(nodes, d.id);
        assert View(next) == ReplayStep(View(nodes), d);
      } else {
        UpsertKeepsFit(nodes, tree[d.id]);
      }
      ReplayFollowsTable(next, deltas[1..], tree);
    }
  }

  lemma DiffIsFaithful(flat: seq<ContextNode>, prev: State, order: seq<NodeId>, d: Delta)
    requires DistinctIds(flat) && (forall n | n in flat :: Placed(n))
    requires (forall id | id in order :: id in prev) && d in DiffOf(flat, prev, order)
    ensures Faithful(d, ById(flat))
  {
    ByIdOfDistinct(flat);
    ChangesMembers(flat, prev, d);
    if d in Changes(flat, prev) {
      var n :| n in flat && ChangeOf(n, prev) == [d];
      assert d == [d][0];
    }
  }

  /** Replaying the deltas of any change takes the old state to the new one. */
  lemma ReplayIsExact(nodes: NodeTable, roots: seq<ContextNode>, prev: State, order: seq<NodeId>)
    requires Fits(nodes)
    requires Change(nodes, Flatten(roots), prev) && ListsRemoved(order, Flatten(roots), prev)
    ensures var flat := Flatten(roots);
            Replay(View(nodes), DiffOf(flat, prev, order)) == View(After(nodes, flat, prev))
  {
    var flat := Flatten(roots);
    ChangeTakesEffect(nodes, roots, prev, order);
    forall d | d in DiffOf(flat, prev, order)
      ensures Faithful(d, ById(flat))
    {
      DiffIsFaithful(flat, prev, order, d);
    }
    ReplayFollowsTable(nodes, DiffOf(flat, prev, order), ById(flat));
  }

  // ----- patching: each delta touches its own ID only -----

  function PatchStep(st: State, d: Delta): State {
    if d.now.Some? then st[d.id := d.now.value] else st - {d.id}
  }

  function Patch(st: State, deltas: seq<Delta>): State
    decreases deltas
  {
    if deltas == [] then st else Patch(PatchStep(st, deltas[0]), deltas[1..])
  }

  function Flip(d: Delta): Delta {
    d.(was := d.now, now := d.was)
  }

  function Flipped(deltas: seq<Delta>): seq<Delta> {
    if deltas == [] then [] else Flipped(deltas[1..]) + [Flip(deltas[0])]
  }

  /** Drop adds, restore the old side of mods and rems, last delta first. */
  function Undo(st: State, deltas: seq<Delta>): State {
    Patch(st, Flipped(deltas))
  }

  ghost predicate OnePerNode(deltas: seq<Delta>) {
    forall i, j | 0 <= i < j < |deltas| :: deltas[i].id != deltas[j].id
  }

  ghost predicate Mentions(deltas: seq<Delta>, id: NodeId) {
    exists d | d in deltas :: d.id == id
  }

  ghost predicate Agrees(st: State, id: NodeId, value: Option<NodeState>) {
    if value.Some? then id in st && st[id] == value.value else id !in st
  }

  lemma {:induction false} PatchLookup(st: State, deltas: seq<Delta>)
    requires OnePerNode(deltas)
    ensures forall d | d in deltas :: Agrees(Patch(st, deltas), d.id, d.now)
    ensures forall id | !Mentions(deltas, id) :: id in Patch(st, deltas) <==> id in st
    ensures forall id | !Mentions(deltas, id) && id in st :: Patch(st, deltas)[id] == st[id]
    decreases deltas
  {
    if deltas != [] {
      var d, rest := deltas[0], deltas[1..];
      assert deltas == [d] + rest;
      PatchLookup(PatchStep(st, d), rest);
      forall id | !Mentions(deltas, id)
        ensures id != d.id && !Mentions(rest, id)
      {
        assert d in deltas;
        assert forall x | x in rest :: x in deltas;
      }
      assert !Mentions(rest, d.id) by {
        assert forall i | 0 <= i < |rest| :: rest[i] == deltas[i + 1];
      }
    }
  }

  lemma {:induction false} FlippedMembers(deltas: seq<Delta>)
    requires OnePerNode(deltas)
    ensures |Flipped(deltas)| == |deltas|
    ensures forall i | 0 <= i < |deltas| :: Flipped(deltas)[|deltas| - 1 - i] == Flip(deltas[i])
    ensures OnePerNode(Flipped(deltas))
  {
    if deltas != [] {
      assert forall i | 0 <= i < |deltas| - 1 :: deltas[1..][i] == deltas[i + 1];
      FlippedMembers(deltas[1..]);
      var f := Flipped(deltas);
      forall i | 0 <= i < |deltas|
        ensures f[|deltas| - 1 - i] == Flip(deltas[i])
      {
        if i > 0 {
          assert Flipped(deltas[1..])[|deltas| - 2 - (i - 1)] == Flip(deltas[1..][i - 1]);
        }
      }
      forall i, j | 0 <= i < j < |f|
        ensures f[i].id != f[j].id
      {
        var n := |deltas| - 1;
        assert f[n - (n - i)] == Flip(deltas[n - i]) && f[n - (n - j)] == Flip(deltas[n - j]);
      }
    }
  }

  lemma UndoLookup(st: State, deltas: seq<Delta>)
    requires OnePerNode(deltas)
    ensures forall d | d in deltas :: Agrees(Undo(st, deltas), d.id, d.was)
    ensures forall id | !Mentions(deltas, id) :: id in Undo(st, deltas) <==> id in st
    ensures forall id | !Mentions(deltas, id) && id in st :: Undo(st, deltas)[id] == st[id]
  {
    var f := Flipped(deltas);
    FlippedMembers(deltas);
    PatchLookup(st, f);
    forall d | d in deltas
      ensures Flip(d) in f
    {
      var i :| 0 <= i < |deltas| && deltas[i] == d;
      assert f[|deltas| - 1 - i] == Flip(d);
    }
    forall d | d in deltas
      ensures Agrees(Undo(st, deltas), d.id, d.was)
    {
      assert Agrees(Patch(st, f), Flip(d).id, Flip(d).now);
    }
    forall id | !Mentions(deltas, id)
      ensures !Mentions(f, id)
    {
      forall x | x in f
        ensures x.id != id
      {
        var k :| 0 <= k < |f| && f[k] == x;
        assert f[|deltas| - 1 - (|deltas| - 1 - k)] == Flip(deltas[|deltas| - 1 - k]);
        assert deltas[|deltas| - 1 - k] in deltas;
      }
    }
  }

  // ----- the deltas of a diff, node by node -----

  lemma {:induction false} ChangesOnePerNode(flat: seq<ContextNode>, prev: State)
    requires DistinctIds(flat)
    ensures OnePerNode(Changes(flat, prev))
    ensures forall d | d in Changes(flat, prev) :: d.id in IdsOf(flat)
  {
    if flat != [] {
      assert flat == [flat[0]] + flat[1..];
      DistinctCons(flat[0], flat[1..]);
      IdsOfCons(flat[0], flat[1..]);
      ChangesOnePerNode(flat[1..], prev);
      var head, rest := ChangeOf(flat[0], prev), Changes(flat[1..], prev);
      var all := head + rest;
      forall i, j | 0 <= i < j < |all|
        ensures all[i].id != all[j].id
      {
        if i < |head| <= j {
          assert rest[j - |head|] in rest;
        }
      }
    }
  }

  lemma DiffOnePerNode(flat: seq<ContextNode>, prev: State, order: seq<NodeId>)
    requires DistinctIds(flat) && ListsRemoved(order, flat, prev)
    ensures OnePerNode(DiffOf(flat, prev, order))
  {
    ChangesOnePerNode(flat, prev);
    var changed, gone := Changes(flat, prev), Removals(order, prev);
    var all := changed + gone;
    forall i, j | 0 <= i < j < |all|
      ensures all[i].id != all[j].id
    {
      if i < |changed| <= j {
        assert changed[i] in changed && order[j - |changed|] in order;
      }
    }
  }

  /** The one delta a node can have. */
  function DeltaOf(id: NodeId, flat: seq<ContextNode>, prev: State): seq<Delta> {
    if id in ById(flat) then ChangeOf(ById(flat)[id], prev)
    else if id in prev then [Delta(id, Rem, Some(prev[id]), None)]
    else []
  }

  lemma TreeMentions(flat: seq<ContextNode>, prev: State, id: NodeId)
    requires DistinctIds(flat)
    ensures Mentions(Changes(flat, prev), id) <==> id in ById(flat) && ChangeOf(ById(flat)[id], prev) != []
    ensures id in ById(flat) && ChangeOf(ById(flat)[id], prev) != [] ==>
              ChangeOf(ById(flat)[id], prev)[0] in Changes(flat, prev) && ChangeOf(ById(flat)[id], prev)[0].id == id
  {
    if id in ById(flat) && ChangeOf(ById(flat)[id], prev) != [] {
      FoundById(flat, id);
      var d := ChangeOf(ById(flat)[id], prev)[0];
      assert ChangeOf(ById(flat)[id], prev) == [d];
      ChangesMembers(flat, prev, d);
    }
    if Mentions(Changes(flat, prev), id) {
      var d :| d in Changes(flat, prev) && d.id == id;
      ChangesMembers(flat, prev, d);
      ByIdOfDistinct(flat);
      var n :| n in flat && ChangeOf(n, prev) == [d];
      assert d == [d][0];
    }
  }

  lemma RemovalMentions(order: seq<NodeId>, prev: State, id: NodeId)
    requires forall x | x in order :: x in prev
    ensures Mentions(Removals(order, prev), id) <==> id in order
    ensures id in order ==> Delta(id, Rem, Some(prev[id]), None) in Removals(order, prev)
  {
    if id in order {
      var i :| 0 <= i < |order| && order[i] == id;
      assert Removals(order, prev)[i] == Delta(id, Rem, Some(prev[id]), None);
    }
    assert forall i | 0 <= i < |order| :: order[i] in order;
  }

  lemma DiffMentions(flat: seq<ContextNode>, prev: State, order: seq<NodeId>, id: NodeId)
    requires DistinctIds(flat) && ListsRemoved(order, flat, prev)
    ensures DeltaOf(id, flat, prev) == [] ==> !Mentions(DiffOf(flat, prev, order), id)
    ensures DeltaOf(id, flat, prev) != [] ==>
              DeltaOf(id, flat, prev)[0] in DiffOf(flat, prev, order) && DeltaOf(id, flat, prev)[0].id == id
  {
    IdsFound(flat);
    TreeMentions(flat, prev, id);
    RemovalMentions(order, prev, id);
    MentionsConcat(Changes(flat, prev), Removals(order, prev), id);
  }

  lemma MentionsConcat(a: seq<Delta>, b: seq<Delta>, id: NodeId)
    ensures Mentions(a + b, id) <==> Mentions(a, id) || Mentions(b, id)
    ensures forall d :: d in a + b <==> d in a || d in b
  {}

  // ----- when the simpler readings of the log are right -----

  /** Every row that the removals cascade to is itself among the rows compared. */
  ghost predicate CascadeListed(nodes: NodeTable, flat: seq<ContextNode>, prev: State) {
    forall id | id in nodes && Gone(id, flat, prev) :: id in prev
  }

  /** Every row that the tree would write over is among the rows compared. */
  ghost predicate NothingReAdded(nodes: NodeTable, flat: seq<ContextNode>, prev: State) {
    forall id | id in nodes && id in ById(flat) :: id in prev
  }

  /** The row of a node of the tree: its hash and content, and unchanged if the node has no delta. */
  lemma AfterOfNode(nodes: NodeTable, flat: seq<ContextNode>, prev: State, n: ContextNode)
    requires Fits(nodes) && Change(nodes, flat, prev) && n in flat && n.id in ById(flat) && ById(flat)[n.id] == n
    ensures n.id in After(nodes, flat, prev) && !Gone(n.id, flat, prev)
    ensures View(After(nodes, flat, prev))[n.id] == StateOf(n)
    ensures ChangeOf(n, prev) == [] ==> n.id in nodes && View(nodes)[n.id] == StateOf(n)
  {
    assert Placed(n);
    if ChangeOf(n, prev) == [] {
      assert n.id in prev && prev[n.id] == View(nodes)[n.id] && RowFits(n.id, nodes[n.id]);
    }
  }

  lemma AfterLookup(nodes: NodeTable, flat: seq<ContextNode>, prev: State, id: NodeId)
    requires Fits(nodes) && Change(nodes, flat, prev)
    ensures id in ById(flat) ==> id in After(nodes, flat, prev) && !Gone(id, flat, prev)
    ensures id in ById(flat) ==> View(After(nodes, flat, prev))[id] == StateOf(ById(flat)[id])
    ensures id !in ById(flat) ==> (id in After(nodes, flat, prev) <==> id in nodes && !Gone(id, flat, prev))
    ensures id in After(nodes, flat, prev) && DeltaOf(id, flat, prev) == [] ==>
              id in nodes && View(After(nodes, flat, prev))[id] == View(nodes)[id]
  {
    if id in ById(flat) {
      FoundById(flat, id);
      AfterOfNode(nodes, flat, prev, ById(flat)[id]);
    }
  }

  /** Patching one node, in terms of its delta. */
  lemma PatchAt(st: State, flat: seq<ContextNode>, prev: State, order: seq<NodeId>, id: NodeId)
    requires DistinctIds(flat) && ListsRemoved(order, flat, prev)
    ensures var got := Patch(st, DiffOf(flat, prev, order)); var ds := DeltaOf(id, flat, prev);
            if ds == [] then (id in got <==> id in st) && (id in st ==> got[id] == st[id])
            else Agrees(got, id, ds[0].now)
  {
    DiffOnePerNode(flat, prev, order);
    PatchLookup(st, DiffOf(flat, prev, order));
    DiffMentions(flat, prev, order, id);
  }

  lemma UndoAt(st: State, flat: seq<ContextNode>, prev: State, order: seq<NodeId>, id: NodeId)
    requires DistinctIds(flat) && ListsRemoved(order, flat, prev)
    ensures var got := Undo(st, DiffOf(flat, prev, order)); var ds := DeltaOf(id, flat, prev);
            if ds == [] then (id in got <==> id in st) && (id in st ==> got[id] == st[id])
            else Agrees(got, id, ds[0].was)
  {
    DiffOnePerNode(flat, prev, order);
    UndoLookup(st, DiffOf(flat, prev, order));
    DiffMentions(flat, prev, order, id);
  }

  lemma UnlistedIsGone(id: NodeId, flat: seq<ContextNode>, prev: State)
    requires DistinctIds(flat) && id in prev && id !in ById(flat)
    ensures Gone(id, flat, prev)
  {
    IdsFound(flat);
    assert Below(id, id);
  }

  predicate Hidden(nodes: NodeTable, flat: seq<ContextNode>, prev: State, id: NodeId) {
    id in nodes && id !in prev && Gone(id, flat, prev)
  }

  predicate Missed(nodes: NodeTable, flat: seq<ContextNode>, prev: State, id: NodeId) {
    id in nodes && id !in prev && (Gone(id, flat, prev) || id in ById(flat))
  }

  lemma PatchMatches(nodes: NodeTable, flat: seq<ContextNode>, prev: State, order: seq<NodeId>, id: NodeId)
    requires Fits(nodes) && Change(nodes, flat, prev) && ListsRemoved(order, flat, prev)
    ensures var got, want := Patch(View(nodes), DiffOf(flat, prev, order)), View(After(nodes, flat, prev));
            ((id in got <==> id in want) <==> !Hidden(nodes, flat, prev, id))
            && (id in got && id in want ==> got[id] == want[id])
  {
    PatchAt(View(nodes), flat, prev, order, id);
    PatchedMatches(nodes, flat, prev, id, Patch(View(nodes), DiffOf(flat, prev, order)));
  }

  lemma PatchedMatches(nodes: NodeTable, flat: seq<ContextNode>, prev: State, id: NodeId, got: State)
    requires Fits(nodes) && Change(nodes, flat, prev)
    requires var ds, st := DeltaOf(id, flat, prev), View(nodes);
             if ds == [] then (id in got <==> id in st) && (id in st ==> got[id] == st[id])
             else Agrees(got, id, ds[0].now)
    ensures var want := View(After(nodes, flat, prev));
            ((id in got <==> id in want) <==> !Hidden(nodes, flat, prev, id))
            && (id in got && id in want ==> got[id] == want[id])
  {
    AfterLookup(nodes, flat, prev, id);
    if id in ById(flat) {
      FoundById(flat, id);
    } else if id in prev {
      UnlistedIsGone(id, flat, prev);
    }
  }

  lemma UndoMatches(nodes: NodeTable, flat: seq<ContextNode>, prev: State, order: seq<NodeId>, id: NodeId)
    requires Fits(nodes) && Change(nodes, flat, prev) && ListsRemoved(order, flat, prev)
    ensures var got, want := Undo(View(After(nodes, flat, prev)), DiffOf(flat, prev, order)), View(nodes);
            ((id in got <==> id in want) <==> !Missed(nodes, flat, prev, id))
            && (id in got && id in want ==> got[id] == want[id])
  {
    var after := View(After(nodes, flat, prev));
    UndoAt(after, flat, prev, order, id);
    UndoneMatches(nodes, flat, prev, id, Undo(after, DiffOf(flat, prev, order)));
  }

  lemma UndoneMatches(nodes: NodeTable, flat: seq<ContextNode>, prev: State, id: NodeId, got: State)
    requires Fits(nodes) && Change(nodes, flat, prev)
    requires var ds, st := DeltaOf(id, flat, prev), View(After(nodes, flat, prev));
             if ds == [] then (id in got <==> id in st) && (id in st ==> got[id] == st[id])
             else Agrees(got, id, ds[0].was)
    ensures var want := View(nodes);
            ((id in got <==> id in want) <==> !Missed(nodes, flat, prev, id))
            && (id in got && id in want ==> got[id] == want[id])
  {
    AfterLookup(nodes, flat, prev, id);
    if id in ById(flat) {
      FoundById(flat, id);
    } else if id in prev {
      UnlistedIsGone(id, flat, prev);
    }
  }

  lemma SameStates(got: State, want: State)
    requires forall id :: id in got <==> id in want
    requires forall id | id in got && id in want :: got[id] == want[id]
    ensures got == want
  {
    assert got.Keys == want.Keys;
  }

  /**
   A client that ignores the hierarchy and only drops the IDs it is told about ends in the
   right state if and only if no removal cascaded to an unlisted row.
  */
  lemma PatchIsExactIff(nodes: NodeTable, flat: seq<ContextNode>, prev: State, order: seq<NodeId>)
    requires Fits(nodes) && Change(nodes, flat, prev) && ListsRemoved(order, flat, prev)
    ensures Patch(View(nodes), DiffOf(flat, prev, order)) == View(After(nodes, flat, prev))
            <==> CascadeListed(nodes, flat, prev)
  {
    if id :| Hidden(nodes, flat, prev, id) {
      PatchMatches(nodes, flat, prev, order, id);
    } else {
      forall id {
        PatchMatches(nodes, flat, prev, order, id);
      }
      SameStates(Patch(View(nodes), DiffOf(flat, prev, order)), View(After(nodes, flat, prev)));
      NothingHidden(nodes, flat, prev);
    }
  }

  lemma NothingHidden(nodes: NodeTable, flat: seq<ContextNode>, prev: State)
    requires forall id :: !Hidden(nodes, flat, prev, id)
    ensures CascadeListed(nodes, flat, prev)
  {
    forall id | id in nodes && Gone(id, flat, prev)
      ensures id in prev
    {
      assert !Hidden(nodes, flat, prev, id);
    }
  }

  /**
   Undoing a snapshot's diffs gives back the state before it if and only if the rows
   compared took in every row that the tree wrote over or the removals cascaded to.
  */
  lemma UndoIsExactIff(nodes: NodeTable, flat: seq<ContextNode>, prev: State, order: seq<NodeId>)
    requires Fits(nodes) && Change(nodes, flat, prev) && ListsRemoved(order, flat, prev)
    ensures Undo(View(After(nodes, flat, prev)), DiffOf(flat, prev, order)) == View(nodes)
            <==> CascadeListed(nodes, flat, prev) && NothingReAdded(nodes, flat, prev)
  {
    if id :| Missed(nodes, flat, prev, id) {
      UndoMatches(nodes, flat, prev, order, id);
    } else {
      forall id {
        UndoMatches(nodes, flat, prev, order, id);
      }
      SameStates(Undo(View(After(nodes, flat, prev)), DiffOf(flat, prev, order)), View(nodes));
      NothingMissed(nodes, flat, prev);
    }
  }

  lemma NothingMissed(nodes: NodeTable, flat: seq<ContextNode>, prev: State)
    requires forall id :: !Missed(nodes, flat, prev, id)
    ensures CascadeListed(nodes, flat, prev) && NothingReAdded(nodes, flat, prev)
  {
    forall id | id in nodes && (Gone(id, flat, prev) || id in ById(flat))
      ensures id in prev
    {
      assert !Missed(nodes, flat, prev, id);
    }
  }
}
