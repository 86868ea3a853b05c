/**
 Sections of a Markdown file. A stack of open headings decides under which node the next
 block goes; nodes are heap objects whose child lists grow while the stack still refers to them.
*/
module Markdown {
  import opened Wrappers

  /** A top-level block: a heading, a block with extractable content, or one that yields nothing. */
  datatype Block = Heading(level: nat, content: string) | Body(content: string) | Dropped

  // ----- what the tree should be -----

  function Keep(blocks: seq<Block>): seq<Block> {
    if blocks == [] then []
    else
      var last := blocks[|blocks| - 1];
      Keep(blocks[..|blocks| - 1]) + if last.Dropped? then [] else [last]
  }

  /** Nothing but the blocks without content is left out, and the rest stays in order. */
  lemma {:induction false} KeepConcat(a: seq<Block>, b: seq<Block>)
    ensures Keep(a + b) == Keep(a) + Keep(b)
    ensures forall x :: x in Keep(a) <==> x in a && !x.Dropped?
    ensures (forall x | x in a :: !x.Dropped?) ==> Keep(a) == a
    decreases |a| + |b|
  {
    if b != [] {
      assert (a + b)[..|a + b| - 1] == a + b[..|b| - 1];
      KeepConcat(a, b[..|b| - 1]);
    } else if a != [] {
      var init, last := a[..|a| - 1], a[|a| - 1];
      assert a + b == a == init + [last] && Keep(b) == [];
      KeepConcat(init, []);
    } else {
      assert a + b == [] && Keep(a) == [] && Keep(b) == [];
    }
  }

  /** The latest heading before position `k` whose level is below `limit`, or any heading without a limit. */
  function Enclosing(items: seq<Block>, k: nat, limit: Option<nat>): Option<nat>
    requires k <= |items|
  {
    if k == 0 then None
    else if items[k - 1].Heading? && (limit.Some? ==> items[k - 1].level < limit.value) then Some(k - 1)
    else Enclosing(items, k - 1, limit)
  }

  function LimitOf(b: Block): Option<nat> {
    if b.Heading? then Some(b.level) else None
  }

  /** A heading hangs under the latest earlier heading of smaller level, anything else under the latest heading. */
  function Parent(items: seq<Block>, k: nat): (p: Option<nat>)
    requires k < |items|
  {
    Enclosing(items, k, LimitOf(items[k]))
  }

  lemma {:induction false} EnclosingIsLatest(items: seq<Block>, k: nat, limit: Option<nat>)
    requires k <= |items|
    ensures var p := Enclosing(items, k, limit);
            (p.Some? ==> p.value < k && items[p.value].Heading? && (limit.Some? ==> items[p.value].level < limit.value))
            && forall j | (if p.Some? then p.value else -1) < j < k ::
                 items[j].Heading? ==> limit.Some? && limit.value <= items[j].level
  {
    if k > 0 {
      EnclosingIsLatest(items, k - 1, limit);
    }
  }

  function Depth(items: seq<Block>, k: nat): nat
    requires k < |items|
  {
    EnclosingIsLatest(items, k, LimitOf(items[k]));
    if Parent(items, k).Some? then 1 + Depth(items, Parent(items, k).value) else 1
  }

  /** Children so far, in source order. */
  function Kids(items: seq<Block>, n: nat, p: Option<nat>): seq<nat>
    requires n <= |items|
  {
    if n == 0 then [] else Kids(items, n - 1, p) + if Parent(items, n - 1) == p then [n - 1] else []
  }

  lemma {:induction false} KidsMembers(items: seq<Block>, n: nat, p: Option<nat>)
    requires n <= |items|
    ensures forall j: nat :: j in Kids(items, n, p) <==> j < n && Parent(items, j) == p
    ensures forall a, b | 0 <= a < b < |Kids(items, n, p)| :: Kids(items, n, p)[a] < Kids(items, n, p)[b]
    ensures forall j | j in Kids(items, n, p) :: p.Some? ==> p.value < j
  {
    if n > 0 {
      KidsMembers(items, n - 1, p);
      EnclosingIsLatest(items, n - 1, LimitOf(items[n - 1]));
      var before := Kids(items, n - 1, p);
      forall a | 0 <= a < |before|
        ensures before[a] < n - 1
      {
        assert before[a] in before;
      }
    }
  }

  // ----- pre-order over the tree gives back source order -----

  function PreOrder(items: seq<Block>, n: nat, low: int, kids: seq<nat>): seq<nat>
    requires n <= |items| && -1 <= low && forall j | j in kids :: low < j < n
    decreases n - low, |kids|
  {
    if kids == [] then []
    else
      var j := kids[0];
      assert j in kids && forall x | x in kids[1..] :: x in kids;
      KidsMembers(items, n, Some(j));
      [j] + PreOrder(items, n, j, Kids(items, n, Some(j))) + PreOrder(items, n, low, kids[1..])
  }

  predicate AncestorOf(items: seq<Block>, c: nat, n: nat)
    requires n < |items|
    decreases n
  {
    EnclosingIsLatest(items, n, LimitOf(items[n]));
    var p := Parent(items, n);
    p.Some? && (p.value == c || AncestorOf(items, c, p.value))
  }

  /** Everything between a node and one of its descendants is inside it: headings there are deeper. */
  lemma {:induction false} BetweenIsDeeper(items: seq<Block>, c: nat, n: nat)
    requires n < |items| && AncestorOf(items, c, n)
    ensures c < n && items[c].Heading?
    ensures forall i | c < i < n && items[i].Heading? :: items[c].level < items[i].level
    ensures items[n].Heading? ==> items[c].level < items[n].level
    decreases n
  {
    EnclosingIsLatest(items, n, LimitOf(items[n]));
    var p := Parent(items, n).value;
    if p != c {
      BetweenIsDeeper(items, c, p);
    }
  }

  lemma BetweenIsInside(items: seq<Block>, c: nat, k: nat, n: nat)
    requires n < |items| && AncestorOf(items, c, n) && c < k < n
    ensures Parent(items, k).Some? && c <= Parent(items, k).value
  {
    BetweenIsDeeper(items, c, n);
    EnclosingIsLatest(items, k, LimitOf(items[k]));
  }

  predicate OnPath(items: seq<Block>, p: Option<nat>, n: nat)
    requires n < |items|
  {
    p.None? || AncestorOf(items, p.value, n)
  }

  function LowOf(p: Option<nat>): int {
    if p.Some? then p.value else -1
  }

  function Subtree(items: seq<Block>, n: nat, p: Option<nat>): seq<nat>
    requires n <= |items|
  {
    KidsMembers(items, n, p);
    PreOrder(items, n, LowOf(p), Kids(items, n, p))
  }

  lemma {:induction false} AncestorTransitive(items: seq<Block>, a: nat, b: nat, n: nat)
    requires n < |items| && b < |items| && AncestorOf(items, b, n) && AncestorOf(items, a, b)
    ensures AncestorOf(items, a, n)
    decreases n
  {
    EnclosingIsLatest(items, n, LimitOf(items[n]));
    var p := Parent(items, n).value;
    if p != b {
      AncestorTransitive(items, a, b, p);
    }
  }

  /** A new item leaves the subtrees it does not hang under alone. */
  lemma {:induction false} OtherSubtreesStay(items: seq<Block>, n: nat, low: int, kids: seq<nat>)
    requires n < |items| && -1 <= low && forall j | j in kids :: low < j < n
    requires forall j | j in kids :: !AncestorOf(items, j, n)
    ensures PreOrder(items, n + 1, low, kids) == PreOrder(items, n, low, kids)
    decreases n - low, |kids|
  {
    if kids != [] {
      var j := kids[0];
      assert j in kids && forall x | x in kids[1..] :: x in kids;
      KidsMembers(items, n, Some(j));
      assert Parent(items, n) != Some(j);
      assert Kids(items, n + 1, Some(j)) == Kids(items, n, Some(j));
      forall x | x in Kids(items, n, Some(j))
        ensures !AncestorOf(items, x, n)
      {
        if AncestorOf(items, x, n) {
          AncestorTransitive(items, j, x, n);
        }
      }
      OtherSubtreesStay(items, n, j, Kids(items, n, Some(j)));
      OtherSubtreesStay(items, n, low, kids[1..]);
    }
  }

  lemma {:induction false} PreOrderConcat(items: seq<Block>, n: nat, low: int, a: seq<nat>, b: seq<nat>)
    requires n <= |items| && -1 <= low && (forall j | j in a :: low < j < n) && (forall j | j in b :: low < j < n)
    ensures PreOrder(items, n, low, a + b) == PreOrder(items, n, low, a) + PreOrder(items, n, low, b)
    decreases |a|
  {
    if a == [] {
      assert a + b == b;
    } else {
      var j, ab := a[0], a + b;
      assert j in a && (forall x | x in a[1..] :: x in a);
      assert ab[0] == j && ab[1..] == a[1..] + b;
      KidsMembers(items, n, Some(j));
      PreOrderConcat(items, n, low, a[1..], b);
      var own := PreOrder(items, n, j, Kids(items, n, Some(j)));
      assert PreOrder(items, n, low, a) == [j] + own + PreOrder(items, n, low, a[1..]);
      assert PreOrder(items, n, low, ab) == [j] + own + PreOrder(items, n, low, ab[1..]);
    }
  }

  /** The child of `p` whose subtree the item `n` goes into. */
  function PathChild(items: seq<Block>, p: Option<nat>, n: nat): (c: nat)
    requires n < |items| && OnPath(items, p, n) && Parent(items, n) != p
    ensures AncestorOf(items, c, n) && c < n && Parent(items, c) == p
    decreases n
  {
    EnclosingIsLatest(items, n, LimitOf(items[n]));
    var q := Parent(items, n).value;
    if Parent(items, q) == p then q
    else
      var c := PathChild(items, p, q);
      AncestorTransitive(items, c, q, n);
      c
  }

  /** The child whose subtree the next block belongs to is the last one so far. */
  lemma NoneBehind(items: seq<Block>, n: nat, p: Option<nat>, c: nat)
    requires n < |items| && AncestorOf(items, c, n) && c < n && Parent(items, c) == p && c in Kids(items, n, p)
    ensures var kids := Kids(items, n, p); kids[|kids| - 1] == c
  {
    var kids := Kids(items, n, p);
    KidsMembers(items, n, p);
    var at :| 0 <= at < |kids| && kids[at] == c;
    if at < |kids| - 1 {
      assert kids[at + 1] in kids;
      BetweenIsInside(items, c, kids[at + 1], n);
      assert false;
    }
  }

  lemma SplitLast(items: seq<Block>, n: nat, p: Option<nat>, c: nat)
    requires n < |items| && AncestorOf(items, c, n) && c < n && Parent(items, c) == p
    ensures var kids := Kids(items, n, p);
            kids != [] && kids == kids[..|kids| - 1] + [c]
            && forall j | j in kids[..|kids| - 1] :: j in kids && !AncestorOf(items, j, n)
  {
    var kids := Kids(items, n, p);
    KidsMembers(items, n, p);
    assert c in kids;
    NoneBehind(items, n, p, c);
    var at := |kids| - 1;
    forall j | j in kids[..at]
      ensures j in kids && !AncestorOf(items, j, n)
    {
      if AncestorOf(items, j, n) {
        BetweenIsInside(items, j, c, n);
      }
    }
  }

  lemma {:induction false} NoKidsYet(items: seq<Block>, m: nat, n: nat)
    requires m <= |items| && m <= n + 1
    ensures Kids(items, m, Some(n)) == []
  {
    if m > 0 {
      EnclosingIsLatest(items, m - 1, LimitOf(items[m - 1]));
      NoKidsYet(items, m - 1, n);
    }
  }

  lemma SiblingsAreNoAncestors(items: seq<Block>, n: nat, p: Option<nat>)
    requires n < |items| && Parent(items, n) == p
    ensures forall j | j in Kids(items, n, p) :: LowOf(p) < j < n && !AncestorOf(items, j, n)
  {
    KidsMembers(items, n, p);
    forall j | j in Kids(items, n, p)
      ensures !AncestorOf(items, j, n)
    {
      EnclosingIsLatest(items, n, LimitOf(items[n]));
      if AncestorOf(items, j, n) {
        BetweenIsDeeper(items, j, p.value);
        assert false;
      }
    }
  }

  lemma ParentIsBefore(items: seq<Block>, n: nat)
    requires n < |items|
    ensures LowOf(Parent(items, n)) < n
  {
    EnclosingIsLatest(items, n, LimitOf(items[n]));
  }

  /** One more root without children goes last. */
  lemma LeafGoesLast(items: seq<Block>, n: nat, low: int, kids: seq<nat>)
    requires n < |items| && -1 <= low < n && forall j | j in kids :: low < j < n && !AncestorOf(items, j, n)
    ensures PreOrder(items, n + 1, low, kids + [n]) == PreOrder(items, n, low, kids) + [n]
  {
    OtherSubtreesStay(items, n, low, kids);
    PreOrderConcat(items, n + 1, low, kids, [n]);
    assert PreOrder(items, n + 1, low, [n]) == [n] by {
      LastSubtree(items, n + 1, low, n);
      NoKidsYet(items, n + 1, n);
    }
  }

  lemma SubtreeIs(items: seq<Block>, n: nat, p: Option<nat>, kids: seq<nat>)
    requires n <= |items| && kids == Kids(items, n, p)
    ensures (forall j | j in kids :: LowOf(p) < j < n) && Subtree(items, n, p) == PreOrder(items, n, LowOf(p), kids)
  {
    KidsMembers(items, n, p);
  }

  lemma GrowsHere(items: seq<Block>, n: nat, p: Option<nat>)
    requires n < |items| && Parent(items, n) == p
    ensures Subtree(items, n + 1, p) == Subtree(items, n, p) + [n]
  {
    var kids, low := Kids(items, n, p), LowOf(p);
    ParentIsBefore(items, n);
    assert Kids(items, n + 1, p) == kids + [n];
    assert PreOrder(items, n + 1, low, kids + [n]) == PreOrder(items, n, low, kids) + [n] by {
      SiblingsAreNoAncestors(items, n, p);
      LeafGoesLast(items, n, low, kids);
    }
    SubtreeIs(items, n, p, kids);
    SubtreeIs(items, n + 1, p, kids + [n]);
  }

  /** An item appended to the source is appended to the pre-order of every subtree that it belongs to. */
  lemma {:induction false} SubtreeGrows(items: seq<Block>, n: nat, p: Option<nat>)
    requires n < |items| && OnPath(items, p, n)
    ensures Subtree(items, n + 1, p) == Subtree(items, n, p) + [n]
    decreases n - LowOf(p)
  {
    if Parent(items, n) == p {
      GrowsHere(items, n, p);
    } else {
      var c := PathChild(items, p, n);
      KidsMembers(items, n, p);
      EnclosingIsLatest(items, c, LimitOf(items[c]));
      SubtreeGrows(items, n, Some(c));
      GrowsInLastChild(items, n, p, c);
    }
  }

  lemma MoveLast(front: seq<nat>, mid: seq<nat>, n: nat)
    ensures front + (mid + [n]) == (front + mid) + [n]
  {
  }

  lemma GrowsInLastChild(items: seq<Block>, n: nat, p: Option<nat>, c: nat)
    requires n < |items| && AncestorOf(items, c, n) && c < n && Parent(items, c) == p && Parent(items, n) != p
    requires Subtree(items, n + 1, Some(c)) == Subtree(items, n, Some(c)) + [n]
    ensures Subtree(items, n + 1, p) == Subtree(items, n, p) + [n]
  {
    var kids := Kids(items, n, p);
    SplitLast(items, n, p, c);
    assert Kids(items, n + 1, p) == kids;
    GrownSplit(items, n, p, kids[..|kids| - 1], c, Subtree(items, n, Some(c)));
  }

  lemma GrownSplit(items: seq<Block>, n: nat, p: Option<nat>, front: seq<nat>, c: nat, below: seq<nat>)
    requires n < |items| && Kids(items, n, p) == front + [c] && Kids(items, n + 1, p) == front + [c]
    requires below == Subtree(items, n, Some(c)) && below + [n] == Subtree(items, n + 1, Some(c))
    requires forall j | j in front :: !AncestorOf(items, j, n)
    ensures Subtree(items, n + 1, p) == Subtree(items, n, p) + [n]
  {
    SubtreeOfSplit(items, n, p, front, c, below);
    SubtreeOfSplit(items, n + 1, p, front, c, below + [n]);
    OtherSubtreesStay(items, n, LowOf(p), front);
    MoveLast([c], below, n);
    MoveLast(PreOrder(items, n, LowOf(p), front), [c] + below, n);
  }

  lemma SubtreeOfSplit(items: seq<Block>, n: nat, p: Option<nat>, front: seq<nat>, c: nat, below: seq<nat>)
    requires n <= |items| && Kids(items, n, p) == front + [c] && below == Subtree(items, n, Some(c))
    ensures (forall j | j in front :: LowOf(p) < j < n) && LowOf(p) < c < n
    ensures Subtree(items, n, p) == PreOrder(items, n, LowOf(p), front) + ([c] + below)
  {
    KidsMembers(items, n, p);
    assert forall j | j in front :: j in front + [c];
    assert c in front + [c];
    PreOrderConcat(items, n, LowOf(p), front, [c]);
    LastSubtree(items, n, LowOf(p), c);
  }

  lemma LastSubtree(items: seq<Block>, n: nat, low: int, c: nat)
    requires n <= |items| && -1 <= low < c < n
    ensures PreOrder(items, n, low, [c]) == [c] + Subtree(items, n, Some(c))
  {
    KidsMembers(items, n, Some(c));
    assert [c][1..] == [];
    assert PreOrder(items, n, low, [c][1..]) == [];
  }

  function UpTo(n: nat): seq<nat> {
    seq(n, i => i)
  }

  /** Flattening the tree returns every kept block once, in source order. */
  lemma {:induction false} FlattenIsSourceOrder(items: seq<Block>, n: nat)
    requires n <= |items|
    ensures Subtree(items, n, None) == UpTo(n)
  {
    if n > 0 {
      FlattenIsSourceOrder(items, n - 1);
      SubtreeGrows(items, n - 1, None);
      assert UpTo(n) == UpTo(n - 1) + [n - 1];
    }
  }

  // ----- the stack -----

  /** The open headings, outermost first: the last heading, its parent, and so on. */
  ghost predicate Spine(items: seq<Block>, n: nat, spine: seq<nat>)
    requires n <= |items|
  {
    (forall m | 0 <= m < |spine| :: spine[m] < n && items[spine[m]].Heading?)
    && Enclosing(items, n, None) == (if spine == [] then None else Some(spine[|spine| - 1]))
    && forall m | 0 <= m < |spine| :: Parent(items, spine[m]) == if m == 0 then None else Some(spine[m - 1])
  }

  lemma {:induction false} SkipTo(items: seq<Block>, a: nat, b: nat, limit: Option<nat>)
    requires a <= b <= |items|
    requires forall j | a <= j < b && items[j].Heading? :: limit.Some? && limit.value <= items[j].level
    ensures Enclosing(items, b, limit) == Enclosing(items, a, limit)
  {
    if a < b {
      SkipTo(items, a, b - 1, limit);
    }
  }

  /** Levels grow strictly along the spine. */
  lemma SpineLevelsGrow(items: seq<Block>, n: nat, spine: seq<nat>)
    requires n <= |items| && Spine(items, n, spine)
    ensures forall m | 0 <= m < |spine| - 1 ::
              spine[m] < spine[m + 1] && items[spine[m]].level < items[spine[m + 1]].level
  {
    forall m | 0 <= m < |spine| - 1
      ensures spine[m] < spine[m + 1] && items[spine[m]].level < items[spine[m + 1]].level
    {
      EnclosingIsLatest(items, spine[m + 1], Some(items[spine[m + 1]].level));
      assert Parent(items, spine[m + 1]) == Some(spine[m]);
    }
  }

  /** Popping every open heading of no smaller level leaves the enclosing heading on top. */
  lemma {:induction false} PopFindsEnclosing(items: seq<Block>, n: nat, spine: seq<nat>, kept: nat, level: nat)
    requires n <= |items| && Spine(items, n, spine) && kept <= |spine|
    requires forall m | kept <= m < |spine| :: level <= items[spine[m]].level
    requires kept > 0 ==> items[spine[kept - 1]].level < level
    ensures Enclosing(items, n, Some(level)) == if kept == 0 then None else Some(spine[kept - 1])
  {
    EnclosingIsLatest(items, n, None);
    var top := if spine == [] then 0 else spine[|spine| - 1] + 1;
    SkipTo(items, top, n, Some(level));
    PopFrom(items, n, spine, kept, |spine|, level);
  }

  lemma {:induction false} PopFrom(items: seq<Block>, n: nat, spine: seq<nat>, kept: nat, m: nat, level: nat)
    requires n <= |items| && Spine(items, n, spine) && kept <= m <= |spine|
    requires forall i | kept <= i < |spine| :: level <= items[spine[i]].level
    requires kept > 0 ==> items[spine[kept - 1]].level < level
    ensures (if m == 0 then None else Enclosing(items, spine[m - 1] + 1, Some(level)))
            == if kept == 0 then None else Some(spine[kept - 1])
    decreases m
  {
    if kept < m {
      var h := spine[m - 1];
      EnclosingIsLatest(items, h, Some(items[h].level));
      assert Parent(items, h) == if m - 1 == 0 then None else Some(spine[m - 2]);
      SkipTo(items, if m == 1 then 0 else spine[m - 2] + 1, h, Some(level));
      PopFrom(items, n, spine, kept, m - 1, level);
    }
  }

  // ----- nodes on the heap -----

  class Node {
    const content: string
    var depth: nat
    var children: seq<Node>

    constructor (content: string)
      ensures this.content == content && children == []
    {
      this.content, depth, children := content, 0, [];
    }
  }

  datatype Frame = Frame(node: Node?, level: nat)

  function Refs(made: seq<Node>, ks: seq<nat>): seq<Node>
    requires forall k | k in ks :: k < |made|
  {
    seq(|ks|, i requires 0 <= i < |ks| => assert ks[i] in ks; made[ks[i]])
  }

  ghost predicate KidsBelow(items: seq<Block>, n: nat, p: Option<nat>, bound: nat)
    requires n <= |items|
  {
    forall j | j in Kids(items, n, p) :: j < bound
  }

  ghost predicate NodeBuilt(items: seq<Block>, n: nat, made: seq<Node>, k: nat)
    requires k < n <= |items| && k < |made|
    reads made[k]
  {
    !items[k].Dropped? && made[k].content == items[k].content && made[k].depth == Depth(items, k)
    && KidsBelow(items, n, Some(k), |made|) && made[k].children == Refs(made, Kids(items, n, Some(k)))
  }

  /** The first `n` items have been turned into the nodes `made`, wired as the specification says. */
  ghost predicate Built(items: seq<Block>, n: nat, made: seq<Node>)
    reads set o | o in made
  {
    n == |made| <= |items|
    && (forall j, k | 0 <= j < k < n :: made[j] != made[k])
    && forall k | 0 <= k < n :: NodeBuilt(items, n, made, k)
  }

  ghost predicate StackIs(items: seq<Block>, stack: seq<Frame>, made: seq<Node>, spine: seq<nat>)
    requires |made| <= |items|
  {
    |stack| == |spine| + 1 && stack[0] == Frame(null, 0) && Spine(items, |made|, spine)
    && forall m | 0 <= m < |spine| :: stack[m + 1] == Frame(made[spine[m]], items[spine[m]].level)
  }

  method PopSections(stack: seq<Frame>, level: nat) returns (open: seq<Frame>)
    requires stack != []
    ensures 0 < |open| <= |stack| && open == stack[..|open|]
    ensures |open| > 1 ==> open[|open| - 1].level < level
    ensures forall i | |open| <= i < |stack| :: level <= stack[i].level
  {
    open := stack;
    while |open| > 1 && open[|open| - 1].level >= level
      invariant 0 < |open| <= |stack| && open == stack[..|open|]
      invariant forall i | |open| <= i < |stack| :: level <= stack[i].level
    {
      open := open[..|open| - 1];
    }
  }

  method AttachNode(stack: seq<Frame>, out: seq<Node>, n: Node) returns (roots: seq<Node>)
    requires stack != [] && stack[|stack| - 1].node != n
    modifies n`depth, if stack[|stack| - 1].node == null then {} else {stack[|stack| - 1].node}
    ensures var top := stack[|stack| - 1].node;
            if top == null then n.depth == 1 && roots == out + [n]
            else n.depth == old(top.depth) + 1 && roots == out
                 && top.children == old(top.children) + [n] && top.depth == old(top.depth)
  {
    var top := stack[|stack| - 1].node;
    if top == null {
      n.depth := 1;
      return out + [n];
    }
    n.depth := top.depth + 1;
    top.children := top.children + [n];
    roots := out;
  }

  /** The references under `p` once item `n` exists. */
  lemma RefsGrow(items: seq<Block>, made: seq<Node>, node: Node, p: Option<nat>)
    requires |made| < |items| && KidsBelow(items, |made|, p, |made|)
    ensures var n := |made|;
            KidsBelow(items, n + 1, p, n + 1)
            && Refs(made + [node], Kids(items, n + 1, p))
               == Refs(made, Kids(items, n, p)) + if Parent(items, n) == p then [node] else []
  {
    var n, all := |made|, made + [node];
    var few, many := Kids(items, n, p), Kids(items, n + 1, p);
    assert forall i | 0 <= i < |few| :: few[i] in few && all[few[i]] == made[few[i]];
  }

  lemma Regroup(a: seq<Node>, b: seq<Node>, c: seq<Node>)
    ensures a + (b + c) == (a + b) + c
  {
  }

  /** Creates the node of item `n` under the top of the stack, which is its parent. */
  method PlaceItem(ghost items: seq<Block>, ghost made: seq<Node>, stack: seq<Frame>, out: seq<Node>, content: string,
                   ghost front: seq<Node>)
    returns (roots: seq<Node>, node: Node)
    requires |made| < |items| && Built(items, |made|, made) && stack != []
    requires !items[|made|].Dropped? && items[|made|].content == content
    requires TopIsParent(items, made, stack) && KidsBelow(items, |made|, None, |made|)
    requires out == front + Refs(made, Kids(items, |made|, None))
    modifies made
    ensures fresh(node) && node !in made && Built(items, |made| + 1, made + [node])
    ensures KidsBelow(items, |made| + 1, None, |made| + 1)
    ensures roots == front + Refs(made + [node], Kids(items, |made| + 1, None))
  {
    ghost var n := |made|;
    node := new Node(content);
    roots := AttachNode(stack, out, node);
    ghost var all, m, p := made + [node], n + 1, Parent(items, n);
    forall k | 0 <= k < n
      ensures NodeBuilt(items, m, all, k)
    {
      assert old(NodeBuilt(items, n, made, k));
      RefsGrow(items, made, node, Some(k));
      assert all[k] == made[k];
      assert made[k].children == old(made[k].children) + if p == Some(k) then [node] else [];
    }
    assert p.Some? ==> old(NodeBuilt(items, n, made, p.value));
    NewIsBuilt(items, all, n);
    RefsGrow(items, made, node, None);
    Regroup(front, Refs(made, Kids(items, n, None)), [node]);
  }

  /** A node just attached is as the specification wants it: it has no children yet. */
  lemma NewIsBuilt(items: seq<Block>, all: seq<Node>, n: nat)
    requires n < |items| && |all| == n + 1 && !items[n].Dropped? && all[n].content == items[n].content
    requires all[n].depth == Depth(items, n) && all[n].children == []
    ensures NodeBuilt(items, n + 1, all, n)
  {
    NoKidsYet(items, n + 1, n);
  }

  ghost predicate TopIsParent(items: seq<Block>, made: seq<Node>, stack: seq<Frame>)
    requires |made| < |items| && stack != []
  {
    var p, top := Parent(items, |made|), stack[|stack| - 1].node;
    if p.None? then top == null else p.value < |made| && top == made[p.value]
  }

  lemma {:induction false} KeepPrefix(blocks: seq<Block>, i: nat)
    requires i <= |blocks|
    ensures |Keep(blocks[..i])| <= |Keep(blocks)| && Keep(blocks[..i]) == Keep(blocks)[..|Keep(blocks[..i])|]
    decreases |blocks| - i
  {
    if i < |blocks| {
      KeepPrefix(blocks, i + 1);
      assert blocks[..i + 1][..i] == blocks[..i];
    } else {
      assert blocks[..i] == blocks;
    }
  }

  lemma TopAfterPop(items: seq<Block>, stack: seq<Frame>, made: seq<Node>, spine: seq<nat>, kept: nat)
    requires |made| < |items| && StackIs(items, stack, made, spine) && items[|made|].Heading? && kept <= |spine|
    requires forall i | kept < i < |stack| :: items[|made|].level <= stack[i].level
    requires kept > 0 ==> stack[kept].level < items[|made|].level
    ensures TopIsParent(items, made, stack[..kept + 1])
    ensures Parent(items, |made|) == if kept == 0 then None else Some(spine[kept - 1])
  {
    var level := items[|made|].level;
    forall m | kept <= m < |spine|
      ensures level <= items[spine[m]].level
    {
      assert stack[m + 1] == Frame(made[spine[m]], items[spine[m]].level);
    }
    assert kept > 0 ==> stack[kept] == Frame(made[spine[kept - 1]], items[spine[kept - 1]].level);
    PopFindsEnclosing(items, |made|, spine, kept, level);
  }

  lemma BodyUnderTop(items: seq<Block>, stack: seq<Frame>, made: seq<Node>, spine: seq<nat>)
    requires |made| < |items| && StackIs(items, stack, made, spine) && items[|made|].Body?
    ensures TopIsParent(items, made, stack)
  {}

  lemma BodyKeepsStack(items: seq<Block>, stack: seq<Frame>, made: seq<Node>, spine: seq<nat>, node: Node)
    requires |made| < |items| && StackIs(items, stack, made, spine) && items[|made|].Body?
    ensures StackIs(items, stack, made + [node], spine)
  {
    assert Enclosing(items, |made| + 1, None) == Enclosing(items, |made|, None);
  }

  /** A heading becomes the innermost open section, above those that were kept. */
  lemma PushHeading(items: seq<Block>, stack: seq<Frame>, made: seq<Node>, spine: seq<nat>, kept: nat, node: Node)
    requires |made| < |items| && StackIs(items, stack, made, spine) && items[|made|].Heading? && kept <= |spine|
    requires Parent(items, |made|) == if kept == 0 then None else Some(spine[kept - 1])
    ensures StackIs(items, stack[..kept + 1] + [Frame(node, items[|made|].level)], made + [node],
                    spine[..kept] + [|made|])
  {
    var n := |made|;
    var longer := spine[..kept] + [n];
    forall m | 0 <= m < |longer|
      ensures Parent(items, longer[m]) == if m == 0 then None else Some(longer[m - 1])
    {
      if m < kept {
        assert longer[m] == spine[m] && (m > 0 ==> longer[m - 1] == spine[m - 1]);
        assert Parent(items, spine[m]) == if m == 0 then None else Some(spine[m - 1]);
      }
    }
    assert Spine(items, n + 1, longer);
  }

  /**
   Parses the blocks after an optional preamble node. Every kept block becomes one node, under
   its enclosing heading, and the roots follow the preamble in source order.
  */
  method ParseMarkdown(blocks: seq<Block>, front: seq<Node>) returns (out: seq<Node>, ghost made: seq<Node>)
    ensures fresh(set o | o in made)
    ensures var items := Keep(blocks); Built(items, |items|, made) && KidsBelow(items, |items|, None, |made|)
    ensures out == front + Refs(made, Kids(Keep(blocks), |Keep(blocks)|, None))
  {
    ghost var items := Keep(blocks);
    ghost var spine: seq<nat> := [];
    var stack := [Frame(null, 0)];
    out, made := front, [];
    for i := 0 to |blocks|
      invariant fresh(set o | o in made)
      invariant |made| <= |items| && |made| == |Keep(blocks[..i])|
      invariant Built(items, |made|, made) && StackIs(items, stack, made, spine)
      invariant KidsBelow(items, |made|, None, |made|)
      invariant out == front + Refs(made, Kids(items, |made|, None))
    {
      var block := blocks[i];
      NextItem(blocks, i);
      if block.Heading? {
        var open := PopSections(stack, block.level);
        ghost var kept := |open| - 1;
        TopAfterPop(items, stack, made, spine, kept);
        var node;
        out, node := PlaceItem(items, made, open, out, block.content, front);
        PushHeading(items, stack, made, spine, kept, node);
        stack := open + [Frame(node, block.level)];
        made, spine := made + [node], spine[..kept] + [|made|];
      } else if block.Body? {
        var node;
        BodyUnderTop(items, stack, made, spine);
        out, node := PlaceItem(items, made, stack, out, block.content, front);
        BodyKeepsStack(items, stack, made, spine, node);
        made := made + [node];
      }
    }
    assert blocks[..|blocks|] == blocks;
  }

  lemma NextItem(blocks: seq<Block>, i: nat)
    requires i < |blocks|
    ensures var n := |Keep(blocks[..i])|; var items := Keep(blocks);
            if blocks[i].Dropped? then |Keep(blocks[..i + 1])| == n
            else |Keep(blocks[..i + 1])| == n + 1 <= |items| && items[n] == blocks[i]
  {
    assert blocks[..i + 1][..i] == blocks[..i];
    KeepPrefix(blocks, i + 1);
    var kept := Keep(blocks[..i + 1]);
    assert !blocks[i].Dropped? ==> kept[|kept| - 1] == blocks[i];
  }

  // ----- flattening the heap tree -----

  lemma {:induction false} PreOrderBelow(items: seq<Block>, n: nat, low: int, kids: seq<nat>)
    requires n <= |items| && -1 <= low && forall j | j in kids :: low < j < n
    ensures forall j | j in PreOrder(items, n, low, kids) :: j < n
    decreases n - low, |kids|
  {
    if kids != [] {
      var j := kids[0];
      assert j in kids && forall x | x in kids[1..] :: x in kids;
      KidsMembers(items, n, Some(j));
      PreOrderBelow(items, n, j, Kids(items, n, Some(j)));
      PreOrderBelow(items, n, low, kids[1..]);
    }
  }

  /** The nodes that a subtree list stands for, in pre-order. */
  ghost function Walk(items: seq<Block>, made: seq<Node>, low: int, kids: seq<nat>): seq<Node>
    requires |made| == |items| && -1 <= low && forall j | j in kids :: low < j < |items|
  {
    PreOrderBelow(items, |items|, low, kids);
    Refs(made, PreOrder(items, |items|, low, kids))
  }

  lemma WalkStep(items: seq<Block>, made: seq<Node>, low: int, kids: seq<nat>)
    requires |made| == |items| && -1 <= low && (forall j | j in kids :: low < j < |items|) && kids != []
    ensures var own := Kids(items, |items|, Some(kids[0]));
            (forall j | j in own :: kids[0] < j < |items|) && (forall j | j in kids[1..] :: low < j < |items|)
            && kids[0] < |made|
            && Walk(items, made, low, kids)
               == [made[kids[0]]] + Walk(items, made, kids[0], own) + Walk(items, made, low, kids[1..])
  {
    var j := kids[0];
    assert j in kids && forall x | x in kids[1..] :: x in kids;
    KidsMembers(items, |items|, Some(j));
    PreOrderBelow(items, |items|, j, Kids(items, |items|, Some(j)));
    PreOrderBelow(items, |items|, low, kids[1..]);
    PreOrderBelow(items, |items|, low, kids);
  }

  /** The shape of a forest on the heap. */
  datatype Tree = Tree(node: Node, kids: seq<Tree>)

  function TreePreOrder(trees: seq<Tree>): seq<Node> {
    if trees == [] then [] else [trees[0].node] + TreePreOrder(trees[0].kids) + TreePreOrder(trees[1..])
  }

  /** The forest lies in `repr`, and its child lists on the heap are as the shape says. */
  ghost predicate Shows(repr: set<Node>, nodes: seq<Node>, trees: seq<Tree>)
    reads repr
    decreases trees
  {
    if trees == [] then nodes == []
    else
      nodes != [] && nodes[0] == trees[0].node && nodes[0] in repr
      && Shows(repr, nodes[0].children, trees[0].kids) && Shows(repr, nodes[1..], trees[1..])
  }

  method CollectNodes(acc: seq<Node>, nodes: seq<Node>, ghost repr: set<Node>, ghost trees: seq<Tree>)
      returns (out: seq<Node>)
    requires Shows(repr, nodes, trees)
    ensures out == acc + TreePreOrder(trees)
    decreases trees
  {
    out := acc;
    ghost var left := trees;
    assert nodes[0..] == nodes;
    for i := 0 to |nodes|
      invariant |left| <= |trees| && forall t | t in left :: t in trees
      invariant Shows(repr, nodes[i..], left) && out + TreePreOrder(left) == acc + TreePreOrder(trees)
    {
      assert nodes[i..][0] == nodes[i] && nodes[i..][1..] == nodes[i + 1..];
      ghost var first, rest := left[0], left[1..];
      assert first in left && first in trees;
      Regroup(out, [nodes[i]] + TreePreOrder(first.kids), TreePreOrder(rest));
      Regroup(out, [nodes[i]], TreePreOrder(first.kids));
      out := out + [nodes[i]];
      out := CollectNodes(out, nodes[i].children, repr, first.kids);
      left := rest;
    }
  }

  /** The shape of what was parsed. */
  ghost function TreesOf(items: seq<Block>, made: seq<Node>, low: int, kids: seq<nat>): seq<Tree>
    requires |made| == |items| && -1 <= low && forall j | j in kids :: low < j < |items|
    decreases |items| - low, |kids|
  {
    if kids == [] then []
    else
      var j := kids[0];
      assert j in kids && forall x | x in kids[1..] :: x in kids;
      KidsMembers(items, |items|, Some(j));
      [Tree(made[j], TreesOf(items, made, j, Kids(items, |items|, Some(j))))] + TreesOf(items, made, low, kids[1..])
  }

  lemma {:induction false} TreesWalk(items: seq<Block>, made: seq<Node>, low: int, kids: seq<nat>)
    requires |made| == |items| && -1 <= low && forall j | j in kids :: low < j < |items|
    ensures TreePreOrder(TreesOf(items, made, low, kids)) == Walk(items, made, low, kids)
    decreases |items| - low, |kids|
  {
    if kids != [] {
      var j := kids[0];
      assert j in kids;
      WalkStep(items, made, low, kids);
      TreesWalk(items, made, j, Kids(items, |items|, Some(j)));
      TreesWalk(items, made, low, kids[1..]);
    }
  }

  lemma {:induction false} BuiltShows(items: seq<Block>, made: seq<Node>, low: int, kids: seq<nat>)
    requires Built(items, |items|, made) && -1 <= low && forall j | j in kids :: low < j < |items|
    ensures Shows((set o | o in made), Refs(made, kids), TreesOf(items, made, low, kids))
    decreases |items| - low, |kids|
  {
    if kids != [] {
      var j := kids[0];
      WalkStep(items, made, low, kids);
      assert j in kids && NodeBuilt(items, |items|, made, j);
      BuiltShows(items, made, j, Kids(items, |items|, Some(j)));
      BuiltShows(items, made, low, kids[1..]);
      assert Refs(made, kids)[1..] == Refs(made, kids[1..]);
    }
  }

  lemma {:induction false} ShowsMore(repr: set<Node>, more: set<Node>, nodes: seq<Node>, trees: seq<Tree>)
    requires Shows(repr, nodes, trees) && repr <= more
    ensures Shows(more, nodes, trees)
    decreases trees
  {
    if trees != [] {
      ShowsMore(repr, more, nodes[0].children, trees[0].kids);
      ShowsMore(repr, more, nodes[1..], trees[1..]);
    }
  }

  lemma {:induction false} ShowsConcat(repr: set<Node>, a: seq<Node>, s: seq<Tree>, b: seq<Node>, t: seq<Tree>)
    requires Shows(repr, a, s) && Shows(repr, b, t)
    ensures Shows(repr, a + b, s + t)
    decreases s
  {
    if s == [] {
      assert a + b == b && s + t == t;
    } else {
      ShowsConcat(repr, a[1..], s[1..], b, t);
      assert (a + b)[0] == a[0] && (a + b)[1..] == a[1..] + b;
      assert (s + t)[0] == s[0] && (s + t)[1..] == s[1..] + t;
    }
  }

  lemma {:induction false} TreePreOrderConcat(s: seq<Tree>, t: seq<Tree>)
    ensures TreePreOrder(s + t) == TreePreOrder(s) + TreePreOrder(t)
    decreases s
  {
    if s == [] {
      assert s + t == t;
    } else {
      TreePreOrderConcat(s[1..], t);
      assert (s + t)[0] == s[0] && (s + t)[1..] == s[1..] + t;
      Regroup([s[0].node] + TreePreOrder(s[0].kids), TreePreOrder(s[1..]), TreePreOrder(t));
    }
  }

  /** The whole tree, walked from its roots, is the list of nodes in the order they were made. */
  lemma WholeWalk(items: seq<Block>, made: seq<Node>)
    requires |made| == |items|
    ensures forall j | j in Kids(items, |items|, None) :: -1 < j < |items|
    ensures Walk(items, made, -1, Kids(items, |items|, None)) == made
  {
    KidsMembers(items, |items|, None);
    FlattenIsSourceOrder(items, |items|);
    assert Subtree(items, |items|, None) == PreOrder(items, |items|, -1, Kids(items, |items|, None));
  }

  /** The shape of everything that was parsed. */
  lemma WholeTrees(items: seq<Block>, made: seq<Node>) returns (trees: seq<Tree>)
    requires Built(items, |items|, made) && KidsBelow(items, |items|, None, |made|)
    ensures Shows((set o | o in made), Refs(made, Kids(items, |items|, None)), trees) && TreePreOrder(trees) == made
  {
    var kids := Kids(items, |items|, None);
    WholeWalk(items, made);
    trees := TreesOf(items, made, -1, kids);
    TreesWalk(items, made, -1, kids);
    BuiltShows(items, made, -1, kids);
  }

  lemma NothingBefore(s: seq<Node>)
    ensures [] + s == s
  {}

  lemma Halves(a: seq<Node>, b: seq<Node>)
    ensures (a + b)[..|a|] == a && (a + b)[|a|..] == b
  {}

  /** The preamble's trees with those of the blocks behind them. */
  lemma AllTrees(repr: set<Node>, front: seq<Node>, frontTrees: seq<Tree>, items: seq<Block>, made: seq<Node>)
      returns (trees: seq<Tree>)
    requires Shows(repr, front, frontTrees) && Built(items, |items|, made) && KidsBelow(items, |items|, None, |made|)
    ensures Shows(repr + (set o | o in made), front + Refs(made, Kids(items, |items|, None)), trees)
    ensures TreePreOrder(trees) == TreePreOrder(frontTrees) + made
  {
    var rest := WholeTrees(items, made);
    var refs, all := Refs(made, Kids(items, |items|, None)), repr + (set o | o in made);
    ShowsMore(repr, all, front, frontTrees);
    ShowsMore((set o | o in made), all, refs, rest);
    ShowsConcat(all, front, frontTrees, refs, rest);
    TreePreOrderConcat(frontTrees, rest);
    trees := frontTrees + rest;
  }

  /**
   Parse, then flatten: the preamble's own tree comes first, and after it the kept blocks come
   back once each, in source order.
  */
  method ParseAndFlatten(blocks: seq<Block>, front: seq<Node>, ghost repr: set<Node>, ghost frontTrees: seq<Tree>)
      returns (flat: seq<Node>)
    requires Shows(repr, front, frontTrees)
    ensures var k := |TreePreOrder(frontTrees)|;
            k <= |flat| && flat[..k] == TreePreOrder(frontTrees) && Built(Keep(blocks), |Keep(blocks)|, flat[k..])
  {
    var roots;
    ghost var made;
    roots, made := ParseMarkdown(blocks, front);
    ghost var trees := AllTrees(repr, front, frontTrees, Keep(blocks), made);
    flat := CollectNodes([], roots, repr + (set o | o in made), trees);
    NothingBefore(TreePreOrder(trees));
    Halves(TreePreOrder(frontTrees), made);
  }
}
