/**
 Pre-seeded temperatures. A JSON object of paths, nested and slash-joined in any mixture,
 is merged into a trie; a file takes the number on its path or the nearest glob.
 Go visits the keys of an object in random order, so an object here lists its fields in
 the order that one visit takes.
*/
module Tempfile {
  import opened Strings
  import opened Wrappers

  datatype Json = Num(value: real) | Obj(fields: seq<Field>) | Other

  datatype Field = Field(key: string, value: Json)

  type Path = seq<string>

  /** `nilMap` marks an entry whose child map was never made; reading it is fine, writing to it is a crash. */
  datatype Entry = Entry(temp: Option<real>, nilMap: bool, children: map<string, Entry>)

  datatype BuildError = BadKey | OutOfRange | BadType | Conflict

  // ----- keys -----

  function Segments(key: string): (r: Result<Path, BuildError>)
    ensures r.Ok? ==> r.value != []
  {
    var a := if "./" <= key then key[2..] else key;
    var norm := if a != "" && a[|a| - 1] == '/' then a[..|a| - 1] else a;
    var segments := SplitOn(norm, '/');
    if norm == "" || exists s | s in segments :: s == "" || s == "." || s == ".." then Err(BadKey) else Ok(segments)
  }

  /** A path of real names. */
  predicate NamesPath(path: Path) {
    path != [] && forall s | s in path :: s != "" && s != "." && s != ".." && '/' !in s
  }

  /** The ways of writing a path as a key: with or without the current directory before it and a slash behind it. */
  predicate Spells(key: string, path: Path) {
    var text := JoinOn(path, '/');
    key == text || key == "./" + text || key == text + "/" || key == "./" + text + "/"
  }

  lemma {:induction false} JoinedEdges(path: Path)
    requires NamesPath(path)
    ensures var text := JoinOn(path, '/');
            text != "" && text[|text| - 1] != '/' && !("./" <= text) && text != "."
  {
    var head := path[0];
    assert head in path && head[0] in head && head[|head| - 1] in head;
    if |path| > 1 {
      assert forall s | s in path[1..] :: s in path;
      JoinedEdges(path[1..]);
      var text := JoinOn(path, '/');
      assert text == head + ['/'] + JoinOn(path[1..], '/');
      if |head| == 1 {
        assert text[0] == head[0] && head == [head[0]];
      } else {
        assert text[1] == head[1] && head[1] in head;
      }
    } else {
      assert |head| > 1 ==> head[1] in head;
    }
  }

  lemma SpelledIsRead(key: string, path: Path)
    requires NamesPath(path) && Spells(key, path)
    ensures Segments(key) == Ok(path)
  {
    var text := JoinOn(path, '/');
    JoinedEdges(path);
    SplitOfJoin(path, '/');
    if key == text || key == text + "/" {
      NoDotBefore(text);
    }
    var a := if "./" <= key then key[2..] else key;
    assert a == text || a == text + "/";
    assert (if a != "" && a[|a| - 1] == '/' then a[..|a| - 1] else a) == text;
  }

  lemma NoDotBefore(text: string)
    requires text != "" && text != "."
    ensures "./" <= text + "/" ==> "./" <= text
  {
    var longer := text + "/";
    assert longer[0] == text[0];
    if |text| > 1 {
      assert longer[1] == text[1];
    } else {
      assert text == [text[0]];
    }
  }

  lemma ReadIsSpelled(key: string)
    requires Segments(key).Ok?
    ensures NamesPath(Segments(key).value) && Spells(key, Segments(key).value)
  {
    var a := if "./" <= key then key[2..] else key;
    var norm := if a != "" && a[|a| - 1] == '/' then a[..|a| - 1] else a;
    PartsLackSep(norm, '/');
    JoinOfSplit(norm, '/');
    assert a == norm || a == norm + "/";
    assert key == a || key == "./" + a;
    assert "./" + (norm + "/") == "./" + norm + "/";
  }

  /** A key is read as a path if and only if it is one of the spellings of the path, and the path has real names. */
  lemma KeyIsPathIff(key: string, path: Path)
    ensures Segments(key) == Ok(path) <==> NamesPath(path) && Spells(key, path)
    ensures Segments(key).Err? ==> Segments(key) == Err(BadKey)
  {
    if Segments(key) == Ok(path) {
      ReadIsSpelled(key);
    } else if NamesPath(path) && Spells(key, path) {
      SpelledIsRead(key, path);
    }
  }

  // ----- building -----

  const EMPTY_ENTRY := Entry(None, false, map[])

  function LeafEntry(t: real): Entry {
    Entry(Some(t), true, map[])
  }

  /** Numbers are leaves in range, and every entry without a number has a child map. */
  predicate Sound(e: Entry) {
    (e.temp.Some? ==> e.children == map[] && 0.0 <= e.temp.value <= 1.0)
    && (e.temp.None? ==> !e.nilMap)
    && forall k | k in e.children :: Sound(e.children[k])
  }

  predicate TempConflict(dst: Entry, src: Entry) {
    if dst.temp.Some? then src.temp.Some? || src.children != map[]
    else src.temp.Some? && dst.children != map[]
  }

  /** Merging fails if any shared child fails, in whatever order the children are visited. */
  function Merge(dst: Entry, src: Entry): (r: Result<Entry, BuildError>)
    ensures r.Ok? && Sound(dst) && Sound(src) ==> Sound(r.value)
    decreases src
  {
    if TempConflict(dst, src) then Err(Conflict)
    else if src.temp.Some? then Ok(dst.(temp := src.temp))
    else if exists k | k in src.children && k in dst.children :: Merge(dst.children[k], src.children[k]).Err? then
      Err(Conflict)
    else
      Ok(Entry(dst.temp, false, map k | k in dst.children.Keys + src.children.Keys ::
        if k !in dst.children then src.children[k]
        else if k !in src.children then dst.children[k]
        else Merge(dst.children[k], src.children[k]).value))
  }

  /** The one way a child is written: into a map that was made. */
  function SetChild(e: Entry, key: string, child: Entry): Entry
    requires !e.nilMap
  {
    e.(children := e.children[key := child])
  }

  /** Makes the child map if there is none. */
  function MakeMap(e: Entry): Entry {
    if e.nilMap then e.(nilMap := false) else e
  }

  /** Grafts `leaf` at a path below `e`, making the entries in between. */
  function Insert(e: Entry, leaf: Entry, segments: Path): (r: Result<Entry, BuildError>)
    requires segments != [] && Sound(e) && e.temp.None? && Sound(leaf)
    ensures r.Ok? ==> Sound(r.value) && r.value.temp.None?
    decreases |segments|
  {
    var seg := segments[0];
    if |segments| == 1 then
      if seg !in e.children then Ok(SetChild(e, seg, leaf))
      else
        match Merge(e.children[seg], leaf)
        case Err(err) => Err(err)
        case Ok(merged) => Ok(SetChild(e, seg, merged))
    else
      var next := if seg in e.children then e.children[seg] else EMPTY_ENTRY;
      if next.temp.Some? then Err(Conflict)
      else
        match Insert(next, leaf, segments[1..])
        case Err(err) => Err(err)
        case Ok(grown) => Ok(SetChild(e, seg, grown))
  }

  function ParseValue(v: Json): (r: Result<Entry, BuildError>)
    ensures r.Ok? ==> Sound(r.value)
    decreases v
  {
    match v
    case Num(t) => if t < 0.0 || t > 1.0 then Err(OutOfRange) else Ok(LeafEntry(t))
    case Obj(fields) => Build(EMPTY_ENTRY, fields)
    case Other => Err(BadType)
  }

  function Build(root: Entry, fields: seq<Field>): (r: Result<Entry, BuildError>)
    requires Sound(root) && root.temp.None?
    ensures r.Ok? ==> Sound(r.value) && r.value.temp.None?
    decreases fields, 0
  {
    if fields == [] then Ok(root)
    else
      match ParseValue(fields[0].value)
      case Err(err) => Err(err)
      case Ok(leaf) =>
        match Segments(fields[0].key)
        case Err(err) => Err(err)
        case Ok(segments) =>
          match Insert(root, leaf, segments)
          case Err(err) => Err(err)
          case Ok(grown) => Build(grown, fields[1..])
  }

  // ----- looking into a trie -----

  function At(e: Entry, path: Path): Option<Entry>
    decreases |path|
  {
    if path == [] then Some(e)
    else if path[0] in e.children then At(e.children[path[0]], path[1..])
    else None
  }

  predicate Declared(e: Entry, path: Path) {
    At(e, path).Some?
  }

  function TempAt(e: Entry, path: Path): Option<real> {
    if At(e, path).Some? then At(e, path).value.temp else None
  }

  lemma {:induction false} AtIsSound(e: Entry, path: Path)
    requires Sound(e) && Declared(e, path)
    ensures Sound(At(e, path).value)
    decreases |path|
  {
    if path != [] {
      AtIsSound(e.children[path[0]], path[1..]);
    }
  }

  lemma {:induction false} AtConcat(e: Entry, a: Path, b: Path)
    ensures At(e, a + b) == if Declared(e, a) then At(At(e, a).value, b) else None
    decreases |a|
  {
    if a == [] {
      assert a + b == b;
    } else {
      assert (a + b)[1..] == a[1..] + b;
      if a[0] in e.children {
        AtConcat(e.children[a[0]], a[1..], b);
      }
    }
  }

  // ----- merging, path by path -----

  ghost predicate ClashAt(dst: Entry, src: Entry, path: Path) {
    Declared(dst, path) && Declared(src, path) && TempConflict(At(dst, path).value, At(src, path).value)
  }

  lemma {:induction false} MergedAt(dst: Entry, src: Entry, path: Path)
    requires Sound(dst) && Sound(src) && Merge(dst, src).Ok?
    ensures var r := Merge(dst, src).value;
            !ClashAt(dst, src, path)
            && (Declared(r, path) <==> Declared(dst, path) || Declared(src, path))
            && TempAt(r, path) == if TempAt(dst, path).Some? then TempAt(dst, path) else TempAt(src, path)
    decreases |path|
  {
    if path != [] && src.temp.None? {
      var k, rest := path[0], path[1..];
      if k in dst.children && k in src.children {
        MergedAt(dst.children[k], src.children[k], rest);
      }
    }
  }

  lemma {:induction false} FailedMergeClashes(dst: Entry, src: Entry) returns (path: Path)
    requires Sound(dst) && Sound(src) && Merge(dst, src).Err?
    ensures ClashAt(dst, src, path)
    decreases src
  {
    if TempConflict(dst, src) {
      path := [];
    } else {
      var k :| k in src.children && k in dst.children && Merge(dst.children[k], src.children[k]).Err?;
      var rest := FailedMergeClashes(dst.children[k], src.children[k]);
      path := [k] + rest;
      assert path[1..] == rest;
    }
  }

  /** A chain of fresh entries ending in `leaf`. */
  function Chain(segments: Path, leaf: Entry): Entry {
    if segments == [] then leaf else Entry(None, false, map[segments[0] := Chain(segments[1..], leaf)])
  }

  lemma {:induction false} ChainIsSound(segments: Path, leaf: Entry)
    requires Sound(leaf)
    ensures Sound(Chain(segments, leaf))
  {
    if segments != [] {
      ChainIsSound(segments[1..], leaf);
    }
  }

  lemma {:induction false} InsertIntoEmpty(leaf: Entry, segments: Path)
    requires segments != [] && Sound(leaf)
    ensures Insert(EMPTY_ENTRY, leaf, segments) == Ok(Chain(segments, leaf))
  {
    if |segments| > 1 {
      InsertIntoEmpty(leaf, segments[1..]);
    } else {
      assert segments[1..] == [];
    }
  }

  /** Walking down a slash-joined key does what merging the nested object would. */
  lemma MergeFails(dst: Entry, src: Entry)
    ensures Merge(dst, src).Ok? || Merge(dst, src) == Err(Conflict)
    ensures src.temp.None? && src.children != map[] && dst.temp.Some? ==> Merge(dst, src).Err?
  {
  }

  /** Merging an entry with one child touches that child only. */
  lemma MergeOneChild(e: Entry, src: Entry, seg: string)
    requires Sound(e) && e.temp.None? && src.temp.None? && src.children.Keys == {seg}
    ensures var sub := src.children[seg];
            if seg in e.children && Merge(e.children[seg], sub).Err? then Merge(e, src) == Err(Conflict)
            else Merge(e, src)
                 == Ok(SetChild(e, seg, if seg in e.children then Merge(e.children[seg], sub).value else sub))
  {
    var sub := src.children[seg];
    assert seg in src.children;
    if seg in e.children && Merge(e.children[seg], sub).Err? {
      assert Merge(e, src).Err?;
    } else {
      var merged := if seg in e.children then Merge(e.children[seg], sub).value else sub;
      assert Merge(e, src).Ok?;
      assert Merge(e, src).value.children == e.children[seg := merged];
    }
  }

  lemma {:induction false} InsertIsMerge(e: Entry, leaf: Entry, segments: Path)
    requires segments != [] && Sound(e) && e.temp.None? && Sound(leaf)
    ensures Insert(e, leaf, segments) == Merge(e, Chain(segments, leaf))
    decreases |segments|
  {
    var seg, rest := segments[0], segments[1..];
    MergeChain(e, leaf, segments);
    if |segments| == 1 {
      assert Chain(rest, leaf) == leaf;
    } else if seg !in e.children {
      InsertIntoEmpty(leaf, rest);
    } else if e.children[seg].temp.None? {
      InsertIsMerge(e.children[seg], leaf, rest);
    } else {
      assert rest[0] in Chain(rest, leaf).children;
      MergeFails(e.children[seg], Chain(rest, leaf));
    }
  }

  /** Merging a chain merges what is left of it into the child of its first segment. */
  lemma MergeChain(e: Entry, leaf: Entry, segments: Path)
    requires segments != [] && Sound(e) && e.temp.None?
    ensures var seg, rest := segments[0], Chain(segments[1..], leaf);
            var grown := if seg in e.children then Merge(e.children[seg], rest) else Ok(rest);
            Merge(e, Chain(segments, leaf)) == if grown.Ok? then Ok(SetChild(e, seg, grown.value)) else grown
  {
    var seg, rest := segments[0], Chain(segments[1..], leaf);
    assert Chain(segments, leaf).children == map[seg := rest];
    MergeOneChild(e, Chain(segments, leaf), seg);
    if seg in e.children {
      MergeFails(e.children[seg], rest);
    }
  }

  // ----- what a file declares, whatever the order of its keys -----

  /** A declared path, with the number it is given or none if it is given an object. */
  datatype Item = Item(path: Path, temp: Option<real>)

  function PathOf(key: string): Path {
    if Segments(key).Ok? then Segments(key).value else []
  }

  function ItemsAt(prefix: Path, v: Json): multiset<Item>
    decreases v
  {
    match v
    case Num(t) => multiset{Item(prefix, Some(t))}
    case Obj(fields) => multiset{Item(prefix, None)} + FieldItems(prefix, fields)
    case Other => multiset{Item(prefix, None)}
  }

  function FieldItems(prefix: Path, fields: seq<Field>): multiset<Item>
    decreases fields, 0
  {
    if fields == [] then multiset{}
    else ItemsAt(prefix + PathOf(fields[0].key), fields[0].value) + FieldItems(prefix, fields[1..])
  }

  /** Keys and values that are valid on their own. */
  predicate ValidJson(v: Json)
    decreases v
  {
    match v
    case Num(t) => 0.0 <= t <= 1.0
    case Obj(fields) => ValidFields(fields)
    case Other => false
  }

  predicate ValidFields(fields: seq<Field>)
    decreases fields, 0
  {
    fields == [] || (Segments(fields[0].key).Ok? && ValidJson(fields[0].value) && ValidFields(fields[1..]))
  }

  /** No path has two numbers, and no numbered path is a proper prefix of another declared path. */
  ghost predicate Consistent(m: multiset<Item>) {
    (forall x | x in m && x.temp.Some? :: m[x] == 1)
    && forall x, y | x in m && y in m && x.temp.Some? && x != y && x.path <= y.path ::
         y.path == x.path && y.temp.None?
  }

  ghost predicate Reaches(m: multiset<Item>, path: Path) {
    exists x | x in m :: path <= x.path
  }

  predicate Numbered(m: multiset<Item>, path: Path, t: real) {
    Item(path, Some(t)) in m
  }

  /** The trie below `prefix` holds exactly the items. */
  ghost predicate Holds(e: Entry, prefix: Path, m: multiset<Item>) {
    (forall x | x in m :: prefix <= x.path)
    && (forall p :: Declared(e, p) <==> Reaches(m, prefix + p))
    && forall p, t :: TempAt(e, p) == Some(t) <==> Numbered(m, prefix + p, t)
  }

  lemma ConsistentParts(a: multiset<Item>, b: multiset<Item>)
    requires Consistent(a + b)
    ensures Consistent(a) && Consistent(b)
  {
    forall x | x in a || x in b
      ensures x in a + b
    {}
    assert forall x | x in a :: a[x] <= (a + b)[x];
    assert forall x | x in b :: b[x] <= (a + b)[x];
  }

  lemma ReachesUnion(a: multiset<Item>, b: multiset<Item>, path: Path)
    ensures Reaches(a + b, path) <==> Reaches(a, path) || Reaches(b, path)
  {
    if Reaches(a, path) {
      var x :| x in a && path <= x.path;
      assert x in a + b;
    }
    if Reaches(b, path) {
      var x :| x in b && path <= x.path;
      assert x in a + b;
    }
  }

  /** If two items on the two sides cannot stand together, the tries clash at the path of the numbered one. */
  lemma CrossItems(dst: Entry, src: Entry, prefix: Path, a: multiset<Item>, b: multiset<Item>, x: Item, y: Item)
    requires Sound(dst) && Sound(src) && Holds(dst, prefix, a) && Holds(src, prefix, b)
    requires x in a && y in b && x.temp.Some? && x.path <= y.path && (y.path != x.path || y.temp.Some?)
    ensures exists p :: ClashAt(dst, src, p)
  {
    var p := x.path[|prefix|..];
    assert prefix + p == x.path;
    NumberIsThere(dst, prefix, a, p, x);
    assert Reaches(b, prefix + p);
    if y.path != x.path {
      ChildIsThere(src, prefix, b, p, y);
    } else {
      NumberIsThere(src, prefix, b, p, y);
    }
    assert ClashAt(dst, src, p);
  }

  lemma NumberIsThere(e: Entry, prefix: Path, m: multiset<Item>, p: Path, x: Item)
    requires Holds(e, prefix, m) && x in m && x.temp.Some? && x.path == prefix + p
    ensures Declared(e, p) && At(e, p).value.temp == x.temp
  {
    assert x == Item(prefix + p, Some(x.temp.value)) && Numbered(m, prefix + p, x.temp.value);
    assert TempAt(e, p) == Some(x.temp.value);
  }

  lemma ChildIsThere(e: Entry, prefix: Path, m: multiset<Item>, p: Path, y: Item)
    requires Holds(e, prefix, m) && y in m && prefix + p < y.path
    ensures Declared(e, p) && At(e, p).value.children != map[]
  {
    var k := y.path[|prefix + p|];
    var deeper := p + [k];
    assert prefix + deeper == prefix + p + [k] <= y.path;
    assert Reaches(m, prefix + deeper) && Declared(e, deeper);
    AtConcat(e, p, [k]);
    assert k in At(e, p).value.children;
  }

  /** A clash comes from two items that cannot stand together. */
  lemma ClashBreaks(dst: Entry, src: Entry, prefix: Path, a: multiset<Item>, b: multiset<Item>, p: Path)
    requires Sound(dst) && Sound(src) && Holds(dst, prefix, a) && Holds(src, prefix, b)
    requires ClashAt(dst, src, p) && At(dst, p).value.temp.Some?
    ensures !Consistent(a + b)
  {
    var x := Item(prefix + p, At(dst, p).value.temp);
    assert TempAt(dst, p) == Some(x.temp.value) && Numbered(a, prefix + p, x.temp.value);
    var d := At(src, p).value;
    if d.temp.Some? {
      assert TempAt(src, p) == Some(d.temp.value) && Numbered(b, prefix + p, d.temp.value);
      TwoNumbers(a, b, x, Item(prefix + p, d.temp));
    } else {
      var y := DeeperItem(src, prefix, b, p);
      NumberAbove(a, b, x, y);
    }
  }

  lemma DeeperItem(e: Entry, prefix: Path, m: multiset<Item>, p: Path) returns (y: Item)
    requires Holds(e, prefix, m) && Declared(e, p) && At(e, p).value.children != map[]
    ensures y in m && prefix + p < y.path
  {
    var k :| k in At(e, p).value.children;
    var deeper := p + [k];
    AtConcat(e, p, [k]);
    assert At(At(e, p).value, [k]).Some?;
    assert Declared(e, deeper) && Reaches(m, prefix + deeper);
    y :| y in m && prefix + deeper <= y.path;
    assert prefix + deeper == prefix + p + [k];
  }

  lemma TwoNumbers(a: multiset<Item>, b: multiset<Item>, x: Item, y: Item)
    requires x in a && y in b && x.temp.Some? && y.temp.Some? && x.path == y.path
    ensures !Consistent(a + b)
  {
    assert x in a + b && y in a + b;
    if x == y {
      assert (a + b)[x] == a[x] + b[x] >= 2;
    }
  }

  lemma NumberAbove(a: multiset<Item>, b: multiset<Item>, x: Item, y: Item)
    requires x in a && y in b && x.temp.Some? && x.path < y.path
    ensures !Consistent(a + b)
  {
    assert x in a + b && y in a + b;
    assert x.path <= y.path && x.path != y.path;
  }

  /**
   Merging two tries succeeds if and only if their items are consistent together, and the
   result holds the items of both.
  */
  lemma MergeMeans(dst: Entry, src: Entry, prefix: Path, a: multiset<Item>, b: multiset<Item>)
    requires Sound(dst) && Sound(src) && Holds(dst, prefix, a) && Holds(src, prefix, b)
    requires Consistent(a) && Consistent(b)
    ensures Merge(dst, src).Ok? <==> Consistent(a + b)
    ensures Merge(dst, src).Ok? ==> Holds(Merge(dst, src).value, prefix, a + b)
  {
    if Merge(dst, src).Ok? {
      MergedHolds(dst, src, prefix, a, b);
      forall p
        ensures !ClashAt(dst, src, p) && !ClashAt(src, dst, p)
      {
        MergedAt(dst, src, p);
      }
      NoClashIsConsistent(dst, src, prefix, a, b);
    } else {
      var p := FailedMergeClashes(dst, src);
      if At(dst, p).value.temp.Some? {
        ClashBreaks(dst, src, prefix, a, b, p);
      } else {
        ClashBreaks(src, dst, prefix, b, a, p);
        assert a + b == b + a;
      }
    }
  }

  lemma MergedHolds(dst: Entry, src: Entry, prefix: Path, a: multiset<Item>, b: multiset<Item>)
    requires Sound(dst) && Sound(src) && Holds(dst, prefix, a) && Holds(src, prefix, b) && Merge(dst, src).Ok?
    ensures Holds(Merge(dst, src).value, prefix, a + b)
  {
    var r := Merge(dst, src).value;
    forall p
      ensures Declared(r, p) <==> Reaches(a + b, prefix + p)
    {
      MergedAt(dst, src, p);
      ReachesUnion(a, b, prefix + p);
    }
    forall p, t
      ensures TempAt(r, p) == Some(t) <==> Numbered(a + b, prefix + p, t)
    {
      MergedAt(dst, src, p);
      assert Numbered(a + b, prefix + p, t) <==> Numbered(a, prefix + p, t) || Numbered(b, prefix + p, t);
      assert TempAt(dst, p) == Some(t) <==> Numbered(a, prefix + p, t);
      assert TempAt(src, p) == Some(t) <==> Numbered(b, prefix + p, t);
      assert TempAt(dst, p).Some? && TempAt(src, p).Some? ==> ClashAt(dst, src, p);
    }
  }

  lemma NoClashIsConsistent(dst: Entry, src: Entry, prefix: Path, a: multiset<Item>, b: multiset<Item>)
    requires Sound(dst) && Sound(src) && Holds(dst, prefix, a) && Holds(src, prefix, b)
    requires Consistent(a) && Consistent(b) && forall p :: !ClashAt(dst, src, p) && !ClashAt(src, dst, p)
    ensures Consistent(a + b)
  {
    forall x, y | x in a + b && y in a + b && x.temp.Some? && x.path <= y.path && (x != y || (x in a && x in b))
      ensures y.path == x.path && y.temp.None?
    {
      if x in a && y in b && (y.path != x.path || y.temp.Some?) {
        CrossItems(dst, src, prefix, a, b, x, y);
      }
      if x in b && y in a && (y.path != x.path || y.temp.Some?) {
        CrossItems(src, dst, prefix, b, a, x, y);
      }
    }
    forall x | x in a + b && x.temp.Some?
      ensures (a + b)[x] == 1
    {
      assert !(x in a && x in b);
      assert (a + b)[x] == a[x] + b[x];
    }
  }

  lemma {:induction false} ChainAt(segments: Path, leaf: Entry, p: Path)
    ensures At(Chain(segments, leaf), p) ==
      if segments <= p then At(leaf, p[|segments|..])
      else if p <= segments then Some(Chain(segments[|p|..], leaf)) else None
    decreases |p|
  {
    if segments != [] && p != [] {
      if p[0] == segments[0] {
        ChainAt(segments[1..], leaf, p[1..]);
        assert segments <= p <==> segments[1..] <= p[1..] by { PrefixTail(segments, p); }
        assert p <= segments <==> p[1..] <= segments[1..] by { PrefixTail(p, segments); }
        if segments <= p {
          assert p[1..][|segments[1..]|..] == p[|segments|..];
        } else if p <= segments {
          assert segments[1..][|p[1..]|..] == segments[|p|..];
        }
      }
    }
  }

  lemma PrefixTail(a: Path, b: Path)
    requires a != [] && b != [] && a[0] == b[0]
    ensures a <= b <==> a[1..] <= b[1..]
  {
    if a[1..] <= b[1..] {
      assert a == [a[0]] + a[1..] && b == [b[0]] + b[1..];
    }
  }

  /** A chain holds below `prefix` what its leaf holds below the longer prefix. */
  lemma ChainHolds(segments: Path, leaf: Entry, prefix: Path, m: multiset<Item>)
    requires Sound(leaf) && Holds(leaf, prefix + segments, m)
    ensures Holds(Chain(segments, leaf), prefix, m)
  {
    var chain := Chain(segments, leaf);
    assert Declared(leaf, []) && Reaches(m, prefix + segments + []);
    var z :| z in m && prefix + segments + [] <= z.path;
    forall p
      ensures Declared(chain, p) <==> Reaches(m, prefix + p)
      ensures forall t :: TempAt(chain, p) == Some(t) <==> Numbered(m, prefix + p, t)
    {
      ChainAt(segments, leaf, p);
      if segments <= p {
        OnTheChain(segments, leaf, prefix, m, p);
      } else {
        OffTheChain(segments, prefix, m, p, z);
      }
    }
  }

  lemma OnTheChain(segments: Path, leaf: Entry, prefix: Path, m: multiset<Item>, p: Path)
    requires Holds(leaf, prefix + segments, m) && segments <= p
    ensures Declared(leaf, p[|segments|..]) <==> Reaches(m, prefix + p)
    ensures forall t :: TempAt(leaf, p[|segments|..]) == Some(t) <==> Numbered(m, prefix + p, t)
  {
    var rest := p[|segments|..];
    assert prefix + p == prefix + segments + rest;
    assert Declared(leaf, rest) <==> Reaches(m, prefix + segments + rest);
    assert forall t :: TempAt(leaf, rest) == Some(t) <==> Numbered(m, prefix + segments + rest, t);
  }

  lemma OneWayOrTheOther(prefix: Path, a: Path, b: Path, path: Path)
    requires prefix + a <= path && prefix + b <= path
    ensures a <= b || b <= a
    ensures prefix + a == path ==> b <= a
  {
    var i := |prefix|;
    assert path[i..i + |a|] == a && path[i..i + |b|] == b;
  }

  lemma OffTheChain(segments: Path, prefix: Path, m: multiset<Item>, p: Path, z: Item)
    requires (forall x | x in m :: prefix + segments <= x.path) && z in m && !(segments <= p)
    ensures Reaches(m, prefix + p) <==> p <= segments
    ensures forall t :: !Numbered(m, prefix + p, t)
  {
    if p <= segments {
      assert prefix + p <= prefix + segments <= z.path;
    } else if Reaches(m, prefix + p) {
      var x :| x in m && prefix + p <= x.path;
      OneWayOrTheOther(prefix, p, segments, x.path);
      assert false;
    }
    forall t
      ensures !Numbered(m, prefix + p, t)
    {
      if Numbered(m, prefix + p, t) {
        OneWayOrTheOther(prefix, p, segments, Item(prefix + p, Some(t)).path);
        assert false;
      }
    }
  }

  // ----- building, for every order of the keys -----

  lemma LeafHolds(prefix: Path, t: real)
    ensures Holds(LeafEntry(t), prefix, multiset{Item(prefix, Some(t))})
  {
    var e, m := LeafEntry(t), multiset{Item(prefix, Some(t))};
    forall p
      ensures Declared(e, p) <==> Reaches(m, prefix + p)
      ensures forall u :: TempAt(e, p) == Some(u) <==> Numbered(m, prefix + p, u)
    {
      assert Item(prefix, Some(t)) in m;
      assert p == [] ==> prefix + p == prefix;
      assert p != [] ==> |prefix + p| > |prefix|;
    }
  }

  lemma EmptyHolds(prefix: Path)
    ensures Holds(EMPTY_ENTRY, prefix, multiset{Item(prefix, None)})
  {
    var e, m := EMPTY_ENTRY, multiset{Item(prefix, None)};
    forall p
      ensures Declared(e, p) <==> Reaches(m, prefix + p)
      ensures forall u :: TempAt(e, p) == Some(u) <==> Numbered(m, prefix + p, u)
    {
      assert Item(prefix, None) in m;
      assert p == [] ==> prefix + p == prefix;
      assert p != [] ==> |prefix + p| > |prefix|;
    }
  }

  lemma {:induction false} ParseMeans(prefix: Path, v: Json)
    ensures ParseValue(v).Ok? <==> ValidJson(v) && Consistent(ItemsAt(prefix, v))
    ensures ParseValue(v).Ok? ==> Holds(ParseValue(v).value, prefix, ItemsAt(prefix, v))
    decreases v
  {
    match v
    case Num(t) => LeafHolds(prefix, t);
    case Obj(fields) =>
      EmptyHolds(prefix);
      BuildMeans(prefix, EMPTY_ENTRY, multiset{Item(prefix, None)}, fields);
    case Other =>
  }

  /**
   Adding the fields of an object to a trie succeeds if and only if keys and values are valid
   and all items are consistent together; the trie then holds them all.
  */
  lemma {:induction false} BuildMeans(prefix: Path, root: Entry, m: multiset<Item>, fields: seq<Field>)
    requires Sound(root) && root.temp.None? && Holds(root, prefix, m) && Consistent(m)
    ensures Build(root, fields).Ok? <==> ValidFields(fields) && Consistent(m + FieldItems(prefix, fields))
    ensures Build(root, fields).Ok? ==> Holds(Build(root, fields).value, prefix, m + FieldItems(prefix, fields))
    decreases fields, 0
  {
    if fields == [] {
      assert m + FieldItems(prefix, fields) == m;
    } else {
      var f, rest := fields[0], fields[1..];
      var path := PathOf(f.key);
      var own, others := ItemsAt(prefix + path, f.value), FieldItems(prefix, rest);
      assert m + FieldItems(prefix, fields) == (m + own) + others;
      if Consistent((m + own) + others) {
        ConsistentParts(m + own, others);
        ConsistentParts(m, own);
      }
      ParseMeans(prefix + path, f.value);
      if ParseValue(f.value).Ok? && Segments(f.key).Ok? {
        var leaf := ParseValue(f.value).value;
        ChainHolds(path, leaf, prefix, own);
        ChainIsSound(path, leaf);
        InsertIsMerge(root, leaf, path);
        MergeMeans(root, Chain(path, leaf), prefix, m, own);
        if Insert(root, leaf, path).Ok? {
          BuildMeans(prefix, Insert(root, leaf, path).value, m + own, rest);
        }
      }
    }
  }

  /** Loading succeeds exactly for valid, consistent files, and yields exactly the declared temperatures. */
  lemma LoadMeans(fields: seq<Field>)
    ensures Build(EMPTY_ENTRY, fields).Ok? <==> ValidFields(fields) && Consistent(ItemsAt([], Obj(fields)))
    ensures Build(EMPTY_ENTRY, fields).Ok? ==>
              forall p, t :: TempAt(Build(EMPTY_ENTRY, fields).value, p) == Some(t)
                             <==> Numbered(ItemsAt([], Obj(fields)), p, t)
  {
    ParseMeans([], Obj(fields));
    if Build(EMPTY_ENTRY, fields).Ok? {
      forall p, t
        ensures TempAt(Build(EMPTY_ENTRY, fields).value, p) == Some(t) <==> Numbered(ItemsAt([], Obj(fields)), p, t)
      {
        assert [] + p == p;
      }
    }
  }

  /** The same object with its keys visited in another order, at any depth. */
  predicate Reordered(a: seq<Field>, b: seq<Field>)
    decreases a, 0
  {
    if a == [] then b == []
    else exists i | 0 <= i < |b| ::
      b[i].key == a[0].key && SameValue(a[0].value, b[i].value) && Reordered(a[1..], b[..i] + b[i + 1..])
  }

  predicate SameValue(a: Json, b: Json)
    decreases a
  {
    a == b || (a.Obj? && b.Obj? && Reordered(a.fields, b.fields))
  }

  lemma {:induction false} FieldItemsConcat(prefix: Path, a: seq<Field>, b: seq<Field>)
    ensures FieldItems(prefix, a + b) == FieldItems(prefix, a) + FieldItems(prefix, b)
    ensures ValidFields(a + b) <==> ValidFields(a) && ValidFields(b)
    decreases |a|
  {
    if a == [] {
      assert a + b == b;
    } else {
      assert (a + b)[1..] == a[1..] + b;
      FieldItemsConcat(prefix, a[1..], b);
    }
  }

  lemma {:induction false} SameValueSameItems(prefix: Path, a: Json, b: Json)
    requires SameValue(a, b)
    ensures ItemsAt(prefix, a) == ItemsAt(prefix, b) && (ValidJson(a) <==> ValidJson(b))
    decreases a
  {
    if a != b {
      ReorderedSameItems(prefix, a.fields, b.fields);
    }
  }

  lemma {:induction false} ReorderedSameItems(prefix: Path, a: seq<Field>, b: seq<Field>)
    requires Reordered(a, b)
    ensures FieldItems(prefix, a) == FieldItems(prefix, b) && (ValidFields(a) <==> ValidFields(b))
    decreases a, 0
  {
    if a != [] {
      var i :| 0 <= i < |b| && b[i].key == a[0].key && SameValue(a[0].value, b[i].value)
               && Reordered(a[1..], b[..i] + b[i + 1..]);
      SameValueSameItems(prefix + PathOf(a[0].key), a[0].value, b[i].value);
      ReorderedSameItems(prefix, a[1..], b[..i] + b[i + 1..]);
      TakeField(prefix, b, i);
    }
  }

  lemma TakeField(prefix: Path, b: seq<Field>, i: nat)
    requires i < |b|
    ensures FieldItems(prefix, b)
         == ItemsAt(prefix + PathOf(b[i].key), b[i].value) + FieldItems(prefix, b[..i] + b[i + 1..])
    ensures ValidFields(b) <==>
            Segments(b[i].key).Ok? && ValidJson(b[i].value) && ValidFields(b[..i] + b[i + 1..])
  {
    var front, back := b[..i], [b[i]] + b[i + 1..];
    assert b == front + back && back[1..] == b[i + 1..];
    FieldItemsConcat(prefix, front, back);
    FieldItemsConcat(prefix, front, b[i + 1..]);
  }

  /** The order in which keys are visited changes neither whether loading succeeds nor any temperature. */
  lemma OrderDoesNotMatter(a: seq<Field>, b: seq<Field>)
    requires Reordered(a, b)
    ensures Build(EMPTY_ENTRY, a).Ok? <==> Build(EMPTY_ENTRY, b).Ok?
    ensures Build(EMPTY_ENTRY, a).Ok? ==>
              forall p :: TempAt(Build(EMPTY_ENTRY, a).value, p) == TempAt(Build(EMPTY_ENTRY, b).value, p)
  {
    LoadMeans(a);
    LoadMeans(b);
    ReorderedSameItems([], a, b);
    if Build(EMPTY_ENTRY, a).Ok? {
      forall p
        ensures TempAt(Build(EMPTY_ENTRY, a).value, p) == TempAt(Build(EMPTY_ENTRY, b).value, p)
      {
        var ta, tb := TempAt(Build(EMPTY_ENTRY, a).value, p), TempAt(Build(EMPTY_ENTRY, b).value, p);
        assert ta.Some? ==> Numbered(ItemsAt([], Obj(a)), p, ta.value);
        assert tb.Some? ==> Numbered(ItemsAt([], Obj(b)), p, tb.value);
      }
    }
  }

  // ----- the loops -----

  /** Children are merged in whatever order they come; the first failure ends the merge. */
  method MergeEntry(dst: Entry, src: Entry) returns (r: Result<Entry, BuildError>)
    ensures r == Merge(dst, src)
    decreases src
  {
    if TempConflict(dst, src) {
      return Err(Conflict);
    }
    if src.temp.Some? {
      return Ok(dst.(temp := src.temp));
    }
    var grown, failed := MergeChildren(MakeMap(dst), src);
    if failed.Some? {
      FailedChild(dst, src, failed.value);
      return Err(Conflict);
    }
    SameChildren(dst, src, grown.children);
    r := Ok(grown);
  }

  method MergeChildren(dst: Entry, src: Entry) returns (grown: Entry, failed: Option<string>)
    requires !dst.nilMap
    ensures failed.Some? ==>
              var k := failed.value;
              k in src.children && k in dst.children && Merge(dst.children[k], src.children[k]).Err?
    ensures failed.None? ==>
              grown.temp == dst.temp && !grown.nilMap && grown.children.Keys == dst.children.Keys + src.children.Keys
              && forall k | k in grown.children :: ChildOf(dst, src, {}, k, grown.children[k])
    decreases src, 1
  {
    grown, failed := dst, None;
    var left := src.children.Keys;
    while left != {}
      invariant left <= src.children.Keys && grown.temp == dst.temp && !grown.nilMap
      invariant grown.children.Keys == dst.children.Keys + (src.children.Keys - left)
      invariant forall k | k in grown.children :: ChildOf(dst, src, left, k, grown.children[k])
      decreases left
    {
      var k :| k in left;
      var merged := MergeChild(dst, src, k);
      if merged.Err? {
        return grown, Some(k);
      }
      var child := merged.value;
      ChildDone(dst, src, grown.children, left, k, child, grown.children[k := child]);
      grown, left := SetChild(grown, k, child), left - {k};
    }
  }

  method MergeChild(dst: Entry, src: Entry, k: string) returns (r: Result<Entry, BuildError>)
    requires k in src.children
    ensures r.Ok? ==> ChildOf(dst, src, {}, k, r.value)
    ensures r.Err? ==> k in dst.children && Merge(dst.children[k], src.children[k]).Err?
    decreases src, 0
  {
    if k in dst.children {
      r := MergeEntry(dst.children[k], src.children[k]);
    } else {
      r := Ok(src.children[k]);
    }
  }

  lemma FailedChild(dst: Entry, src: Entry, k: string)
    requires !TempConflict(dst, src) && src.temp.None? && k in src.children && k in dst.children
    requires Merge(dst.children[k], src.children[k]).Err?
    ensures Merge(dst, src) == Err(Conflict)
  {}

  /** What one child is while the keys `left` are still to come. */
  predicate ChildOf(dst: Entry, src: Entry, left: set<string>, k: string, child: Entry) {
    if k !in dst.children then k in src.children && child == src.children[k]
    else if k !in src.children || k in left then child == dst.children[k]
    else Merge(dst.children[k], src.children[k]) == Ok(child)
  }

  lemma ChildDone(dst: Entry, src: Entry, children: map<string, Entry>, left: set<string>,
                  k: string, child: Entry, next: map<string, Entry>)
    requires k in left && ChildOf(dst, src, {}, k, child) && next == children[k := child]
    requires forall x | x in children :: ChildOf(dst, src, left, x, children[x])
    ensures forall x | x in next :: ChildOf(dst, src, left - {k}, x, next[x])
  {
    forall x | x in next
      ensures ChildOf(dst, src, left - {k}, x, next[x])
    {
      if x != k {
        assert ChildOf(dst, src, left, x, children[x]);
      }
    }
  }

  lemma SameChildren(dst: Entry, src: Entry, children: map<string, Entry>)
    requires !TempConflict(dst, src) && src.temp.None?
    requires children.Keys == dst.children.Keys + src.children.Keys
    requires forall k | k in children :: ChildOf(dst, src, {}, k, children[k])
    ensures Merge(dst, src) == Ok(Entry(dst.temp, false, children))
  {
    forall k | k in src.children && k in dst.children
      ensures Merge(dst.children[k], src.children[k]).Ok?
    {
      assert ChildOf(dst, src, {}, k, children[k]);
    }
    assert Merge(dst, src).value.children == children;
  }

  method BuildEntry(raw: seq<Field>) returns (r: Result<Entry, BuildError>)
    ensures r == Build(EMPTY_ENTRY, raw)
  {
    var root := EMPTY_ENTRY;
    for i := 0 to |raw|
      invariant Sound(root) && root.temp.None?
      invariant Build(root, raw[i..]) == Build(EMPTY_ENTRY, raw)
    {
      assert raw[i..][0] == raw[i] && raw[i..][1..] == raw[i + 1..];
      var leaf := ParseValue(raw[i].value);
      if leaf.Err? {
        return Err(leaf.error);
      }
      var segments := Segments(raw[i].key);
      if segments.Err? {
        return Err(segments.error);
      }
      var grown := Insert(root, leaf.value, segments.value);
      if grown.Err? {
        return Err(grown.error);
      }
      root := grown.value;
    }
    r := Ok(root);
  }

  // ----- resolving -----

  /** No two prefixes of a path are both numbered. */
  lemma NumberedPrefixIsUnique(e: Entry, path: Path, m: nat, n: nat)
    requires Sound(e) && m <= n <= |path|
    requires TempAt(e, path[..m]).Some? && TempAt(e, path[..n]).Some?
    ensures m == n
  {
    AtIsSound(e, path[..m]);
    assert path[..n] == path[..m] + path[m..n];
    AtConcat(e, path[..m], path[m..n]);
  }

  function GlobAt(e: Entry, path: Path, i: nat): Option<real>
    requires i <= |path|
  {
    TempAt(e, path[..i] + ["*"])
  }

  /** What the rest of a path resolves to, given the number of the nearest glob so far. */
  function Resolved(e: Entry, path: Path, fallback: Option<real>): Option<real>
    decreases |path|
  {
    if path == [] then fallback
    else
      var glob := NearerGlob(e, fallback);
      if path[0] !in e.children then glob
      else
        var child := e.children[path[0]];
        if child.temp.Some? then child.temp else Resolved(child, path[1..], glob)
  }

  function NearerGlob(e: Entry, fallback: Option<real>): Option<real> {
    if "*" in e.children && e.children["*"].temp.Some? then e.children["*"].temp else fallback
  }

  function ResolvedAt(root: Option<Entry>, relPath: string): Option<real> {
    if root.None? then None else Resolved(root.value, SplitOn(relPath, '/'), None)
  }

  ghost predicate NoNumber(e: Entry, path: Path) {
    forall n | 1 <= n <= |path| :: TempAt(e, path[..n]).None?
  }

  ghost predicate NoGlobFrom(e: Entry, path: Path, i: nat) {
    forall j | i <= j < |path| :: GlobAt(e, path, j).None?
  }

  /**
   The number on the path wins; failing that, the number of the deepest glob beside a matched
   prefix; failing that, `fallback`.
  */
  ghost predicate Wins(e: Entry, path: Path, fallback: Option<real>, r: Option<real>) {
    (forall n | 1 <= n <= |path| && TempAt(e, path[..n]).Some? :: r == TempAt(e, path[..n]))
    && (NoNumber(e, path) ==>
          (forall i | 0 <= i < |path| && GlobAt(e, path, i).Some? && NoGlobFrom(e, path, i + 1) ::
             r == GlobAt(e, path, i))
          && (NoGlobFrom(e, path, 0) ==> r == fallback))
  }

  lemma TempBelow(e: Entry, path: Path, n: nat)
    requires 1 <= n <= |path|
    ensures TempAt(e, path[..n])
         == if path[0] in e.children then TempAt(e.children[path[0]], path[1..][..n - 1]) else None
  {
    assert path[..n][0] == path[0] && path[..n][1..] == path[1..][..n - 1];
  }

  lemma GlobHere(e: Entry, path: Path)
    ensures GlobAt(e, path, 0) == if "*" in e.children then e.children["*"].temp else None
  {
    assert path[..0] + ["*"] == ["*"] && ["*"][1..] == [];
  }

  lemma GlobBelow(e: Entry, path: Path, i: nat)
    requires 1 <= i <= |path|
    ensures GlobAt(e, path, i)
         == if path[0] in e.children then GlobAt(e.children[path[0]], path[1..], i - 1) else None
  {
    var full := path[..i] + ["*"];
    assert full[0] == path[0] && full[1..] == path[1..][..i - 1] + ["*"];
  }

  lemma NothingUnderLeaf(e: Entry, path: Path)
    requires Sound(e) && e.temp.Some? && path != []
    ensures TempAt(e, path).None?
  {}

  lemma {:induction false} ResolvedWins(e: Entry, path: Path, fallback: Option<real>)
    requires Sound(e) && e.temp.None?
    ensures Wins(e, path, fallback, Resolved(e, path, fallback))
    decreases |path|
  {
    if path != [] {
      GlobHere(e, path);
      if path[0] !in e.children {
        NoChildWins(e, path, fallback);
      } else if e.children[path[0]].temp.Some? {
        LeafWins(e, path, fallback);
      } else {
        ResolvedWins(e.children[path[0]], path[1..], NearerGlob(e, fallback));
        ChildWins(e, path, fallback, Resolved(e, path, fallback));
      }
    }
  }

  lemma NoChildWins(e: Entry, path: Path, fallback: Option<real>)
    requires Sound(e) && path != [] && path[0] !in e.children
    ensures Wins(e, path, fallback, NearerGlob(e, fallback))
  {
    GlobHere(e, path);
    forall n | 1 <= n <= |path|
      ensures TempAt(e, path[..n]).None? && GlobAt(e, path, n).None?
    {
      TempBelow(e, path, n);
      GlobBelow(e, path, n);
    }
    assert NoGlobFrom(e, path, 1);
  }

  lemma LeafWins(e: Entry, path: Path, fallback: Option<real>)
    requires Sound(e) && path != [] && path[0] in e.children && e.children[path[0]].temp.Some?
    ensures Wins(e, path, fallback, e.children[path[0]].temp)
  {
    var child := e.children[path[0]];
    assert path[1..][..0] == [];
    TempBelow(e, path, 1);
    assert !NoNumber(e, path);
    forall n | 1 < n <= |path|
      ensures TempAt(e, path[..n]).None?
    {
      TempBelow(e, path, n);
      NothingUnderLeaf(child, path[1..][..n - 1]);
    }
  }

  /** What wins below the first segment wins on the whole path. */
  lemma ChildWins(e: Entry, path: Path, fallback: Option<real>, r: Option<real>)
    requires path != [] && path[0] in e.children && e.children[path[0]].temp.None?
    requires Wins(e.children[path[0]], path[1..], NearerGlob(e, fallback), r)
    ensures Wins(e, path, fallback, r)
  {
    var child, rest := e.children[path[0]], path[1..];
    GlobHere(e, path);
    assert rest[..0] == [];
    forall n | 1 <= n <= |path|
      ensures TempAt(e, path[..n]) == TempAt(child, rest[..n - 1])
    {
      TempBelow(e, path, n);
    }
    forall i | 1 <= i < |path|
      ensures GlobAt(e, path, i) == GlobAt(child, rest, i - 1)
    {
      GlobBelow(e, path, i);
    }
    if NoNumber(e, path) {
      NumbersBelow(e, path);
      GlobsBelow(e, path, fallback, r);
    }
  }

  lemma NumbersBelow(e: Entry, path: Path)
    requires path != [] && path[0] in e.children && NoNumber(e, path)
    ensures NoNumber(e.children[path[0]], path[1..])
  {
    forall n | 1 <= n <= |path| - 1
      ensures TempAt(e.children[path[0]], path[1..][..n]).None?
    {
      TempBelow(e, path, n + 1);
    }
  }

  lemma GlobsBelow(e: Entry, path: Path, fallback: Option<real>, r: Option<real>)
    requires path != [] && path[0] in e.children && NoNumber(e.children[path[0]], path[1..])
    requires Wins(e.children[path[0]], path[1..], NearerGlob(e, fallback), r)
    ensures forall i | 0 <= i < |path| && GlobAt(e, path, i).Some? && NoGlobFrom(e, path, i + 1) ::
              r == GlobAt(e, path, i)
    ensures NoGlobFrom(e, path, 0) ==> r == fallback
  {
    var child, rest := e.children[path[0]], path[1..];
    GlobHere(e, path);
    forall i | 0 <= i < |path| && NoGlobFrom(e, path, i + 1)
      ensures NoGlobFrom(child, rest, i)
    {
      forall j | i <= j < |rest|
        ensures GlobAt(child, rest, j).None?
      {
        GlobBelow(e, path, j + 1);
      }
    }
    forall i | 0 <= i < |path| && GlobAt(e, path, i).Some? && NoGlobFrom(e, path, i + 1)
      ensures r == GlobAt(e, path, i)
    {
      if i > 0 {
        GlobBelow(e, path, i);
        assert NoGlobFrom(child, rest, (i - 1) + 1);
      }
    }
    if NoGlobFrom(e, path, 0) {
      assert NoGlobFrom(e, path, 0 + 1);
    }
  }

  lemma {:induction false} ResolvedInRange(e: Entry, path: Path, fallback: Option<real>)
    requires Sound(e) && (fallback.Some? ==> 0.0 <= fallback.value <= 1.0)
    ensures Resolved(e, path, fallback).Some? ==> 0.0 <= Resolved(e, path, fallback).value <= 1.0
    decreases |path|
  {
    if path != [] && path[0] in e.children && e.children[path[0]].temp.None? {
      ResolvedInRange(e.children[path[0]], path[1..], NearerGlob(e, fallback));
    }
  }

  /** The walk down the trie finds what wins on the path, and any result lies between zero and one. */
  method Resolve(root: Option<Entry>, relPath: string) returns (r: Option<real>)
    requires root.Some? ==> Sound(root.value) && root.value.temp.None?
    ensures r == ResolvedAt(root, relPath)
    ensures root.None? ==> r.None?
    ensures root.Some? ==> Wins(root.value, SplitOn(relPath, '/'), None, r)
    ensures r.Some? ==> 0.0 <= r.value <= 1.0
  {
    if root.None? {
      return None;
    }
    var path := SplitOn(relPath, '/');
    ResolvedWins(root.value, path, None);
    ResolvedInRange(root.value, path, None);
    var curr, fallback := root.value, None;
    for i := 0 to |path|
      invariant Resolved(curr, path[i..], fallback) == ResolvedAt(root, relPath)
    {
      var seg := path[i];
      assert path[i..][0] == seg && path[i..][1..] == path[i + 1..];
      if "*" in curr.children && curr.children["*"].temp.Some? {
        fallback := curr.children["*"].temp;
      }
      if seg !in curr.children {
        return fallback;
      }
      var child := curr.children[seg];
      if child.temp.Some? {
        return child.temp;
      }
      curr := child;
    }
    r := fallback;
  }
}
