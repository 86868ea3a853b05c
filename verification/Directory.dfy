/** Compiling a directory: the walk, the temperature file, and the compile of what was selected. */
module Directory {
  import opened Wrappers
  import opened Ids
  import opened Ast
  import opened Diff
  import opened Tables
  import opened Stores
  import opened Operations
  import opened Compiler
  import opened Strings
  import Ignore
  import Tempfile

  /** A directory's temperature file: none, one that cannot be read as a JSON object, or one with these fields. */
  datatype TempSource = Absent | Unusable | Declares(fields: seq<Tempfile.Field>)

  predicate Loads(source: TempSource) {
    source.Absent? || (source.Declares? && Tempfile.Build(Tempfile.EMPTY_ENTRY, source.fields).Ok?)
  }

  function Loaded(source: TempSource): (trie: Option<Tempfile.Entry>)
    requires Loads(source)
    ensures trie.Some? ==> Tempfile.Sound(trie.value) && trie.value.temp.None?
  {
    if source.Absent? then None else Some(Tempfile.Build(Tempfile.EMPTY_ENTRY, source.fields).value)
  }

  /** The files that the walk selects, in walk order. */
  ghost function Chosen(g: Ignore.Glob, m: Ignore.Matcher, entries: seq<Ignore.Entry>): seq<Ignore.Path>
    requires Ignore.Usable(m)
  {
    Ignore.Choose(g, m, Ignore.AllFiles([], entries))
  }

  /** What was parsed from each path, with the temperature that the path resolves to. */
  function WithTemps(
      paths: seq<Ignore.Path>, read: Ignore.Path -> Option<seq<ParsedNode>>, trie: Option<Tempfile.Entry>)
    : (results: seq<Option<ParsedFile>>)
    ensures |results| == |paths|
    ensures None in results <==> exists p | p in paths :: read(p).None?
  {
    var results := seq(|paths|, i requires 0 <= i < |paths| => OneResult(paths[i], read, trie));
    assert forall i | 0 <= i < |paths| :: results[i].None? <==> read(paths[i]).None?;
    assert forall i | 0 <= i < |paths| :: results[i] in results;
    results
  }

  function OneResult(path: Ignore.Path, read: Ignore.Path -> Option<seq<ParsedNode>>, trie: Option<Tempfile.Entry>)
    : Option<ParsedFile>
  {
    if read(path).None? then None
    else Some(ParsedFile(read(path).value, Tempfile.ResolvedAt(trie, Ignore.Rel(path))))
  }

  /**
   Walks the directory and compiles what it selects, as one full rescan, seeding the
   temperatures that the directory declares. Without a selected file nothing is loaded and the
   store is left alone: no row is compared, none is removed.
  */
  method CompileDir(st: Store, g: Ignore.Glob, m: Ignore.Matcher, entries: seq<Ignore.Entry>, source: TempSource,
                    read: Ignore.Path -> Option<seq<ParsedNode>>, root: string,
                    rank: NodeId -> nat, weather: nat -> Weather, patient: nat -> bool)
    returns (err: Option<CompileError>, ghost order: seq<NodeId>)
    requires root != "" && Ignore.Usable(m)
    modifies st
    ensures var paths := Chosen(g, m, entries); var before := old(st.Contents());
            if paths == [] then err.None? && st.Contents() == before
            else if !Loads(source) then err == Some(BadTemperatures) && st.Contents() == before
            else if exists p | p in paths :: read(p).None? then err == Some(Unreadable) && st.Contents() == before
            else Rescanned(before, paths, read, source, root, order, rank, weather, patient, err, st.Contents())
  {
    var paths := Ignore.CollectFiles(g, m, entries);
    order := [];
    if |paths| == 0 {
      return None, order;
    }
    var trie: Option<Tempfile.Entry> := None;
    if source.Unusable? {
      return Some(BadTemperatures), order;
    }
    if source.Declares? {
      var built := Tempfile.BuildEntry(source.fields);
      if built.Err? {
        return Some(BadTemperatures), order;
      }
      trie := Some(built.value);
    }
    var results := ReadFiles(paths, read, trie);
    err, order := Compile(st, results, root, true, rank, weather, patient);
  }

  /** The one compile of a directory, and when it is emitted. */
  ghost predicate Rescanned(
      before: Db, paths: seq<Ignore.Path>, read: Ignore.Path -> Option<seq<ParsedNode>>, source: TempSource,
      root: string, order: seq<NodeId>, rank: NodeId -> nat, weather: nat -> Weather, patient: nat -> bool,
      err: Option<CompileError>, after: Db)
    requires Loads(source) && forall p | p in paths :: read(p).Some?
  {
    var op := CompileTree(ForestAt(AllRead(WithTemps(paths, read, Loaded(source))), root), root);
    Lists(order, before, op) && SortedBy(order, rank)
    && (err.None? <==> Lands(before, RequestOf(before, op, order), weather, patient))
    && after == Attempted(before, op, order, weather, patient)
  }

  method ReadFiles(paths: seq<Ignore.Path>, read: Ignore.Path -> Option<seq<ParsedNode>>, trie: Option<Tempfile.Entry>)
      returns (results: seq<Option<ParsedFile>>)
    requires trie.Some? ==> Tempfile.Sound(trie.value) && trie.value.temp.None?
    ensures results == WithTemps(paths, read, trie)
  {
    results := [];
    for i := 0 to |paths|
      invariant |results| == i && forall j | 0 <= j < i :: results[j] == OneResult(paths[j], read, trie)
    {
      assert paths[i] in paths;
      var nodes := read(paths[i]);
      if nodes.None? {
        results := results + [None];
      } else {
        var temp := Tempfile.Resolve(trie, Ignore.Rel(paths[i]));
        results := results + [Some(ParsedFile(nodes.value, temp))];
      }
    }
  }

  /** A temperature file loads if and only if it is absent, or its fields are valid and do not contradict each other. */
  lemma LoadsIff(source: TempSource)
    ensures Loads(source)
            <==> source.Absent?
                 || (source.Declares? && Tempfile.ValidFields(source.fields)
                     && Tempfile.Consistent(Tempfile.ItemsAt([], Tempfile.Obj(source.fields))))
  {
    if source.Declares? {
      Tempfile.LoadMeans(source.fields);
    }
  }

  // ----- which temperature a file is seeded with -----

  /** The file gives this number to the path. */
  predicate Gives(fields: seq<Tempfile.Field>, path: Tempfile.Path, t: real) {
    Tempfile.Item(path, Some(t)) in Tempfile.ItemsAt([], Tempfile.Obj(fields))
  }

  predicate GivesGlob(fields: seq<Tempfile.Field>, path: Tempfile.Path, i: nat, t: real)
    requires i <= |path|
  {
    Gives(fields, path[..i] + ["*"], t)
  }

  /** No number at all, on the path or above it. */
  ghost predicate GivesNone(fields: seq<Tempfile.Field>, path: Tempfile.Path) {
    forall n, t | 1 <= n <= |path| :: !Gives(fields, path[..n], t)
  }

  ghost predicate NoGlobBelow(fields: seq<Tempfile.Field>, path: Tempfile.Path, i: nat) {
    forall j, t | i <= j < |path| :: !GivesGlob(fields, path, j, t)
  }

  /**
   The number that the file gives to the path or to a directory above it; failing that, the one of
   the deepest glob on the way; failing that, none.
  */
  ghost predicate SeedIs(fields: seq<Tempfile.Field>, path: Tempfile.Path, seed: Option<real>) {
    (forall n, t | 1 <= n <= |path| && Gives(fields, path[..n], t) :: seed == Some(t))
    && (GivesNone(fields, path) ==>
          (forall i: nat, t | i < |path| && GivesGlob(fields, path, i, t) && NoGlobBelow(fields, path, i + 1) ::
             seed == Some(t))
          && (NoGlobBelow(fields, path, 0) ==> seed.None?))
  }

  lemma WinnerIsSeed(fields: seq<Tempfile.Field>, path: Tempfile.Path, seed: Option<real>)
    requires Tempfile.Build(Tempfile.EMPTY_ENTRY, fields).Ok?
    requires Tempfile.Wins(Tempfile.Build(Tempfile.EMPTY_ENTRY, fields).value, path, None, seed)
    ensures SeedIs(fields, path, seed)
  {
    var trie := Tempfile.Build(Tempfile.EMPTY_ENTRY, fields).value;
    Tempfile.LoadMeans(fields);
    forall p, t
      ensures Tempfile.TempAt(trie, p) == Some(t) <==> Gives(fields, p, t)
    {
      assert Tempfile.Numbered(Tempfile.ItemsAt([], Tempfile.Obj(fields)), p, t) <==> Gives(fields, p, t);
    }
    assert forall p | Tempfile.TempAt(trie, p).Some? :: Gives(fields, p, Tempfile.TempAt(trie, p).value);
    if GivesNone(fields, path) {
      assert Tempfile.NoNumber(trie, path);
      forall i | 0 <= i <= |path| && NoGlobBelow(fields, path, i)
        ensures Tempfile.NoGlobFrom(trie, path, i)
      {
        NoGlobInTrie(fields, trie, path, i);
      }
      forall i: nat, t | i < |path| && GivesGlob(fields, path, i, t) && NoGlobBelow(fields, path, i + 1)
        ensures seed == Some(t)
      {
        assert Tempfile.GlobAt(trie, path, i) == Some(t);
        assert Tempfile.NoGlobFrom(trie, path, i + 1);
      }
    }
  }

  lemma NoGlobInTrie(fields: seq<Tempfile.Field>, trie: Tempfile.Entry, path: Tempfile.Path, i: nat)
    requires NoGlobBelow(fields, path, i)
    requires forall p | Tempfile.TempAt(trie, p).Some? :: Gives(fields, p, Tempfile.TempAt(trie, p).value)
    ensures Tempfile.NoGlobFrom(trie, path, i)
  {
    forall j | i <= j < |path|
      ensures Tempfile.GlobAt(trie, path, j).None?
    {
      var found := Tempfile.TempAt(trie, path[..j] + ["*"]);
      assert !GivesGlob(fields, path, j, if found.Some? then found.value else 0.0);
    }
  }

  /** Each file of a compile is what was read from its own path, with the temperature declared for that path. */
  lemma FilesAreSeeded(
      source: TempSource, paths: seq<Ignore.Path>, read: Ignore.Path -> Option<seq<ParsedNode>>, i: nat)
    requires Loads(source) && i < |paths|
    requires paths[i] != [] && forall n | n in paths[i] :: Ignore.IsName(n)
    ensures match WithTemps(paths, read, Loaded(source))[i]
            case None => read(paths[i]).None?
            case Some(file) =>
              read(paths[i]) == Some(file.nodes)
              && if source.Declares? then SeedIs(source.fields, paths[i], file.temp) else file.temp.None?
  {
    var path := paths[i];
    if read(path).Some? && source.Declares? {
      SplitOfJoin(path, '/');
      var trie := Loaded(source).value;
      Tempfile.ResolvedWins(trie, path, None);
      WinnerIsSeed(source.fields, path, Tempfile.Resolved(trie, path, None));
    }
  }
}
