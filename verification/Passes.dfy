/**
 What the transformer does to a parsed forest before it wires IDs: whitespace is compressed,
 and the compile root is cut off the source paths that IDs and scopes are built from.
 Paths are slash-separated and already clean.
*/
module Passes {
  import opened Ast
  import opened Compress
  import opened Strings

  function TrimPrefix(s: string, prefix: string): string {
    if HasPrefix(s, prefix) then s[|prefix|..] else s
  }

  function PrefixOf(root: string): string {
    if HasSuffix(root, "/") then root else root + "/"
  }

  // ----- without a compile root: the longest common directory -----

  /** The directory of a path, cut at its slashes; a bare file name has none. */
  function DirParts(path: string): seq<string> {
    var parts := SplitOn(path, '/');
    if parts == ["", parts[|parts| - 1]] then ["", ""] else parts[..|parts| - 1]
  }

  function Common(a: seq<string>, b: seq<string>): (c: seq<string>)
    ensures c <= a && c <= b
    ensures |c| < |a| && |c| < |b| ==> a[|c|] != b[|c|]
  {
    if a == [] || b == [] || a[0] != b[0] then [] else [a[0]] + Common(a[1..], b[1..])
  }

  function CommonOfAll(paths: seq<string>): seq<string>
    requires paths != []
  {
    if |paths| == 1 then DirParts(paths[0])
    else Common(CommonOfAll(paths[..|paths| - 1]), DirParts(paths[|paths| - 1]))
  }

  function AsPrefix(parts: seq<string>): string {
    var dir := if parts == [] then "" else JoinOn(parts, '/');
    if dir == "" || dir == "." || dir == "/" then "" else dir + "/"
  }

  lemma {:induction false} CommonIs(a: seq<string>, b: seq<string>, i: nat)
    requires i <= |a| && i <= |b| && forall k | 0 <= k < i :: a[k] == b[k]
    requires i == |a| || i == |b| || a[i] != b[i]
    ensures Common(a, b) == a[..i]
    decreases i
  {
    if i > 0 {
      assert a[0] == b[0];
      assert forall k | 0 <= k < i - 1 :: a[1..][k] == a[k + 1] == b[k + 1] == b[1..][k];
      CommonIs(a[1..], b[1..], i - 1);
      assert a[..i] == [a[0]] + a[1..][..i - 1];
    }
  }

  method CommonParts(a: seq<string>, b: seq<string>) returns (c: seq<string>)
    ensures c == Common(a, b)
  {
    var i := 0;
    while i < |a| && i < |b| && a[i] == b[i]
      invariant i <= |a| && i <= |b| && forall k | 0 <= k < i :: a[k] == b[k]
    {
      i := i + 1;
    }
    CommonIs(a, b, i);
    c := a[..i];
  }

  method CommonDirPrefix(paths: seq<string>) returns (prefix: string)
    requires paths != []
    ensures prefix == AsPrefix(CommonOfAll(paths))
  {
    var parts := DirParts(paths[0]);
    assert paths[..1] == [paths[0]];
    for i := 1 to |paths|
      invariant parts == CommonOfAll(paths[..i])
    {
      assert paths[..i + 1][..i] == paths[..i];
      parts := CommonParts(parts, DirParts(paths[i]));
      if |parts| == 0 {
        CommonStaysEmpty(paths, i + 1);
        return "";
      }
    }
    assert paths[..|paths|] == paths;
    prefix := AsPrefix(parts);
  }

  lemma {:induction false} CommonStaysEmpty(paths: seq<string>, i: nat)
    requires 0 < i <= |paths| && CommonOfAll(paths[..i]) == []
    ensures CommonOfAll(paths) == []
    decreases |paths| - i
  {
    if i < |paths| {
      assert paths[..i + 1][..i] == paths[..i];
      CommonStaysEmpty(paths, i + 1);
    } else {
      assert paths[..i] == paths;
    }
  }

  // ----- the passes over a forest -----

  /** Every node of a tree has its root's file, so the roots' files decide the common directory. */
  function PrefixFor(forest: seq<ParsedNode>, root: string): string {
    if root != "" then PrefixOf(root)
    else if forest == [] then ""
    else AsPrefix(CommonOfAll(seq(|forest|, i requires 0 <= i < |forest| => forest[i].source)))
  }

  function PassNode(n: ParsedNode, prefix: string): ParsedNode
    decreases n
  {
    n.(source := TrimPrefix(n.source, prefix), content := Compressed(n.content),
       children := PassNodes(n.children, prefix))
  }

  function PassNodes(nodes: seq<ParsedNode>, prefix: string): (passed: seq<ParsedNode>)
    ensures |passed| == |nodes|
    decreases nodes, 0
  {
    if nodes == [] then [] else [PassNode(nodes[0], prefix)] + PassNodes(nodes[1..], prefix)
  }

  function Transformed(forest: seq<ParsedNode>, root: string): seq<ParsedNode> {
    PassNodes(forest, PrefixFor(forest, root))
  }

  lemma {:induction false} PassNodesAt(nodes: seq<ParsedNode>, prefix: string, i: nat)
    requires i < |nodes|
    ensures PassNodes(nodes, prefix)[i] == PassNode(nodes[i], prefix)
  {
    if i > 0 {
      PassNodesAt(nodes[1..], prefix, i - 1);
    }
  }

  /** A tree of one file stays a tree of one file, under the name that is left of it. */
  lemma {:induction false} PassKeepsParse(n: ParsedNode, source: string, depth: nat, prefix: string)
    requires WellParsed(n, source, depth)
    ensures WellParsed(PassNode(n, prefix), TrimPrefix(source, prefix), depth)
    decreases n
  {
    var kids := PassNodes(n.children, prefix);
    forall c | c in kids
      ensures WellParsed(c, TrimPrefix(source, prefix), depth + 1)
    {
      var i :| 0 <= i < |kids| && kids[i] == c;
      PassNodesAt(n.children, prefix, i);
      assert n.children[i] in n.children;
      PassKeepsParse(n.children[i], source, depth + 1, prefix);
    }
  }

  /** So the passes keep what the rest of the compile relies on. */
  lemma PassesKeepForest(forest: seq<ParsedNode>, root: string)
    requires WellParsedForest(forest)
    ensures WellParsedForest(Transformed(forest, root))
  {
    var prefix := PrefixFor(forest, root);
    var passed := PassNodes(forest, prefix);
    forall n | n in passed
      ensures WellParsed(n, n.source, 1)
    {
      var i :| 0 <= i < |passed| && passed[i] == n;
      PassNodesAt(forest, prefix, i);
      assert forest[i] in forest;
      PassKeepsParse(forest[i], forest[i].source, 1, prefix);
    }
  }

  /** One file below a root, under the name that is left of it. */
  lemma PassedFile(nodes: seq<ParsedNode>, source: string, root: string)
    requires root != "" && forall n | n in nodes :: WellParsed(n, source, 1)
    ensures forall n | n in Transformed(nodes, root) :: WellParsed(n, TrimPrefix(source, PrefixOf(root)), 1)
  {
    forall n | n in Transformed(nodes, root)
      ensures WellParsed(n, TrimPrefix(source, PrefixOf(root)), 1)
    {
      var i :| 0 <= i < |nodes| && Transformed(nodes, root)[i] == n;
      PassNodesAt(nodes, PrefixOf(root), i);
      assert nodes[i] in nodes;
      PassKeepsParse(nodes[i], source, 1, PrefixOf(root));
    }
  }

  /** Below one root two files keep different names. */
  lemma UnderOneRootApart(f: string, g: string, root: string)
    requires HasPrefix(f, PrefixOf(root)) && HasPrefix(g, PrefixOf(root))
    ensures TrimPrefix(f, PrefixOf(root)) == TrimPrefix(g, PrefixOf(root)) <==> f == g
  {
    var p := PrefixOf(root);
    assert f == p + f[|p|..] && g == p + g[|p|..];
  }

  lemma {:induction false} CommonIsPrefix(paths: seq<string>, path: string)
    requires path in paths
    ensures CommonOfAll(paths) <= DirParts(path)
    decreases |paths|
  {
    var last := paths[|paths| - 1];
    if |paths| > 1 && path in paths[..|paths| - 1] {
      CommonIsPrefix(paths[..|paths| - 1], path);
    } else {
      assert paths == paths[..|paths| - 1] + [last] && path == last;
    }
  }

  /** Without a root what is cut off is a prefix of every path, so the names stay apart as well. */
  lemma WithoutRootApart(paths: seq<string>, f: string, g: string)
    requires f in paths && g in paths
    ensures var prefix := AsPrefix(CommonOfAll(paths));
            HasPrefix(f, prefix) && HasPrefix(g, prefix) && (TrimPrefix(f, prefix) == TrimPrefix(g, prefix) <==> f == g)
  {
    var prefix := AsPrefix(CommonOfAll(paths));
    PrefixOfText(paths, f);
    PrefixOfText(paths, g);
    assert f == prefix + f[|prefix|..] && g == prefix + g[|prefix|..];
  }

  lemma PrefixOfText(paths: seq<string>, path: string)
    requires path in paths
    ensures HasPrefix(path, AsPrefix(CommonOfAll(paths)))
  {
    var common, parts := CommonOfAll(paths), SplitOn(path, '/');
    CommonIsPrefix(paths, path);
    JoinOfSplit(path, '/');
    if AsPrefix(common) != "" {
      if parts == ["", parts[|parts| - 1]] {
        RootOnly(common);
      }
      JoinOfFewer(common, parts, '/');
    }
  }

  lemma RootOnly(common: seq<string>)
    requires common <= ["", ""]
    ensures AsPrefix(common) == ""
  {
    assert common == [] || common == [""] || common == ["", ""];
    assert JoinOn([""], '/') == "";
    assert ["", ""][1..] == [""];
    assert JoinOn(["", ""], '/') == "/";
  }
}
