/** Whitespace normalisation of node content. */
module Compress {
  import opened Strings

  // ----- string operations -----

  function ReplaceAll(s: string, from: string, to: string): string
    requires from != ""
    decreases |s|
  {
    if |s| < |from| then s
    else if s[..|from|] == from then to + ReplaceAll(s[|from|..], from, to)
    else [s[0]] + ReplaceAll(s[1..], from, to)
  }

  predicate Contains(s: string, sub: string) {
    sub <= s || (s != "" && Contains(s[1..], sub))
  }

  predicate Blank(c: char) {
    c == ' ' || c == '\t'
  }

  function TrimRight(l: string): string {
    if l != "" && Blank(l[|l| - 1]) then TrimRight(l[..|l| - 1]) else l
  }

  // ----- what the result should be -----

  /** Carriage returns, alone or before a newline, become newlines. */
  function Unified(s: string): string {
    ReplaceAll(ReplaceAll(s, "\r\n", "\n"), "\r", "\n")
  }

  function TrimAll(lines: seq<string>): seq<string> {
    if lines == [] then [] else [TrimRight(lines[0])] + TrimAll(lines[1..])
  }

  function DropEmpty(lines: seq<string>): seq<string> {
    if lines != [] && lines[0] == "" then DropEmpty(lines[1..]) else lines
  }

  /** One empty line for each run of empty lines, and none for the last run. */
  function Runs(lines: seq<string>): seq<string> {
    if lines == [] then []
    else if lines[0] != "" then [lines[0]] + Runs(lines[1..])
    else
      var rest := Runs(lines[1..]);
      if rest == [] || rest[0] == "" then rest else [""] + rest
  }

  function Squeeze(lines: seq<string>): seq<string> {
    DropEmpty(Runs(lines))
  }

  function Compressed(s: string): string {
    JoinOn(Squeeze(TrimAll(SplitOn(Unified(s), '\n'))), '\n')
  }

  // ----- splitting and joining -----

  predicate OneLine(l: string) {
    '\n' !in l
  }

  lemma SplitLines(s: string)
    ensures forall l | l in SplitOn(s, '\n') :: OneLine(l)
  {
    PartsLackSep(s, '\n');
  }

  // ----- carriage returns -----

  lemma {:induction false} NoCarriageReturnLeft(s: string)
    ensures '\r' !in ReplaceAll(s, "\r", "\n")
  {
    if s != "" {
      NoCarriageReturnLeft(s[1..]);
      assert s[..1] == [s[0]];
    }
  }

  lemma {:induction false} NothingToReplace(s: string, from: string, to: string)
    requires from != "" && from[0] !in s
    ensures ReplaceAll(s, from, to) == s
    decreases |s|
  {
    if |s| >= |from| {
      assert s[0] in s && forall c | c in s[1..] :: c in s;
      assert s[..|from|][0] == s[0];
      NothingToReplace(s[1..], from, to);
      assert s == [s[0]] + s[1..];
    }
  }

  lemma UnifiedIsIdle(s: string)
    requires '\r' !in s
    ensures Unified(s) == s
  {
    NothingToReplace(s, "\r\n", "\n");
    NothingToReplace(s, "\r", "\n");
  }

  // ----- collapsing newlines -----

  const TRIPLE := "\n\n\n"
  const DOUBLE := "\n\n"

  lemma {:induction false} PassShortens(s: string)
    ensures |ReplaceAll(s, TRIPLE, DOUBLE)| <= |s|
    ensures Contains(s, TRIPLE) ==> |ReplaceAll(s, TRIPLE, DOUBLE)| < |s|
    ensures !Contains(s, TRIPLE) ==> ReplaceAll(s, TRIPLE, DOUBLE) == s
    decreases |s|
  {
    if |s| < 3 {
      ShortHasNoTriple(s);
    } else if s[..3] == TRIPLE {
      PassShortens(s[3..]);
      assert TRIPLE <= s;
    } else {
      PassShortens(s[1..]);
      assert s == [s[0]] + s[1..];
    }
  }

  lemma {:induction false} ShortHasNoTriple(s: string)
    requires |s| < 3
    ensures !Contains(s, TRIPLE)
  {
    if s != "" {
      ShortHasNoTriple(s[1..]);
    }
  }

  lemma RunsCons(l: string, rest: seq<string>)
    ensures Runs([l] + rest) == if l != "" then [l] + Runs(rest)
                                else if Runs(rest) == [] || Runs(rest)[0] == "" then Runs(rest) else [""] + Runs(rest)
  {
    assert ([l] + rest)[1..] == rest;
  }

  /** The same first line, and the same lines after it up to runs of empty ones. */
  ghost predicate SameRuns(t: string, s: string) {
    SplitOn(t, '\n')[0] == SplitOn(s, '\n')[0] && Runs(SplitOn(t, '\n')[1..]) == Runs(SplitOn(s, '\n')[1..])
  }

  lemma WholeRuns(t: string, s: string)
    requires SameRuns(t, s)
    ensures Runs(SplitOn(t, '\n')) == Runs(SplitOn(s, '\n'))
  {
    assert SplitOn(s, '\n') == [SplitOn(s, '\n')[0]] + SplitOn(s, '\n')[1..];
    assert SplitOn(t, '\n') == [SplitOn(t, '\n')[0]] + SplitOn(t, '\n')[1..];
    RunsCons(SplitOn(s, '\n')[0], SplitOn(s, '\n')[1..]);
    RunsCons(SplitOn(t, '\n')[0], SplitOn(t, '\n')[1..]);
  }

  lemma TripleToDouble(x: string, r: string)
    requires SameRuns(x, r)
    ensures SameRuns(DOUBLE + x, TRIPLE + r)
  {
    WholeRuns(x, r);
    TripleLines(TRIPLE + r, r);
    DoubleLines(x);
    RunsCons("", SplitOn(x, '\n'));
    RunsCons("", SplitOn(r, '\n'));
    RunsCons("", [""] + SplitOn(r, '\n'));
    assert (["", ""] + SplitOn(x, '\n'))[1..] == [""] + SplitOn(x, '\n');
    assert (["", "", ""] + SplitOn(r, '\n'))[1..] == [""] + ([""] + SplitOn(r, '\n'));
  }

  lemma SameRunsCons(c: char, x: string, r: string)
    requires SameRuns(x, r)
    ensures SameRuns([c] + x, [c] + r)
  {
    WholeRuns(x, r);
    SplitCons(c, r, '\n');
    SplitCons(c, x, '\n');
  }

  /** One pass keeps the first line, and the rest up to runs of empty lines. */
  lemma {:induction false} PassKeepsRuns(s: string)
    ensures SameRuns(ReplaceAll(s, TRIPLE, DOUBLE), s)
    decreases |s|
  {
    if |s| >= 3 {
      if s[..3] == TRIPLE {
        PassKeepsRuns(s[3..]);
        TripleToDouble(ReplaceAll(s[3..], TRIPLE, DOUBLE), s[3..]);
        assert s == TRIPLE + s[3..];
      } else {
        PassKeepsRuns(s[1..]);
        SameRunsCons(s[0], ReplaceAll(s[1..], TRIPLE, DOUBLE), s[1..]);
        assert s == [s[0]] + s[1..];
      }
    }
  }

  lemma TripleLines(s: string, r: string)
    requires s == TRIPLE + r
    ensures SplitOn(s, '\n') == ["", "", ""] + SplitOn(r, '\n')
  {
    assert s == ['\n'] + (['\n'] + (['\n'] + r));
    SplitCons('\n', r, '\n');
    SplitCons('\n', ['\n'] + r, '\n');
    SplitCons('\n', ['\n'] + (['\n'] + r), '\n');
  }

  lemma DoubleLines(r: string)
    ensures SplitOn(DOUBLE + r, '\n') == ["", ""] + SplitOn(r, '\n')
  {
    assert DOUBLE + r == ['\n'] + (['\n'] + r);
    SplitCons('\n', r, '\n');
    SplitCons('\n', ['\n'] + r, '\n');
  }

  lemma PassKeepsSqueeze(s: string)
    ensures Runs(SplitOn(ReplaceAll(s, TRIPLE, DOUBLE), '\n')) == Runs(SplitOn(s, '\n'))
  {
    PassKeepsRuns(s);
    WholeRuns(ReplaceAll(s, TRIPLE, DOUBLE), s);
  }

  method CollapseBlankLines(s: string) returns (t: string)
    ensures !Contains(t, TRIPLE) && Runs(SplitOn(t, '\n')) == Runs(SplitOn(s, '\n'))
  {
    t := s;
    while Contains(t, TRIPLE)
      invariant Runs(SplitOn(t, '\n')) == Runs(SplitOn(s, '\n'))
      decreases |t|
    {
      PassShortens(t);
      PassKeepsSqueeze(t);
      t := ReplaceAll(t, TRIPLE, DOUBLE);
    }
  }

  // ----- edges -----

  lemma {:induction false} RunsDropLast(lines: seq<string>)
    ensures Runs(lines + [""]) == Runs(lines)
  {
    if lines == [] {
      assert [""][1..] == [];
    } else {
      assert (lines + [""])[1..] == lines[1..] + [""];
      RunsDropLast(lines[1..]);
    }
  }

  lemma {:induction false} PrefixNoTriple(s: string, c: char)
    requires !Contains(s + [c], TRIPLE)
    ensures !Contains(s, TRIPLE)
  {
    if s != "" {
      assert (s + [c])[1..] == s[1..] + [c];
      PrefixNoTriple(s[1..], c);
      assert TRIPLE <= s ==> TRIPLE <= s + [c];
    }
  }

  predicate NoEdges(t: string) {
    t != "" ==> t[0] != '\n' && t[|t| - 1] != '\n'
  }

  method TrimEmptyEdges(s: string) returns (t: string)
    requires !Contains(s, TRIPLE)
    ensures !Contains(t, TRIPLE) && NoEdges(t)
    ensures Squeeze(SplitOn(t, '\n')) == Squeeze(SplitOn(s, '\n'))
  {
    t := s;
    while t != "" && t[0] == '\n'
      invariant !Contains(t, TRIPLE) && Squeeze(SplitOn(t, '\n')) == Squeeze(SplitOn(s, '\n'))
      decreases |t|
    {
      SplitCons('\n', t[1..], '\n');
      assert t == ['\n'] + t[1..];
      RunsCons("", SplitOn(t[1..], '\n'));
      t := t[1..];
    }
    while t != "" && t[|t| - 1] == '\n'
      invariant !Contains(t, TRIPLE) && Squeeze(SplitOn(t, '\n')) == Squeeze(SplitOn(s, '\n'))
      invariant t != "" ==> t[0] != '\n'
      decreases |t|
    {
      ghost var x := t[..|t| - 1];
      assert t == x + "\n" + "";
      SplitConcat(x, "", '\n');
      RunsDropLast(SplitOn(x, '\n'));
      assert x + ['\n'] == t;
      PrefixNoTriple(x, '\n');
      t := t[..|t| - 1];
    }
  }

  // ----- fixed points -----

  /** After the first line, every empty line is followed by one that is not. */
  ghost predicate SingleGaps(lines: seq<string>) {
    forall i | 1 <= i < |lines| && lines[i] == "" :: i < |lines| - 1 && lines[i + 1] != ""
  }

  lemma {:induction false} NoTripleMeansSingleGaps(s: string)
    requires !Contains(s, TRIPLE) && s != "" && s[|s| - 1] != '\n'
    ensures SingleGaps(SplitOn(s, '\n'))
  {
    var r := s[1..];
    if r != "" {
      NoTripleMeansSingleGaps(r);
      if s[0] == '\n' && r[0] == '\n' {
        assert r[1..] != "" && r[1] != '\n' by {
          assert |s| > 2;
          assert s[2] == '\n' ==> TRIPLE <= s;
        }
        assert SplitOn(r, '\n')[1] == SplitOn(r[1..], '\n')[0] != "";
      }
    }
  }

  lemma {:induction false} RunsOfSingleGaps(lines: seq<string>)
    requires lines != [] && SingleGaps(lines) && (lines[0] == "" ==> |lines| > 1 && lines[1] != "")
    ensures Runs(lines) == lines
  {
    var rest := lines[1..];
    assert lines == [lines[0]] + rest;
    if rest != [] {
      assert forall i | 0 <= i < |rest| :: rest[i] == lines[i + 1];
      RunsOfSingleGaps(rest);
    }
  }

  lemma FixedPoint(t: string)
    requires !Contains(t, TRIPLE) && NoEdges(t)
    ensures JoinOn(Squeeze(SplitOn(t, '\n')), '\n') == t
  {
    SplitLines(t);
    JoinOfSplit(t, '\n');
    if t != "" {
      NoTripleMeansSingleGaps(t);
      RunsOfSingleGaps(SplitOn(t, '\n'));
    } else {
      assert [""][1..] == [];
    }
  }

  // ----- trimming lines -----

  lemma {:induction false} TrimRightIsClean(l: string)
    ensures var t := TrimRight(l);
            t <= l && (t != "" ==> !Blank(t[|t| - 1])) && TrimRight(t) == t
    ensures forall c | c in TrimRight(l) :: c in l
  {
    if l != "" && Blank(l[|l| - 1]) {
      TrimRightIsClean(l[..|l| - 1]);
    }
  }

  lemma {:induction false} TrimAllMembers(lines: seq<string>)
    ensures |TrimAll(lines)| == |lines|
    ensures forall i | 0 <= i < |lines| :: TrimAll(lines)[i] == TrimRight(lines[i])
  {
    if lines != [] {
      TrimAllMembers(lines[1..]);
    }
  }

  method TrimTrailingPerLine(s: string) returns (t: string)
    ensures SplitOn(t, '\n') == TrimAll(SplitOn(s, '\n'))
  {
    var lines := SplitOn(s, '\n');
    for i := 0 to |lines|
      invariant |lines| == |SplitOn(s, '\n')|
      invariant forall j | 0 <= j < i :: lines[j] == TrimRight(SplitOn(s, '\n')[j])
      invariant forall j | i <= j < |lines| :: lines[j] == SplitOn(s, '\n')[j]
    {
      lines := lines[i := TrimRight(lines[i])];
    }
    TrimAllMembers(SplitOn(s, '\n'));
    assert lines == TrimAll(SplitOn(s, '\n'));
    TrimmedLines(s);
    SplitOfJoin(lines, '\n');
    t := JoinOn(lines, '\n');
  }

  lemma TrimmedLines(s: string)
    ensures forall l | l in TrimAll(SplitOn(s, '\n')) :: OneLine(l) && TrimRight(l) == l
    ensures '\r' !in s ==> forall l | l in TrimAll(SplitOn(s, '\n')) :: '\r' !in l
  {
    SplitLines(s);
    LinesComeFrom(s);
    TrimAllMembers(SplitOn(s, '\n'));
    forall l | l in TrimAll(SplitOn(s, '\n'))
      ensures OneLine(l) && TrimRight(l) == l && ('\r' !in s ==> '\r' !in l)
    {
      var i :| 0 <= i < |SplitOn(s, '\n')| && TrimAll(SplitOn(s, '\n'))[i] == l;
      TrimRightIsClean(SplitOn(s, '\n')[i]);
      assert SplitOn(s, '\n')[i] in SplitOn(s, '\n');
    }
  }

  lemma {:induction false} LinesComeFrom(s: string)
    ensures forall l, c | l in SplitOn(s, '\n') && c in l :: c in s
  {
    if s != "" {
      LinesComeFrom(s[1..]);
      var rest := SplitOn(s[1..], '\n');
      assert rest[0] in rest && forall l | l in rest[1..] :: l in rest;
    }
  }

  // ----- the whole pass -----

  method Compress(content: string) returns (s: string)
    ensures s == Compressed(content)
  {
    s := ReplaceAll(content, "\r\n", "\n");
    s := ReplaceAll(s, "\r", "\n");
    s := TrimTrailingPerLine(s);
    s := CollapseBlankLines(s);
    s := TrimEmptyEdges(s);
    FixedPoint(s);
  }

  predicate Normal(s: string) {
    '\r' !in s && !Contains(s, TRIPLE) && NoEdges(s) && forall l | l in SplitOn(s, '\n') :: TrimRight(l) == l
  }

  /** Every empty line is followed by one that is not. */
  ghost predicate Gapless(lines: seq<string>) {
    forall i | 0 <= i < |lines| && lines[i] == "" :: i + 1 < |lines| && lines[i + 1] != ""
  }

  lemma {:induction false} RunsAreGapless(lines: seq<string>)
    ensures Gapless(Runs(lines)) && forall l | l in Runs(lines) :: l in lines
  {
    if lines != [] {
      var rest := lines[1..];
      assert lines == [lines[0]] + rest;
      RunsAreGapless(rest);
      var r := Runs(rest);
      assert forall i | 0 <= i < |r| :: ([lines[0]] + r)[i + 1] == r[i];
    }
  }

  lemma SqueezeIsGapless(lines: seq<string>)
    ensures var k := Squeeze(lines);
            Gapless(k) && (k != [] ==> k[0] != "" && k[|k| - 1] != "") && forall l | l in k :: l in lines
  {
    RunsAreGapless(lines);
    var r := Runs(lines);
    if r != [] && r[0] == "" {
      assert r[1..][0] != "" && DropEmpty(r[1..]) == r[1..];
      assert forall i | 0 <= i < |r| - 1 :: r[1..][i] == r[i + 1];
    }
  }

  lemma LeadingTriple(s: string)
    requires TRIPLE <= s
    ensures !SingleGaps(SplitOn(s, '\n'))
  {
    TripleLines(s, s[3..]);
    assert SplitOn(s, '\n')[1] == "" && SplitOn(s, '\n')[2] == "";
  }

  lemma {:induction false} SingleGapsMeanNoTriple(s: string)
    requires SingleGaps(SplitOn(s, '\n'))
    ensures !Contains(s, TRIPLE)
  {
    if s != "" {
      var r := s[1..];
      assert s == [s[0]] + r;
      SplitCons(s[0], r, '\n');
      assert SingleGaps(SplitOn(r, '\n')) by {
        if s[0] == '\n' {
          assert forall i | 0 <= i < |SplitOn(r, '\n')| :: SplitOn(s, '\n')[i + 1] == SplitOn(r, '\n')[i];
        } else {
          assert forall i | 1 <= i < |SplitOn(r, '\n')| :: SplitOn(s, '\n')[i] == SplitOn(r, '\n')[i];
        }
      }
      SingleGapsMeanNoTriple(r);
      if TRIPLE <= s {
        LeadingTriple(s);
        assert false;
      }
    }
  }

  lemma {:induction false} JoinEnds(lines: seq<string>)
    requires lines != [] && lines[0] != "" && lines[|lines| - 1] != ""
    ensures var s := JoinOn(lines, '\n');
            s != "" && s[0] == lines[0][0]
            && s[|s| - 1] == lines[|lines| - 1][|lines[|lines| - 1]| - 1]
    ensures forall c | c in JoinOn(lines, '\n') :: c == '\n' || exists l | l in lines :: c in l
  {
    JoinLast(lines);
    JoinChars(lines);
  }

  lemma {:induction false} JoinLast(lines: seq<string>)
    requires lines != [] && lines[|lines| - 1] != ""
    ensures var s, last := JoinOn(lines, '\n'), lines[|lines| - 1]; s != "" && s[|s| - 1] == last[|last| - 1]
  {
    if |lines| > 1 {
      JoinLast(lines[1..]);
    }
  }

  lemma {:induction false} JoinChars(lines: seq<string>)
    ensures forall c | c in JoinOn(lines, '\n') :: c == '\n' || exists l | l in lines :: c in l
  {
    if |lines| == 1 {
      assert lines[0] in lines;
    } else if |lines| > 1 {
      JoinChars(lines[1..]);
      assert lines[0] in lines && forall l | l in lines[1..] :: l in lines;
    }
  }

  /** The result has no carriage return, no trailing blanks, no two empty lines in a row and no newline at an edge. */
  lemma ResultIsNormal(s: string)
    ensures Normal(Compressed(s))
  {
    var u := Unified(s);
    NoCarriageReturnLeft(ReplaceAll(s, "\r\n", "\n"));
    TrimmedLines(u);
    var lines := TrimAll(SplitOn(u, '\n'));
    var k := Squeeze(lines);
    SqueezeIsGapless(lines);
    if k == [] {
      ShortHasNoTriple("");
      assert TrimRight("") == "";
    } else {
      SplitOfJoin(k, '\n');
      JoinEnds(k);
      assert k[0] in k && k[|k| - 1] in k;
      SingleGapsMeanNoTriple(JoinOn(k, '\n'));
    }
  }

  /** Exactly the normal strings are left as they are; in particular compressing twice changes nothing more. */
  lemma UnchangedIffNormal(s: string)
    ensures Compressed(s) == s <==> Normal(s)
  {
    ResultIsNormal(s);
    if Normal(s) {
      UnifiedIsIdle(s);
      TrimAllMembers(SplitOn(s, '\n'));
      assert forall i | 0 <= i < |SplitOn(s, '\n')| :: SplitOn(s, '\n')[i] in SplitOn(s, '\n');
      assert TrimAll(SplitOn(s, '\n')) == SplitOn(s, '\n');
      FixedPoint(s);
    }
  }

  lemma CompressIsIdempotent(s: string)
    ensures Compressed(Compressed(s)) == Compressed(s)
  {
    ResultIsNormal(s);
    UnchangedIffNormal(Compressed(s));
  }

  function NonEmpty(lines: seq<string>): seq<string> {
    if lines == [] then [] else (if lines[0] == "" then [] else [lines[0]]) + NonEmpty(lines[1..])
  }

  lemma {:induction false} RunsKeepText(lines: seq<string>)
    ensures NonEmpty(Runs(lines)) == NonEmpty(lines)
  {
    if lines != [] {
      RunsKeepText(lines[1..]);
      var r := Runs(lines[1..]);
      assert ([lines[0]] + r)[1..] == r;
    }
  }

  lemma {:induction false} DropKeepsText(lines: seq<string>)
    ensures NonEmpty(DropEmpty(lines)) == NonEmpty(lines)
  {
    if lines != [] && lines[0] == "" {
      DropKeepsText(lines[1..]);
    }
  }

  /** The non-empty lines, trimmed on the right, all survive in order, and nothing is added. */
  lemma TextIsKept(s: string)
    ensures NonEmpty(SplitOn(Compressed(s), '\n')) == NonEmpty(TrimAll(SplitOn(Unified(s), '\n')))
  {
    var lines := TrimAll(SplitOn(Unified(s), '\n'));
    TrimmedLines(Unified(s));
    SqueezeIsGapless(lines);
    RunsKeepText(lines);
    DropKeepsText(Runs(lines));
    if Squeeze(lines) != [] {
      SplitOfJoin(Squeeze(lines), '\n');
    } else {
      assert NonEmpty([""]) == [] + NonEmpty([""][1..]);
    }
  }

  // ----- nothing but white space is ever lost -----

  /** Every way of ending a line read as one newline. */
  function Newlines(s: string): string
    decreases |s|
  {
    if s == "" then ""
    else if |s| > 1 && s[0] == '\r' && s[1] == '\n' then "\n" + Newlines(s[2..])
    else [if s[0] == '\r' then '\n' else s[0]] + Newlines(s[1..])
  }

  lemma ReplaceFirst(c: char, rest: string)
    ensures ReplaceAll([c] + rest, "\r", "\n") == [if c == '\r' then '\n' else c] + ReplaceAll(rest, "\r", "\n")
  {
    assert ([c] + rest)[..1] == [c] && ([c] + rest)[1..] == rest;
  }

  /** The two replacements together read every way of ending a line. */
  lemma {:induction false} UnifiedIsNewlines(s: string)
    ensures Unified(s) == Newlines(s)
    decreases |s|
  {
    if |s| > 1 && s[0] == '\r' && s[1] == '\n' {
      UnifiedIsNewlines(s[2..]);
      assert s[..2] == "\r\n";
      ReplaceFirst('\n', ReplaceAll(s[2..], "\r\n", "\n"));
    } else if s != "" {
      UnifiedIsNewlines(s[1..]);
      assert s == [s[0]] + s[1..];
      assert |s| > 1 ==> s[..2] == [s[0], s[1]];
      OneMoreChar(s);
      ReplaceFirst(s[0], ReplaceAll(s[1..], "\r\n", "\n"));
    }
  }

  lemma OneMoreChar(s: string)
    requires s != "" && !("\r\n" <= s)
    ensures ReplaceAll(s, "\r\n", "\n") == [s[0]] + ReplaceAll(s[1..], "\r\n", "\n")
  {
    if |s| > 1 {
      assert s[..2] == "\r\n" ==> "\r\n" <= s;
    } else {
      assert s[1..] == "";
    }
  }

  /** What a reader sees: the characters other than blanks and ends of lines. */
  function Ink(s: string): string {
    if s == "" then "" else (if White(s[0]) then "" else [s[0]]) + Ink(s[1..])
  }

  predicate White(c: char) {
    c == ' ' || c == '\t' || c == '\r' || c == '\n'
  }

  lemma InkCons(c: char, rest: string)
    ensures Ink([c] + rest) == (if White(c) then "" else [c]) + Ink(rest)
  {
    assert ([c] + rest)[1..] == rest;
  }

  lemma {:induction false} InkConcat(a: string, b: string)
    ensures Ink(a + b) == Ink(a) + Ink(b)
  {
    if a == "" {
      assert a + b == b;
    } else {
      InkConcat(a[1..], b);
      InkCons(a[0], a[1..] + b);
      assert a + b == [a[0]] + (a[1..] + b);
    }
  }

  lemma {:induction false} InkOfNewlines(s: string)
    ensures Ink(Newlines(s)) == Ink(s)
    decreases |s|
  {
    if |s| > 1 && s[0] == '\r' && s[1] == '\n' {
      InkOfNewlines(s[2..]);
      assert s == "\r\n" + s[2..];
      InkConcat("\r\n", s[2..]);
      InkConcat("\n", Newlines(s[2..]));
    } else if s != "" {
      InkOfNewlines(s[1..]);
      InkConcat([if s[0] == '\r' then '\n' else s[0]], Newlines(s[1..]));
    }
  }

  function InkOfLines(lines: seq<string>): string {
    if lines == [] then "" else Ink(lines[0]) + InkOfLines(lines[1..])
  }

  lemma {:induction false} InkOfJoin(lines: seq<string>)
    ensures Ink(JoinOn(lines, '\n')) == InkOfLines(lines)
  {
    if |lines| == 1 {
      assert InkOfLines(lines[1..]) == "";
    } else if lines != [] {
      InkOfJoin(lines[1..]);
      InkConcat(lines[0] + ['\n'], JoinOn(lines[1..], '\n'));
      InkConcat(lines[0], ['\n']);
    }
  }

  lemma {:induction false} InkOfTrimmed(l: string)
    ensures Ink(TrimRight(l)) == Ink(l)
  {
    if l != "" && Blank(l[|l| - 1]) {
      InkOfTrimmed(l[..|l| - 1]);
      assert l == l[..|l| - 1] + [l[|l| - 1]];
      InkConcat(l[..|l| - 1], [l[|l| - 1]]);
    }
  }

  lemma {:induction false} InkOfTrimAll(lines: seq<string>)
    ensures InkOfLines(TrimAll(lines)) == InkOfLines(lines)
  {
    if lines != [] {
      InkOfTrimmed(lines[0]);
      InkOfTrimAll(lines[1..]);
    }
  }

  lemma {:induction false} InkOfRuns(lines: seq<string>)
    ensures InkOfLines(Runs(lines)) == InkOfLines(lines)
  {
    if lines != [] {
      InkOfRuns(lines[1..]);
      var rest := Runs(lines[1..]);
      assert ([lines[0]] + rest)[1..] == rest;
    }
  }

  lemma InkOfSqueeze(lines: seq<string>)
    ensures InkOfLines(Squeeze(lines)) == InkOfLines(lines)
  {
    InkOfRuns(lines);
    InkOfDropped(Runs(lines));
  }

  lemma {:induction false} InkOfDropped(lines: seq<string>)
    ensures InkOfLines(DropEmpty(lines)) == InkOfLines(lines)
  {
    if lines != [] && lines[0] == "" {
      InkOfDropped(lines[1..]);
    }
  }

  /** Compressing a text keeps every character that is neither a blank nor an end of a line, in order. */
  lemma InkIsKept(s: string)
    ensures Ink(Compressed(s)) == Ink(s)
  {
    var lines := SplitOn(Unified(s), '\n');
    UnifiedIsNewlines(s);
    InkOfNewlines(s);
    JoinOfSplit(Unified(s), '\n');
    InkOfJoin(lines);
    InkOfTrimAll(lines);
    InkOfSqueeze(TrimAll(lines));
    InkOfJoin(Squeeze(TrimAll(lines)));
  }

  /** A trimmed line lacks the spaces and tabs at its end, all of them, and nothing else. */
  lemma {:induction false} TrimmedLineIs(l: string) returns (tail: string)
    ensures l == TrimRight(l) + tail && forall c | c in tail :: c == ' ' || c == '\t'
    ensures var t := TrimRight(l); t != "" ==> t[|t| - 1] != ' ' && t[|t| - 1] != '\t'
  {
    tail := "";
    if l != "" && Blank(l[|l| - 1]) {
      var more := TrimmedLineIs(l[..|l| - 1]);
      tail := more + [l[|l| - 1]];
      assert l == l[..|l| - 1] + [l[|l| - 1]];
    }
  }
}
