/** The ignore file: its patterns, what they match, and the pruned walk of a source tree. */
module Ignore {
  import opened Strings
  import opened Wrappers

  const FILE_NAME := ".remindb.ignore"

  /** Go's path.Match, taken as given: which segment patterns are well formed, and what they match. */
  datatype Glob = Glob(valid: string -> bool, matches: (string, string) -> bool)

  datatype Pattern = Pattern(raw: string, segments: seq<string>, dirOnly: bool, anchored: bool, negated: bool)

  datatype PatternError = EmptyPattern | EmptySegment | BadSegment

  datatype LoadError = LoadError(line: nat, error: PatternError)

  /** No ignore file at all, or the patterns of one. */
  type Matcher = Option<seq<Pattern>>

  // ----- matching a path -----

  predicate MatchPath(g: Glob, pats: seq<string>, segs: seq<string>) {
    if pats == [] then segs == []
    else if pats[0] == "**" then exists i | 0 <= i <= |segs| :: MatchPath(g, pats[1..], segs[i..])
    else segs != [] && g.matches(pats[0], segs[0]) && MatchPath(g, pats[1..], segs[1..])
  }

  method MatchSegments(g: Glob, pats: seq<string>, segs: seq<string>) returns (ok: bool)
    ensures ok == MatchPath(g, pats, segs)
    decreases |pats|
  {
    if pats == [] {
      return segs == [];
    }
    if pats[0] == "**" {
      for i := 0 to |segs| + 1
        invariant forall k | 0 <= k < i :: !MatchPath(g, pats[1..], segs[k..])
      {
        var rest := MatchSegments(g, pats[1..], segs[i..]);
        if rest {
          return true;
        }
      }
      return false;
    }
    if segs == [] || !g.matches(pats[0], segs[0]) {
      return false;
    }
    ok := MatchSegments(g, pats[1..], segs[1..]);
  }

  /** The first pattern takes `n` segments, and the rest matches what is left. */
  lemma MatchStep(g: Glob, pats: seq<string>, segs: seq<string>, n: nat)
    requires pats != [] && n <= |segs| && MatchPath(g, pats[1..], segs[n..])
    requires pats[0] == "**" || (n == 1 && g.matches(pats[0], segs[0]))
    ensures MatchPath(g, pats, segs)
  {}

  lemma FirstTakes(g: Glob, pats: seq<string>, segs: seq<string>) returns (n: nat)
    requires pats != [] && MatchPath(g, pats, segs)
    ensures n <= |segs| && MatchPath(g, pats[1..], segs[n..])
    ensures pats[0] == "**" || (n == 1 && g.matches(pats[0], segs[0]))
  {
    n := 1;
    if pats[0] == "**" {
      n :| 0 <= n <= |segs| && MatchPath(g, pats[1..], segs[n..]);
    }
  }

  function Flat(runs: seq<seq<string>>): seq<string> {
    if runs == [] then [] else runs[0] + Flat(runs[1..])
  }

  /** A double star takes any run of segments, and every other pattern one segment that it matches. */
  predicate Takes(g: Glob, pat: string, run: seq<string>) {
    pat == "**" || (|run| == 1 && g.matches(pat, run[0]))
  }

  /** The path cut into one run for each pattern. */
  ghost predicate Cut(g: Glob, pats: seq<string>, segs: seq<string>, runs: seq<seq<string>>) {
    |runs| == |pats| && Flat(runs) == segs && forall k | 0 <= k < |pats| :: Takes(g, pats[k], runs[k])
  }

  lemma {:induction false} MatchHasCut(g: Glob, pats: seq<string>, segs: seq<string>) returns (runs: seq<seq<string>>)
    requires MatchPath(g, pats, segs)
    ensures Cut(g, pats, segs, runs)
    decreases |pats|
  {
    if pats == [] {
      runs := [];
    } else {
      var n := FirstTakes(g, pats, segs);
      var rest := MatchHasCut(g, pats[1..], segs[n..]);
      runs := [segs[..n]] + rest;
      assert runs[1..] == rest && segs[..n] + segs[n..] == segs;
      forall k | 0 <= k < |pats|
        ensures Takes(g, pats[k], runs[k])
      {
        if k > 0 {
          assert runs[k] == rest[k - 1] && pats[k] == pats[1..][k - 1];
        }
      }
    }
  }

  lemma {:induction false} CutMatches(g: Glob, pats: seq<string>, segs: seq<string>, runs: seq<seq<string>>)
    requires Cut(g, pats, segs, runs)
    ensures MatchPath(g, pats, segs)
    decreases |pats|
  {
    if pats != [] {
      var n, rest := |runs[0]|, runs[1..];
      assert segs == runs[0] + Flat(rest);
      assert segs[n..] == Flat(rest);
      forall k | 0 <= k < |rest|
        ensures Takes(g, pats[1..][k], rest[k])
      {
        assert Takes(g, pats[k + 1], runs[k + 1]);
      }
      CutMatches(g, pats[1..], segs[n..], rest);
      assert Takes(g, pats[0], runs[0]);
      MatchStep(g, pats, segs, n);
    }
  }

  /** A path matches exactly when it can be cut into runs that the patterns take, one each. */
  lemma MatchIffCut(g: Glob, pats: seq<string>, segs: seq<string>)
    ensures MatchPath(g, pats, segs) <==> exists runs :: Cut(g, pats, segs, runs)
  {
    if MatchPath(g, pats, segs) {
      var runs := MatchHasCut(g, pats, segs);
    }
    if runs :| Cut(g, pats, segs, runs) {
      CutMatches(g, pats, segs, runs);
    }
  }

  ghost predicate MatchApart(g: Glob, first: seq<string>, second: seq<string>, segs: seq<string>, k: nat) {
    k <= |segs| && MatchPath(g, first, segs[..k]) && MatchPath(g, second, segs[k..])
  }

  lemma SliceTwice(segs: seq<string>, n: nat, k: nat)
    requires n <= k <= |segs|
    ensures segs[..k][n..] == segs[n..][..k - n] && segs[k..] == segs[n..][k - n..]
  {}

  /** What the first pattern may take of a path that another pattern follows. */
  predicate TakesFirst(g: Glob, pats: seq<string>, segs: seq<string>, n: nat) {
    pats != [] && n <= |segs| && (pats[0] == "**" || (n == 1 && g.matches(pats[0], segs[0])))
  }

  lemma NoneApart(g: Glob, second: seq<string>, segs: seq<string>, k: nat)
    ensures MatchApart(g, [], second, segs, k) <==> k == 0 && MatchPath(g, [] + second, segs)
  {
    assert [] + second == second && segs[0..] == segs;
  }

  lemma AddFirst(g: Glob, first: seq<string>, second: seq<string>, segs: seq<string>, n: nat)
    requires TakesFirst(g, first, segs, n) && MatchPath(g, first[1..] + second, segs[n..])
    ensures MatchPath(g, first + second, segs)
  {
    assert (first + second)[1..] == first[1..] + second;
    MatchStep(g, first + second, segs, n);
  }

  lemma DropFirst(g: Glob, first: seq<string>, second: seq<string>, segs: seq<string>) returns (n: nat)
    requires first != [] && MatchPath(g, first + second, segs)
    ensures TakesFirst(g, first, segs, n) && MatchPath(g, first[1..] + second, segs[n..])
  {
    assert (first + second)[1..] == first[1..] + second;
    n := FirstTakes(g, first + second, segs);
  }

  lemma AddFirstApart(g: Glob, first: seq<string>, second: seq<string>, segs: seq<string>, n: nat, k: nat)
    requires TakesFirst(g, first, segs, n) && MatchApart(g, first[1..], second, segs[n..], k)
    ensures MatchApart(g, first, second, segs, n + k)
  {
    SliceTwice(segs, n, n + k);
    MatchStep(g, first, segs[..n + k], n);
  }

  lemma DropFirstApart(g: Glob, first: seq<string>, second: seq<string>, segs: seq<string>, k: nat) returns (n: nat)
    requires first != [] && MatchApart(g, first, second, segs, k)
    ensures n <= k && TakesFirst(g, first, segs, n) && MatchApart(g, first[1..], second, segs[n..], k - n)
  {
    n := FirstTakes(g, first, segs[..k]);
    SliceTwice(segs, n, k);
  }

  lemma {:induction false} TogetherThenApart(g: Glob, first: seq<string>, second: seq<string>, segs: seq<string>)
      returns (k: nat)
    requires MatchPath(g, first + second, segs)
    ensures MatchApart(g, first, second, segs, k)
    decreases |first|
  {
    if first == [] {
      k := 0;
      NoneApart(g, second, segs, 0);
    } else {
      var n := DropFirst(g, first, second, segs);
      var rest := TogetherThenApart(g, first[1..], second, segs[n..]);
      AddFirstApart(g, first, second, segs, n, rest);
      k := n + rest;
    }
  }

  lemma {:induction false} ApartThenTogether(
      g: Glob, first: seq<string>, second: seq<string>, segs: seq<string>, k: nat)
    requires MatchApart(g, first, second, segs, k)
    ensures MatchPath(g, first + second, segs)
    decreases |first|
  {
    if first == [] {
      NoneApart(g, second, segs, k);
    } else {
      var n := DropFirstApart(g, first, second, segs, k);
      ApartThenTogether(g, first[1..], second, segs[n..], k - n);
      AddFirst(g, first, second, segs, n);
    }
  }

  /** Two patterns written one after the other match exactly the paths that fall into a match of each. */
  lemma MatchOfConcat(g: Glob, first: seq<string>, second: seq<string>, segs: seq<string>)
    ensures MatchPath(g, first + second, segs) <==> exists k :: MatchApart(g, first, second, segs, k)
  {
    if MatchPath(g, first + second, segs) {
      var k := TogetherThenApart(g, first, second, segs);
    }
    if k :| MatchApart(g, first, second, segs, k) {
      ApartThenTogether(g, first, second, segs, k);
    }
  }

  // ----- matching with a list of patterns -----

  predicate Usable(m: Matcher) {
    m.Some? ==> forall p | p in m.value :: p.segments != []
  }

  predicate Applies(g: Glob, p: Pattern, segs: seq<string>, isDir: bool)
    requires p.segments != [] && segs != []
  {
    (p.dirOnly ==> isDir)
    && if p.anchored then MatchPath(g, p.segments, segs) else g.matches(p.segments[0], segs[|segs| - 1])
  }

  /** `k` is the last pattern that applies. */
  ghost predicate Decides(g: Glob, ps: seq<Pattern>, k: int, segs: seq<string>, isDir: bool)
    requires segs != [] && forall p | p in ps :: p.segments != []
  {
    0 <= k < |ps| && Applies(g, ps[k], segs, isDir) && forall j | k < j < |ps| :: !Applies(g, ps[j], segs, isDir)
  }

  /** The last applicable pattern has the last word; no pattern at all lets the path through. */
  ghost predicate Excluded(g: Glob, ps: seq<Pattern>, segs: seq<string>, isDir: bool)
    requires segs != [] && forall p | p in ps :: p.segments != []
  {
    exists k :: Decides(g, ps, k, segs, isDir) && !ps[k].negated
  }

  ghost predicate Ignored(g: Glob, m: Matcher, rel: string, isDir: bool)
    requires Usable(m)
  {
    m.Some? && rel != "" && rel != "." && Excluded(g, m.value, SplitOn(rel, '/'), isDir)
  }

  method MatchPattern(g: Glob, p: Pattern, segs: seq<string>) returns (ok: bool)
    requires p.segments != [] && segs != []
    ensures ok == Applies(g, p, segs, true)
  {
    if !p.anchored {
      return g.matches(p.segments[0], segs[|segs| - 1]);
    }
    ok := MatchSegments(g, p.segments, segs);
  }

  /** Two stars, as a pattern for one name, match any name. */
  ghost predicate StarsMatch(g: Glob) {
    forall name :: g.matches("**", name)
  }

  /** The pattern as one that begins at the top. */
  function FromTop(p: Pattern): seq<string> {
    if p.anchored then p.segments else ["**"] + p.segments
  }

  lemma AnyDepth(g: Glob, pat: string, segs: seq<string>)
    requires segs != [] && pat != "**"
    ensures MatchPath(g, ["**", pat], segs) <==> g.matches(pat, segs[|segs| - 1])
  {
    var n := |segs| - 1;
    assert ["**", pat][1..] == [pat] && [pat][1..] == [] && segs[n..] == [segs[n]];
    if g.matches(pat, segs[n]) {
      assert MatchPath(g, [pat], segs[n..]);
    }
    if MatchPath(g, ["**", pat], segs) {
      var k := FirstTakes(g, ["**", pat], segs);
      assert segs[k..] != [] && segs[k..][1..] == [];
    }
  }

  /**
   A pattern applies to a path if and only if the path can be cut into runs that its segments
   take; a pattern without a slash may begin at any depth.
  */
  lemma AppliesIff(g: Glob, p: Pattern, segs: seq<string>, isDir: bool)
    requires StarsMatch(g) && p.segments != [] && segs != [] && (!p.anchored ==> |p.segments| == 1)
    ensures Applies(g, p, segs, isDir)
            <==> (p.dirOnly ==> isDir)
                 && exists runs :: Cut(g, FromTop(p), segs, runs)
  {
    var pats := FromTop(p);
    MatchIffCut(g, pats, segs);
    if !p.anchored {
      var pat := p.segments[0];
      assert pats == ["**", pat];
      if pat == "**" {
        assert pats[1..] == ["**"] && ["**"][1..] == [] && segs[|segs|..] == [];
        assert MatchPath(g, ["**"], segs[0..]);
        assert MatchPath(g, pats, segs);
      } else {
        AnyDepth(g, pat, segs);
      }
    }
  }

  /** A pattern added below the others decides the paths it applies to, and leaves the rest as they were. */
  lemma LastLineDecides(g: Glob, ps: seq<Pattern>, p: Pattern, segs: seq<string>, isDir: bool)
    requires segs != [] && p.segments != [] && forall q | q in ps :: q.segments != []
    ensures Excluded(g, ps + [p], segs, isDir)
            <==> if Applies(g, p, segs, isDir) then !p.negated else Excluded(g, ps, segs, isDir)
  {
    var all, n := ps + [p], |ps|;
    assert all[n] == p;
    if Applies(g, p, segs, isDir) {
      assert Decides(g, all, n, segs, isDir);
      assert forall k | Decides(g, all, k, segs, isDir) :: k == n;
    } else {
      assert forall j | 0 <= j < n :: all[j] == ps[j];
      forall k
        ensures Decides(g, all, k, segs, isDir) <==> Decides(g, ps, k, segs, isDir)
      {
        if Decides(g, ps, k, segs, isDir) {
          assert forall j | k < j < |all| :: !Applies(g, all[j], segs, isDir);
        }
        if Decides(g, all, k, segs, isDir) {
          assert all[k] == ps[k];
          assert forall j | k < j < n :: all[j] == ps[j];
        }
      }
    }
  }

  method Match(g: Glob, m: Matcher, rel: string, isDir: bool) returns (ignored: bool)
    requires Usable(m)
    ensures ignored == Ignored(g, m, rel, isDir)
  {
    if m.None? || |m.value| == 0 {
      return false;
    }
    if rel == "" || rel == "." {
      return false;
    }
    var ps, segs := m.value, SplitOn(rel, '/');
    ignored := false;
    for i := 0 to |ps|
      invariant ignored == Excluded(g, ps[..i], segs, isDir)
    {
      var p := ps[i];
      assert ps[..i + 1] == ps[..i] + [p];
      LastLineDecides(g, ps[..i], p, segs, isDir);
      if p.dirOnly && !isDir {
        continue;
      }
      var ok := MatchPattern(g, p, segs);
      if ok {
        ignored := !p.negated;
      }
    }
    assert ps[..|ps|] == ps;
  }

  // ----- reading one line -----

  /** The marks around the body of a pattern line. */
  datatype Spelling = Spelling(escaped: bool, negated: bool, rooted: bool, body: string, slash: bool)

  predicate Marked(s: string) {
    s != "" && (s[0] == '!' || s[0] == '#')
  }

  predicate EscapesMark(s: string) {
    s != "" && s[0] == '\\' && Marked(s[1..])
  }

  function SpellBody(sp: Spelling): string {
    sp.body + (if sp.slash then "/" else "")
  }

  function SpellPath(sp: Spelling): string {
    (if sp.rooted then "/" else "") + SpellBody(sp)
  }

  function Spell(sp: Spelling): string {
    (if sp.escaped then "\\" else if sp.negated then "!" else "") + SpellPath(sp)
  }

  /** Every mark that could be read as one is one. */
  ghost predicate Canonical(sp: Spelling) {
    (sp.escaped ==> !sp.negated && Marked(SpellPath(sp)))
    && (!sp.escaped && !sp.negated ==> !EscapesMark(SpellPath(sp)) && !HasPrefix(SpellPath(sp), "!"))
    && (!sp.rooted ==> !HasPrefix(SpellBody(sp), "/"))
    && (!sp.slash ==> !HasSuffix(sp.body, "/"))
  }

  /** What a line with this spelling parses to. */
  ghost function Parsed(g: Glob, raw: string, sp: Spelling): Result<Pattern, PatternError> {
    var segments := SplitOn(sp.body, '/');
    if sp.body == "" then Err(EmptyPattern)
    else if "" in segments then Err(EmptySegment)
    else if exists seg | seg in segments :: seg != "**" && !g.valid(seg) then Err(BadSegment)
    else Ok(Pattern(raw, segments, sp.slash, sp.rooted || '/' in sp.body, sp.negated))
  }

  lemma ParsedSegments(g: Glob, raw: string, sp: Spelling, segments: seq<string>)
    requires sp.body != "" && SplitOn(sp.body, '/') == segments
    requires forall seg | seg in segments :: seg != "" && (seg == "**" || g.valid(seg))
    ensures Parsed(g, raw, sp) == Ok(Pattern(raw, segments, sp.slash, sp.rooted || '/' in sp.body, sp.negated))
  {
    assert "" !in segments;
  }

  method ReadBang(raw: string) returns (s: string, escaped: bool, negated: bool)
    ensures raw == (if escaped then "\\" else if negated then "!" else "") + s
    ensures escaped == EscapesMark(raw) && negated == HasPrefix(raw, "!")
  {
    s, escaped, negated := raw, false, false;
    if |s| >= 2 && s[0] == '\\' && (s[1] == '!' || s[1] == '#') {
      s := s[1..];
      escaped := true;
    }
    if !escaped && HasPrefix(s, "!") {
      negated := true;
      s := s[1..];
    }
  }

  method ReadSlashes(path: string) returns (s: string, anchored: bool, dirOnly: bool)
    ensures path == (if anchored then "/" else "") + (s + (if dirOnly then "/" else ""))
    ensures anchored == HasPrefix(path, "/") && (!dirOnly ==> !HasSuffix(s, "/"))
  {
    s, anchored, dirOnly := path, false, false;
    if HasPrefix(s, "/") {
      anchored := true;
      s := s[1..];
    }
    if HasSuffix(s, "/") {
      dirOnly := true;
      s := s[..|s| - 1];
    }
  }

  lemma SpelledSo(raw: string, path: string, sp: Spelling)
    requires raw == (if sp.escaped then "\\" else if sp.negated then "!" else "") + path
    requires sp.escaped == EscapesMark(raw) && sp.negated == HasPrefix(raw, "!")
    requires path == (if sp.rooted then "/" else "") + (sp.body + (if sp.slash then "/" else ""))
    requires sp.rooted == HasPrefix(path, "/") && (!sp.slash ==> !HasSuffix(sp.body, "/"))
    ensures Canonical(sp) && Spell(sp) == raw
  {
    assert SpellPath(sp) == path;
    if sp.escaped {
      assert raw[1..] == path;
    } else if !sp.negated {
      assert raw == path;
    }
  }

  /** `r` is what the line parses to; it has one reading only. */
  ghost predicate Reads(g: Glob, raw: string, r: Result<Pattern, PatternError>) {
    exists sp :: Canonical(sp) && Spell(sp) == raw && r == Parsed(g, raw, sp)
  }

  method ParsePattern(g: Glob, raw: string) returns (r: Result<Pattern, PatternError>)
    ensures Reads(g, raw, r)
  {
    var path, escaped, negated := ReadBang(raw);
    var s, anchored, dirOnly := ReadSlashes(path);
    ghost var sp := Spelling(escaped, negated, anchored, s, dirOnly);
    SpelledSo(raw, path, sp);
    if !anchored && '/' in s {
      anchored := true;
    }
    if s == "" {
      return Err(EmptyPattern);
    }
    var segments := SplitOn(s, '/');
    if "" in segments {
      return Err(EmptySegment);
    }
    for i := 0 to |segments|
      invariant forall k | 0 <= k < i :: segments[k] == "**" || g.valid(segments[k])
    {
      if segments[i] == "**" {
        continue;
      }
      if !g.valid(segments[i]) {
        return Err(BadSegment);
      }
    }
    r := Ok(Pattern(raw, segments, dirOnly, anchored, negated));
    ParsedSegments(g, raw, sp, segments);
  }

  /** A line has one reading only, so the spelling that the parser finds is the only one there is. */
  lemma OneReading(a: Spelling, b: Spelling)
    requires Canonical(a) && Canonical(b) && Spell(a) == Spell(b)
    ensures a == b
  {
    SamePath(a, b);
    SameBody(a, b);
    assert a.slash == HasSuffix(SpellBody(a), "/") && b.slash == HasSuffix(SpellBody(b), "/");
    assert a.body == SpellBody(a)[..|a.body|] && b.body == SpellBody(b)[..|b.body|];
  }

  lemma SamePath(a: Spelling, b: Spelling)
    requires Canonical(a) && Canonical(b) && Spell(a) == Spell(b)
    ensures SpellPath(a) == SpellPath(b) && a.escaped == b.escaped && a.negated == b.negated
  {
    MarksOf(a);
    MarksOf(b);
    var cut := if a.escaped || a.negated then 1 else 0;
    assert SpellPath(a) == Spell(a)[cut..] && SpellPath(b) == Spell(b)[cut..];
  }

  /** How the first characters of a line give away its marks. */
  lemma MarksOf(sp: Spelling)
    requires Canonical(sp)
    ensures sp.escaped == EscapesMark(Spell(sp)) && sp.negated == HasPrefix(Spell(sp), "!")
  {
    if sp.escaped || sp.negated {
      assert Spell(sp)[1..] == SpellPath(sp);
    } else {
      assert Spell(sp) == SpellPath(sp);
    }
  }

  lemma SameBody(a: Spelling, b: Spelling)
    requires Canonical(a) && Canonical(b) && SpellPath(a) == SpellPath(b)
    ensures SpellBody(a) == SpellBody(b) && a.rooted == b.rooted
  {
    assert a.rooted == HasPrefix(SpellPath(a), "/") && b.rooted == HasPrefix(SpellPath(b), "/");
    var cut := if a.rooted then 1 else 0;
    assert SpellBody(a) == SpellPath(a)[cut..] && SpellBody(b) == SpellPath(b)[cut..];
  }

  /** Text that starts like an escaped mark cannot be written unless something stands before it. */
  predicate Writable(negated: bool, rooted: bool, text: string) {
    if rooted then true else if negated then !HasPrefix(text, "/") else !EscapesMark(text) && !HasPrefix(text, "/")
  }

  /** Every pattern of well-formed segments that can be written is read back as it was meant. */
  lemma WrittenPatternIsRead(g: Glob, negated: bool, rooted: bool, segments: seq<string>, dirOnly: bool)
    requires segments != [] && forall seg | seg in segments :: seg != "" && '/' !in seg && (seg == "**" || g.valid(seg))
    requires Writable(negated, rooted, JoinOn(segments, '/'))
    ensures var text := JoinOn(segments, '/');
            var sp := Spelling(!negated && !rooted && Marked(text), negated, rooted, text, dirOnly);
            Canonical(sp)
            && Parsed(g, Spell(sp), sp)
               == Ok(Pattern(Spell(sp), segments, dirOnly, rooted || |segments| > 1, negated))
  {
    var text := JoinOn(segments, '/');
    SplitOfJoin(segments, '/');
    JoinEnds(segments);
    JoinHasSlash(segments);
    var sp := Spelling(!negated && !rooted && Marked(text), negated, rooted, text, dirOnly);
    WrittenIsCanonical(negated, rooted, text, dirOnly);
    ParsedSegments(g, Spell(sp), sp, segments);
  }

  /**
   And conversely: a line that is accepted is the writing of its segments, all of them well formed,
   with the marks that it is read with.
  */
  lemma ReadPatternIsWritten(g: Glob, raw: string, p: Pattern) returns (sp: Spelling)
    requires Reads(g, raw, Ok(p))
    ensures p.segments != []
    ensures forall seg | seg in p.segments :: seg != "" && '/' !in seg && (seg == "**" || g.valid(seg))
    ensures Canonical(sp) && Spell(sp) == raw && sp.body == JoinOn(p.segments, '/')
    ensures p.raw == raw && p.dirOnly == sp.slash && p.negated == sp.negated
    ensures p.anchored == (sp.rooted || |p.segments| > 1)
  {
    sp :| Canonical(sp) && Spell(sp) == raw && Ok(p) == Parsed(g, raw, sp);
    PartsLackSep(sp.body, '/');
    JoinOfSplit(sp.body, '/');
    JoinHasSlash(p.segments);
  }

  lemma WrittenIsCanonical(negated: bool, rooted: bool, text: string, dirOnly: bool)
    requires text != "" && text[0] != '/' && text[|text| - 1] != '/' && Writable(negated, rooted, text)
    ensures Canonical(Spelling(!negated && !rooted && Marked(text), negated, rooted, text, dirOnly))
  {
    var sp := Spelling(!negated && !rooted && Marked(text), negated, rooted, text, dirOnly);
    assert SpellBody(sp)[0] == text[0];
    if !rooted {
      assert SpellPath(sp) == SpellBody(sp);
      SameMarks(text, SpellBody(sp));
    }
  }

  /** A slash at the end does not change how a text starts. */
  lemma SameMarks(text: string, body: string)
    requires text != "" && (body == text || body == text + "/")
    ensures Marked(body) == Marked(text) && EscapesMark(body) == EscapesMark(text)
    ensures HasPrefix(body, "!") == HasPrefix(text, "!") && HasPrefix(body, "/") == HasPrefix(text, "/")
  {
    assert body[0] == text[0];
    if |text| > 1 {
      assert body[1] == text[1];
    }
  }

  lemma {:induction false} JoinEnds(segments: seq<string>)
    requires segments != [] && forall seg | seg in segments :: seg != "" && '/' !in seg
    ensures var text := JoinOn(segments, '/'); text != "" && text[0] != '/' && text[|text| - 1] != '/'
  {
    assert segments[0] in segments && segments[0][0] in segments[0];
    if |segments| > 1 {
      assert forall seg | seg in segments[1..] :: seg in segments;
      JoinEnds(segments[1..]);
    } else {
      var seg := segments[0];
      assert seg[|seg| - 1] in seg;
    }
  }

  lemma JoinHasSlash(segments: seq<string>)
    requires segments != [] && forall seg | seg in segments :: '/' !in seg
    ensures '/' in JoinOn(segments, '/') <==> |segments| > 1
  {
    if |segments| > 1 {
      var head := segments[0] + ['/'];
      assert '/' in head;
      assert JoinOn(segments, '/') == head + JoinOn(segments[1..], '/');
    } else {
      assert segments[0] in segments;
    }
  }

  // ----- reading the file -----

  predicate IsPatternLine(line: string) {
    var raw := TrimSpace(line);
    raw != "" && !HasPrefix(raw, "#")
  }

  /** The trimmed lines that are neither blank nor comments, in order. */
  function PatternLines(lines: seq<string>): seq<string> {
    if lines == [] then []
    else
      var last := lines[|lines| - 1];
      PatternLines(lines[..|lines| - 1]) + (if IsPatternLine(last) then [TrimSpace(last)] else [])
  }

  lemma NextLine(lines: seq<string>, i: nat)
    requires i < |lines|
    ensures PatternLines(lines[..i + 1])
         == PatternLines(lines[..i]) + (if IsPatternLine(lines[i]) then [TrimSpace(lines[i])] else [])
  {
    assert lines[..i + 1][..i] == lines[..i];
  }

  /** A line holds a pattern if and only if its first character that is not white space is there and is no hash sign. */
  lemma PatternLineIff(line: string)
    ensures IsPatternLine(line)
            <==> exists i | 0 <= i < |line| :: AllSpace(line[..i]) && !IsUnicodeSpace(line[i]) && line[i] != '#'
  {
    var before, behind := TrimSpaceIs(line);
    var raw, n := TrimSpace(line), |before|;
    if raw != "" {
      assert line[..n] == before && line[n] == raw[0];
      forall i | 0 <= i < |line|
        ensures AllSpace(line[..i]) && !IsUnicodeSpace(line[i]) ==> i == n
      {
        FirstInk(line, n, i);
      }
    } else {
      assert line == before + behind;
      assert forall i | 0 <= i < |line| :: line[i] in before || line[i] in behind;
    }
  }

  lemma FirstInk(line: string, n: nat, i: nat)
    requires i < |line| && n < |line| && AllSpace(line[..n]) && !IsUnicodeSpace(line[n])
    ensures AllSpace(line[..i]) && !IsUnicodeSpace(line[i]) ==> i == n
  {
    if i < n {
      assert line[..n][i] == line[i] && line[i] in line[..n];
    } else if n < i {
      assert line[..i][n] == line[n] && line[n] in line[..i];
    }
  }

  lemma {:induction false} PatternLinesConcat(a: seq<string>, b: seq<string>)
    ensures PatternLines(a + b) == PatternLines(a) + PatternLines(b)
    decreases |b|
  {
    if b == [] {
      assert a + b == a;
    } else {
      assert (a + b)[..|a + b| - 1] == a + b[..|b| - 1];
      PatternLinesConcat(a, b[..|b| - 1]);
    }
  }

  /** A blank line or a comment may stand anywhere in the file without changing what is read. */
  lemma OtherLinesDoNotMatter(above: seq<string>, line: string, below: seq<string>)
    requires !IsPatternLine(line)
    ensures PatternLines(above + [line] + below) == PatternLines(above + below)
  {
    assert [line][..0] == [];
    PatternLinesConcat(above, [line]);
    PatternLinesConcat(above + [line], below);
    PatternLinesConcat(above, below);
  }

  ghost predicate ReadAll(g: Glob, raws: seq<string>, ps: seq<Pattern>) {
    |ps| == |raws| && forall i | 0 <= i < |ps| :: Reads(g, raws[i], Ok(ps[i]))
  }

  lemma ReadIsUsable(g: Glob, raw: string, p: Pattern)
    requires Reads(g, raw, Ok(p))
    ensures p.segments != []
  {
  }

  /** The line is the first one that fails to parse. */
  ghost predicate FirstBadLine(g: Glob, lines: seq<string>, e: LoadError) {
    0 < e.line <= |lines|
    && IsPatternLine(lines[e.line - 1]) && Reads(g, TrimSpace(lines[e.line - 1]), Err(e.error))
    && AllRead(g, PatternLines(lines[..e.line - 1]))
  }

  ghost predicate AllRead(g: Glob, raws: seq<string>) {
    exists ps :: ReadAll(g, raws, ps)
  }

  /** No file gives no matcher; else one pattern a line, or the first line that fails to parse. */
  method Load(g: Glob, file: Option<seq<string>>) returns (r: Result<Matcher, LoadError>)
    ensures file.None? ==> r == Ok(None)
    ensures file.Some? && r.Ok? ==> r.value.Some? && ReadAll(g, PatternLines(file.value), r.value.value)
    ensures r.Ok? ==> Usable(r.value)
    ensures r.Err? ==> file.Some? && FirstBadLine(g, file.value, r.error)
  {
    if file.None? {
      return Ok(None);
    }
    var lines := file.value;
    var patterns: seq<Pattern> := [];
    for line := 0 to |lines|
      invariant ReadAll(g, PatternLines(lines[..line]), patterns)
      invariant Usable(Some(patterns))
    {
      NextLine(lines, line);
      var raw := TrimSpace(lines[line]);
      if raw == "" || HasPrefix(raw, "#") {
        continue;
      }
      var p := ParsePattern(g, raw);
      if p.Err? {
        return Err(LoadError(line + 1, p.error));
      }
      ReadIsUsable(g, raw, p.value);
      patterns := patterns + [p.value];
    }
    assert lines[..|lines|] == lines;
    r := Ok(Some(patterns));
  }

  // ----- the walk -----

  /** A directory tree as the walk sees it; siblings come in the order they are listed. */
  datatype Entry = File(name: string) | Dir(name: string, entries: seq<Entry>)

  /** Names from the root of the walk down. */
  type Path = seq<string>

  predicate IsName(name: string) {
    name != "" && name != "." && name != ".." && '/' !in name
  }

  function Rel(path: Path): string {
    JoinOn(path, '/')
  }

  /** On real names the matcher sees the path itself, segment by segment. */
  lemma NamesAreSegments(g: Glob, ps: seq<Pattern>, path: Path, isDir: bool)
    requires path != [] && (forall n | n in path :: IsName(n)) && Usable(Some(ps))
    ensures Ignored(g, Some(ps), Rel(path), isDir) <==> Excluded(g, ps, path, isDir)
  {
    SplitOfJoin(path, '/');
    JoinEnds(path);
    if |path| == 1 {
      assert path[0] in path;
    } else {
      JoinHasSlash(path);
    }
  }

  function Lower(c: char): char {
    if 'A' <= c <= 'Z' then ((c as int) + 32) as char
    else if c == '\U{212A}' then 'k'
    else if c == '\U{130}' then 'i'
    else c
  }

  function LowerAll(s: string): string {
    if s == "" then "" else [Lower(s[0])] + LowerAll(s[1..])
  }

  /** From the last dot on. */
  function Extension(name: string): string {
    if name == "" then ""
    else
      var rest := Extension(name[1..]);
      if rest != "" then rest else if name[0] == '.' then name else ""
  }

  predicate Supported(name: string) {
    LowerAll(Extension(name))
    in {".md", ".markdown", ".yaml", ".yml", ".json", ".jsonl", ".ndjson", ".toon"}
  }

  /** An extension runs from the last dot to the end; a name without a dot has none. */
  lemma {:induction false} ExtensionIs(name: string) returns (stem: string)
    ensures name == stem + Extension(name)
    ensures if '.' in name then Extension(name) != "" && Extension(name)[0] == '.' && '.' !in Extension(name)[1..]
            else Extension(name) == ""
  {
    stem := "";
    if name != "" {
      assert name == [name[0]] + name[1..];
      var rest := ExtensionIs(name[1..]);
      if Extension(name[1..]) != "" || name[0] != '.' {
        stem := [name[0]] + rest;
      }
    }
  }

  lemma {:induction false} LowerKeepsExtension(name: string)
    ensures LowerAll(Extension(name)) == Extension(LowerAll(name))
  {
    if name != "" {
      LowerKeepsExtension(name[1..]);
      var low := LowerAll(name[1..]);
      assert LowerAll(name) == [Lower(name[0])] + low && LowerAll(name)[1..] == low;
    }
  }

  lemma EndsIffExtension(name: string, ext: string)
    requires |ext| > 1 && ext[0] == '.' && forall k | 1 <= k < |ext| :: ext[k] != '.'
    ensures HasSuffix(name, ext) <==> Extension(name) == ext
  {
    var stem := ExtensionIs(name);
    var own := Extension(name);
    assert name[|stem|..] == own;
    if HasSuffix(name, ext) {
      var n := |name| - |ext|;
      forall k | n <= k < |name|
        ensures name[k] == ext[k - n]
      {
        assert name[n..][k - n] == name[k];
      }
      assert name[n] in name;
      forall k | |stem| < k < |name|
        ensures name[k] != '.'
      {
        assert name[k] == own[1..][k - |stem| - 1];
      }
      assert name[|stem|] == own[0];
      LastDot(name, n, |stem|);
    }
  }

  /** There is one last dot. */
  lemma LastDot(name: string, a: nat, b: nat)
    requires a < |name| && b < |name| && name[a] == '.' && name[b] == '.'
    requires (forall k | a < k < |name| :: name[k] != '.') && forall k | b < k < |name| :: name[k] != '.'
    ensures a == b
  {}

  /** A file is supported if and only if its name, in lower case, ends in one of the eight extensions. */
  lemma SupportedIff(name: string)
    ensures var low := LowerAll(name);
            Supported(name) <==>
              HasSuffix(low, ".md") || HasSuffix(low, ".markdown") || HasSuffix(low, ".yaml") || HasSuffix(low, ".yml")
              || HasSuffix(low, ".json") || HasSuffix(low, ".jsonl") || HasSuffix(low, ".ndjson")
              || HasSuffix(low, ".toon")
  {
    var low := LowerAll(name);
    LowerKeepsExtension(name);
    EndsIffExtension(low, ".md");
    EndsIffExtension(low, ".markdown");
    EndsIffExtension(low, ".yaml");
    EndsIffExtension(low, ".yml");
    EndsIffExtension(low, ".json");
    EndsIffExtension(low, ".jsonl");
    EndsIffExtension(low, ".ndjson");
    EndsIffExtension(low, ".toon");
  }

  /** Whether a file is supported does not depend on the case of its name. */
  lemma CaseDoesNotMatter(a: string, b: string)
    requires LowerAll(a) == LowerAll(b)
    ensures Supported(a) <==> Supported(b)
  {
    LowerKeepsExtension(a);
    LowerKeepsExtension(b);
  }

  predicate ShouldSkipDir(name: string) {
    if name == "" || name == "." || name == ".." then false
    else if HasPrefix(name, ".") then true
    else
      name in {"Pods", "__pycache__", "bower_components", "dist", "node_modules", "target", "vendor", "venv"}
  }

  /** Every file of the tree, in the order of an unpruned walk. */
  function AllFiles(at: Path, entries: seq<Entry>): seq<Path>
    decreases entries
  {
    if entries == [] then []
    else
      var e := entries[0];
      (if e.File? then [at + [e.name]] else AllFiles(at + [e.name], e.entries)) + AllFiles(at, entries[1..])
  }

  /** The tree has a file under this path. */
  predicate HasFile(entries: seq<Entry>, path: Path)
    decreases entries
  {
    path != []
    && exists i | 0 <= i < |entries| ::
         entries[i].name == path[0]
         && if |path| == 1 then entries[i].File? else entries[i].Dir? && HasFile(entries[i].entries, path[1..])
  }

  lemma HasFileCons(e: Entry, rest: seq<Entry>, path: Path)
    requires path != []
    ensures HasFile([e] + rest, path)
            <==> (e.name == path[0] && if |path| == 1 then e.File? else e.Dir? && HasFile(e.entries, path[1..]))
                 || HasFile(rest, path)
  {
    var all := [e] + rest;
    assert all[0] == e;
    assert forall i | 0 <= i < |rest| :: all[i + 1] == rest[i];
    if HasFile(rest, path) {
      var i :| 0 <= i < |rest| && rest[i].name == path[0]
               && if |path| == 1 then rest[i].File? else rest[i].Dir? && HasFile(rest[i].entries, path[1..]);
      assert all[i + 1] == rest[i];
    }
  }

  /** The unpruned walk lists exactly the files of the tree. */
  lemma {:induction false} AllFilesIff(at: Path, entries: seq<Entry>, path: Path)
    ensures at + path in AllFiles(at, entries) <==> HasFile(entries, path)
    decreases entries
  {
    FilesAreBelow(at, entries);
    if entries != [] {
      var e, rest := entries[0], entries[1..];
      assert entries == [e] + rest;
      AllFilesIff(at, rest, path);
      if path == [] {
        assert |at + path| == |at|;
      } else {
        HasFileCons(e, rest, path);
        FirstListed(at, e, path);
        if e.Dir? {
          AllFilesIff(at + [e.name], e.entries, path[1..]);
        }
      }
    }
  }

  lemma FirstListed(at: Path, e: Entry, path: Path)
    requires path != []
    ensures e.File? ==> (at + path == at + [e.name] <==> |path| == 1 && path[0] == e.name)
    ensures e.Dir? && path[0] == e.name ==> at + path == (at + [e.name]) + path[1..]
    ensures e.Dir? && path[0] != e.name ==> at + path !in AllFiles(at + [e.name], e.entries)
    ensures e.Dir? && |path| == 1 ==> at + path !in AllFiles(at + [e.name], e.entries)
  {
    var whole := at + path;
    assert whole[|at|] == path[0] && path == [path[0]] + path[1..];
    if e.File? {
      assert at + path == at + [e.name] ==> (at + path)[|at|..] == (at + [e.name])[|at|..];
      assert (at + path)[|at|..] == path && (at + [e.name])[|at|..] == [e.name];
    } else {
      FilesAreBelow(at + [e.name], e.entries);
      if whole in AllFiles(at + [e.name], e.entries) {
        assert whole[..|at| + 1][|at|] == (at + [e.name])[|at|];
      }
    }
  }

  /** The directory and all above it are neither skipped by name nor ignored. The root always is open. */
  ghost predicate Open(g: Glob, m: Matcher, dir: Path)
    requires Usable(m)
  {
    dir == []
    || (!ShouldSkipDir(dir[|dir| - 1]) && !Ignored(g, m, Rel(dir), true) && Open(g, m, dir[..|dir| - 1]))
  }

  /** What is closed stays closed all the way down. */
  lemma {:induction false} ClosedStays(g: Glob, m: Matcher, dir: Path, path: Path)
    requires Usable(m) && !Open(g, m, dir) && dir <= path
    ensures !Open(g, m, path)
    decreases |path|
  {
    if |dir| < |path| {
      ClosedStays(g, m, dir, path[..|path| - 1]);
    } else {
      assert dir == path;
    }
  }

  /** What a file must satisfy, whatever the walk does. */
  ghost predicate Selected(g: Glob, m: Matcher, path: Path)
    requires Usable(m)
  {
    path != [] && Open(g, m, path[..|path| - 1])
    && Rel(path) != FILE_NAME && Supported(path[|path| - 1]) && !Ignored(g, m, Rel(path), false)
  }

  ghost function Choose(g: Glob, m: Matcher, paths: seq<Path>): seq<Path>
    requires Usable(m)
  {
    if paths == [] then [] else (if Selected(g, m, paths[0]) then [paths[0]] else []) + Choose(g, m, paths[1..])
  }

  lemma {:induction false} ChooseConcat(g: Glob, m: Matcher, a: seq<Path>, b: seq<Path>)
    requires Usable(m)
    ensures Choose(g, m, a + b) == Choose(g, m, a) + Choose(g, m, b)
    decreases |a|
  {
    if a == [] {
      assert a + b == b;
    } else {
      ChooseConcat(g, m, a[1..], b);
      assert (a + b)[0] == a[0] && (a + b)[1..] == a[1..] + b;
      var own := if Selected(g, m, a[0]) then [a[0]] else [];
      assert own + (Choose(g, m, a[1..]) + Choose(g, m, b)) == (own + Choose(g, m, a[1..])) + Choose(g, m, b);
    }
  }

  lemma {:induction false} FilesAreBelow(at: Path, entries: seq<Entry>)
    ensures forall p | p in AllFiles(at, entries) :: |at| < |p| && p[..|at|] == at
    decreases entries
  {
    if entries != [] {
      var e := entries[0];
      FilesAreBelow(at, entries[1..]);
      if e.Dir? {
        FilesAreBelow(at + [e.name], e.entries);
        forall p | p in AllFiles(at + [e.name], e.entries)
          ensures |at| < |p| && p[..|at|] == at
        {
          assert p[..|at|] == p[..|at| + 1][..|at|];
        }
      }
    }
  }

  /** Below a closed directory nothing is selected, so pruning it loses nothing. */
  lemma ClosedSelectsNothing(g: Glob, m: Matcher, dir: Path, entries: seq<Entry>)
    requires Usable(m) && !Open(g, m, dir)
    ensures Choose(g, m, AllFiles(dir, entries)) == []
  {
    FilesAreBelow(dir, entries);
    forall p | p in AllFiles(dir, entries)
      ensures !Selected(g, m, p)
    {
      assert p[..|p| - 1][..|dir|] == p[..|dir|];
      ClosedStays(g, m, dir, p[..|p| - 1]);
    }
    NoneChosen(g, m, AllFiles(dir, entries));
  }

  lemma {:induction false} NoneChosen(g: Glob, m: Matcher, paths: seq<Path>)
    requires Usable(m) && forall p | p in paths :: !Selected(g, m, p)
    ensures Choose(g, m, paths) == []
  {
    if paths != [] {
      NoneChosen(g, m, paths[1..]);
    }
  }

  lemma OpenBelow(g: Glob, m: Matcher, at: Path, name: string)
    requires Usable(m) && Open(g, m, at)
    ensures Open(g, m, at + [name]) <==> !ShouldSkipDir(name) && !Ignored(g, m, Rel(at + [name]), true)
  {
    assert (at + [name])[..|at|] == at;
  }

  function FilesOf(at: Path, e: Entry): seq<Path> {
    if e.File? then [at + [e.name]] else AllFiles(at + [e.name], e.entries)
  }

  /** What one entry adds to the files chosen. */
  lemma ChooseFrom(g: Glob, m: Matcher, at: Path, entries: seq<Entry>, i: nat)
    requires Usable(m) && i < |entries|
    ensures Choose(g, m, AllFiles(at, entries[i..]))
            == Choose(g, m, FilesOf(at, entries[i])) + Choose(g, m, AllFiles(at, entries[i + 1..]))
  {
    assert entries[i..][0] == entries[i] && entries[i..][1..] == entries[i + 1..];
    ChooseConcat(g, m, FilesOf(at, entries[i]), AllFiles(at, entries[i + 1..]));
  }

  /** The visitor's answer on one file: whether it is taken. */
  method VisitFile(g: Glob, m: Matcher, path: Path) returns (taken: bool)
    requires path != [] && Usable(m) && Open(g, m, path[..|path| - 1])
    ensures taken == Selected(g, m, path)
  {
    if Rel(path) == FILE_NAME || !Supported(path[|path| - 1]) {
      return false;
    }
    var ignored := Match(g, m, Rel(path), false);
    taken := !ignored;
  }

  /** The visitor's answer on one directory below the root: whether it is entered. */
  method VisitDir(g: Glob, m: Matcher, at: Path, name: string) returns (entered: bool)
    requires Usable(m) && Open(g, m, at)
    ensures entered == Open(g, m, at + [name])
  {
    OpenBelow(g, m, at, name);
    if ShouldSkipDir(name) {
      return false;
    }
    var ignored := Match(g, m, Rel(at + [name]), true);
    entered := !ignored;
  }

  method WalkEntry(g: Glob, m: Matcher, at: Path, e: Entry) returns (paths: seq<Path>)
    requires Usable(m) && Open(g, m, at)
    ensures paths == Choose(g, m, FilesOf(at, e))
    decreases e
  {
    var path := at + [e.name];
    if e.Dir? {
      var entered := VisitDir(g, m, at, e.name);
      if !entered {
        ClosedSelectsNothing(g, m, path, e.entries);
        return [];
      }
      paths := Walk(g, m, path, e.entries);
    } else {
      assert path[..|at|] == at;
      var taken := VisitFile(g, m, path);
      paths := if taken then [path] else [];
    }
  }

  /** The walk below an open directory. */
  method Walk(g: Glob, m: Matcher, at: Path, entries: seq<Entry>) returns (paths: seq<Path>)
    requires Usable(m) && Open(g, m, at)
    ensures paths == Choose(g, m, AllFiles(at, entries))
    decreases entries
  {
    paths := [];
    assert entries[0..] == entries;
    for i := 0 to |entries|
      invariant paths + Choose(g, m, AllFiles(at, entries[i..])) == Choose(g, m, AllFiles(at, entries))
    {
      ChooseFrom(g, m, at, entries, i);
      var found := WalkEntry(g, m, at, entries[i]);
      MoveFound(paths, found, Choose(g, m, AllFiles(at, entries[i + 1..])));
      paths := paths + found;
    }
    assert AllFiles(at, entries[|entries|..]) == [];
  }

  lemma MoveFound(a: seq<Path>, b: seq<Path>, c: seq<Path>)
    ensures a + (b + c) == (a + b) + c
  {}

  /** The walk from the root, which is a directory that is never skipped and never ignored. */
  method CollectFiles(g: Glob, m: Matcher, entries: seq<Entry>) returns (paths: seq<Path>)
    requires Usable(m)
    ensures paths == Choose(g, m, AllFiles([], entries))
  {
    var ignored := Match(g, m, ".", true);
    if ignored {
      return [];
    }
    paths := Walk(g, m, [], entries);
  }

  /** A file is chosen if and only if the tree has it and it meets the conditions on its own path. */
  lemma {:induction false} ChosenIffSelected(g: Glob, m: Matcher, paths: seq<Path>, p: Path)
    requires Usable(m)
    ensures p in Choose(g, m, paths) <==> p in paths && Selected(g, m, p)
    decreases |paths|
  {
    if paths != [] {
      ChosenIffSelected(g, m, paths[1..], p);
    }
  }

  /** A directory that is hidden or holds what tools have put there. */
  predicate HiddenOrMade(name: string) {
    (|name| > 0 && name[0] == '.' && name != "." && name != "..")
    || name == "Pods" || name == "__pycache__" || name == "bower_components" || name == "dist"
    || name == "node_modules" || name == "target" || name == "vendor" || name == "venv"
  }

  lemma SkippedIff(name: string)
    ensures ShouldSkipDir(name) <==> HiddenOrMade(name)
  {
    if name != "" {
      assert name[..1] == [name[0]];
    }
  }

  /** The directory that a path has at depth `k` is entered. */
  ghost predicate Entered(g: Glob, m: Matcher, path: Path, k: nat)
    requires Usable(m) && 1 <= k <= |path|
  {
    !HiddenOrMade(path[k - 1]) && !Ignored(g, m, Rel(path[..k]), true)
  }

  lemma {:induction false} OpenIff(g: Glob, m: Matcher, dir: Path)
    requires Usable(m)
    ensures Open(g, m, dir) <==> forall k | 1 <= k <= |dir| :: Entered(g, m, dir, k)
    decreases |dir|
  {
    if dir != [] {
      var up := dir[..|dir| - 1];
      OpenIff(g, m, up);
      SkippedIff(dir[|dir| - 1]);
      assert dir[..|dir|] == dir;
      forall k | 1 <= k < |dir|
        ensures Entered(g, m, dir, k) <==> Entered(g, m, up, k)
      {
        assert up[..k] == dir[..k];
      }
      assert Entered(g, m, dir, |dir|) <==> !ShouldSkipDir(dir[|dir| - 1]) && !Ignored(g, m, Rel(dir), true);
    }
  }

  lemma SelectedIff(g: Glob, m: Matcher, path: Path)
    requires Usable(m) && path != []
    ensures Selected(g, m, path)
            <==> Rel(path) != FILE_NAME && Supported(path[|path| - 1]) && !Ignored(g, m, Rel(path), false)
                 && forall k | 1 <= k < |path| :: Entered(g, m, path, k)
  {
    var dir := path[..|path| - 1];
    OpenIff(g, m, dir);
    forall k | 1 <= k < |path|
      ensures Entered(g, m, path, k) <==> Entered(g, m, dir, k)
    {
      assert dir[..k] == path[..k];
    }
  }

  /**
   What the pruned walk of a tree yields: the tree's files whose every directory is entered, which
   are of a supported kind and which are not ignored themselves.
  */
  lemma WalkYields(g: Glob, m: Matcher, entries: seq<Entry>, path: Path)
    requires Usable(m)
    ensures path in Choose(g, m, AllFiles([], entries))
            <==> HasFile(entries, path) && Rel(path) != FILE_NAME && Supported(path[|path| - 1])
                 && !Ignored(g, m, Rel(path), false)
                 && forall k | 1 <= k < |path| :: Entered(g, m, path, k)
  {
    var files := AllFiles([], entries);
    ChosenIffSelected(g, m, files, path);
    assert path in files <==> HasFile(entries, path) by {
      AllFilesIff([], entries, path);
      assert [] + path == path;
    }
    if path != [] {
      SelectedIff(g, m, path);
    }
  }
}
