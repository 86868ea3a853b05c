/** The few operations of Go's strings package that the other modules share. */
module Strings {
  /** White space in the Unicode sense, which trimming uses and tokenising does not. */
  predicate IsUnicodeSpace(c: char) {
    '\t' <= c <= '\r' || c == ' ' || c == '\U{85}' || c == '\U{A0}' || c == '\U{1680}'
    || '\U{2000}' <= c <= '\U{200A}' || c == '\U{2028}' || c == '\U{2029}' || c == '\U{202F}'
    || c == '\U{205F}' || c == '\U{3000}'
  }

  function TrimLeft(s: string): (t: string)
    ensures |t| <= |s| && (t != "" ==> !IsUnicodeSpace(t[0]))
  {
    if s != "" && IsUnicodeSpace(s[0]) then TrimLeft(s[1..]) else s
  }

  function TrimSpace(s: string): (t: string)
    ensures |t| <= |s|
    decreases |s|
  {
    var l := TrimLeft(s);
    if l != "" && IsUnicodeSpace(l[|l| - 1]) then TrimSpace(l[..|l| - 1]) else l
  }

  predicate AllSpace(s: string) {
    forall c | c in s :: IsUnicodeSpace(c)
  }

  lemma {:induction false} TrimLeftIs(s: string) returns (before: string)
    ensures s == before + TrimLeft(s) && AllSpace(before)
  {
    before := "";
    if s != "" && IsUnicodeSpace(s[0]) {
      var rest := TrimLeftIs(s[1..]);
      before := [s[0]] + rest;
      assert s == [s[0]] + s[1..];
    }
  }

  lemma {:induction false} TrimEndIs(l: string) returns (behind: string)
    requires l == "" || !IsUnicodeSpace(l[0])
    ensures l == TrimSpace(l) + behind && AllSpace(behind)
    ensures var t := TrimSpace(l); t != "" ==> !IsUnicodeSpace(t[0]) && !IsUnicodeSpace(t[|t| - 1])
    decreases |l|
  {
    behind := "";
    if l != "" && IsUnicodeSpace(l[|l| - 1]) {
      var init, last := l[..|l| - 1], l[|l| - 1];
      var rest := TrimEndIs(init);
      behind := rest + [last];
      assert l == init + [last];
      assert TrimSpace(init) + rest + [last] == TrimSpace(init) + (rest + [last]);
    }
  }

  /** Trimming takes white space off both ends, all of it, and nothing else. */
  lemma TrimSpaceIs(s: string) returns (before: string, behind: string)
    ensures s == before + TrimSpace(s) + behind && AllSpace(before) && AllSpace(behind)
    ensures var t := TrimSpace(s); t != "" ==> !IsUnicodeSpace(t[0]) && !IsUnicodeSpace(t[|t| - 1])
  {
    before := TrimLeftIs(s);
    behind := TrimEndIs(TrimLeft(s));
    assert TrimSpace(s) == TrimSpace(TrimLeft(s));
  }

  predicate HasPrefix(s: string, p: string) {
    p <= s
  }

  predicate HasSuffix(s: string, p: string) {
    |p| <= |s| && s[|s| - |p|..] == p
  }

  function SplitOn(s: string, sep: char): (parts: seq<string>)
    ensures parts != []
  {
    if s == "" then [""]
    else
      var rest := SplitOn(s[1..], sep);
      if s[0] == sep then [""] + rest else [[s[0]] + rest[0]] + rest[1..]
  }

  function JoinOn(parts: seq<string>, sep: char): string {
    if parts == [] then "" else if |parts| == 1 then parts[0] else parts[0] + [sep] + JoinOn(parts[1..], sep)
  }

  lemma SplitCons(c: char, s: string, sep: char)
    ensures var rest := SplitOn(s, sep);
            SplitOn([c] + s, sep) == if c == sep then [""] + rest else [[c] + rest[0]] + rest[1..]
  {
    assert ([c] + s)[1..] == s;
  }

  lemma OntoFirst(c: char, ra: seq<string>, rb: seq<string>)
    requires ra != []
    ensures [[c] + (ra + rb)[0]] + (ra + rb)[1..] == [[c] + ra[0]] + ra[1..] + rb
  {
    assert (ra + rb)[1..] == ra[1..] + rb;
  }

  lemma {:induction false} SplitConcat(a: string, b: string, sep: char)
    ensures SplitOn(a + [sep] + b, sep) == SplitOn(a, sep) + SplitOn(b, sep)
  {
    if a == "" {
      assert a + [sep] + b == [sep] + b;
      SplitCons(sep, b, sep);
    } else {
      var c, rest := a[0], a[1..];
      assert a == [c] + rest && a + [sep] + b == [c] + (rest + [sep] + b);
      SplitConcat(rest, b, sep);
      SplitCons(c, rest, sep);
      SplitCons(c, rest + [sep] + b, sep);
      OntoFirst(c, SplitOn(rest, sep), SplitOn(b, sep));
      assert [""] + (SplitOn(rest, sep) + SplitOn(b, sep)) == ([""] + SplitOn(rest, sep)) + SplitOn(b, sep);
    }
  }

  /** Joining and splitting undo each other, as long as no part holds the separator. */
  lemma {:induction false} SplitOfJoin(parts: seq<string>, sep: char)
    requires parts != [] && forall p | p in parts :: sep !in p
    ensures SplitOn(JoinOn(parts, sep), sep) == parts
    decreases |parts|
  {
    var p := parts[0];
    if |parts| == 1 {
      SplitWhole(p, sep);
    } else {
      SplitOfJoin(parts[1..], sep);
      SplitConcat(p, JoinOn(parts[1..], sep), sep);
      SplitWhole(p, sep);
      assert parts == [p] + parts[1..];
    }
  }

  lemma {:induction false} JoinOfSplit(s: string, sep: char)
    ensures JoinOn(SplitOn(s, sep), sep) == s
  {
    if s != "" {
      JoinOfSplit(s[1..], sep);
      var rest := SplitOn(s[1..], sep);
      assert s == [s[0]] + s[1..];
      if s[0] == sep {
        assert ([""] + rest)[1..] == rest;
        assert "" + [sep] + JoinOn(rest, sep) == s;
      } else {
        assert ([[s[0]] + rest[0]] + rest[1..])[1..] == rest[1..];
      }
    }
  }

  /** Joining fewer of the parts gives a prefix that ends at a separator. */
  lemma {:induction false} JoinOfFewer(few: seq<string>, all: seq<string>, sep: char)
    requires few != [] && few <= all && |few| < |all|
    ensures JoinOn(few, sep) + [sep] <= JoinOn(all, sep)
    decreases |few|
  {
    if |few| > 1 {
      JoinOfFewer(few[1..], all[1..], sep);
      var head, tail := few[0] + [sep], JoinOn(all[1..], sep);
      assert JoinOn(all, sep) == head + tail;
      assert JoinOn(few, sep) + [sep] == head + (JoinOn(few[1..], sep) + [sep]);
    }
  }

  lemma {:induction false} SplitWhole(p: string, sep: char)
    requires sep !in p
    ensures SplitOn(p, sep) == [p]
  {
    if p != "" {
      SplitWhole(p[1..], sep);
      assert p[0] in p && p == [p[0]] + p[1..];
    }
  }

  lemma {:induction false} PartsLackSep(s: string, sep: char)
    ensures forall p | p in SplitOn(s, sep) :: sep !in p
  {
    if s != "" {
      PartsLackSep(s[1..], sep);
      var rest := SplitOn(s[1..], sep);
      assert rest[0] in rest && forall p | p in rest[1..] :: p in rest;
    }
  }
}
