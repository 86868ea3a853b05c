/**
 Queries with structure: columns, groups and NEAR, nested at will. Rewriting the text of such a
 query gives the text of the same query with the words quoted that need it.
*/
module Groups {
  import opened Search
  import opened Strings
  import opened Wrappers

  datatype Term =
    | Word(text: string)
    | Operator(name: string)
    | Phrase(text: string)
    | Starred(stem: string, quoted: bool)
    | Column(name: string, term: Term)
    | Group(terms: seq<Term>)
    | Near(terms: seq<Term>, distance: Option<string>)

  function Written(t: Term): string
    decreases t
  {
    match t
    case Word(text) => text
    case Operator(name) => name
    case Phrase(text) => "\"" + text + "\""
    case Starred(stem, quoted) => (if quoted then "\"" + stem + "\"" else stem) + "*"
    case Column(name, term) => name + ":" + Written(term)
    case Group(terms) => "(" + Line(terms) + ")"
    case Near(terms, distance) => "NEAR(" + Line(terms) + Distance(distance) + ")"
  }

  function Distance(distance: Option<string>): string {
    if distance.Some? then ", " + distance.value else ""
  }

  function WrittenAll(terms: seq<Term>): (texts: seq<string>)
    ensures |texts| == |terms|
    decreases terms, 0
  {
    if terms == [] then [] else [Written(terms[0])] + WrittenAll(terms[1..])
  }

  function Line(terms: seq<Term>): string
    decreases terms, 1
  {
    JoinOn(WrittenAll(terms), ' ')
  }

  lemma LineCons(terms: seq<Term>)
    requires terms != []
    ensures Line(terms) == Written(terms[0]) + if |terms| == 1 then "" else " " + Line(terms[1..])
  {
    var first, rest := Written(terms[0]), WrittenAll(terms[1..]);
    assert WrittenAll(terms) == [first] + rest;
    JoinFirst(first, rest);
  }

  lemma JoinFirst(first: string, rest: seq<string>)
    ensures JoinOn([first] + rest, ' ') == first + if rest == [] then "" else " " + JoinOn(rest, ' ')
  {
    assert ([first] + rest)[1..] == rest;
    if rest != [] {
      JoinGroups(first, JoinOn(rest, ' '));
    }
  }

  lemma JoinGroups(first: string, rest: string)
    ensures first + [' '] + rest == first + (" " + rest)
  {}

  lemma {:induction false} WrittenAt(terms: seq<Term>, i: nat)
    requires i < |terms|
    ensures WrittenAll(terms)[i] == Written(terms[i])
  {
    if i > 0 {
      WrittenAt(terms[1..], i - 1);
    }
  }

  // ----- which terms can be written down -----

  /** No space, no quote and no parenthesis. */
  predicate Quiet(s: string) {
    forall k | 0 <= k < |s| :: !IsUnicodeSpace(s[k]) && s[k] != '"' && s[k] != '(' && s[k] != ')'
  }

  predicate PhraseText(s: string) {
    forall k | 0 <= k < |s| :: s[k] != '"' && s[k] != '(' && s[k] != ')'
  }

  /** The phrase of a column holds no space: the splitter does not see the quotes in the middle of a token. */
  predicate Valid(t: Term) {
    match t
    case Word(text) =>
      text != "" && Quiet(text) && !IsOperator(text) && !HasColumn(text) && !(|text| > 1 && HasSuffix(text, "*"))
    case Operator(name) => IsOperator(name)
    case Phrase(text) => PhraseText(text)
    case Starred(stem, quoted) => !quoted && stem != "" && Quiet(stem) && !HasColumn(stem + "*")
    case Column(name, term) => IsColumn(name) && Valid(term) && (term.Phrase? ==> NoSpaces(term.text))
    case Group(terms) => forall x | x in terms :: Valid(x)
    case Near(terms, distance) =>
      (distance.Some? ==> distance.value != "" && Quiet(distance.value))
      && forall x | x in terms :: Valid(x) && NoComma(x)
  }

  /** No comma that would end the terms of a NEAR. */
  predicate NoComma(t: Term) {
    match t
    case Word(text) => ',' !in text
    case Starred(stem, _) => ',' !in stem
    case Column(_, term) => NoComma(term)
    case _ => true
  }

  /** The same query with every word quoted that the bareword parser would reject. */
  function Safe(t: Term): Term
    decreases t
  {
    match t
    case Word(text) => if NeedsQuoting(text) then Phrase(text) else t
    case Starred(stem, _) => Starred(stem, NeedsQuoting(stem))
    case Column(name, term) => Column(name, Safe(term))
    case Group(terms) => Group(SafeAll(terms))
    case Near(terms, distance) => Near(SafeAll(terms), distance)
    case _ => t
  }

  function SafeAll(terms: seq<Term>): (safe: seq<Term>)
    ensures |safe| == |terms|
    decreases terms, 0
  {
    if terms == [] then [] else [Safe(terms[0])] + SafeAll(terms[1..])
  }

  lemma {:induction false} SafeAt(terms: seq<Term>, i: nat)
    requires i < |terms|
    ensures SafeAll(terms)[i] == Safe(terms[i])
  {
    if i > 0 {
      SafeAt(terms[1..], i - 1);
    }
  }

  // ----- how the splitter reads over a stretch -----

  function Step(c: char, depth: nat): nat {
    if c == '(' then depth + 1 else if c == ')' && depth > 0 then depth - 1 else depth
  }

  function Level(s: string, depth: nat): nat {
    if s == "" then depth else Level(s[1..], Step(s[0], depth))
  }

  /** No space outside parentheses. */
  predicate Solid(s: string, depth: nat) {
    s == "" || (!(depth == 0 && IsSpace(s[0])) && Solid(s[1..], Step(s[0], depth)))
  }

  lemma {:induction false} SolidConcat(a: string, b: string, depth: nat)
    ensures Level(a + b, depth) == Level(b, Level(a, depth))
    ensures Solid(a + b, depth) <==> Solid(a, depth) && Solid(b, Level(a, depth))
    decreases |a|
  {
    if a == "" {
      assert a + b == b;
    } else {
      assert (a + b)[0] == a[0] && (a + b)[1..] == a[1..] + b;
      SolidConcat(a[1..], b, Step(a[0], depth));
    }
  }

  /** A stretch without parentheses does not change the level. */
  lemma {:induction false} FlatIsSolid(s: string, depth: nat)
    requires NoParens(s) && (depth > 0 || NoSpaces(s))
    ensures Solid(s, depth) && Level(s, depth) == depth
  {
    if s != "" {
      assert NoParens(s[1..]) && s[0] != '(';
      FlatIsSolid(s[1..], depth);
    }
  }

  lemma {:induction false} BareEndSkips(q: string, i: nat, s: string, depth: nat)
    requires i + |s| <= |q| && q[i..i + |s|] == s && Solid(s, depth)
    ensures BareEnd(q, i, depth) == BareEnd(q, i + |s|, Level(s, depth))
    decreases |s|
  {
    if s != "" {
      assert q[i] == s[0] && q[i + 1..i + |s|] == s[1..];
      BareEndSkips(q, i + 1, s[1..], Step(s[0], depth));
    }
  }

  lemma QuietIsFlat(s: string)
    requires Quiet(s)
    ensures NoParens(s) && NoSpaces(s)
  {}

  lemma LeafIsFlat(t: Term)
    requires Valid(t) && (t.Word? || t.Operator? || t.Phrase? || t.Starred?)
    ensures NoParens(Written(t)) && ((t.Phrase? ==> NoSpaces(t.text)) ==> NoSpaces(Written(t)))
  {
    if t.Starred? {
      QuietIsFlat(t.stem);
    } else if t.Word? {
      QuietIsFlat(t.text);
    }
  }

  /** A written term closes what it opens, and has a space outside parentheses only if it is a phrase. */
  lemma {:induction false} WrittenIsSolid(t: Term, depth: nat)
    requires Valid(t) && (depth > 0 || !t.Phrase? || NoSpaces(t.text))
    ensures Solid(Written(t), depth) && Level(Written(t), depth) == depth
    decreases t
  {
    match t {
      case Column(name, term) =>
        WrittenIsSolid(term, depth);
        ColumnIsSolid(name, Written(term), depth);
      case Group(terms) =>
        LineIsSolid(terms, depth + 1);
        Enclosed("", Line(terms), depth);
        assert "" + "(" + Line(terms) + ")" == Written(t);
      case Near(terms, distance) =>
        LineIsSolid(terms, depth + 1);
        NearIsSolid(Line(terms), distance, depth);
        assert "NEAR" + "(" + (Line(terms) + Distance(distance)) + ")" == Written(t);
      case _ =>
        LeafIsFlat(t);
        FlatIsSolid(Written(t), depth);
    }
  }

  lemma ColumnIsSolid(name: string, text: string, depth: nat)
    requires IsColumn(name) && Solid(text, depth) && Level(text, depth) == depth
    ensures Solid(name + ":" + text, depth) && Level(name + ":" + text, depth) == depth
  {
    ColumnLetters(name);
    FlatIsSolid(name + ":", depth);
    SolidConcat(name + ":", text, depth);
  }

  lemma NearIsSolid(line: string, distance: Option<string>, depth: nat)
    requires Solid(line, depth + 1) && Level(line, depth + 1) == depth + 1
    requires distance.Some? ==> Quiet(distance.value)
    ensures var text := "NEAR" + "(" + (line + Distance(distance)) + ")";
            Solid(text, depth) && Level(text, depth) == depth
  {
    FlatIsSolid(Distance(distance), depth + 1);
    SolidConcat(line, Distance(distance), depth + 1);
    Enclosed("NEAR", line + Distance(distance), depth);
  }

  lemma Enclosed(name: string, inner: string, depth: nat)
    requires NoParens(name) && NoSpaces(name)
    requires Solid(inner, depth + 1) && Level(inner, depth + 1) == depth + 1
    ensures Solid(name + "(" + inner + ")", depth) && Level(name + "(" + inner + ")", depth) == depth
  {
    FlatIsSolid(name, depth);
    SolidConcat(name, "(", depth);
    SolidConcat(name + "(", inner, depth);
    SolidConcat(name + "(" + inner, ")", depth);
    assert "("[1..] == "" && ")"[1..] == "";
    assert Level("(", depth) == depth + 1 && Level(")", depth + 1) == depth;
  }

  lemma {:induction false} LineIsSolid(terms: seq<Term>, depth: nat)
    requires depth > 0 && forall x | x in terms :: Valid(x)
    ensures Solid(Line(terms), depth) && Level(Line(terms), depth) == depth
    decreases terms, 0
  {
    if terms != [] {
      WrittenIsSolid(terms[0], depth);
      LineCons(terms);
      if |terms| > 1 {
        LineIsSolid(terms[1..], depth);
        FlatIsSolid(" ", depth);
        SolidConcat(" ", Line(terms[1..]), depth);
        SolidConcat(Written(terms[0]), " " + Line(terms[1..]), depth);
      } else {
        assert Written(terms[0]) + "" == Written(terms[0]);
      }
    }
  }

  // ----- the splitter finds the terms again -----

  lemma {:induction false} WrittenEdges(t: Term)
    requires Valid(t)
    ensures var w := Written(t); w != "" && !IsUnicodeSpace(w[0]) && !IsUnicodeSpace(w[|w| - 1])
    ensures Written(t)[0] == '"' <==> t.Phrase?
    decreases t
  {
    if t.Column? {
      ColumnLetters(t.name);
      WrittenEdges(t.term);
    }
  }

  /** A term at the start of a stretch ends where it should, if the query or a space comes next. */
  lemma TermIsToken(q: string, i: nat, t: Term)
    requires Valid(t) && i + |Written(t)| <= |q| && q[i..i + |Written(t)|] == Written(t)
    requires i + |Written(t)| == |q| || q[i + |Written(t)|] == ' '
    ensures i < |q| && !IsSpace(q[i]) && TokenEnd(q, i) == i + |Written(t)|
  {
    var w := Written(t);
    WrittenEdges(t);
    assert q[i] == w[0];
    if t.Phrase? {
      PhraseIsToken(q, i, t.text);
    } else {
      WrittenIsSolid(t, 0);
      SolidIsToken(q, i, w);
    }
  }

  lemma SolidIsToken(q: string, i: nat, w: string)
    requires w != "" && w[0] != '"' && Solid(w, 0) && Level(w, 0) == 0
    requires i + |w| <= |q| && q[i..i + |w|] == w && (i + |w| == |q| || q[i + |w|] == ' ')
    ensures q[i] == w[0] && !IsSpace(q[i]) && TokenEnd(q, i) == i + |w|
  {
    assert q[i] == w[0];
    BareEndSkips(q, i, w, 0);
  }

  lemma PhraseIsToken(q: string, i: nat, text: string)
    requires PhraseText(text) && i + |text| + 2 <= |q| && q[i..i + |text| + 2] == "\"" + text + "\""
    ensures q[i] == '"' && QuoteEnd(q, i + 1) == i + |text| + 2
  {
    var w, k := "\"" + text + "\"", i + |text| + 1;
    forall j | i + 1 <= j < k
      ensures q[j] != '"'
    {
      assert q[j] == w[j - i] == text[j - i - 1];
    }
    assert q[i] == w[0] && q[k] == w[|text| + 1];
    QuoteEndIs(q, i + 1, k);
  }

  lemma AfterSpace(q: string, i: nat)
    requires i < |q| && q[i] == ' '
    ensures Tokens(q, i) == Tokens(q, i + 1)
  {
    assert SkipSpaces(q, i) == SkipSpaces(q, i + 1);
  }

  lemma {:induction false} LineIsSplit(q: string, i: nat, terms: seq<Term>)
    requires i <= |q| && q[i..] == Line(terms) && forall x | x in terms :: Valid(x)
    ensures Tokens(q, i) == WrittenAll(terms)
    decreases terms
  {
    if terms != [] {
      var w, end := Written(terms[0]), i + |Written(terms[0])|;
      LineCons(terms);
      SliceOfLine(q, i, w, if |terms| == 1 then "" else " " + Line(terms[1..]));
      TermIsToken(q, i, terms[0]);
      assert SkipSpaces(q, i) == i;
      if |terms| > 1 {
        AfterSpace(q, end);
        assert q[end + 1..] == q[end..][1..];
        LineIsSplit(q, end + 1, terms[1..]);
      } else {
        assert Tokens(q, end) == [] && terms[1..] == [];
      }
    } else {
      assert i == |q|;
    }
  }

  lemma SliceOfLine(q: string, i: nat, w: string, rest: string)
    requires i <= |q| && q[i..] == w + rest
    ensures i + |w| <= |q| && q[i..i + |w|] == w && q[i + |w|..] == rest
    ensures rest != "" ==> i + |w| < |q| && q[i + |w|] == rest[0]
  {
    assert |q[i..]| == |w| + |rest|;
    assert q[i..i + |w|] == q[i..][..|w|] && q[i + |w|..] == q[i..][|w|..];
    assert rest != "" ==> q[i + |w|] == q[i..][|w|];
  }

  lemma {:induction false} LineEdges(terms: seq<Term>)
    requires terms != [] && forall x | x in terms :: Valid(x)
    ensures var s := Line(terms); s != "" && !IsUnicodeSpace(s[0]) && !IsUnicodeSpace(s[|s| - 1])
    decreases terms
  {
    WrittenEdges(terms[0]);
    LineCons(terms);
    if |terms| > 1 {
      LineEdges(terms[1..]);
    }
  }

  lemma LineIsTrimmed(terms: seq<Term>)
    requires forall x | x in terms :: Valid(x)
    ensures TrimSpace(Line(terms)) == Line(terms)
  {
    if terms != [] {
      LineEdges(terms);
      TrimIdle(Line(terms));
    }
  }

  // ----- the comma of a NEAR -----

  function CommaLevel(s: string, depth: nat, inQuote: bool): (nat, bool) {
    if s == "" then (depth, inQuote)
    else if s[0] == '"' then CommaLevel(s[1..], depth, !inQuote)
    else CommaLevel(s[1..], if inQuote then depth else Step(s[0], depth), inQuote)
  }

  /** No comma outside quotes and parentheses. */
  predicate Clear(s: string, depth: nat, inQuote: bool) {
    s == ""
    || (if s[0] == '"' then Clear(s[1..], depth, !inQuote)
        else !(s[0] == ',' && !inQuote && depth == 0)
             && Clear(s[1..], if inQuote then depth else Step(s[0], depth), inQuote))
  }

  lemma {:induction false} ClearConcat(a: string, b: string, depth: nat, inQuote: bool)
    ensures var (d, q) := CommaLevel(a, depth, inQuote);
            CommaLevel(a + b, depth, inQuote) == CommaLevel(b, d, q)
            && (Clear(a + b, depth, inQuote) <==> Clear(a, depth, inQuote) && Clear(b, d, q))
    decreases |a|
  {
    if a == "" {
      assert a + b == b;
    } else {
      assert (a + b)[0] == a[0] && (a + b)[1..] == a[1..] + b;
      if a[0] == '"' {
        ClearConcat(a[1..], b, depth, !inQuote);
      } else {
        ClearConcat(a[1..], b, if inQuote then depth else Step(a[0], depth), inQuote);
      }
    }
  }

  lemma {:induction false} CommaAtSkips(s: string, i: nat, part: string, depth: nat, inQuote: bool)
    requires i + |part| <= |s| && s[i..i + |part|] == part && Clear(part, depth, inQuote)
    ensures var (d, q) := CommaLevel(part, depth, inQuote);
            CommaAt(s, i, depth, inQuote) == CommaAt(s, i + |part|, d, q)
    decreases |part|
  {
    if part != "" {
      assert s[i] == part[0] && s[i + 1..i + |part|] == part[1..];
      if part[0] == '"' {
        CommaAtSkips(s, i + 1, part[1..], depth, !inQuote);
      } else {
        CommaAtSkips(s, i + 1, part[1..], if inQuote then depth else Step(part[0], depth), inQuote);
      }
    }
  }

  /** A written term ends outside quotes, on the level it began on, and has no comma on the way. */
  ghost predicate Passes(s: string, depth: nat) {
    Clear(s, depth, false) && CommaLevel(s, depth, false) == (depth, false)
  }

  lemma PassesConcat(a: string, b: string, depth: nat)
    requires Passes(a, depth) && Passes(b, depth)
    ensures Passes(a + b, depth)
  {
    ClearConcat(a, b, depth, false);
  }

  lemma {:induction false} QuietPasses(s: string, depth: nat, inQuote: bool)
    requires PhraseText(s) && (depth > 0 || inQuote || ',' !in s)
    ensures Clear(s, depth, inQuote) && CommaLevel(s, depth, inQuote) == (depth, inQuote)
  {
    if s != "" {
      assert PhraseText(s[1..]) && s[0] != '"' && s[0] != '(' && s[0] != ')';
      assert s == [s[0]] + s[1..];
      QuietPasses(s[1..], depth, inQuote);
    }
  }

  lemma PhrasePasses(text: string, depth: nat)
    requires PhraseText(text)
    ensures Passes("\"" + text + "\"", depth)
  {
    QuietPasses(text, depth, true);
    assert "\""[1..] == "";
    assert CommaLevel("\"", depth, false) == (depth, true) && CommaLevel("\"", depth, true) == (depth, false);
    assert Clear("\"", depth, false) && Clear("\"", depth, true);
    ClearConcat("\"", text, depth, false);
    ClearConcat("\"" + text, "\"", depth, false);
  }

  lemma EnclosedPasses(name: string, inner: string, depth: nat)
    requires PhraseText(name) && ',' !in name && Passes(inner, depth + 1)
    ensures Passes(name + "(" + inner + ")", depth)
  {
    QuietPasses(name, depth, false);
    assert "("[1..] == "" && ")"[1..] == "";
    assert CommaLevel("(", depth, false) == (depth + 1, false) && CommaLevel(")", depth + 1, false) == (depth, false);
    assert Clear("(", depth, false) && Clear(")", depth + 1, false);
    ClearConcat(name, "(", depth, false);
    ClearConcat(name + "(", inner, depth, false);
    ClearConcat(name + "(" + inner, ")", depth, false);
  }

  lemma LeafPasses(t: Term, depth: nat)
    requires Valid(t) && (depth > 0 || NoComma(t)) && (t.Word? || t.Operator? || t.Phrase? || t.Starred?)
    ensures Passes(Written(t), depth)
  {
    if t.Phrase? {
      PhrasePasses(t.text, depth);
    } else {
      if t.Operator? {
        OperatorShape(t.name);
        assert PhraseText(t.name) && ',' !in t.name;
      }
      QuietPasses(Written(t), depth, false);
    }
  }

  lemma {:induction false} WrittenPasses(t: Term, depth: nat)
    requires Valid(t) && (depth > 0 || NoComma(t))
    ensures Passes(Written(t), depth)
    decreases t
  {
    match t {
      case Column(name, term) =>
        ColumnLetters(name);
        QuietPasses(name + ":", depth, false);
        WrittenPasses(term, depth);
        PassesConcat(name + ":", Written(term), depth);
      case Group(terms) =>
        LinePasses(terms, depth + 1);
        EnclosedPasses("", Line(terms), depth);
        assert "" + "(" + Line(terms) + ")" == Written(t);
      case Near(terms, distance) =>
        LinePasses(terms, depth + 1);
        QuietPasses(Distance(distance), depth + 1, false);
        PassesConcat(Line(terms), Distance(distance), depth + 1);
        EnclosedPasses("NEAR", Line(terms) + Distance(distance), depth);
        assert "NEAR" + "(" + (Line(terms) + Distance(distance)) + ")" == Written(t);
      case _ =>
        LeafPasses(t, depth);
    }
  }

  lemma {:induction false} LinePasses(terms: seq<Term>, depth: nat)
    requires forall x | x in terms :: Valid(x) && (depth > 0 || NoComma(x))
    ensures Passes(Line(terms), depth)
    decreases terms, 0
  {
    if terms != [] {
      WrittenPasses(terms[0], depth);
      LineCons(terms);
      if |terms| > 1 {
        LinePasses(terms[1..], depth);
        QuietPasses(" ", depth, false);
        PassesConcat(" ", Line(terms[1..]), depth);
        PassesConcat(Written(terms[0]), " " + Line(terms[1..]), depth);
      } else {
        assert Written(terms[0]) + "" == Written(terms[0]);
      }
    }
  }

  // ----- rewriting -----

  lemma QuietIsNotDoubled(s: string)
    requires Quiet(s) || PhraseText(s)
    ensures Doubled(s) == s
  {
    DoubledHead(s);
  }

  lemma NotPrefix(s: string, p: string, k: nat)
    requires k < |p| && (k < |s| ==> s[k] != p[k])
    ensures !HasPrefix(s, p)
  {
    if |p| <= |s| {
      assert s[..|p|][k] == s[k];
    }
  }

  lemma NoPrefix(s: string)
    requires NoParens(s)
    ensures !HasPrefix(s, "NEAR(") && !HasPrefix(s, "(")
  {
    NotPrefix(s, "NEAR(", 4);
    NotPrefix(s, "(", 0);
  }

  lemma WordIsRewritten(text: string)
    requires Valid(Word(text))
    ensures RewriteToken(text) == Written(Safe(Word(text)))
  {
    QuietIsFlat(text);
    NoPrefix(text);
    QuietIsNotDoubled(text);
  }

  lemma StarIsRewritten(stem: string)
    requires Valid(Starred(stem, false))
    ensures RewriteToken(stem + "*") == Written(Safe(Starred(stem, false)))
  {
    var s := stem + "*";
    QuietIsFlat(stem);
    assert NoParens(s);
    NoPrefix(s);
    QuietIsNotDoubled(stem);
    assert s[0] == stem[0] && s[..|s| - 1] == stem;
  }

  lemma ColumnUnfolds(s: string)
    requires HasColumn(s) && !HasPrefix(s, "\"") && !HasPrefix(s, "NEAR(") && !HasPrefix(s, "(")
    ensures var colon := IndexOf(s, ':'); RewriteToken(s) == s[..colon] + ":" + RewriteToken(s[colon + 1..])
  {}

  lemma ColumnIsRewritten(name: string, term: Term)
    requires IsColumn(name) && Valid(term)
    ensures RewriteToken(name + ":" + Written(term)) == name + ":" + RewriteToken(Written(term))
  {
    var w := Written(term);
    WrittenEdges(term);
    ColumnIsSplit(name, w);
    ColumnUnfolds(name + ":" + w);
  }

  lemma ColumnIsSplit(name: string, w: string)
    requires IsColumn(name) && w != ""
    ensures var s := name + ":" + w;
            HasColumn(s) && IndexOf(s, ':') == |name| && s[..|name|] == name && s[|name| + 1..] == w
            && !HasPrefix(s, "\"") && !HasPrefix(s, "NEAR(") && !HasPrefix(s, "(")
  {
    var s := name + ":" + w;
    ColumnLetters(name);
    assert forall k | 0 <= k < |name| :: s[k] == name[k];
    assert s[0] == name[0] && name[0] != 'N' && s[|name|] == ':';
    NotPrefix(s, "NEAR(", 0);
    NotPrefix(s, "\"", 0);
    NotPrefix(s, "(", 0);
    FirstIs(s, ':', |name|);
  }

  lemma GroupIsRewritten(terms: seq<Term>)
    requires forall x | x in terms :: Valid(x)
    ensures RewriteToken("(" + Line(terms) + ")")
         == if terms == [] then "()" else "(" + RewriteTerms(Line(terms)) + ")"
  {
    var s := "(" + Line(terms) + ")";
    assert s[0] == '(' && s[1..|s| - 1] == Line(terms);
    NotPrefix(s, "NEAR(", 0);
    NotPrefix(s, "\"", 0);
    LineIsTrimmed(terms);
    if terms != [] {
      LineEdges(terms);
    }
    assert RewriteToken(s) == RewriteParenthesized(s);
  }

  lemma NearShape(inner: string)
    ensures var s := "NEAR(" + inner + ")";
            HasPrefix(s, "NEAR(") && HasSuffix(s, ")") && !HasPrefix(s, "\"") && s[5..|s| - 1] == inner
  {
    var s := "NEAR(" + inner + ")";
    assert s[0] == 'N' && s[..5] == "NEAR(";
    NotPrefix(s, "\"", 0);
  }

  lemma NearToken(s: string)
    requires HasPrefix(s, "NEAR(") && HasSuffix(s, ")") && !HasPrefix(s, "\"")
    ensures RewriteToken(s) == RewriteNear(s)
  {}

  lemma NearInner(s: string, inner: string)
    requires HasPrefix(s, "NEAR(") && HasSuffix(s, ")") && |s| > 5 && s[5..|s| - 1] == inner == TrimSpace(inner)
    ensures var comma := CommaAt(inner, 0, 0, false);
            RewriteNear(s)
            == if inner == "" then s
               else "NEAR(" + RewriteTerms(TrimSpace(inner[..comma]))
                    + (if comma < |inner| then ", " + TrimSpace(inner[comma + 1..]) else "") + ")"
  {}

  lemma NearUnfolds(inner: string)
    requires TrimSpace(inner) == inner
    ensures var comma := CommaAt(inner, 0, 0, false);
            RewriteToken("NEAR(" + inner + ")")
            == if inner == "" then "NEAR()"
               else "NEAR(" + RewriteTerms(TrimSpace(inner[..comma]))
                    + (if comma < |inner| then ", " + TrimSpace(inner[comma + 1..]) else "") + ")"
  {
    var s := "NEAR(" + inner + ")";
    NearShape(inner);
    NearToken(s);
    NearInner(s, inner);
  }

  lemma NearIsRewritten(terms: seq<Term>, distance: Option<string>)
    requires Valid(Near(terms, distance))
    ensures RewriteToken(Written(Near(terms, distance)))
         == if terms == [] && distance.None? then "NEAR()"
            else "NEAR(" + RewriteTerms(Line(terms)) + Distance(distance) + ")"
  {
    var inner := Line(terms) + Distance(distance);
    assert Written(Near(terms, distance)) == "NEAR(" + inner + ")";
    NearInnerIsTrimmed(terms, distance);
    NearUnfolds(inner);
    NearIsSplit(terms, distance);
    LineIsTrimmed(terms);
    if terms != [] {
      LineEdges(terms);
    }
  }

  /** The splitter finds the comma between the terms and the distance, or none. */
  lemma NearIsSplit(terms: seq<Term>, distance: Option<string>)
    requires Valid(Near(terms, distance))
    ensures var inner := Line(terms) + Distance(distance); var comma := CommaAt(inner, 0, 0, false);
            comma == |Line(terms)| && inner[..comma] == Line(terms)
            && (comma < |inner| <==> distance.Some?)
            && (distance.Some? ==> TrimSpace(inner[comma + 1..]) == distance.value)
  {
    LinePasses(terms, 0);
    CommaOfNear(Line(terms), distance);
  }

  lemma CommaOfNear(line: string, distance: Option<string>)
    requires Passes(line, 0) && (distance.Some? ==> distance.value != "" && Quiet(distance.value))
    ensures var inner := line + Distance(distance); var comma := CommaAt(inner, 0, 0, false);
            comma == |line| && inner[..comma] == line && (comma < |inner| <==> distance.Some?)
            && (distance.Some? ==> TrimSpace(inner[comma + 1..]) == distance.value)
  {
    var inner, n := line + Distance(distance), |line|;
    assert inner[0..n] == line;
    CommaAtSkips(inner, 0, line, 0, false);
    if distance.Some? {
      assert inner[n] == ',' && inner[n + 1..] == " " + distance.value;
      assert CommaAt(inner, n, 0, false) == n;
      DistanceIsTrimmed(distance.value);
    } else {
      assert inner == line && CommaAt(inner, n, 0, false) == n;
    }
  }

  lemma DistanceIsTrimmed(d: string)
    requires d != "" && Quiet(d)
    ensures TrimSpace(" " + d) == d
  {
    assert (" " + d)[1..] == d;
    assert TrimLeft(" " + d) == TrimLeft(d) == d;
  }

  lemma NearInnerIsTrimmed(terms: seq<Term>, distance: Option<string>)
    requires Valid(Near(terms, distance))
    ensures TrimSpace(Line(terms) + Distance(distance)) == Line(terms) + Distance(distance)
  {
    var inner := Line(terms) + Distance(distance);
    if terms != [] {
      LineEdges(terms);
    }
    if inner != "" {
      TrimIdle(inner);
    }
  }

  /** The terms of a group are rewritten one by one. */
  lemma LineIsRewritten(terms: seq<Term>)
    requires forall x | x in terms :: Valid(x)
    requires forall i | 0 <= i < |terms| :: RewriteToken(Written(terms[i])) == Written(Safe(terms[i]))
    ensures RewriteTerms(Line(terms)) == Line(SafeAll(terms))
  {
    var tokens, words := Tokens(Line(terms), 0), WrittenAll(SafeAll(terms));
    LineIsSplit(Line(terms), 0, terms);
    forall i | 0 <= i < |words|
      ensures words[i] == if IsOperator(tokens[i]) then tokens[i] else RewriteToken(tokens[i])
    {
      WordOfLine(terms, i);
      OperatorsStay(Written(terms[i]));
    }
    ExpressionTerms(Line(terms), words);
  }

  lemma WordOfLine(terms: seq<Term>, i: nat)
    requires i < |terms|
    ensures WrittenAll(terms)[i] == Written(terms[i]) && WrittenAll(SafeAll(terms))[i] == Written(Safe(terms[i]))
  {
    WrittenAt(terms, i);
    WrittenAt(SafeAll(terms), i);
    SafeAt(terms, i);
  }

  /**
   Rewriting the text of a term gives the text of the same term with its words quoted, at any depth:
   nothing is dropped, reordered or regrouped, no operator, column, comma or distance is touched,
   and no word that needs quotes goes without them.
  */
  lemma {:induction false} RewritingQuotesWords(t: Term)
    requires Valid(t)
    ensures RewriteToken(Written(t)) == Written(Safe(t))
    decreases t
  {
    match t {
      case Word(text) => WordIsRewritten(text);
      case Operator(name) => OperatorIsFixed(name);
      case Phrase(text) =>
      case Starred(stem, _) => StarIsRewritten(stem);
      case Column(name, term) =>
        ColumnIsRewritten(name, term);
        RewritingQuotesWords(term);
      case Group(terms) =>
        GroupIsRewritten(terms);
        AllAreRewritten(terms);
        LineIsRewritten(terms);
      case Near(terms, distance) =>
        NearIsRewritten(terms, distance);
        AllAreRewritten(terms);
        LineIsRewritten(terms);
    }
  }

  lemma {:induction false} AllAreRewritten(terms: seq<Term>)
    requires forall x | x in terms :: Valid(x)
    ensures forall i | 0 <= i < |terms| :: RewriteToken(Written(terms[i])) == Written(Safe(terms[i]))
    decreases terms, 0
  {
    forall i | 0 <= i < |terms|
      ensures RewriteToken(Written(terms[i])) == Written(Safe(terms[i]))
    {
      assert terms[i] in terms;
      RewritingQuotesWords(terms[i]);
    }
  }

  /** An OR before each operand that follows an operand. */
  function Joined(terms: seq<Term>, glue: bool): seq<Term> {
    if terms == [] then []
    else
      var joined := [terms[0]] + Joined(terms[1..], !terms[0].Operator?);
      if glue && !terms[0].Operator? then [Operator("OR")] + joined else joined
  }

  lemma OperatorsAreWritten(t: Term)
    requires Valid(t)
    ensures IsOperator(Written(t)) <==> t.Operator?
  {
    var w := Written(t);
    match t {
      case Column(name, term) =>
        ColumnLetters(name);
        assert w[|name|] == ':' && |name| > 3;
      case Starred(_, _) => assert w[|w| - 1] == '*';
      case Phrase(_) => assert w[0] == '"';
      case Group(_) => assert w[0] == '(';
      case Near(_, _) => assert w[4] == '(';
      case _ =>
    }
  }

  lemma WrittenCons(t: Term, rest: seq<Term>)
    ensures WrittenAll([t] + rest) == [Written(t)] + WrittenAll(rest)
  {
    assert ([t] + rest)[1..] == rest;
  }

  lemma {:induction false} JoinedIsGlued(terms: seq<Term>, glue: bool)
    requires forall x | x in terms :: Valid(x)
    ensures Glued(WrittenAll(terms), WrittenAll(SafeAll(terms)), glue) == WrittenAll(Joined(SafeAll(terms), glue))
    decreases terms
  {
    if terms != [] {
      var t, rest := terms[0], terms[1..];
      assert t in terms && forall x | x in rest :: x in terms;
      OperatorsAreWritten(t);
      JoinedIsGlued(rest, !t.Operator?);
      assert Safe(t).Operator? <==> t.Operator?;
      assert SafeAll(terms)[1..] == SafeAll(rest);
      WrittenCons(Safe(t), Joined(SafeAll(rest), !t.Operator?));
      WrittenCons(Operator("OR"), [Safe(t)] + Joined(SafeAll(rest), !t.Operator?));
    }
  }

  /**
   A whole query: its terms with their words quoted, and an OR between any two operands that no
   operator joins.
  */
  lemma QueryIsRewritten(terms: seq<Term>)
    requires terms != [] && forall x | x in terms :: Valid(x)
    ensures Rewritten(Line(terms)) == Line(Joined(SafeAll(terms), false))
  {
    LineIsTrimmed(terms);
    LineEdges(terms);
    LineIsSplit(Line(terms), 0, terms);
    AllAreRewritten(terms);
    var words := WrittenAll(SafeAll(terms));
    forall i | 0 <= i < |terms|
      ensures Words(WrittenAll(terms))[i] == words[i]
    {
      WordOfLine(terms, i);
    }
    assert Words(WrittenAll(terms)) == words;
    JoinedIsGlued(terms, false);
  }

  lemma LineOfThree(a: Term, b: Term, c: Term)
    ensures Line([a, b, c]) == Written(a) + " " + Written(b) + " " + Written(c)
  {
    assert [a, b, c][1..] == [b, c] && [b, c][1..] == [c];
    LineCons([a, b, c]);
    LineCons([b, c]);
    LineCons([c]);
  }

  lemma SafeOfThree(a: Term, b: Term, c: Term)
    ensures SafeAll([a, b, c]) == [Safe(a), Safe(b), Safe(c)]
  {
    SafeCons(a, [b, c]);
    SafeCons(b, [c]);
    SafeCons(c, []);
    assert [a] + [b, c] == [a, b, c] && [b] + [c] == [b, c] && [c] + [] == [c];
  }

  lemma JoinedThree(a: Term, b: Term, c: Term)
    requires !a.Operator? && b.Operator? && !c.Operator?
    ensures Joined([a, b, c], false) == [a, b, c]
  {
    JoinedCons(a, [b, c], false);
    JoinedCons(b, [c], true);
    JoinedCons(c, [], false);
    assert [a] + [b, c] == [a, b, c] && [b] + [c] == [b, c] && [c] + [] == [c];
  }

  /** OR, AND and NOT between two operands stay as they are. */
  lemma OperatorsJoin(a: Term, op: string, b: Term)
    requires Valid(a) && Valid(b) && !a.Operator? && !b.Operator? && (op == "OR" || op == "AND" || op == "NOT")
    ensures Rewritten(Written(a) + " " + op + " " + Written(b)) == Written(Safe(a)) + " " + op + " " + Written(Safe(b))
  {
    LineOfThree(a, Operator(op), b);
    QueryIsRewritten([a, Operator(op), b]);
    SafeOfThree(a, Operator(op), b);
    JoinedThree(Safe(a), Operator(op), Safe(b));
    LineOfThree(Safe(a), Operator(op), Safe(b));
  }

  /** The columns of the index can be named, and what is looked for in them is quoted if it must be. */
  lemma ColumnsAreNamed(name: string, t: Term)
    requires Valid(t) && (t.Phrase? ==> NoSpaces(t.text))
    requires name == "label" || name == "content" || name == "node_type"
    ensures RewriteToken(name + ":" + Written(t)) == name + ":" + Written(Safe(t))
  {
    RewritingQuotesWords(Column(name, t));
  }

  /** Letters, digits and the underscore of ASCII, by their codes: what the bareword parser takes. */
  predicate BarewordChar(c: char) {
    48 <= c as int <= 57 || 65 <= c as int <= 90 || c as int == 95 || 97 <= c as int <= 122
  }

  /** No word or star outside quotes has a character that the bareword parser rejects. */
  predicate AllBare(t: Term) {
    match t
    case Word(text) => forall c | c in text :: BarewordChar(c)
    case Starred(stem, quoted) => !quoted ==> forall c | c in stem :: BarewordChar(c)
    case Column(_, term) => AllBare(term)
    case Group(terms) => forall x | x in terms :: AllBare(x)
    case Near(terms, _) => forall x | x in terms :: AllBare(x)
    case _ => true
  }

  /** A term with every word quoted that must be, and none that need not be. */
  lemma {:induction false} SafeIsBare(t: Term)
    ensures AllBare(Safe(t)) && (AllBare(t) && PlainStars(t) && !HasQuotedStar(t) ==> Safe(t) == t)
    decreases t
  {
    match t
    case Column(_, term) => SafeIsBare(term);
    case Group(terms) => AllSafeAreBare(terms);
    case Near(terms, _) => AllSafeAreBare(terms);
    case _ =>
  }

  predicate HasQuotedStar(t: Term) {
    match t
    case Starred(_, quoted) => quoted
    case Column(_, term) => HasQuotedStar(term)
    case Group(terms) => exists x | x in terms :: HasQuotedStar(x)
    case Near(terms, _) => exists x | x in terms :: HasQuotedStar(x)
    case _ => false
  }

  lemma {:induction false} AllSafeAreBare(terms: seq<Term>)
    ensures forall x | x in SafeAll(terms) :: AllBare(x)
    ensures (forall x | x in terms :: AllBare(x) && PlainStars(x) && !HasQuotedStar(x)) ==> SafeAll(terms) == terms
    decreases terms, 0
  {
    if terms != [] {
      SafeIsBare(terms[0]);
      AllSafeAreBare(terms[1..]);
      assert terms == [terms[0]] + terms[1..] && terms[0] in terms;
    }
  }

  // ----- a second pass -----

  /** No starred word that needs quotes: the quoted form of those is not read back as one token. */
  predicate PlainStars(t: Term) {
    match t
    case Starred(stem, _) => !NeedsQuoting(stem)
    case Column(_, term) => PlainStars(term)
    case Group(terms) => forall x | x in terms :: PlainStars(x)
    case Near(terms, _) => forall x | x in terms :: PlainStars(x)
    case _ => true
  }

  lemma {:induction false} SafeIsValid(t: Term)
    requires Valid(t) && PlainStars(t)
    ensures Valid(Safe(t)) && PlainStars(Safe(t)) && Safe(Safe(t)) == Safe(t) && (NoComma(t) ==> NoComma(Safe(t)))
    ensures Safe(t).Phrase? ==> t.Phrase? || NoSpaces(Safe(t).text)
    decreases t
  {
    match t
    case Word(text) => QuietIsFlat(text);
    case Column(_, term) => SafeIsValid(term);
    case Group(terms) => AllSafe(terms);
    case Near(terms, _) => AllSafe(terms);
    case _ =>
  }

  lemma {:induction false} AllSafe(terms: seq<Term>)
    requires forall x | x in terms :: Valid(x) && PlainStars(x)
    ensures SafeAll(SafeAll(terms)) == SafeAll(terms)
    ensures forall x | x in SafeAll(terms) :: Valid(x) && PlainStars(x)
    ensures (forall x | x in terms :: NoComma(x)) ==> forall x | x in SafeAll(terms) :: NoComma(x)
    decreases terms, 0
  {
    if terms != [] {
      assert terms[0] in terms && forall x | x in terms[1..] :: x in terms;
      SafeIsValid(terms[0]);
      AllSafe(terms[1..]);
      assert SafeAll(terms)[1..] == SafeAll(terms[1..]);
    }
  }

  /** So a term is rewritten once and for all unless it holds a starred word that needs quotes. */
  lemma TermRewrittenTwice(t: Term)
    requires Valid(t) && PlainStars(t)
    ensures RewriteToken(RewriteToken(Written(t))) == RewriteToken(Written(t))
  {
    SafeIsValid(t);
    RewritingQuotesWords(t);
    RewritingQuotesWords(Safe(t));
  }

  /** What was joined needs no further OR, whatever stands before it. */
  lemma {:induction false} JoinedKeeps(terms: seq<Term>, glue: bool)
    ensures Joined(Joined(terms, glue), glue) == Joined(terms, glue)
    decreases |terms|
  {
    if terms != [] {
      var t, rest := terms[0], terms[1..];
      var more := Joined(rest, !t.Operator?);
      JoinedKeeps(rest, !t.Operator?);
      JoinedCons(t, more, false);
      JoinedCons(t, more, glue);
      JoinedCons(Operator("OR"), [t] + more, glue);
    }
  }

  lemma JoinedCons(t: Term, rest: seq<Term>, glue: bool)
    ensures Joined([t] + rest, glue)
         == (if glue && !t.Operator? then [Operator("OR")] else []) + [t] + Joined(rest, !t.Operator?)
  {
    assert ([t] + rest)[1..] == rest;
  }

  lemma {:induction false} JoinedMembers(terms: seq<Term>, glue: bool)
    requires forall x | x in terms :: Valid(x) && PlainStars(x)
    ensures forall x | x in Joined(terms, glue) :: Valid(x) && PlainStars(x)
    ensures SafeAll(terms) == terms ==> SafeAll(Joined(terms, glue)) == Joined(terms, glue)
    decreases |terms|
  {
    if terms != [] {
      var t, rest := terms[0], terms[1..];
      assert t in terms && forall x | x in rest :: x in terms;
      JoinedMembers(rest, !t.Operator?);
      var more := Joined(rest, !t.Operator?);
      SafeCons(t, more);
      SafeCons(Operator("OR"), [t] + more);
      assert SafeAll(terms) == terms ==> SafeAll(rest) == rest && Safe(t) == t by {
        assert SafeAll(terms) == [Safe(t)] + SafeAll(rest);
      }
    }
  }

  lemma SafeCons(t: Term, rest: seq<Term>)
    ensures SafeAll([t] + rest) == [Safe(t)] + SafeAll(rest)
  {
    assert ([t] + rest)[1..] == rest;
  }

  /** And so is a whole query with groups, columns and NEAR. */
  lemma QueryRewrittenTwice(terms: seq<Term>)
    requires terms != [] && forall x | x in terms :: Valid(x) && PlainStars(x)
    ensures Rewritten(Rewritten(Line(terms))) == Rewritten(Line(terms))
  {
    var once := Joined(SafeAll(terms), false);
    AllSafe(terms);
    QueryIsRewritten(terms);
    JoinedMembers(SafeAll(terms), false);
    JoinedKeeps(SafeAll(terms), false);
    QueryIsRewritten(once);
  }
}
