/** Rewriting a natural-language query into FTS5 syntax. */
module Search {
  import opened Strings

  // ----- characters and strings -----

  predicate IsSpace(c: char) {
    c == ' ' || c == '\t' || c == '\n' || c == '\r'
  }

  // ----- tokens -----

  function SkipSpaces(q: string, i: nat): (j: nat)
    requires i <= |q|
    ensures i <= j <= |q| && (forall k | i <= k < j :: IsSpace(q[k])) && (j < |q| ==> !IsSpace(q[j]))
    decreases |q| - i
  {
    if i < |q| && IsSpace(q[i]) then SkipSpaces(q, i + 1) else i
  }

  /** Just past the next quote, or the end. */
  function QuoteEnd(q: string, i: nat): (j: nat)
    requires i <= |q|
    ensures i <= j <= |q|
    decreases |q| - i
  {
    if i == |q| then i else if q[i] == '"' then i + 1 else QuoteEnd(q, i + 1)
  }

  /** The next space outside parentheses, or the end. */
  function BareEnd(q: string, i: nat, depth: nat): (j: nat)
    requires i <= |q|
    ensures i <= j <= |q|
    decreases |q| - i
  {
    if i == |q| then i
    else if q[i] == '(' then BareEnd(q, i + 1, depth + 1)
    else if q[i] == ')' then BareEnd(q, i + 1, if depth > 0 then depth - 1 else 0)
    else if depth == 0 && IsSpace(q[i]) then i
    else BareEnd(q, i + 1, depth)
  }

  function TokenEnd(q: string, i: nat): (j: nat)
    requires i < |q| && !IsSpace(q[i])
    ensures i < j <= |q|
  {
    if q[i] == '"' then QuoteEnd(q, i + 1) else BareEnd(q, i, 0)
  }

  datatype Span = Span(start: nat, end: nat)

  function Spans(q: string, i: nat): seq<Span>
    requires i <= |q|
    decreases |q| - i
  {
    var start := SkipSpaces(q, i);
    if start == |q| then []
    else
      var end := TokenEnd(q, start);
      [Span(start, end)] + Spans(q, end)
  }

  function Tokens(q: string, i: nat): seq<string>
    requires i <= |q|
    decreases |q| - i
  {
    var start := SkipSpaces(q, i);
    if start == |q| then []
    else
      var end := TokenEnd(q, start);
      [q[start..end]] + Tokens(q, end)
  }

  /** The tokens are the non-empty stretches of the spans, in order, and only spaces lie between them. */
  ghost predicate Lossless(q: string, i: nat, spans: seq<Span>, tokens: seq<string>) {
    |spans| == |tokens|
    && (forall k | 0 <= k < |spans| ::
          i <= spans[k].start < spans[k].end <= |q| && tokens[k] == q[spans[k].start..spans[k].end])
    && (forall k | 0 <= k < |spans| - 1 :: spans[k].end <= spans[k + 1].start)
    && forall p | i <= p < |q| && !Inside(spans, p) :: IsSpace(q[p])
  }

  ghost predicate Inside(spans: seq<Span>, p: nat) {
    exists k | 0 <= k < |spans| :: spans[k].start <= p < spans[k].end
  }

  lemma {:induction false} TokensAreLossless(q: string, i: nat)
    requires i <= |q|
    ensures Lossless(q, i, Spans(q, i), Tokens(q, i))
    decreases |q| - i
  {
    var start := SkipSpaces(q, i);
    if start < |q| {
      var end := TokenEnd(q, start);
      TokensAreLossless(q, end);
      LosslessCons(q, i, start, end, Spans(q, end), Tokens(q, end));
    }
  }

  lemma LosslessCons(q: string, i: nat, start: nat, end: nat, spans: seq<Span>, tokens: seq<string>)
    requires i <= start < end <= |q| && (forall k | i <= k < start :: IsSpace(q[k]))
    requires Lossless(q, end, spans, tokens)
    ensures Lossless(q, i, [Span(start, end)] + spans, [q[start..end]] + tokens)
  {
    var longer := [Span(start, end)] + spans;
    forall p | i <= p < |q| && !Inside(longer, p)
      ensures IsSpace(q[p])
    {
      InsideCons(Span(start, end), spans, p);
    }
  }

  lemma InsideCons(first: Span, rest: seq<Span>, p: nat)
    ensures Inside([first] + rest, p) <==> first.start <= p < first.end || Inside(rest, p)
  {
    var all := [first] + rest;
    assert all[0] == first;
    if Inside(rest, p) {
      var k :| 0 <= k < |rest| && rest[k].start <= p < rest[k].end;
      assert all[k + 1] == rest[k];
    }
  }

  method ScanQuoted(q: string, start: nat) returns (i: nat)
    requires start < |q|
    ensures i == QuoteEnd(q, start + 1)
  {
    i := start + 1;
    while i < |q|
      invariant start < i <= |q| && QuoteEnd(q, i) == QuoteEnd(q, start + 1)
    {
      if q[i] == '"' {
        return i + 1;
      }
      i := i + 1;
    }
  }

  method ScanBare(q: string, start: nat) returns (i: nat)
    requires start < |q|
    ensures i == BareEnd(q, start, 0)
  {
    i := start;
    var depth := 0;
    while i < |q| && !(depth == 0 && IsSpace(q[i]))
      invariant start <= i <= |q| && 0 <= depth && BareEnd(q, i, depth) == BareEnd(q, start, 0)
    {
      if q[i] == '(' {
        depth := depth + 1;
      } else if q[i] == ')' && depth > 0 {
        depth := depth - 1;
      }
      i := i + 1;
    }
  }

  lemma MoveOne(done: seq<string>, next: string, rest: seq<string>)
    ensures done + ([next] + rest) == (done + [next]) + rest
  {
  }

  method SplitFTSQuery(q: string) returns (tokens: seq<string>)
    ensures tokens == Tokens(q, 0)
  {
    tokens := [];
    var i := 0;
    while i < |q|
      invariant 0 <= i <= |q|
      invariant tokens + Tokens(q, i) == Tokens(q, 0)
      decreases |q| - i
    {
      ghost var from := i;
      while i < |q| && IsSpace(q[i])
        invariant from <= i <= |q| && SkipSpaces(q, i) == SkipSpaces(q, from)
      {
        i := i + 1;
      }
      if i >= |q| {
        break;
      }
      var start := i;
      if q[i] == '"' {
        i := ScanQuoted(q, start);
      } else {
        i := ScanBare(q, start);
      }
      MoveOne(tokens, q[start..i], Tokens(q, i));
      tokens := tokens + [q[start..i]];
    }
  }

  // ----- rewriting one token -----

  predicate IsOperator(s: string) {
    s == "OR" || s == "AND" || s == "NOT"
  }

  predicate IsColumn(s: string) {
    s == "label" || s == "content" || s == "node_type"
  }

  predicate WordChar(c: char) {
    'a' <= c <= 'z' || 'A' <= c <= 'Z' || '0' <= c <= '9' || c == '_'
  }

  /** A character that the bareword parser rejects. */
  predicate NeedsQuoting(s: string) {
    exists c | c in s :: !WordChar(c)
  }

  function Doubled(s: string): string {
    if s == "" then "" else (if s[0] == '"' then "\"\"" else [s[0]]) + Doubled(s[1..])
  }

  function Quote(s: string): string {
    "\"" + Doubled(s) + "\""
  }

  function IndexOf(s: string, c: char): (i: nat)
    ensures i <= |s| && (i < |s| ==> s[i] == c) && forall k | 0 <= k < i :: s[k] != c
  {
    if s == "" || s[0] == c then 0 else 1 + IndexOf(s[1..], c)
  }

  /** The first comma outside quotes and parentheses, or the end. */
  function CommaAt(s: string, i: nat, depth: nat, inQuote: bool): (j: nat)
    requires i <= |s|
    ensures i <= j <= |s|
    decreases |s| - i
  {
    if i == |s| then i
    else if s[i] == '"' then CommaAt(s, i + 1, depth, !inQuote)
    else if s[i] == '(' && !inQuote then CommaAt(s, i + 1, depth + 1, inQuote)
    else if s[i] == ')' && !inQuote && depth > 0 then CommaAt(s, i + 1, depth - 1, inQuote)
    else if s[i] == ',' && !inQuote && depth == 0 then i
    else CommaAt(s, i + 1, depth, inQuote)
  }

  method SplitTopLevelComma(s: string) returns (before: string, after: string, found: bool)
    ensures var j := CommaAt(s, 0, 0, false);
            found == (j < |s|) && before == TrimSpace(s[..j])
            && after == if found then TrimSpace(s[j + 1..]) else ""
  {
    var depth := 0;
    var inQuote := false;
    for i := 0 to |s|
      invariant depth >= 0 && CommaAt(s, i, depth, inQuote) == CommaAt(s, 0, 0, false)
    {
      if s[i] == '"' {
        inQuote := !inQuote;
      } else if s[i] == '(' {
        if !inQuote {
          depth := depth + 1;
        }
      } else if s[i] == ')' {
        if !inQuote && depth > 0 {
          depth := depth - 1;
        }
      } else if s[i] == ',' {
        if !inQuote && depth == 0 {
          return TrimSpace(s[..i]), TrimSpace(s[i + 1..]), true;
        }
      }
    }
    assert s[..|s|] == s;
    return TrimSpace(s), "", false;
  }

  function RewriteToken(s: string): string
    decreases |s|, 1
  {
    if HasPrefix(s, "\"") then s
    else if HasPrefix(s, "NEAR(") && HasSuffix(s, ")") then RewriteNear(s)
    else if HasPrefix(s, "(") && HasSuffix(s, ")") then RewriteParenthesized(s)
    else
      var colon := IndexOf(s, ':');
      if 0 < colon < |s| - 1 && IsColumn(s[..colon]) then s[..colon] + ":" + RewriteToken(s[colon + 1..])
      else if HasSuffix(s, "*") && |s| > 1 then
        var stem := s[..|s| - 1];
        if NeedsQuoting(stem) then Quote(stem) + "*" else s
      else if NeedsQuoting(s) then Quote(s)
      else s
  }

  function RewriteParenthesized(s: string): string
    requires HasPrefix(s, "(") && HasSuffix(s, ")")
    decreases |s|, 0
  {
    assert s[0] == '(' && s[|s| - 1] == ')';
    var inner := TrimSpace(s[1..|s| - 1]);
    if inner == "" then s else "(" + RewriteTerms(inner) + ")"
  }

  function RewriteNear(s: string): string
    requires HasPrefix(s, "NEAR(") && HasSuffix(s, ")")
    decreases |s|, 0
  {
    assert s[4] == '(' && s[|s| - 1] == ')';
    var inner := TrimSpace(s[5..|s| - 1]);
    if inner == "" then s
    else
      var comma := CommaAt(inner, 0, 0, false);
      "NEAR(" + RewriteTerms(TrimSpace(inner[..comma]))
      + (if comma < |inner| then ", " + TrimSpace(inner[comma + 1..]) else "") + ")"
  }

  function RewriteTerms(s: string): string
    decreases |s|, 3
  {
    TokensAreShort(s, 0);
    JoinOn(RewriteEach(Tokens(s, 0), |s|), ' ')
  }

  function RewriteEach(tokens: seq<string>, bound: nat): seq<string>
    requires forall t | t in tokens :: |t| <= bound
    decreases bound, 2
  {
    seq(|tokens|, i requires 0 <= i < |tokens| =>
      if IsOperator(tokens[i]) then tokens[i] else assert tokens[i] in tokens; RewriteToken(tokens[i]))
  }

  lemma {:induction false} TokensAreShort(q: string, i: nat)
    requires i <= |q|
    ensures forall t | t in Tokens(q, i) :: 0 < |t| <= |q|
    decreases |q| - i
  {
    var start := SkipSpaces(q, i);
    if start < |q| {
      TokensAreShort(q, TokenEnd(q, start));
    }
  }

  /** What the loop over the tokens of an expression collects, token by token. */
  lemma ExpressionTerms(s: string, words: seq<string>)
    requires |words| == |Tokens(s, 0)|
    requires forall i | 0 <= i < |words| ::
               var t := Tokens(s, 0)[i]; words[i] == if IsOperator(t) then t else RewriteToken(t)
    ensures RewriteTerms(s) == JoinOn(words, ' ')
  {
    TokensAreShort(s, 0);
    assert words == RewriteEach(Tokens(s, 0), |s|);
  }

  method RewriteExpressionTerms(s: string) returns (r: string)
    ensures r == RewriteTerms(s)
  {
    var tokens := SplitFTSQuery(s);
    var rewritten := [];
    for i := 0 to |tokens|
      invariant |rewritten| == i
      invariant forall k | 0 <= k < i ::
                  rewritten[k] == if IsOperator(tokens[k]) then tokens[k] else RewriteToken(tokens[k])
    {
      var token := tokens[i];
      if IsOperator(token) {
        rewritten := rewritten + [token];
      } else {
        rewritten := rewritten + [RewriteToken(token)];
      }
    }
    ExpressionTerms(s, rewritten);
    r := JoinOn(rewritten, ' ');
  }

  // ----- the whole query -----

  function Words(tokens: seq<string>): seq<string> {
    seq(|tokens|, i requires 0 <= i < |tokens| => RewriteToken(tokens[i]))
  }

  /**
   * The words written out with an OR between adjacent operands. `glue` says that the token before was an
   * operand; whether a word is an operator is asked of the token it comes from.
   */
  function Glued(tokens: seq<string>, words: seq<string>, glue: bool): seq<string>
    requires |tokens| == |words|
  {
    if tokens == [] then []
    else
      var operator := IsOperator(tokens[0]);
      var glued := [words[0]] + Glued(tokens[1..], words[1..], !operator);
      if glue && !operator then ["OR"] + glued else glued
  }

  function Pieces(tokens: seq<string>): seq<string> {
    Glued(tokens, Words(tokens), false)
  }

  function Rewritten(q: string): string {
    var t := TrimSpace(q);
    if t == "" || Tokens(t, 0) == [] then t else JoinOn(Pieces(Tokens(t, 0)), ' ')
  }

  method RewriteQuery(query: string) returns (r: string)
    ensures r == Rewritten(query)
  {
    var q := TrimSpace(query);
    if q == "" {
      return q;
    }
    var tokens := SplitFTSQuery(q);
    if |tokens| == 0 {
      return q;
    }
    var pieces := GluePieces(tokens);
    r := JoinOn(pieces, ' ');
  }

  lemma GluedFrom(tokens: seq<string>, words: seq<string>, i: nat, glue: bool)
    requires i < |tokens| == |words|
    ensures var operator := IsOperator(tokens[i]);
            var glued := [words[i]] + Glued(tokens[i + 1..], words[i + 1..], !operator);
            Glued(tokens[i..], words[i..], glue) == if glue && !operator then ["OR"] + glued else glued
  {
    assert tokens[i..][0] == tokens[i] && tokens[i..][1..] == tokens[i + 1..];
    assert words[i..][0] == words[i] && words[i..][1..] == words[i + 1..];
  }

  method GluePieces(tokens: seq<string>) returns (rewritten: seq<string>)
    ensures rewritten == Pieces(tokens)
  {
    rewritten := [];
    var prevWasOperator := false;
    ghost var words := Words(tokens);
    assert tokens[0..] == tokens && words[0..] == words;
    for i := 0 to |tokens|
      invariant rewritten + Glued(tokens[i..], words[i..], i > 0 && !prevWasOperator) == Glued(tokens, words, false)
    {
      var token := tokens[i];
      var isOperator := IsOperator(token);
      GluedFrom(tokens, words, i, i > 0 && !prevWasOperator);
      ghost var after := Glued(tokens[i + 1..], words[i + 1..], !isOperator);
      if i > 0 && !prevWasOperator && !isOperator {
        MoveOne(rewritten, "OR", [words[i]] + after);
        rewritten := rewritten + ["OR"];
      }
      MoveOne(rewritten, words[i], after);
      rewritten := rewritten + [RewriteToken(token)];
      prevWasOperator := isOperator;
    }
  }

  /** An operator is short, and none of its letters matters to the rewriter. */
  lemma OperatorShape(t: string)
    requires IsOperator(t)
    ensures |t| <= 3 && forall c | c in t :: c == 'O' || c == 'R' || c == 'A' || c == 'N' || c == 'D' || c == 'T'
  {
  }

  lemma OperatorIsFixed(t: string)
    requires IsOperator(t)
    ensures RewriteToken(t) == t
  {
    OperatorShape(t);
    assert t[0] in t && t[|t| - 1] in t;
    assert IndexOf(t, ':') == |t|;
    assert !NeedsQuoting(t);
  }

  lemma NearIsOperand(t: string)
    requires HasPrefix(t, "NEAR(") && HasSuffix(t, ")")
    ensures |RewriteToken(t)| > 3
  {
    assert t[0] == "NEAR("[0] == 'N';
    assert RewriteToken(t) == RewriteNear(t);
  }

  lemma ParenthesizedIsOperand(t: string)
    requires HasPrefix(t, "(") && HasSuffix(t, ")")
    ensures RewriteToken(t) != "" && RewriteToken(t)[0] == '('
  {
    assert t[0] == '(';
    var r := RewriteToken(t);
    assert r == RewriteParenthesized(t);
  }

  /** Rewriting never makes an operator nor unmakes one. */
  lemma OperatorsStay(t: string)
    ensures IsOperator(RewriteToken(t)) <==> IsOperator(t)
    ensures IsOperator(t) ==> RewriteToken(t) == t
  {
    var r := RewriteToken(t);
    if IsOperator(t) {
      OperatorIsFixed(t);
    } else if HasPrefix(t, "\"") {
    } else if HasPrefix(t, "NEAR(") && HasSuffix(t, ")") {
      NearIsOperand(t);
    } else if HasPrefix(t, "(") && HasSuffix(t, ")") {
      ParenthesizedIsOperand(t);
    } else {
      OtherIsOperand(t);
    }
  }

  lemma OtherIsOperand(t: string)
    requires !IsOperator(t) && !HasPrefix(t, "\"") && !(HasPrefix(t, "NEAR(") && HasSuffix(t, ")"))
    requires !(HasPrefix(t, "(") && HasSuffix(t, ")"))
    ensures !IsOperator(RewriteToken(t))
  {
    var r := RewriteToken(t);
    var colon := IndexOf(t, ':');
    if 0 < colon < |t| - 1 && IsColumn(t[..colon]) {
      assert r[colon] == ':';
      assert |r| > 3;
    } else if r != t {
      assert r[0] == '"';
    }
  }

  /** Which pieces are ORs that stand between two operands of the query. */
  function Inserted(tokens: seq<string>, glue: bool): seq<bool> {
    if tokens == [] then []
    else
      var operator := IsOperator(tokens[0]);
      var inserted := [false] + Inserted(tokens[1..], !operator);
      if glue && !operator then [true] + inserted else inserted
  }

  function Erase(pieces: seq<string>, mask: seq<bool>): seq<string>
    requires |pieces| == |mask|
  {
    if pieces == [] then [] else (if mask[0] then [] else [pieces[0]]) + Erase(pieces[1..], mask[1..])
  }

  lemma EraseOne(piece: string, flag: bool, pieces: seq<string>, mask: seq<bool>)
    requires |pieces| == |mask|
    ensures Erase([piece] + pieces, [flag] + mask) == (if flag then [] else [piece]) + Erase(pieces, mask)
  {
    assert ([piece] + pieces)[1..] == pieces && ([flag] + mask)[1..] == mask;
  }

  /** Erasing what the mask marks, ORs only, leaves the words. */
  ghost predicate Erases(pieces: seq<string>, mask: seq<bool>, words: seq<string>) {
    |pieces| == |mask| && Erase(pieces, mask) == words
    && forall i | 0 <= i < |mask| && mask[i] :: pieces[i] == "OR"
  }

  lemma OneMoreWord(word: string, pieces: seq<string>, mask: seq<bool>, words: seq<string>)
    requires Erases(pieces, mask, words)
    ensures Erases([word] + pieces, [false] + mask, [word] + words)
  {
    EraseOne(word, false, pieces, mask);
  }

  lemma OneMoreOr(pieces: seq<string>, mask: seq<bool>, words: seq<string>)
    requires Erases(pieces, mask, words)
    ensures Erases(["OR"] + pieces, [true] + mask, words)
  {
    EraseOne("OR", true, pieces, mask);
    assert [] + Erase(pieces, mask) == Erase(pieces, mask);
  }

  /** Erasing the inserted ORs gives exactly the rewritten tokens, in order. */
  lemma {:induction false} ErasingInsertedOrs(tokens: seq<string>, words: seq<string>, glue: bool)
    requires |tokens| == |words|
    ensures var pieces, mask := Glued(tokens, words, glue), Inserted(tokens, glue);
            |pieces| == |mask| && Erase(pieces, mask) == words
            && forall i | 0 <= i < |mask| && mask[i] :: pieces[i] == "OR"
    decreases |tokens|
  {
    if tokens != [] {
      var operator, rest, more := IsOperator(tokens[0]), tokens[1..], words[1..];
      ErasingInsertedOrs(rest, more, !operator);
      var pieces, mask := Glued(rest, more, !operator), Inserted(rest, !operator);
      OneMoreWord(words[0], pieces, mask, more);
      assert words == [words[0]] + more;
      if glue && !operator {
        OneMoreOr([words[0]] + pieces, [false] + mask, words);
      }
      assert Erases(Glued(tokens, words, glue), Inserted(tokens, glue), words);
    }
  }

  ghost predicate SameKinds(tokens: seq<string>, words: seq<string>) {
    |tokens| == |words| && forall i | 0 <= i < |tokens| :: IsOperator(tokens[i]) <==> IsOperator(words[i])
  }

  lemma WordsKeepKinds(tokens: seq<string>)
    ensures SameKinds(tokens, Words(tokens))
  {
    forall i | 0 <= i < |tokens|
      ensures IsOperator(tokens[i]) <==> IsOperator(Words(tokens)[i])
    {
      OperatorsStay(tokens[i]);
    }
  }

  /** Operand, operator, operand, and so on to a last operand. */
  ghost predicate Alternates(pieces: seq<string>) {
    |pieces| % 2 == 1 && forall i | 0 <= i < |pieces| :: IsOperator(pieces[i]) <==> i % 2 == 1
  }

  /** No operator at either end, and no two in a row. */
  ghost predicate Proper(tokens: seq<string>) {
    tokens != [] && !IsOperator(tokens[0]) && !IsOperator(tokens[|tokens| - 1])
    && forall k | 0 <= k < |tokens| - 1 :: !(IsOperator(tokens[k]) && IsOperator(tokens[k + 1]))
  }

  /** The rewritten query alternates if and only if the tokens were proper. */
  lemma ProperIffAlternating(tokens: seq<string>)
    ensures Alternates(Pieces(tokens)) <==> Proper(tokens)
  {
    WordsKeepKinds(tokens);
    GluedAlternatesIff(tokens, Words(tokens));
  }

  lemma {:induction false} GluedAlternatesIff(tokens: seq<string>, words: seq<string>)
    requires SameKinds(tokens, words)
    ensures Alternates(Glued(tokens, words, false)) <==> Proper(tokens)
    decreases |tokens|
  {
    if tokens != [] {
      var rest := tokens[1..];
      if |tokens| == 1 {
        assert Glued(tokens, words, false) == [words[0]] + Glued(rest, words[1..], !IsOperator(tokens[0]));
        assert Glued(tokens, words, false) == [words[0]];
        assert IsOperator([words[0]][0]) <==> IsOperator(tokens[0]);
      } else if !IsOperator(tokens[0]) {
        if IsOperator(tokens[1]) {
          OperatorThenRest(tokens, words);
          GluedAlternatesIff(tokens[2..], words[2..]);
        } else {
          OperandThenRest(tokens, words);
          GluedAlternatesIff(rest, words[1..]);
        }
      } else {
        assert IsOperator(Glued(tokens, words, false)[0]);
      }
    }
  }

  lemma AlternatesShift(a: string, b: string, rest: seq<string>)
    requires !IsOperator(a) && IsOperator(b)
    ensures Alternates([a, b] + rest) <==> Alternates(rest)
  {
    var all := [a, b] + rest;
    assert forall i | 0 <= i < |rest| :: all[i + 2] == rest[i];
    if Alternates(all) {
      forall i | 0 <= i < |rest|
        ensures IsOperator(rest[i]) <==> i % 2 == 1
      {
        assert IsOperator(all[i + 2]) <==> (i + 2) % 2 == 1;
      }
    }
  }

  lemma OperandThenRest(tokens: seq<string>, words: seq<string>)
    requires |tokens| > 1 && SameKinds(tokens, words) && !IsOperator(tokens[0]) && !IsOperator(tokens[1])
    ensures Alternates(Glued(tokens, words, false)) <==> Alternates(Glued(tokens[1..], words[1..], false))
    ensures Proper(tokens) <==> Proper(tokens[1..])
  {
    GluedOr(tokens, words);
    AlternatesShift(words[0], "OR", Glued(tokens[1..], words[1..], false));
    ProperRest(tokens);
  }

  lemma GluedOr(tokens: seq<string>, words: seq<string>)
    requires |tokens| == |words| > 1 && !IsOperator(tokens[0]) && !IsOperator(tokens[1])
    ensures Glued(tokens, words, false) == [words[0], "OR"] + Glued(tokens[1..], words[1..], false)
  {
    var rest, more := tokens[1..], words[1..];
    GluedOne(tokens, words, false);
    GluedOne(rest, more, true);
    GluedOne(rest, more, false);
    MoveOne([words[0]], "OR", Glued(rest, more, false));
  }

  lemma ProperRest(tokens: seq<string>)
    requires |tokens| > 1 && !IsOperator(tokens[0]) && !IsOperator(tokens[1])
    ensures Proper(tokens) <==> Proper(tokens[1..])
  {
    assert forall k | 0 <= k < |tokens[1..]| :: tokens[1..][k] == tokens[k + 1];
  }

  lemma GluedOne(tokens: seq<string>, words: seq<string>, glue: bool)
    requires |tokens| == |words| && tokens != []
    ensures var glued := [words[0]] + Glued(tokens[1..], words[1..], !IsOperator(tokens[0]));
            Glued(tokens, words, glue) == if glue && !IsOperator(tokens[0]) then ["OR"] + glued else glued
  {}

  lemma GluedTwo(tokens: seq<string>, words: seq<string>)
    requires |tokens| == |words| > 1 && IsOperator(tokens[1])
    ensures Glued(tokens, words, false) == [words[0], words[1]] + Glued(tokens[2..], words[2..], false)
  {
    GluedOne(tokens, words, false);
    GluedOne(tokens[1..], words[1..], !IsOperator(tokens[0]));
    assert tokens[1..][1..] == tokens[2..] && words[1..][1..] == words[2..];
    MoveOne([words[0]], words[1], Glued(tokens[2..], words[2..], false));
    assert [words[0]] + [words[1]] == [words[0], words[1]];
  }

  lemma OperatorThenRest(tokens: seq<string>, words: seq<string>)
    requires |tokens| > 1 && SameKinds(tokens, words) && !IsOperator(tokens[0]) && IsOperator(tokens[1])
    ensures Alternates(Glued(tokens, words, false)) <==> Alternates(Glued(tokens[2..], words[2..], false))
    ensures Proper(tokens) <==> Proper(tokens[2..])
  {
    GluedTwo(tokens, words);
    AlternatesShift(words[0], words[1], Glued(tokens[2..], words[2..], false));
    ProperAfter(tokens);
  }

  lemma ProperAfter(tokens: seq<string>)
    requires |tokens| > 1 && !IsOperator(tokens[0]) && IsOperator(tokens[1])
    ensures Proper(tokens) <==> Proper(tokens[2..])
  {
    var after := tokens[2..];
    assert forall k | 0 <= k < |after| :: after[k] == tokens[k + 2];
    if Proper(after) {
      forall k | 0 <= k < |tokens| - 1
        ensures !(IsOperator(tokens[k]) && IsOperator(tokens[k + 1]))
      {
        if k >= 2 {
          assert after[k - 2] == tokens[k] && after[k - 1] == tokens[k + 1];
        }
      }
    }
  }

  // ----- quoting -----

  /** The inverse of doubling, by the quoting rule of section 3.1 of the FTS5 documentation. */
  function Undoubled(s: string): string {
    if s == "" then ""
    else if |s| > 1 && s[0] == '"' && s[1] == '"' then "\"" + Undoubled(s[2..])
    else [s[0]] + Undoubled(s[1..])
  }

  lemma {:induction false} QuotingLosesNothing(s: string)
    ensures Undoubled(Doubled(s)) == s
  {
    if s != "" {
      var d := Doubled(s[1..]);
      QuotingLosesNothing(s[1..]);
      if s[0] == '"' {
        assert ("\"\"" + d)[2..] == d;
      } else {
        assert ([s[0]] + d)[1..] == d;
      }
    }
  }

  lemma {:induction false} DoubledHead(s: string)
    ensures var k := IndexOf(s, '"');
            if k < |s| then |Doubled(s)| > k + 1 && Doubled(s)[k] == '"' else Doubled(s) == s
  {
    if s != "" && s[0] != '"' {
      DoubledHead(s[1..]);
    }
  }

  lemma {:induction false} QuoteEndIs(q: string, i: nat, k: nat)
    requires i <= k < |q| && q[k] == '"'
    ensures QuoteEnd(q, i) <= k + 1
    ensures (forall j | i <= j < k :: q[j] != '"') ==> QuoteEnd(q, i) == k + 1
    decreases k - i
  {
    if i < k && q[i] != '"' {
      QuoteEndIs(q, i + 1, k);
    }
  }

  /** A quoted word is read back as one token exactly when no quote had to be doubled in it. */
  lemma QuoteIsOneTokenIff(s: string)
    ensures Tokens(Quote(s), 0) == [Quote(s)] <==> '"' !in s
  {
    var q, k := Quote(s), IndexOf(s, '"');
    DoubledHead(s);
    assert SkipSpaces(q, 0) == 0;
    if k < |s| {
      assert q[k + 1] == '"';
      QuoteEndIs(q, 1, k + 1);
      assert |Tokens(q, 0)[0]| < |q|;
    } else {
      assert q == "\"" + s + "\"";
      QuoteEndIs(q, 1, |q| - 1);
      assert q[0..|q|] == q;
      assert Tokens(q, |q|) == [];
    }
  }

  // ----- reading a rewritten query again -----

  /** Without parentheses a token is quoted, or it ends at the next space. */
  predicate NoParens(s: string) {
    forall k | 0 <= k < |s| :: s[k] != '(' && s[k] != ')'
  }

  predicate NoSpaces(s: string) {
    forall k | 0 <= k < |s| :: !IsSpace(s[k])
  }

  predicate Bare(t: string) {
    t != "" && t[0] != '"' && NoParens(t) && NoSpaces(t)
  }

  /** A quote, and the next one right at the end. */
  predicate Closed(t: string) {
    |t| > 1 && t[0] == '"' && t[|t| - 1] == '"' && forall k | 1 <= k < |t| - 1 :: t[k] != '"'
  }

  /** A quote that nothing closes. */
  predicate Unclosed(t: string) {
    t != "" && t[0] == '"' && forall k | 1 <= k < |t| :: t[k] != '"'
  }

  /** How far the tokenizer gets in a text that begins with a quote. */
  function Reach(p: string): (e: nat)
    requires p != ""
    ensures 0 < e <= |p|
  {
    QuoteEnd(p, 1)
  }

  /** What the tokenizer makes of a text that stands before a space or the end. */
  function Read(p: string): seq<string>
    decreases |p|
  {
    if p == "" then []
    else if p[0] == '"' && Reach(p) < |p| then [p[..Reach(p)]] + Read(p[Reach(p)..])
    else [p]
  }

  /** Closed quotes one after another, then perhaps a text without spaces. */
  predicate Chain(p: string)
    decreases |p|
  {
    p != "" && (Bare(p) || Closed(p) || (p[0] == '"' && Reach(p) < |p| && Chain(p[Reach(p)..])))
  }

  lemma {:induction false} QuoteEndFinds(q: string, i: nat)
    requires i <= |q|
    ensures var j := QuoteEnd(q, i);
            (forall k | i <= k < j - 1 :: q[k] != '"') && (i < j ==> q[j - 1] == '"' || (j == |q| && q[j - 1] != '"'))
            && (j < |q| ==> i < j && q[j - 1] == '"')
    decreases |q| - i
  {
    if i < |q| && q[i] != '"' {
      QuoteEndFinds(q, i + 1);
    }
  }

  lemma {:induction false} BareEndFinds(q: string, i: nat, end: nat)
    requires i <= end <= |q| && (end < |q| ==> IsSpace(q[end]))
    requires forall k | i <= k < end :: q[k] != '(' && q[k] != ')' && !IsSpace(q[k])
    ensures BareEnd(q, i, 0) == end
    decreases end - i
  {
    if i < end {
      BareEndFinds(q, i + 1, end);
    }
  }

  lemma {:induction false} BareEndIs(q: string, i: nat)
    requires i <= |q| && NoParens(q)
    ensures var j := BareEnd(q, i, 0);
            (forall k | i <= k < j :: !IsSpace(q[k])) && (j < |q| ==> IsSpace(q[j]))
    decreases |q| - i
  {
    if i < |q| && !IsSpace(q[i]) {
      BareEndIs(q, i + 1);
    }
  }

  lemma FirstTokenIs(q: string, i: nat, p: string)
    requires p != "" && i + |p| <= |q| && q[i..i + |p|] == p && !IsSpace(p[0]) && TokenEndAt(q, i) == i + |p|
    ensures Tokens(q, i) == [p] + Tokens(q, i + |p|)
  {
    assert q[i] == p[0] && SkipSpaces(q, i) == i;
  }

  function TokenEndAt(q: string, i: nat): (j: nat)
    requires i < |q|
    ensures j <= |q|
  {
    if q[i] == '"' then QuoteEnd(q, i + 1) else BareEnd(q, i, 0)
  }

  /** One quoted stretch at `i`, whatever follows it. */
  lemma ClosedIsRead(q: string, i: nat, p: string)
    requires Closed(p) && i + |p| <= |q| && q[i..i + |p|] == p
    ensures Tokens(q, i) == [p] + Tokens(q, i + |p|)
  {
    assert forall k | 0 <= k < |p| :: q[i + k] == p[k];
    assert forall j | i + 1 <= j < i + |p| - 1 :: q[j] == p[j - i];
    QuoteEndIs(q, i + 1, i + |p| - 1);
    FirstTokenIs(q, i, p);
  }

  lemma BareIsRead(q: string, i: nat, p: string)
    requires Bare(p) && i + |p| <= |q| && q[i..i + |p|] == p && (i + |p| < |q| ==> q[i + |p|] == ' ')
    ensures Tokens(q, i) == [p] + Tokens(q, i + |p|)
  {
    assert forall j | i <= j < i + |p| :: q[j] == p[j - i];
    BareEndFinds(q, i, i + |p|);
    FirstTokenIs(q, i, p);
  }

  lemma UnclosedIsRead(q: string, i: nat, p: string)
    requires Unclosed(p) && i + |p| == |q| && q[i..] == p
    ensures Tokens(q, i) == [p]
  {
    assert forall j | i <= j < |q| :: q[j] == p[j - i];
    NoQuoteAhead(q, i + 1);
    assert q[i..i + |p|] == p;
    FirstTokenIs(q, i, p);
  }

  lemma {:induction false} NoQuoteAhead(q: string, i: nat)
    requires i <= |q| && forall k | i <= k < |q| :: q[k] != '"'
    ensures QuoteEnd(q, i) == |q|
    decreases |q| - i
  {
    if i < |q| {
      NoQuoteAhead(q, i + 1);
    }
  }

  /** The first stretch of a longer chain is closed. */
  lemma ChainHead(p: string)
    requires p != "" && p[0] == '"' && Reach(p) < |p|
    ensures Closed(p[..Reach(p)])
  {
    QuoteEndFinds(p, 1);
    var e := Reach(p);
    assert e > 1;
    assert forall k | 0 <= k < e :: p[..e][k] == p[k];
  }

  lemma ClosedReach(p: string)
    requires Closed(p)
    ensures Reach(p) == |p| && Read(p) == [p]
  {
    QuoteEndIs(p, 1, |p| - 1);
  }

  lemma StretchIsRead(q: string, i: nat, p: string)
    requires (Bare(p) || Closed(p)) && i + |p| <= |q| && q[i..i + |p|] == p && (i + |p| < |q| ==> q[i + |p|] == ' ')
    ensures Tokens(q, i) == Read(p) + Tokens(q, i + |p|)
  {
    if Bare(p) {
      BareIsRead(q, i, p);
    } else {
      ClosedReach(p);
      ClosedIsRead(q, i, p);
    }
  }

  /** A chain is read stretch by stretch. */
  lemma {:induction false} ChainIsRead(q: string, i: nat, p: string, end: nat)
    requires Chain(p) && i + |p| == end <= |q| && q[i..end] == p && (end < |q| ==> q[end] == ' ')
    ensures Tokens(q, i) == Read(p) + Tokens(q, end)
    decreases |p|
  {
    if Bare(p) || Closed(p) {
      StretchIsRead(q, i, p);
    } else {
      RestOfChain(q, i, p);
      ChainIsRead(q, i + Reach(p), p[Reach(p)..], end);
      TailIsRead(q, i, p, end);
    }
  }

  lemma RestOfChain(q: string, i: nat, p: string)
    requires Chain(p) && !Bare(p) && !Closed(p) && i + |p| <= |q| && q[i..i + |p|] == p
    ensures var e := Reach(p);
            p != "" && p[0] == '"' && e < |p| && 0 < e && Chain(p[e..]) && q[i + e..i + |p|] == p[e..]
            && Tokens(q, i) == [p[..e]] + Tokens(q, i + e)
  {
    ChainHead(p);
    HeadIsRead(q, i, p);
  }

  lemma ReadOn(p: string)
    requires p != "" && p[0] == '"' && Reach(p) < |p|
    ensures Read(p) == [p[..Reach(p)]] + Read(p[Reach(p)..])
  {}

  lemma TailIsRead(q: string, i: nat, p: string, end: nat)
    requires p != "" && p[0] == '"' && Reach(p) < |p| && i + |p| == end <= |q|
    requires Tokens(q, i) == [p[..Reach(p)]] + Tokens(q, i + Reach(p))
    requires Tokens(q, i + Reach(p)) == Read(p[Reach(p)..]) + Tokens(q, end)
    ensures Tokens(q, i) == Read(p) + Tokens(q, end)
  {
    ReadOn(p);
    MoveTokens([p[..Reach(p)]], Read(p[Reach(p)..]), Tokens(q, end));
  }

  lemma SliceAt(q: string, i: nat, p: string, e: nat)
    requires e <= |p| && i + |p| <= |q| && q[i..i + |p|] == p
    ensures q[i..i + e] == p[..e] && q[i + e..i + |p|] == p[e..]
  {
    assert forall k | 0 <= k < |p| :: q[i + k] == q[i..i + |p|][k] == p[k];
  }

  lemma HeadIsRead(q: string, i: nat, p: string)
    requires p != "" && p[0] == '"' && Reach(p) < |p| && i + |p| <= |q| && q[i..i + |p|] == p
    ensures var e := Reach(p); q[i + e..i + |p|] == p[e..] && Tokens(q, i) == [p[..e]] + Tokens(q, i + e)
  {
    ChainHead(p);
    SliceAt(q, i, p, Reach(p));
    ClosedIsRead(q, i, p[..Reach(p)]);
  }

  lemma MoveTokens(a: seq<string>, b: seq<string>, c: seq<string>)
    ensures a + (b + c) == (a + b) + c
  {
  }

  /** Chains, of which the last may also be an unclosed quote. */
  ghost predicate Joinable(pieces: seq<string>) {
    forall k | 0 <= k < |pieces| :: Chain(pieces[k]) || (k == |pieces| - 1 && Unclosed(pieces[k]))
  }

  function ReadAll(pieces: seq<string>): seq<string> {
    if pieces == [] then [] else Read(pieces[0]) + ReadAll(pieces[1..])
  }

  /** The pieces stand one after another from `i` to the end, with a space between. */
  ghost predicate Laid(q: string, i: nat, pieces: seq<string>)
    decreases |pieces|
  {
    if pieces == [] then i == |q|
    else
      var end := i + |pieces[0]|;
      end <= |q| && q[i..end] == pieces[0]
      && if |pieces| == 1 then end == |q| else end < |q| && q[end] == ' ' && Laid(q, end + 1, pieces[1..])
  }

  lemma JoinCons(pieces: seq<string>)
    requires |pieces| > 1
    ensures JoinOn(pieces, ' ') == pieces[0] + " " + JoinOn(pieces[1..], ' ')
  {
  }

  lemma {:induction false} JoinedIsLaid(q: string, i: nat, pieces: seq<string>)
    requires pieces != [] && i <= |q| && q[i..] == JoinOn(pieces, ' ')
    ensures Laid(q, i, pieces)
    decreases |pieces|
  {
    if |pieces| > 1 {
      JoinCons(pieces);
      JoinedSlices(q, i, pieces[0], JoinOn(pieces[1..], ' '));
      JoinedIsLaid(q, i + |pieces[0]| + 1, pieces[1..]);
    } else {
      assert q[i..|q|] == q[i..];
    }
  }

  lemma JoinedSlices(q: string, i: nat, p: string, rest: string)
    requires i <= |q| && q[i..] == p + " " + rest
    ensures var end := i + |p|;
            end < |q| && q[i..end] == p && q[end] == ' ' && q[end + 1..] == rest
  {
    var j, end := p + " " + rest, i + |p|;
    assert |q| == i + |j|;
    assert forall k | 0 <= k < |j| :: q[i + k] == q[i..][k] == j[k];
    assert q[end] == j[|p|] == ' ';
    assert forall k | 0 <= k < |p| :: q[i..end][k] == q[i + k] == j[k] == p[k];
    assert forall k | 0 <= k < |rest| :: q[end + 1..][k] == q[i + (|p| + 1 + k)] == j[|p| + 1 + k] == rest[k];
  }

  lemma SpaceIsSkipped(q: string, i: nat)
    requires i < |q| && q[i] == ' '
    ensures Tokens(q, i) == Tokens(q, i + 1)
  {
    assert SkipSpaces(q, i) == SkipSpaces(q, i + 1);
  }

  /** Splitting what was laid out gives what each piece is read as. */
  lemma {:induction false} LaidIsRead(q: string, i: nat, pieces: seq<string>)
    requires Joinable(pieces) && i <= |q| && Laid(q, i, pieces)
    ensures Tokens(q, i) == ReadAll(pieces)
    decreases |pieces|
  {
    if |pieces| == 1 {
      LastIsRead(q, i, pieces[0]);
      assert ReadAll(pieces[1..]) == [];
    } else if pieces != [] {
      var p, rest := pieces[0], pieces[1..];
      assert Chain(p);
      assert forall k | 0 <= k < |rest| :: rest[k] == pieces[k + 1];
      LaidIsRead(q, i + |p| + 1, rest);
      ChainThenSpace(q, i, p);
    }
  }

  lemma LastIsRead(q: string, i: nat, p: string)
    requires (Chain(p) || Unclosed(p)) && i + |p| == |q| && q[i..i + |p|] == p
    ensures Tokens(q, i) == Read(p)
  {
    if Chain(p) {
      ChainIsRead(q, i, p, i + |p|);
    } else {
      UnclosedIsRead(q, i, p);
      NoQuoteAhead(p, 1);
    }
  }

  lemma ChainThenSpace(q: string, i: nat, p: string)
    requires Chain(p) && i + |p| < |q| && q[i..i + |p|] == p && q[i + |p|] == ' '
    ensures Tokens(q, i) == Read(p) + Tokens(q, i + |p| + 1)
  {
    ChainIsRead(q, i, p, i + |p|);
    SpaceIsSkipped(q, i + |p|);
  }

  /** Splitting a joined list. */
  lemma JoinedIsRead(pieces: seq<string>)
    requires pieces != [] && Joinable(pieces)
    ensures Tokens(JoinOn(pieces, ' '), 0) == ReadAll(pieces)
  {
    assert JoinOn(pieces, ' ')[0..] == JoinOn(pieces, ' ');
    JoinedIsLaid(JoinOn(pieces, ' '), 0, pieces);
    LaidIsRead(JoinOn(pieces, ' '), 0, pieces);
  }

  // ----- the tokens of a query without parentheses -----

  ghost predicate Shaped(tokens: seq<string>) {
    forall k | 0 <= k < |tokens| ::
      Bare(tokens[k]) || Closed(tokens[k]) || (k == |tokens| - 1 && Unclosed(tokens[k]))
  }

  lemma TokenShape(q: string, start: nat)
    requires start < |q| && NoParens(q) && !IsSpace(q[start])
    ensures var end := TokenEnd(q, start); var t := q[start..end];
            Bare(t) || Closed(t) || (end == |q| && Unclosed(t))
  {
    var end := TokenEnd(q, start);
    var t := q[start..end];
    assert forall k | 0 <= k < |t| :: t[k] == q[start + k];
    if q[start] == '"' {
      QuoteEndFinds(q, start + 1);
      assert forall k | 1 <= k < |t| - 1 :: q[start + k] != '"' && t[k] == q[start + k];
    } else {
      BareEndIs(q, start);
    }
  }

  lemma {:induction false} TokensAreShaped(q: string, i: nat)
    requires i <= |q| && NoParens(q)
    ensures Shaped(Tokens(q, i))
    decreases |q| - i
  {
    var start := SkipSpaces(q, i);
    if start < |q| {
      var end := TokenEnd(q, start);
      var t, rest := q[start..end], Tokens(q, end);
      TokensAreShaped(q, end);
      TokenShape(q, start);
      ShapedCons(t, rest);
      if end == |q| {
        assert SkipSpaces(q, end) == |q|;
      }
    }
  }

  lemma ShapedCons(t: string, rest: seq<string>)
    requires Shaped(rest) && (Bare(t) || Closed(t) || (rest == [] && Unclosed(t)))
    ensures Shaped([t] + rest)
  {
    var all := [t] + rest;
    forall k | 0 <= k < |all|
      ensures Bare(all[k]) || Closed(all[k]) || (k == |all| - 1 && Unclosed(all[k]))
    {
      if k > 0 {
        assert all[k] == rest[k - 1];
      }
    }
  }

  // ----- what a token is rewritten to -----

  predicate HasColumn(t: string) {
    var colon := IndexOf(t, ':');
    0 < colon < |t| - 1 && IsColumn(t[..colon])
  }

  /** How a token is rewritten when it has no parentheses. */
  function Simply(t: string): string
    decreases |t|
  {
    if t == "" || t[0] == '"' then t
    else if HasColumn(t) then t[..IndexOf(t, ':')] + ":" + Simply(t[IndexOf(t, ':') + 1..])
    else if |t| > 1 && t[|t| - 1] == '*' then
      if NeedsQuoting(t[..|t| - 1]) then Quote(t[..|t| - 1]) + "*" else t
    else if NeedsQuoting(t) then Quote(t)
    else t
  }

  lemma {:induction false} RewrittenSimply(t: string)
    requires NoParens(t)
    ensures RewriteToken(t) == Simply(t)
    decreases |t|
  {
    if t != "" {
      assert t[0] != '(' && (|t| > 4 ==> t[4] != '(');
      assert HasSuffix(t, "*") <==> t[|t| - 1] == '*';
      if t[0] != '"' && HasColumn(t) {
        NoParensFrom(t, IndexOf(t, ':') + 1);
        RewrittenSimply(t[IndexOf(t, ':') + 1..]);
      }
    }
  }

  lemma NoParensFrom(t: string, i: nat)
    requires NoParens(t) && i <= |t|
    ensures NoParens(t[i..]) && (NoSpaces(t) ==> NoSpaces(t[i..]))
    ensures NoParens(t[..i]) && (NoSpaces(t) ==> NoSpaces(t[..i]))
  {
    var rest := t[i..];
    assert forall k | 0 <= k < |rest| :: rest[k] == t[i + k];
  }

  lemma {:induction false} DoubledHasNoParens(s: string)
    requires NoParens(s)
    ensures NoParens(Doubled(s)) && (NoSpaces(s) ==> NoSpaces(Doubled(s)))
  {
    if s != "" {
      DoubledHasNoParens(s[1..]);
      assert s[0] != '(' && s[0] != ')';
      assert NoSpaces(s) ==> NoSpaces(s[1..]) && !IsSpace(s[0]);
    }
  }

  lemma QuoteHasNoParens(s: string)
    requires NoParens(s)
    ensures NoParens(Quote(s)) && (NoSpaces(s) ==> NoSpaces(Quote(s))) && Quote(s)[0] == '"'
  {
    DoubledHasNoParens(s);
  }

  lemma ColumnLetters(field: string)
    requires IsColumn(field)
    ensures forall k | 0 <= k < |field| :: WordChar(field[k])
  {}

  lemma ColumnText(t: string)
    requires HasColumn(t)
    ensures var c := IndexOf(t, ':');
            NoParens(t[..c] + ":") && NoSpaces(t[..c] + ":") && WordChar(t[0]) && forall k | 0 <= k < c :: t[k] != ':'
  {
    var c := IndexOf(t, ':');
    var field := t[..c];
    ColumnLetters(field);
    assert t[0] == field[0];
  }

  /** Rewriting keeps out parentheses and spaces, and a second time it changes nothing in a token. */
  lemma {:induction false} SimplyTwice(t: string)
    requires t != "" && NoParens(t)
    ensures var p := Simply(t); p != "" && NoParens(p) && (NoSpaces(t) ==> NoSpaces(p)) && Simply(p) == p
    decreases |t|
  {
    if t[0] != '"' && HasColumn(t) {
      ColumnTwice(t);
    } else if t[0] != '"' {
      NoParensFrom(t, |t| - 1);
      QuoteHasNoParens(t[..|t| - 1]);
      QuoteHasNoParens(t);
    }
  }

  lemma {:induction false} ColumnTwice(t: string)
    requires NoParens(t) && t != "" && t[0] != '"' && HasColumn(t)
    ensures var p := Simply(t);
            p != "" && p[0] == t[0] && NoParens(p) && (NoSpaces(t) ==> NoSpaces(p)) && Simply(p) == p
    decreases |t|, 0
  {
    var c := IndexOf(t, ':');
    var rest := t[c + 1..];
    NoParensFrom(t, c + 1);
    ColumnText(t);
    SimplyTwice(rest);
    SameColumn(t, Simply(rest));
  }

  lemma SameColumn(t: string, r: string)
    requires HasColumn(t) && r != ""
    ensures var c := IndexOf(t, ':'); var p := t[..c] + ":" + r;
            HasColumn(p) && IndexOf(p, ':') == c && p[..c] == t[..c] && p[c + 1..] == r && p[0] == t[0]
  {
    var c := IndexOf(t, ':');
    var p := t[..c] + ":" + r;
    assert p[c] == ':' && forall k | 0 <= k < c :: p[k] == t[k] != ':';
    FirstIs(p, ':', c);
    assert p[..c] == t[..c];
  }

  lemma {:induction false} FirstIs(s: string, c: char, k: nat)
    requires k < |s| && s[k] == c && forall j | 0 <= j < k :: s[j] != c
    ensures IndexOf(s, c) == k
    decreases k
  {
    if k > 0 {
      FirstIs(s[1..], c, k - 1);
    }
  }

  /** The ends of a rewritten token: nothing that trimming would take. */
  lemma {:induction false} SimplyStarts(t: string)
    requires Bare(t) || (t != "" && t[0] == '"')
    ensures Simply(t) != "" && !IsUnicodeSpace(Simply(t)[0])
  {
    if t[0] != '"' && HasColumn(t) {
      ColumnText(t);
    } else if t[0] != '"' {
      assert t[0] in t && (|t| > 1 ==> t[..|t| - 1][0] in t[..|t| - 1]);
    }
  }

  /** The text ends in the same character, or in a quote. */
  predicate EndsLike(p: string, t: string) {
    p != "" && t != "" && (p[|p| - 1] == t[|t| - 1] || p[|p| - 1] == '"')
  }

  lemma {:induction false} SimplyEnds(t: string)
    requires t != ""
    ensures EndsLike(Simply(t), t)
    decreases |t|
  {
    if t[0] != '"' {
      if HasColumn(t) {
        SimplyEnds(t[IndexOf(t, ':') + 1..]);
        ColumnKeepsEnd(t);
      } else {
        WordKeepsEnd(t);
      }
    }
  }

  lemma ColumnKeepsEnd(t: string)
    requires t != "" && t[0] != '"' && HasColumn(t)
    requires EndsLike(Simply(t[IndexOf(t, ':') + 1..]), t[IndexOf(t, ':') + 1..])
    ensures EndsLike(Simply(t), t)
  {
    LastOf(t[..IndexOf(t, ':')] + ":", Simply(t[IndexOf(t, ':') + 1..]));
  }

  lemma WordKeepsEnd(t: string)
    requires t != "" && t[0] != '"' && !HasColumn(t)
    ensures EndsLike(Simply(t), t)
  {
    if Simply(t) != t {
      if |t| > 1 && t[|t| - 1] == '*' {
        LastOf(Quote(t[..|t| - 1]), "*");
      } else {
        LastOf("\"" + Doubled(t), "\"");
      }
    }
  }

  lemma LastOf(a: string, b: string)
    requires b != ""
    ensures (a + b)[|a + b| - 1] == b[|b| - 1]
  {}

  // ----- which tokens a second pass reads as it wrote them -----

  /** Closed quotes one after another, then perhaps a star. */
  predicate QuotedRun(p: string)
    decreases |p|
  {
    p != "" && p[0] == '"'
    && (Closed(p) || (Reach(p) < |p| && (p[Reach(p)..] == "*" || QuotedRun(p[Reach(p)..]))))
  }

  lemma {:induction false} RunIsChain(p: string)
    requires QuotedRun(p)
    ensures Chain(p) && Read(p) != [] && (Read(p) != [p] ==> |Read(p)| > 1)
    ensures forall t | t in Read(p) :: Closed(t) || t == "*"
    decreases |p|
  {
    if Closed(p) {
      ClosedReach(p);
    } else {
      var rest := p[Reach(p)..];
      ChainHead(p);
      if rest == "*" {
        assert Bare(rest) && Read(rest) == [rest];
      } else {
        RunIsChain(rest);
      }
      assert Read(p) == [p[..Reach(p)]] + Read(rest);
    }
  }

  /** What follows an opening quote in a quoted word. */
  lemma {:induction false} QuotedRest(x: string, tail: string)
    requires tail == "" || tail == "*"
    ensures QuotedRun(Quote(x) + tail)
    ensures Closed(Quote(x) + tail) <==> '"' !in x && tail == ""
    decreases |x|
  {
    var p, k := Quote(x) + tail, IndexOf(x, '"');
    DoubledSplit(x);
    if k == |x| {
      assert p == "\"" + x + "\"" + tail;
      QuotedPlain(x, tail);
    } else {
      var rest := x[k + 1..];
      QuotedRest(rest, tail);
      Requote(x[..k], Doubled(rest), tail);
      QuotedHead(x[..k], Quote(rest) + tail);
      assert x[k] in x;
    }
  }

  lemma Requote(a: string, d: string, tail: string)
    ensures ("\"" + (a + "\"\"" + d) + "\"") + tail == "\"" + a + "\"" + (("\"" + d + "\"") + tail)
  {
    assert "\"\"" == "\"" + "\"";
  }

  lemma {:induction false} DoubledSplit(x: string)
    ensures var k := IndexOf(x, '"');
            Doubled(x) == if k == |x| then x else x[..k] + "\"\"" + Doubled(x[k + 1..])
  {
    if x != "" && x[0] != '"' {
      var rest, k := x[1..], IndexOf(x, '"');
      DoubledSplit(rest);
      assert x == [x[0]] + rest && Doubled(x) == [x[0]] + Doubled(rest);
      if k < |x| {
        assert x[..k] == [x[0]] + rest[..k - 1] && rest[k..] == x[k + 1..];
        Prepend(x[0], rest[..k - 1], "\"\"", Doubled(x[k + 1..]));
      }
    }
  }

  lemma Prepend(c: char, a: string, b: string, d: string)
    ensures [c] + (a + b + d) == ([c] + a) + b + d
  {}

  lemma BetweenQuotes(x: string, tail: string)
    ensures var p, e := "\"" + x + "\"" + tail, |x| + 2;
            |p| == e + |tail| && p[0] == '"' && p[e - 1] == '"' && p[e..] == tail
            && forall k | 1 <= k < e - 1 :: p[k] == x[k - 1]
  {}

  lemma QuotedPlain(x: string, tail: string)
    requires IndexOf(x, '"') == |x| && (tail == "" || tail == "*")
    ensures var p := "\"" + x + "\"" + tail; QuotedRun(p) && (Closed(p) <==> tail == "") && '"' !in x
  {
    var p, e := "\"" + x + "\"" + tail, |x| + 2;
    BetweenQuotes(x, tail);
    if tail == "" {
      assert Closed(p);
    } else {
      QuoteEndIs(p, 1, e - 1);
      assert p[e..] == "*" && p[|p| - 1] == p[e..][0] == '*';
    }
  }

  lemma QuotedHead(head: string, rest: string)
    requires (forall k | 0 <= k < |head| :: head[k] != '"') && QuotedRun(rest)
    ensures var p := "\"" + head + "\"" + rest; QuotedRun(p) && !Closed(p)
  {
    var p, e := "\"" + head + "\"" + rest, |head| + 2;
    BetweenQuotes(head, rest);
    QuoteEndIs(p, 1, e - 1);
  }

  /** No two pieces in a row are operands, so gluing them again inserts nothing. */
  lemma {:induction false} GluingTwiceIsOnce(tokens: seq<string>, words: seq<string>, glue: bool)
    requires SameKinds(tokens, words)
    ensures var pieces := Glued(tokens, words, glue); Glued(pieces, pieces, glue) == pieces
    decreases |tokens|
  {
    if tokens != [] {
      var operator := IsOperator(tokens[0]);
      var word, rest := words[0], Glued(tokens[1..], words[1..], !operator);
      GluingTwiceIsOnce(tokens[1..], words[1..], !operator);
      GluedCons(word, rest);
      if glue && !operator {
        assert Glued(tokens, words, glue) == ["OR"] + ([word] + rest);
        GluedCons("OR", [word] + rest);
      } else {
        assert Glued(tokens, words, glue) == [word] + rest;
      }
    }
  }

  lemma GluedCons(word: string, rest: seq<string>)
    ensures forall glue: bool :: Glued([word] + rest, [word] + rest, glue)
              == if glue && !IsOperator(word) then ["OR"] + ([word] + Glued(rest, rest, true))
                 else [word] + Glued(rest, rest, !IsOperator(word))
  {
    assert ([word] + rest)[0] == word && ([word] + rest)[1..] == rest;
  }

  /** The tokens that a second pass reads as the first one wrote them. */
  predicate Stable(t: string) {
    t == "" || t[0] == '"' || HasColumn(t)
    || if |t| > 1 && t[|t| - 1] == '*' then !NeedsQuoting(t[..|t| - 1]) else '"' !in t
  }

  /** Rewriting what was read gives text that is read as it stands. */
  ghost predicate Settles(u: string) {
    var w := RewriteToken(u);
    Read(w) == [w] && if Unclosed(u) then w == u else Chain(w)
  }

  lemma QuotedSettles(u: string)
    requires Closed(u) || Unclosed(u) || u == "*"
    ensures Settles(u)
  {
    if u == "*" {
      assert NeedsQuoting(u) by {
        assert u[0] in u;
      }
      assert IndexOf(u, ':') == 1;
      RewrittenSimply(u);
      assert Doubled("") == "" && u[1..] == "";
      assert Simply(u) == "\"*\"";
      ClosedReach("\"*\"");
    } else if Closed(u) {
      ClosedReach(u);
    } else {
      NoQuoteAhead(u, 1);
    }
  }

  /** A rewritten token is read whole if and only if the token is stable. */
  lemma StableIff(t: string)
    requires NoParens(t) && (Bare(t) || Closed(t) || Unclosed(t))
    ensures var p := RewriteToken(t);
            (if Unclosed(t) then p == t else Chain(p))
            && (Stable(t) ==> Read(p) == [p] && RewriteToken(p) == p)
            && (!Stable(t) ==> QuotedRun(p) && Read(p) != [p])
            && forall u | u in Read(p) :: Settles(u)
  {
    var p := Simply(t);
    RewrittenSimply(t);
    SimplyTwice(t);
    RewrittenSimply(p);
    if t[0] == '"' {
      QuotedSettles(t);
      if Closed(t) {
        ClosedReach(t);
      } else {
        NoQuoteAhead(t, 1);
      }
    } else if HasColumn(t) {
      ColumnTwice(t);
      ColumnText(t);
      assert Bare(p);
    } else if |t| > 1 && t[|t| - 1] == '*' {
      if NeedsQuoting(t[..|t| - 1]) {
        RunSettles(t[..|t| - 1], "*");
      } else {
        assert Read(p) == [p];
      }
    } else if NeedsQuoting(t) {
      RunSettles(t, "");
      assert Quote(t) + "" == Quote(t);
    } else {
      assert forall k | 0 <= k < |t| :: t[k] in t;
      assert Read(p) == [p];
    }
  }

  lemma RunSettles(x: string, tail: string)
    requires tail == "" || tail == "*"
    ensures var p := Quote(x) + tail;
            QuotedRun(p) && Chain(p) && (Read(p) == [p] <==> '"' !in x && tail == "")
            && forall u | u in Read(p) :: Settles(u)
  {
    var p := Quote(x) + tail;
    QuotedRest(x, tail);
    RunIsChain(p);
    if Closed(p) {
      ClosedReach(p);
    } else {
      RunIsLong(p);
    }
    forall u | u in Read(p)
      ensures Settles(u)
    {
      QuotedSettles(u);
    }
  }

  lemma RunIsLong(p: string)
    requires QuotedRun(p) && !Closed(p)
    ensures Read(p) != [p]
  {
    var rest := p[Reach(p)..];
    assert Read(p) == [p[..Reach(p)]] + Read(rest);
    assert |p[..Reach(p)]| < |p|;
  }

  // ----- the whole query, twice -----

  ghost predicate AllWhole(pieces: seq<string>) {
    forall p | p in pieces :: Read(p) == [p]
  }

  lemma {:induction false} WholeReads(pieces: seq<string>)
    requires AllWhole(pieces)
    ensures ReadAll(pieces) == pieces
  {
    if pieces != [] {
      WholeReads(pieces[1..]);
      assert pieces == [pieces[0]] + pieces[1..];
    }
  }

  lemma {:induction false} GluedPieces(tokens: seq<string>, words: seq<string>, glue: bool)
    requires |tokens| == |words| && Joinable(words)
    ensures Joinable(Glued(tokens, words, glue)) && |Glued(tokens, words, glue)| >= |words|
    ensures forall w | w in words :: w in Glued(tokens, words, glue)
    ensures forall p | p in Glued(tokens, words, glue) :: p in words || p == "OR"
    decreases |tokens|
  {
    if tokens != [] {
      var operator := IsOperator(tokens[0]);
      assert words == [words[0]] + words[1..];
      JoinableRest(words);
      GluedPieces(tokens[1..], words[1..], !operator);
      var rest := Glued(tokens[1..], words[1..], !operator);
      if words[1..] == [] {
        assert rest == [];
      }
      JoinableCons(words[0], rest);
      if glue && !operator {
        OrIsWhole();
        JoinableCons("OR", [words[0]] + rest);
      }
    }
  }

  lemma JoinableRest(pieces: seq<string>)
    requires Joinable(pieces) && pieces != []
    ensures Joinable(pieces[1..]) && (Chain(pieces[0]) || (pieces[1..] == [] && Unclosed(pieces[0])))
  {
    assert forall k | 0 <= k < |pieces[1..]| :: pieces[1..][k] == pieces[k + 1];
  }

  lemma JoinableCons(p: string, rest: seq<string>)
    requires Joinable(rest) && (Chain(p) || (rest == [] && Unclosed(p)))
    ensures Joinable([p] + rest)
  {
    var all := [p] + rest;
    forall k | 0 <= k < |all|
      ensures Chain(all[k]) || (k == |all| - 1 && Unclosed(all[k]))
    {
      if k > 0 {
        assert all[k] == rest[k - 1];
      }
    }
  }

  lemma OrIsWhole()
    ensures Chain("OR") && Read("OR") == ["OR"] && RewriteToken("OR") == "OR" && Settles("OR")
  {
    OperatorIsFixed("OR");
    assert Bare("OR");
  }

  /** Chains are read as bare and closed texts, so only the last text of a list can be unclosed. */
  lemma {:induction false} ChainShapes(p: string)
    requires Chain(p)
    ensures Read(p) != [] && forall u | u in Read(p) :: Bare(u) || Closed(u)
    decreases |p|
  {
    if Closed(p) {
      ClosedReach(p);
    } else if !Bare(p) {
      ChainHead(p);
      ChainShapes(p[Reach(p)..]);
    }
  }

  lemma {:induction false} ReadAllShaped(pieces: seq<string>)
    requires Joinable(pieces)
    ensures Shaped(ReadAll(pieces)) && |ReadAll(pieces)| >= |pieces|
    decreases |pieces|
  {
    if pieces != [] {
      var rest := pieces[1..];
      JoinableRest(pieces);
      ReadAllShaped(rest);
      if Chain(pieces[0]) {
        ChainShapes(pieces[0]);
        ShapedConcat(Read(pieces[0]), ReadAll(rest));
      } else {
        NoQuoteAhead(pieces[0], 1);
        ShapedCons(pieces[0], []);
        assert ReadAll(pieces) == [pieces[0]] + [] by {
          assert ReadAll(rest) == [];
        }
      }
    }
  }

  lemma {:induction false} ShapedConcat(a: seq<string>, b: seq<string>)
    requires (forall u | u in a :: Bare(u) || Closed(u)) && Shaped(b)
    ensures Shaped(a + b)
    decreases |a|
  {
    if a == [] {
      assert a + b == b;
    } else {
      ShapedConcat(a[1..], b);
      ShapedCons(a[0], a[1..] + b);
      assert a + b == [a[0]] + (a[1..] + b);
    }
  }

  ghost predicate AllSettle(texts: seq<string>) {
    forall u | u in texts :: Settles(u)
  }

  lemma {:induction false} ReadAllSettles(pieces: seq<string>)
    requires forall p | p in pieces :: AllSettle(Read(p))
    ensures AllSettle(ReadAll(pieces))
  {
    if pieces != [] {
      ReadAllSettles(pieces[1..]);
      assert pieces[0] in pieces;
    }
  }

  /** Texts that settle, once rewritten and glued, are read as they stand. */
  lemma SettledRead(tokens: seq<string>)
    requires tokens != [] && Shaped(tokens) && AllSettle(tokens)
    ensures Tokens(JoinOn(Pieces(tokens), ' '), 0) == Pieces(tokens)
  {
    var words, pieces := Words(tokens), Pieces(tokens);
    forall k | 0 <= k < |words|
      ensures (Chain(words[k]) || (k == |words| - 1 && Unclosed(words[k]))) && Read(words[k]) == [words[k]]
    {
      assert tokens[k] in tokens && Settles(tokens[k]);
    }
    GluedPieces(tokens, words, false);
    OrIsWhole();
    WholeReads(pieces);
    JoinedIsRead(pieces);
  }

  lemma {:induction false} GluedGrows(tokens: seq<string>, words: seq<string>, glue: bool, k: int)
    requires |tokens| == |words|
    ensures |Glued(tokens, words, glue)| >= |tokens|
    ensures glue && tokens != [] && !IsOperator(tokens[0]) ==> |Glued(tokens, words, glue)| > |tokens|
    ensures 0 <= k < |tokens| - 1 && !IsOperator(tokens[k]) && !IsOperator(tokens[k + 1]) ==>
              |Glued(tokens, words, glue)| > |tokens|
    decreases |tokens|
  {
    if tokens != [] {
      GluedGrows(tokens[1..], words[1..], !IsOperator(tokens[0]), k - 1);
    }
  }

  /** Where a piece is read as several texts, two of them stand side by side. */
  lemma {:induction false} SideBySide(pieces: seq<string>, p: string) returns (k: nat)
    requires p in pieces && |Read(p)| > 1 && forall u | u in Read(p) :: !IsOperator(u)
    ensures k < |ReadAll(pieces)| - 1 && !IsOperator(ReadAll(pieces)[k]) && !IsOperator(ReadAll(pieces)[k + 1])
    decreases |pieces|
  {
    var here, rest := Read(pieces[0]), ReadAll(pieces[1..]);
    if pieces[0] == p {
      k := 0;
      assert ReadAll(pieces)[0] == here[0] && ReadAll(pieces)[1] == here[1];
      assert here[0] in Read(p) && here[1] in Read(p);
    } else {
      var j := SideBySide(pieces[1..], p);
      k := |here| + j;
      assert ReadAll(pieces) == here + rest;
    }
  }

  lemma RunHasNoOperator(p: string)
    requires QuotedRun(p) && Read(p) != [p]
    ensures |Read(p)| > 1 && forall u | u in Read(p) :: !IsOperator(u)
  {
    RunIsChain(p);
    forall u | u in Read(p)
      ensures !IsOperator(u)
    {
      assert u[0] == '"' || u[0] == '*';
    }
  }

  /** What one pass writes, and what a second pass reads. */
  lemma FirstPass(tokens: seq<string>)
    requires tokens != [] && Shaped(tokens) && Kept(tokens)
    ensures var pieces := Pieces(tokens); var again := ReadAll(pieces);
            Joinable(Words(tokens)) && Joinable(pieces) && Tokens(JoinOn(pieces, ' '), 0) == again && again != []
            && Tokens(JoinOn(Pieces(again), ' '), 0) == Pieces(again)
  {
    var words, pieces := Words(tokens), Pieces(tokens);
    forall k | 0 <= k < |tokens|
      ensures Chain(words[k]) || (k == |words| - 1 && Unclosed(words[k]))
      ensures AllSettle(Read(words[k]))
    {
      assert tokens[k] in tokens;
      StableIff(tokens[k]);
    }
    GluedPieces(tokens, words, false);
    OrIsWhole();
    JoinedIsRead(pieces);
    ReadAllShaped(pieces);
    forall p | p in pieces
      ensures AllSettle(Read(p))
    {
      if p != "OR" {
        var k :| 0 <= k < |words| && words[k] == p;
      }
    }
    ReadAllSettles(pieces);
    SettledRead(ReadAll(pieces));
  }

  /** The second pass changes nothing if and only if every token was stable. */
  lemma SecondPass(tokens: seq<string>)
    requires tokens != [] && Shaped(tokens) && Kept(tokens)
    ensures var first := JoinOn(Pieces(tokens), ' '); var again := Tokens(first, 0);
            again != [] && (JoinOn(Pieces(again), ' ') == first <==> forall t | t in tokens :: Stable(t))
  {
    FirstPass(tokens);
    if forall t | t in tokens :: Stable(t) {
      StablePass(tokens);
    } else {
      var t :| t in tokens && !Stable(t);
      UnstablePass(tokens, t);
    }
  }

  lemma StablePass(tokens: seq<string>)
    requires Shaped(tokens) && Kept(tokens) && (forall t | t in tokens :: Stable(t)) && Joinable(Words(tokens))
    ensures ReadAll(Pieces(tokens)) == Pieces(tokens) && Pieces(Pieces(tokens)) == Pieces(tokens)
  {
    var words, pieces := Words(tokens), Pieces(tokens);
    forall k | 0 <= k < |tokens|
      ensures Read(words[k]) == [words[k]] && RewriteToken(words[k]) == words[k]
    {
      assert tokens[k] in tokens;
      StableIff(tokens[k]);
    }
    GluedPieces(tokens, words, false);
    OrIsWhole();
    WholeReads(pieces);
    FixedWords(pieces);
    WordsKeepKinds(tokens);
    GluingTwiceIsOnce(tokens, words, false);
  }

  lemma FixedWords(pieces: seq<string>)
    requires forall p | p in pieces :: RewriteToken(p) == p
    ensures Words(pieces) == pieces
  {
    assert forall k | 0 <= k < |pieces| :: pieces[k] in pieces;
  }

  lemma UnstablePass(tokens: seq<string>, t: string)
    requires Shaped(tokens) && Kept(tokens) && t in tokens && !Stable(t) && Joinable(Words(tokens))
    requires var again := ReadAll(Pieces(tokens)); Tokens(JoinOn(Pieces(again), ' '), 0) == Pieces(again)
    requires Tokens(JoinOn(Pieces(tokens), ' '), 0) == ReadAll(Pieces(tokens))
    ensures JoinOn(Pieces(ReadAll(Pieces(tokens))), ' ') != JoinOn(Pieces(tokens), ' ')
  {
    var pieces := Pieces(tokens);
    var again := ReadAll(pieces);
    var i :| 0 <= i < |tokens| && tokens[i] == t;
    var p := Words(tokens)[i];
    StableIff(t);
    GluedPieces(tokens, Words(tokens), false);
    assert p in pieces;
    RunHasNoOperator(p);
    var k := SideBySide(pieces, p);
    GluedGrows(again, Words(again), false, k);
  }

  // ----- trimming in between -----

  lemma {:induction false} TrimLeftKeeps(s: string)
    requires NoParens(s)
    ensures NoParens(TrimLeft(s))
  {
    if s != "" && IsUnicodeSpace(s[0]) {
      NoParensFrom(s, 1);
      TrimLeftKeeps(s[1..]);
    }
  }

  lemma {:induction false} TrimKeeps(s: string)
    requires NoParens(s)
    ensures var t := TrimSpace(s);
            NoParens(t) && (t != "" ==> !IsUnicodeSpace(t[0]) && !IsUnicodeSpace(t[|t| - 1]))
    decreases |s|
  {
    var l := TrimLeft(s);
    TrimLeftKeeps(s);
    if l != "" && IsUnicodeSpace(l[|l| - 1]) {
      NoParensFrom(l, |l| - 1);
      TrimKeeps(l[..|l| - 1]);
    }
  }

  ghost predicate Kept(tokens: seq<string>) {
    forall t | t in tokens :: t != "" && NoParens(t)
  }

  lemma {:induction false} TokensKeep(q: string, i: nat)
    requires i <= |q| && NoParens(q)
    ensures Kept(Tokens(q, i))
    decreases |q| - i
  {
    var start := SkipSpaces(q, i);
    if start < |q| {
      var end := TokenEnd(q, start);
      TokensKeep(q, end);
      NoParensFrom(q, end);
      NoParensFrom(q[..end], start);
      assert q[..end][start..] == q[start..end];
      assert Tokens(q, i) == [q[start..end]] + Tokens(q, end);
    }
  }

  /** The last token ends where a trimmed query ends. */
  lemma {:induction false} LastTokenEnds(q: string, i: nat)
    requires i < |q| && !IsSpace(q[|q| - 1])
    ensures var tokens := Tokens(q, i);
            tokens != [] && var t := tokens[|tokens| - 1]; t != "" && t[|t| - 1] == q[|q| - 1]
    decreases |q| - i
  {
    var start := SkipSpaces(q, i);
    var end := TokenEnd(q, start);
    assert Tokens(q, i) == [q[start..end]] + Tokens(q, end);
    if end < |q| {
      LastTokenEnds(q, end);
    } else {
      assert SkipSpaces(q, end) == |q|;
      assert Tokens(q, end) == [];
    }
  }

  lemma {:induction false} GluedEnds(tokens: seq<string>, words: seq<string>, glue: bool)
    requires |tokens| == |words| && tokens != []
    ensures var g := Glued(tokens, words, glue);
            g != [] && g[|g| - 1] == words[|words| - 1] && (!glue ==> g[0] == words[0])
    decreases |tokens|
  {
    var rest := Glued(tokens[1..], words[1..], !IsOperator(tokens[0]));
    if |tokens| > 1 {
      GluedEnds(tokens[1..], words[1..], !IsOperator(tokens[0]));
    } else {
      assert rest == [];
    }
  }

  lemma {:induction false} JoinEnds(pieces: seq<string>)
    requires pieces != [] && pieces[0] != "" && pieces[|pieces| - 1] != ""
    ensures var j := JoinOn(pieces, ' '); var last := pieces[|pieces| - 1];
            j != "" && j[0] == pieces[0][0] && j[|j| - 1] == last[|last| - 1]
  {
    if |pieces| > 1 {
      JoinCons(pieces);
      JoinTail(pieces[1..]);
    }
  }

  lemma {:induction false} JoinTail(pieces: seq<string>)
    requires pieces != [] && pieces[|pieces| - 1] != ""
    ensures var j := JoinOn(pieces, ' '); var last := pieces[|pieces| - 1]; j != "" && j[|j| - 1] == last[|last| - 1]
  {
    if |pieces| > 1 {
      JoinCons(pieces);
      JoinTail(pieces[1..]);
    }
  }

  lemma WordEnds(tokens: seq<string>)
    requires tokens != [] && Shaped(tokens) && Kept(tokens)
    requires var last := tokens[|tokens| - 1]; last != "" && !IsUnicodeSpace(last[|last| - 1])
    ensures var words := Words(tokens); var w := words[|words| - 1];
            words[0] != "" && !IsUnicodeSpace(words[0][0]) && w != "" && !IsUnicodeSpace(w[|w| - 1])
  {
    FirstShape(tokens);
    WordStarts(tokens[0]);
    LastKept(tokens);
    WordEndsLike(tokens[|tokens| - 1]);
  }

  lemma FirstShape(tokens: seq<string>)
    requires tokens != [] && Shaped(tokens) && Kept(tokens)
    ensures NoParens(tokens[0]) && (Bare(tokens[0]) || (tokens[0] != "" && tokens[0][0] == '"'))
  {
    assert tokens[0] in tokens;
  }

  lemma LastKept(tokens: seq<string>)
    requires tokens != [] && Kept(tokens)
    ensures NoParens(tokens[|tokens| - 1]) && tokens[|tokens| - 1] != ""
  {
    assert tokens[|tokens| - 1] in tokens;
  }

  lemma WordStarts(t: string)
    requires NoParens(t) && (Bare(t) || (t != "" && t[0] == '"'))
    ensures RewriteToken(t) != "" && !IsUnicodeSpace(RewriteToken(t)[0])
  {
    RewrittenSimply(t);
    SimplyStarts(t);
  }

  lemma WordEndsLike(t: string)
    requires NoParens(t) && t != "" && !IsUnicodeSpace(t[|t| - 1])
    ensures RewriteToken(t) != "" && !IsUnicodeSpace(RewriteToken(t)[|RewriteToken(t)| - 1])
  {
    RewrittenSimply(t);
    SimplyEnds(t);
  }

  lemma PiecesEnd(tokens: seq<string>)
    requires tokens != [] && Shaped(tokens) && Kept(tokens)
    requires var last := tokens[|tokens| - 1]; last != "" && !IsUnicodeSpace(last[|last| - 1])
    ensures var r := JoinOn(Pieces(tokens), ' '); r != "" && !IsUnicodeSpace(r[0]) && !IsUnicodeSpace(r[|r| - 1])
  {
    var words := Words(tokens);
    WordEnds(tokens);
    PieceEnds(tokens);
    JoinedEnds(Pieces(tokens), words[0], words[|words| - 1]);
  }

  lemma PieceEnds(tokens: seq<string>)
    requires tokens != []
    ensures var pieces, words := Pieces(tokens), Words(tokens);
            pieces != [] && pieces[0] == words[0] && pieces[|pieces| - 1] == words[|words| - 1]
  {
    GluedEnds(tokens, Words(tokens), false);
  }

  lemma JoinedEnds(pieces: seq<string>, first: string, last: string)
    requires pieces != [] && pieces[0] == first != "" && pieces[|pieces| - 1] == last != ""
    requires !IsUnicodeSpace(first[0]) && !IsUnicodeSpace(last[|last| - 1])
    ensures var r := JoinOn(pieces, ' '); r != "" && !IsUnicodeSpace(r[0]) && !IsUnicodeSpace(r[|r| - 1])
  {
    JoinEnds(pieces);
  }

  /** Trimming does nothing to a rewritten query. */
  lemma PiecesTrimmed(tokens: seq<string>)
    requires tokens != [] && Shaped(tokens) && Kept(tokens)
    requires var last := tokens[|tokens| - 1]; last != "" && !IsUnicodeSpace(last[|last| - 1])
    ensures var r := JoinOn(Pieces(tokens), ' '); r != "" && TrimSpace(r) == r
  {
    PiecesEnd(tokens);
    TrimIdle(JoinOn(Pieces(tokens), ' '));
  }

  /**
   For every query without parentheses: rewriting it twice is rewriting it once if and only if
   each token begins with a quote, or names a column, or is neither a word with a quote inside nor
   a star behind text that needs quotes.
  */
  lemma RewritingTwiceIsOnceIff(q: string)
    requires NoParens(q)
    ensures Rewritten(Rewritten(q)) == Rewritten(q) <==> forall t | t in Tokens(TrimSpace(q), 0) :: Stable(t)
  {
    var t := TrimSpace(q);
    if t != "" {
      TrimmedTokens(q);
      PiecesTrimmed(Tokens(t, 0));
      SecondPass(Tokens(t, 0));
    }
  }

  /** The tokens of a trimmed query that is not empty. */
  lemma TrimmedTokens(q: string)
    requires NoParens(q) && TrimSpace(q) != ""
    ensures var tokens := Tokens(TrimSpace(q), 0);
            tokens != [] && Shaped(tokens) && Kept(tokens)
            && var last := tokens[|tokens| - 1]; last != "" && !IsUnicodeSpace(last[|last| - 1])
  {
    TrimKeeps(q);
    TokensOfTrimmed(TrimSpace(q));
  }

  lemma TokensOfTrimmed(t: string)
    requires NoParens(t) && t != "" && !IsUnicodeSpace(t[|t| - 1])
    ensures var tokens := Tokens(t, 0);
            tokens != [] && Shaped(tokens) && Kept(tokens)
            && var last := tokens[|tokens| - 1]; last != "" && last[|last| - 1] == t[|t| - 1]
  {
    LastTokenEnds(t, 0);
    TokensKeep(t, 0);
    TokensAreShaped(t, 0);
  }

  lemma TrimIdle(s: string)
    requires s != "" && !IsUnicodeSpace(s[0]) && !IsUnicodeSpace(s[|s| - 1])
    ensures TrimSpace(s) == s
  {}

  predicate Special(c: char) {
    c == '"' || c == '(' || c == ')' || c == '*' || c == ':'
  }

  /** In particular queries without quote, parenthesis, star and colon never change again. */
  lemma RewritingTwiceIsOnce(q: string)
    requires forall k | 0 <= k < |q| :: !Special(q[k])
    ensures Rewritten(Rewritten(q)) == Rewritten(q)
  {
    TrimKeepsPlain(q);
    PlainTokens(TrimSpace(q), 0);
    RewritingTwiceIsOnceIff(q);
  }

  predicate Plain(s: string) {
    forall k | 0 <= k < |s| :: !Special(s[k])
  }

  lemma {:induction false} TrimKeepsPlain(s: string)
    requires Plain(s)
    ensures Plain(TrimSpace(s))
    decreases |s|
  {
    var l := TrimLeft(s);
    TrimLeftKeepsPlain(s);
    if l != "" && IsUnicodeSpace(l[|l| - 1]) {
      TrimKeepsPlain(l[..|l| - 1]);
    }
  }

  lemma {:induction false} TrimLeftKeepsPlain(s: string)
    requires Plain(s)
    ensures Plain(TrimLeft(s))
  {
    if s != "" && IsUnicodeSpace(s[0]) {
      TrimLeftKeepsPlain(s[1..]);
    }
  }

  lemma {:induction false} PlainTokens(q: string, i: nat)
    requires i <= |q| && Plain(q)
    ensures forall t | t in Tokens(q, i) :: Stable(t)
    decreases |q| - i
  {
    var start := SkipSpaces(q, i);
    if start < |q| {
      var end := TokenEnd(q, start);
      var t := q[start..end];
      PlainTokens(q, end);
      assert forall k | 0 <= k < |t| :: t[k] == q[start + k] && !Special(t[k]);
      assert Tokens(q, i) == [t] + Tokens(q, end);
    }
  }

  lemma OneToken(t: string)
    requires Bare(t) && !IsUnicodeSpace(t[0]) && !IsUnicodeSpace(t[|t| - 1])
    ensures TrimSpace(t) == t && Tokens(t, 0) == [t]
  {
    assert t[0..|t|] == t;
    BareIsRead(t, 0, t);
    assert Tokens(t, |t|) == [];
  }

  lemma UnstableWord(t: string)
    requires Bare(t) && !IsUnicodeSpace(t[0]) && !IsUnicodeSpace(t[|t| - 1]) && !Stable(t)
    ensures Rewritten(Rewritten(t)) != Rewritten(t)
  {
    OneToken(t);
    assert t in [t];
    RewritingTwiceIsOnceIff(t);
  }

  lemma AQuoteIsUnstable(q: string)
    requires q == "a\"b"
    ensures Bare(q) && !IsUnicodeSpace(q[0]) && !IsUnicodeSpace(q[|q| - 1]) && !Stable(q)
  {
    assert q[1] in q;
    assert IndexOf(q, ':') == 3;
  }

  lemma AStarIsUnstable(q: string)
    requires q == "a-b*"
    ensures Bare(q) && !IsUnicodeSpace(q[0]) && !IsUnicodeSpace(q[|q| - 1]) && !Stable(q)
  {
    assert q[..3][1] == '-' && q[..3][1] in q[..3];
    assert IndexOf(q, ':') == 4;
  }

  /** Two that do change: a word with a quote inside, and a star behind a hyphen. */
  lemma RewritingTwiceIsNotOnce(quote: string, star: string)
    requires quote == "a\"b" && star == "a-b*"
    ensures Rewritten(Rewritten(quote)) != Rewritten(quote) && Rewritten(Rewritten(star)) != Rewritten(star)
  {
    AQuoteIsUnstable(quote);
    AStarIsUnstable(star);
    UnstableWord(quote);
    UnstableWord(star);
  }
}
