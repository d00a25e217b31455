/** The command-line tokenizer: variables (`$name`), double-quoted strings
    and parenthesised sub-commands are cut out of the input line and
    replaced by numbered placeholders such as `%var%0%var%`, then the line
    is split on spaces (js/commands.js, extractVars, extractQuotes,
    extractParens and tokenizeString). */
module Tokenizer {
  import opened Wrappers
  import opened JsString

  datatype Kind = Var | Quote | Paren

  function KindName(kind: Kind): string
  {
    match kind
    case Var => "var"
    case Quote => "quote"
    case Paren => "paren"
  }

  /** The placeholder for the `index`-th token of a kind, e.g. `%paren%3%paren%`. */
  function Placeholder(kind: Kind, index: nat): string
  {
    "%" + KindName(kind) + "%" + NatToString(index) + "%" + KindName(kind) + "%"
  }

  /** Placeholders are made of `%`, lower-case letters and digits only. */
  predicate PlaceholderText(p: string)
  {
    forall i :: 0 <= i < |p| ==> p[i] == '%' || 'a' <= p[i] <= 'z' || IsDigit(p[i])
  }

  lemma PlaceholderTextConcat(a: string, b: string)
    requires PlaceholderText(a) && PlaceholderText(b)
    ensures PlaceholderText(a + b)
  {
  }

  lemma PlaceholderIsText(kind: Kind, index: nat)
    ensures PlaceholderText(Placeholder(kind, index))
  {
    var digits := NatToString(index);
    NatToStringDigits(index);
    var name := KindName(kind);
    assert PlaceholderText(name);
    PlaceholderTextConcat(name, "%");
    PlaceholderTextConcat(digits, "%");
    PlaceholderTextConcat(digits + "%", name + "%");
    PlaceholderTextConcat("%", name + "%");
    PlaceholderTextConcat("%" + name + "%", digits + "%" + name + "%");
    assert Placeholder(kind, index) == ("%" + name + "%") + (digits + "%" + name + "%");
  }

  lemma PlaceholderTextLacks(p: string, c: char)
    requires PlaceholderText(p)
    requires c != '%' && !('a' <= c <= 'z') && !IsDigit(c)
    ensures Lacks(p, c)
  {
  }

  /** The characters the tokenizer looks for; no placeholder holds one. */
  predicate Special(c: char)
  {
    c == '(' || c == ')' || c == '"' || c == '$' || c == ' '
  }

  /** No placeholder holds a special character. */
  lemma PlaceholderCount(kind: Kind, index: nat, c: char)
    requires Special(c)
    ensures CountChar(Placeholder(kind, index), c) == 0
  {
    PlaceholderIsText(kind, index);
    PlaceholderTextLacks(Placeholder(kind, index), c);
    CountCharZero(Placeholder(kind, index), c);
  }

  /** One extracted token: its kind, its number among the tokens of that
      kind, and the text it stands for, without its `$`, quotes or
      parentheses. The placeholder it left in the line follows from the
      kind and the number. */
  datatype Token = Token(kind: Kind, number: nat, text: string)
  {
    /** The placeholder this token left in the line (its `replace`). */
    function Replace(): string
    {
      Placeholder(kind, number)
    }
  }

  datatype Extracted = Extracted(text: string, tokens: seq<Token>)

  datatype Tokenized = Tokenized(tokens: seq<Token>, text: string, args: seq<string>)

  // ---------------------------------------------------------------------
  // The three regular expressions, as scanners returning the matched
  // texts from left to right, as `String.prototype.match` with a global
  // pattern does.

  /** The end of the run of `\w` characters that starts at `i`. */
  function WordEnd(s: string, i: nat): (e: nat)
    requires i <= |s|
    decreases |s| - i
    ensures i <= e <= |s|
  {
    if i < |s| && IsWordChar(s[i]) then WordEnd(s, i + 1) else i
  }

  /** The matches of `/\$\w+/g` at or after `i`. */
  function VarMatches(s: string, i: nat): seq<string>
    requires i <= |s|
    decreases |s| - i
  {
    if i + 1 >= |s| then []
    else if s[i] == '$' && IsWordChar(s[i + 1]) then
      var e := WordEnd(s, i + 1);
      [s[i..e]] + VarMatches(s, e)
    else VarMatches(s, i + 1)
  }

  /** Where the lazy `.*?"` that follows an opening quote stops: the first
      `"` at or after `k`, provided no line terminator comes before it. */
  function QuoteClose(s: string, k: nat): (r: Option<nat>)
    requires k <= |s|
    decreases |s| - k
    ensures r.Some? ==> k <= r.value < |s|
  {
    if k == |s| || IsLineTerminator(s[k]) then None
    else if s[k] == '"' then Some(k)
    else QuoteClose(s, k + 1)
  }

  /** The matches of `/".*?"/g` at or after `i`. */
  function QuoteMatches(s: string, i: nat): seq<string>
    requires i <= |s|
    decreases |s| - i
  {
    if i >= |s| then []
    else if s[i] == '"' then
      match QuoteClose(s, i + 1)
      case Some(c) => [s[i..c + 1]] + QuoteMatches(s, c + 1)
      case None => QuoteMatches(s, i + 1)
    else QuoteMatches(s, i + 1)
  }

  /** Where the lazy `[^(]*?\)` that follows an opening parenthesis stops:
      the first `)` at or after `k`, provided no `(` comes before it. */
  function ParenClose(s: string, k: nat): (r: Option<nat>)
    requires k <= |s|
    decreases |s| - k
    ensures r.Some? ==> k <= r.value < |s|
  {
    if k == |s| || s[k] == '(' then None
    else if s[k] == ')' then Some(k)
    else ParenClose(s, k + 1)
  }

  /** The matches of `/\([^(]*?\)/g` at or after `i`: innermost groups. */
  function ParenMatches(s: string, i: nat): seq<string>
    requires i <= |s|
    decreases |s| - i
  {
    if i >= |s| then []
    else if s[i] == '(' then
      match ParenClose(s, i + 1)
      case Some(c) => [s[i..c + 1]] + ParenMatches(s, c + 1)
      case None => ParenMatches(s, i + 1)
    else ParenMatches(s, i + 1)
  }

  /** Word characters only (possibly none). */
  predicate AllWord(t: string)
  {
    forall m :: 0 <= m < |t| ==> IsWordChar(t[m])
  }

  /** A variable name: one or more word characters. */
  predicate IsWord(t: string)
  {
    |t| >= 1 && AllWord(t)
  }

  /** No line terminator. */
  predicate OneLine(t: string)
  {
    forall m :: 0 <= m < |t| ==> !IsLineTerminator(t[m])
  }

  /** The text between the first and the last character. */
  function Inner(m: string): string
    requires |m| >= 2
  {
    m[1..|m| - 1]
  }

  /** A variable match: a `$` followed by one or more word characters. */
  predicate IsVarMatch(m: string)
  {
    |m| >= 2 && m[0] == '$' && AllWord(m[1..])
  }

  /** A quote match: `"`, then no `"` and no line break, then `"`. */
  predicate IsQuoteMatch(m: string)
  {
    |m| >= 2 && m[0] == '"' && m[|m| - 1] == '"' && Lacks(Inner(m), '"') && OneLine(Inner(m))
  }

  /** A paren match: `(`, then neither `(` nor `)`, then `)`. */
  predicate IsParenMatch(m: string)
  {
    |m| >= 2 && m[0] == '(' && m[|m| - 1] == ')' && Lacks(Inner(m), '(') && Lacks(Inner(m), ')')
  }

  predicate AllVarMatches(ms: seq<string>)
  {
    forall k :: 0 <= k < |ms| ==> IsVarMatch(ms[k])
  }

  predicate AllQuoteMatches(ms: seq<string>)
  {
    forall k :: 0 <= k < |ms| ==> IsQuoteMatch(ms[k])
  }

  predicate AllParenMatches(ms: seq<string>)
  {
    forall k :: 0 <= k < |ms| ==> IsParenMatch(ms[k])
  }

  /** A slice seen from inside. */
  lemma InnerSlice(s: string, a: nat, b: nat)
    requires a + 2 <= b <= |s|
    ensures s[a..b][1..] == s[a + 1..b]
    ensures Inner(s[a..b]) == s[a + 1..b - 1]
  {
    var u := s[a..b];
    forall m | 0 <= m < b - a - 1 ensures u[1..][m] == s[a + 1..b][m] {
      assert u[1..][m] == s[a + 1 + m];
    }
    forall m | 0 <= m < b - a - 2 ensures Inner(u)[m] == s[a + 1..b - 1][m] {
      assert Inner(u) == u[1..b - a - 1];
      assert u[1..b - a - 1][m] == u[m + 1];
    }
  }

  /** The run found by `WordEnd` is made of word characters. */
  lemma {:induction false} WordEndRun(s: string, i: nat)
    requires i <= |s|
    decreases |s| - i
    ensures AllWord(s[i..WordEnd(s, i)])
  {
    if i < |s| && IsWordChar(s[i]) {
      WordEndRun(s, i + 1);
      var e := WordEnd(s, i);
      forall m | 0 <= m < e - i ensures IsWordChar(s[i..e][m]) {
        if m > 0 { assert s[i..e][m] == s[i + 1..e][m - 1]; }
      }
    }
  }

  /** `QuoteClose` stops at a `"` and passes no `"` and no line break. */
  lemma {:induction false} QuoteCloseRun(s: string, k: nat)
    requires k <= |s|
    decreases |s| - k
    ensures QuoteClose(s, k).Some? ==>
      var c := QuoteClose(s, k).value;
      s[c] == '"' && Lacks(s[k..c], '"') && OneLine(s[k..c])
  {
    if k < |s| && !IsLineTerminator(s[k]) && s[k] != '"' && QuoteClose(s, k + 1).Some? {
      QuoteCloseRun(s, k + 1);
      var c := QuoteClose(s, k).value;
      forall m | 0 <= m < c - k ensures s[k..c][m] != '"' && !IsLineTerminator(s[k..c][m]) {
        if m > 0 { assert s[k..c][m] == s[k + 1..c][m - 1]; }
      }
    }
  }

  /** `ParenClose` stops at a `)` and passes no parenthesis. */
  lemma {:induction false} ParenCloseRun(s: string, k: nat)
    requires k <= |s|
    decreases |s| - k
    ensures ParenClose(s, k).Some? ==>
      var c := ParenClose(s, k).value;
      s[c] == ')' && Lacks(s[k..c], '(') && Lacks(s[k..c], ')')
  {
    if k < |s| && s[k] != '(' && s[k] != ')' && ParenClose(s, k + 1).Some? {
      ParenCloseRun(s, k + 1);
      var c := ParenClose(s, k).value;
      forall m | 0 <= m < c - k ensures s[k..c][m] != '(' && s[k..c][m] != ')' {
        if m > 0 { assert s[k..c][m] == s[k + 1..c][m - 1]; }
      }
    }
  }

  /** Each variable match is a `$` followed by word characters. */
  lemma {:induction false} VarMatchesSpec(s: string, i: nat)
    requires i <= |s|
    decreases |s| - i
    ensures AllVarMatches(VarMatches(s, i))
  {
    if i + 1 < |s| {
      if s[i] == '$' && IsWordChar(s[i + 1]) {
        var e := WordEnd(s, i + 1);
        assert e == WordEnd(s, i + 2);
        WordEndRun(s, i + 1);
        InnerSlice(s, i, e);
        VarMatchesSpec(s, e);
        var rest := VarMatches(s, e);
        var r := VarMatches(s, i);
        assert r == [s[i..e]] + rest;
        forall k | 0 <= k < |r| ensures IsVarMatch(r[k]) {
          if k > 0 { assert r[k] == rest[k - 1]; }
        }
      } else {
        VarMatchesSpec(s, i + 1);
        assert VarMatches(s, i) == VarMatches(s, i + 1);
      }
    }
  }

  /** Each quote match opens and closes with `"` and holds no other `"` and no line break. */
  lemma {:induction false} QuoteMatchesSpec(s: string, i: nat)
    requires i <= |s|
    decreases |s| - i
    ensures AllQuoteMatches(QuoteMatches(s, i))
  {
    if i < |s| {
      if s[i] == '"' && QuoteClose(s, i + 1).Some? {
        var c := QuoteClose(s, i + 1).value;
        QuoteCloseRun(s, i + 1);
        InnerSlice(s, i, c + 1);
        QuoteMatchesSpec(s, c + 1);
        var rest := QuoteMatches(s, c + 1);
        var r := QuoteMatches(s, i);
        assert r == [s[i..c + 1]] + rest;
        forall k | 0 <= k < |r| ensures IsQuoteMatch(r[k]) {
          if k > 0 { assert r[k] == rest[k - 1]; }
        }
      } else {
        QuoteMatchesSpec(s, i + 1);
        assert QuoteMatches(s, i) == QuoteMatches(s, i + 1);
      }
    }
  }

  /** Each paren match opens with `(`, closes with `)` and holds neither inside. */
  lemma {:induction false} ParenMatchesSpec(s: string, i: nat)
    requires i <= |s|
    decreases |s| - i
    ensures AllParenMatches(ParenMatches(s, i))
  {
    if i < |s| {
      if s[i] == '(' && ParenClose(s, i + 1).Some? {
        var c := ParenClose(s, i + 1).value;
        ParenCloseRun(s, i + 1);
        InnerSlice(s, i, c + 1);
        ParenMatchesSpec(s, c + 1);
        var rest := ParenMatches(s, c + 1);
        var r := ParenMatches(s, i);
        assert r == [s[i..c + 1]] + rest;
        forall k | 0 <= k < |r| ensures IsParenMatch(r[k]) {
          if k > 0 { assert r[k] == rest[k - 1]; }
        }
      } else {
        ParenMatchesSpec(s, i + 1);
        assert ParenMatches(s, i) == ParenMatches(s, i + 1);
      }
    }
  }

  /** The first paren match occurs in the line it was found in. */
  lemma {:induction false} ParenMatchOccurs(s: string, i: nat)
    requires i <= |s| && ParenMatches(s, i) != []
    decreases |s| - i
    ensures Contains(s, ParenMatches(s, i)[0])
  {
    if s[i] == '(' && ParenClose(s, i + 1).Some? {
      var c := ParenClose(s, i + 1).value;
      assert OccursAt(s, s[i..c + 1], i);
      OccursAtContains(s, s[i..c + 1], i);
    } else {
      ParenMatchOccurs(s, i + 1);
    }
  }

  // ---------------------------------------------------------------------
  // Replacing the matches by placeholders

  /** The token text: the match without its `$`, or without its delimiters. */
  function Strip(m: string, kind: Kind): string
  {
    match kind
    case Var => if |m| == 0 then "" else m[1..]
    case _ => if |m| < 2 then "" else Inner(m)
  }

  /** The tokens of the matches, numbered on from `index`. */
  function MatchTokens(ms: seq<string>, kind: Kind, index: nat): seq<Token>
  {
    seq(|ms|, k requires 0 <= k < |ms| => Token(kind, index + k, Strip(ms[k], kind)))
  }

  lemma MatchTokensSnoc(ms: seq<string>, i: nat, kind: Kind, index: nat)
    requires i < |ms|
    ensures MatchTokens(ms[..i + 1], kind, index)
         == MatchTokens(ms[..i], kind, index) + [Token(kind, index + i, Strip(ms[i], kind))]
  {
    var a, b := MatchTokens(ms[..i + 1], kind, index), MatchTokens(ms[..i], kind, index);
    forall k | 0 <= k < i ensures a[k] == b[k] {
      assert ms[..i + 1][k] == ms[..i][k];
    }
  }

  /** The line after the first `n` matched texts have been replaced in
      turn, first occurrence only, by the placeholders numbered on from
      `index`. */
  function ReplaceEach(s: string, ms: seq<string>, n: nat, kind: Kind, index: nat): string
    requires n <= |ms|
  {
    if n == 0 then s
    else ReplaceFirst(ReplaceEach(s, ms, n - 1, kind, index), ms[n - 1], Placeholder(kind, index + n - 1))
  }

  /** One more step of `ReplaceEach`. */
  lemma ReplaceEachStep(s: string, ms: seq<string>, n: nat, kind: Kind, index: nat)
    requires n < |ms|
    ensures ReplaceEach(s, ms, n + 1, kind, index)
         == ReplaceFirst(ReplaceEach(s, ms, n, kind, index), ms[n], Placeholder(kind, index + n))
  {
    assert index + (n + 1) - 1 == index + n;
  }

  /** The loop shared by the three extractors: the rewritten line and the tokens. */
  function Extract(s: string, ms: seq<string>, kind: Kind, index: nat): Extracted
  {
    Extracted(ReplaceEach(s, ms, |ms|, kind, index), MatchTokens(ms, kind, index))
  }

  /** The same loop written as the source writes it, proved to compute `Extract`. */
  method ReplaceEachLoop(s: string, ms: seq<string>, kind: Kind, index: nat) returns (r: Extracted)
    ensures r == Extract(s, ms, kind, index)
  {
    var str := s;
    var tokens: seq<Token> := [];
    var i := 0;
    while i < |ms|
      invariant 0 <= i <= |ms|
      invariant str == ReplaceEach(s, ms, i, kind, index)
      invariant tokens == MatchTokens(ms[..i], kind, index)
    {
      var text := ms[i];
      var replace := Placeholder(kind, index + i);
      ReplaceEachStep(s, ms, i, kind, index);
      str := ReplaceFirst(str, text, replace);
      MatchTokensSnoc(ms, i, kind, index);
      tokens := tokens + [Token(kind, index + i, Strip(text, kind))];
      i := i + 1;
    }
    assert ms[..i] == ms;
    r := Extracted(str, tokens);
  }

  /** `extractVars`: every `$name`, numbered from 0. */
  function ExtractVars(s: string): Extracted
  {
    Extract(s, VarMatches(s, 0), Var, 0)
  }

  /** The variable tokens are numbered from 0 and each names a variable. */
  lemma ExtractVarsTokens(s: string)
    ensures var r := ExtractVars(s);
      forall k :: 0 <= k < |r.tokens| ==>
        r.tokens[k].kind == Var && r.tokens[k].number == k && IsWord(r.tokens[k].text)
  {
    VarMatchesSpec(s, 0);
  }

  /** `extractQuotes`: every double-quoted text on one line, numbered from 0. */
  function ExtractQuotes(s: string): Extracted
  {
    Extract(s, QuoteMatches(s, 0), Quote, 0)
  }

  /** The quote tokens are numbered from 0 and hold no double quote. */
  lemma ExtractQuotesTokens(s: string)
    ensures var r := ExtractQuotes(s);
      forall k :: 0 <= k < |r.tokens| ==>
        r.tokens[k].kind == Quote && r.tokens[k].number == k && Lacks(r.tokens[k].text, '"')
  {
    QuoteMatchesSpec(s, 0);
  }

  /** A paren match holds exactly one `(`. */
  lemma CountOneOpen(m: string)
    requires IsParenMatch(m)
    ensures CountChar(m, '(') == 1
  {
    var inner := Inner(m);
    assert m == ['('] + inner + [')'];
    CountCharZero(inner, '(');
    CountCharAppend(['('] + inner, [')'], '(');
    CountCharAppend(['('], inner, '(');
  }

  /** Replacing matches by placeholders never adds a special character. */
  lemma {:induction false} ReplaceEachKeepsCount(s: string, ms: seq<string>, n: nat, kind: Kind, index: nat, c: char)
    requires n <= |ms| && Special(c)
    ensures CountChar(ReplaceEach(s, ms, n, kind, index), c) <= CountChar(s, c)
  {
    if n > 0 {
      var prev := ReplaceEach(s, ms, n - 1, kind, index);
      ReplaceEachKeepsCount(s, ms, n - 1, kind, index, c);
      PlaceholderCount(kind, index + n - 1, c);
      ReplaceFirstCount(prev, ms[n - 1], Placeholder(kind, index + n - 1), c);
    }
  }

  /** The first replacement of a round removes the `(`s of the first match. */
  lemma {:induction false} ReplaceEachFirstCount(s: string, ms: seq<string>, n: nat, kind: Kind, index: nat)
    requires 1 <= n <= |ms| && Contains(s, ms[0])
    ensures CountChar(ReplaceEach(s, ms, n, kind, index), '(') <= CountChar(s, '(') - CountChar(ms[0], '(')
  {
    var prev := ReplaceEach(s, ms, n - 1, kind, index);
    PlaceholderCount(kind, index + n - 1, '(');
    ReplaceFirstCount(prev, ms[n - 1], Placeholder(kind, index + n - 1), '(');
    if n > 1 {
      ReplaceEachFirstCount(s, ms, n - 1, kind, index);
    }
  }

  /** The line after one round of `extractParens`, numbered on from `index`. */
  function RoundText(s: string, index: nat): string
  {
    var ms := ParenMatches(s, 0);
    ReplaceEach(s, ms, |ms|, Paren, index)
  }

  /** A round of `extractParens` that finds a match removes at least one `(`. */
  lemma ParenRoundShrinks(s: string, index: nat)
    requires ParenMatches(s, 0) != []
    ensures CountChar(RoundText(s, index), '(') < CountChar(s, '(')
  {
    var ms := ParenMatches(s, 0);
    ParenMatchesSpec(s, 0);
    assert IsParenMatch(ms[0]);
    CountOneOpen(ms[0]);
    ParenMatchOccurs(s, 0);
    ReplaceEachFirstCount(s, ms, |ms|, Paren, index);
  }

  /** The line left by `extractParens`: rounds of innermost-group
      replacement until no `( … )` without a nested `(` is left; the
      numbering continues across rounds. */
  function ParenText(s: string, index: nat): string
    decreases CountChar(s, '(')
  {
    var ms := ParenMatches(s, 0);
    if ms == [] then s
    else
      ParenRoundShrinks(s, index);
      ParenText(RoundText(s, index), index + |ms|)
  }

  /** The tokens `extractParens` records, round after round. */
  function ParenTokens(s: string, index: nat): seq<Token>
    decreases CountChar(s, '(')
  {
    var ms := ParenMatches(s, 0);
    if ms == [] then []
    else
      ParenRoundShrinks(s, index);
      MatchTokens(ms, Paren, index) + ParenTokens(RoundText(s, index), index + |ms|)
  }

  /** `extractParens`: the line it leaves and the tokens it records. */
  function ExtractParens(s: string, index: nat): Extracted
  {
    Extracted(ParenText(s, index), ParenTokens(s, index))
  }

  /** What `extractParens` leaves holds no innermost group. */
  lemma {:induction false} ExtractParensDone(s: string, index: nat)
    decreases CountChar(s, '(')
    ensures ParenMatches(ParenText(s, index), 0) == []
  {
    var ms := ParenMatches(s, 0);
    if ms != [] {
      ParenRoundShrinks(s, index);
      ExtractParensDone(RoundText(s, index), index + |ms|);
    }
  }

  /** Paren tokens numbered on from `index`, none holding a parenthesis. */
  predicate ParenTokensFrom(tokens: seq<Token>, index: nat)
  {
    forall k :: 0 <= k < |tokens| ==>
      tokens[k].kind == Paren && tokens[k].number == index + k
      && Lacks(tokens[k].text, '(') && Lacks(tokens[k].text, ')')
  }

  /** The tokens of one round are numbered on from `index` and hold no parenthesis. */
  lemma RoundTokens(ms: seq<string>, index: nat)
    requires AllParenMatches(ms)
    ensures ParenTokensFrom(MatchTokens(ms, Paren, index), index)
  {
    var ts := MatchTokens(ms, Paren, index);
    forall k | 0 <= k < |ts|
      ensures ts[k].kind == Paren && ts[k].number == index + k
      ensures Lacks(ts[k].text, '(') && Lacks(ts[k].text, ')')
    {
      assert IsParenMatch(ms[k]);
      assert ts[k] == Token(Paren, index + k, Inner(ms[k]));
    }
  }

  lemma ParenTokensAppend(a: seq<Token>, b: seq<Token>, index: nat)
    requires ParenTokensFrom(a, index) && ParenTokensFrom(b, index + |a|)
    ensures ParenTokensFrom(a + b, index)
  {
    forall k | |a| <= k < |a + b| ensures (a + b)[k].number == index + k {
      assert (a + b)[k] == b[k - |a|];
    }
  }

  /** One round of `extractParens`: the line it leaves is where the next round starts. */
  lemma ParenTextStep(s: string, index: nat)
    requires ParenMatches(s, 0) != []
    ensures ParenText(s, index) == ParenText(RoundText(s, index), index + |ParenMatches(s, 0)|)
  {
  }

  /** One round of `extractParens`: its tokens, then those of the rounds after it. */
  lemma ParenTokensStep(s: string, index: nat)
    requires ParenMatches(s, 0) != []
    ensures ParenTokens(s, index)
         == MatchTokens(ParenMatches(s, 0), Paren, index)
          + ParenTokens(RoundText(s, index), index + |ParenMatches(s, 0)|)
  {
  }

  /** The paren tokens are numbered on from `index` and hold no parenthesis. */
  lemma {:induction false} ExtractParensTokens(s: string, index: nat)
    decreases CountChar(s, '(')
    ensures ParenTokensFrom(ParenTokens(s, index), index)
  {
    var ms := ParenMatches(s, 0);
    if ms != [] {
      var text := RoundText(s, index);
      ParenRoundShrinks(s, index);
      ExtractParensTokens(text, index + |ms|);
      ParenMatchesSpec(s, 0);
      RoundTokens(ms, index);
      ParenTokensStep(s, index);
      ParenTokensAppend(MatchTokens(ms, Paren, index), ParenTokens(text, index + |ms|), index);
    }
  }

  /** `extractParens` never adds a special character to the line. */
  lemma {:induction false} ExtractParensKeepsCount(s: string, index: nat, c: char)
    requires Special(c)
    decreases CountChar(s, '(')
    ensures CountChar(ParenText(s, index), c) <= CountChar(s, c)
  {
    var ms := ParenMatches(s, 0);
    if ms != [] {
      var text := RoundText(s, index);
      ParenRoundShrinks(s, index);
      ReplaceEachKeepsCount(s, ms, |ms|, Paren, index, c);
      ExtractParensKeepsCount(text, index + |ms|, c);
      assert ParenText(s, index) == ParenText(text, index + |ms|);
    }
  }

  /** One pass of the do-while loop of `extractParens` keeps what is left to do. */
  lemma ParenLoopStep(s: string, str: string, index: nat, tokens: seq<Token>, ms: seq<string>, round: Extracted)
    requires ms == ParenMatches(str, 0) && ms != []
    requires round == Extract(str, ms, Paren, index)
    requires ParenText(str, index) == ParenText(s, 0)
    requires tokens + ParenTokens(str, index) == ParenTokens(s, 0)
    ensures ParenText(round.text, index + |ms|) == ParenText(s, 0)
    ensures (tokens + round.tokens) + ParenTokens(round.text, index + |ms|) == ParenTokens(s, 0)
    ensures CountChar(round.text, '(') < CountChar(str, '(')
  {
    var next, mt := RoundText(str, index), MatchTokens(ms, Paren, index);
    assert round.text == next && round.tokens == mt;
    ParenRoundShrinks(str, index);
    ParenTextStep(str, index);
    ParenTokensStep(str, index);
    var later := ParenTokens(next, index + |ms|);
    assert (tokens + mt) + later == tokens + (mt + later);
  }

  /** The do-while loop of `extractParens`, proved to compute `ExtractParens`. */
  method ExtractParensLoop(s: string) returns (r: Extracted)
    ensures r == ExtractParens(s, 0)
  {
    var str := s;
    var tokens: seq<Token> := [];
    var index: nat := 0;
    var ms := ParenMatches(str, 0);
    while ms != []
      invariant ms == ParenMatches(str, 0)
      invariant ParenText(str, index) == ParenText(s, 0)
      invariant tokens + ParenTokens(str, index) == ParenTokens(s, 0)
      decreases CountChar(str, '(')
    {
      var round := ReplaceEachLoop(str, ms, Paren, index);
      ParenLoopStep(s, str, index, tokens, ms, round);
      str, tokens, index := round.text, tokens + round.tokens, index + |ms|;
      ms := ParenMatches(str, 0);
    }
    assert tokens + [] == tokens;
    r := Extracted(str, tokens);
  }

  /** `tokenizeString`: variables first, then quotes, then parentheses; an
      unmatched quote or parenthesis is an error; the tokens are listed
      parentheses first, then quotes, then variables. */
  function Tokenize(s: string): Result<Tokenized>
  {
    var vars := ExtractVars(s);
    var quotes := ExtractQuotes(vars.text);
    if !Lacks(quotes.text, '"') then Err("Unmatched opening double quote.")
    else
      var parens := ExtractParens(quotes.text, 0);
      if !Lacks(parens.text, '(') then Err("Unmatched opening parenthesis.")
      else if !Lacks(parens.text, ')') then Err("Unmatched closing parenthesis.")
      else Ok(Tokenized(parens.tokens + quotes.tokens + vars.tokens, parens.text, Split(parens.text, ' ')))
  }

  /** A successful tokenization leaves a line with no quote or parenthesis,
      split on single spaces. */
  lemma TokenizeOk(s: string)
    requires Tokenize(s).Ok?
    ensures Tokenize(s).value.args == Split(Tokenize(s).value.text, ' ')
    ensures Lacks(Tokenize(s).value.text, '"')
    ensures Lacks(Tokenize(s).value.text, '(')
    ensures Lacks(Tokenize(s).value.text, ')')
  {
    var quotes := ExtractQuotes(ExtractVars(s).text);
    var text := ParenText(quotes.text, 0);
    ExtractParensKeepsCount(quotes.text, 0, '"');
    CountCharZero(quotes.text, '"');
    CountCharZero(text, '"');
  }

  /** Without the character that opens a match there are no matches. */
  lemma {:induction false} NoMatchesFrom(s: string, i: nat)
    requires i <= |s|
    decreases |s| - i
    ensures Lacks(s, '$') ==> VarMatches(s, i) == []
    ensures Lacks(s, '"') ==> QuoteMatches(s, i) == []
    ensures Lacks(s, '(') ==> ParenMatches(s, i) == []
  {
    if i < |s| {
      NoMatchesFrom(s, i + 1);
    }
  }

  lemma NoMatches(s: string)
    ensures Lacks(s, '$') ==> VarMatches(s, 0) == []
    ensures Lacks(s, '"') ==> QuoteMatches(s, 0) == []
    ensures Lacks(s, '(') ==> ParenMatches(s, 0) == []
  {
    NoMatchesFrom(s, 0);
  }

  /** A line without `$`, `"`, `(` or `)` has no tokens: it is only split on spaces. */
  lemma TokenizePlain(s: string)
    requires Lacks(s, '$') && Lacks(s, '"') && Lacks(s, '(') && Lacks(s, ')')
    ensures Tokenize(s) == Ok(Tokenized([], s, Split(s, ' ')))
  {
    NoMatches(s);
    assert ExtractVars(s) == Extracted(s, []);
    assert ExtractQuotes(s) == Extracted(s, []);
    assert ExtractParens(s, 0) == Extracted(s, []);
    var none: seq<Token> := [];
    assert none + none + none == none;
  }

  /** A `)` with no `(` anywhere (and no quote or variable) is reported as unmatched. */
  lemma TokenizeStrayClose(s: string)
    requires Lacks(s, '$') && Lacks(s, '"') && Lacks(s, '(') && !Lacks(s, ')')
    ensures Tokenize(s) == Err("Unmatched closing parenthesis.")
  {
    NoMatches(s);
    assert ExtractVars(s) == Extracted(s, []);
    assert ExtractQuotes(s) == Extracted(s, []);
    assert ExtractParens(s, 0) == Extracted(s, []);
  }
}
