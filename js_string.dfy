/** The JavaScript string operations and coercions the command language
    relies on: upper-casing, `indexOf`, `replace` with a string pattern,
    `split`/`join`, the relational `<` on strings, `parseInt`, the
    `isNaN(Number(s))` test and `Number(s) > 0`. A JavaScript string is
    a sequence of UTF-16 code units; here it is a `seq<char>`, a sequence
    of Unicode scalar values, so a character outside the Basic
    Multilingual Plane is one element where JavaScript has two. */
module JsString {
  import opened Wrappers

  // ---------------------------------------------------------------------
  // Characters

  /** `toUpperCase` on one character; only ASCII letters are mapped. */
  function UpperChar(c: char): char
  {
    if 'a' <= c <= 'z' then (c as int - 32) as char else c
  }

  /** `toUpperCase` on a string (ASCII letters only). */
  function Upper(s: string): (r: string)
    ensures |r| == |s|
    ensures forall i :: 0 <= i < |s| ==> r[i] == UpperChar(s[i])
  {
    seq(|s|, i requires 0 <= i < |s| => UpperChar(s[i]))
  }

  /** The regular-expression class `\w`. */
  predicate IsWordChar(c: char)
  {
    'a' <= c <= 'z' || 'A' <= c <= 'Z' || '0' <= c <= '9' || c == '_'
  }

  /** The characters `.` does not match in a regular expression. */
  predicate IsLineTerminator(c: char)
  {
    c == '\n' || c == '\r' || c == '\U{2028}' || c == '\U{2029}'
  }

  /** White space and line terminators as `trim`, `parseInt` and `Number` skip them. */
  predicate IsJsSpace(c: char)
  {
    c == '\t' || c == '\U{0B}' || c == '\U{0C}' || c == ' ' || c == '\U{A0}'
    || c == '\U{1680}' || '\U{2000}' <= c <= '\U{200A}' || c == '\U{202F}'
    || c == '\U{205F}' || c == '\U{3000}' || c == '\U{FEFF}' || IsLineTerminator(c)
  }

  predicate IsDigit(c: char) { '0' <= c <= '9' }

  function DigitChar(d: nat): char
    requires d < 10
  {
    ('0' as int + d) as char
  }

  /** The value of `c` as a digit in `radix` (2, 8, 10 or 16), if it is one. */
  function DigitValue(c: char, radix: nat): (r: Option<nat>)
    ensures r.Some? ==> r.value < radix
  {
    var v: int :=
      if '0' <= c <= '9' then c as int - '0' as int
      else if 'a' <= c <= 'f' then c as int - 'a' as int + 10
      else if 'A' <= c <= 'F' then c as int - 'A' as int + 10
      else 99;
    if v < radix then Some(v) else None
  }

  // ---------------------------------------------------------------------
  // Searching and replacing

  predicate StartsWith(s: string, prefix: string)
  {
    |prefix| <= |s| && s[..|prefix|] == prefix
  }

  predicate OccursAt(s: string, t: string, k: int)
  {
    0 <= k && k + |t| <= |s| && s[k..k + |t|] == t
  }

  /** `s.indexOf(t, from)`: the first position at or after `from` where `t` occurs. */
  function IndexOf(s: string, t: string, from: nat): (r: Option<nat>)
    decreases |s| - from
    ensures r.Some? ==> from <= r.value && r.value + |t| <= |s|
  {
    if from + |t| > |s| then None
    else if s[from..from + |t|] == t then Some(from)
    else IndexOf(s, t, from + 1)
  }

  /** `indexOf` finds the leftmost occurrence at or after `from`, and
      reports none only when there is none. */
  lemma {:induction false} IndexOfSpec(s: string, t: string, from: nat)
    decreases |s| - from
    ensures var r := IndexOf(s, t, from);
      (r.Some? ==> OccursAt(s, t, r.value) && forall k :: from <= k < r.value ==> !OccursAt(s, t, k))
      && (r.None? ==> forall k :: from <= k ==> !OccursAt(s, t, k))
  {
    if from + |t| <= |s| && s[from..from + |t|] != t {
      IndexOfSpec(s, t, from + 1);
    }
  }

  predicate Contains(s: string, t: string)
  {
    IndexOf(s, t, 0).Some?
  }

  lemma OccursAtContains(s: string, t: string, k: int)
    requires OccursAt(s, t, k)
    ensures Contains(s, t)
    ensures IndexOf(s, t, 0).value <= k
  {
    IndexOfSpec(s, t, 0);
  }

  /** `s.replace(t, r)` with a string pattern: only the first occurrence changes. */
  function ReplaceFirst(s: string, t: string, r: string): string
  {
    match IndexOf(s, t, 0)
    case None => s
    case Some(k) => s[..k] + r + s[k + |t|..]
  }

  /** `replace` leaves a string without the pattern alone, and otherwise
      swaps the leftmost occurrence for the replacement. */
  lemma ReplaceFirstSpec(s: string, t: string, r: string)
    ensures !Contains(s, t) ==> ReplaceFirst(s, t, r) == s
    ensures Contains(s, t) ==>
      var k := IndexOf(s, t, 0).value;
      OccursAt(s, t, k) && (forall j :: 0 <= j < k ==> !OccursAt(s, t, j))
      && ReplaceFirst(s, t, r) == s[..k] + r + s[k + |t|..]
  {
    IndexOfSpec(s, t, 0);
  }

  /** `s` does not contain the character `c`. */
  predicate Lacks(s: string, c: char)
  {
    forall i :: 0 <= i < |s| ==> s[i] != c
  }

  /** The number of occurrences of character `c` in `s`. */
  function CountChar(s: string, c: char): (n: nat)
    ensures n <= |s|
  {
    if s == [] then 0 else (if s[0] == c then 1 else 0) + CountChar(s[1..], c)
  }

  /** No occurrence counted exactly when the character is absent. */
  lemma {:induction false} CountCharZero(s: string, c: char)
    ensures CountChar(s, c) == 0 <==> Lacks(s, c)
  {
    if s != [] {
      CountCharZero(s[1..], c);
      if Lacks(s[1..], c) && s[0] != c {
        forall i | 0 <= i < |s| ensures s[i] != c {
          if i > 0 { assert s[i] == s[1..][i - 1]; }
        }
      }
      if Lacks(s, c) {
        forall i | 0 <= i < |s| - 1 ensures s[1..][i] != c {
          assert s[1..][i] == s[i + 1];
        }
      }
    }
  }

  lemma {:induction false} CountCharAppend(a: string, b: string, c: char)
    ensures CountChar(a + b, c) == CountChar(a, c) + CountChar(b, c)
  {
    if a == [] {
      assert a + b == b;
    } else {
      assert (a + b)[1..] == a[1..] + b;
      CountCharAppend(a[1..], b, c);
    }
  }

  /** Replacing an occurrence of `t` by `r` trades the `c`s of `t` for those of `r`. */
  lemma ReplaceFirstCount(s: string, t: string, r: string, c: char)
    ensures Contains(s, t) ==>
      CountChar(ReplaceFirst(s, t, r), c) == CountChar(s, c) - CountChar(t, c) + CountChar(r, c)
    ensures !Contains(s, t) ==> ReplaceFirst(s, t, r) == s
  {
    ReplaceFirstSpec(s, t, r);
    if Contains(s, t) {
      var k := IndexOf(s, t, 0).value;
      assert s == s[..k] + t + s[k + |t|..];
      CountCharAppend(s[..k] + t, s[k + |t|..], c);
      CountCharAppend(s[..k], t, c);
      CountCharAppend(s[..k] + r, s[k + |t|..], c);
      CountCharAppend(s[..k], r, c);
    }
  }

  // ---------------------------------------------------------------------
  // split and join

  /** The first position of `c` in `s`. */
  function FirstIndexOf(s: string, c: char): (k: nat)
    requires c in s
    ensures k < |s| && s[k] == c && c !in s[..k]
  {
    if s[0] == c then 0 else 1 + FirstIndexOf(s[1..], c)
  }

  lemma {:induction false} FirstIndexOfAt(s: string, c: char, k: nat)
    requires k < |s| && s[k] == c && c !in s[..k]
    ensures FirstIndexOf(s, c) == k
  {
    if k > 0 {
      assert s[0] == s[..k][0];
      assert s[1..][..k - 1] == s[..k][1..];
      FirstIndexOfAt(s[1..], c, k - 1);
    }
  }

  /** `s.split(sep)` for a one-character separator: always at least one part. */
  function Split(s: string, sep: char): (parts: seq<string>)
    decreases |s|
    ensures |parts| >= 1
  {
    if sep !in s then [s]
    else
      var k := FirstIndexOf(s, sep);
      [s[..k]] + Split(s[k + 1..], sep)
  }

  /** No part of a split contains the separator. */
  lemma {:induction false} SplitPartsFree(s: string, sep: char)
    decreases |s|
    ensures forall i :: 0 <= i < |Split(s, sep)| ==> sep !in Split(s, sep)[i]
  {
    if sep in s {
      var k := FirstIndexOf(s, sep);
      SplitPartsFree(s[k + 1..], sep);
    }
  }

  /** `parts.join(sep)`. */
  function Join(parts: seq<string>, sep: string): string
  {
    if |parts| == 0 then ""
    else if |parts| == 1 then parts[0]
    else parts[0] + sep + Join(parts[1..], sep)
  }

  /** Splitting on a character and joining with it gives the string back. */
  lemma {:induction false} JoinSplit(s: string, sep: char)
    ensures Join(Split(s, sep), [sep]) == s
    decreases |s|
  {
    if sep in s {
      var k := FirstIndexOf(s, sep);
      var head, tail := s[..k], s[k + 1..];
      var rest := Split(tail, sep);
      assert Split(s, sep) == [head] + rest;
      JoinSplit(tail, sep);
      JoinCons(head, rest, [sep]);
      AroundChar(s, k);
    }
  }

  /** Joining a first part onto at least one more puts the separator between them. */
  lemma JoinCons(head: string, rest: seq<string>, sep: string)
    requires rest != []
    ensures Join([head] + rest, sep) == head + sep + Join(rest, sep)
  {
    assert ([head] + rest)[0] == head && ([head] + rest)[1..] == rest;
  }

  /** A string is what comes before position `k`, the character there, and what follows. */
  lemma AroundChar(s: string, k: nat)
    requires k < |s|
    ensures s == s[..k] + [s[k]] + s[k + 1..]
  {
  }


  /** Splitting `a + sep + b`, where `a` has no separator, yields `a` first. */
  lemma SplitCons(a: string, sep: char, b: string)
    requires sep !in a
    ensures Split(a + [sep] + b, sep) == [a] + Split(b, sep)
  {
    var s := a + [sep] + b;
    var n := |a|;
    assert s[n] == sep;
    assert s[..n] == a;
    FirstIndexOfAt(s, sep, n);
    assert s[n + 1..] == b;
  }

  /** Joining parts free of the separator and splitting again gives the parts back. */
  lemma {:induction false} SplitJoin(parts: seq<string>, sep: char)
    requires |parts| >= 1
    requires forall i :: 0 <= i < |parts| ==> sep !in parts[i]
    ensures Split(Join(parts, [sep]), sep) == parts
  {
    if |parts| == 1 {
      assert Join(parts, [sep]) == parts[0];
    } else {
      var rest := parts[1..];
      assert forall i :: 0 <= i < |rest| ==> sep !in rest[i] by {
        forall i | 0 <= i < |rest| ensures sep !in rest[i] { assert rest[i] == parts[i + 1]; }
      }
      SplitJoin(rest, sep);
      SplitCons(parts[0], sep, Join(rest, [sep]));
      assert parts == [parts[0]] + rest;
    }
  }

  lemma JoinOne(part: string, sep: string)
    ensures Join([part], sep) == part
  {
  }

  lemma {:induction false} JoinAppend(a: seq<string>, b: seq<string>, sep: string)
    requires |a| >= 1 && |b| >= 1
    ensures Join(a + b, sep) == Join(a, sep) + sep + Join(b, sep)
  {
    if |a| == 1 {
      assert (a + b)[1..] == b;
    } else {
      assert (a + b)[1..] == a[1..] + b;
      JoinAppend(a[1..], b, sep);
    }
  }

  // ---------------------------------------------------------------------
  // The relational operators on strings

  /** JavaScript `a < b` on two strings: character by character, a proper
      prefix is smaller. */
  predicate LexLess(a: string, b: string)
  {
    if a == [] then b != []
    else if b == [] then false
    else if a[0] != b[0] then a[0] < b[0]
    else LexLess(a[1..], b[1..])
  }

  lemma {:induction false} LexLessIrreflexive(a: string)
    ensures !LexLess(a, a)
  {
    if a != [] { LexLessIrreflexive(a[1..]); }
  }

  lemma {:induction false} LexLessTransitive(a: string, b: string, c: string)
    requires LexLess(a, b) && LexLess(b, c)
    ensures LexLess(a, c)
  {
    if a != [] && b != [] && c != [] && a[0] == b[0] && b[0] == c[0] {
      LexLessTransitive(a[1..], b[1..], c[1..]);
    }
  }

  /** Any two strings are ordered one way or the other, or are equal. */
  lemma {:induction false} LexLessTotal(a: string, b: string)
    ensures a == b || LexLess(a, b) || LexLess(b, a)
    ensures !(LexLess(a, b) && LexLess(b, a))
  {
    if a != [] && b != [] && a[0] == b[0] {
      LexLessTotal(a[1..], b[1..]);
      if a[1..] == b[1..] {
        assert a == [a[0]] + a[1..] && b == [b[0]] + b[1..];
      }
    }
  }

  // ---------------------------------------------------------------------
  // Numbers written as strings

  function NatToString(n: nat): (r: string)
    ensures |r| >= 1
  {
    if n < 10 then [DigitChar(n)] else NatToString(n / 10) + [DigitChar(n % 10)]
  }

  /** The decimal text of a natural number is made of digits. */
  lemma {:induction false} NatToStringDigits(n: nat)
    ensures forall i :: 0 <= i < |NatToString(n)| ==> IsDigit(NatToString(n)[i])
  {
    if n >= 10 {
      NatToStringDigits(n / 10);
    }
  }

  /** The decimal text of an integer, as string concatenation produces it. */
  function IntToString(n: int): string
  {
    if n < 0 then "-" + NatToString(-n) else NatToString(n)
  }

  /** The longest prefix of `s` made of `radix` digits. */
  function DigitPrefix(s: string, radix: nat): (k: nat)
    ensures k <= |s|
    ensures forall i :: 0 <= i < k ==> DigitValue(s[i], radix).Some?
    ensures k < |s| ==> DigitValue(s[k], radix).None?
  {
    if s == [] || DigitValue(s[0], radix).None? then 0 else 1 + DigitPrefix(s[1..], radix)
  }

  /** The value of a string of `radix` digits. */
  function DigitsValue(ds: string, radix: nat): nat
  {
    if ds == [] then 0
    else
      var high: nat := DigitsValue(ds[..|ds| - 1], radix);
      var low: nat := match DigitValue(ds[|ds| - 1], radix) case Some(d) => d case None => 0;
      MulNat(high, radix) + low
  }

  function MulNat(a: nat, b: nat): nat
  {
    a * b
  }

  function TrimStart(s: string): (r: string)
    ensures |r| <= |s| && r == s[|s| - |r|..]
    ensures r != [] ==> !IsJsSpace(r[0])
  {
    if s != [] && IsJsSpace(s[0]) then TrimStart(s[1..]) else s
  }

  function TrimEnd(s: string): (r: string)
    ensures |r| <= |s| && r == s[..|r|]
    ensures r != [] ==> !IsJsSpace(r[|r| - 1])
  {
    if s != [] && IsJsSpace(s[|s| - 1]) then TrimEnd(s[..|s| - 1]) else s
  }

  function Trim(s: string): string
  {
    TrimEnd(TrimStart(s))
  }

  predicate HasHexPrefix(u: string)
  {
    |u| >= 2 && u[0] == '0' && (u[1] == 'x' || u[1] == 'X')
  }

  /** `parseInt(s)` without a radix: leading white space, an optional sign,
      an optional `0x` prefix, then the longest run of digits; `None` is NaN.
      (The sign of a zero result is not kept: -0 is 0 here.) */
  function ParseInt(s: string): Option<int>
  {
    var t := TrimStart(s);
    var neg := |t| > 0 && t[0] == '-';
    var u := if |t| > 0 && (t[0] == '-' || t[0] == '+') then t[1..] else t;
    var radix := if HasHexPrefix(u) then 16 else 10;
    var body := if HasHexPrefix(u) then u[2..] else u;
    var k := DigitPrefix(body, radix);
    if k == 0 then None
    else
      var v: int := DigitsValue(body[..k], radix);
      Some(if neg then -v else v)
  }

  lemma {:induction false} NatToStringValue(n: nat)
    ensures DigitPrefix(NatToString(n), 10) == |NatToString(n)|
    ensures DigitsValue(NatToString(n), 10) == n
  {
    var r := NatToString(n);
    NatToStringDigits(n);
    assert forall i :: 0 <= i < |r| ==> DigitValue(r[i], 10).Some?;
    DigitPrefixAll(r, 10);
    if n >= 10 {
      NatToStringValue(n / 10);
      assert r[..|r| - 1] == NatToString(n / 10);
    }
  }

  lemma {:induction false} DigitPrefixAll(s: string, radix: nat)
    requires forall i :: 0 <= i < |s| ==> DigitValue(s[i], radix).Some?
    ensures DigitPrefix(s, radix) == |s|
  {
    if s != [] { DigitPrefixAll(s[1..], radix); }
  }

  /** A text with an optional minus sign before decimal digits. */
  predicate IsIntText(s: string)
  {
    |s| >= 1 && (s[0] == '-' ==> |s| >= 2) &&
    forall i :: (if s[0] == '-' then 1 else 0) <= i < |s| ==> IsDigit(s[i])
  }

  lemma IntToStringIsIntText(n: int)
    ensures IsIntText(IntToString(n))
  {
    NatToStringDigits(if n < 0 then -n else n);
    if n < 0 {
      assert IntToString(n)[1..] == NatToString(-n);
    }
  }

  lemma TrimStartIntText(s: string)
    requires IsIntText(s)
    ensures TrimStart(s) == s
  {
    assert !IsJsSpace(s[0]);
  }

  /** A non-empty run of decimal digits. */
  predicate IsDigitText(d: string)
  {
    |d| >= 1 && forall i :: 0 <= i < |d| ==> IsDigit(d[i])
  }

  lemma DigitTextBody(d: string)
    requires IsDigitText(d)
    ensures TrimStart(d) == d && !HasHexPrefix(d)
    ensures DigitPrefix(d, 10) == |d| && d[..|d|] == d
  {
    assert !IsJsSpace(d[0]);
    if |d| >= 2 { assert IsDigit(d[1]); }
    DigitPrefixAll(d, 10);
  }

  /** `parseInt` of a run of digits is its decimal value. */
  lemma ParseIntDigits(d: string)
    requires IsDigitText(d)
    ensures ParseInt(d) == Some(DigitsValue(d, 10))
  {
    DigitTextBody(d);
    assert d[0] != '-' && d[0] != '+';
  }

  /** `parseInt` of a minus sign before a run of digits is the negated value. */
  lemma ParseIntNegDigits(d: string)
    requires IsDigitText(d)
    ensures ParseInt("-" + d) == Some(-(DigitsValue(d, 10) as int))
  {
    var t := "-" + d;
    assert !IsJsSpace(t[0]);
    assert TrimStart(t) == t;
    assert t[1..] == d;
    DigitTextBody(d);
  }

  /** `parseInt` reads back the decimal text of every integer. */
  lemma ParseIntToString(n: int)
    ensures ParseInt(IntToString(n)) == Some(n)
  {
    var m: nat := if n < 0 then -n else n;
    var d := NatToString(m);
    NatToStringValue(m);
    NatToStringDigits(m);
    assert IsDigitText(d);
    if n < 0 {
      ParseIntNegDigits(d);
    } else {
      ParseIntDigits(d);
    }
  }

  // `isNaN(Number(s))` follows the StringNumericLiteral grammar of
  // section 7.1.4.1.1 of ECMA-262: the trimmed text is empty (0), an
  // unsigned binary, octal or hexadecimal literal, or a signed decimal
  // literal (digits with an optional fraction and exponent, or Infinity).

  predicate AllDigits(s: string, radix: nat)
  {
    forall i :: 0 <= i < |s| ==> DigitValue(s[i], radix).Some?
  }

  predicate IsNonDecimalLiteral(t: string)
  {
    |t| > 2 && t[0] == '0' && AllDigits(t[2..], RadixOfPrefix(t[1]))
    && (t[1] in "xXoObB")
  }

  function RadixOfPrefix(c: char): nat
  {
    if c == 'x' || c == 'X' then 16 else if c == 'o' || c == 'O' then 8 else 2
  }

  function StripSign(t: string): string
  {
    if |t| > 0 && (t[0] == '-' || t[0] == '+') then t[1..] else t
  }

  predicate IsExponentPart(e: string)
  {
    e == [] || (e[0] in "eE" && |StripSign(e[1..])| > 0 && AllDigits(StripSign(e[1..]), 10))
  }

  /** StrUnsignedDecimalLiteral. */
  predicate IsUnsignedDecimal(u: string)
  {
    u == "Infinity" ||
    var a := DigitPrefix(u, 10);
    var rest := u[a..];
    if rest != [] && rest[0] == '.' then
      var b := DigitPrefix(rest[1..], 10);
      (a > 0 || b > 0) && IsExponentPart(rest[1 + b..])
    else
      a > 0 && IsExponentPart(rest)
  }

  predicate IsNumericLiteral(t: string)
  {
    IsNonDecimalLiteral(t) || IsUnsignedDecimal(StripSign(t))
  }

  /** `!isNaN(s)` for a string `s`. */
  predicate IsNumeric(s: string)
  {
    var t := Trim(s);
    t == [] || IsNumericLiteral(t)
  }

  /** `Number(s) > 0` for a string `s` (ignoring underflow of tiny exponents). */
  predicate IsPositiveNumber(s: string)
  {
    var t := Trim(s);
    t != [] && IsNumericLiteral(t) &&
    if IsNonDecimalLiteral(t) then exists i :: 2 <= i < |t| && t[i] != '0'
    else t[0] != '-' && MantissaNonZero(StripSign(t))
  }

  /** Some digit before the exponent is not zero (or the literal is Infinity). */
  predicate MantissaNonZero(u: string)
  {
    u == "Infinity" || (u != [] && u[0] != 'e' && u[0] != 'E' &&
                        (('1' <= u[0] <= '9') || MantissaNonZero(u[1..])))
  }

  lemma TrimEndIntText(s: string)
    requires IsIntText(s)
    ensures TrimEnd(s) == s
  {
    assert IsDigit(s[|s| - 1]);
  }

  /** Every decimal integer text is a number. */
  lemma IntToStringIsNumeric(n: int)
    ensures IsNumeric(IntToString(n))
  {
    var s := IntToString(n);
    var m: nat := if n < 0 then -n else n;
    var d := NatToString(m);
    NatToStringValue(m);
    IntToStringIsIntText(n);
    TrimStartIntText(s);
    TrimEndIntText(s);
    assert Trim(s) == s;
    assert StripSign(s) == d by {
      if n < 0 { assert s[1..] == d; } else { assert IsDigit(s[0]); }
    }
    assert d[|d|..] == [];
    assert d != "Infinity" by { assert IsDigit(d[0]); }
    assert IsUnsignedDecimal(d);
  }

  // ---------------------------------------------------------------------
  // Padding helpers

  /** `str.slice(0, end)` where a negative end counts back from the length. */
  function SlicePrefix(s: string, end: int): (r: string)
    ensures r == s[..if end < 0 then (if |s| + end < 0 then 0 else |s| + end)
                        else (if end > |s| then |s| else end)]
  {
    var e := if end < 0 then |s| + end else end;
    var e' := if e < 0 then 0 else if e > |s| then |s| else e;
    s[..e']
  }

  /** `spaces(num, char)`: `num` copies of `c` (none for a non-positive count). */
  function Repeat(c: char, num: int): (r: string)
    ensures |r| == if num < 0 then 0 else num
    ensures forall i :: 0 <= i < |r| ==> r[i] == c
    decreases if num < 0 then 0 else num
  {
    if num <= 0 then [] else Repeat(c, num - 1) + [c]
  }

  /** The loop of `spaces`, proved to build `Repeat(c, num)`. */
  method Spaces(num: int, c: char) returns (r: string)
    ensures |r| == if num < 0 then 0 else num
    ensures forall i :: 0 <= i < |r| ==> r[i] == c
  {
    r := "";
    var i := 0;
    while i < num
      invariant 0 <= i && (num >= 0 ==> i <= num) && (num < 0 ==> i == 0)
      invariant |r| == i
      invariant forall k :: 0 <= k < |r| ==> r[k] == c
    {
      r := r + [c];
      i := i + 1;
    }
  }

  /** `padWithSpaces(str, totalLen)`: pad on the right with spaces, or cut
      a long text to `totalLen - 3` characters followed by "...". */
  function PadWithSpaces(str: string, totalLen: int): (r: string)
    ensures totalLen >= 3 ==> |r| == totalLen
    ensures |str| <= totalLen ==>
      |r| == totalLen && r[..|str|] == str && forall i :: |str| <= i < |r| ==> r[i] == ' '
    ensures 3 <= totalLen < |str| && |str| > 5 ==> r == str[..totalLen - 3] + "..."
    ensures 0 <= totalLen < |str| <= 5 ==> r == str[..totalLen]
  {
    if |str| == totalLen then str
    else if |str| < totalLen then str + Repeat(' ', totalLen - |str|)
    else if |str| > 5 then SlicePrefix(str, totalLen - 3) + "..."
    else SlicePrefix(str, totalLen)
  }

  /** `maxLen(str, max)`: cut a text that does not fit in `max` characters,
      marking the cut with "-" when it is longer than 3. */
  function MaxLen(str: string, max: int): (r: string)
    ensures |str| < max ==> r == str
    ensures max >= 1 ==> |r| == if |str| < max then |str| else max
    ensures 1 <= max <= |str| && |str| > 3 ==> r == str[..max - 1] + "-"
    ensures 0 <= max <= |str| <= 3 ==> r == str[..max]
  {
    if |str| < max then str
    else if |str| > 3 then SlicePrefix(str, max - 1) + "-"
    else SlicePrefix(str, max)
  }

  /** `padWithZeros(str, totalLen)`: pad on the left with zeros, or cut to
      `totalLen - 1` characters followed by "-". */
  function PadWithZeros(str: string, totalLen: int): (r: string)
    ensures totalLen >= 1 ==> |r| == totalLen
    ensures |str| <= totalLen ==>
      r[totalLen - |str|..] == str && forall i :: 0 <= i < totalLen - |str| ==> r[i] == '0'
    ensures 1 <= totalLen < |str| ==> r == str[..totalLen - 1] + "-"
  {
    if |str| == totalLen then str
    else if |str| < totalLen then Repeat('0', totalLen - |str|) + str
    else SlicePrefix(str, totalLen - 1) + "-"
  }
}
