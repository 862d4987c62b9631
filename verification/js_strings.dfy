/**
 * The JavaScript string built-ins the bot's handlers rely on, over Dafny strings
 * (sequences of Unicode scalar values): `trim`, `slice`, `split`, `join`, ASCII
 * `toLowerCase`/`toUpperCase`, the string `<` comparison, regex character removal,
 * `Number.prototype.toString` and `parseInt(_, 10)`.
 */
module JsStrings {
  import opened Wrappers

  /** ECMAScript WhiteSpace and LineTerminator code points: what `trim`, the regex class `\s`
      and `parseInt` treat as white space. */
  const WhitespaceChars: set<char> := {
    '\t', '\n', '\U{B}', '\U{C}', '\r', ' ', '\U{A0}', '\U{1680}',
    '\U{2000}', '\U{2001}', '\U{2002}', '\U{2003}', '\U{2004}', '\U{2005}', '\U{2006}',
    '\U{2007}', '\U{2008}', '\U{2009}', '\U{200A}',
    '\U{2028}', '\U{2029}', '\U{202F}', '\U{205F}', '\U{3000}', '\U{FEFF}'
  }

  predicate IsWhitespace(c: char) {
    c in WhitespaceChars
  }

  predicate IsDigit(c: char) {
    '0' <= c <= '9'
  }

  /** The regex class `\w` without the `u` flag: ASCII letters, digits and the underscore. */
  predicate IsWordChar(c: char) {
    ('a' <= c <= 'z') || ('A' <= c <= 'Z') || IsDigit(c) || c == '_'
  }

  predicate AllWhitespace(s: string) {
    forall i :: 0 <= i < |s| ==> IsWhitespace(s[i])
  }

  /** `s.slice(n)` for a non-negative `n`: empty when `s` is shorter than `n`. */
  function Drop(s: string, n: nat): (r: string)
    ensures |s| <= n ==> r == []
    ensures n < |s| ==> |r| == |s| - n
  {
    if |s| <= n then "" else s[n..]
  }

  /** What `slice(n)` keeps is the text from position `n` on, character by character. */
  lemma DropChars(s: string, n: nat)
    ensures forall i :: 0 <= i < |Drop(s, n)| ==> Drop(s, n)[i] == s[n + i]
  {
  }

  /** The number of white-space characters `s` starts with. */
  function LeadingWhitespace(s: string): (k: nat)
    ensures k <= |s|
    ensures forall i :: 0 <= i < k ==> IsWhitespace(s[i])
    ensures k < |s| ==> !IsWhitespace(s[k])
  {
    if |s| > 0 && IsWhitespace(s[0]) then 1 + LeadingWhitespace(s[1..]) else 0
  }

  /** `s.trimStart()`: the suffix of `s` after its leading white space. */
  function TrimStart(s: string): (r: string)
    ensures |r| <= |s| && r == s[|s| - |r|..]
    ensures AllWhitespace(s[..|s| - |r|])
    ensures r == [] || !IsWhitespace(r[0])
  {
    s[LeadingWhitespace(s)..]
  }

  /** `s.trimEnd()`: the prefix of `s` before its trailing white space. */
  function TrimEnd(s: string): (r: string)
    ensures |r| <= |s| && r == s[..|r|]
    ensures AllWhitespace(s[|r|..])
    ensures r == [] || !IsWhitespace(r[|r| - 1])
  {
    if |s| > 0 && IsWhitespace(s[|s| - 1]) then
      var r := TrimEnd(s[..|s| - 1]);
      assert s[|r|..] == s[..|s| - 1][|r|..] + [s[|s| - 1]];
      r
    else s
  }

  /** `s.trim()`: `s` without leading and trailing white space; empty exactly when `s` is all
      white space, and `s` itself when `s` has no white space at either end. */
  function Trim(s: string): (r: string)
    ensures r == [] || (!IsWhitespace(r[0]) && !IsWhitespace(r[|r| - 1]))
    ensures r == [] <==> AllWhitespace(s)
    ensures s == [] || (!IsWhitespace(s[0]) && !IsWhitespace(s[|s| - 1])) ==> r == s
  {
    TrimEnds(s);
    TrimEnd(TrimStart(s))
  }

  lemma TrimEnds(s: string)
    ensures var r := TrimEnd(TrimStart(s));
            && (r == [] || (!IsWhitespace(r[0]) && !IsWhitespace(r[|r| - 1])))
            && (r == [] <==> AllWhitespace(s))
            && (s == [] || (!IsWhitespace(s[0]) && !IsWhitespace(s[|s| - 1])) ==> r == s)
  {
    var t := TrimStart(s);
    var r := TrimEnd(t);
    assert r == [] ==> AllWhitespace(s) by {
      if r == [] {
        assert t[|r|..] == t;
        assert s[..|s| - |t|] == s;
      }
    }
    assert t != [] ==> t[0] == s[|s| - |t|];
    assert r == [] <== t == [];
    assert |s| - |t| > 0 ==> s[..|s| - |t|][0] == s[0];
    assert |t| - |r| > 0 ==> t[|r|..][|t| - |r| - 1] == t[|t| - 1];
    assert t != [] ==> t[|t| - 1] == s[|s| - 1];
  }

  /** What `trim()` keeps is the text of `s` between its leading white space and a tail that
      is all white space. */
  /** What `trim()` keeps is the text of `s` between its leading white space and a tail that
      is all white space. */
  lemma TrimIsInfix(s: string)
    ensures LeadingWhitespace(s) + |Trim(s)| <= |s|
    ensures Trim(s) == s[LeadingWhitespace(s)..LeadingWhitespace(s) + |Trim(s)|]
    ensures AllWhitespace(s[LeadingWhitespace(s) + |Trim(s)|..])
  {
    var k := LeadingWhitespace(s);
    var t := s[k..];
    assert Trim(s) == TrimEnd(t);
    var r := TrimEnd(t);
    SliceOfSuffix(s, k, |r|);
  }

  /** Cutting the suffix `s[k..]` at `n` cuts `s` at `k + n`. */
  lemma SliceOfSuffix(s: string, k: nat, n: nat)
    requires k + n <= |s|
    ensures s[k..][..n] == s[k..k + n]
    ensures s[k..][n..] == s[k + n..]
  {
  }

  /** `s.split(sep)` for a one-character separator: the pieces between the separators, in
      order; there is always at least one piece, and no piece contains `sep`. */
  function Split(s: string, sep: char): (r: seq<string>)
    ensures |r| >= 1
    ensures forall k :: 0 <= k < |r| ==> sep !in r[k]
  {
    if |s| == 0 then [""]
    else
      var rest := Split(s[1..], sep);
      if s[0] == sep then [""] + rest
      else [[s[0]] + rest[0]] + rest[1..]
  }

  /** `parts.join(sep)`. */
  function Join(parts: seq<string>, sep: string): string {
    if |parts| == 0 then ""
    else if |parts| == 1 then parts[0]
    else parts[0] + sep + Join(parts[1..], sep)
  }

  /** Joining the pieces of a split with the separator gives the original string back. */
  lemma {:induction false} JoinSplit(s: string, sep: char)
    ensures Join(Split(s, sep), [sep]) == s
  {
    if |s| > 0 {
      var rest := Split(s[1..], sep);
      JoinSplit(s[1..], sep);
      if s[0] == sep {
        assert Split(s, sep) == [""] + rest;
        assert ([""] + rest)[1..] == rest;
      } else if |rest| == 1 {
        assert Split(s, sep) == [[s[0]] + rest[0]];
      } else {
        var parts := Split(s, sep);
        assert parts == [[s[0]] + rest[0]] + rest[1..];
        assert parts[1..] == rest[1..];
        assert Join(rest, [sep]) == rest[0] + [sep] + Join(rest[1..], [sep]);
        assert s == [s[0]] + s[1..];
      }
    }
  }

  /** Splitting a join of separator-free pieces gives the pieces back. */
  lemma {:induction false} SplitJoin(parts: seq<string>, sep: char)
    requires |parts| >= 1
    requires forall k :: 0 <= k < |parts| ==> sep !in parts[k]
    ensures Split(Join(parts, [sep]), sep) == parts
  {
    if |parts| == 1 {
      SplitWithoutSeparator(parts[0], sep);
    } else {
      SplitJoin(parts[1..], sep);
      var tail := Join(parts[1..], [sep]);
      SplitAtFirst(parts[0] + [sep] + tail, sep, |parts[0]|);
      assert (parts[0] + [sep] + tail)[..|parts[0]|] == parts[0];
      assert (parts[0] + [sep] + tail)[|parts[0]| + 1..] == tail;
      assert parts == [parts[0]] + parts[1..];
    }
  }

  /** A string without the separator splits into itself alone. */
  lemma {:induction false} SplitWithoutSeparator(s: string, sep: char)
    requires sep !in s
    ensures Split(s, sep) == [s]
  {
    if |s| > 0 {
      SplitWithoutSeparator(s[1..], sep);
      assert s == [s[0]] + s[1..];
    }
  }

  /** The first piece of a split ends at the first separator, and the rest is the split of
      what follows it. */
  lemma {:induction false} SplitAtFirst(s: string, sep: char, i: nat)
    requires i < |s| && s[i] == sep
    requires sep !in s[..i]
    ensures Split(s, sep) == [s[..i]] + Split(s[i + 1..], sep)
  {
    if i > 0 {
      assert s[1..][..i - 1] == s[1..i];
      assert s[1..][i..] == s[i + 1..];
      assert s[0] in s[..i];
      assert sep !in s[1..][..i - 1] by {
        assert s[1..][..i - 1] == s[..i][1..];
      }
      SplitAtFirst(s[1..], sep, i - 1);
      assert [s[0]] + s[1..i] == s[..i];
    }
  }

  /** `String.prototype.toLowerCase` on ASCII letters. */
  function LowerChar(c: char): char {
    if 'A' <= c <= 'Z' then (c as int + 32) as char else c
  }

  /** `String.prototype.toUpperCase` on ASCII letters. */
  function UpperChar(c: char): char {
    if 'a' <= c <= 'z' then (c as int - 32) as char else c
  }

  function ToLower(s: string): (r: string)
    ensures |r| == |s|
  {
    seq(|s|, i requires 0 <= i < |s| => LowerChar(s[i]))
  }

  function ToUpper(s: string): (r: string)
    ensures |r| == |s|
  {
    seq(|s|, i requires 0 <= i < |s| => UpperChar(s[i]))
  }

  /** JavaScript's `a < b` on strings: lexicographic by character, a proper prefix first. */
  predicate LexLess(a: string, b: string) {
    if |b| == 0 then false
    else if |a| == 0 then true
    else if a[0] != b[0] then a[0] < b[0]
    else LexLess(a[1..], b[1..])
  }

  /** Comparing against a one-character string looks at the first character only:
      `a >= "G"` holds exactly when `a` is non-empty and starts at or after `G`. */
  lemma LexLessOneChar(a: string, c: char)
    ensures LexLess(a, [c]) <==> |a| == 0 || a[0] < c
  {
    if |a| > 0 && a[0] == c {
      assert [c][1..] == [];
    }
  }

  /** The regex replacement `s.replace(/[^...]/g, "")`: the characters `keep` accepts, in
      order. */
  function KeepChars(s: string, keep: char -> bool): (r: string)
    ensures |r| <= |s|
    ensures forall i :: 0 <= i < |r| ==> keep(r[i])
  {
    if |s| == 0 then ""
    else (if keep(s[0]) then [s[0]] else "") + KeepChars(s[1..], keep)
  }

  /** A character occurs in the result of a removal exactly when it occurs in `s` and is kept. */
  lemma {:induction false} KeepCharsMembers(s: string, keep: char -> bool)
    ensures forall c :: c in KeepChars(s, keep) <==> c in s && keep(c)
  {
    if |s| > 0 {
      KeepCharsMembers(s[1..], keep);
      assert s == [s[0]] + s[1..];
    }
  }

  /** Removing characters that do not occur changes nothing. */
  lemma {:induction false} KeepCharsAllKept(s: string, keep: char -> bool)
    requires forall i :: 0 <= i < |s| ==> keep(s[i])
    ensures KeepChars(s, keep) == s
  {
    if |s| > 0 {
      KeepCharsAllKept(s[1..], keep);
      assert s == [s[0]] + s[1..];
    }
  }

  /** Character removal is idempotent. */
  lemma KeepCharsIdempotent(s: string, keep: char -> bool)
    ensures KeepChars(KeepChars(s, keep), keep) == KeepChars(s, keep)
  {
    KeepCharsAllKept(KeepChars(s, keep), keep);
  }

  /** Two successive removals are one removal of what either would remove. */
  lemma {:induction false} KeepCharsTwice(s: string, p: char -> bool, q: char -> bool, both: char -> bool)
    requires forall c :: both(c) == (p(c) && q(c))
    ensures KeepChars(KeepChars(s, p), q) == KeepChars(s, both)
  {
    if |s| > 0 {
      KeepCharsTwice(s[1..], p, q, both);
      var head := if p(s[0]) then [s[0]] else "";
      assert KeepChars(s, p) == head + KeepChars(s[1..], p);
      KeepCharsAppend(head, KeepChars(s[1..], p), q);
    }
  }

  lemma {:induction false} KeepCharsAppend(a: string, b: string, keep: char -> bool)
    ensures KeepChars(a + b, keep) == KeepChars(a, keep) + KeepChars(b, keep)
  {
    if |a| > 0 {
      var head := if keep(a[0]) then [a[0]] else "";
      assert (a + b)[0] == a[0] && (a + b)[1..] == a[1..] + b;
      assert KeepChars(a + b, keep) == head + KeepChars(a[1..] + b, keep);
      KeepCharsAppend(a[1..], b, keep);
      assert KeepChars(a, keep) == head + KeepChars(a[1..], keep);
    } else {
      assert a + b == b;
    }
  }

  function DigitChar(d: nat): (c: char)
    requires d < 10
    ensures IsDigit(c)
  {
    ('0' as int + d) as char
  }

  function DigitValue(c: char): (d: nat)
    requires IsDigit(c)
    ensures d < 10
  {
    c as int - '0' as int
  }

  /** `Number.prototype.toString()` on a non-negative integer: its decimal digits, with a
      leading `0` only for zero itself. */
  function NatToString(n: nat): (r: string)
    ensures |r| >= 1
    ensures forall i :: 0 <= i < |r| ==> IsDigit(r[i])
    ensures r[0] == '0' <==> n == 0
  {
    if n < 10 then [DigitChar(n)] else NatToString(n / 10) + [DigitChar(n % 10)]
  }

  /** The number a string of decimal digits denotes. */
  function DigitsValue(s: string): nat
    requires forall i :: 0 <= i < |s| ==> IsDigit(s[i])
  {
    if |s| == 0 then 0 else DigitsValue(s[..|s| - 1]) * 10 + DigitValue(s[|s| - 1])
  }

  /** The length of the run of decimal digits `s` starts with. */
  function DigitRun(s: string): (k: nat)
    ensures k <= |s|
    ensures forall i :: 0 <= i < k ==> IsDigit(s[i])
    ensures k < |s| ==> !IsDigit(s[k])
  {
    if |s| > 0 && IsDigit(s[0]) then 1 + DigitRun(s[1..]) else 0
  }

  /** `parseInt(s, 10)`: skip leading white space, read an optional sign, then the longest run
      of decimal digits; no digits at all is `NaN`, written `None`. */
  function ParseInt(s: string): (r: Option<int>)
    ensures r.None? <==> DigitRun(SignlessBody(TrimStart(s))) == 0
  {
    var t := TrimStart(s);
    var body := SignlessBody(t);
    var k := DigitRun(body);
    if k == 0 then None
    else
      var v: int := DigitsValue(body[..k]);
      Some(if |t| > 0 && t[0] == '-' then -v else v)
  }

  /** What follows an optional leading `+` or `-`. */
  function SignlessBody(t: string): string {
    if |t| > 0 && (t[0] == '-' || t[0] == '+') then t[1..] else t
  }

  lemma {:induction false} DigitsValueOfNatToString(n: nat)
    ensures DigitsValue(NatToString(n)) == n
  {
    if n >= 10 {
      var s := NatToString(n);
      assert s[..|s| - 1] == NatToString(n / 10);
      DigitsValueOfNatToString(n / 10);
    }
  }

  /** A run of digits ends where the digits end. */
  lemma {:induction false} DigitRunOfDigits(s: string, rest: string)
    requires forall i :: 0 <= i < |s| ==> IsDigit(s[i])
    requires rest == [] || !IsDigit(rest[0])
    ensures DigitRun(s + rest) == |s|
  {
    if |s| == 0 {
      assert s + rest == rest;
    } else {
      assert (s + rest)[0] == s[0];
      assert (s + rest)[1..] == s[1..] + rest;
      DigitRunOfDigits(s[1..], rest);
    }
  }

  lemma DigitIsNotWhitespace(c: char)
    requires IsDigit(c)
    ensures !IsWhitespace(c) && c != '-' && c != '+'
  {
  }

  /** A string that starts with a digit is its own trimmed, unsigned body. */
  lemma DigitFirstIsBody(t: string)
    requires |t| > 0 && IsDigit(t[0])
    ensures TrimStart(t) == t && SignlessBody(t) == t
  {
    DigitIsNotWhitespace(t[0]);
  }

  /** Text that starts with a digit is read as its leading run of digits. */
  lemma ParseIntDigitFirst(t: string)
    requires |t| > 0 && IsDigit(t[0])
    ensures ParseInt(t) == Some(DigitsValue(t[..DigitRun(t)]))
  {
    DigitFirstIsBody(t);
    DigitIsNotWhitespace(t[0]);
  }

  /** `parseInt` reads a leading run of digits and ignores the non-digit text after it. */
  lemma ParseIntDigitsThen(s: string, rest: string)
    requires |s| > 0 && forall i :: 0 <= i < |s| ==> IsDigit(s[i])
    requires rest == [] || !IsDigit(rest[0])
    ensures ParseInt(s + rest) == Some(DigitsValue(s))
  {
    var t := s + rest;
    assert t[0] == s[0];
    ParseIntDigitFirst(t);
    DigitRunOfDigits(s, rest);
    assert t[..|s|] == s;
  }

  /** `parseInt` reads back the decimal digits of `n` whatever non-digit text follows them. */
  lemma ParseIntNatToStringThen(n: nat, rest: string)
    requires rest == [] || !IsDigit(rest[0])
    ensures ParseInt(NatToString(n) + rest) == Some(n)
  {
    ParseIntDigitsThen(NatToString(n), rest);
    DigitsValueOfNatToString(n);
  }

  /** `parseInt(String(n), 10) == n` for every non-negative integer `n`. */
  lemma ParseIntNatToString(n: nat)
    ensures ParseInt(NatToString(n)) == Some(n)
  {
    ParseIntNatToStringThen(n, "");
    assert NatToString(n) + "" == NatToString(n);
  }
}
