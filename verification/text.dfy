/** String operations the portal borrows from JavaScript: `toLowerCase`, `includes`,
    `trim`, `replace` with a string pattern, `parseInt(s, 10)`, and the UTF-16 `length`
    that string validators compare. A Dafny `char` is a Unicode scalar value. */
module Text {
  import opened Wrappers

  // ---------------------------------------------------------------- case folding

  /** Folds the ASCII capitals onto the lower-case letters; every other character is kept. */
  function LowerChar(c: char): char {
    if 'A' <= c <= 'Z' then (c as int + 32) as char else c
  }

  /** `s.toLowerCase()`, restricted to ASCII case folding. */
  function Lower(s: string): string {
    seq(|s|, i requires 0 <= i < |s| => LowerChar(s[i]))
  }

  /** Lower-casing twice is lower-casing once. */
  lemma LowerIdempotent(s: string)
    ensures Lower(Lower(s)) == Lower(s)
  {
  }

  // ---------------------------------------------------------------- substring search

  predicate IsPrefix(p: string, s: string) {
    |p| <= |s| && s[..|p|] == p
  }

  /** `hay.includes(needle)`: `needle` occurs somewhere in `hay` as a contiguous block. */
  predicate Contains(hay: string, needle: string)
    decreases |hay|
  {
    IsPrefix(needle, hay) || (|hay| > 0 && Contains(hay[1..], needle))
  }

  /** The characterisation of `Contains` by positions: some offset of `hay` starts a copy of `needle`. */
  lemma ContainsAt(hay: string, needle: string)
    ensures Contains(hay, needle) <==> OccursAt(hay, needle)
  {
    if Contains(hay, needle) {
      ContainsGivesOffset(hay, needle);
    }
    if OccursAt(hay, needle) {
      var k :| 0 <= k <= |hay| - |needle| && Window(hay, k, |needle|) == needle;
      OffsetGivesContains(hay, needle, k);
    }
  }

  lemma {:induction false} ContainsGivesOffset(hay: string, needle: string)
    requires Contains(hay, needle)
    ensures OccursAt(hay, needle)
    decreases |hay|
  {
    if IsPrefix(needle, hay) {
      assert Window(hay, 0, |needle|) == needle;
    } else {
      var tail := hay[1..];
      ContainsGivesOffset(tail, needle);
      var k :| 0 <= k <= |tail| - |needle| && Window(tail, k, |needle|) == needle;
      WindowShift(hay, k, |needle|);
    }
  }

  lemma {:induction false} OffsetGivesContains(hay: string, needle: string, k: int)
    requires 0 <= k <= |hay| - |needle| && Window(hay, k, |needle|) == needle
    ensures Contains(hay, needle)
    decreases k
  {
    if k == 0 {
      assert IsPrefix(needle, hay);
    } else {
      var tail := hay[1..];
      WindowShift(hay, k - 1, |needle|);
      OffsetGivesContains(tail, needle, k - 1);
    }
  }

  /** Dropping the first character of `hay` moves every in-range window one place left. */
  lemma WindowShift(hay: string, k: int, len: nat)
    requires |hay| > 0 && 0 <= k && k + 1 + len <= |hay|
    ensures Window(hay, k + 1, len) == Window(hay[1..], k, len)
  {
    var a, b := hay[k + 1..k + 1 + len], hay[1..][k..k + len];
    assert |a| == |b|;
    forall i | 0 <= i < len
      ensures a[i] == b[i]
    {
    }
  }

  /** The `len` characters of `hay` starting at offset `k` (empty when out of range). */
  function Window(hay: string, k: int, len: nat): string {
    if 0 <= k && k + len <= |hay| then hay[k..k + len] else []
  }

  /** Some offset of `hay` starts a copy of `needle`. */
  ghost predicate OccursAt(hay: string, needle: string) {
    exists k :: 0 <= k <= |hay| - |needle| && Window(hay, k, |needle|) == needle
  }

  /** Every string includes the empty string, so an empty search term keeps every row. */
  lemma ContainsEmpty(hay: string)
    ensures Contains(hay, "")
  {
    assert IsPrefix("", hay);
  }

  /** The case-insensitive match used by every search box:
      `hay.toLowerCase().includes(term.toLowerCase())`. */
  function Matches(hay: string, term: string): (b: bool)
    ensures b <==> OccursAt(Lower(hay), Lower(term))
  {
    ContainsAt(Lower(hay), Lower(term));
    Contains(Lower(hay), Lower(term))
  }

  /** An empty search term matches everything. */
  lemma MatchesEmpty(hay: string)
    ensures Matches(hay, "")
  {
    ContainsEmpty(Lower(hay));
  }

  /** A text always matches itself, whatever the case it is typed in. */
  lemma MatchesSelf(hay: string)
    ensures Matches(hay, hay)
  {
    assert IsPrefix(Lower(hay), Lower(hay));
  }

  /** The match ignores the case of the term. */
  lemma {:induction false} MatchesIgnoresTermCase(hay: string, term: string)
    ensures Matches(hay, term) <==> Matches(hay, Lower(term))
  {
    LowerIdempotent(term);
  }

  /** A present optional text that matches; `(x && x.toLowerCase().includes(...))`. */
  predicate MatchesOptional(hay: Option<string>, term: string) {
    hay.Some? && hay.value != "" && Matches(hay.value, term)
  }

  // ---------------------------------------------------------------- trimming

  /** The characters `String.prototype.trim` and `parseInt` skip: ECMAScript's WhiteSpace
      (tab, vertical tab, form feed, the byte-order mark and every space separator of
      category Zs) and LineTerminator (line feed, carriage return, line and paragraph
      separators). */
  predicate IsSpace(c: char) {
    || c == '\t' || c == '\n' || c == '\U{000B}' || c == '\U{000C}' || c == '\r'
    || c == ' ' || c == '\U{00A0}' || c == '\U{1680}'
    || ('\U{2000}' <= c <= '\U{200A}')
    || c == '\U{2028}' || c == '\U{2029}' || c == '\U{202F}' || c == '\U{205F}'
    || c == '\U{3000}' || c == '\U{FEFF}'
  }

  function TrimStart(s: string): (r: string)
    ensures |r| <= |s| && r == s[|s| - |r|..]
    ensures forall i :: 0 <= i < |s| - |r| ==> IsSpace(s[i])
    ensures |r| > 0 ==> !IsSpace(r[0])
  {
    if |s| > 0 && IsSpace(s[0]) then TrimStart(s[1..]) else s
  }

  function TrimEnd(s: string): (r: string)
    ensures |r| <= |s| && r == s[..|r|]
    ensures forall i :: |r| <= i < |s| ==> IsSpace(s[i])
    ensures |r| > 0 ==> !IsSpace(r[|r| - 1])
  {
    if |s| > 0 && IsSpace(s[|s| - 1]) then TrimEnd(s[..|s| - 1]) else s
  }

  /** `s.trim()`: white space is removed from both ends, and nothing else is. */
  function Trim(s: string): (r: string)
    ensures |r| <= |s|
    ensures |r| > 0 ==> !IsSpace(r[0]) && !IsSpace(r[|r| - 1])
    ensures forall c :: c in r ==> c in s
    ensures forall c :: c in s && !IsSpace(c) ==> c in r
  {
    var t := TrimStart(s);
    var r := TrimEnd(t);
    assert forall c :: c in r ==> c in t;
    assert forall c :: c in t ==> c in s;
    forall c | c in s && !IsSpace(c) ensures c in r {
      var i :| 0 <= i < |s| && s[i] == c;
      assert t[i - (|s| - |t|)] == c;
      assert r[i - (|s| - |t|)] == c;
    }
    r
  }

  /** `s.trim()` is empty exactly when `s` consists of white space only. */
  lemma TrimEmptyIffBlank(s: string)
    ensures Trim(s) == "" <==> forall i :: 0 <= i < |s| ==> IsSpace(s[i])
  {
    var t := TrimStart(s);
    if Trim(s) == "" {
      assert |t| == 0;
    } else {
      var u := Trim(s);
      assert !IsSpace(u[|u| - 1]);
      assert u[|u| - 1] == t[|u| - 1];
      assert t[|u| - 1] == s[|s| - |t| + |u| - 1];
    }
  }

  // ---------------------------------------------------------------- replace

  /** `s.replace(pattern, repl)` with a string pattern: only the FIRST occurrence is replaced. */
  function ReplaceFirst(s: string, pattern: char, repl: char): (r: string)
    ensures |r| == |s|
    ensures forall i :: 0 <= i < |s| && s[i] != pattern ==> r[i] == s[i]
    ensures forall i :: 0 <= i < |s| && s[i] == pattern ==>
              r[i] == if pattern in s[..i] then pattern else repl
  {
    if |s| == 0 then s
    else if s[0] == pattern then [repl] + s[1..]
    else [s[0]] + ReplaceFirst(s[1..], pattern, repl)
  }

  /** Replacing in a text whose first occurrence of the pattern follows `a` rewrites just that
      character. */
  lemma ReplaceFirstSplits(a: string, b: string, pattern: char, repl: char)
    requires pattern !in a
    ensures ReplaceFirst(a + [pattern] + b, pattern, repl) == a + [repl] + b
  {
    var s := a + [pattern] + b;
    var r := ReplaceFirst(s, pattern, repl);
    var t := a + [repl] + b;
    assert s[..|a|] == a;
    forall i | 0 <= i < |s| ensures r[i] == t[i] {
      if i < |a| {
        assert s[i] == a[i] == t[i];
      } else if i > |a| {
        assert s[i] == b[i - |a| - 1] == t[i];
        assert s[..i][|a|] == pattern;
      }
    }
  }

  // ---------------------------------------------------------------- parseInt(s, 10)

  predicate IsDigit(c: char) {
    '0' <= c <= '9'
  }

  function DigitValue(c: char): nat
    requires IsDigit(c)
  {
    c as int - '0' as int
  }

  /** The longest prefix of `s` made of decimal digits. */
  function DigitPrefix(s: string): (r: string)
    ensures |r| <= |s| && r == s[..|r|]
    ensures forall i :: 0 <= i < |r| ==> IsDigit(r[i])
    ensures |r| < |s| ==> !IsDigit(s[|r|])
  {
    if |s| > 0 && IsDigit(s[0]) then [s[0]] + DigitPrefix(s[1..]) else []
  }

  /** The number a non-empty run of decimal digits denotes, most significant digit first. */
  function DigitsValue(d: string): nat
    requires forall i :: 0 <= i < |d| ==> IsDigit(d[i])
  {
    if |d| == 0 then 0 else 10 * DigitsValue(d[..|d| - 1]) + DigitValue(d[|d| - 1])
  }

  /** `parseInt(s, 10)`: leading white space is skipped, one optional sign is read, then the
      longest run of digits; `None` stands for `NaN`, returned when no digit follows. */
  function ParseInt(s: string): (r: Option<int>)
    ensures r.None? <==> |DigitPrefix(SignFree(TrimStart(s)))| == 0
    ensures r.Some? && r.value < 0 ==> TrimStart(s)[0] == '-'
  {
    ParseTrimmed(TrimStart(s))
  }

  /** `parseInt` once the leading white space is gone. */
  function ParseTrimmed(t: string): (r: Option<int>)
    ensures r.None? <==> |DigitPrefix(SignFree(t))| == 0
    ensures r.Some? && r.value < 0 ==> t[0] == '-'
  {
    var negative := |t| > 0 && t[0] == '-';
    var digits := DigitPrefix(SignFree(t));
    var magnitude: int := if |digits| == 0 then 0 else DigitsValue(digits);
    if |digits| == 0 then None
    else if negative then Some(-magnitude)
    else Some(magnitude)
  }

  /** Digits and signs are not white space. */
  lemma SignOrDigitIsNotSpace(c: char)
    requires IsDigit(c) || c == '-' || c == '+'
    ensures !IsSpace(c)
  {
  }

  /** `t` without one leading `+` or `-`. */
  function SignFree(t: string): (r: string)
    ensures r == t || (|t| > 0 && (t[0] == '+' || t[0] == '-') && r == t[1..])
  {
    if |t| > 0 && (t[0] == '+' || t[0] == '-') then t[1..] else t
  }

  function DigitChar(d: nat): (c: char)
    requires d < 10
    ensures IsDigit(c) && DigitValue(c) == d
  {
    ('0' as int + d) as char
  }

  /** The decimal rendering of a natural number, without leading zeros. */
  function NatText(n: nat): (r: string)
    ensures |r| > 0
    ensures forall i :: 0 <= i < |r| ==> IsDigit(r[i])
  {
    if n < 10 then [DigitChar(n)] else NatText(n / 10) + [DigitChar(n % 10)]
  }

  /** The decimal rendering of an integer, as a number input displays it. */
  function IntText(n: int): string {
    if n < 0 then "-" + NatText(-n) else NatText(n)
  }

  lemma {:induction false} NatTextValue(n: nat)
    ensures DigitsValue(NatText(n)) == n
    decreases n
  {
    if n >= 10 {
      var r := NatText(n);
      assert r[..|r| - 1] == NatText(n / 10);
      NatTextValue(n / 10);
    }
  }

  lemma DigitPrefixOfDigits(d: string)
    requires forall i :: 0 <= i < |d| ==> IsDigit(d[i])
    ensures DigitPrefix(d) == d
  {
  }

  /** Leading white space does not change what `parseInt` reads. */
  lemma ParseIntSkipsLeadingSpace(c: char, s: string)
    requires IsSpace(c)
    ensures ParseInt([c] + s) == ParseInt(s)
  {
    assert ([c] + s)[1..] == s;
    assert TrimStart([c] + s) == TrimStart(s);
  }

  /** The digit run of digits followed by a non-digit stops at the non-digit. */
  lemma {:induction false} DigitPrefixStops(d: string, rest: string)
    requires forall i :: 0 <= i < |d| ==> IsDigit(d[i])
    requires |rest| == 0 || !IsDigit(rest[0])
    ensures DigitPrefix(d + rest) == d
  {
    if |d| > 0 {
      assert (d + rest)[1..] == d[1..] + rest;
      DigitPrefixStops(d[1..], rest);
      assert d == [d[0]] + d[1..];
    } else {
      assert d + rest == rest;
    }
  }

  /** What `parseInt` reads once its digit run is known. */
  lemma ParseTrimmedOfRun(t: string, d: string)
    requires |d| > 0 && forall i :: 0 <= i < |d| ==> IsDigit(d[i])
    requires DigitPrefix(SignFree(t)) == d
    ensures var v: int := DigitsValue(d);
            ParseTrimmed(t) == Some(if |t| > 0 && t[0] == '-' then -v else v)
  {
  }

  /** A run of digits is read up to the first non-digit. */
  lemma ParseIntStops(d: string, rest: string)
    requires |d| > 0 && forall i :: 0 <= i < |d| ==> IsDigit(d[i])
    requires |rest| == 0 || !IsDigit(rest[0])
    ensures ParseInt(d + rest) == Some(DigitsValue(d))
  {
    UnsignedRunDigits(d, rest);
    ParseUnsignedRun(d + rest, d);
  }

  /** Without a sign, the digits read are the run up to the first non-digit. */
  lemma UnsignedRunDigits(d: string, rest: string)
    requires |d| > 0 && forall i :: 0 <= i < |d| ==> IsDigit(d[i])
    requires |rest| == 0 || !IsDigit(rest[0])
    ensures IsDigit((d + rest)[0])
    ensures DigitPrefix(SignFree(d + rest)) == d
  {
    var dr := d + rest;
    DigitPrefixStops(d, rest);
    assert dr[0] == d[0];
    assert SignFree(dr) == dr;
  }

  /** Text opening with a digit reads as its run of digits. */
  lemma ParseUnsignedRun(t: string, d: string)
    requires |t| > 0 && IsDigit(t[0])
    requires |d| > 0 && forall i :: 0 <= i < |d| ==> IsDigit(d[i])
    requires DigitPrefix(SignFree(t)) == d
    ensures ParseInt(t) == Some(DigitsValue(d))
  {
    ParseTrimmedOfRun(t, d);
    ParseIntUnpadded(t);
  }

  /** So is a run of digits after a minus sign, negated. */
  lemma ParseIntStopsNegative(d: string, rest: string, n: int)
    requires |d| > 0 && forall i :: 0 <= i < |d| ==> IsDigit(d[i])
    requires |rest| == 0 || !IsDigit(rest[0])
    requires DigitsValue(d) == -n
    ensures ParseInt(['-'] + (d + rest)).Some? && ParseInt(['-'] + (d + rest)).value == n
  {
    NegativeRunDigits(d, rest);
    ParseNegativeRun(['-'] + (d + rest), d, n);
  }

  /** After a minus sign, the digits read are the run up to the first non-digit. */
  lemma NegativeRunDigits(d: string, rest: string)
    requires |d| > 0 && forall i :: 0 <= i < |d| ==> IsDigit(d[i])
    requires |rest| == 0 || !IsDigit(rest[0])
    ensures DigitPrefix(SignFree(['-'] + (d + rest))) == d
  {
    var dr := d + rest;
    DigitPrefixStops(d, rest);
    var t := ['-'] + dr;
    assert t[1..] == dr;
  }

  /** Text opening with a minus sign and a run of digits reads as the run negated. */
  lemma ParseNegativeRun(t: string, d: string, n: int)
    requires |t| > 0 && t[0] == '-'
    requires |d| > 0 && forall i :: 0 <= i < |d| ==> IsDigit(d[i])
    requires DigitPrefix(SignFree(t)) == d
    requires DigitsValue(d) == -n
    ensures ParseInt(t).Some? && ParseInt(t).value == n
  {
    ParseTrimmedOfRun(t, d);
    ParseIntUnpadded(t);
  }

  /** `parseInt` stops at the first character that is not a digit: whatever follows a
      rendered integer is ignored. */
  lemma ParseIntIgnoresTrailing(n: int, rest: string)
    requires |rest| == 0 || !IsDigit(rest[0])
    ensures ParseInt(IntText(n) + rest) == Some(n)
  {
    if n < 0 {
      NegativeTextStops(n, rest);
      var r := ParseInt(IntText(n) + rest);
      assert r == Some(r.value);
    } else {
      NatTextValue(n);
      ParseIntStops(NatText(n), rest);
    }
  }

  lemma NegativeTextStops(n: int, rest: string)
    requires n < 0
    requires |rest| == 0 || !IsDigit(rest[0])
    ensures ParseInt(IntText(n) + rest).Some? && ParseInt(IntText(n) + rest).value == n
  {
    var d := NatText(-n);
    NegativeTextShape(n, rest);
    NatTextValue(-n);
    ParseIntStopsNegative(d, rest, n);
  }

  /** A negative number renders as a minus sign before its magnitude. */
  lemma NegativeTextShape(n: int, rest: string)
    requires n < 0
    ensures IntText(n) + rest == ['-'] + (NatText(-n) + rest)
  {
    assert IntText(n) == ['-'] + NatText(-n);
  }

  /** Text that starts with a sign or a digit is read as it stands. */
  lemma ParseIntUnpadded(u: string)
    requires |u| > 0 && (IsDigit(u[0]) || u[0] == '-')
    ensures ParseInt(u) == ParseTrimmed(u)
  {
    SignOrDigitIsNotSpace(u[0]);
  }

  /** `parseInt` reads back the text an integer is rendered as. */
  lemma ParseIntRoundTrip(n: int)
    ensures ParseInt(IntText(n)) == Some(n)
  {
    var m: nat := if n < 0 then -n else n;
    var digits := NatText(m);
    var t := IntText(n);
    assert t[0] == '-' || IsDigit(t[0]);
    SignOrDigitIsNotSpace(t[0]);
    assert TrimStart(t) == t;
    assert SignFree(t) == digits by {
      if n < 0 {
        assert t == "-" + digits;
        assert t[1..] == digits;
      } else {
        assert !(t[0] == '+' || t[0] == '-');
      }
    }
    DigitPrefixOfDigits(digits);
    NatTextValue(m);
  }

  // ---------------------------------------------------------------- UTF-16 length

  /** The UTF-16 code units a character takes: two for a character outside the Basic
      Multilingual Plane (a surrogate pair), one otherwise. */
  function CodeUnits(c: char): nat {
    if c as int >= 0x1_0000 then 2 else 1
  }

  /** `s.length` in JavaScript, which the validators' `min` and `max` compare: the number of
      UTF-16 code units, which is at least the number of characters and at most twice it,
      and equals it exactly when no character lies outside the Basic Multilingual Plane. */
  function Utf16Length(s: string): (n: nat)
    ensures |s| <= n <= 2 * |s|
    ensures n == |s| <==> forall i :: 0 <= i < |s| ==> s[i] as int < 0x1_0000
  {
    if |s| == 0 then 0
    else
      var rest := Utf16Length(s[1..]);
      assert forall i :: 1 <= i < |s| ==> s[i] == s[1..][i - 1];
      CodeUnits(s[0]) + rest
  }

  /** The length of a concatenation is the sum of the lengths. */
  lemma {:induction false} Utf16LengthAppend(a: string, b: string)
    ensures Utf16Length(a + b) == Utf16Length(a) + Utf16Length(b)
  {
    if |a| == 0 {
      assert a + b == b;
    } else {
      assert (a + b)[1..] == a[1..] + b;
      Utf16LengthAppend(a[1..], b);
    }
  }

  /** An emoji is one character but two code units. */
  lemma EmojiTakesTwoUnits()
    ensures |"\U{1F600}"| == 1 && Utf16Length("\U{1F600}") == 2
  {
  }
}
