/**
 * String operations that the renaming engine is built from: substring search,
 * Python/Rust `replace`, `split`, ASCII case folding, digit extraction, decimal
 * values and decimal printing, and whitespace trimming.
 */
module Text {
  import opened Wrappers

  /** `p` is a prefix of `s`. */
  predicate IsPrefix(p: string, s: string) {
    |p| <= |s| && s[..|p|] == p
  }

  /** `pat` occurs in `s` as a contiguous block: Python's `pat in s`, Rust's `contains`. */
  predicate Contains(s: string, pat: string)
    decreases |s|
  {
    IsPrefix(pat, s) || (|s| > 0 && Contains(s[1..], pat))
  }

  /** A one-character pattern occurs exactly when the character does. */
  lemma {:induction false} ContainsChar(s: string, c: char)
    ensures Contains(s, [c]) <==> c in s
  {
    if |s| > 0 {
      ContainsChar(s[1..], c);
      assert s == [s[0]] + s[1..];
    }
  }

  /** Every character of an occurring pattern occurs in the text. */
  lemma {:induction false} ContainsHasChars(s: string, pat: string, i: nat)
    requires Contains(s, pat) && i < |pat|
    ensures pat[i] in s
  {
    if IsPrefix(pat, s) {
      assert s[i] == pat[i];
    } else {
      ContainsHasChars(s[1..], pat, i);
    }
  }

  /** Whenever a pattern occurs, each of its prefixes occurs too. */
  lemma {:induction false} ContainsPrefixOfPattern(s: string, p: string, q: string)
    requires Contains(s, p + q)
    ensures Contains(s, p)
  {
    if IsPrefix(p + q, s) {
      assert s[..|p|] == (p + q)[..|p|] == p;
    } else {
      ContainsPrefixOfPattern(s[1..], p, q);
    }
  }

  /**
   * Python's `str.replace(pat, rep)` and Rust's `str::replace`: every
   * occurrence found scanning left to right, without overlap, is replaced.
   */
  function Replace(s: string, pat: string, rep: string): string
    requires pat != []
    decreases |s|
  {
    if |s| < |pat| then s
    else if s[..|pat|] == pat then rep + Replace(s[|pat|..], pat, rep)
    else [s[0]] + Replace(s[1..], pat, rep)
  }

  /** Replacing a pattern that does not occur changes nothing. */
  lemma {:induction false} ReplaceAbsent(s: string, pat: string, rep: string)
    requires pat != [] && !Contains(s, pat)
    ensures Replace(s, pat, rep) == s
  {
    if |s| >= |pat| {
      assert !IsPrefix(pat, s);
      ReplaceAbsent(s[1..], pat, rep);
      assert s == [s[0]] + s[1..];
    }
  }

  /** Replacing never introduces a character found in neither the text nor the replacement. */
  lemma {:induction false} ReplaceNoNewChar(s: string, pat: string, rep: string, x: char)
    requires pat != [] && x !in s && x !in rep
    ensures x !in Replace(s, pat, rep)
  {
    if |s| >= |pat| {
      if s[..|pat|] == pat {
        assert x !in s[|pat|..];
        ReplaceNoNewChar(s[|pat|..], pat, rep, x);
      } else {
        assert x !in s[1..];
        ReplaceNoNewChar(s[1..], pat, rep, x);
      }
    }
  }

  /** Replacing a single character by text without it removes that character. */
  lemma {:induction false} ReplaceRemovesChar(s: string, c: char, rep: string)
    requires c !in rep
    ensures c !in Replace(s, [c], rep)
  {
    if |s| >= 1 {
      ReplaceRemovesChar(s[1..], c, rep);
    }
  }

  /** A character the pattern does not hold survives replacing. */
  lemma {:induction false} ReplaceKeepsChar(s: string, pat: string, rep: string, x: char)
    requires pat != [] && x in s && x !in pat
    ensures x in Replace(s, pat, rep)
    decreases |s|
  {
    if |s| >= |pat| {
      if s[..|pat|] == pat {
        assert x in s[|pat|..] by {
          var i :| 0 <= i < |s| && s[i] == x;
          assert forall j :: 0 <= j < |pat| ==> s[j] == pat[j] != x;
          assert s[|pat|..][i - |pat|] == x;
        }
        ReplaceKeepsChar(s[|pat|..], pat, rep, x);
      } else if s[0] != x {
        assert x in s[1..] by {
          var i :| 0 <= i < |s| && s[i] == x;
          assert s[1..][i - 1] == x;
        }
        ReplaceKeepsChar(s[1..], pat, rep, x);
      }
    }
  }

  /** ASCII lower-casing of one character (Python's `str.lower` on ASCII text). */
  function LowerChar(c: char): char {
    if 'A' <= c <= 'Z' then (c as int + 32) as char else c
  }

  function Lower(s: string): string {
    seq(|s|, i requires 0 <= i < |s| => LowerChar(s[i]))
  }

  /** Python's `s.split(sep)` for a one-character separator: never empty. */
  function Split(s: string, sep: char): (parts: seq<string>)
    ensures |parts| >= 1
  {
    if |s| == 0 then [""]
    else
      var rest := Split(s[1..], sep);
      if s[0] == sep then [""] + rest
      else [[s[0]] + rest[0]] + rest[1..]
  }

  /** Python's `sep.join(parts)`. */
  function Join(parts: seq<string>, sep: char): string
    requires |parts| >= 1
  {
    if |parts| == 1 then parts[0] else parts[0] + [sep] + Join(parts[1..], sep)
  }

  /** Splitting then joining gives the text back, and no piece holds the separator. */
  lemma {:induction false} SplitJoin(s: string, sep: char)
    ensures Join(Split(s, sep), sep) == s
    ensures forall i :: 0 <= i < |Split(s, sep)| ==> sep !in Split(s, sep)[i]
  {
    if |s| > 0 {
      SplitJoin(s[1..], sep);
      var rest := Split(s[1..], sep);
      if s[0] == sep {
        assert Split(s, sep) == [""] + rest;
        assert ([""] + rest)[1..] == rest;
      } else {
        var parts := [[s[0]] + rest[0]] + rest[1..];
        assert Split(s, sep) == parts;
        if |rest| == 1 {
          assert Join(parts, sep) == [s[0]] + rest[0] == [s[0]] + Join(rest, sep);
        } else {
          assert parts[1..] == rest[1..];
          assert Join(rest, sep) == rest[0] + [sep] + Join(rest[1..], sep);
        }
        assert s == [s[0]] + s[1..];
        forall i | 0 <= i < |parts| ensures sep !in parts[i] {
          if i > 0 { assert parts[i] == rest[i]; }
        }
      }
    }
  }

  /** Python's `s.split(sep)[i]`, or None where Python raises IndexError. */
  function Segment(s: string, sep: char, i: nat): Option<string> {
    var parts := Split(s, sep);
    if i < |parts| then Some(parts[i]) else None
  }

  /** The separator is absent exactly when splitting yields one piece. */
  lemma {:induction false} SplitOnePiece(s: string, sep: char)
    ensures |Split(s, sep)| == 1 <==> sep !in s
    ensures sep !in s ==> Split(s, sep) == [s]
  {
    if |s| > 0 {
      SplitOnePiece(s[1..], sep);
      assert s == [s[0]] + s[1..];
      if s[0] != sep {
        assert |Split(s, sep)| == |Split(s[1..], sep)|;
      }
    }
  }

  predicate IsDigit(c: char) {
    '0' <= c <= '9'
  }

  predicate AllDigits(s: string) {
    forall i :: 0 <= i < |s| ==> IsDigit(s[i])
  }

  /** Python's `''.join(filter(str.isdigit, s))` on ASCII digits. */
  function Digits(s: string): (d: string)
    ensures AllDigits(d)
  {
    if s == [] then []
    else if IsDigit(s[0]) then [s[0]] + Digits(s[1..])
    else Digits(s[1..])
  }

  /** Digit extraction keeps exactly the digit characters, in order. */
  lemma {:induction false} DigitsSplit(a: string, b: string)
    ensures Digits(a + b) == Digits(a) + Digits(b)
  {
    if a != [] {
      assert (a + b)[1..] == a[1..] + b;
      DigitsSplit(a[1..], b);
    } else {
      assert a + b == b;
    }
  }

  lemma {:induction false} DigitsOfDigits(s: string)
    requires AllDigits(s)
    ensures Digits(s) == s
  {
    if s != [] {
      DigitsOfDigits(s[1..]);
      assert s == [s[0]] + s[1..];
    }
  }

  /** Some character of `s` is a digit exactly when the extracted digits are non-empty. */
  lemma {:induction false} DigitsEmpty(s: string)
    ensures Digits(s) == [] <==> forall i :: 0 <= i < |s| ==> !IsDigit(s[i])
  {
    if s != [] {
      DigitsEmpty(s[1..]);
      assert forall i :: 1 <= i < |s| ==> s[i] == s[1..][i - 1];
    }
  }

  function DigitValue(c: char): nat
    requires IsDigit(c)
  {
    c as int - '0' as int
  }

  /** The integer a string of decimal digits denotes (Python's `int` on digits, leading zeros allowed). */
  function DecimalValue(d: string): nat
    requires AllDigits(d)
  {
    if d == [] then 0 else DecimalValue(d[..|d| - 1]) * 10 + DigitValue(d[|d| - 1])
  }

  function DigitChar(k: nat): (c: char)
    requires k < 10
    ensures IsDigit(c) && DigitValue(c) == k
  {
    ('0' as int + k) as char
  }

  /** Python's `str(n)` for a natural number: its decimal digits, no leading zero. */
  function NatToString(n: nat): (s: string)
    ensures AllDigits(s) && |s| >= 1
  {
    if n < 10 then [DigitChar(n)] else NatToString(n / 10) + [DigitChar(n % 10)]
  }

  /** Printing a number and reading its digits back gives the number. */
  lemma {:induction false} NatToStringValue(n: nat)
    ensures DecimalValue(NatToString(n)) == n
  {
    if n >= 10 {
      NatToStringValue(n / 10);
      var s := NatToString(n);
      assert s[..|s| - 1] == NatToString(n / 10);
    }
  }

  /** Distinct numbers print differently. */
  lemma NatToStringInjective(m: nat, n: nat)
    requires NatToString(m) == NatToString(n)
    ensures m == n
  {
    NatToStringValue(m);
    NatToStringValue(n);
  }

  /** Characters Python's `str.isspace` accepts, which `str.strip()` and `int()` remove. */
  predicate IsPythonSpace(c: char) {
    c == ' ' || '\t' <= c <= '\r' || '\U{1C}' <= c <= '\U{1F}' || IsUnicodeSpace(c)
  }

  /** Characters with the Unicode White_Space property beyond ASCII, as Rust's `char::is_whitespace` and regex `\s`. */
  predicate IsUnicodeSpace(c: char) {
    c == '\U{85}' || c == '\U{A0}' || c == '\U{1680}' || '\U{2000}' <= c <= '\U{200A}'
    || c == '\U{2028}' || c == '\U{2029}' || c == '\U{202F}' || c == '\U{205F}' || c == '\U{3000}'
  }

  /** Rust's `char::is_whitespace`. */
  predicate IsRustSpace(c: char) {
    c == ' ' || '\t' <= c <= '\r' || IsUnicodeSpace(c)
  }

  function TrimStart(s: string, space: char -> bool): string
    decreases |s|
  {
    if s != [] && space(s[0]) then TrimStart(s[1..], space) else s
  }

  function TrimEnd(s: string, space: char -> bool): string
    decreases |s|
  {
    if s != [] && space(s[|s| - 1]) then TrimEnd(s[..|s| - 1], space) else s
  }

  /** Removes leading and trailing characters of the given class (`strip`, `trim`). */
  function Trim(s: string, space: char -> bool): string {
    TrimEnd(TrimStart(s, space), space)
  }

  /** A character outside the class survives trimming. */
  lemma TrimKeeps(s: string, space: char -> bool, i: nat)
    requires i < |s| && !space(s[i])
    ensures s[i] in Trim(s, space)
  {
    TrimStartKeeps(s, space, i);
    var t := TrimStart(s, space);
    var j :| 0 <= j < |t| && t[j] == s[i];
    TrimEndKeeps(t, space, j);
  }

  lemma {:induction false} TrimStartKeeps(s: string, space: char -> bool, i: nat)
    requires i < |s| && !space(s[i])
    ensures s[i] in TrimStart(s, space)
    decreases |s|
  {
    if space(s[0]) {
      assert s[1..][i - 1] == s[i];
      TrimStartKeeps(s[1..], space, i - 1);
    }
  }

  lemma {:induction false} TrimEndKeeps(s: string, space: char -> bool, i: nat)
    requires i < |s| && !space(s[i])
    ensures s[i] in TrimEnd(s, space)
    decreases |s|
  {
    if space(s[|s| - 1]) {
      assert s[..|s| - 1][i] == s[i];
      TrimEndKeeps(s[..|s| - 1], space, i);
    }
  }
}
