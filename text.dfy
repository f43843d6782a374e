/**
 * The string operations of Python's `str` that the core relies on: `strip()`,
 * `lower()`/`upper()`, `split(sep)`, substring tests (`icontains` in the ORM),
 * decimal rendering of integers and `int(text)`.
 *
 * Case mapping is modelled for ASCII letters only; whitespace is Python's
 * `str.isspace()` set.
 */
module Text {
  import opened Wrappers

  // ---------------------------------------------------------------- whitespace

  /** Python's `str.isspace()` for one character. */
  predicate IsSpace(c: char)
  {
    ('\t' <= c <= '\r') || ('\U{1c}' <= c <= ' ') || c == '\U{85}' || c == '\U{a0}' ||
    c == '\U{1680}' || ('\U{2000}' <= c <= '\U{200a}') || c == '\U{2028}' || c == '\U{2029}' ||
    c == '\U{202f}' || c == '\U{205f}' || c == '\U{3000}'
  }

  /** Neither starts nor ends with whitespace. */
  predicate Trimmed(s: string)
  {
    s == [] || (!IsSpace(s[0]) && !IsSpace(s[|s| - 1]))
  }

  /** Number of whitespace characters at the start of `s`. */
  function LeadingSpaces(s: string): (n: nat)
    ensures n <= |s|
    ensures forall k :: 0 <= k < n ==> IsSpace(s[k])
    ensures n < |s| ==> !IsSpace(s[n])
  {
    if s == [] || !IsSpace(s[0]) then 0 else 1 + LeadingSpaces(s[1..])
  }

  /** Number of whitespace characters at the end of `s`. */
  function TrailingSpaces(s: string): (n: nat)
    ensures n <= |s|
    ensures forall k :: |s| - n <= k < |s| ==> IsSpace(s[k])
    ensures n < |s| ==> !IsSpace(s[|s| - 1 - n])
  {
    if s == [] || !IsSpace(s[|s| - 1]) then 0 else 1 + TrailingSpaces(s[..|s| - 1])
  }

  /**
   * Python's `s.strip()`: the slice of `s` that starts after its leading
   * whitespace, such that everything outside the slice is whitespace and the
   * slice itself neither starts nor ends with whitespace.
   */
  function Strip(s: string): (r: string)
    ensures Trimmed(r)
    ensures var i := LeadingSpaces(s);
      i + |r| <= |s| && r == s[i..i + |r|] &&
      forall k :: 0 <= k < |s| && !(i <= k < i + |r|) ==> IsSpace(s[k])
  {
    var t := s[LeadingSpaces(s)..];
    t[..|t| - TrailingSpaces(t)]
  }

  lemma StripTrimmed(s: string)
    requires Trimmed(s)
    ensures Strip(s) == s
  {
    if s != [] {
      assert LeadingSpaces(s) == 0;
      assert TrailingSpaces(s) == 0;
    }
  }

  // ---------------------------------------------------------------- case

  function LowerChar(c: char): char
  {
    if 'A' <= c <= 'Z' then (c as int + 32) as char else c
  }

  function UpperChar(c: char): char
  {
    if 'a' <= c <= 'z' then (c as int - 32) as char else c
  }

  /** Python's `s.lower()` on ASCII letters. */
  function Lower(s: string): (r: string)
  {
    seq(|s|, i requires 0 <= i < |s| => LowerChar(s[i]))
  }

  /**
   * Text made of ASCII characters only: on such text the case mapping below
   * is exactly Python's, which maps some other letters to several
   * characters (`'ß'.upper() == 'SS'`).
   */
  predicate Ascii(s: string)
  {
    forall i | 0 <= i < |s| :: s[i] < '\U{80}'
  }

  /** Python's `s.upper()` on ASCII letters. */
  function Upper(s: string): (r: string)
  {
    seq(|s|, i requires 0 <= i < |s| => UpperChar(s[i]))
  }

  // ---------------------------------------------------------------- substrings

  /** `needle` occurs in `hay` as a contiguous substring. */
  predicate Contains(hay: string, needle: string)
  {
    exists i | 0 <= i <= |hay| - |needle| :: OccursAt(hay, needle, i)
  }

  predicate OccursAt(hay: string, needle: string, i: int)
  {
    0 <= i <= |hay| - |needle| && hay[i..i + |needle|] == needle
  }

  /** The ORM's `field__icontains=value`: a case-insensitive substring test. */
  predicate IContains(hay: string, needle: string)
  {
    Contains(Lower(hay), Lower(needle))
  }

  // ---------------------------------------------------------------- split / join

  function CountChar(s: string, c: char): nat
  {
    if s == [] then 0 else (if s[0] == c then 1 else 0) + CountChar(s[1..], c)
  }

  /** Index of the first `c` in `s`, or `|s|` when there is none. */
  function IndexOf(s: string, c: char): (i: nat)
    ensures i <= |s|
    ensures forall k :: 0 <= k < i ==> s[k] != c
    ensures i < |s| ==> s[i] == c
  {
    if s == [] then 0 else if s[0] == c then 0 else 1 + IndexOf(s[1..], c)
  }

  lemma {:induction false} CountCharSplitAt(s: string, c: char, i: nat)
    requires i < |s| && s[i] == c
    requires forall k :: 0 <= k < i ==> s[k] != c
    ensures CountChar(s, c) == 1 + CountChar(s[i + 1..], c)
  {
    if i > 0 {
      assert s[1..][i - 1] == c;
      CountCharSplitAt(s[1..], c, i - 1);
      assert s[1..][i..] == s[i + 1..];
    }
  }

  lemma {:induction false} CountCharAbsent(s: string, c: char)
    requires forall k :: 0 <= k < |s| ==> s[k] != c
    ensures CountChar(s, c) == 0
  {
    if s != [] {
      CountCharAbsent(s[1..], c);
    }
  }

  /**
   * Python's `s.split(sep)` for a one-character separator: one piece more than
   * there are separators, no piece contains the separator, and joining the
   * pieces back with the separator gives `s` (lemma SplitJoin).
   */
  function Split(s: string, sep: char): (r: seq<string>)
    ensures |r| == CountChar(s, sep) + 1
    ensures forall p :: p in r ==> sep !in p
    decreases |s|
  {
    var i := IndexOf(s, sep);
    if i == |s| then
      CountCharAbsent(s, sep);
      [s]
    else
      CountCharSplitAt(s, sep, i);
      [s[..i]] + Split(s[i + 1..], sep)
  }

  /** Python's `sep.join(parts)`. */
  function Join(parts: seq<string>, sep: char): string
    requires |parts| >= 1
  {
    if |parts| == 1 then parts[0] else parts[0] + [sep] + Join(parts[1..], sep)
  }

  lemma JoinCons(a: string, rest: seq<string>, sep: char)
    requires |rest| >= 1
    ensures Join([a] + rest, sep) == a + [sep] + Join(rest, sep)
  {
    assert ([a] + rest)[1..] == rest;
  }

  lemma SplitCons(s: string, sep: char, i: nat)
    requires i == IndexOf(s, sep) && i < |s|
    ensures Split(s, sep) == [s[..i]] + Split(s[i + 1..], sep)
  {
  }

  lemma SliceAround(s: string, i: nat, c: char)
    requires i < |s| && s[i] == c
    ensures s[..i] + [c] + s[i + 1..] == s
  {
  }

  lemma {:induction false} SplitJoin(s: string, sep: char)
    ensures Join(Split(s, sep), sep) == s
    decreases |s|
  {
    var i := IndexOf(s, sep);
    if i < |s| {
      var rest := Split(s[i + 1..], sep);
      SplitJoin(s[i + 1..], sep);
      SplitCons(s, sep, i);
      JoinCons(s[..i], rest, sep);
      SliceAround(s, i, sep);
    } else {
      assert Split(s, sep) == [s];
    }
  }

  // ---------------------------------------------------------------- decimal digits

  predicate IsDigit(c: char)
  {
    '0' <= c <= '9'
  }

  predicate AllDigits(s: string)
  {
    forall k :: 0 <= k < |s| ==> IsDigit(s[k])
  }

  function DigitChar(d: int): (c: char)
    requires 0 <= d < 10
    ensures IsDigit(c)
  {
    ('0' as int + d) as char
  }

  function DigitValue(c: char): (d: int)
    requires IsDigit(c)
    ensures 0 <= d < 10
  {
    c as int - '0' as int
  }

  /** The value of a string of decimal digits, most significant first (empty is 0). */
  function DigitsValue(s: string): nat
    requires AllDigits(s)
  {
    if s == [] then 0 else DigitsValue(s[..|s| - 1]) * 10 + DigitValue(s[|s| - 1])
  }

  /** Python's `str(n)` for a natural number: shortest decimal rendering. */
  function NatToString(n: nat): (r: string)
    ensures |r| >= 1 && AllDigits(r)
    ensures n >= 10 ==> r[0] != '0'
  {
    if n < 10 then [DigitChar(n)] else NatToString(n / 10) + [DigitChar(n % 10)]
  }

  /** Reading the decimal rendering of `n` gives back `n`. */
  lemma {:induction false} NatToStringRoundTrip(n: nat)
    ensures DigitsValue(NatToString(n)) == n
  {
    if n >= 10 {
      NatToStringRoundTrip(n / 10);
      var s := NatToString(n);
      assert s[..|s| - 1] == NatToString(n / 10);
    }
  }

  lemma NatToStringInjective(m: nat, n: nat)
    requires NatToString(m) == NatToString(n)
    ensures m == n
  {
    NatToStringRoundTrip(m);
    NatToStringRoundTrip(n);
  }

  /** Python's `str(n)` for any integer. */
  function IntToString(n: int): (r: string)
  {
    if n < 0 then "-" + NatToString(-n) else NatToString(n)
  }

  /** Digits grouped by single underscores, as Python's `int()` accepts: digit (`_`? digit)*. */
  predicate UnderscoredDigits(b: string)
  {
    |b| >= 1 && IsDigit(b[0]) && IsDigit(b[|b| - 1]) &&
    (forall k :: 0 <= k < |b| ==> IsDigit(b[k]) || b[k] == '_') &&
    forall k :: 0 <= k < |b| && b[k] == '_' ==> 0 < k < |b| - 1 && IsDigit(b[k + 1])
  }

  function DropUnderscores(b: string): (r: string)
    requires forall k :: 0 <= k < |b| ==> IsDigit(b[k]) || b[k] == '_'
    ensures AllDigits(r)
  {
    if b == [] then [] else (if b[0] == '_' then [] else [b[0]]) + DropUnderscores(b[1..])
  }

  /**
   * Python's `int(text)` in base 10: surrounding whitespace is ignored, an
   * optional sign, then digits grouped by single underscores; anything else
   * raises `ValueError` (here `None`).
   */
  function ParseInt(text: string): (r: Option<int>)
    ensures Strip(text) == [] ==> r.None?
    ensures r.Some? && r.value < 0 ==> Strip(text)[0] == '-'
  {
    ParseSigned(Strip(text))
  }

  /** `int()` on text that is already stripped: an optional sign, then the digits. */
  function ParseSigned(t: string): (r: Option<int>)
  {
    if t == [] then None
    else
      var negative := t[0] == '-';
      var body := if t[0] == '-' || t[0] == '+' then t[1..] else t;
      if !UnderscoredDigits(body) then None
      else
        var v: int := DigitsValue(DropUnderscores(body));
        Some(if negative then -v else v)
  }

  lemma {:induction false} DropUnderscoresDigits(b: string)
    requires AllDigits(b)
    ensures DropUnderscores(b) == b
  {
    if b != [] {
      DropUnderscoresDigits(b[1..]);
    }
  }

  /**
   * Only an optional sign followed by digits and underscores is read as a
   * number, once surrounding whitespace is stripped: text holding any other
   * character (a letter, a dot, inner whitespace) is refused.
   */
  lemma ParseIntShape(text: string)
    ensures ParseInt(text).Some? ==>
              var t := Strip(text);
              |t| >= 1 && (IsDigit(t[0]) || t[0] == '+' || t[0] == '-') &&
              forall k | 1 <= k < |t| :: IsDigit(t[k]) || t[k] == '_'
  {
    var t := Strip(text);
    if ParseInt(text).Some? {
      var body := if t[0] == '-' || t[0] == '+' then t[1..] else t;
      assert UnderscoredDigits(body);
      forall k | 1 <= k < |t|
        ensures IsDigit(t[k]) || t[k] == '_'
      {
        if t[0] == '-' || t[0] == '+' {
          assert t[k] == body[k - 1];
        } else {
          assert t[k] == body[k];
        }
      }
    }
  }

  lemma DigitsUnderscored(b: string)
    requires |b| >= 1 && AllDigits(b)
    ensures UnderscoredDigits(b)
  {
  }

  /** Reading plain digits, with or without a leading minus sign. */
  lemma ParseSignedDigits(t: string, body: string, negative: bool)
    requires |body| >= 1 && AllDigits(body)
    requires t == (if negative then "-" + body else body)
    ensures var v: int := DigitsValue(body); ParseSigned(t) == Some(if negative then -v else v)
  {
    DigitsUnderscored(body);
    DropUnderscoresDigits(body);
    var rest := if t[0] == '-' || t[0] == '+' then t[1..] else t;
    assert rest == body by {
      if negative {
        assert t[0] == '-' && t[1..] == body;
      } else {
        assert IsDigit(body[0]);
      }
    }
    assert (t[0] == '-') == negative by {
      if !negative {
        assert IsDigit(body[0]);
      }
    }
  }

  lemma ParseIntSigned(t: string, body: string, negative: bool)
    requires |body| >= 1 && AllDigits(body)
    requires t == (if negative then "-" + body else body)
    ensures var v: int := DigitsValue(body); ParseInt(t) == Some(if negative then -v else v)
  {
    assert !IsSpace(t[0]) && !IsSpace(t[|t| - 1]);
    StripTrimmed(t);
    ParseSignedDigits(t, body, negative);
  }

  /** `int(str(n)) == n`: every integer's rendering is read back as itself. */
  lemma ParseIntRoundTrip(n: int)
    ensures ParseInt(IntToString(n)) == Some(n)
  {
    var m: nat := if n < 0 then -n else n;
    NatToStringRoundTrip(m);
    ParseIntSigned(IntToString(n), NatToString(m), n < 0);
  }
}
