/**
  The Python string operations app.py relies on, over `string` (a sequence of
  code points, as a Python `str` is): `p in s`, `s.split(sep)`, `sep.join(parts)`,
  `s.replace(old, new)`, `s.strip()`, `str(n)` for a natural number, and the
  concatenation an f-string performs.
*/
module Text {

  // ---------------------------------------------------------------------------
  // Substring test: Python's `p in s`
  // ---------------------------------------------------------------------------

  /** `p` occurs in `s` as a contiguous block (the empty string occurs everywhere). */
  predicate Contains(s: string, p: string)
    decreases |s|
  {
    |p| <= |s| && (s[..|p|] == p || Contains(s[1..], p))
  }

  /** An occurrence at a known offset is an occurrence. */
  lemma {:induction false} ContainsAt(s: string, p: string, i: nat)
    requires i + |p| <= |s| && s[i..i + |p|] == p
    ensures Contains(s, p)
    decreases i
  {
    if i > 0 && s[..|p|] != p {
      assert s[1..][i - 1..i - 1 + |p|] == s[i..i + |p|];
      ContainsAt(s[1..], p, i - 1);
    }
  }

  /** Text placed before a string does not hide an occurrence in it. */
  lemma {:induction false} ContainsAfterPrefix(a: string, b: string, p: string)
    requires Contains(b, p)
    ensures Contains(a + b, p)
    decreases |a|
  {
    if a == [] {
      assert a + b == b;
    } else {
      ContainsAfterPrefix(a[1..], b, p);
      assert (a + b)[1..] == a[1..] + b;
    }
  }

  /** Text placed after a string does not hide an occurrence in it. */
  lemma {:induction false} ContainsBeforeSuffix(a: string, b: string, p: string)
    requires Contains(a, p)
    ensures Contains(a + b, p)
    decreases |a|
  {
    if a[..|p|] == p {
      assert (a + b)[..|p|] == a[..|p|];
    } else {
      ContainsBeforeSuffix(a[1..], b, p);
      assert (a + b)[1..] == a[1..] + b;
    }
  }

  /** A string that contains `a + b` contains `b`. */
  lemma {:induction false} ContainsSuffixOfPattern(s: string, a: string, b: string)
    requires Contains(s, a + b)
    ensures Contains(s, b)
    decreases |s|
  {
    var p := a + b;
    if s[..|p|] == p {
      assert s[|a|..|a| + |b|] == b;
      ContainsAt(s, b, |a|);
    } else {
      ContainsSuffixOfPattern(s[1..], a, b);
    }
  }

  /** Containment is transitive. */
  lemma {:induction false} ContainsInfix(s: string, part: string, p: string)
    requires Contains(s, part) && Contains(part, p)
    ensures Contains(s, p)
    decreases |s|
  {
    if s[..|part|] == part {
      ContainsPrefixOf(part, p, s);
    } else {
      ContainsInfix(s[1..], part, p);
    }
  }

  /** An occurrence inside a prefix of `s` is an occurrence in `s`. */
  lemma ContainsPrefixOf(part: string, p: string, s: string)
    requires Contains(part, p) && part <= s
    ensures Contains(s, p)
  {
    assert s == part + s[|part|..];
    ContainsBeforeSuffix(part, s[|part|..], p);
  }

  /** A one-character pattern occurs exactly when that character is an element. */
  lemma {:induction false} ContainsChar(s: string, c: char)
    ensures Contains(s, [c]) <==> c in s
    decreases |s|
  {
    if s != [] {
      ContainsChar(s[1..], c);
      assert s == [s[0]] + s[1..];
    }
  }

  // ---------------------------------------------------------------------------
  // Python's `s.split(sep)` and `sep.join(parts)` for a non-empty separator
  // ---------------------------------------------------------------------------

  /**
    The pieces between the leftmost non-overlapping occurrences of `sep`,
    scanning from the left; there is always at least one piece, and the
    first one is a prefix of `s`.
  */
  function SplitOn(s: string, sep: string): (parts: seq<string>)
    requires sep != ""
    ensures |parts| >= 1
    ensures parts[0] <= s
    decreases |s|
  {
    if |s| < |sep| then [s]
    else if s[..|sep|] == sep then [""] + SplitOn(s[|sep|..], sep)
    else
      var rest := SplitOn(s[1..], sep);
      [[s[0]] + rest[0]] + rest[1..]
  }

  /** The pieces with `sep` written between neighbours. */
  function Join(parts: seq<string>, sep: string): string
  {
    if |parts| == 0 then ""
    else if |parts| == 1 then parts[0]
    else parts[0] + sep + Join(parts[1..], sep)
  }

  /** Putting a character in front of the first piece puts it in front of the joined text. */
  lemma JoinConsHead(c: char, head: string, tail: seq<string>, sep: string)
    ensures Join([[c] + head] + tail, sep) == [c] + Join([head] + tail, sep)
  {
    if tail != [] {
      assert ([[c] + head] + tail)[1..] == tail;
      assert ([head] + tail)[1..] == tail;
    }
  }

  /** Splitting then joining with the same separator gives back the original text. */
  lemma {:induction false} JoinSplit(s: string, sep: string)
    requires sep != ""
    ensures Join(SplitOn(s, sep), sep) == s
    decreases |s|
  {
    if |s| < |sep| {
    } else if s[..|sep|] == sep {
      var rest := SplitOn(s[|sep|..], sep);
      JoinSplit(s[|sep|..], sep);
      assert ([""] + rest)[1..] == rest;
      assert s == s[..|sep|] + s[|sep|..];
    } else {
      var rest := SplitOn(s[1..], sep);
      JoinSplit(s[1..], sep);
      JoinConsHead(s[0], rest[0], rest[1..], sep);
      assert [rest[0]] + rest[1..] == rest;
      assert s == [s[0]] + s[1..];
    }
  }

  /** No piece of a split contains the separator: every occurrence was cut out. */
  lemma {:induction false} SplitPiecesFree(s: string, sep: string)
    requires sep != ""
    ensures forall k :: 0 <= k < |SplitOn(s, sep)| ==> !Contains(SplitOn(s, sep)[k], sep)
    decreases |s|
  {
    var parts := SplitOn(s, sep);
    if |s| < |sep| {
    } else if s[..|sep|] == sep {
      SplitPiecesFree(s[|sep|..], sep);
      assert !Contains("", sep);
      assert forall k :: 1 <= k < |parts| ==> parts[k] == SplitOn(s[|sep|..], sep)[k - 1];
    } else {
      var rest := SplitOn(s[1..], sep);
      SplitPiecesFree(s[1..], sep);
      var first := [s[0]] + rest[0];
      assert first <= s;
      if |sep| <= |first| {
        assert first[..|sep|] == s[..|sep|];
        assert first[1..] == rest[0];
      }
      assert !Contains(first, sep);
      assert forall k :: 1 <= k < |parts| ==> parts[k] == rest[k];
    }
  }

  // ---------------------------------------------------------------------------
  // Python's `s.replace(target, by)` for a non-empty target
  // ---------------------------------------------------------------------------

  /** Replaces the leftmost non-overlapping occurrences of `target`, scanning from the left. */
  function Replace(s: string, target: string, replacement: string): string
    requires target != ""
    decreases |s|
  {
    if |s| < |target| then s
    else if s[..|target|] == target then replacement + Replace(s[|target|..], target, replacement)
    else [s[0]] + Replace(s[1..], target, replacement)
  }

  /** Replacing is splitting on the target and joining with the replacement. */
  lemma {:induction false} ReplaceIsJoinOfSplit(s: string, target: string, replacement: string)
    requires target != ""
    ensures Replace(s, target, replacement) == Join(SplitOn(s, target), replacement)
    decreases |s|
  {
    if |s| < |target| {
    } else if s[..|target|] == target {
      var rest := SplitOn(s[|target|..], target);
      ReplaceIsJoinOfSplit(s[|target|..], target, replacement);
      assert ([""] + rest)[1..] == rest;
    } else {
      var rest := SplitOn(s[1..], target);
      ReplaceIsJoinOfSplit(s[1..], target, replacement);
      JoinConsHead(s[0], rest[0], rest[1..], replacement);
      assert [rest[0]] + rest[1..] == rest;
    }
  }

  /** Without an occurrence of the target, replacing changes nothing. */
  lemma {:induction false} ReplaceAbsent(s: string, target: string, replacement: string)
    requires target != "" && !Contains(s, target)
    ensures Replace(s, target, replacement) == s
    decreases |s|
  {
    if |s| >= |target| {
      ReplaceAbsent(s[1..], target, replacement);
      assert s == [s[0]] + s[1..];
    }
  }

  /** With an occurrence of the target, the result contains the replacement. */
  lemma {:induction false} ReplacePresent(s: string, target: string, replacement: string)
    requires target != "" && Contains(s, target)
    ensures Contains(Replace(s, target, replacement), replacement)
    decreases |s|
  {
    var rest := if s[..|target|] == target then s[|target|..] else s[1..];
    var r := Replace(rest, target, replacement);
    if s[..|target|] == target {
      assert (replacement + r)[0..|replacement|] == replacement;
      ContainsAt(replacement + r, replacement, 0);
    } else {
      ReplacePresent(s[1..], target, replacement);
      ContainsAfterPrefix([s[0]], r, replacement);
    }
  }

  // ---------------------------------------------------------------------------
  // Python's `s.strip()`
  // ---------------------------------------------------------------------------

  /**
    Python's `str.isspace()` for one code point: the ASCII controls \t \n \v \f \r,
    the separators U+001C..U+001F, the space, U+0085, U+00A0, U+1680, U+2000..U+200A,
    U+2028, U+2029, U+202F, U+205F and U+3000.
  */
  predicate IsSpace(c: char)
  {
    || c == ' '
    || '\t' <= c <= '\r'
    || '\U{1c}' <= c <= '\U{1f}'
    || c == '\U{85}' || c == '\U{a0}' || c == '\U{1680}'
    || '\U{2000}' <= c <= '\U{200a}'
    || c == '\U{2028}' || c == '\U{2029}' || c == '\U{202f}' || c == '\U{205f}'
    || c == '\U{3000}'
  }

  predicate AllSpace(s: string)
  {
    forall k :: 0 <= k < |s| ==> IsSpace(s[k])
  }

  /** The length of the whitespace run that starts `s`. */
  function LeadingSpace(s: string): (n: nat)
    ensures n <= |s| && AllSpace(s[..n])
    ensures n < |s| ==> !IsSpace(s[n])
  {
    if s != [] && IsSpace(s[0]) then 1 + LeadingSpace(s[1..]) else 0
  }

  /** The length of the whitespace run that ends `s`. */
  function TrailingSpace(s: string): (n: nat)
    ensures n <= |s| && AllSpace(s[|s| - n..])
    ensures n < |s| ==> !IsSpace(s[|s| - 1 - n])
  {
    if s != [] && IsSpace(s[|s| - 1]) then 1 + TrailingSpace(s[..|s| - 1]) else 0
  }

  /**
    `s` without its leading and trailing whitespace: empty exactly when `s` is
    all whitespace, and otherwise starting and ending with a non-space.
  */
  function Strip(s: string): (r: string)
    ensures |r| <= |s|
    ensures r == "" <==> AllSpace(s)
    ensures r != "" ==> !IsSpace(r[0]) && !IsSpace(r[|r| - 1])
  {
    var lead := LeadingSpace(s);
    if lead == |s| then ""
    else
      var trail := TrailingSpace(s);
      assert lead < |s| - trail;
      s[lead..|s| - trail]
  }

  /** Stripping removes whitespace only, and only at the two ends. */
  lemma StripRemovesOnlyOuterSpace(s: string)
    ensures LeadingSpace(s) + |Strip(s)| <= |s|
    ensures s == s[..LeadingSpace(s)] + Strip(s) + s[LeadingSpace(s) + |Strip(s)|..]
    ensures AllSpace(s[..LeadingSpace(s)]) && AllSpace(s[LeadingSpace(s) + |Strip(s)|..])
  {
    var lead, r := LeadingSpace(s), Strip(s);
    if lead == |s| {
      assert r == "" && s[lead..] == "";
      assert s == s[..lead] + r + s[lead..];
    } else {
      var trail := TrailingSpace(s);
      assert r == s[lead..|s| - trail];
      assert lead + |r| == |s| - trail;
      assert s[lead + |r|..] == s[|s| - trail..];
      assert s == s[..lead] + s[lead..|s| - trail] + s[|s| - trail..];
    }
  }

  /** A stripped string is unchanged by a second strip. */
  lemma StripIdempotent(s: string)
    ensures Strip(Strip(s)) == Strip(s)
  {
    var r := Strip(s);
    if r != "" {
      assert LeadingSpace(r) == 0;
      assert TrailingSpace(r) == 0;
      assert r[0..|r| - 0] == r;
    }
  }

  /** Stripping never introduces a character. */
  lemma StripKeepsNoNewChar(s: string, c: char)
    requires c in Strip(s)
    ensures c in s
  {
    StripRemovesOnlyOuterSpace(s);
    var lead := LeadingSpace(s);
    var i :| 0 <= i < |Strip(s)| && Strip(s)[i] == c;
    assert s[lead + i] == c;
  }

  // ---------------------------------------------------------------------------
  // Python's `str(n)` for a natural number
  // ---------------------------------------------------------------------------

  predicate IsDigit(c: char)
  {
    '0' <= c <= '9'
  }

  function DigitChar(d: nat): (c: char)
    requires d < 10
    ensures IsDigit(c) && c as int - '0' as int == d
  {
    ('0' as int + d) as char
  }

  /** The decimal numeral of `n`, most significant digit first. */
  function Decimal(n: nat): string
  {
    if n < 10 then [DigitChar(n)] else Decimal(n / 10) + [DigitChar(n % 10)]
  }

  /** A numeral is a non-empty run of digits without a leading zero. */
  lemma {:induction false} DecimalWellFormed(n: nat)
    ensures |Decimal(n)| >= 1
    ensures forall k :: 0 <= k < |Decimal(n)| ==> IsDigit(Decimal(n)[k])
    ensures Decimal(n)[0] == '0' ==> n == 0
  {
    if n >= 10 {
      DecimalWellFormed(n / 10);
      assert Decimal(n)[0] == Decimal(n / 10)[0];
    }
  }

  /**
    The value a string of decimal digits denotes. It is meant for digit
    strings only (such as the output of `Decimal`): a character below '0'
    is read as 0 and one above '9' as a value of 10 or more.
  */
  function DecimalValue(s: string): nat
  {
    if s == [] then 0
    else
      var last := s[|s| - 1] as int - '0' as int;
      DecimalValue(s[..|s| - 1]) * 10 + (if 0 <= last then last else 0)
  }

  /** Reading a numeral back gives the number it was written from. */
  lemma {:induction false} DecimalRoundTrip(n: nat)
    ensures DecimalValue(Decimal(n)) == n
  {
    if n >= 10 {
      var r := Decimal(n);
      DecimalWellFormed(n / 10);
      assert r[..|r| - 1] == Decimal(n / 10);
      DecimalRoundTrip(n / 10);
    } else {
      assert [DigitChar(n)][..0] == [];
    }
  }

  // ---------------------------------------------------------------------------
  // Concatenation of fragments (what an f-string produces)
  // ---------------------------------------------------------------------------

  function Concat(parts: seq<string>): string
  {
    if parts == [] then "" else parts[0] + Concat(parts[1..])
  }

  /** Concatenation splits at any fragment boundary. */
  lemma {:induction false} ConcatSplit(parts: seq<string>, k: nat)
    requires k <= |parts|
    ensures Concat(parts) == Concat(parts[..k]) + Concat(parts[k..])
    decreases k
  {
    if k > 0 {
      ConcatSplit(parts[1..], k - 1);
      assert parts[1..][..k - 1] == parts[..k][1..];
      assert parts[1..][k - 1..] == parts[k..];
    } else {
      assert parts[..0] == [];
      assert parts[0..] == parts;
    }
  }

  /** Every fragment occurs verbatim in the concatenation. */
  lemma ConcatContainsPart(parts: seq<string>, k: nat)
    requires k < |parts|
    ensures Contains(Concat(parts), parts[k])
  {
    ConcatSplit(parts, k);
    var before := Concat(parts[..k]);
    var after := Concat(parts[k..]);
    assert after == parts[k] + Concat(parts[k + 1..]) by {
      assert parts[k..][1..] == parts[k + 1..];
    }
    assert (parts[k] + Concat(parts[k + 1..]))[..|parts[k]|] == parts[k];
    ContainsAt(after, parts[k], 0);
    ContainsAfterPrefix(before, after, parts[k]);
  }

  /** Every fragment occurs verbatim in the concatenation, stated for all of them at once. */
  lemma ConcatContainsEveryPart(parts: seq<string>)
    ensures forall k :: 0 <= k < |parts| ==> Contains(Concat(parts), parts[k])
  {
    forall k | 0 <= k < |parts|
      ensures Contains(Concat(parts), parts[k])
    {
      ConcatContainsPart(parts, k);
    }
  }

  /** The concatenation ends with its last two fragments. */
  lemma ConcatEndsWithLastTwo(parts: seq<string>)
    requires |parts| >= 2
    ensures var tail := parts[|parts| - 2] + parts[|parts| - 1];
      |tail| <= |Concat(parts)| && Concat(parts)[|Concat(parts)| - |tail|..] == tail
  {
    var n := |parts|;
    ConcatSplit(parts, n - 2);
    var rest := parts[n - 2..];
    assert rest[1..][1..] == [];
    assert Concat(rest[1..]) == rest[1..][0] + Concat([]);
    assert rest[1..][0] + "" == parts[n - 1];
    assert Concat(rest) == parts[n - 2] + parts[n - 1];
  }
}
