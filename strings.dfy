/** String operations of the JavaScript runtime that the application relies on,
    written out: `trim`, `toLowerCase`, `split`, `join`, `startsWith`,
    `endsWith`, `includes`, decimal `String(n)`, and a total order standing in
    for `localeCompare`. */
module Strings {
  import opened Wrappers
  import opened Seqs

  /** The characters `String.prototype.trim` removes: ASCII white space,
      the line terminators, NO-BREAK SPACE, the byte-order mark and the
      Unicode space separators. */
  predicate IsWhitespace(c: char)
  {
    c == ' ' || c == '\t' || c == '\n' || c == '\r' || c == '\U{B}' || c == '\U{C}'
    || c == '\U{A0}' || c == '\U{FEFF}' || c == '\U{1680}' || ('\U{2000}' <= c <= '\U{200A}')
    || c == '\U{2028}' || c == '\U{2029}' || c == '\U{202F}' || c == '\U{205F}' || c == '\U{3000}'
  }

  /** Every character of `s` is white space. */
  predicate AllWhitespace(s: string)
  {
    forall i :: 0 <= i < |s| ==> IsWhitespace(s[i])
  }

  function TrimStart(s: string): (r: string)
    ensures |r| <= |s| && r == s[|s| - |r|..]
    ensures AllWhitespace(s[..|s| - |r|])
    ensures r == [] || !IsWhitespace(r[0])
  {
    if s != [] && IsWhitespace(s[0]) then
      var r := TrimStart(s[1..]);
      assert s[..|s| - |r|] == [s[0]] + s[1..][..|s| - 1 - |r|];
      r
    else s
  }

  function TrimEnd(s: string): (r: string)
    ensures |r| <= |s| && r == s[..|r|]
    ensures AllWhitespace(s[|r|..])
    ensures r == [] || !IsWhitespace(r[|r| - 1])
  {
    if s != [] && IsWhitespace(s[|s| - 1]) then
      var r := TrimEnd(s[..|s| - 1]);
      assert s[|r|..] == s[..|s| - 1][|r|..] + [s[|s| - 1]];
      r
    else s
  }

  /** `q` occurs in `s` starting at index `i`. */
  predicate InfixAt(s: string, q: string, i: int)
  {
    0 <= i <= |s| - |q| && s[i..i + |q|] == q
  }

  /** `s.trim()`. */
  function Trim(s: string): (r: string)
    ensures r == [] || (!IsWhitespace(r[0]) && !IsWhitespace(r[|r| - 1]))
  {
    TrimEnd(TrimStart(s))
  }

  /** Trimming cuts white space, and only white space, off the two ends. */
  lemma {:induction false} TrimCutsWhitespace(s: string)
    ensures exists i :: InfixAt(s, Trim(s), i) && AllWhitespace(s[..i]) && AllWhitespace(s[i + |Trim(s)|..])
  {
    var t := TrimStart(s);
    var r := TrimEnd(t);
    var i := |s| - |t|;
    assert InfixAt(s, r, i);
    assert s[i + |r|..] == t[|r|..];
  }

  /** Trimming never introduces a character. */
  lemma {:induction false} TrimChars(s: string)
    ensures forall c :: c in Trim(s) ==> c in s
  {
    var t := TrimStart(s);
    var r := TrimEnd(t);
    SliceChars(s, |s| - |t|);
    SliceChars(t, 0);
    assert t[0..] == t;
  }

  /** A prefix of a suffix holds only characters of the whole. */
  lemma {:induction false} SliceChars(s: string, i: nat)
    requires i <= |s|
    ensures forall n, c :: 0 <= n <= |s| - i && c in s[i..][..n] ==> c in s
  {
    forall n, c | 0 <= n <= |s| - i && c in s[i..][..n] ensures c in s {
      var k :| 0 <= k < n && s[i..][..n][k] == c;
      assert s[i + k] == c;
    }
  }

  /** A string that has no white space at either end is left as it is. */
  lemma {:induction false} TrimKeeps(s: string)
    requires s == [] || (!IsWhitespace(s[0]) && !IsWhitespace(s[|s| - 1]))
    ensures Trim(s) == s
  {
  }

  lemma {:induction false} TrimIdempotent(s: string)
    ensures Trim(Trim(s)) == Trim(s)
  {
    TrimKeeps(Trim(s));
  }

  /** Only a string made of white space alone trims to "". */
  lemma {:induction false} TrimEmpty(s: string)
    ensures Trim(s) == [] <==> AllWhitespace(s)
  {
    if s != [] && IsWhitespace(s[0]) {
      TrimEmpty(s[1..]);
      assert forall i :: 1 <= i < |s| ==> s[i] == s[1..][i - 1];
    }
  }

  /** Lower-case mapping of `toLowerCase` for ASCII and the Latin-1 capitals. */
  function LowerChar(c: char): char
  {
    if 'A' <= c <= 'Z' then (c as int + 32) as char
    else if '\U{C0}' <= c <= '\U{DE}' && c != '\U{D7}' then (c as int + 32) as char
    else c
  }

  function Lower(s: string): (r: string)
    ensures |r| == |s|
    ensures forall i :: 0 <= i < |s| ==> r[i] == LowerChar(s[i])
  {
    if s == [] then [] else [LowerChar(s[0])] + Lower(s[1..])
  }

  lemma {:induction false} LowerIdempotent(s: string)
    ensures Lower(Lower(s)) == Lower(s)
  {
  }

  predicate StartsWith(s: string, prefix: string)
  {
    |prefix| <= |s| && s[..|prefix|] == prefix
  }

  predicate EndsWith(s: string, suffix: string)
  {
    |suffix| <= |s| && s[|s| - |suffix|..] == suffix
  }

  /** `s.includes(q)`. */
  predicate Contains(s: string, q: string)
  {
    exists i | 0 <= i <= |s| - |q| :: InfixAt(s, q, i)
  }

  /** `s.split(sep)` for a one-character separator: always at least one part. */
  function Split(s: string, sep: char): (parts: seq<string>)
    ensures |parts| >= 1
    ensures forall i :: 0 <= i < |parts| ==> sep !in parts[i]
    decreases |s|
  {
    if sep !in s then [s]
    else
      var i := FirstIndex(s, sep);
      [s[..i]] + Split(s[i + 1..], sep)
  }

  /** `parts.join(sep)`. */
  function Join(parts: seq<string>, sep: string): string
  {
    if parts == [] then ""
    else if |parts| == 1 then parts[0]
    else parts[0] + sep + Join(parts[1..], sep)
  }

  lemma {:induction false} JoinCons(x: string, rest: seq<string>, sep: string)
    requires rest != []
    ensures Join([x] + rest, sep) == x + sep + Join(rest, sep)
  {
    assert ([x] + rest)[1..] == rest;
  }

  lemma {:induction false} JoinSnoc(parts: seq<string>, x: string, sep: string)
    requires parts != []
    ensures Join(parts + [x], sep) == Join(parts, sep) + sep + x
  {
    if |parts| > 1 {
      assert (parts + [x])[1..] == parts[1..] + [x];
      JoinSnoc(parts[1..], x, sep);
    }
  }

  /** Text appended to the last part ends up at the end of the joined string. */
  lemma {:induction false} JoinExtendLast(parts: seq<string>, a: string, b: string, sep: string)
    ensures Join(parts + [a + b], sep) == Join(parts + [a], sep) + b
  {
    if parts == [] {
      assert [a + b] == parts + [a + b];
    } else {
      JoinSnoc(parts, a + b, sep);
      JoinSnoc(parts, a, sep);
    }
  }

  /** Splitting and joining back with the same separator is the identity. */
  lemma {:induction false} JoinSplit(s: string, sep: char)
    ensures Join(Split(s, sep), [sep]) == s
    decreases |s|
  {
    if sep in s {
      var i := FirstIndex(s, sep);
      var head, tail := s[..i], s[i + 1..];
      JoinCons(head, Split(tail, sep), [sep]);
      JoinSplit(tail, sep);
      assert head + [sep] + tail == s;
    }
  }

  /** Joining parts free of the separator and splitting again gives the
      parts back. */
  lemma {:induction false} SplitJoin(parts: seq<string>, sep: char)
    requires parts != []
    requires forall i :: 0 <= i < |parts| ==> sep !in parts[i]
    ensures Split(Join(parts, [sep]), sep) == parts
  {
    if |parts| > 1 {
      var rest := Join(parts[1..], [sep]);
      FirstIndexAfter(parts[0], sep, rest);
      calc {
        Split(Join(parts, [sep]), sep);
        Split(parts[0] + [sep] + rest, sep);
        [parts[0]] + Split(rest, sep);
        { SplitJoin(parts[1..], sep); }
        [parts[0]] + parts[1..];
        parts;
      }
    }
  }

  /** A line splits into one more part than it has separators. */
  lemma {:induction false} SplitCount(s: string, sep: char)
    ensures |Split(s, sep)| == Count(s, sep) + 1
    decreases |s|
  {
    if sep in s {
      var i := FirstIndex(s, sep);
      SplitCount(s[i + 1..], sep);
      assert s == s[..i] + [sep] + s[i + 1..];
      CountAppend(s[..i] + [sep], s[i + 1..], sep);
      CountAppend(s[..i], [sep], sep);
      CountZero(s[..i], sep);
      assert Count([sep], sep) == 1 by { assert [sep][..0] == []; }
    } else {
      CountZero(s, sep);
    }
  }

  predicate IsDigit(c: char)
  {
    '0' <= c <= '9'
  }

  function DigitChar(d: nat): char
    requires d < 10
  {
    ('0' as int + d) as char
  }

  /** `String(n)` for a natural number: decimal, no leading zero. */
  function NatToString(n: nat): (r: string)
    ensures |r| >= 1
    ensures forall i :: 0 <= i < |r| ==> IsDigit(r[i])
    ensures r[0] == '0' ==> n == 0
  {
    if n < 10 then [DigitChar(n)] else NatToString(n / 10) + [DigitChar(n % 10)]
  }

  /** `String(i)` for an integer. */
  function IntToString(i: int): (r: string)
    ensures |r| >= 1
  {
    if i < 0 then "-" + NatToString(-i) else NatToString(i)
  }

  /** The value of a string of decimal digits. */
  function DigitsValue(s: string): nat
    requires forall i :: 0 <= i < |s| ==> IsDigit(s[i])
  {
    if s == [] then 0
    else
      assert IsDigit(s[|s| - 1]);
      DigitsValue(s[..|s| - 1]) * 10 + (s[|s| - 1] as int - '0' as int)
  }

  /** Reading back the decimal text of `n` gives `n`. */
  lemma {:induction false} NatToStringRoundTrip(n: nat)
    ensures DigitsValue(NatToString(n)) == n
  {
    if n >= 10 {
      NatToStringRoundTrip(n / 10);
      var r := NatToString(n);
      assert r[..|r| - 1] == NatToString(n / 10);
    }
  }

  /** The value of a digit character in bases up to 36, or 36 for a
      character that is no digit. */
  function DigitValue(c: char): (d: nat)
    ensures d <= 36
  {
    if '0' <= c <= '9' then c as int - '0' as int
    else if 'a' <= c <= 'z' then c as int - 'a' as int + 10
    else if 'A' <= c <= 'Z' then c as int - 'A' as int + 10
    else 36
  }

  /** The length of the longest prefix of `s` made of digits of base `radix`. */
  function DigitRun(s: string, radix: nat): (n: nat)
    ensures n <= |s|
    ensures forall i :: 0 <= i < n ==> DigitValue(s[i]) < radix
    ensures n < |s| ==> DigitValue(s[n]) >= radix
  {
    if s == [] || DigitValue(s[0]) >= radix then 0 else 1 + DigitRun(s[1..], radix)
  }

  /** The value of a string of digits in base `radix`. */
  function RadixValue(s: string, radix: nat): nat
  {
    if s == [] then 0 else RadixValue(s[..|s| - 1], radix) * radix + DigitValue(s[|s| - 1])
  }

  /** The text after an optional leading sign, and whether the sign was `-`. */
  function SkipSign(t: string): (string, bool)
  {
    if t != [] && t[0] == '-' then (t[1..], true)
    else if t != [] && t[0] == '+' then (t[1..], false)
    else (t, false)
  }

  /** The base `parseInt` reads in (16 after `0x`/`0X`, else 10), and the
      text after the prefix. */
  function SkipRadixPrefix(u: string): (nat, string)
  {
    if |u| >= 2 && u[0] == '0' && (u[1] == 'x' || u[1] == 'X') then (16, u[2..]) else (10, u)
  }

  /** The value of the longest run of base-`radix` digits at the start of
      `w`, or `None` when there is none. */
  function LeadingValue(w: string, radix: nat): Option<nat>
  {
    var n := DigitRun(w, radix);
    if n == 0 then None else Some(RadixValue(w[..n], radix))
  }

  /** `parseInt(s)` with no radix: leading white space is skipped, then an
      optional sign, then an optional `0x`/`0X` that selects base 16, then
      the longest run of digits; no digit at all gives `NaN` (`None`). */
  function ParseInt(s: string): Option<int>
  {
    var signed := SkipSign(TrimStart(s));
    var prefixed := SkipRadixPrefix(signed.0);
    var v := LeadingValue(prefixed.1, prefixed.0);
    if v.None? then None else Some(if signed.1 then 0 - v.value else v.value)
  }

  /** All of a string of decimal digits is read. */
  lemma {:induction false} DecimalLeadingValue(u: string)
    requires u != [] && forall i :: 0 <= i < |u| ==> IsDigit(u[i])
    ensures SkipRadixPrefix(u) == (10, u)
    ensures LeadingValue(u, 10) == Some(DigitsValue(u))
  {
    forall k | 0 <= k < |u| ensures DigitValue(u[k]) < 10 {
      assert IsDigit(u[k]);
    }
    assert u[..|u|] == u;
    RadixValueDecimal(u);
  }

  lemma {:induction false} RadixValueDecimal(s: string)
    requires forall i :: 0 <= i < |s| ==> IsDigit(s[i])
    ensures RadixValue(s, 10) == DigitsValue(s)
  {
    if s != [] {
      RadixValueDecimal(s[..|s| - 1]);
    }
  }

  lemma {:induction false} TrimStartKeeps(t: string)
    requires t != [] && !IsWhitespace(t[0])
    ensures TrimStart(t) == t
  {
  }

  /** `parseInt` of a string of decimal digits after an optional sign. */
  lemma {:induction false} ParseIntSigned(t: string, u: string, negative: bool, v: nat)
    requires SkipSign(t) == (u, negative) && TrimStart(t) == t
    requires LeadingValue(u, 10) == Some(v) && SkipRadixPrefix(u) == (10, u)
    ensures ParseInt(t) == Some(if negative then 0 - v else v)
  {
  }

  /** `parseInt(String(i)) == i`: reading back the decimal text of an
      integer gives the integer. */
  lemma {:induction false} ParseIntOfIntToString(i: int)
    ensures ParseInt(IntToString(i)) == Some(i)
  {
    if i < 0 {
      ParseIntOfNegative(i);
    } else {
      ParseIntOfNatToString(i);
    }
  }

  lemma {:induction false} ParseIntOfNatToString(i: int)
    requires i >= 0
    ensures ParseInt(IntToString(i)) == Some(i)
  {
    var m: nat := i;
    var u := NatToString(m);
    DecimalLeadingValue(u);
    assert IsDigit(u[0]);
    TrimStartKeeps(u);
    ParseIntSigned(u, u, false, DigitsValue(u));
    NatToStringRoundTrip(m);
  }

  lemma {:induction false} ParseIntOfNegative(i: int)
    requires i < 0
    ensures ParseInt(IntToString(i)) == Some(i)
  {
    var m: nat := -i;
    var u := NatToString(m);
    var t := "-" + u;
    assert IntToString(i) == t;
    DecimalLeadingValue(u);
    assert t[0] == '-' && t[1..] == u;
    TrimStartKeeps(t);
    NatToStringRoundTrip(m);
    ParseIntSigned(t, u, true, m);
  }

  /** The total order on strings that stands in for `localeCompare`:
      lexicographic by character code. */
  predicate StrLe(a: string, b: string)
  {
    a == [] || (b != [] && (a[0] < b[0] || (a[0] == b[0] && StrLe(a[1..], b[1..]))))
  }

  lemma {:induction false} StrLeTotal(a: string, b: string)
    ensures StrLe(a, b) || StrLe(b, a)
  {
    if a != [] && b != [] && a[0] == b[0] { StrLeTotal(a[1..], b[1..]); }
  }

  lemma {:induction false} StrLeAntisymmetric(a: string, b: string)
    ensures StrLe(a, b) && StrLe(b, a) ==> a == b
  {
    if a != [] && StrLe(a, b) && StrLe(b, a) {
      StrLeAntisymmetric(a[1..], b[1..]);
      assert a == [a[0]] + a[1..] && b == [b[0]] + b[1..];
    }
  }

  lemma {:induction false} StrLeTransitive(a: string, b: string, c: string)
    requires StrLe(a, b) && StrLe(b, c)
    ensures StrLe(a, c)
  {
    if a != [] && a[0] == b[0] && b[0] == c[0] { StrLeTransitive(a[1..], b[1..], c[1..]); }
  }

  lemma {:induction false} StrLeReflexive(a: string)
    ensures StrLe(a, a)
  {
    if a != [] { StrLeReflexive(a[1..]); }
  }

  /** `a.localeCompare(b)` as a sign: negative, zero or positive. */
  function Compare(a: string, b: string): (r: int)
    ensures r == 0 <==> a == b
    ensures r < 0 <==> StrLe(a, b) && a != b
    ensures r > 0 <==> StrLe(b, a) && a != b
  {
    StrLeTotal(a, b);
    StrLeAntisymmetric(a, b);
    if a == b then 0 else if StrLe(a, b) then -1 else 1
  }

  lemma {:induction false} CompareAntisymmetric(a: string, b: string)
    ensures Compare(a, b) < 0 <==> Compare(b, a) > 0
  {
    StrLeAntisymmetric(a, b);
  }
}
