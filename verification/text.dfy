/** String primitives shared by every part of the model: substring search,
    ASCII case mapping, decimal rendering and parsing, zero padding,
    splitting on a separator, whitespace trimming and lexicographic order.
    Strings are `seq<char>` with one `char` per Unicode code point. */
module Text {

  // ---------------------------------------------------------------------------
  // Substring search (`includes` in TypeScript, `in` on strings in Python)
  // ---------------------------------------------------------------------------

  /** `t` occurs in `s` starting at index `i`. */
  predicate OccursAt(s: string, t: string, i: int) {
    0 <= i && i + |t| <= |s| && s[i..i + |t|] == t
  }

  /** `t` is a substring of `s`. */
  predicate Contains(s: string, t: string) {
    exists i | 0 <= i <= |s| - |t| :: OccursAt(s, t, i)
  }

  /** A string cannot contain `t` when one of the characters of `t` is absent from it. */
  lemma MissingCharNotContained(s: string, t: string, k: nat)
    requires k < |t| && t[k] !in s
    ensures !Contains(s, t)
  {
  }

  /** An occurrence inside a part is an occurrence inside the whole. */
  lemma ContainsInSlice(s: string, lo: int, hi: int, t: string)
    requires 0 <= lo <= hi <= |s| && Contains(s[lo..hi], t)
    ensures Contains(s, t)
  {
    var i :| 0 <= i <= (hi - lo) - |t| && OccursAt(s[lo..hi], t, i);
    forall j | 0 <= j < |t|
      ensures s[lo + i + j] == t[j]
    {
      assert s[lo..hi][i..i + |t|][j] == t[j];
    }
    assert s[lo + i..lo + i + |t|] == t;
    assert OccursAt(s, t, lo + i);
  }

  // ---------------------------------------------------------------------------
  // ASCII case mapping
  // ---------------------------------------------------------------------------

  predicate IsAsciiLower(c: char) { 'a' <= c <= 'z' }

  predicate IsAsciiUpper(c: char) { 'A' <= c <= 'Z' }

  function UpperChar(c: char): (r: char)
    ensures IsAsciiLower(c) ==> IsAsciiUpper(r) && r as int == c as int - 32
    ensures !IsAsciiLower(c) ==> r == c
  {
    if IsAsciiLower(c) then (c as int - 32) as char else c
  }

  function LowerChar(c: char): (r: char)
    ensures IsAsciiUpper(c) ==> IsAsciiLower(r) && r as int == c as int + 32
    ensures !IsAsciiUpper(c) ==> r == c
  {
    if IsAsciiUpper(c) then (c as int + 32) as char else c
  }

  /** `toUpperCase()` / `upper()`, restricted to the ASCII letters. */
  function Upper(s: string): (r: string)
    ensures |r| == |s|
    ensures forall i :: 0 <= i < |s| ==> r[i] == UpperChar(s[i])
  {
    seq(|s|, i requires 0 <= i < |s| => UpperChar(s[i]))
  }

  /** `lower()`, restricted to the ASCII letters. */
  function Lower(s: string): (r: string)
    ensures |r| == |s|
    ensures forall i :: 0 <= i < |s| ==> r[i] == LowerChar(s[i])
  {
    seq(|s|, i requires 0 <= i < |s| => LowerChar(s[i]))
  }

  /** Two strings equal up to case have the same upper-case form. */
  lemma SameLowerSameUpper(a: string, b: string)
    requires Lower(a) == Lower(b)
    ensures Upper(a) == Upper(b)
  {
    forall i | 0 <= i < |a|
      ensures Upper(a)[i] == Upper(b)[i]
    {
      assert Lower(a)[i] == Lower(b)[i];
    }
  }

  /** Lower-casing undoes a prior upper-casing as far as the comparison goes. */
  lemma LowerOfUpper(s: string)
    ensures Lower(Upper(s)) == Lower(s)
  {
  }

  /** Upper-casing an already upper-cased string changes nothing. */
  lemma UpperIdempotent(s: string)
    ensures Upper(Upper(s)) == Upper(s)
  {
  }

  /** Upper-casing works character by character, so it distributes over concatenation. */
  lemma UpperAppend(a: string, b: string)
    ensures Upper(a + b) == Upper(a) + Upper(b)
  {
  }

  // ---------------------------------------------------------------------------
  // Decimal digits
  // ---------------------------------------------------------------------------

  predicate IsDigit(c: char) { '0' <= c <= '9' }

  predicate AllDigits(s: string) { forall i :: 0 <= i < |s| ==> IsDigit(s[i]) }

  function DigitChar(d: nat): (c: char)
    requires d < 10
    ensures IsDigit(c)
  {
    ('0' as int + d) as char
  }

  function DigitValue(c: char): (d: nat)
    requires IsDigit(c)
    ensures d < 10 && DigitChar(d) == c
  {
    c as int - '0' as int
  }

  /** Decimal rendering of a natural number (`n.toString()`, `str(n)`): no sign, no leading zero. */
  function Dec(n: nat): (r: string)
    ensures 1 <= |r| && AllDigits(r)
    ensures r[0] == '0' <==> n == 0
    decreases n
  {
    if n < 10 then [DigitChar(n)] else Dec(n / 10) + [DigitChar(n % 10)]
  }

  /** The value of a string of decimal digits; leading zeros contribute nothing. */
  function ParseDec(s: string): nat
    requires AllDigits(s)
  {
    if |s| == 0 then 0 else ParseDec(s[..|s| - 1]) * 10 + DigitValue(s[|s| - 1])
  }

  /** Parsing a rendered number gives the number back. */
  lemma {:induction false} ParseDecOfDec(n: nat)
    ensures ParseDec(Dec(n)) == n
    decreases n
  {
    if n >= 10 {
      var r := Dec(n);
      assert r[..|r| - 1] == Dec(n / 10);
      ParseDecOfDec(n / 10);
    }
  }

  /** Different numbers render differently. */
  lemma DecInjective(a: nat, b: nat)
    requires Dec(a) == Dec(b)
    ensures a == b
  {
    ParseDecOfDec(a);
    ParseDecOfDec(b);
  }

  /** `c` repeated `n` times. */
  function Repeat(c: char, n: nat): (r: string)
    ensures |r| == n && forall i :: 0 <= i < n ==> r[i] == c
  {
    seq(n, _ => c)
  }

  /** A leading zero does not change the value of a digit string. */
  lemma {:induction false} ParseDecLeadingZero(s: string)
    requires AllDigits(s)
    ensures AllDigits(['0'] + s) && ParseDec(['0'] + s) == ParseDec(s)
    decreases |s|
  {
    if |s| > 0 {
      var z := ['0'] + s;
      assert z[..|z| - 1] == ['0'] + s[..|s| - 1];
      ParseDecLeadingZero(s[..|s| - 1]);
    }
  }

  /** Any number of leading zeros leaves the value unchanged. */
  lemma {:induction false} ParseDecLeadingZeros(n: nat, s: string)
    requires AllDigits(s)
    ensures AllDigits(Repeat('0', n) + s) && ParseDec(Repeat('0', n) + s) == ParseDec(s)
    decreases n
  {
    if n > 0 {
      var tail := Repeat('0', n - 1) + s;
      ParseDecLeadingZeros(n - 1, s);
      ParseDecLeadingZero(tail);
      assert Repeat('0', n) == ['0'] + Repeat('0', n - 1);
      assert Repeat('0', n) + s == ['0'] + tail;
    } else {
      assert Repeat('0', n) + s == s;
    }
  }

  /** `padStart(width, c)`: `s` prefixed with as many `c` as needed to reach `width`. */
  function PadStart(s: string, width: nat, c: char): (r: string)
    ensures |r| == if |s| >= width then |s| else width
    ensures r[|r| - |s|..] == s
    ensures forall i :: 0 <= i < |r| - |s| ==> r[i] == c
  {
    if |s| >= width then s else Repeat(c, width - |s|) + s
  }

  // ---------------------------------------------------------------------------
  // Splitting on a separator and joining back (`split(',')`, `split('\n')`)
  // ---------------------------------------------------------------------------

  /** The fields of `s` between occurrences of `sep`; an empty string has one empty field. */
  function Split(s: string, sep: char): (r: seq<string>)
    ensures |r| >= 1
    ensures forall k :: 0 <= k < |r| ==> sep !in r[k]
    decreases |s|
  {
    if |s| == 0 then [""]
    else
      var rest := Split(s[1..], sep);
      if s[0] == sep then [""] + rest else [[s[0]] + rest[0]] + rest[1..]
  }

  /** The fields joined with `sep` between consecutive ones. */
  function Join(fields: seq<string>, sep: char): string
    requires |fields| >= 1
    decreases |fields|
  {
    if |fields| == 1 then fields[0] else fields[0] + [sep] + Join(fields[1..], sep)
  }

  /** Splitting loses nothing: joining the fields restores the string. */
  lemma {:induction false} JoinSplit(s: string, sep: char)
    ensures Join(Split(s, sep), sep) == s
    decreases |s|
  {
    if |s| > 0 {
      var rest := Split(s[1..], sep);
      JoinSplit(s[1..], sep);
      if s[0] == sep {
        assert Split(s, sep)[1..] == rest;
      } else {
        var r := Split(s, sep);
        if |rest| == 1 {
          assert r == [[s[0]] + rest[0]];
        } else {
          assert r[1..] == rest[1..];
          assert Join(r, sep) == [s[0]] + rest[0] + [sep] + Join(rest[1..], sep);
        }
      }
    }
  }

  /** Joining fields that do not contain the separator and splitting again gives the fields back. */
  lemma {:induction false} SplitJoin(fields: seq<string>, sep: char)
    requires |fields| >= 1
    requires forall k :: 0 <= k < |fields| ==> sep !in fields[k]
    ensures Split(Join(fields, sep), sep) == fields
    decreases |fields|, |fields[0]|
  {
    if |fields[0]| == 0 {
      if |fields| > 1 {
        SplitJoin(fields[1..], sep);
        assert Join(fields, sep) == [sep] + Join(fields[1..], sep);
        assert Join(fields, sep)[1..] == Join(fields[1..], sep);
      }
    } else {
      var f := fields[0];
      var smaller := [f[1..]] + fields[1..];
      SplitJoin(smaller, sep);
      assert f[0] != sep by { assert f[0] in f; }
      assert Join(fields, sep) == [f[0]] + Join(smaller, sep);
      assert Join(fields, sep)[1..] == Join(smaller, sep);
      assert f == [f[0]] + f[1..];
      assert smaller[1..] == fields[1..];
      assert fields == [[f[0]] + smaller[0]] + smaller[1..];
    }
  }

  /** There is more than one field exactly when the separator occurs. */
  lemma {:induction false} SplitFieldCount(s: string, sep: char)
    ensures |Split(s, sep)| >= 2 <==> sep in s
    decreases |s|
  {
    if |s| > 0 {
      SplitFieldCount(s[1..], sep);
      assert sep in s <==> s[0] == sep || sep in s[1..];
    }
  }

  /** The first field is everything before the first separator. */
  lemma {:induction false} SplitFirstField(s: string, sep: char)
    ensures sep !in Split(s, sep)[0]
    ensures Split(s, sep)[0] <= s
    ensures sep in s ==> s[|Split(s, sep)[0]|] == sep
    decreases |s|
  {
    if |s| > 0 {
      SplitFirstField(s[1..], sep);
    }
  }

  /** The fields after the first are the fields of the text after the first separator. */
  lemma {:induction false} SplitAfterFirst(s: string, sep: char)
    requires sep in s
    ensures Split(s, sep)[1..] == Split(s[FirstIndex(s, sep) + 1..], sep)
    decreases |s|
  {
    if s[0] != sep {
      assert sep in s[1..] by {
        var k :| 0 <= k < |s| && s[k] == sep;
        assert s[1..][k - 1] == sep;
      }
      SplitAfterFirst(s[1..], sep);
      assert s[1..][FirstIndex(s[1..], sep) + 1..] == s[FirstIndex(s, sep) + 1..];
    }
  }

  /** The index of the first `c` in `s`. */
  function FirstIndex(s: string, c: char): (i: nat)
    requires c in s
    ensures i < |s| && s[i] == c && c !in s[..i]
  {
    if s[0] == c then 0 else 1 + FirstIndex(s[1..], c)
  }

  // ---------------------------------------------------------------------------
  // Whitespace trimming (`trim()` in TypeScript, `strip()` in Python)
  // ---------------------------------------------------------------------------

  /** The characters JavaScript's `String.prototype.trim` removes. */
  predicate IsJsSpace(c: char) {
    ('\t' <= c <= '\r') || c == ' ' || c == '\U{A0}' || c == '\U{1680}'
    || ('\U{2000}' <= c <= '\U{200A}') || c == '\U{2028}' || c == '\U{2029}'
    || c == '\U{202F}' || c == '\U{205F}' || c == '\U{3000}' || c == '\U{FEFF}'
  }

  /** The characters Python's `str.strip()` removes (those for which `str.isspace` holds). */
  predicate IsPySpace(c: char) {
    ('\t' <= c <= '\r') || ('\U{1C}' <= c <= ' ') || c == '\U{85}' || c == '\U{A0}'
    || c == '\U{1680}' || ('\U{2000}' <= c <= '\U{200A}') || c == '\U{2028}'
    || c == '\U{2029}' || c == '\U{202F}' || c == '\U{205F}' || c == '\U{3000}'
  }

  predicate AllSatisfy(s: string, p: char -> bool) {
    forall i :: 0 <= i < |s| ==> p(s[i])
  }

  /** `s` without its leading characters satisfying `ws`. */
  function TrimStart(s: string, ws: char -> bool): (r: string)
    ensures |r| <= |s| && r == s[|s| - |r|..]
    ensures AllSatisfy(s[..|s| - |r|], ws)
    ensures |r| > 0 ==> !ws(r[0])
    decreases |s|
  {
    if |s| > 0 && ws(s[0]) then TrimStart(s[1..], ws) else s
  }

  /** `s` without its trailing characters satisfying `ws`. */
  function TrimEnd(s: string, ws: char -> bool): (r: string)
    ensures |r| <= |s| && r == s[..|r|]
    ensures AllSatisfy(s[|r|..], ws)
    ensures |r| > 0 ==> !ws(r[|r| - 1])
    decreases |s|
  {
    if |s| > 0 && ws(s[|s| - 1]) then TrimEnd(s[..|s| - 1], ws) else s
  }

  /** `s` without leading and trailing characters satisfying `ws`. */
  function Trim(s: string, ws: char -> bool): string {
    TrimEnd(TrimStart(s, ws), ws)
  }

  /** What trimming means: the result is the middle of `s`, everything cut
      off is whitespace, and the result neither starts nor ends with whitespace. */
  lemma TrimSpec(s: string, ws: char -> bool) returns (a: nat, b: nat)
    ensures a <= b <= |s| && Trim(s, ws) == s[a..b]
    ensures AllSatisfy(s[..a], ws) && AllSatisfy(s[b..], ws)
    ensures var r := Trim(s, ws); |r| > 0 ==> !ws(r[0]) && !ws(r[|r| - 1])
  {
    var t := TrimStart(s, ws);
    var r := TrimEnd(t, ws);
    assert Trim(s, ws) == r;
    a, b := TrimParts(s, t, r, ws);
  }

  /** The two trimming passes combined, over their results alone. */
  lemma TrimParts(s: string, t: string, r: string, ws: char -> bool) returns (a: nat, b: nat)
    requires |t| <= |s| && t == s[|s| - |t|..] && AllSatisfy(s[..|s| - |t|], ws)
    requires |t| > 0 ==> !ws(t[0])
    requires |r| <= |t| && r == t[..|r|] && AllSatisfy(t[|r|..], ws)
    requires |r| > 0 ==> !ws(r[|r| - 1])
    ensures a <= b <= |s| && r == s[a..b]
    ensures AllSatisfy(s[..a], ws) && AllSatisfy(s[b..], ws)
    ensures |r| > 0 ==> !ws(r[0]) && !ws(r[|r| - 1])
  {
    a := |s| - |t|;
    b := a + |r|;
    SlicesOfSuffix(s, t, a, |r|);
    if |r| > 0 {
      assert r[0] == t[0];
    }
  }

  lemma SlicesOfSuffix(s: string, t: string, a: nat, m: nat)
    requires a <= |s| && t == s[a..] && m <= |t|
    ensures s[a..a + m] == t[..m] && s[a + m..] == t[m..]
  {
  }

  /** Trimming twice is trimming once. */
  lemma TrimIdempotent(s: string, ws: char -> bool)
    ensures Trim(Trim(s, ws), ws) == Trim(s, ws)
  {
    var r := Trim(s, ws);
    if |r| > 0 {
      assert TrimStart(r, ws) == r;
      assert TrimEnd(r, ws) == r;
    }
  }

  // ---------------------------------------------------------------------------
  // Lexicographic order (`Array.prototype.sort` on strings)
  // ---------------------------------------------------------------------------

  /** `a` sorts strictly before `b`: a proper prefix of `b`, or smaller at the first difference. */
  predicate Less(a: string, b: string)
    decreases |a|
  {
    |b| > 0 && (|a| == 0 || a[0] < b[0] || (a[0] == b[0] && Less(a[1..], b[1..])))
  }

  lemma {:induction false} LessIrreflexive(a: string)
    ensures !Less(a, a)
    decreases |a|
  {
    if |a| > 0 {
      LessIrreflexive(a[1..]);
    }
  }

  lemma {:induction false} LessTransitive(a: string, b: string, c: string)
    requires Less(a, b) && Less(b, c)
    ensures Less(a, c)
    decreases |a|
  {
    if |a| > 0 && a[0] == b[0] && b[0] == c[0] {
      LessTransitive(a[1..], b[1..], c[1..]);
    }
  }

  lemma {:induction false} LessTotal(a: string, b: string)
    requires a != b
    ensures Less(a, b) || Less(b, a)
    decreases |a|
  {
    if |a| > 0 && |b| > 0 && a[0] == b[0] {
      assert a[1..] != b[1..];
      LessTotal(a[1..], b[1..]);
    }
  }

  lemma LessAsymmetric(a: string, b: string)
    requires Less(a, b)
    ensures !Less(b, a)
  {
    if Less(b, a) {
      LessTransitive(a, b, a);
      LessIrreflexive(a);
    }
  }

  // ---------------------------------------------------------------------------
  // Counting
  // ---------------------------------------------------------------------------

  /** The number of occurrences of `c` in `s` (`s.count(c)`). */
  function CountChar(s: string, c: char): (n: nat)
    ensures n <= |s|
    ensures n == 0 <==> c !in s
  {
    if |s| == 0 then 0 else (if s[0] == c then 1 else 0) + CountChar(s[1..], c)
  }
}
