/** The contract-number format "CTR-<year>-<sequence>" shared by
    `generateContractNumber` (nodejs/src/lib/database.ts) and
    `generate_contract_number` (database.py). */
module Numbering {
  import opened Results
  import opened Text

  /** "CTR-<year>-": the pattern `CTR-<year>-%` the count query matches. */
  function YearPrefix(year: nat): string {
    "CTR-" + Dec(year) + "-"
  }

  /** The sequence number padded to four digits (`padStart(4, '0')`, `{:04d}`). */
  function Sequence(n: nat): string {
    PadStart(Dec(n), 4, '0')
  }

  /** The contract number for the `n`-th contract of `year`. */
  function ContractNumber(year: nat, n: nat): string {
    YearPrefix(year) + Sequence(n)
  }

  predicate StartsWith(s: string, p: string) {
    |p| <= |s| && s[..|p|] == p
  }

  /** The sequence number a contract number carries for `year`, if it has the year's prefix and digits after it. */
  function ParseSequence(s: string, year: nat): Option<nat> {
    var p := YearPrefix(year);
    if StartsWith(s, p) && AllDigits(s[|p|..]) then Some(ParseDec(s[|p|..])) else None
  }

  /** `|Dec(n)|` grows with the number of decimal digits: at most four below 10000, more from there on. */
  lemma {:induction false} DecLength(n: nat)
    ensures n < 10 ==> |Dec(n)| == 1
    ensures n < 100 ==> |Dec(n)| <= 2
    ensures n < 1000 ==> |Dec(n)| <= 3
    ensures n < 10000 ==> |Dec(n)| <= 4
    ensures n >= 10 ==> |Dec(n)| >= 2
    ensures n >= 100 ==> |Dec(n)| >= 3
    ensures n >= 1000 ==> |Dec(n)| >= 4
    ensures n >= 10000 ==> |Dec(n)| >= 5
    decreases n
  {
    if n >= 10 {
      DecLength(n / 10);
    }
  }

  /** Below 10000 the sequence part has exactly four digits; from 10000 on it is the plain decimal. */
  lemma SequenceFormat(n: nat)
    ensures AllDigits(Sequence(n))
    ensures n < 10000 ==> |Sequence(n)| == 4
    ensures n >= 10000 ==> Sequence(n) == Dec(n) && |Sequence(n)| >= 5
  {
    DecLength(n);
  }

  /** The padded sequence reads back as the number it was made from. */
  lemma SequenceRoundTrip(n: nat)
    ensures AllDigits(Sequence(n)) && ParseDec(Sequence(n)) == n
  {
    var d := Dec(n);
    ParseDecOfDec(n);
    if |d| < 4 {
      ParseDecLeadingZeros(4 - |d|, d);
    }
  }

  /** A generated number reads back as its sequence number for its own year. */
  lemma ContractNumberRoundTrip(year: nat, n: nat)
    ensures StartsWith(ContractNumber(year, n), YearPrefix(year))
    ensures ParseSequence(ContractNumber(year, n), year) == Some(n)
  {
    var p := YearPrefix(year);
    var s := ContractNumber(year, n);
    assert s[..|p|] == p;
    assert s[|p|..] == Sequence(n);
    SequenceRoundTrip(n);
  }

  /** Different sequence numbers of one year give different contract numbers. */
  lemma ContractNumberInjective(year: nat, a: nat, b: nat)
    requires ContractNumber(year, a) == ContractNumber(year, b)
    ensures a == b
  {
    ContractNumberRoundTrip(year, a);
    ContractNumberRoundTrip(year, b);
  }

  /** In a string made of digits, a dash and anything, the first dash follows the digits. */
  lemma {:induction false} DigitsThenDash(a: string, t: string)
    requires AllDigits(a)
    ensures '-' in a + "-" + t && FirstIndex(a + "-" + t, '-') == |a|
    decreases |a|
  {
    var u := a + "-" + t;
    assert u[|a|] == '-';
    if |a| > 0 {
      assert u[1..] == a[1..] + "-" + t;
      DigitsThenDash(a[1..], t);
    }
  }

  /** Two "CTR-<digits>-" prefixes of one string carry the same digits. */
  lemma PrefixDigits(s: string, a: string, b: string, t: string)
    requires AllDigits(a) && AllDigits(b)
    requires s == "CTR-" + b + "-" + t
    requires StartsWith(s, "CTR-" + a + "-")
    ensures a == b
  {
    var u := s[4..];
    assert u == b + "-" + t;
    assert u[..|a| + 1] == a + "-" by {
      assert s[..|a| + 5] == "CTR-" + a + "-";
    }
    assert u == a + "-" + u[|a| + 1..];
    DigitsThenDash(b, t);
    DigitsThenDash(a, u[|a| + 1..]);
    assert a == u[..|a|] == b;
  }

  /** A contract number carries the count prefix of its own year and of no other year,
      so numbering one year never disturbs the count of another. */
  lemma ContractNumberYear(year: nat, other: nat, n: nat)
    ensures StartsWith(ContractNumber(year, n), YearPrefix(other)) <==> other == year
  {
    ContractNumberRoundTrip(year, n);
    if StartsWith(ContractNumber(year, n), YearPrefix(other)) {
      PrefixDigits(ContractNumber(year, n), Dec(other), Dec(year), Sequence(n));
      DecInjective(other, year);
    }
  }
}
