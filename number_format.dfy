/**
 * The thousands separator applied to the site-wide view and session counts:
 * `n.toString().replace(/\B(?=(\d{3})+(?!\d))/g, ",")`
 * (src/pages/stats.js:92 and :96).
 *
 * The regular expression is modelled by what it matches: a zero-width
 * position p that is not a word boundary (`\B`) and from which a run of
 * digits, a positive multiple of three long, reaches a non-digit or the end
 * (`(?=(\d{3})+(?!\d))`). The global replace inserts `,` at every such position.
 */
module NumberFormat {

  predicate IsDigit(c: char) {
    '0' <= c <= '9'
  }

  /** The characters of `\w`: the positions between them and the rest are word boundaries. */
  predicate IsWordChar(c: char) {
    IsDigit(c) || 'a' <= c <= 'z' || 'A' <= c <= 'Z' || c == '_'
  }

  predicate IsDigits(s: string) {
    forall i :: 0 <= i < |s| ==> IsDigit(s[i])
  }

  function DigitChar(d: nat): (c: char)
    requires d < 10
    ensures IsDigit(c)
  {
    (('0' as int) + d) as char
  }

  function DigitValue(c: char): (d: nat)
    requires IsDigit(c)
    ensures d < 10 && DigitChar(d) == c
  {
    (c as int) - ('0' as int)
  }

  // ---------------------------------------------------------------------------
  // Number.prototype.toString on integers
  // ---------------------------------------------------------------------------

  /** Decimal digits of a natural number, without leading zeros. */
  function Decimal(n: nat): (s: string)
    ensures |s| > 0 && IsDigits(s)
    ensures s[0] == '0' ==> n == 0 && s == "0"
  {
    if n < 10 then [DigitChar(n)] else Decimal(n / 10) + [DigitChar(n % 10)]
  }

  /** `n.toString()` for an integer count: a minus sign for negative counts, then the digits. */
  function NumberToString(n: int): (s: string)
    ensures n >= 0 ==> IsDigits(s) && |s| > 0
    ensures n < 0 ==> |s| > 1 && s[0] == '-' && IsDigits(s[1..])
    ensures ',' !in s
  {
    if n < 0 then "-" + Decimal(-n) else Decimal(n)
  }

  /** Reads back a string of decimal digits. */
  function ParseDigits(s: string): nat
    requires IsDigits(s)
  {
    if s == [] then 0 else ParseDigits(s[..|s| - 1]) * 10 + DigitValue(s[|s| - 1])
  }

  /** Reads back an optionally signed string of decimal digits. */
  function ParseNumber(s: string): int
    requires s == [] || IsDigits(s) || (s[0] == '-' && IsDigits(s[1..]))
  {
    if s != [] && s[0] == '-' then -(ParseDigits(s[1..]) as int) else ParseDigits(s)
  }

  lemma {:induction false} DecimalRoundTrip(n: nat)
    ensures ParseDigits(Decimal(n)) == n
  {
    if n >= 10 {
      DecimalRoundTrip(n / 10);
      var s := Decimal(n);
      assert s[..|s| - 1] == Decimal(n / 10);
    }
  }

  // ---------------------------------------------------------------------------
  // The regular expression and the global replace
  // ---------------------------------------------------------------------------

  /** A word character just before position p. */
  predicate WordBefore(s: string, p: nat)
    requires p <= |s|
  {
    p > 0 && IsWordChar(s[p - 1])
  }

  /** A word character just after position p. */
  predicate WordAfter(s: string, p: nat)
    requires p <= |s|
  {
    p < |s| && IsWordChar(s[p])
  }

  /** The length of the run of digits starting at position p. */
  function DigitRun(s: string, p: nat): nat
    requires p <= |s|
    decreases |s| - p
  {
    if p < |s| && IsDigit(s[p]) then 1 + DigitRun(s, p + 1) else 0
  }

  /** `\B(?=(\d{3})+(?!\d))` matches the empty string at position p. */
  predicate SeparatorAt(s: string, p: nat)
    requires p <= |s|
    ensures SeparatorAt(s, p) ==> 0 < p < |s| && IsWordChar(s[p - 1]) && IsDigit(s[p])
  {
    && WordBefore(s, p) == WordAfter(s, p)
    && DigitRun(s, p) > 0
    && DigitRun(s, p) % 3 == 0
  }

  /** The replace scanning from position p to the end. */
  function ReplaceFrom(s: string, p: nat): (r: string)
    requires p <= |s|
    ensures |r| >= |s| - p
    decreases |s| - p
  {
    (if SeparatorAt(s, p) then "," else "") + (if p == |s| then "" else [s[p]] + ReplaceFrom(s, p + 1))
  }

  /** The global replace of the separator pattern by a comma. */
  function InsertSeparators(s: string): (r: string)
    ensures |r| >= |s|
  {
    ReplaceFrom(s, 0)
  }

  /** A count as the page shows it: its decimal string with separators inserted. */
  function FormatCount(n: int): (r: string)
    ensures RemoveCommas(r) == NumberToString(n)
  {
    InsertSeparatorsRemove(NumberToString(n));
    RemoveCommasNone(NumberToString(n));
    InsertSeparators(NumberToString(n))
  }

  // ---------------------------------------------------------------------------
  // Round trip: the replace only inserts commas
  // ---------------------------------------------------------------------------

  function RemoveCommas(s: string): (r: string)
    ensures ',' !in r
  {
    if s == [] then [] else (if s[0] == ',' then [] else [s[0]]) + RemoveCommas(s[1..])
  }

  lemma RemoveCommasAppend(a: string, b: string)
    ensures RemoveCommas(a + b) == RemoveCommas(a) + RemoveCommas(b)
  {
    if a != [] {
      assert (a + b)[0] == a[0] && (a + b)[1..] == a[1..] + b;
      RemoveCommasAppend(a[1..], b);
      var h := if a[0] == ',' then [] else [a[0]];
      assert RemoveCommas(a + b) == h + RemoveCommas(a[1..] + b);
      assert h + (RemoveCommas(a[1..]) + RemoveCommas(b)) == (h + RemoveCommas(a[1..])) + RemoveCommas(b);
    } else {
      assert a + b == b;
    }
  }

  lemma RemoveCommasNone(s: string)
    requires ',' !in s
    ensures RemoveCommas(s) == s
  {
  }

  lemma {:induction false} ReplaceFromRemove(s: string, p: nat)
    requires p <= |s|
    ensures RemoveCommas(ReplaceFrom(s, p)) == RemoveCommas(s[p..])
    decreases |s| - p
  {
    var sep := if SeparatorAt(s, p) then "," else "";
    assert RemoveCommas(sep) == [];
    if p == |s| {
      assert ReplaceFrom(s, p) == sep;
    } else {
      ReplaceFromRemove(s, p + 1);
      RemoveCommasAppend(sep, [s[p]] + ReplaceFrom(s, p + 1));
      RemoveCommasAppend([s[p]], ReplaceFrom(s, p + 1));
      assert s[p..] == [s[p]] + s[p + 1..];
      RemoveCommasAppend([s[p]], s[p + 1..]);
    }
  }

  /** Deleting the commas of the result gives back the input, commas apart. */
  lemma InsertSeparatorsRemove(s: string)
    ensures RemoveCommas(InsertSeparators(s)) == RemoveCommas(s)
  {
    ReplaceFromRemove(s, 0);
    assert s[0..] == s;
  }

  /** Deleting the commas of a formatted count and parsing gives the count back. */
  lemma FormatRoundTrip(n: int)
    ensures var plain := RemoveCommas(FormatCount(n));
      plain == NumberToString(n)
      && (plain == [] || IsDigits(plain) || (plain[0] == '-' && IsDigits(plain[1..])))
      && ParseNumber(plain) == n
  {
    var t := NumberToString(n);
    InsertSeparatorsRemove(t);
    RemoveCommasNone(t);
    if n < 0 {
      DecimalRoundTrip(-n);
      assert t[1..] == Decimal(-n);
    } else {
      DecimalRoundTrip(n);
    }
  }

  // ---------------------------------------------------------------------------
  // Shape: groups of three from the right
  // ---------------------------------------------------------------------------

  /**
   * Commas exactly at the positions whose distance from the end is a multiple
   * of four, digits everywhere else: groups of three digits from the right,
   * each but the first followed by a comma.
   */
  predicate Grouped(r: string) {
    forall i :: 0 <= i < |r| ==> (r[i] == ',' <==> (|r| - i) % 4 == 0) && (r[i] != ',' ==> IsDigit(r[i]))
  }

  lemma {:induction false} DigitRunOfDigits(d: string, p: nat)
    requires IsDigits(d) && p <= |d|
    ensures DigitRun(d, p) == |d| - p
    decreases |d| - p
  {
    if p < |d| {
      DigitRunOfDigits(d, p + 1);
    }
  }

  /** In a digit string, a comma goes before position p exactly when 0 < p and a multiple of three digits follow. */
  lemma SeparatorInDigits(d: string, p: nat)
    requires IsDigits(d) && p <= |d|
    ensures SeparatorAt(d, p) <==> 0 < p < |d| && (|d| - p) % 3 == 0
  {
    DigitRunOfDigits(d, p);
  }

  /** A digit in front of a grouped string, where no comma belongs. */
  lemma GroupedDigit(x: char, tail: string)
    requires IsDigit(x) && Grouped(tail) && (|tail| + 1) % 4 != 0
    ensures Grouped([x] + tail)
  {
  }

  /** A comma and a digit in front of a grouped string, where a comma belongs. */
  lemma GroupedCommaDigit(x: char, tail: string)
    requires IsDigit(x) && Grouped(tail) && (|tail| + 2) % 4 == 0
    ensures Grouped([','] + [x] + tail)
  {
  }

  lemma GroupLengths(m: nat)
    requires m >= 1
    ensures m % 3 == 0 ==> (m - 1) + (m - 1) / 3 + 2 == m + m / 3 && (m + m / 3) % 4 == 0
    ensures m % 3 != 0 ==> (m - 1) + (m - 1) / 3 + 1 == m + m / 3 && (m + m / 3) % 4 != 0
  {
  }

  lemma {:induction false} ReplaceFromDigits(d: string, p: nat)
    requires IsDigits(d) && 1 <= p <= |d|
    ensures var r := ReplaceFrom(d, p);
      |r| == (|d| - p) + (|d| - p) / 3 && Grouped(r)
    decreases |d| - p
  {
    SeparatorInDigits(d, p);
    if p < |d| {
      ReplaceFromDigits(d, p + 1);
      var tail := ReplaceFrom(d, p + 1);
      GroupLengths(|d| - p);
      assert IsDigit(d[p]);
      if (|d| - p) % 3 == 0 {
        assert ReplaceFrom(d, p) == [','] + [d[p]] + tail;
        GroupedCommaDigit(d[p], tail);
      } else {
        assert ReplaceFrom(d, p) == [d[p]] + tail;
        GroupedDigit(d[p], tail);
      }
    }
  }

  /**
   * A nonempty digit string comes out grouped, with 1 to 3 digits before the
   * first comma; so it neither starts nor ends with a comma.
   */
  lemma InsertSeparatorsDigits(d: string)
    requires IsDigits(d) && |d| > 0
    ensures var r := InsertSeparators(d);
      && |r| == |d| + (|d| - 1) / 3
      && Grouped(r)
      && |r| % 4 != 0
      && r[0] != ',' && r[|r| - 1] != ','
  {
    SeparatorInDigits(d, 0);
    ReplaceFromDigits(d, 1);
    var tail := ReplaceFrom(d, 1);
    assert InsertSeparators(d) == [d[0]] + tail;
    GroupLengths(|d|);
    assert IsDigit(d[0]);
    GroupedDigit(d[0], tail);
  }

  lemma {:induction false} ReplaceFromNoMatch(s: string, p: nat)
    requires p <= |s|
    requires forall q :: p <= q <= |s| ==> !SeparatorAt(s, q)
    ensures ReplaceFrom(s, p) == s[p..]
    decreases |s| - p
  {
    if p < |s| {
      ReplaceFromNoMatch(s, p + 1);
      assert s[p..] == [s[p]] + s[p + 1..];
    }
  }

  /** Counts below 1000 are shown as they are, without a comma. */
  lemma FormatSmallCount(n: int)
    requires 0 <= n < 1000
    ensures FormatCount(n) == NumberToString(n)
  {
    var d := Decimal(n);
    if n >= 10 {
      assert |Decimal(n / 10)| <= 2 by {
        if n / 10 >= 10 {
          assert |Decimal(n / 100)| == 1;
        }
      }
    }
    assert |d| <= 3;
    forall q | 0 <= q <= |d| ensures !SeparatorAt(d, q) {
      SeparatorInDigits(d, q);
    }
    ReplaceFromNoMatch(d, 0);
    assert d[0..] == d;
  }

  /** A sign in front of the digits is kept and does not change the grouping. */
  lemma {:induction false} ReplaceFromShift(c: char, d: string, p: nat)
    requires !IsWordChar(c) && p <= |d|
    ensures ReplaceFrom([c] + d, p + 1) == ReplaceFrom(d, p)
    decreases |d| - p
  {
    var s := [c] + d;
    DigitRunShift(c, d, p);
    assert WordBefore(s, p + 1) == WordBefore(d, p);
    assert WordAfter(s, p + 1) == WordAfter(d, p);
    if p < |d| {
      ReplaceFromShift(c, d, p + 1);
    }
  }

  lemma {:induction false} DigitRunShift(c: char, d: string, p: nat)
    requires p <= |d|
    ensures DigitRun([c] + d, p + 1) == DigitRun(d, p)
    decreases |d| - p
  {
    if p < |d| {
      DigitRunShift(c, d, p + 1);
    }
  }

  /** A formatted count: the sign of a negative number, then the grouped digits. */
  lemma FormatCountShape(n: int)
    ensures FormatCount(n) == (if n < 0 then "-" else "") + InsertSeparators(Decimal(if n < 0 then -n else n))
    ensures Grouped(InsertSeparators(Decimal(if n < 0 then -n else n)))
  {
    var d := Decimal(if n < 0 then -n else n);
    InsertSeparatorsDigits(d);
    if n < 0 {
      var s := "-" + d;
      ReplaceFromShift('-', d, 0);
      assert DigitRun(s, 0) == 0;
      assert ReplaceFrom(s, 0) == "-" + ReplaceFrom(s, 1);
    }
  }

  /** 1234567 is shown as 1,234,567. */
  lemma FormatCountExample()
    ensures FormatCount(1234567) == "1,234,567"
  {
    DecimalExample();
    InsertSeparatorsExample();
  }

  lemma DecimalExample()
    ensures NumberToString(1234567) == "1234567"
  {
    // Unfolds Decimal one digit at a time, so the solver never has to
    // unroll the whole recursion in a single step.
    assert Decimal(1) == "1";
    assert Decimal(12) == "12";
    assert Decimal(123) == "123";
    assert Decimal(1234) == "1234";
    assert Decimal(12345) == "12345";
    assert Decimal(123456) == "123456";
    assert Decimal(1234567) == "1234567";
  }

  lemma InsertSeparatorsExample()
    ensures InsertSeparators("1234567") == "1,234,567"
  {
    // Settles where the regex matches, then unfolds the scan from the
    // right end back to the start, one position at a time.
    var d := "1234567";
    assert IsDigits(d);
    forall p | 0 <= p <= 7 ensures SeparatorAt(d, p) <==> p == 1 || p == 4 {
      SeparatorInDigits(d, p);
    }
    assert ReplaceFrom(d, 7) == "";
    assert ReplaceFrom(d, 6) == "7";
    assert ReplaceFrom(d, 5) == "67";
    assert ReplaceFrom(d, 4) == ",567";
    assert ReplaceFrom(d, 3) == "4,567";
    assert ReplaceFrom(d, 2) == "34,567";
    assert ReplaceFrom(d, 1) == ",234,567";
    assert ReplaceFrom(d, 0) == "1,234,567";
  }
}
