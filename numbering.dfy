/**
 * The sequential name `{prefix}_{number:0>NUM}{ext}`: the counter in decimal
 * (`format!("{}", count)`), left-filled with '0' up to the padding width by
 * `strfmt` and never truncated, followed by the extension suffix.
 */
module Numbering {

  predicate IsDigit(c: char)
  {
    '0' <= c <= '9'
  }

  predicate AllDigits(s: string)
  {
    forall i :: 0 <= i < |s| ==> IsDigit(s[i])
  }

  function DigitChar(d: nat): (c: char)
    requires d < 10
    ensures IsDigit(c) && c as int - '0' as int == d
  {
    ('0' as int + d) as char
  }

  function DigitValue(c: char): nat
    requires IsDigit(c)
  {
    c as int - '0' as int
  }

  /** `format!("{}", n)`: the shortest decimal numeral of `n`. */
  function Decimal(n: nat): (s: string)
    ensures |s| >= 1 && AllDigits(s)
    ensures |s| > 1 ==> s[0] != '0'
    decreases n
  {
    if n < 10 then [DigitChar(n)] else Decimal(n / 10) + [DigitChar(n % 10)]
  }

  /** The number a string of decimal digits denotes (leading zeros allowed). */
  function ValueOf(s: string): nat
    requires AllDigits(s)
  {
    if s == [] then 0 else ValueOf(s[..|s| - 1]) * 10 + DigitValue(s[|s| - 1])
  }

  function Zeros(k: nat): (z: string)
    ensures |z| == k && forall i :: 0 <= i < k ==> z[i] == '0'
  {
    if k == 0 then [] else Zeros(k - 1) + ['0']
  }

  /** Right alignment with fill '0' to width `width` (`{:0>width}`); a string already
      at least that long is kept whole. */
  function PadLeft(s: string, width: nat): (r: string)
    ensures |r| == if |s| >= width then |s| else width
    ensures r[|r| - |s|..] == s
    ensures forall i :: 0 <= i < |r| - |s| ==> r[i] == '0'
  {
    if |s| >= width then s else Zeros(width - |s|) + s
  }

  /** The extension part of a sequential name: empty, or starting with the dot. */
  predicate IsExtSuffix(ext: string)
  {
    ext == [] || ext[0] == '.'
  }

  /** The new base name of the file that received `number`. */
  function SequentialName(prefix: string, padding: nat, number: nat, ext: string): (name: string)
    ensures |name| >= |prefix| + 1 + padding + |ext|
    ensures name[..|prefix| + 1] == prefix + "_" && name[|name| - |ext|..] == ext
  {
    prefix + "_" + PadLeft(Decimal(number), padding) + ext
  }

  /** Reading the decimal numeral back gives the counter. */
  lemma {:induction false} DecimalRoundTrip(n: nat)
    ensures ValueOf(Decimal(n)) == n
    decreases n
  {
    var s := Decimal(n);
    if n >= 10 {
      DecimalRoundTrip(n / 10);
      assert s[..|s| - 1] == Decimal(n / 10);
    }
  }

  /** Leading zeros do not change the value of a numeral. */
  lemma {:induction false} LeadingZerosValue(k: nat, s: string)
    requires AllDigits(s)
    ensures AllDigits(Zeros(k) + s) && ValueOf(Zeros(k) + s) == ValueOf(s)
    decreases |s|
  {
    var z := Zeros(k);
    if s == [] {
      assert z + s == z;
      ZerosValue(k);
    } else {
      LeadingZerosValue(k, s[..|s| - 1]);
      assert (z + s)[..|z + s| - 1] == z + s[..|s| - 1];
    }
  }

  lemma {:induction false} ZerosValue(k: nat)
    ensures AllDigits(Zeros(k)) && ValueOf(Zeros(k)) == 0
  {
    if k > 0 {
      ZerosValue(k - 1);
      assert Zeros(k)[..k - 1] == Zeros(k - 1);
    }
  }

  /** The padded field always denotes the counter, whatever the width: padding
      adds only zeros and never cuts digits off. */
  lemma PaddedValue(n: nat, width: nat)
    ensures AllDigits(PadLeft(Decimal(n), width))
    ensures ValueOf(PadLeft(Decimal(n), width)) == n
  {
    DecimalRoundTrip(n);
    var d := Decimal(n);
    if |d| < width {
      LeadingZerosValue(width - |d|, d);
    }
  }

  /** Two sequential names with the same prefix and width are equal only when they
      carry the same counter: no two files of one batch get the same name. */
  lemma {:induction false} SequentialNameInjective(prefix: string, padding: nat, n: nat, m: nat, e1: string, e2: string)
    requires IsExtSuffix(e1) && IsExtSuffix(e2)
    requires SequentialName(prefix, padding, n, e1) == SequentialName(prefix, padding, m, e2)
    ensures n == m
  {
    PaddedValue(n, padding);
    PaddedValue(m, padding);
    SameHeadThenDigits(prefix + "_", PadLeft(Decimal(n), padding), e1, PadLeft(Decimal(m), padding), e2);
  }

  /** A name made of a fixed head, a run of digits and an extension suffix
      determines its digit run. */
  lemma SameHeadThenDigits(h: string, d1: string, e1: string, d2: string, e2: string)
    requires AllDigits(d1) && AllDigits(d2) && IsExtSuffix(e1) && IsExtSuffix(e2)
    requires h + d1 + e1 == h + d2 + e2
    ensures d1 == d2
  {
    assert d1 + e1 == (h + d1 + e1)[|h|..];
    assert d2 + e2 == (h + d2 + e2)[|h|..];
    var x := d1 + e1;
    assert x == d2 + e2;
    assert forall i :: 0 <= i < |d1| ==> IsDigit(x[i]);
    assert forall i :: 0 <= i < |d2| ==> IsDigit(x[i]);
    assert |x| > |d1| ==> x[|d1|] == '.';
    assert |x| > |d2| ==> x[|d2|] == '.';
    assert |d1| == |d2|;
    assert d1 == x[..|d1|];
    assert d2 == x[..|d2|];
  }

  /** Scenario of the simple test: prefix `item`, padding 10, counters 0 and 3. */
  lemma ScenarioSimple()
    ensures SequentialName("item", 10, 0, ".jpg") == "item_0000000000.jpg"
    ensures SequentialName("item", 10, 3, ".jpg") == "item_0000000003.jpg"
    ensures SequentialName("x", 2, 123, "") == "x_123"
  {
  }
}
