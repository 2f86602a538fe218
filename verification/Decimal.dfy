/** Decimal numerals as strconv prints and parses them. */
module Decimal {
  predicate IsDigit(c: char) {
    '0' <= c <= '9'
  }

  predicate AllDigits(s: string) {
    forall c | c in s :: IsDigit(c)
  }

  function DigitOf(c: char): (d: nat)
    requires IsDigit(c)
    ensures d < 10
  {
    (c - '0') as nat
  }

  function DigitChar(d: nat): (c: char)
    requires d < 10
    ensures IsDigit(c) && DigitOf(c) == d
  {
    '0' + d as char
  }

  function Print(n: nat): (s: string)
    ensures s != [] && AllDigits(s)
  {
    if n < 10 then [DigitChar(n)] else Print(n / 10) + [DigitChar(n % 10)]
  }

  function ValueOf(s: string): nat
    requires AllDigits(s)
  {
    if s == [] then 0 else 10 * ValueOf(s[..|s| - 1]) + DigitOf(s[|s| - 1])
  }

  lemma {:induction false} PrintedValue(n: nat)
    ensures ValueOf(Print(n)) == n
  {
    if n < 10 {
      assert Print(n)[..0] == [];
    } else {
      PrintedValue(n / 10);
      assert Print(n)[..|Print(n)| - 1] == Print(n / 10);
    }
  }

  function Power(e: nat): nat {
    if e == 0 then 1 else 10 * Power(e - 1)
  }

  /** A number of at most `width` digits prints as at most `width` characters. */
  lemma {:induction false} PrintedLength(n: nat, width: nat)
    requires 0 < width && n < Power(width)
    ensures |Print(n)| <= width
  {
    if n >= 10 {
      assert Power(1) == 10;
      PrintedLength(n / 10, width - 1);
    }
  }

  /** The value of a numeral read from the left, as a parser accumulates it. */
  lemma {:induction false} ValueFromLeft(s: string, c: char)
    requires AllDigits(s) && IsDigit(c)
    ensures AllDigits(s + [c]) && ValueOf(s + [c]) == 10 * ValueOf(s) + DigitOf(c)
  {
    assert (s + [c])[..|s|] == s;
  }

  /** Nothing but zero is printed with a zero in front. */
  lemma {:induction false} PrintedFirst(n: nat)
    ensures n > 0 ==> Print(n)[0] != '0'
    ensures |Print(n)| > 1 ==> Print(n)[0] != '0'
  {
    if n >= 10 {
      PrintedFirst(n / 10);
    }
  }

  lemma {:induction false} LeadingDigitCounts(s: string)
    requires s != "" && AllDigits(s) && s[0] != '0'
    ensures ValueOf(s) > 0
  {
    assert s[|s| - 1] in s && s[0] in s;
    if |s| > 1 {
      LeadingDigitCounts(s[..|s| - 1]);
    }
  }

  /** A numeral without a zero in front is what its value prints as. */
  lemma {:induction false} PrintOfValue(s: string)
    requires s != "" && AllDigits(s) && (|s| > 1 ==> s[0] != '0')
    ensures Print(ValueOf(s)) == s
  {
    var last := s[|s| - 1];
    assert last in s && DigitChar(DigitOf(last)) == last;
    if |s| > 1 {
      var rest := s[..|s| - 1];
      LeadingDigitCounts(rest);
      PrintOfValue(rest);
      assert s == rest + [last];
    } else {
      assert s[..0] == "" && s == [last];
    }
  }
}
