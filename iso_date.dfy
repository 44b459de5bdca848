/** Due dates and "today" are compared with JavaScript's `<` on strings.
    Both are calendar dates in the extended format of ISO 8601:2004,
    section 4.1.2.2 (`YYYY-MM-DD`), and for such strings code-unit order is
    calendar order. */
module IsoDate {
  import opened Arithmetic

  /** JavaScript's `<` on strings: lexicographic order, a proper prefix
      being smaller. Characters are compared as Unicode code points, which
      is JavaScript's UTF-16 code-unit order for every character below
      U+10000, and so for every `YYYY-MM-DD` string. */
  predicate StringLess(a: string, b: string): (r: bool)
    ensures |a| < |b| && a == b[..|a|] ==> r
    ensures r ==> a != b
    ensures 0 < |a| && 0 < |b| && a[0] < b[0] ==> r
  {
    if b == [] then false
    else if a == [] then true
    else a[0] < b[0] || (a[0] == b[0] && StringLess(a[1..], b[1..]))
  }

  /** `<` on strings is asymmetric: two strings are never each less than
      the other. */
  lemma {:induction false} StringLessAsymmetric(a: string, b: string)
    ensures !(StringLess(a, b) && StringLess(b, a))
  {
    if a != [] && b != [] && a[0] == b[0] {
      StringLessAsymmetric(a[1..], b[1..]);
    }
  }

  predicate IsDigit(c: char) {
    '0' <= c <= '9'
  }

  predicate AllDigits(s: string) {
    forall i :: 0 <= i < |s| ==> IsDigit(s[i])
  }

  function Pow10(n: nat): (p: nat)
    ensures p >= 1
  {
    if n == 0 then 1 else 10 * Pow10(n - 1)
  }

  /** The decimal value of a string of digits, most significant first. */
  function DigitsValue(s: string): (v: nat)
    requires AllDigits(s)
    ensures v < Pow10(|s|)
  {
    if s == [] then 0
    else
      var d, p := (s[0] as int) - ('0' as int), Pow10(|s| - 1);
      MulMonotone(d, 9, p);
      d * p + DigitsValue(s[1..])
  }

  /** `YYYY-MM-DD`. */
  predicate IsIsoDate(s: string) {
    && |s| == 10
    && AllDigits(s[..4]) && s[4] == '-' && AllDigits(s[5..7]) && s[7] == '-' && AllDigits(s[8..])
  }

  function Year(s: string): nat
    requires IsIsoDate(s)
  {
    DigitsValue(s[..4])
  }

  function Month(s: string): nat
    requires IsIsoDate(s)
  {
    DigitsValue(s[5..7])
  }

  function Day(s: string): nat
    requires IsIsoDate(s)
  {
    DigitsValue(s[8..])
  }

  /** Lexicographic order of (year, month, day) triples. */
  predicate CalendarBefore(a: string, b: string)
    requires IsIsoDate(a) && IsIsoDate(b)
  {
    || Year(a) < Year(b)
    || (Year(a) == Year(b) && Month(a) < Month(b))
    || (Year(a) == Year(b) && Month(a) == Month(b) && Day(a) < Day(b))
  }

  /** Comparing two strings that share a prefix length: the prefixes decide
      unless they are equal. */
  lemma {:induction false} StringLessConcat(a1: string, a2: string, b1: string, b2: string)
    requires |a1| == |b1|
    ensures StringLess(a1 + a2, b1 + b2) <==> StringLess(a1, b1) || (a1 == b1 && StringLess(a2, b2))
  {
    if a1 != [] {
      assert (a1 + a2)[0] == a1[0] && (b1 + b2)[0] == b1[0];
      assert (a1 + a2)[1..] == a1[1..] + a2 && (b1 + b2)[1..] == b1[1..] + b2;
      StringLessConcat(a1[1..], a2, b1[1..], b2);
      if a1[0] == b1[0] {
        assert a1 == b1 <==> a1[1..] == b1[1..] by {
          assert a1 == [a1[0]] + a1[1..] && b1 == [b1[0]] + b1[1..];
        }
      }
    } else {
      assert a1 + a2 == a2 && b1 + b2 == b2;
    }
  }

  /** On digit strings of one length, string order is numeric order. */
  lemma {:induction false} DigitsOrder(a: string, b: string)
    requires |a| == |b| && AllDigits(a) && AllDigits(b)
    ensures StringLess(a, b) <==> DigitsValue(a) < DigitsValue(b)
    ensures a == b <==> DigitsValue(a) == DigitsValue(b)
  {
    if a != [] {
      var p := Pow10(|a| - 1);
      var da, db := (a[0] as int) - ('0' as int), (b[0] as int) - ('0' as int);
      DigitsOrder(a[1..], b[1..]);
      assert a == [a[0]] + a[1..] && b == [b[0]] + b[1..];
      if da < db {
        MulStep(da, db, p);
      } else if db < da {
        MulStep(db, da, p);
      }
    }
  }

  lemma Decompose(s: string)
    requires IsIsoDate(s)
    ensures s == s[..4] + ("-" + (s[5..7] + ("-" + s[8..])))
  {
  }

  /** For well-formed dates, the string comparison the add form performs is
      the calendar comparison. */
  lemma {:induction false} IsoOrderIsCalendarOrder(a: string, b: string)
    requires IsIsoDate(a) && IsIsoDate(b)
    ensures StringLess(a, b) <==> CalendarBefore(a, b)
  {
    Decompose(a);
    Decompose(b);
    var ra, rb := "-" + (a[5..7] + ("-" + a[8..])), "-" + (b[5..7] + ("-" + b[8..]));
    StringLessConcat(a[..4], ra, b[..4], rb);
    StringLessConcat("-", a[5..7] + ("-" + a[8..]), "-", b[5..7] + ("-" + b[8..]));
    StringLessConcat(a[5..7], "-" + a[8..], b[5..7], "-" + b[8..]);
    StringLessConcat("-", a[8..], "-", b[8..]);
    assert !StringLess("-", "-");
    DigitsOrder(a[..4], b[..4]);
    DigitsOrder(a[5..7], b[5..7]);
    DigitsOrder(a[8..], b[8..]);
  }
}
