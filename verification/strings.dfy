/** The string formatting the handlers use: `sep.join(items)` and
    `u"{:d}".format(n)`. */
module Strings {

  /** sep.join(items). */
  function Join(items: seq<string>, sep: string): (r: string)
    ensures |items| == 0 ==> r == ""
    ensures |items| == 1 ==> r == items[0]
  {
    if |items| == 0 then ""
    else if |items| == 1 then items[0]
    else items[0] + sep + Join(items[1..], sep)
  }

  /** The joined string holds every item and one separator between each
      two. */
  lemma {:induction false} JoinLength(items: seq<string>, sep: string)
    requires |items| > 0
    ensures |Join(items, sep)| == SumLengths(items) + (|items| - 1) * |sep|
  {
    if |items| > 1 {
      JoinLength(items[1..], sep);
      assert |Join(items, sep)| == |items[0]| + |sep| + |Join(items[1..], sep)|;
    }
  }

  /** The joined string starts with the first item. */
  lemma JoinStartsWithFirst(items: seq<string>, sep: string)
    requires |items| > 0
    ensures |Join(items, sep)| >= |items[0]| && Join(items, sep)[..|items[0]|] == items[0]
  {
    if |items| > 1 {
      var rest := sep + Join(items[1..], sep);
      assert Join(items, sep) == items[0] + rest;
      assert (items[0] + rest)[..|items[0]|] == items[0];
    }
  }

  /** Two items around one separator. */
  lemma JoinPair(x: string, y: string, sep: string)
    ensures Join([x, y], sep) == x + sep + y
  {
    assert [x, y][1..] == [y];
  }

  /** One more item in front of a joined list. */
  lemma JoinCons(x: string, xs: seq<string>, sep: string)
    requires |xs| > 0
    ensures Join([x] + xs, sep) == x + sep + Join(xs, sep)
  {
    assert ([x] + xs)[1..] == xs;
  }

  /** Two more tokens in front of a joined list. */
  lemma JoinTwoMore(x: string, y: string, xs: seq<string>, joined: string)
    requires |xs| > 0 && Join(xs, " ") == joined
    ensures Join([x, y] + xs, " ") == x + " " + y + " " + joined
  {
    var ys := [y] + xs;
    JoinCons(y, xs, " ");
    JoinCons(x, ys, " ");
    assert [x, y] + xs == [x] + ys;
    assert x + " " + (y + " " + joined) == x + " " + y + " " + joined;
  }

  function SumLengths(items: seq<string>): nat
  {
    if |items| == 0 then 0 else |items[0]| + SumLengths(items[1..])
  }

  predicate IsDigit(c: char)
  {
    '0' <= c <= '9'
  }

  function DigitChar(d: nat): (c: char)
    requires d < 10
    ensures IsDigit(c) && c as int - '0' as int == d
  {
    ('0' as int + d) as char
  }

  /** The decimal digits of a natural number, most significant first. */
  function Digits(n: nat): (s: string)
    ensures |s| > 0 && forall i :: 0 <= i < |s| ==> IsDigit(s[i])
    ensures s[0] == '0' ==> n == 0
  {
    if n < 10 then [DigitChar(n)] else Digits(n / 10) + [DigitChar(n % 10)]
  }

  /** u"{:d}".format(n): the decimal form, with a leading minus sign for
      negative numbers. */
  function Decimal(n: int): (s: string)
    ensures |s| > 0
    ensures s[0] == '-' <==> n < 0
    ensures n >= 0 ==> s == Digits(n)
    ensures n < 0 ==> s[1..] == Digits(-n)
  {
    if n < 0 then "-" + Digits(-n) else Digits(n)
  }

  /** Reads back a string of decimal digits. */
  function ParseDigits(s: string): nat
    requires forall i :: 0 <= i < |s| ==> IsDigit(s[i])
  {
    if |s| == 0 then 0
    else
      assert IsDigit(s[|s| - 1]);
      10 * ParseDigits(s[..|s| - 1]) + (s[|s| - 1] as int - '0' as int)
  }

  /** Reads back a decimal with an optional leading minus sign. */
  function ParseDecimal(s: string): int
    requires |s| > 0
    requires forall i :: (if s[0] == '-' then 1 else 0) <= i < |s| ==> IsDigit(s[i])
  {
    if s[0] == '-' then -(ParseDigits(s[1..]) as int) else ParseDigits(s)
  }

  lemma {:induction false} DigitsRoundTrip(n: nat)
    ensures ParseDigits(Digits(n)) == n
  {
    if n >= 10 {
      var s := Digits(n);
      assert s[..|s| - 1] == Digits(n / 10);
      DigitsRoundTrip(n / 10);
    }
  }

  /** The LIMIT and OFFSET numbers are printed so that they read back as
      the same integer. */
  lemma DecimalRoundTrip(n: int)
    ensures ParseDecimal(Decimal(n)) == n
  {
    if n < 0 {
      DigitsRoundTrip(-n);
      assert Decimal(n)[1..] == Digits(-n);
    } else {
      DigitsRoundTrip(n);
    }
  }
}
