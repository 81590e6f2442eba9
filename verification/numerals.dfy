/** Decimal rendering and parsing of integers: Python's `str(n)`, the
    thousands-separated `f"{n:,}"` and the integer literals pandas'
    `to_numeric` accepts. */
module Numerals {
  import opened Wrappers

  /** An ASCII decimal digit. */
  predicate IsDigit(c: char) {
    '0' <= c <= '9'
  }

  predicate AllDigits(s: string) {
    forall k :: 0 <= k < |s| ==> IsDigit(s[k])
  }

  function DigitChar(d: nat): (c: char)
    requires d < 10
    ensures IsDigit(c)
  {
    ('0' as int + d) as char
  }

  function DigitValue(c: char): (d: nat)
    requires IsDigit(c)
    ensures d < 10 && DigitChar(d) == c
  {
    c as int - '0' as int
  }

  /** Python's `str(n)` for a non-negative integer: no leading zero except
      for zero itself. */
  function Digits(n: nat): (r: string)
    ensures |r| >= 1 && AllDigits(r)
    ensures r[0] == '0' <==> n == 0
  {
    if n < 10 then [DigitChar(n)] else Digits(n / 10) + [DigitChar(n % 10)]
  }

  /** The value of a string of decimal digits. */
  function ParseDigits(s: string): nat
    requires AllDigits(s)
  {
    if |s| == 0 then 0 else 10 * ParseDigits(s[..|s| - 1]) + DigitValue(s[|s| - 1])
  }

  /** Reading back the digits of `n` gives `n`. */
  lemma {:induction false} ParseDigitsOfDigits(n: nat)
    ensures ParseDigits(Digits(n)) == n
  {
    if n >= 10 {
      var s := Digits(n);
      assert s[..|s| - 1] == Digits(n / 10);
      ParseDigitsOfDigits(n / 10);
    }
  }

  /** Digits of a number below 1000 number at most three. */
  lemma {:induction false} DigitsBelowThousand(n: nat)
    requires n < 1000
    ensures |Digits(n)| <= 3
  {
    if n >= 10 {
      DigitsBelowThousand(n / 10);
      if n / 10 >= 10 {
        assert n / 10 / 10 < 10;
      }
    }
  }

  /** Python's `str(i)` for any integer. */
  function Decimal(i: int): string {
    if i < 0 then "-" + Digits(-i) else Digits(i)
  }

  /** An integer literal: an optional sign followed by one or more ASCII
      digits. */
  predicate IntLiteral(s: string) {
    && |s| >= 1
    && AllDigits(s[1..])
    && (IsDigit(s[0]) || (|s| >= 2 && (s[0] == '-' || s[0] == '+')))
  }

  /** A string of digits is the digit at its head followed by digits. */
  lemma AllDigitsHead(s: string)
    requires |s| >= 1
    ensures AllDigits(s) <==> IsDigit(s[0]) && AllDigits(s[1..])
  {
    if IsDigit(s[0]) && AllDigits(s[1..]) {
      forall k | 1 <= k < |s| ensures IsDigit(s[k]) {
        assert s[k] == s[1..][k - 1];
      }
    }
  }

  /** The integer literals accepted as numbers. Anything that is not an
      integer literal is not a number. */
  function ParseInt(s: string): (r: Option<int>)
    ensures r.Some? <==> IntLiteral(s)
  {
    if |s| == 0 then None
    else
      AllDigitsHead(s);
      if |s| >= 2 && s[0] == '-' && AllDigits(s[1..]) then (var v: int := ParseDigits(s[1..]); Some(-v))
      else if |s| >= 2 && s[0] == '+' && AllDigits(s[1..]) then Some(ParseDigits(s[1..]))
      else if AllDigits(s) then Some(ParseDigits(s))
      else None
  }

  lemma ParseIntOfDigits(n: nat)
    ensures ParseInt(Digits(n)) == Some(n)
  {
    ParseDigitsOfDigits(n);
    var s := Digits(n);
    assert IsDigit(s[0]);
  }

  lemma ParseIntOfNegative(n: nat)
    requires n > 0
    ensures ParseInt("-" + Digits(n)) == Some(-(n as int))
  {
    var s := "-" + Digits(n);
    assert s[1..] == Digits(n);
    ParseDigitsOfDigits(n);
  }

  /** Parsing the decimal rendering of any integer gives the integer back. */
  lemma ParseIntOfDecimal(i: int)
    ensures ParseInt(Decimal(i)) == Some(i)
  {
    if i < 0 {
      ParseIntOfNegative(-i);
    } else {
      ParseIntOfDigits(i);
    }
  }

  /** Three digits with leading zeros, for a value below 1000. */
  function Pad3(k: nat): (r: string)
    requires k < 1000
    ensures |r| == 3 && AllDigits(r)
  {
    [DigitChar(k / 100), DigitChar(k / 10 % 10), DigitChar(k % 10)]
  }

  /** Python's `f"{n:,}"` for a non-negative integer: groups of three digits
      counted from the right, separated by commas. Like `str(n)` it starts
      with a digit that is zero only for zero itself. */
  function Grouped(n: nat): (r: string)
    ensures |r| >= 1 && IsDigit(r[0])
    ensures r[0] == '0' <==> n == 0
  {
    if n < 1000 then Digits(n) else Grouped(n / 1000) + "," + Pad3(n % 1000)
  }

  /** Python's `f"{i:,}"` for any integer: the sign precedes the groups. */
  function GroupedInt(i: int): string {
    if i < 0 then "-" + Grouped(-i) else Grouped(i)
  }

  /** The string with every comma deleted. */
  function RemoveCommas(s: string): string {
    if |s| == 0 then ""
    else RemoveCommas(s[..|s| - 1]) + (if s[|s| - 1] == ',' then "" else [s[|s| - 1]])
  }

  lemma {:induction false} RemoveCommasConcat(a: string, b: string)
    ensures RemoveCommas(a + b) == RemoveCommas(a) + RemoveCommas(b)
    decreases |b|
  {
    if |b| > 0 {
      var b' := b[..|b| - 1];
      assert (a + b)[..|a + b| - 1] == a + b';
      RemoveCommasConcat(a, b');
    } else {
      assert a + b == a;
    }
  }

  lemma {:induction false} RemoveCommasOfDigits(s: string)
    requires AllDigits(s)
    ensures RemoveCommas(s) == s
    decreases |s|
  {
    if |s| > 0 {
      RemoveCommasOfDigits(s[..|s| - 1]);
      assert s == s[..|s| - 1] + [s[|s| - 1]];
    }
  }

  /** The last three digits of `n`, read off its quotients by 10 and 100. */
  lemma ThousandsArithmetic(n: nat)
    ensures n / 10 / 10 == n / 100 && n / 100 / 10 == n / 1000
    ensures n % 1000 / 100 == n / 100 % 10
    ensures n % 1000 / 10 % 10 == n / 10 % 10
    ensures n % 1000 % 10 == n % 10
  {
    var q, r := n / 1000, n % 1000;
    assert n == 1000 * q + r;
    assert n / 10 == 100 * q + r / 10;
    assert n / 100 == 10 * q + r / 100;
  }

  /** The digits of a number of four or more digits are those of its
      thousands followed by its last three digits. */
  lemma DigitsThousands(n: nat)
    requires n >= 1000
    ensures Digits(n) == Digits(n / 1000) + Pad3(n % 1000)
  {
    ThousandsArithmetic(n);
    var a, b, c := DigitChar(n / 100 % 10), DigitChar(n / 10 % 10), DigitChar(n % 10);
    assert Digits(n) == Digits(n / 10) + [c];
    assert Digits(n / 10) == Digits(n / 100) + [b];
    assert Digits(n / 100) == Digits(n / 1000) + [a];
    assert Pad3(n % 1000) == [a, b, c];
  }

  /** Deleting the separators from the grouped rendering leaves the plain
      decimal digits. */
  lemma {:induction false} GroupedDigits(n: nat)
    ensures RemoveCommas(Grouped(n)) == Digits(n)
  {
    if n < 1000 {
      RemoveCommasOfDigits(Digits(n));
    } else {
      GroupedDigits(n / 1000);
      GroupedDigitsStep(n);
    }
  }

  /** The step of `GroupedDigits`: the last group adds its three digits. */
  lemma GroupedDigitsStep(n: nat)
    requires n >= 1000 && RemoveCommas(Grouped(n / 1000)) == Digits(n / 1000)
    ensures RemoveCommas(Grouped(n)) == Digits(n)
  {
    var a := Grouped(n / 1000);
    var p := Pad3(n % 1000);
    assert Grouped(n) == a + "," + p;
    RemoveCommasJoin(a, p);
    DigitsThousands(n);
  }

  /** Deleting the commas around a separator that joins a group of digits. */
  lemma RemoveCommasJoin(a: string, p: string)
    requires AllDigits(p)
    ensures RemoveCommas(a + "," + p) == RemoveCommas(a) + p
  {
    var b := a + ",";
    assert b[..|b| - 1] == a && b[|b| - 1] == ',';
    assert RemoveCommas(b) == RemoveCommas(a);
    RemoveCommasConcat(b, p);
    RemoveCommasOfDigits(p);
  }

  /** One position of `a + "," + p`, where `a` already has the shape and
      `p` is three digits. */
  lemma GroupedShapeAt(a: string, p: string, k: int)
    requires |p| == 3 && AllDigits(p)
    requires forall j :: 0 <= j < |a| ==> (a[j] == ',' <==> (|a| - j) % 4 == 0) && (a[j] != ',' ==> IsDigit(a[j]))
    requires 0 <= k < |a| + 4
    ensures var g := a + "," + p;
      (g[k] == ',' <==> (|g| - k) % 4 == 0) && (g[k] != ',' ==> IsDigit(g[k]))
  {
    var g := a + "," + p;
    if k < |a| {
      assert g[k] == a[k];
      assert |g| - k == (|a| - k) + 4;
    } else if k > |a| {
      assert g[k] == p[k - |a| - 1];
    }
  }

  /** In the grouped rendering a character is a comma exactly when its
      distance from the end is a multiple of four, and every other character
      is a digit; the leading group is non-empty and has no leading zero. */
  lemma {:induction false} GroupedShape(n: nat)
    ensures var g := Grouped(n);
      && |g| >= 1 && g[0] != ',' && (g[0] == '0' <==> n == 0)
      && forall k :: 0 <= k < |g| ==>
           (g[k] == ',' <==> (|g| - k) % 4 == 0) && (g[k] != ',' ==> IsDigit(g[k]))
  {
    var g := Grouped(n);
    if n < 1000 {
      DigitsBelowThousand(n);
    } else {
      var a := Grouped(n / 1000);
      GroupedShape(n / 1000);
      var p := Pad3(n % 1000);
      assert g == a + "," + p;
      forall k | 0 <= k < |g|
        ensures (g[k] == ',' <==> (|g| - k) % 4 == 0) && (g[k] != ',' ==> IsDigit(g[k]))
      {
        GroupedShapeAt(a, p, k);
      }
    }
  }
}
