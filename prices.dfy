/**
 * The "Price (USD)" cell of the ledger.  The tracker treats a cell in three
 * ways: the literal "N/A" (a missing price), a number that float() accepts,
 * and any other text, which float() rejects.  Numbers are kept here as whole
 * cents, so the two-decimal rendering `f"{p:.2f}"` is exact.
 */
module Prices {
  import opened Options

  /**
   * A price cell: the literal "N/A", a number float() accepts, or any other
   * text.  By convention the text of `Bad` is neither "N/A" nor a number;
   * a cell reading "N/A" is always `NA`.
   */
  datatype Price = NA | Num(cents: int) | Bad(text: string)
  {
    /** The text the report shows for this price. */
    function Text(): string {
      match this
      case NA => "N/A"
      case Num(c) => CentsText(c)
      case Bad(t) => t
    }
  }

  predicate IsDigit(c: char) {
    '0' <= c <= '9'
  }

  predicate AllDigits(s: string) {
    forall i :: 0 <= i < |s| ==> IsDigit(s[i])
  }

  function Digit(d: nat): (c: char)
    requires d < 10
    ensures IsDigit(c) && c as int - '0' as int == d
  {
    ('0' as int + d) as char
  }

  /** Decimal digits of a natural number, most significant first, without leading zeros. */
  function NatText(n: nat): (s: string)
    ensures |s| > 0 && AllDigits(s)
    ensures |s| > 1 ==> s[0] != '0'
  {
    if n < 10 then [Digit(n)] else NatText(n / 10) + [Digit(n % 10)]
  }

  /** The value of a string of decimal digits. */
  function DigitsValue(s: string): nat
    requires AllDigits(s)
  {
    if s == [] then 0
    else DigitsValue(s[..|s| - 1]) * 10 + (s[|s| - 1] as int - '0' as int)
  }

  /** The two-decimal text of an amount of cents, as `f"{p:.2f}"` renders it: "[-]D+.DD". */
  function CentsText(c: int): string {
    var m := if c < 0 then -c else c;
    (if c < 0 then "-" else "") + NatText(m / 100) + "." + [Digit(m % 100 / 10), Digit(m % 10)]
  }

  /** Reading back a two-decimal text "D+.DD" without a sign. */
  function UnsignedCents(s: string): Option<nat> {
    if |s| >= 4 && s[|s| - 3] == '.' && AllDigits(s[..|s| - 3]) && AllDigits(s[|s| - 2..]) then
      Some(DigitsValue(s[..|s| - 3]) * 100 + DigitsValue(s[|s| - 2..]))
    else
      None
  }

  /** Reading back a two-decimal text "[-]D+.DD", as float() does on the texts CentsText produces. */
  function ParseCents(s: string): Option<int> {
    if |s| > 0 && s[0] == '-' then
      match UnsignedCents(s[1..])
      case Some(v) => Some(-(v as int))
      case None => None
    else
      match UnsignedCents(s)
      case Some(v) => Some(v)
      case None => None
  }

  lemma {:induction false} NatTextValue(n: nat)
    ensures DigitsValue(NatText(n)) == n
  {
    if n >= 10 {
      var s := NatText(n / 10) + [Digit(n % 10)];
      assert s[..|s| - 1] == NatText(n / 10);
      NatTextValue(n / 10);
    }
  }

  /**
   * Rendering an amount with two decimals and reading it back gives the same
   * amount: the running minimum that compares `float(lowest_price)` after
   * `lowest_price = f"{p:.2f}"` compares the amount itself.
   */
  lemma CentsRoundTrip(c: int)
    ensures ParseCents(CentsText(c)) == Some(c)
  {
    var m := if c < 0 then -c else c;
    var u := NatText(m / 100) + "." + [Digit(m % 100 / 10), Digit(m % 10)];
    UnsignedRoundTrip(m);
    if c < 0 {
      var s := "-" + u;
      assert s == CentsText(c);
      assert s[1..] == u;
    } else {
      assert u == CentsText(c);
      assert u[0] != '-';
    }
  }

  /** Reading back the unsigned text "D+.DD" of an amount gives the amount. */
  lemma UnsignedRoundTrip(m: nat)
    ensures UnsignedCents(NatText(m / 100) + "." + [Digit(m % 100 / 10), Digit(m % 10)]) == Some(m)
  {
    var frac := [Digit(m % 100 / 10), Digit(m % 10)];
    ReadBack(NatText(m / 100), frac);
    NatTextValue(m / 100);
    TwoDigitsValue(m % 100 / 10, m % 10);
    CentsSplit(m);
  }

  /** The text "W.FF" reads back as W * 100 + FF. */
  lemma ReadBack(whole: string, frac: string)
    requires |whole| > 0 && AllDigits(whole) && |frac| == 2 && AllDigits(frac)
    ensures UnsignedCents(whole + "." + frac) == Some(DigitsValue(whole) * 100 + DigitsValue(frac))
  {
    var u := whole + "." + frac;
    assert u[..|u| - 3] == whole;
    assert u[|u| - 2..] == frac;
    assert u[|u| - 3] == '.';
  }

  lemma CentsSplit(m: nat)
    ensures (m / 100) * 100 + 10 * (m % 100 / 10) + m % 10 == m
  {
    var q, r := m / 100, m % 100;
    var a, b := r / 10, r % 10;
    assert m == q * 100 + r;
    assert r == a * 10 + b;
    assert m == (q * 10 + a) * 10 + b;
    assert m % 10 == b;
  }

  lemma TwoDigitsValue(a: nat, b: nat)
    requires a < 10 && b < 10
    ensures DigitsValue([Digit(a), Digit(b)]) == 10 * a + b
  {
    var frac := [Digit(a), Digit(b)];
    assert frac[..1] == [Digit(a)];
    assert frac[..1][..0] == [];
    assert DigitsValue(frac[..1]) == a;
  }
}
