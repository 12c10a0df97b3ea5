/**
 * What a numeral with a decimal point is worth: the digits after the point are read as their
 * own numeral divided by ten to their count, so `parseFloat` and `Number` give "12.25" the
 * value 12 + 25/100.
 */
module Decimals {
  import opened Wrappers
  import opened Numbers

  /** Ten to the power `n`, as a real. */
  function Pow10(n: nat): (r: real)
    ensures r >= 1.0
  {
    if n == 0 then 1.0 else 10.0 * Pow10(n - 1)
  }

  /** `x` times ten to the power `n`, one factor of ten at a time. */
  function Shift(x: real, n: nat): real {
    if n == 0 then x else 10.0 * Shift(x, n - 1)
  }

  /** Shifting distributes over a sum. */
  lemma {:induction false} ShiftAdd(x: real, y: real, n: nat)
    ensures Shift(x + y, n) == Shift(x, n) + Shift(y, n)
  {
    if n > 0 {
      ShiftAdd(x, y, n - 1);
    }
  }

  /** A tenth shifted one place further is the value shifted as far. */
  lemma {:induction false} ShiftTenth(x: real, n: nat)
    ensures Shift(x / 10.0, n + 1) == Shift(x, n)
  {
    if n > 0 {
      ShiftTenth(x, n - 1);
    }
  }

  /** Shifting by `n` places multiplies by ten to the power `n`. */
  lemma {:induction false} ShiftProduct(x: real, n: nat)
    ensures Shift(x, n) == x * Pow10(n)
  {
    if n > 0 {
      ShiftProduct(x, n - 1);
      Tenfold(x, Pow10(n - 1));
    }
  }

  lemma Tenfold(x: real, p: real)
    ensures 10.0 * (x * p) == x * (10.0 * p)
  {
  }

  /** A value shifted by `n` places to give `v` is `v` divided by ten to the power `n`. */
  lemma Unshift(q: real, n: nat, v: real)
    requires Shift(q, n) == v
    ensures q == v / Pow10(n)
  {
    ShiftProduct(q, n);
  }

  /** A leading digit is worth its value shifted past the digits after it. */
  lemma {:induction false} DigitsValueCons(c: char, rest: string)
    requires IsDigit(c) && AllDigits(rest)
    ensures DigitsValue([c] + rest) as real == Shift(DigitValue(c) as real, |rest|) + DigitsValue(rest) as real
    decreases |rest|
  {
    var s := [c] + rest;
    if rest == [] {
      assert s[..|s| - 1] == [];
    } else {
      var init := rest[..|rest| - 1];
      assert s[..|s| - 1] == [c] + init;
      assert s[|s| - 1] == rest[|rest| - 1];
      DigitsValueCons(c, init);
    }
  }

  /** The digits after a decimal point, shifted past all of them, give their numeral. */
  lemma {:induction false} FractionShifted(f: string)
    requires AllDigits(f)
    ensures Shift(FractionValue(f), |f|) == DigitsValue(f) as real
    decreases |f|
  {
    if f != [] {
      var t := f[1..];
      var a := DigitValue(f[0]) as real;
      FractionShifted(t);
      assert f == [f[0]] + t;
      DigitsValueCons(f[0], t);
      ShiftTenth(a + FractionValue(t), |t|);
      ShiftAdd(a, FractionValue(t), |t|);
    }
  }

  /** The digits after a decimal point are worth their numeral over ten to their count: "25" is 25/100. */
  lemma FractionQuotient(f: string)
    requires AllDigits(f)
    ensures FractionValue(f) == DigitsValue(f) as real / Pow10(|f|)
  {
    FractionShifted(f);
    Unshift(FractionValue(f), |f|, DigitsValue(f) as real);
  }

  /** A digit run ending in a decimal point, then a second digit run: the unsigned prefix they form. */
  lemma UnsignedPointAt(u: string, i: nat, j: nat)
    requires i < |u| && u[i] == '.' && DigitRun(u) == i && DigitRun(u[i + 1..]) == j && i + j > 0
    ensures var r := UnsignedPrefix(u);
            r.Some? && r.value.0 == DigitsValue(u[..i]) as real + FractionValue(u[i + 1..][..j]) && r.value.1 == i + 1 + j
  {
  }

  /** Where the parts of a numeral with a decimal point sit in the text. */
  lemma PointLayout(d: string, f: string, rest: string)
    ensures var s := d + "." + f + rest;
            && s == d + ("." + (f + rest))
            && s[|d|] == '.' && s[..|d|] == d && s[|d| + 1..] == f + rest
  {
    var s := d + "." + f + rest;
    assert s == d + ("." + (f + rest));
    assert s[|d| + 1..] == f + rest;
  }

  /** How digit runs split a numeral with a decimal point that no further digit follows. */
  lemma PointRuns(d: string, f: string, rest: string)
    requires AllDigits(d) && AllDigits(f)
    requires rest == [] || !IsDigit(rest[0])
    ensures var s := d + "." + f + rest;
            && |d| < |s| && s[0] != '-' && s[0] != '+' && s[|d|] == '.'
            && DigitRun(s) == |d| && DigitRun(s[|d| + 1..]) == |f|
            && s[..|d|] == d && s[|d| + 1..][..|f|] == f
  {
    var tail := f + rest;
    PointLayout(d, f, rest);
    DigitRunStops(d, "." + tail);
    DigitRunStops(f, rest);
    assert tail[..|f|] == f;
    assert d != [] ==> IsDigit(d[0]);
  }

  /** Digits, a decimal point and digits, then no further digit: the unsigned prefix they form. */
  lemma UnsignedDecimal(d: string, f: string, rest: string)
    requires AllDigits(d) && AllDigits(f) && |d| + |f| > 0
    requires rest == [] || !IsDigit(rest[0])
    ensures var r := UnsignedPrefix(d + "." + f + rest);
            r.Some? && r.value.0 == DigitsValue(d) as real + FractionValue(f) && r.value.1 == |d| + 1 + |f|
  {
    PointRuns(d, f, rest);
    UnsignedPointAt(d + "." + f + rest, |d|, |f|);
  }

  /** Text that starts with neither sign is read as the unsigned number at its start. */
  lemma Unsigned(s: string)
    requires s != [] && s[0] != '-' && s[0] != '+'
    ensures DecimalPrefix(s) == UnsignedPrefix(s)
  {
    assert s[0..] == s;
  }

  /**
   * A numeral with a decimal point, followed by the end of the text or by a character that is
   * not a digit, is read up to that character: "12.25" is 12 + 25/100.
   */
  lemma DecimalNumeral(d: string, f: string, rest: string)
    requires AllDigits(d) && AllDigits(f) && |d| + |f| > 0
    requires rest == [] || !IsDigit(rest[0])
    ensures var r := DecimalPrefix(d + "." + f + rest);
            && r.Some?
            && r.value.0 == DigitsValue(d) as real + DigitsValue(f) as real / Pow10(|f|)
            && r.value.1 == |d| + 1 + |f|
  {
    PointRuns(d, f, rest);
    Unsigned(d + "." + f + rest);
    UnsignedDecimal(d, f, rest);
    FractionQuotient(f);
  }
}
