/**
 * Reading numbers out of CSV cells: JavaScript's `parseFloat` (which reads the longest
 * numeric prefix) and `Number` (which reads the whole trimmed text), restricted to plain
 * decimal notation. Values are exact `real`s.
 */
module Numbers {
  import opened Wrappers
  import Text

  predicate IsDigit(c: char) {
    '0' <= c <= '9'
  }

  function DigitValue(c: char): nat
    requires IsDigit(c)
  {
    c as int - '0' as int
  }

  function DigitChar(d: nat): char
    requires d < 10
  {
    ('0' as int + d) as char
  }

  predicate AllDigits(s: string) {
    forall i :: 0 <= i < |s| ==> IsDigit(s[i])
  }

  /** The length of the longest run of digits at the start of `s`. */
  function DigitRun(s: string): (n: nat)
    ensures n <= |s|
    ensures AllDigits(s[..n])
    ensures n < |s| ==> !IsDigit(s[n])
  {
    if s == [] || !IsDigit(s[0]) then 0
    else
      var n := 1 + DigitRun(s[1..]);
      assert s[..n] == [s[0]] + s[1..][..n - 1];
      n
  }

  /** The value of a string of digits read as a decimal numeral. */
  function DigitsValue(d: string): nat
    requires AllDigits(d)
  {
    if d == [] then 0 else 10 * DigitsValue(d[..|d| - 1]) + DigitValue(d[|d| - 1])
  }

  /** The value of the digits after a decimal point: "25" is 0.25. */
  function FractionValue(d: string): (r: real)
    requires AllDigits(d)
    ensures 0.0 <= r < 1.0
  {
    if d == [] then 0.0 else (DigitValue(d[0]) as real + FractionValue(d[1..])) / 10.0
  }

  /**
   * The longest prefix of `u` of the form `digits* ('.' digits*)?` that holds at least one
   * digit: its value and its length.
   */
  function UnsignedPrefix(u: string): (r: Option<(real, nat)>)
    ensures r.Some? ==> 0 < r.value.1 <= |u|
  {
    var intLen := DigitRun(u);
    var hasPoint := intLen < |u| && u[intLen] == '.';
    var fracLen := if hasPoint then DigitRun(u[intLen + 1..]) else 0;
    if intLen + fracLen == 0 then None
    else
      var fraction := if hasPoint then FractionValue(u[intLen + 1..][..fracLen]) else 0.0;
      Some((DigitsValue(u[..intLen]) as real + fraction, intLen + (if hasPoint then 1 + fracLen else 0)))
  }

  /**
   * The longest prefix of `s` of the form `[+-]? digits* ('.' digits*)?` that holds at
   * least one digit: its value and the number of characters it takes. None when `s`
   * does not start with a number.
   */
  function DecimalPrefix(s: string): (r: Option<(real, nat)>)
    ensures r.Some? ==> 0 < r.value.1 <= |s|
  {
    var signLen := if s != [] && (s[0] == '-' || s[0] == '+') then 1 else 0;
    match UnsignedPrefix(s[signLen..])
    case None => None
    case Some((m, n)) => Some((if signLen == 1 && s[0] == '-' then -m else m, signLen + n))
  }

  /** `parseFloat(s)`: leading white space is skipped, then the longest numeric prefix is read; None is NaN. */
  function ParseFloat(s: string): (r: Option<real>)
    ensures (forall i :: 0 <= i < |s| ==> !IsDigit(s[i])) ==> r == None
  {
    NoDigitsSkipped(s);
    match DecimalPrefix(Text.TrimStart(s))
    case Some((v, _)) => Some(v)
    case None => None
  }

  /**
   * `num(v)`: the lenient coercion of the three-team revision. A missing field (`undefined`)
   * and any text `parseFloat` cannot read give 0.
   */
  function Num(v: Option<string>): (r: real)
    ensures v.Some? && NumberOf(v.value).Some? ==> r == NumberOf(v.value).value
  {
    match v
    case None => 0.0
    case Some(s) => ParseFloat(s).GetOr(0.0)
  }

  /**
   * `Number(s)`: the whole text, trimmed, must be a number; blank text is 0; None is NaN.
   */
  function NumberOf(s: string): (r: Option<real>)
    ensures r.Some? ==> ParseFloat(s) == (if Text.Trim(s) == [] then None else r)
  {
    var t := Text.Trim(s);
    if t == [] then
      BlankNotParsed(s);
      Some(0.0)
    else
      match DecimalPrefix(t)
      case Some((v, n)) =>
        if n == |t| then
          WholeIsPrefix(s);
          Some(v)
        else None
      case None => None
  }

  /** The decimal numeral of a natural number, without leading zeros. */
  function NatToString(n: nat): (s: string)
    ensures s != [] && AllDigits(s)
  {
    (if n < 10 then [] else NatToString(n / 10)) + [DigitChar(n % 10)]
  }

  /** Reading a numeral back gives the number it was written from. */
  lemma {:induction false} DigitsValueOfNatToString(n: nat)
    ensures DigitsValue(NatToString(n)) == n
  {
    var s := NatToString(n);
    assert s[..|s| - 1] == if n < 10 then [] else NatToString(n / 10);
    if n >= 10 {
      DigitsValueOfNatToString(n / 10);
    }
  }

  lemma DigitRunOfDigits(d: string)
    requires AllDigits(d)
    ensures DigitRun(d) == |d|
  {
  }

  /** A run of digits is read whole as the numeral it spells. */
  lemma UnsignedPrefixOfDigits(d: string)
    requires d != [] && AllDigits(d)
    ensures UnsignedPrefix(d) == Some((DigitsValue(d) as real, |d|))
  {
    DigitRunOfDigits(d);
    assert d[..|d|] == d;
  }

  /** An unsigned run of digits is read whole as the numeral it spells. */
  lemma PositiveNumeral(d: string)
    requires d != [] && AllDigits(d)
    ensures DecimalPrefix(d) == Some((DigitsValue(d) as real, |d|))
  {
    UnsignedPrefixOfDigits(d);
    assert IsDigit(d[0]);
    assert d[0..] == d;
  }

  /** A run of digits after a minus sign is read whole as the negated numeral. */
  lemma NegativeNumeral(s: string)
    requires |s| >= 2 && s[0] == '-' && AllDigits(s[1..])
    ensures DecimalPrefix(s) == Some((-(DigitsValue(s[1..]) as real), |s|))
  {
    UnsignedPrefixOfDigits(s[1..]);
  }

  lemma NotSpace(c: char)
    requires IsDigit(c) || c == '-'
    ensures !Text.IsSpace(c)
  {
  }

  /** Text that is a number from end to end, with no white space around it, is read whole by all three readers. */
  lemma ReadWhole(s: string, v: real)
    requires s != [] && !Text.IsSpace(s[0]) && !Text.IsSpace(s[|s| - 1])
    requires DecimalPrefix(s) == Some((v, |s|))
    ensures ParseFloat(s) == Some(v) && Num(Some(s)) == v && NumberOf(s) == Some(v)
  {
    assert Text.TrimStart(s) == s;
    assert Text.Trim(s) == s;
  }

  /** An integer written in decimal is read back exactly by `parseFloat`, by `num` and by `Number`. */
  lemma {:induction false} IntegerRoundTrip(n: nat, negative: bool)
    ensures var s := (if negative then "-" else "") + NatToString(n);
            var v := if negative then -(n as real) else n as real;
            ParseFloat(s) == Some(v) && Num(Some(s)) == v && NumberOf(s) == Some(v)
  {
    var digits := NatToString(n);
    var s := (if negative then "-" else "") + digits;
    var v := if negative then -(n as real) else n as real;
    DigitsValueOfNatToString(n);
    if negative {
      assert s[1..] == digits;
      NegativeNumeral(s);
    } else {
      PositiveNumeral(digits);
      assert s == digits;
    }
    assert s[0] == '-' || IsDigit(s[0]);
    assert s[|s| - 1] == digits[|digits| - 1];
    NotSpace(s[0]);
    NotSpace(s[|s| - 1]);
    ReadWhole(s, v);
  }

  /** The digit run of digits followed by anything else stops where the digits stop. */
  lemma {:induction false} DigitRunStops(d: string, rest: string)
    requires AllDigits(d)
    requires rest == [] || !IsDigit(rest[0])
    ensures DigitRun(d + rest) == |d|
    decreases |d|
  {
    if d != [] {
      assert (d + rest)[1..] == d[1..] + rest;
      DigitRunStops(d[1..], rest);
    } else {
      assert d + rest == rest;
    }
  }

  /** A numeral followed by a character that cannot continue it is read up to that character. */
  lemma NumeralThenOther(d: string, rest: string)
    requires d != [] && AllDigits(d)
    requires rest != [] && !IsDigit(rest[0]) && rest[0] != '.'
    ensures DecimalPrefix(d + rest) == Some((DigitsValue(d) as real, |d|))
  {
    var s := d + rest;
    DigitRunStops(d, rest);
    assert s[0] == d[0] && s[|d|] == rest[0];
    assert s[0..] == s && s[..|d|] == d;
  }

  /**
   * `parseFloat` reads the numeral at the start of a cell and ignores what follows, so `num`
   * of "12abc" is 12.
   */
  lemma LenientPrefix(d: string, rest: string)
    requires d != [] && AllDigits(d)
    requires rest != [] && !IsDigit(rest[0]) && rest[0] != '.'
    ensures Num(Some(d + rest)) == DigitsValue(d) as real
  {
    var s := d + rest;
    NumeralThenOther(d, rest);
    assert s[0] == d[0];
    NotSpace(s[0]);
    assert Text.TrimStart(s) == s;
  }

  /** `Number`, unlike `parseFloat`, refuses a numeral followed by anything but white space. */
  lemma StrictWhole(d: string, rest: string)
    requires d != [] && AllDigits(d)
    requires rest != [] && !IsDigit(rest[0]) && rest[0] != '.' && !Text.IsSpace(rest[0])
    ensures NumberOf(d + rest) == None
  {
    var s := d + rest;
    assert s[0] == d[0] && s[|d|] == rest[0];
    NotSpace(s[0]);
    assert Text.TrimStart(s) == s;
    var t := Text.Trim(s);
    Text.TrimSlice(s);
    assert t == s[..|t|];
    assert |d| < |t|;
    var tail := t[|d|..];
    assert t == d + tail && tail[0] == rest[0];
    NumeralThenOther(d, tail);
  }

  /** Text without a single digit is never a number: `num` gives 0 and `Number` gives NaN unless blank. */
  lemma NoDigitsNoNumber(s: string)
    requires forall i :: 0 <= i < |s| ==> !IsDigit(s[i])
    ensures Num(Some(s)) == 0.0
    ensures NumberOf(s) == if Text.Trim(s) == [] then Some(0.0) else None
  {
    var t := Text.TrimStart(s);
    Text.TrimStartSuffix(s);
    assert forall i :: 0 <= i < |t| ==> !IsDigit(t[i]) by {
      forall i | 0 <= i < |t| ensures !IsDigit(t[i]) {
        assert t[i] == s[|s| - |t| + i];
      }
    }
    NoDigitsNoPrefix(t);
    var w := Text.Trim(s);
    Text.TrimSlice(s);
    forall i | 0 <= i < |w| ensures !IsDigit(w[i]) {
      assert w[i] == s[|s| - |t| + i];
    }
    NoDigitsNoPrefix(w);
  }

  lemma NoDigitsNoPrefix(t: string)
    requires forall i :: 0 <= i < |t| ==> !IsDigit(t[i])
    ensures DecimalPrefix(t) == None
  {
    var signLen := if t != [] && (t[0] == '-' || t[0] == '+') then 1 else 0;
    var u := t[signLen..];
    if u != [] {
      assert u[0] == t[signLen];
    }
    assert DigitRun(u) == 0;
    if 0 < |u| && u[0] == '.' {
      var w := u[1..];
      if w != [] {
        assert w[0] == t[signLen + 1];
      }
      assert DigitRun(w) == 0;
    }
    assert UnsignedPrefix(u) == None;
  }

  /** Text without a digit keeps none once its leading white space is skipped, so no number starts there. */
  lemma NoDigitsSkipped(s: string)
    ensures (forall i :: 0 <= i < |s| ==> !IsDigit(s[i])) ==> DecimalPrefix(Text.TrimStart(s)) == None
  {
    if forall i :: 0 <= i < |s| ==> !IsDigit(s[i]) {
      var t := Text.TrimStart(s);
      Text.TrimStartSuffix(s);
      assert forall i :: 0 <= i < |t| ==> t[i] == s[|s| - |t| + i];
      NoDigitsNoPrefix(t);
    }
  }

  /** Blank text holds no number for `parseFloat`. */
  lemma BlankNotParsed(s: string)
    requires Text.Trim(s) == []
    ensures ParseFloat(s) == None
  {
    var t := Text.TrimStart(s);
    assert t == [] by {
      Text.TrimEndPrefix(t);
    }
    assert DigitRun(t) == 0;
  }

  /** The digit run of `x` is `n` when the first `n` characters are digits and the next is not. */
  lemma {:induction false} DigitRunIs(x: string, n: nat)
    requires n <= |x| && AllDigits(x[..n])
    requires n < |x| ==> !IsDigit(x[n])
    ensures DigitRun(x) == n
    decreases n
  {
    if n > 0 {
      assert x[0] == x[..n][0];
      assert x[1..][..n - 1] == x[..n][1..];
      DigitRunIs(x[1..], n - 1);
    }
  }

  /**
   * A numeral that takes up all of `u`, followed by text that cannot continue it, is read
   * the same.
   */
  lemma UnsignedExtends(u: string, w: string)
    requires UnsignedPrefix(u).Some? && UnsignedPrefix(u).value.1 == |u|
    requires w == [] || (!IsDigit(w[0]) && w[0] != '.')
    ensures UnsignedPrefix(u + w) == UnsignedPrefix(u)
  {
    var x := u + w;
    var intLen := DigitRun(u);
    assert x[..intLen] == u[..intLen];
    if intLen == |u| {
      DigitRunIs(x, intLen);
      assert !(intLen < |x| && x[intLen] == '.');
    } else {
      assert x[intLen] == u[intLen];
      DigitRunIs(x, intLen);
      var f := u[intLen + 1..];
      var fracLen := DigitRun(f);
      assert fracLen == |f|;
      assert x[intLen + 1..] == f + w;
      assert (f + w)[..fracLen] == f[..fracLen];
      DigitRunIs(f + w, fracLen);
    }
  }

  /** The signed form of `UnsignedExtends`. */
  lemma DecimalExtends(t: string, w: string)
    requires DecimalPrefix(t).Some? && DecimalPrefix(t).value.1 == |t|
    requires w == [] || (!IsDigit(w[0]) && w[0] != '.')
    ensures DecimalPrefix(t + w) == DecimalPrefix(t)
  {
    var signLen := if t[0] == '-' || t[0] == '+' then 1 else 0;
    assert (t + w)[0] == t[0];
    assert (t + w)[signLen..] == t[signLen..] + w;
    UnsignedExtends(t[signLen..], w);
  }

  /** Text that `Number` reads whole, once trimmed, is read to the same value by `parseFloat`. */
  lemma WholeIsPrefix(s: string)
    requires Text.Trim(s) != []
    requires DecimalPrefix(Text.Trim(s)).Some? && DecimalPrefix(Text.Trim(s)).value.1 == |Text.Trim(s)|
    ensures ParseFloat(s) == Some(DecimalPrefix(Text.Trim(s)).value.0)
  {
    var ts := Text.TrimStart(s);
    var t := Text.Trim(s);
    Text.TrimEndPrefix(ts);
    var w := ts[|t|..];
    assert ts == t + w;
    if w != [] {
      assert Text.IsSpace(w[0]) by {
        assert w[0] == ts[|t|];
      }
    }
    DecimalExtends(t, w);
  }
}
