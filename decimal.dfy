/** Decimal numbers as they appear in sentence fields: an optional sign,
    digits, and an optional '.' followed by more digits ("46.96", "-7.0",
    "5", ".5").  Values are exact rationals (`real`); a value written by a
    setter is first rounded to a fixed number of decimals. */
module Decimal {
  import opened Common

  const DECIMAL_POINT := '.'

  function Pow10(d: nat): (p: nat)
    ensures p >= 1
  {
    if d == 0 then 1 else 10 * Pow10(d - 1)
  }

  predicate IsDigit(c: char) {
    '0' <= c <= '9'
  }

  predicate IsDigits(s: string) {
    forall i :: 0 <= i < |s| ==> IsDigit(s[i])
  }

  function Digit(n: int): (c: char)
    requires 0 <= n < 10
    ensures IsDigit(c)
  {
    ('0' as int + n) as char
  }

  function DigitValue(c: char): (n: int)
    requires IsDigit(c)
    ensures 0 <= n < 10 && Digit(n) == c
  {
    c as int - '0' as int
  }

  /** The number a digit string denotes, most significant digit first; the
      empty string denotes 0. */
  function ValueOf(s: string): nat
    requires IsDigits(s)
  {
    if s == [] then 0 else ValueOf(s[..|s| - 1]) * 10 + DigitValue(s[|s| - 1])
  }

  /** Appending a digit shifts the value one place. */
  lemma ValueOfPush(s: string, c: char)
    requires IsDigits(s) && IsDigit(c)
    ensures IsDigits(s + [c]) && ValueOf(s + [c]) == ValueOf(s) * 10 + DigitValue(c)
  {
    assert (s + [c])[..|s|] == s;
  }

  /** The decimal digits of `n` with no leading zero ("0" for zero). */
  function Digits(n: nat): (s: string)
    ensures |s| > 0 && IsDigits(s) && ValueOf(s) == n
    ensures |s| == 1 || s[0] != '0'
  {
    if n < 10 then [Digit(n)]
    else
      var p := Digits(n / 10);
      ValueOfPush(p, Digit(n % 10));
      p + [Digit(n % 10)]
  }

  /** `s` with zeros added in front until it is at least `w` long. */
  function ZeroPadded(s: string, w: nat): (r: string)
    requires IsDigits(s)
    ensures |r| >= w && |r| >= |s| && IsDigits(r) && ValueOf(r) == ValueOf(s)
    ensures |s| >= w ==> r == s
    decreases w - |s|
  {
    if |s| >= w then s
    else
      ValueOfAppend("0", s);
      ZeroPadded("0" + s, w)
  }

  /** `n * 10^-d` written with exactly `d` decimals ("%.2f" for d = 2,
      applied to an already rounded value): a '-' for negative values, then
      the magnitude. */
  function FormatFixed(n: int, d: nat): (s: string)
    ensures |s| > 0
    ensures forall i :: 0 <= i < |s| ==> IsDigit(s[i]) || s[i] == DECIMAL_POINT || s[i] == '-'
  {
    if n < 0 then "-" + FormatUnsigned(-n, d) else FormatUnsigned(n, d)
  }

  /** The digits of `m`, padded to at least d + 1, with a '.' put in front
      of the last `d` of them when d > 0: "4696" with d = 2 is "46.96", 5
      with d = 2 is "0.05". */
  function FormatUnsigned(m: nat, d: nat): (s: string)
    ensures |s| > 0 && IsDigit(s[0])
    ensures forall i :: 0 <= i < |s| ==> IsDigit(s[i]) || s[i] == DECIMAL_POINT
  {
    var digits := ZeroPadded(Digits(m), d + 1);
    var k := |digits| - d;
    if d == 0 then digits else digits[..k] + [DECIMAL_POINT] + digits[k..]
  }

  /** The value `n * 10^-d`: `n` units of the d-th decimal place. */
  function Fixed(n: int, d: nat): real
  {
    n as real / Pow10(d) as real
  }

  /** Reads a decimal: an optional '+' or '-', then digits with at most one
      '.', and at least one digit in all.  None when the text is not of that
      form (the empty field included). */
  function ParseDecimal(s: string): (r: Option<real>)
    ensures r.Some? ==> |s| > 0 && FIELD_DELIMITER !in s && CHECKSUM_DELIMITER !in s
  {
    var negative := |s| > 0 && s[0] == '-';
    var u := if |s| > 0 && (s[0] == '-' || s[0] == '+') then s[1..] else s;
    ParseUnitsShape(u);
    SignShape(s, u);
    match ParseUnits(u)
    case Some((m, d)) =>
      var units := if negative then -(m as int) else m as int;
      Some(Fixed(units, d))
    case None => None
  }

  /** Digits with at most one '.' and at least one digit, read as a number
      of units and the decimal place they count in ("46.96" is 4696 units of
      the second place). */
  function ParseUnits(u: string): (r: Option<(nat, nat)>)
  {
    var k := IndexOf(u, DECIMAL_POINT);
    var ip := u[..k];
    var fp := if k < |u| then u[k + 1..] else [];
    if IsDigits(ip) && IsDigits(fp) && |ip| + |fp| > 0 then Some((ValueOf(ip + fp), |fp|))
    else None
  }

  /** A sign in front of delimiter-free text adds no delimiter. */
  lemma SignShape(s: string, u: string)
    requires u == if |s| > 0 && (s[0] == '-' || s[0] == '+') then s[1..] else s
    ensures |u| > 0 && FIELD_DELIMITER !in u && CHECKSUM_DELIMITER !in u ==>
              |s| > 0 && FIELD_DELIMITER !in s && CHECKSUM_DELIMITER !in s
  {
    if |u| > 0 && FIELD_DELIMITER !in u && CHECKSUM_DELIMITER !in u {
      forall i | 0 <= i < |s| ensures s[i] != FIELD_DELIMITER && s[i] != CHECKSUM_DELIMITER {
        if u != s && i > 0 {
          assert s[i] == u[i - 1];
        }
      }
    }
  }

  /** What ParseUnits accepts: never the empty string, and never text
      holding a field or checksum delimiter. */
  lemma ParseUnitsShape(u: string)
    ensures ParseUnits(u).Some? ==> |u| > 0 && FIELD_DELIMITER !in u && CHECKSUM_DELIMITER !in u
  {
    if ParseUnits(u).Some? {
      var k := IndexOf(u, DECIMAL_POINT);
      var fp := if k < |u| then u[k + 1..] else [];
      forall j | 0 <= j < |u| ensures u[j] != FIELD_DELIMITER && u[j] != CHECKSUM_DELIMITER {
        if j < k {
          assert u[..k][j] == u[j];
        } else if j > k {
          assert fp[j - k - 1] == u[j];
        }
      }
    }
  }

  /** The value of a concatenation of digit strings. */
  lemma {:induction false} ValueOfAppend(a: string, b: string)
    requires IsDigits(a) && IsDigits(b)
    ensures IsDigits(a + b) && ValueOf(a + b) == ValueOf(a) * Pow10(|b|) + ValueOf(b)
  {
    if b == [] {
      assert a + b == a;
    } else {
      var b', c := b[..|b| - 1], b[|b| - 1];
      assert b == b' + [c];
      assert a + b == (a + b') + [c];
      ValueOfAppend(a, b');
      ValueOfPush(a + b', c);
      ValueOfPush(b', c);
      Shift(ValueOf(a), Pow10(|b'|), ValueOf(b'), DigitValue(c));
    }
  }

  lemma Shift(x: int, p: int, y: int, c: int)
    ensures (x * p + y) * 10 + c == x * (10 * p) + (y * 10 + c)
  {
  }

  /** Formatting then parsing gives back the value exactly. */
  lemma FormatParseRoundTrip(n: int, d: nat)
    ensures ParseDecimal(FormatFixed(n, d)) == Some(Fixed(n, d))
  {
    var m := if n < 0 then -n else n;
    var u := FormatUnsigned(m, d);
    UnitsRoundTrip(m, d);
    var s := FormatFixed(n, d);
    if n < 0 {
      assert s[1..] == u && s[0] == '-';
    } else {
      assert s == u && IsDigit(s[0]);
    }
  }

  /** The magnitude text reads back as the same units and decimal place. */
  lemma UnitsRoundTrip(m: nat, d: nat)
    ensures ParseUnits(FormatUnsigned(m, d)) == Some((m, d))
  {
    var digits := ZeroPadded(Digits(m), d + 1);
    assert ValueOf(digits) == m;
    var k := |digits| - d;
    if d == 0 {
      assert FormatUnsigned(m, d) == digits;
      ParseWholeUnits(digits);
    } else {
      var whole, frac := digits[..k], digits[k..];
      assert FormatUnsigned(m, d) == whole + [DECIMAL_POINT] + frac;
      assert whole + frac == digits;
      assert IsDigits(whole) && IsDigits(frac) && |frac| == d;
      ParseFractionUnits(whole, frac);
    }
  }

  /** A digit string reads as that many units of the ones place. */
  lemma ParseWholeUnits(w: string)
    requires |w| > 0 && IsDigits(w)
    ensures ParseUnits(w) == Some((ValueOf(w), 0))
  {
    forall i | 0 <= i < |w| ensures w[i] != DECIMAL_POINT {
      assert IsDigit(w[i]);
    }
    IndexOfAt(w, DECIMAL_POINT, |w|);
    assert w[..|w|] == w && w + [] == w;
  }

  /** Digits, '.', digits reads as both digit strings run together, counted
      in the place of the last fraction digit. */
  lemma ParseFractionUnits(w: string, f: string)
    requires |w| > 0 && IsDigits(w) && IsDigits(f)
    ensures IsDigits(w + f) && ParseUnits(w + [DECIMAL_POINT] + f) == Some((ValueOf(w + f), |f|))
  {
    var u := w + [DECIMAL_POINT] + f;
    assert DECIMAL_POINT !in w by {
      forall i | 0 <= i < |w| ensures w[i] != DECIMAL_POINT {
        assert IsDigit(w[i]);
      }
    }
    IndexOfDelimiter(w, DECIMAL_POINT, f);
    assert u[..|w|] == w && u[|w| + 1..] == f;
    ValueOfAppend(w, f);
  }

  /** `x * 10^d` rounded half toward +infinity to an integer: the number of
      units of 10^-d a setter writes for `x`. */
  function Scaled(x: real, d: nat): (n: int)
    ensures x * Pow10(d) as real - 0.5 < n as real <= x * Pow10(d) as real + 0.5
  {
    (x * Pow10(d) as real + 0.5).Floor
  }

  /** `x` rounded half toward +infinity to `d` decimals. */
  function Rounded(x: real, d: nat): (y: real)
    ensures x - 0.5 / Pow10(d) as real < y <= x + 0.5 / Pow10(d) as real
    ensures exists n: int :: y == Fixed(n, d)
  {
    RoundingBound(x, d);
    Fixed(Scaled(x, d), d)
  }

  lemma RoundingBound(x: real, d: nat)
    ensures var p := Pow10(d) as real;
            x - 0.5 / p < Scaled(x, d) as real / p <= x + 0.5 / p
  {
    DivideBounds(x, Scaled(x, d) as real, Pow10(d) as real);
  }

  /** Dividing `x * p - 0.5 < n <= x * p + 0.5` through by `p`. */
  lemma DivideBounds(x: real, n: real, p: real)
    requires p >= 1.0
    requires x * p - 0.5 < n <= x * p + 0.5
    ensures x - 0.5 / p < n / p <= x + 0.5 / p
  {
    assert (x * p - 0.5) / p == x - 0.5 / p;
    assert (x * p + 0.5) / p == x + 0.5 / p;
    DivideMonotone(x * p - 0.5, n, p);
    DivideMonotone(n, x * p + 0.5, p);
  }

  lemma DivideMonotone(a: real, b: real, p: real)
    requires p > 0.0
    ensures a < b ==> a / p < b / p
    ensures a <= b ==> a / p <= b / p
  {
  }

  /** A value that already has at most `d` decimals is not changed by
      rounding, so setting 45.0 and reading back gives 45.0 exactly. */
  lemma RoundedExact(x: real, d: nat, n: int)
    requires x * Pow10(d) as real == n as real
    ensures Scaled(x, d) == n && Rounded(x, d) == x
  {
    var p := Pow10(d) as real;
    assert (x * p + 0.5).Floor == n;
    assert Scaled(x, d) == n;
    assert x == n as real / p == Fixed(n, d);
  }
}
