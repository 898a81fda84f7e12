/** The values `float()` and `_convertSize` give to decimal numerals, exponents and sizes. */
module SizeValues {
  import opened Wrappers
  import opened Text
  import opened SizeParser

  /** The value of two digit runs written one after the other. */
  lemma {:induction false} DigitsValueAppend(a: string, b: string)
    requires AllDigits(a) && AllDigits(b)
    ensures AllDigits(a + b)
    ensures DigitsValue(a + b) == DigitsValue(a) * Pow(10, |b|) + DigitsValue(b)
    decreases |b|
  {
    if b == [] {
      assert a + b == a;
    } else {
      var front, ab := b[..|b| - 1], a + b;
      var d := b[|b| - 1] as int - '0' as int;
      assert ab[..|ab| - 1] == a + front;
      assert ab[|ab| - 1] == b[|b| - 1];
      DigitsValueAppend(a, front);
      assert AllDigits(ab) by {
        assert forall i :: 0 <= i < |ab| ==> ab[i] == if i < |a| then a[i] else b[i - |a|];
      }
      var x, y, p := DigitsValue(a), DigitsValue(front), Pow(10, |front|);
      assert DigitsValue(ab) == 10 * (x * p + y) + d;
      assert DigitsValue(b) == 10 * y + d;
      assert Pow(10, |b|) == 10 * p;
      MulTen(x, p);
    }
  }

  lemma MulTen(x: int, p: int)
    ensures x * (10 * p) == 10 * (x * p)
  {
  }

  /** When the first n characters are digits and the next one, if any, is not, the leading run of
      digits has length n. */
  lemma LeadingDigitsIs(s: string, n: nat)
    requires n <= |s| && AllDigits(s[..n]) && (n < |s| ==> !IsDigit(s[n]))
    ensures LeadingDigits(s) == n
  {
    var m := LeadingDigits(s);
    assert forall i :: 0 <= i < n ==> IsDigit(s[i]) by {
      assert forall i :: 0 <= i < n ==> s[..n][i] == s[i];
    }
    assert forall i :: 0 <= i < m ==> IsDigit(s[i]) by {
      assert forall i :: 0 <= i < m ==> s[..m][i] == s[i];
    }
  }

  /** A text starting with a digit or a point is read by `float()` as an unsigned decimal literal:
      no sign, and not one of the words inf, infinity, nan. */
  lemma ParseUnsigned(t: string)
    requires t != [] && (IsDigit(t[0]) || t[0] == '.')
    ensures ParseFloat(t) == ParseDecimal(t)
  {
    var word := Lower(t);
    assert word[0] == t[0];
    assert word != "inf" && word != "infinity" && word != "nan" by {
      assert "inf"[0] == 'i' && "infinity"[0] == 'i' && "nan"[0] == 'n';
    }
  }

  /** `a.b` denotes the digits of a followed by those of b, over 10 to the number of digits of b;
      by `DigitsValueAppend` that is (a * 10^|b| + b) / 10^|b|. */
  lemma ParsePointDecimal(a: string, b: string)
    requires AllDigits(a) && AllDigits(b) && |a| + |b| > 0
    ensures AllDigits(a + b)
    ensures ParseDecimal(a + "." + b) == Some(Finite(DigitsValue(a + b), Pow(10, |b|)))
  {
    PointParts(a, b);
    DigitsValueAppend(a, b);
    assert ParseExponent([]) == Some(0);
    var m := DigitsValue(a + b);
    assert ParseDecimal(a + "." + b) == Some(Scaled(m, -|b|));
    if |b| == 0 {
      assert Pow(10, 0) == 1 && m * 1 == m;
    }
  }

  /** How `ParseDecimal` splits `a.b`: the leading digits are a, the digits after the point are b,
      and no exponent follows. */
  lemma PointParts(a: string, b: string)
    requires AllDigits(a) && AllDigits(b)
    ensures var s := a + "." + b;
      && LeadingDigits(s) == |a| && s[|a|..] != [] && s[|a|..][0] == '.' && s[|a|..][1..] == b
      && LeadingDigits(b) == |b| && b[|b|..] == [] && s[..|a|] + b[..|b|] == a + b
  {
    var tail := ['.'] + b;
    var s := a + tail;
    assert a + "." + b == s;
    assert s[..|a|] == a && s[|a|..] == tail && s[|a|] == '.';
    LeadingDigitsIs(s, |a|);
    assert tail[1..] == b;
    assert b[..|b|] == b;
    LeadingDigitsIs(b, |b|);
  }

  /** A run of digits followed by an exponent denotes that run times 10 to the exponent. */
  lemma ParseDigitsExponent(digits: string, ex: string, e: int)
    requires digits != [] && AllDigits(digits) && ex != [] && ParseExponent(ex) == Some(e)
    ensures ParseDecimal(digits + ex) == Some(Scaled(DigitsValue(digits), e))
  {
    var s := digits + ex;
    assert s[..|digits|] == digits && s[|digits|] == ex[0];
    LeadingDigitsIs(s, |digits|);
    assert s[|digits|..] == ex && ex[0..] == ex;
    assert s[..|digits|] + ex[..0] == digits;
  }

  /** `e`, an optional sign and the decimal numeral of n denote n, or -n after `-`. */
  lemma ExponentOfNat(n: nat)
    ensures ParseExponent("e" + NatToString(n)) == Some(n)
    ensures ParseExponent("E+" + NatToString(n)) == Some(n)
    ensures ParseExponent("e-" + NatToString(n)) == Some(-(n as int))
  {
    var ds := NatToString(n);
    assert ds[..|ds|] == ds;
    LeadingDigitsIs(ds, |ds|);
    assert ("e" + ds)[1..] == ds && ("E+" + ds)[1..][1..] == ds && ("e-" + ds)[1..][1..] == ds;
  }

  /** `float()` reads a decimal `a.b` as the digits of a and b together over 10^|b|. */
  lemma DecimalFloat(a: string, b: string)
    requires AllDigits(a) && AllDigits(b) && |a| + |b| > 0
    ensures AllDigits(a + b)
    ensures ParseFloat(a + "." + b) == Some(Finite(DigitsValue(a + b), Pow(10, |b|)))
  {
    var t := a + "." + b;
    assert t[0] == (if a != [] then a[0] else '.');
    ParseUnsigned(t);
    ParsePointDecimal(a, b);
  }

  /** `a.b` neither starts nor ends with white space, so `strip()` leaves it alone. */
  lemma DecimalEnds(a: string, b: string)
    requires AllDigits(a) && AllDigits(b)
    ensures var t := a + "." + b; !IsSpace(t[0]) && !IsSpace(t[|t| - 1])
  {
    var t := a + "." + b;
    assert t[0] == (if a != [] then a[0] else '.');
    assert t[|t| - 1] == (if b != [] then b[|b| - 1] else '.');
  }

  /** A decimal `a.b`, then white space, then a unit in any case, converts to a.b units in bytes,
      truncated toward zero. */
  lemma SizeOfDecimal(a: string, b: string, space: string, unit: string, k: nat)
    requires AllDigits(a) && AllDigits(b) && |a| + |b| > 0
    requires 1 <= k <= 4 && |unit| == 2 && Upper(unit) == UnitName(k)
    requires forall i :: 0 <= i < |space| ==> IsSpace(space[i])
    ensures AllDigits(a + b)
    ensures ConvertSize(a + "." + b + space + unit) ==
              Ok(Trunc(DigitsValue(a + b) * Pow(1024, k), Pow(10, |b|)))
  {
    DecimalFloat(a, b);
    DecimalEnds(a, b);
    SizeOfNumber(a + "." + b, space, unit, k, DigitsValue(a + b), Pow(10, |b|));
  }

  /** A number `float()` reads as num / den, then white space, then a unit in any case, converts
      to num / den units in bytes, truncated toward zero. */
  lemma SizeOfNumber(t: string, space: string, unit: string, k: nat, num: int, den: Pos)
    requires t != [] && !IsSpace(t[0]) && !IsSpace(t[|t| - 1])
    requires forall i :: 0 <= i < |space| ==> IsSpace(space[i])
    requires 1 <= k <= 4 && |unit| == 2 && Upper(unit) == UnitName(k)
    requires ParseFloat(t) == Some(Finite(num, den))
    ensures ConvertSize(t + space + unit) == Ok(Trunc(num * Pow(1024, k), den))
  {
    var size := t + space + unit;
    assert Suffix(size) == unit;
    assert Prefix(size) == t + space;
    StripTrailing(t, space);
    SizeOfKnownUnit(size, k, num, den);
  }
}
