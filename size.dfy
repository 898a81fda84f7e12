/** `SceneTimeProvider._convertSize`: a human-readable size such as "1.46 GB" to a byte count. */
module SizeParser {
  import opened Wrappers
  import opened Text

  type Pos = n: int | n > 0 witness 1

  /** What Python's `float()` yields, with a finite value kept exact as num / den. */
  datatype Float = Finite(num: int, den: Pos) | Infinity(negative: bool) | NaN

  predicate IsDigit(c: char) {
    '0' <= c <= '9'
  }

  predicate AllDigits(s: string) {
    forall i :: 0 <= i < |s| ==> IsDigit(s[i])
  }

  function Pow(b: int, k: nat): (r: int)
    ensures b > 0 ==> r > 0
  {
    if k == 0 then 1 else b * Pow(b, k - 1)
  }

  /** The value of a run of decimal digits, most significant first. */
  function DigitsValue(ds: string): nat
    requires AllDigits(ds)
  {
    if ds == [] then 0 else 10 * DigitsValue(ds[..|ds| - 1]) + (ds[|ds| - 1] as int - '0' as int)
  }

  /** The length of the run of digits at the start of s. */
  function LeadingDigits(s: string): (n: nat)
    ensures n <= |s| && AllDigits(s[..n])
    ensures n < |s| ==> !IsDigit(s[n])
  {
    if s != [] && IsDigit(s[0]) then
      var n := 1 + LeadingDigits(s[1..]);
      assert s[..n] == [s[0]] + s[1..][..n - 1];
      n
    else 0
  }

  /** An optional exponent `e`/`E`, optional sign, at least one digit, and nothing after it. */
  function ParseExponent(s: string): (r: Option<int>)
    ensures r.Some? && s != [] ==> |s| >= 2 && (s[0] == 'e' || s[0] == 'E') && IsDigit(s[|s| - 1])
  {
    if s == [] then Some(0)
    else if s[0] != 'e' && s[0] != 'E' then None
    else
      var u := s[1..];
      var negative := u != [] && u[0] == '-';
      var ds := if u != [] && (u[0] == '-' || u[0] == '+') then u[1..] else u;
      if ds != [] && LeadingDigits(ds) == |ds| then
        assert ds[..|ds|] == ds && s[|s| - 1] == ds[|ds| - 1];
        Some(if negative then -(DigitsValue(ds) as int) else DigitsValue(ds) as int)
      else None
  }

  /** An unsigned decimal literal: digits, optionally a point and more digits (at least one digit
      in all), then an optional exponent. */
  function ParseDecimal(s: string): (r: Option<Float>)
    ensures r.Some? ==> r.value.Finite? && r.value.num >= 0
    ensures r.Some? ==> s != [] && (IsDigit(s[0]) || s[0] == '.')
  {
    var a := LeadingDigits(s);
    var rest := s[a..];
    var point := rest != [] && rest[0] == '.';
    var afterPoint := if point then rest[1..] else rest;
    var b := if point then LeadingDigits(afterPoint) else 0;
    if a + b == 0 then None
    else
      assert s != [] && (IsDigit(s[0]) || s[0] == '.') by {
        if a > 0 { assert s[..a][0] == s[0]; } else { assert rest == s; }
      }
      match ParseExponent(afterPoint[b..])
      case None => None
      case Some(e) =>
        assert AllDigits(s[..a] + afterPoint[..b]);
        Some(Scaled(DigitsValue(s[..a] + afterPoint[..b]), e - b))
  }

  /** m times 10 to the power scale, kept exact. */
  function Scaled(m: nat, scale: int): (v: Float)
    ensures v.Finite? && v.num >= 0
    ensures scale >= 0 ==> v.den == 1 && v.num == m * Pow(10, scale)
    ensures scale < 0 ==> v.num == m && v.den == Pow(10, -scale)
  {
    if scale >= 0 then
      var p := Pow(10, scale);
      assert m * p >= 0 by { assert p > 0; }
      Finite(m * p, 1)
    else Finite(m, Pow(10, -scale))
  }

  /** Python 2's `float()` of a string that has already been stripped: an optional sign, then
      `inf`, `infinity` or `nan` in any case, or a decimal literal. */
  function ParseFloat(t: string): (r: Option<Float>)
    ensures t == [] ==> r.None?
    ensures r.Some? && r.value.Finite? && r.value.num < 0 ==> t[0] == '-'
  {
    var negative := t != [] && t[0] == '-';
    var body := if t != [] && (t[0] == '-' || t[0] == '+') then t[1..] else t;
    var word := Lower(body);
    if word == "inf" || word == "infinity" then Some(Infinity(negative))
    else if word == "nan" then Some(NaN)
    else match ParseDecimal(body)
      case None => None
      case Some(v) => if negative && v.Finite? then Some(Finite(-v.num, v.den)) else Some(v)
  }

  /** Python's `long()` of the exact ratio a / d: truncation toward zero. */
  function Trunc(a: int, d: Pos): (r: int)
    ensures a >= 0 ==> 0 <= r && r * d <= a < (r + 1) * d
    ensures a < 0 ==> r <= 0 && (r - 1) * d < a <= r * d
  {
    if a >= 0 then
      DivBounds(a, d);
      a / d
    else
      DivBounds(-a, d);
      -((-a) / d)
  }

  lemma DivBounds(a: nat, d: Pos)
    ensures 0 <= a / d && (a / d) * d <= a < (a / d + 1) * d
  {
    var q, m := a / d, a % d;
    assert a == d * q + m && 0 <= m < d;
    assert (q + 1) * d == q * d + d;
  }

  /** `size[-2:]`: the last two characters, or all of a shorter string. */
  function Suffix(s: string): (r: string)
    ensures |r| == if |s| >= 2 then 2 else |s|
    ensures r == s[|s| - |r|..]
  {
    if |s| >= 2 then s[|s| - 2..] else s
  }

  /** `size[:-2]`: all but the last two characters, or nothing of a shorter string. */
  function Prefix(s: string): (r: string)
    ensures r + Suffix(s) == s
  {
    if |s| >= 2 then s[..|s| - 2] else []
  }

  /** The power of 1024 selected by the chain `modifier in 'KB'`, `in 'MB'`, `in 'GB'`, `in 'TB'`
      (Python's substring test), or 0 when none matches. */
  function UnitRank(modifier: string): (r: nat)
    ensures r <= 4
    ensures modifier == [] ==> r == 1
    ensures |modifier| > 2 ==> r == 0
  {
    if Contains("KB", modifier) then 1
    else if Contains("MB", modifier) then 2
    else if Contains("GB", modifier) then 3
    else if Contains("TB", modifier) then 4
    else 0
  }

  /** The byte count of a size text, or -1. A prefix that `float()` rejects and an unknown unit are
      both caught and give -1; an infinite prefix with a known unit makes `long()` raise
      OverflowError, and a NaN one makes it raise ValueError, outside the `try`. */
  function ConvertSize(size: string): (r: Outcome<int>)
    ensures r.Raise? ==> r.error == OverflowError || r.error == ValueError
  {
    var modifier := Upper(Suffix(size));
    match ParseFloat(Strip(Prefix(size)))
    case None => Ok(-1)
    case Some(v) =>
      var k := UnitRank(modifier);
      if k == 0 then Ok(-1)
      else match v
        case Finite(n, d) => Ok(Trunc(n * Pow(1024, k), d))
        case Infinity(_) => Raise(OverflowError)
        case NaN => Raise(ValueError)
  }

  /** The unit a rank names. */
  function UnitName(k: nat): string
    requires 1 <= k <= 4
  {
    ["KB", "MB", "GB", "TB"][k - 1]
  }

  /** The decimal numeral of n. */
  function NatToString(n: nat): (s: string)
    ensures s != [] && AllDigits(s)
    ensures DigitsValue(s) == n
  {
    var last := ['0' + (n % 10) as char];
    if n < 10 then last
    else
      var s := NatToString(n / 10) + last;
      assert s[..|s| - 1] == NatToString(n / 10);
      s
  }

  /** A string of two characters or fewer has an empty numeric part after the unit is cut,
      which `float()` rejects: the answer is the sentinel. */
  lemma SizeOfShortText(size: string)
    requires |size| <= 2
    ensures ConvertSize(size) == Ok(-1)
  {
    assert Strip(Prefix(size)) == [];
    ParseEmpty();
  }

  /** `float("")` raises ValueError. */
  lemma ParseEmpty()
    ensures ParseFloat([]).None?
  {
    assert |Lower([])| == 0;
    assert LeadingDigits([]) == 0;
    assert ParseDecimal([]).None?;
  }

  /** For a two-character modifier the substring chain is plain equality with the unit names. */
  lemma UnitRankOfPair(modifier: string)
    requires |modifier| == 2
    ensures UnitRank(modifier) == if modifier == "KB" then 1 else if modifier == "MB" then 2
                                  else if modifier == "GB" then 3 else if modifier == "TB" then 4 else 0
  {
    forall unit: string | |unit| == 2 ensures Occurs(unit, modifier) <==> unit == modifier {
      if Occurs(unit, modifier) {
        var i :| OccursAt(unit, modifier, i);
        assert i == 0 && unit[0..2] == unit;
      } else {
        assert !OccursAt(unit, modifier, 0);
        assert unit[0..2] == unit;
      }
    }
  }

  /** Every way of failing gives the sentinel -1: a text of two characters or fewer, a suffix that
      upper-cases to none of KB, MB, GB, TB, or a numeric part that `float()` rejects. */
  lemma SizeSentinel(size: string)
    requires || |size| <= 2
             || Upper(Suffix(size)) !in ["KB", "MB", "GB", "TB"]
             || ParseFloat(Strip(Prefix(size))).None?
    ensures ConvertSize(size) == Ok(-1)
  {
    if |size| <= 2 {
      SizeOfShortText(size);
    } else {
      UnitRankOfPair(Upper(Suffix(size)));
    }
  }

  /** With unit KB, MB, GB or TB (in any case) and a numeric part worth exactly num / den, the
      answer is num / den times 1024 to the unit's rank, truncated toward zero. */
  lemma SizeOfKnownUnit(size: string, k: nat, num: int, den: Pos)
    requires 1 <= k <= 4 && |size| >= 2 && Upper(Suffix(size)) == UnitName(k)
    requires ParseFloat(Strip(Prefix(size))) == Some(Finite(num, den))
    ensures ConvertSize(size) == Ok(Trunc(num * Pow(1024, k), den))
  {
    KnownUnitRank(size, k);
  }

  lemma KnownUnitRank(size: string, k: nat)
    requires 1 <= k <= 4 && |size| >= 2 && Upper(Suffix(size)) == UnitName(k)
    ensures UnitRank(Upper(Suffix(size))) == k
  {
    var modifier := Upper(Suffix(size));
    assert |modifier| == 2;
    UnitRankOfPair(modifier);
    assert UnitRank(modifier) == k by {
      if k == 1 { assert modifier == "KB"; }
      else if k == 2 { assert modifier == "MB"; }
      else if k == 3 { assert modifier == "GB"; }
      else { assert modifier == "TB"; }
    }
  }

  /** With a known unit, an infinite numeric part makes `long()` raise OverflowError and a NaN one
      makes it raise ValueError; both escape `_convertSize`. */
  lemma SizeOfNonFinite(size: string, k: nat)
    requires 1 <= k <= 4 && |size| >= 2 && Upper(Suffix(size)) == UnitName(k)
    ensures ParseFloat(Strip(Prefix(size))) == Some(NaN) ==> ConvertSize(size) == Raise(ValueError)
    ensures (exists negative :: ParseFloat(Strip(Prefix(size))) == Some(Infinity(negative))) ==>
              ConvertSize(size) == Raise(OverflowError)
  {
    KnownUnitRank(size, k);
  }

  /** A natural number written out, then white space, then a unit in any case, converts back to
      that number of units in bytes. */
  lemma {:induction false} SizeOfNatural(n: nat, space: string, unit: string, k: nat)
    requires 1 <= k <= 4 && |unit| == 2 && Upper(unit) == UnitName(k)
    requires forall i :: 0 <= i < |space| ==> IsSpace(space[i])
    ensures ConvertSize(NatToString(n) + space + unit) == Ok(n * Pow(1024, k))
  {
    var digits := NatToString(n);
    var size := digits + space + unit;
    assert Suffix(size) == unit;
    assert Prefix(size) == digits + space;
    StripTrailing(digits, space);
    ParseNatural(digits);
    SizeOfKnownUnit(size, k, n, 1);
    assert Trunc(n * Pow(1024, k), 1) == n * Pow(1024, k);
  }

  /** `float()` reads a run of digits as the number it denotes. */
  lemma ParseNatural(digits: string)
    requires digits != [] && AllDigits(digits)
    ensures ParseFloat(digits) == Some(Finite(DigitsValue(digits), 1))
  {
    var word := Lower(digits);
    assert word[0] == digits[0] && IsDigit(word[0]);
    assert word != "inf" && word != "infinity" && word != "nan" by {
      assert "inf"[0] == 'i' && "infinity"[0] == 'i' && "nan"[0] == 'n';
    }
    DecimalOfDigits(digits);
  }

  lemma DecimalOfDigits(digits: string)
    requires digits != [] && AllDigits(digits)
    ensures ParseDecimal(digits) == Some(Finite(DigitsValue(digits), 1))
  {
    var a := LeadingDigits(digits);
    assert a == |digits|;
    var rest := digits[a..];
    assert rest == [];
    assert ParseExponent(rest) == Some(0);
    assert digits[..a] + rest[..0] == digits;
    var m := DigitsValue(digits);
    assert Pow(10, 0) == 1 && m * Pow(10, 0) == m;
  }

  /** The worked example "1.46 GB": 1.46 * 1024^3 = 1567663063.04 bytes, truncated. */
  lemma SizeOfExample()
    ensures ConvertSize("1.46 GB") == Ok(1567663063)
  {
    var size := "1.46 GB";
    assert Suffix(size) == "GB" && Prefix(size) == "1.46" + " ";
    assert Upper("GB") == "GB";
    StripTrailing("1.46", " ");
    ParseExample();
    assert Pow(1024, 3) == 1073741824;
    SizeOfKnownUnit(size, 3, 146, 100);
  }

  lemma ParseExample()
    ensures ParseFloat("1.46") == Some(Finite(146, 100))
  {
    DecimalExample();
    assert Lower("1.46")[0] == '1';
  }

  lemma DecimalExample()
    ensures ParseDecimal("1.46") == Some(Finite(146, 100))
  {
    var s := "1.46";
    assert LeadingDigits(s) == 1 by {
      assert s[1] == '.';
    }
    assert s[1..][1..] == "46";
    assert LeadingDigits("46") == 2 by {
      assert LeadingDigits("6") == 1;
      assert "46"[1..] == "6";
    }
    assert s[..1] + "46"[..2] == "146";
    assert DigitsValue("146") == 146 by {
      assert "146"[..2] == "14";
      assert "14"[..1] == "1";
    }
  }
}
