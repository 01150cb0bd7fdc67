/**
 * Python's `float(text)` restricted to plain decimal numerals, with the value
 * kept exact as a `real`.
 */
module Decimal {
  import opened Wrappers
  import opened Text

  predicate IsDigit(c: char) {
    '0' <= c <= '9'
  }

  predicate AllDigits(s: string) {
    forall i :: 0 <= i < |s| ==> IsDigit(s[i])
  }

  function Pow10(k: nat): (p: nat)
    ensures p > 0
  {
    if k == 0 then 1 else 10 * Pow10(k - 1)
  }

  /** The value of a string of decimal digits, most significant digit first. */
  function DigitsValue(s: string): (v: nat)
    requires AllDigits(s)
    ensures v < Pow10(|s|)
  {
    if s == [] then 0 else 10 * DigitsValue(s[..|s| - 1]) + (s[|s| - 1] as int - '0' as int)
  }

  /**
   * An unsigned numeral: digits, at most one '.', and at least one digit
   * (so "5", "9.05", ".5" and "5." are numerals, "." and "1.2.3" are not).
   */
  function ParseNumeral(t: string): (r: Option<real>)
    ensures r.Some? ==> 0.0 <= r.value
  {
    var parts := Split(t, ".");
    var whole := parts[0];
    var frac := if |parts| == 2 then parts[1] else "";
    if |parts| <= 2 && AllDigits(whole) && AllDigits(frac) && |whole| + |frac| > 0 then
      Some(NumeralValue(whole, frac))
    else
      None
  }

  /** The value of the numeral `whole.frac`. */
  function NumeralValue(whole: string, frac: string): (v: real)
    requires AllDigits(whole) && AllDigits(frac)
    ensures 0.0 <= v
  {
    DigitsValue(whole) as real + DigitsValue(frac) as real / Pow10(|frac|) as real
  }

  /**
   * Python's `float(s)`: surrounding whitespace is ignored and one sign is
   * allowed; `None` stands for the ValueError that `float` raises otherwise.
   */
  function ParseFloat(s: string): (r: Option<real>)
    ensures r.Some? ==> Strip(s) != []
    ensures r.Some? && r.value < 0.0 ==> Strip(s)[0] == '-'
  {
    var t := Strip(s);
    if t != [] && (t[0] == '+' || t[0] == '-') then
      match ParseNumeral(t[1..])
      case None => None
      case Some(v) => Some(if t[0] == '-' then -v else v)
    else
      ParseNumeral(t)
  }

  /** Characters that can appear in text `float` accepts. */
  predicate NumeralChar(c: char) {
    IsDigit(c) || c == '.' || c == '+' || c == '-' || IsSpace(c)
  }

  lemma SplitNone(s: string, sep: string)
    requires sep != [] && !Contains(s, sep)
    ensures Split(s, sep) == [s]
  {
  }

  /** Every character of an accepted numeral is a digit or the point. */
  lemma NumeralChars(t: string, k: nat)
    requires ParseNumeral(t).Some? && k < |t|
    ensures IsDigit(t[k]) || t[k] == '.'
  {
    var parts := Split(t, ".");
    JoinSplit(t, ".");
    if |parts| == 1 {
      assert t == parts[0];
    } else {
      assert ([parts[0]] + [parts[1]])[1..] == [parts[1]];
      assert parts == [parts[0]] + [parts[1]];
      assert t == parts[0] + "." + parts[1];
      if k > |parts[0]| {
        assert t[k] == parts[1][k - |parts[0]| - 1];
      }
    }
  }

  /**
   * Text holding a character that is not a digit, a point, a sign or
   * whitespace is not a number: `float` raises.
   */
  lemma NotANumber(s: string, k: nat)
    requires k < |s| && !NumeralChar(s[k])
    ensures ParseFloat(s) == None
  {
    var t := Strip(s);
    StripKeeps(s, k);
    var j := k - LeadingSpaces(s);
    assert !NumeralChar(t[j]);
    if t != [] && (t[0] == '+' || t[0] == '-') {
      assert j > 0;
      assert t[1..][j - 1] == t[j];
      NotANumeral(t[1..], j - 1);
    } else {
      NotANumeral(t, j);
    }
  }

  /** A numeral holding a character that is neither a digit nor the point is rejected. */
  lemma NotANumeral(t: string, j: nat)
    requires j < |t| && !IsDigit(t[j]) && t[j] != '.'
    ensures ParseNumeral(t) == None
  {
    if ParseNumeral(t).Some? {
      NumeralChars(t, j);
    }
  }

  lemma StripNoSpace(s: string)
    requires NoSpace(s)
    ensures Strip(s) == s
  {
    var t := Strip(s);
    if s != [] {
      assert LeadingSpaces(s) == 0;
    }
  }

  function DigitChar(d: nat): (c: char)
    requires d < 10
    ensures IsDigit(c) && c as int - '0' as int == d
  {
    ('0' as int + d) as char
  }

  /** The decimal digits of `n`, without leading zeros. */
  function NatDigits(n: nat): (s: string)
    decreases n
    ensures s != [] && AllDigits(s)
    ensures DigitsValue(s) == n
  {
    if n < 10 then
      [DigitChar(n)]
    else
      var s := NatDigits(n / 10) + [DigitChar(n % 10)];
      assert s[..|s| - 1] == NatDigits(n / 10);
      s
  }

  /** `float` reads back the whole number a digit string was written from. */
  lemma ParseWhole(n: nat)
    ensures ParseFloat(NatDigits(n)) == Some(n as real)
  {
    var s := NatDigits(n);
    UnsignedText(s);
    WholeNumeral(s);
  }

  /** A non-empty digit string is a numeral worth its digits' value. */
  lemma WholeNumeral(s: string)
    requires s != [] && AllDigits(s)
    ensures ParseNumeral(s) == Some(DigitsValue(s) as real)
  {
    NoPoint(s);
    SplitNone(s, ".");
    assert NumeralValue(s, "") == DigitsValue(s) as real;
  }

  lemma NoPoint(s: string)
    requires AllDigits(s)
    ensures !Contains(s, ".")
  {
  }

  /** Text of digits and points that opens with a digit is read by `ParseNumeral` as it is. */
  lemma UnsignedText(s: string)
    requires s != [] && IsDigit(s[0])
    requires forall i :: 0 <= i < |s| ==> IsDigit(s[i]) || s[i] == '.'
    ensures ParseFloat(s) == ParseNumeral(s)
  {
    assert NoSpace(s) by {
      forall i | 0 <= i < |s| ensures !IsSpace(s[i]) {
        assert IsDigit(s[i]) || s[i] == '.';
      }
    }
    StripNoSpace(s);
  }

  /** A whole part, a point and a fraction part are read as their exact value. */
  lemma PointNumeral(w: string, z: string)
    requires w != [] && AllDigits(w) && AllDigits(z)
    ensures ParseFloat(w + "." + z) == Some(NumeralValue(w, z))
  {
    var s := w + "." + z;
    assert forall i :: 0 <= i < |s| ==> IsDigit(s[i]) || s[i] == '.' by {
      forall i | 0 <= i < |s| ensures IsDigit(s[i]) || s[i] == '.' {
        if i > |w| {
          assert s[i] == z[i - |w| - 1];
        }
      }
    }
    UnsignedText(s);
    NoPoint(z);
    PointSplit(w, z);
  }

  /** Splitting `whole.frac` on the point gives the two parts. */
  lemma PointSplit(w: string, z: string)
    requires AllDigits(w) && !Contains(z, ".")
    ensures Split(w + "." + z, ".") == [w, z]
  {
    var s := w + "." + z;
    forall j | 0 <= j < |w| ensures !OccursAt(s, ".", j) {
      assert s[j] == w[j];
    }
    SplitAtFirst(s, ".", w, z);
    SplitNone(z, ".");
  }
}
