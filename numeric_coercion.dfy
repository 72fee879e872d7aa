/** `extractNumber` of backend/server.js: a total coercion of any value to a
    number. Numbers pass through; falsy values give 0; anything else is turned
    into text and the leftmost match of the pattern `[0-9]+(\.[0-9]+)?` is read
    as a decimal number, or 0 when there is none. */
module NumericCoercion {
  import opened Json

  predicate IsDigit(c: char)
  {
    '0' <= c <= '9'
  }

  predicate AllDigits(s: string)
  {
    forall i :: 0 <= i < |s| ==> IsDigit(s[i])
  }

  function DigitValue(c: char): (d: nat)
    requires IsDigit(c)
    ensures d < 10
  {
    c as int - '0' as int
  }

  function DigitChar(d: nat): (c: char)
    requires d < 10
    ensures IsDigit(c) && DigitValue(c) == d
  {
    ('0' as int + d) as char
  }

  /** The text matched by the whole pattern `[0-9]+(\.[0-9]+)?`. */
  predicate IsNumeral(t: string)
  {
    (|t| > 0 && AllDigits(t)) ||
    exists k :: 0 < k < |t| - 1 && t[k] == '.' && AllDigits(t[..k]) && AllDigits(t[k + 1..])
  }

  /** Length of the run of digits that starts at position `i` of `s`. */
  function DigitRun(s: string, i: nat): (n: nat)
    requires i <= |s|
    ensures i + n <= |s|
    ensures forall k :: i <= k < i + n ==> IsDigit(s[k])
    ensures i + n == |s| || !IsDigit(s[i + n])
    decreases |s| - i
  {
    if i < |s| && IsDigit(s[i]) then 1 + DigitRun(s, i + 1) else 0
  }

  /** Position of the first digit of `s` at or after `i`. */
  function FirstDigit(s: string, i: nat): (r: Option<nat>)
    requires i <= |s|
    ensures r.Some? ==> i <= r.value < |s| && IsDigit(s[r.value])
    ensures r.Some? ==> forall j :: i <= j < r.value ==> !IsDigit(s[j])
    ensures r.None? ==> forall j :: i <= j < |s| ==> !IsDigit(s[j])
    decreases |s| - i
  {
    if i == |s| then None
    else if IsDigit(s[i]) then Some(i)
    else FirstDigit(s, i + 1)
  }

  datatype Span = Span(start: nat, end: nat)

  /** The end of the greedy match that starts at the digit at position `i`:
      all the digits, then a point and its digits when a digit follows it. */
  function MatchEnd(s: string, i: nat): (j: nat)
    requires i <= |s|
    ensures i <= j <= |s|
  {
    FractionEnd(s, i + DigitRun(s, i))
  }

  /** Where the match ends when its digits end at `j`: after the point and
      its digits when a point and a digit follow, at `j` otherwise. */
  function FractionEnd(s: string, j: nat): (e: nat)
    requires j <= |s|
    ensures j <= e <= |s|
  {
    if j + 1 < |s| && s[j] == '.' && IsDigit(s[j + 1]) then j + 1 + DigitRun(s, j + 1)
    else j
  }

  /** What `s.match(/[0-9]+(\.[0-9]+)?/)` finds, as a span of `s`. */
  function FindNumeral(s: string): (r: Option<Span>)
    ensures r.Some? ==> r.value.start < r.value.end <= |s|
    ensures r.Some? ==> IsDigit(s[r.value.start]) && forall j :: 0 <= j < r.value.start ==> !IsDigit(s[j])
    ensures r.None? <==> forall j :: 0 <= j < |s| ==> !IsDigit(s[j])
  {
    match FirstDigit(s, 0)
    case None => None
    case Some(i) => Some(Span(i, MatchEnd(s, i)))
  }

  /** The value of a string of decimal digits. */
  function DigitsValue(ds: string): (v: nat)
    requires AllDigits(ds)
  {
    if |ds| == 0 then 0
    else 10 * DigitsValue(ds[..|ds| - 1]) + DigitValue(ds[|ds| - 1])
  }

  /** The value of the digits after a decimal point. */
  function FracValue(ds: string): (v: real)
    requires AllDigits(ds)
    ensures 0.0 <= v < 1.0
  {
    if |ds| == 0 then 0.0
    else (DigitValue(ds[0]) as real + FracValue(ds[1..])) / 10.0
  }

  /** `Number(t)` for a matched numeral `t`. */
  function ParseNumeral(t: string): (v: real)
    requires IsNumeral(t)
    ensures v >= 0.0
  {
    var k := DigitRun(t, 0);
    assert t[..k] == t[0..k];
    DigitsValue(t[..k]) as real + (if k + 1 < |t| then FracValue(t[k + 1..]) else 0.0)
  }

  /** `extractNumber(value)` (backend/server.js, lines 30-36). */
  function ExtractNumber(v: Value): (r: real)
    ensures v.Num? ==> r == v.n
    ensures !Truthy(v) ==> r == 0.0
    ensures !v.Num? ==> r >= 0.0
  {
    if v.Num? then v.n
    else if !Truthy(v) then 0.0
    else
      var text := NonNumberText(v);
      match FindNumeral(text)
      case None => 0.0
      case Some(span) =>
        MatchIsNumeral(text, span.start);
        ParseNumeral(text[span.start..span.end])
  }

  // ---------------------------------------------------------------------
  // The scanner agrees with the regular expression: leftmost, then longest.
  // ---------------------------------------------------------------------

  lemma MatchIsNumeral(s: string, i: nat)
    requires i < |s| && IsDigit(s[i])
    ensures IsNumeral(s[i..MatchEnd(s, i)])
  {
    var d := DigitRun(s, i);
    var j := MatchEnd(s, i);
    var t := s[i..j];
    if j == i + d {
      assert |t| > 0 && AllDigits(t);
    } else {
      assert t[..d] == s[i..i + d];
      assert t[d + 1..] == s[i + d + 1..j];
      assert 0 < d < |t| - 1 && t[d] == '.';
    }
  }

  /** Text that is empty or starts with a non-digit is not a match. */
  lemma NotNumeralWithoutLeadingDigit(t: string)
    requires |t| == 0 || !IsDigit(t[0])
    ensures !IsNumeral(t)
  {
    if |t| > 0 {
      forall k | 0 < k < |t| ensures !AllDigits(t[..k]) {
        assert t[..k][0] == t[0];
      }
    }
  }

  /** No numeral is longer than the greedy match from the same start. */
  lemma MatchIsLongest(s: string, i: nat, b: nat)
    requires i < |s| && IsDigit(s[i])
    requires MatchEnd(s, i) < b <= |s|
    ensures !IsNumeral(s[i..b])
  {
    var d := DigitRun(s, i);
    var t := s[i..b];
    assert t[d] == s[i + d];
    assert !AllDigits(t) by { assert !IsDigit(t[d]); }
    forall k | 0 < k < |t| - 1
      ensures !(t[k] == '.' && AllDigits(t[..k]) && AllDigits(t[k + 1..]))
    {
      if k < d {
        assert t[k] == s[i..i + d][k];
      } else if k > d {
        assert t[..k][d] == t[d];
      } else if t[k] == '.' {
        assert t[k + 1..][0] == s[i + d + 1];
        if IsDigit(s[i + d + 1]) {
          // the point and its digits belong to the greedy match
          var f := DigitRun(s, i + d + 1);
          assert t[k + 1..][f] == s[i + d + 1 + f];
        }
      }
    }
  }

  /** The leftmost-longest reading of `s.match(/[0-9]+(\.[0-9]+)?/)`: the span
      found is a match, no match starts earlier, none from the same start is
      longer, and no span is found only when no match exists at all. */
  lemma {:induction false} FindNumeralIsLeftmostLongest(s: string)
    ensures FindNumeral(s).Some? ==>
      var sp := FindNumeral(s).value;
      IsNumeral(s[sp.start..sp.end]) &&
      (forall a, b :: 0 <= a < sp.start && a <= b <= |s| ==> !IsNumeral(s[a..b])) &&
      (forall b :: sp.end < b <= |s| ==> !IsNumeral(s[sp.start..b]))
    ensures FindNumeral(s).None? ==>
      forall a, b :: 0 <= a <= b <= |s| ==> !IsNumeral(s[a..b])
  {
    match FirstDigit(s, 0)
    case None =>
      forall a, b | 0 <= a <= b <= |s| ensures !IsNumeral(s[a..b]) {
        assert a < b ==> s[a..b][0] == s[a];
        NotNumeralWithoutLeadingDigit(s[a..b]);
      }
    case Some(i) =>
      MatchIsNumeral(s, i);
      forall a, b | 0 <= a < i && a <= b <= |s| ensures !IsNumeral(s[a..b]) {
        assert a < b ==> s[a..b][0] == s[a];
        NotNumeralWithoutLeadingDigit(s[a..b]);
      }
      forall b | MatchEnd(s, i) < b <= |s| ensures !IsNumeral(s[i..b]) {
        MatchIsLongest(s, i, b);
      }
  }

  /** A run of exactly `n` digits ends where the text stops or a non-digit follows. */
  lemma {:induction false} DigitRunIs(s: string, i: nat, n: nat)
    requires i + n <= |s|
    requires AllDigits(s[i..i + n])
    requires i + n == |s| || !IsDigit(s[i + n])
    ensures DigitRun(s, i) == n
    decreases n
  {
    if n > 0 {
      assert s[i..i + n][0] == s[i];
      assert s[i + 1..i + n] == s[i..i + n][1..];
      DigitRunIs(s, i + 1, n - 1);
    }
  }

  // ---------------------------------------------------------------------
  // Decimal text of naturals, and how extractNumber reads it back.
  // ---------------------------------------------------------------------

  /** The decimal text of a natural number, as `${n}` prints it. */
  function DecimalText(n: nat): (t: string)
    ensures |t| > 0 && AllDigits(t)
  {
    if n < 10 then [DigitChar(n)]
    else DecimalText(n / 10) + [DigitChar(n % 10)]
  }

  lemma {:induction false} DecimalTextValue(n: nat)
    ensures DigitsValue(DecimalText(n)) == n
  {
    if n >= 10 {
      var t := DecimalText(n);
      assert t[..|t| - 1] == DecimalText(n / 10);
      DecimalTextValue(n / 10);
    } else {
      var t := DecimalText(n);
      assert t[..0] == [];
    }
  }

  /** `Number` reads the decimal text of `n` back as `n`. */
  lemma ParseDecimalText(n: nat)
    ensures IsNumeral(DecimalText(n)) && ParseNumeral(DecimalText(n)) == n as real
  {
    var d := DecimalText(n);
    assert d[0..|d|] == d;
    DigitRunIs(d, 0, |d|);
    assert d[..|d|] == d;
    DecimalTextValue(n);
  }

  /** Text without digits before a match moves the match and nothing else. */
  lemma FindNumeralAfterPrefix(prefix: string, w: string)
    requires forall j :: 0 <= j < |prefix| ==> !IsDigit(prefix[j])
    requires |w| > 0 && IsDigit(w[0])
    ensures FindNumeral(prefix + w) == Some(Span(|prefix|, |prefix| + MatchEnd(w, 0)))
  {
    var s := prefix + w;
    var p := |prefix|;
    assert s[p] == w[0];
    forall j | 0 <= j < p ensures !IsDigit(s[j]) {
      assert s[j] == prefix[j];
    }
    FirstDigitIs(s, 0, p);
    MatchEndShift(prefix, w, 0);
  }

  /** Digits followed by text that does not continue them match as a whole. */
  lemma MatchEndOfInteger(a: string, suffix: string)
    requires |a| > 0 && AllDigits(a)
    requires |suffix| > 0 ==> !IsDigit(suffix[0])
    requires |suffix| > 1 ==> !(suffix[0] == '.' && IsDigit(suffix[1]))
    ensures MatchEnd(a + suffix, 0) == |a|
  {
    var w := a + suffix;
    assert w[0..|a|] == a;
    assert |a| < |w| ==> w[|a|] == suffix[0];
    DigitRunIs(w, 0, |a|);
    assert |a| + 1 < |w| ==> w[|a| + 1] == suffix[1];
  }

  lemma FindNumeralOfAnnotated(prefix: string, n: nat, suffix: string)
    requires forall j :: 0 <= j < |prefix| ==> !IsDigit(prefix[j])
    requires |suffix| > 0 ==> !IsDigit(suffix[0])
    requires |suffix| > 1 ==> !(suffix[0] == '.' && IsDigit(suffix[1]))
    ensures FindNumeral(prefix + DecimalText(n) + suffix)
      == Some(Span(|prefix|, |prefix| + |DecimalText(n)|))
  {
    FindNumeralOfDigits(prefix, DecimalText(n), suffix);
  }

  lemma FindNumeralOfDigits(prefix: string, a: string, suffix: string)
    requires forall j :: 0 <= j < |prefix| ==> !IsDigit(prefix[j])
    requires |a| > 0 && AllDigits(a)
    requires |suffix| > 0 ==> !IsDigit(suffix[0])
    requires |suffix| > 1 ==> !(suffix[0] == '.' && IsDigit(suffix[1]))
    ensures FindNumeral(prefix + a + suffix) == Some(Span(|prefix|, |prefix| + |a|))
  {
    assert prefix + a + suffix == prefix + (a + suffix);
    assert (a + suffix)[0] == a[0];
    FindNumeralAfterPrefix(prefix, a + suffix);
    MatchEndOfInteger(a, suffix);
  }

  lemma ExtractNumberOfScan(s: string, sp: Span)
    requires FindNumeral(s) == Some(sp)
    ensures IsNumeral(s[sp.start..sp.end])
    ensures ExtractNumber(Str(s)) == ParseNumeral(s[sp.start..sp.end])
  {
    MatchIsNumeral(s, sp.start);
  }

  /** `extractNumber` of a text is `Number` of the leftmost, longest match of
      the pattern: the numeral `s[a..b]` such that no numeral starts earlier
      and none from `a` runs further. */
  lemma ExtractNumberOfMatch(s: string, a: nat, b: nat)
    requires a <= b <= |s| && IsNumeral(s[a..b])
    requires forall a', b' :: 0 <= a' < a && a' <= b' <= |s| ==> !IsNumeral(s[a'..b'])
    requires forall b' :: b < b' <= |s| ==> !IsNumeral(s[a..b'])
    ensures ExtractNumber(Str(s)) == ParseNumeral(s[a..b])
  {
    FindNumeralIsLeftmostLongest(s);
    assert FindNumeral(s).Some?;
    var sp := FindNumeral(s).value;
    assert !(sp.start < a);
    assert !(a < sp.start);
    assert !(sp.end < b);
    assert !(b < sp.end);
    ExtractNumberOfScan(s, sp);
  }

  /** A text holding no match of the pattern at all gives 0. */
  lemma ExtractNumberOfNoNumeral(s: string)
    requires forall a, b :: 0 <= a <= b <= |s| ==> !IsNumeral(s[a..b])
    ensures ExtractNumber(Str(s)) == 0.0
  {
    FindNumeralIsLeftmostLongest(s);
  }

  /** A unit-annotated reading such as "약 20g" or "350kcal": text without
      digits, the number, then text that does not continue the number. */
  lemma ExtractNumberOfAnnotated(prefix: string, n: nat, suffix: string)
    requires forall j :: 0 <= j < |prefix| ==> !IsDigit(prefix[j])
    requires |suffix| > 0 ==> !IsDigit(suffix[0])
    requires |suffix| > 1 ==> !(suffix[0] == '.' && IsDigit(suffix[1]))
    ensures ExtractNumber(Str(prefix + DecimalText(n) + suffix)) == n as real
  {
    var d := DecimalText(n);
    var s := prefix + d + suffix;
    FindNumeralOfAnnotated(prefix, n, suffix);
    ExtractNumberOfScan(s, Span(|prefix|, |prefix| + |d|));
    Middle(prefix, d, suffix);
    ParseDecimalText(n);
  }

  lemma {:induction false} FirstDigitIs(s: string, i: nat, p: nat)
    requires i <= p < |s| && IsDigit(s[p])
    requires forall j :: i <= j < p ==> !IsDigit(s[j])
    ensures FirstDigit(s, i) == Some(p)
    decreases p - i
  {
    if i < p {
      FirstDigitIs(s, i + 1, p);
    }
  }

  /** Text with no digit in it coerces to 0. */
  lemma ExtractNumberWithoutDigits(s: string)
    requires forall j :: 0 <= j < |s| ==> !IsDigit(s[j])
    ensures ExtractNumber(Str(s)) == 0.0
  {
  }

  /** "약 20g" reads as 20. */
  lemma ExtractNumberOfGrams()
    ensures ExtractNumber(Str("약 20g")) == 20.0
  {
    assert DecimalText(20) == "20";
    assert "약 20g" == "약 " + DecimalText(20) + "g";
    ExtractNumberOfAnnotated("약 ", 20, "g");
  }

  /** "350kcal" reads as 350. */
  lemma ExtractNumberOfKcal()
    ensures ExtractNumber(Str("350kcal")) == 350.0
  {
    assert DecimalText(350) == "350";
    assert "350kcal" == "" + DecimalText(350) + "kcal";
    ExtractNumberOfAnnotated("", 350, "kcal");
  }

  /** The sign is not part of the pattern: "-7" reads as 7. */
  lemma ExtractNumberIgnoresSign()
    ensures ExtractNumber(Str("-7")) == 7.0
  {
    assert DecimalText(7) == "7";
    assert "-7" == "-" + DecimalText(7) + "";
    ExtractNumberOfAnnotated("-", 7, "");
  }

  /** Text without digits, null and undefined are 0; a number is kept. */
  lemma ExtractNumberOfNoNumber()
    ensures ExtractNumber(Str("no digits here")) == 0.0
    ensures ExtractNumber(Null) == 0.0 && ExtractNumber(Undefined) == 0.0
    ensures ExtractNumber(Num(42.0)) == 42.0
  {
    ExtractNumberWithoutDigits("no digits here");
  }

  /** Text before the match moves the match, and nothing else. */
  lemma {:induction false} DigitRunShift(prefix: string, t: string, i: nat)
    requires i <= |t|
    ensures DigitRun(prefix + t, |prefix| + i) == DigitRun(t, i)
    decreases |t| - i
  {
    var s := prefix + t;
    if i < |t| {
      assert s[|prefix| + i] == t[i];
      if IsDigit(t[i]) {
        DigitRunShift(prefix, t, i + 1);
      }
    }
  }

  lemma FractionEndShift(prefix: string, t: string, j: nat)
    requires j <= |t|
    ensures FractionEnd(prefix + t, |prefix| + j) == |prefix| + FractionEnd(t, j)
  {
    var s := prefix + t;
    var p := |prefix|;
    if j + 1 < |t| {
      assert s[p + j] == t[j] && s[p + j + 1] == t[j + 1];
      DigitRunShift(prefix, t, j + 1);
    }
  }

  lemma MatchEndShift(prefix: string, t: string, i: nat)
    requires i <= |t|
    ensures MatchEnd(prefix + t, |prefix| + i) == |prefix| + MatchEnd(t, i)
  {
    DigitRunShift(prefix, t, i);
    FractionEndShift(prefix, t, i + DigitRun(t, i));
  }

  lemma MatchEndOfDecimal(a: string, b: string, suffix: string)
    requires |a| > 0 && AllDigits(a) && |b| > 0 && AllDigits(b)
    requires |suffix| > 0 ==> !IsDigit(suffix[0])
    ensures MatchEnd(a + "." + b + suffix, 0) == |a| + 1 + |b|
  {
    var w := a + "." + b + suffix;
    assert w[0..|a|] == a;
    assert w[|a|] == '.';
    DigitRunIs(w, 0, |a|);
    var q := |a| + 1;
    assert w[q] == b[0];
    assert w[q..q + |b|] == b;
    assert q + |b| < |w| ==> w[q + |b|] == suffix[0];
    DigitRunIs(w, q, |b|);
  }

  /** `Number` of digits, a point and digits: the integer part plus the fraction. */
  lemma ParseFraction(a: string, b: string)
    requires |a| > 0 && AllDigits(a) && |b| > 0 && AllDigits(b)
    ensures IsNumeral(a + "." + b)
    ensures ParseNumeral(a + "." + b) == DigitsValue(a) as real + FracValue(b)
  {
    var d := a + "." + b;
    assert d[..|a|] == a && d[|a| + 1..] == b;
    assert d[|a|] == '.';
    assert IsNumeral(d);
    assert d[0..|a|] == a;
    DigitRunIs(d, 0, |a|);
  }

  lemma FindNumeralOfFraction(prefix: string, a: string, b: string, suffix: string)
    requires forall j :: 0 <= j < |prefix| ==> !IsDigit(prefix[j])
    requires |a| > 0 && AllDigits(a) && |b| > 0 && AllDigits(b)
    requires |suffix| > 0 ==> !IsDigit(suffix[0])
    ensures FindNumeral(prefix + (a + "." + b) + suffix) == Some(Span(|prefix|, |prefix| + |a + "." + b|))
  {
    var w := a + "." + b + suffix;
    assert prefix + (a + "." + b) + suffix == prefix + w;
    assert w[0] == a[0];
    FindNumeralAfterPrefix(prefix, w);
    MatchEndOfDecimal(a, b, suffix);
  }

  lemma Middle(p: string, m: string, q: string)
    ensures (p + m + q)[|p|..|p| + |m|] == m
  {
  }

  lemma ExtractNumberOfDigitsWithFraction(prefix: string, a: string, b: string, suffix: string)
    requires forall j :: 0 <= j < |prefix| ==> !IsDigit(prefix[j])
    requires |a| > 0 && AllDigits(a) && |b| > 0 && AllDigits(b)
    requires |suffix| > 0 ==> !IsDigit(suffix[0])
    ensures ExtractNumber(Str(prefix + (a + "." + b) + suffix)) == DigitsValue(a) as real + FracValue(b)
  {
    var d := a + "." + b;
    var s := prefix + d + suffix;
    FindNumeralOfFraction(prefix, a, b, suffix);
    var sp := Span(|prefix|, |prefix| + |d|);
    ExtractNumberOfScan(s, sp);
    Middle(prefix, d, suffix);
    ParseFraction(a, b);
  }

  /** A reading with a fraction, such as "12.5g": text without digits, the
      number with its fraction, then text that does not continue it. */
  lemma ExtractNumberOfAnnotatedDecimal(prefix: string, n: nat, f: nat, suffix: string)
    requires forall j :: 0 <= j < |prefix| ==> !IsDigit(prefix[j])
    requires |suffix| > 0 ==> !IsDigit(suffix[0])
    ensures ExtractNumber(Str(prefix + (DecimalText(n) + "." + DecimalText(f)) + suffix))
      == n as real + FracValue(DecimalText(f))
  {
    ExtractNumberOfDigitsWithFraction(prefix, DecimalText(n), DecimalText(f), suffix);
    DecimalTextValue(n);
  }

  /** A decimal is read with its fraction: "12.5g" is 12.5. */
  lemma ExtractNumberOfDecimal()
    ensures ExtractNumber(Str("12.5g")) == 12.5
  {
    assert DecimalText(12) == "12";
    assert DecimalText(5) == "5";
    assert "12.5g" == "" + (DecimalText(12) + "." + DecimalText(5)) + "g";
    ExtractNumberOfAnnotatedDecimal("", 12, 5, "g");
    assert FracValue("5") == 0.5 by { assert "5"[1..] == ""; }
  }
}
