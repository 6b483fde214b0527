/** The price-text normaliser `clean_price` of multiplos-skus.py: strip a
    price text down to digits and separators, read every comma as a point,
    decide which points are thousands separators, then parse the rest as a
    number.  Numbers are exact (`real`), standing for Python floats. */
module PriceText {
  import opened Common

  /** The argument of `clean_price`: any Python object; only a `str` is read. */
  datatype PyValue = Str(s: string) | NotStr

  predicate IsSep(c: char) { c == ',' || c == '.' }

  predicate IsPriceChar(c: char) { IsDigit(c) || IsSep(c) }

  /** Every character is an ASCII digit or a point: the strings `float()` sees here. */
  predicate DigitsAndDots(t: string)
  {
    forall i :: 0 <= i < |t| ==> IsDigit(t[i]) || t[i] == '.'
  }

  /** `re.sub(r'[^\d,.]', '', s)`: keep digits, commas and points. */
  function KeepPriceChars(s: string): string
  {
    if s == [] then []
    else KeepPriceChars(s[..|s| - 1]) + (if IsPriceChar(s[|s| - 1]) then [s[|s| - 1]] else [])
  }

  /** The working string after the filter and `replace(',', '.')`. */
  function Cleaned(s: string): string
  {
    ReplaceChar(KeepPriceChars(s), ',', '.')
  }

  /** `t.split('.')`: the point-free segments, in order. */
  function SplitDots(t: string): (parts: seq<string>)
    ensures |parts| >= 1
  {
    if t == [] then [""]
    else
      var init := SplitDots(t[..|t| - 1]);
      if t[|t| - 1] == '.' then init + [""]
      else init[..|init| - 1] + [init[|init| - 1] + [t[|t| - 1]]]
  }

  function Last(parts: seq<string>): string
    requires |parts| >= 1
  {
    parts[|parts| - 1]
  }

  /** Thousands-versus-decimal disambiguation: with several points and a
      two-digit last segment, only the last point stays; with several points
      otherwise, none stays; with at most one point, nothing changes. */
  function Disambiguate(t: string): string
  {
    var parts := SplitDots(t);
    if Count('.', t) > 1 && |Last(parts)| == 2 then Join("", parts[..|parts| - 1]) + "." + Last(parts)
    else if Count('.', t) > 1 then Without('.', t)
    else t
  }

  /** `float(t)` on a string of digits and points (the only strings it is
      applied to, see `ParsedText`): an optional whole part, at most one
      point, an optional fraction, and at least one digit. */
  function ParseFloat(t: string): (r: Option<real>)
    ensures r.Some? ==> r.value >= 0.0
  {
    var parts := SplitDots(t);
    if |parts| > 2 || Without('.', t) == [] then None
    else if |parts| == 1 then Some(DigitsValue(t) as real)
    else Some(DigitsValue(parts[0]) as real + Scaled(DigitsValue(parts[1]) as real, |parts[1]|))
  }

  /** `clean_price(price_text)`. */
  function CleanPrice(v: PyValue): (r: Option<real>)
    ensures r.Some? ==> r.value >= 0.0
  {
    match v
    case NotStr => None
    case Str(s) => ParseFloat(Disambiguate(Cleaned(s)))
  }

  /** What reaches `float()` holds only digits and points. */
  lemma ParsedText(s: string)
    ensures DigitsAndDots(Disambiguate(Cleaned(s)))
  {
    CleanedFacts(s);
    DisambiguateAlphabet(Cleaned(s));
  }

  // ---------------------------------------------------------------------
  // Reference description of the result in terms of the input text alone

  /** The ASCII digits of `s`, in order. */
  function DigitsOf(s: string): string
  {
    if s == [] then []
    else DigitsOf(s[..|s| - 1]) + (if IsDigit(s[|s| - 1]) then [s[|s| - 1]] else [])
  }

  /** How many commas and points `s` holds. */
  function SepCount(s: string): nat
  {
    Count(',', s) + Count('.', s)
  }

  /** The digits after the last comma or point (all digits when there is none). */
  function TrailingDigits(s: string): string
  {
    if s == [] then []
    else if IsSep(s[|s| - 1]) then []
    else TrailingDigits(s[..|s| - 1]) + (if IsDigit(s[|s| - 1]) then [s[|s| - 1]] else [])
  }

  /** How many of the digits end up after the decimal point. */
  function FractionDigits(s: string): nat
  {
    if SepCount(s) > 1 then (if |TrailingDigits(s)| == 2 then 2 else 0)
    else if SepCount(s) == 1 then |TrailingDigits(s)|
    else 0
  }

  // ---------------------------------------------------------------------
  // Lemmas

  /** One more input character adds at most one character to the working
      string: the digit itself, or a point for either separator. */
  lemma CleanedStep(s: string)
    requires s != []
    ensures var c := s[|s| - 1];
      Cleaned(s) == Cleaned(s[..|s| - 1]) + (if IsDigit(c) then [c] else if IsSep(c) then ['.'] else [])
  {
    var c := s[|s| - 1];
    var x := if IsPriceChar(c) then [c] else [];
    ReplaceCharAppend(KeepPriceChars(s[..|s| - 1]), x, ',', '.');
    if x != [] {
      assert x[..0] == [];
    }
  }

  /** The working string holds only digits and points; its digits are those
      of the input, in order; its points are the input's commas and points;
      and its last point-delimited segment is the input's trailing digits. */
  lemma CleanedFacts(s: string)
    ensures DigitsAndDots(Cleaned(s))
    ensures Without('.', Cleaned(s)) == DigitsOf(s)
    ensures Count('.', Cleaned(s)) == SepCount(s)
    ensures Last(SplitDots(Cleaned(s))) == TrailingDigits(s)
  {
    CleanedAlphabet(s);
    CleanedDigits(s);
    CleanedPoints(s);
    CleanedLastSegment(s);
  }

  lemma {:induction false} CleanedAlphabet(s: string)
    ensures DigitsAndDots(Cleaned(s))
  {
    if s != [] {
      CleanedAlphabet(s[..|s| - 1]);
      CleanedStep(s);
    }
  }

  lemma {:induction false} CleanedDigits(s: string)
    ensures Without('.', Cleaned(s)) == DigitsOf(s)
  {
    if s != [] {
      var s', c := s[..|s| - 1], s[|s| - 1];
      CleanedDigits(s');
      CleanedStep(s);
      var y := if IsDigit(c) then [c] else if IsSep(c) then ['.'] else [];
      WithoutAppend('.', Cleaned(s'), y);
      if y != [] {
        assert y[..0] == [];
      }
    }
  }

  lemma {:induction false} CleanedPoints(s: string)
    ensures Count('.', Cleaned(s)) == SepCount(s)
  {
    if s != [] {
      var s', c := s[..|s| - 1], s[|s| - 1];
      CleanedPoints(s');
      CleanedStep(s);
      var y := if IsDigit(c) then [c] else if IsSep(c) then ['.'] else [];
      CountAppend('.', Cleaned(s'), y);
      if y != [] {
        assert y[..0] == [];
      }
    }
  }

  lemma {:induction false} CleanedLastSegment(s: string)
    ensures Last(SplitDots(Cleaned(s))) == TrailingDigits(s)
  {
    if s != [] {
      var s', c := s[..|s| - 1], s[|s| - 1];
      CleanedLastSegment(s');
      CleanedStep(s);
      var t', y := Cleaned(s'), if IsDigit(c) then [c] else if IsSep(c) then ['.'] else [];
      if y != [] {
        assert (t' + y)[..|t' + y| - 1] == t';
      } else {
        assert t' + y == t';
      }
    }
  }

  /** `'.'.join(t.split('.')) == t`: splitting loses nothing. */
  lemma {:induction false} SplitDotsJoin(t: string)
    ensures Join(".", SplitDots(t)) == t
  {
    if t != [] {
      var t', c := t[..|t| - 1], t[|t| - 1];
      assert t == t' + [c];
      SplitDotsJoin(t');
      var ps', ps := SplitDots(t'), SplitDots(t);
      var m := |ps'|;
      if c == '.' {
        assert ps[..|ps| - 1] == ps';
        assert Join(".", ps) == t' + "." + "";
      } else {
        var last := ps'[m - 1] + [c];
        assert ps == ps'[..m - 1] + [last];
        if m == 1 {
          assert Join(".", ps) == last;
        } else {
          assert ps[..|ps| - 1] == ps'[..m - 1];
          assert Join(".", ps) == Join(".", ps'[..m - 1]) + "." + last;
          assert Join(".", ps') == Join(".", ps'[..m - 1]) + "." + ps'[m - 1];
        }
      }
    }
  }


  /** There is one more segment than points. */
  lemma {:induction false} SplitDotsCount(t: string)
    ensures |SplitDots(t)| == Count('.', t) + 1
  {
    if t != [] {
      SplitDotsCount(t[..|t| - 1]);
    }
  }

  /** `''.join(t.split('.'))` is `t.replace('.', '')`. */
  lemma {:induction false} SplitDotsConcat(t: string)
    ensures Join("", SplitDots(t)) == Without('.', t)
  {
    if t != [] {
      var t', c := t[..|t| - 1], t[|t| - 1];
      SplitDotsConcat(t');
      var ps', ps := SplitDots(t'), SplitDots(t);
      var m := |ps'|;
      if c == '.' {
        assert ps[..|ps| - 1] == ps';
      } else if m == 1 {
        assert ps == [ps'[0] + [c]];
      } else {
        assert ps[..|ps| - 1] == ps'[..m - 1];
        assert Join("", ps') == Join("", ps'[..m - 1]) + "" + ps'[m - 1];
      }
    }
  }

  /** A point-free string is a single segment. */
  lemma {:induction false} SplitDotsFree(a: string)
    requires '.' !in a
    ensures SplitDots(a) == [a]
  {
    if a != [] {
      SplitDotsFree(a[..|a| - 1]);
      assert a[..|a| - 1] + [a[|a| - 1]] == a;
    }
  }

  /** Two point-free strings around one point split back into those two. */
  lemma {:induction false} SplitDotsOne(a: string, b: string)
    requires '.' !in a && '.' !in b
    ensures SplitDots(a + "." + b) == [a, b]
    decreases |b|
  {
    var t := a + "." + b;
    if b == [] {
      assert t[..|t| - 1] == a;
      SplitDotsFree(a);
    } else {
      var b' := b[..|b| - 1];
      assert t[..|t| - 1] == a + "." + b';
      SplitDotsOne(a, b');
      assert b' + [b[|b| - 1]] == b;
    }
  }

  lemma {:induction false} DigitsAndDotsWithout(t: string)
    requires DigitsAndDots(t)
    ensures AllDigits(Without('.', t))
  {
    if t != [] {
      DigitsAndDotsWithout(t[..|t| - 1]);
    }
  }

  lemma AllDigitsNoDot(w: string)
    requires AllDigits(w)
    ensures '.' !in w
  {
  }

  /** With several points and a two-digit last segment, the working string
      becomes the earlier digits, one point, and the two last digits. */
  lemma TwoDigitCase(t: string)
    requires DigitsAndDots(t)
    requires Count('.', t) > 1 && |Last(SplitDots(t))| == 2
    ensures var parts := SplitDots(t);
      var p := Join("", parts[..|parts| - 1]);
      Disambiguate(t) == p + "." + Last(parts) && AllDigits(p) && AllDigits(Last(parts))
      && p + Last(parts) == Without('.', t)
  {
    var parts := SplitDots(t);
    SplitDotsConcat(t);
    SplitDotsCount(t);
    DigitsAndDotsWithout(t);
    var p := Join("", parts[..|parts| - 1]);
    assert Join("", parts) == p + "" + Last(parts);
    assert p + "" == p;
    AllDigitsAppend(p, Last(parts));
  }

  /** Disambiguation keeps the working string within digits and points. */
  lemma DisambiguateAlphabet(t: string)
    requires DigitsAndDots(t)
    ensures DigitsAndDots(Disambiguate(t))
  {
    if Count('.', t) > 1 && |Last(SplitDots(t))| == 2 {
      TwoDigitCase(t);
    } else if Count('.', t) > 1 {
      DigitsAndDotsWithout(t);
    }
  }

  /** `float` of a digit string is its value, and fails only on "". */
  lemma ParseDigits(w: string)
    requires AllDigits(w)
    ensures ParseFloat(w).Some? <==> w != []
    ensures w != [] ==> ParseFloat(w).value == DigitsValue(w) as real
  {
    AllDigitsNoDot(w);
    SplitDotsFree(w);
    WithoutAbsent('.', w);
  }

  /** Digits, one point, digits: a string `float()` can be given. */
  lemma OnePointAlphabet(a: string, b: string)
    requires AllDigits(a) && AllDigits(b)
    ensures DigitsAndDots(a + "." + b)
  {
    var t := a + "." + b;
    forall i | 0 <= i < |t| ensures IsDigit(t[i]) || t[i] == '.' {
      if i < |a| {
        assert t[i] == a[i];
      } else if i > |a| {
        assert t[i] == b[i - |a| - 1];
      }
    }
  }

  /** Removing the one point between two point-free strings joins them. */
  lemma WithoutOnePoint(a: string, b: string)
    requires '.' !in a && '.' !in b
    ensures Without('.', a + "." + b) == a + b
  {
    assert Without('.', a + ".") == a by {
      WithoutAppend('.', a, ".");
      WithoutAbsent('.', a);
      assert Without('.', ".") == [] by { assert "."[..0] == []; }
    }
    WithoutAppend('.', a + ".", b);
    WithoutAbsent('.', b);
  }

  /** Whole part plus scaled fraction is the value of all the digits, scaled. */
  lemma PointValue(a: string, b: string)
    ensures DigitsValue(a) as real + Scaled(DigitsValue(b) as real, |b|)
         == Scaled(DigitsValue(a + b) as real, |b|)
  {
    DigitsValueAppend(a, b);
    var x := DigitsValue(a) * Pow10(|b|);
    assert DigitsValue(a + b) as real == x as real + DigitsValue(b) as real;
    ScaledAdd(x as real, DigitsValue(b) as real, |b|);
    ScaledPow10(DigitsValue(a), |b|);
  }

  /** `float` of a string that splits into two digit groups. */
  lemma ParseSplit(t: string, a: string, b: string)
    requires AllDigits(a) && AllDigits(b)
    requires SplitDots(t) == [a, b] && Without('.', t) == a + b
    ensures ParseFloat(t).Some? <==> a + b != []
    ensures a + b != [] ==> ParseFloat(t).value == Scaled(DigitsValue(a + b) as real, |b|)
  {
    PointValue(a, b);
  }


  /** `float` of digits, a point and digits is the value of all the digits
      scaled by the length of the fraction, and fails only on "." alone. */
  lemma ParseOnePoint(a: string, b: string)
    requires AllDigits(a) && AllDigits(b)
    ensures DigitsAndDots(a + "." + b)
    ensures ParseFloat(a + "." + b).Some? <==> a + b != []
    ensures a + b != [] ==> ParseFloat(a + "." + b).value == Scaled(DigitsValue(a + b) as real, |b|)
  {
    OnePointAlphabet(a, b);
    AllDigitsNoDot(a);
    AllDigitsNoDot(b);
    SplitDotsOne(a, b);
    WithoutOnePoint(a, b);
    ParseSplit(a + "." + b, a, b);
  }

  /** Several points and a two-digit last segment: all the digits, in
      hundredths. */
  lemma ParseTwoDigitCase(t: string, d: string)
    requires DigitsAndDots(t) && Without('.', t) == d
    requires Count('.', t) > 1 && |Last(SplitDots(t))| == 2
    ensures DigitsAndDots(Disambiguate(t))
    ensures ParseFloat(Disambiguate(t)).Some?
    ensures ParseFloat(Disambiguate(t)).value == DigitsValue(d) as real / 100.0
  {
    var parts := SplitDots(t);
    var p, tail := Join("", parts[..|parts| - 1]), Last(parts);
    TwoDigitCase(t);
    ParseOnePoint(p, tail);
    ScaledHundredths(DigitsValue(d) as real);
  }

  /** Several points and a last segment of another length: all the digits,
      read as a whole number. */
  lemma ParseManyPointsCase(t: string, d: string)
    requires DigitsAndDots(t) && Without('.', t) == d
    requires Count('.', t) > 1 && |Last(SplitDots(t))| != 2
    ensures DigitsAndDots(Disambiguate(t))
    ensures ParseFloat(Disambiguate(t)).Some? <==> d != []
    ensures d != [] ==> ParseFloat(Disambiguate(t)).value == DigitsValue(d) as real
  {
    DigitsAndDotsWithout(t);
    ParseDigits(d);
  }

  /** No point: the digits, read as a whole number. */
  lemma ParseNoPointCase(t: string, d: string)
    requires DigitsAndDots(t) && Without('.', t) == d
    requires Count('.', t) == 0
    ensures DigitsAndDots(Disambiguate(t))
    ensures ParseFloat(Disambiguate(t)).Some? <==> d != []
    ensures d != [] ==> ParseFloat(Disambiguate(t)).value == DigitsValue(d) as real
  {
    CountZero('.', t);
    WithoutAbsent('.', t);
    DigitsAndDotsWithout(t);
    ParseDigits(t);
  }

  /** One point: that point is the decimal point. */
  lemma ParseOnePointCase(t: string, d: string, tail: string)
    requires DigitsAndDots(t) && Without('.', t) == d && Last(SplitDots(t)) == tail
    requires Count('.', t) == 1
    ensures DigitsAndDots(Disambiguate(t))
    ensures ParseFloat(Disambiguate(t)).Some? <==> d != []
    ensures d != [] ==> ParseFloat(Disambiguate(t)).value == Scaled(DigitsValue(d) as real, |tail|)
  {
    var parts := SplitDots(t);
    SplitDotsCount(t);
    SplitDotsConcat(t);
    DigitsAndDotsWithout(t);
    var a, b := parts[0], parts[1];
    assert parts[..1] == [a];
    assert Join("", parts) == a + "" + b;
    assert a + "" == a;
    AllDigitsAppend(a, b);
    ParseSplit(t, a, b);
  }

  /** Several separators and exactly two digits after the last one: the
      earlier groups are thousands, the last group is the cents
      ("R$ 1.234.567,89" is 1234567.89). */
  lemma CleanPriceTwoDigitFraction(s: string)
    requires SepCount(s) > 1 && |TrailingDigits(s)| == 2
    ensures CleanPrice(Str(s)).Some?
    ensures CleanPrice(Str(s)).value == DigitsValue(DigitsOf(s)) as real / 100.0
  {
    CleanedFacts(s);
    ParseTwoDigitCase(Cleaned(s), DigitsOf(s));
  }

  /** Several separators and a last group of another length: every separator
      is a thousands separator and the value is whole ("1.234.567" is 1234567). */
  lemma CleanPriceThousandsOnly(s: string)
    requires SepCount(s) > 1 && |TrailingDigits(s)| != 2
    ensures CleanPrice(Str(s)).Some? <==> DigitsOf(s) != []
    ensures DigitsOf(s) != [] ==> CleanPrice(Str(s)).value == DigitsValue(DigitsOf(s)) as real
  {
    CleanedFacts(s);
    ParseManyPointsCase(Cleaned(s), DigitsOf(s));
  }

  /** One separator, comma or point, is the decimal point: "99,90" is 99.9
      and "1.234" is 1.234, not 1234. */
  lemma CleanPriceOneSeparator(s: string)
    requires SepCount(s) == 1
    ensures CleanPrice(Str(s)).Some? <==> DigitsOf(s) != []
    ensures DigitsOf(s) != [] ==>
      CleanPrice(Str(s)).value == Scaled(DigitsValue(DigitsOf(s)) as real, |TrailingDigits(s)|)
  {
    CleanedFacts(s);
    ParseOnePointCase(Cleaned(s), DigitsOf(s), TrailingDigits(s));
  }

  /** No separator: the digits are a whole number. */
  lemma CleanPriceNoSeparator(s: string)
    requires SepCount(s) == 0
    ensures CleanPrice(Str(s)).Some? <==> DigitsOf(s) != []
    ensures DigitsOf(s) != [] ==> CleanPrice(Str(s)).value == DigitsValue(DigitsOf(s)) as real
  {
    CleanedFacts(s);
    ParseNoPointCase(Cleaned(s), DigitsOf(s));
  }

  /** THE NORMALISER'S CONTRACT.  `clean_price` fails exactly on non-strings
      and on texts without a digit; otherwise its value is the number formed
      by ALL the digits of the text, scaled down by the digits that count as
      the fraction. */
  lemma CleanPriceValue(s: string)
    ensures CleanPrice(Str(s)).Some? <==> DigitsOf(s) != []
    ensures DigitsOf(s) != [] ==>
      CleanPrice(Str(s)).value == Scaled(DigitsValue(DigitsOf(s)) as real, FractionDigits(s))
  {
    var x := DigitsValue(DigitsOf(s)) as real;
    if SepCount(s) > 1 && |TrailingDigits(s)| == 2 {
      CleanPriceTwoDigitFraction(s);
      TrailingDigitsAreDigits(s);
      ScaledHundredths(x);
    } else if SepCount(s) > 1 {
      CleanPriceThousandsOnly(s);
    } else if SepCount(s) == 1 {
      CleanPriceOneSeparator(s);
    } else {
      CleanPriceNoSeparator(s);
    }
  }

  /** The trailing digits are some of the digits. */
  lemma {:induction false} TrailingDigitsAreDigits(s: string)
    ensures |TrailingDigits(s)| <= |DigitsOf(s)|
  {
    if s != [] {
      TrailingDigitsAreDigits(s[..|s| - 1]);
    }
  }

  /** `clean_price` returns None exactly for a non-string or a text with no digit. */
  lemma CleanPriceFails(v: PyValue)
    ensures CleanPrice(v).None? <==> v.NotStr? || DigitsOf(v.s) == []
  {
    if v.Str? {
      CleanPriceValue(v.s);
    }
  }

  lemma {:induction false} DigitsOfAppend(a: string, b: string)
    ensures DigitsOf(a + b) == DigitsOf(a) + DigitsOf(b)
    decreases |b|
  {
    if b == [] {
      assert a + b == a;
    } else {
      assert (a + b)[..|a + b| - 1] == a + b[..|b| - 1];
      DigitsOfAppend(a, b[..|b| - 1]);
    }
  }

  lemma {:induction false} DigitsOfDigits(b: string)
    requires AllDigits(b)
    ensures DigitsOf(b) == b
  {
    if b != [] {
      DigitsOfDigits(b[..|b| - 1]);
    }
  }

  /** The trailing digits of a text ending in a separator and digits are those digits. */
  lemma {:induction false} TrailingAfterSep(a: string, c: char, b: string)
    requires IsSep(c) && AllDigits(b)
    ensures TrailingDigits(a + [c] + b) == b
    decreases |b|
  {
    if b == [] {
      assert (a + [c] + b)[..|a| + 1 - 1] == a;
    } else {
      assert (a + [c] + b)[..|a + [c] + b| - 1] == a + [c] + b[..|b| - 1];
      TrailingAfterSep(a, c, b[..|b| - 1]);
    }
  }

  lemma ComposedDigits(whole: string, cents: string)
    requires AllDigits(cents)
    ensures DigitsOf(whole + "," + cents) == DigitsOf(whole) + cents
  {
    var w := whole + ",";
    assert DigitsOf(w) == DigitsOf(whole) by {
      assert w[..|w| - 1] == whole;
    }
    DigitsOfAppend(w, cents);
    DigitsOfDigits(cents);
  }

  lemma ComposedSeparators(whole: string, cents: string)
    requires AllDigits(cents)
    ensures SepCount(whole + "," + cents) == SepCount(whole) + 1
  {
    CountAppend(',', whole + ",", cents);
    CountAppend(',', whole, ",");
    CountAppend('.', whole + ",", cents);
    CountAppend('.', whole, ",");
    assert Count(',', ",") == 1 && Count('.', ",") == 0 by { assert ","[..0] == []; }
    assert ',' !in cents && '.' !in cents;
    CountAbsent(',', cents);
    CountAbsent('.', cents);
  }

  lemma ComposedFacts(whole: string, cents: string)
    requires AllDigits(cents) && |cents| == 2
    ensures var s := whole + "," + cents;
      && DigitsOf(s) == DigitsOf(whole) + cents
      && SepCount(s) == SepCount(whole) + 1
      && TrailingDigits(s) == cents
  {
    ComposedDigits(whole, cents);
    ComposedSeparators(whole, cents);
    TrailingAfterSep(whole, ',', cents);
  }

  lemma ScaledHundredths(x: real)
    ensures Scaled(x, 2) == x / 100.0
  {
    assert Scaled(x, 1) == x / 10.0;
  }

  /** One point followed by two digits: all the digits, in hundredths. */
  lemma ParseOnePointHundredths(t: string, d: string, tail: string)
    requires DigitsAndDots(t) && Without('.', t) == d && Last(SplitDots(t)) == tail
    requires Count('.', t) == 1 && |tail| == 2
    ensures ParseFloat(Disambiguate(t)).Some?
    ensures ParseFloat(Disambiguate(t)).value == DigitsValue(d) as real / 100.0
  {
    ParseOnePointCase(t, d, tail);
    var r := ParseFloat(Disambiguate(t));
    assert d != [] by { DigitsAndDotsWithout(t); SplitDotsConcat(t); }
    assert r.value == Scaled(DigitsValue(d) as real, 2);
    ScaledHundredths(DigitsValue(d) as real);
  }

  /** With two digits after the last of one or more separators, the digits
      read as hundredths. */
  lemma TwoDigitsAfterSeparators(s: string)
    requires SepCount(s) >= 1 && |TrailingDigits(s)| == 2
    ensures CleanPrice(Str(s)).Some?
    ensures CleanPrice(Str(s)).value == DigitsValue(DigitsOf(s)) as real / 100.0
  {
    CleanedFacts(s);
    if SepCount(s) > 1 {
      ParseTwoDigitCase(Cleaned(s), DigitsOf(s));
    } else {
      ParseOnePointHundredths(Cleaned(s), DigitsOf(s), TrailingDigits(s));
    }
  }

  /** A text whose digits are `dw` followed by two cent digits, which are
      also its last group after at least one separator, reads as `dw` plus
      the cents in hundredths. */
  lemma ComposedValue(s: string, dw: string, cents: string)
    requires AllDigits(cents) && |cents| == 2
    requires DigitsOf(s) == dw + cents
    requires SepCount(s) >= 1 && TrailingDigits(s) == cents
    ensures CleanPrice(Str(s)).Some?
    ensures CleanPrice(Str(s)).value == DigitsValue(dw) as real + DigitsValue(cents) as real / 100.0
  {
    TwoDigitsAfterSeparators(s);
    HundredthsSplit(dw, cents);
  }


  lemma HundredthsSplit(w: string, c: string)
    requires |c| == 2
    ensures DigitsValue(w + c) as real / 100.0 ==
      DigitsValue(w) as real + DigitsValue(c) as real / 100.0
  {
    DigitsValueAppend(w, c);
    assert Pow10(2) == 100;
  }

  /** The text `whole + "," + cents` with two cent digits, as composed from
      split price markup, reads as the number formed by the digits of the
      whole part, plus the cents in hundredths: every separator inside the
      whole part counts as a thousands separator. */
  lemma ComposedPrice(whole: string, cents: string)
    requires AllDigits(cents) && |cents| == 2
    ensures CleanPrice(Str(whole + "," + cents)).Some?
    ensures CleanPrice(Str(whole + "," + cents)).value ==
      DigitsValue(DigitsOf(whole)) as real + DigitsValue(cents) as real / 100.0
  {
    ComposedFacts(whole, cents);
    ComposedValue(whole + "," + cents, DigitsOf(whole), cents);
  }
}
