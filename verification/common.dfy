/** The pieces of Python's string and list behaviour that the three scraping
    scripts rely on: `in` on strings, `lower()`, `count`, `replace`, `join`,
    decimal digits and slicing bounds.  Functions over sequences recurse on
    the LAST element, so that facts about suffixes (the last price segment)
    fall out of the definitions. */
module Common {

  datatype Option<+T> = None | Some(value: T)

  /** The value of an option as a list of zero or one element. */
  function Present<T>(o: Option<T>): seq<T>
  {
    match o
    case None => []
    case Some(x) => [x]
  }

  /** The values `f` yields for the elements of `xs`, in order, skipping the
      elements it yields nothing for: a loop that appends only some of its
      results. */
  function Keep<A, B>(xs: seq<A>, f: A -> Option<B>): (r: seq<B>)
    ensures |r| <= |xs|
  {
    if xs == [] then [] else Keep(xs[..|xs| - 1], f) + Present(f(xs[|xs| - 1]))
  }

  /** Elements contribute independently, in order. */
  lemma {:induction false} KeepAppend<A, B>(a: seq<A>, b: seq<A>, f: A -> Option<B>)
    ensures Keep(a + b, f) == Keep(a, f) + Keep(b, f)
    decreases |b|
  {
    if b == [] {
      assert a + b == a;
    } else {
      assert (a + b)[..|a + b| - 1] == a + b[..|b| - 1];
      KeepAppend(a, b[..|b| - 1], f);
    }
  }

  /** A value is kept exactly when some element yields it. */
  lemma {:induction false} KeepMember<A, B>(xs: seq<A>, f: A -> Option<B>, y: B)
    ensures y in Keep(xs, f) <==> exists i :: 0 <= i < |xs| && f(xs[i]) == Some(y)
  {
    if xs != [] {
      var init := xs[..|xs| - 1];
      KeepMember(init, f, y);
      if y in Keep(xs, f) && y !in Keep(init, f) {
        assert f(xs[|xs| - 1]) == Some(y);
      }
      if exists i :: 0 <= i < |xs| && f(xs[i]) == Some(y) {
        var i :| 0 <= i < |xs| && f(xs[i]) == Some(y);
        if i < |init| {
          assert init[i] == xs[i];
        }
      }
    }
  }

  /** An element that yields nothing can be removed without changing the
      result. */
  lemma KeepSkips<A, B>(a: seq<A>, x: A, b: seq<A>, f: A -> Option<B>)
    requires f(x) == None
    ensures Keep(a + [x] + b, f) == Keep(a + b, f)
  {
    var ax := a + [x];
    assert ax[..|ax| - 1] == a;
    assert Keep(ax, f) == Keep(a, f);
    KeepAppend(ax, b, f);
    KeepAppend(a, b, f);
  }


  function Min(a: int, b: int): int { if a <= b then a else b }

  predicate IsDigit(c: char) { '0' <= c <= '9' }

  predicate AllDigits(s: string) { forall i :: 0 <= i < |s| ==> IsDigit(s[i]) }

  /** `needle` occurs in `hay` starting at index `i`. */
  predicate OccursAt(hay: string, needle: string, i: int)
  {
    0 <= i <= |hay| - |needle| && hay[i..i + |needle|] == needle
  }

  /** Python's `needle in hay` on strings: a contiguous occurrence. */
  predicate Contains(hay: string, needle: string)
  {
    exists i :: 0 <= i <= |hay| - |needle| && OccursAt(hay, needle, i)
  }

  function LowerChar(c: char): char
  {
    if 'A' <= c <= 'Z' then (c as int + 32) as char else c
  }

  /** `str.lower()`, restricted to ASCII letters. */
  function Lower(s: string): (r: string)
    ensures |r| == |s|
    ensures forall i :: 0 <= i < |s| ==> r[i] == LowerChar(s[i])
  {
    seq(|s|, i requires 0 <= i < |s| => LowerChar(s[i]))
  }

  /** Lower-casing twice is lower-casing once. */
  lemma LowerIdempotent(s: string)
    ensures Lower(Lower(s)) == Lower(s)
  {
    assert forall i :: 0 <= i < |s| ==> LowerChar(LowerChar(s[i])) == LowerChar(s[i]);
  }

  /** `s.count(c)` for a one-character needle. */
  function Count(c: char, s: string): nat
  {
    if s == [] then 0
    else Count(c, s[..|s| - 1]) + (if s[|s| - 1] == c then 1 else 0)
  }

  /** `s.replace(c, '')`. */
  function Without(c: char, s: string): string
  {
    if s == [] then []
    else Without(c, s[..|s| - 1]) + (if s[|s| - 1] == c then [] else [s[|s| - 1]])
  }

  /** `s.replace(a, b)` for one-character arguments. */
  function ReplaceChar(s: string, a: char, b: char): (r: string)
    ensures |r| == |s|
  {
    if s == [] then []
    else ReplaceChar(s[..|s| - 1], a, b) + [if s[|s| - 1] == a then b else s[|s| - 1]]
  }

  /** `sep.join(parts)`. */
  function Join(sep: string, parts: seq<string>): string
  {
    if parts == [] then ""
    else if |parts| == 1 then parts[0]
    else Join(sep, parts[..|parts| - 1]) + sep + parts[|parts| - 1]
  }

  function Pow10(k: nat): (r: nat)
    ensures r >= 1
  {
    if k == 0 then 1 else 10 * Pow10(k - 1)
  }

  /** `x / 10**k`, one decimal place at a time. */
  function Scaled(x: real, k: nat): (r: real)
    ensures x >= 0.0 ==> r >= 0.0
  {
    if k == 0 then x else Scaled(x, k - 1) / 10.0
  }

  lemma {:induction false} ScaledAdd(x: real, y: real, k: nat)
    ensures Scaled(x + y, k) == Scaled(x, k) + Scaled(y, k)
  {
    if k > 0 {
      ScaledAdd(x, y, k - 1);
    }
  }

  /** Scaling down undoes multiplying by the same power of ten. */
  lemma {:induction false} ScaledPow10(n: nat, k: nat)
    ensures Scaled((n * Pow10(k)) as real, k) == n as real
  {
    if k > 0 {
      var m := n * Pow10(k - 1);
      assert n * Pow10(k) == m * 10;
      ScaledTimesTen(m, k - 1);
      ScaledPow10(n, k - 1);
    }
  }

  lemma {:induction false} ScaledTimesTen(m: nat, k: nat)
    ensures Scaled((m * 10) as real, k + 1) == Scaled(m as real, k)
  {
    if k > 0 {
      ScaledTimesTen(m, k - 1);
    }
  }

  function DigitValue(c: char): nat
  {
    if IsDigit(c) then c as int - '0' as int else 0
  }

  /** The number a string of decimal digits denotes (`int(s)`; 0 for ""). */
  function DigitsValue(s: string): nat
  {
    if s == [] then 0 else DigitsValue(s[..|s| - 1]) * 10 + DigitValue(s[|s| - 1])
  }

  function DigitChar(d: nat): (c: char)
    requires d < 10
    ensures IsDigit(c) && DigitValue(c) == d
  {
    ('0' as int + d) as char
  }

  /** `str(n)` for a natural number. */
  function NatToString(n: nat): (r: string)
    ensures r != [] && AllDigits(r)
  {
    if n < 10 then [DigitChar(n)] else NatToString(n / 10) + [DigitChar(n % 10)]
  }

  /** Reading back the decimal text of `n` gives `n`. */
  lemma {:induction false} NatToStringValue(n: nat)
    ensures DigitsValue(NatToString(n)) == n
  {
    if n >= 10 {
      var s := NatToString(n);
      assert s[..|s| - 1] == NatToString(n / 10);
      NatToStringValue(n / 10);
    } else {
      assert NatToString(n)[..0] == [];
    }
  }

  /** Appending digits shifts the value: the place-value law. */
  lemma {:induction false} DigitsValueAppend(a: string, b: string)
    ensures DigitsValue(a + b) == DigitsValue(a) * Pow10(|b|) + DigitsValue(b)
    decreases |b|
  {
    if b == [] {
      assert a + b == a;
    } else {
      var b' := b[..|b| - 1];
      assert (a + b)[..|a + b| - 1] == a + b';
      assert (a + b)[|a + b| - 1] == b[|b| - 1];
      DigitsValueAppend(a, b');
      var va, vb', p, d := DigitsValue(a), DigitsValue(b'), Pow10(|b'|), DigitValue(b[|b| - 1]);
      assert Pow10(|b|) == p * 10;
      assert DigitsValue(a + b) == DigitsValue(a + b') * 10 + d;
      assert DigitsValue(a + b') == va * p + vb';
      MulDistributes(va, p, vb', d);
      assert DigitsValue(b) == vb' * 10 + d;
    }
  }

  lemma MulDistributes(x: nat, p: nat, y: nat, d: nat)
    ensures (x * p + y) * 10 + d == x * (p * 10) + (y * 10 + d)
  {
  }

  lemma {:induction false} CountAppend(c: char, a: string, b: string)
    ensures Count(c, a + b) == Count(c, a) + Count(c, b)
    decreases |b|
  {
    if b == [] {
      assert a + b == a;
    } else {
      assert (a + b)[..|a + b| - 1] == a + b[..|b| - 1];
      CountAppend(c, a, b[..|b| - 1]);
    }
  }

  lemma {:induction false} WithoutAppend(c: char, a: string, b: string)
    ensures Without(c, a + b) == Without(c, a) + Without(c, b)
    decreases |b|
  {
    if b == [] {
      assert a + b == a;
    } else {
      assert (a + b)[..|a + b| - 1] == a + b[..|b| - 1];
      WithoutAppend(c, a, b[..|b| - 1]);
    }
  }

  lemma {:induction false} ReplaceCharAppend(a: string, b: string, x: char, y: char)
    ensures ReplaceChar(a + b, x, y) == ReplaceChar(a, x, y) + ReplaceChar(b, x, y)
    decreases |b|
  {
    if b == [] {
      assert a + b == a;
    } else {
      assert (a + b)[..|a + b| - 1] == a + b[..|b| - 1];
      ReplaceCharAppend(a, b[..|b| - 1], x, y);
    }
  }

  /** A string without `x` is left alone by `replace(x, y)`. */
  lemma {:induction false} ReplaceCharAbsent(s: string, x: char, y: char)
    requires x !in s
    ensures ReplaceChar(s, x, y) == s
  {
    if s != [] {
      ReplaceCharAbsent(s[..|s| - 1], x, y);
    }
  }

  lemma {:induction false} CountZero(c: char, s: string)
    requires Count(c, s) == 0
    ensures c !in s
  {
    if s != [] {
      CountZero(c, s[..|s| - 1]);
      assert s == s[..|s| - 1] + [s[|s| - 1]];
    }
  }

  lemma AllDigitsAppend(a: string, b: string)
    ensures AllDigits(a + b) <==> AllDigits(a) && AllDigits(b)
  {
    if AllDigits(a + b) {
      assert forall i :: 0 <= i < |a| ==> a[i] == (a + b)[i];
      assert forall i :: 0 <= i < |b| ==> b[i] == (a + b)[|a| + i];
    }
  }

  lemma {:induction false} CountAbsent(c: char, s: string)
    requires c !in s
    ensures Count(c, s) == 0
  {
    if s != [] {
      CountAbsent(c, s[..|s| - 1]);
    }
  }

  lemma {:induction false} WithoutAbsent(c: char, s: string)
    requires c !in s
    ensures Without(c, s) == s
  {
    if s != [] {
      WithoutAbsent(c, s[..|s| - 1]);
    }
  }

  /** A joined list starts with the first part. */
  lemma {:induction false} JoinHead(sep: string, parts: seq<string>)
    requires parts != [] && parts[0] != []
    ensures Join(sep, parts) != [] && Join(sep, parts)[0] == parts[0][0]
  {
    if |parts| > 1 {
      JoinHead(sep, parts[..|parts| - 1]);
    }
  }

  lemma {:induction false} ReplaceCharHead(s: string, a: char, b: char)
    requires s != [] && s[0] != a
    ensures ReplaceChar(s, a, b)[0] == s[0]
  {
    if |s| > 1 {
      ReplaceCharHead(s[..|s| - 1], a, b);
    }
  }

  /** Lower-casing keeps every occurrence: a text containing `needle` in any
      case contains it lower-cased once lower-cased. */
  lemma LowerContains(hay: string, needle: string)
    requires Contains(hay, needle)
    ensures Contains(Lower(hay), Lower(needle))
  {
    var i :| 0 <= i <= |hay| - |needle| && OccursAt(hay, needle, i);
    var lh := Lower(hay);
    assert forall k :: 0 <= k < |needle| ==> lh[i + k] == LowerChar(hay[i + k]) == LowerChar(needle[k]) by {
      forall k | 0 <= k < |needle| ensures lh[i + k] == LowerChar(needle[k]) {
        assert hay[i..i + |needle|][k] == hay[i + k];
      }
    }
    assert lh[i..i + |needle|] == Lower(needle);
    assert OccursAt(lh, Lower(needle), i);
  }
}
