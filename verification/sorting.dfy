/** Python's `sorted` on a list of prices, and the "keep the smallest"
    selection `sorted(prices)[:n]`. */
module Sorting {
  import opened Common
  import opened Pages

  predicate Ascending(s: seq<real>)
  {
    forall i, j :: 0 <= i < j < |s| ==> s[i] <= s[j]
  }

  /** Inserts `x` into an ascending sequence, before the first larger element. */
  function Insert(x: real, s: seq<real>): (r: seq<real>)
    requires Ascending(s)
    ensures Ascending(r)
    ensures multiset(r) == multiset(s) + multiset{x}
    ensures |r| == |s| + 1
    ensures r[0] == if s != [] && s[0] < x then s[0] else x
  {
    if s == [] then [x]
    else if x <= s[0] then [x] + s
    else
      var rest := Insert(x, s[1..]);
      assert s == [s[0]] + s[1..];
      AscendingCons(s[0], rest);
      assert multiset([s[0]] + rest) == multiset{s[0]} + multiset(rest);
      [s[0]] + rest
  }

  lemma AscendingCons(a: real, rest: seq<real>)
    requires Ascending(rest) && (rest != [] ==> a <= rest[0])
    ensures Ascending([a] + rest)
  {
    var r := [a] + rest;
    forall i, j | 0 <= i < j < |r| ensures r[i] <= r[j] {
      if i == 0 {
        assert r[j] == rest[j - 1];
        assert rest[0] <= rest[j - 1];
      } else {
        assert r[i] == rest[i - 1] && r[j] == rest[j - 1];
      }
    }
  }

  /** `sorted(s)`: an ascending rearrangement of `s`. */
  function Sort(s: seq<real>): (r: seq<real>)
    ensures Ascending(r)
    ensures multiset(r) == multiset(s)
    ensures |r| == |s|
  {
    if s == [] then []
    else
      assert s == s[..|s| - 1] + [s[|s| - 1]];
      Insert(s[|s| - 1], Sort(s[..|s| - 1]))
  }

  /** `sorted(s)[:n]` are `min(n, len(s))` of the values of `s`, ascending,
      and no value left out is smaller than one kept. */
  lemma {:induction false} SmallestPrefix(s: seq<real>, n: nat)
    ensures var r := Take(Sort(s), n);
      && Ascending(r)
      && |r| == Min(n, |s|)
      && multiset(r) <= multiset(s)
      && forall x, y :: x in multiset(s) - multiset(r) && y in r ==> y <= x
  {
    var t := Sort(s);
    var r := Take(t, n);
    var rest := t[|r|..];
    assert t == r + rest;
    assert multiset(s) == multiset(r) + multiset(rest);
    forall x, y | x in multiset(s) - multiset(r) && y in r ensures y <= x {
      KeptBelowRest(t, |r|, x, y);
    }
  }

  /** In an ascending list, every element before position `k` is at most
      every element from `k` on. */
  lemma KeptBelowRest(t: seq<real>, k: nat, x: real, y: real)
    requires Ascending(t) && k <= |t|
    requires x in multiset(t[k..]) && y in t[..k]
    ensures y <= x
  {
    assert x in t[k..];
    var j :| 0 <= j < |t| - k && t[k..][j] == x;
    var i :| 0 <= i < k && t[..k][i] == y;
    assert t[i] == y && t[k + j] == x;
  }
}
