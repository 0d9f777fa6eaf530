/** Sums over a list, as the accumulation loops compute them. */
module Sums {
  import opened Reals

  /** `f(s[0]) + f(s[1]) + ...`, added up from the left. */
  function Sum<T>(f: T -> real, s: seq<T>): real {
    if s == [] then 0.0 else Sum(f, s[..|s| - 1]) + f(s[|s| - 1])
  }

  function Identity(): real -> real {
    (x: real) => x
  }

  function Count<T>(p: T -> bool, s: seq<T>): nat {
    if s == [] then 0 else Count(p, s[..|s| - 1]) + if p(s[|s| - 1]) then 1 else 0
  }

  /** One more step of an accumulation loop. */
  lemma SumPrefix<T>(f: T -> real, s: seq<T>, k: nat)
    requires k < |s|
    ensures Sum(f, s[..k + 1]) == Sum(f, s[..k]) + f(s[k])
  {
    assert s[..k + 1][..k] == s[..k];
  }

  lemma CountPrefix<T>(p: T -> bool, s: seq<T>, k: nat)
    requires k < |s|
    ensures Count(p, s[..k + 1]) == Count(p, s[..k]) + if p(s[k]) then 1 else 0
  {
    assert s[..k + 1][..k] == s[..k];
  }

  lemma {:induction false} SumWithout<T>(f: T -> real, s: seq<T>, i: nat)
    requires i < |s|
    ensures Sum(f, s) == Sum(f, s[..i] + s[i + 1..]) + f(s[i])
  {
    var n := |s| - 1;
    if i == n {
      assert s[..i] + s[i + 1..] == s[..n];
    } else {
      var rest := s[..i] + s[i + 1..];
      SumWithout(f, s[..n], i);
      assert rest[..n - 1] == s[..n][..i] + s[..n][i + 1..];
      assert rest[n - 1] == s[n];
    }
  }

  lemma MultisetWithout<T>(s: seq<T>, i: nat)
    requires i < |s|
    ensures multiset(s[..i] + s[i + 1..]) == multiset(s) - multiset{s[i]}
  {
    assert s == s[..i] + [s[i]] + s[i + 1..];
  }

  /** A sum does not depend on the order of the summands. */
  lemma {:induction false} SumPermuted<T>(f: T -> real, s: seq<T>, t: seq<T>)
    requires multiset(s) == multiset(t)
    ensures Sum(f, s) == Sum(f, t)
    decreases |s|
  {
    assert |s| == |multiset(s)| == |multiset(t)| == |t|;
    if s != [] {
      var n := |s| - 1;
      assert s[n] in multiset(t);
      var i :| 0 <= i < |t| && t[i] == s[n];
      MultisetWithout(t, i);
      MultisetWithout(s, n);
      assert s[..n] + s[n + 1..] == s[..n];
      SumPermuted(f, s[..n], t[..i] + t[i + 1..]);
      SumWithout(f, t, i);
    }
  }

  lemma {:induction false} CountIsSum<T>(p: T -> bool, s: seq<T>)
    ensures Count(p, s) as real == Sum(x => if p(x) then 1.0 else 0.0, s)
  {
    if s != [] {
      CountIsSum(p, s[..|s| - 1]);
    }
  }

  lemma CountPermuted<T>(p: T -> bool, s: seq<T>, t: seq<T>)
    requires multiset(s) == multiset(t)
    ensures Count(p, s) == Count(p, t)
  {
    CountIsSum(p, s);
    CountIsSum(p, t);
    SumPermuted(x => if p(x) then 1.0 else 0.0, s, t);
  }

  /** Summands at most as large, position by position, give a sum at most as large. */
  lemma {:induction false} SumMonotone<T, U>(f: T -> real, s: seq<T>, g: U -> real, t: seq<U>)
    requires |s| == |t| && forall i :: 0 <= i < |s| ==> f(s[i]) <= g(t[i])
    ensures Sum(f, s) <= Sum(g, t)
    decreases |s|
  {
    if s != [] {
      var n := |s| - 1;
      forall i | 0 <= i < n ensures f(s[..n][i]) <= g(t[..n][i]) {
        assert f(s[i]) <= g(t[i]);
      }
      SumMonotone(f, s[..n], g, t[..n]);
    }
  }

  lemma SumEqual<T, U>(f: T -> real, s: seq<T>, g: U -> real, t: seq<U>)
    requires |s| == |t| && forall i :: 0 <= i < |s| ==> f(s[i]) == g(t[i])
    ensures Sum(f, s) == Sum(g, t)
  {
    SumMonotone(f, s, g, t);
    SumMonotone(g, t, f, s);
  }

  /** Summands between `low` and `high` give a sum between so many of the one and of the other. */
  lemma {:induction false} SumBetween<T>(f: T -> real, s: seq<T>, low: real, high: real)
    requires forall i :: 0 <= i < |s| ==> low <= f(s[i]) <= high
    ensures Multiple(|s|, low) <= Sum(f, s) <= Multiple(|s|, high)
  {
    if s == [] {
      NoMultiple(low);
      NoMultiple(high);
    } else {
      var n := |s| - 1;
      forall i | 0 <= i < n ensures low <= f(s[..n][i]) <= high {
        assert low <= f(s[i]) <= high;
      }
      SumBetween(f, s[..n], low, high);
      MultipleStep(n, low);
      MultipleStep(n, high);
    }
  }

  lemma {:induction false} SumScaled<T>(f: T -> real, s: seq<T>, g: T -> real, factor: real)
    requires forall i :: 0 <= i < |s| ==> g(s[i]) == Scaled(f(s[i]), factor)
    ensures Sum(g, s) == Scaled(Sum(f, s), factor)
  {
    if s == [] {
      assert Scaled(0.0, factor) == 0.0;
    } else {
      var n := |s| - 1;
      forall i | 0 <= i < n ensures g(s[..n][i]) == Scaled(f(s[..n][i]), factor) {
        assert g(s[i]) == Scaled(f(s[i]), factor);
      }
      SumScaled(f, s[..n], g, factor);
      ScaledSum(Sum(f, s[..n]), f(s[n]), factor);
    }
  }

  lemma {:induction false} SumOfSums<T>(f: T -> real, g: T -> real, h: T -> real, s: seq<T>)
    requires forall i :: 0 <= i < |s| ==> h(s[i]) == f(s[i]) + g(s[i])
    ensures Sum(h, s) == Sum(f, s) + Sum(g, s)
  {
    if s != [] {
      var n := |s| - 1;
      forall i | 0 <= i < n ensures h(s[..n][i]) == f(s[..n][i]) + g(s[..n][i]) {
        assert h(s[i]) == f(s[i]) + g(s[i]);
      }
      SumOfSums(f, g, h, s[..n]);
    }
  }

  /** A sum without negative summands is no less than any of them. */
  lemma {:induction false} SumHolds<T>(f: T -> real, s: seq<T>, k: nat)
    requires k < |s| && forall i :: 0 <= i < |s| ==> f(s[i]) >= 0.0
    ensures Sum(f, s) >= f(s[k])
  {
    var n := |s| - 1;
    forall i | 0 <= i < n ensures f(s[..n][i]) >= 0.0 {
      assert f(s[i]) >= 0.0;
    }
    if k < n {
      SumHolds(f, s[..n], k);
      assert f(s[n]) >= 0.0;
    } else if n > 0 {
      SumHolds(f, s[..n], 0);
    }
  }

  lemma {:induction false} SumOfParts<T>(f: T -> real, s: seq<T>, t: seq<T>)
    ensures Sum(f, s + t) == Sum(f, s) + Sum(f, t)
    decreases |t|
  {
    if t == [] {
      assert s + t == s;
    } else {
      var n := |t| - 1;
      assert (s + t)[..|s| + n] == s + t[..n];
      SumOfParts(f, s, t[..n]);
    }
  }

  lemma {:induction false} SumNotNegative<T>(f: T -> real, s: seq<T>)
    requires forall i :: 0 <= i < |s| ==> f(s[i]) >= 0.0
    ensures Sum(f, s) >= 0.0
  {
    if s != [] {
      SumHolds(f, s, 0);
    }
  }

  lemma SumOfTwo<T>(f: T -> real, x: T, y: T)
    ensures Sum(f, [x, y]) == f(x) + f(y)
  {
    assert [x, y][..1] == [x] && [x][..0] == [];
    assert Sum(f, [x]) == Sum(f, []) + f(x);
  }

  /** The sum over the values of a dictionary. */
  ghost function MapSum<V(!new)>(f: V -> real, m: map<string, V>): real {
    if m == map[] then 0.0
    else var k :| k in m; f(m[k]) + MapSum(f, m - {k})
  }

  /** It does not depend on the order the entries are added up in. */
  lemma {:induction false} MapSumWithout<V(!new)>(f: V -> real, m: map<string, V>, k: string)
    requires k in m
    ensures MapSum(f, m) == f(m[k]) + MapSum(f, m - {k})
    decreases |m|
  {
    var q :| q in m && MapSum(f, m) == f(m[q]) + MapSum(f, m - {q});
    if k != q {
      MapSumWithout(f, m - {q}, k);
      MapSumWithout(f, m - {k}, q);
      assert m - {q} - {k} == m - {k} - {q};
    }
  }

  lemma MapSumUpdated<V(!new)>(f: V -> real, m: map<string, V>, k: string, v: V)
    ensures MapSum(f, m[k := v]) == MapSum(f, m) - (if k in m then f(m[k]) else 0.0) + f(v)
  {
    var updated := m[k := v];
    MapSumWithout(f, updated, k);
    assert updated - {k} == m - {k};
    if k in m {
      MapSumWithout(f, m, k);
    } else {
      assert m - {k} == m;
    }
  }
}
