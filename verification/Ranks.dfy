/** How many elements lie below and above the one at a position of the sorted list. */
module Ranks {
  import opened Sorting
  import opened Sums

  function Below<T>(le: (T, T) -> bool, v: T): T -> bool {
    (x: T) => !le(v, x)
  }

  function UpTo<T>(le: (T, T) -> bool, v: T): T -> bool {
    (x: T) => le(x, v)
  }

  function Above<T>(le: (T, T) -> bool, v: T): T -> bool {
    (x: T) => !le(x, v)
  }

  function AtLeast<T>(le: (T, T) -> bool, v: T): T -> bool {
    (x: T) => le(v, x)
  }

  lemma {:induction false} CountOfParts<T>(p: T -> bool, s: seq<T>, t: seq<T>)
    ensures Count(p, s + t) == Count(p, s) + Count(p, t)
    decreases |t|
  {
    if t == [] {
      assert s + t == s;
    } else {
      var n := |t| - 1;
      assert (s + t)[..|s| + n] == s + t[..n];
      CountOfParts(p, s, t[..n]);
    }
  }

  lemma {:induction false} CountAllOrNone<T>(p: T -> bool, s: seq<T>)
    ensures Count(p, s) <= |s|
    ensures (forall i :: 0 <= i < |s| ==> p(s[i])) ==> Count(p, s) == |s|
    ensures (forall i :: 0 <= i < |s| ==> !p(s[i])) ==> Count(p, s) == 0
  {
    if s != [] {
      var front := s[..|s| - 1];
      CountAllOrNone(p, front);
      assert forall i :: 0 <= i < |front| ==> front[i] == s[i];
    }
  }

  lemma {:induction false} CountOpposite<T>(p: T -> bool, q: T -> bool, s: seq<T>)
    requires forall i :: 0 <= i < |s| ==> (p(s[i]) <==> !q(s[i]))
    ensures Count(p, s) + Count(q, s) == |s|
  {
    if s != [] {
      var front := s[..|s| - 1];
      assert forall i :: 0 <= i < |front| ==> front[i] == s[i];
      CountOpposite(p, q, front);
    }
  }

  /** At most `i` elements are below the one at position `i`, more are not above it, and so from the other end. */
  lemma RankCounts<T(!new)>(le: (T, T) -> bool, values: seq<T>, i: nat)
    requires TotalPreorder(le) && i < |values|
    ensures |Sort(le, values)| == |values|
    ensures var v := Sort(le, values)[i];
            && Count(Below(le, v), values) <= i < Count(UpTo(le, v), values)
            && Count(Above(le, v), values) <= |values| - 1 - i < Count(AtLeast(le, v), values)
  {
    var s := Sort(le, values);
    SortPermutes(le, values);
    SortSorts(le, values);
    assert |s| == |multiset(s)| == |multiset(values)| == |values|;
    var v := s[i];
    CountPermuted(Below(le, v), s, values);
    CountPermuted(UpTo(le, v), s, values);
    SortedCounts(le, s, i);
    CountOpposite(Below(le, v), AtLeast(le, v), values);
    CountOpposite(UpTo(le, v), Above(le, v), values);
  }

  lemma SortedCounts<T(!new)>(le: (T, T) -> bool, s: seq<T>, i: nat)
    requires TotalPreorder(le) && Sorted(le, s) && i < |s|
    ensures Count(Below(le, s[i]), s) <= i < Count(UpTo(le, s[i]), s)
  {
    var v := s[i];
    assert le(v, v);
    NoneFrom(Below(le, v), s, i);
    AllBefore(UpTo(le, v), s, i + 1);
  }

  lemma NoneFrom<T>(p: T -> bool, s: seq<T>, i: nat)
    requires i <= |s| && forall k :: i <= k < |s| ==> !p(s[k])
    ensures Count(p, s) <= i
  {
    assert s == s[..i] + s[i..];
    CountOfParts(p, s[..i], s[i..]);
    CountAllOrNone(p, s[..i]);
    CountAllOrNone(p, s[i..]);
  }

  lemma AllBefore<T>(p: T -> bool, s: seq<T>, i: nat)
    requires i <= |s| && forall k :: 0 <= k < i ==> p(s[k])
    ensures i <= Count(p, s)
  {
    assert s == s[..i] + s[i..];
    CountOfParts(p, s[..i], s[i..]);
    CountAllOrNone(p, s[..i]);
  }
}
