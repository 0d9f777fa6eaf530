/**
 The fragment of Python's `re` that the shipped patterns use: a pattern is a sequence of
 character classes, each repeated greedily between a lower and an optional upper bound.
 `Matches` is the language of a pattern, `MatchAt` the backtracking matcher, `Sub` is
 `re.sub` with a literal replacement.
 */
module Patterns {
  import opened Wrappers

  datatype CharClass =
    | Lit(c: char)
    | KeyChar      // [A-Za-z0-9_-]
    | TokenChar    // [A-Za-z0-9._-]
    | Hex          // [0-9a-fA-F]
    | LocalChar    // [a-zA-Z0-9._%+-]
    | DomainChar   // [a-zA-Z0-9.-]
    | Letter       // [a-zA-Z]
    | Space        // \s
    | FoldLit(c: char)  // a lower-case letter, ignoring case
    | FoldAlnum    // [a-zA-Z0-9], ignoring case
    | FoldKeyChar  // [a-zA-Z0-9_\-], ignoring case
    | FoldTokenChar // [a-zA-Z0-9_\-\.], ignoring case

  predicate IsLetter(c: char) {
    'a' <= c <= 'z' || 'A' <= c <= 'Z'
  }

  predicate IsAlnum(c: char) {
    IsLetter(c) || '0' <= c <= '9'
  }

  /** The characters `\s` stands for in a pattern over text. */
  predicate IsSpace(c: char) {
    || '\U{9}' <= c <= '\U{d}' || '\U{1c}' <= c <= ' '
    || c in {'\U{85}', '\U{a0}', '\U{1680}', '\U{2028}', '\U{2029}', '\U{202f}', '\U{205f}', '\U{3000}'}
    || '\U{2000}' <= c <= '\U{200a}'
  }

  /** The four letters outside ASCII that a case-insensitive [a-z] takes in. */
  predicate IsFoldedLetter(c: char) {
    c in {'\U{130}', '\U{131}', '\U{17f}', '\U{212a}'}
  }

  predicate FoldsTo(c: char, letter: char) {
    || c == letter
    || ('a' <= letter <= 'z' && 'A' <= c <= 'Z' && c as int + 32 == letter as int)
    || (letter == 'i' && c in {'\U{130}', '\U{131}'})
    || (letter == 's' && c == '\U{17f}')
    || (letter == 'k' && c == '\U{212a}')
  }

  predicate In(cls: CharClass, c: char) {
    match cls
    case Lit(d) => c == d
    case KeyChar => IsAlnum(c) || c == '_' || c == '-'
    case TokenChar => IsAlnum(c) || c == '.' || c == '_' || c == '-'
    case Hex => '0' <= c <= '9' || 'a' <= c <= 'f' || 'A' <= c <= 'F'
    case LocalChar => IsAlnum(c) || c in {'.', '_', '%', '+', '-'}
    case DomainChar => IsAlnum(c) || c == '.' || c == '-'
    case Letter => IsLetter(c)
    case Space => IsSpace(c)
    case FoldLit(d) => FoldsTo(c, d)
    case FoldAlnum => IsAlnum(c) || IsFoldedLetter(c)
    case FoldKeyChar => IsAlnum(c) || IsFoldedLetter(c) || c == '_' || c == '-'
    case FoldTokenChar => IsAlnum(c) || IsFoldedLetter(c) || c == '_' || c == '-' || c == '.'
  }

  /** One class, repeated at least `lo` and, when there is a bound, at most `hi.value` times. */
  datatype Atom = Atom(cls: CharClass, lo: nat, hi: Option<nat>)

  type Pattern = seq<Atom>

  predicate Allowed(a: Atom, n: nat) {
    a.lo <= n && (a.hi.Some? ==> n <= a.hi.value)
  }

  predicate AllIn(cls: CharClass, w: string) {
    forall i :: 0 <= i < |w| ==> In(cls, w[i])
  }

  // ---------------------------------------------------------------------------
  // The language of a pattern
  // ---------------------------------------------------------------------------

  /** `w` as a whole is one of the words of `p`. */
  ghost predicate Matches(p: Pattern, w: string)
    decreases |p|, 1
  {
    if p == [] then w == "" else exists n :: 0 <= n <= |w| && SplitsAt(p, w, n)
  }

  ghost predicate SplitsAt(p: Pattern, w: string, n: nat)
    requires p != [] && n <= |w|
    decreases |p|, 0
  {
    Allowed(p[0], n) && AllIn(p[0].cls, w[..n]) && Matches(p[1..], w[n..])
  }

  /** No part of `s` is a word of `p`: `regex.search(s)` finds nothing. */
  ghost predicate Clean(p: Pattern, s: string) {
    forall i, j :: 0 <= i <= j <= |s| ==> !Matches(p, s[i..j])
  }

  function MinLength(p: Pattern): nat {
    if p == [] then 0 else p[0].lo + MinLength(p[1..])
  }

  // ---------------------------------------------------------------------------
  // The matcher
  // ---------------------------------------------------------------------------

  predicate RunOf(cls: CharClass, s: string, i: nat, n: nat)
    requires i + n <= |s|
  {
    forall k :: i <= k < i + n ==> In(cls, s[k])
  }

  /** How many characters from position `i` on are in the class, up to the bound. */
  function RunLength(a: Atom, s: string, i: nat, n: nat): (r: nat)
    requires i + n <= |s| && RunOf(a.cls, s, i, n)
    ensures n <= r && i + r <= |s| && RunOf(a.cls, s, i, r)
    ensures r > n && a.hi.Some? ==> r <= a.hi.value
    ensures i + r == |s| || !In(a.cls, s[i + r]) || (a.hi.Some? && r >= a.hi.value)
    decreases |s| - (i + n)
  {
    if i + n < |s| && In(a.cls, s[i + n]) && (a.hi.Some? ==> n < a.hi.value)
    then RunLength(a, s, i, n + 1)
    else n
  }

  /** Tries the longest repetition first and backs off one character at a time. */
  function MatchAt(p: Pattern, s: string, i: nat): (r: Option<nat>)
    requires i <= |s|
    ensures r.Some? ==> i <= r.value <= |s|
    decreases |p|, |s| + 1
  {
    if p == [] then Some(i) else BackOff(p, s, i, RunLength(p[0], s, i, 0))
  }

  function BackOff(p: Pattern, s: string, i: nat, n: nat): (r: Option<nat>)
    requires p != [] && i + n <= |s|
    ensures r.Some? ==> i <= r.value <= |s|
    decreases |p|, n
  {
    if n < p[0].lo then None
    else match MatchAt(p[1..], s, i + n)
      case Some(e) => Some(e)
      case None => if n == 0 then None else BackOff(p, s, i, n - 1)
  }

  lemma SplitWord(p: Pattern, s: string, i: nat, n: nat, e: nat)
    requires p != [] && i + n <= e <= |s|
    requires Allowed(p[0], n) && RunOf(p[0].cls, s, i, n) && Matches(p[1..], s[i + n..e])
    ensures Matches(p, s[i..e])
  {
    var w := s[i..e];
    assert w[n..] == s[i + n..e];
    forall k | 0 <= k < n ensures In(p[0].cls, w[..n][k]) {
      assert w[..n][k] == s[i + k];
    }
    assert SplitsAt(p, w, n);
  }

  lemma WordSplit(p: Pattern, s: string, i: nat, e: nat) returns (n: nat)
    requires p != [] && i <= e <= |s| && Matches(p, s[i..e])
    ensures i + n <= e
    ensures Allowed(p[0], n) && RunOf(p[0].cls, s, i, n) && Matches(p[1..], s[i + n..e])
  {
    var w := s[i..e];
    n :| 0 <= n <= |w| && SplitsAt(p, w, n);
    assert w[n..] == s[i + n..e];
    forall k | i <= k < i + n ensures In(p[0].cls, s[k]) {
      assert w[..n][k - i] == s[k];
    }
  }

  /** What the matcher reports is a word of the pattern. */
  lemma {:induction false} MatchSound(p: Pattern, s: string, i: nat)
    requires i <= |s| && MatchAt(p, s, i).Some?
    ensures Matches(p, s[i..MatchAt(p, s, i).value])
    decreases |p|, |s| + 1
  {
    if p != [] {
      var n := RunLength(p[0], s, i, 0);
      BackOffSound(p, s, i, n);
    }
  }

  lemma {:induction false} BackOffSound(p: Pattern, s: string, i: nat, n: nat)
    requires p != [] && i + n <= |s|
    requires RunOf(p[0].cls, s, i, n) && (p[0].hi.Some? && n > 0 ==> n <= p[0].hi.value)
    requires BackOff(p, s, i, n).Some?
    ensures Matches(p, s[i..BackOff(p, s, i, n).value])
    decreases |p|, n
  {
    if MatchAt(p[1..], s, i + n).Some? {
      MatchSound(p[1..], s, i + n);
      SplitWord(p, s, i, n, MatchAt(p[1..], s, i + n).value);
    } else {
      BackOffSound(p, s, i, n - 1);
    }
  }

  lemma RunCovers(a: Atom, s: string, i: nat, n: nat)
    requires i + n <= |s| && Allowed(a, n) && RunOf(a.cls, s, i, n)
    ensures n <= RunLength(a, s, i, 0)
  {
    assert i + RunLength(a, s, i, 0) <= |s|;
  }

  /** Where some word of the pattern starts, the matcher finds one. */
  lemma {:induction false} MatchComplete(p: Pattern, s: string, i: nat, e: nat)
    requires i <= e <= |s| && Matches(p, s[i..e])
    ensures MatchAt(p, s, i).Some?
    decreases |p|, |s| + 1
  {
    if p != [] {
      var n := WordSplit(p, s, i, e);
      RunCovers(p[0], s, i, n);
      BackOffComplete(p, s, i, RunLength(p[0], s, i, 0), n, e);
    }
  }

  lemma {:induction false} BackOffComplete(p: Pattern, s: string, i: nat, m: nat, n: nat, e: nat)
    requires p != [] && n <= m && i + m <= |s| && i + n <= e <= |s|
    requires p[0].lo <= n && Matches(p[1..], s[i + n..e])
    ensures BackOff(p, s, i, m).Some?
    decreases |p|, m
  {
    if m == n {
      MatchComplete(p[1..], s, i + n, e);
    } else if MatchAt(p[1..], s, i + m).None? {
      BackOffComplete(p, s, i, m - 1, n, e);
    }
  }

  /** `regex.search(s)`, as a scan over all starting positions. */
  predicate Found(p: Pattern, s: string) {
    exists i :: 0 <= i <= |s| && MatchAt(p, s, i).Some?
  }

  /** The scan finds nothing exactly when no part of the text is a word of the pattern. */
  lemma FoundIffNotClean(p: Pattern, s: string)
    ensures Found(p, s) <==> !Clean(p, s)
  {
    if Found(p, s) {
      var i :| 0 <= i <= |s| && MatchAt(p, s, i).Some?;
      MatchSound(p, s, i);
    }
    if !Clean(p, s) {
      var i, e :| 0 <= i <= e <= |s| && Matches(p, s[i..e]);
      MatchComplete(p, s, i, e);
    }
  }

  // ---------------------------------------------------------------------------
  // What every word of a pattern looks like
  // ---------------------------------------------------------------------------

  lemma {:induction false} WordLength(p: Pattern, w: string)
    requires Matches(p, w)
    ensures |w| >= MinLength(p)
  {
    if p != [] {
      var n :| 0 <= n <= |w| && SplitsAt(p, w, n);
      WordLength(p[1..], w[n..]);
    }
  }

  /** Every character of a word is in the class of some atom. */
  lemma {:induction false} WordAlphabet(p: Pattern, w: string, k: nat)
    requires Matches(p, w) && k < |w|
    ensures exists a :: 0 <= a < |p| && In(p[a].cls, w[k])
  {
    if p != [] {
      var n :| 0 <= n <= |w| && SplitsAt(p, w, n);
      if k < n {
        assert w[..n][k] == w[k];
      } else {
        WordAlphabet(p[1..], w[n..], k - n);
        var a :| 0 <= a < |p[1..]| && In(p[1..][a].cls, w[n..][k - n]);
        assert In(p[a + 1].cls, w[k]);
      }
    }
  }

  /** An atom that must occur contributes a character of its class to every word. */
  lemma {:induction false} WordContains(p: Pattern, w: string, a: nat)
    requires Matches(p, w) && a < |p| && p[a].lo > 0
    ensures exists k :: 0 <= k < |w| && In(p[a].cls, w[k])
  {
    var n :| 0 <= n <= |w| && SplitsAt(p, w, n);
    if a == 0 {
      assert In(p[0].cls, w[..n][0]);
      assert In(p[a].cls, w[0]);
    } else {
      WordContains(p[1..], w[n..], a - 1);
      var k :| 0 <= k < |w[n..]| && In(p[1..][a - 1].cls, w[n..][k]);
      assert In(p[a].cls, w[n + k]);
    }
  }

  /** The last character of a word is in the class of the last atom, when that one must occur. */
  lemma {:induction false} WordEnd(p: Pattern, w: string)
    requires Matches(p, w) && p != [] && p[|p| - 1].lo > 0
    ensures w != "" && In(p[|p| - 1].cls, w[|w| - 1])
  {
    var n :| 0 <= n <= |w| && SplitsAt(p, w, n);
    if |p| == 1 {
      assert p[1..] == [];
      assert Matches([], w[n..]);
      assert w[..n] == w;
    } else {
      assert p[1..][|p| - 2] == p[|p| - 1];
      WordEnd(p[1..], w[n..]);
    }
  }

  lemma WordStart(p: Pattern, w: string)
    requires p != [] && p[0].lo > 0 && Matches(p, w)
    ensures w != "" && In(p[0].cls, w[0])
  {
    var n :| 0 <= n <= |w| && SplitsAt(p, w, n);
    assert w[..n][0] == w[0];
  }

  /** The pattern opens with the characters of `text`, one atom each. */
  predicate OpensWith(p: Pattern, text: string) {
    |text| <= |p| && forall k :: 0 <= k < |text| ==> p[k] == Atom(Lit(text[k]), 1, Some(1))
  }

  lemma {:induction false} WordOpening(p: Pattern, text: string, w: string)
    requires OpensWith(p, text) && Matches(p, w)
    ensures |text| <= |w| && w[..|text|] == text
  {
    if text != "" {
      var n :| 0 <= n <= |w| && SplitsAt(p, w, n);
      assert n == 1 && w[..1][0] == text[0];
      assert OpensWith(p[1..], text[1..]);
      WordOpening(p[1..], text[1..], w[1..]);
      assert w == [w[0]] + w[1..] && text == [text[0]] + text[1..];
    }
  }

  // ---------------------------------------------------------------------------
  // Which match the matcher reports
  // ---------------------------------------------------------------------------

  ghost predicate Disjoint(a: CharClass, b: CharClass) {
    forall c :: !(In(a, c) && In(b, c))
  }

  /**
   Patterns for which greedy backtracking reports the longest word: each atom has a fixed
   count, or cannot run into the atom after it, or is a run that is cut at the last
   possible separator before a closing run.
   */
  ghost predicate FindsLongest(p: Pattern) {
    || |p| <= 1
    || (p[0].hi == Some(p[0].lo) && FindsLongest(p[1..]))
    || (p[1].lo > 0 && Disjoint(p[0].cls, p[1].cls) && FindsLongest(p[1..]))
    || (|p| == 3 && p[1].lo == 1 && p[1].hi == Some(1) && p[2].hi.None? && Disjoint(p[1].cls, p[2].cls))
  }

  /** No word that starts where the matcher started is longer than the one it reports. */
  lemma {:induction false} MatchLongest(p: Pattern, s: string, i: nat, e: nat)
    requires FindsLongest(p) && i <= e <= |s| && Matches(p, s[i..e])
    ensures MatchAt(p, s, i).Some? && e <= MatchAt(p, s, i).value
    decreases |p|
  {
    MatchComplete(p, s, i, e);
    if p != [] {
      var n := WordSplit(p, s, i, e);
      RunCovers(p[0], s, i, n);
      if |p| == 1 {
        SingleRun(p, s, i, e);
      } else if p[0].hi == Some(p[0].lo) && FindsLongest(p[1..]) {
        MatchLongest(p[1..], s, i + n, e);
      } else if p[1].lo > 0 && Disjoint(p[0].cls, p[1].cls) && FindsLongest(p[1..]) {
        WordStart(p[1..], s[i + n..e]);
        MatchLongest(p[1..], s, i + n, e);
      } else {
        LastSeparator(p, s, i, RunLength(p[0], s, i, 0), n, e);
      }
    }
  }

  /** A single repeated class: the matcher takes the whole run. */
  lemma SingleRun(p: Pattern, s: string, i: nat, e: nat)
    requires |p| == 1 && i <= e <= |s| && Matches(p, s[i..e])
    ensures MatchAt(p, s, i).Some? && e <= MatchAt(p, s, i).value
  {
    var n := WordSplit(p, s, i, e);
    assert p[1..] == [];
    assert Matches([], s[i + n..e]);
    RunCovers(p[0], s, i, n);
    var r := RunLength(p[0], s, i, 0);
    assert MatchAt([], s, i + r) == Some(i + r);
    assert BackOff(p, s, i, r) == Some(i + r);
  }

  lemma {:induction false} LastSeparator(p: Pattern, s: string, i: nat, m: nat, n: nat, e: nat)
    requires |p| == 3 && p[1].lo == 1 && p[1].hi == Some(1) && p[2].hi.None? && Disjoint(p[1].cls, p[2].cls)
    requires n <= m && i + m <= |s| && i + n <= e <= |s|
    requires p[0].lo <= n && Matches(p[1..], s[i + n..e])
    ensures BackOff(p, s, i, m).Some? && e <= BackOff(p, s, i, m).value
    decreases m
  {
    SeparatedRun(p[1..], s, i + n, e);
    if MatchAt(p[1..], s, i + m).Some? {
      if m > n {
        LaterSeparator(p[1..], s, i + n, i + m, e);
      }
    } else {
      LastSeparator(p, s, i, m - 1, n, e);
    }
  }

  lemma LaterSeparator(p: Pattern, s: string, i: nat, b: nat, e: nat)
    requires |p| == 2 && p[0].lo == 1 && p[0].hi == Some(1) && p[1].hi.None? && Disjoint(p[0].cls, p[1].cls)
    requires i < b <= |s| && i <= e <= |s| && Matches(p, s[i..e])
    requires MatchAt(p, s, b).Some?
    ensures e <= MatchAt(p, s, b).value
  {
    var e' := MatchAt(p, s, b).value;
    SeparatedRun(p, s, i, e);
    MatchSound(p, s, b);
    SeparatedRun(p, s, b, e');
    assert In(p[0].cls, s[b]);
  }

  /** A separator followed by a run: one character of the one class, then all of the other. */
  lemma SeparatedRun(p: Pattern, s: string, i: nat, e: nat)
    requires |p| == 2 && p[0].lo == 1 && p[0].hi == Some(1) && p[1].hi.None?
    requires i <= e <= |s| && Matches(p, s[i..e])
    ensures i < e && In(p[0].cls, s[i])
    ensures forall k :: i < k < e ==> In(p[1].cls, s[k])
    ensures MatchAt(p, s, i).Some? && e <= MatchAt(p, s, i).value
  {
    var n := WordSplit(p, s, i, e);
    assert n == 1;
    var m := WordSplit(p[1..], s, i + 1, e);
    assert p[1..][1..] == [];
    assert Matches([], s[i + 1 + m..e]);
    RunCovers(p[0], s, i, 1);
    SingleRun(p[1..], s, i + 1, e);
    assert RunLength(p[0], s, i, 0) == 1;
  }
}
