/**
 What makes the canonical text the canonical one: no other usable separators print a value in
 fewer characters, no character has a shorter escape, and keys stand in the order of the first
 code point in which they differ. A nested value is printed out in full, in both layouts.
 */
module CanonicalText {
  import opened Wrappers
  import opened Sorting
  import opened CanonicalJson

  // ---------------------------------------------------------------------------
  // Separators
  // ---------------------------------------------------------------------------

  lemma {:induction false} CompactPrintsShortest(sep: Separators, v: Json)
    requires Usable(sep)
    ensures |Print(COMPACT, v)| <= |Print(sep, v)|
    decreases v, 1
  {
    if v.Arr? && v.items != [] {
      CompactItems(sep, v.items);
    } else if v.Obj? && v.members != [] {
      CompactMembers(sep, v.members);
    }
  }

  lemma {:induction false} CompactItems(sep: Separators, items: seq<Json>)
    requires Usable(sep) && items != []
    ensures |PrintItems(COMPACT, items)| <= |PrintItems(sep, items)|
    decreases items, 0
  {
    CompactPrintsShortest(sep, items[0]);
    if |items| > 1 {
      CompactItems(sep, items[1..]);
    }
  }

  lemma {:induction false} CompactMember(sep: Separators, m: (string, Json))
    requires Usable(sep)
    ensures |PrintMember(COMPACT, m)| <= |PrintMember(sep, m)|
    decreases m, 2
  {
    CompactPrintsShortest(sep, m.1);
  }

  lemma {:induction false} CompactMembers(sep: Separators, members: seq<(string, Json)>)
    requires Usable(sep) && members != []
    ensures |PrintMembers(COMPACT, members)| <= |PrintMembers(sep, members)|
    decreases members, 0
  {
    CompactMember(sep, members[0]);
    if |members| > 1 {
      CompactMembers(sep, members[1..]);
    }
  }

  /** No text of the value that can be read back the same way is shorter than the canonical one. */
  lemma CanonicalIsShortest(sep: Separators, v: Json)
    requires Usable(sep)
    ensures |Canonicalize(v)| <= |Dumps(sep, v)|
  {
    CompactPrintsShortest(sep, Normalize(v));
  }

  // ---------------------------------------------------------------------------
  // Escapes
  // ---------------------------------------------------------------------------

  /** The printable text `t`, which is not the quote that ends a string, stands for `c` in one, whatever follows. */
  ghost predicate StandsFor(t: string, c: char) {
    t != "" && t[0] != '\"' && Ascii(t) && forall rest :: ReadChar(t + rest) == Some((c, rest))
  }

  /** A character that stands for itself needs no escape. */
  lemma PlainIsShortest(c: char)
    requires ' ' <= c <= '~' && c != '\\' && c != '\"'
    ensures EscapeChar(c) == [c]
  {
  }

  lemma OtherEscapes(c: char)
    ensures |EscapeChar(c)| <= 12
    ensures c as int < 0x10000 ==> |EscapeChar(c)| <= 6
    ensures c in {'\"', '\\', '\n', '\r', '\t', '\U{c}', '\U{8}'} ==> |EscapeChar(c)| == 2
  {
  }

  /** What `\uXXXX` is read as takes six characters, or twelve for a character beyond the first plane. */
  lemma UnicodeTakes(t: string, c: char)
    requires |t| >= 2 && t[0] == '\\' && t[1] == 'u' && ReadChar(t) == Some((c, ""))
    ensures |t| == if c as int < 0x10000 then 6 else 12
  {
    assert ReadUnicode(t) == Some((c, ""));
  }

  /** A character has the shortest ASCII escape there is for it. */
  lemma EscapeIsShortest(t: string, c: char)
    requires StandsFor(t, c)
    ensures |EscapeChar(c)| <= |t|
  {
    assert ReadChar(t + "") == Some((c, ""));
    assert t + "" == t;
    OtherEscapes(c);
    if t[0] != '\\' {
      assert c == t[0];
      PlainIsShortest(c);
    } else {
      assert |t| >= 2;
      if t[1] == 'u' {
        UnicodeTakes(t, c);
      }
    }
  }

  // ---------------------------------------------------------------------------
  // Order of keys
  // ---------------------------------------------------------------------------

  /** At the first position where the two differ, `a` has the smaller code point. */
  ghost predicate SmallerAt(a: string, b: string, k: nat) {
    k < |a| && k < |b| && a[..k] == b[..k] && a[k] < b[k]
  }

  lemma {:induction false} KeyOrder(a: string, b: string)
    ensures StringLe(a, b) <==> a <= b || exists k: nat :: SmallerAt(a, b, k)
  {
    if a != "" && b != "" && a[0] == b[0] {
      var x, y := a[1..], b[1..];
      KeyOrder(x, y);
      if exists k: nat :: SmallerAt(x, y, k) {
        var k: nat :| SmallerAt(x, y, k);
        assert a[..k + 1] == [a[0]] + x[..k] && b[..k + 1] == [b[0]] + y[..k];
        assert SmallerAt(a, b, k + 1);
      }
      if exists k: nat :: SmallerAt(a, b, k) {
        var k: nat :| SmallerAt(a, b, k);
        assert k > 0;
        assert x[..k - 1] == a[..k][1..] && y[..k - 1] == b[..k][1..];
        assert SmallerAt(x, y, k - 1);
      }
      if a <= b {
        assert x == a[1..] && y[..|x|] == b[..|a|][1..];
      }
      if x <= y {
        assert a == [a[0]] + x && b[..|a|] == [b[0]] + y[..|x|];
      }
    } else if a != "" && b != "" {
      if a[0] < b[0] {
        assert SmallerAt(a, b, 0);
      }
      assert forall k: nat :: k > 0 && k < |a| && k < |b| ==> a[..k][0] != b[..k][0];
    }
  }

  // ---------------------------------------------------------------------------
  // A text in full
  // ---------------------------------------------------------------------------

  const LIST := Arr([Int(10), Null])
  const WORD := Str("\U{e9}\n")

  /** Keys out of order, a list inside, and an escape of each kind. */
  const SAMPLE := Obj([("b", LIST), ("B", WORD)])

  /** The texts of the scalars that are not strings, and of empty values. */
  lemma AtomTexts(sep: Separators)
    ensures Print(sep, Null) == "null" && Print(sep, Bool(true)) == "true" && Print(sep, Bool(false)) == "false"
    ensures Print(sep, Arr([])) == "[]" && Print(sep, Obj([])) == "{}"
    ensures Print(sep, Int(0)) == "0" && Print(sep, Int(-12)) == "-12"
  {
    assert PrintNat(1) == "1" && PrintNat(12) == "12" && PrintNat(0) == "0";
  }

  lemma WordText(sep: Separators)
    ensures Print(sep, WORD) == "\"\\u00e9\\n\""
  {
    var text := "\U{e9}\n";
    assert text[1..] == "\n" && "\n"[1..] == "";
    assert HexText(0, 0, 14, 9) == "00e9";
    assert Hex4(0xe9) == HexText(0, 0, 14, 9);
    assert EscapeChar('\U{e9}') == "\\u00e9";
    assert Escape("\n") == "\\n";
  }

  lemma ListText(sep: Separators)
    ensures Print(sep, LIST) == "[10" + sep.item + "null]"
  {
    assert PrintNat(1) == "1" && PrintNat(10) == "10";
    assert LIST.items[1..] == [Null];
    assert PrintItems(sep, [Null]) == "null";
    assert PrintItems(sep, LIST.items) == "10" + sep.item + "null";
  }

  lemma KeyTexts()
    ensures Quote("b") == "\"b\"" && Quote("B") == "\"B\""
  {
    assert "b"[1..] == "" && "B"[1..] == "";
  }

  lemma SampleSorted()
    ensures Normalize(SAMPLE) == Obj([("B", WORD), ("b", LIST)])
  {
    assert NormalizeItems(LIST.items) == LIST.items;
    assert Normalize(LIST) == LIST && Normalize(WORD) == WORD;
    TwoSorted(("b", LIST), ("B", WORD));
    assert NormalizeMembers(SAMPLE.members) == [("b", LIST), ("B", WORD)];
  }

  /** Two members that stand in the wrong order are swapped. */
  lemma TwoSorted(x: (string, Json), y: (string, Json))
    requires !KeyLe(x, y)
    ensures Sort(KeyLe, [x, y]) == [y, x]
  {
    var once, target := [x, y], [y, x];
    KeyLePreorder();
    SortSorts(KeyLe, once);
    SortPermutes(KeyLe, once);
    var sorted := Sort(KeyLe, once);
    assert |sorted| == |multiset(sorted)| == |multiset(once)| == 2;
    assert sorted == [sorted[0], sorted[1]];
    MultisetMember(sorted, once, sorted[0]);
    MultisetMember(sorted, once, sorted[1]);
    MultisetMember(sorted, once, x);
    MultisetMember(sorted, once, y);
    assert x != y;
    assert KeyLe(sorted[0], sorted[1]);
  }

  lemma SampleText(sep: Separators)
    ensures Dumps(sep, SAMPLE)
         == "{" + ("\"B\"" + sep.key + "\"\\u00e9\\n\"" + sep.item
                   + ("\"b\"" + sep.key + ("[10" + sep.item + "null]"))) + "}"
  {
    SampleSorted();
    WordText(sep);
    ListText(sep);
    KeyTexts();
    var sorted := [("B", WORD), ("b", LIST)];
    assert sorted[1..] == [("b", LIST)];
    assert PrintMembers(sep, sorted[1..]) == PrintMember(sep, ("b", LIST));
    assert PrintMembers(sep, sorted) == PrintMember(sep, ("B", WORD)) + sep.item + PrintMember(sep, ("b", LIST));
    assert PrintMember(sep, ("b", LIST)) == Quote("b") + sep.key + Print(sep, LIST);
    assert PrintMember(sep, ("B", WORD)) == Quote("B") + sep.key + Print(sep, WORD);
    assert Print(sep, Obj(sorted)) == "{" + PrintMembers(sep, sorted) + "}";
    assert Dumps(sep, SAMPLE) == Print(sep, Obj(sorted));
  }

  /** The text that is hashed. */
  lemma HashedSample()
    ensures Canonicalize(SAMPLE) == "{\"B\":\"\\u00e9\\n\",\"b\":[10,null]}"
  {
    SampleText(COMPACT);
  }

  /** The text that is stored. */
  lemma StoredSample()
    ensures Dumps(SPACED, SAMPLE) == "{\"B\": \"\\u00e9\\n\", \"b\": [10, null]}"
  {
    SampleText(SPACED);
  }
}
