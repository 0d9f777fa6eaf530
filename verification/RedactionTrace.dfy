/**
 What redaction does to every single string, said without the matcher: rule by rule, the
 leftmost longest words of the rule's pattern give way to its replacement and every other
 character stays. The relation determines the output, for texts and for nested values.
 */
module RedactionTrace {
  import opened CanonicalJson
  import opened Patterns
  import opened SecretRedactor

  /** The cuts are the leftmost longest words of the pattern in the text. */
  ghost predicate CutsOf(p: Pattern, s: string, cuts: seq<(nat, nat)>) {
    CutsFrom(s, 0, cuts) && LeftmostLongest(p, s, 0, cuts)
  }

  /** `t` comes from `s` by the rules in order, each replacing the words of its pattern and nothing else. */
  ghost predicate Rewritten(rules: seq<Rule>, s: string, t: string)
    decreases |rules|
  {
    if rules == [] then t == s
    else
      exists cuts :: CutsOf(rules[0].pattern, s, cuts)
                     && Rewritten(rules[1..], Stitch(s, 0, cuts, rules[0].lead + "[" + rules[0].tag + "]"), t)
  }

  ghost predicate AllFindLongest(rules: seq<Rule>) {
    forall k :: 0 <= k < |rules| ==> FindsLongest(rules[k].pattern)
  }

  /** There is only one way to cut a text. */
  lemma {:induction false} CutsAreUnique(
    p: Pattern, s: string, i: nat, a: seq<(nat, nat)>, b: seq<(nat, nat)>)
    requires i <= |s| && CutsFrom(s, i, a) && CutsFrom(s, i, b)
    requires LeftmostLongest(p, s, i, a) && LeftmostLongest(p, s, i, b)
    ensures a == b
    decreases |a|
  {
    if a != [] {
      CutNoLater(p, s, i, a, b);
      CutNoLater(p, s, i, b, a);
      assert Matches(p, s[a[0].0..a[0].1]) && Matches(p, s[b[0].0..b[0].1]);
      CutsAreUnique(p, s, a[0].1, a[1..], b[1..]);
      assert a == [a[0]] + a[1..] && b == [b[0]] + b[1..];
    } else if b != [] {
      CutNoLater(p, s, i, b, a);
    }
  }

  /** Where one way to cut has its first cut, the other has one as well, or had it before. */
  lemma CutNoLater(p: Pattern, s: string, i: nat, a: seq<(nat, nat)>, b: seq<(nat, nat)>)
    requires i <= |s| && CutsFrom(s, i, a) && CutsFrom(s, i, b) && a != []
    requires LeftmostLongest(p, s, i, a) && LeftmostLongest(p, s, i, b)
    ensures b != [] && b[0].0 <= a[0].0
  {
    assert Matches(p, s[a[0].0..a[0].1]);
  }

  /** Redaction is the one rewriting of a text there is. */
  lemma {:induction false} RedactIsRewriting(rules: seq<Rule>, s: string, t: string)
    requires NonEmptyWords(rules) && AllFindLongest(rules)
    ensures Rewritten(rules, s, t) <==> t == Redact(rules, s)
    decreases |rules|
  {
    if rules != [] {
      var replacement := rules[0].lead + "[" + rules[0].tag + "]";
      var cuts := SubIsLeftmostLongest(rules[0].pattern, replacement, s, 0);
      var next := Stitch(s, 0, cuts, replacement);
      RedactIsRewriting(rules[1..], next, t);
      assert CutsOf(rules[0].pattern, s, cuts);
      forall other | CutsOf(rules[0].pattern, s, other) ensures other == cuts {
        CutsAreUnique(rules[0].pattern, s, 0, other, cuts);
      }
    }
  }

  /**
   The redacted form of a nested value: the same keys in the same order and lists of the same
   length, the mask under sensitive keys, every other string rewritten, all else as it was.
   */
  ghost predicate RewrittenValue(rules: seq<Rule>, fields: Fields, v: Json, r: Json)
    decreases v
  {
    match (v, r)
    case (Obj(x), Obj(y)) =>
      && |x| == |y|
      && forall i :: 0 <= i < |x| ==>
           && x[i].0 == y[i].0
           && if fields.lower(x[i].0) in fields.names then y[i].1 == Str("[REDACTED]")
              else RewrittenValue(rules, fields, x[i].1, y[i].1)
    case (Arr(x), Arr(y)) =>
      |x| == |y| && forall i :: 0 <= i < |x| ==> RewrittenValue(rules, fields, x[i], y[i])
    case (Str(s), Str(t)) => Rewritten(rules, s, t)
    case _ => r == v && !v.Obj? && !v.Arr? && !v.Str?
  }

  /** Redaction of a nested value gives the one rewritten form it has. */
  lemma {:induction false} RedactValueIsRewriting(rules: seq<Rule>, fields: Fields, v: Json, r: Json)
    requires NonEmptyWords(rules) && AllFindLongest(rules)
    ensures RewrittenValue(rules, fields, v, r) <==> r == RedactValue(rules, fields, v)
    decreases v
  {
    match (v, r)
    case (Obj(x), Obj(y)) =>
      var z := RedactMembers(rules, fields, x);
      if |x| == |y| {
        forall i | 0 <= i < |x| && !fields.Sensitive(x[i].0)
          ensures RewrittenValue(rules, fields, x[i].1, y[i].1) <==> y[i].1 == z[i].1
        {
          RedactValueIsRewriting(rules, fields, x[i].1, y[i].1);
        }
        assert y == z <==> forall i :: 0 <= i < |x| ==> y[i].0 == z[i].0 && y[i].1 == z[i].1;
      }
    case (Arr(x), Arr(y)) =>
      var z := RedactItems(rules, fields, x);
      if |x| == |y| {
        forall i | 0 <= i < |x| ensures RewrittenValue(rules, fields, x[i], y[i]) <==> y[i] == z[i] {
          RedactValueIsRewriting(rules, fields, x[i], y[i]);
        }
        assert y == z <==> forall i :: 0 <= i < |x| ==> y[i] == z[i];
      }
    case (Str(s), Str(t)) => RedactIsRewriting(rules, s, t);
    case _ =>
  }

  /** For the shipped rules and field names: no character outside a secret is lost from any text or value. */
  lemma ShippedRewriting(lower: string -> string, s: string, t: string, v: Json, r: Json)
    ensures NonEmptyWords(SHIPPED_RULES)
    ensures Rewritten(SHIPPED_RULES, s, t) <==> t == Redact(SHIPPED_RULES, s)
    ensures var fields := Fields(SHIPPED_FIELDS, lower);
            RewrittenValue(SHIPPED_RULES, fields, v, r) <==> r == RedactValue(SHIPPED_RULES, fields, v)
  {
    ShippedOrdered();
    ShippedFindLongest();
    RedactIsRewriting(SHIPPED_RULES, s, t);
    RedactValueIsRewriting(SHIPPED_RULES, Fields(SHIPPED_FIELDS, lower), v, r);
  }
}
