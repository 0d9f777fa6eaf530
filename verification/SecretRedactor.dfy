/**
 The secret redactor: an ordered list of regex rewrites applied to text and lifted over
 nested values, with the six rules and the field names that `config/redaction.yaml` ships.
 The main result is that the output is clean under every rule, because no later rewrite
 brings back what an earlier one removed.
 */
module SecretRedactor {
  import opened Wrappers
  import opened CanonicalJson
  import opened Patterns

  /** A pattern and its replacement, which always reads `lead[tag]`. */
  datatype Rule = Rule(pattern: Pattern, lead: string, tag: string) {
    function Replacement(): string {
      lead + "[" + tag + "]"
    }
  }

  // ---------------------------------------------------------------------------
  // The shipped rules
  // ---------------------------------------------------------------------------

  function One(c: char): Atom {
    Atom(Lit(c), 1, Some(1))
  }

  function Literally(text: string): (p: Pattern)
    ensures |p| == |text| && forall k :: 0 <= k < |text| ==> p[k] == One(text[k])
  {
    seq(|text|, k requires 0 <= k < |text| => One(text[k]))
  }

  const ANTHROPIC_KEY: Pattern := Literally("sk-ant-") + [Atom(KeyChar, 20, None)]
  const OPENAI_KEY: Pattern := Literally("sk-") + [Atom(KeyChar, 20, None)]
  const GOOGLE_KEY: Pattern := Literally("AIza") + [Atom(KeyChar, 35, Some(35))]
  const BEARER_TOKEN: Pattern := Literally("Bearer") + [Atom(Space, 1, None), Atom(TokenChar, 20, None)]
  const HEX_TOKEN: Pattern := [Atom(Hex, 64, Some(64))]
  const EMAIL: Pattern :=
    [Atom(LocalChar, 1, None), One('@'), Atom(DomainChar, 1, None), One('.'), Atom(Letter, 2, None)]

  const SHIPPED_RULES: seq<Rule> := [
    Rule(ANTHROPIC_KEY, "", "ANTHROPIC-KEY-REDACTED"),
    Rule(OPENAI_KEY, "", "OPENAI-KEY-REDACTED"),
    Rule(GOOGLE_KEY, "", "GOOGLE-KEY-REDACTED"),
    Rule(BEARER_TOKEN, "Bearer ", "TOKEN-REDACTED"),
    Rule(HEX_TOKEN, "", "HEX-TOKEN-REDACTED"),
    Rule(EMAIL, "", "EMAIL-REDACTED")
  ]

  const SHIPPED_FIELDS: set<string> := {
    "api_key", "apikey", "api-key", "x-api-key", "authorization", "bearer", "token", "secret",
    "password", "credential", "private_key", "client_secret", "access_token", "refresh_token",
    "session_token", "auth_token"
  }

  const MASK := "[REDACTED]"

  // ---------------------------------------------------------------------------
  // Rewriting
  // ---------------------------------------------------------------------------

  lemma MatchProgress(p: Pattern, s: string, i: nat)
    requires MinLength(p) > 0 && i <= |s| && MatchAt(p, s, i).Some?
    ensures i < MatchAt(p, s, i).value
  {
    MatchSound(p, s, i);
    WordLength(p, s[i..MatchAt(p, s, i).value]);
  }

  /** `regex.sub(replacement, s)` from position `i` on: leftmost matches, none overlapping. */
  function Sub(p: Pattern, replacement: string, s: string, i: nat): string
    requires MinLength(p) > 0 && i <= |s|
    decreases |s| - i
  {
    if i == |s| then ""
    else match MatchAt(p, s, i)
      case Some(e) => MatchProgress(p, s, i); replacement + Sub(p, replacement, s, e)
      case None => [s[i]] + Sub(p, replacement, s, i + 1)
  }

  ghost predicate NonEmptyWords(rules: seq<Rule>) {
    forall k :: 0 <= k < |rules| ==> MinLength(rules[k].pattern) > 0
  }

  /** All rules, one after the other. */
  function Redact(rules: seq<Rule>, text: string): string
    requires NonEmptyWords(rules)
  {
    if rules == [] then text
    else Redact(rules[1..], Sub(rules[0].pattern, rules[0].Replacement(), text, 0))
  }

  /** No rule's pattern occurs. */
  ghost predicate AllClean(rules: seq<Rule>, text: string) {
    forall k :: 0 <= k < |rules| ==> Clean(rules[k].pattern, text)
  }

  method RedactString(rules: seq<Rule>, text: string) returns (r: string)
    requires NonEmptyWords(rules)
    ensures r == Redact(rules, text)
  {
    r := text;
    var k := 0;
    while k < |rules|
      invariant 0 <= k <= |rules|
      invariant Redact(rules[k..], r) == Redact(rules, text)
    {
      assert rules[k..][1..] == rules[k + 1..];
      r := Sub(rules[k].pattern, rules[k].Replacement(), r, 0);
      k := k + 1;
    }
  }

  method IsClean(rules: seq<Rule>, text: string) returns (clean: bool)
    ensures clean <==> AllClean(rules, text)
  {
    var k := 0;
    while k < |rules|
      invariant 0 <= k <= |rules|
      invariant forall m :: 0 <= m < k ==> Clean(rules[m].pattern, text)
    {
      FoundIffNotClean(rules[k].pattern, text);
      if Found(rules[k].pattern, text) {
        return false;
      }
      k := k + 1;
    }
    return true;
  }

  // ---------------------------------------------------------------------------
  // Rewrites do not bring matches back
  // ---------------------------------------------------------------------------

  predicate NoBrackets(q: Pattern) {
    forall a :: 0 <= a < |q| ==> !In(q[a].cls, '[') && !In(q[a].cls, ']')
  }

  predicate EndsInText(q: Pattern) {
    q != [] && q[|q| - 1].lo > 0 && !In(q[|q| - 1].cls, ' ')
  }

  /** Some character every word of `q` needs does not occur in `text`, or `text` is too short. */
  predicate CannotHold(text: string, q: Pattern) {
    || |text| < MinLength(q)
    || exists a :: 0 <= a < |q| && q[a].lo > 0 && forall k :: 0 <= k < |text| ==> !In(q[a].cls, text[k])
  }

  /** What the rule leaves of a match in front of the bracket: nothing, or the match's own opening and a blank. */
  predicate KeepsOpening(rule: Rule) {
    || rule.lead == ""
    || (rule.lead[|rule.lead| - 1] == ' ' && OpensWith(rule.pattern, rule.lead[..|rule.lead| - 1]))
  }

  /** Applying `rule` to a text cannot create words of `q`. */
  predicate Harmless(q: Pattern, rule: Rule) {
    && MinLength(q) > 0 && MinLength(rule.pattern) > 0
    && NoBrackets(q) && EndsInText(q) && KeepsOpening(rule)
    && |rule.lead| < MinLength(q)
    && CannotHold(rule.tag, q)
  }

  /** Later rules are harmless to the patterns of the earlier ones, and each to its own. */
  ghost predicate Ordered(rules: seq<Rule>) {
    forall i, j :: 0 <= i <= j < |rules| ==> Harmless(rules[i].pattern, rules[j])
  }

  lemma WordHasNoBrackets(q: Pattern, w: string)
    requires NoBrackets(q) && Matches(q, w)
    ensures '[' !in w && ']' !in w
  {
    forall k | 0 <= k < |w| ensures w[k] != '[' && w[k] != ']' {
      WordAlphabet(q, w, k);
    }
  }

  lemma NoWordInside(q: Pattern, text: string, i: nat, j: nat)
    requires CannotHold(text, q) && i <= j <= |text|
    ensures !Matches(q, text[i..j])
  {
    if Matches(q, text[i..j]) {
      WordLength(q, text[i..j]);
      var a :| 0 <= a < |q| && q[a].lo > 0 && forall k :: 0 <= k < |text| ==> !In(q[a].cls, text[k]);
      WordContains(q, text[i..j], a);
    }
  }

  /**
   A piece of the output that starts where the scan stands, has no bracket in it and does
   not end in a blank, was there in the input.
   */
  lemma {:induction false} OutputPrefix(rule: Rule, s: string, i: nat, n: nat)
    requires MinLength(rule.pattern) > 0 && KeepsOpening(rule) && i <= |s|
    requires n <= |Sub(rule.pattern, rule.Replacement(), s, i)|
    requires forall k :: 0 <= k < n ==> Sub(rule.pattern, rule.Replacement(), s, i)[k] != '['
    requires n > 0 ==> Sub(rule.pattern, rule.Replacement(), s, i)[n - 1] != ' '
    ensures i + n <= |s| && s[i..i + n] == Sub(rule.pattern, rule.Replacement(), s, i)[..n]
    decreases n
  {
    if n > 0 {
      var out := Sub(rule.pattern, rule.Replacement(), s, i);
      match MatchAt(rule.pattern, s, i)
      case None =>
        var rest := Sub(rule.pattern, rule.Replacement(), s, i + 1);
        assert out == [s[i]] + rest;
        forall k | 0 <= k < n - 1 ensures rest[k] != '[' {
          assert rest[k] == out[k + 1];
        }
        OutputPrefix(rule, s, i + 1, n - 1);
        OneMoreKept(s, i, n, rest);
      case Some(e) =>
        MatchProgress(rule.pattern, s, i);
        ReplacedPrefix(rule, s, i, e, n);
    }
  }

  lemma OneMoreKept(s: string, i: nat, n: nat, rest: string)
    requires 0 < n && i + n <= |s| && n - 1 <= |rest| && s[i + 1..i + n] == rest[..n - 1]
    ensures s[i..i + n] == ([s[i]] + rest)[..n]
  {
    assert s[i..i + n] == [s[i]] + s[i + 1..i + n];
  }

  lemma ReplacedPrefix(rule: Rule, s: string, i: nat, e: nat, n: nat)
    requires MinLength(rule.pattern) > 0 && KeepsOpening(rule)
    requires i < |s| && MatchAt(rule.pattern, s, i) == Some(e)
    requires 0 < n <= |Sub(rule.pattern, rule.Replacement(), s, i)|
    requires forall k :: 0 <= k < n ==> Sub(rule.pattern, rule.Replacement(), s, i)[k] != '['
    requires Sub(rule.pattern, rule.Replacement(), s, i)[n - 1] != ' '
    ensures i + n <= |s| && s[i..i + n] == Sub(rule.pattern, rule.Replacement(), s, i)[..n]
  {
    MatchProgress(rule.pattern, s, i);
    var out := Sub(rule.pattern, rule.Replacement(), s, i);
    assert out[|rule.lead|] == '[';
    assert out[..n] == rule.lead[..n];
    var opening := rule.lead[..|rule.lead| - 1];
    MatchSound(rule.pattern, s, i);
    WordOpening(rule.pattern, opening, s[i..e]);
    assert n <= |opening|;
    assert s[i..e][..n] == s[i..i + n];
    assert opening[..n] == rule.lead[..n] == s[i..e][..|opening|][..n];
  }

  /** No word of `q` starts at a position where the scan for `p` passes on. */
  ghost predicate Passed(q: Pattern, p: Pattern, s: string) {
    forall i, j :: 0 <= i <= j <= |s| && MatchAt(p, s, i).None? ==> !Matches(q, s[i..j])
  }

  lemma WordAtScan(q: Pattern, rule: Rule, s: string, i: nat, y: nat)
    requires Harmless(q, rule) && Passed(q, rule.pattern, s) && i <= |s| && MatchAt(rule.pattern, s, i).None?
    requires y <= |Sub(rule.pattern, rule.Replacement(), s, i)|
    ensures !Matches(q, Sub(rule.pattern, rule.Replacement(), s, i)[..y])
  {
    var w := Sub(rule.pattern, rule.Replacement(), s, i)[..y];
    if Matches(q, w) {
      WordHasNoBrackets(q, w);
      WordEnd(q, w);
      OutputPrefix(rule, s, i, y);
    }
  }

  lemma {:induction false} SubCreatesNoWord(q: Pattern, rule: Rule, s: string, i: nat, x: nat, y: nat)
    requires Harmless(q, rule) && Passed(q, rule.pattern, s) && i <= |s|
    requires x <= y <= |Sub(rule.pattern, rule.Replacement(), s, i)|
    ensures !Matches(q, Sub(rule.pattern, rule.Replacement(), s, i)[x..y])
    decreases |s| - i
  {
    var out := Sub(rule.pattern, rule.Replacement(), s, i);
    if Matches(q, out[x..y]) {
      WordLength(q, out[x..y]);
      match MatchAt(rule.pattern, s, i)
      case None =>
        if x > 0 {
          var rest := Sub(rule.pattern, rule.Replacement(), s, i + 1);
          assert out[x..y] == rest[x - 1..y - 1];
          SubCreatesNoWord(q, rule, s, i + 1, x - 1, y - 1);
        } else {
          assert out[x..y] == out[..y];
          WordAtScan(q, rule, s, i, y);
        }
      case Some(e) =>
        MatchProgress(rule.pattern, s, i);
        var rest := Sub(rule.pattern, rule.Replacement(), s, e);
        var cut := |rule.Replacement()|;
        if x >= cut {
          assert out[x..y] == rest[x - cut..y - cut];
          SubCreatesNoWord(q, rule, s, e, x - cut, y - cut);
        } else {
          ReplacementHoldsNoWord(q, rule, rest, x, y);
        }
    }
  }

  lemma ReplacementHoldsNoWord(q: Pattern, rule: Rule, rest: string, x: nat, y: nat)
    requires Harmless(q, rule) && x < |rule.Replacement()| && x <= y <= |rule.Replacement() + rest|
    ensures !Matches(q, (rule.Replacement() + rest)[x..y])
  {
    var out := rule.Replacement() + rest;
    var w := out[x..y];
    if Matches(q, w) {
      WordLength(q, w);
      WordHasNoBrackets(q, w);
      var open, close := |rule.lead|, |rule.Replacement()| - 1;
      assert out[open] == '[' && out[close] == ']';
      forall k | x <= k < y ensures out[k] != '[' && out[k] != ']' {
        assert out[k] == w[k - x];
      }
      assert open < x && y <= close;
      assert w == rule.tag[x - open - 1..y - open - 1];
      NoWordInside(q, rule.tag, x - open - 1, y - open - 1);
    }
  }

  /** A rewrite leaves no word of its own pattern. */
  lemma SubCleansOwn(rule: Rule, s: string)
    requires Harmless(rule.pattern, rule)
    ensures Clean(rule.pattern, Sub(rule.pattern, rule.Replacement(), s, 0))
  {
    var out := Sub(rule.pattern, rule.Replacement(), s, 0);
    forall i, j | 0 <= i <= j <= |s| && MatchAt(rule.pattern, s, i).None?
      ensures !Matches(rule.pattern, s[i..j])
    {
      if Matches(rule.pattern, s[i..j]) {
        MatchComplete(rule.pattern, s, i, j);
      }
    }
    forall x, y | 0 <= x <= y <= |out| ensures !Matches(rule.pattern, out[x..y]) {
      SubCreatesNoWord(rule.pattern, rule, s, 0, x, y);
    }
  }

  /** A rewrite keeps a text clean of patterns it is harmless to. */
  lemma SubKeepsClean(q: Pattern, rule: Rule, s: string)
    requires Harmless(q, rule) && Clean(q, s)
    ensures Clean(q, Sub(rule.pattern, rule.Replacement(), s, 0))
  {
    var out := Sub(rule.pattern, rule.Replacement(), s, 0);
    forall x, y | 0 <= x <= y <= |out| ensures !Matches(q, out[x..y]) {
      SubCreatesNoWord(q, rule, s, 0, x, y);
    }
  }

  lemma {:induction false} RedactFrom(rules: seq<Rule>, k: nat, text: string)
    requires Ordered(rules) && NonEmptyWords(rules) && k <= |rules|
    requires forall m :: 0 <= m < k ==> Clean(rules[m].pattern, text)
    ensures AllClean(rules, Redact(rules[k..], text))
    decreases |rules| - k
  {
    if k < |rules| {
      var next := Sub(rules[k].pattern, rules[k].Replacement(), text, 0);
      forall m | 0 <= m < k + 1 ensures Clean(rules[m].pattern, next) {
        assert Harmless(rules[m].pattern, rules[k]);
        if m == k {
          SubCleansOwn(rules[k], text);
        } else {
          SubKeepsClean(rules[m].pattern, rules[k], text);
        }
      }
      assert rules[k..][1..] == rules[k + 1..];
      RedactFrom(rules, k + 1, next);
    }
  }

  /** For rules in a harmless order, the redacted text is clean under every one of them. */
  lemma RedactedIsClean(rules: seq<Rule>, text: string)
    requires Ordered(rules) && NonEmptyWords(rules)
    ensures AllClean(rules, Redact(rules, text))
  {
    assert rules[0..] == rules;
    RedactFrom(rules, 0, text);
  }

  // ---------------------------------------------------------------------------
  // The shipped rules are in a harmless order
  // ---------------------------------------------------------------------------

  lemma {:induction false} MinLengthSum(p: Pattern, q: Pattern)
    ensures MinLength(p + q) == MinLength(p) + MinLength(q)
  {
    if p == [] {
      assert p + q == q;
    } else {
      assert (p + q)[1..] == p[1..] + q;
      MinLengthSum(p[1..], q);
    }
  }

  lemma {:induction false} LiteralLength(text: string)
    ensures MinLength(Literally(text)) == |text|
  {
    if text != "" {
      assert Literally(text)[1..] == Literally(text[1..]);
      LiteralLength(text[1..]);
    }
  }

  /** What has to be known of a pattern to see that the bracketed tags cannot contain its words. */
  ghost predicate Profile(q: Pattern, length: nat) {
    MinLength(q) == length && NoBrackets(q) && EndsInText(q)
  }

  lemma LiteralProfile(text: string, tail: Pattern, length: nat)
    requires '[' !in text && ']' !in text
    requires Profile(tail, length)
    ensures Profile(Literally(text) + tail, |text| + length)
  {
    LiteralLength(text);
    MinLengthSum(Literally(text), tail);
    var q := Literally(text) + tail;
    forall a | 0 <= a < |q| ensures !In(q[a].cls, '[') && !In(q[a].cls, ']') {
      if a < |text| {
        assert q[a] == One(text[a]) && text[a] in text;
      } else {
        assert q[a] == tail[a - |text|];
      }
    }
    assert q[|q| - 1] == tail[|tail| - 1];
  }

  lemma KeyProfile(text: string, n: nat, hi: Option<nat>)
    requires '[' !in text && ']' !in text && n > 0
    ensures Profile(Literally(text) + [Atom(KeyChar, n, hi)], |text| + n)
  {
    var tail := [Atom(KeyChar, n, hi)];
    assert MinLength(tail) == n;
    LiteralProfile(text, tail, n);
  }

  lemma BearerProfile()
    ensures Profile(BEARER_TOKEN, 27)
  {
    var tail := [Atom(Space, 1, None), Atom(TokenChar, 20, None)];
    assert MinLength(tail) == 21;
    LiteralProfile("Bearer", tail, 21);
  }

  lemma ShippedProfiles()
    ensures Profile(ANTHROPIC_KEY, 27) && Profile(OPENAI_KEY, 23) && Profile(GOOGLE_KEY, 39)
    ensures Profile(BEARER_TOKEN, 27) && Profile(HEX_TOKEN, 64) && Profile(EMAIL, 6)
  {
    KeyProfile("sk-ant-", 20, None);
    KeyProfile("sk-", 20, None);
    KeyProfile("AIza", 35, Some(35));
    BearerProfile();
    EmailProfile();
  }

  lemma EmailProfile()
    ensures Profile(EMAIL, 6) && CannotHold("EMAIL-REDACTED", EMAIL)
  {
    assert EMAIL == [EMAIL[0], EMAIL[1]] + [EMAIL[2], EMAIL[3], EMAIL[4]];
    MinLengthSum([EMAIL[0], EMAIL[1]], [EMAIL[2], EMAIL[3], EMAIL[4]]);
    assert MinLength([EMAIL[2], EMAIL[3], EMAIL[4]]) == 4;
    assert EMAIL[1].lo > 0 && forall k :: 0 <= k < |"EMAIL-REDACTED"| ==> !In(EMAIL[1].cls, "EMAIL-REDACTED"[k]);
  }

  /** Each shipped rule is harmless to its own pattern and to those before it. */
  lemma ShippedOrdered()
    ensures Ordered(SHIPPED_RULES) && NonEmptyWords(SHIPPED_RULES)
  {
    ShippedProfiles();
    EmailProfile();
    forall i, j | 0 <= i <= j < 6 ensures Harmless(SHIPPED_RULES[i].pattern, SHIPPED_RULES[j]) {
      ShippedRuleShape(j);
      if i == 5 {
        assert j == 5;
      } else {
        ShippedKeyLength(i);
      }
    }
  }

  lemma ShippedRuleShape(j: nat)
    requires j < 6
    ensures |SHIPPED_RULES| == 6 && MinLength(SHIPPED_RULES[j].pattern) > 0
    ensures KeepsOpening(SHIPPED_RULES[j])
    ensures |SHIPPED_RULES[j].lead| <= 7 && |SHIPPED_RULES[j].tag| <= 22
    ensures j == 5 ==> SHIPPED_RULES[j].lead == ""
  {
    ShippedProfiles();
    assert "Bearer "[..6] == "Bearer";
  }

  lemma ShippedKeyLength(i: nat)
    requires i < 5
    ensures |SHIPPED_RULES| == 6
    ensures MinLength(SHIPPED_RULES[i].pattern) >= 23
    ensures NoBrackets(SHIPPED_RULES[i].pattern) && EndsInText(SHIPPED_RULES[i].pattern)
  {
    ShippedProfiles();
  }

  /**
   `is_clean(redact_string(t))` for the shipped rules and every text: no secret survives and
   no rewrite, first or later, brings one back.
   */
  lemma ShippedRedactionIsClean(text: string)
    ensures NonEmptyWords(SHIPPED_RULES)
    ensures AllClean(SHIPPED_RULES, Redact(SHIPPED_RULES, text))
  {
    ShippedOrdered();
    RedactedIsClean(SHIPPED_RULES, text);
  }

  // ---------------------------------------------------------------------------
  // Redaction touches nothing else
  // ---------------------------------------------------------------------------

  lemma {:induction false} SubOfClean(p: Pattern, replacement: string, s: string, i: nat)
    requires MinLength(p) > 0 && i <= |s| && Clean(p, s)
    ensures Sub(p, replacement, s, i) == s[i..]
    decreases |s| - i
  {
    if i < |s| {
      if MatchAt(p, s, i).Some? {
        MatchSound(p, s, i);
      } else {
        SubOfClean(p, replacement, s, i + 1);
        assert s[i..] == [s[i]] + s[i + 1..];
      }
    }
  }

  lemma {:induction false} RedactOfClean(rules: seq<Rule>, text: string)
    requires NonEmptyWords(rules) && AllClean(rules, text)
    ensures Redact(rules, text) == text
  {
    if rules != [] {
      SubOfClean(rules[0].pattern, rules[0].Replacement(), text, 0);
      assert text[0..] == text;
      forall k | 0 <= k < |rules[1..]| ensures Clean(rules[1..][k].pattern, text) {
        assert rules[1..][k] == rules[k + 1];
      }
      RedactOfClean(rules[1..], text);
    }
  }

  /** Redaction changes a text exactly when the text is not clean, and doing it twice changes nothing more. */
  lemma RedactionChangesOnlySecrets(rules: seq<Rule>, text: string)
    requires Ordered(rules) && NonEmptyWords(rules)
    ensures Redact(rules, text) == text <==> AllClean(rules, text)
    ensures Redact(rules, Redact(rules, text)) == Redact(rules, text)
  {
    RedactedIsClean(rules, text);
    RedactOfClean(rules, Redact(rules, text));
    if AllClean(rules, text) {
      RedactOfClean(rules, text);
    }
  }

  /** The text with each cut `[from, to)` replaced and everything between the cuts kept. */
  function Stitch(s: string, i: nat, cuts: seq<(nat, nat)>, replacement: string): string
    requires i <= |s| && CutsFrom(s, i, cuts)
    decreases |cuts|
  {
    if cuts == [] then s[i..]
    else s[i..cuts[0].0] + replacement + Stitch(s, cuts[0].1, cuts[1..], replacement)
  }

  /** Cuts are disjoint, in order and at or after position `i`. */
  predicate CutsFrom(s: string, i: nat, cuts: seq<(nat, nat)>)
    decreases |cuts|
  {
    cuts == [] || (i <= cuts[0].0 < cuts[0].1 <= |s| && CutsFrom(s, cuts[0].1, cuts[1..]))
  }

  /** Every cut is a word, as long as possible, and no word starts in front of it. */
  ghost predicate LeftmostLongest(p: Pattern, s: string, i: nat, cuts: seq<(nat, nat)>)
    requires i <= |s| && CutsFrom(s, i, cuts)
    decreases |cuts|
  {
    var next := if cuts == [] then |s| else cuts[0].0;
    && (forall a, b :: i <= a < next && a <= b <= |s| ==> !Matches(p, s[a..b]))
    && (cuts != [] ==>
          && Matches(p, s[cuts[0].0..cuts[0].1])
          && (forall b :: cuts[0].1 < b <= |s| ==> !Matches(p, s[cuts[0].0..b]))
          && LeftmostLongest(p, s, cuts[0].1, cuts[1..]))
  }

  /**
   A rewrite replaces the leftmost longest words of the pattern, one after the other, and
   keeps every character that is not part of one.
   */
  lemma {:induction false} SubIsLeftmostLongest(p: Pattern, replacement: string, s: string, i: nat)
    returns (cuts: seq<(nat, nat)>)
    requires MinLength(p) > 0 && FindsLongest(p) && i <= |s|
    ensures CutsFrom(s, i, cuts) && LeftmostLongest(p, s, i, cuts)
    ensures Sub(p, replacement, s, i) == Stitch(s, i, cuts, replacement)
    decreases |s| - i
  {
    if i == |s| {
      cuts := [];
    } else if MatchAt(p, s, i).Some? {
      var e := MatchAt(p, s, i).value;
      MatchProgress(p, s, i);
      var rest := SubIsLeftmostLongest(p, replacement, s, e);
      cuts := [(i, e)] + rest;
      TakeMatch(p, replacement, s, i, rest);
    } else {
      var rest := SubIsLeftmostLongest(p, replacement, s, i + 1);
      cuts := rest;
      SkipOne(p, replacement, s, i, rest);
    }
  }

  lemma TakeMatch(p: Pattern, replacement: string, s: string, i: nat, rest: seq<(nat, nat)>)
    requires FindsLongest(p) && i < |s| && MatchAt(p, s, i).Some? && i < MatchAt(p, s, i).value
    requires CutsFrom(s, MatchAt(p, s, i).value, rest)
    requires LeftmostLongest(p, s, MatchAt(p, s, i).value, rest)
    ensures var e := MatchAt(p, s, i).value;
            var cuts := [(i, e)] + rest;
            && CutsFrom(s, i, cuts) && LeftmostLongest(p, s, i, cuts)
            && Stitch(s, i, cuts, replacement) == replacement + Stitch(s, e, rest, replacement)
  {
    var e := MatchAt(p, s, i).value;
    MatchSound(p, s, i);
    forall b | e < b <= |s| ensures !Matches(p, s[i..b]) {
      if Matches(p, s[i..b]) {
        MatchLongest(p, s, i, b);
      }
    }
    var cuts := [(i, e)] + rest;
    assert cuts[1..] == rest && cuts[0] == (i, e);
    assert s[i..i] == "";
  }

  lemma SkipOne(p: Pattern, replacement: string, s: string, i: nat, cuts: seq<(nat, nat)>)
    requires i < |s| && MatchAt(p, s, i).None?
    requires CutsFrom(s, i + 1, cuts) && LeftmostLongest(p, s, i + 1, cuts)
    ensures CutsFrom(s, i, cuts) && LeftmostLongest(p, s, i, cuts)
    ensures Stitch(s, i, cuts, replacement) == [s[i]] + Stitch(s, i + 1, cuts, replacement)
  {
    var next := if cuts == [] then |s| else cuts[0].0;
    forall a, b | i <= a < next && a <= b <= |s| ensures !Matches(p, s[a..b]) {
      if a == i && Matches(p, s[a..b]) {
        MatchComplete(p, s, i, b);
      }
    }
    StitchOneMore(s, i, cuts, replacement);
  }

  lemma StitchOneMore(s: string, i: nat, cuts: seq<(nat, nat)>, replacement: string)
    requires i < |s| && CutsFrom(s, i + 1, cuts)
    ensures CutsFrom(s, i, cuts)
    ensures Stitch(s, i, cuts, replacement) == [s[i]] + Stitch(s, i + 1, cuts, replacement)
  {
    var next := if cuts == [] then |s| else cuts[0].0;
    assert s[i..next] == [s[i]] + s[i + 1..next];
    if cuts != [] {
      var rest := Stitch(s, cuts[0].1, cuts[1..], replacement);
      assert Stitch(s, i, cuts, replacement) == s[i..next] + replacement + rest;
      assert [s[i]] + s[i + 1..next] + replacement + rest == [s[i]] + (s[i + 1..next] + replacement + rest);
    }
  }

  /** The six shipped patterns are of the kind for which greedy matching is longest matching. */
  lemma ShippedFindLongest()
    ensures forall k :: 0 <= k < |SHIPPED_RULES| ==> FindsLongest(SHIPPED_RULES[k].pattern)
  {
    LiteralFindsLongest("sk-ant-", [Atom(KeyChar, 20, None)]);
    LiteralFindsLongest("sk-", [Atom(KeyChar, 20, None)]);
    LiteralFindsLongest("AIza", [Atom(KeyChar, 35, Some(35))]);
    LiteralFindsLongest("Bearer", [Atom(Space, 1, None), Atom(TokenChar, 20, None)]);
    assert EMAIL[1..][1..] == [Atom(DomainChar, 1, None), One('.'), Atom(Letter, 2, None)];
  }

  lemma {:induction false} LiteralFindsLongest(text: string, tail: Pattern)
    requires FindsLongest(tail)
    ensures FindsLongest(Literally(text) + tail)
  {
    if text == "" {
      assert Literally(text) + tail == tail;
    } else {
      assert (Literally(text) + tail)[1..] == Literally(text[1..]) + tail;
      LiteralFindsLongest(text[1..], tail);
    }
  }

  // ---------------------------------------------------------------------------
  // Nested values
  // ---------------------------------------------------------------------------

  /** What decides whether a value under a key is masked: the field names and `str.lower`. */
  datatype Fields = Fields(names: set<string>, lower: string -> string) {
    predicate Sensitive(key: string) {
      lower(key) in names
    }
  }

  function RedactValue(rules: seq<Rule>, fields: Fields, v: Json): Json
    requires NonEmptyWords(rules)
    decreases v, 1
  {
    match v
    case Obj(members) => Obj(RedactMembers(rules, fields, members))
    case Arr(items) => Arr(RedactItems(rules, fields, items))
    case Str(s) => Str(Redact(rules, s))
    case _ => v
  }

  function RedactItems(rules: seq<Rule>, fields: Fields, items: seq<Json>): (r: seq<Json>)
    requires NonEmptyWords(rules)
    ensures |r| == |items|
    ensures forall i :: 0 <= i < |items| ==> r[i] == RedactValue(rules, fields, items[i])
    decreases items, 0
  {
    seq(|items|, i requires 0 <= i < |items| => RedactValue(rules, fields, items[i]))
  }

  function RedactMember(rules: seq<Rule>, fields: Fields, m: (string, Json)): (string, Json)
    requires NonEmptyWords(rules)
    decreases m, 2
  {
    (m.0, if fields.Sensitive(m.0) then Str(MASK) else RedactValue(rules, fields, m.1))
  }

  function RedactMembers(rules: seq<Rule>, fields: Fields, members: seq<(string, Json)>)
    : (r: seq<(string, Json)>)
    requires NonEmptyWords(rules)
    ensures |r| == |members|
    ensures forall i :: 0 <= i < |members| ==> r[i] == RedactMember(rules, fields, members[i])
    decreases members, 0
  {
    seq(|members|, i requires 0 <= i < |members| => RedactMember(rules, fields, members[i]))
  }

  /** Every string in the value is clean and every sensitive key holds the mask. */
  ghost predicate Scrubbed(rules: seq<Rule>, fields: Fields, v: Json) {
    match v
    case Obj(members) =>
      forall i :: 0 <= i < |members| ==>
        && Scrubbed(rules, fields, members[i].1)
        && (fields.Sensitive(members[i].0) ==> members[i].1 == Str(MASK))
    case Arr(items) => forall i :: 0 <= i < |items| ==> Scrubbed(rules, fields, items[i])
    case Str(s) => AllClean(rules, s)
    case _ => true
  }

  /** Same keys in the same order, same list lengths, same scalars, except below masked keys. */
  ghost predicate SameShape(fields: Fields, v: Json, r: Json)
    decreases v
  {
    match (v, r)
    case (Obj(x), Obj(y)) =>
      && |x| == |y|
      && forall i :: 0 <= i < |x| ==>
           x[i].0 == y[i].0 && (fields.Sensitive(x[i].0) || SameShape(fields, x[i].1, y[i].1))
    case (Arr(x), Arr(y)) => |x| == |y| && forall i :: 0 <= i < |x| ==> SameShape(fields, x[i], y[i])
    case (Str(_), Str(_)) => true
    case _ => v == r
  }

  /** A redacted value is scrubbed all the way down and keeps its shape. */
  lemma {:induction false} RedactedValueIsScrubbed(rules: seq<Rule>, fields: Fields, v: Json)
    requires Ordered(rules) && NonEmptyWords(rules) && AllClean(rules, MASK)
    ensures Scrubbed(rules, fields, RedactValue(rules, fields, v))
    ensures SameShape(fields, v, RedactValue(rules, fields, v))
    decreases v
  {
    match v
    case Obj(members) =>
      forall i | 0 <= i < |members|
        ensures var r := RedactMember(rules, fields, members[i]);
                && Scrubbed(rules, fields, r.1)
                && (fields.Sensitive(r.0) || SameShape(fields, members[i].1, r.1))
      {
        if !fields.Sensitive(members[i].0) {
          RedactedValueIsScrubbed(rules, fields, members[i].1);
        }
      }
    case Arr(items) =>
      forall i | 0 <= i < |items|
        ensures Scrubbed(rules, fields, RedactValue(rules, fields, items[i]))
        ensures SameShape(fields, items[i], RedactValue(rules, fields, items[i]))
      {
        RedactedValueIsScrubbed(rules, fields, items[i]);
      }
    case Str(s) => RedactedIsClean(rules, s);
    case _ =>
  }

  /** A scrubbed value, and no other, is left as it is. */
  lemma {:induction false} ScrubbedIsFixed(rules: seq<Rule>, fields: Fields, v: Json)
    requires Ordered(rules) && NonEmptyWords(rules) && AllClean(rules, MASK)
    ensures RedactValue(rules, fields, v) == v <==> Scrubbed(rules, fields, v)
    decreases v
  {
    RedactedValueIsScrubbed(rules, fields, v);
    if Scrubbed(rules, fields, v) {
      match v
      case Obj(members) =>
        forall i | 0 <= i < |members| ensures RedactMember(rules, fields, members[i]) == members[i] {
          ScrubbedIsFixed(rules, fields, members[i].1);
        }
        assert RedactMembers(rules, fields, members) == members;
      case Arr(items) =>
        forall i | 0 <= i < |items| ensures RedactValue(rules, fields, items[i]) == items[i] {
          ScrubbedIsFixed(rules, fields, items[i]);
        }
        assert RedactItems(rules, fields, items) == items;
      case Str(s) => RedactOfClean(rules, s);
      case _ =>
    }
  }

  lemma MaskIsClean()
    ensures AllClean(SHIPPED_RULES, MASK)
  {
    ShippedProfiles();
    forall k | 0 <= k < 6 ensures CannotHold(MASK, SHIPPED_RULES[k].pattern) {
      if k == 5 {
        assert EMAIL[1] == One('@') && forall m :: 0 <= m < |MASK| ==> !In(EMAIL[1].cls, MASK[m]);
      }
    }
    forall k, i, j | 0 <= k < 6 && 0 <= i <= j <= |MASK|
      ensures !Matches(SHIPPED_RULES[k].pattern, MASK[i..j])
    {
      NoWordInside(SHIPPED_RULES[k].pattern, MASK, i, j);
    }
  }

  /**
   The shipped configuration on nested values: strings clean, sensitive keys masked, shape
   kept, and a second pass changes nothing.
   */
  lemma ShippedValuesAreScrubbed(lower: string -> string, v: Json)
    ensures NonEmptyWords(SHIPPED_RULES)
    ensures var fields := Fields(SHIPPED_FIELDS, lower);
            var r := RedactValue(SHIPPED_RULES, fields, v);
            && Scrubbed(SHIPPED_RULES, fields, r) && SameShape(fields, v, r)
            && RedactValue(SHIPPED_RULES, fields, r) == r
  {
    var fields := Fields(SHIPPED_FIELDS, lower);
    ShippedOrdered();
    MaskIsClean();
    RedactedValueIsScrubbed(SHIPPED_RULES, fields, v);
    ScrubbedIsFixed(SHIPPED_RULES, fields, RedactValue(SHIPPED_RULES, fields, v));
  }

  /** No secret anywhere, neither in a string nor in a key. */
  ghost predicate Silent(rules: seq<Rule>, v: Json) {
    match v
    case Obj(members) =>
      forall i :: 0 <= i < |members| ==> AllClean(rules, members[i].0) && Silent(rules, members[i].1)
    case Arr(items) => forall i :: 0 <= i < |items| ==> Silent(rules, items[i])
    case Str(s) => AllClean(rules, s)
    case _ => true
  }

  /** No secret in any key that is not inside a masked value. */
  ghost predicate KeysClean(rules: seq<Rule>, fields: Fields, v: Json) {
    match v
    case Obj(members) =>
      forall i :: 0 <= i < |members| ==>
        && AllClean(rules, members[i].0)
        && (fields.Sensitive(members[i].0) || KeysClean(rules, fields, members[i].1))
    case Arr(items) => forall i :: 0 <= i < |items| ==> KeysClean(rules, fields, items[i])
    case _ => true
  }

  /** Only values are rewritten: nothing secret is left exactly when the keys held nothing secret. */
  lemma {:induction false} SilentIffKeysClean(rules: seq<Rule>, fields: Fields, v: Json)
    requires Ordered(rules) && NonEmptyWords(rules) && AllClean(rules, MASK)
    ensures Silent(rules, RedactValue(rules, fields, v)) <==> KeysClean(rules, fields, v)
    decreases v
  {
    match v
    case Obj(members) =>
      var r := RedactMembers(rules, fields, members);
      forall i | 0 <= i < |members|
        ensures AllClean(rules, r[i].0) && Silent(rules, r[i].1) <==>
                  && AllClean(rules, members[i].0)
                  && (fields.Sensitive(members[i].0) || KeysClean(rules, fields, members[i].1))
      {
        if !fields.Sensitive(members[i].0) {
          SilentIffKeysClean(rules, fields, members[i].1);
        }
      }
    case Arr(items) =>
      var r := RedactItems(rules, fields, items);
      forall i | 0 <= i < |items| ensures Silent(rules, r[i]) <==> KeysClean(rules, fields, items[i]) {
        SilentIffKeysClean(rules, fields, items[i]);
      }
    case Str(s) => RedactedIsClean(rules, s);
    case _ =>
  }

  lemma ShippedSilentIffKeysClean(lower: string -> string, v: Json)
    ensures NonEmptyWords(SHIPPED_RULES)
    ensures var fields := Fields(SHIPPED_FIELDS, lower);
            Silent(SHIPPED_RULES, RedactValue(SHIPPED_RULES, fields, v)) <==> KeysClean(SHIPPED_RULES, fields, v)
  {
    ShippedOrdered();
    MaskIsClean();
    SilentIffKeysClean(SHIPPED_RULES, Fields(SHIPPED_FIELDS, lower), v);
  }

  /** For one: a secret that stands in a key is still there afterwards. */
  lemma KeysAreNotRewritten(lower: string -> string)
    ensures NonEmptyWords(SHIPPED_RULES)
    ensures var key := "sk-AAAAAAAAAAAAAAAAAAAA";
            var r := RedactValue(SHIPPED_RULES, Fields(SHIPPED_FIELDS, lower), Obj([(key, Null)]));
            r.Obj? && |r.members| == 1 && r.members[0].0 == key && !Clean(OPENAI_KEY, r.members[0].0)
  {
    ShippedOrdered();
    var key := "sk-AAAAAAAAAAAAAAAAAAAA";
    var tail := [Atom(KeyChar, 20, None)];
    assert tail[1..] == [] && Matches([], key[3..][20..]);
    assert SplitsAt(tail, key[3..], 20);
    LiteralThen("sk-", tail, key);
    assert key[0..|key|] == key;
  }

  lemma {:induction false} LiteralThen(text: string, tail: Pattern, w: string)
    requires |text| <= |w| && w[..|text|] == text && Matches(tail, w[|text|..])
    ensures Matches(Literally(text) + tail, w)
  {
    var p := Literally(text) + tail;
    if text == "" {
      assert p == tail && w[0..] == w;
    } else {
      assert p[1..] == Literally(text[1..]) + tail;
      assert w[1..][|text[1..]|..] == w[|text|..];
      assert w[1..][..|text[1..]|] == text[1..];
      LiteralThen(text[1..], tail, w[1..]);
      assert SplitsAt(p, w, 1);
    }
  }
}
