/**
 What the shipped patterns stand for, in terms of characters: the words of each of the six
 redaction patterns, and the strings that no decision record may contain.
 */
module PatternWords {
  import opened Wrappers
  import opened CanonicalJson
  import opened Patterns
  import opened SecretRedactor
  import opened DecisionProvenance

  predicate AsciiLetter(c: char) {
    'A' <= c <= 'Z' || 'a' <= c <= 'z'
  }

  predicate AsciiDigit(c: char) {
    '0' <= c <= '9'
  }

  /** Letters, digits, and the characters listed. */
  predicate Wordy(c: char, others: string) {
    AsciiLetter(c) || AsciiDigit(c) || c in others
  }

  predicate HexCharacter(c: char) {
    AsciiDigit(c) || 'a' <= c <= 'f' || 'A' <= c <= 'F'
  }

  /** White space by code point, and the letters that count as one when case is ignored. */
  lemma SpacesAndFolds(c: char)
    ensures var n := c as int;
            IsSpace(c) <==>
              || 9 <= n <= 13 || 28 <= n <= 32 || n == 0x85 || n == 0xa0 || n == 0x1680
              || 0x2000 <= n <= 0x200a || n == 0x2028 || n == 0x2029 || n == 0x202f || n == 0x205f || n == 0x3000
    ensures forall letter :: 'a' <= letter <= 'z' ==>
              (FoldsTo(c, letter) <==>
                 || c == letter || c as int == letter as int - 32
                 || (letter == 'i' && c as int in {0x130, 0x131})
                 || (letter == 's' && c as int == 0x17f) || (letter == 'k' && c as int == 0x212a))
    ensures FoldsTo(c, '-') <==> c == '-'
  {
  }

  // ---------------------------------------------------------------------------
  // Shapes
  // ---------------------------------------------------------------------------

  lemma EmptyWord(w: string)
    ensures Matches([], w) <==> w == ""
  {
  }

  /** A class and what follows it. */
  lemma ClassThen(cls: CharClass, lo: nat, hi: Option<nat>, tail: Pattern, w: string)
    ensures Matches([Atom(cls, lo, hi)] + tail, w) <==>
              exists n: nat :: n <= |w| && lo <= n && (hi.Some? ==> n <= hi.value)
                               && AllIn(cls, w[..n]) && Matches(tail, w[n..])
  {
    var p := [Atom(cls, lo, hi)] + tail;
    assert p[1..] == tail;
    assert forall n: nat :: n <= |w| ==>
      (SplitsAt(p, w, n) <==> lo <= n && (hi.Some? ==> n <= hi.value) && AllIn(cls, w[..n]) && Matches(tail, w[n..]));
  }

  /** A class at the end of a pattern. */
  lemma ClassAlone(cls: CharClass, lo: nat, hi: Option<nat>, w: string)
    ensures Matches([Atom(cls, lo, hi)], w) <==> lo <= |w| && (hi.Some? ==> |w| <= hi.value) && AllIn(cls, w)
  {
    ClassThen(cls, lo, hi, [], w);
    assert [Atom(cls, lo, hi)] + [] == [Atom(cls, lo, hi)];
    assert w[..|w|] == w;
  }

  /** A literal text and what follows it. */
  lemma {:induction false} TextThen(text: string, tail: Pattern, w: string)
    ensures Matches(Literally(text) + tail, w) <==> text <= w && Matches(tail, w[|text|..])
  {
    if text == "" {
      assert Literally(text) + tail == tail && w[0..] == w;
    } else {
      assert Literally(text) + tail == [Atom(Lit(text[0]), 1, Some(1))] + (Literally(text[1..]) + tail);
      ClassThen(Lit(text[0]), 1, Some(1), Literally(text[1..]) + tail, w);
      if w != "" {
        TextThen(text[1..], tail, w[1..]);
        assert text <= w <==> text[0] == w[0] && text[1..] <= w[1..] by {
          TextPrefix(text, w);
        }
        assert text <= w ==> w[1..][|text[1..]|..] == w[|text|..];
        assert w[..1] == [w[0]];
      }
    }
  }

  lemma TextPrefix(text: string, w: string)
    requires text != "" && w != ""
    ensures text <= w <==> text[0] == w[0] && text[1..] <= w[1..]
  {
    if text[0] == w[0] && text[1..] <= w[1..] {
      assert text == [text[0]] + text[1..];
      assert w[..|text|] == [w[0]] + w[1..][..|text| - 1];
    }
    if text <= w {
      assert text[1..] == w[1..][..|text| - 1];
    }
  }

  // ---------------------------------------------------------------------------
  // The six redaction patterns
  // ---------------------------------------------------------------------------

  /** A prefix and at least, or exactly, so many letters, digits, underscores and hyphens. */
  predicate KeyWord(w: string, prefix: string, count: nat, exactly: bool) {
    && prefix <= w && (if exactly then |w| == |prefix| + count else |w| >= |prefix| + count)
    && forall i :: |prefix| <= i < |w| ==> Wordy(w[i], "_-")
  }

  lemma KeyWords(prefix: string, count: nat, exactly: bool, w: string)
    ensures var hi := if exactly then Some(count) else None;
            Matches(Literally(prefix) + [Atom(KeyChar, count, hi)], w) <==> KeyWord(w, prefix, count, exactly)
  {
    var hi := if exactly then Some(count) else None;
    TextThen(prefix, [Atom(KeyChar, count, hi)], w);
    if prefix <= w {
      var rest := w[|prefix|..];
      ClassAlone(KeyChar, count, hi, rest);
      assert forall c :: In(KeyChar, c) <==> Wordy(c, "_-");
      assert forall i :: |prefix| <= i < |w| ==> w[i] == rest[i - |prefix|];
      assert forall i :: 0 <= i < |rest| ==> rest[i] == w[i + |prefix|];
    }
  }

  /** White space up to position `n` and then at least twenty token characters. */
  predicate SpacedToken(w: string, n: nat) {
    && 1 <= n && n + 20 <= |w|
    && (forall i :: 0 <= i < n ==> IsSpace(w[i]))
    && forall i :: n <= i < |w| ==> Wordy(w[i], "._-")
  }

  const TOKEN: Pattern := [Atom(TokenChar, 20, None)]
  const SPACED_TOKEN: Pattern := [Atom(Space, 1, None), Atom(TokenChar, 20, None)]

  lemma SpacedTokenAt(w: string, n: nat)
    requires n <= |w|
    ensures 1 <= n && AllIn(Space, w[..n]) && Matches(TOKEN, w[n..]) <==> SpacedToken(w, n)
  {
    ClassAlone(TokenChar, 20, None, w[n..]);
    AllInParts(Space, w, n);
    AllInParts(TokenChar, w, n);
    assert forall c :: In(TokenChar, c) <==> Wordy(c, "._-");
  }

  /** Membership of both parts of a word, position by position. */
  lemma AllInParts(cls: CharClass, w: string, n: nat)
    requires n <= |w|
    ensures AllIn(cls, w[..n]) <==> forall i :: 0 <= i < n ==> In(cls, w[i])
    ensures AllIn(cls, w[n..]) <==> forall i :: n <= i < |w| ==> In(cls, w[i])
  {
    assert forall i :: 0 <= i < n ==> w[..n][i] == w[i];
    assert forall i :: n <= i < |w| ==> w[n..][i - n] == w[i];
    assert forall i :: 0 <= i < |w| - n ==> w[n..][i] == w[i + n];
  }

  lemma SpacedTokens(w: string)
    ensures Matches(SPACED_TOKEN, w) <==> exists n: nat :: SpacedToken(w, n)
  {
    assert SPACED_TOKEN == [Atom(Space, 1, None)] + TOKEN;
    ClassThen(Space, 1, None, TOKEN, w);
    forall n: nat | n <= |w|
      ensures 1 <= n && AllIn(Space, w[..n]) && Matches(TOKEN, w[n..]) <==> SpacedToken(w, n)
    {
      SpacedTokenAt(w, n);
    }
  }

  /** "Bearer", white space and a token. */
  ghost predicate BearerWord(w: string) {
    "Bearer" <= w && exists n: nat :: SpacedToken(w[6..], n)
  }

  lemma BearerWords(w: string)
    ensures Matches(BEARER_TOKEN, w) <==> BearerWord(w)
  {
    TextThen("Bearer", SPACED_TOKEN, w);
    if "Bearer" <= w {
      SpacedTokens(w[6..]);
    }
  }

  lemma HexWords(w: string)
    ensures Matches(HEX_TOKEN, w) <==> |w| == 64 && forall i :: 0 <= i < 64 ==> HexCharacter(w[i])
  {
    ClassAlone(Hex, 64, Some(64), w);
  }

  /** A local part up to the `@` at `a`, a domain up to the dot at `b`, and at least two letters. */
  predicate EmailWord(w: string, a: nat, b: nat) {
    && 1 <= a && a + 2 <= b && b + 3 <= |w| && w[a] == '@' && w[b] == '.'
    && (forall i :: 0 <= i < a ==> Wordy(w[i], "._%+-"))
    && (forall i :: a < i < b ==> Wordy(w[i], ".-"))
    && forall i :: b < i < |w| ==> AsciiLetter(w[i])
  }

  const AFTER_DOMAIN: Pattern := [One('.'), Atom(Letter, 2, None)]
  const AFTER_AT: Pattern := [Atom(DomainChar, 1, None), One('.'), Atom(Letter, 2, None)]
  const AFTER_LOCAL: Pattern := [One('@'), Atom(DomainChar, 1, None), One('.'), Atom(Letter, 2, None)]

  lemma TopLevelWords(w: string)
    ensures Matches(AFTER_DOMAIN, w) <==> |w| >= 3 && w[0] == '.' && forall i :: 1 <= i < |w| ==> AsciiLetter(w[i])
  {
    var letters := [Atom(Letter, 2, None)];
    assert AFTER_DOMAIN == Literally(".") + letters;
    TextThen(".", letters, w);
    if "." <= w {
      ClassAlone(Letter, 2, None, w[1..]);
      assert forall i :: 1 <= i < |w| ==> w[i] == w[1..][i - 1];
    }
    assert w != "" ==> w[..1] == [w[0]];
  }

  predicate DomainWord(w: string, b: nat) {
    && 1 <= b && b + 3 <= |w| && w[b] == '.'
    && (forall i :: 0 <= i < b ==> Wordy(w[i], ".-"))
    && forall i :: b < i < |w| ==> AsciiLetter(w[i])
  }

  lemma DomainWords(w: string)
    ensures Matches(AFTER_AT, w) <==> exists b: nat :: DomainWord(w, b)
  {
    assert AFTER_AT == [Atom(DomainChar, 1, None)] + AFTER_DOMAIN;
    ClassThen(DomainChar, 1, None, AFTER_DOMAIN, w);
    forall n: nat | n <= |w|
      ensures 1 <= n && AllIn(DomainChar, w[..n]) && Matches(AFTER_DOMAIN, w[n..]) <==> DomainWord(w, n)
    {
      DomainAt(w, n);
    }
  }

  lemma DomainAt(w: string, n: nat)
    requires n <= |w|
    ensures 1 <= n && AllIn(DomainChar, w[..n]) && Matches(AFTER_DOMAIN, w[n..]) <==> DomainWord(w, n)
  {
    TopLevelWords(w[n..]);
    AllInParts(DomainChar, w, n);
    assert forall c :: In(DomainChar, c) <==> Wordy(c, ".-");
    assert forall i :: n < i < |w| ==> w[i] == w[n..][i - n];
    assert forall i :: 0 <= i < |w| - n ==> w[n..][i] == w[i + n];
  }

  lemma AddressWords(w: string)
    ensures Matches(AFTER_LOCAL, w) <==> w != "" && w[0] == '@' && exists b: nat :: DomainWord(w[1..], b)
  {
    assert AFTER_LOCAL == Literally("@") + AFTER_AT;
    TextThen("@", AFTER_AT, w);
    if w != "" {
      DomainWords(w[1..]);
      assert w[..1] == [w[0]];
    }
  }

  lemma EmailWords(w: string)
    ensures Matches(EMAIL, w) <==> exists a: nat, b: nat :: EmailWord(w, a, b)
  {
    assert EMAIL == [Atom(LocalChar, 1, None)] + AFTER_LOCAL;
    ClassThen(LocalChar, 1, None, AFTER_LOCAL, w);
    if n: nat :| n <= |w| && 1 <= n && AllIn(LocalChar, w[..n]) && Matches(AFTER_LOCAL, w[n..]) {
      AddressWords(w[n..]);
      var rest := w[n..][1..];
      var b: nat :| DomainWord(rest, b);
      EmailFrom(w, n, b);
    }
    if a: nat, b: nat :| EmailWord(w, a, b) {
      EmailTo(w, a, b);
      AddressWords(w[a..]);
      assert AllIn(LocalChar, w[..a]);
    }
  }

  lemma EmailFrom(w: string, n: nat, b: nat)
    requires 1 <= n < |w| && AllIn(LocalChar, w[..n]) && w[n] == '@' && DomainWord(w[n..][1..], b)
    ensures EmailWord(w, n, n + 1 + b)
  {
    var rest := w[n..][1..];
    assert forall i :: n < i < |w| ==> w[i] == rest[i - n - 1];
    assert forall i :: 0 <= i < n ==> w[..n][i] == w[i];
  }

  lemma EmailTo(w: string, a: nat, b: nat)
    requires EmailWord(w, a, b)
    ensures w[a..] != "" && w[a..][0] == '@' && DomainWord(w[a..][1..], b - a - 1)
    ensures forall i :: 0 <= i < a ==> In(LocalChar, w[..a][i])
  {
    var rest := w[a..][1..];
    assert forall i :: 0 <= i < |rest| ==> rest[i] == w[i + a + 1];
    assert forall i :: 0 <= i < a ==> w[..a][i] == w[i];
  }

  /** The words of the six shipped patterns, in their order, and what takes their place. */
  lemma ShippedWords(w: string)
    ensures |SHIPPED_RULES| == 6
    ensures Matches(SHIPPED_RULES[0].pattern, w) <==> KeyWord(w, "sk-ant-", 20, false)
    ensures Matches(SHIPPED_RULES[1].pattern, w) <==> KeyWord(w, "sk-", 20, false)
    ensures Matches(SHIPPED_RULES[2].pattern, w) <==> KeyWord(w, "AIza", 35, true)
    ensures Matches(SHIPPED_RULES[3].pattern, w) <==> BearerWord(w)
    ensures Matches(SHIPPED_RULES[4].pattern, w) <==> |w| == 64 && forall i :: 0 <= i < 64 ==> HexCharacter(w[i])
    ensures Matches(SHIPPED_RULES[5].pattern, w) <==> exists a: nat, b: nat :: EmailWord(w, a, b)
  {
    KeyWords("sk-ant-", 20, false, w);
    KeyWords("sk-", 20, false, w);
    KeyWords("AIza", 35, true, w);
    BearerWords(w);
    HexWords(w);
    EmailWords(w);
  }

  /** The replacements, as texts. */
  lemma ShippedReplacements()
    ensures |SHIPPED_RULES| == 6
    ensures SHIPPED_RULES[0].Replacement() == "[ANTHROPIC-KEY-REDACTED]"
    ensures SHIPPED_RULES[1].Replacement() == "[OPENAI-KEY-REDACTED]"
    ensures SHIPPED_RULES[2].Replacement() == "[GOOGLE-KEY-REDACTED]"
    ensures SHIPPED_RULES[3].Replacement() == "Bearer [TOKEN-REDACTED]"
    ensures SHIPPED_RULES[4].Replacement() == "[HEX-TOKEN-REDACTED]"
    ensures SHIPPED_RULES[5].Replacement() == "[EMAIL-REDACTED]"
  {
    Bracketed();
  }

  /** The sixteen field names, looked up without regard to case. */
  lemma ShippedFieldNames(lower: string -> string, key: string)
    ensures Fields(SHIPPED_FIELDS, lower).Sensitive(key) <==>
              var name := lower(key);
              || name == "api_key" || name == "apikey" || name == "api-key" || name == "x-api-key"
              || name == "authorization" || name == "bearer" || name == "token" || name == "secret"
              || name == "password" || name == "credential" || name == "private_key" || name == "client_secret"
              || name == "access_token" || name == "refresh_token" || name == "session_token" || name == "auth_token"
  {
  }

  lemma Bracketed()
    ensures "" + "[" + "ANTHROPIC-KEY-REDACTED" + "]" == "[ANTHROPIC-KEY-REDACTED]"
    ensures "" + "[" + "OPENAI-KEY-REDACTED" + "]" == "[OPENAI-KEY-REDACTED]"
    ensures "" + "[" + "GOOGLE-KEY-REDACTED" + "]" == "[GOOGLE-KEY-REDACTED]"
    ensures "Bearer " + "[" + "TOKEN-REDACTED" + "]" == "Bearer [TOKEN-REDACTED]"
    ensures "" + "[" + "HEX-TOKEN-REDACTED" + "]" == "[HEX-TOKEN-REDACTED]"
    ensures "" + "[" + "EMAIL-REDACTED" + "]" == "[EMAIL-REDACTED]"
  {
    BracketedAnthropic();
    BracketedOpenAi();
  }

  lemma BracketedAnthropic()
    ensures "" + "[" + "ANTHROPIC-KEY-REDACTED" + "]" == "[ANTHROPIC-KEY-REDACTED]"
  {
  }

  lemma BracketedOpenAi()
    ensures "" + "[" + "OPENAI-KEY-REDACTED" + "]" == "[OPENAI-KEY-REDACTED]"
    ensures "" + "[" + "GOOGLE-KEY-REDACTED" + "]" == "[GOOGLE-KEY-REDACTED]"
  {
  }

  // ---------------------------------------------------------------------------
  // What no decision record may contain
  // ---------------------------------------------------------------------------

  /** The text, in letters of either case. */
  predicate StartsLike(w: string, text: string) {
    |text| <= |w| && forall i :: 0 <= i < |text| ==> FoldsTo(w[i], text[i])
  }

  /** A word character in either case, with the four letters outside ASCII that case folding adds. */
  predicate FoldedWordy(c: char, others: string) {
    Wordy(c, others) || c in {'\U{130}', '\U{131}', '\U{17f}', '\U{212a}'}
  }

  lemma {:induction false} FoldedThen(text: string, tail: Pattern, w: string)
    ensures Matches(Folded(text) + tail, w) <==> StartsLike(w, text) && Matches(tail, w[|text|..])
  {
    if text == "" {
      assert Folded(text) + tail == tail && w[0..] == w;
    } else {
      var rest := Folded(text[1..]) + tail;
      assert Folded(text) + tail == [Atom(FoldLit(text[0]), 1, Some(1))] + rest;
      ClassThen(FoldLit(text[0]), 1, Some(1), rest, w);
      if w != "" {
        FoldedThen(text[1..], tail, w[1..]);
        LikeInParts(w, text);
        assert StartsLike(w, text) ==> w[1..][|text[1..]|..] == w[|text|..];
        assert w[..1] == [w[0]];
      }
    }
  }

  lemma LikeInParts(w: string, text: string)
    requires text != "" && w != ""
    ensures StartsLike(w, text) <==> FoldsTo(w[0], text[0]) && StartsLike(w[1..], text[1..])
  {
    assert forall i :: 1 <= i < |text| ==> text[i] == text[1..][i - 1];
    assert forall i :: 1 <= i < |w| ==> w[i] == w[1..][i - 1];
    assert forall i :: 0 <= i < |text| - 1 ==> text[1..][i] == text[i + 1];
    assert forall i :: 0 <= i < |w| - 1 ==> w[1..][i] == w[i + 1];
  }

  predicate SkSecret(w: string) {
    StartsLike(w, "sk-") && |w| >= 23 && forall i :: 3 <= i < |w| ==> FoldedWordy(w[i], "")
  }

  /** "bearer", white space up to position `n`, and at least one token character. */
  predicate BearerSecret(w: string, n: nat) {
    && StartsLike(w, "bearer") && 7 <= n < |w|
    && (forall i :: 6 <= i < n ==> IsSpace(w[i]))
    && forall i :: n <= i < |w| ==> FoldedWordy(w[i], "_-.")
  }

  /** "api-key", a colon at position `a` with any white space around it, and a key from `b` on. */
  ghost predicate ApiKeySecret(w: string, a: nat, b: nat) {
    && StartsLike(w, "api-key") && 7 <= a < b < |w| && w[a] == ':'
    && (forall i :: 7 <= i < a || a < i < b ==> IsSpace(w[i]))
    && forall i :: b <= i < |w| ==> FoldedWordy(w[i], "_-")
  }

  ghost predicate SecretWord(w: string) {
    || SkSecret(w)
    || (exists n: nat :: BearerSecret(w, n))
    || (exists a: nat, b: nat :: ApiKeySecret(w, a, b))
  }

  lemma FoldedClasses(c: char)
    ensures In(FoldAlnum, c) <==> FoldedWordy(c, "")
    ensures In(FoldKeyChar, c) <==> FoldedWordy(c, "_-")
    ensures In(FoldTokenChar, c) <==> FoldedWordy(c, "_-.")
  {
  }

  lemma SkSecrets(w: string)
    ensures Matches(Folded("sk-") + [Atom(FoldAlnum, 20, None)], w) <==> SkSecret(w)
  {
    FoldedThen("sk-", [Atom(FoldAlnum, 20, None)], w);
    if StartsLike(w, "sk-") {
      ClassAlone(FoldAlnum, 20, None, w[3..]);
      AllInParts(FoldAlnum, w, 3);
      forall i | 3 <= i < |w| ensures In(FoldAlnum, w[i]) <==> FoldedWordy(w[i], "") {
        FoldedClasses(w[i]);
      }
    }
  }

  const BEARER_TAIL: Pattern := [Atom(Space, 1, None), Atom(FoldTokenChar, 1, None)]

  /** White space before position `n`, a run of the class from it on. */
  ghost predicate SpacesThenRun(w: string, low: nat, cls: CharClass, n: nat) {
    && low <= n < |w| && (forall i :: 0 <= i < n ==> IsSpace(w[i]))
    && forall i :: n <= i < |w| ==> In(cls, w[i])
  }

  lemma SpacesThenRuns(w: string, low: nat, cls: CharClass)
    ensures Matches([Atom(Space, low, None), Atom(cls, 1, None)], w) <==> exists n: nat :: SpacesThenRun(w, low, cls, n)
  {
    var run := [Atom(cls, 1, None)];
    assert [Atom(Space, low, None), Atom(cls, 1, None)] == [Atom(Space, low, None)] + run;
    ClassThen(Space, low, None, run, w);
    forall n: nat | n <= |w|
      ensures low <= n && AllIn(Space, w[..n]) && Matches(run, w[n..]) <==> SpacesThenRun(w, low, cls, n)
    {
      ClassAlone(cls, 1, None, w[n..]);
      AllInParts(Space, w, n);
      AllInParts(cls, w, n);
    }
  }

  lemma BearerSecrets(w: string)
    ensures Matches(Folded("bearer") + BEARER_TAIL, w) <==> exists n: nat :: BearerSecret(w, n)
  {
    FoldedThen("bearer", BEARER_TAIL, w);
    if StartsLike(w, "bearer") {
      SpacesThenRuns(w[6..], 1, FoldTokenChar);
      forall n: nat | 6 <= n ensures BearerSecret(w, n) <==> SpacesThenRun(w[6..], 1, FoldTokenChar, n - 6) {
        BearerSecretAt(w, n);
      }
      if n: nat :| SpacesThenRun(w[6..], 1, FoldTokenChar, n) {
        assert BearerSecret(w, n + 6);
      }
    }
  }

  lemma BearerSecretAt(w: string, n: nat)
    requires StartsLike(w, "bearer") && 6 <= n
    ensures BearerSecret(w, n) <==> SpacesThenRun(w[6..], 1, FoldTokenChar, n - 6)
  {
    forall i | 6 <= i < |w| ensures In(FoldTokenChar, w[i]) <==> FoldedWordy(w[i], "_-.") {
      FoldedClasses(w[i]);
    }
    assert forall i :: 6 <= i < |w| ==> w[i] == w[6..][i - 6];
    assert forall i :: 0 <= i < |w| - 6 ==> w[6..][i] == w[i + 6];
  }

  const KEY_TAIL: Pattern := [Atom(Space, 0, None), Atom(FoldKeyChar, 1, None)]
  const COLON_TAIL: Pattern := [Atom(Lit(':'), 1, Some(1))] + KEY_TAIL
  const API_KEY_TAIL: Pattern :=
    [Atom(Space, 0, None), Atom(Lit(':'), 1, Some(1)), Atom(Space, 0, None), Atom(FoldKeyChar, 1, None)]

  lemma ColonTails(w: string)
    ensures Matches(COLON_TAIL, w) <==>
              w != "" && w[0] == ':' && exists n: nat :: SpacesThenRun(w[1..], 0, FoldKeyChar, n)
  {
    assert COLON_TAIL == Literally(":") + KEY_TAIL;
    TextThen(":", KEY_TAIL, w);
    if w != "" {
      assert ":" <= w <==> w[0] == ':' by {
        assert w[..1] == [w[0]];
      }
      SpacesThenRuns(w[1..], 0, FoldKeyChar);
    }
  }

  /** From position `k` on: white space, a colon at `a`, white space, and a key from `b` on. */
  ghost predicate KeyAfterColon(w: string, k: nat, a: nat, b: nat) {
    && k <= a < b < |w| && w[a] == ':'
    && (forall i :: k <= i < a || a < i < b ==> IsSpace(w[i]))
    && forall i :: b <= i < |w| ==> FoldedWordy(w[i], "_-")
  }

  lemma KeyFromColon(w: string, a: nat, n: nat)
    requires a < |w| && w[a] == ':' && AllIn(Space, w[..a])
    ensures SpacesThenRun(w[a..][1..], 0, FoldKeyChar, n) <==> KeyAfterColon(w, 0, a, a + 1 + n)
  {
    var rest := w[a..][1..];
    AllInParts(Space, w, a);
    forall i | 0 <= i < |w| ensures In(FoldKeyChar, w[i]) <==> FoldedWordy(w[i], "_-") {
      FoldedClasses(w[i]);
    }
    assert forall i :: a < i < |w| ==> w[i] == rest[i - a - 1];
    assert forall i :: 0 <= i < |rest| ==> rest[i] == w[i + a + 1];
  }

  lemma ApiKeyTails(w: string)
    ensures Matches(API_KEY_TAIL, w) <==> exists a: nat, b: nat :: KeyAfterColon(w, 0, a, b)
  {
    assert API_KEY_TAIL == [Atom(Space, 0, None)] + COLON_TAIL;
    ClassThen(Space, 0, None, COLON_TAIL, w);
    if a: nat :| a <= |w| && AllIn(Space, w[..a]) && Matches(COLON_TAIL, w[a..]) {
      ColonTails(w[a..]);
      var n: nat :| SpacesThenRun(w[a..][1..], 0, FoldKeyChar, n);
      KeyFromColon(w, a, n);
    }
    if a: nat, b: nat :| KeyAfterColon(w, 0, a, b) {
      AllInParts(Space, w, a);
      KeyFromColon(w, a, b - a - 1);
      ColonTails(w[a..]);
    }
  }

  lemma ApiKeyAt(w: string, a: nat, b: nat)
    requires StartsLike(w, "api-key")
    ensures KeyAfterColon(w[7..], 0, a, b) <==> ApiKeySecret(w, a + 7, b + 7)
  {
    assert forall i :: 7 <= i < |w| ==> w[i] == w[7..][i - 7];
    assert forall i :: 0 <= i < |w| - 7 ==> w[7..][i] == w[i + 7];
  }

  lemma ApiKeySecrets(w: string)
    ensures Matches(Folded("api-key") + API_KEY_TAIL, w) <==> exists a: nat, b: nat :: ApiKeySecret(w, a, b)
  {
    FoldedThen("api-key", API_KEY_TAIL, w);
    if StartsLike(w, "api-key") {
      ApiKeyTails(w[7..]);
      if a: nat, b: nat :| KeyAfterColon(w[7..], 0, a, b) {
        ApiKeyAt(w, a, b);
      }
      if a: nat, b: nat :| ApiKeySecret(w, a, b) {
        ApiKeyAt(w, a - 7, b - 7);
      }
    }
  }

  /** A string counts as secret exactly when some part of it is one of these words. */
  lemma SecretsAre(s: string)
    ensures HasSecret(s) <==> exists i, j :: 0 <= i <= j <= |s| && SecretWord(s[i..j])
  {
    assert |SECRET_PATTERNS| == 3;
    forall w: string
      ensures SecretWord(w) <==>
                Matches(SECRET_PATTERNS[0], w) || Matches(SECRET_PATTERNS[1], w) || Matches(SECRET_PATTERNS[2], w)
    {
      SkSecrets(w);
      BearerSecrets(w);
      ApiKeySecrets(w);
    }
    FoundIffNotClean(SECRET_PATTERNS[0], s);
    FoundIffNotClean(SECRET_PATTERNS[1], s);
    FoundIffNotClean(SECRET_PATTERNS[2], s);
  }
}
