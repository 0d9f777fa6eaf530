/**
 The strict parser of a judge's answer. The JSON decoder is a parameter that yields the
 value it read, objects as lists of pairs, and where it stopped; everything the harness
 checks around it is written out.
 */
module EvaluationIntegrity {
  import opened Wrappers
  import Patterns

  const SCHEMA_VERSION := "1.0"
  const PASS_THRESHOLD := 0.8
  const MAX_REASON := 2000
  const ALLOWED_KEYS: set<string> := {"schema_version", "score", "reason"}

  /** A decoded value. Numbers that overflow a float, such as 1e999, are infinite. */
  datatype Value =
    | Null
    | Bool(flag: bool)
    | Int(number: int)
    | Float(measure: real)
    | Infinite
    | Str(text: string)
    | List(items: seq<Value>)
    | Object(pairs: seq<(string, Value)>)

  type Decoder = string -> Option<(Value, nat)>

  datatype Error =
    | OuterWhitespace
    | Empty
    | MarkdownFence
    | InvalidJson
    | DuplicateKey(key: string)
    | TrailingText
    | NotAnObject
    | WrongFields
    | UnsupportedVersion
    | ScoreNotANumber
    | ScoreNotFinite
    | ScoreOutOfRange
    | BlankReason
    | ReasonTooLong

  datatype EvaluatorResult = EvaluatorResult(schemaVersion: string, score: real, reason: string) {
    predicate Passed() {
      score >= PASS_THRESHOLD
    }
  }

  type Pairs = seq<(string, Value)>

  ghost predicate DistinctNames(pairs: Pairs) {
    forall i, j :: 0 <= i < j < |pairs| ==> pairs[i].0 != pairs[j].0
  }

  /** The dictionary the pairs stand for when no name repeats. */
  function ToMap(pairs: Pairs): map<string, Value> {
    if pairs == [] then map[] else ToMap(pairs[..|pairs| - 1])[pairs[|pairs| - 1].0 := pairs[|pairs| - 1].1]
  }

  lemma {:induction false} ToMapHas(pairs: Pairs, name: string)
    ensures name in ToMap(pairs) <==> exists i :: 0 <= i < |pairs| && pairs[i].0 == name
  {
    if pairs != [] {
      var front := pairs[..|pairs| - 1];
      ToMapHas(front, name);
      if name in ToMap(front) {
        var i :| 0 <= i < |front| && front[i].0 == name;
        assert pairs[i].0 == name;
      }
    }
  }

  /** Builds the dictionary pair by pair; succeeds exactly when all names are distinct. */
  method RejectDuplicateKeys(pairs: Pairs) returns (r: Result<map<string, Value>, Error>)
    ensures r.Ok? <==> DistinctNames(pairs)
    ensures r.Ok? ==> r.value == ToMap(pairs)
    ensures r.Err? ==> exists i, j :: 0 <= i < j < |pairs| && pairs[i].0 == pairs[j].0
                                      && r.error == DuplicateKey(pairs[j].0)
  {
    var result: map<string, Value> := map[];
    var k := 0;
    while k < |pairs|
      invariant 0 <= k <= |pairs|
      invariant result == ToMap(pairs[..k])
      invariant DistinctNames(pairs[..k])
    {
      ToMapHas(pairs[..k], pairs[k].0);
      if pairs[k].0 in result {
        var i :| 0 <= i < k && pairs[..k][i].0 == pairs[k].0;
        assert pairs[i].0 == pairs[k].0;
        return Err(DuplicateKey(pairs[k].0));
      }
      assert pairs[..k + 1][..k] == pairs[..k];
      forall i | 0 <= i < k ensures pairs[i].0 != pairs[k].0 {
        assert pairs[..k][i] == pairs[i];
      }
      result := result[pairs[k].0 := pairs[k].1];
      k := k + 1;
    }
    assert pairs[..|pairs|] == pairs;
    return Ok(result);
  }

  predicate IsBlank(s: string) {
    forall i :: 0 <= i < |s| ==> Patterns.IsSpace(s[i])
  }

  predicate OuterSpace(s: string) {
    s != "" && (Patterns.IsSpace(s[0]) || Patterns.IsSpace(s[|s| - 1]))
  }

  predicate HasFence(s: string) {
    exists i :: 0 <= i <= |s| - 3 && s[i] == '`' && s[i + 1] == '`' && s[i + 2] == '`'
  }

  /** A text has outer white space when stripping it of some would change it. */
  lemma OuterSpaceIsStripped(s: string)
    ensures OuterSpace(s) <==>
              exists k :: 0 <= k <= |s| && ((k > 0 && IsBlank(s[..k])) || (k < |s| && IsBlank(s[k..])))
  {
    if s != "" {
      var n := |s| - 1;
      assert Patterns.IsSpace(s[0]) ==> IsBlank(s[..1]);
      assert Patterns.IsSpace(s[n]) ==> IsBlank(s[n..]);
      forall k | 0 < k <= |s| && IsBlank(s[..k]) ensures Patterns.IsSpace(s[0]) {
        assert s[..k][0] == s[0];
      }
      forall k | 0 <= k < |s| && IsBlank(s[k..]) ensures Patterns.IsSpace(s[n]) {
        assert s[k..][n - k] == s[n];
      }
    }
  }

  /** A fence is three backquotes in a row, anywhere. */
  lemma FenceIsThreeBackquotes(s: string)
    ensures HasFence(s) <==> exists before, after :: s == before + "```" + after
  {
    if i :| 0 <= i <= |s| - 3 && s[i] == '`' && s[i + 1] == '`' && s[i + 2] == '`' {
      assert s == s[..i] + "```" + s[i + 3..];
    }
    if before, after :| s == before + "```" + after {
      var i := |before|;
      assert s[i] == '`' && s[i + 1] == '`' && s[i + 2] == '`';
    }
  }

  function AsNumber(v: Value): Result<real, Error> {
    match v
    case Int(n) => Ok(n as real)
    case Float(x) => Ok(x)
    case Infinite => Err(ScoreNotFinite)
    case _ => Err(ScoreNotANumber)
  }

  /** The checks on the members, whatever order they came in. */
  function CheckMembers(m: map<string, Value>): Result<EvaluatorResult, Error> {
    if m.Keys != ALLOWED_KEYS then Err(WrongFields)
    else if m["schema_version"] != Str(SCHEMA_VERSION) then Err(UnsupportedVersion)
    else match AsNumber(m["score"])
      case Err(e) => Err(e)
      case Ok(score) =>
        if !(0.0 <= score <= 1.0) then Err(ScoreOutOfRange)
        else if !m["reason"].Str? || IsBlank(m["reason"].text) then Err(BlankReason)
        else if |m["reason"].text| > MAX_REASON then Err(ReasonTooLong)
        else Ok(EvaluatorResult(SCHEMA_VERSION, score, m["reason"].text))
  }

  /** A number that is not a truth value, in range. */
  predicate NumberInUnit(v: Value) {
    || (v.Int? && (v.number == 0 || v.number == 1))
    || (v.Float? && 0.0 <= v.measure <= 1.0)
  }

  /** What is accepted: three fields, version 1.0, a score in range, a reason that is not blank or too long. */
  lemma MembersDecide(m: map<string, Value>)
    ensures CheckMembers(m).Ok? <==>
              && m.Keys == {"schema_version", "score", "reason"}
              && m["schema_version"] == Str("1.0") && NumberInUnit(m["score"])
              && m["reason"].Str? && |m["reason"].text| <= 2000
              && exists i :: 0 <= i < |m["reason"].text| && !Patterns.IsSpace(m["reason"].text[i])
    ensures CheckMembers(m).Ok? ==>
              var r := CheckMembers(m).value;
              && r.schemaVersion == "1.0" && r.reason == m["reason"].text
              && r.score == if m["score"].Int? then m["score"].number as real else m["score"].measure
  {
  }

  /** What a refusal says about the document. */
  ghost predicate ExplainsRefusal(decode: Decoder, raw: string, e: Error) {
    var decoded := decode(raw);
    match e
    case OuterWhitespace => OuterSpace(raw)
    case Empty => raw == ""
    case MarkdownFence => HasFence(raw)
    case InvalidJson => decoded.None?
    case DuplicateKey(_) => decoded.Some? && !NoDuplicates(decoded.value.0)
    case TrailingText => decoded.Some? && decoded.value.1 != |raw|
    case NotAnObject => decoded.Some? && !decoded.value.0.Object?
    case _ => decoded.Some? && decoded.value.0.Object? && ExplainsMembers(ToMap(decoded.value.0.pairs), e)
  }

  ghost predicate ExplainsMembers(m: map<string, Value>, e: Error) {
    match e
    case WrongFields => m.Keys != {"schema_version", "score", "reason"}
    case UnsupportedVersion => "schema_version" in m && m["schema_version"] != Str("1.0")
    case ScoreNotANumber => "score" in m && !m["score"].Int? && !m["score"].Float? && !m["score"].Infinite?
    case ScoreNotFinite => "score" in m && m["score"].Infinite?
    case ScoreOutOfRange => "score" in m && (m["score"].Int? || m["score"].Float?) && !NumberInUnit(m["score"])
    case BlankReason => "reason" in m && (!m["reason"].Str? || IsBlank(m["reason"].text))
    case ReasonTooLong => "reason" in m && m["reason"].Str? && |m["reason"].text| > 2000
    case _ => false
  }

  lemma MembersExplained(m: map<string, Value>)
    requires CheckMembers(m).Err?
    ensures ExplainsMembers(m, CheckMembers(m).error)
  {
  }

  /** All objects of the value, at any depth, have distinct names. */
  ghost predicate NoDuplicates(v: Value) {
    match v
    case Object(pairs) => DistinctNames(pairs) && forall i :: 0 <= i < |pairs| ==> NoDuplicates(pairs[i].1)
    case List(items) => forall i :: 0 <= i < |items| ==> NoDuplicates(items[i])
    case _ => true
  }

  /** What a document must be to be accepted, and as what. */
  ghost predicate Accepted(decode: Decoder, raw: string, r: EvaluatorResult) {
    && raw != "" && !OuterSpace(raw) && !HasFence(raw)
    && decode(raw).Some? && decode(raw).value.1 == |raw|
    && var v := decode(raw).value.0;
       && v.Object? && DistinctNames(v.pairs) && |v.pairs| == 3
       && (exists i :: 0 <= i < 3 && v.pairs[i] == ("schema_version", Str(SCHEMA_VERSION)))
       && (exists i :: 0 <= i < 3 && v.pairs[i].0 == "score" && AsNumber(v.pairs[i].1) == Ok(r.score))
       && (exists i :: 0 <= i < 3 && v.pairs[i] == ("reason", Str(r.reason)))
       && r.schemaVersion == SCHEMA_VERSION
       && 0.0 <= r.score <= 1.0
       && !IsBlank(r.reason) && |r.reason| <= MAX_REASON
  }

  /** Checks the pairs of an object and of the objects inside it; the decoder calls it on each. */
  method CheckDuplicates(v: Value) returns (e: Option<Error>)
    ensures e.None? <==> NoDuplicates(v)
    ensures e.Some? ==> e.value.DuplicateKey?
    decreases v
  {
    match v {
      case Object(pairs) =>
        var i := 0;
        while i < |pairs|
          invariant 0 <= i <= |pairs|
          invariant forall k :: 0 <= k < i ==> NoDuplicates(pairs[k].1)
        {
          var inner := CheckDuplicates(pairs[i].1);
          if inner.Some? {
            return inner;
          }
          i := i + 1;
        }
        var own := RejectDuplicateKeys(pairs);
        return if own.Ok? then None else Some(own.error);
      case List(items) =>
        var i := 0;
        while i < |items|
          invariant 0 <= i <= |items|
          invariant forall k :: 0 <= k < i ==> NoDuplicates(items[k])
        {
          var inner := CheckDuplicates(items[i]);
          if inner.Some? {
            return inner;
          }
          i := i + 1;
        }
        return None;
      case _ => return None;
    }
  }

  method ParseEvaluatorResult(decode: Decoder, raw: string) returns (r: Result<EvaluatorResult, Error>)
    ensures r.Ok? ==> Accepted(decode, raw, r.value)
    ensures r.Err? ==> forall x :: !Accepted(decode, raw, x)
    ensures r.Err? ==> ExplainsRefusal(decode, raw, r.error)
  {
    if OuterSpace(raw) {
      return Err(OuterWhitespace);
    }
    if raw == "" {
      return Err(Empty);
    }
    if HasFence(raw) {
      return Err(MarkdownFence);
    }
    var decoded := decode(raw);
    if decoded.None? {
      return Err(InvalidJson);
    }
    var v, end := decoded.value.0, decoded.value.1;
    var duplicate := CheckDuplicates(v);
    if duplicate.Some? {
      forall x ensures !Accepted(decode, raw, x) {
        if Accepted(decode, raw, x) {
          AcceptedHasNoDuplicates(decode, raw, x);
        }
      }
      return Err(duplicate.value);
    }
    if end != |raw| {
      return Err(TrailingText);
    }
    if !v.Object? {
      return Err(NotAnObject);
    }
    r := CheckMembers(ToMap(v.pairs));
    MembersAccepted(decode, raw);
    if r.Err? {
      MembersExplained(ToMap(v.pairs));
    }
  }

  lemma ThreeNames(pairs: Pairs, i: nat)
    requires DistinctNames(pairs) && |pairs| == 3 && i < 3
    requires exists a :: 0 <= a < 3 && pairs[a].0 == "schema_version"
    requires exists a :: 0 <= a < 3 && pairs[a].0 == "score"
    requires exists a :: 0 <= a < 3 && pairs[a].0 == "reason"
    ensures pairs[i].0 in ALLOWED_KEYS
  {
  }

  lemma AcceptedHasNoDuplicates(decode: Decoder, raw: string, x: EvaluatorResult)
    requires Accepted(decode, raw, x)
    ensures NoDuplicates(decode(raw).value.0)
  {
    var pairs := decode(raw).value.0.pairs;
    forall i | 0 <= i < 3 ensures NoDuplicates(pairs[i].1) {
      ThreeNames(pairs, i);
    }
  }

  lemma {:induction false} ToMapAt(pairs: Pairs, i: nat)
    requires DistinctNames(pairs) && i < |pairs|
    ensures pairs[i].0 in ToMap(pairs) && ToMap(pairs)[pairs[i].0] == pairs[i].1
  {
    var front := pairs[..|pairs| - 1];
    if i < |front| {
      ToMapAt(front, i);
      assert front[i] == pairs[i];
    }
  }

  lemma {:induction false} ToMapSize(pairs: Pairs)
    requires DistinctNames(pairs)
    ensures |ToMap(pairs).Keys| == |pairs|
  {
    if pairs != [] {
      var front := pairs[..|pairs| - 1];
      var name := pairs[|pairs| - 1].0;
      ToMapSize(front);
      ToMapHas(front, name);
      assert ToMap(pairs).Keys == ToMap(front).Keys + {name};
    }
  }

  lemma KeyAt(pairs: Pairs, name: string) returns (i: nat)
    requires DistinctNames(pairs) && name in ToMap(pairs)
    ensures i < |pairs| && pairs[i].0 == name && pairs[i].1 == ToMap(pairs)[name]
  {
    ToMapHas(pairs, name);
    i :| 0 <= i < |pairs| && pairs[i].0 == name;
    ToMapAt(pairs, i);
  }

  /** The checks on the dictionary are the checks on the pairs. */
  lemma MembersAccepted(decode: Decoder, raw: string)
    requires raw != "" && !OuterSpace(raw) && !HasFence(raw)
    requires decode(raw).Some? && decode(raw).value.1 == |raw|
    requires decode(raw).value.0.Object? && DistinctNames(decode(raw).value.0.pairs)
    ensures var r := CheckMembers(ToMap(decode(raw).value.0.pairs));
            && (r.Ok? ==> Accepted(decode, raw, r.value))
            && (r.Err? ==> forall x :: !Accepted(decode, raw, x))
  {
    var pairs := decode(raw).value.0.pairs;
    var m := ToMap(pairs);
    var r := CheckMembers(m);
    ToMapSize(pairs);
    if r.Ok? {
      assert |ALLOWED_KEYS| == 3;
      var a := KeyAt(pairs, "schema_version");
      var b := KeyAt(pairs, "score");
      var c := KeyAt(pairs, "reason");
    } else {
      forall x ensures !Accepted(decode, raw, x) {
        if Accepted(decode, raw, x) {
          AcceptedMembers(decode, raw, x);
        }
      }
    }
  }

  lemma AcceptedMembers(decode: Decoder, raw: string, x: EvaluatorResult)
    requires Accepted(decode, raw, x)
    ensures CheckMembers(ToMap(decode(raw).value.0.pairs)) == Ok(x)
  {
    var pairs := decode(raw).value.0.pairs;
    var m := ToMap(pairs);
    var a :| 0 <= a < 3 && pairs[a] == ("schema_version", Str(SCHEMA_VERSION));
    var b :| 0 <= b < 3 && pairs[b].0 == "score" && AsNumber(pairs[b].1) == Ok(x.score);
    var c :| 0 <= c < 3 && pairs[c] == ("reason", Str(x.reason));
    ToMapAt(pairs, a);
    ToMapAt(pairs, b);
    ToMapAt(pairs, c);
    forall name ensures name in m <==> name in ALLOWED_KEYS {
      ToMapHas(pairs, name);
      if name in m {
        var i :| 0 <= i < 3 && pairs[i].0 == name;
        ThreeNames(pairs, i);
      }
    }
    assert m.Keys == ALLOWED_KEYS;
  }

  /** A document is accepted as one result at most, with a score in range that alone decides whether it passed. */
  lemma AcceptedIsDetermined(decode: Decoder, raw: string, x: EvaluatorResult, y: EvaluatorResult)
    requires Accepted(decode, raw, x) && Accepted(decode, raw, y)
    ensures x == y && 0.0 <= x.score <= 1.0
    ensures x.Passed() <==> 0.8 <= x.score
  {
    AcceptedMembers(decode, raw, x);
    AcceptedMembers(decode, raw, y);
  }

  /** The order of the members makes no difference. */
  lemma OrderOfMembersIsFree(decode: Decoder, raw: string, other: string, x: EvaluatorResult)
    requires Accepted(decode, raw, x)
    requires other != "" && !OuterSpace(other) && !HasFence(other)
    requires decode(other).Some? && decode(other).value.1 == |other| && decode(other).value.0.Object?
    requires multiset(decode(other).value.0.pairs) == multiset(decode(raw).value.0.pairs)
    ensures Accepted(decode, other, x)
  {
    var p, q := decode(raw).value.0.pairs, decode(other).value.0.pairs;
    assert |q| == |multiset(q)| == |multiset(p)| == |p|;
    forall m | m in p ensures m in q {
      assert m in multiset(p);
      assert m in multiset(q);
    }
    assert exists i :: 0 <= i < 3 && q[i] == ("schema_version", Str(SCHEMA_VERSION)) by {
      assert ("schema_version", Str(SCHEMA_VERSION)) in q;
    }
    assert exists i :: 0 <= i < 3 && q[i] == ("reason", Str(x.reason)) by {
      assert ("reason", Str(x.reason)) in q;
    }
    var b :| 0 <= b < 3 && p[b].0 == "score" && AsNumber(p[b].1) == Ok(x.score);
    assert exists i :: 0 <= i < 3 && q[i].0 == "score" && AsNumber(q[i].1) == Ok(x.score) by {
      assert p[b] in q;
    }
    ThreeDistinct(q);
  }

  lemma ThreeDistinct(q: Pairs)
    requires |q| == 3
    requires exists a :: 0 <= a < 3 && q[a].0 == "schema_version"
    requires exists a :: 0 <= a < 3 && q[a].0 == "score"
    requires exists a :: 0 <= a < 3 && q[a].0 == "reason"
    ensures DistinctNames(q)
  {
  }
}
