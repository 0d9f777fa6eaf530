/**
 Decision records and audit chains: canonical payload, digest, signature, and the full
 re-validation of a chain. SHA-256, HMAC-SHA256 and Ed25519 are parameters; where a result
 needs a property of them it is a hypothesis, and where it could need collision freedom
 the colliding texts are produced instead.
 */
module DecisionProvenance {
  import opened Wrappers
  import opened CanonicalJson
  import opened Patterns

  const SCHEMA_VERSION := "1.0.0"
  const CANONICALIZATION_VERSION := "HARNESS-JSON-SORTED-COMPACT-v1"
  const GENESIS := "GENESIS"
  const HMAC_ALGORITHM := "HMAC-SHA256"
  const ED25519_ALGORITHM := "Ed25519"
  const MIN_KEY_BYTES := 32

  newtype byte = x: int | 0 <= x < 0x100

  datatype PublicKey = PublicKey(raw: seq<byte>)
  datatype PrivateKey = PrivateKey(seed: seq<byte>)

  /** What a verifier is given: raw bytes or a loaded public key. */
  datatype Key = KeyBytes(bytes: seq<byte>) | Ed25519Key(key: PublicKey)

  /** The primitives, digests and signatures as hexadecimal text. */
  datatype Crypto = Crypto(
    sha256: string -> string,
    hmacSha256: (seq<byte>, string) -> string,
    loadPublicKey: seq<byte> -> Option<PublicKey>,
    publicKey: PrivateKey -> PublicKey,
    sign: (PrivateKey, string) -> string,
    verifies: (PublicKey, string, string) -> bool)

  datatype Error =
    | ShortSigningKey
    | SequenceNotPositive
    | SecretInPayload
    | UnsupportedSchema
    | UnsupportedCanonicalization
    | DigestMismatch
    | KeyNotSymmetric
    | SignatureNotAscii
    | HmacMismatch
    | InvalidPublicKey
    | Ed25519Mismatch
    | UnsupportedAlgorithm

  datatype DecisionRecord = DecisionRecord(
    decisionId: string,
    correlationId: string,
    timestamp: string,
    schemaVersion: string,
    canonicalizationVersion: string,
    policyVersion: string,
    evaluatorVersion: string,
    tenantId: string,
    userId: string,
    resourceId: string,
    action: string,
    verdict: string,
    streamSequence: int,
    previousRecordDigest: string,
    currentRecordDigest: string,
    signature: string,
    signingKeyId: string,
    algorithm: string)

  // ---------------------------------------------------------------------------
  // Secrets
  // ---------------------------------------------------------------------------

  function Folded(text: string): Pattern {
    seq(|text|, k requires 0 <= k < |text| => Atom(FoldLit(text[k]), 1, Some(1)))
  }

  const SECRET_PATTERNS: seq<Pattern> := [
    Folded("sk-") + [Atom(FoldAlnum, 20, None)],
    Folded("bearer") + [Atom(Space, 1, None), Atom(FoldTokenChar, 1, None)],
    Folded("api-key") + [Atom(Space, 0, None), Atom(Lit(':'), 1, Some(1)), Atom(Space, 0, None),
                         Atom(FoldKeyChar, 1, None)]
  ]

  predicate HasSecret(s: string) {
    exists k :: 0 <= k < |SECRET_PATTERNS| && Found(SECRET_PATTERNS[k], s)
  }

  /** Refuses a value with a secret in one of its strings; dictionary keys are not looked at. */
  function Sanitize(v: Json): Result<Json, Error>
    decreases v, 1
  {
    match v
    case Str(s) => if HasSecret(s) then Err(SecretInPayload) else Ok(v)
    case Arr(items) =>
      (match SanitizeItems(items)
       case Ok(clean) => Ok(Arr(clean))
       case Err(e) => Err(e))
    case Obj(members) =>
      (match SanitizeMembers(members)
       case Ok(clean) => Ok(Obj(clean))
       case Err(e) => Err(e))
    case _ => Ok(v)
  }

  function SanitizeItems(items: seq<Json>): Result<seq<Json>, Error>
    decreases items, 0
  {
    if items == [] then Ok([])
    else match Sanitize(items[0])
      case Err(e) => Err(e)
      case Ok(first) =>
        match SanitizeItems(items[1..])
        case Err(e) => Err(e)
        case Ok(rest) => Ok([first] + rest)
  }

  function SanitizeMembers(members: seq<(string, Json)>): Result<seq<(string, Json)>, Error>
    decreases members, 0
  {
    if members == [] then Ok([])
    else match SanitizeMember(members[0])
      case Err(e) => Err(e)
      case Ok(first) =>
        match SanitizeMembers(members[1..])
        case Err(e) => Err(e)
        case Ok(rest) => Ok([first] + rest)
  }

  function SanitizeMember(m: (string, Json)): Result<(string, Json), Error>
    decreases m, 2
  {
    match Sanitize(m.1)
    case Ok(v) => Ok((m.0, v))
    case Err(e) => Err(e)
  }

  /** No string of the value, at any depth, has a secret in it. */
  ghost predicate SecretFree(v: Json) {
    match v
    case Str(s) => !HasSecret(s)
    case Arr(items) => forall i :: 0 <= i < |items| ==> SecretFree(items[i])
    case Obj(members) => forall i :: 0 <= i < |members| ==> SecretFree(members[i].1)
    case _ => true
  }

  /** Sanitising gives back the very value, or refuses it because some string holds a secret. */
  lemma {:induction false} SanitizeDecidesSecretFree(v: Json)
    ensures Sanitize(v) == if SecretFree(v) then Ok(v) else Err(SecretInPayload)
    decreases v, 1
  {
    match v
    case Arr(items) => SanitizeItemsDecides(items);
    case Obj(members) => SanitizeMembersDecides(members);
    case _ =>
  }

  lemma {:induction false} SanitizeItemsDecides(items: seq<Json>)
    ensures SanitizeItems(items) == if SecretFree(Arr(items)) then Ok(items) else Err(SecretInPayload)
    decreases items, 0
  {
    if items != [] {
      SanitizeDecidesSecretFree(items[0]);
      SanitizeItemsDecides(items[1..]);
      assert items == [items[0]] + items[1..];
    }
  }

  lemma {:induction false} SanitizeMembersDecides(members: seq<(string, Json)>)
    ensures SanitizeMembers(members) == if SecretFree(Obj(members)) then Ok(members) else Err(SecretInPayload)
    decreases members, 0
  {
    if members != [] {
      SanitizeMemberDecides(members[0]);
      SanitizeMembersDecides(members[1..]);
      assert members == [members[0]] + members[1..];
    }
  }

  lemma {:induction false} SanitizeMemberDecides(m: (string, Json))
    ensures SanitizeMember(m) == if SecretFree(m.1) then Ok(m) else Err(SecretInPayload)
    decreases m, 2
  {
    SanitizeDecidesSecretFree(m.1);
  }

  // ---------------------------------------------------------------------------
  // Payload and digest
  // ---------------------------------------------------------------------------

  const PAYLOAD_KEYS: seq<string> := [
    "action", "algorithm", "canonicalization_version", "correlation_id", "decision_id",
    "evaluator_version", "policy_version", "previous_record_digest", "resource_id",
    "schema_version", "signing_key_id", "stream_sequence", "tenant_id", "timestamp",
    "user_id", "verdict"
  ]

  /** The sixteen fields that are hashed: everything but the digest and the signature. */
  function Payload(r: DecisionRecord): Json {
    Obj([
      ("action", Str(r.action)),
      ("algorithm", Str(r.algorithm)),
      ("canonicalization_version", Str(r.canonicalizationVersion)),
      ("correlation_id", Str(r.correlationId)),
      ("decision_id", Str(r.decisionId)),
      ("evaluator_version", Str(r.evaluatorVersion)),
      ("policy_version", Str(r.policyVersion)),
      ("previous_record_digest", Str(r.previousRecordDigest)),
      ("resource_id", Str(r.resourceId)),
      ("schema_version", Str(r.schemaVersion)),
      ("signing_key_id", Str(r.signingKeyId)),
      ("stream_sequence", Int(r.streamSequence)),
      ("tenant_id", Str(r.tenantId)),
      ("timestamp", Str(r.timestamp)),
      ("user_id", Str(r.userId)),
      ("verdict", Str(r.verdict))
    ])
  }

  function CanonicalText(r: DecisionRecord): string {
    Canonicalize(Payload(r))
  }

  /** The records say the same; only digest and signature may differ. */
  ghost predicate SameContent(a: DecisionRecord, b: DecisionRecord) {
    a.(currentRecordDigest := "", signature := "") == b.(currentRecordDigest := "", signature := "")
  }

  lemma PayloadKeysDistinct(r: DecisionRecord)
    ensures |Payload(r).members| == 16
    ensures forall i :: 0 <= i < 16 ==> Payload(r).members[i].0 == PAYLOAD_KEYS[i]
    ensures forall i, j :: 0 <= i < j < 16 ==> PAYLOAD_KEYS[i] != PAYLOAD_KEYS[j]
    ensures WellFormed(Payload(r))
  {
  }

  lemma SameKeyMember(x: seq<(string, Json)>, y: seq<(string, Json)>, i: nat)
    requires |x| == |y| && i < |x| && DistinctKeys(y) && x[i].0 == y[i].0
    requires HasEntry(x[i], y)
    ensures SameJson(x[i].1, y[i].1)
  {
    var j :| 0 <= j < |y| && x[i].0 == y[j].0 && SameJson(x[i].1, y[j].1);
    assert i == j;
  }

  lemma PayloadScalar(r: DecisionRecord, i: nat)
    requires i < 16
    ensures |Payload(r).members| == 16
    ensures Payload(r).members[i].1.Str? || Payload(r).members[i].1.Int?
  {
  }

  lemma SamePayload(a: DecisionRecord, b: DecisionRecord)
    requires SameJson(Payload(a), Payload(b))
    ensures Payload(a) == Payload(b)
  {
    PayloadKeysDistinct(a);
    PayloadKeysDistinct(b);
    var x, y := Payload(a).members, Payload(b).members;
    forall i | 0 <= i < 16 ensures x[i] == y[i] {
      SameKeyMember(x, y, i);
      PayloadScalar(a, i);
    }
    assert x == y;
  }

  lemma PayloadInjective(a: DecisionRecord, b: DecisionRecord)
    requires Payload(a) == Payload(b)
    ensures SameContent(a, b)
  {
    var x, y := Payload(a).members, Payload(b).members;
    assert x[0] == y[0] && x[1] == y[1] && x[2] == y[2] && x[3] == y[3];
    assert x[4] == y[4] && x[5] == y[5] && x[6] == y[6] && x[7] == y[7];
    assert x[8] == y[8] && x[9] == y[9] && x[10] == y[10] && x[11] == y[11];
    assert x[12] == y[12] && x[13] == y[13] && x[14] == y[14] && x[15] == y[15];
  }

  /** The hashed text determines every field of the payload, and nothing else enters it. */
  lemma TextDeterminesContent(a: DecisionRecord, b: DecisionRecord)
    ensures CanonicalText(a) == CanonicalText(b) <==> SameContent(a, b)
  {
    if SameContent(a, b) {
      SameContentSamePayload(a, b);
    }
    if CanonicalText(a) == CanonicalText(b) {
      PayloadKeysDistinct(a);
      PayloadKeysDistinct(b);
      DumpsDecidesEquality(COMPACT, Payload(a), Payload(b));
      SamePayload(a, b);
      PayloadInjective(a, b);
    }
  }

  lemma SameContentSamePayload(a: DecisionRecord, b: DecisionRecord)
    requires SameContent(a, b)
    ensures Payload(a) == Payload(b)
  {
  }

  /** Two different texts with one digest. */
  ghost predicate Collision(c: Crypto, s: string, t: string) {
    s != t && c.sha256(s) == c.sha256(t)
  }

  // ---------------------------------------------------------------------------
  // Verification of one record
  // ---------------------------------------------------------------------------

  /** Level 1: supported versions, no secrets, and the digest of the canonical text. */
  function VerifyDigest(c: Crypto, r: DecisionRecord): Result<(), Error> {
    if r.schemaVersion != SCHEMA_VERSION then Err(UnsupportedSchema)
    else if r.canonicalizationVersion != CANONICALIZATION_VERSION then Err(UnsupportedCanonicalization)
    else match Sanitize(Payload(r))
      case Err(e) => Err(e)
      case Ok(_) =>
        if r.currentRecordDigest != c.sha256(CanonicalText(r)) then Err(DigestMismatch) else Ok(())
  }

  predicate IsAscii(s: string) {
    forall i :: 0 <= i < |s| ==> s[i] as int < 128
  }

  /** Level 2: the digest is signed with the key the algorithm calls for. */
  function VerifySignature(c: Crypto, r: DecisionRecord, key: Key): Result<(), Error> {
    match VerifyDigest(c, r)
    case Err(e) => Err(e)
    case Ok(_) =>
      if r.algorithm == HMAC_ALGORITHM then
        if !key.KeyBytes? || |key.bytes| < MIN_KEY_BYTES then Err(KeyNotSymmetric)
        else if !IsAscii(r.signature) then Err(SignatureNotAscii)
        else if r.signature != c.hmacSha256(key.bytes, r.currentRecordDigest) then Err(HmacMismatch)
        else Ok(())
      else if r.algorithm == ED25519_ALGORITHM then
        match (if key.Ed25519Key? then Some(key.key) else c.loadPublicKey(key.bytes))
        case None => Err(InvalidPublicKey)
        case Some(pub) =>
          if c.verifies(pub, r.signature, r.currentRecordDigest) then Ok(()) else Err(Ed25519Mismatch)
      else Err(UnsupportedAlgorithm)
  }

  predicate Verified(c: Crypto, r: DecisionRecord, key: Key) {
    VerifySignature(c, r, key).Ok?
  }

  lemma VerifiedDigest(c: Crypto, r: DecisionRecord, key: Key)
    requires Verified(c, r, key)
    ensures r.currentRecordDigest == c.sha256(CanonicalText(r))
    ensures SecretFree(Payload(r))
    ensures r.schemaVersion == SCHEMA_VERSION && r.canonicalizationVersion == CANONICALIZATION_VERSION
  {
    SanitizeDecidesSecretFree(Payload(r));
  }

  /** The public key a verifier uses: the one it was given, or the one loaded from the bytes. */
  function PublicKeyOf(c: Crypto, key: Key): Option<PublicKey> {
    match key
    case Ed25519Key(pub) => Some(pub)
    case KeyBytes(bytes) => c.loadPublicKey(bytes)
  }

  /** The record's digest is signed with this very key, by the algorithm the record names. */
  ghost predicate SignedWith(c: Crypto, r: DecisionRecord, key: Key) {
    || (&& r.algorithm == "HMAC-SHA256" && key.KeyBytes? && |key.bytes| >= 32
        && IsAscii(r.signature) && r.signature == c.hmacSha256(key.bytes, r.currentRecordDigest))
    || (&& r.algorithm == "Ed25519" && PublicKeyOf(c, key).Some?
        && c.verifies(PublicKeyOf(c, key).value, r.signature, r.currentRecordDigest))
  }

  /** Supported versions, no secret, and the digest of the canonical text. */
  ghost predicate SoundDigest(c: Crypto, r: DecisionRecord) {
    && r.schemaVersion == "1.0.0" && r.canonicalizationVersion == "HARNESS-JSON-SORTED-COMPACT-v1"
    && SecretFree(Payload(r)) && r.currentRecordDigest == c.sha256(CanonicalText(r))
  }

  /** A record is accepted exactly when its digest is sound and signed with the key. */
  lemma VerifiedIffSigned(c: Crypto, r: DecisionRecord, key: Key)
    ensures Verified(c, r, key) <==> SoundDigest(c, r) && SignedWith(c, r, key)
  {
    SanitizeDecidesSecretFree(Payload(r));
  }

  /** What a refusal says about the record. */
  ghost predicate Explains(c: Crypto, r: DecisionRecord, key: Key, e: Error) {
    var hmac, ed25519 := r.algorithm == "HMAC-SHA256", r.algorithm == "Ed25519";
    match e
    case UnsupportedSchema => r.schemaVersion != "1.0.0"
    case UnsupportedCanonicalization => r.canonicalizationVersion != "HARNESS-JSON-SORTED-COMPACT-v1"
    case SecretInPayload => !SecretFree(Payload(r))
    case DigestMismatch => r.currentRecordDigest != c.sha256(CanonicalText(r))
    case KeyNotSymmetric => hmac && (key.Ed25519Key? || |key.bytes| < 32)
    case SignatureNotAscii => hmac && !IsAscii(r.signature)
    case HmacMismatch =>
      hmac && key.KeyBytes? && r.signature != c.hmacSha256(key.bytes, r.currentRecordDigest)
    case InvalidPublicKey => ed25519 && PublicKeyOf(c, key).None?
    case Ed25519Mismatch =>
      ed25519 && PublicKeyOf(c, key).Some?
      && !c.verifies(PublicKeyOf(c, key).value, r.signature, r.currentRecordDigest)
    case UnsupportedAlgorithm => !hmac && !ed25519
    case ShortSigningKey => false
    case SequenceNotPositive => false
  }

  /** The reason given for refusing a record is true of it. */
  lemma RefusalIsExplained(c: Crypto, r: DecisionRecord, key: Key)
    requires VerifySignature(c, r, key).Err?
    ensures Explains(c, r, key, VerifySignature(c, r, key).error)
  {
    SanitizeDecidesSecretFree(Payload(r));
  }

  /**
   Changing any hashed field of an accepted record makes it unacceptable under every key,
   unless the changed text has the digest of the original one.
   */
  lemma TamperingIsDetected(c: Crypto, r: DecisionRecord, key: Key, t: DecisionRecord, anyKey: Key)
    requires Verified(c, r, key)
    requires t.currentRecordDigest == r.currentRecordDigest && !SameContent(r, t)
    ensures Verified(c, t, anyKey) ==> Collision(c, CanonicalText(r), CanonicalText(t))
  {
    VerifiedDigest(c, r, key);
    TextDeterminesContent(r, t);
    if Verified(c, t, anyKey) {
      VerifiedDigest(c, t, anyKey);
    }
  }

  // ---------------------------------------------------------------------------
  // Making records
  // ---------------------------------------------------------------------------

  /** The arguments of the two constructors. An empty timestamp stands for "now". */
  datatype Draft = Draft(
    decisionId: string, correlationId: string, tenantId: string, userId: string,
    resourceId: string, action: string, verdict: string, signingKeyId: string,
    streamSequence: int, previousRecordDigest: string,
    policyVersion: string, evaluatorVersion: string, timestamp: string)

  function Unsigned(d: Draft, algorithm: string, now: string): DecisionRecord {
    DecisionRecord(d.decisionId, d.correlationId, if d.timestamp == "" then now else d.timestamp,
                   SCHEMA_VERSION, CANONICALIZATION_VERSION, d.policyVersion, d.evaluatorVersion,
                   d.tenantId, d.userId, d.resourceId, d.action, d.verdict, d.streamSequence,
                   d.previousRecordDigest, "", "", d.signingKeyId, algorithm)
  }

  function Create(c: Crypto, d: Draft, signingKey: seq<byte>, now: string): Result<DecisionRecord, Error> {
    if |signingKey| < MIN_KEY_BYTES then Err(ShortSigningKey)
    else if d.streamSequence <= 0 then Err(SequenceNotPositive)
    else
      var r := Unsigned(d, HMAC_ALGORITHM, now);
      match Sanitize(Payload(r))
      case Err(e) => Err(e)
      case Ok(payload) =>
        var digest := c.sha256(Canonicalize(payload));
        Ok(r.(currentRecordDigest := digest, signature := c.hmacSha256(signingKey, digest)))
  }

  function CreateEd25519(c: Crypto, d: Draft, key: PrivateKey, now: string): Result<DecisionRecord, Error> {
    if d.streamSequence <= 0 then Err(SequenceNotPositive)
    else
      var r := Unsigned(d, ED25519_ALGORITHM, now);
      match Sanitize(Payload(r))
      case Err(e) => Err(e)
      case Ok(payload) =>
        var digest := c.sha256(Canonicalize(payload));
        Ok(r.(currentRecordDigest := digest, signature := c.sign(key, digest)))
  }

  /**
   A record is made exactly when the key is long enough, the sequence positive and no field
   holds a secret; what is made verifies under the key it was made with.
   */
  lemma CreatedRecordVerifies(c: Crypto, d: Draft, signingKey: seq<byte>, now: string)
    requires forall text :: IsAscii(c.hmacSha256(signingKey, text))
    ensures Create(c, d, signingKey, now).Ok? <==>
              && |signingKey| >= MIN_KEY_BYTES && d.streamSequence > 0
              && SecretFree(Payload(Unsigned(d, HMAC_ALGORITHM, now)))
    ensures Create(c, d, signingKey, now).Ok? ==>
              Verified(c, Create(c, d, signingKey, now).value, KeyBytes(signingKey))
  {
    var r := Unsigned(d, HMAC_ALGORITHM, now);
    SanitizeDecidesSecretFree(Payload(r));
    if Create(c, d, signingKey, now).Ok? {
      var made := Create(c, d, signingKey, now).value;
      SameContentSamePayload(made, r);
    }
  }

  /** The same for Ed25519, given that signatures verify under the matching public key. */
  lemma CreatedEd25519Verifies(c: Crypto, d: Draft, key: PrivateKey, now: string)
    requires forall text :: c.verifies(c.publicKey(key), c.sign(key, text), text)
    ensures CreateEd25519(c, d, key, now).Ok? <==>
              d.streamSequence > 0 && SecretFree(Payload(Unsigned(d, ED25519_ALGORITHM, now)))
    ensures CreateEd25519(c, d, key, now).Ok? ==>
              Verified(c, CreateEd25519(c, d, key, now).value, Ed25519Key(c.publicKey(key)))
  {
    var r := Unsigned(d, ED25519_ALGORITHM, now);
    SanitizeDecidesSecretFree(Payload(r));
    if CreateEd25519(c, d, key, now).Ok? {
      var made := CreateEd25519(c, d, key, now).value;
      SameContentSamePayload(made, r);
    }
  }

  /** What a made record says: the arguments, the supported versions, and the digest and signature of that. */
  ghost predicate MadeFrom(c: Crypto, d: Draft, r: DecisionRecord, now: string) {
    && r.decisionId == d.decisionId && r.correlationId == d.correlationId
    && r.tenantId == d.tenantId && r.userId == d.userId && r.resourceId == d.resourceId
    && r.action == d.action && r.verdict == d.verdict && r.signingKeyId == d.signingKeyId
    && r.streamSequence == d.streamSequence && r.previousRecordDigest == d.previousRecordDigest
    && r.policyVersion == d.policyVersion && r.evaluatorVersion == d.evaluatorVersion
    && r.timestamp == (if d.timestamp == "" then now else d.timestamp)
    && SoundDigest(c, r)
  }

  /** Both constructors put every argument where it belongs and sign the digest of the whole. */
  lemma MadeRecords(c: Crypto, d: Draft, signingKey: seq<byte>, key: PrivateKey, now: string)
    ensures var made := Create(c, d, signingKey, now);
            made.Ok? ==>
              && MadeFrom(c, d, made.value, now) && made.value.algorithm == "HMAC-SHA256"
              && made.value.signature == c.hmacSha256(signingKey, made.value.currentRecordDigest)
    ensures var made := CreateEd25519(c, d, key, now);
            made.Ok? ==>
              && MadeFrom(c, d, made.value, now) && made.value.algorithm == "Ed25519"
              && made.value.signature == c.sign(key, made.value.currentRecordDigest)
  {
    var hmac, ed25519 := Unsigned(d, HMAC_ALGORITHM, now), Unsigned(d, ED25519_ALGORITHM, now);
    SanitizeDecidesSecretFree(Payload(hmac));
    SanitizeDecidesSecretFree(Payload(ed25519));
    if Create(c, d, signingKey, now).Ok? {
      SameContentSamePayload(Create(c, d, signingKey, now).value, hmac);
    }
    if CreateEd25519(c, d, key, now).Ok? {
      SameContentSamePayload(CreateEd25519(c, d, key, now).value, ed25519);
    }
  }

  // ---------------------------------------------------------------------------
  // Chains
  // ---------------------------------------------------------------------------

  datatype ChainError =
    | EmptyChain
    | BadRecord(index: nat, error: Error)
    | DuplicateDecision(index: nat)
    | SequenceBreak(index: nat)
    | FirstNotGenesis
    | LinkBreak(index: nat)

  /** The digest the record at position `i` has to refer back to. */
  function ExpectedPrevious(records: seq<DecisionRecord>, i: nat): string
    requires i <= |records|
  {
    if i == 0 then GENESIS else records[i - 1].currentRecordDigest
  }

  /** Position `i` carries on the chain in front of it. */
  ghost predicate LinkedAt(records: seq<DecisionRecord>, i: nat)
    requires i < |records|
  {
    && records[i].streamSequence == i + 1
    && records[i].previousRecordDigest == ExpectedPrevious(records, i)
    && NewDecision(records, i, records[i].decisionId)
  }

  /** No record in front of position `i` has this decision. */
  ghost predicate NewDecision(records: seq<DecisionRecord>, i: nat, id: string)
    requires i <= |records|
  {
    forall j :: 0 <= j < i ==> records[j].decisionId != id
  }

  /** Sequence numbers count from 1, digests link, decisions are distinct. */
  ghost predicate Linked(records: seq<DecisionRecord>) {
    forall i :: 0 <= i < |records| ==> LinkedAt(records, i)
  }

  ghost predicate AllVerified(c: Crypto, records: seq<DecisionRecord>, key: Key) {
    forall i :: 0 <= i < |records| ==> Verified(c, records[i], key)
  }

  /** What a chain that passes validation is. */
  ghost predicate ValidChain(c: Crypto, records: seq<DecisionRecord>, key: Key) {
    records != [] && AllVerified(c, records, key) && Linked(records)
  }

  ghost predicate GoodAt(c: Crypto, records: seq<DecisionRecord>, key: Key, i: nat)
    requires i < |records|
  {
    Verified(c, records[i], key) && LinkedAt(records, i)
  }

  ghost function DecisionsBefore(records: seq<DecisionRecord>, i: nat): set<string>
    requires i <= |records|
  {
    if i == 0 then {} else DecisionsBefore(records, i - 1) + {records[i - 1].decisionId}
  }

  lemma {:induction false} SeenBefore(records: seq<DecisionRecord>, i: nat, id: string)
    requires i <= |records|
    ensures id in DecisionsBefore(records, i) <==> !NewDecision(records, i, id)
  {
    if i > 0 {
      SeenBefore(records, i - 1, id);
    }
  }

  /** The first `n` records are all good. */
  ghost predicate GoodUpTo(c: Crypto, records: seq<DecisionRecord>, key: Key, n: nat)
    requires n <= |records|
  {
    forall i :: 0 <= i < n ==> GoodAt(c, records, key, i)
  }

  lemma ValidIffAllGood(c: Crypto, records: seq<DecisionRecord>, key: Key)
    ensures ValidChain(c, records, key) <==> records != [] && GoodUpTo(c, records, key, |records|)
  {
    if ValidChain(c, records, key) {
      forall i | 0 <= i < |records| ensures GoodAt(c, records, key, i) {
        assert LinkedAt(records, i);
      }
    } else if GoodUpTo(c, records, key, |records|) {
      forall j | 0 <= j < |records| ensures Verified(c, records[j], key) && LinkedAt(records, j) {
        assert GoodAt(c, records, key, j);
      }
    }
  }

  /** The position an error is about. */
  function Position(e: ChainError): nat
    requires !e.EmptyChain?
  {
    if e.FirstNotGenesis? then 0 else e.index
  }

  /** The checks on one record, given what the records in front of it have left to compare with. */
  method CheckRecord(
    c: Crypto, ghost records: seq<DecisionRecord>, key: Key, i: nat, rec: DecisionRecord,
    seen: set<string>, expectedPrevious: string, expectedSequence: int)
    returns (e: Option<ChainError>)
    requires i < |records| && rec == records[i]
    requires seen == DecisionsBefore(records, i)
    requires expectedPrevious == ExpectedPrevious(records, i) && expectedSequence == i + 1
    ensures e.None? <==> GoodAt(c, records, key, i)
    ensures e.Some? ==> !e.value.EmptyChain? && Position(e.value) == i && ExplainsChain(c, records, key, e.value)
  {
    SeenBefore(records, i, rec.decisionId);
    match VerifySignature(c, rec, key)
    case Err(error) =>
      RefusalIsExplained(c, rec, key);
      return Some(BadRecord(i, error));
    case Ok(_) =>
    if rec.decisionId in seen {
      return Some(DuplicateDecision(i));
    }
    if rec.streamSequence != expectedSequence {
      return Some(SequenceBreak(i));
    }
    if i == 0 && rec.previousRecordDigest != GENESIS {
      return Some(FirstNotGenesis);
    }
    if i > 0 && rec.previousRecordDigest != expectedPrevious {
      return Some(LinkBreak(i));
    }
    return None;
  }

  /**
   Validates a whole chain. It succeeds exactly on valid chains, and otherwise names the
   first record that is not good.
   */
  method ValidateChain(c: Crypto, records: seq<DecisionRecord>, key: Key)
    returns (r: Result<(), ChainError>)
    ensures r.Ok? <==> ValidChain(c, records, key)
    ensures r == Err(EmptyChain) <==> records == []
    ensures r.Err? ==> ExplainsChain(c, records, key, r.error)
    ensures r.Err? && records != [] ==>
              && Position(r.error) < |records|
              && GoodUpTo(c, records, key, Position(r.error))
              && !GoodAt(c, records, key, Position(r.error))
  {
    if records == [] {
      return Err(EmptyChain);
    }
    ValidIffAllGood(c, records, key);
    var seen: set<string> := {};
    var expectedPrevious := GENESIS;
    var expectedSequence := 1;
    var i := 0;
    while i < |records|
      invariant 0 <= i <= |records|
      invariant GoodUpTo(c, records, key, i)
      invariant seen == DecisionsBefore(records, i)
      invariant expectedPrevious == ExpectedPrevious(records, i)
      invariant expectedSequence == i + 1
    {
      var rec := records[i];
      var e := CheckRecord(c, records, key, i, rec, seen, expectedPrevious, expectedSequence);
      if e.Some? {
        return Err(e.value);
      }
      seen := seen + {rec.decisionId};
      expectedPrevious := rec.currentRecordDigest;
      expectedSequence := expectedSequence + 1;
      i := i + 1;
    }
    return Ok(());
  }

  /** Every record of a valid chain is signed with the key and follows its predecessor, the first one the genesis. */
  lemma ValidChainIsSigned(c: Crypto, records: seq<DecisionRecord>, key: Key, i: nat)
    requires ValidChain(c, records, key) && i < |records|
    ensures SoundDigest(c, records[i]) && SignedWith(c, records[i], key)
    ensures records[i].streamSequence == i + 1
    ensures records[i].previousRecordDigest == if i == 0 then "GENESIS" else records[i - 1].currentRecordDigest
    ensures forall j :: 0 <= j < i ==> records[j].decisionId != records[i].decisionId
  {
    VerifiedIffSigned(c, records[i], key);
    assert LinkedAt(records, i);
  }

  /** What an error of the chain validation says about the chain. */
  ghost predicate ExplainsChain(c: Crypto, records: seq<DecisionRecord>, key: Key, e: ChainError) {
    match e
    case EmptyChain => records == []
    case BadRecord(i, reason) => i < |records| && Explains(c, records[i], key, reason)
    case DuplicateDecision(i) => i < |records| && !NewDecision(records, i, records[i].decisionId)
    case SequenceBreak(i) => i < |records| && records[i].streamSequence != i + 1
    case FirstNotGenesis => records != [] && records[0].previousRecordDigest != "GENESIS"
    case LinkBreak(i) =>
      0 < i < |records| && records[i].previousRecordDigest != records[i - 1].currentRecordDigest
  }

  /** A chain with one more record is valid exactly when the chain and the new link are. */
  lemma ChainExtension(records: seq<DecisionRecord>, r: DecisionRecord)
    ensures Linked(records + [r]) <==>
              && Linked(records)
              && r.streamSequence == |records| + 1
              && r.previousRecordDigest == ExpectedPrevious(records, |records|)
              && NewDecision(records, |records|, r.decisionId)
  {
    var longer := records + [r];
    assert forall j :: 0 <= j < |records| ==> longer[j] == records[j];
    forall i | 0 <= i < |records| ensures LinkedAt(longer, i) <==> LinkedAt(records, i) {
      assert ExpectedPrevious(longer, i) == ExpectedPrevious(records, i);
    }
    if Linked(longer) {
      forall i | 0 <= i < |records| ensures LinkedAt(records, i) {
        assert LinkedAt(longer, i);
      }
      assert LinkedAt(longer, |records|);
    }
  }

  // ---------------------------------------------------------------------------
  // The last digest pins the whole history
  // ---------------------------------------------------------------------------

  ghost predicate SameHistory(a: seq<DecisionRecord>, b: seq<DecisionRecord>) {
    |a| == |b| && SameUpTo(a, b, |a|)
  }

  ghost predicate SameUpTo(a: seq<DecisionRecord>, b: seq<DecisionRecord>, n: nat)
    requires n <= |a| && n <= |b|
  {
    forall i :: 0 <= i < n ==> SameContent(a[i], b[i])
  }

  /** The records at some position are different texts with one digest. */
  ghost predicate CollidingRecords(c: Crypto, a: seq<DecisionRecord>, b: seq<DecisionRecord>) {
    exists i, j :: 0 <= i < |a| && 0 <= j < |b| && RecordsCollide(c, a[i], b[j])
  }

  ghost predicate RecordsCollide(c: Crypto, a: DecisionRecord, b: DecisionRecord) {
    Collision(c, CanonicalText(a), CanonicalText(b))
  }

  lemma EqualDigests(c: Crypto, a: DecisionRecord, b: DecisionRecord, keyA: Key, keyB: Key)
    requires Verified(c, a, keyA) && Verified(c, b, keyB)
    requires a.currentRecordDigest == b.currentRecordDigest
    ensures SameContent(a, b) || RecordsCollide(c, a, b)
  {
    VerifiedDigest(c, a, keyA);
    VerifiedDigest(c, b, keyB);
    TextDeterminesContent(a, b);
  }

  lemma SameLink(a: seq<DecisionRecord>, b: seq<DecisionRecord>, k: nat, m: nat)
    requires Linked(a) && Linked(b) && k < |a| && m < |b| && SameContent(a[k], b[m])
    ensures k == m
    ensures k > 0 ==> a[k - 1].currentRecordDigest == b[k - 1].currentRecordDigest
  {
    assert LinkedAt(a, k) && LinkedAt(b, m);
    assert a[k].streamSequence == b[m].streamSequence;
    assert a[k].previousRecordDigest == b[m].previousRecordDigest;
  }

  /** From a position where the digests agree, the agreement carries back to the first record. */
  lemma {:induction false} AgreeBackwards(
    c: Crypto, a: seq<DecisionRecord>, b: seq<DecisionRecord>, keyA: Key, keyB: Key, k: nat)
    requires ValidChain(c, a, keyA) && ValidChain(c, b, keyB) && k < |a| && k < |b|
    requires a[k].currentRecordDigest == b[k].currentRecordDigest
    ensures CollidingRecords(c, a, b) || SameUpTo(a, b, k + 1)
  {
    EqualDigests(c, a[k], b[k], keyA, keyB);
    if !RecordsCollide(c, a[k], b[k]) {
      if k > 0 {
        SameLink(a, b, k, k);
        AgreeBackwards(c, a, b, keyA, keyB, k - 1);
      }
      SameOneMore(a, b, k);
    }
  }

  lemma SameOneMore(a: seq<DecisionRecord>, b: seq<DecisionRecord>, k: nat)
    requires k < |a| && k < |b| && SameContent(a[k], b[k])
    ensures SameUpTo(a, b, k + 1) <==> SameUpTo(a, b, k)
  {
  }

  /**
   Two accepted chains, whatever keys they were accepted under, that end in the same digest
   have the same length and the same content record by record; or else two of their records
   are texts with one SHA-256 digest.
   */
  lemma HeadPinsHistory(c: Crypto, a: seq<DecisionRecord>, b: seq<DecisionRecord>, keyA: Key, keyB: Key)
    requires ValidChain(c, a, keyA) && ValidChain(c, b, keyB)
    requires a[|a| - 1].currentRecordDigest == b[|b| - 1].currentRecordDigest
    ensures SameHistory(a, b) || CollidingRecords(c, a, b)
  {
    var m, n := |a| - 1, |b| - 1;
    EqualDigests(c, a[m], b[n], keyA, keyB);
    if !RecordsCollide(c, a[m], b[n]) {
      SameLink(a, b, m, n);
      AgreeBackwards(c, a, b, keyA, keyB, m);
    }
  }
}
