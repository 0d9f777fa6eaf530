/**
 The append-only table behind decision streams: a row per record with the constraints of
 the SQL schema, `append` as a transaction that looks at the stream head only, and the
 result that this is as good as re-validating the whole stream on every append.
 */
module ProvenanceStore {
  import opened Wrappers
  import opened Sorting
  import opened CanonicalJson
  import opened DecisionProvenance

  /** A row of `decision_provenance_stream`, columns in the order of the schema. */
  datatype Row = Row(
    streamId: string,
    streamSequence: int,
    decisionId: string,
    correlationId: string,
    tenantId: string,
    userId: string,
    resourceId: string,
    action: string,
    verdict: string,
    policyVersion: string,
    evaluatorVersion: string,
    previousRecordDigest: string,
    currentRecordDigest: string,
    signature: string,
    signingKeyId: string,
    algorithm: string,
    canonicalPayloadJson: string,
    timestamp: string,
    schemaVersion: string,
    canonicalizationVersion: string)

  /** Committed rows, in the order they were inserted. */
  type Table = seq<Row>

  /** The largest value an INTEGER column takes. */
  const MAX_INTEGER := 0x7FFF_FFFF_FFFF_FFFF

  /** The values bound to the INSERT statement. */
  function ToRow(streamId: string, r: DecisionRecord): Row {
    Row(streamId, r.streamSequence, r.decisionId, r.correlationId, r.tenantId, r.userId, r.resourceId,
        r.action, r.verdict, r.policyVersion, r.evaluatorVersion, r.previousRecordDigest,
        r.currentRecordDigest, r.signature, r.signingKeyId, r.algorithm,
        Dumps(SPACED, Payload(r)), r.timestamp, r.schemaVersion, r.canonicalizationVersion)
  }

  /** The record that is rebuilt from the selected columns. */
  function ToRecord(row: Row): DecisionRecord {
    DecisionRecord(row.decisionId, row.correlationId, row.timestamp, row.schemaVersion,
                   row.canonicalizationVersion, row.policyVersion, row.evaluatorVersion, row.tenantId,
                   row.userId, row.resourceId, row.action, row.verdict, row.streamSequence,
                   row.previousRecordDigest, row.currentRecordDigest, row.signature, row.signingKeyId,
                   row.algorithm)
  }

  /**
   Storing a record and reading it back gives the same record; the payload column reads
   back as the value that was signed.
   */
  lemma RowRoundTrip(streamId: string, r: DecisionRecord)
    ensures ToRecord(ToRow(streamId, r)) == r
    ensures Parse(SPACED, ToRow(streamId, r).canonicalPayloadJson) == Some(Normalize(Payload(r)))
    ensures SameJson(Payload(r), Normalize(Payload(r)))
  {
    DumpsRecovered(SPACED, Payload(r));
  }

  /** The column of that name. */
  function Column(row: Row, name: string): Option<Json> {
    match name
    case "action" => Some(Str(row.action))
    case "algorithm" => Some(Str(row.algorithm))
    case "canonicalization_version" => Some(Str(row.canonicalizationVersion))
    case "correlation_id" => Some(Str(row.correlationId))
    case "decision_id" => Some(Str(row.decisionId))
    case "evaluator_version" => Some(Str(row.evaluatorVersion))
    case "policy_version" => Some(Str(row.policyVersion))
    case "previous_record_digest" => Some(Str(row.previousRecordDigest))
    case "resource_id" => Some(Str(row.resourceId))
    case "schema_version" => Some(Str(row.schemaVersion))
    case "signing_key_id" => Some(Str(row.signingKeyId))
    case "stream_sequence" => Some(Int(row.streamSequence))
    case "tenant_id" => Some(Str(row.tenantId))
    case "timestamp" => Some(Str(row.timestamp))
    case "user_id" => Some(Str(row.userId))
    case "verdict" => Some(Str(row.verdict))
    case _ => None
  }

  /** The payload column parses to what the columns of the same names say, sixteen of them. */
  lemma PayloadMatchesColumns(streamId: string, r: DecisionRecord)
    ensures var row := ToRow(streamId, r);
            && Parse(SPACED, row.canonicalPayloadJson).Some?
            && var v := Parse(SPACED, row.canonicalPayloadJson).value;
               && v.Obj? && |v.members| == 16 && KeysInOrder(v)
               && (forall i, j :: 0 <= i < j < 16 ==> v.members[i].0 != v.members[j].0)
               && forall i :: 0 <= i < 16 ==> Column(row, v.members[i].0) == Some(v.members[i].1)
  {
    RowRoundTrip(streamId, r);
    NormalizedKeysInOrder(Payload(r));
    SortedPayload(streamId, r);
  }

  lemma SortedPayload(streamId: string, r: DecisionRecord)
    ensures var sorted := Sort(KeyLe, NormalizeMembers(Payload(r).members));
            && |sorted| == 16
            && (forall i, j :: 0 <= i < j < 16 ==> sorted[i].0 != sorted[j].0)
            && forall i :: 0 <= i < 16 ==> Column(ToRow(streamId, r), sorted[i].0) == Some(sorted[i].1)
  {
    PayloadKeysDistinct(r);
    NormalizedDistinct(Payload(r).members);
    var once := NormalizeMembers(Payload(r).members);
    var sorted := Sort(KeyLe, once);
    SortPermutes(KeyLe, once);
    assert |sorted| == |multiset(sorted)| == |multiset(once)| == 16;
    forall i | 0 <= i < 16 ensures Column(ToRow(streamId, r), sorted[i].0) == Some(sorted[i].1) {
      MultisetMember(sorted, once, sorted[i]);
      var j :| 0 <= j < |once| && once[j] == sorted[i];
      MemberMatchesColumn(streamId, r, j);
    }
    forall i, j | 0 <= i < j < 16 ensures sorted[i].0 != sorted[j].0 {
      SortedKeysDistinct(once, i, j);
    }
  }

  lemma MemberMatchesColumn(streamId: string, r: DecisionRecord, j: nat)
    requires j < 16
    ensures |Payload(r).members| == 16
    ensures var m := NormalizeMember(Payload(r).members[j]);
            Column(ToRow(streamId, r), m.0) == Some(m.1)
  {
  }

  lemma SortedKeysDistinct(members: seq<(string, Json)>, i: nat, j: nat)
    requires DistinctKeys(members) && i < j < |Sort(KeyLe, members)|
    ensures Sort(KeyLe, members)[i].0 != Sort(KeyLe, members)[j].0
  {
    var sorted := Sort(KeyLe, members);
    SortPermutes(KeyLe, members);
    if sorted[i].0 == sorted[j].0 {
      MultisetMember(sorted, members, sorted[i]);
      MultisetMember(sorted, members, sorted[j]);
      assert sorted[i] == sorted[j];
      var k :| 0 <= k < |members| && members[k] == sorted[i];
      TwiceIn(sorted, i, j);
      OnceIn(members, k);
    }
  }

  lemma TwiceIn(s: seq<(string, Json)>, i: nat, j: nat)
    requires i < j < |s| && s[i] == s[j]
    ensures multiset(s)[s[i]] >= 2
  {
    assert s == s[..i] + [s[i]] + s[i + 1..j] + [s[j]] + s[j + 1..];
  }

  lemma OnceIn(s: seq<(string, Json)>, k: nat)
    requires DistinctKeys(s) && k < |s|
    ensures multiset(s)[s[k]] == 1
  {
    assert s == s[..k] + [s[k]] + s[k + 1..];
    assert s[k] !in s[..k] && s[k] !in s[k + 1..];
  }

  // ---------------------------------------------------------------------------
  // Queries
  // ---------------------------------------------------------------------------

  function SequenceLe(a: Row, b: Row): bool {
    a.streamSequence <= b.streamSequence
  }

  /** `WHERE stream_id = ?` */
  function StreamRows(table: Table, streamId: string): Table {
    if table == [] then []
    else
      var last := table[|table| - 1];
      StreamRows(table[..|table| - 1], streamId) + if last.streamId == streamId then [last] else []
  }

  /** `WHERE stream_id = ? ORDER BY stream_sequence ASC` */
  function SelectStream(table: Table, streamId: string): Table {
    Sort(SequenceLe, StreamRows(table, streamId))
  }

  /** `... ORDER BY stream_sequence DESC LIMIT 1`, as the pair (sequence, digest). */
  function Head(table: Table, streamId: string): Option<(int, string)> {
    var rows := SelectStream(table, streamId);
    if rows == [] then None
    else Some((rows[|rows| - 1].streamSequence, rows[|rows| - 1].currentRecordDigest))
  }

  function Records(rows: Table): (rs: seq<DecisionRecord>)
    ensures |rs| == |rows|
    ensures forall i :: 0 <= i < |rows| ==> rs[i] == ToRecord(rows[i])
  {
    seq(|rows|, i requires 0 <= i < |rows| => ToRecord(rows[i]))
  }

  /** The records of a stream, oldest first. */
  function StreamRecords(table: Table, streamId: string): seq<DecisionRecord> {
    Records(SelectStream(table, streamId))
  }

  // ---------------------------------------------------------------------------
  // Appending
  // ---------------------------------------------------------------------------

  datatype AppendError =
    | Rejected(error: Error)
    | FirstSequenceNotOne
    | FirstDigestNotGenesis
    | StaleSequence(expected: int)
    | DigestLinkBreak
    | ConstraintFailure
    | IntegerOverflow

  /** What `append` compares the record with before it inserts. */
  function CheckHead(head: Option<(int, string)>, r: DecisionRecord): Result<(), AppendError> {
    match head
    case None =>
      if r.streamSequence != 1 then Err(FirstSequenceNotOne)
      else if r.previousRecordDigest != GENESIS then Err(FirstDigestNotGenesis)
      else Ok(())
    case Some((sequence, digest)) =>
      if r.streamSequence != sequence + 1 then Err(StaleSequence(sequence + 1))
      else if r.previousRecordDigest != digest then Err(DigestLinkBreak)
      else Ok(())
  }

  /** PRIMARY KEY (stream_id, stream_sequence) and UNIQUE decision_id. */
  predicate ConstraintsAllow(table: Table, row: Row) {
    forall i :: 0 <= i < |table| ==>
      && !(table[i].streamId == row.streamId && table[i].streamSequence == row.streamSequence)
      && table[i].decisionId != row.decisionId
  }

  /** The INSERT statement. */
  function InsertRow(table: Table, row: Row): Result<Table, AppendError> {
    if row.streamSequence > MAX_INTEGER || row.streamSequence < -MAX_INTEGER - 1 then Err(IntegerOverflow)
    else if !ConstraintsAllow(table, row) then Err(ConstraintFailure)
    else Ok(table + [row])
  }

  /** `append` as a whole: the table afterwards, or the error that left it as it was. */
  function AppendResult(c: Crypto, table: Table, streamId: string, r: DecisionRecord, key: Key)
    : Result<Table, AppendError>
  {
    match VerifySignature(c, r, key)
    case Err(e) => Err(Rejected(e))
    case Ok(_) =>
      match CheckHead(Head(table, streamId), r)
      case Err(e) => Err(e)
      case Ok(_) => InsertRow(table, ToRow(streamId, r))
  }

  // ---------------------------------------------------------------------------
  // The table invariant
  // ---------------------------------------------------------------------------

  ghost predicate DistinctDecisions(table: Table) {
    forall i, j :: 0 <= i < j < |table| ==> table[i].decisionId != table[j].decisionId
  }

  /** Every stream is a linked chain, and no decision is recorded twice anywhere. */
  ghost predicate TableInv(table: Table) {
    && DistinctDecisions(table)
    && forall streamId :: Linked(Records(StreamRows(table, streamId)))
  }

  /** The rows of a linked stream stand in sequence order already. */
  lemma LinkedInOrder(table: Table, streamId: string)
    requires Linked(Records(StreamRows(table, streamId)))
    ensures SelectStream(table, streamId) == StreamRows(table, streamId)
    ensures forall i :: 0 <= i < |StreamRows(table, streamId)| ==>
              StreamRows(table, streamId)[i].streamSequence == i + 1
  {
    var rows := StreamRows(table, streamId);
    forall i | 0 <= i < |rows| ensures rows[i].streamSequence == i + 1 {
      assert LinkedAt(Records(rows), i);
    }
    SortFixesSorted(SequenceLe, rows);
  }

  lemma {:induction false} StreamRowsFrom(table: Table, streamId: string, i: nat)
    requires i < |StreamRows(table, streamId)|
    ensures StreamRows(table, streamId)[i] in table
    ensures StreamRows(table, streamId)[i].streamId == streamId
  {
    var front := table[..|table| - 1];
    if i < |StreamRows(front, streamId)| {
      StreamRowsFrom(front, streamId, i);
    }
  }

  lemma {:induction false} StreamRowsHold(table: Table, k: nat)
    requires k < |table|
    ensures table[k] in StreamRows(table, table[k].streamId)
  {
    if k < |table| - 1 {
      StreamRowsHold(table[..|table| - 1], k);
    }
  }

  lemma StreamRowsAppend(table: Table, row: Row, streamId: string)
    ensures StreamRows(table + [row], streamId)
         == StreamRows(table, streamId) + if row.streamId == streamId then [row] else []
  {
    assert (table + [row])[..|table|] == table;
  }

  /** In a linked stream of `n` records the head is record `n`. */
  lemma HeadOfLinked(table: Table, streamId: string)
    requires Linked(Records(StreamRows(table, streamId)))
    ensures var n := |StreamRows(table, streamId)|;
            Head(table, streamId) ==
              if n == 0 then None
              else Some((n, StreamRecords(table, streamId)[n - 1].currentRecordDigest))
  {
    LinkedInOrder(table, streamId);
  }

  lemma CheckHeadIsLink(table: Table, streamId: string, r: DecisionRecord)
    requires Linked(Records(StreamRows(table, streamId)))
    ensures var records := StreamRecords(table, streamId);
            CheckHead(Head(table, streamId), r).Ok? <==>
              && r.streamSequence == |records| + 1
              && r.previousRecordDigest == ExpectedPrevious(records, |records|)
  {
    HeadOfLinked(table, streamId);
  }

  ghost predicate DecisionKnown(table: Table, id: string) {
    exists i :: 0 <= i < |table| && table[i].decisionId == id
  }

  /** With the next sequence number of a linked stream, the primary key is never in the way. */
  lemma NextKeyIsFree(table: Table, streamId: string, r: DecisionRecord)
    requires TableInv(table)
    requires r.streamSequence == |StreamRows(table, streamId)| + 1
    ensures ConstraintsAllow(table, ToRow(streamId, r)) <==> !DecisionKnown(table, r.decisionId)
  {
    forall i | 0 <= i < |table| && table[i].streamId == streamId
      ensures table[i].streamSequence != r.streamSequence
    {
      SequenceWithinStream(table, i);
    }
  }

  lemma SequenceWithinStream(table: Table, k: nat)
    requires TableInv(table) && k < |table|
    ensures 1 <= table[k].streamSequence <= |StreamRows(table, table[k].streamId)|
  {
    var rows := StreamRows(table, table[k].streamId);
    StreamRowsHold(table, k);
    LinkedInOrder(table, table[k].streamId);
    var i :| 0 <= i < |rows| && rows[i] == table[k];
  }

  lemma UnknownIsNew(table: Table, streamId: string, id: string)
    requires TableInv(table) && !DecisionKnown(table, id)
    ensures NewDecision(StreamRecords(table, streamId), |StreamRecords(table, streamId)|, id)
  {
    LinkedInOrder(table, streamId);
    var rows := StreamRows(table, streamId);
    forall i | 0 <= i < |rows| ensures rows[i].decisionId != id {
      StreamRowsFrom(table, streamId, i);
      var k :| 0 <= k < |table| && table[k] == rows[i];
    }
  }

  /**
   Looking at the head is enough: `append` succeeds exactly when full validation accepts the
   stream with the record added, the decision is new in the whole table, and the sequence
   number fits the column.
   */
  lemma AppendRefinesValidation(c: Crypto, table: Table, streamId: string, r: DecisionRecord, key: Key)
    requires TableInv(table) && AllVerified(c, StreamRecords(table, streamId), key)
    ensures AppendResult(c, table, streamId, r, key).Ok? <==>
              && ValidChain(c, StreamRecords(table, streamId) + [r], key)
              && !DecisionKnown(table, r.decisionId)
              && r.streamSequence <= 0x7FFF_FFFF_FFFF_FFFF
  {
    var records := StreamRecords(table, streamId);
    LinkedInOrder(table, streamId);
    ChainExtension(records, r);
    VerifiedExtension(c, records, r, key);
    HeadAndConstraints(table, streamId, r);
  }

  /** The two checks that look at the table, in terms of the stream as a chain. */
  lemma HeadAndConstraints(table: Table, streamId: string, r: DecisionRecord)
    requires TableInv(table)
    ensures var records := StreamRecords(table, streamId);
            CheckHead(Head(table, streamId), r).Ok? && ConstraintsAllow(table, ToRow(streamId, r)) <==>
              && r.streamSequence == |records| + 1
              && r.previousRecordDigest == ExpectedPrevious(records, |records|)
              && NewDecision(records, |records|, r.decisionId)
              && !DecisionKnown(table, r.decisionId)
  {
    CheckHeadIsLink(table, streamId, r);
    LinkedInOrder(table, streamId);
    if CheckHead(Head(table, streamId), r).Ok? {
      NextKeyIsFree(table, streamId, r);
    }
    if !DecisionKnown(table, r.decisionId) {
      UnknownIsNew(table, streamId, r.decisionId);
    }
  }

  lemma VerifiedExtension(c: Crypto, records: seq<DecisionRecord>, r: DecisionRecord, key: Key)
    requires AllVerified(c, records, key)
    ensures AllVerified(c, records + [r], key) <==> Verified(c, r, key)
  {
    if AllVerified(c, records + [r], key) {
      assert Verified(c, (records + [r])[|records|], key);
    }
  }

  lemma AppendSucceeds(c: Crypto, table: Table, streamId: string, r: DecisionRecord, key: Key)
    requires TableInv(table) && AppendResult(c, table, streamId, r, key).Ok?
    ensures Verified(c, r, key)
    ensures AppendResult(c, table, streamId, r, key) == Ok(table + [ToRow(streamId, r)])
    ensures CheckHead(Head(table, streamId), r).Ok?
    ensures ConstraintsAllow(table, ToRow(streamId, r))
  {
  }

  lemma OwnStreamAfter(table: Table, streamId: string, r: DecisionRecord)
    requires TableInv(table) && CheckHead(Head(table, streamId), r).Ok?
    requires ConstraintsAllow(table, ToRow(streamId, r))
    ensures var more := Records(StreamRows(table + [ToRow(streamId, r)], streamId));
            more == Records(StreamRows(table, streamId)) + [r] && Linked(more)
  {
    var row := ToRow(streamId, r);
    var rows := StreamRows(table, streamId);
    StreamRowsAppend(table, row, streamId);
    RowRoundTrip(streamId, r);
    LinkedInOrder(table, streamId);
    CheckHeadIsLink(table, streamId, r);
    NextKeyIsFree(table, streamId, r);
    UnknownIsNew(table, streamId, r.decisionId);
    ChainExtension(Records(rows), r);
    assert Records(rows + [row]) == Records(rows) + [r];
  }

  /** What a successful append does to every stream of the table. */
  lemma AppendEffect(c: Crypto, table: Table, streamId: string, r: DecisionRecord, key: Key, other: string)
    requires TableInv(table) && AppendResult(c, table, streamId, r, key).Ok?
    ensures Verified(c, r, key)
    ensures var after := AppendResult(c, table, streamId, r, key).value;
            && Linked(Records(StreamRows(after, other)))
            && StreamRecords(after, other)
               == StreamRecords(table, other) + if other == streamId then [r] else []
  {
    AppendSucceeds(c, table, streamId, r, key);
    var row := ToRow(streamId, r);
    LinkedInOrder(table, other);
    if other == streamId {
      OwnStreamAfter(table, streamId, r);
    } else {
      StreamRowsAppend(table, row, other);
      assert StreamRows(table + [row], other) == StreamRows(table, other);
    }
    LinkedInOrder(table + [row], other);
  }

  /** Every append keeps the table invariant. */
  lemma AppendKeepsInv(c: Crypto, table: Table, streamId: string, r: DecisionRecord, key: Key)
    requires TableInv(table) && AppendResult(c, table, streamId, r, key).Ok?
    ensures TableInv(AppendResult(c, table, streamId, r, key).value)
  {
    var after := AppendResult(c, table, streamId, r, key).value;
    forall other ensures Linked(Records(StreamRows(after, other))) {
      AppendEffect(c, table, streamId, r, key, other);
    }
  }

  /** What a failed append says about the record and the table. */
  ghost predicate ExplainsAppend(
    c: Crypto, table: Table, streamId: string, r: DecisionRecord, key: Key, e: AppendError)
  {
    var records := StreamRecords(table, streamId);
    match e
    case Rejected(reason) => Explains(c, r, key, reason)
    case FirstSequenceNotOne => records == [] && r.streamSequence != 1
    case FirstDigestNotGenesis => records == [] && r.previousRecordDigest != "GENESIS"
    case StaleSequence(expected) => records != [] && expected == |records| + 1 && r.streamSequence != expected
    case DigestLinkBreak =>
      records != [] && r.previousRecordDigest != records[|records| - 1].currentRecordDigest
    case ConstraintFailure => DecisionKnown(table, r.decisionId)
    case IntegerOverflow => r.streamSequence > 0x7FFF_FFFF_FFFF_FFFF
  }

  /** The reason given for refusing an append is true. */
  lemma AppendRefusalIsExplained(c: Crypto, table: Table, streamId: string, r: DecisionRecord, key: Key)
    requires TableInv(table) && AppendResult(c, table, streamId, r, key).Err?
    ensures ExplainsAppend(c, table, streamId, r, key, AppendResult(c, table, streamId, r, key).error)
  {
    HeadOfLinked(table, streamId);
    LinkedInOrder(table, streamId);
    if !Verified(c, r, key) {
      RefusalIsExplained(c, r, key);
    } else if CheckHead(Head(table, streamId), r).Ok? {
      CheckHeadIsLink(table, streamId, r);
      NextKeyIsFree(table, streamId, r);
    }
  }

  /** A record that is not signed with the key it is presented under is neither stored nor part of any valid chain. */
  lemma UnsignedIsRefused(c: Crypto, table: Table, streamId: string, r: DecisionRecord, key: Key)
    requires !SignedWith(c, r, key)
    ensures AppendResult(c, table, streamId, r, key).Err?
    ensures forall records: seq<DecisionRecord> :: r in records ==> !ValidChain(c, records, key)
  {
    VerifiedIffSigned(c, r, key);
    forall records: seq<DecisionRecord> | r in records ensures !ValidChain(c, records, key) {
      var i :| 0 <= i < |records| && records[i] == r;
      assert !Verified(c, records[i], key);
    }
  }

  lemma EmptyTableInv()
    ensures TableInv([])
  {
  }

  // ---------------------------------------------------------------------------
  // Runs
  // ---------------------------------------------------------------------------

  /** One call of `append`. */
  datatype Attempt = Attempt(streamId: string, record: DecisionRecord, key: Key)

  /** The table after a sequence of calls, failed ones included. */
  function Run(c: Crypto, attempts: seq<Attempt>): Table {
    if attempts == [] then []
    else
      var table := Run(c, attempts[..|attempts| - 1]);
      var a := attempts[|attempts| - 1];
      match AppendResult(c, table, a.streamId, a.record, a.key)
      case Ok(after) => after
      case Err(_) => table
  }

  /** Whatever is attempted, the table invariant holds and rows are only ever added at the end. */
  lemma {:induction false} RunKeepsInv(c: Crypto, attempts: seq<Attempt>, n: nat)
    requires n <= |attempts|
    ensures TableInv(Run(c, attempts))
    ensures Run(c, attempts[..n]) <= Run(c, attempts)
  {
    if attempts == [] {
      EmptyTableInv();
    } else {
      var front, a := attempts[..|attempts| - 1], attempts[|attempts| - 1];
      var table := Run(c, front);
      RunKeepsInv(c, front, if n < |attempts| then n else |front|);
      if AppendResult(c, table, a.streamId, a.record, a.key).Ok? {
        AppendKeepsInv(c, table, a.streamId, a.record, a.key);
      }
      if n < |attempts| {
        assert front[..n] == attempts[..n];
      } else {
        assert attempts[..n] == attempts;
      }
    }
  }

  /**
   After any run, a stream that was only ever written to under one key, and is not empty,
   passes full validation under that key.
   */
  lemma {:induction false} RunVerifies(c: Crypto, attempts: seq<Attempt>, streamId: string, key: Key)
    requires forall i :: 0 <= i < |attempts| && attempts[i].streamId == streamId ==> attempts[i].key == key
    ensures AllVerified(c, StreamRecords(Run(c, attempts), streamId), key)
    ensures StreamRecords(Run(c, attempts), streamId) != [] ==>
              ValidChain(c, StreamRecords(Run(c, attempts), streamId), key)
  {
    RunKeepsInv(c, attempts, 0);
    LinkedInOrder(Run(c, attempts), streamId);
    if attempts != [] {
      var front, a := attempts[..|attempts| - 1], attempts[|attempts| - 1];
      var table := Run(c, front);
      RunVerifies(c, front, streamId, key);
      RunKeepsInv(c, front, 0);
      if AppendResult(c, table, a.streamId, a.record, a.key).Ok? {
        AppendEffect(c, table, a.streamId, a.record, a.key, streamId);
        VerifiedExtension(c, StreamRecords(table, streamId), a.record, key);
      }
    }
  }

  /** Whatever was attempted under one key, every record the stream holds is signed with that key. */
  lemma StoredIsSigned(c: Crypto, attempts: seq<Attempt>, streamId: string, key: Key, i: nat)
    requires forall k :: 0 <= k < |attempts| && attempts[k].streamId == streamId ==> attempts[k].key == key
    requires i < |StreamRecords(Run(c, attempts), streamId)|
    ensures var r := StreamRecords(Run(c, attempts), streamId)[i];
            SoundDigest(c, r) && SignedWith(c, r, key)
  {
    RunVerifies(c, attempts, streamId, key);
    ValidChainIsSigned(c, StreamRecords(Run(c, attempts), streamId), key, i);
  }

  // ---------------------------------------------------------------------------
  // The store
  // ---------------------------------------------------------------------------

  datatype VerifyError = NoRecords | Invalid(error: ChainError)

  /** The store, one connection at a time. */
  class Store {
    /** What other connections see. */
    var committed: Table
    /** What the open transaction sees. */
    var working: Table

    ghost predicate Valid()
      reads this
    {
      TableInv(committed) && working == committed
    }

    constructor ()
      ensures Valid() && committed == []
    {
      committed, working := [], [];
      new;
      EmptyTableInv();
    }

    /** Succeeds and adds the row, or reports the error and leaves the table as it was. */
    method Append(c: Crypto, streamId: string, record: DecisionRecord, key: Key)
      returns (r: Result<bool, AppendError>)
      requires Valid()
      modifies this
      ensures Valid()
      ensures match AppendResult(c, old(committed), streamId, record, key)
              case Ok(after) => r == Ok(true) && committed == after
              case Err(e) => r == Err(e) && committed == old(committed)
      ensures r.Err? ==> ExplainsAppend(c, old(committed), streamId, record, key, r.error)
      ensures r.Ok? ==> SignedWith(c, record, key)
    {
      VerifiedIffSigned(c, record, key);
      if AppendResult(c, committed, streamId, record, key).Err? {
        AppendRefusalIsExplained(c, committed, streamId, record, key);
      }
      match VerifySignature(c, record, key)
      case Err(e) => return Err(Rejected(e));
      case Ok(_) =>
      working := committed;
      var head := Head(working, streamId);
      match CheckHead(head, record)
      case Err(e) =>
        working := committed;
        return Err(e);
      case Ok(_) =>
      match InsertRow(working, ToRow(streamId, record))
      case Err(e) =>
        working := committed;
        return Err(e);
      case Ok(after) =>
        working := after;
        AppendKeepsInv(c, committed, streamId, record, key);
        committed := working;
        return Ok(true);
    }

    /** In a sound table the greatest sequence number is the length of the stream. */
    method GetStreamHead(streamId: string) returns (head: Option<(int, string)>)
      requires Valid()
      ensures head == Head(committed, streamId)
      ensures head.None? <==> StreamRecords(committed, streamId) == []
      ensures head.Some? ==>
                var records := StreamRecords(committed, streamId);
                head.value == (|records|, records[|records| - 1].currentRecordDigest)
    {
      HeadOfLinked(committed, streamId);
      LinkedInOrder(committed, streamId);
      head := Head(committed, streamId);
    }

    /** Rebuilds the records of a stream row by row. */
    method GetStreamRecords(streamId: string) returns (records: seq<DecisionRecord>)
      requires Valid()
      ensures records == StreamRecords(committed, streamId) && Linked(records)
    {
      LinkedInOrder(committed, streamId);
      var rows := SelectStream(committed, streamId);
      records := [];
      var i := 0;
      while i < |rows|
        invariant 0 <= i <= |rows|
        invariant records == Records(rows)[..i]
      {
        records := records + [ToRecord(rows[i])];
        i := i + 1;
      }
      assert Records(rows)[..|rows|] == Records(rows);
    }

    method VerifyStoredStream(c: Crypto, streamId: string, key: Key) returns (r: Result<(), VerifyError>)
      requires Valid()
      ensures r == Err(NoRecords) <==> StreamRecords(committed, streamId) == []
      ensures r.Ok? <==> ValidChain(c, StreamRecords(committed, streamId), key)
      ensures r.Err? && r.error.Invalid? ==>
                ExplainsChain(c, StreamRecords(committed, streamId), key, r.error.error)
    {
      var records := GetStreamRecords(streamId);
      if records == [] {
        return Err(NoRecords);
      }
      var v := ValidateChain(c, records, key);
      match v
      case Ok(_) => return Ok(());
      case Err(e) => return Err(Invalid(e));
    }
  }
}
