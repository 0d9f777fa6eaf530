/**
 Any number of connections appending at once. Each verifies its record, opens a transaction,
 reads the stream head, inserts and commits, and may be rolled back at any point; between its
 own steps the others move, so the head it has read may be out of date by the time it inserts.
 The model is more permissive than SQLite, which would also lock readers out: safety rests on
 the primary key alone. Every interleaving is a sequential run of the committed appends.
 */
module ConcurrentAppend {
  import opened Wrappers
  import opened DecisionProvenance
  import opened ProvenanceStore

  datatype Session =
    | Idle
    | Opened(attempt: Attempt)
    | HeadRead(attempt: Attempt, head: Option<(int, string)>)
    | Inserted(attempt: Attempt)

  /** Committed rows, the state of each connection, and which one holds the write lock. */
  datatype Db = Db(table: Table, sessions: seq<Session>, writer: Option<nat>)

  datatype Step =
    | Open(s: nat, attempt: Attempt)
    | ReadHead(s: nat)
    | Insert(s: nat)
    | Commit(s: nat)
    | Rollback(s: nat)

  function Start(connections: nat): Db {
    Db([], seq(connections, _ => Idle), None)
  }

  /** When a connection can take a step. A failing check or constraint leaves it only `Rollback`. */
  predicate Enabled(c: Crypto, db: Db, step: Step) {
    && step.s < |db.sessions|
    && var session := db.sessions[step.s];
       match step
       case Open(_, a) => session.Idle? && Verified(c, a.record, a.key)
       case ReadHead(_) => session.Opened?
       case Insert(_) =>
         && session.HeadRead? && db.writer.None?
         && CheckHead(session.head, session.attempt.record).Ok?
         && InsertRow(db.table, ToRow(session.attempt.streamId, session.attempt.record)).Ok?
       case Commit(_) => session.Inserted? && db.writer == Some(step.s)
       case Rollback(_) => !session.Idle?
  }

  function Apply(c: Crypto, db: Db, step: Step): Db
    requires Enabled(c, db, step)
  {
    var session := db.sessions[step.s];
    match step
    case Open(s, a) => db.(sessions := db.sessions[s := Opened(a)])
    case ReadHead(s) =>
      db.(sessions := db.sessions[s := HeadRead(session.attempt, Head(db.table, session.attempt.streamId))])
    case Insert(s) => db.(sessions := db.sessions[s := Inserted(session.attempt)], writer := Some(s))
    case Commit(s) =>
      Db(db.table + [ToRow(session.attempt.streamId, session.attempt.record)],
         db.sessions[s := Idle], None)
    case Rollback(s) =>
      Db(db.table, db.sessions[s := Idle], if db.writer == Some(s) then None else db.writer)
  }

  // ---------------------------------------------------------------------------
  // Stale heads
  // ---------------------------------------------------------------------------

  /** The stream head at some earlier time: nothing, or one of the records it has now. */
  ghost predicate PastHead(table: Table, streamId: string, head: Option<(int, string)>) {
    match head
    case None => true
    case Some((sequence, digest)) =>
      var records := StreamRecords(table, streamId);
      1 <= sequence <= |records| && records[sequence - 1].currentRecordDigest == digest
  }

  /**
   A record that follows a head the stream has since moved past cannot be inserted: the row
   with its sequence number is there already.
   */
  lemma StaleHeadCollides(table: Table, streamId: string, head: Option<(int, string)>, r: DecisionRecord)
    requires TableInv(table) && PastHead(table, streamId, head)
    requires head != Head(table, streamId)
    requires CheckHead(head, r).Ok?
    ensures !ConstraintsAllow(table, ToRow(streamId, r))
  {
    var rows := StreamRows(table, streamId);
    LinkedInOrder(table, streamId);
    HeadOfLinked(table, streamId);
    var taken := r.streamSequence - 1;
    assert 0 <= taken < |rows|;
    StreamRowsFrom(table, streamId, taken);
    var k :| 0 <= k < |table| && table[k] == rows[taken];
    assert table[k].streamSequence == r.streamSequence;
  }

  /** A head stays a past head, and a stale one stays stale, whatever is appended. */
  lemma AppendKeepsPastHead(
    c: Crypto, table: Table, a: Attempt, streamId: string, head: Option<(int, string)>)
    requires TableInv(table) && AppendResult(c, table, a.streamId, a.record, a.key).Ok?
    requires PastHead(table, streamId, head)
    ensures var after := AppendResult(c, table, a.streamId, a.record, a.key).value;
            && PastHead(after, streamId, head)
            && (head != Head(table, streamId) ==> head != Head(after, streamId))
  {
    var after := AppendResult(c, table, a.streamId, a.record, a.key).value;
    AppendEffect(c, table, a.streamId, a.record, a.key, streamId);
    HeadOfLinked(table, streamId);
    HeadOfLinked(after, streamId);
    LinkedInOrder(table, streamId);
    LinkedInOrder(after, streamId);
  }

  // ---------------------------------------------------------------------------
  // The invariant
  // ---------------------------------------------------------------------------

  /** What is true of a connection between its own steps, however the others move. */
  ghost predicate SessionInv(c: Crypto, db: Db, s: nat)
    requires s < |db.sessions|
  {
    && (db.writer == Some(s) <==> db.sessions[s].Inserted?)
    && match db.sessions[s]
       case Idle => true
       case Opened(a) => Verified(c, a.record, a.key)
       case HeadRead(a, head) => Verified(c, a.record, a.key) && PastHead(db.table, a.streamId, head)
       case Inserted(a) => AppendResult(c, db.table, a.streamId, a.record, a.key).Ok?
  }

  ghost predicate Inv(c: Crypto, db: Db) {
    && TableInv(db.table)
    && forall s :: 0 <= s < |db.sessions| ==> SessionInv(c, db, s)
  }

  lemma HeadIsPastHead(table: Table, streamId: string)
    requires TableInv(table)
    ensures PastHead(table, streamId, Head(table, streamId))
  {
    HeadOfLinked(table, streamId);
    LinkedInOrder(table, streamId);
  }

  /** Only an up-to-date head gets past the INSERT. */
  lemma InsertSeesCurrentHead(c: Crypto, db: Db, s: nat)
    requires Inv(c, db) && Enabled(c, db, Insert(s))
    ensures var a := db.sessions[s].attempt;
            && db.sessions[s].head == Head(db.table, a.streamId)
            && AppendResult(c, db.table, a.streamId, a.record, a.key).Ok?
  {
    assert SessionInv(c, db, s);
    var a := db.sessions[s].attempt;
    if db.sessions[s].head != Head(db.table, a.streamId) {
      StaleHeadCollides(db.table, a.streamId, db.sessions[s].head, a.record);
    }
  }

  /**
   A connection that has read a head can insert exactly when nobody else is about to commit,
   the head is still current, and its record carries the stream on with a new decision.
   */
  lemma InsertIffCurrent(c: Crypto, db: Db, s: nat)
    requires Inv(c, db) && s < |db.sessions| && db.sessions[s].HeadRead?
    ensures var a := db.sessions[s].attempt;
            var records := StreamRecords(db.table, a.streamId);
            Enabled(c, db, Insert(s)) <==>
              && db.writer.None? && db.sessions[s].head == Head(db.table, a.streamId)
              && Linked(records + [a.record])
              && !DecisionKnown(db.table, a.record.decisionId)
              && a.record.streamSequence <= 0x7FFF_FFFF_FFFF_FFFF
  {
    assert SessionInv(c, db, s);
    var a := db.sessions[s].attempt;
    var records := StreamRecords(db.table, a.streamId);
    LinkedInOrder(db.table, a.streamId);
    ChainExtension(records, a.record);
    HeadAndConstraints(db.table, a.streamId, a.record);
    if Enabled(c, db, Insert(s)) {
      InsertSeesCurrentHead(c, db, s);
    }
  }

  /** A commit is a sequential append to the table as it stands. */
  lemma CommitIsAppend(c: Crypto, db: Db, s: nat)
    requires Inv(c, db) && Enabled(c, db, Commit(s))
    ensures var a := db.sessions[s].attempt;
            AppendResult(c, db.table, a.streamId, a.record, a.key) == Ok(Apply(c, db, Commit(s)).table)
  {
    assert SessionInv(c, db, s);
  }

  lemma CommitKeepsSessions(c: Crypto, db: Db, s: nat, t: nat)
    requires Inv(c, db) && Enabled(c, db, Commit(s)) && t < |db.sessions|
    ensures SessionInv(c, Apply(c, db, Commit(s)), t)
  {
    assert SessionInv(c, db, s) && SessionInv(c, db, t);
    CommitIsAppend(c, db, s);
    if t != s && db.sessions[t].HeadRead? {
      AppendKeepsPastHead(c, db.table, db.sessions[s].attempt,
                          db.sessions[t].attempt.streamId, db.sessions[t].head);
    }
  }

  lemma LocalStepKeepsSessions(c: Crypto, db: Db, step: Step, t: nat)
    requires Inv(c, db) && Enabled(c, db, step) && !step.Commit? && t < |db.sessions|
    ensures SessionInv(c, Apply(c, db, step), t)
  {
    assert SessionInv(c, db, step.s) && SessionInv(c, db, t);
    if step.ReadHead? {
      HeadIsPastHead(db.table, db.sessions[step.s].attempt.streamId);
    } else if step.Insert? {
      InsertSeesCurrentHead(c, db, step.s);
    }
  }

  /** Every step of every connection keeps the invariant. */
  lemma StepKeepsInv(c: Crypto, db: Db, step: Step)
    requires Inv(c, db) && Enabled(c, db, step)
    ensures Inv(c, Apply(c, db, step))
  {
    forall t | 0 <= t < |db.sessions| ensures SessionInv(c, Apply(c, db, step), t) {
      if step.Commit? {
        CommitKeepsSessions(c, db, step.s, t);
      } else {
        LocalStepKeepsSessions(c, db, step, t);
      }
    }
    if step.Commit? {
      CommitIsAppend(c, db, step.s);
      var a := db.sessions[step.s].attempt;
      AppendKeepsInv(c, db.table, a.streamId, a.record, a.key);
    }
  }

  // ---------------------------------------------------------------------------
  // Whole runs
  // ---------------------------------------------------------------------------

  /** Each step was possible when it was taken. */
  predicate Legal(c: Crypto, connections: nat, steps: seq<Step>)
    decreases |steps|, 1
  {
    steps == [] ||
    (var front := steps[..|steps| - 1];
     Legal(c, connections, front) && Enabled(c, After(c, connections, front), steps[|steps| - 1]))
  }

  function After(c: Crypto, connections: nat, steps: seq<Step>): Db
    requires Legal(c, connections, steps)
    decreases |steps|, 2
  {
    if steps == [] then Start(connections)
    else Apply(c, After(c, connections, steps[..|steps| - 1]), steps[|steps| - 1])
  }

  /** The appends that were committed, in the order of their commits. */
  function Committed(c: Crypto, connections: nat, steps: seq<Step>): seq<Attempt>
    requires Legal(c, connections, steps)
    decreases |steps|
  {
    if steps == [] then []
    else
      var front, last := steps[..|steps| - 1], steps[|steps| - 1];
      Committed(c, connections, front)
      + if last.Commit? then [After(c, connections, front).sessions[last.s].attempt] else []
  }

  /**
   In every interleaving the invariant holds, and the table is the one a single connection
   would have made by the committed appends alone, none of which it would have refused.
   */
  lemma {:induction false} Serializable(c: Crypto, connections: nat, steps: seq<Step>)
    requires Legal(c, connections, steps)
    ensures Inv(c, After(c, connections, steps))
    ensures After(c, connections, steps).table == Run(c, Committed(c, connections, steps))
    ensures |After(c, connections, steps).table| == |Committed(c, connections, steps)|
  {
    if steps == [] {
      EmptyTableInv();
    } else {
      var front, last := steps[..|steps| - 1], steps[|steps| - 1];
      Serializable(c, connections, front);
      StepKeepsInv(c, After(c, connections, front), last);
      if last.Commit? {
        CommitIsAppend(c, After(c, connections, front), last.s);
        var done := Committed(c, connections, steps);
        assert done[..|done| - 1] == Committed(c, connections, front);
      } else {
        assert Committed(c, connections, steps) == Committed(c, connections, front);
      }
    }
  }

  /** After any interleaving, a stream whose commits all used one key passes full validation. */
  lemma InterleavedStreamVerifies(c: Crypto, connections: nat, steps: seq<Step>, streamId: string, key: Key)
    requires Legal(c, connections, steps)
    requires var done := Committed(c, connections, steps);
             forall i :: 0 <= i < |done| && done[i].streamId == streamId ==> done[i].key == key
    ensures var records := StreamRecords(After(c, connections, steps).table, streamId);
            records != [] ==> ValidChain(c, records, key)
  {
    Serializable(c, connections, steps);
    RunVerifies(c, Committed(c, connections, steps), streamId, key);
  }

  /** The connection has read a head that is no longer the head of its stream. */
  predicate Stale(db: Db, s: nat) {
    && s < |db.sessions| && db.sessions[s].HeadRead?
    && db.sessions[s].head != Head(db.table, db.sessions[s].attempt.streamId)
  }

  /** What others do leaves a stale connection stale. */
  lemma StaysStale(c: Crypto, db: Db, s: nat, step: Step)
    requires Inv(c, db) && Stale(db, s) && Enabled(c, db, step) && step.s != s
    ensures Stale(Apply(c, db, step), s) && Apply(c, db, step).sessions[s] == db.sessions[s]
  {
    assert SessionInv(c, db, s);
    if step.Commit? {
      CommitIsAppend(c, db, step.s);
      AppendKeepsPastHead(c, db.table, db.sessions[step.s].attempt,
                          db.sessions[s].attempt.streamId, db.sessions[s].head);
    }
  }

  /** The steps can be taken one after the other from here. */
  predicate Continues(c: Crypto, db: Db, steps: seq<Step>)
    decreases |steps|
  {
    steps == [] || (Enabled(c, db, steps[0]) && Continues(c, Apply(c, db, steps[0]), steps[1..]))
  }

  function Continued(c: Crypto, db: Db, steps: seq<Step>): Db
    requires Continues(c, db, steps)
    decreases |steps|
  {
    if steps == [] then db else Continued(c, Apply(c, db, steps[0]), steps[1..])
  }

  function WholeAppend(s: nat, a: Attempt): seq<Step> {
    [Open(s, a), ReadHead(s), Insert(s), Commit(s)]
  }

  /** An open transaction can always look at the head, whoever else is at work, and sees the committed one. */
  lemma HeadIsReadable(c: Crypto, db: Db, s: nat)
    requires s < |db.sessions| && db.sessions[s].Opened?
    ensures Enabled(c, db, ReadHead(s))
    ensures var a := db.sessions[s].attempt;
            Apply(c, db, ReadHead(s)) == db.(sessions := db.sessions[s := HeadRead(a, Head(db.table, a.streamId))])
  {
  }

  /** It can always be rolled back, which undoes all it has done: rows and lock are as without it. */
  lemma RollbackUndoes(c: Crypto, db: Db, s: nat)
    requires Inv(c, db) && s < |db.sessions| && !db.sessions[s].Idle?
    ensures Enabled(c, db, Rollback(s))
    ensures var next := Apply(c, db, Rollback(s));
            && next.table == db.table && next.sessions == db.sessions[s := Idle]
            && next.writer == if db.sessions[s].Inserted? then None else db.writer
  {
    assert SessionInv(c, db, s);
  }

  /** Undisturbed, a connection can append exactly what a sequential append accepts, with the same effect. */
  lemma UndisturbedAppend(c: Crypto, db: Db, s: nat, a: Attempt)
    requires Inv(c, db) && s < |db.sessions| && db.sessions[s].Idle? && db.writer.None?
    ensures Continues(c, db, WholeAppend(s, a)) <==> AppendResult(c, db.table, a.streamId, a.record, a.key).Ok?
    ensures Continues(c, db, WholeAppend(s, a)) ==>
              Continued(c, db, WholeAppend(s, a))
              == db.(table := AppendResult(c, db.table, a.streamId, a.record, a.key).value)
  {
    var steps := WholeAppend(s, a);
    var last, middle, tail := [Commit(s)], [Insert(s), Commit(s)], [ReadHead(s), Insert(s), Commit(s)];
    assert steps[1..] == tail && tail[1..] == middle && middle[1..] == last && last[1..] == [];
    if Verified(c, a.record, a.key) {
      var begun := Apply(c, db, Open(s, a));
      var read := Apply(c, begun, ReadHead(s));
      if Enabled(c, read, Insert(s)) {
        var inserted := Apply(c, read, Insert(s));
        var done := Apply(c, inserted, Commit(s));
        assert done.sessions == db.sessions;
        assert Continues(c, done, []) && Continued(c, done, []) == done;
        assert Continues(c, inserted, last) && Continued(c, inserted, last) == done;
        assert Continues(c, read, middle) && Continued(c, read, middle) == done;
        assert Continues(c, begun, tail) && Continued(c, begun, tail) == done;
      } else {
        assert !Continues(c, read, middle);
        assert !Continues(c, begun, tail);
      }
    }
  }

  /**
   Of the connections that have read one head, only the first to commit gets its record in:
   whatever the others do, a connection with a stale head keeps it and cannot insert.
   */
  lemma {:induction false} StaleSessionNeverInserts(c: Crypto, db: Db, s: nat, steps: seq<Step>)
    requires Inv(c, db) && Stale(db, s) && Continues(c, db, steps)
    requires forall i :: 0 <= i < |steps| ==> steps[i].s != s
    ensures var later := Continued(c, db, steps);
            && Inv(c, later) && Stale(later, s)
            && later.sessions[s] == db.sessions[s] && !Enabled(c, later, Insert(s))
    decreases |steps|
  {
    if steps == [] {
      if Enabled(c, db, Insert(s)) {
        InsertSeesCurrentHead(c, db, s);
      }
    } else {
      StepKeepsInv(c, db, steps[0]);
      StaysStale(c, db, s, steps[0]);
      StaleSessionNeverInserts(c, Apply(c, db, steps[0]), s, steps[1..]);
    }
  }

  /** A commit leaves every other connection that read the same stream with a stale head. */
  lemma CommitMakesStale(c: Crypto, db: Db, s: nat, t: nat)
    requires Inv(c, db) && Enabled(c, db, Commit(s))
    requires t < |db.sessions| && db.sessions[t].HeadRead?
    requires db.sessions[t].attempt.streamId == db.sessions[s].attempt.streamId
    ensures var next := Apply(c, db, Commit(s));
            db.sessions[t].head != Head(next.table, db.sessions[t].attempt.streamId)
  {
    assert SessionInv(c, db, t) && SessionInv(c, db, s);
    var a := db.sessions[s].attempt;
    CommitIsAppend(c, db, s);
    AppendEffect(c, db.table, a.streamId, a.record, a.key, a.streamId);
    HeadOfLinked(Apply(c, db, Commit(s)).table, a.streamId);
    LinkedInOrder(Apply(c, db, Commit(s)).table, a.streamId);
  }
}
