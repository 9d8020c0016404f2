/** Appending to the audit chain: under a mutex in memory, and as concurrent Postgres transactions. */
module AuditLog {
  import opened Wrappers
  import opened Bytes
  import opened Audit

  function Records(entries: seq<AuditEntry>): seq<AuditRecord> {
    seq(|entries|, i requires 0 <= i < |entries| => entries[i].record)
  }

  /** `MemoryAuditLog`: each call holds the mutex from reading the head to the push. */
  class MemoryAuditLog {
    const sha: Hasher
    var entries: seq<AuditEntry>

    ghost predicate Valid()
      reads this
    {
      Chained(sha, entries)
    }

    constructor (sha: Hasher)
      ensures Valid() && this.sha == sha && entries == []
    {
      this.sha, entries := sha, [];
    }

    method Append(record: AuditRecord)
      requires Valid() && |entries| < TWO_64
      modifies this
      ensures Valid() && old(entries) <= entries && Records(entries) == old(Records(entries)) + [record]
    {
      hide Encode;
      var seqno := |entries|;
      var prev := if entries == [] then GENESIS_PREV else entries[|entries| - 1].hash;
      SealExtends(sha, entries, record);
      entries := entries + [Seal(sha, seqno, record, prev)];
    }

    method Export() returns (copy: seq<AuditEntry>)
      requires Valid()
      ensures copy == entries && Chained(sha, copy)
    {
      copy := entries;
    }
  }

  // --- Postgres ---

  /** The column of the sequence number is a signed 64-bit one. */
  const I64_LIMIT := 0x8000_0000_0000_0000

  /** One append as a transaction, on any replica. */
  datatype Tx =
    | Begun(record: AuditRecord)
    | Holding(record: AuditRecord)
    | Read(record: AuditRecord, seqno: nat, prev: Hash)
    | Inserted(entry: AuditEntry)
    | Over

  /** The table, the advisory lock, the transactions; `committed` and `exports` are history. */
  datatype Database = Database(
    rows: seq<AuditEntry>,
    holder: Option<nat>,
    txs: map<nat, Tx>,
    committed: seq<AuditRecord>,
    exports: seq<seq<AuditEntry>>)

  datatype Event =
    | Begin(t: nat, record: AuditRecord)
    | Lock(t: nat)
    | ReadHead(t: nat)
    | Insert(t: nat)
    | Commit(t: nat)
    | Abort(t: nat)
    | Export

  /** The record a transaction is to append. */
  function RecordOf(tx: Tx): Option<AuditRecord> {
    match tx
    case Begun(r) => Some(r)
    case Holding(r) => Some(r)
    case Read(r, _, _) => Some(r)
    case Inserted(e) => Some(e.record)
    case Over => None
  }

  /**
    READ COMMITTED: the head read sees the rows committed by then.  The primary key refuses a second
    row with one number.
   */
  function Step(sha: Hasher, db: Database, e: Event): Database {
    match e
    case Begin(t, record) => if t in db.txs then db else db.(txs := db.txs[t := Begun(record)])
    case Lock(t) =>
      if t in db.txs && db.txs[t].Begun? && db.holder.None? then
        db.(holder := Some(t), txs := db.txs[t := Holding(db.txs[t].record)])
      else db
    case ReadHead(t) =>
      if t in db.txs && db.txs[t].Holding? then
        var (seqno, prev) := if db.rows == [] then (0, GENESIS_PREV)
                             else (db.rows[|db.rows| - 1].seqno + 1, db.rows[|db.rows| - 1].hash);
        db.(txs := db.txs[t := Read(db.txs[t].record, seqno, prev)])
      else db
    case Insert(t) =>
      if t in db.txs && db.txs[t].Read? && db.txs[t].seqno < I64_LIMIT
         && (forall i | 0 <= i < |db.rows| :: db.rows[i].seqno != db.txs[t].seqno) then
        db.(txs := db.txs[t := Inserted(Seal(sha, db.txs[t].seqno, db.txs[t].record, db.txs[t].prev))])
      else db
    case Commit(t) =>
      if t in db.txs && db.txs[t].Inserted? then
        db.(rows := db.rows + [db.txs[t].entry], committed := db.committed + [db.txs[t].entry.record],
            txs := db.txs[t := Over], holder := if db.holder == Some(t) then None else db.holder)
      else db
    case Abort(t) =>
      if t in db.txs then
        db.(txs := db.txs[t := Over], holder := if db.holder == Some(t) then None else db.holder)
      else db
    case Export => db.(exports := db.exports + [db.rows])
  }

  function Run(sha: Hasher, events: seq<Event>): Database {
    if events == [] then Database([], None, map[], [], [])
    else Step(sha, Run(sha, events[..|events| - 1]), events[|events| - 1])
  }

  /** What a transaction knows about the chain. */
  ghost predicate Current(sha: Hasher, db: Database, t: nat)
    requires t in db.txs
  {
    match db.txs[t]
    case Begun(_) => true
    case Over => true
    case Holding(_) => db.holder == Some(t)
    case Read(_, seqno, prev) => db.holder == Some(t) && seqno == |db.rows| && prev == Last(db.rows)
    case Inserted(entry) =>
      db.holder == Some(t) && |db.rows| < I64_LIMIT && entry == Seal(sha, |db.rows|, entry.record, Last(db.rows))
  }

  ghost predicate Inv(sha: Hasher, db: Database) {
    && Chained(sha, db.rows)
    && db.committed == Records(db.rows)
    && (forall t | t in db.txs :: Current(sha, db, t))
    && (forall i | 0 <= i < |db.exports| :: db.exports[i] <= db.rows)
    && (forall i, j | 0 <= i < j < |db.exports| :: db.exports[i] <= db.exports[j])
  }

  lemma StepInv(sha: Hasher, db: Database, e: Event)
    requires Inv(sha, db)
    ensures Inv(sha, Step(sha, db, e))
  {
    hide Encode, Chained;
    match e
    case Commit(t) => if t in db.txs && db.txs[t].Inserted? { CommitInv(sha, db, t); }
    case ReadHead(t) => HeadNumber(sha, db.rows);
    case _ =>
  }

  lemma HeadNumber(sha: Hasher, rows: seq<AuditEntry>)
    requires Chained(sha, rows)
    ensures rows != [] ==> rows[|rows| - 1].seqno + 1 == |rows|
  {
    hide Encode;
    if rows != [] {
      assert Linked(sha, rows, |rows| - 1);
    }
  }

  lemma CommitInv(sha: Hasher, db: Database, t: nat)
    requires Inv(sha, db) && t in db.txs && db.txs[t].Inserted?
    ensures Inv(sha, Step(sha, db, Commit(t)))
  {
    hide Encode, Seal, Chained;
    assert Current(sha, db, t);
    SealExtends(sha, db.rows, db.txs[t].entry.record);
    var db' := Step(sha, db, Commit(t));
    forall u | u in db'.txs
      ensures Current(sha, db', u)
    {
      assert u in db.txs && Current(sha, db, u);
    }
    assert db.rows <= db'.rows;
  }

  /**
    Whatever transactions of whatever replicas interleave and abort: the table is always
    one chain, it holds exactly the committed records in commit order, and every export
    is a prefix of every later one and of the table.
   */
  lemma {:induction false} NeverForks(sha: Hasher, events: seq<Event>)
    ensures var db := Run(sha, events);
      && Chained(sha, db.rows) && Records(db.rows) == db.committed
      && (forall i | 0 <= i < |db.exports| :: db.exports[i] <= db.rows)
      && (forall i, j | 0 <= i < j < |db.exports| :: db.exports[i] <= db.exports[j])
    ensures Inv(sha, Run(sha, events))
  {
    hide Step;
    if events != [] {
      NeverForks(sha, events[..|events| - 1]);
      StepInv(sha, Run(sha, events[..|events| - 1]), events[|events| - 1]);
    }
  }

  /** A transaction keeps the record it was begun with, and a commit appends exactly that one, under the lock. */
  lemma CommitsItsRecord(sha: Hasher, db: Database, e: Event)
    requires Inv(sha, db)
    ensures var db' := Step(sha, db, e);
      && (forall t | t in db.txs && t in db'.txs && !db'.txs[t].Over? :: RecordOf(db'.txs[t]) == RecordOf(db.txs[t]))
      && (|| db'.rows == db.rows
          || (&& e.Commit? && db.holder == Some(e.t) && db'.holder.None? && RecordOf(db.txs[e.t]).Some?
              && Records(db'.rows) == Records(db.rows) + [RecordOf(db.txs[e.t]).value]))
  {
    hide Encode, Chained;
    if e.Commit? && e.t in db.txs {
      assert Current(sha, db, e.t);
    }
  }

  /** An append that nothing disturbs, on a table no one is appending to, adds its record. */
  lemma UndisturbedAppend(sha: Hasher, db: Database, t: nat, record: AuditRecord)
    requires Inv(sha, db) && t !in db.txs && db.holder.None? && |db.rows| < I64_LIMIT
    ensures var read := Step(sha, Step(sha, Step(sha, db, Begin(t, record)), Lock(t)), ReadHead(t));
      var db' := Step(sha, Step(sha, read, Insert(t)), Commit(t));
      Records(db'.rows) == Records(db.rows) + [record] && db'.holder.None?
  {
    hide Encode, Chained;
    var d1 := Step(sha, db, Begin(t, record));
    var d2 := Step(sha, d1, Lock(t));
    HeadNumber(sha, db.rows);
    var d3 := Step(sha, d2, ReadHead(t));
    NumbersBelow(sha, db.rows);
    var d4 := Step(sha, d3, Insert(t));
    assert d4.txs[t].Inserted? && d4.txs[t].entry.record == record;
  }

  lemma NumbersBelow(sha: Hasher, rows: seq<AuditEntry>)
    requires Chained(sha, rows)
    ensures forall i | 0 <= i < |rows| :: rows[i].seqno == i
  {
    hide Encode;
    forall i | 0 <= i < |rows|
      ensures rows[i].seqno == i
    {
      assert Linked(sha, rows, i);
    }
  }
}
