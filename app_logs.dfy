/**
 * The AppLogs table: the severity levels, the persisted log record, and the store
 * that the deduplicating sink and the log retention job work on. The store is an
 * abstract map from record id to record; SQL, connections and the ORM are not modelled.
 */
module AppLogs {
  import opened Prelude

  /** Record identity (a Guid in the source; drawn here from a counter that never repeats). */
  type Id = nat

  /** The identity hash of a log event (a hex SHA-256 digest in the source). */
  type Hash = string

  /** Serilog's LogEventLevel, in its declared order. */
  datatype Level = Verbose | Debug | Information | Warning | Error | Fatal {
    /** The enum's underlying value, used by `Level >= minimumLevel`. */
    function Rank(): nat {
      match this
      case Verbose => 0
      case Debug => 1
      case Information => 2
      case Warning => 3
      case Error => 4
      case Fatal => 5
    }

    /** `level.ToString()`, the text stored in the Level column. */
    function Name(): string {
      match this
      case Verbose => "Verbose"
      case Debug => "Debug"
      case Information => "Information"
      case Warning => "Warning"
      case Error => "Error"
      case Fatal => "Fatal"
    }
  }

  /** One row of AppLogs (the Properties and LogEvent JSON columns are not modelled). */
  datatype LogRecord = LogRecord(
    timestamp: Time,
    level: Option<string>,
    message: string,
    exception: Option<string>,
    messageHash: Option<Hash>,
    firstOccurrence: Option<Time>,
    lastOccurrence: Option<Time>,
    occurrenceCount: int,
    deduplicationWindowMinutes: int)

  /** Column defaults of the table: OccurrenceCount 1, DeduplicationWindowMinutes 5. */
  const DefaultOccurrenceCount: int := 1
  const DefaultWindowMinutes: int := 5

  /** The instant retention measures a record's age by: `LastOccurrence ?? Timestamp`. */
  function EffectiveTime(r: LogRecord): Time {
    r.lastOccurrence.GetOr(r.timestamp)
  }

  /** A row the dedup lookup may return for hash `h`: same hash and `LastOccurrence >= windowStart`. */
  predicate Qualifies(r: LogRecord, h: Hash, windowStart: int) {
    r.messageHash == Some(h) && r.lastOccurrence.Some? && r.lastOccurrence.value >= windowStart
  }

  /** One result row of the batched lookup: `(Id, LastOccurrence)`. */
  datatype Found = Found(logId: Id, lastOccurrence: Time)

  /**
   * `found` answers the lookup over the rows whose ids are in `ids`: every answer is a qualifying
   * row for a queried hash, and no qualifying row is more recent than the answer for its hash.
   */
  ghost predicate RecentOver(rows: map<Id, LogRecord>, ids: set<Id>, hashes: seq<Hash>, windowStart: int, found: map<Hash, Found>) {
    && (forall h :: h in found ==>
          && h in hashes
          && found[h].logId in ids
          && found[h].logId in rows
          && Qualifies(rows[found[h].logId], h, windowStart)
          && rows[found[h].logId].lastOccurrence == Some(found[h].lastOccurrence))
    && (forall h, id :: h in hashes && id in ids && id in rows && Qualifies(rows[id], h, windowStart) ==>
          h in found && rows[id].lastOccurrence.value <= found[h].lastOccurrence)
  }

  /** The semantics of `SELECT DISTINCT ON (MessageHash) ... ORDER BY MessageHash, LastOccurrence DESC`. */
  ghost predicate IsRecentLookup(rows: map<Id, LogRecord>, hashes: seq<Hash>, windowStart: int, found: map<Hash, Found>) {
    RecentOver(rows, rows.Keys, hashes, windowStart, found)
  }

  /**
   * The verdict on a lookup answer as a value. A contract can state that a verdict holds without
   * the verifier unfolding the lookup's quantifiers at that point; the lemmas that need them unfold it.
   */
  datatype LookupCheck = LookupCheck(answered: bool)

  ghost function CheckLookup(rows: map<Id, LogRecord>, hashes: seq<Hash>, windowStart: int, found: map<Hash, Found>): LookupCheck {
    LookupCheck(IsRecentLookup(rows, hashes, windowStart, found))
  }

  /** A lookup of no hashes is answered by the empty result. */
  lemma NothingToLookUp(rows: map<Id, LogRecord>, windowStart: int)
    ensures IsRecentLookup(rows, [], windowStart, map[])
  {
  }

  /** A queried hash is absent from the answer exactly when no row qualifies for it. */
  lemma MissingMeansNoQualifyingRow(rows: map<Id, LogRecord>, hashes: seq<Hash>, windowStart: int, found: map<Hash, Found>, h: Hash)
    requires IsRecentLookup(rows, hashes, windowStart, found)
    requires h in hashes
    ensures h !in found <==> forall id :: id in rows ==> !Qualifies(rows[id], h, windowStart)
  {
  }

  /** `UPDATE ... SET LastOccurrence = @t, OccurrenceCount = OccurrenceCount + @count, Timestamp = @t` on one record. */
  function AddOccurrences(r: LogRecord, count: int, at: Time): (r': LogRecord)
    ensures r'.occurrenceCount - r.occurrenceCount == count
    ensures r'.lastOccurrence == Some(at) && r'.timestamp == at
    ensures r'.messageHash == r.messageHash && r'.firstOccurrence == r.firstOccurrence && r'.level == r.level
    ensures r'.deduplicationWindowMinutes == r.deduplicationWindowMinutes
    ensures r'.message == r.message && r'.exception == r.exception
  {
    r.(occurrenceCount := r.occurrenceCount + count, lastOccurrence := Some(at), timestamp := at)
  }

  /** Two merges into one record add up: it counts the events of both, and keeps the instant of the later one. */
  lemma MergesAccumulate(r: LogRecord, a: int, b: int, t1: Time, t2: Time)
    ensures AddOccurrences(AddOccurrences(r, a, t1), b, t2) == AddOccurrences(r, a + b, t2)
  {
  }

  /** The same statement on the table: `WHERE Id = @id` touches no row when the id is gone. */
  function UpdateById(rows: map<Id, LogRecord>, id: Id, count: int, at: Time): (rows': map<Id, LogRecord>)
    ensures rows'.Keys == rows.Keys
    ensures id in rows ==> rows'[id] == AddOccurrences(rows[id], count, at)
    ensures forall other :: other in rows && other != id ==> rows'[other] == rows[other]
  {
    if id in rows then rows[id := AddOccurrences(rows[id], count, at)] else rows
  }

  /** The AppLogs table. */
  class LogStore {
    var rows: map<Id, LogRecord>

    constructor (initial: map<Id, LogRecord>)
      ensures rows == initial
    {
      rows := initial;
    }

    /**
     * The batched dedup lookup: for every queried hash, the most recent row with that hash whose
     * LastOccurrence is at or after `windowStart`. Rows are visited in an unspecified order, so a
     * tie between rows with equal LastOccurrence may go either way, as in the SQL.
     */
    method FindRecentByHash(hashes: seq<Hash>, windowStart: int) returns (found: map<Hash, Found>)
      ensures IsRecentLookup(rows, hashes, windowStart, found)
    {
      found := map[];
      var todo := rows.Keys;
      while todo != {}
        invariant todo <= rows.Keys
        invariant RecentOver(rows, rows.Keys - todo, hashes, windowStart, found)
        decreases |todo|
      {
        var id :| id in todo;
        var r := rows[id];
        if r.messageHash.Some? && r.messageHash.value in hashes && Qualifies(r, r.messageHash.value, windowStart) {
          var h := r.messageHash.value;
          if h !in found || found[h].lastOccurrence < r.lastOccurrence.value {
            found := found[h := Found(id, r.lastOccurrence.value)];
          }
        }
        todo := todo - {id};
      }
    }

    /** `INSERT` of a new row; the primary key must be new. */
    method Insert(id: Id, r: LogRecord)
      requires id !in rows
      modifies this
      ensures rows == old(rows)[id := r]
    {
      rows := rows[id := r];
    }

    /** One dedup `UPDATE ... WHERE Id = @id`. */
    method Update(id: Id, count: int, at: Time)
      modifies this
      ensures rows == UpdateById(old(rows), id, count, at)
    {
      if id in rows {
        rows := rows[id := AddOccurrences(rows[id], count, at)];
      }
    }

    /** Rollback of a transaction begun when the table held `saved`. */
    method Rollback(saved: map<Id, LogRecord>)
      modifies this
      ensures rows == saved
    {
      rows := saved;
    }

    /** `RemoveRange(...)` followed by a successful `SaveChangesAsync()`. */
    method RemoveRange(ids: set<Id>)
      modifies this
      ensures rows == old(rows) - ids
    {
      rows := rows - ids;
    }
  }
}
