/**
 * The deduplicating log sink as functions of its inputs: the event filter, the identity hash,
 * and one flush split into its phases (classification against the in-memory cache, resolution
 * of the cache misses against one batched store lookup, the batched count updates, and the
 * batched inserts). The class in module DedupSink runs the same phases imperatively and is
 * proved equal to these functions; the lemmas below state what a flush achieves.
 */
module SinkModel {
  import opened Prelude
  import opened AppLogs

  /** A Serilog event: rendered message, exception text and properties. */
  datatype LogEvent = LogEvent(
    timestamp: Time,
    level: Level,
    message: string,
    exception: Option<string>,
    properties: map<string, string>)

  /**
   * The sink's constructor arguments. `digest` stands for SHA-256 followed by hex encoding,
   * `isMatch(pattern, text)` for `new Regex(pattern, RegexOptions.IgnoreCase).IsMatch(text)`.
   */
  datatype SinkConfig = SinkConfig(
    enableDeduplication: bool,
    deduplicationWindowMinutes: int,
    minimumLevel: Level,
    excludedKeywords: seq<string>,
    excludedPatterns: seq<string>,
    cacheExpirationMinutes: int,
    digest: string -> Hash,
    isMatch: (string, string) -> bool)

  /** What one flush can run into at the store; the first exception ends the flush. */
  datatype Fault =
    | NoFault
    | OpenFails               // opening the connection throws
    | LookupFails             // the batched hash lookup throws
    | UpdateFails             // an UPDATE or the update commit throws; the transaction rolls back
    | InsertFailsAt(k: nat)   // the k-th INSERT (or, for k = number of rows, the commit) throws; rollback

  // ---------------------------------------------------------------- filter

  /** `logEvent.Exception?.ToString() ?? ""` */
  function ExceptionText(e: LogEvent): string {
    e.exception.GetOr("")
  }

  /** ShouldExcludeLog: a keyword occurs (ignoring case) or a pattern matches, in message or exception text. */
  predicate ShouldExclude(cfg: SinkConfig, e: LogEvent) {
    || (exists k :: k in cfg.excludedKeywords &&
          (ContainsIgnoreCase(e.message, k) || ContainsIgnoreCase(ExceptionText(e), k)))
    || (exists p :: p in cfg.excludedPatterns &&
          (cfg.isMatch(p, e.message) || cfg.isMatch(p, ExceptionText(e))))
  }

  /** The predicate of the filter step `e.Level >= _minimumLevel && !ShouldExcludeLog(e)`. */
  predicate Accepts(cfg: SinkConfig, e: LogEvent) {
    e.level.Rank() >= cfg.minimumLevel.Rank() && !ShouldExclude(cfg, e)
  }

  /** The filter step: the accepted events, in their original order. */
  function Filter(cfg: SinkConfig, events: seq<LogEvent>): (valid: seq<LogEvent>)
    ensures forall e :: e in valid ==> e in events && Accepts(cfg, e)
    ensures forall e :: e in events && Accepts(cfg, e) ==> e in valid
    ensures multiset(valid) <= multiset(events)
    ensures (forall e :: e in events ==> Accepts(cfg, e)) ==> valid == events
  {
    if events == [] then []
    else
      assert events == [events[0]] + events[1..];
      (if Accepts(cfg, events[0]) then [events[0]] else []) + Filter(cfg, events[1..])
  }

  // ---------------------------------------------------------------- identity hash

  /** The text that is hashed: `$"{Level}|{RenderMessage()}|{Exception?.ToString() ?? ""}"`. */
  function Content(e: LogEvent): string {
    e.level.Name() + "|" + e.message + "|" + ExceptionText(e)
  }

  /** CalculateMessageHash */
  function MessageHash(cfg: SinkConfig, e: LogEvent): Hash {
    cfg.digest(Content(e))
  }

  // ---------------------------------------------------------------- flush state

  /** A `_hashCache` value: `(LogId, LastOccurrence)`. */
  datatype CacheEntry = CacheEntry(logId: Id, lastOccurrence: Time)

  type Cache = map<Hash, CacheEntry>

  /** A `hashToUpdate` value: `(LogId, LastOccurrence, Count)`. */
  datatype Pending = Pending(logId: Id, lastOccurrence: Time, count: nat)

  /** A `newLogs` element: `(Event, MessageHash)` (its timestamp is always the flush's `now`). */
  datatype NewLog = NewLog(event: LogEvent, messageHash: Hash)

  /** The part of the sink a flush changes: the cache, the table and the id supply. */
  datatype SinkState = SinkState(cache: Cache, rows: map<Id, LogRecord>, nextId: Id)

  /** A cache entry is trusted exactly when it exists and `LastOccurrence >= windowStart` (inclusive). */
  predicate IsHit(cache: Cache, h: Hash, windowStart: int) {
    h in cache && cache[h].lastOccurrence >= windowStart
  }

  /** `order` lists the keys `keys` once each (the enumeration order of a Dictionary without removals). */
  ghost predicate OrderOf(order: seq<Hash>, keys: set<Hash>) {
    && (forall i, j :: 0 <= i < j < |order| ==> order[i] != order[j])
    && (forall h :: h in order <==> h in keys)
  }

  // ---------------------------------------------------------------- phase 1: classification

  /** The local state of the first loop: cache, hashToUpdate (with its key order), hashToEvents (with its key order). */
  datatype Split = Split(
    cache: Cache,
    updates: map<Hash, Pending>,
    updateOrder: seq<Hash>,
    misses: map<Hash, seq<LogEvent>>,
    missOrder: seq<Hash>)

  /** One iteration of the first loop over the events. */
  function ClassifyOne(cfg: SinkConfig, st: Split, e: LogEvent, now: Time): Split {
    var h := MessageHash(cfg, e);
    if IsHit(st.cache, h, now - cfg.deduplicationWindowMinutes) then
      var cached := st.cache[h];
      var p := if h in st.updates then Pending(st.updates[h].logId, now, st.updates[h].count + 1)
               else Pending(cached.logId, now, 1);
      st.(cache := st.cache[h := CacheEntry(cached.logId, now)],
          updates := st.updates[h := p],
          updateOrder := if h in st.updates then st.updateOrder else st.updateOrder + [h])
    else
      var group := if h in st.misses then st.misses[h] else [];
      st.(misses := st.misses[h := group + [e]],
          missOrder := if h in st.misses then st.missOrder else st.missOrder + [h])
  }

  /** The first loop, run over `events` in order starting from the cache `cache`. */
  function Classify(cfg: SinkConfig, cache: Cache, events: seq<LogEvent>, now: Time): Split
    decreases |events|
  {
    if events == [] then Split(cache, map[], [], map[], [])
    else ClassifyOne(cfg, Classify(cfg, cache, events[..|events| - 1], now), events[|events| - 1], now)
  }

  /** The hashes the first loop leaves for the batched lookup, in the order it met them. */
  function MissOrder(cfg: SinkConfig, cache: Cache, events: seq<LogEvent>, now: Time): seq<Hash> {
    Classify(cfg, cache, events, now).missOrder
  }

  // ---------------------------------------------------------------- phase 2: resolution of the misses

  /** hashToUpdate, its order, the cache and the newLogs list, after the second loop. */
  datatype Plan = Plan(
    cache: Cache,
    updates: map<Hash, Pending>,
    updateOrder: seq<Hash>,
    newLogs: seq<NewLog>)

  function GroupOf(misses: map<Hash, seq<LogEvent>>, h: Hash): seq<LogEvent> {
    if h in misses then misses[h] else []
  }

  /** The new rows for the events of one group, with the hash recomputed per event as the source does. */
  function NewLogsOf(cfg: SinkConfig, group: seq<LogEvent>): (logs: seq<NewLog>)
    ensures |logs| == |group|
    ensures forall k :: 0 <= k < |group| ==> logs[k] == NewLog(group[k], MessageHash(cfg, group[k]))
  {
    seq(|group|, k requires 0 <= k < |group| => NewLog(group[k], MessageHash(cfg, group[k])))
  }

  /** One iteration of the second loop: a hash found in the store becomes one update, otherwise its events become rows. */
  function ResolveOne(cfg: SinkConfig, plan: Plan, misses: map<Hash, seq<LogEvent>>, found: map<Hash, Found>, h: Hash, now: Time): Plan {
    var group := GroupOf(misses, h);
    if h in found then
      plan.(updates := plan.updates[h := Pending(found[h].logId, now, |group|)],
            updateOrder := if h in plan.updates then plan.updateOrder else plan.updateOrder + [h],
            cache := plan.cache[h := CacheEntry(found[h].logId, now)])
    else
      plan.(newLogs := plan.newLogs + NewLogsOf(cfg, group))
  }

  function ResolveAll(cfg: SinkConfig, start: Plan, misses: map<Hash, seq<LogEvent>>, found: map<Hash, Found>, order: seq<Hash>, now: Time): Plan
    decreases |order|
  {
    if order == [] then start
    else ResolveOne(cfg, ResolveAll(cfg, start, misses, found, order[..|order| - 1], now), misses, found, order[|order| - 1], now)
  }

  /** The second loop over `hashesToQuery`, given the lookup's answer `found`. */
  function Resolve(cfg: SinkConfig, split: Split, found: map<Hash, Found>, now: Time): Plan {
    ResolveAll(cfg, Plan(split.cache, split.updates, split.updateOrder, []), split.misses, found, split.missOrder, now)
  }

  // ---------------------------------------------------------------- phase 3: updates

  /** UpdateLogsBatchAsync's loop: one UPDATE per pending entry, in dictionary order. */
  function ApplyUpdates(rows: map<Id, LogRecord>, order: seq<Hash>, updates: map<Hash, Pending>): map<Id, LogRecord>
    decreases |order|
  {
    if order == [] then rows
    else
      var prev := ApplyUpdates(rows, order[..|order| - 1], updates);
      var h := order[|order| - 1];
      if h in updates then UpdateById(prev, updates[h].logId, updates[h].count, updates[h].lastOccurrence) else prev
  }

  // ---------------------------------------------------------------- phase 4: inserts

  /** The row written with deduplication enabled (all columns, one occurrence at `now`). */
  function DedupRecord(cfg: SinkConfig, log: NewLog, now: Time): LogRecord {
    LogRecord(now, Some(log.event.level.Name()), log.event.message, log.event.exception,
              Some(log.messageHash), Some(now), Some(now), 1, cfg.deduplicationWindowMinutes)
  }

  /** The row written with deduplication disabled: the dedup columns take the table defaults. */
  function PlainRecord(log: NewLog, now: Time): LogRecord {
    LogRecord(now, Some(log.event.level.Name()), log.event.message, log.event.exception,
              None, None, None, DefaultOccurrenceCount, DefaultWindowMinutes)
  }

  /** InsertLogsBatchAsync's loop: a fresh id per row and, with deduplication, a cache entry per row. */
  function InsertRows(cfg: SinkConfig, s: SinkState, logs: seq<NewLog>, now: Time): SinkState
    decreases |logs|
  {
    if logs == [] then s
    else
      var prev := InsertRows(cfg, s, logs[..|logs| - 1], now);
      var log := logs[|logs| - 1];
      var id := prev.nextId;
      if cfg.enableDeduplication then
        SinkState(prev.cache[log.messageHash := CacheEntry(id, now)], prev.rows[id := DedupRecord(cfg, log, now)], id + 1)
      else
        SinkState(prev.cache, prev.rows[id := PlainRecord(log, now)], id + 1)
  }

  /**
   * InsertLogsBatchAsync with its transaction: on a failing statement or commit the rows roll back,
   * while the cache entries already written and the ids already drawn stay.
   */
  function InsertBatch(cfg: SinkConfig, s: SinkState, logs: seq<NewLog>, now: Time, fault: Fault): SinkState {
    if logs == [] then s
    else if fault.InsertFailsAt? && fault.k < |logs| then
      var partial := InsertRows(cfg, s, logs[..fault.k], now);
      SinkState(partial.cache, s.rows, partial.nextId + 1)
    else if fault.InsertFailsAt? && fault.k == |logs| then
      var all := InsertRows(cfg, s, logs, now);
      SinkState(all.cache, s.rows, all.nextId)
    else
      InsertRows(cfg, s, logs, now)
  }

  // ---------------------------------------------------------------- one flush

  /** ProcessBatchWithDeduplicationAsync, given the answer `found` of the batched lookup. */
  function WithDedup(cfg: SinkConfig, s: SinkState, valid: seq<LogEvent>, now: Time, found: map<Hash, Found>, fault: Fault): SinkState {
    var split := Classify(cfg, s.cache, valid, now);
    if split.missOrder != [] && fault == LookupFails then s.(cache := split.cache)
    else ResolveAndWrite(cfg, s.(cache := split.cache), split, found, now, fault)
  }

  /** The part of a flush after the lookup: the second loop, then the updates and the inserts. */
  function ResolveAndWrite(cfg: SinkConfig, s: SinkState, split: Split, found: map<Hash, Found>, now: Time, fault: Fault): SinkState {
    var plan := Resolve(cfg, split, found, now);
    if plan.updateOrder != [] && fault == UpdateFails then s.(cache := plan.cache)
    else
      var updated := s.(cache := plan.cache, rows := ApplyUpdates(s.rows, plan.updateOrder, plan.updates));
      InsertBatch(cfg, updated, plan.newLogs, now, fault)
  }

  /** ProcessBatchWithoutDeduplicationAsync's list: every event with an empty hash. */
  function PlainLogs(valid: seq<LogEvent>): (logs: seq<NewLog>)
    ensures |logs| == |valid|
    ensures forall k :: 0 <= k < |valid| ==> logs[k] == NewLog(valid[k], "")
  {
    seq(|valid|, k requires 0 <= k < |valid| => NewLog(valid[k], ""))
  }

  /** EmitBatchAsync: filter, then one of the two processing paths; store exceptions are swallowed. */
  function Emit(cfg: SinkConfig, s: SinkState, events: seq<LogEvent>, now: Time, found: map<Hash, Found>, fault: Fault): SinkState {
    var valid := Filter(cfg, events);
    if valid == [] || fault == OpenFails then s
    else if cfg.enableDeduplication then WithDedup(cfg, s, valid, now, found, fault)
    else InsertBatch(cfg, s, PlainLogs(valid), now, fault)
  }

  /** `found` is what the store answers to the flush's lookup of its cache-miss hashes. */
  ghost predicate LookupAnswered(cfg: SinkConfig, s: SinkState, events: seq<LogEvent>, now: Time, found: map<Hash, Found>) {
    CheckLookup(s.rows, MissOrder(cfg, s.cache, Filter(cfg, events), now),
                now - cfg.deduplicationWindowMinutes, found).answered
  }

  // ---------------------------------------------------------------- cache sweep

  /** CleanupExpiredCache: the entries that survive, those with `LastOccurrence >= expiration`. */
  function Sweep(cache: Cache, expirationTime: int): Cache {
    map h | h in cache && cache[h].lastOccurrence >= expirationTime :: cache[h]
  }
}
