/**
 * The deduplicating sink as an object: its hash cache and id supply are fields updated in place,
 * the AppLogs table is a store object, and each flush runs the source's loops. Every method is
 * proved to compute exactly the functions of SinkModel, so the lemmas of SinkProperties apply to
 * the object's state; the invariant CacheConsistent is kept by every method.
 */
module DedupSink {
  import opened Prelude
  import opened AppLogs
  import opened SinkModel
  import opened SinkProperties

  class DeduplicatingPostgreSqlSink {
    const config: SinkConfig
    const store: LogStore
    var hashCache: Cache
    /** Stands for Guid.NewGuid: every drawn id is new. */
    var nextGuid: Id

    /** The part of the world a flush changes. */
    function State(): SinkState
      reads this, store
    {
      SinkState(hashCache, store.rows, nextGuid)
    }

    ghost predicate Valid()
      reads this, store
    {
      CacheConsistent(State())
    }

    /** A new sink starts with an empty cache over a table whose ids are all below `firstId`. */
    constructor (config: SinkConfig, store: LogStore, firstId: Id)
      requires forall id :: id in store.rows ==> id < firstId
      ensures this.config == config && this.store == store
      ensures hashCache == map[] && nextGuid == firstId
      ensures Valid()
    {
      this.config := config;
      this.store := store;
      hashCache := map[];
      nextGuid := firstId;
    }

    /**
     * EmitBatchAsync: filter, then one processing path; a store failure ends the flush and is
     * swallowed. `found` is the answer of the batched lookup when there is one.
     */
    method EmitBatch(events: seq<LogEvent>, now: Time, fault: Fault) returns (ghost found: map<Hash, Found>)
      requires Valid()
      modifies this, store
      ensures Valid()
      ensures State() == Emit(config, old(State()), events, now, found, fault)
      ensures config.enableDeduplication && fault != OpenFails && fault != LookupFails ==>
                LookupAnswered(config, old(State()), events, now, found)
    {
      ghost var s0 := State();
      found := map[];
      var valid := Filter(config, events);
      if valid == [] || fault == OpenFails {
        NothingToLookUp(store.rows, now - config.deduplicationWindowMinutes);
        return;
      }
      if config.enableDeduplication {
        found := ProcessBatchWithDeduplication(valid, now, fault);
        assert fault != LookupFails ==> LookupAnswered(config, old(State()), events, now, found);
        assert State() == WithDedup(config, s0, valid, now, found, fault);
      } else {
        ProcessBatchWithoutDeduplication(valid, now, fault);
        assert State() == InsertBatch(config, s0, PlainLogs(valid), now, fault);
      }
      EmitKeepsConsistent(config, s0, events, now, found, fault);
    }

    /** ProcessBatchWithDeduplicationAsync: the first loop, the lookup of the misses, then the rest of the flush. */
    method ProcessBatchWithDeduplication(valid: seq<LogEvent>, now: Time, fault: Fault) returns (found: map<Hash, Found>)
      requires forall id :: id in store.rows ==> id < nextGuid
      modifies this, store
      ensures State() == WithDedup(config, old(State()), valid, now, found, fault)
      ensures fault != LookupFails ==>
                CheckLookup(old(store.rows), MissOrder(config, old(hashCache), valid, now),
                            now - config.deduplicationWindowMinutes, found).answered
    {
      ghost var split := Classify(config, hashCache, valid, now);
      var hashToUpdate, updateOrder, hashToEvents, queryOrder, ok;
      hashToUpdate, updateOrder, hashToEvents, queryOrder, found, ok := ClassifyAndLookUp(valid, now, fault);
      if !ok {
        return;
      }
      ResolveAndWrite(hashToUpdate, updateOrder, hashToEvents, queryOrder, found, now, fault);
      assert State() == SinkModel.ResolveAndWrite(config, old(State()).(cache := split.cache), split, found, now, fault);
    }

    /** The first loop, then the batched lookup of its misses; `ok` is false when that lookup throws. */
    method ClassifyAndLookUp(valid: seq<LogEvent>, now: Time, fault: Fault)
      returns (hashToUpdate: map<Hash, Pending>, updateOrder: seq<Hash>, hashToEvents: map<Hash, seq<LogEvent>>,
               queryOrder: seq<Hash>, found: map<Hash, Found>, ok: bool)
      modifies this
      ensures Split(hashCache, hashToUpdate, updateOrder, hashToEvents, queryOrder) == Classify(config, old(hashCache), valid, now)
      ensures forall h :: h in queryOrder ==> h in hashToEvents
      ensures forall h :: h in updateOrder ==> h in hashToUpdate
      ensures nextGuid == old(nextGuid)
      ensures ok <==> queryOrder == [] || fault != LookupFails
      ensures fault != LookupFails ==>
                CheckLookup(store.rows, MissOrder(config, old(hashCache), valid, now),
                            now - config.deduplicationWindowMinutes, found).answered
    {
      hashToUpdate, updateOrder, hashToEvents, queryOrder := ClassifyEvents(valid, now);
      found, ok := FindDuplicateLogsBatch(queryOrder, now - config.deduplicationWindowMinutes, fault == LookupFails);
    }

    /**
     * FindDuplicateLogsBatchAsync: no query for an empty list, otherwise the batched lookup, which
     * fails when `fails` holds.
     */
    method FindDuplicateLogsBatch(hashes: seq<Hash>, windowStart: int, fails: bool) returns (found: map<Hash, Found>, ok: bool)
      ensures ok <==> hashes == [] || !fails
      ensures ok ==> CheckLookup(store.rows, hashes, windowStart, found).answered
      ensures !ok ==> found == map[]
    {
      found := map[];
      if hashes == [] {
        ok := true;
        NothingToLookUp(store.rows, windowStart);
        return;
      }
      if fails {
        ok := false;
        return;
      }
      found := store.FindRecentByHash(hashes, windowStart);
      ok := true;
    }

    /** From the lookup's answer on: the second loop, UpdateLogsBatchAsync, then InsertLogsBatchAsync. */
    method ResolveAndWrite(hashToUpdate: map<Hash, Pending>, updateOrder: seq<Hash>, hashToEvents: map<Hash, seq<LogEvent>>,
                           queryOrder: seq<Hash>, dbResults: map<Hash, Found>, now: Time, fault: Fault)
      requires forall id :: id in store.rows ==> id < nextGuid
      requires forall h :: h in queryOrder ==> h in hashToEvents
      requires forall h :: h in updateOrder ==> h in hashToUpdate
      modifies this, store
      ensures State() == SinkModel.ResolveAndWrite(config, old(State()),
                Split(old(hashCache), hashToUpdate, updateOrder, hashToEvents, queryOrder), dbResults, now, fault)
    {
      var updates', updateOrder', newLogs := ResolveMisses(hashToUpdate, updateOrder, hashToEvents, queryOrder, dbResults, now);
      if updateOrder' != [] {
        var ok := UpdateLogsBatch(updateOrder', updates', fault == UpdateFails);
        if !ok {
          return;
        }
      }
      InsertLogsBatch(newLogs, now, fault);
    }

    /** The first loop of ProcessBatchWithDeduplicationAsync: cache hits merge in memory, misses are grouped. */
    method ClassifyEvents(valid: seq<LogEvent>, now: Time)
      returns (hashToUpdate: map<Hash, Pending>, updateOrder: seq<Hash>, hashToEvents: map<Hash, seq<LogEvent>>, queryOrder: seq<Hash>)
      modifies this
      ensures Split(hashCache, hashToUpdate, updateOrder, hashToEvents, queryOrder) == Classify(config, old(hashCache), valid, now)
      ensures forall h :: h in queryOrder ==> h in hashToEvents
      ensures forall h :: h in updateOrder ==> h in hashToUpdate
      ensures nextGuid == old(nextGuid)
    {
      hashToUpdate, updateOrder, hashToEvents, queryOrder := map[], [], map[], [];
      var i := 0;
      while i < |valid|
        invariant 0 <= i <= |valid|
        invariant Split(hashCache, hashToUpdate, updateOrder, hashToEvents, queryOrder) == Classify(config, old(hashCache), valid[..i], now)
        invariant forall h :: h in queryOrder ==> h in hashToEvents
        invariant forall h :: h in updateOrder ==> h in hashToUpdate
        invariant nextGuid == old(nextGuid)
      {
        ghost var st := Split(hashCache, hashToUpdate, updateOrder, hashToEvents, queryOrder);
        hashToUpdate, updateOrder, hashToEvents, queryOrder := ClassifyEvent(hashToUpdate, updateOrder, hashToEvents, queryOrder, valid[i], now);
        ClassifySnoc(config, old(hashCache), valid, i, now, st, Split(hashCache, hashToUpdate, updateOrder, hashToEvents, queryOrder));
        i := i + 1;
      }
      assert valid[..i] == valid;
    }

    /** One iteration of the first loop: a trusted cache entry merges the event in memory, any other hash groups it. */
    method ClassifyEvent(hashToUpdate: map<Hash, Pending>, updateOrder: seq<Hash>, hashToEvents: map<Hash, seq<LogEvent>>,
                         queryOrder: seq<Hash>, logEvent: LogEvent, now: Time)
      returns (hashToUpdate': map<Hash, Pending>, updateOrder': seq<Hash>, hashToEvents': map<Hash, seq<LogEvent>>, queryOrder': seq<Hash>)
      requires forall h :: h in queryOrder ==> h in hashToEvents
      requires forall h :: h in updateOrder ==> h in hashToUpdate
      modifies this
      ensures Split(hashCache, hashToUpdate', updateOrder', hashToEvents', queryOrder') ==
                ClassifyOne(config, Split(old(hashCache), hashToUpdate, updateOrder, hashToEvents, queryOrder), logEvent, now)
      ensures forall h :: h in queryOrder' ==> h in hashToEvents'
      ensures forall h :: h in updateOrder' ==> h in hashToUpdate'
      ensures nextGuid == old(nextGuid)
    {
      hashToUpdate', updateOrder', hashToEvents', queryOrder' := hashToUpdate, updateOrder, hashToEvents, queryOrder;
      var windowStart := now - config.deduplicationWindowMinutes;
      var messageHash := MessageHash(config, logEvent);
      if messageHash in hashCache && hashCache[messageHash].lastOccurrence >= windowStart {
        var cached := hashCache[messageHash];
        if messageHash in hashToUpdate' {
          var existing := hashToUpdate'[messageHash];
          hashToUpdate' := hashToUpdate'[messageHash := Pending(existing.logId, now, existing.count + 1)];
        } else {
          hashToUpdate' := hashToUpdate'[messageHash := Pending(cached.logId, now, 1)];
          updateOrder' := updateOrder' + [messageHash];
        }
        hashCache := hashCache[messageHash := CacheEntry(cached.logId, now)];
      } else {
        if messageHash !in hashToEvents' {
          hashToEvents' := hashToEvents'[messageHash := []];
          queryOrder' := queryOrder' + [messageHash];
        }
        hashToEvents' := hashToEvents'[messageHash := hashToEvents'[messageHash] + [logEvent]];
      }
    }

    /** The second loop: a hash the store found becomes one update, the events of any other hash become rows. */
    method ResolveMisses(hashToUpdate: map<Hash, Pending>, updateOrder: seq<Hash>, hashToEvents: map<Hash, seq<LogEvent>>,
                         queryOrder: seq<Hash>, dbResults: map<Hash, Found>, now: Time)
      returns (updates': map<Hash, Pending>, updateOrder': seq<Hash>, newLogs: seq<NewLog>)
      requires forall h :: h in queryOrder ==> h in hashToEvents
      requires forall h :: h in updateOrder ==> h in hashToUpdate
      modifies this
      ensures forall h :: h in updateOrder' ==> h in updates'
      ensures Plan(hashCache, updates', updateOrder', newLogs) ==
                ResolveAll(config, Plan(old(hashCache), hashToUpdate, updateOrder, []), hashToEvents, dbResults, queryOrder, now)
      ensures nextGuid == old(nextGuid)
    {
      updates', updateOrder', newLogs := hashToUpdate, updateOrder, [];
      var j := 0;
      while j < |queryOrder|
        invariant 0 <= j <= |queryOrder|
        invariant Plan(hashCache, updates', updateOrder', newLogs) ==
                    ResolveAll(config, Plan(old(hashCache), hashToUpdate, updateOrder, []), hashToEvents, dbResults, queryOrder[..j], now)
        invariant forall h :: h in updateOrder' ==> h in updates'
        invariant nextGuid == old(nextGuid)
      {
        var hash := queryOrder[j];
        if hash in dbResults {
          if hash !in updates' {
            updateOrder' := updateOrder' + [hash];
          }
          updates' := updates'[hash := Pending(dbResults[hash].logId, now, |hashToEvents[hash]|)];
          hashCache := hashCache[hash := CacheEntry(dbResults[hash].logId, now)];
        } else {
          newLogs := AppendGroup(newLogs, hashToEvents[hash]);
        }
        assert queryOrder[..j + 1][..j] == queryOrder[..j];
        j := j + 1;
      }
      assert queryOrder[..j] == queryOrder;
    }

    /** The inner loop for a hash the store does not know: one pending row per event, hash recomputed. */
    method AppendGroup(logs: seq<NewLog>, group: seq<LogEvent>) returns (logs': seq<NewLog>)
      ensures logs' == logs + NewLogsOf(config, group)
    {
      logs' := logs;
      var k := 0;
      while k < |group|
        invariant 0 <= k <= |group|
        invariant logs' == logs + NewLogsOf(config, group[..k])
      {
        var messageHash := MessageHash(config, group[k]);
        logs' := logs' + [NewLog(group[k], messageHash)];
        k := k + 1;
      }
      assert group[..k] == group;
    }

    /** ProcessBatchWithoutDeduplicationAsync. */
    method ProcessBatchWithoutDeduplication(valid: seq<LogEvent>, now: Time, fault: Fault)
      requires forall id :: id in store.rows ==> id < nextGuid
      modifies this, store
      ensures State() == InsertBatch(config, old(State()), PlainLogs(valid), now, fault)
    {
      InsertLogsBatch(PlainLogs(valid), now, fault);
    }

    /** UpdateLogsBatchAsync: one UPDATE per entry in dictionary order, in one transaction. */
    method UpdateLogsBatch(order: seq<Hash>, updates: map<Hash, Pending>, fails: bool) returns (ok: bool)
      requires forall h :: h in order ==> h in updates
      modifies store
      ensures ok == !fails
      ensures store.rows.Keys == old(store.rows).Keys
      ensures store.rows == if fails then old(store.rows) else ApplyUpdates(old(store.rows), order, updates)
    {
      var saved := store.rows;
      var j := 0;
      while j < |order|
        invariant 0 <= j <= |order|
        invariant store.rows == ApplyUpdates(saved, order[..j], updates)
        invariant store.rows.Keys == saved.Keys
      {
        var kvp := updates[order[j]];
        store.Update(kvp.logId, kvp.count, kvp.lastOccurrence);
        assert order[..j + 1][..j] == order[..j];
        j := j + 1;
      }
      assert order[..j] == order;
      if fails {
        store.Rollback(saved);
        return false;
      }
      return true;
    }

    /**
     * InsertLogsBatchAsync: one INSERT per row under a fresh id in one transaction; with deduplication
     * the cache is written after each INSERT, before the commit, so a rollback does not undo it.
     */
    method InsertLogsBatch(logs: seq<NewLog>, now: Time, fault: Fault)
      requires forall id :: id in store.rows ==> id < nextGuid
      modifies this, store
      ensures State() == InsertBatch(config, old(State()), logs, now, fault)
    {
      if logs == [] {
        return;
      }
      var saved := store.rows;
      var i := 0;
      while i < |logs|
        invariant 0 <= i <= |logs|
        invariant State() == InsertRows(config, old(State()), logs[..i], now)
        invariant forall id :: id in store.rows ==> id < nextGuid
        invariant !(fault.InsertFailsAt? && fault.k < i)
      {
        var logId := nextGuid;
        nextGuid := nextGuid + 1;
        if fault == InsertFailsAt(i) {
          store.Rollback(saved);
          return;
        }
        WriteLog(old(State()), logs, i, logId, now);
        i := i + 1;
      }
      assert logs[..i] == logs;
      if fault == InsertFailsAt(|logs|) {
        store.Rollback(saved);
      }
    }

    /** One turn of the insert loop: the row for `logs[i]` under the id `logId` just drawn. */
    method WriteLog(ghost s0: SinkState, logs: seq<NewLog>, i: nat, logId: Id, now: Time)
      requires i < |logs| && logId + 1 == nextGuid
      requires SinkState(hashCache, store.rows, logId) == InsertRows(config, s0, logs[..i], now)
      requires forall id :: id in store.rows ==> id < logId
      modifies this, store
      ensures State() == InsertRows(config, s0, logs[..i + 1], now)
      ensures forall id :: id in store.rows ==> id < nextGuid
    {
      if config.enableDeduplication {
        store.Insert(logId, DedupRecord(config, logs[i], now));
        hashCache := hashCache[logs[i].messageHash := CacheEntry(logId, now)];
      } else {
        store.Insert(logId, PlainRecord(logs[i], now));
      }
      assert logs[..i + 1][..i] == logs[..i];
    }

    /** CleanupExpiredCache: drop the entries last seen before `now - cacheExpirationMinutes`. */
    method CleanupExpiredCache(now: Time)
      requires Valid()
      modifies this
      ensures hashCache == Sweep(old(hashCache), now - config.cacheExpirationMinutes)
      ensures nextGuid == old(nextGuid)
      ensures Valid()
    {
      var expirationTime := now - config.cacheExpirationMinutes;
      var expiredKeys := set h | h in hashCache && hashCache[h].lastOccurrence < expirationTime;
      ghost var expired := expiredKeys;
      while expiredKeys != {}
        invariant expiredKeys <= expired
        invariant hashCache == old(hashCache) - (expired - expiredKeys)
        invariant nextGuid == old(nextGuid)
        decreases |expiredKeys|
      {
        var key :| key in expiredKeys;
        hashCache := hashCache - {key};
        expiredKeys := expiredKeys - {key};
      }
      ghost var swept := Sweep(old(hashCache), expirationTime);
      assert hashCache == old(hashCache) - expired;
      assert forall h :: h in hashCache <==> h in swept;
      assert forall h :: h in hashCache ==> hashCache[h] == swept[h];
      assert hashCache == swept;
      SweepIdempotentAndConsistent(old(State()), expirationTime);
    }
  }
}
