/**
 * What one flush of the deduplicating sink achieves, proved about the functions of SinkModel:
 * the filter, the hash, the per-hash outcome of a flush (one merged update for a hash already
 * stored, one row per event for a new hash), the shape of inserted rows and updated rows, the
 * invariant that the cache never points a hash at a row of another hash, and the cache sweep.
 */
module SinkProperties {
  import opened Prelude
  import opened AppLogs
  import opened SinkModel

  // ---------------------------------------------------------------- counting by hash

  /** How many of `events` have identity hash `h`. */
  function CountOf(cfg: SinkConfig, events: seq<LogEvent>, h: Hash): nat
    decreases |events|
  {
    if events == [] then 0
    else CountOf(cfg, events[..|events| - 1], h) + (if MessageHash(cfg, events[|events| - 1]) == h then 1 else 0)
  }

  /** The events of `events` with identity hash `h`, in order. */
  function WithHash(cfg: SinkConfig, events: seq<LogEvent>, h: Hash): seq<LogEvent>
    decreases |events|
  {
    if events == [] then []
    else WithHash(cfg, events[..|events| - 1], h) + (if MessageHash(cfg, events[|events| - 1]) == h then [events[|events| - 1]] else [])
  }

  /** How many of the pending rows `logs` carry hash `h`. */
  function CountLogs(logs: seq<NewLog>, h: Hash): nat
    decreases |logs|
  {
    if logs == [] then 0
    else CountLogs(logs[..|logs| - 1], h) + (if logs[|logs| - 1].messageHash == h then 1 else 0)
  }

  /** The pending rows of `logs` that carry hash `h`, in order. */
  function LogsWith(logs: seq<NewLog>, h: Hash): seq<NewLog>
    decreases |logs|
  {
    if logs == [] then []
    else LogsWith(logs[..|logs| - 1], h) + (if logs[|logs| - 1].messageHash == h then [logs[|logs| - 1]] else [])
  }

  lemma {:induction false} WithHashSize(cfg: SinkConfig, events: seq<LogEvent>, h: Hash)
    ensures |WithHash(cfg, events, h)| == CountOf(cfg, events, h)
    ensures forall e :: e in WithHash(cfg, events, h) ==> e in events && MessageHash(cfg, e) == h
    decreases |events|
  {
    if events != [] {
      WithHashSize(cfg, events[..|events| - 1], h);
    }
  }

  lemma {:induction false} CountLogsAppend(a: seq<NewLog>, b: seq<NewLog>, h: Hash)
    ensures CountLogs(a + b, h) == CountLogs(a, h) + CountLogs(b, h)
    decreases |b|
  {
    if b != [] {
      assert (a + b)[..|a + b| - 1] == a + b[..|b| - 1];
      CountLogsAppend(a, b[..|b| - 1], h);
    } else {
      assert a + b == a;
    }
  }

  /** The rows made from one group of same-hash events all carry that hash. */
  lemma {:induction false} CountLogsOfGroup(cfg: SinkConfig, group: seq<LogEvent>, g: Hash, h: Hash)
    requires forall e :: e in group ==> MessageHash(cfg, e) == g
    ensures CountLogs(NewLogsOf(cfg, group), h) == if h == g then |group| else 0
    decreases |group|
  {
    if group != [] {
      var logs := NewLogsOf(cfg, group);
      assert logs[..|logs| - 1] == NewLogsOf(cfg, group[..|group| - 1]);
      CountLogsOfGroup(cfg, group[..|group| - 1], g, h);
    }
  }

  lemma {:induction false} LogsWithAppend(a: seq<NewLog>, b: seq<NewLog>, h: Hash)
    ensures LogsWith(a + b, h) == LogsWith(a, h) + LogsWith(b, h)
    decreases |b|
  {
    if b != [] {
      assert (a + b)[..|a + b| - 1] == a + b[..|b| - 1];
      LogsWithAppend(a, b[..|b| - 1], h);
    } else {
      assert a + b == a;
    }
  }

  /** Pending rows that all carry hash `g`: all of them are under `g`, none under another hash. */
  lemma {:induction false} LogsWithSameHash(logs: seq<NewLog>, g: Hash, h: Hash)
    requires forall k :: 0 <= k < |logs| ==> logs[k].messageHash == g
    ensures LogsWith(logs, h) == if h == g then logs else []
    decreases |logs|
  {
    if logs != [] {
      var pre := logs[..|logs| - 1];
      LogsWithSameHash(pre, g, h);
      assert logs == pre + [logs[|logs| - 1]];
    }
  }

  // ---------------------------------------------------------------- phase 1

  /** Pending updates after the first loop: one per trusted hash of the batch, counting its events. */
  ghost predicate UpdatesAs(cfg: SinkConfig, cache: Cache, events: seq<LogEvent>, now: Time, st: Split) {
    var ws := now - cfg.deduplicationWindowMinutes;
    && (forall h :: h in st.updates <==> IsHit(cache, h, ws) && CountOf(cfg, events, h) > 0)
    && (forall h :: h in st.updates ==> st.updates[h] == Pending(cache[h].logId, now, CountOf(cfg, events, h)))
    && OrderOf(st.updateOrder, st.updates.Keys)
  }

  /** Groups after the first loop: every untrusted hash of the batch with all its events, in order. */
  ghost predicate MissesAs(cfg: SinkConfig, cache: Cache, events: seq<LogEvent>, now: Time, st: Split) {
    var ws := now - cfg.deduplicationWindowMinutes;
    && (forall h :: h in st.misses <==> !IsHit(cache, h, ws) && CountOf(cfg, events, h) > 0)
    && (forall h :: h in st.misses ==> st.misses[h] == WithHash(cfg, events, h))
    && OrderOf(st.missOrder, st.misses.Keys)
  }

  /** The cache after the first loop: trusted hashes refreshed to (same id, now), the rest untouched. */
  ghost predicate CacheAs(cache: Cache, now: Time, st: Split) {
    && st.cache.Keys == cache.Keys
    && (forall h :: h in st.cache ==>
          st.cache[h] == if h in st.updates then CacheEntry(cache[h].logId, now) else cache[h])
  }

  /**
   * The first loop, hash by hash: a hash whose cache entry is trusted becomes one pending update
   * carrying the cached id, the flush time and the number of its events, and its cache entry is
   * refreshed to (same id, now); every other hash collects all of its events, in order.
   */
  ghost predicate ClassifiedAs(cfg: SinkConfig, cache: Cache, events: seq<LogEvent>, now: Time, st: Split) {
    UpdatesAs(cfg, cache, events, now, st) && MissesAs(cfg, cache, events, now, st) && CacheAs(cache, now, st)
  }

  /** One more event of the first loop. */
  lemma ClassifySnoc(cfg: SinkConfig, cache: Cache, events: seq<LogEvent>, i: nat, now: Time, st: Split, st': Split)
    requires i < |events|
    requires st == Classify(cfg, cache, events[..i], now) && st' == ClassifyOne(cfg, st, events[i], now)
    ensures st' == Classify(cfg, cache, events[..i + 1], now)
  {
    assert events[..i + 1][..i] == events[..i];
  }

  /** For a non-negative window, the first loop is exactly ClassifiedAs. */
  lemma {:induction false} ClassifySpec(cfg: SinkConfig, cache: Cache, events: seq<LogEvent>, now: Time)
    requires cfg.deduplicationWindowMinutes >= 0
    ensures ClassifiedAs(cfg, cache, events, now, Classify(cfg, cache, events, now))
    decreases |events|
  {
    if events != [] {
      var pre := events[..|events| - 1];
      ClassifySpec(cfg, cache, pre, now);
      assert pre + [events[|events| - 1]] == events;
      ClassifyStep(cfg, cache, pre, events[|events| - 1], events, now, Classify(cfg, cache, pre, now), Classify(cfg, cache, events, now));
    }
  }

  lemma CountStep(cfg: SinkConfig, pre: seq<LogEvent>, e: LogEvent, g: Hash)
    ensures CountOf(cfg, pre + [e], g) == CountOf(cfg, pre, g) + (if g == MessageHash(cfg, e) then 1 else 0)
    ensures WithHash(cfg, pre + [e], g) == WithHash(cfg, pre, g) + (if g == MessageHash(cfg, e) then [e] else [])
  {
    assert (pre + [e])[..|pre + [e]| - 1] == pre;
  }

  lemma ClassifyStep(cfg: SinkConfig, cache: Cache, pre: seq<LogEvent>, e: LogEvent, events: seq<LogEvent>, now: Time, st: Split, st': Split)
    requires cfg.deduplicationWindowMinutes >= 0
    requires events == pre + [e] && st' == ClassifyOne(cfg, st, e, now)
    requires ClassifiedAs(cfg, cache, pre, now, st)
    ensures ClassifiedAs(cfg, cache, events, now, st')
  {
    var h := MessageHash(cfg, e);
    var ws := now - cfg.deduplicationWindowMinutes;
    forall g ensures CountOf(cfg, events, g) == CountOf(cfg, pre, g) + (if g == h then 1 else 0)
      ensures WithHash(cfg, events, g) == WithHash(cfg, pre, g) + (if g == h then [e] else [])
    {
      CountStep(cfg, pre, e, g);
    }
    if IsHit(cache, h, ws) {
      ClassifyHitCase(cfg, cache, pre, e, events, now, st);
    } else {
      ClassifyMissCase(cfg, cache, pre, e, events, now, st);
    }
  }

  lemma ClassifyHitCase(cfg: SinkConfig, cache: Cache, pre: seq<LogEvent>, e: LogEvent, events: seq<LogEvent>, now: Time, st: Split)
    requires cfg.deduplicationWindowMinutes >= 0
    requires ClassifiedAs(cfg, cache, pre, now, st)
    requires IsHit(cache, MessageHash(cfg, e), now - cfg.deduplicationWindowMinutes)
    requires forall g :: CountOf(cfg, events, g) == CountOf(cfg, pre, g) + (if g == MessageHash(cfg, e) then 1 else 0)
    requires forall g :: WithHash(cfg, events, g) == WithHash(cfg, pre, g) + (if g == MessageHash(cfg, e) then [e] else [])
    ensures ClassifiedAs(cfg, cache, events, now, ClassifyOne(cfg, st, e, now))
  {
    var h := MessageHash(cfg, e);
    var st' := ClassifyOne(cfg, st, e, now);
    assert IsHit(st.cache, h, now - cfg.deduplicationWindowMinutes);
    assert h !in st.misses;
    var n := CountOf(cfg, events, h);
    assert st.cache[h].logId == cache[h].logId;
    if h in st.updates {
      assert st.updates[h] == Pending(cache[h].logId, now, CountOf(cfg, pre, h));
    } else {
      assert CountOf(cfg, pre, h) == 0;
    }
    assert st'.updates == st.updates[h := Pending(cache[h].logId, now, n)];
    assert st'.cache == st.cache[h := CacheEntry(cache[h].logId, now)];
    HitKeepsMisses(cfg, cache, pre, e, events, now, st, st');
    HitUpdates(cfg, cache, pre, e, events, now, st, st');
  }

  lemma ClassifyMissCase(cfg: SinkConfig, cache: Cache, pre: seq<LogEvent>, e: LogEvent, events: seq<LogEvent>, now: Time, st: Split)
    requires cfg.deduplicationWindowMinutes >= 0
    requires ClassifiedAs(cfg, cache, pre, now, st)
    requires !IsHit(cache, MessageHash(cfg, e), now - cfg.deduplicationWindowMinutes)
    requires forall g :: CountOf(cfg, events, g) == CountOf(cfg, pre, g) + (if g == MessageHash(cfg, e) then 1 else 0)
    requires forall g :: WithHash(cfg, events, g) == WithHash(cfg, pre, g) + (if g == MessageHash(cfg, e) then [e] else [])
    ensures ClassifiedAs(cfg, cache, events, now, ClassifyOne(cfg, st, e, now))
  {
    var h := MessageHash(cfg, e);
    var st' := ClassifyOne(cfg, st, e, now);
    assert !IsHit(st.cache, h, now - cfg.deduplicationWindowMinutes);
    assert h !in st.updates;
    WithHashSize(cfg, pre, h);
    assert st'.misses == st.misses[h := WithHash(cfg, events, h)];
    MissKeepsUpdates(cfg, cache, pre, e, events, now, st, st');
    MissGroups(cfg, cache, pre, e, events, now, st, st');
  }

  lemma HitKeepsMisses(cfg: SinkConfig, cache: Cache, pre: seq<LogEvent>, e: LogEvent, events: seq<LogEvent>, now: Time, st: Split, st': Split)
    requires MissesAs(cfg, cache, pre, now, st)
    requires IsHit(cache, MessageHash(cfg, e), now - cfg.deduplicationWindowMinutes)
    requires forall g :: CountOf(cfg, events, g) == CountOf(cfg, pre, g) + (if g == MessageHash(cfg, e) then 1 else 0)
    requires forall g :: WithHash(cfg, events, g) == WithHash(cfg, pre, g) + (if g == MessageHash(cfg, e) then [e] else [])
    requires st'.misses == st.misses && st'.missOrder == st.missOrder
    ensures MissesAs(cfg, cache, events, now, st')
  {
  }

  lemma HitUpdates(cfg: SinkConfig, cache: Cache, pre: seq<LogEvent>, e: LogEvent, events: seq<LogEvent>, now: Time, st: Split, st': Split)
    requires UpdatesAs(cfg, cache, pre, now, st) && CacheAs(cache, now, st)
    requires IsHit(cache, MessageHash(cfg, e), now - cfg.deduplicationWindowMinutes)
    requires forall g :: CountOf(cfg, events, g) == CountOf(cfg, pre, g) + (if g == MessageHash(cfg, e) then 1 else 0)
    requires st'.updates == st.updates[MessageHash(cfg, e) := Pending(cache[MessageHash(cfg, e)].logId, now, CountOf(cfg, events, MessageHash(cfg, e)))]
    requires st'.cache == st.cache[MessageHash(cfg, e) := CacheEntry(cache[MessageHash(cfg, e)].logId, now)]
    requires st'.updateOrder == if MessageHash(cfg, e) in st.updates then st.updateOrder else st.updateOrder + [MessageHash(cfg, e)]
    ensures UpdatesAs(cfg, cache, events, now, st') && CacheAs(cache, now, st')
  {
    var h := MessageHash(cfg, e);
    HitUpdateEntries(cfg, cache, events, pre, now, h, st.updates, st'.updates);
    HitUpdateOrder(st.updateOrder, st'.updateOrder, st.updates.Keys, h);
    HitCache(cache, now, h, st, st');
  }

  /** The pending updates after one more trusted event with hash h. */
  lemma HitUpdateEntries(cfg: SinkConfig, cache: Cache, events: seq<LogEvent>, pre: seq<LogEvent>, now: Time, h: Hash,
                         u: map<Hash, Pending>, u': map<Hash, Pending>)
    requires h in cache && IsHit(cache, h, now - cfg.deduplicationWindowMinutes)
    requires forall g :: g in u <==> IsHit(cache, g, now - cfg.deduplicationWindowMinutes) && CountOf(cfg, pre, g) > 0
    requires forall g :: g in u ==> g in cache && u[g] == Pending(cache[g].logId, now, CountOf(cfg, pre, g))
    requires forall g :: CountOf(cfg, events, g) == CountOf(cfg, pre, g) + (if g == h then 1 else 0)
    requires u' == u[h := Pending(cache[h].logId, now, CountOf(cfg, events, h))]
    ensures forall g :: g in u' <==> IsHit(cache, g, now - cfg.deduplicationWindowMinutes) && CountOf(cfg, events, g) > 0
    ensures forall g :: g in u' ==> u'[g] == Pending(cache[g].logId, now, CountOf(cfg, events, g))
  {
  }

  /** Appending a new key (or keeping the order of an old one) keeps the order exact. */
  lemma HitUpdateOrder(order: seq<Hash>, order': seq<Hash>, keys: set<Hash>, h: Hash)
    requires OrderOf(order, keys)
    requires order' == if h in keys then order else order + [h]
    ensures OrderOf(order', keys + {h})
  {
    if h !in keys {
      forall i, j | 0 <= i < j < |order'| ensures order'[i] != order'[j] {
        if j == |order| {
          assert order[i] in keys;
        } else {
          assert order'[i] == order[i] && order'[j] == order[j];
        }
      }
    }
  }

  lemma HitCache(cache: Cache, now: Time, h: Hash, st: Split, st': Split)
    requires CacheAs(cache, now, st) && h in cache
    requires st'.cache == st.cache[h := CacheEntry(cache[h].logId, now)]
    requires st'.updates.Keys == st.updates.Keys + {h}
    ensures CacheAs(cache, now, st')
  {
  }

  lemma MissKeepsUpdates(cfg: SinkConfig, cache: Cache, pre: seq<LogEvent>, e: LogEvent, events: seq<LogEvent>, now: Time, st: Split, st': Split)
    requires UpdatesAs(cfg, cache, pre, now, st) && CacheAs(cache, now, st)
    requires !IsHit(cache, MessageHash(cfg, e), now - cfg.deduplicationWindowMinutes)
    requires forall g :: CountOf(cfg, events, g) == CountOf(cfg, pre, g) + (if g == MessageHash(cfg, e) then 1 else 0)
    requires st'.updates == st.updates && st'.updateOrder == st.updateOrder && st'.cache == st.cache
    ensures UpdatesAs(cfg, cache, events, now, st') && CacheAs(cache, now, st')
  {
  }

  lemma MissGroups(cfg: SinkConfig, cache: Cache, pre: seq<LogEvent>, e: LogEvent, events: seq<LogEvent>, now: Time, st: Split, st': Split)
    requires MissesAs(cfg, cache, pre, now, st)
    requires !IsHit(cache, MessageHash(cfg, e), now - cfg.deduplicationWindowMinutes)
    requires forall g :: CountOf(cfg, events, g) == CountOf(cfg, pre, g) + (if g == MessageHash(cfg, e) then 1 else 0)
    requires forall g :: WithHash(cfg, events, g) == WithHash(cfg, pre, g) + (if g == MessageHash(cfg, e) then [e] else [])
    requires st'.misses == st.misses[MessageHash(cfg, e) := WithHash(cfg, events, MessageHash(cfg, e))]
    requires st'.missOrder == if MessageHash(cfg, e) in st.misses then st.missOrder else st.missOrder + [MessageHash(cfg, e)]
    ensures MissesAs(cfg, cache, events, now, st')
  {
    var h := MessageHash(cfg, e);
    assert forall g :: g in st'.misses <==> g in st.misses || g == h;
    assert OrderOf(st'.missOrder, st'.misses.Keys);
  }

  /** Whatever the window, the first loop keeps every cache key and every cached id. */
  lemma {:induction false} ClassifyKeepsIds(cfg: SinkConfig, cache: Cache, events: seq<LogEvent>, now: Time)
    ensures Classify(cfg, cache, events, now).cache.Keys == cache.Keys
    ensures forall h :: h in cache ==> Classify(cfg, cache, events, now).cache[h].logId == cache[h].logId
    ensures forall h :: h in Classify(cfg, cache, events, now).updates ==>
              h in cache && Classify(cfg, cache, events, now).updates[h].logId == cache[h].logId
    ensures forall h :: h in Classify(cfg, cache, events, now).updateOrder <==> h in Classify(cfg, cache, events, now).updates
    ensures forall h :: h in Classify(cfg, cache, events, now).missOrder <==> h in Classify(cfg, cache, events, now).misses
    decreases |events|
  {
    if events != [] {
      ClassifyKeepsIds(cfg, cache, events[..|events| - 1], now);
    }
  }

  // ---------------------------------------------------------------- phase 2

  /** Every pending row carries the hash of its own event. */
  ghost predicate HashedLogs(cfg: SinkConfig, logs: seq<NewLog>) {
    forall k :: 0 <= k < |logs| ==> logs[k].messageHash == MessageHash(cfg, logs[k].event)
  }

  /** Every event group sits under its own hash. */
  ghost predicate GroupsHashed(cfg: SinkConfig, misses: map<Hash, seq<LogEvent>>) {
    forall h, e :: h in misses && e in misses[h] ==> MessageHash(cfg, e) == h
  }

  /** Hashes of `order` found in the store become updates of the found row with their group's size. */
  ghost predicate UpdatesResolved(start: Plan, misses: map<Hash, seq<LogEvent>>, found: map<Hash, Found>, order: seq<Hash>, now: Time, plan: Plan) {
    && (forall h :: h in plan.updates <==> h in start.updates || (h in order && h in found))
    && (forall h :: h in plan.updates ==>
          plan.updates[h] == if h in order && h in found then Pending(found[h].logId, now, |GroupOf(misses, h)|) else start.updates[h])
    && OrderOf(plan.updateOrder, plan.updates.Keys)
  }

  /** ... and their cache entries point at the found row, refreshed to the flush time. */
  ghost predicate CacheResolved(start: Plan, found: map<Hash, Found>, order: seq<Hash>, now: Time, plan: Plan) {
    && (forall h :: h in plan.cache <==> h in start.cache || (h in order && h in found))
    && (forall h :: h in plan.cache ==>
          plan.cache[h] == if h in order && h in found then CacheEntry(found[h].logId, now) else start.cache[h])
  }

  /** The events of the hashes not found become pending rows, one per event and in the group's order. */
  ghost predicate LogsResolved(cfg: SinkConfig, start: Plan, misses: map<Hash, seq<LogEvent>>, found: map<Hash, Found>, order: seq<Hash>, plan: Plan) {
    && (forall h :: CountLogs(plan.newLogs, h) == CountLogs(start.newLogs, h) + (if h in order && h !in found then |GroupOf(misses, h)| else 0))
    && LogsOrdered(cfg, start, misses, found, order, plan)
    && HashedLogs(cfg, plan.newLogs)
    && (forall l :: l in plan.newLogs ==> l in start.newLogs || (l.messageHash in order && l.messageHash !in found))
  }

  /** ... in the order of their group. */
  ghost predicate LogsOrdered(cfg: SinkConfig, start: Plan, misses: map<Hash, seq<LogEvent>>, found: map<Hash, Found>, order: seq<Hash>, plan: Plan) {
    forall h :: LogsWith(plan.newLogs, h) == LogsWith(start.newLogs, h) + (if h in order && h !in found then NewLogsOf(cfg, GroupOf(misses, h)) else [])
  }

  /** The second loop, for a list of distinct hashes none of which is already pending. */
  lemma {:induction false} ResolveAllSpec(cfg: SinkConfig, start: Plan, misses: map<Hash, seq<LogEvent>>, found: map<Hash, Found>, order: seq<Hash>, now: Time)
    requires OrderOf(start.updateOrder, start.updates.Keys)
    requires forall i, j :: 0 <= i < j < |order| ==> order[i] != order[j]
    requires forall h :: h in order ==> h !in start.updates
    requires GroupsHashed(cfg, misses) && HashedLogs(cfg, start.newLogs)
    ensures UpdatesResolved(start, misses, found, order, now, ResolveAll(cfg, start, misses, found, order, now))
    ensures CacheResolved(start, found, order, now, ResolveAll(cfg, start, misses, found, order, now))
    ensures LogsResolved(cfg, start, misses, found, order, ResolveAll(cfg, start, misses, found, order, now))
    decreases |order|
  {
    if order != [] {
      var pre := order[..|order| - 1];
      var h := order[|order| - 1];
      assert order == pre + [h];
      ResolveAllSpec(cfg, start, misses, found, pre, now);
      var plan := ResolveAll(cfg, start, misses, found, pre, now);
      assert h !in pre;
      ResolveUpdatesStep(start, misses, found, pre, h, now, plan, ResolveOne(cfg, plan, misses, found, h, now));
      ResolveCacheStep(start, found, pre, h, now, plan, ResolveOne(cfg, plan, misses, found, h, now));
      ResolveLogsStep(cfg, start, misses, found, pre, h, plan, ResolveOne(cfg, plan, misses, found, h, now));
    }
  }

  lemma ResolveUpdatesStep(start: Plan, misses: map<Hash, seq<LogEvent>>, found: map<Hash, Found>, pre: seq<Hash>, h: Hash, now: Time, plan: Plan, plan': Plan)
    requires UpdatesResolved(start, misses, found, pre, now, plan)
    requires h !in pre && h !in start.updates
    requires plan'.updates == if h in found then plan.updates[h := Pending(found[h].logId, now, |GroupOf(misses, h)|)] else plan.updates
    requires plan'.updateOrder == if h in found && h !in plan.updates then plan.updateOrder + [h] else plan.updateOrder
    ensures UpdatesResolved(start, misses, found, pre + [h], now, plan')
  {
    assert h !in plan.updates;
  }

  lemma ResolveCacheStep(start: Plan, found: map<Hash, Found>, pre: seq<Hash>, h: Hash, now: Time, plan: Plan, plan': Plan)
    requires CacheResolved(start, found, pre, now, plan)
    requires h !in pre
    requires plan'.cache == if h in found then plan.cache[h := CacheEntry(found[h].logId, now)] else plan.cache
    ensures CacheResolved(start, found, pre + [h], now, plan')
  {
  }

  lemma ResolveLogsStep(cfg: SinkConfig, start: Plan, misses: map<Hash, seq<LogEvent>>, found: map<Hash, Found>, pre: seq<Hash>, h: Hash, plan: Plan, plan': Plan)
    requires LogsResolved(cfg, start, misses, found, pre, plan)
    requires h !in pre
    requires GroupsHashed(cfg, misses)
    requires plan'.newLogs == if h in found then plan.newLogs else plan.newLogs + NewLogsOf(cfg, GroupOf(misses, h))
    ensures LogsResolved(cfg, start, misses, found, pre + [h], plan')
  {
    LogsOrderedStep(cfg, start, misses, found, pre, h, plan, plan');
    LogsCountedStep(cfg, start, misses, found, pre, h, plan, plan');
  }

  lemma LogsCountedStep(cfg: SinkConfig, start: Plan, misses: map<Hash, seq<LogEvent>>, found: map<Hash, Found>, pre: seq<Hash>, h: Hash, plan: Plan, plan': Plan)
    requires forall g :: CountLogs(plan.newLogs, g) == CountLogs(start.newLogs, g) + (if g in pre && g !in found then |GroupOf(misses, g)| else 0)
    requires HashedLogs(cfg, plan.newLogs)
    requires forall l :: l in plan.newLogs ==> l in start.newLogs || (l.messageHash in pre && l.messageHash !in found)
    requires h !in pre
    requires GroupsHashed(cfg, misses)
    requires plan'.newLogs == if h in found then plan.newLogs else plan.newLogs + NewLogsOf(cfg, GroupOf(misses, h))
    ensures forall g :: CountLogs(plan'.newLogs, g) == CountLogs(start.newLogs, g) + (if g in pre + [h] && g !in found then |GroupOf(misses, g)| else 0)
    ensures HashedLogs(cfg, plan'.newLogs)
    ensures forall l :: l in plan'.newLogs ==> l in start.newLogs || (l.messageHash in pre + [h] && l.messageHash !in found)
  {
    if h !in found {
      var group := GroupOf(misses, h);
      assert forall e :: e in group ==> MessageHash(cfg, e) == h;
      AppendGroupCounts(cfg, plan.newLogs, group, h);
      AppendGroupHashed(cfg, plan.newLogs, group, h);
    }
  }

  lemma LogsOrderedStep(cfg: SinkConfig, start: Plan, misses: map<Hash, seq<LogEvent>>, found: map<Hash, Found>, pre: seq<Hash>, h: Hash, plan: Plan, plan': Plan)
    requires LogsOrdered(cfg, start, misses, found, pre, plan)
    requires h !in pre
    requires forall e :: e in GroupOf(misses, h) ==> MessageHash(cfg, e) == h
    requires plan'.newLogs == if h in found then plan.newLogs else plan.newLogs + NewLogsOf(cfg, GroupOf(misses, h))
    ensures LogsOrdered(cfg, start, misses, found, pre + [h], plan')
  {
    var added := if h in found then [] else NewLogsOf(cfg, GroupOf(misses, h));
    forall k | 0 <= k < |added| ensures added[k].messageHash == h {
      assert GroupOf(misses, h)[k] in GroupOf(misses, h);
    }
    assert plan'.newLogs == plan.newLogs + added;
    forall g ensures LogsWith(plan'.newLogs, g) ==
      LogsWith(start.newLogs, g) + (if g in pre + [h] && g !in found then NewLogsOf(cfg, GroupOf(misses, g)) else []) {
      LogsWithAppend(plan.newLogs, added, g);
      LogsWithSameHash(added, h, g);
      OrderedAt(LogsWith(start.newLogs, g), LogsWith(plan.newLogs, g), LogsWith(plan'.newLogs, g),
        if g in pre && g !in found then NewLogsOf(cfg, GroupOf(misses, g)) else [], if g == h then added else [],
        if g in pre + [h] && g !in found then NewLogsOf(cfg, GroupOf(misses, g)) else []);
    }
  }

  /** The sequence step behind LogsOrderedStep, with its terms named. */
  lemma OrderedAt(base: seq<NewLog>, before: seq<NewLog>, after: seq<NewLog>, had: seq<NewLog>, added: seq<NewLog>, has: seq<NewLog>)
    requires before == base + had && after == before + added
    requires had == [] || added == []
    requires has == had + added
    ensures after == base + has
  {
  }

  lemma AppendGroupCounts(cfg: SinkConfig, logs: seq<NewLog>, group: seq<LogEvent>, h: Hash)
    requires forall e :: e in group ==> MessageHash(cfg, e) == h
    ensures forall g :: CountLogs(logs + NewLogsOf(cfg, group), g) == CountLogs(logs, g) + (if g == h then |group| else 0)
  {
    forall g ensures CountLogs(logs + NewLogsOf(cfg, group), g) == CountLogs(logs, g) + (if g == h then |group| else 0) {
      CountLogsAppend(logs, NewLogsOf(cfg, group), g);
      CountLogsOfGroup(cfg, group, h, g);
    }
  }

  lemma AppendGroupHashed(cfg: SinkConfig, logs: seq<NewLog>, group: seq<LogEvent>, h: Hash)
    requires forall e :: e in group ==> MessageHash(cfg, e) == h
    requires HashedLogs(cfg, logs)
    ensures HashedLogs(cfg, logs + NewLogsOf(cfg, group))
    ensures forall l :: l in logs + NewLogsOf(cfg, group) ==> l in logs || l.messageHash == h
  {
    var added := NewLogsOf(cfg, group);
    forall l | l in added ensures l.messageHash == h {
      var k :| 0 <= k < |added| && added[k] == l;
      assert group[k] in group;
    }
  }

  // ---------------------------------------------------------------- phase 3

  /** Every pending update whose row still exists targets a row of its own hash. */
  ghost predicate Targets(rows: map<Id, LogRecord>, updates: map<Hash, Pending>) {
    forall h :: h in updates && updates[h].logId in rows ==> rows[updates[h].logId].messageHash == Some(h)
  }

  /** The row `id` once the updates of the hashes in `applied` have run: merged if it is the target of its hash. */
  function MergedRow(id: Id, r: LogRecord, updates: map<Hash, Pending>, applied: seq<Hash>): (r': LogRecord)
    ensures r'.messageHash == r.messageHash
    ensures r'.occurrenceCount >= r.occurrenceCount
  {
    if r.messageHash.Some? && r.messageHash.value in applied && r.messageHash.value in updates
       && updates[r.messageHash.value].logId == id
    then
      var p := updates[r.messageHash.value];
      AddOccurrences(r, p.count, p.lastOccurrence)
    else r
  }

  /**
   * The update loop touches no row twice and no row of another hash: each row ends up merged with
   * the one pending update of its hash that targets it, or unchanged.
   */
  lemma {:induction false} ApplyUpdatesSpec(rows: map<Id, LogRecord>, order: seq<Hash>, updates: map<Hash, Pending>)
    requires forall i, j :: 0 <= i < j < |order| ==> order[i] != order[j]
    requires Targets(rows, updates)
    ensures ApplyUpdates(rows, order, updates).Keys == rows.Keys
    ensures forall id :: id in rows ==> ApplyUpdates(rows, order, updates)[id] == MergedRow(id, rows[id], updates, order)
    decreases |order|
  {
    if order != [] {
      var pre := order[..|order| - 1];
      var h := order[|order| - 1];
      assert order == pre + [h];
      assert h !in pre;
      ApplyUpdatesSpec(rows, pre, updates);
      var prev := ApplyUpdates(rows, pre, updates);
      if h in updates {
        var p := updates[h];
        forall id | id in rows ensures UpdateById(prev, p.logId, p.count, p.lastOccurrence)[id] == MergedRow(id, rows[id], updates, order) {
          if id == p.logId {
            assert rows[id].messageHash == Some(h);
            assert prev[id] == rows[id];
          }
        }
      }
    }
  }

  // ---------------------------------------------------------------- phase 4

  /** The position of the last pending row with hash `h`, or -1 when there is none. */
  function LastWith(logs: seq<NewLog>, h: Hash): (k: int)
    ensures -1 <= k < |logs|
    ensures k >= 0 ==> logs[k].messageHash == h && forall j :: k < j < |logs| ==> logs[j].messageHash != h
    ensures k < 0 ==> forall j :: 0 <= j < |logs| ==> logs[j].messageHash != h
    decreases |logs|
  {
    if logs == [] then -1
    else if logs[|logs| - 1].messageHash == h then |logs| - 1
    else LastWith(logs[..|logs| - 1], h)
  }

  /** There is a last row with hash `h` exactly when some row has it. */
  lemma {:induction false} LastWithCount(logs: seq<NewLog>, h: Hash)
    ensures LastWith(logs, h) >= 0 <==> CountLogs(logs, h) > 0
    decreases |logs|
  {
    if logs != [] {
      LastWithCount(logs[..|logs| - 1], h);
    }
  }

  /** The row written for `log`, with or without the deduplication columns. */
  function RecordFor(cfg: SinkConfig, log: NewLog, now: Time): LogRecord {
    if cfg.enableDeduplication then DedupRecord(cfg, log, now) else PlainRecord(log, now)
  }

  /**
   * The insert loop writes one row per pending row under consecutive fresh ids, leaves the existing
   * rows alone and, with deduplication, points the cache of each inserted hash at its last row.
   */
  lemma InsertRowsSpec(cfg: SinkConfig, s: SinkState, logs: seq<NewLog>, now: Time)
    requires forall id :: id in s.rows ==> id < s.nextId
    ensures InsertedAs(cfg, s, logs, now, InsertRows(cfg, s, logs, now))
  {
    InsertRowsWrites(cfg, s, logs, now);
    InsertRowsCaches(cfg, s, logs, now);
  }

  /** What the insert loop from `s` over `logs` leaves, as state `r`. */
  ghost predicate InsertedAs(cfg: SinkConfig, s: SinkState, logs: seq<NewLog>, now: Time, r: SinkState) {
    && r.nextId == s.nextId + |logs|
    && (forall id :: id in r.rows <==> id in s.rows || s.nextId <= id < s.nextId + |logs|)
    && (forall id :: id in s.rows ==> r.rows[id] == s.rows[id])
    && (forall k :: 0 <= k < |logs| ==> r.rows[s.nextId + k] == RecordFor(cfg, logs[k], now))
    && (!cfg.enableDeduplication ==> r.cache == s.cache)
    && (cfg.enableDeduplication ==> forall h :: h in r.cache <==> h in s.cache || LastWith(logs, h) >= 0)
    && (cfg.enableDeduplication ==> forall h :: h in r.cache ==>
          r.cache[h] == if LastWith(logs, h) >= 0 then CacheEntry(s.nextId + LastWith(logs, h), now) else s.cache[h])
  }

  /** The rows and ids of the insert loop. */
  lemma {:induction false} InsertRowsWrites(cfg: SinkConfig, s: SinkState, logs: seq<NewLog>, now: Time)
    requires forall id :: id in s.rows ==> id < s.nextId
    ensures InsertRows(cfg, s, logs, now).nextId == s.nextId + |logs|
    ensures forall id :: id in InsertRows(cfg, s, logs, now).rows <==> id in s.rows || s.nextId <= id < s.nextId + |logs|
    ensures forall id :: id in s.rows ==> InsertRows(cfg, s, logs, now).rows[id] == s.rows[id]
    ensures forall k :: 0 <= k < |logs| ==> InsertRows(cfg, s, logs, now).rows[s.nextId + k] == RecordFor(cfg, logs[k], now)
    decreases |logs|
  {
    if logs != [] {
      var pre := logs[..|logs| - 1];
      InsertRowsWrites(cfg, s, pre, now);
      var prev := InsertRows(cfg, s, pre, now);
      assert InsertRows(cfg, s, logs, now).rows == prev.rows[prev.nextId := RecordFor(cfg, logs[|logs| - 1], now)];
      forall k | 0 <= k < |pre| ensures pre[k] == logs[k] {
      }
    }
  }

  /** The cache of the insert loop: each inserted hash points at its last row. */
  lemma {:induction false} InsertRowsCaches(cfg: SinkConfig, s: SinkState, logs: seq<NewLog>, now: Time)
    ensures InsertRows(cfg, s, logs, now).nextId == s.nextId + |logs|
    ensures !cfg.enableDeduplication ==> InsertRows(cfg, s, logs, now).cache == s.cache
    ensures cfg.enableDeduplication ==> forall h :: h in InsertRows(cfg, s, logs, now).cache <==> h in s.cache || LastWith(logs, h) >= 0
    ensures cfg.enableDeduplication ==> forall h :: h in InsertRows(cfg, s, logs, now).cache ==>
              InsertRows(cfg, s, logs, now).cache[h] ==
                if LastWith(logs, h) >= 0 then CacheEntry(s.nextId + LastWith(logs, h), now) else s.cache[h]
    decreases |logs|
  {
    if logs != [] {
      var pre := logs[..|logs| - 1];
      InsertRowsCaches(cfg, s, pre, now);
      forall h ensures LastWith(logs, h) == if logs[|logs| - 1].messageHash == h then |logs| - 1 else LastWith(pre, h) {
      }
    }
  }

  // ---------------------------------------------------------------- both loops together

  /** The outcome of the two loops of a flush over the accepted events `valid`. */
  function PlanOf(cfg: SinkConfig, cache: Cache, valid: seq<LogEvent>, now: Time, found: map<Hash, Found>): Plan {
    Resolve(cfg, Classify(cfg, cache, valid, now), found, now)
  }

  /** What the two loops guarantee, for a non-negative window. */
  ghost predicate PlannedAs(cfg: SinkConfig, cache: Cache, valid: seq<LogEvent>, now: Time, found: map<Hash, Found>, plan: Plan) {
    var ws := now - cfg.deduplicationWindowMinutes;
    && (forall h :: h in plan.updates <==> CountOf(cfg, valid, h) > 0 && (IsHit(cache, h, ws) || h in found))
    && (forall h :: h in plan.updates ==>
          plan.updates[h] == Pending(if IsHit(cache, h, ws) then cache[h].logId else found[h].logId, now, CountOf(cfg, valid, h)))
    && OrderOf(plan.updateOrder, plan.updates.Keys)
    && (forall h :: CountLogs(plan.newLogs, h) ==
          if CountOf(cfg, valid, h) > 0 && !IsHit(cache, h, ws) && h !in found then CountOf(cfg, valid, h) else 0)
    && (forall h :: LogsWith(plan.newLogs, h) ==
          if CountOf(cfg, valid, h) > 0 && !IsHit(cache, h, ws) && h !in found then NewLogsOf(cfg, WithHash(cfg, valid, h)) else [])
    && HashedLogs(cfg, plan.newLogs)
    && (forall h :: h in plan.cache <==> h in cache || h in plan.updates)
    && (forall h :: h in plan.cache ==>
          plan.cache[h] == if h in plan.updates then CacheEntry(plan.updates[h].logId, now) else cache[h])
  }

  /**
   * Per hash of the batch: a trusted cache entry or a found row gives one update carrying all of the
   * hash's events, otherwise every event becomes its own pending row; the cache of merged hashes points
   * at the merged row, refreshed to the flush time.
   */
  lemma PlanSpec(cfg: SinkConfig, cache: Cache, valid: seq<LogEvent>, now: Time, found: map<Hash, Found>)
    requires cfg.deduplicationWindowMinutes >= 0
    ensures PlannedAs(cfg, cache, valid, now, found, PlanOf(cfg, cache, valid, now, found))
  {
    var split := Classify(cfg, cache, valid, now);
    ClassifySpec(cfg, cache, valid, now);
    var start := Plan(split.cache, split.updates, split.updateOrder, []);
    SplitGroups(cfg, cache, valid, now, split);
    ResolveAllSpec(cfg, start, split.misses, found, split.missOrder, now);
    PlanFromParts(cfg, cache, valid, now, found, split, start, ResolveAll(cfg, start, split.misses, found, split.missOrder, now));
  }

  /** After the first loop, the groups are hashed, sized by their counts and disjoint from the updates. */
  lemma SplitGroups(cfg: SinkConfig, cache: Cache, valid: seq<LogEvent>, now: Time, split: Split)
    requires UpdatesAs(cfg, cache, valid, now, split) && MissesAs(cfg, cache, valid, now, split)
    ensures GroupsHashed(cfg, split.misses)
    ensures forall h | h in split.misses :: |split.misses[h]| == CountOf(cfg, valid, h)
    ensures forall i, j :: 0 <= i < j < |split.missOrder| ==> split.missOrder[i] != split.missOrder[j]
    ensures forall h :: h in split.missOrder ==> h !in split.updates
  {
    forall h, e | h in split.misses && e in split.misses[h] ensures MessageHash(cfg, e) == h {
      WithHashSize(cfg, valid, h);
    }
    forall h | h in split.misses ensures |split.misses[h]| == CountOf(cfg, valid, h) {
      WithHashSize(cfg, valid, h);
    }
  }

  lemma PlanFromParts(cfg: SinkConfig, cache: Cache, valid: seq<LogEvent>, now: Time, found: map<Hash, Found>, split: Split, start: Plan, plan: Plan)
    requires cfg.deduplicationWindowMinutes >= 0
    requires ClassifiedAs(cfg, cache, valid, now, split)
    requires start == Plan(split.cache, split.updates, split.updateOrder, [])
    requires forall h | h in split.misses :: |split.misses[h]| == CountOf(cfg, valid, h)
    requires UpdatesResolved(start, split.misses, found, split.missOrder, now, plan)
    requires CacheResolved(start, found, split.missOrder, now, plan)
    requires LogsResolved(cfg, start, split.misses, found, split.missOrder, plan)
    ensures PlannedAs(cfg, cache, valid, now, found, plan)
  {
    PlanUpdates(cfg, cache, valid, now, found, split, start, plan);
    PlanLogs(cfg, cache, valid, now, found, split, start, plan);
    PlanCache(cfg, cache, valid, now, found, split, start, plan);
  }

  lemma PlanUpdates(cfg: SinkConfig, cache: Cache, valid: seq<LogEvent>, now: Time, found: map<Hash, Found>, split: Split, start: Plan, plan: Plan)
    requires UpdatesAs(cfg, cache, valid, now, split) && MissesAs(cfg, cache, valid, now, split)
    requires start.updates == split.updates
    requires forall h | h in split.misses :: |split.misses[h]| == CountOf(cfg, valid, h)
    requires UpdatesResolved(start, split.misses, found, split.missOrder, now, plan)
    ensures var ws := now - cfg.deduplicationWindowMinutes;
      && (forall h :: h in plan.updates <==> CountOf(cfg, valid, h) > 0 && (IsHit(cache, h, ws) || h in found))
      && (forall h :: h in plan.updates ==>
            plan.updates[h] == Pending(if IsHit(cache, h, ws) then cache[h].logId else found[h].logId, now, CountOf(cfg, valid, h)))
  {
  }

  lemma PlanLogs(cfg: SinkConfig, cache: Cache, valid: seq<LogEvent>, now: Time, found: map<Hash, Found>, split: Split, start: Plan, plan: Plan)
    requires MissesAs(cfg, cache, valid, now, split)
    requires start.newLogs == []
    requires forall h | h in split.misses :: |split.misses[h]| == CountOf(cfg, valid, h)
    requires LogsResolved(cfg, start, split.misses, found, split.missOrder, plan)
    ensures var ws := now - cfg.deduplicationWindowMinutes;
      forall h :: CountLogs(plan.newLogs, h) ==
        if CountOf(cfg, valid, h) > 0 && !IsHit(cache, h, ws) && h !in found then CountOf(cfg, valid, h) else 0
    ensures var ws := now - cfg.deduplicationWindowMinutes;
      forall h :: LogsWith(plan.newLogs, h) ==
        if CountOf(cfg, valid, h) > 0 && !IsHit(cache, h, ws) && h !in found then NewLogsOf(cfg, WithHash(cfg, valid, h)) else []
  {
    forall h ensures LogsWith(plan.newLogs, h) == LogsWith([], h) + (if h in split.missOrder && h !in found then NewLogsOf(cfg, GroupOf(split.misses, h)) else []) {
    }
  }

  lemma PlanCache(cfg: SinkConfig, cache: Cache, valid: seq<LogEvent>, now: Time, found: map<Hash, Found>, split: Split, start: Plan, plan: Plan)
    requires cfg.deduplicationWindowMinutes >= 0
    requires UpdatesAs(cfg, cache, valid, now, split) && MissesAs(cfg, cache, valid, now, split) && CacheAs(cache, now, split)
    requires start.updates == split.updates && start.cache == split.cache
    requires UpdatesResolved(start, split.misses, found, split.missOrder, now, plan)
    requires CacheResolved(start, found, split.missOrder, now, plan)
    ensures forall h :: h in plan.cache <==> h in cache || h in plan.updates
    ensures forall h :: h in plan.cache ==>
      plan.cache[h] == if h in plan.updates then CacheEntry(plan.updates[h].logId, now) else cache[h]
  {
  }

  // ---------------------------------------------------------------- the cache invariant

  /**
   * The sink's invariant: ids below `nextId` are the only ones used, and a cache entry whose row still
   * exists points at a row of its own hash.
   */
  ghost predicate CacheConsistent(s: SinkState) {
    && (forall id :: id in s.rows ==> id < s.nextId)
    && (forall h :: h in s.cache ==> s.cache[h].logId < s.nextId)
    && (forall h :: h in s.cache && s.cache[h].logId in s.rows ==> s.rows[s.cache[h].logId].messageHash == Some(h))
  }

  /** The first loop queries exactly the hashes it grouped events under. */
  lemma ClassifyListsMisses(cfg: SinkConfig, cache: Cache, valid: seq<LogEvent>, now: Time)
    ensures forall h :: h in Classify(cfg, cache, valid, now).missOrder ==> h in Classify(cfg, cache, valid, now).misses
    ensures forall h :: h in Classify(cfg, cache, valid, now).updateOrder <==> h in Classify(cfg, cache, valid, now).updates
  {
    ClassifyKeepsIds(cfg, cache, valid, now);
  }

  /** The update loop visits exactly the pending updates. */
  lemma ResolveListsUpdates(cfg: SinkConfig, split: Split, found: map<Hash, Found>, now: Time)
    requires forall h :: h in split.updateOrder <==> h in split.updates
    ensures forall h :: h in Resolve(cfg, split, found, now).updateOrder ==> h in Resolve(cfg, split, found, now).updates
  {
    ResolveAllKeeps(cfg, Plan(split.cache, split.updates, split.updateOrder, []), split.misses, found, split.missOrder, now);
  }

  /** Whatever the lookup answered, the second loop only points hashes at cached or found rows. */
  lemma {:induction false} ResolveAllKeeps(cfg: SinkConfig, start: Plan, misses: map<Hash, seq<LogEvent>>, found: map<Hash, Found>, order: seq<Hash>, now: Time)
    ensures var plan := ResolveAll(cfg, start, misses, found, order, now);
      && (forall h :: h in plan.cache ==>
            (h in start.cache && plan.cache[h].logId == start.cache[h].logId) || (h in order && h in found && plan.cache[h].logId == found[h].logId))
      && (forall h :: h in plan.updates ==>
            (h in start.updates && plan.updates[h].logId == start.updates[h].logId) || (h in order && h in found && plan.updates[h].logId == found[h].logId))
      && ((forall h :: h in start.updateOrder <==> h in start.updates) ==> (forall h :: h in plan.updateOrder <==> h in plan.updates))
    decreases |order|
  {
    if order != [] {
      ResolveAllKeeps(cfg, start, misses, found, order[..|order| - 1], now);
    }
  }

  /** The update loop keeps every row and every row's hash. */
  lemma {:induction false} ApplyUpdatesKeepsHashes(rows: map<Id, LogRecord>, order: seq<Hash>, updates: map<Hash, Pending>)
    ensures ApplyUpdates(rows, order, updates).Keys == rows.Keys
    ensures forall id :: id in rows ==> ApplyUpdates(rows, order, updates)[id].messageHash == rows[id].messageHash
    decreases |order|
  {
    if order != [] {
      ApplyUpdatesKeepsHashes(rows, order[..|order| - 1], updates);
    }
  }

  /** Inserting, completely or up to a failure, keeps the invariant. */
  lemma InsertBatchKeepsConsistent(cfg: SinkConfig, s: SinkState, logs: seq<NewLog>, now: Time, fault: Fault)
    requires CacheConsistent(s)
    ensures CacheConsistent(InsertBatch(cfg, s, logs, now, fault))
  {
    if logs != [] {
      if fault.InsertFailsAt? && fault.k < |logs| {
        InsertRowsKeepsConsistent(cfg, s, logs[..fault.k], now, false, 1);
      } else if fault.InsertFailsAt? && fault.k == |logs| {
        InsertRowsKeepsConsistent(cfg, s, logs, now, false, 0);
      } else {
        InsertRowsKeepsConsistent(cfg, s, logs, now, true, 0);
      }
    }
  }

  /** The insert loop keeps the invariant, also when its rows are rolled back and further ids are spent. */
  lemma InsertRowsKeepsConsistent(cfg: SinkConfig, s: SinkState, logs: seq<NewLog>, now: Time, committed: bool, spent: nat)
    requires CacheConsistent(s)
    ensures var r := InsertRows(cfg, s, logs, now);
      CacheConsistent(SinkState(r.cache, if committed then r.rows else s.rows, r.nextId + spent))
  {
    InsertRowsSpec(cfg, s, logs, now);
    var r := InsertRows(cfg, s, logs, now);
    CachedIdsBelow(cfg, s, logs, now, r);
    if committed {
      InsertedRowsTargets(cfg, s, logs, now, r);
    } else {
      OldRowsTargets(cfg, s, logs, now, r);
    }
  }

  /** After the insert loop, every cache entry points below the next id. */
  lemma CachedIdsBelow(cfg: SinkConfig, s: SinkState, logs: seq<NewLog>, now: Time, r: SinkState)
    requires CacheConsistent(s) && InsertedAs(cfg, s, logs, now, r)
    ensures forall h :: h in r.cache ==> r.cache[h].logId < r.nextId
  {
  }

  /** After a committed insert loop, a cache entry whose row exists points at a row of its own hash. */
  lemma InsertedRowsTargets(cfg: SinkConfig, s: SinkState, logs: seq<NewLog>, now: Time, r: SinkState)
    requires CacheConsistent(s) && InsertedAs(cfg, s, logs, now, r)
    ensures forall id :: id in r.rows ==> id < r.nextId
    ensures forall h :: h in r.cache && r.cache[h].logId in r.rows ==> r.rows[r.cache[h].logId].messageHash == Some(h)
  {
    forall h | h in r.cache && r.cache[h].logId in r.rows ensures r.rows[r.cache[h].logId].messageHash == Some(h) {
      PointTarget(cfg, s, logs, now, r, h, LastWith(logs, h));
    }
  }

  lemma PointTarget(cfg: SinkConfig, s: SinkState, logs: seq<NewLog>, now: Time, r: SinkState, h: Hash, k: int)
    requires CacheConsistent(s)
    requires k < |logs| && (k >= 0 ==> logs[k].messageHash == h)
    requires h in r.cache && r.cache[h].logId in r.rows
    requires cfg.enableDeduplication ==> (h in s.cache || k >= 0)
    requires cfg.enableDeduplication ==> r.cache[h] == if k >= 0 then CacheEntry(s.nextId + k, now) else s.cache[h]
    requires !cfg.enableDeduplication ==> r.cache == s.cache
    requires forall k :: 0 <= k < |logs| ==> s.nextId + k in r.rows && r.rows[s.nextId + k] == RecordFor(cfg, logs[k], now)
    requires forall id :: id in r.rows && id < s.nextId ==> id in s.rows
    requires forall id :: id in s.rows ==> id in r.rows && r.rows[id] == s.rows[id]
    ensures r.rows[r.cache[h].logId].messageHash == Some(h)
  {
    if cfg.enableDeduplication && k >= 0 {
      NewRowTarget(cfg, s, logs, now, r, h, k);
    } else {
      OldRowTarget(s, r, h);
    }
  }

  lemma NewRowTarget(cfg: SinkConfig, s: SinkState, logs: seq<NewLog>, now: Time, r: SinkState, h: Hash, k: nat)
    requires cfg.enableDeduplication && k < |logs| && logs[k].messageHash == h
    requires s.nextId + k in r.rows && r.rows[s.nextId + k] == RecordFor(cfg, logs[k], now)
    requires h in r.cache && r.cache[h] == CacheEntry(s.nextId + k, now)
    ensures r.rows[r.cache[h].logId].messageHash == Some(h)
  {
  }

  lemma OldRowTarget(s: SinkState, r: SinkState, h: Hash)
    requires CacheConsistent(s)
    requires h in r.cache && h in s.cache && r.cache[h] == s.cache[h]
    requires r.cache[h].logId in r.rows
    requires forall id :: id in r.rows && id < s.nextId ==> id in s.rows
    requires forall id :: id in s.rows ==> id in r.rows && r.rows[id] == s.rows[id]
    ensures r.rows[r.cache[h].logId].messageHash == Some(h)
  {
  }

  /** After a rolled-back insert loop, a cache entry whose row exists still points at a row of its own hash. */
  lemma OldRowsTargets(cfg: SinkConfig, s: SinkState, logs: seq<NewLog>, now: Time, r: SinkState)
    requires CacheConsistent(s) && InsertedAs(cfg, s, logs, now, r)
    ensures forall h :: h in r.cache && r.cache[h].logId in s.rows ==> s.rows[r.cache[h].logId].messageHash == Some(h)
  {
    forall h | h in r.cache ensures r.cache[h].logId in s.rows ==> s.rows[r.cache[h].logId].messageHash == Some(h) {
      if cfg.enableDeduplication && LastWith(logs, h) >= 0 {
        assert r.cache[h].logId >= s.nextId;
      }
    }
  }

  /** A flush keeps the invariant, provided the lookup, when it ran, answered truthfully. */
  lemma EmitKeepsConsistent(cfg: SinkConfig, s: SinkState, events: seq<LogEvent>, now: Time, found: map<Hash, Found>, fault: Fault)
    requires CacheConsistent(s)
    requires cfg.enableDeduplication && fault != OpenFails && fault != LookupFails ==> LookupAnswered(cfg, s, events, now, found)
    ensures CacheConsistent(Emit(cfg, s, events, now, found, fault))
  {
    var valid := Filter(cfg, events);
    if valid == [] || fault == OpenFails {
    } else if cfg.enableDeduplication {
      WithDedupKeepsConsistent(cfg, s, valid, now, found, fault);
    } else {
      InsertBatchKeepsConsistent(cfg, s, PlainLogs(valid), now, fault);
    }
  }

  lemma WithDedupKeepsConsistent(cfg: SinkConfig, s: SinkState, valid: seq<LogEvent>, now: Time, found: map<Hash, Found>, fault: Fault)
    requires CacheConsistent(s)
    requires fault != LookupFails ==> CheckLookup(s.rows, MissOrder(cfg, s.cache, valid, now), now - cfg.deduplicationWindowMinutes, found).answered
    ensures CacheConsistent(WithDedup(cfg, s, valid, now, found, fault))
  {
    var split := Classify(cfg, s.cache, valid, now);
    if split.missOrder != [] && fault == LookupFails {
      ClassifyKeepsIds(cfg, s.cache, valid, now);
    } else {
      var plan := Resolve(cfg, split, found, now);
      forall h | h in split.missOrder && h in found
        ensures found[h].logId in s.rows && s.rows[found[h].logId].messageHash == Some(h)
      {
        assert fault != LookupFails;
      }
      PlanKeepsConsistent(cfg, s, valid, now, found);
      var mid := s.(cache := plan.cache);
      if plan.updateOrder != [] && fault == UpdateFails {
      } else {
        UpdatesKeepConsistent(mid, plan.updateOrder, plan.updates);
        InsertBatchKeepsConsistent(cfg, mid.(rows := ApplyUpdates(s.rows, plan.updateOrder, plan.updates)), plan.newLogs, now, fault);
      }
    }
  }

  /** The two loops only point hashes at cached rows or at rows the lookup found for them. */
  lemma PlanKeepsConsistent(cfg: SinkConfig, s: SinkState, valid: seq<LogEvent>, now: Time, found: map<Hash, Found>)
    requires CacheConsistent(s)
    requires forall h :: h in Classify(cfg, s.cache, valid, now).missOrder && h in found ==>
      found[h].logId in s.rows && s.rows[found[h].logId].messageHash == Some(h)
    ensures CacheConsistent(s.(cache := Resolve(cfg, Classify(cfg, s.cache, valid, now), found, now).cache))
  {
    var split := Classify(cfg, s.cache, valid, now);
    ClassifyKeepsIds(cfg, s.cache, valid, now);
    var start := Plan(split.cache, split.updates, split.updateOrder, []);
    ResolveAllKeeps(cfg, start, split.misses, found, split.missOrder, now);
    CacheTargetsKept(s, split.cache, ResolveAll(cfg, start, split.misses, found, split.missOrder, now).cache, split.missOrder, found);
  }

  /** A cache whose ids are the old ones or those of found rows of the right hash keeps the invariant. */
  lemma CacheTargetsKept(s: SinkState, c0: Cache, c1: Cache, order: seq<Hash>, found: map<Hash, Found>)
    requires CacheConsistent(s)
    requires c0.Keys == s.cache.Keys
    requires forall h :: h in s.cache ==> c0[h].logId == s.cache[h].logId
    requires forall h :: h in c1 ==>
      (h in c0 && c1[h].logId == c0[h].logId) || (h in order && h in found && c1[h].logId == found[h].logId)
    requires forall h :: h in order && h in found ==>
      found[h].logId in s.rows && s.rows[found[h].logId].messageHash == Some(h)
    ensures CacheConsistent(s.(cache := c1))
  {
  }

  /** The update loop keeps the invariant: it keeps every row and every row's hash. */
  lemma UpdatesKeepConsistent(s: SinkState, order: seq<Hash>, updates: map<Hash, Pending>)
    requires CacheConsistent(s)
    ensures CacheConsistent(s.(rows := ApplyUpdates(s.rows, order, updates)))
  {
    ApplyUpdatesKeepsHashes(s.rows, order, updates);
  }

  // ---------------------------------------------------------------- a whole flush

  /** How many of the ids `lo .. lo + n - 1` hold a row with hash `h`. */
  function CountRows(rows: map<Id, LogRecord>, lo: Id, n: nat, h: Hash): nat
    decreases n
  {
    if n == 0 then 0
    else CountRows(rows, lo, n - 1, h) + (if lo + n - 1 in rows && rows[lo + n - 1].messageHash == Some(h) then 1 else 0)
  }

  /** The rows written for `logs` from id `lo` on carry as many copies of each hash as `logs` does. */
  lemma {:induction false} CountRowsOfBlock(cfg: SinkConfig, rows: map<Id, LogRecord>, lo: Id, logs: seq<NewLog>, now: Time, n: nat, h: Hash)
    requires n <= |logs|
    requires forall k :: 0 <= k < |logs| ==> lo + k in rows && rows[lo + k] == DedupRecord(cfg, logs[k], now)
    ensures CountRows(rows, lo, n, h) == CountLogs(logs[..n], h)
    decreases n
  {
    if n > 0 {
      CountRowsOfBlock(cfg, rows, lo, logs, now, n - 1, h);
      assert logs[..n][..n - 1] == logs[..n - 1];
    }
  }

  /** The rows with hash `h` among the ids `lo .. lo + n - 1`, in id order. */
  function RowsWith(rows: map<Id, LogRecord>, lo: Id, n: nat, h: Hash): seq<LogRecord>
    decreases n
  {
    if n == 0 then []
    else RowsWith(rows, lo, n - 1, h) + (if lo + n - 1 in rows && rows[lo + n - 1].messageHash == Some(h) then [rows[lo + n - 1]] else [])
  }

  /** The rows the insert loop writes for `logs` with deduplication, in order. */
  function DedupRecords(cfg: SinkConfig, logs: seq<NewLog>, now: Time): (records: seq<LogRecord>)
    ensures |records| == |logs|
    ensures forall k :: 0 <= k < |logs| ==> records[k] == DedupRecord(cfg, logs[k], now)
  {
    seq(|logs|, k requires 0 <= k < |logs| => DedupRecord(cfg, logs[k], now))
  }

  /** The ids from `lo` on hold the rows written for `logs`, in order. */
  ghost predicate WrittenFrom(cfg: SinkConfig, rows: map<Id, LogRecord>, lo: Id, logs: seq<NewLog>, now: Time) {
    forall k :: 0 <= k < |logs| ==> lo + k in rows && rows[lo + k] == DedupRecord(cfg, logs[k], now)
  }

  /** The rows written for `logs` from id `lo` on hold, for each hash, the records of its pending rows in order. */
  lemma {:induction false} RowsWithOfBlock(cfg: SinkConfig, rows: map<Id, LogRecord>, lo: Id, logs: seq<NewLog>, now: Time, n: nat, h: Hash)
    requires n <= |logs| && WrittenFrom(cfg, rows, lo, logs, now)
    ensures RowsWith(rows, lo, n, h) == DedupRecords(cfg, LogsWith(logs[..n], h), now)
    decreases n
  {
    if n > 0 {
      RowsWithOfBlock(cfg, rows, lo, logs, now, n - 1, h);
      assert logs[..n][..n - 1] == logs[..n - 1];
      var pre := LogsWith(logs[..n - 1], h);
      var last := if logs[n - 1].messageHash == h then [logs[n - 1]] else [];
      assert LogsWith(logs[..n], h) == pre + last;
      assert lo + (n - 1) in rows && rows[lo + (n - 1)] == DedupRecord(cfg, logs[n - 1], now);
      assert DedupRecords(cfg, pre + last, now) == DedupRecords(cfg, pre, now) + DedupRecords(cfg, last, now);
    }
  }

  /** Rows and cache after a flush without faults, phase by phase. */
  ghost predicate FlushedAs(cfg: SinkConfig, s: SinkState, plan: Plan, now: Time, s': SinkState) {
    && s'.nextId == s.nextId + |plan.newLogs|
    && (forall id :: id in s'.rows <==> id in s.rows || s.nextId <= id < s'.nextId)
    && (forall id :: id in s.rows ==> s'.rows[id] == MergedRow(id, s.rows[id], plan.updates, plan.updateOrder))
    && (forall k :: 0 <= k < |plan.newLogs| ==> s'.rows[s.nextId + k] == DedupRecord(cfg, plan.newLogs[k], now))
    && (forall h :: h in s'.cache <==> h in plan.cache || LastWith(plan.newLogs, h) >= 0)
    && (forall h :: h in s'.cache ==>
          s'.cache[h] == if LastWith(plan.newLogs, h) >= 0 then CacheEntry(s.nextId + LastWith(plan.newLogs, h), now) else plan.cache[h])
  }

  /** A flush with deduplication and no fault: its updates, then its inserts, computed from the plan. */
  lemma FlushSpec(cfg: SinkConfig, s: SinkState, events: seq<LogEvent>, now: Time, found: map<Hash, Found>)
    requires cfg.enableDeduplication && cfg.deduplicationWindowMinutes >= 0
    requires CacheConsistent(s) && LookupAnswered(cfg, s, events, now, found)
    requires Filter(cfg, events) != []
    ensures PlannedAs(cfg, s.cache, Filter(cfg, events), now, found, PlanOf(cfg, s.cache, Filter(cfg, events), now, found))
    ensures FlushedAs(cfg, s, PlanOf(cfg, s.cache, Filter(cfg, events), now, found), now, Emit(cfg, s, events, now, found, NoFault))
  {
    var valid := Filter(cfg, events);
    var plan := PlanOf(cfg, s.cache, valid, now, found);
    var updated := s.(cache := plan.cache, rows := ApplyUpdates(s.rows, plan.updateOrder, plan.updates));
    EmitInPhases(cfg, s, events, now, found);
    PlanSpec(cfg, s.cache, valid, now, found);
    PlanTargets(cfg, s, valid, now, found, plan);
    ApplyUpdatesSpec(s.rows, plan.updateOrder, plan.updates);
    InsertRowsSpec(cfg, updated, plan.newLogs, now);
    FlushedFromPhases(cfg, s, plan, now, updated, InsertRows(cfg, updated, plan.newLogs, now));
  }

  /** A flush with deduplication and no fault applies its plan's updates, then inserts its pending rows. */
  lemma EmitInPhases(cfg: SinkConfig, s: SinkState, events: seq<LogEvent>, now: Time, found: map<Hash, Found>)
    requires cfg.enableDeduplication && Filter(cfg, events) != []
    ensures var plan := PlanOf(cfg, s.cache, Filter(cfg, events), now, found);
      Emit(cfg, s, events, now, found, NoFault) ==
        InsertRows(cfg, s.(cache := plan.cache, rows := ApplyUpdates(s.rows, plan.updateOrder, plan.updates)), plan.newLogs, now)
  {
  }

  /** The updates of a plan target rows of their own hash. */
  lemma PlanTargets(cfg: SinkConfig, s: SinkState, valid: seq<LogEvent>, now: Time, found: map<Hash, Found>, plan: Plan)
    requires CacheConsistent(s)
    requires CheckLookup(s.rows, MissOrder(cfg, s.cache, valid, now), now - cfg.deduplicationWindowMinutes, found).answered
    requires PlannedAs(cfg, s.cache, valid, now, found, plan)
    ensures Targets(s.rows, plan.updates)
  {
    var ws := now - cfg.deduplicationWindowMinutes;
    forall h | h in plan.updates && plan.updates[h].logId in s.rows ensures s.rows[plan.updates[h].logId].messageHash == Some(h) {
      if !IsHit(s.cache, h, ws) {
        assert Qualifies(s.rows[found[h].logId], h, ws);
      }
    }
  }

  lemma FlushedFromPhases(cfg: SinkConfig, s: SinkState, plan: Plan, now: Time, updated: SinkState, s': SinkState)
    requires cfg.enableDeduplication
    requires forall id :: id in s.rows ==> id < s.nextId
    requires updated.cache == plan.cache && updated.nextId == s.nextId
    requires updated.rows.Keys == s.rows.Keys
    requires forall id :: id in s.rows ==> updated.rows[id] == MergedRow(id, s.rows[id], plan.updates, plan.updateOrder)
    requires s'.nextId == updated.nextId + |plan.newLogs|
    requires forall id :: id in s'.rows <==> id in updated.rows || updated.nextId <= id < updated.nextId + |plan.newLogs|
    requires forall id :: id in updated.rows ==> s'.rows[id] == updated.rows[id]
    requires forall k :: 0 <= k < |plan.newLogs| ==> s'.rows[updated.nextId + k] == RecordFor(cfg, plan.newLogs[k], now)
    requires forall h :: h in s'.cache <==> h in updated.cache || LastWith(plan.newLogs, h) >= 0
    requires forall h :: h in s'.cache ==>
      s'.cache[h] == if LastWith(plan.newLogs, h) >= 0 then CacheEntry(updated.nextId + LastWith(plan.newLogs, h), now) else updated.cache[h]
    ensures FlushedAs(cfg, s, plan, now, s')
  {
    forall id | id in s.rows ensures s'.rows[id] == MergedRow(id, s.rows[id], plan.updates, plan.updateOrder) {
      assert id in updated.rows;
    }
    forall k | 0 <= k < |plan.newLogs| ensures s'.rows[s.nextId + k] == DedupRecord(cfg, plan.newLogs[k], now) {
    }
    forall id ensures id in s'.rows <==> id in s.rows || s.nextId <= id < s'.nextId {
    }
  }

  /** The number of rows with hash `h` that a flush from `s` to `s'` inserted. */
  function InsertedWith(s: SinkState, s': SinkState, h: Hash): nat {
    if s'.nextId >= s.nextId then CountRows(s'.rows, s.nextId, s'.nextId - s.nextId, h) else 0
  }

  /** The rows with hash `h` that a flush from `s` to `s'` inserted, in id order. */
  function InsertedRows(s: SinkState, s': SinkState, h: Hash): seq<LogRecord> {
    if s'.nextId >= s.nextId then RowsWith(s'.rows, s.nextId, s'.nextId - s.nextId, h) else []
  }

  /**
   * The deduplication promise for hash `h` of the accepted events `valid`, a flush from `s` to `s'`:
   * a hash with a trusted cache entry, or with a row the lookup found, adds all its events to that one
   * row and inserts nothing; a hash with neither (so no row of it lies in the window) inserts one
   * fresh row per event and caches the last of them. Either way its cache entry ends at the flush time.
   */
  ghost predicate MergedAs(cfg: SinkConfig, s: SinkState, valid: seq<LogEvent>, now: Time, found: map<Hash, Found>, s': SinkState, h: Hash) {
    && MergedIntoCached(cfg, s, valid, now, s', h)
    && MergedIntoFound(cfg, s, valid, now, found, s', h)
    && InsertedFresh(cfg, s, valid, now, found, s', h)
  }

  ghost predicate MergedIntoCached(cfg: SinkConfig, s: SinkState, valid: seq<LogEvent>, now: Time, s': SinkState, h: Hash) {
    IsHit(s.cache, h, now - cfg.deduplicationWindowMinutes) ==>
      && h in s'.cache && s'.cache[h] == CacheEntry(s.cache[h].logId, now)
      && (s.cache[h].logId in s.rows ==>
            s.cache[h].logId in s'.rows &&
            s'.rows[s.cache[h].logId] == AddOccurrences(s.rows[s.cache[h].logId], CountOf(cfg, valid, h), now))
      && InsertedWith(s, s', h) == 0
  }

  ghost predicate MergedIntoFound(cfg: SinkConfig, s: SinkState, valid: seq<LogEvent>, now: Time, found: map<Hash, Found>, s': SinkState, h: Hash) {
    var ws := now - cfg.deduplicationWindowMinutes;
    !IsHit(s.cache, h, ws) && h in found ==>
      && found[h].logId in s.rows && Qualifies(s.rows[found[h].logId], h, ws)
      && h in s'.cache && s'.cache[h] == CacheEntry(found[h].logId, now)
      && found[h].logId in s'.rows && s'.rows[found[h].logId] == AddOccurrences(s.rows[found[h].logId], CountOf(cfg, valid, h), now)
      && InsertedWith(s, s', h) == 0
  }

  ghost predicate InsertedFresh(cfg: SinkConfig, s: SinkState, valid: seq<LogEvent>, now: Time, found: map<Hash, Found>, s': SinkState, h: Hash) {
    var ws := now - cfg.deduplicationWindowMinutes;
    !IsHit(s.cache, h, ws) && h !in found ==>
      && (forall id :: id in s.rows ==> !Qualifies(s.rows[id], h, ws))
      && InsertedWith(s, s', h) == CountOf(cfg, valid, h)
      && InsertedRows(s, s', h) == DedupRecords(cfg, NewLogsOf(cfg, WithHash(cfg, valid, h)), now)
      && h in s'.cache && s'.cache[h].lastOccurrence == now && s.nextId <= s'.cache[h].logId
      && s'.cache[h].logId in s'.rows && s'.rows[s'.cache[h].logId].messageHash == Some(h)
  }

  /** Every hash of a flush without faults is deduplicated as MergedAs says. */
  lemma FlushMerges(cfg: SinkConfig, s: SinkState, events: seq<LogEvent>, now: Time, found: map<Hash, Found>, h: Hash)
    requires cfg.enableDeduplication && cfg.deduplicationWindowMinutes >= 0
    requires CacheConsistent(s) && LookupAnswered(cfg, s, events, now, found)
    requires CountOf(cfg, Filter(cfg, events), h) > 0
    ensures MergedAs(cfg, s, Filter(cfg, events), now, found, Emit(cfg, s, events, now, found, NoFault), h)
  {
    var valid := Filter(cfg, events);
    if !IsHit(s.cache, h, now - cfg.deduplicationWindowMinutes) {
      QueriedHashes(cfg, s.cache, valid, now);
      UnmatchedIsQueried(cfg, s.rows, s.cache, valid, now, found, MissOrder(cfg, s.cache, valid, now), h);
    }
    FlushSpec(cfg, s, events, now, found);
    var plan := PlanOf(cfg, s.cache, valid, now, found);
    var s' := Emit(cfg, s, events, now, found, NoFault);
    NewRowsCounted(cfg, s, plan, now, s', h);
    MergeOutcome(cfg, s, valid, now, found, plan, s', h);
  }

  /** The flush looks up exactly the hashes of the batch without a trusted cache entry. */
  lemma QueriedHashes(cfg: SinkConfig, cache: Cache, valid: seq<LogEvent>, now: Time)
    requires cfg.deduplicationWindowMinutes >= 0
    ensures forall h :: h in Classify(cfg, cache, valid, now).missOrder <==>
      CountOf(cfg, valid, h) > 0 && !IsHit(cache, h, now - cfg.deduplicationWindowMinutes)
  {
    ClassifySpec(cfg, cache, valid, now);
  }

  /** A hash without a trusted cache entry is looked up, so the lookup's answer speaks for it. */
  lemma UnmatchedIsQueried(cfg: SinkConfig, rows: map<Id, LogRecord>, cache: Cache, valid: seq<LogEvent>, now: Time, found: map<Hash, Found>, order: seq<Hash>, h: Hash)
    requires forall g :: g in order <==> CountOf(cfg, valid, g) > 0 && !IsHit(cache, g, now - cfg.deduplicationWindowMinutes)
    requires CheckLookup(rows, order, now - cfg.deduplicationWindowMinutes, found).answered
    requires CountOf(cfg, valid, h) > 0 && !IsHit(cache, h, now - cfg.deduplicationWindowMinutes)
    ensures AnswerFor(rows, now - cfg.deduplicationWindowMinutes, found, h)
  {
    AnsweredFor(rows, order, now - cfg.deduplicationWindowMinutes, found, h);
  }

  /** What the lookup's answer says about one queried hash: its row qualifies, or no row does. */
  ghost predicate AnswerFor(rows: map<Id, LogRecord>, ws: int, found: map<Hash, Found>, h: Hash) {
    && (h in found ==> found[h].logId in rows && Qualifies(rows[found[h].logId], h, ws))
    && (h !in found ==> forall id :: id in rows ==> !Qualifies(rows[id], h, ws))
  }

  lemma AnsweredFor(rows: map<Id, LogRecord>, hashes: seq<Hash>, ws: int, found: map<Hash, Found>, h: Hash)
    requires IsRecentLookup(rows, hashes, ws, found) && h in hashes
    ensures AnswerFor(rows, ws, found, h)
  {
    MissingMeansNoQualifyingRow(rows, hashes, ws, found, h);
  }

  /** The rows with hash `h` a flush inserts are as many as its pending rows with hash `h`. */
  lemma NewRowsCounted(cfg: SinkConfig, s: SinkState, plan: Plan, now: Time, s': SinkState, h: Hash)
    requires FlushedAs(cfg, s, plan, now, s')
    ensures InsertedWith(s, s', h) == CountLogs(plan.newLogs, h)
    ensures InsertedRows(s, s', h) == DedupRecords(cfg, LogsWith(plan.newLogs, h), now)
    ensures LastWith(plan.newLogs, h) >= 0 <==> CountLogs(plan.newLogs, h) > 0
  {
    CountRowsOfBlock(cfg, s'.rows, s.nextId, plan.newLogs, now, |plan.newLogs|, h);
    RowsWithOfBlock(cfg, s'.rows, s.nextId, plan.newLogs, now, |plan.newLogs|, h);
    assert plan.newLogs[..|plan.newLogs|] == plan.newLogs;
    LastWithCount(plan.newLogs, h);
  }

  lemma MergeOutcome(cfg: SinkConfig, s: SinkState, valid: seq<LogEvent>, now: Time, found: map<Hash, Found>, plan: Plan, s': SinkState, h: Hash)
    requires CacheConsistent(s)
    requires PlannedAs(cfg, s.cache, valid, now, found, plan) && FlushedAs(cfg, s, plan, now, s')
    requires CountOf(cfg, valid, h) > 0
    requires InsertedWith(s, s', h) == CountLogs(plan.newLogs, h)
    requires InsertedRows(s, s', h) == DedupRecords(cfg, LogsWith(plan.newLogs, h), now)
    requires LastWith(plan.newLogs, h) >= 0 <==> CountLogs(plan.newLogs, h) > 0
    requires !IsHit(s.cache, h, now - cfg.deduplicationWindowMinutes) ==> AnswerFor(s.rows, now - cfg.deduplicationWindowMinutes, found, h)
    ensures MergedAs(cfg, s, valid, now, found, s', h)
  {
    var ws := now - cfg.deduplicationWindowMinutes;
    if IsHit(s.cache, h, ws) {
      MergeCached(cfg, s, valid, now, found, plan, s', h);
    } else if h in found {
      MergeFound(cfg, s, valid, now, found, plan, s', h);
    } else {
      var k := LastWith(plan.newLogs, h);
      FlushedLast(cfg, s, plan, now, s', h, k);
      assert CountLogs(plan.newLogs, h) == CountOf(cfg, valid, h);
      assert LogsWith(plan.newLogs, h) == NewLogsOf(cfg, WithHash(cfg, valid, h));
      MergeFresh(cfg, s, valid, now, found, s', h, k);
    }
  }

  lemma MergeFresh(cfg: SinkConfig, s: SinkState, valid: seq<LogEvent>, now: Time, found: map<Hash, Found>, s': SinkState, h: Hash, k: nat)
    requires !IsHit(s.cache, h, now - cfg.deduplicationWindowMinutes) && h !in found
    requires forall id :: id in s.rows ==> !Qualifies(s.rows[id], h, now - cfg.deduplicationWindowMinutes)
    requires InsertedWith(s, s', h) == CountOf(cfg, valid, h)
    requires InsertedRows(s, s', h) == DedupRecords(cfg, NewLogsOf(cfg, WithHash(cfg, valid, h)), now)
    requires h in s'.cache && s'.cache[h] == CacheEntry(s.nextId + k, now)
    requires s.nextId + k in s'.rows && s'.rows[s.nextId + k].messageHash == Some(h)
    ensures InsertedFresh(cfg, s, valid, now, found, s', h)
  {
  }

  lemma MergeCached(cfg: SinkConfig, s: SinkState, valid: seq<LogEvent>, now: Time, found: map<Hash, Found>, plan: Plan, s': SinkState, h: Hash)
    requires CacheConsistent(s)
    requires PlannedAs(cfg, s.cache, valid, now, found, plan) && FlushedAs(cfg, s, plan, now, s')
    requires CountOf(cfg, valid, h) > 0
    requires InsertedWith(s, s', h) == CountLogs(plan.newLogs, h)
    requires LastWith(plan.newLogs, h) >= 0 <==> CountLogs(plan.newLogs, h) > 0
    requires IsHit(s.cache, h, now - cfg.deduplicationWindowMinutes)
    ensures MergedIntoCached(cfg, s, valid, now, s', h)
  {
    var id := s.cache[h].logId;
    var n := CountOf(cfg, valid, h);
    assert CountLogs(plan.newLogs, h) == 0;
    assert h in plan.updates && plan.updates[h] == Pending(id, now, n);
    assert h in plan.updateOrder;
    assert h in plan.cache && plan.cache[h] == CacheEntry(id, now);
    assert id in s.rows ==> s.rows[id].messageHash == Some(h);
    MergeTarget(cfg, s, plan, now, s', h, id, n);
  }

  lemma MergeFound(cfg: SinkConfig, s: SinkState, valid: seq<LogEvent>, now: Time, found: map<Hash, Found>, plan: Plan, s': SinkState, h: Hash)
    requires CacheConsistent(s)
    requires PlannedAs(cfg, s.cache, valid, now, found, plan) && FlushedAs(cfg, s, plan, now, s')
    requires CountOf(cfg, valid, h) > 0
    requires InsertedWith(s, s', h) == CountLogs(plan.newLogs, h)
    requires LastWith(plan.newLogs, h) >= 0 <==> CountLogs(plan.newLogs, h) > 0
    requires !IsHit(s.cache, h, now - cfg.deduplicationWindowMinutes) && h in found
    requires found[h].logId in s.rows && Qualifies(s.rows[found[h].logId], h, now - cfg.deduplicationWindowMinutes)
    ensures MergedIntoFound(cfg, s, valid, now, found, s', h)
  {
    var id := found[h].logId;
    var n := CountOf(cfg, valid, h);
    assert CountLogs(plan.newLogs, h) == 0;
    assert h in plan.updates && plan.updates[h] == Pending(id, now, n);
    assert h in plan.updateOrder;
    assert h in plan.cache && plan.cache[h] == CacheEntry(id, now);
    MergeTarget(cfg, s, plan, now, s', h, id, n);
  }

  /** A hash with a merge target `id`: that row takes all `n` events, and nothing is inserted for it. */
  lemma MergeTarget(cfg: SinkConfig, s: SinkState, plan: Plan, now: Time, s': SinkState, h: Hash, id: Id, n: nat)
    requires FlushedAs(cfg, s, plan, now, s')
    requires h in plan.updates && plan.updates[h] == Pending(id, now, n) && h in plan.updateOrder
    requires h in plan.cache && plan.cache[h] == CacheEntry(id, now)
    requires CountLogs(plan.newLogs, h) == 0 && InsertedWith(s, s', h) == CountLogs(plan.newLogs, h)
    requires LastWith(plan.newLogs, h) >= 0 <==> CountLogs(plan.newLogs, h) > 0
    requires id in s.rows ==> s.rows[id].messageHash == Some(h)
    ensures h in s'.cache && s'.cache[h] == CacheEntry(id, now)
    ensures id in s.rows ==> id in s'.rows && s'.rows[id] == AddOccurrences(s.rows[id], n, now)
    ensures InsertedWith(s, s', h) == 0
  {
    if id in s.rows {
      assert s'.rows[id] == MergedRow(id, s.rows[id], plan.updates, plan.updateOrder);
    }
  }

  /** The cache entry of a hash the flush inserted points at the row of its last pending log. */
  lemma FlushedLast(cfg: SinkConfig, s: SinkState, plan: Plan, now: Time, s': SinkState, h: Hash, k: int)
    requires FlushedAs(cfg, s, plan, now, s')
    requires k == LastWith(plan.newLogs, h) && k >= 0
    ensures h in s'.cache && s'.cache[h] == CacheEntry(s.nextId + k, now)
    ensures s.nextId + k in s'.rows && s'.rows[s.nextId + k] == DedupRecord(cfg, plan.newLogs[k], now)
    ensures plan.newLogs[k].messageHash == h
  {
  }

  /** A flush without faults changes an existing row only when it is the merge target of its hash. */
  lemma FlushLeavesOtherRows(cfg: SinkConfig, s: SinkState, events: seq<LogEvent>, now: Time, found: map<Hash, Found>, id: Id)
    requires cfg.enableDeduplication && cfg.deduplicationWindowMinutes >= 0
    requires CacheConsistent(s) && LookupAnswered(cfg, s, events, now, found)
    requires id in s.rows
    ensures var s' := Emit(cfg, s, events, now, found, NoFault);
      var ws := now - cfg.deduplicationWindowMinutes;
      var g := s.rows[id].messageHash;
      id in s'.rows &&
      (s'.rows[id] == s.rows[id] ||
       (g.Some? && CountOf(cfg, Filter(cfg, events), g.value) > 0 &&
        ((IsHit(s.cache, g.value, ws) && id == s.cache[g.value].logId) ||
         (!IsHit(s.cache, g.value, ws) && g.value in found && id == found[g.value].logId))))
  {
    if Filter(cfg, events) != [] {
      FlushSpec(cfg, s, events, now, found);
    }
  }

  /** Rows a flush inserts are fresh: one occurrence, first and last at the flush time. */
  lemma FlushNewRows(cfg: SinkConfig, s: SinkState, events: seq<LogEvent>, now: Time, found: map<Hash, Found>, id: Id)
    requires cfg.enableDeduplication && cfg.deduplicationWindowMinutes >= 0
    requires CacheConsistent(s) && LookupAnswered(cfg, s, events, now, found)
    requires id in Emit(cfg, s, events, now, found, NoFault).rows && id !in s.rows
    ensures var r := Emit(cfg, s, events, now, found, NoFault).rows[id];
      && s.nextId <= id
      && r.occurrenceCount == 1 && r.firstOccurrence == Some(now) && r.lastOccurrence == Some(now) && r.timestamp == now
      && r.messageHash.Some? && CountOf(cfg, Filter(cfg, events), r.messageHash.value) > 0
  {
    var valid := Filter(cfg, events);
    FlushSpec(cfg, s, events, now, found);
    NewRowOfPlan(cfg, s, valid, now, found, PlanOf(cfg, s.cache, valid, now, found), Emit(cfg, s, events, now, found, NoFault), id);
  }

  lemma NewRowOfPlan(cfg: SinkConfig, s: SinkState, valid: seq<LogEvent>, now: Time, found: map<Hash, Found>, plan: Plan, s': SinkState, id: Id)
    requires PlannedAs(cfg, s.cache, valid, now, found, plan) && FlushedAs(cfg, s, plan, now, s')
    requires id in s'.rows && id !in s.rows
    ensures var r := s'.rows[id];
      && s.nextId <= id
      && r.occurrenceCount == 1 && r.firstOccurrence == Some(now) && r.lastOccurrence == Some(now) && r.timestamp == now
      && r.messageHash.Some? && CountOf(cfg, valid, r.messageHash.value) > 0
  {
    var k := id - s.nextId;
    assert s'.rows[s.nextId + k] == DedupRecord(cfg, plan.newLogs[k], now);
    CountLogsPositive(plan.newLogs, k);
  }

  /** A row with hash `h` among `logs` makes CountLogs positive. */
  lemma {:induction false} CountLogsPositive(logs: seq<NewLog>, k: nat)
    requires k < |logs|
    ensures CountLogs(logs, logs[k].messageHash) > 0
    decreases |logs|
  {
    if k < |logs| - 1 {
      CountLogsPositive(logs[..|logs| - 1], k);
    }
  }

  /**
   * After the cache lost a hash (expiry, restart), a row of it still inside the window is found by
   * the lookup and merged into; the flush inserts nothing for it.
   */
  lemma CacheMissFallback(cfg: SinkConfig, s: SinkState, events: seq<LogEvent>, now: Time, found: map<Hash, Found>, h: Hash, id: Id)
    requires cfg.enableDeduplication && cfg.deduplicationWindowMinutes >= 0
    requires CacheConsistent(s) && LookupAnswered(cfg, s, events, now, found)
    requires CountOf(cfg, Filter(cfg, events), h) > 0
    requires h !in s.cache
    requires id in s.rows && Qualifies(s.rows[id], h, now - cfg.deduplicationWindowMinutes)
    ensures var s' := Emit(cfg, s, events, now, found, NoFault);
      && h in found && found[h].logId in s.rows && found[h].logId in s'.rows
      && s'.rows[found[h].logId] == AddOccurrences(s.rows[found[h].logId], CountOf(cfg, Filter(cfg, events), h), now)
      && InsertedWith(s, s', h) == 0
  {
    FlushMerges(cfg, s, events, now, found, h);
  }

  /** With deduplication disabled every accepted event becomes one plain row and the cache is not used. */
  lemma WithoutDedupSpec(cfg: SinkConfig, s: SinkState, events: seq<LogEvent>, now: Time, found: map<Hash, Found>)
    requires !cfg.enableDeduplication
    requires forall id :: id in s.rows ==> id < s.nextId
    ensures var s' := Emit(cfg, s, events, now, found, NoFault);
      var valid := Filter(cfg, events);
      && s'.cache == s.cache
      && s'.nextId == s.nextId + |valid|
      && (forall id :: id in s'.rows <==> id in s.rows || s.nextId <= id < s'.nextId)
      && (forall id :: id in s.rows ==> s'.rows[id] == s.rows[id])
      && (forall k :: 0 <= k < |valid| ==> s'.rows[s.nextId + k] == PlainRecord(NewLog(valid[k], ""), now))
  {
    InsertRowsSpec(cfg, s, PlainLogs(Filter(cfg, events)), now);
  }

  /** A batch whose every event the filter rejects touches neither the table nor the cache, whatever the store would do. */
  lemma RejectedBatchChangesNothing(cfg: SinkConfig, s: SinkState, events: seq<LogEvent>, now: Time, found: map<Hash, Found>, fault: Fault)
    requires forall e :: e in events ==> !Accepts(cfg, e)
    ensures Filter(cfg, events) == []
    ensures Emit(cfg, s, events, now, found, fault) == s
  {
  }

  /**
   * A fault either never fires (the flush does not reach the failing action, and its outcome is that
   * of a flush without faults) or the flush writes no row: the table keeps its rows, only a failure
   * during the inserts keeps the count updates committed before them, and without deduplication
   * nothing at all changes.
   */
  lemma FaultsWriteNoRow(cfg: SinkConfig, s: SinkState, events: seq<LogEvent>, now: Time, found: map<Hash, Found>, fault: Fault)
    requires forall id :: id in s.rows ==> id < s.nextId
    ensures var s' := Emit(cfg, s, events, now, found, fault);
      || s' == Emit(cfg, s, events, now, found, NoFault)
      || (&& s'.rows.Keys == s.rows.Keys
          && (!fault.InsertFailsAt? ==> s'.rows == s.rows)
          && (!cfg.enableDeduplication ==> s'.rows == s.rows && s'.cache == s.cache))
  {
    var valid := Filter(cfg, events);
    if valid != [] && fault != OpenFails {
      if cfg.enableDeduplication {
        DedupFaults(cfg, s, valid, now, found, fault);
      } else {
        InsertBatchFaults(cfg, s, PlainLogs(valid), now, fault);
      }
    }
  }

  lemma DedupFaults(cfg: SinkConfig, s: SinkState, valid: seq<LogEvent>, now: Time, found: map<Hash, Found>, fault: Fault)
    requires forall id :: id in s.rows ==> id < s.nextId
    ensures var s' := WithDedup(cfg, s, valid, now, found, fault);
      s' == WithDedup(cfg, s, valid, now, found, NoFault) || (s'.rows.Keys == s.rows.Keys && (!fault.InsertFailsAt? ==> s'.rows == s.rows))
  {
    var split := Classify(cfg, s.cache, valid, now);
    if !(split.missOrder != [] && fault == LookupFails) {
      ResolveAndWriteFaults(cfg, s.(cache := split.cache), split, found, now, fault);
    }
  }

  lemma ResolveAndWriteFaults(cfg: SinkConfig, s: SinkState, split: Split, found: map<Hash, Found>, now: Time, fault: Fault)
    requires forall id :: id in s.rows ==> id < s.nextId
    ensures var s' := ResolveAndWrite(cfg, s, split, found, now, fault);
      s' == ResolveAndWrite(cfg, s, split, found, now, NoFault) || (s'.rows.Keys == s.rows.Keys && (!fault.InsertFailsAt? ==> s'.rows == s.rows))
  {
    var plan := Resolve(cfg, split, found, now);
    if !(plan.updateOrder != [] && fault == UpdateFails) {
      ApplyUpdatesKeepsHashes(s.rows, plan.updateOrder, plan.updates);
      var updated := s.(cache := plan.cache, rows := ApplyUpdates(s.rows, plan.updateOrder, plan.updates));
      InsertBatchFaults(cfg, updated, plan.newLogs, now, fault);
    }
  }

  /** An insert failure that fires rolls back every row and, without deduplication, touches nothing. */
  lemma InsertBatchFaults(cfg: SinkConfig, s: SinkState, logs: seq<NewLog>, now: Time, fault: Fault)
    ensures var r := InsertBatch(cfg, s, logs, now, fault);
      r == InsertBatch(cfg, s, logs, now, NoFault) || (r.rows == s.rows && (!cfg.enableDeduplication ==> r.cache == s.cache))
  {
    if logs != [] && fault.InsertFailsAt? && fault.k <= |logs| && !cfg.enableDeduplication {
      var done := if fault.k < |logs| then logs[..fault.k] else logs;
      PlainInsertKeepsCache(cfg, s, done, now);
    }
  }

  lemma {:induction false} PlainInsertKeepsCache(cfg: SinkConfig, s: SinkState, logs: seq<NewLog>, now: Time)
    requires !cfg.enableDeduplication
    ensures InsertRows(cfg, s, logs, now).cache == s.cache
    decreases |logs|
  {
    if logs != [] {
      PlainInsertKeepsCache(cfg, s, logs[..|logs| - 1], now);
    }
  }

  /**
   * The insert loop writes the cache before the commit: a rollback leaves the cache of the first
   * inserted hash pointing at a row that was never written.
   */
  lemma RolledBackInsertLeavesDanglingEntry(cfg: SinkConfig, s: SinkState, logs: seq<NewLog>, now: Time, k: nat)
    requires cfg.enableDeduplication
    requires forall id :: id in s.rows ==> id < s.nextId
    requires 0 < k <= |logs|
    ensures var r := InsertBatch(cfg, s, logs, now, InsertFailsAt(k));
      logs[0].messageHash in r.cache && r.cache[logs[0].messageHash].logId !in r.rows
  {
    var done := if k < |logs| then logs[..k] else logs;
    InsertRowsSpec(cfg, s, done, now);
    assert done[0] == logs[0];
  }

  /**
   * A trusted cache entry whose row no longer exists (deleted, or never committed) swallows the
   * events of its hash: no row of that hash changes and none is inserted.
   */
  lemma MissingRowDropsEvents(cfg: SinkConfig, s: SinkState, events: seq<LogEvent>, now: Time, found: map<Hash, Found>, h: Hash)
    requires cfg.enableDeduplication && cfg.deduplicationWindowMinutes >= 0
    requires CacheConsistent(s) && LookupAnswered(cfg, s, events, now, found)
    requires CountOf(cfg, Filter(cfg, events), h) > 0
    requires IsHit(s.cache, h, now - cfg.deduplicationWindowMinutes) && s.cache[h].logId !in s.rows
    ensures var s' := Emit(cfg, s, events, now, found, NoFault);
      && InsertedWith(s, s', h) == 0
      && (forall id :: id in s.rows && s.rows[id].messageHash == Some(h) ==> id in s'.rows && s'.rows[id] == s.rows[id])
  {
    FlushMerges(cfg, s, events, now, found, h);
    forall id | id in s.rows && s.rows[id].messageHash == Some(h)
      ensures id in Emit(cfg, s, events, now, found, NoFault).rows && Emit(cfg, s, events, now, found, NoFault).rows[id] == s.rows[id]
    {
      FlushLeavesOtherRows(cfg, s, events, now, found, id);
    }
  }

  // ---------------------------------------------------------------- hash and sweep

  /** The identity hash ignores the timestamp and the properties of an event. */
  lemma HashIgnoresTimestampAndProperties(cfg: SinkConfig, e: LogEvent, t: Time, props: map<string, string>)
    ensures MessageHash(cfg, e.(timestamp := t, properties := props)) == MessageHash(cfg, e)
  {
  }

  /**
   * The hashed text does not separate its parts unambiguously: two different events, and an absent
   * exception versus an empty one, hash alike whatever the digest.
   */
  lemma ContentIsNotInjective(cfg: SinkConfig, t: Time)
    ensures var a := LogEvent(t, Error, "a|b", None, map[]);
      var b := LogEvent(t, Error, "a", Some("b|"), map[]);
      a != b && MessageHash(cfg, a) == MessageHash(cfg, b)
    ensures MessageHash(cfg, LogEvent(t, Error, "x", None, map[])) == MessageHash(cfg, LogEvent(t, Error, "x", Some(""), map[]))
  {
    assert Content(LogEvent(t, Error, "a|b", None, map[])) == "Error|a|b|";
    assert Content(LogEvent(t, Error, "a", Some("b|"), map[])) == "Error|a|b|";
  }

  /** The sweep removes exactly the entries older than the expiration time and keeps the others as they were. */
  lemma SweepSpec(cache: Cache, expirationTime: int, h: Hash)
    ensures h in Sweep(cache, expirationTime) <==> h in cache && cache[h].lastOccurrence >= expirationTime
    ensures h in Sweep(cache, expirationTime) ==> Sweep(cache, expirationTime)[h] == cache[h]
  {
  }

  /**
   * With an expiration at least as long as the window, a sweep never removes an entry a later flush
   * would still trust.
   */
  lemma SweepKeepsHits(cfg: SinkConfig, cache: Cache, sweepTime: Time, flushTime: Time, h: Hash)
    requires cfg.cacheExpirationMinutes >= cfg.deduplicationWindowMinutes
    requires sweepTime <= flushTime
    requires IsHit(cache, h, flushTime - cfg.deduplicationWindowMinutes)
    ensures IsHit(Sweep(cache, sweepTime - cfg.cacheExpirationMinutes), h, flushTime - cfg.deduplicationWindowMinutes)
  {
  }

  /** Sweeping twice at the same time is sweeping once, and sweeping keeps the invariant. */
  lemma SweepIdempotentAndConsistent(s: SinkState, expirationTime: int)
    ensures Sweep(Sweep(s.cache, expirationTime), expirationTime) == Sweep(s.cache, expirationTime)
    ensures CacheConsistent(s) ==> CacheConsistent(s.(cache := Sweep(s.cache, expirationTime)))
  {
  }

  /** Deleting rows (retention) keeps the invariant. */
  lemma RemovingRowsKeepsConsistent(s: SinkState, ids: set<Id>)
    requires CacheConsistent(s)
    ensures CacheConsistent(s.(rows := s.rows - ids))
  {
  }
}
