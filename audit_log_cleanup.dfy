/**
 * Retention of the audit log (AuditLogCleanupRecurringJob): with cleanup enabled, at most
 * `maxBatches` rounds, each taking the `batchSize` oldest audit logs executed before the cutoff and
 * deleting them; the loop ends early when nothing is left to delete. The configuration is clamped
 * into fixed ranges first.
 */
module AuditLogCleanup {
  import opened Prelude

  /** An audit log's identity. */
  type AuditLogId = nat

  /** The `Auditing:Cleanup` section as read; an absent key is None. */
  datatype AuditCleanupConfig = AuditCleanupConfig(
    enabled: Option<bool>,
    retentionDays: Option<int>,
    batchSize: Option<int>,
    maxBatchesPerRun: Option<int>)

  function Max(a: int, b: int): int { if a >= b then a else b }
  function Min(a: int, b: int): int { if a <= b then a else b }

  /** `Math.Clamp(v, lo, hi)`. */
  function Clamp(v: int, lo: int, hi: int): (r: int)
    requires lo <= hi
    ensures lo <= r <= hi
    ensures lo <= v <= hi ==> r == v
    ensures v < lo ==> r == lo
    ensures hi < v ==> r == hi
  {
    if v < lo then lo else if v > hi then hi else v
  }

  /** Off unless configured. */
  predicate Enabled(cfg: AuditCleanupConfig) { cfg.enabled.GetOr(false) }

  /** `Math.Max(RetentionDays ?? 180, 1)`. */
  function RetentionDays(cfg: AuditCleanupConfig): (days: int)
    ensures days >= 1
    ensures cfg.retentionDays.None? ==> days == 180
    ensures cfg.retentionDays.Some? && cfg.retentionDays.value >= 1 ==> days == cfg.retentionDays.value
  {
    Max(cfg.retentionDays.GetOr(180), 1)
  }

  /** `Math.Clamp(BatchSize ?? 500, 100, 5000)`. */
  function BatchSize(cfg: AuditCleanupConfig): (size: int)
    ensures 100 <= size <= 5000
    ensures cfg.batchSize.None? ==> size == 500
  {
    Clamp(cfg.batchSize.GetOr(500), 100, 5000)
  }

  /** `Math.Clamp(MaxBatchesPerRun ?? 10, 1, 100)`. */
  function MaxBatches(cfg: AuditCleanupConfig): (n: int)
    ensures 1 <= n <= 100
    ensures cfg.maxBatchesPerRun.None? ==> n == 10
  {
    Clamp(cfg.maxBatchesPerRun.GetOr(10), 1, 100)
  }

  /** The audit logs executed strictly before the cutoff. */
  function Expired(rows: map<AuditLogId, Time>, cutoff: int): (ids: set<AuditLogId>)
    ensures ids <= rows.Keys
    ensures forall id :: id in rows ==> (id in ids <==> rows[id] < cutoff)
  {
    set id | id in rows && rows[id] < cutoff
  }

  /** The elements of a list of ids. */
  function Elems(ids: seq<AuditLogId>): (s: set<AuditLogId>)
    ensures forall id :: id in s <==> id in ids
  {
    set id | id in ids
  }

  ghost predicate Distinct(ids: seq<AuditLogId>) {
    forall i, j :: 0 <= i < j < |ids| ==> ids[i] != ids[j]
  }

  /**
   * The semantics of `Where(ExecutionTime < cutoff).OrderBy(ExecutionTime).Select(Id).Take(limit)`:
   * distinct expired ids, as many as the limit allows, in execution order, and none of the expired
   * logs left out is older than one taken. Between logs of equal execution time the order is free.
   */
  ghost predicate OldestExpired(rows: map<AuditLogId, Time>, cutoff: int, limit: nat, ids: seq<AuditLogId>) {
    && Distinct(ids)
    && (forall i :: 0 <= i < |ids| ==> ids[i] in Expired(rows, cutoff))
    && |ids| == Min(limit, |Expired(rows, cutoff)|)
    && (forall i, j :: 0 <= i < j < |ids| ==> rows[ids[i]] <= rows[ids[j]])
    && (forall i, id :: 0 <= i < |ids| && id in Expired(rows, cutoff) && id !in Elems(ids) ==> rows[ids[i]] <= rows[id])
  }

  /** The id query part way: `ids` taken from `expired` oldest first, `remaining` the rest of it. */
  ghost predicate TakenSoFar(rows: map<AuditLogId, Time>, expired: set<AuditLogId>, remaining: set<AuditLogId>, ids: seq<AuditLogId>) {
    && expired <= rows.Keys
    && remaining <= expired
    && (forall id :: id in expired ==> (id in remaining <==> id !in Elems(ids)))
    && |ids| + |remaining| == |expired|
    && Distinct(ids)
    && (forall i :: 0 <= i < |ids| ==> ids[i] in expired)
    && (forall i, j :: 0 <= i < j < |ids| ==> rows[ids[i]] <= rows[ids[j]])
    && (forall i, id :: 0 <= i < |ids| && id in remaining ==> rows[ids[i]] <= rows[id])
  }

  /** Taking an oldest remaining log keeps the query's order and leaves the rest for later. */
  lemma TakeOldestStep(rows: map<AuditLogId, Time>, expired: set<AuditLogId>, remaining: set<AuditLogId>, ids: seq<AuditLogId>, next: AuditLogId)
    requires TakenSoFar(rows, expired, remaining, ids)
    requires next in remaining && forall o :: o in remaining ==> rows[next] <= rows[o]
    ensures TakenSoFar(rows, expired, remaining - {next}, ids + [next])
  {
    var ids' := ids + [next];
    assert forall i :: 0 <= i < |ids| ==> ids'[i] == ids[i];
    assert next !in Elems(ids);
  }

  /** The query stops when the limit is reached or every expired log is taken. */
  lemma TakenEnough(rows: map<AuditLogId, Time>, cutoff: int, limit: nat, remaining: set<AuditLogId>, ids: seq<AuditLogId>)
    requires TakenSoFar(rows, Expired(rows, cutoff), remaining, ids)
    requires |ids| <= limit && (|ids| == limit || remaining == {})
    ensures OldestExpired(rows, cutoff, limit, ids)
  {
  }

  /** A finite set of logs has an oldest member. */
  lemma {:induction false} OldestExists(rows: map<AuditLogId, Time>, s: set<AuditLogId>)
    requires s != {} && s <= rows.Keys
    ensures exists m :: m in s && forall o :: o in s ==> rows[m] <= rows[o]
    decreases |s|
  {
    var x :| x in s;
    if s != {x} {
      OldestExists(rows, s - {x});
      var m :| m in s - {x} && forall o :: o in s - {x} ==> rows[m] <= rows[o];
      if rows[x] < rows[m] {
        assert forall o :: o in s ==> rows[x] <= rows[o];
      } else {
        assert forall o :: o in s ==> rows[m] <= rows[o];
      }
    }
  }

  /** Distinct ids are as many as their elements. */
  lemma {:induction false} DistinctCount(ids: seq<AuditLogId>)
    requires Distinct(ids)
    ensures |Elems(ids)| == |ids|
    decreases |ids|
  {
    if ids != [] {
      var init := ids[..|ids| - 1];
      DistinctCount(init);
      assert Elems(ids) == Elems(init) + {ids[|ids| - 1]};
      assert ids[|ids| - 1] !in Elems(init);
    }
  }

  /** The audit log table, reduced to each log's ExecutionTime. */
  class AuditLogStore {
    var rows: map<AuditLogId, Time>

    constructor (initial: map<AuditLogId, Time>)
      ensures rows == initial
    {
      rows := initial;
    }

    /** The id query of one round: repeatedly the oldest expired log not yet taken. */
    method TakeOldestExpired(cutoff: int, limit: nat) returns (ids: seq<AuditLogId>)
      ensures OldestExpired(rows, cutoff, limit, ids)
    {
      ghost var expired := Expired(rows, cutoff);
      var remaining := set id | id in rows && rows[id] < cutoff;
      ids := [];
      while |ids| < limit && remaining != {}
        invariant TakenSoFar(rows, expired, remaining, ids)
        invariant |ids| <= limit
        decreases |remaining|
      {
        OldestExists(rows, remaining);
        var next :| next in remaining && forall o :: o in remaining ==> rows[next] <= rows[o];
        TakeOldestStep(rows, expired, remaining, ids, next);
        ids := ids + [next];
        remaining := remaining - {next};
      }
      TakenEnough(rows, cutoff, limit, remaining, ids);
    }

    /** `Where(ids.Contains(Id)).ExecuteDeleteAsync()`: the number of logs it removed. */
    method ExecuteDelete(ids: seq<AuditLogId>) returns (deleted: nat)
      modifies this
      ensures rows == old(rows) - Elems(ids)
      ensures deleted == |old(rows).Keys * Elems(ids)|
    {
      var doomed := set id | id in ids;
      deleted := |rows.Keys * doomed|;
      rows := rows - doomed;
    }
  }

  /** The statistics of a run (start, end and duration are clock readings and are not kept). */
  datatype CleanupStats = CleanupStats(totalDeleted: int, batchesExecuted: int, retentionDays: int, cutoffDate: int)

  /** What is true of the table after some rounds of one run. */
  ghost predicate Swept(rows0: map<AuditLogId, Time>, rows: map<AuditLogId, Time>, cutoff: int) {
    && rows.Keys <= rows0.Keys
    && (forall id :: id in rows ==> rows[id] == rows0[id])
    && rows0.Keys - rows.Keys <= Expired(rows0, cutoff)
    && (forall d, k :: d in rows0 && d !in rows && k in Expired(rows0, cutoff) && k in rows ==> rows0[d] <= rows0[k])
  }

  class AuditLogCleanupRecurringJob {
    const config: AuditCleanupConfig
    const store: AuditLogStore

    constructor (config: AuditCleanupConfig, store: AuditLogStore)
      ensures this.config == config && this.store == store
    {
      this.config := config;
      this.store := store;
    }

    /**
     * ExecuteAsync: None when disabled. Otherwise only expired logs go, the oldest first, and exactly
     * `min(expired, batchSize * maxBatches)` of them, in as many full rounds as that takes.
     */
    method Execute(now: Time) returns (stats: Option<CleanupStats>)
      modifies store
      ensures !Enabled(config) ==> stats.None? && store.rows == old(store.rows)
      ensures Enabled(config) ==> stats.Some?
      ensures stats.Some? ==> Reported(config, now, old(store.rows), store.rows, stats.value)
    {
      var enabled := config.enabled.GetOr(false);
      if !enabled {
        return None;
      }
      var retentionDays := Max(config.retentionDays.GetOr(180), 1);
      var batchSize := Clamp(config.batchSize.GetOr(500), 100, 5000);
      var maxBatches := Clamp(config.maxBatchesPerRun.GetOr(10), 1, 100);
      var cutoffDateUtc := now - retentionDays * MinutesPerDay;
      var totalDeleted := 0;
      var batchesExecuted := 0;

      ghost var rows0 := store.rows;
      var batchIndex := 0;
      while batchIndex < maxBatches
        invariant 0 <= batchIndex <= maxBatches && batchesExecuted == batchIndex
        invariant RoundsDone(rows0, store.rows, cutoffDateUtc, batchSize, batchIndex, totalDeleted)
      {
        var auditLogIds := store.TakeOldestExpired(cutoffDateUtc, batchSize);
        if |auditLogIds| == 0 {
          Exhausted(rows0, store.rows, cutoffDateUtc, batchSize, batchIndex, totalDeleted, auditLogIds);
          break;
        }
        ghost var before := store.rows;
        var deletedCount := store.ExecuteDelete(auditLogIds);
        DeletesAll(before, auditLogIds, deletedCount);
        if deletedCount == 0 {
          break;
        }
        ghost var done := batchIndex;
        ghost var deletedBefore := totalDeleted;
        totalDeleted := totalDeleted + deletedCount;
        batchesExecuted := batchesExecuted + 1;
        batchIndex := batchIndex + 1;
        NextRound(rows0, before, store.rows, cutoffDateUtc, batchSize, done, deletedBefore, auditLogIds, batchIndex, totalDeleted);
      }
      stats := Some(CleanupStats(totalDeleted, batchesExecuted, retentionDays, cutoffDateUtc));
      Report(config, now, rows0, store.rows, stats.value, batchSize, maxBatches);
    }
  }

  /**
   * The promise of a run that was enabled: only expired logs go, the oldest first, exactly
   * `min(expired, batchSize * maxBatches)` of them, in as many rounds as that takes when each round
   * but the last is full.
   */
  ghost predicate Reported(cfg: AuditCleanupConfig, now: Time, rows0: map<AuditLogId, Time>, rows: map<AuditLogId, Time>, st: CleanupStats) {
    var cutoff := Cutoff(now, RetentionDays(cfg));
    && st.retentionDays == RetentionDays(cfg) && st.cutoffDate == cutoff
    && Swept(rows0, rows, cutoff)
    && st.totalDeleted == |rows0.Keys - rows.Keys|
    && st.totalDeleted == Min(|Expired(rows0, cutoff)|, BatchSize(cfg) * MaxBatches(cfg))
    && 0 <= st.batchesExecuted <= MaxBatches(cfg)
    && (st.batchesExecuted == 0 <==> st.totalDeleted == 0)
    && BatchSize(cfg) * (st.batchesExecuted - 1) < st.totalDeleted <= BatchSize(cfg) * st.batchesExecuted
  }

  /** The loop's exit establishes the promise. */
  lemma Report(cfg: AuditCleanupConfig, now: Time, rows0: map<AuditLogId, Time>, rows: map<AuditLogId, Time>, st: CleanupStats,
               batchSize: int, maxBatches: int)
    requires batchSize == BatchSize(cfg) && maxBatches == MaxBatches(cfg)
    requires st.retentionDays == RetentionDays(cfg) && st.cutoffDate == Cutoff(now, st.retentionDays)
    requires 0 <= st.batchesExecuted <= maxBatches
    requires RoundsDone(rows0, rows, st.cutoffDate, batchSize, st.batchesExecuted, st.totalDeleted)
    requires st.batchesExecuted == maxBatches || st.totalDeleted == |Expired(rows0, st.cutoffDate)|
    ensures Reported(cfg, now, rows0, rows, st)
  {
    Finish(|Expired(rows0, st.cutoffDate)|, batchSize, st.batchesExecuted, st.totalDeleted, maxBatches);
  }

  /** The loop's invariant after `rounds` full rounds that deleted `total` logs in all. */
  ghost predicate RoundsDone(rows0: map<AuditLogId, Time>, rows: map<AuditLogId, Time>, cutoff: int,
                             batchSize: int, rounds: int, total: int) {
    && Swept(rows0, rows, cutoff)
    && Expired(rows, cutoff) == Expired(rows0, cutoff) - (rows0.Keys - rows.Keys)
    && total == |rows0.Keys - rows.Keys|
    && rounds >= 0
    && total == Min(|Expired(rows0, cutoff)|, Times(batchSize, rounds))
    && (rounds == 0 || Times(batchSize, rounds - 1) < total)
  }

  /** `size * n` by repeated addition, which keeps the loop's arithmetic linear. */
  function Times(size: int, n: nat): int {
    if n == 0 then 0 else Times(size, n - 1) + size
  }

  lemma {:induction false} TimesIsProduct(size: int, n: nat)
    ensures Times(size, n) == size * n
  {
    if n > 0 {
      TimesIsProduct(size, n - 1);
    }
  }

  /** A round that finds ids deletes all of them, and `rounds + 1` rounds are then done. */
  lemma NextRound(rows0: map<AuditLogId, Time>, before: map<AuditLogId, Time>, after: map<AuditLogId, Time>,
                  cutoff: int, batchSize: int, rounds: nat, total: int, ids: seq<AuditLogId>, rounds': int, total': int)
    requires batchSize >= 1
    requires RoundsDone(rows0, before, cutoff, batchSize, rounds, total)
    requires OldestExpired(before, cutoff, batchSize, ids) && ids != []
    requires after == before - Elems(ids)
    requires rounds' == rounds + 1 && total' == total + |ids|
    ensures RoundsDone(rows0, after, cutoff, batchSize, rounds', total')
  {
    DeleteRound(rows0, before, after, cutoff, batchSize, ids);
    var e := |Expired(rows0, cutoff)|;
    assert |Expired(before, cutoff)| == e - total by {
      RemovedCount(Expired(rows0, cutoff), rows0.Keys - before.Keys);
    }
    RoundArithmetic(e, batchSize, rounds, total, |ids|);
  }

  /** The counting of one round: a round that finds `n > 0` ids fills up to the next multiple of the batch size. */
  lemma RoundArithmetic(expired: int, batchSize: int, rounds: nat, total: int, n: int)
    requires batchSize >= 1
    requires total == Min(expired, Times(batchSize, rounds))
    requires n == Min(batchSize, expired - total) && n > 0
    ensures total + n == Min(expired, Times(batchSize, rounds + 1))
    ensures Times(batchSize, rounds) < total + n
  {
  }

  /** The ids of a round are distinct and present, so the delete removes as many logs as there are ids. */
  lemma DeletesAll(before: map<AuditLogId, Time>, ids: seq<AuditLogId>, deleted: int)
    requires Distinct(ids) && forall i :: 0 <= i < |ids| ==> ids[i] in before
    requires deleted == |before.Keys * Elems(ids)|
    ensures deleted == |ids|
  {
    DistinctCount(ids);
    assert before.Keys * Elems(ids) == Elems(ids);
  }

  /** `|e - d| = |e| - |d|` when `d` lies within `e`. */
  lemma RemovedCount(e: set<AuditLogId>, d: set<AuditLogId>)
    requires d <= e
    ensures |e - d| == |e| - |d|
  {
    assert e == (e - d) + d;
    assert (e - d) * d == {};
  }

  /** A round that finds no id: every expired log of the run is gone. */
  lemma Exhausted(rows0: map<AuditLogId, Time>, rows: map<AuditLogId, Time>, cutoff: int,
                  batchSize: int, rounds: nat, total: int, ids: seq<AuditLogId>)
    requires batchSize >= 1
    requires RoundsDone(rows0, rows, cutoff, batchSize, rounds, total)
    requires OldestExpired(rows, cutoff, batchSize, ids) && ids == []
    ensures total == |Expired(rows0, cutoff)|
  {
    var expired := Expired(rows0, cutoff);
    var gone := rows0.Keys - rows.Keys;
    assert Expired(rows, cutoff) == {};
    assert expired <= gone;
    assert gone <= expired;
    assert gone == expired;
  }

  /** When the loop ends, by budget or by running out, the run's counters are as promised. */
  lemma Finish(expired: nat, batchSize: int, rounds: nat, total: int, maxBatches: nat)
    requires batchSize >= 1 && rounds <= maxBatches
    requires total == Min(expired, Times(batchSize, rounds))
    requires rounds == 0 || Times(batchSize, rounds - 1) < total
    requires rounds == maxBatches || total == expired
    ensures total == Min(expired, batchSize * maxBatches)
    ensures rounds == 0 <==> total == 0
    ensures batchSize * (rounds - 1) < total <= batchSize * rounds
  {
    TimesIsProduct(batchSize, rounds);
    if rounds > 0 {
      TimesIsProduct(batchSize, rounds - 1);
    }
    assert batchSize * (rounds - 1) == batchSize * rounds - batchSize;
    CapacityBound(batchSize, rounds, maxBatches);
  }

  /** `capacity` never passes the run's budget. */
  lemma CapacityBound(batchSize: int, batchIndex: int, maxBatches: int)
    requires batchSize >= 0 && 0 <= batchIndex <= maxBatches
    ensures batchSize * batchIndex <= batchSize * maxBatches
  {
  }

  /**
   * One round: deleting the oldest expired ids removes exactly them, keeps what the run has done so
   * far a sweep of the oldest, and leaves the expired set smaller by the same ids.
   */
  lemma DeleteRound(rows0: map<AuditLogId, Time>, before: map<AuditLogId, Time>, after: map<AuditLogId, Time>,
                    cutoff: int, limit: nat, ids: seq<AuditLogId>)
    requires Swept(rows0, before, cutoff)
    requires Expired(before, cutoff) == Expired(rows0, cutoff) - (rows0.Keys - before.Keys)
    requires OldestExpired(before, cutoff, limit, ids)
    requires after == before - Elems(ids)
    ensures |before.Keys * Elems(ids)| == |ids|
    ensures Swept(rows0, after, cutoff)
    ensures Expired(after, cutoff) == Expired(rows0, cutoff) - (rows0.Keys - after.Keys)
    ensures |rows0.Keys - after.Keys| == |rows0.Keys - before.Keys| + |ids|
  {
    var taken := Elems(ids);
    assert taken <= Expired(before, cutoff);
    DistinctCount(ids);
    RoundCounts(rows0.Keys, before.Keys, taken);
    RoundKeepsOldest(rows0, before, after, cutoff, limit, ids);
    RoundExpired(rows0, before, after, cutoff, taken);
  }

  /** The counting half of a round. */
  lemma RoundCounts(keys0: set<AuditLogId>, keys: set<AuditLogId>, taken: set<AuditLogId>)
    requires keys <= keys0 && taken <= keys
    ensures keys * taken == taken
    ensures keys0 - (keys - taken) == (keys0 - keys) + taken
    ensures |keys0 - (keys - taken)| == |keys0 - keys| + |taken|
  {
    assert keys0 - (keys - taken) == (keys0 - keys) + taken;
    assert (keys0 - keys) * taken == {};
  }

  /** A round deletes only expired logs and never one younger than an expired log it leaves. */
  lemma RoundKeepsOldest(rows0: map<AuditLogId, Time>, before: map<AuditLogId, Time>, after: map<AuditLogId, Time>,
                         cutoff: int, limit: nat, ids: seq<AuditLogId>)
    requires Swept(rows0, before, cutoff)
    requires Expired(before, cutoff) == Expired(rows0, cutoff) - (rows0.Keys - before.Keys)
    requires OldestExpired(before, cutoff, limit, ids)
    requires after == before - Elems(ids)
    ensures Swept(rows0, after, cutoff)
  {
    forall d, k | d in rows0 && d !in after && k in Expired(rows0, cutoff) && k in after
      ensures rows0[d] <= rows0[k]
    {
      if d in before {
        var i :| 0 <= i < |ids| && ids[i] == d;
        assert k in Expired(before, cutoff);
      }
    }
  }

  /** After a round, the expired logs still present are the run's expired ones not yet deleted. */
  lemma RoundExpired(rows0: map<AuditLogId, Time>, before: map<AuditLogId, Time>, after: map<AuditLogId, Time>,
                     cutoff: int, taken: set<AuditLogId>)
    requires before.Keys <= rows0.Keys && forall id :: id in before ==> before[id] == rows0[id]
    requires Expired(before, cutoff) == Expired(rows0, cutoff) - (rows0.Keys - before.Keys)
    requires after == before - taken
    ensures Expired(after, cutoff) == Expired(rows0, cutoff) - (rows0.Keys - after.Keys)
  {
  }

  // ---------------------------------------------------------------- two runs

  /** What a run leaves of the expired logs: those of the table before it that it did not delete. */
  lemma SweptExpired(rows0: map<AuditLogId, Time>, rows: map<AuditLogId, Time>, cutoff: int)
    requires Swept(rows0, rows, cutoff)
    ensures Expired(rows, cutoff) == Expired(rows0, cutoff) - (rows0.Keys - rows.Keys)
    ensures |Expired(rows, cutoff)| == |Expired(rows0, cutoff)| - |rows0.Keys - rows.Keys|
  {
    RemovedCount(Expired(rows0, cutoff), rows0.Keys - rows.Keys);
  }

  /**
   * The budget over two runs at the same instant: a run never deletes more than
   * `batchSize * maxBatches` logs, and the second run goes on where the first stopped, so together
   * they delete `min(expired, 2 * batchSize * maxBatches)`, and every expired log is gone when there
   * were at most twice the budget.
   */
  lemma SecondRunContinues(cfg: AuditCleanupConfig, now: Time, rows0: map<AuditLogId, Time>, rows1: map<AuditLogId, Time>,
                           rows2: map<AuditLogId, Time>, st1: CleanupStats, st2: CleanupStats)
    requires Reported(cfg, now, rows0, rows1, st1) && Reported(cfg, now, rows1, rows2, st2)
    ensures var budget := BatchSize(cfg) * MaxBatches(cfg);
      var expired := |Expired(rows0, Cutoff(now, RetentionDays(cfg)))|;
      && st1.totalDeleted <= budget && st2.totalDeleted <= budget
      && st1.totalDeleted + st2.totalDeleted == Min(expired, 2 * budget)
      && (expired <= 2 * budget ==> Expired(rows2, Cutoff(now, RetentionDays(cfg))) == {})
  {
    var cutoff := Cutoff(now, RetentionDays(cfg));
    SweptExpired(rows0, rows1, cutoff);
    SweptExpired(rows1, rows2, cutoff);
  }
}
