/**
 * Retention of the AppLogs table (LogCleanupRecurringJob): one pass per severity, each with its own
 * retention in days, then a catch-all pass for a null or unrecognised level. A pass removes every row
 * of its level whose age `LastOccurrence ?? Timestamp` is strictly before `now - retentionDays`; a
 * pass that fails is logged and deletes nothing, and the later passes still run.
 */
module LogCleanup {
  import opened Prelude
  import opened AppLogs

  /** The `Serilog:Database:Cleanup` section as read; an absent key is None. */
  datatype CleanupConfig = CleanupConfig(
    defaultRetentionDays: Option<int>,
    enabled: Option<bool>,
    errorRetentionDays: Option<int>,
    warningRetentionDays: Option<int>,
    informationRetentionDays: Option<int>,
    debugRetentionDays: Option<int>)

  /** The configured values with the job's defaults. */
  predicate Enabled(cfg: CleanupConfig) { cfg.enabled.GetOr(true) }
  function DefaultDays(cfg: CleanupConfig): int { cfg.defaultRetentionDays.GetOr(30) }
  function ErrorDays(cfg: CleanupConfig): int { cfg.errorRetentionDays.GetOr(90) }
  function WarningDays(cfg: CleanupConfig): int { cfg.warningRetentionDays.GetOr(60) }
  function InformationDays(cfg: CleanupConfig): int { cfg.informationRetentionDays.GetOr(30) }
  function DebugDays(cfg: CleanupConfig): int { cfg.debugRetentionDays.GetOr(7) }

  /** The level names the catch-all pass leaves alone (Fatal among them). */
  const CommonLevels: seq<string> := ["Error", "Warning", "Information", "Debug", "Verbose", "Fatal"]

  /** One call of CleanupLogsByLevel: the level it targets (None for the catch-all) and its retention. */
  datatype Pass = Pass(level: Option<string>, retentionDays: int)

  /** The passes of one run, in the order ExecuteAsync makes them; Verbose shares Debug's retention. */
  function Passes(cfg: CleanupConfig): seq<Pass> {
    [Pass(Some("Error"), ErrorDays(cfg)),
     Pass(Some("Warning"), WarningDays(cfg)),
     Pass(Some("Information"), InformationDays(cfg)),
     Pass(Some("Debug"), DebugDays(cfg)),
     Pass(Some("Verbose"), DebugDays(cfg)),
     Pass(None, DefaultDays(cfg))]
  }

  /** `char.IsWhiteSpace` on the ASCII range: space, tab, line feed, vertical tab, form feed, carriage return. */
  predicate IsWhiteSpace(c: char) {
    c == ' ' || '\t' <= c <= '\r'
  }

  /** `string.IsNullOrWhiteSpace`. */
  predicate IsNullOrWhiteSpace(s: Option<string>) {
    s.None? || forall i :: 0 <= i < |s.value| ==> IsWhiteSpace(s.value[i])
  }

  /** The level filter of a pass: a blank pass level selects null and unrecognised levels, any other only its own. */
  predicate LevelMatches(passLevel: Option<string>, level: Option<string>) {
    if IsNullOrWhiteSpace(passLevel) then level.None? || level.value !in CommonLevels
    else level == passLevel
  }

  /** The row filter of a pass; the comparison is strict. */
  predicate Selects(p: Pass, now: Time, r: LogRecord) {
    LevelMatches(p.level, r.level) && EffectiveTime(r) < Cutoff(now, p.retentionDays)
  }

  /** The ids a pass loads and removes. */
  function Selected(rows: map<Id, LogRecord>, p: Pass, now: Time): (doomed: set<Id>)
    ensures doomed <= rows.Keys
    ensures forall id :: id in rows ==> (id in doomed <==> Selects(p, now, rows[id]))
  {
    set id | id in rows && Selects(p, now, rows[id])
  }

  /** One entry of `DeletedByLevel`. */
  datatype LevelCleanupStat = LevelCleanupStat(level: Option<string>, count: int, retentionDays: int)

  /** The table and the run's statistics after some passes. */
  datatype Outcome = Outcome(rows: map<Id, LogRecord>, totalDeleted: int, deletedByLevel: seq<LevelCleanupStat>)

  /** CleanupLogsByLevel: remove the selected rows and record them, or do nothing when the pass fails or finds none. */
  function PassStep(o: Outcome, p: Pass, now: Time, fails: bool): Outcome {
    var doomed := Selected(o.rows, p, now);
    if fails || doomed == {} then o
    else Outcome(o.rows - doomed, o.totalDeleted + |doomed|,
                 o.deletedByLevel + [LevelCleanupStat(p.level, |doomed|, p.retentionDays)])
  }

  /** The passes `ps` in order; a pass whose level is in `failing` throws and is skipped. */
  function RunPasses(o: Outcome, ps: seq<Pass>, now: Time, failing: set<Option<string>>): Outcome
    decreases |ps|
  {
    if ps == [] then o
    else
      var last := ps[|ps| - 1];
      PassStep(RunPasses(o, ps[..|ps| - 1], now, failing), last, now, last.level in failing)
  }

  /** ExecuteAsync: None when disabled (the job returns before any pass), else the outcome of the six passes. */
  function Run(cfg: CleanupConfig, rows: map<Id, LogRecord>, now: Time, failing: set<Option<string>>): Option<Outcome> {
    if !Enabled(cfg) then None else Some(RunPasses(Outcome(rows, 0, []), Passes(cfg), now, failing))
  }

  // ---------------------------------------------------------------- a reference definition of the policy

  /** How long a row of level `level` is kept, by policy: None for Fatal, which no pass targets. */
  function RetentionOf(cfg: CleanupConfig, level: Option<string>): Option<int> {
    if level == Some("Error") then Some(ErrorDays(cfg))
    else if level == Some("Warning") then Some(WarningDays(cfg))
    else if level == Some("Information") then Some(InformationDays(cfg))
    else if level == Some("Debug") || level == Some("Verbose") then Some(DebugDays(cfg))
    else if level == Some("Fatal") then None
    else Some(DefaultDays(cfg))
  }

  /** The pass responsible for a level: its own for the five named levels, the catch-all for the rest. */
  function PassFor(level: Option<string>): Option<string> {
    if level.Some? && level.value in CommonLevels then level else None
  }

  /** A row the run deletes, by policy: kept past its level's retention, and its pass does not fail. */
  predicate Expires(cfg: CleanupConfig, r: LogRecord, now: Time, failing: set<Option<string>>) {
    && RetentionOf(cfg, r.level).Some?
    && EffectiveTime(r) < Cutoff(now, RetentionOf(cfg, r.level).value)
    && PassFor(r.level) !in failing
  }

  // ---------------------------------------------------------------- properties

  /** Some pass of `ps` that does not fail selects `r`. */
  predicate AnySelects(ps: seq<Pass>, now: Time, failing: set<Option<string>>, r: LogRecord)
    decreases |ps|
  {
    ps != [] && (AnySelects(ps[..|ps| - 1], now, failing, r) || Live(ps[|ps| - 1], now, failing, r))
  }

  /** Pass `p` runs and selects `r`. */
  predicate Live(p: Pass, now: Time, failing: set<Option<string>>, r: LogRecord) {
    p.level !in failing && Selects(p, now, r)
  }

  /** The sum of the counts in `DeletedByLevel`. */
  function SumCounts(stats: seq<LevelCleanupStat>): int
    decreases |stats|
  {
    if stats == [] then 0 else SumCounts(stats[..|stats| - 1]) + stats[|stats| - 1].count
  }

  lemma {:induction false} SumCountsAppend(a: seq<LevelCleanupStat>, b: seq<LevelCleanupStat>)
    ensures SumCounts(a + b) == SumCounts(a) + SumCounts(b)
    decreases |b|
  {
    if b == [] {
      assert a + b == a;
    } else {
      assert (a + b)[..|a + b| - 1] == a + b[..|b| - 1];
      assert (a + b)[|a + b| - 1] == b[|b| - 1];
      SumCountsAppend(a, b[..|b| - 1]);
    }
  }

  /** Removing the ids of three nested key sets: what leaves in two steps is the sum of the steps. */
  lemma NestedDifference(k0: set<Id>, k1: set<Id>, k2: set<Id>)
    requires k2 <= k1 <= k0
    ensures |k0 - k2| == |k0 - k1| + |k1 - k2|
  {
    assert k0 - k2 == (k0 - k1) + (k1 - k2);
    assert (k0 - k1) * (k1 - k2) == {};
  }

  /**
   * What a sequence of passes does: a row goes exactly when some non-failing pass selects it, the rest
   * stay unchanged, TotalDeleted grows by the number of rows gone and is the sum of the entries added,
   * and every entry added counts at least one row.
   */
  lemma RunPassesSpec(o: Outcome, ps: seq<Pass>, now: Time, failing: set<Option<string>>)
    ensures var o' := RunPasses(o, ps, now, failing);
      && (forall id :: id in o'.rows <==> id in o.rows && !AnySelects(ps, now, failing, o.rows[id]))
      && (forall id :: id in o'.rows ==> o'.rows[id] == o.rows[id])
      && o'.totalDeleted == o.totalDeleted + |o.rows.Keys - o'.rows.Keys|
      && |o.deletedByLevel| <= |o'.deletedByLevel|
      && o'.deletedByLevel[..|o.deletedByLevel|] == o.deletedByLevel
      && SumCounts(o'.deletedByLevel) - SumCounts(o.deletedByLevel) == o'.totalDeleted - o.totalDeleted
      && (forall k :: |o.deletedByLevel| <= k < |o'.deletedByLevel| ==> o'.deletedByLevel[k].count > 0)
  {
    RunPassesRows(o, ps, now, failing);
    RunPassesCounts(o, ps, now, failing);
  }

  /** The rows after a sequence of passes: those no non-failing pass selects, unchanged. */
  lemma {:induction false} RunPassesRows(o: Outcome, ps: seq<Pass>, now: Time, failing: set<Option<string>>)
    ensures var o' := RunPasses(o, ps, now, failing);
      && (forall id :: id in o'.rows <==> id in o.rows && !AnySelects(ps, now, failing, o.rows[id]))
      && (forall id :: id in o'.rows ==> o'.rows[id] == o.rows[id])
    decreases |ps|
  {
    if ps != [] {
      RunPassesRows(o, ps[..|ps| - 1], now, failing);
    }
  }

  /** The statistics after a sequence of passes, against the rows they removed. */
  lemma {:induction false} RunPassesCounts(o: Outcome, ps: seq<Pass>, now: Time, failing: set<Option<string>>)
    ensures var o' := RunPasses(o, ps, now, failing);
      && o'.rows.Keys <= o.rows.Keys
      && o'.totalDeleted == o.totalDeleted + |o.rows.Keys - o'.rows.Keys|
      && |o.deletedByLevel| <= |o'.deletedByLevel|
      && o'.deletedByLevel[..|o.deletedByLevel|] == o.deletedByLevel
      && SumCounts(o'.deletedByLevel) - SumCounts(o.deletedByLevel) == o'.totalDeleted - o.totalDeleted
      && (forall k :: |o.deletedByLevel| <= k < |o'.deletedByLevel| ==> o'.deletedByLevel[k].count > 0)
    decreases |ps|
  {
    if ps != [] {
      var init := ps[..|ps| - 1];
      var last := ps[|ps| - 1];
      RunPassesCounts(o, init, now, failing);
      var mid := RunPasses(o, init, now, failing);
      var fails := last.level in failing;
      assert RunPasses(o, ps, now, failing) == PassStep(mid, last, now, fails);
      PassStepCounts(o, mid, last, now, fails);
    }
  }

  /** One pass on top of `mid` keeps the statistics of RunPassesCounts measured from `o`. */
  lemma PassStepCounts(o: Outcome, mid: Outcome, p: Pass, now: Time, fails: bool)
    requires mid.rows.Keys <= o.rows.Keys
    requires mid.totalDeleted == o.totalDeleted + |o.rows.Keys - mid.rows.Keys|
    requires |o.deletedByLevel| <= |mid.deletedByLevel|
    requires mid.deletedByLevel[..|o.deletedByLevel|] == o.deletedByLevel
    requires SumCounts(mid.deletedByLevel) - SumCounts(o.deletedByLevel) == mid.totalDeleted - o.totalDeleted
    requires forall k :: |o.deletedByLevel| <= k < |mid.deletedByLevel| ==> mid.deletedByLevel[k].count > 0
    ensures var o' := PassStep(mid, p, now, fails);
      && o'.rows.Keys <= o.rows.Keys
      && o'.totalDeleted == o.totalDeleted + |o.rows.Keys - o'.rows.Keys|
      && |o.deletedByLevel| <= |o'.deletedByLevel|
      && o'.deletedByLevel[..|o.deletedByLevel|] == o.deletedByLevel
      && SumCounts(o'.deletedByLevel) - SumCounts(o.deletedByLevel) == o'.totalDeleted - o.totalDeleted
      && (forall k :: |o.deletedByLevel| <= k < |o'.deletedByLevel| ==> o'.deletedByLevel[k].count > 0)
  {
    var doomed := Selected(mid.rows, p, now);
    if !fails && doomed != {} {
      var o' := PassStep(mid, p, now, fails);
      assert o'.rows.Keys == mid.rows.Keys - doomed;
      RemovedKeys(o.rows.Keys, mid.rows.Keys, doomed);
      AppendedStat(o.deletedByLevel, mid.deletedByLevel, LevelCleanupStat(p.level, |doomed|, p.retentionDays));
    }
  }

  /** Removing `doomed` from the keys `k1` left of `k0` removes `|doomed|` more. */
  lemma RemovedKeys(k0: set<Id>, k1: set<Id>, doomed: set<Id>)
    requires k1 <= k0 && doomed <= k1
    ensures k1 - doomed <= k0
    ensures |k0 - (k1 - doomed)| == |k0 - k1| + |doomed|
  {
    NestedDifference(k0, k1, k1 - doomed);
    assert k1 - (k1 - doomed) == doomed;
  }

  /** Appending an entry keeps the earlier entries and adds its count to the sum. */
  lemma AppendedStat(before: seq<LevelCleanupStat>, stats: seq<LevelCleanupStat>, e: LevelCleanupStat)
    requires |before| <= |stats| && stats[..|before|] == before
    requires forall k :: |before| <= k < |stats| ==> stats[k].count > 0
    requires e.count > 0
    ensures (stats + [e])[..|before|] == before
    ensures SumCounts(stats + [e]) == SumCounts(stats) + e.count
    ensures forall k :: |before| <= k < |stats + [e]| ==> (stats + [e])[k].count > 0
  {
    SumCountsAppend(stats, [e]);
    assert (stats + [e])[..|stats|] == stats;
    assert (stats + [e])[..|before|] == stats[..|before|];
  }

  /** The six passes together select a row exactly when the policy says it expires. */
  lemma PassesMatchPolicy(cfg: CleanupConfig, now: Time, failing: set<Option<string>>, r: LogRecord)
    ensures AnySelects(Passes(cfg), now, failing, r) <==> Expires(cfg, r, now, failing)
  {
    var ps := Passes(cfg);
    AnySelectsSix(ps, now, failing, r);
    NamedPassesAreNotBlank();
    var l := r.level;
    if l.Some? && l.value in CommonLevels {
      assert l.value == "Error" || l.value == "Warning" || l.value == "Information" ||
             l.value == "Debug" || l.value == "Verbose" || l.value == "Fatal";
      assert !LevelMatches(None, l);
    } else {
      UnknownRetention(cfg, l);
      assert l != Some("Error") && l != Some("Warning") && l != Some("Information");
      assert l != Some("Debug") && l != Some("Verbose");
      assert LevelMatches(None, l);
    }
  }

  /** Six passes: some non-failing one selects `r` exactly when one of the six does. */
  lemma AnySelectsSix(ps: seq<Pass>, now: Time, failing: set<Option<string>>, r: LogRecord)
    requires |ps| == 6
    ensures AnySelects(ps, now, failing, r) <==>
              || Live(ps[0], now, failing, r) || Live(ps[1], now, failing, r) || Live(ps[2], now, failing, r)
              || Live(ps[3], now, failing, r) || Live(ps[4], now, failing, r) || Live(ps[5], now, failing, r)
  {
    assert AnySelects(ps[..1], now, failing, r) <==> Live(ps[0], now, failing, r) by {
      assert ps[..1][..0] == [];
    }
    assert AnySelects(ps[..2], now, failing, r) <==> AnySelects(ps[..1], now, failing, r) || Live(ps[1], now, failing, r) by {
      assert ps[..2][..1] == ps[..1];
    }
    assert AnySelects(ps[..3], now, failing, r) <==> AnySelects(ps[..2], now, failing, r) || Live(ps[2], now, failing, r) by {
      assert ps[..3][..2] == ps[..2];
    }
    assert AnySelects(ps[..4], now, failing, r) <==> AnySelects(ps[..3], now, failing, r) || Live(ps[3], now, failing, r) by {
      assert ps[..4][..3] == ps[..3];
    }
    assert AnySelects(ps[..5], now, failing, r) <==> AnySelects(ps[..4], now, failing, r) || Live(ps[4], now, failing, r) by {
      assert ps[..5][..4] == ps[..4];
    }
  }

  /** The five named pass levels are not blank, so their passes select only their own level. */
  lemma NamedPassesAreNotBlank()
    ensures !IsNullOrWhiteSpace(Some("Error")) && !IsNullOrWhiteSpace(Some("Warning"))
    ensures !IsNullOrWhiteSpace(Some("Information")) && !IsNullOrWhiteSpace(Some("Debug"))
    ensures !IsNullOrWhiteSpace(Some("Verbose"))
  {
    assert !IsWhiteSpace("Error"[0]);
    assert !IsWhiteSpace("Warning"[0]);
    assert !IsWhiteSpace("Information"[0]);
    assert !IsWhiteSpace("Debug"[0]);
    assert !IsWhiteSpace("Verbose"[0]);
  }

  /**
   * The run against the policy: with cleanup enabled, a row is deleted exactly when it has expired
   * under its level's retention and its pass did not fail; every other row is left as it was.
   */
  lemma RunFollowsPolicy(cfg: CleanupConfig, rows: map<Id, LogRecord>, now: Time, failing: set<Option<string>>)
    requires Enabled(cfg)
    ensures Run(cfg, rows, now, failing).Some?
    ensures var o := Run(cfg, rows, now, failing).value;
      && (forall id :: id in o.rows <==> id in rows && !Expires(cfg, rows[id], now, failing))
      && (forall id :: id in o.rows ==> o.rows[id] == rows[id])
  {
    RunPassesSpec(Outcome(rows, 0, []), Passes(cfg), now, failing);
    forall id | id in rows {
      PassesMatchPolicy(cfg, now, failing, rows[id]);
    }
  }

  /** No pass targets Fatal: a Fatal row survives every run, whatever the configuration. */
  lemma FatalIsNeverDeleted(cfg: CleanupConfig, rows: map<Id, LogRecord>, now: Time, failing: set<Option<string>>, id: Id)
    requires id in rows && rows[id].level == Some("Fatal")
    ensures var r := Run(cfg, rows, now, failing);
      r.Some? ==> id in r.value.rows && r.value.rows[id] == rows[id]
  {
    if Enabled(cfg) {
      RunFollowsPolicy(cfg, rows, now, failing);
    }
  }

  /** A row of an unrecognised or missing level is judged by the default retention. */
  lemma UnknownLevelUsesDefault(cfg: CleanupConfig, rows: map<Id, LogRecord>, now: Time, id: Id)
    requires Enabled(cfg)
    requires id in rows && (rows[id].level.None? || rows[id].level.value !in CommonLevels)
    ensures id !in Run(cfg, rows, now, {}).value.rows <==> EffectiveTime(rows[id]) < Cutoff(now, DefaultDays(cfg))
  {
    RunFollowsPolicy(cfg, rows, now, {});
    UnknownRetention(cfg, rows[id].level);
  }

  /** An unrecognised or missing level has the default retention and falls to the catch-all pass. */
  lemma UnknownRetention(cfg: CleanupConfig, level: Option<string>)
    requires level.None? || level.value !in CommonLevels
    ensures RetentionOf(cfg, level) == Some(DefaultDays(cfg)) && PassFor(level) == None
  {
  }

  /** The statistics: TotalDeleted is the number of rows gone and the sum of DeletedByLevel, whose every entry is positive. */
  lemma RunStatistics(cfg: CleanupConfig, rows: map<Id, LogRecord>, now: Time, failing: set<Option<string>>)
    requires Enabled(cfg)
    ensures var o := Run(cfg, rows, now, failing).value;
      && o.totalDeleted == |rows.Keys - o.rows.Keys|
      && o.totalDeleted == SumCounts(o.deletedByLevel)
      && |o.deletedByLevel| <= |Passes(cfg)|
      && (forall k :: 0 <= k < |o.deletedByLevel| ==> o.deletedByLevel[k].count > 0)
  {
    RunPassesSpec(Outcome(rows, 0, []), Passes(cfg), now, failing);
    BoundedEntries(Outcome(rows, 0, []), Passes(cfg), now, failing);
  }

  /** Each pass adds at most one entry. */
  lemma {:induction false} BoundedEntries(o: Outcome, ps: seq<Pass>, now: Time, failing: set<Option<string>>)
    ensures |RunPasses(o, ps, now, failing).deletedByLevel| <= |o.deletedByLevel| + |ps|
    decreases |ps|
  {
    if ps != [] {
      BoundedEntries(o, ps[..|ps| - 1], now, failing);
    }
  }

  /** Entries with positive counts sum to at least their number. */
  lemma {:induction false} SumCountsAtLeastLength(stats: seq<LevelCleanupStat>)
    requires forall k :: 0 <= k < |stats| ==> stats[k].count > 0
    ensures SumCounts(stats) >= |stats|
    decreases |stats|
  {
    if stats != [] {
      SumCountsAtLeastLength(stats[..|stats| - 1]);
    }
  }

  /** A second run at the same instant, with no pass failing either time, finds nothing more to delete. */
  lemma SecondRunDeletesNothing(cfg: CleanupConfig, rows: map<Id, LogRecord>, now: Time)
    requires Enabled(cfg)
    ensures var first := Run(cfg, rows, now, {}).value;
      var second := Run(cfg, first.rows, now, {}).value;
      second.rows == first.rows && second.totalDeleted == 0 && second.deletedByLevel == []
  {
    var first := Run(cfg, rows, now, {}).value;
    var second := Run(cfg, first.rows, now, {}).value;
    RunFollowsPolicy(cfg, rows, now, {});
    RunFollowsPolicy(cfg, first.rows, now, {});
    PolicyIsIdempotent(cfg, now, rows, first.rows, second.rows);
    RunStatistics(cfg, first.rows, now, {});
    NothingLeftToCount(first.rows, second);
  }

  /** Filtering by the policy twice keeps what filtering once kept. */
  lemma PolicyIsIdempotent(cfg: CleanupConfig, now: Time, rows: map<Id, LogRecord>, once: map<Id, LogRecord>, twice: map<Id, LogRecord>)
    requires forall id :: id in once <==> id in rows && !Expires(cfg, rows[id], now, {})
    requires forall id :: id in once ==> once[id] == rows[id]
    requires forall id :: id in twice <==> id in once && !Expires(cfg, once[id], now, {})
    requires forall id :: id in twice ==> twice[id] == once[id]
    ensures twice == once
  {
    assert twice.Keys == once.Keys;
  }

  /** A run that removed nothing has no entries. */
  lemma NothingLeftToCount(rows: map<Id, LogRecord>, o: Outcome)
    requires o.rows == rows
    requires o.totalDeleted == |rows.Keys - o.rows.Keys| && o.totalDeleted == SumCounts(o.deletedByLevel)
    requires forall k :: 0 <= k < |o.deletedByLevel| ==> o.deletedByLevel[k].count > 0
    ensures o.totalDeleted == 0 && o.deletedByLevel == []
  {
    assert rows.Keys - o.rows.Keys == {};
    SumCountsAtLeastLength(o.deletedByLevel);
  }

  /** Appending a pass is one more step. */
  lemma RunPassesSnoc(o: Outcome, ps: seq<Pass>, p: Pass, now: Time, failing: set<Option<string>>)
    ensures RunPasses(o, ps + [p], now, failing) == PassStep(RunPasses(o, ps, now, failing), p, now, p.level in failing)
  {
    assert (ps + [p])[..|ps|] == ps;
  }

  // ---------------------------------------------------------------- the job

  /** CleanupStats: the counters the passes update. */
  class CleanupStats {
    var totalDeleted: int
    var deletedByLevel: seq<LevelCleanupStat>

    constructor ()
      ensures totalDeleted == 0 && deletedByLevel == []
    {
      totalDeleted := 0;
      deletedByLevel := [];
    }
  }

  class LogCleanupRecurringJob {
    const config: CleanupConfig
    const store: LogStore

    constructor (config: CleanupConfig, store: LogStore)
      ensures this.config == config && this.store == store
    {
      this.config := config;
      this.store := store;
    }

    /** ExecuteAsync: returns the statistics, or null when cleanup is disabled. */
    method Execute(now: Time, failing: set<Option<string>>) returns (stats: CleanupStats?)
      modifies store
      ensures Run(config, old(store.rows), now, failing).None? ==> stats == null && store.rows == old(store.rows)
      ensures Run(config, old(store.rows), now, failing).Some? ==>
                stats != null && Outcome(store.rows, stats.totalDeleted, stats.deletedByLevel) == Run(config, old(store.rows), now, failing).value
    {
      var defaultRetentionDays := config.defaultRetentionDays.GetOr(30);
      var enabled := config.enabled.GetOr(true);
      if !enabled {
        return null;
      }
      var errorRetentionDays := config.errorRetentionDays.GetOr(90);
      var warningRetentionDays := config.warningRetentionDays.GetOr(60);
      var informationRetentionDays := config.informationRetentionDays.GetOr(30);
      var debugRetentionDays := config.debugRetentionDays.GetOr(7);
      stats := new CleanupStats();

      ghost var o0 := Outcome(store.rows, 0, []);
      ghost var done: seq<Pass> := [];
      CleanupLogsByLevel(Some("Error"), errorRetentionDays, stats, now, Some("Error") in failing);
      RunPassesSnoc(o0, done, Pass(Some("Error"), errorRetentionDays), now, failing);
      done := done + [Pass(Some("Error"), errorRetentionDays)];
      CleanupLogsByLevel(Some("Warning"), warningRetentionDays, stats, now, Some("Warning") in failing);
      RunPassesSnoc(o0, done, Pass(Some("Warning"), warningRetentionDays), now, failing);
      done := done + [Pass(Some("Warning"), warningRetentionDays)];
      CleanupLogsByLevel(Some("Information"), informationRetentionDays, stats, now, Some("Information") in failing);
      RunPassesSnoc(o0, done, Pass(Some("Information"), informationRetentionDays), now, failing);
      done := done + [Pass(Some("Information"), informationRetentionDays)];
      CleanupLogsByLevel(Some("Debug"), debugRetentionDays, stats, now, Some("Debug") in failing);
      RunPassesSnoc(o0, done, Pass(Some("Debug"), debugRetentionDays), now, failing);
      done := done + [Pass(Some("Debug"), debugRetentionDays)];
      CleanupLogsByLevel(Some("Verbose"), debugRetentionDays, stats, now, Some("Verbose") in failing);
      RunPassesSnoc(o0, done, Pass(Some("Verbose"), debugRetentionDays), now, failing);
      done := done + [Pass(Some("Verbose"), debugRetentionDays)];
      CleanupLogsByLevel(None, defaultRetentionDays, stats, now, None in failing);
      RunPassesSnoc(o0, done, Pass(None, defaultRetentionDays), now, failing);
      done := done + [Pass(None, defaultRetentionDays)];
      assert done == Passes(config);
    }

    /** CleanupLogsByLevel: load the rows of the level past the cutoff, remove them, record the count. */
    method CleanupLogsByLevel(level: Option<string>, retentionDays: int, stats: CleanupStats, now: Time, fails: bool)
      modifies store, stats
      ensures Outcome(store.rows, stats.totalDeleted, stats.deletedByLevel) ==
                PassStep(Outcome(old(store.rows), old(stats.totalDeleted), old(stats.deletedByLevel)), Pass(level, retentionDays), now, fails)
    {
      if fails {
        return;
      }
      var cutoffDate := now - retentionDays * MinutesPerDay;
      var logsToDelete := set id | id in store.rows && LevelMatches(level, store.rows[id].level) && EffectiveTime(store.rows[id]) < cutoffDate;
      assert logsToDelete == Selected(store.rows, Pass(level, retentionDays), now);
      if logsToDelete != {} {
        store.RemoveRange(logsToDelete);
        var deletedCount := |logsToDelete|;
        stats.totalDeleted := stats.totalDeleted + deletedCount;
        stats.deletedByLevel := stats.deletedByLevel + [LevelCleanupStat(level, deletedCount, retentionDays)];
      }
    }
  }
}
