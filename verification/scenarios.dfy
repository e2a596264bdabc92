/** A worked example of the historical backfill on a small `daily_log`: a
    row from 2025-03-05 and a row from 2025-03-08. Only the first is before
    the cutoff, so the batch holds one row, its datetime rewritten as text,
    and the transform renames all three columns.
 */
module Scenarios {
  import opened Outcomes
  import opened Seqs
  import opened Calendar
  import opened Timestamps
  import opened Tables
  import opened Extract
  import opened Transform
  import opened Schema
  import opened Actions
  import opened Load
  import opened Pipeline

  const Columns := ["backup_date", "server", "fileName"]

  function At(d: Date): Cell
  {
    Stamp(Timestamp(d, 10, 30, 0, 0))
  }

  const Early: seq<Cell> := [At(Date(2025, 3, 5)), Scalar(Str("db1")), Scalar(Str("a.sql"))]
  const Late: seq<Cell> := [At(Date(2025, 3, 8)), Scalar(Str("db1")), Scalar(Str("b.sql"))]
  const DailyLog := Table(Columns, [Early, Late])

  lemma EarlyIsBeforeCutoff()
    ensures Selects(HistoricalWindow(), Columns, Early)
    ensures !Selects(HistoricalWindow(), Columns, Late)
  {
    var w := HistoricalWindow();
    assert Columns[0] == "backup_date";
    assert Position(Columns, "backup_date") == 0;
    assert DateOf(Early[0]) == Some(Date(2025, 3, 5));
    assert DateOf(Late[0]) == Some(Date(2025, 3, 8));
    assert ParseDate(w.literal) == Some(HistoricalCutoff);
  }

  /** The backfill query keeps the 2025-03-05 row and drops the 2025-03-08
      row. */
  lemma BackfillSelectsEarlierDay()
    ensures SelectRows(HistoricalWindow(), Columns, DailyLog.rows) == [Early]
  {
    EarlyIsBeforeCutoff();
    var w := HistoricalWindow();
    assert [Early, Late][1..] == [Late];
    assert [Late][1..] == [];
    assert SelectRows(w, Columns, [Late]) == SelectRows(w, Columns, []);
  }

  /** The example table is one the store can return: well formed, with real
      instants. */
  lemma DailyLogReadable()
    ensures Readable(DailyLog)
  {
    assert ValidTimestamp(Early[0].ts) && ValidTimestamp(Late[0].ts);
    assert ValidRow(Early) && ValidRow(Late);
  }

  /** The batch the backfill loads holds that one row, normalised. */
  lemma BackfillBatch()
    ensures Readable(DailyLog)
    ensures var r := ExtractBatch("daily_log", DailyLog, HistoricalWindow());
            && r.Ok? && r.value.columns == Columns
            && |r.value.rows| == 1 && r.value.rows[0] == NormalizeRow(Early)
  {
    DailyLogReadable();
    BackfillSelectsEarlierDay();
    assert "backup_date" in Columns;
  }

  /** Renaming the three columns one by one gives the warehouse names. */
  lemma {:induction false} RenamedColumns(c: seq<string>)
    requires |c| == 3
    requires forall i :: 0 <= i < 3 ==> c[i] == Renamed(DailyLogRenames, Columns[i])
    ensures c == ["BackupDate", "Server", "FileName"]
  {
    assert "backup_date" != "fileName" && "server" != "fileName";
    assert c[0] == InventoryDailyLogRenames["backup_date"] == "BackupDate";
    assert c[1] == InventoryDailyLogRenames["server"] == "Server";
    assert c[2] == "FileName";
  }

  /** Whatever the rows, the three columns reach the warehouse under their
      new names. */
  lemma {:induction false} BackfillRenamesColumns(t: Table<Value>)
    requires WellFormed(t) && t.columns == Columns
    ensures Apply(HistoricalSpec, t).columns == ["BackupDate", "Server", "FileName"]
  {
    DailyLogRenamedInPlace(t);
    RenamedColumns(Apply(HistoricalSpec, t).columns);
  }

  /** The backfill's extraction from a database holding the example table:
      the three columns and the one early row, normalised. */
  lemma {:induction false} BackfillExtracts(env: Env)
    requires ValidEnv(env)
    requires "daily_log" in env.source && env.source["daily_log"] == DailyLog
    ensures var b := Batch(Historical, env, "daily_log");
            && b.Ok? && b.value.columns == Columns
            && |b.value.rows| == 1 && b.value.rows[0] == NormalizeRow(Early)
  {
    HistoricalBatch(env);
    BackfillBatch();
  }

  /** Whatever the rows, the backfill transform only renames the three
      columns. */
  lemma {:induction false} BackfillStaged(t: Table<Value>)
    requires WellFormed(t) && t.columns == Columns
    ensures Apply(HistoricalSpec, t) == Table(["BackupDate", "Server", "FileName"], t.rows)
  {
    DailyLogRenamedInPlace(t);
    BackfillRenamesColumns(t);
  }

  /** The whole backfill run on the example table, when the schema file
      declares `daily_log` and the warehouse accepts the job: it begins
      `daily_log`, queries the cutoff window, transforms the one early row,
      stages it under the historical name with the warehouse's column names,
      submits a truncating, unpartitioned job, removes the staging file and
      succeeds, without a sweep. */
  lemma {:induction false} BackfillRun(env: Env)
    requires ValidEnv(env)
    requires "daily_log" in env.source && env.source["daily_log"] == DailyLog
    requires Lookup(env.registry, "daily_log").Ok? && env.loadOutcome("daily_log") == Succeeds
    ensures var r := RunEtl(Historical, env);
            var b := Batch(Historical, env, "daily_log");
            var file := HistoricalStagingName(env.runDate);
            && b.Ok? && |b.value.rows| == 1 && b.value.rows[0] == NormalizeRow(Early)
            && r.failure.None?
            && r.actions == [Began("daily_log"), Queried("daily_log", HistoricalWindow()), Transformed("daily_log"),
                             Staged(file, Table(["BackupDate", "Server", "FileName"], b.value.rows)),
                             Submitted("daily_log", TableRef(env.warehouse, "daily_log"),
                                       LoadJob(Lookup(env.registry, "daily_log").value, WriteTruncate, None)),
                             RemovedStaging(file)]
  {
    BackfillExtracts(env);
    var b := Batch(Historical, env, "daily_log").value;
    BackfillStaged(b);
    HistoricalLoaded(env);
  }
}
