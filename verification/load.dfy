/** `load_to_bigquery` in its three versions. Each version resolves the
    table's schema, writes the batch to a staging file, submits a load job
    and waits for it, deletes the staging file, and reads the table's row
    count back. What differs between the scripts is gathered in a `Plan`:
    whether an empty batch returns early, the write disposition, the
    partitioning and the staging file's name. The warehouse is a parameter:
    the outcome of the job and of the row-count read.
 */
module Load {
  import opened Outcomes
  import opened Text
  import opened Calendar
  import opened Tables
  import opened Schema
  import opened Actions

  /** The warehouse project and dataset the table references point into. */
  datatype Warehouse = Warehouse(project: string, dataset: string)

  /** The inventory script's fixed warehouse. */
  const InventoryWarehouse := Warehouse("ti-dba-prod-01", "ti_db_inventory")

  /** What the warehouse does with a submitted job: `job.result()` raises,
      or it returns and `get_table` then raises, or both succeed. */
  datatype LoadOutcome = JobFails | CountReadFails | Succeeds

  datatype Plan = Plan(guardsEmpty: bool, disposition: Disposition, partition: Option<string>, staging: string)

  /** `f"{project_id}.{dataset_id}.{table_name}"`. */
  function TableRef(w: Warehouse, table: string): (r: string)
    ensures |r| == |w.project| + |w.dataset| + |table| + 2
    ensures r[..|w.project|] == w.project && r[|w.project|] == '.'
    ensures r[|w.project| + 1..|r| - |table| - 1] == w.dataset
    ensures r[|r| - |table| - 1] == '.' && r[|r| - |table|..] == table
  {
    w.project + "." + w.dataset + "." + table
  }

  const StagingPrefix := "mysql_to_bq_"
  const HistoricalStagingPrefix := "mysql_to_bq_historical_"

  /** `NamedTemporaryFile(suffix='.json')`: a fresh name from the temporary
      directory's generator. */
  function InventoryStagingName(stem: string): (name: string)
    ensures |name| == |stem| + 8
    ensures name[..3] == "tmp" && name[3..|name| - 5] == stem && name[|name| - 5..] == ".json"
  {
    "tmp" + stem + ".json"
  }

  /** Different stems give different staging files. */
  lemma {:induction false} InventoryStagingNamesDistinct(s1: string, s2: string)
    requires InventoryStagingName(s1) == InventoryStagingName(s2)
    ensures s1 == s2
  {
  }

  /** `f"mysql_to_bq_{CURRENT_DATE}_{table_name}.json"`. */
  function IncrementalStagingName(runDate: Date, table: string): (name: string)
    requires Valid(runDate)
    ensures |name| == 28 + |table|
    ensures name[..12] == StagingPrefix && name[12..22] == FormatDate(runDate) && name[22] == '_'
    ensures name[23..|name| - 5] == table && name[|name| - 5..] == ".json"
  {
    StagingPrefix + FormatDate(runDate) + "_" + table + ".json"
  }

  /** `f"mysql_to_bq_historical_{CURRENT_DATE}_{table_name}.json"` with the
      script's fixed table `daily_log`. */
  function HistoricalStagingName(runDate: Date): (name: string)
    requires Valid(runDate)
    ensures |name| == 48
    ensures name[..23] == HistoricalStagingPrefix && name[23..33] == FormatDate(runDate)
    ensures name[33..] == "_daily_log.json"
  {
    HistoricalStagingPrefix + FormatDate(runDate) + "_daily_log.json"
  }

  /** One run of the incremental script stages each table under its own
      name, and runs on different days never share a name. */
  lemma {:induction false} IncrementalStagingNamesDistinct(d1: Date, t1: string, d2: Date, t2: string)
    requires Valid(d1) && Valid(d2)
    requires IncrementalStagingName(d1, t1) == IncrementalStagingName(d2, t2)
    ensures d1 == d2 && t1 == t2
  {
    var n1 := IncrementalStagingName(d1, t1);
    var n2 := IncrementalStagingName(d2, t2);
    assert FormatDate(d1) == n1[12..22] == n2[12..22] == FormatDate(d2);
    FormatDateInjective(d1, d2);
    assert t1 == n1[23..|n1| - 5];
    assert t2 == n2[23..|n2| - 5];
  }

  /** The backfill's staging file can never be mistaken for one of the
      incremental script's: character 12 is `h` in one and a year digit in
      the other. */
  lemma {:induction false} HistoricalNameNeverIncremental(d1: Date, d2: Date, table: string)
    requires Valid(d1) && Valid(d2)
    ensures HistoricalStagingName(d1) != IncrementalStagingName(d2, table)
  {
    var h := HistoricalStagingName(d1);
    var i := IncrementalStagingName(d2, table);
    assert h[12] == 'h';
    assert i[12] == FormatDate(d2)[0];
    assert IsDigit(FormatDate(d2)[..4][0]);
  }

  /** ti_db_inventory_to_BQ.py: append in daily mode and truncate otherwise;
      `daily_log` is partitioned by day on `BackupDate`; no empty-batch
      guard inside the load. */
  function InventoryPlan(table: string, isDaily: bool, stem: string): (p: Plan)
    ensures !p.guardsEmpty
    ensures p.disposition == WriteAppend <==> isDaily
    ensures p.partition.Some? <==> table == "daily_log"
    ensures p.partition.Some? ==> p.partition.value == "BackupDate"
  {
    Plan(false, if isDaily then WriteAppend else WriteTruncate,
         if table == "daily_log" then Some("BackupDate") else None,
         InventoryStagingName(stem))
  }

  /** etl_mysql_to_bigquery.py: always append, never partitioned, empty
      batches return before anything else. */
  function IncrementalPlan(table: string, runDate: Date): (p: Plan)
    requires Valid(runDate)
    ensures p.guardsEmpty && p.disposition == WriteAppend && p.partition.None?
    ensures p.staging == IncrementalStagingName(runDate, table)
  {
    Plan(true, WriteAppend, None, IncrementalStagingName(runDate, table))
  }

  /** etl_daily_log.py: always truncate, never partitioned, empty batches
      return before anything else. */
  function HistoricalPlan(runDate: Date): (p: Plan)
    requires Valid(runDate)
    ensures p.guardsEmpty && p.disposition == WriteTruncate && p.partition.None?
    ensures p.staging == HistoricalStagingName(runDate)
  {
    Plan(true, WriteTruncate, None, HistoricalStagingName(runDate))
  }

  /** One call of `load_to_bigquery`. The guard, if the plan has one, comes
      first; then the schema, whose failure ends the call before any file
      exists; then the staging file and the job. A failed job leaves the file
      behind; otherwise the file is removed before the row count is read. */
  function LoadBatch(plan: Plan, table: string, batch: Table<Value>, registry: Registry,
                     w: Warehouse, outcome: LoadOutcome): (r: Step)
    ensures plan.guardsEmpty && IsEmpty(batch) ==> r == Step([], None)
    ensures r.actions == [] <==> (plan.guardsEmpty && IsEmpty(batch)) || Lookup(registry, table).Err?
    ensures r.actions == [] && r.failure.Some? ==> r.failure == Some(Lookup(registry, table).failure)
    ensures r.actions != [] ==>
              && |r.actions| >= 2
              && r.actions[0] == Staged(plan.staging, batch)
              && r.actions[1] == Submitted(table, TableRef(w, table),
                                           LoadJob(Lookup(registry, table).value, plan.disposition, plan.partition))
    ensures r.actions != [] ==>
              && (outcome == JobFails <==> |r.actions| == 2)
              && (outcome != JobFails ==> |r.actions| == 3 && r.actions[2] == RemovedStaging(plan.staging))
              && (r.failure.None? <==> outcome == Succeeds)
              && (outcome == JobFails ==> r.failure == Some(LoadFailed(table)))
              && (outcome == CountReadFails ==> r.failure == Some(RowCountFailed(table)))
  {
    if plan.guardsEmpty && IsEmpty(batch) then Step([], None)
    else
      match Lookup(registry, table)
      case Err(f) => Step([], Some(f))
      case Ok(schema) =>
        var submitted := [Staged(plan.staging, batch),
                          Submitted(table, TableRef(w, table), LoadJob(schema, plan.disposition, plan.partition))];
        match outcome
        case JobFails => Step(submitted, Some(LoadFailed(table)))
        case CountReadFails => Step(submitted + [RemovedStaging(plan.staging)], Some(RowCountFailed(table)))
        case Succeeds => Step(submitted + [RemovedStaging(plan.staging)], None)
  }

  /** A load that is not skipped, whose schema resolves and whose job and
      row-count read go through: stage, submit, remove, succeed. */
  lemma {:induction false} LoadSucceeds(plan: Plan, table: string, batch: Table<Value>, registry: Registry, w: Warehouse)
    requires !(plan.guardsEmpty && IsEmpty(batch)) && Lookup(registry, table).Ok?
    ensures LoadBatch(plan, table, batch, registry, w, Succeeds)
            == Step([Staged(plan.staging, batch),
                      Submitted(table, TableRef(w, table), LoadJob(Lookup(registry, table).value, plan.disposition, plan.partition)),
                      RemovedStaging(plan.staging)], None)
  {
  }

  /** A staging file that was written and never removed. */
  predicate LeftBehind(actions: seq<Action>, file: string)
  {
    && (exists i :: 0 <= i < |actions| && actions[i].Staged? && actions[i].file == file)
    && RemovedStaging(file) !in actions
  }

  /** A schema that cannot be resolved stops the load before a staging file
      is written or a job submitted, and the call fails. */
  lemma {:induction false} SchemaBeforeStaging(plan: Plan, table: string, batch: Table<Value>, registry: Registry,
                            w: Warehouse, outcome: LoadOutcome)
    requires Lookup(registry, table).Err?
    ensures var r := LoadBatch(plan, table, batch, registry, w, outcome);
            && (forall i :: 0 <= i < |r.actions| ==> !r.actions[i].Staged? && !r.actions[i].Submitted?)
            && (r.failure.None? <==> plan.guardsEmpty && IsEmpty(batch))
  {
  }

  /** The staging file outlives the call exactly when the job failed. */
  lemma {:induction false} StagingLeftBehindIffJobFails(plan: Plan, table: string, batch: Table<Value>, registry: Registry,
                                     w: Warehouse, outcome: LoadOutcome)
    requires !(plan.guardsEmpty && IsEmpty(batch)) && Lookup(registry, table).Ok?
    ensures var r := LoadBatch(plan, table, batch, registry, w, outcome);
            LeftBehind(r.actions, plan.staging) <==> outcome == JobFails
  {
    var r := LoadBatch(plan, table, batch, registry, w, outcome);
    if outcome == JobFails {
      assert r.actions == [r.actions[0], r.actions[1]];
    }
  }

  /** What a load can do, whatever happens: write a staging file, submit a
      job for the table that carries the plan's disposition and
      partitioning, and remove the staging file, and fail only with an
      exception about the table. */
  lemma {:induction false} LoadBatchActions(plan: Plan, table: string, batch: Table<Value>, registry: Registry,
                         w: Warehouse, outcome: LoadOutcome)
    ensures var r := LoadBatch(plan, table, batch, registry, w, outcome);
            && (forall a :: a in r.actions ==> a.Staged? || a.Submitted? || a.RemovedStaging?)
            && (forall a :: a in r.actions && a.Submitted? ==>
                  a.table == table && a.job.disposition == plan.disposition && a.job.partition == plan.partition)
            && (r.failure.Some? ==> AboutTable(r.failure.value, table))
            && (r.failure == Some(SchemaNotFound(table)) <==> !(plan.guardsEmpty && IsEmpty(batch)) && table !in registry)
  {
  }
}
