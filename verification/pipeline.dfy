/** `run_etl` of the three scripts as one function from an environment to a
    run. The inventory script (with or without `--daily`) and the
    incremental script discover their tables, process them one after the
    other, stop at the first exception, and sweep old dump files only after
    every table went through. The historical script processes `daily_log`
    alone and never sweeps.

    Everything outside the scripts is a field of `Env`: the clock, the
    source database, the schema file, the warehouse, the temporary-file
    name generator and the dumps directory.
 */
module Pipeline {
  import opened Outcomes
  import opened Calendar
  import opened Tables
  import opened Schema
  import opened Extract
  import opened Transform
  import opened Catalog
  import opened Actions
  import opened Load
  import opened Janitor

  /** Which script runs: ti_db_inventory_to_BQ.py (with its `--daily`
      flag), etl_mysql_to_bigquery.py or etl_daily_log.py. */
  datatype Variant = Inventory(isDaily: bool) | Incremental | Historical

  datatype Env = Env(
    today: Date,                            // `datetime.now()` when a table is extracted
    runDate: Date,                          // `CURRENT_DATE`, read once at start-up
    baseTables: Option<seq<string>>,        // `SHOW FULL TABLES ... 'BASE TABLE'`, or `None` when it raises
    source: map<string, Table<Cell>>,       // what each table holds; a missing table makes `read_sql` raise
    registry: Registry,                     // the schema file
    warehouse: Warehouse,                   // `BQ_PROJECT_ID` and `BQ_DATASET_ID` of the JSON configuration
    loadOutcome: string -> LoadOutcome,     // what the warehouse does with each table's job
    tempStem: string -> string,             // the random part of each `NamedTemporaryFile` name
    dumps: seq<FileEntry>)                  // the dumps directory as listed at cleanup time

  predicate ValidEnv(env: Env)
  {
    && Valid(env.today)
    && Valid(env.runDate)
    && forall t :: t in env.source ==> Readable(env.source[t])
  }

  function WindowFor(v: Variant, table: string, today: Date): Option<Window>
    requires Valid(today)
  {
    match v
    case Inventory(isDaily) => InventoryWindow(table, isDaily, today)
    case Incremental => Some(IncrementalWindow(table, today))
    case Historical => Some(HistoricalWindow())
  }

  function SpecFor(v: Variant, table: string): SyncSpec
  {
    match v
    case Inventory(_) => InventorySpec(table)
    case Incremental => IncrementalSpec(table)
    case Historical => HistoricalSpec
  }

  function PlanFor(v: Variant, table: string, env: Env): Plan
    requires Valid(env.runDate)
  {
    match v
    case Inventory(isDaily) => InventoryPlan(table, isDaily, env.tempStem(table))
    case Incremental => IncrementalPlan(table, env.runDate)
    case Historical => HistoricalPlan(env.runDate)
  }

  function WarehouseFor(v: Variant, env: Env): Warehouse
  {
    if v.Inventory? then InventoryWarehouse else env.warehouse
  }

  /** The write disposition a script's jobs carry. */
  function DispositionOf(v: Variant): Disposition
  {
    match v
    case Inventory(isDaily) => if isDaily then WriteAppend else WriteTruncate
    case Incremental => WriteAppend
    case Historical => WriteTruncate
  }

  /** The partitioning a script's job for `table` carries. */
  function PartitionOf(v: Variant, table: string): Option<string>
  {
    if v.Inventory? && table == "daily_log" then Some("BackupDate") else None
  }

  /** Every load job in `actions` carries its script's disposition and
      partitioning. */
  predicate FollowsPolicy(v: Variant, actions: seq<Action>)
  {
    forall a :: a in actions && a.Submitted? ==>
      a.job.disposition == DispositionOf(v) && a.job.partition == PartitionOf(v, a.table)
  }

  /** `extract_from_mysql` for one table: the batch, or the exception. It
      fails when the clock cannot be stepped back, when the database has no
      such table, or when the window filters on a column the table lacks;
      otherwise the batch has the table's columns and holds the window's
      rows, in order, normalised. */
  function Batch(v: Variant, env: Env, table: string): (r: Result<Table<Value>>)
    requires ValidEnv(env)
    ensures r.Err? ==> r.failure == ExtractionFailed(table)
    ensures r.Ok? ==> WellFormed(r.value)
    ensures var w := WindowFor(v, table, env.today);
            r.Err? <==> w.None? || table !in env.source || (w.value.Where? && w.value.column !in env.source[table].columns)
    ensures r.Ok? ==> var raw := env.source[table];
                      var selected := SelectRows(WindowFor(v, table, env.today).value, raw.columns, raw.rows);
                      && r.value.columns == raw.columns && |r.value.rows| == |selected|
                      && forall n :: 0 <= n < |selected| ==> r.value.rows[n] == NormalizeRow(selected[n])
  {
    match WindowFor(v, table, env.today)
    case None => Err(ExtractionFailed(table))
    case Some(w) =>
      if table !in env.source then Err(ExtractionFailed(table))
      else ExtractBatch(table, env.source[table], w)
  }

  /** `load_to_bigquery` on the transformed batch `out`, after the transform
      step. No table is begun and nothing is swept; every job follows the
      script's policy; the load fails for want of a schema only when the
      schema file lacks the table, and every failure is about the table. */
  function Deliver(v: Variant, env: Env, table: string, out: Table<Value>): (r: Step)
    requires ValidEnv(env)
    ensures |r.actions| >= 1 && r.actions[0] == Transformed(table)
    ensures forall a :: a in r.actions ==> !a.Began? && !a.Swept?
    ensures FollowsPolicy(v, r.actions)
    ensures r.failure == Some(SchemaNotFound(table)) ==> table !in env.registry
    ensures r.failure.Some? ==> AboutTable(r.failure.value, table)
    ensures var load := LoadBatch(PlanFor(v, table, env), table, out, env.registry, WarehouseFor(v, env), env.loadOutcome(table));
            r.actions[1..] == load.actions && r.failure == load.failure
  {
    var plan := PlanFor(v, table, env);
    assert plan.disposition == DispositionOf(v) && plan.partition == PartitionOf(v, table);
    var load := LoadBatch(plan, table, out, env.registry, WarehouseFor(v, env), env.loadOutcome(table));
    LoadBatchActions(plan, table, out, env.registry, WarehouseFor(v, env), env.loadOutcome(table));
    Step([Transformed(table)] + load.actions, load.failure)
  }

  /** The query action, when the window could be formed. */
  function QueryActions(v: Variant, env: Env, table: string): (r: seq<Action>)
    requires ValidEnv(env)
    ensures |r| <= 1 && forall a :: a in r ==> a.Queried?
  {
    match WindowFor(v, table, env.today)
    case None => []
    case Some(w) => [Queried(table, w)]
  }

  /** One iteration of the loop over tables after its first log line:
      extract, then skip an empty batch or transform and load it. */
  function Work(v: Variant, env: Env, table: string): (r: Step)
    requires ValidEnv(env)
    ensures forall a :: a in r.actions ==> !a.Began? && !a.Swept?
    ensures FollowsPolicy(v, r.actions)
    ensures r.failure == Some(SchemaNotFound(table)) ==> table !in env.registry
    ensures r.failure.Some? ==> AboutTable(r.failure.value, table)
    ensures Batch(v, env, table).Err? ==> r.failure == Some(ExtractionFailed(table)) && r.actions == QueryActions(v, env, table)
    ensures var b := Batch(v, env, table);
            b.Ok? && !IsEmpty(b.value) ==>
              var load := LoadBatch(PlanFor(v, table, env), table, Apply(SpecFor(v, table), b.value),
                                    env.registry, WarehouseFor(v, env), env.loadOutcome(table));
              && r.actions == QueryActions(v, env, table) + [Transformed(table)] + load.actions
              && r.failure == load.failure
  {
    var queried := QueryActions(v, env, table);
    match Batch(v, env, table)
    case Err(f) => Step(queried, Some(f))
    case Ok(batch) =>
      if IsEmpty(batch) then Step(queried + [SkippedEmpty(table)], None)
      else
        var out := Apply(SpecFor(v, table), batch);
        var rest := Deliver(v, env, table, out);
        var plan := PlanFor(v, table, env);
        LoadBatchActions(plan, table, out, env.registry, WarehouseFor(v, env), env.loadOutcome(table));
        assert rest.actions == [Transformed(table)] + rest.actions[1..];
        Step(queried + rest.actions, rest.failure)
  }

  /** The converse of `Work`'s missing-schema clause: a batch that reaches
      the load non-empty fails for want of a schema exactly when the schema
      file lacks the table. The inventory load has no empty guard, and the
      other two scripts drop no column, so no batch is emptied on the way. */
  lemma {:induction false} UndeclaredTableFails(v: Variant, env: Env, table: string)
    requires ValidEnv(env) && Batch(v, env, table).Ok? && !IsEmpty(Batch(v, env, table).value)
    ensures Work(v, env, table).failure == Some(SchemaNotFound(table)) <==> table !in env.registry
  {
    var batch := Batch(v, env, table).value;
    var out := Apply(SpecFor(v, table), batch);
    GuardedLoadsSeeRows(v, table, batch);
    LoadBatchActions(PlanFor(v, table, env), table, out, env.registry, WarehouseFor(v, env), env.loadOutcome(table));
  }

  /** Only the inventory script drops a column, and its loads have no empty
      guard; so a batch that reaches a guarded load non-empty is still
      non-empty after the transform. */
  lemma {:induction false} GuardedLoadsSeeRows(v: Variant, table: string, batch: Table<Value>)
    requires WellFormed(batch) && !IsEmpty(batch)
    ensures !v.Inventory? ==> !IsEmpty(Apply(SpecFor(v, table), batch))
  {
    if !v.Inventory? {
      var spec := SpecFor(v, table);
      assert spec.drops == {};
      var rn := Rename(Coerce(batch, spec.boolColumns), spec.renames);
      assert Drop(rn, spec.drops) == rn;
    }
  }

  /** One iteration of the loop over tables. It begins the table and no
      other, never sweeps, and submits only jobs that follow the script's
      policy. */
  function ProcessTable(v: Variant, env: Env, table: string): (r: Step)
    requires ValidEnv(env)
    ensures |r.actions| >= 1 && r.actions[0] == Began(table)
    ensures BeganTables(r.actions) == [table]
    ensures forall a :: a in r.actions ==> !a.Swept?
    ensures FollowsPolicy(v, r.actions)
    ensures r.failure == Work(v, env, table).failure
    ensures r.actions[1..] == Work(v, env, table).actions
  {
    var work := Work(v, env, table);
    assert forall i :: 0 <= i < |work.actions| ==> work.actions[i] in work.actions;
    NoBegan(work.actions);
    BeganTablesAppend([Began(table)], work.actions);
    assert BeganTables([Began(table)]) == [table] by {
      assert [Began(table)][..0] == [];
    }
    Step([Began(table)] + work.actions, work.failure)
  }

  /** Each table's stretch of the loop. A table's processing does not
      depend on what the tables before it did, so the loop is the fail-fast
      run of these stretches. */
  function Steps(v: Variant, env: Env, tables: seq<string>): (steps: seq<Step>)
    requires ValidEnv(env)
    ensures |steps| == |tables|
    ensures forall i :: 0 <= i < |tables| ==> steps[i] == ProcessTable(v, env, tables[i])
  {
    seq(|tables|, i requires 0 <= i < |tables| => ProcessTable(v, env, tables[i]))
  }

  /** The position of the first table whose processing fails, or the number
      of tables when none does. */
  function FailedAt(v: Variant, env: Env, tables: seq<string>): (k: nat)
    requires ValidEnv(env)
    ensures k <= |tables|
    ensures forall j :: 0 <= j < k ==> ProcessTable(v, env, tables[j]).failure.None?
    ensures k < |tables| ==> ProcessTable(v, env, tables[k]).failure.Some?
  {
    FirstFailure(Steps(v, env, tables))
  }

  /** `for table_name in tables:` inside the `try`. Tables are begun in list
      order; the first failure ends the loop and is the loop's failure, so
      the tables begun are exactly those up to and including the failing
      one. Nothing is swept and every job follows the script's policy. */
  function RunTables(v: Variant, env: Env, tables: seq<string>): (r: Step)
    requires ValidEnv(env)
    ensures var k := FailedAt(v, env, tables);
            && (r.failure.None? <==> k == |tables|)
            && (k < |tables| ==> r.failure == ProcessTable(v, env, tables[k]).failure)
            && BeganTables(r.actions) == (if k < |tables| then tables[..k + 1] else tables)
    ensures forall a :: a in r.actions ==> !a.Swept?
    ensures FollowsPolicy(v, r.actions)
    ensures forall t :: r.failure == Some(SchemaNotFound(t)) ==> t in tables && t !in env.registry
    ensures r.actions == Concat(Steps(v, env, tables)[..Reached(Steps(v, env, tables))])
  {
    var steps := Steps(v, env, tables);
    StepsKeepPolicy(v, env, tables, Reached(steps));
    RunTablesBegin(v, env, tables);
    RunTablesSchema(v, env, tables);
    FailFast(steps)
  }

  lemma {:induction false} RunTablesBegin(v: Variant, env: Env, tables: seq<string>)
    requires ValidEnv(env)
    ensures var k := FailedAt(v, env, tables);
            BeganTables(FailFast(Steps(v, env, tables)).actions) == (if k < |tables| then tables[..k + 1] else tables)
  {
    var steps := Steps(v, env, tables);
    StepsBegin(v, env, tables, Reached(steps));
    assert tables[..|tables|] == tables;
  }

  lemma {:induction false} RunTablesSchema(v: Variant, env: Env, tables: seq<string>)
    requires ValidEnv(env)
    ensures forall t :: FailFast(Steps(v, env, tables)).failure == Some(SchemaNotFound(t)) ==> t in tables && t !in env.registry
  {
    var steps := Steps(v, env, tables);
    var k := FirstFailure(steps);
    if k < |steps| {
      SchemaFailureNamesTable(v, env, tables[k]);
      assert steps[k] == ProcessTable(v, env, tables[k]);
    }
  }

  lemma {:induction false} SchemaFailureNamesTable(v: Variant, env: Env, table: string)
    requires ValidEnv(env)
    ensures forall t :: ProcessTable(v, env, table).failure == Some(SchemaNotFound(t)) ==> t == table && t !in env.registry
  {
    var f := ProcessTable(v, env, table).failure;
    assert f == Work(v, env, table).failure;
    if f.Some? && f.value.SchemaNotFound? {
      assert AboutTable(f.value, table);
      assert f.value == SchemaNotFound(table);
    }
  }

  /** The first `n` stretches begin the first `n` tables. */
  lemma {:induction false} StepsBegin(v: Variant, env: Env, tables: seq<string>, n: nat)
    requires ValidEnv(env) && n <= |tables|
    ensures BeganTables(Concat(Steps(v, env, tables)[..n])) == tables[..n]
  {
    BeganConcat(Steps(v, env, tables)[..n], tables[..n]);
  }

  /** No stretch sweeps, and every job in them follows the script's policy. */
  lemma {:induction false} StepsKeepPolicy(v: Variant, env: Env, tables: seq<string>, n: nat)
    requires ValidEnv(env) && n <= |tables|
    ensures var actions := Concat(Steps(v, env, tables)[..n]);
            (forall a :: a in actions ==> !a.Swept?) && FollowsPolicy(v, actions)
  {
  }

  /** The tables a script discovers, or `None` when discovery raises. The
      inventory script allows its fixed list and the incremental script
      every table of the schema file. */
  function Discovered(v: Variant, env: Env): Option<seq<string>>
    requires !v.Historical?
  {
    match env.baseTables
    case None => None
    case Some(base) => Some(Discover(base, if v.Inventory? then InventoryAllowList else env.registry.Keys))
  }

  /** `run_etl`. A failed discovery ends the run before any table. The two
      discovering scripts sweep exactly once, as their last action, when and
      only when the run succeeds; the historical script works on `daily_log`
      alone and never sweeps. Every job follows the script's policy, and the
      sweep's own errors never reach the run's outcome. */
  function RunEtl(v: Variant, env: Env): (r: Step)
    requires ValidEnv(env)
    ensures !v.Historical? && Discovered(v, env).None? ==> r == Step([], Some(DiscoveryFailed))
    ensures v.Historical? ==> BeganTables(r.actions) == ["daily_log"] && r.failure == Work(v, env, "daily_log").failure
    ensures v.Historical? ==> |r.actions| >= 1 && r.actions[0] == Began("daily_log") && r.actions[1..] == Work(v, env, "daily_log").actions
    ensures !v.Historical? && Discovered(v, env).Some? ==>
              var run := RunTables(v, env, Discovered(v, env).value);
              run.actions <= r.actions && r.failure == run.failure
    ensures v.Historical? ==> Sweeps(r.actions) == 0
    ensures !v.Historical? ==> (r.failure.None? <==> Sweeps(r.actions) == 1)
    ensures !v.Historical? && r.failure.Some? ==> Sweeps(r.actions) == 0
    ensures Sweeps(r.actions) == 1 ==> r.actions[|r.actions| - 1] == Swept(Sweep(env.dumps).removed)
    ensures FollowsPolicy(v, r.actions)
  {
    if v.Historical? then
      var r := ProcessTable(v, env, "daily_log");
      NoSweeps(r.actions);
      r
    else
      match Discovered(v, env)
      case None => Step([], Some(DiscoveryFailed))
      case Some(tables) =>
        var run := RunTables(v, env, tables);
        NoSweeps(run.actions);
        Conclude(run, Sweep(env.dumps))
  }

  /** The end of the `try` in `run_etl`: the sweep comes after the loop, so
      it runs once, as the last action, when the loop went through, and not
      at all when the loop raised. It begins no table and submits no job,
      and it never changes the run's outcome. */
  function Conclude(run: Step, sweep: SweepResult): (r: Step)
    ensures r.failure == run.failure
    ensures BeganTables(r.actions) == BeganTables(run.actions)
    ensures Sweeps(r.actions) == Sweeps(run.actions) + (if run.failure.None? then 1 else 0)
    ensures run.failure.None? ==> r.actions[|r.actions| - 1] == Swept(sweep.removed)
    ensures forall a :: a in r.actions && !a.Swept? ==> a in run.actions
    ensures run.actions <= r.actions && |r.actions| == |run.actions| + (if run.failure.None? then 1 else 0)
  {
    if run.failure.None? then
      var last := [Swept(sweep.removed)];
      assert last[..0] == [];
      BeganTablesAppend(run.actions, last);
      SweepsAppend(run.actions, last);
      Step(run.actions + last, None)
    else run
  }

  /** Tables are worked on in discovery order, and a failure stops the run at
      the failing table: the tables begun are the discovered ones up to and
      including the first that fails, or all of them. */
  lemma {:induction false} TablesInDiscoveryOrder(v: Variant, env: Env)
    requires ValidEnv(env) && !v.Historical? && Discovered(v, env).Some?
    ensures var tables := Discovered(v, env).value;
            var k := FailedAt(v, env, tables);
            var r := RunEtl(v, env);
            && (r.failure.None? <==> k == |tables|)
            && (k < |tables| ==> r.failure == ProcessTable(v, env, tables[k]).failure)
            && BeganTables(r.actions) == (if k < |tables| then tables[..k + 1] else tables)
  {
  }

  /** An empty batch is neither transformed nor loaded, and the table counts
      as done. */
  lemma {:induction false} EmptyBatchSkipped(v: Variant, env: Env, table: string)
    requires ValidEnv(env) && Batch(v, env, table).Ok? && IsEmpty(Batch(v, env, table).value)
    ensures var r := ProcessTable(v, env, table);
            && r.failure.None?
            && r.actions[|r.actions| - 1] == SkippedEmpty(table)
            && forall a :: a in r.actions ==> !a.Transformed? && !a.Staged? && !a.Submitted?
  {
    var queried := QueryActions(v, env, table);
    assert Work(v, env, table) == Step(queried + [SkippedEmpty(table)], None);
    assert ProcessTable(v, env, table).actions == [Began(table)] + queried + [SkippedEmpty(table)];
  }

  /** The backfill extracts `daily_log` with the fixed cutoff window. */
  lemma {:induction false} HistoricalBatch(env: Env)
    requires ValidEnv(env) && "daily_log" in env.source
    ensures Batch(Historical, env, "daily_log") == ExtractBatch("daily_log", env.source["daily_log"], HistoricalWindow())
  {
  }

  /** A table whose batch is not empty and whose load goes through: the
      iteration begins it, queries it, transforms it, stages the transformed
      batch under the plan's name, submits a job with the declared schema and
      the plan's policy, removes the staging file, and succeeds. */
  lemma {:induction false} LoadedTable(v: Variant, env: Env, table: string)
    requires ValidEnv(env)
    requires Batch(v, env, table).Ok? && !IsEmpty(Batch(v, env, table).value)
    requires Lookup(env.registry, table).Ok? && env.loadOutcome(table) == Succeeds
    ensures var r := ProcessTable(v, env, table);
            var plan := PlanFor(v, table, env);
            && r.failure.None?
            && r.actions == [Began(table)] + QueryActions(v, env, table)
                            + [Transformed(table), Staged(plan.staging, Apply(SpecFor(v, table), Batch(v, env, table).value)),
                               Submitted(table, TableRef(WarehouseFor(v, env), table),
                                         LoadJob(Lookup(env.registry, table).value, plan.disposition, plan.partition)),
                               RemovedStaging(plan.staging)]
  {
    WorkLoaded(v, env, table);
    var r := ProcessTable(v, env, table);
    assert r.actions == [r.actions[0]] + r.actions[1..];
  }

  /** The backfill script's whole run when its one table loads: the run is
      that table's iteration, with the cutoff query, the historical staging
      file, the configured warehouse and a truncating, unpartitioned job. */
  lemma {:induction false} HistoricalLoaded(env: Env)
    requires ValidEnv(env)
    requires Batch(Historical, env, "daily_log").Ok? && !IsEmpty(Batch(Historical, env, "daily_log").value)
    requires Lookup(env.registry, "daily_log").Ok? && env.loadOutcome("daily_log") == Succeeds
    ensures var r := RunEtl(Historical, env);
            var file := HistoricalStagingName(env.runDate);
            && r.failure.None?
            && r.actions == [Began("daily_log"), Queried("daily_log", HistoricalWindow()), Transformed("daily_log"),
                             Staged(file, Apply(HistoricalSpec, Batch(Historical, env, "daily_log").value)),
                             Submitted("daily_log", TableRef(env.warehouse, "daily_log"),
                                       LoadJob(Lookup(env.registry, "daily_log").value, WriteTruncate, None)),
                             RemovedStaging(file)]
  {
    HistoricalIteration(env);
    assert RunEtl(Historical, env) == ProcessTable(Historical, env, "daily_log");
  }

  lemma {:induction false} HistoricalIteration(env: Env)
    requires ValidEnv(env)
    requires Batch(Historical, env, "daily_log").Ok? && !IsEmpty(Batch(Historical, env, "daily_log").value)
    requires Lookup(env.registry, "daily_log").Ok? && env.loadOutcome("daily_log") == Succeeds
    ensures var r := ProcessTable(Historical, env, "daily_log");
            var file := HistoricalStagingName(env.runDate);
            && r.failure.None?
            && r.actions == [Began("daily_log"), Queried("daily_log", HistoricalWindow()), Transformed("daily_log"),
                             Staged(file, Apply(HistoricalSpec, Batch(Historical, env, "daily_log").value)),
                             Submitted("daily_log", TableRef(env.warehouse, "daily_log"),
                                       LoadJob(Lookup(env.registry, "daily_log").value, WriteTruncate, None)),
                             RemovedStaging(file)]
  {
    HistoricalQuery(env);
    LoadedTable(Historical, env, "daily_log");
    var plan := PlanFor(Historical, "daily_log", env);
    assert plan == HistoricalPlan(env.runDate);
    var tail := [Transformed("daily_log"), Staged(plan.staging, Apply(SpecFor(Historical, "daily_log"), Batch(Historical, env, "daily_log").value)),
                 Submitted("daily_log", TableRef(WarehouseFor(Historical, env), "daily_log"),
                           LoadJob(Lookup(env.registry, "daily_log").value, plan.disposition, plan.partition)),
                 RemovedStaging(plan.staging)];
    PrependOne(Began("daily_log"), QueryActions(Historical, env, "daily_log"), tail);
  }

  lemma {:induction false} HistoricalQuery(env: Env)
    requires ValidEnv(env)
    ensures QueryActions(Historical, env, "daily_log") == [Queried("daily_log", HistoricalWindow())]
  {
  }

  lemma {:induction false} PrependOne<T>(x: T, middle: seq<T>, back: seq<T>)
    requires |middle| == 1 && |back| == 4
    ensures [x] + middle + back == [x, middle[0], back[0], back[1], back[2], back[3]]
  {
    assert [x] + middle == [x, middle[0]];
  }

  lemma {:induction false} WorkLoaded(v: Variant, env: Env, table: string)
    requires ValidEnv(env)
    requires Batch(v, env, table).Ok? && !IsEmpty(Batch(v, env, table).value)
    requires Lookup(env.registry, table).Ok? && env.loadOutcome(table) == Succeeds
    ensures var w := Work(v, env, table);
            var plan := PlanFor(v, table, env);
            && w.failure.None?
            && w.actions == QueryActions(v, env, table)
                            + [Transformed(table), Staged(plan.staging, Apply(SpecFor(v, table), Batch(v, env, table).value)),
                               Submitted(table, TableRef(WarehouseFor(v, env), table),
                                         LoadJob(Lookup(env.registry, table).value, plan.disposition, plan.partition)),
                               RemovedStaging(plan.staging)]
  {
    var batch := Batch(v, env, table).value;
    var out := Apply(SpecFor(v, table), batch);
    var plan := PlanFor(v, table, env);
    GuardedLoadsSeeRows(v, table, batch);
    LoadSucceeds(plan, table, out, env.registry, WarehouseFor(v, env));
    var load := LoadBatch(plan, table, out, env.registry, WarehouseFor(v, env), Succeeds);
    var w := Work(v, env, table);
    assert w.actions == QueryActions(v, env, table) + [Transformed(table)] + load.actions;
    AppendThree(QueryActions(v, env, table), Transformed(table), load.actions);
  }

  lemma {:induction false} AppendThree<T>(front: seq<T>, x: T, back: seq<T>)
    requires |back| == 3
    ensures front + [x] + back == front + [x, back[0], back[1], back[2]]
  {
    assert [x] + back == [x, back[0], back[1], back[2]];
  }

  /** The incremental script discovers only tables its schema file lists,
      so a run of it never fails for want of a schema. */
  lemma {:induction false} IncrementalNeverMissesSchema(env: Env)
    requires ValidEnv(env)
    ensures forall t :: RunEtl(Incremental, env).failure != Some(SchemaNotFound(t))
  {
    if Discovered(Incremental, env).Some? {
      assert forall t :: t in Discovered(Incremental, env).value ==> t in env.registry;
    }
  }
}
