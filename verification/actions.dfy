/** What a run does that can be observed from outside: the tables it works
    on, the queries it sends, the staging files it writes and removes, the
    load jobs it submits and the old dump files it sweeps. A run is modelled
    as the sequence of these actions plus the failure it ends with, if any.
 */
module Actions {
  import opened Outcomes
  import opened Tables
  import opened Schema
  import opened Extract

  /** `WriteDisposition.WRITE_APPEND` or `WRITE_TRUNCATE`. */
  datatype Disposition = WriteAppend | WriteTruncate

  /** The parts of a `LoadJobConfig` the scripts set. The source format is
      newline-delimited JSON in every script and is not recorded; the
      partition is the field of a day partitioning, when there is one. */
  datatype LoadJob = LoadJob(schema: seq<SchemaField>, disposition: Disposition, partition: Option<string>)

  datatype Action =
    | Began(table: string)                        // "Processing table" for one table
    | Queried(table: string, window: Window)      // `pd.read_sql` on the windowed query
    | SkippedEmpty(table: string)                 // the batch was empty: no transform, no load
    | Transformed(table: string)                  // `transform_data` ran
    | Staged(file: string, batch: Table<Value>)   // the batch written to a staging file
    | Submitted(table: string, tableRef: string, job: LoadJob) // `load_table_from_file`
    | RemovedStaging(file: string)                // the staging file deleted after the job
    | Swept(removed: seq<string>)                 // `cleanup_old_files` ran

  /** A stretch of a run: the actions taken, and the failure that ended it
      (`None` when it finished normally). */
  datatype Step = Step(actions: seq<Action>, failure: Option<Failure>)

  /** The tables a stretch of actions began, in order. */
  function BeganTables(actions: seq<Action>): (tables: seq<string>)
    ensures |tables| <= |actions|
    ensures forall t :: t in tables <==> Began(t) in actions
  {
    if |actions| == 0 then []
    else BeganTables(actions[..|actions| - 1])
         + (if actions[|actions| - 1].Began? then [actions[|actions| - 1].table] else [])
  }

  lemma {:induction false} BeganTablesAppend(a: seq<Action>, b: seq<Action>)
    ensures BeganTables(a + b) == BeganTables(a) + BeganTables(b)
    decreases |b|
  {
    if |b| == 0 {
      assert a + b == a;
    } else {
      var b' := b[..|b| - 1];
      assert (a + b)[..|a + b| - 1] == a + b';
      BeganTablesAppend(a, b');
    }
  }

  lemma {:induction false} NoBegan(actions: seq<Action>)
    requires forall i :: 0 <= i < |actions| ==> !actions[i].Began?
    ensures BeganTables(actions) == []
    decreases |actions|
  {
    if |actions| > 0 {
      NoBegan(actions[..|actions| - 1]);
    }
  }

  /** Number of sweeps among the actions. */
  function Sweeps(actions: seq<Action>): nat
  {
    if |actions| == 0 then 0
    else Sweeps(actions[..|actions| - 1]) + (if actions[|actions| - 1].Swept? then 1 else 0)
  }

  lemma {:induction false} SweepsAppend(a: seq<Action>, b: seq<Action>)
    ensures Sweeps(a + b) == Sweeps(a) + Sweeps(b)
    decreases |b|
  {
    if |b| == 0 {
      assert a + b == a;
    } else {
      var b' := b[..|b| - 1];
      assert (a + b)[..|a + b| - 1] == a + b';
      SweepsAppend(a, b');
    }
  }

  lemma {:induction false} NoSweeps(actions: seq<Action>)
    ensures Sweeps(actions) == 0 <==> forall a :: a in actions ==> !a.Swept?
    decreases |actions|
  {
    if |actions| > 0 {
      var init := actions[..|actions| - 1];
      NoSweeps(init);
      assert actions == init + [actions[|actions| - 1]];
    }
  }

  /** The actions of several stretches, one after the other. */
  function Concat(steps: seq<Step>): (actions: seq<Action>)
    ensures forall a :: a in actions ==> exists m :: 0 <= m < |steps| && a in steps[m].actions
  {
    if |steps| == 0 then []
    else steps[0].actions + Concat(steps[1..])
  }

  /** The position of the first stretch that fails, or the number of
      stretches when none does. */
  function FirstFailure(steps: seq<Step>): (k: nat)
    ensures k <= |steps|
    ensures forall j :: 0 <= j < k ==> steps[j].failure.None?
    ensures k < |steps| ==> steps[k].failure.Some?
  {
    if |steps| == 0 then 0
    else if steps[0].failure.Some? then 0
    else FirstFailure(steps[1..]) + 1
  }

  /** How many stretches a fail-fast run gets through: up to and including
      the first failing one, or all of them. */
  function Reached(steps: seq<Step>): (n: nat)
    ensures n <= |steps|
  {
    var k := FirstFailure(steps);
    if k < |steps| then k + 1 else k
  }

  /** A loop inside one `try`: the stretches run in order, the first failure
      ends the run and is its failure, and the actions are those of every
      stretch up to and including the failing one. */
  function FailFast(steps: seq<Step>): (r: Step)
    ensures r.failure.None? <==> FirstFailure(steps) == |steps|
    ensures FirstFailure(steps) < |steps| ==> r.failure == steps[FirstFailure(steps)].failure
    ensures r.actions == Concat(steps[..Reached(steps)])
  {
    if |steps| == 0 then Step([], None)
    else if steps[0].failure.Some? then
      assert steps[..1][1..] == [];
      steps[0]
    else
      var rest := FailFast(steps[1..]);
      assert steps[..Reached(steps)][1..] == steps[1..][..Reached(steps[1..])];
      Step(steps[0].actions + rest.actions, rest.failure)
  }

  /** When stretch `i` begins exactly `tables[i]`, the stretches together
      begin the tables in order. */
  lemma {:induction false} BeganConcat(steps: seq<Step>, tables: seq<string>)
    requires |steps| == |tables|
    requires forall i :: 0 <= i < |steps| ==> BeganTables(steps[i].actions) == [tables[i]]
    ensures BeganTables(Concat(steps)) == tables
    decreases |steps|
  {
    if |steps| > 0 {
      BeganConcat(steps[1..], tables[1..]);
      BeganTablesAppend(steps[0].actions, Concat(steps[1..]));
      assert tables == [tables[0]] + tables[1..];
    }
  }
}
