/** The `transform_data` step of the three scripts. Each script branches on
    the table name; here each branch becomes a declarative `SyncSpec` (which
    columns to coerce to booleans, which to rename, which to drop), looked
    up by table name, and one `Apply` runs any spec in the scripts' order:
    coerce, then rename, then drop.
 */
module Transform {
  import opened Tables

  datatype SyncSpec = SyncSpec(boolColumns: seq<string>, renames: map<string, string>, drops: set<string>)

  /** The spec of a table no branch mentions. */
  const NoChange := SyncSpec([], map[], {})

  /** The thirteen flag columns coerced for `servers_temp` and `database_list`. */
  const FlagColumns := ["sun", "mon", "tue", "wed", "thu", "fri", "sat",
                        "encrypted", "ssl", "backup", "load", "size", "active"]

  /** The six `daily_log` renames of the inventory script. */
  const InventoryDailyLogRenames := map["backup_date" := "BackupDate", "server" := "Server",
                                        "database" := "Database", "size" := "Size",
                                        "state" := "State", "last_update" := "LastUpdate"]

  /** The seven `daily_log` renames of the incremental and historical scripts. */
  const DailyLogRenames := InventoryDailyLogRenames["fileName" := "FileName"]

  /** ti_db_inventory_to_BQ.py `transform_data`. */
  function InventorySpec(table: string): SyncSpec
  {
    if table == "servers_temp" then SyncSpec(FlagColumns, map[], {})
    else if table == "daily_log" then SyncSpec([], InventoryDailyLogRenames, {"fileName"})
    else NoChange
  }

  /** etl_mysql_to_bigquery.py `transform_data`. */
  function IncrementalSpec(table: string): SyncSpec
  {
    if table == "database_list" then SyncSpec(FlagColumns, map[], {})
    else if table == "daily_log" then SyncSpec([], DailyLogRenames, {})
    else NoChange
  }

  /** etl_daily_log.py `transform_data`, which only ever sees `daily_log`. */
  const HistoricalSpec := SyncSpec([], DailyLogRenames, {})

  /** A spec whose output it leaves alone: no new name is itself renamed, and
      no new name is a column to coerce. */
  predicate Stable(spec: SyncSpec)
  {
    forall k :: k in spec.renames ==> spec.renames[k] !in spec.renames && spec.renames[k] !in spec.boolColumns
  }

  /** A batch the spec has nothing left to do to: no column is to be renamed
      or dropped, and every column to coerce already holds booleans. */
  predicate Settled(spec: SyncSpec, t: Table<Value>)
    requires WellFormed(t)
  {
    && (forall i :: 0 <= i < |t.columns| ==> t.columns[i] !in spec.renames && t.columns[i] !in spec.drops)
    && (forall n, i :: 0 <= n < |t.rows| && 0 <= i < |t.columns| && t.columns[i] in spec.boolColumns ==>
          t.rows[n][i].Bool?)
  }

  /** Applies a spec: coerce, then rename, then drop. The row count never
      changes. */
  function Apply(spec: SyncSpec, t: Table<Value>): (r: Table<Value>)
    requires WellFormed(t)
    ensures WellFormed(r) && |r.rows| == |t.rows|
  {
    Drop(Rename(Coerce(t, spec.boolColumns), spec.renames), spec.drops)
  }

  /** What `Apply` does, column by column: the columns that survive the drop
      (the drop sees the new names) keep their order, carry their new names,
      and hold their cells, coerced when the column is one to coerce. */
  lemma {:induction false} ApplyCells(spec: SyncSpec, t: Table<Value>)
    requires WellFormed(t)
    ensures var r := Apply(spec, t);
            var k := Kept(Rename(t, spec.renames).columns, spec.drops);
            && |r.rows| == |t.rows| && |r.columns| == |k|
            && (forall j :: 0 <= j < |k| ==> k[j] < |t.columns| && r.columns[j] == Renamed(spec.renames, t.columns[k[j]]))
            && (forall n, j :: 0 <= n < |t.rows| && 0 <= j < |k| ==>
                  r.rows[n][j] == if t.columns[k[j]] in spec.boolColumns then ToBool(t.rows[n][k[j]]) else t.rows[n][k[j]])
  {
    var c := Coerce(t, spec.boolColumns);
    var rn := Rename(c, spec.renames);
    assert rn.columns == Rename(t, spec.renames).columns;
  }

  /** Under a stable spec the transform's output is settled: nothing is left
      to rename or drop and every column to coerce holds booleans. */
  lemma {:induction false} ApplySettles(spec: SyncSpec, t: Table<Value>)
    requires WellFormed(t) && Stable(spec)
    ensures Settled(spec, Apply(spec, t))
  {
    var coerced := Coerce(t, spec.boolColumns);
    SettledAfterRename(spec, coerced);
    DropKeepsSettled(spec, Rename(coerced, spec.renames));
  }

  lemma {:induction false} SettledAfterRename(spec: SyncSpec, c: Table<Value>)
    requires WellFormed(c) && Stable(spec)
    requires forall n, i :: 0 <= n < |c.rows| && 0 <= i < |c.columns| && c.columns[i] in spec.boolColumns ==>
               c.rows[n][i].Bool?
    ensures var r := Rename(c, spec.renames);
            && (forall i :: 0 <= i < |r.columns| ==> r.columns[i] !in spec.renames)
            && (forall n, i :: 0 <= n < |r.rows| && 0 <= i < |r.columns| && r.columns[i] in spec.boolColumns ==>
                  r.rows[n][i].Bool?)
  {
    var r := Rename(c, spec.renames);
  }

  lemma {:induction false} DropKeepsSettled(spec: SyncSpec, t: Table<Value>)
    requires WellFormed(t)
    requires forall i :: 0 <= i < |t.columns| ==> t.columns[i] !in spec.renames
    requires forall n, i :: 0 <= n < |t.rows| && 0 <= i < |t.columns| && t.columns[i] in spec.boolColumns ==>
               t.rows[n][i].Bool?
    ensures Settled(spec, Drop(t, spec.drops))
  {
    DropIsProjection(t, spec.drops);
  }

  /** A settled batch is a fixed point of the transform. */
  lemma {:induction false} SettledIsFixed(spec: SyncSpec, t: Table<Value>)
    requires WellFormed(t) && Settled(spec, t)
    ensures Apply(spec, t) == t
  {
    var c := Coerce(t, spec.boolColumns);
    forall n | 0 <= n < |t.rows|
      ensures c.rows[n] == t.rows[n]
    {
      forall i | 0 <= i < |t.columns|
        ensures c.rows[n][i] == t.rows[n][i]
      {
        if t.columns[i] in spec.boolColumns {
          assert t.rows[n][i].Bool?;
          assert ToBool(t.rows[n][i]) == t.rows[n][i];
        }
      }
    }
    assert c == t;
    var r := Rename(t, spec.renames);
    assert r.columns == t.columns;
    assert r == t;
  }

  /** Transforming an already transformed batch changes nothing. */
  lemma {:induction false} ApplyIdempotent(spec: SyncSpec, t: Table<Value>)
    requires WellFormed(t) && Stable(spec)
    ensures Apply(spec, Apply(spec, t)) == Apply(spec, t)
  {
    ApplySettles(spec, t);
    SettledIsFixed(spec, Apply(spec, t));
  }

  lemma InventoryRenamesStable()
    ensures forall k :: k in InventoryDailyLogRenames ==>
              InventoryDailyLogRenames[k] !in InventoryDailyLogRenames && InventoryDailyLogRenames[k] != "fileName"
  {
    forall k | k in InventoryDailyLogRenames
      ensures InventoryDailyLogRenames[k] !in InventoryDailyLogRenames && InventoryDailyLogRenames[k] != "fileName"
    {
      assert k in {"backup_date", "server", "database", "size", "state", "last_update"};
    }
  }

  lemma DailyLogRenamesStable()
    ensures forall k :: k in DailyLogRenames ==> DailyLogRenames[k] !in DailyLogRenames
  {
    forall k | k in DailyLogRenames
      ensures DailyLogRenames[k] !in DailyLogRenames
    {
      assert k in {"backup_date", "server", "database", "size", "state", "last_update", "fileName"};
    }
  }

  lemma {:induction false} SpecsAreStable(table: string)
    ensures Stable(InventorySpec(table))
    ensures Stable(IncrementalSpec(table))
    ensures Stable(HistoricalSpec)
  {
    InventoryRenamesStable();
    DailyLogRenamesStable();
  }

  /** Every script's transform is idempotent on every table. */
  lemma {:induction false} TransformsIdempotent(table: string, t: Table<Value>)
    requires WellFormed(t)
    ensures Apply(InventorySpec(table), Apply(InventorySpec(table), t)) == Apply(InventorySpec(table), t)
    ensures Apply(IncrementalSpec(table), Apply(IncrementalSpec(table), t)) == Apply(IncrementalSpec(table), t)
    ensures Apply(HistoricalSpec, Apply(HistoricalSpec, t)) == Apply(HistoricalSpec, t)
  {
    SpecsAreStable(table);
    ApplyIdempotent(InventorySpec(table), t);
    ApplyIdempotent(IncrementalSpec(table), t);
    ApplyIdempotent(HistoricalSpec, t);
  }

  /** A table no branch mentions comes back as it went in. */
  lemma {:induction false} UnlistedTablesUnchanged(table: string, t: Table<Value>)
    requires WellFormed(t)
    ensures table != "servers_temp" && table != "daily_log" ==> Apply(InventorySpec(table), t) == t
    ensures table != "database_list" && table != "daily_log" ==> Apply(IncrementalSpec(table), t) == t
  {
    SettledIsFixed(NoChange, t);
  }

  /** The flag tables: the same columns in the same order, each present flag
      column now holding booleans by truthiness, every other cell as it was. */
  lemma {:induction false} FlagTablesCoerced(t: Table<Value>)
    requires WellFormed(t)
    ensures var r := Apply(InventorySpec("servers_temp"), t);
            && r == Apply(IncrementalSpec("database_list"), t)
            && r.columns == t.columns && |r.rows| == |t.rows|
            && forall n, i :: 0 <= n < |t.rows| && 0 <= i < |t.columns| ==>
                 r.rows[n][i] == (if t.columns[i] in FlagColumns then Bool(Truthy(t.rows[n][i])) else t.rows[n][i])
  {
    var spec := SyncSpec(FlagColumns, map[], {});
    assert InventorySpec("servers_temp") == spec;
    assert IncrementalSpec("database_list") == spec;
    CoerceOnly(spec, t);
  }

  /** A spec that renames and drops nothing only coerces. */
  lemma {:induction false} CoerceOnly(spec: SyncSpec, t: Table<Value>)
    requires WellFormed(t) && spec.renames == map[] && spec.drops == {}
    ensures Apply(spec, t) == Coerce(t, spec.boolColumns)
  {
    var c := Coerce(t, spec.boolColumns);
    var rn := Rename(c, map[]);
    assert rn.columns == c.columns;
    assert rn == c;
  }

  /** The incremental and historical `daily_log` rename: same cells, each
      column renamed in place when it is one of the seven source names, and
      none of the seven source names left. */
  lemma {:induction false} DailyLogRenamedInPlace(t: Table<Value>)
    requires WellFormed(t)
    ensures var r := Apply(HistoricalSpec, t);
            && r == Apply(IncrementalSpec("daily_log"), t)
            && r.rows == t.rows && |r.columns| == |t.columns|
            && (forall i :: 0 <= i < |t.columns| ==> r.columns[i] == Renamed(DailyLogRenames, t.columns[i]))
            && (forall i :: 0 <= i < |r.columns| ==> r.columns[i] !in DailyLogRenames)
  {
    SpecsAreStable("daily_log");
    ApplySettles(HistoricalSpec, t);
    var c := Coerce(t, []);
    forall n | 0 <= n < |t.rows|
      ensures c.rows[n] == t.rows[n]
    {
      assert forall i :: 0 <= i < |t.columns| ==> c.rows[n][i] == t.rows[n][i];
    }
    assert c == t;
    var rn := Rename(t, DailyLogRenames);
    assert Drop(rn, {}) == rn;
  }

  /** The inventory `daily_log` transform: the columns other than
      `fileName` survive in their order, each under its new name when it is
      one of the six source names, each with its cells untouched; and no
      source name and no `fileName` is left. */
  lemma {:induction false} InventoryDailyLogShape(t: Table<Value>)
    requires WellFormed(t)
    ensures var r := Apply(InventorySpec("daily_log"), t);
            var k := Kept(t.columns, {"fileName"});
            && |r.rows| == |t.rows| && |r.columns| == |k|
            && (forall j :: 0 <= j < |k| ==> r.columns[j] == Renamed(InventoryDailyLogRenames, t.columns[k[j]]))
            && (forall n, j :: 0 <= n < |t.rows| && 0 <= j < |k| ==> r.rows[n][j] == t.rows[n][k[j]])
            && (forall j :: 0 <= j < |r.columns| ==> r.columns[j] !in InventoryDailyLogRenames && r.columns[j] != "fileName")
  {
    var spec := InventorySpec("daily_log");
    SpecsAreStable("daily_log");
    ApplySettles(spec, t);
    ApplyCells(spec, t);
    RenameKeepsFileName(t);
  }

  /** The six inventory renames neither produce nor consume `fileName`, so
      the drop after them keeps the same positions as a drop before them. */
  lemma {:induction false} RenameKeepsFileName(t: Table<Value>)
    ensures Kept(Rename(t, InventoryDailyLogRenames).columns, {"fileName"}) == Kept(t.columns, {"fileName"})
  {
    var rc := Rename(t, InventoryDailyLogRenames).columns;
    forall i | 0 <= i < |t.columns|
      ensures rc[i] in {"fileName"} <==> t.columns[i] in {"fileName"}
    {
      InventoryRenamesStable();
      assert "fileName" !in InventoryDailyLogRenames;
    }
    KeptRespects(rc, t.columns, {"fileName"});
  }
}
