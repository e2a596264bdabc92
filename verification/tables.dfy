/** An extracted batch: a pandas `DataFrame` seen as its column names and its
    rows, and the three column operations the transform step applies to it:
    `astype(bool)` on one column, `rename(columns=...)` and
    `drop(columns=..., errors='ignore')`.
 */
module Tables {

  /** A cell after extraction. Only the cases the transforms distinguish are
      kept: numbers, text and booleans. */
  datatype Value = Int(i: int) | Str(s: string) | Bool(b: bool)

  datatype Table<V> = Table(columns: seq<string>, rows: seq<seq<V>>)

  /** Every row has one cell per column. */
  predicate WellFormed<V>(t: Table<V>)
  {
    forall k :: 0 <= k < |t.rows| ==> |t.rows[k]| == |t.columns|
  }

  /** `DataFrame.empty`: true when either axis has length zero. */
  predicate IsEmpty<V>(t: Table<V>)
  {
    |t.rows| == 0 || |t.columns| == 0
  }

  /** Python truthiness, which `astype(bool)` applies cell by cell. */
  function Truthy(v: Value): bool
  {
    match v
    case Int(i) => i != 0
    case Str(s) => |s| > 0
    case Bool(b) => b
  }

  /** One cell after `astype(bool)`. */
  function ToBool(v: Value): (r: Value)
    ensures r.Bool?
    ensures v.Bool? ==> r == v
  {
    Bool(Truthy(v))
  }

  /** `df[name] = df[name].astype(bool)`, guarded by `if name in df.columns`.
      Only cells under a column called `name` change. */
  function CoerceColumn(t: Table<Value>, name: string): (r: Table<Value>)
    requires WellFormed(t)
    ensures r.columns == t.columns && |r.rows| == |t.rows| && WellFormed(r)
    ensures forall k, i :: 0 <= k < |t.rows| && 0 <= i < |t.columns| ==>
              r.rows[k][i] == (if t.columns[i] == name then ToBool(t.rows[k][i]) else t.rows[k][i])
  {
    if name !in t.columns then t
    else
      Table(t.columns,
            seq(|t.rows|, k requires 0 <= k < |t.rows| =>
              seq(|t.columns|, i requires 0 <= i < |t.columns| =>
                if t.columns[i] == name then ToBool(t.rows[k][i]) else t.rows[k][i])))
  }

  /** The `for col in bool_columns` loop: each listed column that is present
      is coerced, absent ones are skipped, and all other cells are left as
      they were. */
  function Coerce(t: Table<Value>, listed: seq<string>): (r: Table<Value>)
    requires WellFormed(t)
    ensures r.columns == t.columns && |r.rows| == |t.rows| && WellFormed(r)
    ensures forall k, i :: 0 <= k < |t.rows| && 0 <= i < |t.columns| ==>
              r.rows[k][i] == (if t.columns[i] in listed then ToBool(t.rows[k][i]) else t.rows[k][i])
    decreases |listed|
  {
    if |listed| == 0 then t
    else Coerce(CoerceColumn(t, listed[0]), listed[1..])
  }

  /** A column's name after `rename`: mapped when it is a key, kept otherwise. */
  function Renamed(renames: map<string, string>, name: string): string
  {
    if name in renames then renames[name] else name
  }

  /** `df.rename(columns=renames)`: names change, cells do not, and names
      that are not present are simply not used. */
  function Rename<V>(t: Table<V>, renames: map<string, string>): (r: Table<V>)
    ensures r.rows == t.rows && |r.columns| == |t.columns|
    ensures WellFormed(t) ==> WellFormed(r)
    ensures forall i :: 0 <= i < |t.columns| ==> r.columns[i] == Renamed(renames, t.columns[i])
  {
    Table(seq(|t.columns|, i requires 0 <= i < |t.columns| => Renamed(renames, t.columns[i])), t.rows)
  }

  /** Positions of the columns that survive dropping `names`, in ascending
      order: every survivor is listed and nothing dropped is. */
  function Kept(columns: seq<string>, names: set<string>): (k: seq<nat>)
    ensures forall j :: 0 <= j < |k| ==> k[j] < |columns| && columns[k[j]] !in names
    ensures forall j, j' :: 0 <= j < j' < |k| ==> k[j] < k[j']
    ensures forall i :: 0 <= i < |columns| && columns[i] !in names ==> i in k
  {
    if |columns| == 0 then []
    else
      var n := |columns| - 1;
      Kept(columns[..n], names) + (if columns[n] !in names then [n] else [])
  }

  /** When nothing is to be dropped every position survives. */
  lemma {:induction false} KeptAll(columns: seq<string>, names: set<string>)
    requires forall i :: 0 <= i < |columns| ==> columns[i] !in names
    ensures Kept(columns, names) == seq(|columns|, i => i)
  {
    if |columns| > 0 {
      var n := |columns| - 1;
      KeptAll(columns[..n], names);
    }
  }

  /** Which positions survive depends only on which names are dropped. */
  lemma {:induction false} KeptRespects(a: seq<string>, b: seq<string>, names: set<string>)
    requires |a| == |b|
    requires forall i :: 0 <= i < |a| ==> (a[i] in names <==> b[i] in names)
    ensures Kept(a, names) == Kept(b, names)
    decreases |a|
  {
    if |a| > 0 {
      var n := |a| - 1;
      KeptRespects(a[..n], b[..n], names);
    }
  }

  /** The columns at positions `k`, in that order, with their cells. */
  function Project<V>(t: Table<V>, k: seq<nat>): (r: Table<V>)
    requires WellFormed(t)
    requires forall j :: 0 <= j < |k| ==> k[j] < |t.columns|
    ensures WellFormed(r) && |r.rows| == |t.rows| && |r.columns| == |k|
    ensures forall j :: 0 <= j < |k| ==> r.columns[j] == t.columns[k[j]]
    ensures forall n, j :: 0 <= n < |t.rows| && 0 <= j < |k| ==> r.rows[n][j] == t.rows[n][k[j]]
  {
    Table(seq(|k|, j requires 0 <= j < |k| => t.columns[k[j]]),
          seq(|t.rows|, n requires 0 <= n < |t.rows| =>
            seq(|k|, j requires 0 <= j < |k| => t.rows[n][k[j]])))
  }

  lemma {:induction false} ProjectAll<V>(t: Table<V>)
    requires WellFormed(t)
    ensures Project(t, seq(|t.columns|, i => i)) == t
  {
    var r := Project(t, seq(|t.columns|, i => i));
    assert r.columns == t.columns;
    forall n | 0 <= n < |t.rows|
      ensures r.rows[n] == t.rows[n]
    {
    }
  }

  /** `df.drop(columns=names, errors='ignore')`: every column called by one
      of `names` goes, with its cells; every other column stays, in order and
      with its cells; a name that is not present is ignored. The survivors
      are the columns at the positions `Kept` lists, which are ascending and
      are exactly the positions of names not dropped. */
  function Drop<V>(t: Table<V>, names: set<string>): (r: Table<V>)
    requires WellFormed(t)
    ensures WellFormed(r) && |r.rows| == |t.rows|
    ensures forall j :: 0 <= j < |r.columns| ==> r.columns[j] !in names
    ensures forall i :: 0 <= i < |t.columns| && t.columns[i] !in names ==> t.columns[i] in r.columns
    ensures (forall i :: 0 <= i < |t.columns| ==> t.columns[i] !in names) ==> r == t
    ensures var k := Kept(t.columns, names);
            && |r.columns| == |k|
            && (forall j :: 0 <= j < |k| ==> r.columns[j] == t.columns[k[j]])
            && (forall n, j :: 0 <= n < |t.rows| && 0 <= j < |k| ==> r.rows[n][j] == t.rows[n][k[j]])
  {
    if forall i :: 0 <= i < |t.columns| ==> t.columns[i] !in names then
      KeptAll(t.columns, names);
      t
    else
      var k := Kept(t.columns, names);
      var r := Project(t, k);
      SurvivorsListed(t.columns, names, k, r.columns);
      r
  }

  /** Every column not dropped appears among the columns taken at the
      surviving positions. */
  lemma {:induction false} SurvivorsListed(columns: seq<string>, names: set<string>, k: seq<nat>, kept: seq<string>)
    requires forall i :: 0 <= i < |columns| && columns[i] !in names ==> i in k
    requires forall j :: 0 <= j < |k| ==> k[j] < |columns|
    requires |kept| == |k| && forall j :: 0 <= j < |k| ==> kept[j] == columns[k[j]]
    ensures forall i :: 0 <= i < |columns| && columns[i] !in names ==> columns[i] in kept
  {
    forall i | 0 <= i < |columns| && columns[i] !in names
      ensures columns[i] in kept
    {
      var j :| 0 <= j < |k| && k[j] == i;
      assert kept[j] == columns[i];
    }
  }

  lemma {:induction false} DropIsProjection<V>(t: Table<V>, names: set<string>)
    requires WellFormed(t)
    ensures Drop(t, names) == Project(t, Kept(t.columns, names))
  {
    if forall i :: 0 <= i < |t.columns| ==> t.columns[i] !in names {
      KeptAll(t.columns, names);
      ProjectAll(t);
    }
  }
}
