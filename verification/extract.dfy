/** `extract_from_mysql`: one windowed `SELECT * FROM <table> [WHERE
    DATE(<column>) <op> '<literal>']`, after which every datetime column is
    rewritten as `%Y-%m-%d %H:%M:%S` text. The store itself is a parameter:
    the rows it holds for the table, or a failure.
 */
module Extract {
  import opened Outcomes
  import opened Text
  import opened Calendar
  import opened Timestamps
  import opened Tables
  import opened Seqs

  /** A cell as the driver returns it: a plain value or a datetime. */
  datatype Cell = Scalar(value: Value) | Stamp(ts: Timestamp)

  datatype Comparison = Equal | Less

  /** The `WHERE` clause: none, or `DATE(column) <op> 'literal'`. */
  datatype Window = Unfiltered | Where(column: string, op: Comparison, literal: string)

  /** The historical backfill takes everything before this day. */
  const HistoricalCutoff := Date(2025, 3, 7)

  /** A table as the store returns it: well formed, and every datetime a real
      instant. */
  predicate Readable(raw: Table<Cell>)
  {
    WellFormed(raw) && forall n :: 0 <= n < |raw.rows| ==> ValidRow(raw.rows[n])
  }

  predicate ValidRow(row: seq<Cell>)
  {
    forall i :: 0 <= i < |row| && row[i].Stamp? ==> ValidTimestamp(row[i].ts)
  }

  /** `DATE(cell)`: the calendar day of a datetime, `NULL` for anything else. */
  function DateOf(c: Cell): Option<Date>
  {
    if c.Stamp? then Some(c.ts.date) else None
  }

  /** Whether the store returns `row` for the window. The literal is read as
      a date; a `NULL` day or an unreadable literal matches nothing. */
  predicate Selects(w: Window, columns: seq<string>, row: seq<Cell>)
    requires |row| == |columns|
  {
    match w
    case Unfiltered => true
    case Where(column, op, literal) =>
      && column in columns
      && var day := DateOf(row[Position(columns, column)]);
      && var bound := ParseDate(literal);
      && day.Some? && bound.Some?
      && (if op == Equal then day.value == bound.value else Before(day.value, bound.value))
  }

  /** A window whose literal is a date's own text matches exactly the rows
      whose day equals that date (for `=`) or comes before it (for `<`). */
  lemma {:induction false} SelectsFormattedDate(column: string, op: Comparison, d: Date, columns: seq<string>, row: seq<Cell>)
    requires Valid(d) && |row| == |columns| && column in columns
    ensures var day := DateOf(row[Position(columns, column)]);
            Selects(Where(column, op, FormatDate(d)), columns, row) <==>
              day.Some? && (if op == Equal then day.value == d else Before(day.value, d))
  {
    ParseFormatDate(d);
  }

  /** ti_db_inventory_to_BQ.py: yesterday's `backup_date` for `backup_log`
      and `daily_log` in daily mode, the whole table otherwise. Stepping the
      clock back from 0001-01-01 overflows, which is `None`. */
  function InventoryWindow(table: string, isDaily: bool, today: Date): (r: Option<Window>)
    requires Valid(today)
    ensures r.None? <==> isDaily && (table == "backup_log" || table == "daily_log") && today == MinDate
    ensures r == Some(Unfiltered) <==> !(isDaily && (table == "backup_log" || table == "daily_log"))
    ensures r.Some? && r.value.Where? ==>
              && r.value.column == "backup_date" && r.value.op == Equal
              && ParseDate(r.value.literal).Some?
              && Valid(ParseDate(r.value.literal).value)
              && Ordinal(ParseDate(r.value.literal).value) == Ordinal(today) - 1
  {
    if isDaily && (table == "backup_log" || table == "daily_log") then
      match Yesterday(today)
      case None => None
      case Some(yesterday) =>
        ParseFormatDate(yesterday);
        Some(Where("backup_date", Equal, FormatDate(yesterday)))
    else Some(Unfiltered)
  }

  /** etl_mysql_to_bigquery.py `run_etl`: `database_list` is filtered on its
      creation date, every other table on its backup date. */
  function IncrementalDateColumn(table: string): (column: string)
    ensures column == "creation_date" <==> table == "database_list"
    ensures column != "creation_date" ==> column == "backup_date"
  {
    if table == "database_list" then "creation_date" else "backup_date"
  }

  /** etl_mysql_to_bigquery.py: always today's rows on the table's date
      column. */
  function IncrementalWindow(table: string, today: Date): (r: Window)
    requires Valid(today)
    ensures r.Where? && r.column == IncrementalDateColumn(table) && r.op == Equal
    ensures ParseDate(r.literal) == Some(today)
  {
    ParseFormatDate(today);
    Where(IncrementalDateColumn(table), Equal, FormatDate(today))
  }

  /** etl_daily_log.py: the fixed backfill window on `daily_log`. */
  function HistoricalWindow(): (r: Window)
    ensures r == Where("backup_date", Less, "2025-03-07")
    ensures ParseDate(r.literal) == Some(HistoricalCutoff)
  {
    ParseFormatDate(HistoricalCutoff);
    CutoffText();
    Where("backup_date", Less, FormatDate(HistoricalCutoff))
  }

  /** The cutoff day written as the query writes it. */
  lemma CutoffText()
    ensures FormatDate(HistoricalCutoff) == "2025-03-07"
  {
    YearText();
    MonthDayText();
  }

  lemma YearText()
    ensures Digits(2025, 4) == "2025"
  {
    assert Digits(0, 0) == "";
    assert Digits(2, 1) == Digits(0, 0) + ['2'];
    assert Digits(20, 2) == Digits(2, 1) + ['0'];
    assert Digits(202, 3) == Digits(20, 2) + ['2'];
    assert Digits(2025, 4) == Digits(202, 3) + ['5'];
  }

  lemma MonthDayText()
    ensures Digits(3, 2) == "03" && Digits(7, 2) == "07"
  {
    assert Digits(0, 0) == "";
    assert Digits(0, 1) == Digits(0, 0) + ['0'];
    assert Digits(3, 2) == Digits(0, 1) + ['3'];
    assert Digits(7, 2) == Digits(0, 1) + ['7'];
  }

  /** The rows the store returns, in the store's order. */
  function SelectRows(w: Window, columns: seq<string>, rows: seq<seq<Cell>>): (r: seq<seq<Cell>>)
    ensures |r| <= |rows|
    ensures forall n :: 0 <= n < |r| ==> |r[n]| == |columns| && Selects(w, columns, r[n])
    ensures (forall n :: 0 <= n < |rows| ==> ValidRow(rows[n])) ==> forall n :: 0 <= n < |r| ==> ValidRow(r[n])
  {
    if |rows| == 0 then []
    else
      var rest := SelectRows(w, columns, rows[1..]);
      if |rows[0]| == |columns| && Selects(w, columns, rows[0]) then [rows[0]] + rest
      else rest
  }

  /** The store returns a subsequence of the table holding every matching
      row as often as the table does, and no other row. */
  lemma {:induction false} SelectRowsSpec(w: Window, columns: seq<string>, rows: seq<seq<Cell>>)
    ensures var r := SelectRows(w, columns, rows);
            && Subsequence(r, rows)
            && (forall row :: multiset(r)[row] ==
                  if |row| == |columns| && Selects(w, columns, row) then multiset(rows)[row] else 0)
            && (forall n :: 0 <= n < |r| ==> Selects(w, columns, r[n]))
    decreases |rows|
  {
    if |rows| > 0 {
      SelectRowsSpec(w, columns, rows[1..]);
      var rest := SelectRows(w, columns, rows[1..]);
      assert rows == [rows[0]] + rows[1..];
      if |rows[0]| == |columns| && Selects(w, columns, rows[0]) {
        var r := [rows[0]] + rest;
        assert r[1..] == rest;
      }
    }
  }

  /** One row after the datetime rewrite: each datetime becomes text that
      reads back as the same instant to the second; every other cell keeps
      its value. */
  function NormalizeRow(row: seq<Cell>): (r: seq<Value>)
    requires ValidRow(row)
    ensures |r| == |row|
    ensures forall i :: 0 <= i < |row| && row[i].Scalar? ==> r[i] == row[i].value
    ensures forall i :: 0 <= i < |row| && row[i].Stamp? ==>
              r[i].Str? && |r[i].s| == 19 && ParseTimestamp(r[i].s) == Some(WholeSeconds(row[i].ts))
  {
    var r := seq(|row|, i requires 0 <= i < |row| =>
               if row[i].Stamp? then Str(FormatTimestamp(row[i].ts)) else row[i].value);
    forall i | 0 <= i < |row| && row[i].Stamp?
      ensures ParseTimestamp(r[i].s) == Some(WholeSeconds(row[i].ts))
    {
      ParseFormatTimestamp(row[i].ts);
    }
    r
  }

  /** Runs the query on the table's rows. Filtering on a column the table
      does not have is an SQL error; otherwise the batch has the table's
      columns and one normalised row per selected row, in order. */
  function ExtractBatch(table: string, raw: Table<Cell>, w: Window): (r: Result<Table<Value>>)
    requires Readable(raw)
    ensures r.Err? <==> w.Where? && w.column !in raw.columns
    ensures r.Err? ==> r.failure == ExtractionFailed(table)
    ensures r.Ok? ==> r.value.columns == raw.columns && WellFormed(r.value)
    ensures r.Ok? ==> var selected := SelectRows(w, raw.columns, raw.rows);
                      |r.value.rows| == |selected|
                      && forall n :: 0 <= n < |selected| ==> r.value.rows[n] == NormalizeRow(selected[n])
  {
    if w.Where? && w.column !in raw.columns then Err(ExtractionFailed(table))
    else
      var selected := SelectRows(w, raw.columns, raw.rows);
      Ok(Table(raw.columns, seq(|selected|, n requires 0 <= n < |selected| => NormalizeRow(selected[n]))))
  }

  /** The backfill window keeps 2025-03-05 and leaves out the cutoff day and
      the day after it. */
  lemma HistoricalWindowBoundary()
    ensures Before(Date(2025, 3, 5), HistoricalCutoff)
    ensures !Before(Date(2025, 3, 7), HistoricalCutoff)
    ensures !Before(Date(2025, 3, 8), HistoricalCutoff)
  {
  }
}
