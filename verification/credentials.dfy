/** The `KEY=VALUE` credentials file read at start-up by the inventory
    script (ti_db_inventory_to_BQ.py). Each line holding an `=` is stripped,
    split on `=` and unpacked into exactly two parts; any other number of
    parts raises `ValueError` and stops the script. `DB_USR` and `DB_PWD`
    default to the empty string.
 */
module Credentials {
  import opened Outcomes
  import opened Text

  datatype Line = Ignored | Entry(key: string, value: string) | Malformed

  datatype Login = Login(entries: map<string, string>, user: string, password: string)

  /** The loop body for one line. A line without `=` is skipped; a line with
      exactly one `=` yields its stripped key and value; a line with two or
      more fails the two-way unpack. */
  function ParseLine(line: string): (r: Line)
    ensures r.Ignored? <==> '=' !in line
    ensures r.Malformed? <==> Count(line, '=') >= 2
    ensures r.Entry? ==> Count(line, '=') == 1
    ensures r.Entry? ==> Stripped(r.key) && Stripped(r.value)
    ensures r.Entry? ==> '=' !in r.key && '=' !in r.value
  {
    if '=' !in line then
      CountZero(line, '=');
      Ignored
    else
      var parts := Split(Strip(line), '=');
      SplitStrippedLine(line);
      if |parts| != 2 then Malformed
      else Entry(Strip(parts[0]), Strip(parts[1]))
  }

  /** A line holding `=` splits, once stripped, into one part more than it
      has `=`, and no part holds `=` even after its own strip. */
  lemma {:induction false} SplitStrippedLine(line: string)
    requires '=' in line
    ensures var parts := Split(Strip(line), '=');
            && |parts| == Count(line, '=') + 1 && Count(line, '=') >= 1
            && forall i :: 0 <= i < |parts| ==> '=' !in Strip(parts[i])
  {
    assert !IsSpace('=');
    StripKeepsCount(line, '=');
    CountZero(line, '=');
    var parts := Split(Strip(line), '=');
    forall i | 0 <= i < |parts|
      ensures '=' !in Strip(parts[i])
    {
      StripKeepsCount(parts[i], '=');
    }
  }

  /** A line with one `=` stores the text before it and the text after it,
      each stripped, whatever whitespace surrounds them. */
  lemma {:induction false} ParseAssignment(a: string, b: string)
    requires '=' !in a && '=' !in b
    ensures ParseLine(a + "=" + b) == Entry(Strip(a), Strip(b))
  {
    assert '=' in a + "=" + b by {
      assert (a + "=" + b)[|a|] == '=';
    }
    SplitAssignment(a, b);
    StripOfLStrip(a);
    StripOfRStrip(b);
  }

  /** The stripped line splits at its one `=` into the text before it with
      the leading whitespace cut and the text after it with the trailing
      whitespace cut. */
  lemma {:induction false} SplitAssignment(a: string, b: string)
    requires '=' !in a && '=' !in b
    ensures Split(Strip(a + "=" + b), '=') == [LStrip(a), RStrip(b)]
  {
    var la := LStrip(a);
    var rb := RStrip(b);
    assert a + "=" + b == a + ['='] + b;
    StripAround(a, '=', b);
    assert '=' !in la by {
      LStripKeepsCount(a, '=');
      CountZero(a, '=');
      CountZero(la, '=');
    }
    assert '=' !in rb by {
      RStripKeepsCount(b, '=');
      CountZero(b, '=');
      CountZero(rb, '=');
    }
    SplitAtOnlySeparator(la, rb, '=');
  }

  /** Every line of the file, classified in file order. */
  function ParseLines(lines: seq<string>): (parsed: seq<Line>)
    ensures |parsed| == |lines|
    ensures forall i :: 0 <= i < |lines| ==> parsed[i] == ParseLine(lines[i])
  {
    if |lines| == 0 then []
    else ParseLines(lines[..|lines| - 1]) + [ParseLine(lines[|lines| - 1])]
  }

  /** Line `i` assigns `key`. */
  predicate Assigns(parsed: seq<Line>, i: int, key: string)
    requires 0 <= i < |parsed|
  {
    parsed[i].Entry? && parsed[i].key == key
  }

  /** No line after `i` and before `n` assigns the key line `i` assigns. */
  predicate LastAssignment(parsed: seq<Line>, n: int, i: int)
    requires 0 <= i < n <= |parsed| && parsed[i].Entry?
  {
    forall j :: i < j < n ==> !Assigns(parsed, j, parsed[i].key)
  }

  /** `entries` is the dictionary the loop holds after the first `n` lines:
      its keys are the assigned keys and each holds its last assignment. */
  predicate Summarizes(parsed: seq<Line>, n: int, entries: map<string, string>)
    requires 0 <= n <= |parsed|
  {
    && (forall key :: key in entries ==> exists i :: 0 <= i < n && Assigns(parsed, i, key))
    && (forall i :: 0 <= i < n && parsed[i].Entry? ==>
          && parsed[i].key in entries
          && (LastAssignment(parsed, n, i) ==> entries[parsed[i].key] == parsed[i].value))
  }

  /** The dictionary after one more line, when that line is well formed. */
  function Assign(entries: map<string, string>, line: Line): map<string, string>
  {
    if line.Entry? then entries[line.key := line.value] else entries
  }

  lemma {:induction false} SummarizesStep(parsed: seq<Line>, n: int, entries: map<string, string>)
    requires 0 <= n < |parsed| && !parsed[n].Malformed?
    requires Summarizes(parsed, n, entries)
    ensures Summarizes(parsed, n + 1, Assign(entries, parsed[n]))
  {
    var next := Assign(entries, parsed[n]);
    forall key | key in next
      ensures exists i :: 0 <= i < n + 1 && Assigns(parsed, i, key)
    {
      if !(key in entries) {
        assert Assigns(parsed, n, key);
      }
    }
    forall i | 0 <= i < n + 1 && parsed[i].Entry?
      ensures parsed[i].key in next
      ensures LastAssignment(parsed, n + 1, i) ==> next[parsed[i].key] == parsed[i].value
    {
      if i < n && LastAssignment(parsed, n + 1, i) {
        assert LastAssignment(parsed, n, i);
        assert !Assigns(parsed, n, parsed[i].key);
      }
    }
  }

  /** Reads the credentials file, given as its lines. Fails at the first
      malformed line; otherwise every assigned key holds the value of its
      last assignment, and the login falls back to `""` for a missing
      `DB_USR` or `DB_PWD`. */
  method LoadCredentials(lines: seq<string>) returns (r: Result<Login>)
    ensures r.Err? <==> exists i :: 0 <= i < |lines| && ParseLines(lines)[i].Malformed?
    ensures r.Err? ==> r.failure.MalformedCredentials?
    ensures r.Err? ==> (var k := r.failure.line;
                        && k < |lines| && ParseLines(lines)[k].Malformed?
                        && forall j :: 0 <= j < k ==> !ParseLines(lines)[j].Malformed?)
    ensures r.Ok? ==> Summarizes(ParseLines(lines), |lines|, r.value.entries)
    ensures r.Ok? ==> r.value.user == (if "DB_USR" in r.value.entries then r.value.entries["DB_USR"] else "")
    ensures r.Ok? ==> r.value.password == (if "DB_PWD" in r.value.entries then r.value.entries["DB_PWD"] else "")
  {
    var parsed := ParseLines(lines);
    var scanned := Collect(parsed);
    if scanned.Err? {
      var k := scanned.failure.line;
      assert 0 <= k < |lines| && ParseLines(lines)[k].Malformed?;
      assert exists i :: 0 <= i < |lines| && ParseLines(lines)[i].Malformed?;
      return Err(scanned.failure);
    }
    var entries := scanned.value;
    var user := if "DB_USR" in entries then entries["DB_USR"] else "";
    var password := if "DB_PWD" in entries then entries["DB_PWD"] else "";
    r := Ok(Login(entries, user, password));
  }

  /** The loop over the classified lines: the dictionary it builds, or the
      index of the first malformed line. */
  method Collect(parsed: seq<Line>) returns (r: Result<map<string, string>>)
    ensures r.Err? <==> exists i :: 0 <= i < |parsed| && parsed[i].Malformed?
    ensures r.Err? ==> r.failure.MalformedCredentials?
    ensures r.Err? ==> (var k := r.failure.line;
                        && k < |parsed| && parsed[k].Malformed?
                        && forall j :: 0 <= j < k ==> !parsed[j].Malformed?)
    ensures r.Ok? ==> Summarizes(parsed, |parsed|, r.value)
  {
    var entries: map<string, string> := map[];
    var n := 0;
    while n < |parsed|
      invariant 0 <= n <= |parsed|
      invariant forall j :: 0 <= j < n ==> !parsed[j].Malformed?
      invariant Summarizes(parsed, n, entries)
    {
      if parsed[n].Malformed? {
        return Err(MalformedCredentials(n));
      }
      SummarizesStep(parsed, n, entries);
      entries := Assign(entries, parsed[n]);
      n := n + 1;
    }
    r := Ok(entries);
  }

  /** A line written as `key=value` and a newline, with a key and value that
      have no surrounding whitespace and no `=`, is read back as that entry. */
  lemma {:induction false} ParseWrittenLine(key: string, value: string)
    requires Stripped(key) && Stripped(value)
    requires '=' !in key && '=' !in value
    ensures ParseLine(key + "=" + value + "\n") == Entry(key, value)
  {
    var body := key + "=" + value;
    assert body == key + ['='] + value;
    assert body[|key|] == '=';
    assert Stripped(body);
    StripNewline(body);
    SplitAtOnlySeparator(key, value, '=');
    StripOfStripped(key);
    StripOfStripped(value);
    assert '=' in body + "\n" by { assert (body + "\n")[|key|] == '='; }
  }
}
