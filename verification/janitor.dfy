/** `cleanup_old_files`: after a successful run, JSON dump files older than
    seven days are deleted from the dumps directory. The whole loop sits in
    one `try`, so the first error (an entry whose modification time cannot
    be read, or one that cannot be removed) ends the sweep; the error is
    logged and never reaches the caller.

    The directory listing is a parameter: each entry's name, its age (the
    current time minus its modification time, in microseconds, which is the
    resolution of `timedelta`), and whether `os.remove` would succeed.
 */
module Janitor {
  import opened Outcomes
  import opened Seqs

  /** One directory entry. `age` is `None` when `os.path.getmtime` raises. */
  datatype FileEntry = FileEntry(name: string, age: Option<int>, removable: bool)

  /** What a sweep did: the files it deleted, in order, and whether an error
      cut it short. */
  datatype SweepResult = SweepResult(removed: seq<string>, stopped: bool)

  /** `timedelta(days=7)` in microseconds. */
  const Retention := 7 * 24 * 60 * 60 * 1_000_000

  /** The pattern `*.json`: the name ends in `.json`, and like every `*`
      pattern it does not match a name starting with a dot. */
  predicate MatchesJson(name: string)
  {
    |name| >= 5 && name[|name| - 5..] == ".json" && name[0] != '.'
  }

  /** Strictly older than the retention period; an age of exactly seven days
      is kept. */
  predicate Expired(f: FileEntry)
  {
    f.age.Some? && f.age.value > Retention
  }

  /** An entry the sweep deletes when it gets to it. */
  predicate Removes(f: FileEntry)
  {
    MatchesJson(f.name) && Expired(f) && f.removable
  }

  /** An entry on which the sweep raises and stops. */
  predicate Blocks(f: FileEntry)
  {
    MatchesJson(f.name) && (f.age.None? || (Expired(f) && !f.removable))
  }

  /** How far the sweep gets: the position of the first entry it stops on,
      or the length of the listing when there is none. */
  function Reach(files: seq<FileEntry>): (k: nat)
    ensures k <= |files|
    ensures forall i :: 0 <= i < k ==> !Blocks(files[i])
    ensures k < |files| ==> Blocks(files[k])
  {
    if |files| == 0 then 0
    else if Blocks(files[0]) then 0
    else Reach(files[1..]) + 1
  }

  function Names(files: seq<FileEntry>): (names: seq<string>)
    ensures |names| == |files|
    ensures forall i :: 0 <= i < |files| ==> names[i] == files[i].name
  {
    seq(|files|, i requires 0 <= i < |files| => files[i].name)
  }

  /** The loop over the listing. It stops exactly when some entry blocks it,
      and the files it deletes are, in listing order, the deletable expired
      JSON files before the first blocking entry. */
  function Sweep(files: seq<FileEntry>): (r: SweepResult)
    ensures r.stopped <==> exists i :: 0 <= i < |files| && Blocks(files[i])
    ensures r.removed == Names(Filter(files[..Reach(files)], Removes))
  {
    if |files| == 0 then SweepResult([], false)
    else if Blocks(files[0]) then SweepResult([], true)
    else
      var rest := Sweep(files[1..]);
      SweepStep(files);
      SweepResult((if Removes(files[0]) then [files[0].name] else []) + rest.removed, rest.stopped)
  }

  /** Reaching past the first entry adds that entry, and only that, to the
      prefix the sweep works through. */
  lemma {:induction false} SweepStep(files: seq<FileEntry>)
    requires |files| > 0 && !Blocks(files[0])
    ensures Names(Filter(files[..Reach(files)], Removes))
            == (if Removes(files[0]) then [files[0].name] else []) + Names(Filter(files[1..][..Reach(files[1..])], Removes))
  {
    var k := Reach(files[1..]);
    assert Reach(files) == k + 1;
    var prefix := files[..k + 1];
    assert prefix[0] == files[0] && prefix[1..] == files[1..][..k];
    RemovedNamesFirst(prefix);
  }

  /** The deletable names of a listing: those of its first entry, then
      those of the rest. */
  lemma {:induction false} RemovedNamesFirst(files: seq<FileEntry>)
    requires |files| > 0
    ensures Names(Filter(files, Removes))
            == (if Removes(files[0]) then [files[0].name] else []) + Names(Filter(files[1..], Removes))
  {
    FilterFirst(files, Removes);
    var here := if Removes(files[0]) then [files[0]] else [];
    NamesAppend(here, Filter(files[1..], Removes));
    assert Names(here) == (if Removes(files[0]) then [files[0].name] else []);
  }

  lemma {:induction false} NamesAppend(a: seq<FileEntry>, b: seq<FileEntry>)
    ensures Names(a + b) == Names(a) + Names(b)
  {
  }

  /** Only expired JSON files are ever deleted: every deleted name belongs to
      an entry that matches `*.json` and is strictly older than seven days. */
  lemma {:induction false} SweepRemovesOnlyExpired(files: seq<FileEntry>)
    ensures forall j :: 0 <= j < |Sweep(files).removed| ==>
              exists i :: 0 <= i < |files| && files[i].name == Sweep(files).removed[j]
                          && MatchesJson(files[i].name) && Expired(files[i])
  {
    var k := Reach(files);
    var kept := Filter(files[..k], Removes);
    forall j | 0 <= j < |Sweep(files).removed|
      ensures exists i :: 0 <= i < |files| && files[i].name == Sweep(files).removed[j]
                          && MatchesJson(files[i].name) && Expired(files[i])
    {
      assert Removes(kept[j]) && kept[j] in files[..k];
      var i :| 0 <= i < k && files[..k][i] == kept[j];
      assert files[i] == kept[j];
    }
  }

  /** With no failing entry the sweep visits the whole listing and deletes
      every deletable expired JSON file in it. */
  lemma {:induction false} SweepCompleteWithoutErrors(files: seq<FileEntry>)
    requires forall i :: 0 <= i < |files| ==> !Blocks(files[i])
    ensures !Sweep(files).stopped
    ensures Sweep(files).removed == Names(Filter(files, Removes))
  {
    assert files[..|files|] == files;
  }

  /** A stop is final: nothing listed after the first blocking entry is
      deleted, whatever it is. */
  lemma {:induction false} SweepStopsAtFirstError(before: seq<FileEntry>, blocker: FileEntry, after: seq<FileEntry>)
    requires forall i :: 0 <= i < |before| ==> !Blocks(before[i])
    requires Blocks(blocker)
    ensures Sweep(before + [blocker] + after) == SweepResult(Sweep(before).removed, true)
    decreases |before|
  {
    var files := before + [blocker] + after;
    if |before| == 0 {
      assert files[0] == blocker;
    } else {
      assert files[1..] == before[1..] + [blocker] + after;
      SweepStopsAtFirstError(before[1..], blocker, after);
    }
  }
}
