/** The snapshot store: one JSON record per snapshot, in the file
    `<id>.json` directly inside the store's base directory. Listing reads
    every such file; creating one writes a record and then deletes the
    oldest snapshots beyond the retention limit. */
module Snapshots {
  import opened Wrappers
  import opened JsonValue
  import opened Text
  import opened Paths
  import opened Validation
  import opened Storage
  import opened SnapshotRecords

  /** A name `glob("*.json")` matches. */
  predicate IsSnapshotFile(name: string) {
    |name| >= 5 && name[|name| - 5..] == ".json"
  }

  /** The id part of a snapshot file name. */
  function Stem(name: string): string
    requires IsSnapshotFile(name)
  {
    name[..|name| - 5]
  }

  /** The key of the file `name` directly inside the base directory. */
  function Key(baseDir: Path, name: string): seq<string> {
    baseDir.segments + [name]
  }

  /** The names of the snapshot files among the keys `ks`: the files directly
      inside the base directory whose names end in `.json`. */
  function NamesIn(baseDir: Path, ks: set<seq<string>>): set<string> {
    set k | k in ks && |k| == |baseDir.segments| + 1 && k[..|baseDir.segments|] == baseDir.segments
                    && IsSnapshotFile(k[|baseDir.segments|]) :: k[|baseDir.segments|]
  }

  function JsonNames(baseDir: Path, files: Files): set<string> {
    NamesIn(baseDir, files.Keys)
  }

  /** Some enumeration of a finite set, in no particular order. */
  ghost function SetToSeq(s: set<string>): (xs: seq<string>)
    ensures multiset(xs) == multiset(s)
  {
    if s == {} then []
    else
      var x :| x in s;
      assert multiset(s) == multiset(s - {x}) + multiset{x};
      SetToSeq(s - {x}) + [x]
  }

  /** `sorted(base_dir.glob("*.json"))`, by name. */
  ghost function SortedNames(baseDir: Path, files: Files): (names: seq<string>)
    ensures Sorted(names) && multiset(names) == multiset(JsonNames(baseDir, files))
  {
    Sort(SetToSeq(JsonNames(baseDir, files)))
  }

  /** The file `name` holds a record whose summary is `s`. */
  predicate SummarisedAs(baseDir: Path, files: Files, name: string, s: Summary)
    requires baseDir.absolute && Canonical(baseDir)
  {
    Lookup(baseDir, files, name).Ok? && SummaryFromRecord(Lookup(baseDir, files, name).value) == Ok(s)
  }

  /** The first loop of `list_snapshots`: read each file and summarise its
      record, stopping at the first failure. */
  function Summaries(baseDir: Path, files: Files, names: seq<string>): (r: Result<seq<Summary>>)
    requires baseDir.absolute && Canonical(baseDir)
    ensures r.Ok? ==> |r.value| == |names|
    ensures r.Ok? ==> forall i :: 0 <= i < |names| ==> SummarisedAs(baseDir, files, names[i], r.value[i])
  {
    if names == [] then Ok([])
    else
      var init :- Summaries(baseDir, files, names[..|names| - 1]);
      var record :- Lookup(baseDir, files, names[|names| - 1]);
      var s :- SummaryFromRecord(record);
      assert SummarisedAs(baseDir, files, names[|names| - 1], s);
      SummarisedSnoc(baseDir, files, names, init, s);
      Ok(init + [s])
  }

  /** The summaries of all names but the last, and the summary of the last. */
  lemma SummarisedSnoc(baseDir: Path, files: Files, names: seq<string>, init: seq<Summary>, s: Summary)
    requires baseDir.absolute && Canonical(baseDir)
    requires names != [] && |init| == |names| - 1
    requires forall i :: 0 <= i < |init| ==> SummarisedAs(baseDir, files, names[..|names| - 1][i], init[i])
    requires SummarisedAs(baseDir, files, names[|names| - 1], s)
    ensures forall i :: 0 <= i < |names| ==> SummarisedAs(baseDir, files, names[i], (init + [s])[i])
  {
    forall i | 0 <= i < |names|
      ensures SummarisedAs(baseDir, files, names[i], (init + [s])[i])
    {
      if i < |init| {
        assert names[i] == names[..|names| - 1][i] && (init + [s])[i] == init[i];
      } else {
        assert (init + [s])[i] == s;
      }
    }
  }

  /** `list_snapshots()`: the summaries of all snapshot files, newest first;
      a timestamp that does not parse makes the whole listing fail. */
  ghost function Listing(baseDir: Path, files: Files): (r: Result<seq<Summary>>)
    requires baseDir.absolute && Canonical(baseDir)
    ensures r.Ok? ==> Timed(r.value) && NewestFirst(r.value)
    ensures r.Ok? ==> |r.value| == |JsonNames(baseDir, files)|
  {
    var names := SortedNames(baseDir, files);
    var summaries :- Summaries(baseDir, files, names);
    assert |names| == |multiset(names)| == |multiset(JsonNames(baseDir, files))|;
    var e := TimesError(summaries);
    if e.Some? then Err(e.value)
    else
      var r := SortNewestFirst(summaries);
      assert |r| == |multiset(r)| == |multiset(summaries)|;
      Ok(r)
  }

  /** The deletions of `_enforce_retention`, in order: each file name is
      deleted in turn and the first failure stops the loop. */
  function Purged(baseDir: Path, files: Files, names: seq<string>): (r: (Option<Error>, Files))
    requires baseDir.absolute && Canonical(baseDir)
    ensures r.1.Keys <= files.Keys
    ensures forall k :: k in r.1 ==> r.1[k] == files[k]
    ensures Inside(baseDir, files) ==> Inside(baseDir, r.1)
  {
    if names == [] then (None, files)
    else
      var prev := Purged(baseDir, files, names[..|names| - 1]);
      if prev.0.Some? then prev
      else
        var (d, after) := Removed(baseDir, prev.1, names[|names| - 1]);
        if d.Err? then (Some(d.error), after) else (None, after)
  }

  /** `_enforce_retention()` once `list_snapshots()` has returned `listing`:
      beyond `RETENTION_LIMIT` snapshots, the files of the older ones, as
      listed, are deleted. */
  function Prune(baseDir: Path, files: Files, listing: Result<seq<Summary>>): (r: (Option<Error>, Files))
    requires baseDir.absolute && Canonical(baseDir)
    ensures r.1.Keys <= files.Keys
    ensures forall k :: k in r.1 ==> r.1[k] == files[k]
    ensures Inside(baseDir, files) ==> Inside(baseDir, r.1)
  {
    match listing
    case Err(e) => (Some(e), files)
    case Ok(listed) =>
      if |listed| <= RetentionLimit then (None, files)
      else Purged(baseDir, files, FileNames(listed[RetentionLimit..]))
  }

  /** `_enforce_retention()`. */
  ghost function Retained(baseDir: Path, files: Files): (r: (Option<Error>, Files))
    requires baseDir.absolute && Canonical(baseDir)
    ensures r.1.Keys <= files.Keys
    ensures forall k :: k in r.1 ==> r.1[k] == files[k]
    ensures Inside(baseDir, files) ==> Inside(baseDir, r.1)
  {
    Prune(baseDir, files, Listing(baseDir, files))
  }

  /** The file names of the listed snapshots. */
  function FileNames(listed: seq<Summary>): (names: seq<string>)
    ensures |names| == |listed|
    ensures forall i :: 0 <= i < |listed| ==> names[i] == FileName(listed[i].id)
  {
    if listed == [] then [] else [FileName(listed[0].id)] + FileNames(listed[1..])
  }

  /** Adding one key to the keys already scanned adds at most its own name,
      and that name is new. */
  lemma NamesInAdd(baseDir: Path, done: set<seq<string>>, k: seq<string>)
    requires k !in done
    ensures var b := baseDir.segments;
      if |k| == |b| + 1 && k[..|b|] == b && IsSnapshotFile(k[|b|]) then
        NamesIn(baseDir, done + {k}) == NamesIn(baseDir, done) + {k[|b|]} && k[|b|] !in NamesIn(baseDir, done)
      else NamesIn(baseDir, done + {k}) == NamesIn(baseDir, done)
  {
    var b := baseDir.segments;
    if |k| == |b| + 1 && k[..|b|] == b && IsSnapshotFile(k[|b|]) {
      forall k' | k' in done && |k'| == |b| + 1 && k'[..|b|] == b
        ensures k'[|b|] != k[|b|]
      {
        LastDiffers(k', k, |b|);
      }
    }
  }

  /** Two different keys of the same length that share all but their last
      segment differ in the last one. */
  lemma LastDiffers(k: seq<string>, k': seq<string>, n: nat)
    requires |k| == |k'| == n + 1 && k[..n] == k'[..n] && k != k'
    ensures k[n] != k'[n]
  {
    assert k == k[..n] + [k[n]] && k' == k'[..n] + [k'[n]];
  }

  /** One step of the directory scan: the key `k` taken out of the keys
      still to visit adds its file name when it names a snapshot file. */
  lemma GlobStep(baseDir: Path, all: set<seq<string>>, keys: set<seq<string>>, k: seq<string>, found: seq<string>)
    requires keys <= all && k in keys
    requires multiset(found) == multiset(NamesIn(baseDir, all - keys))
    ensures var b := baseDir.segments;
      multiset(if |k| == |b| + 1 && k[..|b|] == b && IsSnapshotFile(k[|b|]) then found + [k[|b|]] else found)
      == multiset(NamesIn(baseDir, all - (keys - {k})))
  {
    NamesInAdd(baseDir, all - keys, k);
    assert all - (keys - {k}) == (all - keys) + {k};
  }

  /** Once the summaries of a prefix of the names fail, all of them fail the
      same way. */
  lemma {:induction false} SummariesStopAtError(baseDir: Path, files: Files, names: seq<string>, i: nat)
    requires baseDir.absolute && Canonical(baseDir)
    requires i <= |names| && Summaries(baseDir, files, names[..i]).Err?
    ensures Summaries(baseDir, files, names) == Summaries(baseDir, files, names[..i])
    decreases |names|
  {
    if i < |names| {
      var init := names[..|names| - 1];
      assert init[..i] == names[..i];
      SummariesStopAtError(baseDir, files, init, i);
    } else {
      assert names[..i] == names;
    }
  }

  /** A name whose file cannot be read makes the whole loop fail. */
  lemma {:induction false} SummariesFailAt(baseDir: Path, files: Files, names: seq<string>, i: nat)
    requires baseDir.absolute && Canonical(baseDir)
    requires i < |names| && Lookup(baseDir, files, names[i]).Err?
    ensures Summaries(baseDir, files, names).Err?
    decreases |names|
  {
    var init := names[..|names| - 1];
    if i < |names| - 1 {
      assert init[i] == names[i];
      SummariesFailAt(baseDir, files, init, i);
    }
  }

  /** One more deletion of `_enforce_retention`, after the first `i` all
      succeeded and left `before`. */
  lemma PurgedNext(baseDir: Path, files: Files, names: seq<string>, i: nat, before: Files)
    requires baseDir.absolute && Canonical(baseDir)
    requires i < |names| && Purged(baseDir, files, names[..i]) == (None, before)
    ensures var (d, after) := Removed(baseDir, before, names[i]);
      Purged(baseDir, files, names[..i + 1]) == (if d.Err? then Some(d.error) else None, after)
  {
    assert names[..i + 1][..i] == names[..i];
  }

  /** Once a deletion of `_enforce_retention` fails, the later ones do not
      happen. */
  lemma {:induction false} PurgedStopAtError(baseDir: Path, files: Files, names: seq<string>, i: nat)
    requires baseDir.absolute && Canonical(baseDir)
    requires i <= |names| && Purged(baseDir, files, names[..i]).0.Some?
    ensures Purged(baseDir, files, names) == Purged(baseDir, files, names[..i])
    decreases |names|
  {
    if i < |names| {
      var init := names[..|names| - 1];
      assert init[..i] == names[..i];
      PurgedStopAtError(baseDir, files, init, i);
    } else {
      assert names[..i] == names;
    }
  }

  /** `Sanitized` read one item further, when that item is good. */
  lemma SanitizedExtends(items: seq<(string, Json)>, i: nat)
    requires i < |items| && Sanitized(items[..i]).Ok? && ItemError(items[i]).None?
    ensures Sanitized(items[..i + 1]) == Ok(Sanitized(items[..i]).value + [(items[i].0, ListOf(items[i].1).value)])
  {
    var a := items[..i];
    var b := items[..i + 1];
    assert forall j :: 0 <= j < i ==> b[j] == a[j];
    assert b[i] == items[i];
    var sa := Sanitized(a).value;
    var sb := Sanitized(b);
    assert sb.Ok?;
    assert forall j :: 0 <= j < i ==> sb.value[j] == sa[j];
    assert sb.value == sa + [(items[i].0, ListOf(items[i].1).value)];
  }

  /** `Sanitized` fails with the error of the first bad item. */
  lemma SanitizedStopsAt(items: seq<(string, Json)>, i: nat)
    requires i < |items| && Sanitized(items[..i]).Ok? && ItemError(items[i]).Some?
    ensures Sanitized(items) == Err(ItemError(items[i]).value)
  {
    assert forall j :: 0 <= j < i ==> ItemError(items[j]).None? by {
      var a := items[..i];
      assert forall j :: 0 <= j < i ==> items[j] == a[j];
    }
    var r := Sanitized(items);
    var k :| 0 <= k < |items| && ItemError(items[k]) == Some(r.error)
             && forall j :: 0 <= j < k ==> ItemError(items[j]).None?;
    assert k == i;
  }

  /** A candidate id `_generate_snapshot_id` may draw: a clock reading and a
      random hex suffix. */
  predicate ValidDraw(draw: (Clock, string)) {
    ValidClock(draw.0) && HexSuffix(draw.1)
  }

  /** The candidate of `draw` names no existing file. */
  predicate Fresh(baseDir: Path, files: Files, draw: (Clock, string))
    requires baseDir.absolute && Canonical(baseDir)
  {
    ValidDraw(draw) && ExistsIn(baseDir, files, FileName(Candidate(draw.0, draw.1))) == Ok(false)
  }

  /** The first draw, from position `from` on, whose candidate is fresh. */
  function FirstFresh(baseDir: Path, files: Files, draws: seq<(Clock, string)>, from: nat): (r: Option<nat>)
    requires baseDir.absolute && Canonical(baseDir)
    ensures r.Some? ==> from <= r.value < |draws|
    decreases |draws| - from
  {
    if from >= |draws| then None
    else if Fresh(baseDir, files, draws[from]) then Some(from)
    else FirstFresh(baseDir, files, draws, from + 1)
  }

  /** The draw `FirstFresh` finds is fresh, and every draw before it is
      taken. */
  lemma {:induction false} FirstFreshIsFirst(baseDir: Path, files: Files, draws: seq<(Clock, string)>, from: nat)
    requires baseDir.absolute && Canonical(baseDir)
    requires FirstFresh(baseDir, files, draws, from).Some?
    ensures Fresh(baseDir, files, draws[FirstFresh(baseDir, files, draws, from).value])
    ensures forall j :: from <= j < FirstFresh(baseDir, files, draws, from).value ==> !Fresh(baseDir, files, draws[j])
    decreases |draws| - from
  {
    if !Fresh(baseDir, files, draws[from]) {
      FirstFreshIsFirst(baseDir, files, draws, from + 1);
    }
  }

  /** When `FirstFresh` finds nothing, every draw from `from` on is taken. */
  lemma {:induction false} NoFreshDraw(baseDir: Path, files: Files, draws: seq<(Clock, string)>, from: nat)
    requires baseDir.absolute && Canonical(baseDir)
    requires FirstFresh(baseDir, files, draws, from).None?
    ensures forall j :: from <= j < |draws| ==> !Fresh(baseDir, files, draws[j])
    decreases |draws| - from
  {
    if from < |draws| {
      NoFreshDraw(baseDir, files, draws, from + 1);
    }
  }

  /** `_generate_snapshot_id()` over the candidates it draws in turn: the first
      one whose file does not exist yet. */
  function FreshId(baseDir: Path, files: Files, draws: seq<(Clock, string)>): (id: string)
    requires baseDir.absolute && Canonical(baseDir)
    requires FirstFresh(baseDir, files, draws, 0).Some?
    ensures ExistsIn(baseDir, files, FileName(id)) == Ok(false)
    ensures |id| == 22 && IsName(FileName(id))
  {
    FirstFreshIsFirst(baseDir, files, draws, 0);
    var d := draws[FirstFresh(baseDir, files, draws, 0).value];
    CandidateFileIsName(d.0, d.1);
    Candidate(d.0, d.1)
  }

  /** `create_snapshot(package_map, metadata)` with the candidate ids `draws`
      and the creation time `createdAt`: the summary, and the directory
      after the write and the retention pass. A failed write ends the call
      with its error; a failed retention pass ends it with its error, the
      new record already written. */
  ghost function Created(baseDir: Path, files: Files, packageMap: Json, metadata: Json,
                         draws: seq<(Clock, string)>, createdAt: int): (r: (Result<Summary>, Files))
    requires baseDir.absolute && Canonical(baseDir)
    requires FirstFresh(baseDir, files, draws, 0).Some?
    ensures !packageMap.JObj? ==> r == (Err(TypeError("package_map must be a dict")), files)
    ensures packageMap.JObj? && Sanitized(packageMap.fields).Err? ==> r == (Err(Sanitized(packageMap.fields).error), files)
    ensures Inside(baseDir, files) ==> Inside(baseDir, r.1)
  {
    if !packageMap.JObj? then (Err(TypeError("package_map must be a dict")), files)
    else match Sanitized(packageMap.fields)
      case Err(e) => (Err(e), files)
      case Ok(managers) =>
        var id := FreshId(baseDir, files, draws);
        var record := MakeRecord(id, createdAt, managers, metadata);
        var (w, written) := Written(baseDir, files, FileName(id), record);
        if w.Err? then (Err(w.error), files)
        else
          var (e, after) := Retained(baseDir, written);
          if e.Some? then (Err(e.value), after) else (SummaryFromRecord(record), after)
  }

  class SnapshotManager {
    const storage: JsonStore

    constructor (store: JsonStore)
      ensures storage == store
    {
      storage := store;
    }

    /** `base_dir.glob("*.json")`: the snapshot file names, in the order the
        directory yields them. */
    method Glob() returns (found: seq<string>)
      requires storage.Valid()
      ensures multiset(found) == multiset(JsonNames(storage.baseDir, storage.files))
    {
      var all := storage.files.Keys;
      var b := storage.baseDir.segments;
      var keys := all;
      found := [];
      while keys != {}
        invariant keys <= all
        invariant multiset(found) == multiset(NamesIn(storage.baseDir, all - keys))
        decreases |keys|
      {
        var k :| k in keys;
        GlobStep(storage.baseDir, all, keys, k, found);
        if |k| == |b| + 1 && k[..|b|] == b && IsSnapshotFile(k[|b|]) {
          found := found + [k[|b|]];
        }
        keys := keys - {k};
      }
      assert all - keys == all;
    }

    /** The loop of `list_snapshots` that reads and summarises each file. */
    method ReadSummaries(names: seq<string>) returns (r: Result<seq<Summary>>)
      requires storage.Valid()
      ensures r == Summaries(storage.baseDir, storage.files, names)
    {
      var summaries: seq<Summary> := [];
      var i := 0;
      while i < |names|
        invariant 0 <= i <= |names|
        invariant Summaries(storage.baseDir, storage.files, names[..i]) == Ok(summaries)
      {
        assert names[..i + 1][..i] == names[..i];
        var record := storage.Read(names[i]);
        if record.Err? {
          SummariesStopAtError(storage.baseDir, storage.files, names, i + 1);
          return Err(record.error);
        }
        var summary := SummaryFromRecord(record.value);
        if summary.Err? {
          SummariesStopAtError(storage.baseDir, storage.files, names, i + 1);
          return Err(summary.error);
        }
        summaries := summaries + [summary.value];
        i := i + 1;
      }
      assert names[..i] == names;
      r := Ok(summaries);
    }

    method ListSnapshots() returns (r: Result<seq<Summary>>)
      requires storage.Valid()
      ensures r == Listing(storage.baseDir, storage.files)
    {
      var found := Glob();
      var names := Sort(found);
      SortedUnique(names, SortedNames(storage.baseDir, storage.files));
      var summaries :- ReadSummaries(names);
      var e := TimesError(summaries);
      if e.Some? {
        return Err(e.value);
      }
      r := Ok(SortNewestFirst(summaries));
    }

    /** The loop of `_enforce_retention`: deletes the file of each summary in
        turn. */
    method DeleteAll(victims: seq<Summary>) returns (e: Option<Error>)
      requires storage.Valid()
      modifies storage
      ensures storage.Valid()
      ensures (e, storage.files) == Purged(storage.baseDir, old(storage.files), FileNames(victims))
    {
      ghost var names := FileNames(victims);
      var i := 0;
      while i < |victims|
        invariant 0 <= i <= |victims|
        invariant storage.Valid()
        invariant (None, storage.files) == Purged(storage.baseDir, old(storage.files), names[..i])
      {
        ghost var before := storage.files;
        var d := storage.Delete(FileName(victims[i].id));
        PurgedNext(storage.baseDir, old(storage.files), names, i, before);
        if d.Err? {
          PurgedStopAtError(storage.baseDir, old(storage.files), names, i + 1);
          return Some(d.error);
        }
        i := i + 1;
      }
      assert names[..i] == names;
      e := None;
    }

    method EnforceRetention() returns (e: Option<Error>)
      requires storage.Valid()
      modifies storage
      ensures storage.Valid()
      ensures (e, storage.files) == Retained(storage.baseDir, old(storage.files))
    {
      var listed := ListSnapshots();
      if listed.Err? {
        return Some(listed.error);
      }
      var summaries := listed.value;
      if |summaries| <= RetentionLimit {
        return None;
      }
      e := DeleteAll(summaries[RetentionLimit..]);
    }

    /** `_generate_snapshot_id()`: draws candidates until one names no
        existing file. */
    method GenerateSnapshotId(draws: seq<(Clock, string)>) returns (id: string)
      requires storage.Valid()
      requires forall i :: 0 <= i < |draws| ==> ValidDraw(draws[i])
      requires FirstFresh(storage.baseDir, storage.files, draws, 0).Some?
      ensures id == FreshId(storage.baseDir, storage.files, draws)
    {
      var i := 0;
      id := Candidate(draws[0].0, draws[0].1);
      var taken := storage.Exists(FileName(id));
      while taken != Ok(false)
        invariant 0 <= i < |draws|
        invariant id == Candidate(draws[i].0, draws[i].1)
        invariant taken == ExistsIn(storage.baseDir, storage.files, FileName(id))
        invariant FirstFresh(storage.baseDir, storage.files, draws, i) == FirstFresh(storage.baseDir, storage.files, draws, 0)
        decreases |draws| - i
      {
        i := i + 1;
        id := Candidate(draws[i].0, draws[i].1);
        taken := storage.Exists(FileName(id));
      }
    }

    /** The loop of `create_snapshot` that checks every manager id and
        copies every package list. */
    method SanitizeManagers(items: seq<(string, Json)>) returns (r: Result<seq<(string, seq<Json>)>>)
      ensures r == Sanitized(items)
    {
      var sanitized: seq<(string, seq<Json>)> := [];
      var i := 0;
      while i < |items|
        invariant 0 <= i <= |items|
        invariant Sanitized(items[..i]) == Ok(sanitized)
      {
        var cleanId := SanitizeManagerId(items[i].0);
        var packages := ListOf(items[i].1);
        if cleanId.Err? || packages.Err? {
          SanitizedStopsAt(items, i);
          return Err(ItemError(items[i]).value);
        }
        SanitizedExtends(items, i);
        sanitized := sanitized + [(cleanId.value, packages.value)];
        i := i + 1;
      }
      assert items[..i] == items;
      r := Ok(sanitized);
    }

    method CreateSnapshot(packageMap: Json, metadata: Json, draws: seq<(Clock, string)>, createdAt: int)
      returns (r: Result<Summary>)
      requires storage.Valid()
      requires packageMap.JObj? ==> UniqueKeys(packageMap.fields)
      requires forall i :: 0 <= i < |draws| ==> ValidDraw(draws[i])
      requires FirstFresh(storage.baseDir, storage.files, draws, 0).Some?
      modifies storage
      ensures storage.Valid()
      ensures (r, storage.files) == Created(storage.baseDir, old(storage.files), packageMap, metadata, draws, createdAt)
    {
      if !packageMap.JObj? {
        return Err(TypeError("package_map must be a dict"));
      }
      var sanitized :- SanitizeManagers(packageMap.fields);
      var id := GenerateSnapshotId(draws);
      var record := MakeRecord(id, createdAt, sanitized, metadata);
      var w := storage.Write(FileName(id), record);
      if w.Err? {
        return Err(w.error);
      }
      var e := EnforceRetention();
      if e.Some? {
        return Err(e.value);
      }
      r := SummaryFromRecord(record);
    }

    method GetSnapshot(id: string) returns (r: Result<Json>)
      requires storage.Valid()
      ensures r == Lookup(storage.baseDir, storage.files, FileName(id))
    {
      r := storage.Read(FileName(id));
    }

    /** `restore_snapshot(id)`: the stored record, as `get_snapshot` returns it. */
    method RestoreSnapshot(id: string) returns (r: Result<Json>)
      requires storage.Valid()
      ensures r == Lookup(storage.baseDir, storage.files, FileName(id))
    {
      r := GetSnapshot(id);
    }

    method DeleteSnapshot(id: string) returns (r: Result<bool>)
      requires storage.Valid()
      modifies storage
      ensures storage.Valid()
      ensures (r, storage.files) == Removed(storage.baseDir, old(storage.files), FileName(id))
    {
      r := storage.Delete(FileName(id));
    }
  }
}
