/** What the retention pass of the snapshot store achieves. In a directory
    where every snapshot file holds a record whose id names that file (as
    every record `create_snapshot` writes does), listing never fails, and
    `_enforce_retention` deletes exactly the snapshots beyond the ten
    newest, leaving every other file alone. */
module Retention {
  import opened Wrappers
  import opened JsonValue
  import opened Paths
  import opened Storage
  import opened SnapshotRecords
  import opened Snapshots

  /** `j` is a record stored as `<id>.json`: a summary can be read from it
      and its `created_at` is a timestamp. */
  predicate RecordFor(j: Json, id: string) {
    && j.JObj?
    && Get(j.fields, "id") == Some(JStr(id))
    && Get(j.fields, "created_at").Some? && Get(j.fields, "created_at").value.JInt?
    && (Get(j.fields, "managers").None? || Get(j.fields, "managers").value.JObj?)
  }

  /** A snapshot directory as the snapshot store keeps it: a resolved base
      directory, and every `*.json` file in it holds the record of the
      snapshot its name gives. */
  ghost predicate Catalogue(baseDir: Path, files: Files) {
    && baseDir.absolute && Canonical(baseDir) && Normal(baseDir.segments) && Inside(baseDir, files)
    && forall n :: n in JsonNames(baseDir, files) ==>
         IsSnapshotFile(n) && Key(baseDir, n) in files && files[Key(baseDir, n)].Parsed?
         && RecordFor(files[Key(baseDir, n)].doc, Stem(n))
  }

  /** The creation time of the snapshot stored in the file `n`. */
  ghost function Time(baseDir: Path, files: Files, n: string): int
    requires Catalogue(baseDir, files) && n in JsonNames(baseDir, files)
  {
    Get(files[Key(baseDir, n)].doc.fields, "created_at").value.i
  }

  /** The files of the snapshots named in `ns`. */
  function NameKeys(baseDir: Path, ns: set<string>): set<seq<string>> {
    set n | n in ns :: Key(baseDir, n)
  }

  /** `n` is a snapshot name of the directory exactly when `n` is a
      `*.json` name and the file `n` lies directly in the base directory. */
  lemma NamesInIff(baseDir: Path, ks: set<seq<string>>, n: string)
    ensures n in NamesIn(baseDir, ks) <==> IsSnapshotFile(n) && Key(baseDir, n) in ks
  {
    var b := baseDir.segments;
    if n in NamesIn(baseDir, ks) {
      var k :| k in ks && |k| == |b| + 1 && k[..|b|] == b && IsSnapshotFile(k[|b|]) && k[|b|] == n;
      assert k == k[..|b|] + [k[|b|]];
    }
    if IsSnapshotFile(n) && Key(baseDir, n) in ks {
      var k := Key(baseDir, n);
      assert k[..|b|] == b && k[|b|] == n;
    }
  }

  /** A snapshot name of an orderly directory is a plain file name. */
  lemma SnapshotNameIsName(baseDir: Path, files: Files, n: string)
    requires Inside(baseDir, files) && n in JsonNames(baseDir, files)
    ensures IsName(n) && IsSnapshotFile(n) && Key(baseDir, n) in files
  {
    NamesInIff(baseDir, files.Keys, n);
    assert Key(baseDir, n)[|baseDir.segments|] == n;
  }

  /** The file name of a snapshot is its id followed by `.json`. */
  lemma FileNameOfStem(n: string)
    requires IsSnapshotFile(n)
    ensures FileName(Stem(n)) == n
  {
    assert n == n[..|n| - 5] + n[|n| - 5..];
  }

  /** A plain file name resolves to the file of that name directly in the
      base directory. */
  lemma ResolveName(baseDir: Path, n: string)
    requires baseDir.absolute && Canonical(baseDir) && Normal(baseDir.segments) && IsName(n)
    ensures ResolvePath(baseDir, n) == Ok(Key(baseDir, n))
  {
    PartsOfSegment(n);
    assert Parse(n) == Path(false, [n]);
    ResolvePlainPath(baseDir, n);
  }

  /** A snapshot file that `json.load` cannot decode. Reading it fails with
      that error, so `get_snapshot` and `restore_snapshot` of its id fail.
      `list_snapshots` fails too, and so does the retention pass, which then
      deletes nothing. */
  lemma GarbledSnapshot(baseDir: Path, files: Files, n: string)
    requires baseDir.absolute && Canonical(baseDir) && Normal(baseDir.segments) && Inside(baseDir, files)
    requires IsSnapshotFile(n) && Key(baseDir, n) in files && files[Key(baseDir, n)].Garbled?
    ensures Lookup(baseDir, files, n) == Err(Undecodable(n))
    ensures Listing(baseDir, files).Err?
    ensures Retained(baseDir, files) == (Some(Listing(baseDir, files).error), files)
  {
    NamesInIff(baseDir, files.Keys, n);
    SnapshotNameIsName(baseDir, files, n);
    ResolveName(baseDir, n);
    var names := SortedNames(baseDir, files);
    assert n in multiset(names);
    var i :| 0 <= i < |names| && names[i] == n;
    SummariesFailAt(baseDir, files, names, i);
  }

  /** Every snapshot file of a catalogue is read and summarised. */
  lemma {:induction false} SummariesOfCatalogue(baseDir: Path, files: Files, names: seq<string>)
    requires Catalogue(baseDir, files)
    requires forall i :: 0 <= i < |names| ==> names[i] in JsonNames(baseDir, files)
    ensures Summaries(baseDir, files, names).Ok?
    decreases |names|
  {
    if names != [] {
      var init := names[..|names| - 1];
      assert forall i :: 0 <= i < |init| ==> init[i] == names[i];
      SummariesOfCatalogue(baseDir, files, init);
      var n := names[|names| - 1];
      SnapshotNameIsName(baseDir, files, n);
      ResolveName(baseDir, n);
    }
  }

  /** The summary read from the file `n` names that file and carries its
      creation time. */
  lemma SummaryOfName(baseDir: Path, files: Files, n: string, s: Summary)
    requires Catalogue(baseDir, files) && n in JsonNames(baseDir, files)
    requires SummarisedAs(baseDir, files, n, s)
    ensures FileName(s.id) == n && s.createdAt == JInt(Time(baseDir, files, n))
  {
    SnapshotNameIsName(baseDir, files, n);
    ResolveName(baseDir, n);
    FileNameOfStem(n);
  }

  lemma FileNamesAppend(a: seq<Summary>, b: seq<Summary>)
    ensures FileNames(a + b) == FileNames(a) + FileNames(b)
  {
    assert forall i :: 0 <= i < |a| ==> (a + b)[i] == a[i];
    assert forall i :: |a| <= i < |a| + |b| ==> (a + b)[i] == b[i - |a|];
  }

  /** Reordering summaries reorders their file names the same way. */
  lemma {:induction false} FileNamesPermutation(a: seq<Summary>, b: seq<Summary>)
    requires multiset(a) == multiset(b)
    ensures multiset(FileNames(a)) == multiset(FileNames(b))
    decreases |a|
  {
    if a == [] {
      assert |b| == |multiset(b)| == 0;
    } else {
      var x := a[0];
      assert x in multiset(b);
      var j :| 0 <= j < |b| && b[j] == x;
      var rest := b[..j] + b[j + 1..];
      assert b == b[..j] + [x] + b[j + 1..];
      assert a == [x] + a[1..];
      assert multiset(b) == multiset(b[..j]) + multiset{x} + multiset(b[j + 1..]);
      assert multiset(rest) == multiset(b[..j]) + multiset(b[j + 1..]);
      assert multiset(a) == multiset{x} + multiset(a[1..]);
      assert multiset(a[1..]) == multiset(a) - multiset{x};
      assert multiset(rest) == multiset(b) - multiset{x};
      FileNamesPermutation(a[1..], rest);
      FileNamesAppend([x], a[1..]);
      FileNamesAppend(b[..j], b[j + 1..]);
      FileNamesAppend(b[..j] + [x], b[j + 1..]);
      FileNamesAppend(b[..j], [x]);
    }
  }

  /** A sequence holding each of its elements once has as many distinct
      elements as it has positions. */
  lemma DistinctCount(v: seq<string>)
    requires forall x :: multiset(v)[x] <= 1
    ensures |set x | x in v| == |v|
  {
    var s := set x | x in v;
    forall x ensures multiset(v)[x] == multiset(s)[x] {
      if x in v { assert x in multiset(v); }
    }
    assert multiset(v) == multiset(s);
    assert |v| == |multiset(v)|;
  }

  /** The summaries `list_snapshots()` reads from a catalogue, before it
      sorts them: one per snapshot file, in name order, each naming its file
      and carrying its creation time. */
  lemma SummariesOfSortedNames(baseDir: Path, files: Files)
    requires Catalogue(baseDir, files)
    ensures var names := SortedNames(baseDir, files);
      && Summaries(baseDir, files, names).Ok?
      && forall i :: 0 <= i < |names| ==>
           && names[i] in JsonNames(baseDir, files)
           && FileName(Summaries(baseDir, files, names).value[i].id) == names[i]
           && Summaries(baseDir, files, names).value[i].createdAt == JInt(Time(baseDir, files, names[i]))
  {
    var names := SortedNames(baseDir, files);
    assert forall i :: 0 <= i < |names| ==> names[i] in JsonNames(baseDir, files) by {
      forall i | 0 <= i < |names| ensures names[i] in JsonNames(baseDir, files) {
        assert names[i] in multiset(names);
      }
    }
    SummariesOfCatalogue(baseDir, files, names);
    var summaries := Summaries(baseDir, files, names).value;
    forall i | 0 <= i < |names|
      ensures FileName(summaries[i].id) == names[i]
      ensures summaries[i].createdAt == JInt(Time(baseDir, files, names[i]))
    {
      SummaryOfName(baseDir, files, names[i], summaries[i]);
    }
  }

  /** `list_snapshots()` on a catalogue reads every snapshot file and sorts
      the summaries. */
  lemma ListingSorts(baseDir: Path, files: Files)
    requires Catalogue(baseDir, files)
    ensures var summaries := Summaries(baseDir, files, SortedNames(baseDir, files));
      && summaries.Ok? && Timed(summaries.value)
      && Listing(baseDir, files) == Ok(SortNewestFirst(summaries.value))
  {
    SummariesOfSortedNames(baseDir, files);
  }

  /** The summaries `list_snapshots()` reads from a catalogue enumerate its
      snapshot files, each with the creation time `Times` gives. */
  lemma SummariesTimed(baseDir: Path, files: Files)
    requires Catalogue(baseDir, files)
    ensures var summaries := Summaries(baseDir, files, SortedNames(baseDir, files));
      && summaries.Ok?
      && multiset(FileNames(summaries.value)) == multiset(JsonNames(baseDir, files))
      && forall i :: 0 <= i < |summaries.value| ==>
           FileName(summaries.value[i].id) in Times(baseDir, files)
           && summaries.value[i].createdAt == JInt(Times(baseDir, files)[FileName(summaries.value[i].id)])
  {
    SummariesOfSortedNames(baseDir, files);
    var names := SortedNames(baseDir, files);
    assert FileNames(Summaries(baseDir, files, names).value) == names;
  }

  /** Reordering summaries that enumerate a set of file names, each with a
      time from `times`, gives summaries with the same two properties. */
  lemma PermutedSummaries(summaries: seq<Summary>, listed: seq<Summary>, names: set<string>, times: map<string, int>)
    requires multiset(listed) == multiset(summaries)
    requires multiset(FileNames(summaries)) == multiset(names)
    requires forall i :: 0 <= i < |summaries| ==>
      FileName(summaries[i].id) in times && summaries[i].createdAt == JInt(times[FileName(summaries[i].id)])
    ensures multiset(FileNames(listed)) == multiset(names)
    ensures forall i :: 0 <= i < |listed| ==>
      FileName(listed[i].id) in times && listed[i].createdAt == JInt(times[FileName(listed[i].id)])
  {
    FileNamesPermutation(listed, summaries);
    forall i | 0 <= i < |listed|
      ensures FileName(listed[i].id) in times && listed[i].createdAt == JInt(times[FileName(listed[i].id)])
    {
      assert listed[i] in multiset(summaries);
      var j :| 0 <= j < |summaries| && summaries[j] == listed[i];
    }
  }

  /** Deleting plain file names that name no directory one after the other
      never fails, and it
      removes exactly the files of those names. */
  lemma {:induction false} PurgedNames(baseDir: Path, files: Files, names: seq<string>)
    requires baseDir.absolute && Canonical(baseDir) && Normal(baseDir.segments)
    requires forall i :: 0 <= i < |names| ==> IsName(names[i]) && !IsDir(baseDir, files, Key(baseDir, names[i]))
    ensures Purged(baseDir, files, names) == (None, files - NameKeys(baseDir, NamesOf(names)))
    decreases |names|
  {
    if names == [] {
      assert NameKeys(baseDir, NamesOf(names)) == {};
      assert files - {} == files;
    } else {
      PurgeStep(baseDir, files, names);
      PurgedNames(baseDir, files, names[..|names| - 1]);
    }
  }

  /** The last deletion of `PurgedNames`: after the files of all names but
      the last are gone, deleting the last one succeeds and leaves the
      directory without the files of all of them. */
  lemma PurgeStep(baseDir: Path, files: Files, names: seq<string>)
    requires baseDir.absolute && Canonical(baseDir) && Normal(baseDir.segments)
    requires forall i :: 0 <= i < |names| ==> IsName(names[i]) && !IsDir(baseDir, files, Key(baseDir, names[i]))
    requires names != []
    ensures var before := files - NameKeys(baseDir, NamesOf(names[..|names| - 1]));
      && Removed(baseDir, before, names[|names| - 1]).0.Ok?
      && Removed(baseDir, before, names[|names| - 1]).1 == files - NameKeys(baseDir, NamesOf(names))
  {
    var init := names[..|names| - 1];
    var n := names[|names| - 1];
    assert forall i :: 0 <= i < |init| ==> init[i] == names[i];
    var before := files - NameKeys(baseDir, NamesOf(init));
    RemovedName(baseDir, before, n);
    assert names == init + [n];
    NameKeysSnoc(baseDir, init, n);
    assert before - {Key(baseDir, n)} == files - NameKeys(baseDir, NamesOf(names));
  }

  /** Deleting a plain file name that names no directory succeeds and leaves
      the directory without that file. */
  lemma RemovedName(baseDir: Path, files: Files, n: string)
    requires baseDir.absolute && Canonical(baseDir) && Normal(baseDir.segments) && IsName(n)
    requires !IsDir(baseDir, files, Key(baseDir, n))
    ensures Removed(baseDir, files, n).0.Ok?
    ensures Removed(baseDir, files, n).1 == files - {Key(baseDir, n)}
  {
    ResolveName(baseDir, n);
  }

  /** The names a sequence holds. */
  function NamesOf(names: seq<string>): set<string> {
    set m | m in names
  }

  lemma NameKeysSnoc(baseDir: Path, init: seq<string>, n: string)
    ensures NameKeys(baseDir, NamesOf(init + [n])) == NameKeys(baseDir, NamesOf(init)) + {Key(baseDir, n)}
  {
    assert NamesOf(init + [n]) == NamesOf(init) + {n};
  }

  /** Removing the files of some names removes exactly those names from the
      snapshot names of the directory. */
  lemma JsonNamesWithout(baseDir: Path, files: Files, gone: set<string>)
    ensures JsonNames(baseDir, files - NameKeys(baseDir, gone)) == JsonNames(baseDir, files) - gone
  {
    var after := files - NameKeys(baseDir, gone);
    forall n ensures n in JsonNames(baseDir, after) <==> n in JsonNames(baseDir, files) && n !in gone {
      NamesInIff(baseDir, after.Keys, n);
      NamesInIff(baseDir, files.Keys, n);
      if Key(baseDir, n) in NameKeys(baseDir, gone) {
        var m :| m in gone && Key(baseDir, m) == Key(baseDir, n);
        assert m == Key(baseDir, m)[|baseDir.segments|];
      }
    }
  }

  /** Taking files away from a catalogue, and changing no other, leaves a
      catalogue with the same creation times. */
  lemma CatalogueShrinks(baseDir: Path, files: Files, after: Files)
    requires Catalogue(baseDir, files) && Inside(baseDir, after)
    requires after.Keys <= files.Keys && forall k :: k in after ==> after[k] == files[k]
    ensures Catalogue(baseDir, after)
    ensures JsonNames(baseDir, after) <= JsonNames(baseDir, files)
    ensures forall n :: n in JsonNames(baseDir, after) ==> Time(baseDir, after, n) == Time(baseDir, files, n)
  {
    forall n | n in JsonNames(baseDir, after)
      ensures n in JsonNames(baseDir, files) && IsSnapshotFile(n) && Key(baseDir, n) in after
    {
      NamesInIff(baseDir, after.Keys, n);
      NamesInIff(baseDir, files.Keys, n);
    }
  }

  /** Cutting an enumeration of a set after `k` positions: the names in
      the tail are members of the set, and the rest of the set is the `k`
      names of the head. */
  lemma SplitEnumeration(names: set<string>, fs: seq<string>, k: nat)
    requires multiset(fs) == multiset(names) && k <= |names|
    ensures |fs| == |names|
    ensures NamesOf(fs[k..]) <= names
    ensures names - NamesOf(fs[k..]) == NamesOf(fs[..k])
    ensures |NamesOf(fs[..k])| == k
  {
    assert |fs| == |multiset(fs)| == |multiset(names)| == |names|;
    assert fs == fs[..k] + fs[k..];
    assert multiset(fs) == multiset(fs[..k]) + multiset(fs[k..]);
    assert forall x :: multiset(fs)[x] <= 1 by {
      forall x ensures multiset(fs)[x] <= 1 {
        if x in names { assert multiset(names)[x] == 1; } else { assert multiset(names)[x] == 0; }
      }
    }
    forall x | x in fs ensures x in names {
      assert x in multiset(fs);
    }
    forall x | x in names ensures x in fs {
      assert x in multiset(names);
    }
    forall x ensures multiset(fs[..k])[x] + multiset(fs[k..])[x] <= 1 {
      assert multiset(fs)[x] == multiset(fs[..k])[x] + multiset(fs[k..])[x];
    }
    forall x | x in fs[..k] ensures x !in fs[k..] {
      assert x in multiset(fs[..k]);
    }
    DistinctCount(fs[..k]);
  }

  lemma FileNamesDrop(listed: seq<Summary>, k: nat)
    requires k <= |listed|
    ensures FileNames(listed[k..]) == FileNames(listed)[k..]
  {
  }

  /** In a listing sorted newest first, a snapshot among the first `k` is
      at least as new as a snapshot after them; `times` gives the creation
      time of each listed file. */
  lemma HeadIsNewest(listed: seq<Summary>, times: map<string, int>, k: nat, kept: string, gone: string)
    requires Timed(listed) && NewestFirst(listed) && k <= |listed|
    requires forall i :: 0 <= i < |listed| ==>
      FileName(listed[i].id) in times && listed[i].createdAt == JInt(times[FileName(listed[i].id)])
    requires kept in NamesOf(FileNames(listed)[..k]) && gone in NamesOf(FileNames(listed)[k..])
    ensures kept in times && gone in times && times[kept] >= times[gone]
  {
    var fs := FileNames(listed);
    var i := IndexInHead(fs, k, kept);
    var j := IndexInTail(fs, k, gone);
    assert listed[i].createdAt.i >= listed[j].createdAt.i;
  }

  /** A position among the first `k` of `s` holding `x`. */
  lemma IndexInHead(s: seq<string>, k: nat, x: string) returns (i: nat)
    requires k <= |s| && x in NamesOf(s[..k])
    ensures i < k && s[i] == x
  {
    i :| 0 <= i < k && s[..k][i] == x;
  }

  /** A position after the first `k` of `s` holding `x`. */
  lemma IndexInTail(s: seq<string>, k: nat, x: string) returns (i: nat)
    requires k <= |s| && x in NamesOf(s[k..])
    ensures k <= i < |s| && s[i] == x
  {
    var d :| 0 <= d < |s| - k && s[k..][d] == x;
    i := k + d;
  }

  /** The creation times of a catalogue, by file name. */
  ghost function Times(baseDir: Path, files: Files): (times: map<string, int>)
    requires Catalogue(baseDir, files)
    ensures times.Keys == JsonNames(baseDir, files)
    ensures forall n :: n in times ==> times[n] == Time(baseDir, files, n)
  {
    map n | n in JsonNames(baseDir, files) :: Time(baseDir, files, n)
  }

  /** With more than ten snapshots whose file names are plain names,
      `_enforce_retention()` deletes exactly the files listed after the
      tenth, without failing. */
  lemma RetainedLarge(baseDir: Path, files: Files, listed: seq<Summary>)
    requires baseDir.absolute && Canonical(baseDir) && Normal(baseDir.segments) && |listed| > RetentionLimit
    requires forall i :: 0 <= i < |listed| ==>
      IsName(FileNames(listed)[i]) && !IsDir(baseDir, files, Key(baseDir, FileNames(listed)[i]))
    ensures Prune(baseDir, files, Ok(listed)) == (None, files - NameKeys(baseDir, NamesOf(FileNames(listed)[RetentionLimit..])))
  {
    var victims := FileNames(listed)[RetentionLimit..];
    assert forall i :: 0 <= i < |victims| ==> IsName(victims[i]) && !IsDir(baseDir, files, Key(baseDir, victims[i])) by {
      forall i | 0 <= i < |victims| ensures IsName(victims[i]) && !IsDir(baseDir, files, Key(baseDir, victims[i])) {
        assert victims[i] == FileNames(listed)[RetentionLimit + i];
      }
    }
    PurgedNames(baseDir, files, victims);
    FileNamesDrop(listed, RetentionLimit);
  }

  /** What a catalogue's listing is: sorted newest first, each summary with
      the creation time of its file. */
  ghost predicate ListedFrom(baseDir: Path, files: Files, listed: seq<Summary>)
    requires Catalogue(baseDir, files)
  {
    && Timed(listed) && NewestFirst(listed)
    && forall i :: 0 <= i < |listed| ==>
         FileName(listed[i].id) in Times(baseDir, files)
         && listed[i].createdAt == JInt(Times(baseDir, files)[FileName(listed[i].id)])
  }

  /** `list_snapshots()` on a catalogue: it succeeds, lists every snapshot
      file exactly once, newest first, and each listed summary carries the
      creation time of the file it was read from. */
  lemma CatalogueListing(baseDir: Path, files: Files)
    requires Catalogue(baseDir, files)
    ensures Listing(baseDir, files).Ok?
    ensures ListedFrom(baseDir, files, Listing(baseDir, files).value)
    ensures multiset(FileNames(Listing(baseDir, files).value)) == multiset(JsonNames(baseDir, files))
  {
    ListingSorts(baseDir, files);
    SummariesTimed(baseDir, files);
    var summaries := Summaries(baseDir, files, SortedNames(baseDir, files)).value;
    PermutedSummaries(summaries, SortNewestFirst(summaries), JsonNames(baseDir, files), Times(baseDir, files));
  }

  /** Every file a catalogue lists has a plain name and is no directory. */
  lemma ListedNames(baseDir: Path, files: Files, listed: seq<Summary>)
    requires Catalogue(baseDir, files) && ListedFrom(baseDir, files, listed)
    ensures forall i :: 0 <= i < |listed| ==>
      IsName(FileNames(listed)[i]) && !IsDir(baseDir, files, Key(baseDir, FileNames(listed)[i]))
  {
    forall i | 0 <= i < |listed|
      ensures IsName(FileNames(listed)[i]) && !IsDir(baseDir, files, Key(baseDir, FileNames(listed)[i]))
    {
      SnapshotNameIsName(baseDir, files, FileName(listed[i].id));
      StoredIsNoDir(baseDir, files, Key(baseDir, FileName(listed[i].id)));
    }
  }

  /** A stored file is no directory: no file lies below another. */
  lemma StoredIsNoDir(baseDir: Path, files: Files, k: seq<string>)
    requires Inside(baseDir, files) && k in files
    ensures !IsDir(baseDir, files, k)
  {
  }

  /** In a listing sorted newest first, each of its first ten files is at
      least as new as each file after them. */
  lemma ListedHeadIsNewest(listed: seq<Summary>, times: map<string, int>)
    requires Timed(listed) && NewestFirst(listed) && RetentionLimit <= |listed|
    requires forall i :: 0 <= i < |listed| ==>
      FileName(listed[i].id) in times && listed[i].createdAt == JInt(times[FileName(listed[i].id)])
    ensures var fs := FileNames(listed);
      forall kept, gone ::
        kept in NamesOf(fs[..RetentionLimit]) && gone in NamesOf(fs[RetentionLimit..]) ==>
          kept in times && gone in times && times[kept] >= times[gone]
  {
    var fs := FileNames(listed);
    forall kept, gone | kept in NamesOf(fs[..RetentionLimit]) && gone in NamesOf(fs[RetentionLimit..])
      ensures kept in times && gone in times && times[kept] >= times[gone]
    {
      HeadIsNewest(listed, times, RetentionLimit, kept, gone);
    }
  }

  /** What `_enforce_retention()` should leave of the catalogue `files`:
      `after` is again a catalogue; it is `files` without the files of some
      snapshots; it holds all the snapshots when there are at most ten and
      exactly ten otherwise; and every snapshot kept is at least as new as
      every snapshot deleted. */
  ghost predicate Pruned(baseDir: Path, files: Files, after: Files)
    requires Catalogue(baseDir, files)
  {
    && Catalogue(baseDir, after)
    && JsonNames(baseDir, after) <= JsonNames(baseDir, files)
    && after == files - NameKeys(baseDir, JsonNames(baseDir, files) - JsonNames(baseDir, after))
    && |JsonNames(baseDir, after)| == (if |JsonNames(baseDir, files)| <= RetentionLimit then |JsonNames(baseDir, files)| else RetentionLimit)
    && forall kept, gone ::
         kept in JsonNames(baseDir, after) && gone in JsonNames(baseDir, files) - JsonNames(baseDir, after)
         ==> Times(baseDir, files)[kept] >= Times(baseDir, files)[gone]
  }

  /** `_enforce_retention()` on a catalogue of at most ten snapshots: it
      deletes nothing. */
  lemma RetentionSmall(baseDir: Path, files: Files)
    requires Catalogue(baseDir, files) && |JsonNames(baseDir, files)| <= RetentionLimit
    ensures Retained(baseDir, files) == (None, files)
    ensures Pruned(baseDir, files, files)
  {
    assert Listing(baseDir, files).Ok? by {
      CatalogueListing(baseDir, files);
    }
    assert JsonNames(baseDir, files) - JsonNames(baseDir, files) == {};
    NothingRemoved(baseDir, files);
  }

  lemma TakeBackDifference(a: set<string>, b: set<string>)
    requires b <= a
    ensures a - (a - b) == b
  {
  }

  lemma NothingRemoved(baseDir: Path, files: Files)
    ensures files - NameKeys(baseDir, {}) == files
  {
    assert NameKeys(baseDir, {}) == {};
    assert files - {} == files;
  }

  /** `_enforce_retention()` on a catalogue of more than ten snapshots:
      it deletes the files listed after the tenth. */
  lemma RetentionLarge(baseDir: Path, files: Files)
    requires Catalogue(baseDir, files) && |JsonNames(baseDir, files)| > RetentionLimit
    ensures Retained(baseDir, files).0.None?
    ensures Pruned(baseDir, files, Retained(baseDir, files).1)
  {
    CatalogueListing(baseDir, files);
    ListingPrunes(baseDir, files, Listing(baseDir, files).value);
  }

  /** Pruning with a listing of a catalogue of more than ten snapshots
      succeeds and prunes it. */
  lemma ListingPrunes(baseDir: Path, files: Files, listed: seq<Summary>)
    requires Catalogue(baseDir, files) && ListedFrom(baseDir, files, listed)
    requires multiset(FileNames(listed)) == multiset(JsonNames(baseDir, files))
    requires |JsonNames(baseDir, files)| > RetentionLimit
    ensures Prune(baseDir, files, Ok(listed)).0.None?
    ensures Pruned(baseDir, files, Prune(baseDir, files, Ok(listed)).1)
  {
    PruneListing(baseDir, files, listed);
    SplitEnumeration(JsonNames(baseDir, files), FileNames(listed), RetentionLimit);
    RetentionOfListing(baseDir, files, listed);
  }

  /** Pruning with a listing of a catalogue of more than ten snapshots
      deletes the files listed after the tenth. */
  lemma PruneListing(baseDir: Path, files: Files, listed: seq<Summary>)
    requires Catalogue(baseDir, files) && ListedFrom(baseDir, files, listed)
    requires multiset(FileNames(listed)) == multiset(JsonNames(baseDir, files))
    requires |JsonNames(baseDir, files)| > RetentionLimit
    ensures |listed| > RetentionLimit
    ensures Prune(baseDir, files, Ok(listed)) == (None, files - NameKeys(baseDir, NamesOf(FileNames(listed)[RetentionLimit..])))
  {
    assert |listed| > RetentionLimit by {
      SplitEnumeration(JsonNames(baseDir, files), FileNames(listed), RetentionLimit);
    }
    ListedNames(baseDir, files, listed);
    RetainedLarge(baseDir, files, listed);
  }

  /** Deleting the files listed after the tenth in the listing `listed` of
      a catalogue prunes it. */
  lemma RetentionOfListing(baseDir: Path, files: Files, listed: seq<Summary>)
    requires Catalogue(baseDir, files) && ListedFrom(baseDir, files, listed)
    requires |listed| > RetentionLimit && |JsonNames(baseDir, files)| > RetentionLimit
    requires var fs := FileNames(listed);
      && NamesOf(fs[RetentionLimit..]) <= JsonNames(baseDir, files)
      && JsonNames(baseDir, files) - NamesOf(fs[RetentionLimit..]) == NamesOf(fs[..RetentionLimit])
      && |NamesOf(fs[..RetentionLimit])| == RetentionLimit
    ensures var after := files - NameKeys(baseDir, NamesOf(FileNames(listed)[RetentionLimit..]));
      Pruned(baseDir, files, after)
  {
    var names := JsonNames(baseDir, files);
    var fs := FileNames(listed);
    var gone := NamesOf(fs[RetentionLimit..]);
    var after := files - NameKeys(baseDir, gone);
    assert JsonNames(baseDir, after) == names - gone by {
      JsonNamesWithout(baseDir, files, gone);
    }
    assert Catalogue(baseDir, after) by {
      CatalogueShrinks(baseDir, files, after);
    }
    assert forall kept, gone' ::
      kept in names - gone && gone' in gone ==>
        Times(baseDir, files)[kept] >= Times(baseDir, files)[gone'] by {
      TakeBackDifference(names, gone);
      KeptAreNewest(listed, Times(baseDir, files), names, names - gone);
    }
    PrunedBy(baseDir, files, gone);
  }

  /** Deleting the files of the snapshots `gone` from a catalogue of more
      than ten snapshots prunes it, when it leaves ten snapshots, the
      remainder is a catalogue, and no snapshot deleted is newer than one
      kept. */
  lemma PrunedBy(baseDir: Path, files: Files, gone: set<string>)
    requires Catalogue(baseDir, files)
    requires var after := files - NameKeys(baseDir, gone);
      && Catalogue(baseDir, after)
      && gone <= JsonNames(baseDir, files)
      && JsonNames(baseDir, after) == JsonNames(baseDir, files) - gone
    requires |JsonNames(baseDir, files)| > RetentionLimit && |JsonNames(baseDir, files) - gone| == RetentionLimit
    requires forall kept, gone' :: kept in JsonNames(baseDir, files) - gone && gone' in gone ==>
      Times(baseDir, files)[kept] >= Times(baseDir, files)[gone']
    ensures Pruned(baseDir, files, files - NameKeys(baseDir, gone))
  {
    TakeBackDifference(JsonNames(baseDir, files), gone);
  }

  /** The names among the first ten of a listing sorted newest first are
      at least as new as the other names. */
  lemma KeptAreNewest(listed: seq<Summary>, times: map<string, int>, names: set<string>, kept: set<string>)
    requires Timed(listed) && NewestFirst(listed) && RetentionLimit <= |listed|
    requires forall i :: 0 <= i < |listed| ==>
      FileName(listed[i].id) in times && listed[i].createdAt == JInt(times[FileName(listed[i].id)])
    requires kept == NamesOf(FileNames(listed)[..RetentionLimit])
    requires names - kept == NamesOf(FileNames(listed)[RetentionLimit..])
    ensures forall k, g :: k in kept && g in names - kept ==> k in times && g in times && times[k] >= times[g]
  {
    ListedHeadIsNewest(listed, times);
  }

  /** `_enforce_retention()` on a catalogue never fails, and it leaves the
      ten newest snapshots, as `Pruned` describes. */
  lemma RetentionKeepsNewest(baseDir: Path, files: Files)
    requires Catalogue(baseDir, files)
    ensures Retained(baseDir, files).0.None?
    ensures Pruned(baseDir, files, Retained(baseDir, files).1)
  {
    if |JsonNames(baseDir, files)| <= RetentionLimit {
      RetentionSmall(baseDir, files);
    } else {
      RetentionLarge(baseDir, files);
    }
  }
}
