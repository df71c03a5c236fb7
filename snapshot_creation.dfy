/** What `create_snapshot` achieves on a snapshot directory the store keeps
    in order: the record lands in a fresh `<id>.json`, the directory stays in
    order, the returned summary describes the record, and the retention pass
    that follows keeps the ten newest snapshots, the new one among them when
    it is the newest. */
module Creation {
  import opened Wrappers
  import opened JsonValue
  import opened Text
  import opened Paths
  import opened Storage
  import opened SnapshotRecords
  import opened Snapshots
  import opened Retention

  /** The file name of a snapshot id is a `*.json` name whose stem is the
      id. */
  lemma FileNameStem(id: string)
    ensures IsSnapshotFile(FileName(id)) && Stem(FileName(id)) == id
  {
    assert FileName(id)[..|id|] == id;
  }

  /** A new record holds what a catalogue asks of the record of its id. */
  lemma NewRecordFor(id: string, createdAt: int, managers: seq<(string, seq<Json>)>, metadata: Json)
    ensures RecordFor(MakeRecord(id, createdAt, managers, metadata), id)
  {
    RecordHeader(id, createdAt, managers, metadata);
    RecordBody(id, createdAt, managers, metadata);
  }

  /** No stored file lies on the way to a file directly in the base
      directory: every stored file lies strictly below it. */
  lemma NothingAboveName(baseDir: Path, files: Files, n: string)
    requires Inside(baseDir, files)
    ensures !UnderFile(files, Key(baseDir, n))
  {
    forall a | a in files ensures !(a < Key(baseDir, n)) {
      assert baseDir.segments < a;
    }
  }

  /** Writing the record of a fresh id keeps the directory a catalogue: the
      write succeeds, adds exactly the new snapshot, and leaves the creation
      time of every other snapshot as it was. */
  lemma WrittenFresh(baseDir: Path, files: Files, id: string, record: Json)
    requires Catalogue(baseDir, files)
    requires IsName(FileName(id)) && ExistsIn(baseDir, files, FileName(id)) == Ok(false)
    requires RecordFor(record, id)
    ensures var written := Written(baseDir, files, FileName(id), record);
      && written.0.Ok?
      && written.1 == files[Key(baseDir, FileName(id)) := Parsed(record)]
      && Catalogue(baseDir, written.1)
      && FileName(id) !in JsonNames(baseDir, files)
      && JsonNames(baseDir, written.1) == JsonNames(baseDir, files) + {FileName(id)}
      && Time(baseDir, written.1, FileName(id)) == Get(record.fields, "created_at").value.i
      && forall n :: n in JsonNames(baseDir, files) ==> Time(baseDir, written.1, n) == Time(baseDir, files, n)
  {
    var k := Key(baseDir, FileName(id));
    ResolveName(baseDir, FileName(id));
    NothingAboveName(baseDir, files, FileName(id));
    var written := Written(baseDir, files, FileName(id), record).1;
    assert written == files[k := Parsed(record)];
    FileNameStem(id);
    NamesInAdd(baseDir, files.Keys, k);
    assert k[..|baseDir.segments|] == baseDir.segments && k[|baseDir.segments|] == FileName(id);
    assert written.Keys == files.Keys + {k};
    forall n | n in JsonNames(baseDir, written)
      ensures IsSnapshotFile(n) && Key(baseDir, n) in written && written[Key(baseDir, n)].Parsed?
        && RecordFor(written[Key(baseDir, n)].doc, Stem(n))
    {
      if n != FileName(id) {
        assert Key(baseDir, n) != k by {
          assert Key(baseDir, n)[|baseDir.segments|] == n;
        }
      }
    }
    forall n | n in JsonNames(baseDir, files)
      ensures Time(baseDir, written, n) == Time(baseDir, files, n)
    {
      assert Key(baseDir, n) != k by {
        assert Key(baseDir, n)[|baseDir.segments|] == n;
      }
    }
  }

  /** A snapshot a retention pass keeps is at least as new as every one it
      deletes. */
  lemma KeptNotOlder(baseDir: Path, files: Files, after: Files, kept: string, gone: string)
    requires Catalogue(baseDir, files) && Pruned(baseDir, files, after)
    requires kept in JsonNames(baseDir, after) && gone in JsonNames(baseDir, files) - JsonNames(baseDir, after)
    ensures kept in JsonNames(baseDir, files) && Time(baseDir, files, kept) >= Time(baseDir, files, gone)
  {
    assert Times(baseDir, files)[kept] >= Times(baseDir, files)[gone];
  }

  /** A snapshot strictly newer than every other one of a directory is
      among those a retention pass keeps. */
  lemma NewestKept(baseDir: Path, files: Files, after: Files, newest: string)
    requires Catalogue(baseDir, files) && Pruned(baseDir, files, after)
    requires newest in JsonNames(baseDir, files)
    requires forall n :: n in JsonNames(baseDir, files) && n != newest ==>
               Time(baseDir, files, n) < Time(baseDir, files, newest)
    ensures newest in JsonNames(baseDir, after)
    ensures Key(baseDir, newest) in after && after[Key(baseDir, newest)] == files[Key(baseDir, newest)]
  {
    var kept := JsonNames(baseDir, after);
    assert |JsonNames(baseDir, files)| > 0;
    assert |kept| > 0;
    var other :| other in kept;
    if newest !in kept {
      KeptNotOlder(baseDir, files, after, other, newest);
      assert false;
    }
    assert Key(baseDir, newest) !in NameKeys(baseDir, JsonNames(baseDir, files) - kept);
  }

  /** A record written under a fresh id, newer than every stored snapshot,
      survives the retention pass that follows and is read back. */
  lemma NewestSurvives(baseDir: Path, files: Files, id: string, record: Json)
    requires Catalogue(baseDir, files)
    requires IsName(FileName(id)) && ExistsIn(baseDir, files, FileName(id)) == Ok(false)
    requires RecordFor(record, id)
    requires forall n :: n in JsonNames(baseDir, files) ==>
               Time(baseDir, files, n) < Get(record.fields, "created_at").value.i
    ensures var written := Written(baseDir, files, FileName(id), record).1;
      Catalogue(baseDir, written) && Lookup(baseDir, Retained(baseDir, written).1, FileName(id)) == Ok(record)
  {
    WrittenFresh(baseDir, files, id, record);
    var written := Written(baseDir, files, FileName(id), record).1;
    RetentionKeepsNewest(baseDir, written);
    var after := Retained(baseDir, written).1;
    var newest := FileName(id);
    forall n | n in JsonNames(baseDir, written) && n != newest
      ensures Time(baseDir, written, n) < Time(baseDir, written, newest)
    {
      assert n in JsonNames(baseDir, files);
    }
    NewestKept(baseDir, written, after, newest);
    ResolveName(baseDir, newest);
    assert after[Key(baseDir, newest)] == Parsed(record);
  }

  /** The write of `create_snapshot` succeeds in any directory the store
      keeps: the fresh id's file does not exist and nothing lies on the way
      to it. */
  lemma FreshWrite(baseDir: Path, files: Files, draws: seq<(Clock, string)>, record: Json)
    requires baseDir.absolute && Canonical(baseDir) && Normal(baseDir.segments) && Inside(baseDir, files)
    requires FirstFresh(baseDir, files, draws, 0).Some?
    ensures var id := FreshId(baseDir, files, draws);
      && Key(baseDir, FileName(id)) !in files
      && Written(baseDir, files, FileName(id), record).0.Ok?
      && Written(baseDir, files, FileName(id), record).1 == files[Key(baseDir, FileName(id)) := Parsed(record)]
  {
    var id := FreshId(baseDir, files, draws);
    ResolveName(baseDir, FileName(id));
    NothingAboveName(baseDir, files, FileName(id));
  }

  /** A stored snapshot file that cannot be decoded makes `create_snapshot`
      fail after its write: the new record stays written and the retention
      pass deletes nothing. */
  lemma CreateOverGarbled(baseDir: Path, files: Files, packageMap: Json, metadata: Json,
                          draws: seq<(Clock, string)>, createdAt: int, n: string)
    requires baseDir.absolute && Canonical(baseDir) && Normal(baseDir.segments) && Inside(baseDir, files)
    requires FirstFresh(baseDir, files, draws, 0).Some?
    requires packageMap.JObj? && Sanitized(packageMap.fields).Ok?
    requires IsSnapshotFile(n) && Key(baseDir, n) in files && files[Key(baseDir, n)].Garbled?
    ensures var id := FreshId(baseDir, files, draws);
      var record := MakeRecord(id, createdAt, Sanitized(packageMap.fields).value, metadata);
      var created := Created(baseDir, files, packageMap, metadata, draws, createdAt);
      && created.0.Err?
      && created.1 == files[Key(baseDir, FileName(id)) := Parsed(record)]
  {
    var id := FreshId(baseDir, files, draws);
    var record := MakeRecord(id, createdAt, Sanitized(packageMap.fields).value, metadata);
    FreshWrite(baseDir, files, draws, record);
    var written := files[Key(baseDir, FileName(id)) := Parsed(record)];
    assert Inside(baseDir, written);
    assert Key(baseDir, n) in written && written[Key(baseDir, n)].Garbled?;
    GarbledSnapshot(baseDir, written, n);
    CreatedSteps(baseDir, files, packageMap, metadata, draws, createdAt);
  }

  /** Proof step: `Created` unfolded for a valid package map, naming the
      write and the retention pass so the lemmas above can reason about each. */
  lemma CreatedSteps(baseDir: Path, files: Files, packageMap: Json, metadata: Json,
                     draws: seq<(Clock, string)>, createdAt: int)
    requires baseDir.absolute && Canonical(baseDir) && FirstFresh(baseDir, files, draws, 0).Some?
    requires packageMap.JObj? && Sanitized(packageMap.fields).Ok?
    ensures var id := FreshId(baseDir, files, draws);
      var record := MakeRecord(id, createdAt, Sanitized(packageMap.fields).value, metadata);
      var written := Written(baseDir, files, FileName(id), record);
      var retained := Retained(baseDir, written.1);
      Created(baseDir, files, packageMap, metadata, draws, createdAt)
        == if written.0.Err? then (Err(written.0.error), files)
           else (if retained.0.Some? then Err(retained.0.value) else SummaryFromRecord(record), retained.1)
  {
  }

  /** `create_snapshot` on a catalogue with a valid package map. It stores
      the record in the file of the fresh id, which keeps the directory a
      catalogue, returns the summary of that record, and leaves what the
      retention pass over the written directory leaves. When the new
      snapshot is newer than every stored one, it survives the pass and
      `get_snapshot(id)` reads back the record. */
  lemma CreatedSnapshot(baseDir: Path, files: Files, packageMap: Json, metadata: Json,
                        draws: seq<(Clock, string)>, createdAt: int)
    requires Catalogue(baseDir, files) && FirstFresh(baseDir, files, draws, 0).Some?
    requires packageMap.JObj? && Sanitized(packageMap.fields).Ok?
    ensures var id := FreshId(baseDir, files, draws);
      var managers := Sanitized(packageMap.fields).value;
      var record := MakeRecord(id, createdAt, managers, metadata);
      var written := Written(baseDir, files, FileName(id), record);
      var created := Created(baseDir, files, packageMap, metadata, draws, createdAt);
      && written.0.Ok?
      && Catalogue(baseDir, written.1)
      && FileName(id) !in JsonNames(baseDir, files)
      && JsonNames(baseDir, written.1) == JsonNames(baseDir, files) + {FileName(id)}
      && created.0 == Ok(Summary(id, JInt(createdAt), Sort(Keys(managers)), JInt(PackageCount(managers))))
      && Pruned(baseDir, written.1, created.1)
      && ((forall n :: n in JsonNames(baseDir, files) ==> Time(baseDir, files, n) < createdAt)
          ==> Lookup(baseDir, created.1, FileName(id)) == Ok(record))
  {
    var id := FreshId(baseDir, files, draws);
    var managers := Sanitized(packageMap.fields).value;
    var record := MakeRecord(id, createdAt, managers, metadata);
    NewRecordFor(id, createdAt, managers, metadata);
    WrittenFresh(baseDir, files, id, record);
    var written := Written(baseDir, files, FileName(id), record).1;
    RetentionKeepsNewest(baseDir, written);
    var after := Retained(baseDir, written).1;
    CreatedSteps(baseDir, files, packageMap, metadata, draws, createdAt);
    assert Created(baseDir, files, packageMap, metadata, draws, createdAt) == (SummaryFromRecord(record), after);
    SummaryOfNewRecord(id, createdAt, managers, metadata);
    if forall n :: n in JsonNames(baseDir, files) ==> Time(baseDir, files, n) < createdAt {
      RecordHeader(id, createdAt, managers, metadata);
      NewestSurvives(baseDir, files, id, record);
    }
  }
}
