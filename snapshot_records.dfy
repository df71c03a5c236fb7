/** The values the snapshot store works with: the summary of a snapshot,
    the record written for it, its package count, the snapshot id format
    and the newest-first order of a listing.

    A `created_at` value is written as `JInt(t)`: it stands for the ISO 8601
    UTC text that parses back to second `t`. A `JStr` stands for text that
    does not parse; any other value is not text at all. */
module SnapshotRecords {
  import opened Wrappers
  import opened JsonValue
  import opened Text
  import opened Paths
  import opened Validation

  /** `SnapshotManager.RETENTION_LIMIT`. */
  const RetentionLimit: nat := 10

  /** `SnapshotSummary`. */
  datatype Summary = Summary(id: string, createdAt: Json, managers: seq<string>, packageCount: Json)

  /** The file a snapshot id is stored in. */
  function FileName(id: string): string {
    id + ".json"
  }

  /** `list(packages or [])`: a falsy value gives the empty list; a list is
      copied; iterating a dict gives its keys and a string its characters;
      a number or `True` cannot be iterated. */
  function ListOf(j: Json): (r: Result<seq<Json>>)
    ensures Falsy(j) ==> r == Ok([])
    ensures j.JArr? ==> r == Ok(j.items)
    ensures j.JObj? && !Falsy(j) ==> r.Ok? && |r.value| == |j.fields| && forall i :: 0 <= i < |j.fields| ==> r.value[i] == JStr(j.fields[i].0)
    ensures j.JStr? && !Falsy(j) ==> r.Ok? && |r.value| == |j.s| && forall i :: 0 <= i < |j.s| ==> r.value[i] == JStr([j.s[i]])
    ensures r.Err? <==> (j.JInt? || j.JBool?) && !Falsy(j)
  {
    if Falsy(j) then Ok([])
    else match j
      case JArr(items) => Ok(items)
      case JObj(fields) => Ok(KeyStrings(fields))
      case JStr(s) => Ok(CharStrings(s))
      case JInt(_) => Err(TypeError("'int' object is not iterable"))
      case JBool(_) => Err(TypeError("'bool' object is not iterable"))
      case JNull => Ok([])
  }

  function KeyStrings(fields: seq<(string, Json)>): (r: seq<Json>)
    ensures |r| == |fields| && forall i :: 0 <= i < |fields| ==> r[i] == JStr(fields[i].0)
  {
    if fields == [] then [] else [JStr(fields[0].0)] + KeyStrings(fields[1..])
  }

  function CharStrings(s: string): (r: seq<Json>)
    ensures |r| == |s| && forall i :: 0 <= i < |s| ==> r[i] == JStr([s[i]])
  {
    if s == [] then [] else [JStr([s[0]])] + CharStrings(s[1..])
  }

  /** The error one `(manager_id, packages)` item of the loop in
      `create_snapshot` raises, if any: the id is checked first. */
  function ItemError(item: (string, Json)): Option<Error> {
    var id := SanitizeManagerId(item.0);
    if id.Err? then Some(id.error)
    else if ListOf(item.1).Err? then Some(ListOf(item.1).error)
    else None
  }

  /** The `sanitized` dict `create_snapshot` builds from the package map:
      every manager id checked and kept as it is, every package collection
      turned into a list. The first bad item stops it. */
  function Sanitized(fields: seq<(string, Json)>): (r: Result<seq<(string, seq<Json>)>>)
    ensures r.Ok? <==> forall i :: 0 <= i < |fields| ==> ItemError(fields[i]).None?
    ensures r.Ok? ==> |r.value| == |fields|
    ensures r.Ok? ==> forall i :: 0 <= i < |fields| ==> r.value[i] == (fields[i].0, ListOf(fields[i].1).value)
    ensures r.Err? ==> exists i :: 0 <= i < |fields| && ItemError(fields[i]) == Some(r.error)
                                   && forall j :: 0 <= j < i ==> ItemError(fields[j]).None?
  {
    if fields == [] then Ok([])
    else
      var e := ItemError(fields[0]);
      if e.Some? then Err(e.value)
      else
        var rest := Sanitized(fields[1..]);
        if rest.Err? then
          FirstErrorShift(fields, rest.error);
          Err(rest.error)
        else
          SanitizedShift(fields, rest.value);
          Ok([(fields[0].0, ListOf(fields[0].1).value)] + rest.value)
  }

  /** The first bad item after a good first item is the first bad item of
      the whole list. */
  lemma FirstErrorShift(fields: seq<(string, Json)>, e: Error)
    requires fields != [] && ItemError(fields[0]).None?
    requires exists k :: 0 <= k < |fields[1..]| && ItemError(fields[1..][k]) == Some(e)
                         && forall j :: 0 <= j < k ==> ItemError(fields[1..][j]).None?
    ensures !forall i :: 0 <= i < |fields| ==> ItemError(fields[i]).None?
    ensures exists i :: 0 <= i < |fields| && ItemError(fields[i]) == Some(e)
                        && forall j :: 0 <= j < i ==> ItemError(fields[j]).None?
  {
    var k :| 0 <= k < |fields[1..]| && ItemError(fields[1..][k]) == Some(e)
             && forall j :: 0 <= j < k ==> ItemError(fields[1..][j]).None?;
    assert fields[k + 1] == fields[1..][k];
    forall j | 0 <= j < k + 1 ensures ItemError(fields[j]).None? {
      if j > 0 { assert fields[j] == fields[1..][j - 1]; }
    }
  }

  /** Sanitising a good first item in front of the sanitised rest. */
  lemma SanitizedShift(fields: seq<(string, Json)>, rest: seq<(string, seq<Json>)>)
    requires fields != [] && ItemError(fields[0]).None?
    requires |rest| == |fields| - 1
    requires forall i :: 0 <= i < |fields[1..]| ==>
      ItemError(fields[1..][i]).None? && rest[i] == (fields[1..][i].0, ListOf(fields[1..][i].1).value)
    ensures forall i :: 0 <= i < |fields| ==>
      ItemError(fields[i]).None?
      && ([(fields[0].0, ListOf(fields[0].1).value)] + rest)[i] == (fields[i].0, ListOf(fields[i].1).value)
  {
    forall i | 0 < i < |fields| ensures ItemError(fields[i]).None? {
      assert fields[i] == fields[1..][i - 1];
    }
  }

  /** `sum(len(items) for items in sanitized.values())`. */
  function PackageCount(managers: seq<(string, seq<Json>)>): nat {
    if managers == [] then 0 else |managers[0].1| + PackageCount(managers[1..])
  }

  /** The count of two groups of managers is the sum of their counts. */
  lemma {:induction false} PackageCountAppend(a: seq<(string, seq<Json>)>, b: seq<(string, seq<Json>)>)
    ensures PackageCount(a + b) == PackageCount(a) + PackageCount(b)
  {
    if a != [] {
      assert (a + b)[0] == a[0];
      assert (a + b)[1..] == a[1..] + b;
      PackageCountAppend(a[1..], b);
    } else {
      assert a + b == b;
    }
  }

  /** The `managers` object of a record. */
  function ManagersObject(managers: seq<(string, seq<Json>)>): (r: seq<(string, Json)>)
    ensures |r| == |managers|
    ensures forall i :: 0 <= i < |managers| ==> r[i] == (managers[i].0, JArr(managers[i].1))
  {
    if managers == [] then [] else [(managers[0].0, JArr(managers[0].1))] + ManagersObject(managers[1..])
  }

  /** The record `create_snapshot` stores; `metadata or {}` falls back on an
      empty object. */
  function MakeRecord(id: string, createdAt: int, managers: seq<(string, seq<Json>)>, metadata: Json): (r: Json)
    ensures r.JObj? && |r.fields| == 5
  {
    JObj([("id", JStr(id)), ("created_at", JInt(createdAt)), ("package_count", JInt(PackageCount(managers))),
          ("managers", JObj(ManagersObject(managers))), ("metadata", if Falsy(metadata) then JObj([]) else metadata)])
  }

  /** The identity fields of a new record hold what `create_snapshot` put
      there. */
  lemma RecordHeader(id: string, createdAt: int, managers: seq<(string, seq<Json>)>, metadata: Json)
    ensures Get(MakeRecord(id, createdAt, managers, metadata).fields, "id") == Some(JStr(id))
    ensures Get(MakeRecord(id, createdAt, managers, metadata).fields, "created_at") == Some(JInt(createdAt))
    ensures Get(MakeRecord(id, createdAt, managers, metadata).fields, "package_count") == Some(JInt(PackageCount(managers)))
  {
    var r := MakeRecord(id, createdAt, managers, metadata).fields;
    GetAt(r, 0, "id");
    GetAt(r, 1, "created_at");
    GetAt(r, 2, "package_count");
  }

  /** The payload fields of a new record: the sanitised package lists and
      the metadata, an empty object when none was given. */
  lemma RecordBody(id: string, createdAt: int, managers: seq<(string, seq<Json>)>, metadata: Json)
    ensures Get(MakeRecord(id, createdAt, managers, metadata).fields, "managers") == Some(JObj(ManagersObject(managers)))
    ensures Get(MakeRecord(id, createdAt, managers, metadata).fields, "metadata")
         == Some(if Falsy(metadata) then JObj([]) else metadata)
  {
    var r := MakeRecord(id, createdAt, managers, metadata).fields;
    assert r[0].0[0] == 'i' && r[1].0[0] == 'c' && r[2].0[0] == 'p';
    assert r[3].0 == "managers" && r[3].0[1] == 'a' && "metadata"[1] == 'e';
    GetAt(r, 3, "managers");
    GetAt(r, 4, "metadata");
  }

  /** `_summary_from_record(record)`: `id` and `created_at` must be there;
      `managers` is the sorted list of the record's manager keys (none when
      absent) and `package_count` defaults to 0. */
  function SummaryFromRecord(record: Json): (r: Result<Summary>)
    ensures !record.JObj? ==> r.Err? && r.error.TypeError?
    ensures record.JObj? && Get(record.fields, "id").None? ==> r == Err(KeyError("id"))
    ensures r.Ok? ==> record.JObj? && Get(record.fields, "id") == Some(JStr(r.value.id))
    ensures r.Ok? ==> Get(record.fields, "created_at") == Some(r.value.createdAt)
    ensures r.Ok? ==> Sorted(r.value.managers)
    ensures r.Ok? && Get(record.fields, "managers").None? ==> r.value.managers == []
    ensures r.Ok? && Get(record.fields, "managers").Some? ==>
      && Get(record.fields, "managers").value.JObj?
      && multiset(r.value.managers) == multiset(Keys(Get(record.fields, "managers").value.fields))
    ensures r.Ok? ==> r.value.packageCount == Get(record.fields, "package_count").GetOr(JInt(0))
  {
    if !record.JObj? then Err(TypeError("record is not subscriptable by key"))
    else
      var fields := record.fields;
      match Get(fields, "id")
      case None => Err(KeyError("id"))
      case Some(id) =>
        if !id.JStr? then Err(TypeError("id is not a string"))
        else match Get(fields, "created_at")
        case None => Err(KeyError("created_at"))
        case Some(createdAt) =>
          var managers := Get(fields, "managers").GetOr(JObj([]));
          if !managers.JObj? then Err(AttributeError("keys"))
          else Ok(Summary(id.s, createdAt, Sort(Keys(managers.fields)), Get(fields, "package_count").GetOr(JInt(0))))
  }

  /** A record with all four fields a summary reads is summarised without
      error. */
  lemma SummaryOfCompleteRecord(fields: seq<(string, Json)>, id: string, createdAt: Json,
                                managers: seq<(string, Json)>, count: Json)
    requires Get(fields, "id") == Some(JStr(id)) && Get(fields, "created_at") == Some(createdAt)
    requires Get(fields, "managers") == Some(JObj(managers)) && Get(fields, "package_count") == Some(count)
    ensures SummaryFromRecord(JObj(fields)) == Ok(Summary(id, createdAt, Sort(Keys(managers)), count))
  {
  }

  /** The summary `create_snapshot` returns describes the record it wrote:
      its id and time, the sorted manager ids and the package count. */
  lemma SummaryOfNewRecord(id: string, createdAt: int, managers: seq<(string, seq<Json>)>, metadata: Json)
    ensures SummaryFromRecord(MakeRecord(id, createdAt, managers, metadata))
         == Ok(Summary(id, JInt(createdAt), Sort(Keys(managers)), JInt(PackageCount(managers))))
  {
    RecordHeader(id, createdAt, managers, metadata);
    RecordBody(id, createdAt, managers, metadata);
    SummaryOfCompleteRecord(MakeRecord(id, createdAt, managers, metadata).fields, id, JInt(createdAt),
                            ManagersObject(managers), JInt(PackageCount(managers)));
    assert Keys(ManagersObject(managers)) == Keys(managers);
  }

  // ---- snapshot ids ---------------------------------------------------------

  /** A UTC clock reading, as `datetime.now(timezone.utc)` gives it. */
  datatype Clock = Clock(year: int, month: int, day: int, hour: int, minute: int, second: int)

  predicate ValidClock(c: Clock) {
    && 1000 <= c.year <= 9999 && 1 <= c.month <= 12 && 1 <= c.day <= 31
    && 0 <= c.hour < 24 && 0 <= c.minute < 60 && 0 <= c.second < 60
  }

  function Pow10(n: nat): (p: nat)
    ensures p >= 1
  {
    if n == 0 then 1 else 10 * Pow10(n - 1)
  }

  predicate IsDigit(c: char) {
    '0' <= c <= '9'
  }

  /** `n` in decimal, zero-padded to `width` digits (the last `width`
      digits when `n` is wider). */
  function Digits(n: nat, width: nat): (r: string)
    ensures |r| == width
    ensures forall i :: 0 <= i < width ==> IsDigit(r[i])
  {
    if width == 0 then "" else Digits(n / 10, width - 1) + [('0' as int + n % 10) as char]
  }

  /** The number a string of decimal digits denotes. */
  function DecimalValue(s: string): nat
    requires forall i :: 0 <= i < |s| ==> IsDigit(s[i])
  {
    if s == [] then 0
    else
      var d := s[|s| - 1];
      assert IsDigit(d);
      10 * DecimalValue(s[..|s| - 1]) + (d as int - '0' as int)
  }

  /** Reading a zero-padded number back gives the number. */
  lemma {:induction false} DigitsRoundTrip(n: nat, width: nat)
    requires n < Pow10(width)
    ensures DecimalValue(Digits(n, width)) == n
  {
    if width > 0 {
      var d := Digits(n, width);
      assert d[..width - 1] == Digits(n / 10, width - 1);
      assert n / 10 < Pow10(width - 1);
      DigitsRoundTrip(n / 10, width - 1);
    }
  }

  /** `strftime('%Y%m%dT%H%M%S')`: the ISO 8601 basic format. */
  function BasicFormat(c: Clock): (r: string)
    requires ValidClock(c)
    ensures |r| == 15 && r[8] == 'T'
    ensures forall i :: 0 <= i < 15 && i != 8 ==> IsDigit(r[i])
  {
    Digits(c.year, 4) + Digits(c.month, 2) + Digits(c.day, 2) + "T"
    + Digits(c.hour, 2) + Digits(c.minute, 2) + Digits(c.second, 2)
  }

  /** Reading the clock back from an id's timestamp part. */
  function ClockOf(s: string): Clock
    requires |s| >= 15 && forall i :: 0 <= i < 15 && i != 8 ==> IsDigit(s[i])
  {
    Clock(DecimalValue(s[0..4]), DecimalValue(s[4..6]), DecimalValue(s[6..8]),
          DecimalValue(s[9..11]), DecimalValue(s[11..13]), DecimalValue(s[13..15]))
  }

  predicate IsHexDigit(c: char) {
    '0' <= c <= '9' || 'a' <= c <= 'f'
  }

  /** `uuid4().hex[:6]`: six lower-case hex digits. */
  predicate HexSuffix(s: string) {
    |s| == 6 && forall i :: 0 <= i < 6 ==> IsHexDigit(s[i])
  }

  /** One candidate of `_generate_snapshot_id`. */
  function Candidate(c: Clock, suffix: string): (id: string)
    requires ValidClock(c) && HexSuffix(suffix)
    ensures |id| == 22 && id[15] == '-' && id[16..] == suffix
    ensures '/' !in id
    ensures forall i :: 0 <= i < 15 && i != 8 ==> IsDigit(id[i])
  {
    BasicFormat(c) + "-" + suffix
  }

  /** The timestamp part of an id reads back as the clock it was made from. */
  lemma CandidateClock(c: Clock, suffix: string)
    requires ValidClock(c) && HexSuffix(suffix)
    ensures ClockOf(Candidate(c, suffix)) == c
  {
    var id := Candidate(c, suffix);
    assert id[0..4] == Digits(c.year, 4);
    assert id[4..6] == Digits(c.month, 2);
    assert id[6..8] == Digits(c.day, 2);
    assert id[9..11] == Digits(c.hour, 2);
    assert id[11..13] == Digits(c.minute, 2);
    assert id[13..15] == Digits(c.second, 2);
    DigitsRoundTrip(c.year, 4);
    DigitsRoundTrip(c.month, 2);
    DigitsRoundTrip(c.day, 2);
    DigitsRoundTrip(c.hour, 2);
    DigitsRoundTrip(c.minute, 2);
    DigitsRoundTrip(c.second, 2);
  }

  /** A candidate's file name is a plain name: it stays directly in the
      snapshot directory. */
  lemma CandidateFileIsName(c: Clock, suffix: string)
    requires ValidClock(c) && HexSuffix(suffix)
    ensures IsName(FileName(Candidate(c, suffix)))
    ensures Parse(FileName(Candidate(c, suffix))) == Path(false, [FileName(Candidate(c, suffix))])
  {
    var f := FileName(Candidate(c, suffix));
    assert '/' !in f by {
      assert forall i :: 22 <= i < |f| ==> f[i] == ".json"[i - 22];
    }
    assert |f| == 27;
    PartsOfSegment(f);
  }

  // ---- newest first ---------------------------------------------------------

  /** Every summary carries a parsed timestamp. */
  predicate Timed(xs: seq<Summary>) {
    forall i :: 0 <= i < |xs| ==> xs[i].createdAt.JInt?
  }

  /** Descending by `created_at`. */
  predicate NewestFirst(xs: seq<Summary>)
    requires Timed(xs)
  {
    forall i, j :: 0 <= i < j < |xs| ==> xs[i].createdAt.i >= xs[j].createdAt.i
  }

  /** `datetime.fromisoformat(created_at)` for every summary, in order: the
      first value that is not a timestamp raises. */
  function TimesError(xs: seq<Summary>): (r: Option<Error>)
    ensures r.None? <==> Timed(xs)
  {
    if xs == [] then None
    else match xs[0].createdAt
      case JInt(_) => TimesError(xs[1..])
      case JStr(_) => Some(ValueError("Invalid isoformat string"))
      case _ => Some(TypeError("fromisoformat: argument must be str"))
  }

  /** Puts `x` before the first summary that is not newer, so that among
      equal timestamps the earlier element stays first. */
  function InsertByTime(x: Summary, s: seq<Summary>): (r: seq<Summary>)
    requires x.createdAt.JInt? && Timed(s) && NewestFirst(s)
    ensures Timed(r) && NewestFirst(r)
    ensures multiset(r) == multiset(s) + multiset{x}
  {
    if s == [] then [x]
    else if x.createdAt.i >= s[0].createdAt.i then
      ConsNewest(x, s);
      [x] + s
    else
      var tail := InsertByTime(x, s[1..]);
      assert s == [s[0]] + s[1..];
      NotNewerThanHead(s[0], s[1..], x, tail);
      ConsNewest(s[0], tail);
      [s[0]] + tail
  }

  /** A summary no older than every summary of a newest-first list can go in
      front of it. */
  lemma ConsNewest(h: Summary, t: seq<Summary>)
    requires h.createdAt.JInt? && Timed(t) && NewestFirst(t)
    requires t != [] ==> h.createdAt.i >= t[0].createdAt.i
    ensures Timed([h] + t) && NewestFirst([h] + t)
  {
    var r := [h] + t;
    forall i, j | 0 <= i < j < |r| ensures r[i].createdAt.i >= r[j].createdAt.i {
      assert r[j] == t[j - 1];
      if i > 0 { assert r[i] == t[i - 1]; }
    }
  }

  /** What `h` bounds before an insertion it bounds after it. */
  lemma NotNewerThanHead(h: Summary, rest: seq<Summary>, x: Summary, tail: seq<Summary>)
    requires h.createdAt.JInt? && x.createdAt.JInt? && Timed(rest) && Timed(tail)
    requires forall k :: 0 <= k < |rest| ==> h.createdAt.i >= rest[k].createdAt.i
    requires h.createdAt.i >= x.createdAt.i
    requires multiset(tail) == multiset(rest) + multiset{x}
    ensures forall j :: 0 <= j < |tail| ==> h.createdAt.i >= tail[j].createdAt.i
  {
    forall j | 0 <= j < |tail| ensures h.createdAt.i >= tail[j].createdAt.i {
      assert tail[j] in multiset(tail);
      if tail[j] != x {
        assert tail[j] in multiset(rest);
        var k :| 0 <= k < |rest| && rest[k] == tail[j];
      }
    }
  }

  /** `summaries.sort(key=created_at, reverse=True)`: a stable sort, newest
      first. */
  function SortNewestFirst(xs: seq<Summary>): (r: seq<Summary>)
    requires Timed(xs)
    ensures Timed(r) && NewestFirst(r)
    ensures multiset(r) == multiset(xs)
  {
    if xs == [] then []
    else
      assert xs == [xs[0]] + xs[1..];
      InsertByTime(xs[0], SortNewestFirst(xs[1..]))
  }
}
