/** The in-memory sliding-window rate limiter of the API.

    Each client address has two lists of (clock reading, count) entries, one
    for the last minute and one for the last hour. A request is refused when
    either window is full, and otherwise recorded in both. The clock is a
    parameter in whole seconds, and the mutex around the store is not
    modelled (every call runs alone). A second limiter keeps one limiter per
    distinct pair of limits for the expensive paths, chosen by a `*`
    pattern. */
module RateLimit {
  import opened Wrappers
  import opened Text

  /** A recorded request: its clock reading and its count. */
  type Entry = (int, nat)

  const MinuteWindow: int := 60
  const HourWindow: int := 3600

  /** `_clean_old_entries`: the entries recorded less than `window` seconds
      before `now`, in their original order. */
  function CleanOldEntries(entries: seq<Entry>, now: int, window: int): (r: seq<Entry>)
    ensures |r| <= |entries|
    ensures forall i :: 0 <= i < |r| ==> now - r[i].0 < window
  {
    if entries == [] then []
    else (if now - entries[0].0 < window then [entries[0]] else [])
         + CleanOldEntries(entries[1..], now, window)
  }

  /** Cleaning keeps exactly the young entries. */
  lemma {:induction false} CleanKeepsYoung(entries: seq<Entry>, now: int, window: int)
    ensures forall e :: e in CleanOldEntries(entries, now, window) <==> e in entries && now - e.0 < window
  {
    if entries != [] {
      CleanKeepsYoung(entries[1..], now, window);
      assert entries == [entries[0]] + entries[1..];
    }
  }

  /** Cleaning works entry by entry: it keeps the order of what it keeps. */
  lemma {:induction false} CleanConcat(a: seq<Entry>, b: seq<Entry>, now: int, window: int)
    ensures CleanOldEntries(a + b, now, window)
         == CleanOldEntries(a, now, window) + CleanOldEntries(b, now, window)
  {
    if a != [] {
      assert (a + b)[1..] == a[1..] + b;
      CleanConcat(a[1..], b, now, window);
    } else {
      assert a + b == b;
    }
  }

  /** An entry that has expired stays expired: cleaning again later gives
      what cleaning once later gives. */
  lemma {:induction false} CleanLater(entries: seq<Entry>, now: int, later: int, window: int)
    requires now <= later
    ensures CleanOldEntries(CleanOldEntries(entries, now, window), later, window)
         == CleanOldEntries(entries, later, window)
  {
    if entries != [] {
      CleanLater(entries[1..], now, later, window);
      var head := if now - entries[0].0 < window then [entries[0]] else [];
      CleanConcat(head, CleanOldEntries(entries[1..], now, window), later, window);
    }
  }

  /** `sum(count for _, count in entries)`. */
  function Total(entries: seq<Entry>): nat {
    if entries == [] then 0 else entries[0].1 + Total(entries[1..])
  }

  lemma {:induction false} TotalConcat(a: seq<Entry>, b: seq<Entry>)
    ensures Total(a + b) == Total(a) + Total(b)
  {
    if a != [] {
      assert (a + b)[1..] == a[1..] + b;
      TotalConcat(a[1..], b);
    } else {
      assert a + b == b;
    }
  }

  /** Cleaning never raises the count of a window. */
  lemma {:induction false} CleanTotal(entries: seq<Entry>, now: int, window: int)
    ensures Total(CleanOldEntries(entries, now, window)) <= Total(entries)
  {
    if entries != [] {
      CleanTotal(entries[1..], now, window);
      var head := if now - entries[0].0 < window then [entries[0]] else [];
      TotalConcat(head, CleanOldEntries(entries[1..], now, window));
    }
  }

  /** The request history of one client. */
  datatype History = History(minute: seq<Entry>, hour: seq<Entry>)

  /** The history a client without one gets from the `defaultdict`. */
  function HistoryOf(storage: map<string, History>, clientIp: string): History {
    if clientIp in storage then storage[clientIp] else History([], [])
  }

  datatype LimitType = Minute | Hour

  /** The answer of `is_allowed`: the flag and its info dict. */
  datatype Decision =
    | Allowed(remainingMinute: int, remainingHour: int, resetAtMinute: int, resetAtHour: int)
    | Denied(remaining: int, resetAt: int, limit: int, limitType: LimitType)

  /** What `is_allowed` answers at `now` for a client whose history is `h`,
      with the history it leaves behind. Both windows are cleaned first; the
      minute limit is checked before the hour limit; a refused request is not
      recorded, and an allowed one is recorded once in each window. */
  function Check(h: History, now: int, perMinute: int, perHour: int): (r: (Decision, History))
    ensures var minute := CleanOldEntries(h.minute, now, MinuteWindow);
            var hour := CleanOldEntries(h.hour, now, HourWindow);
            && (r.0.Allowed? <==> Total(minute) < perMinute && Total(hour) < perHour)
            && (Total(minute) >= perMinute ==> r.0 == Denied(0, now + 60, perMinute, Minute))
            && ((Total(minute) < perMinute && Total(hour) >= perHour)
                  ==> r.0 == Denied(0, now + 3600, perHour, Hour))
            && (r.0.Denied? ==> r.1 == History(minute, hour))
            && (r.0.Allowed? ==> r.1 == History(minute + [(now, 1)], hour + [(now, 1)])
                                 && r.0.remainingMinute == perMinute - Total(minute) - 1 >= 0
                                 && r.0.remainingHour == perHour - Total(hour) - 1 >= 0
                                 && r.0.resetAtMinute == now + 60
                                 && r.0.resetAtHour == now + 3600)
  {
    var minute := CleanOldEntries(h.minute, now, MinuteWindow);
    var hour := CleanOldEntries(h.hour, now, HourWindow);
    var minuteCount := Total(minute);
    var hourCount := Total(hour);
    if minuteCount >= perMinute then
      (Denied(0, now + 60, perMinute, Minute), History(minute, hour))
    else if hourCount >= perHour then
      (Denied(0, now + 3600, perHour, Hour), History(minute, hour))
    else
      (Allowed(perMinute - minuteCount - 1, perHour - hourCount - 1, now + 60, now + 3600),
       History(minute + [(now, 1)], hour + [(now, 1)]))
  }

  /** The most entries a window may hold: its limit, or none when the limit
      is not positive. */
  function Cap(limit: int): nat {
    if limit < 0 then 0 else limit
  }

  /** Neither window of `h` holds more requests than its limit allows. */
  predicate Bounded(h: History, perMinute: int, perHour: int) {
    Total(h.minute) <= Cap(perMinute) && Total(h.hour) <= Cap(perHour)
  }

  /** `is_allowed` keeps every client within its limits. */
  lemma CheckKeepsBound(h: History, now: int, perMinute: int, perHour: int)
    requires Bounded(h, perMinute, perHour)
    ensures Bounded(Check(h, now, perMinute, perHour).1, perMinute, perHour)
  {
    var minute := CleanOldEntries(h.minute, now, MinuteWindow);
    var hour := CleanOldEntries(h.hour, now, HourWindow);
    CleanTotal(h.minute, now, MinuteWindow);
    CleanTotal(h.hour, now, HourWindow);
    TotalConcat(minute, [(now, 1)]);
    TotalConcat(hour, [(now, 1)]);
  }

  /** The requests of a bounded window still alive at any clock reading are
      within the limit. */
  lemma LiveWithinLimit(h: History, perMinute: int, perHour: int, now: int)
    requires Bounded(h, perMinute, perHour)
    ensures Total(CleanOldEntries(h.minute, now, MinuteWindow)) <= Cap(perMinute)
    ensures Total(CleanOldEntries(h.hour, now, HourWindow)) <= Cap(perHour)
  {
    CleanTotal(h.minute, now, MinuteWindow);
    CleanTotal(h.hour, now, HourWindow);
  }

  /** `RateLimiter`: the limits and the history of every client seen. */
  class RateLimiter {
    const perMinute: int
    const perHour: int
    var storage: map<string, History>

    /** Every client is within the limits. */
    predicate Valid()
      reads this
    {
      forall ip :: ip in storage ==> Bounded(storage[ip], perMinute, perHour)
    }

    constructor (perMinute: int, perHour: int)
      ensures this.perMinute == perMinute && this.perHour == perHour
      ensures storage == map[]
      ensures Valid()
    {
      this.perMinute := perMinute;
      this.perHour := perHour;
      storage := map[];
    }

    /** `is_allowed(client_ip, path)` at clock reading `now`. The path only
        goes to the log. */
    method IsAllowed(clientIp: string, path: string, now: int) returns (allowed: bool, info: Decision)
      requires Valid()
      modifies this
      ensures Valid()
      ensures info == Check(HistoryOf(old(storage), clientIp), now, perMinute, perHour).0
      ensures allowed == info.Allowed?
      ensures storage == old(storage)[clientIp := Check(HistoryOf(old(storage), clientIp), now, perMinute, perHour).1]
    {
      var clientData := if clientIp in storage then storage[clientIp] else History([], []);
      CheckKeepsBound(clientData, now, perMinute, perHour);
      var minute := CleanOldEntries(clientData.minute, now, MinuteWindow);
      var hour := CleanOldEntries(clientData.hour, now, HourWindow);
      storage := storage[clientIp := History(minute, hour)];
      var minuteCount := Total(minute);
      var hourCount := Total(hour);
      if minuteCount >= perMinute {
        return false, Denied(0, now + 60, perMinute, Minute);
      }
      if hourCount >= perHour {
        return false, Denied(0, now + 3600, perHour, Hour);
      }
      storage := storage[clientIp := History(minute + [(now, 1)], hour + [(now, 1)])];
      return true, Allowed(perMinute - minuteCount - 1, perHour - hourCount - 1, now + 60, now + 3600);
    }
  }

  /** A request as far as `get_client_ip` looks at it: its headers, with
      their names in lower case as the server delivers them, and the address
      of the connected peer, if any. */
  datatype Request = Request(headers: seq<(string, string)>, client: Option<string>)

  /** `request.headers.get(name)`: the value of the first header so named. */
  function Header(headers: seq<(string, string)>, name: string): Option<string> {
    if headers == [] then None
    else if headers[0].0 == name then Some(headers[0].1)
    else Header(headers[1..], name)
  }

  /** `ip` is `field` with the whitespace at both of its ends removed, `ip`
      starting at index `a` of `field`. */
  predicate TrimmedAt(field: string, ip: string, a: int) {
    && 0 <= a <= |field| - |ip|
    && (ip == [] || (!IsSpace(ip[0]) && !IsSpace(ip[|ip| - 1])))
    && ip == field[a..a + |ip|]
    && forall i :: 0 <= i < |field| && !(a <= i < a + |ip|) ==> IsSpace(field[i])
  }

  /** `ip` is `field` with the whitespace at both of its ends removed. */
  ghost predicate Trimmed(field: string, ip: string) {
    exists a :: TrimmedAt(field, ip, a)
  }

  /** `str.strip` trims. */
  lemma StripTrims(field: string)
    ensures Trimmed(field, Strip(field))
  {
    assert TrimmedAt(field, Strip(field), LeadingSpaces(field));
  }

  /** `get_client_ip`: the first address of a non-empty X-Forwarded-For,
      trimmed; else a non-empty X-Real-IP; else the peer address; else
      "unknown". */
  function GetClientIp(request: Request): (ip: string)
    ensures var fwd := Header(request.headers, "x-forwarded-for").GetOr("");
            var realIp := Header(request.headers, "x-real-ip").GetOr("");
            && (fwd != "" ==> ',' !in ip && Trimmed(Before(fwd, ','), ip))
            && (fwd == "" && realIp != "" ==> ip == realIp)
            && (fwd == "" && realIp == "" && request.client.Some? ==> ip == request.client.value)
            && (fwd == "" && realIp == "" && request.client.None? ==> ip == "unknown")
  {
    var fwd := Header(request.headers, "x-forwarded-for").GetOr("");
    var realIp := Header(request.headers, "x-real-ip").GetOr("");
    if fwd != "" then
      StripTrims(Before(fwd, ','));
      Strip(Before(fwd, ','))
    else if realIp != "" then realIp
    else if request.client.Some? then request.client.value
    else "unknown"
  }

  /** `_matches_pattern`: the whole of `path` matches `pattern`, where each
      `*` stands for `[^/]+` and every other character for itself. The final
      `$` of the anchored regular expression also matches before a newline
      that ends `path`. */
  function MatchesPattern(path: string, pattern: string): bool
    decreases |pattern|, |path| + 1
  {
    if pattern == [] then path == [] || path == "\n"
    else if pattern[0] == '*' then StarRun(path, 1, pattern[1..])
    else path != [] && path[0] == pattern[0] && MatchesPattern(path[1..], pattern[1..])
  }

  /** `[^/]+` followed by `rest` matches `path` with the run at least `k`
      characters long. */
  function StarRun(path: string, k: nat, rest: string): bool
    requires k >= 1
    decreases |rest| + 1, |path| - k + 1
  {
    k <= |path| && path[k - 1] != '/'
    && (MatchesPattern(path[k..], rest) || StarRun(path, k + 1, rest))
  }

  /** The number of `*` in a pattern. */
  function Stars(pattern: string): nat {
    if pattern == [] then 0 else (if pattern[0] == '*' then 1 else 0) + Stars(pattern[1..])
  }

  /** `pattern` with its `*`s replaced, in order, by `fills`. */
  function Instantiate(pattern: string, fills: seq<string>): string
    requires |fills| == Stars(pattern)
  {
    if pattern == [] then []
    else if pattern[0] == '*' then fills[0] + Instantiate(pattern[1..], fills[1..])
    else [pattern[0]] + Instantiate(pattern[1..], fills)
  }

  /** What a `*` may stand for: a non-empty run without '/'. */
  predicate Segment(s: string) {
    s != [] && '/' !in s
  }

  predicate Fits(path: string, pattern: string, fills: seq<string>) {
    && |fills| == Stars(pattern)
    && (forall i :: 0 <= i < |fills| ==> Segment(fills[i]))
    && (path == Instantiate(pattern, fills) || path == Instantiate(pattern, fills) + "\n")
  }

  /** Every instance of a pattern matches it, with or without a final newline. */
  lemma {:induction false} InstanceMatches(pattern: string, fills: seq<string>, tail: string)
    requires |fills| == Stars(pattern) && forall i :: 0 <= i < |fills| ==> Segment(fills[i])
    requires tail == [] || tail == "\n"
    ensures MatchesPattern(Instantiate(pattern, fills) + tail, pattern)
    decreases |pattern|
  {
    if pattern == [] {
      assert Instantiate(pattern, fills) + tail == tail;
    } else if pattern[0] == '*' {
      var rest := Instantiate(pattern[1..], fills[1..]);
      assert forall i :: 0 <= i < |fills[1..]| ==> Segment(fills[1..][i]) by {
        forall i | 0 <= i < |fills[1..]| ensures Segment(fills[1..][i]) {
          assert fills[1..][i] == fills[i + 1];
        }
      }
      InstanceMatches(pattern[1..], fills[1..], tail);
      var path := fills[0] + rest + tail;
      assert Instantiate(pattern, fills) + tail == path;
      assert path[|fills[0]|..] == rest + tail;
      assert path[..|fills[0]|] == fills[0];
      StarRunReaches(path, 1, |fills[0]|, pattern[1..]);
    } else {
      InstanceMatches(pattern[1..], fills, tail);
      var path := Instantiate(pattern, fills) + tail;
      assert path == [pattern[0]] + (Instantiate(pattern[1..], fills) + tail);
      assert path[1..] == Instantiate(pattern[1..], fills) + tail;
    }
  }

  /** A run of `path` without '/' that ends where `rest` matches makes the
      star match, from every shorter start. */
  lemma {:induction false} StarRunReaches(path: string, k: nat, end: nat, rest: string)
    requires 1 <= k <= end <= |path|
    requires '/' !in path[..end]
    requires MatchesPattern(path[end..], rest)
    ensures StarRun(path, k, rest)
    decreases end - k
  {
    assert path[k - 1] == path[..end][k - 1];
    if k < end {
      StarRunReaches(path, k + 1, end, rest);
    }
  }

  /** Every path that matches a pattern is one of its instances. */
  lemma {:induction false} MatchIsInstance(path: string, pattern: string)
    requires MatchesPattern(path, pattern)
    ensures exists fills :: Fits(path, pattern, fills)
    decreases |pattern|
  {
    if pattern == [] {
      assert Fits(path, pattern, []);
    } else if pattern[0] == '*' {
      var end := StarRunEnd(path, 1, pattern[1..]);
      MatchIsInstance(path[end..], pattern[1..]);
      var fills :| Fits(path[end..], pattern[1..], fills);
      var all := [path[..end]] + fills;
      assert all[1..] == fills;
      assert path == path[..end] + path[end..];
      assert Fits(path, pattern, all);
    } else {
      MatchIsInstance(path[1..], pattern[1..]);
      var fills :| Fits(path[1..], pattern[1..], fills);
      assert path == [path[0]] + path[1..];
      assert Fits(path, pattern, fills);
    }
  }

  /** Where a matching star run ends. */
  lemma {:induction false} StarRunEnd(path: string, k: nat, rest: string) returns (end: nat)
    requires k >= 1 && StarRun(path, k, rest)
    requires forall i :: 0 <= i < k - 1 ==> path[i] != '/'
    ensures k <= end <= |path|
    ensures Segment(path[..end])
    ensures MatchesPattern(path[end..], rest)
    decreases |path| - k
  {
    if MatchesPattern(path[k..], rest) {
      end := k;
    } else {
      end := StarRunEnd(path, k + 1, rest);
    }
    assert '/' !in path[..end] by {
      forall i | 0 <= i < end ensures path[..end][i] != '/' {
        if i >= k - 1 && end > k {
          assert path[i] != '/';
        }
      }
    }
  }

  /** `_matches_pattern` holds exactly for the instances of the pattern in
      which every `*` is a non-empty run without '/'. */
  lemma MatchesExactlyInstances(path: string, pattern: string)
    ensures MatchesPattern(path, pattern) <==> exists fills :: Fits(path, pattern, fills)
  {
    if MatchesPattern(path, pattern) {
      MatchIsInstance(path, pattern);
    }
    if exists fills :: Fits(path, pattern, fills) {
      var fills :| Fits(path, pattern, fills);
      if path == Instantiate(pattern, fills) {
        InstanceMatches(pattern, fills, []);
        assert path + [] == path;
      } else {
        InstanceMatches(pattern, fills, "\n");
      }
    }
  }

  /** A pattern without `*` matches only itself, and itself followed by a
      newline. */
  lemma {:induction false} LiteralPattern(path: string, pattern: string)
    requires forall i :: 0 <= i < |pattern| ==> pattern[i] != '*'
    ensures MatchesPattern(path, pattern) <==> path == pattern || path == pattern + "\n"
    decreases |pattern|
  {
    if pattern != [] && path != [] {
      LiteralPattern(path[1..], pattern[1..]);
      assert path == [path[0]] + path[1..];
      assert pattern + "\n" == [pattern[0]] + (pattern[1..] + "\n");
    }
  }

  /** The path-specific limits, in declaration order:
      (pattern, (per minute, per hour)). */
  const PathLimits: seq<(string, (int, int))> := [
    ("/api/advanced/*/vulnerabilities", (10, 100)),
    ("/api/advanced/*/dependency-tree", (10, 100)),
    ("/api/advanced/*/batch-uninstall", (5, 50)),
    ("/api/advanced/*/rollback/*", (5, 50)),
    ("/api/streaming/*/*/uninstall", (20, 200)),
    ("/api/discover", (30, 300)),
    ("/api/managers", (60, 1000))
  ]

  /** The index of the first pattern from `i` on that `path` matches. */
  function FirstMatch(limits: seq<(string, (int, int))>, path: string, i: nat): (r: Option<nat>)
    requires i <= |limits|
    ensures r.Some? ==> i <= r.value < |limits|
    decreases |limits| - i
  {
    if i == |limits| then None
    else if MatchesPattern(path, limits[i].0) then Some(i)
    else FirstMatch(limits, path, i + 1)
  }

  /** `FirstMatch` finds a matching pattern with no match before it, or
      reports that none matches. */
  lemma {:induction false} FirstMatchIsFirst(limits: seq<(string, (int, int))>, path: string, i: nat)
    requires i <= |limits|
    ensures FirstMatch(limits, path, i).Some? ==>
              MatchesPattern(path, limits[FirstMatch(limits, path, i).value].0)
    ensures forall j :: i <= j < |limits| && (FirstMatch(limits, path, i).None? || j < FirstMatch(limits, path, i).value)
              ==> !MatchesPattern(path, limits[j].0)
    decreases |limits| - i
  {
    if i < |limits| && !MatchesPattern(path, limits[i].0) {
      FirstMatchIsFirst(limits, path, i + 1);
    }
  }

  /** `PathRateLimiter`: the path limits and one cached limiter per pair of
      limits (the `f"{per_min}_{per_hour}"` key of the source, which is one
      string per pair). */
  class PathRateLimiter {
    const pathLimits: seq<(string, (int, int))>
    var limiters: map<(int, int), RateLimiter>

    /** Each cached limiter has the limits of its key. */
    predicate Valid()
      reads this
    {
      forall key :: key in limiters ==> limiters[key].perMinute == key.0 && limiters[key].perHour == key.1
    }

    constructor ()
      ensures pathLimits == PathLimits && limiters == map[]
      ensures Valid()
    {
      pathLimits := PathLimits;
      limiters := map[];
    }

    /** `get_limiter_for_path`: the limiter for the limits of the first
        pattern `path` matches, made on first use and shared by all patterns
        with the same limits; None when no pattern matches. */
    method GetLimiterForPath(path: string) returns (r: Option<RateLimiter>)
      requires Valid()
      modifies this
      ensures Valid()
      ensures r.None? <==> FirstMatch(pathLimits, path, 0).None?
      ensures r.None? ==> limiters == old(limiters)
      ensures r.Some? ==>
                var key := pathLimits[FirstMatch(pathLimits, path, 0).value].1;
                && r.value.perMinute == key.0 && r.value.perHour == key.1
                && key in limiters && limiters[key] == r.value
                && (key in old(limiters) ==> r.value == old(limiters)[key] && limiters == old(limiters))
                && (key !in old(limiters) ==> fresh(r.value) && r.value.storage == map[]
                                              && limiters == old(limiters)[key := r.value])
    {
      var i := 0;
      while i < |pathLimits|
        invariant 0 <= i <= |pathLimits|
        invariant FirstMatch(pathLimits, path, 0) == FirstMatch(pathLimits, path, i)
        invariant limiters == old(limiters)
      {
        var (pattern, limits) := pathLimits[i];
        if MatchesPattern(path, pattern) {
          var key := limits;
          if key !in limiters {
            var limiter := new RateLimiter(limits.0, limits.1);
            limiters := limiters[key := limiter];
          }
          return Some(limiters[key]);
        }
        i := i + 1;
      }
      return None;
    }
  }
}
