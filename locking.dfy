/** The file lock that serialises mutating operations. The state is the one
    lock file: absent, unreadable, or a JSON object with the fields
    `operation`, `pid`, `timestamp` and `hostname`.

    The clock (in whole seconds) and the calling process's pid and host name
    are parameters of each call. A timestamp is written as `JInt(t)`: it
    stands for the ISO 8601 text that parses back to second `t`; any other
    value stands for text that does not parse. */
module Locking {
  import opened Wrappers
  import opened JsonValue

  /** `LockManager.TIMEOUT`: a lock older than this many seconds is stale. */
  const Timeout := 30

  datatype LockFile =
    | Absent
    | Unreadable                              // not valid JSON, or cannot be opened
    | Written(fields: seq<(string, Json)>)    // a JSON object

  /** `is_locked()`: the lock file exists. */
  predicate Locked(f: LockFile) {
    !f.Absent?
  }

  /** `get_lock_info()`: the record, or nothing when there is no lock file or
      it cannot be read. */
  function Info(f: LockFile): (r: Option<seq<(string, Json)>>)
    ensures r.Some? <==> f.Written?
    ensures f.Written? ==> r == Some(f.fields)
    ensures !Locked(f) ==> r == None
  {
    if f.Written? then Some(f.fields) else None
  }

  /** `is_stale()` at clock reading `now`. */
  predicate Stale(f: LockFile, now: int) {
    match f
    case Absent => false
    case Unreadable => true
    case Written(fields) =>
      fields == []
      || match Get(fields, "timestamp")
         case Some(JInt(t)) => now - t > Timeout
         case _ => true
  }

  /** Python's `value == pid` for a JSON value and an int (`True == 1`). */
  predicate PidMatches(v: Json, pid: int) {
    v == JInt(pid) || (v == JBool(pid == 1) && (pid == 0 || pid == 1))
  }

  /** The record `acquire_lock` writes. */
  function Record(operation: string, pid: int, now: int, hostname: string): (f: LockFile)
    ensures f.Written? && UniqueKeys(f.fields)
  {
    Written([("operation", JStr(operation)), ("pid", JInt(pid)),
             ("timestamp", JInt(now)), ("hostname", JStr(hostname))])
  }

  /** `lock_info.get(...)` on a written record finds what was written. */
  lemma RecordReads(operation: string, pid: int, now: int, hostname: string)
    ensures Get(Record(operation, pid, now, hostname).fields, "operation") == Some(JStr(operation))
    ensures Get(Record(operation, pid, now, hostname).fields, "pid") == Some(JInt(pid))
    ensures Get(Record(operation, pid, now, hostname).fields, "timestamp") == Some(JInt(now))
    ensures Get(Record(operation, pid, now, hostname).fields, "hostname") == Some(JStr(hostname))
  {
    var r := Record(operation, pid, now, hostname).fields;
    GetAt(r, 1, "pid");
    GetAt(r, 2, "timestamp");
    GetAt(r, 3, "hostname");
  }

  /** The record names `operation` and `pid`. */
  predicate HeldBy(f: LockFile, operation: string, pid: int) {
    f.Written? && Get(f.fields, "operation") == Some(JStr(operation))
    && Get(f.fields, "pid") == Some(JInt(pid))
  }

  /** `acquire_lock`: whether it succeeds, and the lock file afterwards. It
      succeeds exactly when there is no live lock, whoever holds it, and then
      the file names the caller. */
  function Acquire(f: LockFile, operation: string, pid: int, now: int, hostname: string): (r: (bool, LockFile))
    ensures r.0 <==> !Locked(f) || Stale(f, now)
    ensures r.0 ==> r.1 == Record(operation, pid, now, hostname)
    ensures !r.0 ==> r.1 == f
  {
    if Locked(f) && !Stale(f, now) then (false, f)
    else
      (true, Record(operation, pid, now, hostname))
  }

  /** A successful acquire leaves a live lock that names the caller. */
  lemma AcquireHolds(f: LockFile, operation: string, pid: int, now: int, hostname: string)
    requires Acquire(f, operation, pid, now, hostname).0
    ensures var g := Acquire(f, operation, pid, now, hostname).1;
      HeldBy(g, operation, pid) && Locked(g) && !Stale(g, now)
  {
    RecordReads(operation, pid, now, hostname);
  }

  /** `release_lock(force)` called by process `pid`: only a forced release or
      the record's own pid removes the file. */
  function Release(f: LockFile, force: bool, pid: int): (r: (bool, LockFile))
    ensures !Locked(f) ==> r == (false, f)
    ensures r.0 <==> Locked(f) && (force || (f.Written? && Get(f.fields, "pid").Some? && PidMatches(Get(f.fields, "pid").value, pid)))
    ensures r.0 ==> r.1 == Absent
    ensures !r.0 ==> r.1 == f
  {
    if !Locked(f) then (false, f)
    else
      var info := Info(f).GetOr([]);
      var owner := Get(info, "pid");
      if force || (owner.Some? && PidMatches(owner.value, pid)) then (true, Absent)
      else (false, f)
  }

  /** The lock cannot be taken twice: while the record written by a
      successful acquire is younger than the timeout, every acquire fails and
      leaves it in place, the same pid included. */
  lemma NotReentrant(f: LockFile, op: string, pid: int, now: int, host: string,
                     op2: string, pid2: int, later: int, host2: string)
    requires Acquire(f, op, pid, now, host).0
    requires later - now <= Timeout
    ensures Acquire(Acquire(f, op, pid, now, host).1, op2, pid2, later, host2)
         == (false, Record(op, pid, now, host))
  {
    RecordReads(op, pid, now, host);
  }

  /** Once the timeout has passed, any process takes over the lock and the
      record names the new operation. */
  lemma StaleReclaimed(f: LockFile, op: string, pid: int, now: int, host: string,
                       op2: string, pid2: int, later: int, host2: string)
    requires Acquire(f, op, pid, now, host).0
    requires later - now > Timeout
    ensures Acquire(Acquire(f, op, pid, now, host).1, op2, pid2, later, host2)
         == (true, Record(op2, pid2, later, host2))
  {
    RecordReads(op, pid, now, host);
  }

  /** A release by the owner frees the lock for the next acquire, at any
      clock reading; a non-forced release by another pid changes nothing. */
  lemma OwnerReleaseThenAcquire(f: LockFile, op: string, pid: int, now: int, host: string,
                                other: int, op2: string, pid2: int, later: int, host2: string)
    requires Acquire(f, op, pid, now, host).0
    requires other != pid
    ensures var g := Acquire(f, op, pid, now, host).1;
      && Release(g, false, other) == (false, g)
      && Release(g, false, pid) == (true, Absent)
      && Acquire(Release(g, false, pid).1, op2, pid2, later, host2) == (true, Record(op2, pid2, later, host2))
  {
    var g := Record(op, pid, now, host);
    assert Get(g.fields, "pid") == Some(JInt(pid));
  }

  /** A poll that finds the lock file `f` at clock reading `now` takes the
      lock. */
  predicate CanTake(f: LockFile, now: int) {
    !Locked(f) || Stale(f, now)
  }

  /** How many loop tests of `wait_for_lock` see the clock still inside the
      waiting time: the polls before the first reading `maxWait` seconds or
      more past `start`. */
  function Polled(polls: seq<(int, LockFile)>, start: int, maxWait: int): (n: nat)
    ensures n <= |polls|
    ensures forall j :: 0 <= j < n ==> polls[j].0 - start < maxWait
    ensures n < |polls| ==> polls[n].0 - start >= maxWait
  {
    if polls == [] || polls[0].0 - start >= maxWait then 0
    else 1 + Polled(polls[1..], start, maxWait)
  }

  function Shift(o: Option<nat>, n: nat): (r: Option<nat>)
    ensures r.Some? <==> o.Some?
    ensures r.Some? ==> r.value == o.value + n
  {
    if o.Some? then Some(o.value + n) else None
  }

  /** The poll at which `wait_for_lock` takes the lock: the first poll inside
      the waiting time that finds the lock free or stale. */
  function FirstFree(polls: seq<(int, LockFile)>, start: int, maxWait: int): (r: Option<nat>)
    ensures r.Some? ==> r.value < |polls|
    decreases |polls|
  {
    if polls == [] || polls[0].0 - start >= maxWait then None
    else if CanTake(polls[0].1, polls[0].0) then Some(0)
    else Shift(FirstFree(polls[1..], start, maxWait), 1)
  }

  /** The poll `FirstFree` picks is inside the waiting time and can take the
      lock, and every poll before it, or every poll inside the waiting time
      when it picks none, cannot. */
  lemma {:induction false} FirstFreeIsFirst(polls: seq<(int, LockFile)>, start: int, maxWait: int)
    ensures var r := FirstFree(polls, start, maxWait);
      && (r.Some? ==> r.value < Polled(polls, start, maxWait) && CanTake(polls[r.value].1, polls[r.value].0))
      && forall j :: 0 <= j < (if r.Some? then r.value else Polled(polls, start, maxWait)) ==> !CanTake(polls[j].1, polls[j].0)
    decreases |polls|
  {
    if polls != [] && polls[0].0 - start < maxWait && !CanTake(polls[0].1, polls[0].0) {
      FirstFreeIsFirst(polls[1..], start, maxWait);
      assert forall j :: 1 <= j < |polls| ==> polls[j] == polls[1..][j - 1];
    }
  }

  /** The first `i` polls were inside the waiting time and could not take
      the lock. */
  ghost predicate PolledInVain(polls: seq<(int, LockFile)>, start: int, maxWait: int, i: nat)
    requires i <= |polls|
  {
    forall j :: 0 <= j < i ==> polls[j].0 - start < maxWait && !CanTake(polls[j].1, polls[j].0)
  }

  lemma PolledOnceMore(polls: seq<(int, LockFile)>, start: int, maxWait: int, i: nat)
    requires i < |polls| && PolledInVain(polls, start, maxWait, i)
    requires polls[i].0 - start < maxWait && !CanTake(polls[i].1, polls[i].0)
    ensures PolledInVain(polls, start, maxWait, i + 1)
  {
  }

  /** After `i` polls in vain, a poll inside the waiting time that can take
      the lock is the one `wait_for_lock` takes it at. */
  lemma {:induction false} FirstFreeAt(polls: seq<(int, LockFile)>, start: int, maxWait: int, i: nat)
    requires i < |polls| && PolledInVain(polls, start, maxWait, i)
    requires polls[i].0 - start < maxWait && CanTake(polls[i].1, polls[i].0)
    ensures FirstFree(polls, start, maxWait) == Some(i)
    decreases i
  {
    if i > 0 {
      PolledInVainTail(polls, start, maxWait, i);
      FirstFreeAt(polls[1..], start, maxWait, i - 1);
    }
  }

  /** Polls in vain after the first one are polls in vain of the rest. */
  lemma PolledInVainTail(polls: seq<(int, LockFile)>, start: int, maxWait: int, i: nat)
    requires 0 < i <= |polls| && PolledInVain(polls, start, maxWait, i)
    ensures polls[0].0 - start < maxWait && !CanTake(polls[0].1, polls[0].0)
    ensures PolledInVain(polls[1..], start, maxWait, i - 1)
  {
    forall j | 0 <= j < i - 1 ensures polls[1..][j] == polls[j + 1] { }
  }

  /** After `i` polls in vain, when the polls run out or the waiting time is
      over, `wait_for_lock` gives up, having polled `i` times. */
  lemma {:induction false} NoneFree(polls: seq<(int, LockFile)>, start: int, maxWait: int, i: nat)
    requires i <= |polls| && PolledInVain(polls, start, maxWait, i)
    requires i == |polls| || polls[i].0 - start >= maxWait
    ensures FirstFree(polls, start, maxWait) == None
    ensures Polled(polls, start, maxWait) == i
    decreases i
  {
    if i > 0 {
      assert PolledInVain(polls[1..], start, maxWait, i - 1) by {
        forall j | 0 <= j < i - 1 ensures polls[1..][j] == polls[j + 1] { }
      }
      NoneFree(polls[1..], start, maxWait, i - 1);
    }
  }

  class LockManager {
    /** The lock file, as every process sees it. */
    var file: LockFile

    constructor (found: LockFile)
      ensures file == found
    {
      file := found;
    }

    method IsLocked() returns (b: bool)
      ensures b == Locked(file)
    {
      b := !file.Absent?;
    }

    method GetLockInfo() returns (info: Option<seq<(string, Json)>>)
      ensures info == Info(file)
    {
      var locked := IsLocked();
      if !locked {
        return None;
      }
      match file
      case Written(fields) => info := Some(fields);
      case _ => info := None;
    }

    method IsStale(now: int) returns (b: bool)
      ensures b == Stale(file, now)
    {
      var locked := IsLocked();
      if !locked {
        return false;
      }
      var info := GetLockInfo();
      if info == None || info.value == [] {
        return true;
      }
      match Get(info.value, "timestamp")
      case Some(JInt(t)) => b := now - t > Timeout;
      case _ => b := true;
    }

    method AcquireLock(operation: string, pid: int, now: int, hostname: string) returns (ok: bool)
      modifies this
      ensures (ok, file) == Acquire(old(file), operation, pid, now, hostname)
    {
      var locked := IsLocked();
      var stale := IsStale(now);
      if locked && !stale {
        return false;
      }
      if stale {
        var _ := ReleaseLock(true, pid);
      }
      file := Record(operation, pid, now, hostname);
      ok := true;
    }

    method ReleaseLock(force: bool, pid: int) returns (ok: bool)
      modifies this
      ensures (ok, file) == Release(old(file), force, pid)
    {
      var locked := IsLocked();
      if !locked {
        return false;
      }
      var info := GetLockInfo();
      var data := info.GetOr([]);
      var owner := Get(data, "pid");
      if force || (owner.Some? && PidMatches(owner.value, pid)) {
        file := Absent;
        return true;
      }
      ok := false;
    }

    /** `force_release()`: the lock file is gone afterwards. */
    method ForceRelease(pid: int)
      modifies this
      ensures file == Absent
    {
      var _ := ReleaseLock(true, pid);
    }

    /** `_cleanup_handler()`: the exiting process gives up its own lock only. */
    method CleanupHandler(pid: int)
      modifies this
      ensures file == Release(old(file), false, pid).1
    {
      var _ := ReleaseLock(false, pid);
    }

    /** `wait_for_lock` as bounded polling. `polls[i]` is the clock reading
        at the i-th loop test together with the lock file as other processes
        have left it by then. The loop runs while the clock is less than
        `maxWait` seconds past `start` and stops at the first successful
        acquire. */
    method WaitForLock(operation: string, pid: int, hostname: string, start: int, maxWait: int,
                       polls: seq<(int, LockFile)>) returns (ok: bool)
      modifies this
      ensures ok <==> FirstFree(polls, start, maxWait).Some?
      ensures ok ==> file == Record(operation, pid, polls[FirstFree(polls, start, maxWait).value].0, hostname)
      ensures !ok ==> Polled(polls, start, maxWait) == 0 ==> file == old(file)
      ensures !ok ==> Polled(polls, start, maxWait) > 0 ==> file == polls[Polled(polls, start, maxWait) - 1].1
    {
      var i;
      ok, i := PollLock(operation, pid, hostname, start, maxWait, polls);
      if ok {
        FirstFreeAt(polls, start, maxWait, i);
      } else {
        NoneFree(polls, start, maxWait, i);
      }
    }

    /** The loop of `wait_for_lock`: it stops at poll `i`, having taken the
        lock there, or having found the polls over or the waiting time
        past; every poll before `i` was in vain. */
    method PollLock(operation: string, pid: int, hostname: string, start: int, maxWait: int,
                    polls: seq<(int, LockFile)>) returns (ok: bool, i: nat)
      modifies this
      ensures i <= |polls| && PolledInVain(polls, start, maxWait, i)
      ensures ok ==> i < |polls| && polls[i].0 - start < maxWait && CanTake(polls[i].1, polls[i].0)
      ensures ok ==> file == Record(operation, pid, polls[i].0, hostname)
      ensures !ok ==> i == |polls| || polls[i].0 - start >= maxWait
      ensures !ok ==> file == if i == 0 then old(file) else polls[i - 1].1
    {
      i := 0;
      ok := false;
      while i < |polls| && polls[i].0 - start < maxWait
        invariant i <= |polls|
        invariant PolledInVain(polls, start, maxWait, i)
        invariant !ok
        invariant file == if i == 0 then old(file) else polls[i - 1].1
        decreases |polls| - i
      {
        file := polls[i].1;
        ok := AcquireLock(operation, pid, polls[i].0, hostname);
        if ok {
          return;
        }
        PolledOnceMore(polls, start, maxWait, i);
        i := i + 1;
      }
    }
  }
}
