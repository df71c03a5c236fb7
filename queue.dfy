/** The operation queue: reads run at once, mutations run only while this
    process holds the file lock, and the lock is released afterwards whether
    the operation returned or raised.

    The wrapped coroutine is abstract: a `Body` says what it ends with and
    what, if anything, other processes did to the lock file while it ran. */
module Queue {
  import Wrappers
  import opened JsonValue
  import opened Locking

  /** `OperationType`. */
  datatype OperationType = Read | Mutation

  datatype Outcome = Returns(value: Json) | Raises(exception: string)

  datatype Body = Body(outcome: Outcome, interference: Wrappers.Option<LockFile>)

  /** What `execute` ends with: the function's value, the
      `OperationInProgressError` naming the holder, or the function's own
      exception passed through. */
  datatype ExecResult = Completed(value: Json) | Blocked(holder: Json) | Raised(exception: string)

  /** The lock file after the body ran: as other processes left it. */
  function After(f: LockFile, body: Body): LockFile {
    if body.interference.Some? then body.interference.value else f
  }

  function Finish(o: Outcome): (r: ExecResult)
    ensures o.Returns? <==> r.Completed?
    ensures o.Returns? ==> r.value == o.value
    ensures o.Raises? ==> r == Raised(o.exception)
  {
    match o
    case Returns(v) => Completed(v)
    case Raises(e) => Raised(e)
  }

  /** The blocker named in the error: the record's `operation` field, or
      "unknown" when the record is missing, unreadable or has no such
      field. */
  function Holder(f: LockFile): (h: Json)
    ensures f.Written? && Get(f.fields, "operation").Some? ==> h == Get(f.fields, "operation").value
    ensures f.Written? && Get(f.fields, "operation").None? ==> h == JStr("unknown")
    ensures !f.Written? ==> h == JStr("unknown")
  {
    Get(Info(f).GetOr([]), "operation").GetOr(JStr("unknown"))
  }

  /** `execute(operation_id, operation_type, func)` run by process `pid` at
      clock reading `now` on host `hostname`: the result and the lock file
      afterwards. */
  function Executed(f: LockFile, operationId: string, kind: OperationType, body: Body,
                   pid: int, now: int, hostname: string): (r: (ExecResult, LockFile))
    ensures kind == Read ==> r == (Finish(body.outcome), After(f, body))
    ensures kind == Mutation && Locked(f) && !Stale(f, now) ==> r == (Blocked(Holder(f)), f)
    ensures kind == Mutation && CanTake(f, now) ==>
      && r.0 == Finish(body.outcome)
      && r.1 == Release(After(Record(operationId, pid, now, hostname), body), false, pid).1
  {
    if kind == Read then (Finish(body.outcome), After(f, body))
    else
      var (ok, g) := Acquire(f, operationId, pid, now, hostname);
      if !ok then (Blocked(Holder(g)), g)
      else (Finish(body.outcome), Release(After(g, body), false, pid).1)
  }

  /** A mutation that takes the lock and is left alone by other processes
      leaves the lock released, whether its function returned or raised, so
      the next mutation runs. */
  lemma MutationReleases(f: LockFile, op: string, body: Body, pid: int, now: int, host: string,
                         op2: string, body2: Body, pid2: int, later: int, host2: string)
    requires CanTake(f, now) && body.interference.None?
    ensures Executed(f, op, Mutation, body, pid, now, host) == (Finish(body.outcome), Absent)
    ensures Executed(Absent, op2, Mutation, body2, pid2, later, host2).0 == Finish(body2.outcome)
  {
    var g := Record(op, pid, now, host);
    assert Get(g.fields, "pid") == Wrappers.Some(JInt(pid));
  }

  /** While the lock was taken over by another process (a stale reclaim), the
      final non-forced release leaves the new holder's record in place. */
  lemma ReclaimedLockSurvives(f: LockFile, op: string, body: Body, pid: int, now: int, host: string,
                              other: int, op2: string, t2: int, host2: string)
    requires CanTake(f, now) && other != pid
    requires body.interference == Wrappers.Some(Record(op2, other, t2, host2))
    ensures Executed(f, op, Mutation, body, pid, now, host).1 == Record(op2, other, t2, host2)
  {
    var g := Record(op2, other, t2, host2);
    assert Get(g.fields, "pid") == Wrappers.Some(JInt(other));
  }

  /** A mutation blocked by a lock that another operation holds names that
      operation. */
  lemma BlockedNamesHolder(op: string, pid: int, t: int, host: string,
                           op2: string, body: Body, pid2: int, now: int, host2: string)
    requires now - t <= Timeout
    ensures Executed(Record(op, pid, t, host), op2, Mutation, body, pid2, now, host2)
         == (Blocked(JStr(op)), Record(op, pid, t, host))
  {
    RecordReads(op, pid, t, host);
  }

  class OperationQueue {
    const lockManager: LockManager

    constructor (manager: LockManager)
      ensures lockManager == manager
    {
      lockManager := manager;
    }

    /** Runs the abstract coroutine: other processes may rewrite the lock
        file meanwhile. */
    method Run(body: Body) returns (o: Outcome)
      modifies lockManager
      ensures o == body.outcome
      ensures lockManager.file == After(old(lockManager.file), body)
    {
      if body.interference.Some? {
        lockManager.file := body.interference.value;
      }
      o := body.outcome;
    }

    /** `execute`; `during` is the lock file the function starts with. */
    method Execute(operationId: string, kind: OperationType, body: Body,
                   pid: int, now: int, hostname: string)
      returns (r: ExecResult, ghost during: LockFile)
      modifies lockManager
      ensures (r, lockManager.file)
           == Executed(old(lockManager.file), operationId, kind, body, pid, now, hostname)
      ensures kind == Mutation && !r.Blocked? ==> HeldBy(during, operationId, pid)
      ensures kind == Read ==> during == old(lockManager.file)
    {
      during := lockManager.file;
      if kind == Read {
        var o := Run(body);
        return Finish(o), during;
      }
      var acquired := lockManager.AcquireLock(operationId, pid, now, hostname);
      if !acquired {
        var info := lockManager.GetLockInfo();
        var data := info.GetOr([]);
        var blocker := Get(data, "operation").GetOr(JStr("unknown"));
        return Blocked(blocker), lockManager.file;
      }
      during := lockManager.file;
      var o := Run(body);
      var _ := lockManager.ReleaseLock(false, pid);
      r := Finish(o);
    }
  }
}
