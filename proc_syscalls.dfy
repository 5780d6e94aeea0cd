/**
 * The process system calls of os161-1.99/kern/syscall/proc_syscalls.c as
 * steps on a process table. Each lock-protected region of the source is
 * one method, run without interleaving; the methods work through the
 * arrays the way the source does and are proved to compute the functions
 * of module ProcTable.
 */
module ProcSyscalls {
  import opened SysTypes
  import opened ProcTable
  import ProcProofs

  class Kernel {
    /** Every live process's bookkeeping, by pid. */
    var procs: Table

    ghost predicate Valid()
      reads this
    {
      TableInv(procs)
    }

    /** A table holding only the first user process, `init`, with no parent and no children. */
    constructor (init: Pid)
      ensures Valid() && procs == map[init := Newborn]
    {
      procs := map[init := Newborn];
    }

    /**
     * sys_fork. `created` is what proc_create_runprogram returned (None
     * for NULL, otherwise the new process's pid) and `asCopyResult` what
     * as_copy returned. On success the child is linked into the caller's
     * bookkeeping and its pid is the return value.
     */
    method Fork(caller: Pid, created: Option<Pid>, asCopyResult: int) returns (r: SysResult)
      requires Valid() && caller in procs
      requires created.Some? ==> PidUnused(procs, created.value)
      modifies this
      ensures Valid()
      ensures created.None? || asCopyResult != 0 ==> r == Err(Code(-1)) && procs == old(procs)
      ensures created.Some? && asCopyResult == 0 ==>
        r == Ok(created.value) && procs == ForkLinked(old(procs), caller, created.value)
    {
      if created.None? {
        return Err(Code(-1));
      }
      if asCopyResult != 0 {
        return Err(Code(-1));
      }
      var kid := created.value;
      var me := procs[caller];
      me := me.(child := me.child + [Some(kid)]);
      me := me.(childPid := me.childPid + [kid]);
      me := me.(childStatus := me.childStatus + [ALIVE]);
      procs := procs[caller := me];
      procs := procs[kid := Newborn.(parent := Some(caller))];
      ProcProofs.ForkPreservesInv(old(procs), caller, kid);
      r := Ok(kid);
    }

    /**
     * The first region of sys__exit: under the parent's lock, the first
     * entry of the parent's child array that refers to `me` has its status
     * slot set to `exitcode` and is nulled.
     */
    method ExitReport(me: Pid, exitcode: int)
      requires me in procs && ReportReady(procs, me)
      modifies this
      ensures procs == ReportToParent(old(procs), me, exitcode)
    {
      if procs[me].parent.Some? {
        var par := procs[me].parent.value;
        var p := procs[par];
        var i := 0;
        while i < |p.child|
          invariant 0 <= i <= |p.child|
          invariant p == procs[par]
          invariant forall j :: 0 <= j < i ==> p.child[j] != Some(me)
        {
          if p.child[i].Some? && p.child[i].value == me {
            assert FirstLive(p.child, me) == i;
            p := p.(childStatus := p.childStatus[i := exitcode]);
            p := p.(child := p.child[i := None]);
            break;
          }
          i := i + 1;
        }
        procs := procs[par := p];
      }
    }

    /**
     * The second region of sys__exit: under its own lock, `me` clears the
     * parent link of every child it still refers to, then empties its
     * child array and, in lock-step, its pid and status arrays.
     */
    method ExitOrphanAndClear(me: Pid)
      requires me in procs && Lockstep(procs[me])
      requires forall i :: 0 <= i < |procs[me].child| && procs[me].child[i].Some? ==>
        procs[me].child[i].value in procs
      modifies this
      ensures procs == Orphaned(old(procs), me)
    {
      var kids := procs[me].child;
      var size := |kids|;
      var i := 0;
      while i < size
        invariant 0 <= i <= size
        invariant procs.Keys == old(procs).Keys
        invariant forall q :: q in procs ==>
          procs[q] == if Some(q) in kids[..i] then old(procs)[q].(parent := None) else old(procs)[q]
      {
        if kids[i].Some? {
          var c := kids[i].value;
          procs := procs[c := procs[c].(parent := None)];
        }
        assert kids[..i + 1] == kids[..i] + [kids[i]];
        i := i + 1;
      }
      assert kids[..size] == kids;

      while |procs[me].child| > 0
        invariant me in procs && procs.Keys == old(procs).Keys
        invariant forall q :: q in procs && q != me ==> procs[q] == Disowned(old(procs), me, q)
        invariant procs[me].parent == Disowned(old(procs), me, me).parent
        invariant procs[me].childPid == old(procs)[me].childPid
        invariant procs[me].childStatus == old(procs)[me].childStatus
        decreases |procs[me].child|
      {
        var p := procs[me];
        procs := procs[me := p.(child := p.child[1..])];
      }

      while |procs[me].childPid| > 0
        invariant me in procs && procs.Keys == old(procs).Keys
        invariant forall q :: q in procs && q != me ==> procs[q] == Disowned(old(procs), me, q)
        invariant procs[me].parent == Disowned(old(procs), me, me).parent
        invariant procs[me].child == []
        invariant |procs[me].childStatus| == |procs[me].childPid|
        decreases |procs[me].childPid|
      {
        var p := procs[me];
        procs := procs[me := p.(childPid := p.childPid[1..], childStatus := p.childStatus[1..])];
      }
      assert procs[me] == Disowned(old(procs), me, me);
    }

    /**
     * sys__exit on the bookkeeping: report to the parent, disown the
     * children, and the process's record leaves the table when the process
     * is destroyed. `ReportReady` follows from `Valid()`
     * (ProcProofs.ReadyFromInv); it is required only so that the `Exited`
     * in the postcondition is well formed.
     */
    method Exit(me: Pid, exitcode: int)
      requires Valid() && me in procs && ReportReady(procs, me)
      modifies this
      ensures Valid()
      ensures procs == Exited(old(procs), me, exitcode)
    {
      ExitReport(me, exitcode);
      assert procs[me] == old(procs)[me];
      forall i | 0 <= i < |procs[me].child| && procs[me].child[i].Some?
        ensures procs[me].child[i].value in procs
      {
        assert LiveEntry(old(procs), me, i);
      }
      ExitOrphanAndClear(me);
      procs := procs - {me};
      ProcProofs.ExitPreservesInv(old(procs), me, exitcode);
    }

    /** sys_getpid: the caller's own pid. */
    method GetPid(me: Pid) returns (r: SysResult)
      requires me in procs
      ensures r == Ok(me)
    {
      r := Ok(me);
    }

    /**
     * waitpid's first scan: whether the entry at the first index holding
     * `pid` still refers to a live child, the case in which the caller
     * goes to sleep on that child.
     */
    method ScanAlive(me: Pid, pid: Pid) returns (childAlive: bool)
      requires me in procs && Lockstep(procs[me])
      ensures childAlive == WouldBlock(procs[me], pid)
    {
      var p := procs[me];
      var size := |p.child|;
      childAlive := false;
      var i := 0;
      while i < size
        invariant 0 <= i <= size
        invariant forall j :: 0 <= j < i ==> p.childPid[j] != pid
        invariant !childAlive
      {
        if p.childPid[i] == pid {
          assert FirstPidIndex(p.childPid, pid) == i;
          if p.child[i].Some? {
            childAlive := true;
          }
          break;
        }
        i := i + 1;
      }
    }

    /**
     * waitpid's second scan: the status at the last index holding `pid`,
     * or -99 when no index holds it.
     */
    method ScanStatus(me: Pid, pid: Pid) returns (childStatus: int)
      requires me in procs && Lockstep(procs[me])
      ensures childStatus == StatusOf(procs[me], pid)
    {
      var p := procs[me];
      childStatus := UNTRACKED;
      var size := |p.childPid|;
      var i := 0;
      while i < size
        invariant 0 <= i <= size
        invariant var k := LastPidIndex(p.childPid[..i], pid);
          childStatus == if k < 0 then UNTRACKED else p.childStatus[k]
      {
        assert p.childPid[..i + 1][..i] == p.childPid[..i];
        if p.childPid[i] == pid {
          childStatus := p.childStatus[i];
        }
        i := i + 1;
      }
      assert p.childPid[..size] == p.childPid;
    }

    /**
     * The part of sys_waitpid that runs once the caller need not sleep or
     * has been woken: read the status and copy it out. `copyoutResult` is
     * what copyout returned; the value copied out is _MKWAIT_EXIT applied
     * to `rawStatus`.
     */
    method FinishWait(me: Pid, pid: Pid, copyoutResult: int) returns (r: WaitOutcome)
      requires me in procs && Lockstep(procs[me])
      ensures copyoutResult != 0 ==> r == WaitFailed(Code(copyoutResult))
      ensures copyoutResult == 0 ==> r == Reaped(pid, StatusOf(procs[me], pid))
    {
      var childStatus := ScanStatus(me, pid);
      if copyoutResult != 0 {
        return WaitFailed(Code(copyoutResult));
      }
      r := Reaped(pid, childStatus);
    }

    /**
     * sys_waitpid as one step: nonzero options fail before any
     * bookkeeping is read; a live child makes the caller sleep; otherwise
     * the status is read and copied out. Nothing is modified.
     */
    method WaitPid(me: Pid, pid: Pid, options: int, copyoutResult: int) returns (r: WaitOutcome)
      requires me in procs && Lockstep(procs[me])
      ensures options != 0 ==> r == WaitFailed(EINVAL)
      ensures options == 0 && WouldBlock(procs[me], pid) ==> r == Blocks(pid)
      ensures options == 0 && !WouldBlock(procs[me], pid) && copyoutResult != 0 ==>
        r == WaitFailed(Code(copyoutResult))
      ensures options == 0 && !WouldBlock(procs[me], pid) && copyoutResult == 0 ==>
        r == Reaped(pid, StatusOf(procs[me], pid))
    {
      if options != 0 {
        return WaitFailed(EINVAL);
      }
      var childAlive := ScanAlive(me, pid);
      if childAlive {
        return Blocks(pid);
      }
      r := FinishWait(me, pid, copyoutResult);
    }
  }
}
