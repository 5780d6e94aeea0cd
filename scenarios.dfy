/**
 * Clients of the Kernel class: the parent/child scenarios of the process
 * system calls, verified for any valid process table from the methods'
 * contracts and the lemmas of ProcProofs.
 */
module Scenarios {
  import opened SysTypes
  import opened ProcTable
  import opened ProcSyscalls
  import ProcProofs

  /** A forked child exits with 7: the parent's wait blocks before, and reaps 7 after, twice. */
  method ChildExitsThenParentWaits(k: Kernel, par: Pid, kid: Pid)
    requires k.Valid() && par in k.procs && PidUnused(k.procs, kid)
    modifies k
  {
    var r := k.Fork(par, Some(kid), 0);
    assert r == Ok(kid) && k.procs[kid].parent == Some(par);
    ProcProofs.ExitReportsStatus(k.procs, kid, 7);

    var w := k.WaitPid(par, kid, 0, 0);
    assert w == Blocks(kid);

    k.Exit(kid, 7);
    w := k.WaitPid(par, kid, 0, 0);
    assert w == Reaped(kid, 7);
    w := k.WaitPid(par, kid, 0, 0);
    assert w == Reaped(kid, 7);
  }

  /** A parent exits before its child: the child is orphaned and its own exit reports to nobody. */
  method ParentExitsFirst(k: Kernel, par: Pid, kid: Pid)
    requires k.Valid() && par in k.procs && PidUnused(k.procs, kid)
    modifies k
  {
    var r := k.Fork(par, Some(kid), 0);
    ProcProofs.ExitOrphansChildren(k.procs, par, 0, kid, 3);
    k.Exit(par, 0);
    assert kid in k.procs && k.procs[kid].parent == None;

    ghost var before := k.procs;
    k.Exit(kid, 3);
    assert k.procs == Orphaned(before, kid) - {kid};
  }

  /** Nonzero options fail with EINVAL; a pid that was never a child reads back as -99. */
  method WaitMisuse(k: Kernel, me: Pid, stranger: Pid)
    requires k.Valid() && me in k.procs && stranger !in k.procs[me].childPid
  {
    assert Lockstep(k.procs[me]);
    var w := k.WaitPid(me, stranger, 5, 0);
    assert w == WaitFailed(EINVAL);
    w := k.WaitPid(me, stranger, 0, 0);
    assert w == Reaped(stranger, UNTRACKED);
  }

  /** A fork whose address-space copy fails leaves the table as it was. */
  method ForkFailureChangesNothing(k: Kernel, par: Pid, kid: Pid)
    requires k.Valid() && par in k.procs && PidUnused(k.procs, kid)
    modifies k
  {
    ghost var before := k.procs;
    var r := k.Fork(par, Some(kid), 1);
    assert r == Err(Code(-1)) && k.procs == before;
  }
}
