/**
 * The parent/child bookkeeping of os161-1.99/kern/syscall/proc_syscalls.c
 * as values: one record per process, kept in a table keyed by pid, and
 * one function per lock-protected region of fork, _exit and waitpid.
 * The class in proc_syscalls.dfy runs these regions step by step and is
 * proved to compute exactly these functions.
 */
module ProcTable {
  import opened SysTypes

  type Pid = int

  /** The ChildStatus value that marks a child as still alive. */
  const ALIVE: int := -10086

  /** The status waitpid reports for a pid it does not track. */
  const UNTRACKED: int := -99

  /**
   * A process's bookkeeping. `child`, `childPid` and `childStatus` are
   * used in lock-step by index; a child reference is the child's pid (the
   * key of its own record), and None stands for a NULL entry.
   */
  datatype Proc = Proc(
    parent: Option<Pid>,
    child: seq<Option<Pid>>,
    childPid: seq<Pid>,
    childStatus: seq<int>)

  /** All live processes, by pid. */
  type Table = map<Pid, Proc>

  /** A process as creation leaves it: no parent and no children. */
  const Newborn: Proc := Proc(None, [], [], [])

  /** The three parallel arrays have the same length. */
  predicate Lockstep(p: Proc)
  {
    |p.child| == |p.childPid| == |p.childStatus|
  }

  // ---------------------------------------------------------------------
  // The table invariant

  ghost predicate LockstepAll(t: Table)
  {
    forall p :: p in t ==> Lockstep(t[p])
  }

  /**
   * A non-NULL child entry refers to a live process whose parent is the
   * owner of the entry; the entry sits under that child's pid and its
   * status slot still holds the alive sentinel.
   */
  ghost predicate ForwardLinks(t: Table)
  {
    forall p, i :: p in t && 0 <= i < |t[p].child| && t[p].child[i].Some? ==> LiveEntry(t, p, i)
  }

  ghost predicate LiveEntry(t: Table, p: Pid, i: int)
    requires p in t && 0 <= i < |t[p].child| && t[p].child[i].Some?
  {
    var c := t[p].child[i].value;
    && c in t
    && t[c].parent == Some(p)
    && i < |t[p].childPid| && t[p].childPid[i] == c
    && i < |t[p].childStatus| && t[p].childStatus[i] == ALIVE
  }

  /** A live process with a parent link is held by a live parent. */
  ghost predicate BackLinks(t: Table)
  {
    forall c :: c in t && t[c].parent.Some? ==>
      t[c].parent.value in t && Some(c) in t[t[c].parent.value].child
  }

  /** No pid appears twice among one process's children. */
  ghost predicate DistinctChildPids(t: Table)
  {
    forall p, i, j :: p in t && 0 <= i < j < |t[p].childPid| ==> t[p].childPid[i] != t[p].childPid[j]
  }

  ghost predicate NoSelfParent(t: Table)
  {
    forall c :: c in t ==> t[c].parent != Some(c)
  }

  ghost predicate TableInv(t: Table)
  {
    LockstepAll(t) && ForwardLinks(t) && BackLinks(t) && DistinctChildPids(t) && NoSelfParent(t)
  }

  /**
   * A pid that process creation may hand out: no live process has it and
   * no process still tracks a child under it.
   */
  ghost predicate PidUnused(t: Table, pid: Pid)
  {
    pid !in t && forall p :: p in t ==> pid !in t[p].childPid
  }

  // ---------------------------------------------------------------------
  // fork: linking the child into the caller's bookkeeping

  /**
   * The table after a successful fork by `caller` of a new process `kid`:
   * one entry appended to each of the caller's arrays and the child's
   * parent set to the caller.
   */
  function ForkLinked(t: Table, caller: Pid, kid: Pid): (r: Table)
    requires caller in t && kid !in t
    ensures r.Keys == t.Keys + {kid}
    ensures r[kid] == Newborn.(parent := Some(caller))
    ensures r[caller].parent == t[caller].parent
    ensures |r[caller].child| == |t[caller].child| + 1
    ensures |r[caller].childPid| == |t[caller].childPid| + 1
    ensures |r[caller].childStatus| == |t[caller].childStatus| + 1
    ensures forall i :: 0 <= i < |t[caller].child| ==> r[caller].child[i] == t[caller].child[i]
    ensures forall i :: 0 <= i < |t[caller].childPid| ==> r[caller].childPid[i] == t[caller].childPid[i]
    ensures forall i :: 0 <= i < |t[caller].childStatus| ==> r[caller].childStatus[i] == t[caller].childStatus[i]
    ensures r[caller].child[|t[caller].child|] == Some(kid)
    ensures r[caller].childPid[|t[caller].childPid|] == kid
    ensures r[caller].childStatus[|t[caller].childStatus|] == ALIVE
    ensures forall q :: q in t && q != caller ==> r[q] == t[q]
  {
    var p := t[caller];
    t[caller := p.(child := p.child + [Some(kid)],
                   childPid := p.childPid + [kid],
                   childStatus := p.childStatus + [ALIVE])]
     [kid := Newborn.(parent := Some(caller))]
  }

  // ---------------------------------------------------------------------
  // _exit, part 1: reporting the exit code to the parent

  /** The first index whose child entry refers to `me`, or |child| if none does. */
  function FirstLive(child: seq<Option<Pid>>, me: Pid): (i: nat)
    ensures i <= |child|
    ensures i < |child| ==> child[i] == Some(me)
    ensures forall j :: 0 <= j < i ==> child[j] != Some(me)
  {
    if child == [] then 0
    else if child[0] == Some(me) then 0
    else 1 + FirstLive(child[1..], me)
  }

  /**
   * The parent's record after child `me` reports `code`: the first entry
   * referring to `me` is nulled and its status slot receives the code;
   * nothing else changes, and nothing at all if no entry refers to `me`.
   */
  function Reported(p: Proc, me: Pid, code: int): (r: Proc)
    requires |p.child| <= |p.childStatus|
    ensures r.parent == p.parent && r.childPid == p.childPid
    ensures |r.child| == |p.child| && |r.childStatus| == |p.childStatus|
    ensures forall j :: 0 <= j < |p.child| && j != FirstLive(p.child, me) ==>
      r.child[j] == p.child[j] && r.childStatus[j] == p.childStatus[j]
    ensures forall j :: |p.child| <= j < |p.childStatus| ==> r.childStatus[j] == p.childStatus[j]
    ensures FirstLive(p.child, me) < |p.child| ==>
      r.child[FirstLive(p.child, me)] == None && r.childStatus[FirstLive(p.child, me)] == code
    ensures FirstLive(p.child, me) == |p.child| ==> r == p
  {
    var i := FirstLive(p.child, me);
    if i < |p.child| then
      p.(childStatus := p.childStatus[i := code], child := p.child[i := None])
    else
      p
  }

  /** What the report step dereferences: a live parent whose status array covers its child array. */
  predicate ReportReady(t: Table, me: Pid)
    requires me in t
  {
    t[me].parent.Some? ==>
      t[me].parent.value in t && |t[t[me].parent.value].child| <= |t[t[me].parent.value].childStatus|
  }

  /** The table after `me` reports `code` to its parent, if it has one. */
  function ReportToParent(t: Table, me: Pid, code: int): (r: Table)
    requires me in t && ReportReady(t, me)
    ensures r.Keys == t.Keys
    ensures t[me].parent.None? ==> r == t
    ensures forall q :: q in t && Some(q) != t[me].parent ==> r[q] == t[q]
  {
    match t[me].parent
    case None => t
    case Some(par) => t[par := Reported(t[par], me, code)]
  }

  // ---------------------------------------------------------------------
  // _exit, part 2: orphaning the children and emptying the arrays

  /**
   * The table after `me` disowns its children: every process that `me`'s
   * child array refers to loses its parent link, and `me`'s three arrays
   * become empty.
   */
  function Orphaned(t: Table, me: Pid): (r: Table)
    requires me in t
    ensures r.Keys == t.Keys
    ensures r[me].child == [] && r[me].childPid == [] && r[me].childStatus == []
    ensures forall c :: c in t && Some(c) in t[me].child ==> r[c].parent == None
    ensures forall q :: q in t && Some(q) !in t[me].child ==> r[q].parent == t[q].parent
    ensures forall q :: q in t && q != me ==>
      r[q].child == t[q].child && r[q].childPid == t[q].childPid && r[q].childStatus == t[q].childStatus
  {
    map q | q in t :: Disowned(t, me, q)
  }

  function Disowned(t: Table, me: Pid, q: Pid): Proc
    requires me in t && q in t
  {
    var r := if Some(q) in t[me].child then t[q].(parent := None) else t[q];
    if q == me then r.(child := [], childPid := [], childStatus := []) else r
  }

  /** The whole of _exit on the table: report, disown, and the record leaves the table. */
  function Exited(t: Table, me: Pid, code: int): (r: Table)
    requires me in t && ReportReady(t, me)
    ensures r.Keys == t.Keys - {me}
  {
    Orphaned(ReportToParent(t, me, code), me) - {me}
  }

  // ---------------------------------------------------------------------
  // waitpid: the two scans

  /** The first index holding `pid`, or |pids| if there is none. */
  function FirstPidIndex(pids: seq<Pid>, pid: Pid): (i: nat)
    ensures i <= |pids|
    ensures i < |pids| ==> pids[i] == pid
    ensures forall j :: 0 <= j < i ==> pids[j] != pid
  {
    if pids == [] then 0
    else if pids[0] == pid then 0
    else 1 + FirstPidIndex(pids[1..], pid)
  }

  /** The last index holding `pid`, or -1 if there is none. */
  function LastPidIndex(pids: seq<Pid>, pid: Pid): (i: int)
    ensures -1 <= i < |pids|
    ensures 0 <= i ==> pids[i] == pid
    ensures forall j :: i < j < |pids| ==> pids[j] != pid
  {
    if pids == [] then -1
    else if pids[|pids| - 1] == pid then |pids| - 1
    else LastPidIndex(pids[..|pids| - 1], pid)
  }

  /** waitpid's first scan: the first entry for `pid` is still a live child reference. */
  predicate WouldBlock(p: Proc, pid: Pid)
    requires Lockstep(p)
    ensures WouldBlock(p, pid) <==>
      exists i :: 0 <= i < |p.childPid| && p.childPid[i] == pid && p.child[i].Some? &&
        forall j :: 0 <= j < i ==> p.childPid[j] != pid
  {
    var i := FirstPidIndex(p.childPid, pid);
    i < |p.child| && p.child[i].Some?
  }

  /** waitpid's second scan: the status at the last entry for `pid`, or -99. */
  function StatusOf(p: Proc, pid: Pid): (s: int)
    requires Lockstep(p)
    ensures pid !in p.childPid ==> s == UNTRACKED
    ensures forall i ::
              (0 <= i < |p.childPid| && p.childPid[i] == pid &&
               forall j :: i < j < |p.childPid| ==> p.childPid[j] != pid)
              ==> s == p.childStatus[i]
  {
    var i := LastPidIndex(p.childPid, pid);
    if i < 0 then UNTRACKED else p.childStatus[i]
  }

  datatype WaitOutcome =
    | WaitFailed(error: Errno)
    /** the caller sleeps on the child's condition variable */
    | Blocks(target: Pid)
    /** `rawStatus` is the value encoded by _MKWAIT_EXIT and copied out */
    | Reaped(pid: Pid, rawStatus: int)
}
