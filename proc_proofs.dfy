/**
 * Properties of the bookkeeping steps in ProcTable: fork and _exit keep
 * the table invariant, an exiting parent orphans its children, a child's
 * exit code reaches its parent's status slot, and a reported slot is
 * never written again, so waitpid keeps answering the same.
 */
module ProcProofs {
  import opened SysTypes
  import opened ProcTable

  /** No two indices of `pids` hold the same pid. */
  ghost predicate Distinct(pids: seq<Pid>)
  {
    forall i, j :: 0 <= i < j < |pids| ==> pids[i] != pids[j]
  }

  lemma DistinctOf(t: Table, p: Pid)
    requires DistinctChildPids(t) && p in t
    ensures Distinct(t[p].childPid)
  {
  }

  /**
   * With distinct pids, the index holding a pid is both its first and its
   * last. This follows from the contracts of FirstPidIndex and LastPidIndex.
   */
  lemma UniqueIndex(pids: seq<Pid>, i: int)
    requires Distinct(pids) && 0 <= i < |pids|
    ensures FirstPidIndex(pids, pids[i]) == i
    ensures LastPidIndex(pids, pids[i]) == i
  {
  }

  /**
   * With distinct pids, both of waitpid's scans land on the slot that
   * holds the pid: the first blocks exactly when the slot's child entry
   * is still set, and the second reads that slot's status.
   */
  lemma ScansAgree(p: Proc, i: int)
    requires Lockstep(p) && Distinct(p.childPid) && 0 <= i < |p.childPid|
    ensures WouldBlock(p, p.childPid[i]) <==> p.child[i].Some?
    ensures StatusOf(p, p.childPid[i]) == p.childStatus[i]
  {
    UniqueIndex(p.childPid, i);
  }

  /** Under the invariant, a process's parent can be reported to. */
  lemma ReadyFromInv(t: Table, me: Pid)
    requires TableInv(t) && me in t
    ensures ReportReady(t, me)
  {
    assert LockstepAll(t) && BackLinks(t);
    if t[me].parent.Some? {
      var par := t[me].parent.value;
      assert par in t;
      assert Lockstep(t[par]);
    }
  }

  /** The entry a process with a parent occupies in its parent's arrays. */
  lemma SlotInParent(t: Table, me: Pid) returns (s: nat)
    requires TableInv(t) && me in t && t[me].parent.Some?
    ensures t[me].parent.value in t
    ensures var par := t[me].parent.value;
      && s == FirstLive(t[par].child, me)
      && s < |t[par].child|
      && t[par].child[s] == Some(me)
      && t[par].childPid[s] == me
      && (forall j :: 0 <= j < |t[par].child| && j != s ==> t[par].child[j] != Some(me))
  {
    var par := t[me].parent.value;
    assert Some(me) in t[par].child;
    s := FirstLive(t[par].child, me);
    assert LiveEntry(t, par, s);
    forall j | 0 <= j < |t[par].child| && j != s
      ensures t[par].child[j] != Some(me)
    {
      if t[par].child[j] == Some(me) {
        assert false;
      }
    }
  }

  // ---------------------------------------------------------------------
  // fork

  /** A successful fork keeps the table invariant. */
  lemma ForkPreservesInv(t: Table, caller: Pid, kid: Pid)
    requires TableInv(t) && caller in t && PidUnused(t, kid)
    ensures TableInv(ForkLinked(t, caller, kid))
  {
    var r := ForkLinked(t, caller, kid);
    var n := |t[caller].child|;
    forall p, i | p in r && 0 <= i < |r[p].child| && r[p].child[i].Some?
      ensures LiveEntry(r, p, i)
    {
      if p == caller && i == n {
      } else {
        assert p in t && r[p].child[i] == t[p].child[i];
        assert LiveEntry(t, p, i);
        var c := t[p].child[i].value;
        assert c != kid;
        assert c != caller || p == caller ==> r[c].parent == t[c].parent;
      }
    }
    forall c | c in r && r[c].parent.Some?
      ensures r[c].parent.value in r && Some(c) in r[r[c].parent.value].child
    {
      if c == kid {
        assert r[caller].child[n] == Some(kid);
      } else {
        var par := t[c].parent.value;
        var k :| 0 <= k < |t[par].child| && t[par].child[k] == Some(c);
        assert r[par].child[k] == Some(c);
      }
    }
    forall p, i, j | p in r && 0 <= i < j < |r[p].childPid|
      ensures r[p].childPid[i] != r[p].childPid[j]
    {
      if p == caller && j == n {
        assert r[p].childPid[i] == t[p].childPid[i];
      }
    }
  }

  // ---------------------------------------------------------------------
  // _exit

  /** A process the exiter still holds is its child, so no one else holds it. */
  lemma HeldByExiter(t: Table, me: Pid, c: Pid)
    requires TableInv(t) && me in t && Some(c) in t[me].child
    ensures c in t && t[c].parent == Some(me) && c != me
  {
    var k :| 0 <= k < |t[me].child| && t[me].child[k] == Some(c);
    assert LiveEntry(t, me, k);
  }

  /**
   * What _exit does to the record of one surviving process `x`: its pids
   * and array lengths stay, a non-NULL entry is one it already had, every
   * entry except one naming the exiter survives, no entry names the exiter
   * any more, and its parent link goes exactly when the exiter held it.
   */
  lemma ExitRecord(t: Table, me: Pid, code: int, x: Pid)
    requires TableInv(t) && me in t && x in t && x != me
    ensures ReportReady(t, me)
    ensures var e := Exited(t, me, code);
      && x in e
      && e[x].childPid == t[x].childPid
      && |e[x].child| == |t[x].child|
      && |e[x].childStatus| == |t[x].childStatus|
      && (forall j :: 0 <= j < |t[x].child| && e[x].child[j].Some? ==>
            e[x].child[j] == t[x].child[j] && e[x].childStatus[j] == t[x].childStatus[j])
      && (forall j :: 0 <= j < |t[x].child| && t[x].child[j] != Some(me) ==> e[x].child[j] == t[x].child[j])
      && (forall j :: 0 <= j < |t[x].child| ==> e[x].child[j] != Some(me))
      && e[x].parent == (if Some(x) in t[me].child then None else t[x].parent)
  {
    ReadyFromInv(t, me);
    var r := ReportToParent(t, me, code);
    var e := Exited(t, me, code);
    assert r[me] == t[me];
    assert e[x] == Orphaned(r, me)[x];
    assert e[x].child == r[x].child && e[x].childStatus == r[x].childStatus && e[x].childPid == r[x].childPid;
    if t[me].parent.Some? && x == t[me].parent.value {
      var s := SlotInParent(t, me);
      assert r[x] == Reported(t[x], me, code);
    } else {
      assert r[x] == t[x];
    }
  }

  /** _exit keeps the table invariant, with the exiting process gone. */
  lemma ExitPreservesInv(t: Table, me: Pid, code: int)
    requires TableInv(t) && me in t
    ensures ReportReady(t, me)
    ensures TableInv(Exited(t, me, code))
  {
    ReadyFromInv(t, me);
    var e := Exited(t, me, code);

    forall x | x in e
      ensures Lockstep(e[x])
    {
      ExitRecord(t, me, code, x);
      assert Lockstep(t[x]);
    }

    forall x, j | x in e && 0 <= j < |e[x].child| && e[x].child[j].Some?
      ensures LiveEntry(e, x, j)
    {
      ExitRecord(t, me, code, x);
      var c := e[x].child[j].value;
      assert LiveEntry(t, x, j);
      assert c != me;
      ExitRecord(t, me, code, c);
      if Some(c) in t[me].child {
        HeldByExiter(t, me, c);
      }
    }

    forall c | c in e && e[c].parent.Some?
      ensures e[c].parent.value in e && Some(c) in e[e[c].parent.value].child
    {
      ExitRecord(t, me, code, c);
      var x := t[c].parent.value;
      var k :| 0 <= k < |t[x].child| && t[x].child[k] == Some(c);
      assert x != me;
      ExitRecord(t, me, code, x);
      assert e[x].child[k] == Some(c);
    }

    forall x, i, j | x in e && 0 <= i < j < |e[x].childPid|
      ensures e[x].childPid[i] != e[x].childPid[j]
    {
      ExitRecord(t, me, code, x);
    }

    forall c | c in e
      ensures e[c].parent != Some(c)
    {
      ExitRecord(t, me, code, c);
    }
  }

  /**
   * When a parent exits, each child it held loses its parent link, so the
   * child's own later exit reports to nobody and leaves the table as it is.
   */
  lemma ExitOrphansChildren(t: Table, me: Pid, code: int, c: Pid, childCode: int)
    requires TableInv(t) && me in t && c in t && t[c].parent == Some(me)
    ensures ReportReady(t, me)
    ensures var e := Exited(t, me, code);
      && c in e
      && e[c].parent == None
      && ReportToParent(e, c, childCode) == e
  {
    ReadyFromInv(t, me);
    var r := ReportToParent(t, me, code);
    assert Some(c) in t[me].child;
    assert me != c;
    assert r[me] == t[me];
  }

  /**
   * A child's exit code reaches its parent: before the exit a wait on it
   * would block, afterwards the wait does not block and reads the code.
   */
  lemma ExitReportsStatus(t: Table, me: Pid, code: int)
    requires TableInv(t) && me in t && t[me].parent.Some?
    ensures ReportReady(t, me)
    ensures var par := t[me].parent.value;
      var e := Exited(t, me, code);
      && par in t && par in e
      && Lockstep(t[par]) && Lockstep(e[par])
      && WouldBlock(t[par], me)
      && !WouldBlock(e[par], me)
      && StatusOf(e[par], me) == code
  {
    var par := t[me].parent.value;
    var s := SlotInParent(t, me);
    var e := Exited(t, me, code);
    ExitPreservesInv(t, me, code);
    DistinctOf(t, par);
    ScansAgree(t[par], s);
    assert e[par].childPid == t[par].childPid;
    assert e[par].child[s] == None && e[par].childStatus[s] == code;
    DistinctOf(e, par);
    ScansAgree(e[par], s);
  }

  // ---------------------------------------------------------------------
  // reported slots are written once

  /**
   * A slot whose child has reported (its child entry is NULL) keeps its
   * pid and status through any later fork, and a wait on that pid keeps
   * returning the same status.
   */
  lemma ReportedSlotStableUnderFork(t: Table, p: Pid, i: int, caller: Pid, kid: Pid)
    requires TableInv(t) && p in t && 0 <= i < |t[p].child| && t[p].child[i].None?
    requires caller in t && PidUnused(t, kid)
    ensures var f := ForkLinked(t, caller, kid);
      && p in f && Lockstep(t[p]) && Lockstep(f[p])
      && f[p].child[i] == None
      && f[p].childPid[i] == t[p].childPid[i]
      && f[p].childStatus[i] == t[p].childStatus[i]
      && !WouldBlock(f[p], t[p].childPid[i])
      && StatusOf(f[p], t[p].childPid[i]) == StatusOf(t[p], t[p].childPid[i]) == t[p].childStatus[i]
  {
    var f := ForkLinked(t, caller, kid);
    ForkPreservesInv(t, caller, kid);
    DistinctOf(t, p);
    DistinctOf(f, p);
    ScansAgree(t[p], i);
    ScansAgree(f[p], i);
  }

  /** The same through the exit of any process other than the slot's owner. */
  lemma ReportedSlotStableUnderExit(t: Table, p: Pid, i: int, q: Pid, code: int)
    requires TableInv(t) && p in t && 0 <= i < |t[p].child| && t[p].child[i].None?
    requires q in t && q != p
    ensures ReportReady(t, q)
    ensures var e := Exited(t, q, code);
      && p in e && Lockstep(t[p]) && Lockstep(e[p])
      && e[p].child[i] == None
      && e[p].childPid[i] == t[p].childPid[i]
      && e[p].childStatus[i] == t[p].childStatus[i]
      && !WouldBlock(e[p], t[p].childPid[i])
      && StatusOf(e[p], t[p].childPid[i]) == StatusOf(t[p], t[p].childPid[i]) == t[p].childStatus[i]
  {
    ExitPreservesInv(t, q, code);
    var e := Exited(t, q, code);
    var r := ReportToParent(t, q, code);
    if t[q].parent.Some? && p == t[q].parent.value {
      var s := SlotInParent(t, q);
      assert s != i;
    }
    assert e[p].child == r[p].child;
    DistinctOf(t, p);
    DistinctOf(e, p);
    ScansAgree(t[p], i);
    ScansAgree(e[p], i);
  }
}
