# OS/161 process system calls in Dafny

A model of `os161-1.99/kern/syscall/proc_syscalls.c`, the user-process
system calls of the OS/161 teaching kernel, with proofs about it.

- **Parent/child bookkeeping of `fork`, `_exit`, `waitpid` and `getpid`.**
  Every process keeps three arrays that are used in lock-step by index:
  - `child` holds references to its children; an entry is nulled once that
    child has reported.
  - `ChildPid` holds the children's pids.
  - `ChildStatus` holds each child's exit status, or the sentinel -10086
    while the child is alive.

  Each process also keeps a `parent` link.
  - `ProcTable` models these as values: one `Proc` record per process in a
    table keyed by pid. It defines one function per lock-protected region:
    - `ForkLinked`: the fork links the child in.
    - `ReportToParent`: the exiting child writes its code into the parent's
      slot.
    - `Orphaned`: the exiting parent disowns its children and empties its
      arrays.
    - `Exited`: the whole exit, after which the record leaves the table.
    - `WouldBlock` and `StatusOf`: the two scans of `waitpid`.
  - `ProcSyscalls.Kernel` is a class over that table. Its methods walk the
    arrays the way the C loops do, and each is proved to compute the function
    for its region. `Fork` and the whole of `Exit` also keep the table
    invariant `TableInv`. The two halves of `Exit`, `ExitReport` and
    `ExitOrphanAndClear`, only compute `ReportToParent` and `Orphaned`: the
    invariant does not hold between them, because the reporter still names a
    parent that no longer holds it. The wait methods change nothing.
    `TableInv` has five parts:
    - the arrays have equal lengths;
    - a live child reference names a live process whose parent is the owner,
      filed under that pid with status -10086;
    - a parent link names a live parent that still refers to the child;
    - the pids within one `ChildPid` array are distinct;
    - no process is its own parent.
  - `ProcProofs` proves what the bookkeeping is for:
    - fork and exit preserve the invariant;
    - an exit code reaches the parent, so a wait that would have blocked
      now reads the code;
    - children of an exiting parent are orphaned, and their own exits then
      report to no one;
    - a reported slot keeps its pid and status through every later fork and
      exit, which makes repeated waits return the same status;
    - the first-index scan and the last-index scan of `waitpid` agree.
  - `Scenarios` holds client methods that call the class. They are verified for any valid table.
- **`execv`'s argument handling.** `ExecStack` models:
  - the loop that counts the arguments up to the NULL entry;
  - the order in which the external steps can fail, and which address
    space is active afterwards;
  - the layout written on the new user stack. The argument strings go in
    128-byte slots, in argument order, below the initial stack pointer. One
    blank slot sits below them. Below that sit one 4-byte argv word per
    argument. The stack pointer handed to the new program is the lowest
    argv word.

  `BuildStack` mirrors the source's loops and pointer formula. It is proved
  to produce `StackImage`, and `ArgvResolves` proves that argv word `j`
  holds the address of the slot that holds argument `j`.

In three places the code departs from the usual contract of these calls.
The model follows the code:
- A `waitpid` on a pid the caller never forked does not fail with ECHILD. It
  reads the status -99 (`UNTRACKED`).
- A failure of `load_elf` or `as_define_stack` does not leave the caller's
  image in place. The new address space stays installed (`NewSpace`).
- argv does not end in a NULL word. No word is written after the last
  argument, and `argv[argc]` falls on the first word of the blank slot.

## Model

| member | source | states |
|---|---|---|
| ProcTable.ForkLinked | os161-1.99/kern/syscall/proc_syscalls.c:37-46 | after a fork, the table has exactly one new record, the child's, whose parent is the caller and which has no children. The caller's three arrays each grow by one entry at the end: the child reference, its pid, and the alive sentinel -10086. Earlier entries and every other record are unchanged. |
| ProcTable.FirstLive | os161-1.99/kern/syscall/proc_syscalls.c:174-181 | the index the exit loop stops at is the first entry that refers to the exiting process, or the array length if none does |
| ProcTable.Reported | os161-1.99/kern/syscall/proc_syscalls.c:174-183 | the parent's first entry for the exiting child becomes NULL and its status slot receives the exit code. Every other entry, every other status and the pid array are unchanged. The record is unchanged if no entry refers to the child. |
| ProcTable.ReportToParent | os161-1.99/kern/syscall/proc_syscalls.c:170-184 | only the parent's record may change. A process without a parent changes nothing. |
| ProcTable.Orphaned | os161-1.99/kern/syscall/proc_syscalls.c:191-211 | every process the exiting one still refers to loses its parent link, and no other parent link changes. The exiting process's three arrays become empty. All other arrays are unchanged. |
| ProcTable.Exited | os161-1.99/kern/syscall/proc_syscalls.c:170-232 | after an exit, the table holds exactly the other processes |
| ProcTable.FirstPidIndex | os161-1.99/kern/syscall/proc_syscalls.c:284-294 | the first index holding the pid, or the length when there is none |
| ProcTable.LastPidIndex | os161-1.99/kern/syscall/proc_syscalls.c:305-310 | the last index holding the pid, or -1 when there is none |
| ProcTable.StatusOf | os161-1.99/kern/syscall/proc_syscalls.c:276-310 | a pid that was never a child reads -99. Otherwise the status stored at the last index holding that pid is read. |
| ProcTable.WouldBlock | os161-1.99/kern/syscall/proc_syscalls.c:284-294 | the wait blocks exactly when some index holds the pid, no earlier index holds it, and that index's child entry is non-NULL |
| ProcProofs.UniqueIndex | os161-1.99/kern/syscall/proc_syscalls.c:284-310 | in an array of distinct pids, the forward scan and the backward scan both find a pid at its own index |
| ProcProofs.ScansAgree | os161-1.99/kern/syscall/proc_syscalls.c:284-310 | with distinct child pids, a wait on child i blocks exactly when entry i still refers to the child, and it reads status slot i |
| ProcProofs.ReadyFromInv | os161-1.99/kern/syscall/proc_syscalls.c:170-178 | under the table invariant, the report step's dereferences are defined: the parent is live and its status array covers its child array |
| ProcProofs.SlotInParent | os161-1.99/kern/syscall/proc_syscalls.c:170-181 | a process with a parent is referred to by exactly one entry of the parent's child array. That entry is the one the report loop finds, and it is filed under the process's pid. |
| ProcProofs.ForkPreservesInv | os161-1.99/kern/syscall/proc_syscalls.c:37-46 | a fork of an unused pid keeps the table invariant |
| ProcProofs.HeldByExiter | os161-1.99/kern/syscall/proc_syscalls.c:194-198 | every process the orphaning loop touches is live, names the exiting process as its parent, and is not the exiting process itself |
| ProcProofs.ExitRecord | os161-1.99/kern/syscall/proc_syscalls.c:170-211 | through an exit, every other record keeps its pids and array lengths. Live entries are unchanged, and only entries naming the exiting process change. No entry names the exiting process afterwards. A record's parent link is cleared exactly when the exiting process held it. |
| ProcProofs.ExitPreservesInv | os161-1.99/kern/syscall/proc_syscalls.c:153-232 | an exit keeps the table invariant |
| ProcProofs.ExitOrphansChildren | os161-1.99/kern/syscall/proc_syscalls.c:191-198 | a child of an exiting parent survives with no parent, so its own later report changes nothing |
| ProcProofs.ExitReportsStatus | os161-1.99/kern/syscall/proc_syscalls.c:170-183 | before a child exits, its parent's wait on it blocks. Afterwards the wait does not block and reads the exit code. |
| ProcProofs.ReportedSlotStableUnderFork | os161-1.99/kern/syscall/proc_syscalls.c:37-46 | a reported slot keeps its pid and status through any later fork. A wait on that pid keeps not blocking and keeps reading the same status. |
| ProcProofs.ReportedSlotStableUnderExit | os161-1.99/kern/syscall/proc_syscalls.c:170-211 | the same holds through the exit of any process other than the slot's owner |
| ProcSyscalls.Kernel.Fork | os161-1.99/kern/syscall/proc_syscalls.c:22-52 | if process creation or the address-space copy fails, fork returns -1 and the table is unchanged. Otherwise it returns the child's pid, the table becomes `ForkLinked`, and the invariant is kept. |
| ProcSyscalls.Kernel.ExitReport | os161-1.99/kern/syscall/proc_syscalls.c:170-187 | the report loop computes `ReportToParent` |
| ProcSyscalls.Kernel.ExitOrphanAndClear | os161-1.99/kern/syscall/proc_syscalls.c:191-211 | the orphaning loop and the two emptying loops compute `Orphaned` |
| ProcSyscalls.Kernel.Exit | os161-1.99/kern/syscall/proc_syscalls.c:153-237 | exit computes `Exited` and keeps the invariant |
| ProcSyscalls.Kernel.GetPid | os161-1.99/kern/syscall/proc_syscalls.c:241-248 | getpid succeeds with the caller's own pid |
| ProcSyscalls.Kernel.ScanAlive | os161-1.99/kern/syscall/proc_syscalls.c:276-301 | the first scan sets childAlive exactly when the first entry for the pid still refers to a live child |
| ProcSyscalls.Kernel.ScanStatus | os161-1.99/kern/syscall/proc_syscalls.c:303-311 | the second scan reads the status at the last entry for the pid, or -99 |
| ProcSyscalls.Kernel.FinishWait | os161-1.99/kern/syscall/proc_syscalls.c:303-319 | a failed copyout returns its error. Otherwise the pid and the scanned status are returned. |
| ProcSyscalls.Kernel.WaitPid | os161-1.99/kern/syscall/proc_syscalls.c:252-320 | nonzero options fail with EINVAL. The caller sleeps exactly when the child is still live. Otherwise it returns the copyout error, or the pid with the status the child reported. |
| ExecStack.StringSlot | os161-1.99/kern/syscall/proc_syscalls.c:129-132 | argument k's 128-byte slot, at stackptr - 128(n-k), lies inside the n slots below the initial stack pointer |
| ExecStack.SentinelSlot | os161-1.99/kern/syscall/proc_syscalls.c:133-134 | the blank slot, 128 bytes below the lowest argument string |
| ExecStack.ArgvBase | os161-1.99/kern/syscall/proc_syscalls.c:136-147 | the lowest argv word, n words below the blank slot, and the stack pointer handed to the new program |
| ExecStack.ArgvWord | os161-1.99/kern/syscall/proc_syscalls.c:136-139 | argv word j lies between the lowest argv word and the blank slot |
| ExecStack.WithStrings | os161-1.99/kern/syscall/proc_syscalls.c:129-132 | the string loop's writes: argument k in its slot for each k; `StringStored` and `StringsDomain` state what it holds |
| ExecStack.WithPointers | os161-1.99/kern/syscall/proc_syscalls.c:136-140 | the argv loop's writes: word j holding argument j's slot address; `PointerStored`, `PointersDomain` and `AbovePointers` state what it holds |
| ExecStack.StackImage | os161-1.99/kern/syscall/proc_syscalls.c:129-140 | everything execv writes on the new stack; `ArgvResolves` and `ImageDomain` state what it holds and that it holds nothing else |
| ExecStack.StringStored | os161-1.99/kern/syscall/proc_syscalls.c:129-132 | argument k's slot holds argument k |
| ExecStack.PointerStored | os161-1.99/kern/syscall/proc_syscalls.c:136-140 | argv word j holds the address of argument j's slot |
| ExecStack.AbovePointers | os161-1.99/kern/syscall/proc_syscalls.c:133-140 | the argv words lie strictly below the blank slot, so writing them leaves the strings and the blank slot intact |
| ExecStack.StringsDomain | os161-1.99/kern/syscall/proc_syscalls.c:129-132 | the string loop adds exactly the slots of the arguments it copies, and no other address |
| ExecStack.PointersDomain | os161-1.99/kern/syscall/proc_syscalls.c:136-140 | the argv loop adds exactly one word per argument, and no other address |
| ExecStack.ImageDomain | os161-1.99/kern/syscall/proc_syscalls.c:121-140 | the new stack holds exactly the n string slots, the blank slot and the n argv words. Nothing lies below the final stack pointer or at or above the initial one. |
| ExecStack.Contiguous | os161-1.99/kern/syscall/proc_syscalls.c:129-140 | the slots tile the region below the initial stack pointer without gap or overlap. The lowest argv word plus 4n is the blank slot. |
| ExecStack.ArgvResolves | os161-1.99/kern/syscall/proc_syscalls.c:121-147 | from the final stack pointer, argv word j points at a slot holding argument j, and the blank slot holds no argument |
| ExecStack.CountArgs | os161-1.99/kern/syscall/proc_syscalls.c:55-60 | the count is the index of the first NULL entry, and every entry before it is non-NULL |
| ExecStack.BuildStack | os161-1.99/kern/syscall/proc_syscalls.c:121-140 | the copy loops, stepping down 128 bytes per string and 4 bytes per word with the source's address formula, write exactly `StackImage`. They end with the stack pointer at the lowest argv word. |
| ExecStack.Execv | os161-1.99/kern/syscall/proc_syscalls.c:54-150 | the failures come in order: vfs_open and as_create leave the old address space active, while load_elf and as_define_stack leave the new one. On success, the new program is entered with argc equal to the argument count, argv and sp at the lowest argv word, the loader's entry point, and the stack image. |

## Left out

- Locks, condition variables, threads and interleaving. Each lock-protected region runs as one step. `cv_wait` is the `Blocks` outcome, and the code after the wake is `FinishWait`.
- `proc_create_runprogram`, `as_create`, `as_copy`, `vfs_open`, `load_elf`, `as_define_stack`, `copyin` and `copyout` are outside this file. Their results come in as parameters.
- The pid of a new process comes from the pid allocator, which is not part of this model. `Fork` requires the pid to be unused: no live process has it and no parent still tracks it.
- Process creation itself is not part of this model. A new record starts with no parent and empty arrays. A fork that fails after creating the process leaks it, and the model leaves it out of the table.
- The trapframe copy, `thread_fork` and `enter_forked_process` are left out, along with the child's side of fork returning 0.
- `proc_destroy` appears only as the removal of the exiting process's record. Address-space teardown, `proc_remthread` and `thread_exit` are left out.
- `kmalloc`/`kfree`, the heap arrays of execv, and memory leaks are left out.
- `Errno`'s numeric values are left out because kern/errno.h is not part of this model.
- WaitPid: the status is returned raw, as `rawStatus`. The encoding `_MKWAIT_EXIT` applies before copyout is left out because kern/wait.h is not part of this model.
- FinishWait: the same raw status, for the same reason.
- CountArgs: the count loop reads the user's argument vector directly, with no `copyin` and no bound. An argument vector that is unterminated or at an invalid address makes the kernel fault rather than return an error. The model requires the vector to hold a NULL entry and leaves that fault out.
- Execv: the bytes of the argument strings and the program name are left out. A slot records only which argument it holds. The `copyin` results that the source ignores or `KASSERT`s are left out, and so is truncation of strings to 128 bytes. `copyout(NULL, …)` is modelled as a `BlankSlot` whose contents are unspecified.
- BuildStack: 32-bit address wrap-around and the bounds of the stack region are not modelled. Addresses are unbounded integers.
