/**
 * sys_execv of os161-1.99/kern/syscall/proc_syscalls.c: counting the
 * argument vector, the order of the failure exits, and the argument
 * layout it writes on the new user stack. Stack memory is modelled by
 * slot: a map from the address a slot starts at to what was stored there.
 */
module ExecStack {
  import opened SysTypes

  /** A user-space address; 0 is NULL. */
  type UserPtr = int

  const NULL: UserPtr := 0

  /** Bytes in each argument string slot. */
  const SLOT: int := 128

  /** Bytes in each argv pointer. */
  const PTR: int := 4

  datatype StackCell =
    /** the 128-byte slot holding the copy of argument `index` */
    | ArgString(index: nat)
    /** the 128-byte slot written after the strings, from a NULL source */
    | BlankSlot
    /** a 4-byte word holding the address `target` */
    | ArgvEntry(target: int)

  /** Where argument `k` of `n` is stored, below the initial stack pointer `top`. */
  function StringSlot(top: int, n: nat, k: nat): (a: int)
    ensures k < n ==> top - SLOT * n <= a && a + SLOT <= top
  {
    top - SLOT * (n - k)
  }

  /** The blank slot just below the lowest argument string. */
  function SentinelSlot(top: int, n: nat): int
  {
    top - SLOT * (n + 1)
  }

  /** The lowest argv word: the stack pointer handed to the new program. */
  function ArgvBase(top: int, n: nat): int
  {
    SentinelSlot(top, n) - PTR * n
  }

  /** Where argv word `j` of `n` is stored. */
  function ArgvWord(top: int, n: nat, j: nat): (a: int)
    ensures j < n ==> ArgvBase(top, n) <= a && a + PTR <= SentinelSlot(top, n)
  {
    ArgvBase(top, n) + PTR * j
  }

  /** `mem` with the argument strings `from` .. n-1 stored in their slots. */
  function WithStrings(mem: map<int, StackCell>, top: int, n: nat, from: nat): map<int, StackCell>
    decreases n - from
  {
    if from >= n then mem
    else WithStrings(mem, top, n, from + 1)[StringSlot(top, n, from) := ArgString(from)]
  }

  /** `mem` with the argv words `from` .. n-1 stored, each holding its argument's slot address. */
  function WithPointers(mem: map<int, StackCell>, top: int, n: nat, from: nat): map<int, StackCell>
    decreases n - from
  {
    if from >= n then mem
    else WithPointers(mem, top, n, from + 1)[ArgvWord(top, n, from) := ArgvEntry(StringSlot(top, n, from))]
  }

  /** Everything execv stores on the new stack for `n` arguments. */
  function StackImage(top: int, n: nat): map<int, StackCell>
  {
    WithPointers(WithStrings(map[], top, n, 0)[SentinelSlot(top, n) := BlankSlot], top, n, 0)
  }

  /** Argument k's slot holds argument k. */
  lemma {:induction false} StringStored(mem: map<int, StackCell>, top: int, n: nat, from: nat, k: nat)
    requires from <= k < n
    ensures var m := WithStrings(mem, top, n, from);
      StringSlot(top, n, k) in m && m[StringSlot(top, n, k)] == ArgString(k)
    decreases n - from
  {
    if from < k {
      StringStored(mem, top, n, from + 1, k);
    }
  }

  /** Argv word j holds the address of argument j's slot. */
  lemma {:induction false} PointerStored(mem: map<int, StackCell>, top: int, n: nat, from: nat, j: nat)
    requires from <= j < n
    ensures var m := WithPointers(mem, top, n, from);
      var w := ArgvBase(top, n) + PTR * j;
      w in m && m[w] == ArgvEntry(StringSlot(top, n, j))
    decreases n - from
  {
    if from < j {
      PointerStored(mem, top, n, from + 1, j);
    }
  }

  /** From the blank slot upward, `mem` shows through the argv words unchanged. */
  lemma {:induction false} AbovePointers(mem: map<int, StackCell>, top: int, n: nat, from: nat, a: int)
    requires a >= SentinelSlot(top, n)
    ensures var m := WithPointers(mem, top, n, from);
      (a in m <==> a in mem) && (a in mem ==> m[a] == mem[a])
    decreases n - from
  {
    if from < n {
      AbovePointers(mem, top, n, from + 1, a);
    }
  }

  /** The string builder stores exactly the slots of arguments `from` .. n-1 on top of `mem`. */
  lemma {:induction false} StringsDomain(mem: map<int, StackCell>, top: int, n: nat, from: nat, a: int)
    ensures a in WithStrings(mem, top, n, from) <==>
      a in mem || exists k: nat :: from <= k < n && a == StringSlot(top, n, k)
    decreases n - from
  {
    if from < n {
      StringsDomain(mem, top, n, from + 1, a);
      if a == StringSlot(top, n, from) {
        assert from <= from < n && a == StringSlot(top, n, from);
      }
    }
  }

  /** The argv builder stores exactly the words of arguments `from` .. n-1 on top of `mem`. */
  lemma {:induction false} PointersDomain(mem: map<int, StackCell>, top: int, n: nat, from: nat, a: int)
    ensures a in WithPointers(mem, top, n, from) <==>
      a in mem || exists j: nat :: from <= j < n && a == ArgvWord(top, n, j)
    decreases n - from
  {
    if from < n {
      PointersDomain(mem, top, n, from + 1, a);
      if a == ArgvWord(top, n, from) {
        assert from <= from < n && a == ArgvWord(top, n, from);
      }
    }
  }

  /**
   * execv stores nothing on the new stack but the n string slots, the
   * blank slot and the n argv words; in particular nothing below the final
   * stack pointer and nothing at or above the initial one.
   */
  lemma ImageDomain(top: int, n: nat, a: int)
    ensures a in StackImage(top, n) <==>
      || (exists k: nat :: k < n && a == StringSlot(top, n, k))
      || a == SentinelSlot(top, n)
      || (exists j: nat :: j < n && a == ArgvWord(top, n, j))
    ensures a < ArgvBase(top, n) || a >= top ==> a !in StackImage(top, n)
  {
    var strings := WithStrings(map[], top, n, 0);
    PointersDomain(strings[SentinelSlot(top, n) := BlankSlot], top, n, 0, a);
    StringsDomain(map[], top, n, 0, a);
  }

  /**
   * The slots tile the region below `top` without gaps or overlap: the
   * argument strings in argument order up to `top`, the blank slot below
   * them, and the n argv words below that; the word argv[n] would occupy
   * is the first word of the blank slot.
   */
  lemma Contiguous(top: int, n: nat)
    ensures forall k: nat :: k + 1 < n ==> StringSlot(top, n, k) + SLOT == StringSlot(top, n, k + 1)
    ensures n > 0 ==> StringSlot(top, n, n - 1) + SLOT == top
    ensures SentinelSlot(top, n) + SLOT == if n > 0 then StringSlot(top, n, 0) else top
    ensures ArgvBase(top, n) + PTR * n == SentinelSlot(top, n)
  {
  }

  /**
   * Following argv[j] from the final stack pointer leads to argument j:
   * the word at sp + 4*j holds the address of a slot that holds the copy
   * of argument j, and the blank slot holds no argument.
   */
  lemma ArgvResolves(top: int, n: nat, j: nat)
    requires j < n
    ensures var img := StackImage(top, n);
      var w := ArgvBase(top, n) + PTR * j;
      && w in img && img[w] == ArgvEntry(StringSlot(top, n, j))
      && StringSlot(top, n, j) in img && img[StringSlot(top, n, j)] == ArgString(j)
      && SentinelSlot(top, n) in img && img[SentinelSlot(top, n)] == BlankSlot
  {
    var strings := WithStrings(map[], top, n, 0);
    var base := strings[SentinelSlot(top, n) := BlankSlot];
    PointerStored(base, top, n, 0, j);
    AbovePointers(base, top, n, 0, StringSlot(top, n, j));
    AbovePointers(base, top, n, 0, SentinelSlot(top, n));
    StringStored(map[], top, n, 0, j);
  }

  /**
   * The argument-counting loop: the number of entries before the first
   * NULL in the argument vector.
   */
  method CountArgs(args: seq<UserPtr>) returns (argSize: nat)
    requires NULL in args
    ensures argSize < |args| && args[argSize] == NULL
    ensures forall j :: 0 <= j < argSize ==> args[j] != NULL
  {
    argSize := 0;
    while args[argSize] != NULL
      invariant argSize < |args| && NULL in args[argSize..]
      invariant forall j :: 0 <= j < argSize ==> args[j] != NULL
      decreases |args| - argSize
    {
      assert args[argSize..] == [args[argSize]] + args[argSize + 1..];
      argSize := argSize + 1;
    }
  }

  /**
   * The stack-building loops: `userStack` starts at `stackptr` and moves
   * down 128 bytes per argument string (the last argument first), 128 for
   * the blank slot, then 4 bytes per argv word, each word storing the
   * address computed by the source's formula.
   */
  method BuildStack(stackptr: int, argSize: nat) returns (sp: int, stack: map<int, StackCell>)
    ensures sp == ArgvBase(stackptr, argSize)
    ensures stack == StackImage(stackptr, argSize)
  {
    var userStack := stackptr;
    stack := map[];
    var i := 0;
    while i < argSize
      invariant 0 <= i <= argSize
      invariant userStack == stackptr - SLOT * i
      invariant stack == WithStrings(map[], stackptr, argSize, argSize - i)
    {
      userStack := userStack - SLOT;
      stack := stack[userStack := ArgString(argSize - i - 1)];
      i := i + 1;
    }
    userStack := userStack - SLOT;
    stack := stack[userStack := BlankSlot];
    ghost var strings := stack;
    i := 0;
    while i < argSize
      invariant 0 <= i <= argSize
      invariant userStack == SentinelSlot(stackptr, argSize) - PTR * i
      invariant stack == WithPointers(strings, stackptr, argSize, argSize - i)
    {
      userStack := userStack - PTR;
      stack := stack[userStack := ArgvEntry(userStack + SLOT * (argSize - i) + PTR * (1 + i))];
      i := i + 1;
    }
    sp := userStack;
  }

  /** Which address space is the process's after execv returns. */
  datatype AddrSpace = OldSpace | NewSpace

  datatype ExecOutcome =
    | ExecFailed(error: Errno, active: AddrSpace)
    /** control passes to enter_new_process(argc, argv, sp, entry) */
    | Entered(argc: nat, argv: int, sp: int, entry: int, stack: map<int, StackCell>)

  /**
   * sys_execv. The foreign steps come in as their results: `openResult`
   * from vfs_open, `asCreated` whether as_create returned an address
   * space, `loadResult` and `entrypoint` from load_elf, and
   * `defineStackResult` and `stackptr` from as_define_stack. Once the new
   * address space is installed it stays installed, on failure too.
   */
  method Execv(args: seq<UserPtr>, openResult: int, asCreated: bool, loadResult: int, entrypoint: int,
               defineStackResult: int, stackptr: int) returns (r: ExecOutcome)
    requires NULL in args
    ensures openResult != 0 ==> r == ExecFailed(Code(openResult), OldSpace)
    ensures openResult == 0 && !asCreated ==> r == ExecFailed(ENOMEM, OldSpace)
    ensures openResult == 0 && asCreated && loadResult != 0 ==> r == ExecFailed(Code(loadResult), NewSpace)
    ensures openResult == 0 && asCreated && loadResult == 0 && defineStackResult != 0 ==>
      r == ExecFailed(Code(defineStackResult), NewSpace)
    ensures openResult == 0 && asCreated && loadResult == 0 && defineStackResult == 0 ==>
      && r.Entered?
      && r.argc < |args| && args[r.argc] == NULL
      && (forall j :: 0 <= j < r.argc ==> args[j] != NULL)
      && r.argv == r.sp == ArgvBase(stackptr, r.argc)
      && r.entry == entrypoint
      && r.stack == StackImage(stackptr, r.argc)
  {
    var argSize := CountArgs(args);
    if openResult != 0 {
      return ExecFailed(Code(openResult), OldSpace);
    }
    if !asCreated {
      return ExecFailed(ENOMEM, OldSpace);
    }
    if loadResult != 0 {
      return ExecFailed(Code(loadResult), NewSpace);
    }
    if defineStackResult != 0 {
      return ExecFailed(Code(defineStackResult), NewSpace);
    }
    var sp, stack := BuildStack(stackptr, argSize);
    r := Entered(argSize, sp, sp, entrypoint, stack);
  }
}
