/**
 * The two sandbox layers together, for a system call the UDF makes through
 * glibc once both `syscall_intercept_init` and `syscall_filter_init` have run:
 * the hook sees the call first and may take it over with `-EPERM`; a call it
 * lets through reaches the kernel, whose seccomp filter allows it or kills
 * the process.
 */
module SandboxPolicy {
  import opened Syscalls
  import opened SyscallIntercept
  import opened SeccompFilter

  datatype Outcome = Performed | Refused(ret: int) | Killed

  /** The fate of one call under the allow-list `files` and the loaded `filter`. */
  function Decide(files: seq<string>, filter: Filter, call: Syscall, mem: Memory): (o: Outcome)
    ensures o == Performed <==> Intercept(files, call, mem, 0).code == 1 && Evaluate(filter, call) == Allow
    ensures o.Refused? <==> Intercept(files, call, mem, 0).code == 0
    ensures o.Refused? ==> o.ret == -EPerm
  {
    var v := Intercept(files, call, mem, 0);
    if v.code == 0 then Refused(v.ret)
    else if Evaluate(filter, call) == Allow then Performed
    else Killed
  }

  /** A call that takes a path goes ahead only if the path is allowed and the filter agrees. */
  lemma PathCallsNeedBoth(files: seq<string>, filter: Filter, call: Syscall, mem: Memory)
    requires PathArg(call.name).Some?
    ensures Decide(files, filter, call, mem) == Performed <==>
              mem(Arg(call, PathArg(call.name).value)) in files && Evaluate(filter, call) == Allow
    ensures mem(Arg(call, PathArg(call.name).value)) !in files ==>
              Decide(files, filter, call, mem) == Refused(-EPerm)
  {
  }

  /** A call without a path argument is left to the filter alone. */
  lemma OtherCallsFiltered(files: seq<string>, filter: Filter, call: Syscall, mem: Memory)
    requires PathArg(call.name).None?
    ensures Decide(files, filter, call, mem) == if Evaluate(filter, call) == Allow then Performed else Killed
  {
  }

  /**
   * With the shipped allow-list and the filter as loaded: a call goes ahead
   * iff it is listed, an `ioctl` asks for `FIONREAD`, and a path call names
   * `/etc/resolv.conf`.
   */
  lemma ShippedSandbox(glob: Glob, call: Syscall, mem: Memory)
    ensures Decide(Resolve([ResolvConf], glob), Installed, call, mem) == Performed <==>
              && call.name in AllowedNames
              && (call.name == "ioctl" ==> call.a1 == FionRead)
              && (PathArg(call.name).Some? ==> mem(Arg(call, PathArg(call.name).value)) == ResolvConf)
  {
    LiteralsKept([ResolvConf], glob);
    AllowedExactly(call);
    if PathArg(call.name).Some? {
      ShippedList(glob, call, mem, 0);
    }
  }

  /** As written, the sandbox lets the UDF open `/etc/resolv.conf` for writing. */
  lemma ResolvConfWritable(glob: Glob, call: Syscall, mem: Memory)
    requires call.name == "open" && mem(call.a0) == ResolvConf && call.a1 == ORdWr
    ensures Decide(Resolve([ResolvConf], glob), Installed, call, mem) == Performed
  {
    ShippedSandbox(glob, call, mem);
  }

  /** With the access-mode mask, the same call kills the UDF instead. */
  lemma ResolvConfReadOnly(glob: Glob, call: Syscall, mem: Memory)
    requires call.name == "open" && mem(call.a0) == ResolvConf && call.a1 == ORdWr
    ensures Decide(Resolve([ResolvConf], glob), Filter(KillProcess, ReadOnlyAllowList), call, mem) == Killed
  {
    LiteralsKept([ResolvConf], glob);
    ReadOnlyOpens(call);
  }
}
