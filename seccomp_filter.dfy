/**
 * The kernel half of the sandbox in `sandbox_library.cpp`
 * (`syscall_filter_init`): a seccomp filter whose default action kills the
 * process, with one allow rule per listed system call, some of them tied to a
 * comparison on one argument.
 *
 * libseccomp is foreign code: `seccomp_rule_add`'s and `seccomp_load`'s
 * results are parameters, and the filter the kernel then enforces is the
 * value `Evaluate` interprets.
 */
module SeccompFilter {
  import opened Wrappers
  import opened Syscalls

  datatype Action = KillProcess | Allow

  type ArgIndex = k: nat | k < 6

  /** `SCMP_CMP_EQ` and `SCMP_CMP_MASKED_EQ` (the latter with its mask). */
  datatype CmpOp = Eq | MaskedEq(mask: bv64)

  /** `SCMP_Ak(op, ..., datum)`. */
  datatype ArgCmp = ArgCmp(arg: ArgIndex, op: CmpOp, datum: bv64)

  /** One `seccomp_rule_add(ctx, SCMP_ACT_ALLOW, SCMP_SYS(name), n, cmps...)`. */
  datatype Rule = Rule(name: string, cmps: seq<ArgCmp>)

  /** A loaded filter: the default action and the allow rules. */
  datatype Filter = Filter(defaultAction: Action, rules: seq<Rule>)

  /** The allow rules, in the order `syscall_filter_init` adds them, with `open`
   *  and `openat` gated by `(flags & accessMask) == O_RDONLY`. */
  function AllowTable(accessMask: bv64): (t: seq<Rule>)
    ensures |t| == 30
  {
    [ Rule("brk", []), Rule("exit_group", []),
      Rule("socket", []), Rule("setsockopt", []),
      Rule("ioctl", [ArgCmp(1, Eq, FionRead)]),
      Rule("connect", []), Rule("select", []), Rule("poll", []),
      Rule("read", []), Rule("recv", []), Rule("recvfrom", []),
      Rule("write", []), Rule("send", []), Rule("sendto", []),
      Rule("sendmsg", []), Rule("close", []),
      Rule("stat", []), Rule("lstat", []), Rule("fstat", []), Rule("fstat64", []),
      Rule("open", [ArgCmp(1, MaskedEq(accessMask), ORdOnly)]),
      Rule("openat", [ArgCmp(2, MaskedEq(accessMask), ORdOnly)]),
      Rule("mmap", []), Rule("mmap2", []), Rule("munmap", []),
      Rule("lseek", []), Rule("_llseek", []), Rule("futex", []),
      Rule("uname", []), Rule("mprotect", []) ]
  }

  /** The table as written: the mask given for `open` and `openat` is `O_RDONLY` itself. */
  const AllowList: seq<Rule> := AllowTable(ORdOnly)

  /** The names of the allowed system calls. */
  const AllowedNames: set<string> := {
    "brk", "exit_group", "socket", "setsockopt", "ioctl", "connect", "select",
    "poll", "read", "recv", "recvfrom", "write", "send", "sendto", "sendmsg",
    "close", "stat", "lstat", "fstat", "fstat64", "open", "openat", "mmap",
    "mmap2", "munmap", "lseek", "_llseek", "futex", "uname", "mprotect" }

  /** Whether one argument comparison holds of a call. */
  predicate CmpHolds(c: ArgCmp, call: Syscall)
  {
    match c.op
    case Eq => Arg(call, c.arg) == c.datum
    case MaskedEq(mask) => Arg(call, c.arg) & mask == c.datum
  }

  /** A rule matches a call of its system call whose arguments pass every comparison. */
  predicate Matches(r: Rule, call: Syscall)
  {
    r.name == call.name && forall j :: 0 <= j < |r.cmps| ==> CmpHolds(r.cmps[j], call)
  }

  /** The action the kernel takes on a call: allow on a matching rule, the default otherwise. */
  function Evaluate(f: Filter, call: Syscall): (a: Action)
    ensures a == Allow <==> f.defaultAction == Allow || exists i :: 0 <= i < |f.rules| && Matches(f.rules[i], call)
  {
    if exists i :: 0 <= i < |f.rules| && Matches(f.rules[i], call) then Allow else f.defaultAction
  }

  /** The number of rules added before the first `seccomp_rule_add` failure (all, if none fails). */
  function FirstRejected(rules: seq<Rule>, ruleAdd: Rule -> int): (n: nat)
    ensures n <= |rules|
    ensures forall j :: 0 <= j < n ==> ruleAdd(rules[j]) >= 0
    ensures n < |rules| ==> ruleAdd(rules[n]) < 0
    decreases |rules|
  {
    if rules == [] then 0
    else if ruleAdd(rules[0]) < 0 then 0
    else
      var n := FirstRejected(rules[1..], ruleAdd);
      assert forall j :: 1 <= j < n + 1 ==> rules[j] == rules[1..][j - 1];
      n + 1
  }

  /** The `scmp_filter_ctx` under construction. */
  class FilterContext {
    var defaultAction: Action
    var rules: seq<Rule>

    /** `seccomp_init(action)`. */
    constructor (action: Action)
      ensures defaultAction == action && rules == []
    {
      defaultAction := action;
      rules := [];
    }

    /** `seccomp_rule_add(ctx, SCMP_ACT_ALLOW, ...)`: the rule joins the context unless it is refused. */
    method RuleAdd(r: Rule, ruleAdd: Rule -> int) returns (rc: int)
      modifies this
      ensures rc == ruleAdd(r)
      ensures defaultAction == old(defaultAction)
      ensures rules == if rc < 0 then old(rules) else old(rules) + [r]
    {
      rc := ruleAdd(r);
      if rc >= 0 {
        rules := rules + [r];
      }
    }

    /**
     * The run of `ALLOW(...)` lines: add each rule in turn, stopping at the
     * first one refused; `added` is how many went in.
     */
    method AddAll(table: seq<Rule>, ruleAdd: Rule -> int) returns (added: nat)
      requires rules == []
      modifies this
      ensures added == FirstRejected(table, ruleAdd)
      ensures rules == table[..added]
      ensures defaultAction == old(defaultAction)
    {
      added := 0;
      while added < |table|
        invariant added <= |table|
        invariant rules == table[..added]
        invariant defaultAction == old(defaultAction)
        invariant forall j :: 0 <= j < added ==> ruleAdd(table[j]) >= 0
      {
        var rc := RuleAdd(table[added], ruleAdd);
        if rc < 0 {
          return;
        }
        assert table[..added + 1] == table[..added] + [table[added]];
        added := added + 1;
      }
    }
  }

  /**
   * `syscall_filter_init`: start from a kill-by-default context, add the
   * allow rules in order and give up (`return false`, nothing loaded) at the
   * first refusal; otherwise load the filter and succeed iff `seccomp_load`
   * returned 0. `loaded` is the filter the kernel enforces afterwards.
   */
  method SyscallFilterInit(ruleAdd: Rule -> int, seccompLoad: Filter -> int)
    returns (ok: bool, ctx: FilterContext, loaded: Option<Filter>)
    ensures ctx.defaultAction == KillProcess
    ensures ctx.rules == AllowList[..FirstRejected(AllowList, ruleAdd)]
    ensures ok <==> FirstRejected(AllowList, ruleAdd) == |AllowList| &&
                    seccompLoad(Filter(KillProcess, AllowList)) == 0
    ensures loaded == if ok then Some(Filter(KillProcess, AllowList)) else None
  {
    ctx := new FilterContext(KillProcess);
    var added := ctx.AddAll(AllowList, ruleAdd);
    if added < |AllowList| {
      return false, ctx, None;
    }
    assert AllowList[..|AllowList|] == AllowList;
    var ret := seccompLoad(Filter(ctx.defaultAction, ctx.rules));
    ok := ret == 0;
    loaded := if ok then Some(Filter(KillProcess, AllowList)) else None;
  }

  /** The filter `syscall_filter_init` loads when it succeeds. */
  const Installed: Filter := Filter(KillProcess, AllowList)

  /**
   * The loaded filter allows exactly the listed system calls, `ioctl` only
   * for `FIONREAD`, and `open` and `openat` with any flags at all.
   */
  lemma AllowedExactly(call: Syscall)
    ensures Evaluate(Installed, call) == Allow <==>
              call.name in AllowedNames && (call.name == "ioctl" ==> call.a1 == FionRead)
  {
    if call.name in AllowedNames && (call.name == "ioctl" ==> call.a1 == FionRead) {
      ListedAllowed(call);
    }
    if Evaluate(Installed, call) == Allow {
      AllowedListed(call);
    }
  }

  /** A call the filter allows is listed, and an allowed `ioctl` asks for `FIONREAD`. */
  lemma AllowedListed(call: Syscall)
    requires Evaluate(Installed, call) == Allow
    ensures call.name in AllowedNames && (call.name == "ioctl" ==> call.a1 == FionRead)
  {
    var i :| 0 <= i < |AllowList| && Matches(AllowList[i], call);
    RuleListed(ORdOnly, i);
    if call.name == "ioctl" {
      RuleShapes(ORdOnly, 4);
      assert CmpHolds(AllowList[4].cmps[0], call);
    }
  }

  /** A listed call passes its own rule. */
  lemma ListedAllowed(call: Syscall)
    requires call.name in AllowedNames && (call.name == "ioctl" ==> call.a1 == FionRead)
    ensures Evaluate(Installed, call) == Allow
  {
    var i := RuleIndex(call.name);
    RuleShapes(ORdOnly, i);
    if i == 20 {
      MaskVacuous(call.a1);
    } else if i == 21 {
      MaskVacuous(call.a2);
    }
    assert Matches(AllowList[i], call);
  }

  /** Three rules carry a comparison; the others allow their system call outright. */
  lemma RuleShapes(accessMask: bv64, i: nat)
    requires i < 30
    ensures var r := AllowTable(accessMask)[i];
            if i == 4 then r == Rule("ioctl", [ArgCmp(1, Eq, FionRead)])
            else if i == 20 then r == Rule("open", [ArgCmp(1, MaskedEq(accessMask), ORdOnly)])
            else if i == 21 then r == Rule("openat", [ArgCmp(2, MaskedEq(accessMask), ORdOnly)])
            else r.cmps == []
  {
  }

  /** Every rule's name is listed, and the only `ioctl` rule is the `FIONREAD` one. */
  lemma RuleListed(accessMask: bv64, i: nat)
    requires i < 30
    ensures AllowTable(accessMask)[i].name in AllowedNames
    ensures AllowTable(accessMask)[i].name == "ioctl" ==> i == 4
    ensures AllowTable(accessMask)[i].name == "open" ==> i == 20
  {
  }

  /** Where a listed name's rule sits in the table. */
  function RuleIndex(name: string): (i: nat)
    requires name in AllowedNames
    ensures i < |AllowList| && AllowList[i].name == name
  {
    match name
    case "brk" => 0 case "exit_group" => 1 case "socket" => 2 case "setsockopt" => 3
    case "ioctl" => 4 case "connect" => 5 case "select" => 6 case "poll" => 7
    case "read" => 8 case "recv" => 9 case "recvfrom" => 10 case "write" => 11
    case "send" => 12 case "sendto" => 13 case "sendmsg" => 14 case "close" => 15
    case "stat" => 16 case "lstat" => 17 case "fstat" => 18 case "fstat64" => 19
    case "open" => 20 case "openat" => 21 case "mmap" => 22 case "mmap2" => 23
    case "munmap" => 24 case "lseek" => 25 case "_llseek" => 26 case "futex" => 27
    case "uname" => 28 case _ => 29
  }

  /** With `O_RDONLY == 0`, `(flags & O_RDONLY) == O_RDONLY` holds for every `flags`. */
  lemma MaskVacuous(flags: bv64)
    ensures flags & ORdOnly == ORdOnly
  {
  }

  /** Any system call not in the table kills the process. */
  lemma UnlistedKilled(call: Syscall)
    requires call.name !in AllowedNames
    ensures Evaluate(Installed, call) == KillProcess
  {
    AllowedExactly(call);
  }

  /**
   * The mask as written lets `open` through with any access mode: a call that
   * opens for reading and writing passes the filter.
   */
  lemma ReadWriteOpenAllowed(call: Syscall)
    requires call.name == "open" && call.a1 == ORdWr
    ensures Evaluate(Installed, call) == Allow
  {
    ListedAllowed(call);
  }

  /** The evidently intended table: `open` and `openat` gated on `O_ACCMODE`. */
  const ReadOnlyAllowList: seq<Rule> := AllowTable(OAccMode)

  /** With the access-mode mask, the filter allows `open` exactly for read-only access. */
  lemma ReadOnlyOpens(call: Syscall)
    requires call.name == "open"
    ensures Evaluate(Filter(KillProcess, ReadOnlyAllowList), call) == Allow <==>
              call.a1 & OAccMode == ORdOnly
  {
    RuleShapes(OAccMode, 20);
    if call.a1 & OAccMode == ORdOnly {
      assert Matches(ReadOnlyAllowList[20], call);
    }
    if Evaluate(Filter(KillProcess, ReadOnlyAllowList), call) == Allow {
      var i :| 0 <= i < |ReadOnlyAllowList| && Matches(ReadOnlyAllowList[i], call);
      RuleListed(OAccMode, i);
      assert CmpHolds(ReadOnlyAllowList[20].cmps[0], call);
    }
  }
}
