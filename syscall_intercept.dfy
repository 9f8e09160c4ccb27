/**
 * The user-space half of the sandbox in `sandbox_library.cpp`: a hook that
 * syscall_intercept calls before each system call glibc is about to make, and
 * the constructor that resolves the wildcard patterns of `files_allowed` and
 * installs that hook.
 *
 * The hook returns 1 to let the original system call run and 0 to take it
 * over, in which case `*ret` is what the caller sees as the call's result.
 */
module SyscallIntercept {
  import opened Wrappers
  import opened Syscalls

  /** The one entry `files_allowed` starts with. */
  const ResolvConf: string := "/etc/resolv.conf"

  /** The hook's answer: its return value and the value left in `*ret`. */
  datatype Verdict = Verdict(code: int, ret: int)

  /** The index of the argument whose path the hook checks, or `None` for a call it does not check. */
  function PathArg(name: string): (k: Option<nat>)
    ensures k.Some? ==> k.value <= 1
  {
    if name == "stat" || name == "lstat" || name == "open" then Some(0)
    else if name == "openat" then Some(1)
    else None
  }

  /** The `test_file_ok` lambda: exact comparison with each allowed entry. */
  function TestFileOk(files: seq<string>, path: string, ret: int): (v: Verdict)
    ensures v.code == 1 <==> path in files
    ensures v.code == 1 ==> v.ret == ret
    ensures v.code != 1 ==> v == Verdict(0, -EPerm)
    decreases |files|
  {
    if files == [] then Verdict(0, -EPerm)
    else if files[0] == path then Verdict(1, ret)
    else
      var v := TestFileOk(files[1..], path, ret);
      assert files == [files[0]] + files[1..];
      v
  }

  /** `syscall_intercept(nr, a0, ..., a5, &ret)` with `files_allowed == files`. */
  function Intercept(files: seq<string>, call: Syscall, mem: Memory, ret: int): (v: Verdict)
    ensures PathArg(call.name).Some? ==>
              var path := mem(Arg(call, PathArg(call.name).value));
              (v.code == 1 <==> path in files) &&
              (if v.code == 1 then v.ret == ret else v.ret == -EPerm)
    ensures PathArg(call.name).None? ==> v == Verdict(1, ret)
    ensures v.code == 0 || v.code == 1
  {
    match PathArg(call.name)
    case Some(k) => TestFileOk(files, mem(Arg(call, k)), ret)
    case None => Verdict(1, ret)
  }

  /** `stat`, `lstat` and `open` are judged on their first argument, `openat` on its second. */
  lemma {:induction false} PathArguments(files: seq<string>, call: Syscall, mem: Memory, ret: int)
    ensures call.name in {"stat", "lstat", "open"} ==>
              Intercept(files, call, mem, ret) == TestFileOk(files, mem(call.a0), ret)
    ensures call.name == "openat" ==>
              Intercept(files, call, mem, ret) == TestFileOk(files, mem(call.a1), ret)
    ensures call.name !in {"stat", "lstat", "open", "openat"} ==>
              Intercept(files, call, mem, ret) == Verdict(1, ret)
  {
  }

  /** What `glob(pattern, GLOB_NOSORT, NULL, &buf)` returns, and the paths it found. */
  datatype GlobResult = GlobResult(status: int, paths: seq<string>)

  type Glob = string -> GlobResult

  /** The entries one pattern resolves to: itself, its matches, or nothing when `glob` fails. */
  function ResolveOne(path: string, glob: Glob): seq<string>
  {
    if '*' !in path then [path]
    else if glob(path).status != 0 then []
    else glob(path).paths
  }

  /** The list `syscall_intercept_init` rebuilds from the original entries, in order. */
  function Resolve(files: seq<string>, glob: Glob): seq<string>
  {
    if files == [] then [] else ResolveOne(files[0], glob) + Resolve(files[1..], glob)
  }

  /** Resolution works entry by entry, so it distributes over concatenation. */
  lemma {:induction false} ResolveAppend(a: seq<string>, b: seq<string>, glob: Glob)
    ensures Resolve(a + b, glob) == Resolve(a, glob) + Resolve(b, glob)
    decreases |a|
  {
    if a == [] {
      assert a + b == b;
    } else {
      assert (a + b)[0] == a[0];
      assert (a + b)[1..] == a[1..] + b;
      ResolveAppend(a[1..], b, glob);
    }
  }

  /**
   * A path survives resolution iff it is an original entry without `*`, or a
   * match of an original pattern for which `glob` succeeded.
   */
  lemma {:induction false} ResolvedMembership(files: seq<string>, glob: Glob, p: string)
    ensures p in Resolve(files, glob) <==>
              exists i :: 0 <= i < |files| && p in ResolveOne(files[i], glob)
    decreases |files|
  {
    if files != [] {
      ResolvedMembership(files[1..], glob, p);
      if p in Resolve(files[1..], glob) {
        var i :| 0 <= i < |files[1..]| && p in ResolveOne(files[1..][i], glob);
        assert p in ResolveOne(files[i + 1], glob);
      }
      if exists i :: 0 <= i < |files| && p in ResolveOne(files[i], glob) {
        var i :| 0 <= i < |files| && p in ResolveOne(files[i], glob);
        if i > 0 {
          assert files[1..][i - 1] == files[i];
        }
      }
    }
  }

  /** What one entry contributes, spelled out: literals stay, failed patterns vanish. */
  lemma ResolveOneCases(path: string, glob: Glob, p: string)
    ensures '*' !in path ==> (p in ResolveOne(path, glob) <==> p == path)
    ensures '*' in path && glob(path).status != 0 ==> p !in ResolveOne(path, glob)
    ensures '*' in path && glob(path).status == 0 ==> (p in ResolveOne(path, glob) <==> p in glob(path).paths)
  {
  }

  /** Without wildcards, resolution keeps every entry verbatim, whatever `glob` does. */
  lemma {:induction false} LiteralsKept(files: seq<string>, glob: Glob)
    requires forall i :: 0 <= i < |files| ==> '*' !in files[i]
    ensures Resolve(files, glob) == files
    decreases |files|
  {
    if files != [] {
      LiteralsKept(files[1..], glob);
      assert files == [files[0]] + files[1..];
    }
  }

  /**
   * The library's state: the `files_allowed` vector, and whether the hook
   * (`intercept_hook_point`) points at `syscall_intercept` yet.
   */
  class SandboxLibrary {
    var filesAllowed: seq<string>
    var hookInstalled: bool

    /** Static initialisation, assumed to run before the constructor function. */
    constructor ()
      ensures filesAllowed == [ResolvConf] && !hookInstalled
    {
      filesAllowed := [ResolvConf];
      hookInstalled := false;
    }

    /** The `push_back` loop over `globbuf.gl_pathv[0 .. gl_pathc)`. */
    method PushAll(paths: seq<string>)
      modifies this
      ensures filesAllowed == old(filesAllowed) + paths
      ensures hookInstalled == old(hookInstalled)
    {
      for n := 0 to |paths|
        invariant filesAllowed == old(filesAllowed) + paths[..n]
        invariant hookInstalled == old(hookInstalled)
      {
        filesAllowed := filesAllowed + [paths[n]];
        assert paths[..n + 1] == paths[..n] + [paths[n]];
      }
      assert paths[..|paths|] == paths;
    }

    /**
     * `syscall_intercept_init`: copy the list, clear it, push back each
     * literal entry and the matches of each pattern `glob` accepts, then
     * install the hook.
     */
    method SyscallInterceptInit(glob: Glob)
      modifies this
      ensures filesAllowed == Resolve(old(filesAllowed), glob)
      ensures hookInstalled
    {
      var files := filesAllowed;
      filesAllowed := [];
      for i := 0 to |files|
        invariant filesAllowed == Resolve(files[..i], glob)
        invariant hookInstalled == old(hookInstalled)
      {
        var path := files[i];
        ResolveAppend(files[..i], [path], glob);
        assert files[..i + 1] == files[..i] + [path];
        assert Resolve([path], glob) == ResolveOne(path, glob) + Resolve([], glob);
        if '*' !in path {
          filesAllowed := filesAllowed + [path];
        } else {
          var g := glob(path);
          if g.status == 0 {
            PushAll(g.paths);
          }
        }
      }
      assert files[..|files|] == files;
      hookInstalled := true;
    }
  }

  /** Once the constructor has run on the shipped list, only `/etc/resolv.conf` is accepted. */
  lemma ShippedList(glob: Glob, call: Syscall, mem: Memory, ret: int)
    requires PathArg(call.name).Some?
    ensures var v := Intercept(Resolve([ResolvConf], glob), call, mem, ret);
            v.code == 1 <==> mem(Arg(call, PathArg(call.name).value)) == ResolvConf
  {
    LiteralsKept([ResolvConf], glob);
  }

  /**
   * After initialisation, a path call passes the hook iff its path was an
   * original literal entry or a match of an original pattern.
   */
  lemma PassesAfterInit(original: seq<string>, glob: Glob, call: Syscall, mem: Memory, ret: int)
    requires PathArg(call.name).Some?
    ensures var path := mem(Arg(call, PathArg(call.name).value));
            Intercept(Resolve(original, glob), call, mem, ret).code == 1 <==>
              exists i :: 0 <= i < |original| && path in ResolveOne(original[i], glob)
  {
    ResolvedMembership(original, glob, mem(Arg(call, PathArg(call.name).value)));
  }
}
