/**
 * A system call as both sandbox layers see it: its name (the `SYS_*` /
 * `SCMP_SYS` identifier) and its six raw 64-bit arguments. Pointer arguments
 * are resolved through a `Memory` mapping addresses to the C strings there.
 */
module Syscalls {

  datatype Syscall = Syscall(name: string, a0: bv64, a1: bv64, a2: bv64, a3: bv64, a4: bv64, a5: bv64)

  /** The NUL-terminated string stored at each address. */
  type Memory = bv64 -> string

  /** Argument `k` of a call (`SCMP_A0` ... `SCMP_A5`). */
  function Arg(call: Syscall, k: nat): bv64
    requires k < 6
  {
    match k
    case 0 => call.a0
    case 1 => call.a1
    case 2 => call.a2
    case 3 => call.a3
    case 4 => call.a4
    case _ => call.a5
  }

  /** Linux's `EPERM`. */
  const EPerm: int := 1

  /** Linux's `open` flags (`O_ACCMODE` masks the access mode). */
  const ORdOnly: bv64 := 0
  const OWrOnly: bv64 := 1
  const ORdWr: bv64 := 2
  const OAccMode: bv64 := 3

  /** The `FIONREAD` ioctl request on Linux. */
  const FionRead: bv64 := 0x541B
}
