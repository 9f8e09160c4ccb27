# hdf5-udf: the C++ backend and its sandbox, in Dafny

HDF5-UDF stores user-defined functions (UDFs) inside HDF5 files. A UDF is
a small program that computes the values of a virtual dataset from other
datasets. This project models the core of the C++ backend and of the
sandbox that confines a running UDF:

- **At-rest format** (`codec.dfy`, `bytes.dfy`). `compressBuffer` stores
  the compiled shared library as its miniz-compressed bytes, followed by
  an 8-byte little-endian trailer with the uncompressed size.
  `decompressBuffer` reads the trailer and decompresses the bytes before
  it into a buffer of exactly that size.
- **Dataset-name scanner** (`scanner.dfy`, `std_string.dfy`). The text
  half of `udfDatasetNames` reads the preprocessed UDF source line by line
  with `std::getline`. Each line that contains `lib.getData` contributes
  the text between the first double quote after the call and the next
  quote. The `std::string` operations it uses (`find`, `find_first_of`,
  `substr`) are modelled with their `size_t` wrap-around, so the odd cases
  come out as the code computes them. A line with the call but no quote
  yields the whole rest of the line, because `npos + 1` wraps to 0. A
  line with no closing quote yields everything after the opening one.
- **`run`** (`engine.dfy`). The backend decompresses the library, writes
  it to disk, maps a zero-filled shared segment of
  `gridSize * storageSize` bytes and forks. The child opens the library,
  resolves the UDF and the four template containers, fills the containers
  with the output dataset (its data pointer redirected to the segment)
  followed by the inputs, initialises the sandbox and, if that worked,
  calls the UDF. The parent waits for the child, copies the segment into
  the output dataset and unlinks the library file.
- **User-space sandbox layer** (`syscall_intercept.dfy`).
  - The `syscall_intercept` hook checks the path argument of `stat`,
    `lstat`, `open` (argument 0) and `openat` (argument 1) against the
    exact entries of `files_allowed`, and takes over any other path with
    `-EPERM`.
  - The constructor function `syscall_intercept_init` expands the
    wildcard entries of that list with `glob`, then installs the hook. The
    model assumes the list's static initializer has already run by then
    (see Left out).
- **Kernel sandbox layer** (`seccomp_filter.dfy`). `syscall_filter_init`
  builds a kill-by-default seccomp filter from 30 allow rules, in source
  order. It stops at the first rule `seccomp_rule_add` refuses and
  reports whether `seccomp_load` succeeded.
- **Both layers together** (`sandbox_policy.dfy`). A call is performed,
  refused with `-EPERM` or kills the process. With the shipped list, a
  call goes ahead exactly when it is one of the 30 listed system calls,
  an `ioctl` asks for `FIONREAD`, and a path call names
  `/etc/resolv.conf`.

Foreign code is modelled as parameters, as function-typed arguments or as
fields of `Engine.Environment`:

- miniz's `mz_compress` and `mz_uncompress`;
- `writeToDisk`, the anonymous mapping, `fork`, `dlopen`/`dlsym` and the
  sandbox's `init`;
- what the UDF writes into the segment;
- `glob`;
- `seccomp_rule_add` and `seccomp_load`.

The process's memory, for pointer arguments of system calls, is a
function from addresses to strings.

In these places the model follows the code, where a reader might expect
otherwise:

- When `dlopen` fails or a symbol is missing, the child returns `false`
  from `run` rather than exiting. The parent still copies the segment,
  which is still zero-filled, into the output. The output dataset is
  therefore overwritten with zeros, not left as it was (`Engine.Run`,
  `Engine.SegmentAfter`).
- A failed `fork` still makes `run` return `true`. The output is left
  unchanged in that case.
- A blob handed to `decompressBuffer` needs at least 8 bytes; the
  trailer is read without a check. A stored size above
  `std::string::max_size()` makes `resize` throw `std::length_error`,
  which propagates out of `decompressBuffer` and out of `run`, so `run`
  does not return `false` for such a blob (`Codec.DecompressBuffer`,
  `Engine.Run`).
- The `open`/`openat` rules mask the flags with `O_RDONLY`, which is 0.
  The test therefore holds for every flag word, and the kernel layer does
  not enforce read-only access (see Findings).

## Model

| member | source | states |
|---|---|---|
| Bytes.EncodeU64 | src/cpp_backend.cpp:116 | the size trailer is 8 bytes long and its little-endian value is the size written |
| Bytes.DecodeU64 | src/cpp_backend.cpp:125-126 | the size read from an 8-byte trailer re-encodes to exactly those 8 bytes |
| Bytes.TrailerRoundTrip | src/cpp_backend.cpp:116-126 | reading back a written trailer yields the size that was written |
| Bytes.DecodeEncode | src/cpp_backend.cpp:116-126 | little-endian decoding inverts encoding for any width the value fits in |
| Bytes.EncodeDecode | src/cpp_backend.cpp:116-126 | re-encoding a decoded byte string at its own width gives the same bytes |
| Bytes.Fill | src/cpp_backend.cpp:129-134 | a buffer resized to the stored size holds the decompressor's output at its start and zeros after it, or the output truncated to that size |
| Bytes.Zeros | src/cpp_backend.cpp:179 | a fresh segment has the requested length and only zero bytes |
| Codec.CompressBound | src/cpp_backend.cpp:104 | the buffer allocated for compression is at least 128 bytes larger than the input |
| Codec.Blob | src/cpp_backend.cpp:102-119 | the string `compressBuffer` returns, as a value: empty on compressor failure, else the compressed bytes and the size trailer; its properties are the contracts of `Codec.CompressBuffer` and `Codec.BlobLayout` |
| Codec.CopyInto | src/cpp_backend.cpp:116 | `memcpy` replaces exactly the destination range with the source bytes and leaves the rest of the array unchanged |
| Codec.CompressBuffer | src/cpp_backend.cpp:102-119 | on compressor failure the result is empty; on success it is the compressed bytes followed by an 8-byte trailer that decodes to the input size, `csize + 8` bytes in all |
| Codec.Payload | src/cpp_backend.cpp:127 | the bytes handed to the decompressor: the blob without its last 8 bytes |
| Codec.StoredSize | src/cpp_backend.cpp:124-126 | the original size, read from the blob's last 8 bytes |
| Codec.DecompressBuffer | src/cpp_backend.cpp:122-141 | the call throws `std::length_error` exactly when the stored size exceeds `max_size()`. Otherwise, on decompressor failure the result is empty; on success it has exactly the size stored in the trailer and begins with the decompressor's output |
| Codec.BlobLayout | src/cpp_backend.cpp:116-127 | a compressed blob splits back into the compressed payload and the original size |
| Codec.RoundTrip | src/cpp_backend.cpp:102-141 | decompressing a compressed buffer of at most `max_size()` bytes returns the original bytes whenever miniz's decompressor inverts its compressor |
| StdString.ToSize | src/cpp_backend.cpp:311 | `size_t` arithmetic is exact below 2^64 and wraps by 2^64 above it |
| StdString.FindFrom | src/cpp_backend.cpp:307 | the result is `npos` or the first position at or after the start where the pattern occurs |
| StdString.Find | src/cpp_backend.cpp:307 | `find` returns `npos` iff the pattern occurs nowhere, and otherwise its first occurrence |
| StdString.FindFirstOfFrom | src/cpp_backend.cpp:310-311 | the result is `npos` or the first position at or after the start that holds one of the characters |
| StdString.FindFirstOf | src/cpp_backend.cpp:310-311 | `find_first_of` returns `npos` iff none of the characters occurs, and otherwise the first position holding one |
| StdString.Substr | src/cpp_backend.cpp:312 | `substr(pos, count)` is the slice from `pos` of length `count`, clipped at the end of the string |
| Scanner.Lines | src/cpp_backend.cpp:305 | the lines `getline` extracts, defined recursively; its properties are `Scanner.LinesHaveNoNewline`, `Scanner.LinesCons` and `Scanner.LinesLast` |
| Scanner.LinesHaveNoNewline | src/cpp_backend.cpp:305 | no line `getline` extracts contains a newline |
| Scanner.LinesCons | src/cpp_backend.cpp:305 | a newline-free line and a newline, followed by more text, split into that line and the lines of the rest |
| Scanner.LinesLast | src/cpp_backend.cpp:305 | a non-empty text without a newline is a single line |
| Scanner.LineName | src/cpp_backend.cpp:307-312 | the name one line contributes, computed with the code's `size_t` arithmetic; characterised by `Scanner.LineNameCases` and `Scanner.QuotedArgument` |
| Scanner.NameFrom | src/cpp_backend.cpp:310 | `substr(n)` and the first quote search of a line that holds the call; characterised through `Scanner.LineNameCases` |
| Scanner.NameBetween | src/cpp_backend.cpp:311-312 | the second quote search and the final `substr`; characterised by `Scanner.NameAfterQuote` and `Scanner.UnquotedName` |
| Scanner.FirstQuote | src/cpp_backend.cpp:310 | `find_first_of("\"")` gives the index of the first quote, or `npos` when there is none |
| Scanner.UpToQuote | src/cpp_backend.cpp:311-312 | a substring taken up to the next quote is the longest quote-free prefix |
| Scanner.LineNameCases | src/cpp_backend.cpp:307-312 | a line yields no name iff it lacks `lib.getData`. With no quote after the call, the name is the rest of the line. Otherwise the name is the quote-free text after the first quote, up to the next quote or the line's end |
| Scanner.QuotedAfterUnique | src/cpp_backend.cpp:311-312 | the quote-delimited text after a given quote is unique |
| Scanner.ShapeAfterQuote | src/cpp_backend.cpp:311-312 | the text the code extracts after a quote is quote-free and ends at a quote or at the line's end |
| Scanner.UnquotedName | src/cpp_backend.cpp:310-312 | when no quote follows the call, the wrapped `npos + 1` makes the name the whole rest of the line from the call on |
| Scanner.NameAfterQuote | src/cpp_backend.cpp:311-312 | the second search, relative to the line, and the final `substr`, relative to the call, select the same quote-free text |
| Scanner.QuotedName | src/cpp_backend.cpp:310-312 | when a quote follows the call, the name is the text between it and the next quote, or the line's end |
| Scanner.ArgumentShape | src/cpp_backend.cpp:310-312 | in `lib.getData("name"...` the first quote is right after the parenthesis and `name` is the text it delimits |
| Scanner.QuotedArgument | src/cpp_backend.cpp:307-312 | a line whose first call is `lib.getData("name"` yields exactly `name` |
| Scanner.Contribution | src/cpp_backend.cpp:308-314 | what one line adds to the output: its name if it holds the call, nothing otherwise |
| Scanner.Names | src/cpp_backend.cpp:305-315 | the names of a run of lines, in order; characterised by `Scanner.NamesAppend` |
| Scanner.ScanText | src/cpp_backend.cpp:303-315 | the names of a whole text, line by line; the loop `Scanner.DatasetNames` is proved to compute it |
| Scanner.NamesAppend | src/cpp_backend.cpp:305-315 | the names of two runs of lines are the names of the first run followed by those of the second |
| Scanner.Resume | src/cpp_backend.cpp:305 | reading continues after the newline, or at the end of the text, never before the line's end |
| Scanner.ScanStep | src/cpp_backend.cpp:305-314 | the names of the remaining text are this line's contribution followed by the names after it |
| Scanner.GetLine | src/cpp_backend.cpp:305 | `getline` returns the newline-free text up to the next newline or the end of the input |
| Scanner.ScanAdvance | src/cpp_backend.cpp:305-315 | one turn of the loop keeps the invariant that the output so far plus the names of the unread text are all the names |
| Scanner.Append | src/cpp_backend.cpp:308-314 | `push_back` adds the line's name when the line has the call, and nothing otherwise |
| Scanner.DatasetNames | src/cpp_backend.cpp:302-315 | the loop's output is the list of names of all lines, in order |
| Scanner.CallLine | src/cpp_backend.cpp:307-312 | a line of the form `prefix lib.getData("name" suffix` yields `name`, when `prefix` holds no `l` and `name` no quote |
| Scanner.CallAfterPrefix | src/cpp_backend.cpp:307 | `find` locates the call right after a prefix that cannot start it |
| Scanner.ScanFirstLine | src/cpp_backend.cpp:305-315 | the names of a text are those of its first line followed by those of the rest |
| Scanner.SingleLine | src/cpp_backend.cpp:305-315 | a one-line text yields that line's contribution |
| Scanner.OneCallText | src/cpp_backend.cpp:305-315 | a one-line text holding a single quoted call yields exactly that one name |
| Scanner.SingleCall | examples/example-add_datasets.py:16 | the line `ds1_data = lib.getData("Dataset1")` yields the one name `Dataset1` |
| Scanner.CallLineThen | examples/example-add_datasets.py:16-18 | a call line followed by more text yields its name, then the names of the rest, as in a UDF that reads several datasets |
| Engine.RoomSize | src/cpp_backend.cpp:178 | the segment size is the `size_t` product of grid size and storage size: exact when it fits, wrapped otherwise, and zero if either is zero |
| Engine.Descriptors | src/cpp_backend.cpp:211-218 | the dataset list handed to the UDF: the output, its data pointer redirected to the segment, then the inputs in order |
| Engine.UdfContainers.constructor | src/cpp_backend.cpp:198-206 | the template's four containers start empty |
| Engine.UdfContainers.Push | src/cpp_backend.cpp:222-225 | each container gains the entry's data pointer, name, datatype and dimensions at its end |
| Engine.UdfContainers.Populate | src/cpp_backend.cpp:220-226 | after the loop, the four containers list the data pointers, names, datatypes and dimensions of every dataset, in order |
| Engine.Written | src/cpp_backend.cpp:235 | after the UDF runs, each byte of the segment holds what the UDF wrote there, or its old value |
| Engine.SegmentAfter | src/cpp_backend.cpp:179-238 | the segment keeps its size, and stays all zeros unless the UDF actually ran |
| Engine.OutputBytes | src/cpp_backend.cpp:244 | when the UDF ran, each output byte is the byte it wrote there, or zero |
| Engine.ApplyWrites | src/cpp_backend.cpp:235 | the segment array afterwards holds the UDF's writes over its old contents |
| Engine.RunChild | src/cpp_backend.cpp:191-239 | the containers exist iff the library opens and all five symbols resolve, and then describe the output (pointing at the segment) followed by the inputs. The UDF runs iff the sandbox is also ready, otherwise the child exits 1. The child exits 0 iff the UDF runs and returns; a UDF that is killed, faults or ends the process itself ends the child instead. A failed open or symbol makes the child return false without touching the segment |
| Engine.LibraryUnpacked | src/cpp_backend.cpp:153-158 | `decompressBuffer` returned a non-empty library |
| Engine.SetupSucceeds | src/cpp_backend.cpp:152-184 | `run` gets past decompression, the file write and the mapping |
| Engine.Run | src/cpp_backend.cpp:144-249 | the call throws `std::length_error` iff the stored size exceeds `max_size()`, with no step taken. Otherwise the result is `true` iff decompression, the file write and the mapping succeed. The output is unchanged unless setup and the fork succeed; then its first `room_size` bytes are the segment after the child. The UDF runs iff setup, the fork, `dlopen`, the symbols and the sandbox all succeed, and it ends the child without returning iff it also does not return. The library file is unlinked last whenever it was written |
| SyscallIntercept.PathArg | src/sandbox_library.cpp:76-87 | `stat`, `lstat` and `open` have their path in argument 0 and `openat` in argument 1; every other call has none |
| SyscallIntercept.TestFileOk | src/sandbox_library.cpp:62-70 | the path is accepted (1, `*ret` untouched) iff it equals an allowed entry; otherwise the answer is 0 with `*ret = -EPERM` |
| SyscallIntercept.Intercept | src/sandbox_library.cpp:52-88 | a path call is let through iff its path is allowed, else it is taken over with `-EPERM`; every other call is let through untouched |
| SyscallIntercept.PathArguments | src/sandbox_library.cpp:76-87 | `stat`, `lstat` and `open` are judged on argument 0, `openat` on argument 1, and nothing else is judged |
| SyscallIntercept.ResolveOne | src/sandbox_library.cpp:99-109 | the entries one original entry becomes; spelled out by `SyscallIntercept.ResolveOneCases` |
| SyscallIntercept.Resolve | src/sandbox_library.cpp:96-110 | the rebuilt list, entry by entry in order; characterised by `SyscallIntercept.ResolveAppend` and `SyscallIntercept.ResolvedMembership` |
| SyscallIntercept.ResolveAppend | src/sandbox_library.cpp:96-110 | wildcard resolution works entry by entry and distributes over concatenation |
| SyscallIntercept.ResolvedMembership | src/sandbox_library.cpp:96-110 | a path is allowed after resolution iff some original entry resolves to it |
| SyscallIntercept.ResolveOneCases | src/sandbox_library.cpp:99-109 | a literal entry stays as itself, a pattern `glob` rejects vanishes, and an accepted pattern becomes its matches |
| SyscallIntercept.LiteralsKept | src/sandbox_library.cpp:99-100 | a list without wildcards survives resolution unchanged, whatever `glob` does |
| SyscallIntercept.SandboxLibrary.constructor | src/sandbox_library.cpp:33-35 | the static initializer leaves the list as `/etc/resolv.conf`, with no hook installed yet |
| SyscallIntercept.SandboxLibrary.PushAll | src/sandbox_library.cpp:106-107 | the matches of one pattern are appended to the list in order |
| SyscallIntercept.SandboxLibrary.SyscallInterceptInit | src/sandbox_library.cpp:90-114 | afterwards the list is the in-order resolution of the original entries, and the hook is installed |
| SyscallIntercept.ShippedList | src/sandbox_library.cpp:33-35 | with the shipped list, a path call passes the hook iff its path is `/etc/resolv.conf` |
| SyscallIntercept.PassesAfterInit | src/sandbox_library.cpp:62-113 | after initialisation, a path call passes the hook iff its path is an original literal entry or a match of an accepted original pattern |
| SeccompFilter.AllowTable | src/sandbox_library.cpp:141-177 | the 30 allow rules in source order, with the `open`/`openat` mask as a parameter; the table as written is the constant `AllowList`, with mask `O_RDONLY` |
| SeccompFilter.Evaluate | src/sandbox_library.cpp:130 | a call is allowed iff the default action allows it or some rule matches it |
| SeccompFilter.FirstRejected | src/sandbox_library.cpp:121-126 | the rules before the first refused one were all accepted, and the one it points at (if any) was refused |
| SeccompFilter.FilterContext.constructor | src/sandbox_library.cpp:130 | a new context has the given default action and no rules |
| SeccompFilter.FilterContext.RuleAdd | src/sandbox_library.cpp:122 | a rule joins the context iff `seccomp_rule_add` does not fail |
| SeccompFilter.FilterContext.AddAll | src/sandbox_library.cpp:121-177 | the rules are added in order up to the first refusal, and the context then holds exactly those |
| SeccompFilter.SyscallFilterInit | src/sandbox_library.cpp:128-186 | the context denies by default and holds the rules added before the first refusal. The result is true iff every rule was added and `seccomp_load` returned 0, and only then is the filter in force |
| SeccompFilter.AllowedExactly | src/sandbox_library.cpp:141-177 | the loaded filter allows a call iff it is one of the 30 listed system calls and, for `ioctl`, the request is `FIONREAD` |
| SeccompFilter.AllowedListed | src/sandbox_library.cpp:141-177 | an allowed call is listed, and an allowed `ioctl` asks for `FIONREAD` |
| SeccompFilter.ListedAllowed | src/sandbox_library.cpp:141-177 | a listed call (a `FIONREAD` one, for `ioctl`) passes its own rule |
| SeccompFilter.RuleShapes | src/sandbox_library.cpp:141-177 | only `ioctl`, `open` and `openat` carry an argument comparison, on arguments 1, 1 and 2 |
| SeccompFilter.RuleListed | src/sandbox_library.cpp:141-177 | every rule's system call is in the listed set, and `ioctl` and `open` have one rule each |
| SeccompFilter.RuleIndex | src/sandbox_library.cpp:141-177 | each listed system call has a rule for it in the table |
| SeccompFilter.MaskVacuous | src/sandbox_library.cpp:168-169 | masking with `O_RDONLY` (0) and comparing with `O_RDONLY` holds for every flag word |
| SeccompFilter.UnlistedKilled | src/sandbox_library.cpp:130 | any system call outside the table kills the process |
| SeccompFilter.ReadWriteOpenAllowed | src/sandbox_library.cpp:168 | as written, the filter allows `open` with `O_RDWR` |
| SeccompFilter.ReadOnlyOpens | src/sandbox_library.cpp:168 | with the flags masked by `O_ACCMODE`, the filter allows `open` exactly for read-only access |
| SandboxPolicy.Decide | src/sandbox_library.cpp:160-163 | a call is performed iff the hook lets it through and the filter allows it. It is refused with `-EPERM` iff the hook takes it over; otherwise the process is killed |
| SandboxPolicy.PathCallsNeedBoth | src/sandbox_library.cpp:160-163 | a path call goes ahead iff its path is allowed and the filter agrees, and a disallowed path is refused with `-EPERM` |
| SandboxPolicy.OtherCallsFiltered | src/sandbox_library.cpp:84-86 | a call without a checked path is decided by the filter alone |
| SandboxPolicy.ShippedSandbox | src/sandbox_library.cpp:33-177 | with the shipped list and filter, a call goes ahead iff it is listed, an `ioctl` asks for `FIONREAD`, and a path call names `/etc/resolv.conf` |
| SandboxPolicy.ResolvConfWritable | src/sandbox_library.cpp:168 | as written, opening `/etc/resolv.conf` with `O_RDWR` is performed |
| SandboxPolicy.ResolvConfReadOnly | src/sandbox_library.cpp:168 | with the corrected mask, the same call kills the UDF |

## Left out

- Compiling the UDF (`compile`, the `g++` fork and exec), `name` and `extension`: they drive an external compiler and are not part of this model.
- The pipe, `fork`/`exec` of the preprocessor and the `poll`/`read` loop that collect the preprocessed text in `udfDatasetNames`: process I/O. The scanner starts from the collected text.
- `print_syscall` and every `fprintf` diagnostic: output only.
- `filterpath`, `output_cast_datatype` and the HDF5 datasets' values: they are passed along or not used by the modelled code.
- miniz's algorithms, `writeToDisk`, `AnonymousMemoryMap`, `dlopen`/`dlsym`, `Sandbox::init`, `glob`, `globfree`, libseccomp and the kernel's enforcement: foreign code, modelled only through their results.
- `chmod` and `unlink` are trace events of `Engine.Run`; their effect on the file system is not modelled. `seccomp_release` is not modelled.
- Concurrency: the child runs to completion while the parent sits in `waitpid`. What the duplicated host process does after the child's `return false` is not modelled.
- The hook sees only calls glibc makes. Raw `syscall` instructions in the UDF bypass it, and the model covers calls as the hook receives them.
- Lines, paths and names are Dafny strings, sequences of characters, where the source works on bytes. `find`, `find_first_of`, `substr` and `compare` behave the same when each byte is read as one character, so no behaviour is lost.
- Engine.Written: writes by the UDF past the end of the segment are not modelled.
- Engine.Run: requires the output buffer to hold at least `room_size` bytes, which the source assumes of its caller without checking.
- Codec.DecompressBuffer: requires a blob of at least 8 bytes, since the source reads the trailer unchecked and a shorter blob underflows `csize - 8`.
- Codec.CompressBuffer: requires that a successful compressor leaves room for the trailer in the `mz_compressBound` buffer. The source writes the trailer past `csize` without checking.
- Codec.CompressBuffer: requires `mz_compressBound(usize)` to be at most `max_size()`, so the `std::length_error` from `resize` is not modelled. An input that large cannot exist in a process's memory, whose user-space addresses on 64-bit Linux span far fewer bytes.
- Engine.Run: the `std::length_error` that `decompressBuffer` throws is modelled as the outcome `Threw`. What the caller of `run` does with the exception is not part of this model.
- Codec.DecompressBuffer: allocation failure is not modelled. `resize` throws `std::bad_alloc` for a stored size at or below `max_size()` that the process cannot allocate, for example 2^60 bytes on x86-64. The model returns a buffer of that size instead.
- Engine.Run: allocation failure is not modelled. A `std::bad_alloc` from `decompressBuffer`'s `resize` propagates out of `run`, but the model gives `Returned(...)` for such a blob.
- SyscallIntercept.Intercept: a path pointer that cannot be read (`NULL`, an unmapped address) is outside the model. `Memory` gives every address a string, whereas the source's `compare` on such a pointer faults and kills the child with `SIGSEGV`.
- SyscallIntercept.SandboxLibrary.constructor: assumes the static initializer of `files_allowed` runs before the constructor function `syscall_intercept_init`. GCC leaves the order between C++ static initializers and `constructor` functions unspecified. In the other order, the function resolves an empty list and the initializer then puts the shipped entry back unresolved. `SyscallIntercept.ShippedList` and `SandboxPolicy.ShippedSandbox` hold either way, since the shipped entry has no wildcard. `SyscallIntercept.PassesAfterInit` for wildcard entries rests on the assumption.
- StdString.Substr: requires `pos` within the string; the `std::out_of_range` exception is not modelled because the traced call sites never raise it.
- SyscallIntercept.ResolveOne: the test `path.find("*") == npos` is stated as `'*' !in path`.

## Findings

| source | as written | input that shows it | evidently intended | confidence | as-written member | corrected member |
|---|---|---|---|---|---|---|
| src/sandbox_library.cpp:168-169 | the `open` and `openat` rules compare `flags & O_RDONLY` with `O_RDONLY`; `O_RDONLY` is 0, so every flag word passes | `open("/etc/resolv.conf", O_RDWR)`: the hook accepts the path and the filter allows the call, so the UDF can open the file for writing | gate on the access mode: `flags & O_ACCMODE == O_RDONLY`, so only read-only opens pass | not executed; high that the check is vacuous, medium that read-only was the intent | SandboxPolicy.ResolvConfWritable | SandboxPolicy.ResolvConfReadOnly |

The as-written table is `SeccompFilter.AllowList`, with mask `O_RDONLY`.
It is what `SeccompFilter.SyscallFilterInit` loads, so the model of the
code stays faithful. The corrected table is
`SeccompFilter.ReadOnlyAllowList`: the same `AllowTable` with mask
`O_ACCMODE`. `SeccompFilter.ReadOnlyOpens` proves the intended property
about it: `open` is allowed exactly for read-only access.
