/**
 * `CppBackend::run`: load a compiled UDF, run it in a forked child against
 * the datasets, and bring the child's output back through a shared memory
 * segment.
 *
 * Everything outside this function's own logic is a parameter: the
 * decompressor, the path `writeToDisk` chose (or `""`), whether the anonymous
 * mapping and the fork succeed, whether `dlopen` succeeds and which symbols the
 * library exports, whether the sandbox initialises, and which bytes the UDF
 * writes into its output. The observable steps are recorded as a trace of
 * events in the order the parent sees them (the child runs while the parent
 * sits in `waitpid`).
 */
module Engine {
  import opened Bytes
  import opened Codec

  /** An address in the process: where a dataset's values live. */
  type Addr = nat

  /** `DatasetInfo`: a dataset as the backend describes it to the UDF. */
  datatype DatasetInfo = DatasetInfo(
    name: string,
    dtype: string,
    dimensions: seq<nat>,
    storageSize: U64,
    gridSize: U64,
    data: Addr)

  /** `room_size = getGridSize() * getStorageSize()`, a `size_t` product. */
  function RoomSize(d: DatasetInfo): (r: nat)
    ensures r < U64Limit
    ensures d.gridSize * d.storageSize < U64Limit ==> r == d.gridSize * d.storageSize
    ensures d.gridSize == 0 || d.storageSize == 0 ==> r == 0
  {
    (d.gridSize * d.storageSize) % U64Limit
  }

  /** The symbol of the UDF entry point and of the four containers in the template. */
  const UdfSymbol: string := "dynamic_dataset"
  const DataSymbol: string := "hdf5_udf_data"
  const NamesSymbol: string := "hdf5_udf_names"
  const TypesSymbol: string := "hdf5_udf_types"
  const DimsSymbol: string := "hdf5_udf_dims"

  /** The child gives up unless every one of these resolves. */
  const RequiredSymbols: set<string> := {UdfSymbol, DataSymbol, NamesSymbol, TypesSymbol, DimsSymbol}

  /**
   * What the foreign calls `run` makes would do, fixed in advance.
   * `udfReturns` says whether `udf()` returns to its caller: it does not when
   * the seccomp filter kills the child, when the UDF faults, or when it ends
   * the process itself. `udfWrites` are the bytes it wrote into the segment
   * before it returned or the child ended.
   */
  datatype Environment = Environment(
    mzUncompress: Decompressor,
    soFile: string,
    segmentCreated: bool,
    segment: Addr,
    forkSucceeds: bool,
    libraryOpens: bool,
    exported: set<string>,
    sandboxReady: bool,
    udfReturns: bool,
    udfWrites: map<nat, Byte>)

  datatype Event =
    | WroteLibrary(path: string)
    | MadeExecutable(path: string)
    | MappedSegment(size: nat)
    | Forked
    | ChildReturnedFalse
    | ContainersFilled(count: nat)
    | UdfInvoked
    | ChildExited(status: int)
    | UdfEndedChild
    | Waited
    | CopiedOutput(size: nat)
    | Unlinked(path: string)

  /** The dataset list the child hands to the UDF: the output first, then the inputs. */
  function Descriptors(output: DatasetInfo, segment: Addr, inputs: seq<DatasetInfo>): seq<DatasetInfo>
  {
    [output.(data := segment)] + inputs
  }

  /** The `data` pointers of a dataset list, in order. */
  function DataOf(infos: seq<DatasetInfo>): seq<Addr>
  {
    seq(|infos|, k requires 0 <= k < |infos| => infos[k].data)
  }

  /** The names of a dataset list, in order. */
  function NamesOf(infos: seq<DatasetInfo>): seq<string>
  {
    seq(|infos|, k requires 0 <= k < |infos| => infos[k].name)
  }

  /** The datatypes of a dataset list, in order. */
  function TypesOf(infos: seq<DatasetInfo>): seq<string>
  {
    seq(|infos|, k requires 0 <= k < |infos| => infos[k].dtype)
  }

  /** The dimensions of a dataset list, in order. */
  function DimsOf(infos: seq<DatasetInfo>): seq<seq<nat>>
  {
    seq(|infos|, k requires 0 <= k < |infos| => infos[k].dimensions)
  }

  /**
   * The four vectors the C++ template exports (`hdf5_udf_data`, `_names`,
   * `_types`, `_dims`), as they live in the child after `dlopen`.
   */
  class UdfContainers {
    var data: seq<Addr>
    var names: seq<string>
    var types: seq<string>
    var dims: seq<seq<nat>>

    /** Freshly loaded, the template's vectors are empty. */
    constructor ()
      ensures data == [] && names == [] && types == [] && dims == []
    {
      data := [];
      names := [];
      types := [];
      dims := [];
    }

    /** The four vectors describe `infos`, entry by entry. */
    predicate Describe(infos: seq<DatasetInfo>)
      reads this
    {
      data == DataOf(infos) && names == NamesOf(infos) && types == TypesOf(infos) && dims == DimsOf(infos)
    }

    /** One turn of the populating loop: a `push_back` on each vector. */
    method Push(d: DatasetInfo)
      modifies this
      ensures data == old(data) + [d.data]
      ensures names == old(names) + [d.name]
      ensures types == old(types) + [d.dtype]
      ensures dims == old(dims) + [d.dimensions]
    {
      data := data + [d.data];
      names := names + [d.name];
      types := types + [d.dtype];
      dims := dims + [d.dimensions];
    }

    /** The loop over `dataset_info` that fills the four vectors in lockstep. */
    method Populate(infos: seq<DatasetInfo>)
      requires data == [] && names == [] && types == [] && dims == []
      modifies this
      ensures Describe(infos)
    {
      var i := 0;
      while i < |infos|
        invariant 0 <= i <= |infos|
        invariant Describe(infos[..i])
      {
        Push(infos[i]);
        i := i + 1;
      }
      assert infos[..i] == infos;
    }
  }

  /** Whether the child gets as far as calling the UDF. */
  predicate ReachesUdf(env: Environment)
  {
    env.libraryOpens && RequiredSymbols <= env.exported && env.sandboxReady
  }

  /** A segment after the UDF's writes (writes past its end are not modelled). */
  function Written(s: seq<Byte>, writes: map<nat, Byte>): (r: seq<Byte>)
    ensures |r| == |s|
    ensures forall i :: 0 <= i < |s| && i in writes ==> r[i] == writes[i]
    ensures forall i :: 0 <= i < |s| && i !in writes ==> r[i] == s[i]
  {
    seq(|s|, i requires 0 <= i < |s| => if i in writes then writes[i] else s[i])
  }

  /** The shared segment once the child has exited: zero-filled, plus the UDF's writes. */
  function SegmentAfter(room: nat, env: Environment): (r: seq<Byte>)
    ensures |r| == room
    ensures !ReachesUdf(env) ==> r == Zeros(room)
  {
    if ReachesUdf(env) then Written(Zeros(room), env.udfWrites) else Zeros(room)
  }

  /** The UDF's writes to the output land in the output buffer; other bytes stay zero. */
  lemma OutputBytes(room: nat, env: Environment, i: nat)
    requires i < room && ReachesUdf(env)
    ensures SegmentAfter(room, env)[i] == if i in env.udfWrites then env.udfWrites[i] else 0
  {
    assert Zeros(room)[i] == 0;
  }

  /** Apply the UDF's writes to the shared segment. */
  method ApplyWrites(seg: array<Byte>, writes: map<nat, Byte>)
    modifies seg
    ensures seg[..] == Written(old(seg[..]), writes)
  {
    forall i | 0 <= i < seg.Length && i in writes {
      seg[i] := writes[i];
    }
  }

  /**
   * The child's branch of `fork()`: open the library, resolve the five
   * symbols, fill the containers with the output (its `data` redirected to
   * the segment) followed by the inputs, initialise the sandbox and, if that
   * worked, call the UDF, then `_exit(ready ? 0 : 1)`, which a UDF that
   * does not return never reaches. When `dlopen` or a symbol fails, the
   * child `return false`s out of `run`.
   */
  method RunChild(inputs: seq<DatasetInfo>, output: DatasetInfo, seg: array<Byte>, env: Environment)
    returns (events: seq<Event>, containers: UdfContainers?)
    modifies seg
    ensures containers != null <==> env.libraryOpens && RequiredSymbols <= env.exported
    ensures containers != null ==> fresh(containers) && containers.Describe(Descriptors(output, env.segment, inputs))
    ensures containers == null ==> events == [ChildReturnedFalse] && seg[..] == old(seg[..])
    ensures containers != null ==>
              events == [ContainersFilled(|inputs| + 1)] +
                        if !env.sandboxReady then [ChildExited(1)]
                        else if env.udfReturns then [UdfInvoked, ChildExited(0)]
                        else [UdfInvoked, UdfEndedChild]
    ensures ChildExited(0) in events <==> ReachesUdf(env) && env.udfReturns
    ensures seg[..] == if ReachesUdf(env) then Written(old(seg[..]), env.udfWrites) else old(seg[..])
  {
    if !env.libraryOpens || !(RequiredSymbols <= env.exported) {
      return [ChildReturnedFalse], null;
    }
    containers := new UdfContainers();
    var infos := Descriptors(output, env.segment, inputs);
    containers.Populate(infos);
    events := [ContainersFilled(|infos|)];
    var ready := env.sandboxReady;
    if ready {
      ApplyWrites(seg, env.udfWrites);
      events := events + [UdfInvoked];
      if !env.udfReturns {
        return events + [UdfEndedChild], containers;
      }
    }
    events := events + [ChildExited(if ready then 0 else 1)];
  }

  /** Whether `decompressBuffer` returns a non-empty library. */
  predicate LibraryUnpacked(blob: seq<Byte>, env: Environment)
    requires |blob| >= TrailerSize
  {
    var lib := DecompressBuffer(blob, env.mzUncompress);
    lib.Decompressed? && |lib.bytes| > 0
  }

  /** Whether `run` gets past its setup (decompression, the file on disk, the segment). */
  predicate SetupSucceeds(blob: seq<Byte>, env: Environment)
    requires |blob| >= TrailerSize
  {
    LibraryUnpacked(blob, env) && env.soFile != "" && env.segmentCreated
  }

  /**
   * How `run` ends: it returns a `bool`, or it throws because
   * `decompressBuffer` throws `std::length_error` (a stored size above
   * `max_size()`).
   */
  datatype RunResult = Returned(ok: bool) | Threw

  /**
   * `run(filterpath, inputs, output, ..., blob)`, seen from the parent. The
   * result is `false` only when setup fails; a fork failure and a failing
   * child still return `true`. A trailer above `max_size()` makes the call
   * throw before anything else happens. `outBuf` is the memory `output.data`
   * points to.
   */
  method Run(inputs: seq<DatasetInfo>, output: DatasetInfo, outBuf: array<Byte>, blob: seq<Byte>, env: Environment)
    returns (result: RunResult, trace: seq<Event>, containers: UdfContainers?)
    requires |blob| >= TrailerSize
    requires RoomSize(output) <= outBuf.Length
    modifies outBuf
    ensures result == Threw <==> StoredSize(blob) > MaxSize
    ensures result == Threw ==> trace == [] && containers == null
    ensures result.Returned? ==> result.ok == SetupSucceeds(blob, env)
    ensures result != Returned(true) || !env.forkSucceeds ==> outBuf[..] == old(outBuf[..])
    ensures result == Returned(true) && env.forkSucceeds ==>
              && outBuf[..RoomSize(output)] == SegmentAfter(RoomSize(output), env)
              && outBuf[RoomSize(output)..] == old(outBuf[RoomSize(output)..])
    ensures Forked in trace ==> result == Returned(true)
    ensures UdfInvoked in trace <==> result == Returned(true) && env.forkSucceeds && ReachesUdf(env)
    ensures UdfEndedChild in trace <==>
              result == Returned(true) && env.forkSucceeds && ReachesUdf(env) && !env.udfReturns
    ensures CopiedOutput(RoomSize(output)) in trace <==> result == Returned(true) && env.forkSucceeds
    ensures containers != null <==>
              result == Returned(true) && env.forkSucceeds && env.libraryOpens && RequiredSymbols <= env.exported
    ensures containers != null ==> containers.Describe(Descriptors(output, env.segment, inputs))
    ensures LibraryUnpacked(blob, env) && env.soFile != "" <==>
              |trace| > 0 && trace[|trace| - 1] == Unlinked(env.soFile)
  {
    trace := [];
    containers := null;
    var lib := DecompressBuffer(blob, env.mzUncompress);
    if lib == LengthError {
      return Threw, trace, null;
    }
    if |lib.bytes| == 0 {
      return Returned(false), trace, null;
    }
    var soFile := env.soFile;
    if |soFile| == 0 {
      return Returned(false), trace, null;
    }
    trace := trace + [WroteLibrary(soFile), MadeExecutable(soFile)];
    var room := RoomSize(output);
    if !env.segmentCreated {
      trace := trace + [Unlinked(soFile)];
      return Returned(false), trace, null;
    }
    var seg := new Byte[room](_ => 0);
    assert seg[..] == Zeros(room);
    trace := trace + [MappedSegment(room)];
    if env.forkSucceeds {
      trace := trace + [Forked];
      var events;
      events, containers := RunChild(inputs, output, seg, env);
      trace := trace + events + [Waited];
      CopyInto(outBuf, 0, seg[..]);
      trace := trace + [CopiedOutput(room)];
    }
    trace := trace + [Unlinked(soFile)];
    result := Returned(true);
  }
}
