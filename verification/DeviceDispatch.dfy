/** Running GEMMs on a CUDA device that may be missing or fail at any driver call. */
module DeviceDispatch {
  const CUDA_SUCCESS := 0
  const CUDA_ERROR_NOT_INITIALIZED := 3

  /** What the driver answers about one device. */
  datatype Device = Device(get: int, majorResult: int, major: int, minorResult: int, minor: int)

  /** What the driver answers when asked for devices; `loaded` is whether its entry points exist. */
  datatype Driver = Driver(loaded: bool, init: int, countResult: int, devices: seq<Device>)

  predicate Usable(d: Device, minimum: int) {
    d.get == 0 && d.majorResult == 0 && d.minorResult == 0
    && d.major * 10 + d.minor >= minimum
  }

  predicate Available(d: Driver, minimum: int) {
    d.loaded && d.init == 0 && d.countResult == 0
    && exists i :: 0 <= i < |d.devices| && Usable(d.devices[i], minimum)
  }

  /** The error code that asking for devices leaves behind. */
  function AvailabilityCode(d: Driver): int {
    if !d.loaded then 3
    else if d.init != 0 then d.init
    else d.countResult
  }

  /** The first failure among some results, after `latch`. */
  function Latched(latch: int, results: seq<int>): int
    decreases |results|
  {
    if results == [] then latch
    else Latched(if latch == CUDA_SUCCESS then results[0] else latch, results[1..])
  }

  predicate AllSucceed(results: seq<int>) { forall i :: 0 <= i < |results| ==> results[i] == 0 }

  /** A clear latch stays clear exactly as long as every call succeeds, and a set one keeps its value. */
  lemma {:induction false} LatchTellsFailure(latch: int, results: seq<int>)
    ensures latch == CUDA_SUCCESS ==> (Latched(latch, results) == CUDA_SUCCESS <==> AllSucceed(results))
    ensures latch != CUDA_SUCCESS ==> Latched(latch, results) == latch
    decreases |results|
  {
    if results != [] {
      LatchTellsFailure(if latch == CUDA_SUCCESS then results[0] else latch, results[1..]);
      assert forall i :: 0 < i < |results| ==> results[i] == results[1..][i - 1];
    }
  }

  lemma {:induction false} LatchedNext(latch: int, results: seq<int>, r: int)
    ensures Latched(latch, results + [r]) == if Latched(latch, results) == CUDA_SUCCESS then r
      else Latched(latch, results)
    decreases |results|
  {
    if results == [] {
      assert [] + [r] == [r] && [r][1..] == [];
    } else {
      assert (results + [r])[1..] == results[1..] + [r];
      LatchedNext(if latch == CUDA_SUCCESS then results[0] else latch, results[1..], r);
    }
  }

  type Content = seq<int>

  /** A GEMM on named buffers; `compute` is its meaning on the contents of A, B, C and the bias. */
  datatype GemmCall = GemmCall(A: nat, B: nat, C: nat, bias: nat,
      compute: (Content, Content, Content, Content) -> Content)

  /** How the device behaves while one GEMM runs on it: the results of its driver calls, and what
      it leaves in the output buffer. */
  datatype Behaviour = Behaviour(driver: Driver, results: seq<int>,
      leaves: (Content, Content, Content, Content) -> Content)

  /** A run without a failed call computes the GEMM; nothing is assumed of other runs. */
  ghost predicate Honest(b: Behaviour, g: GemmCall) {
    AllSucceed(b.results) ==> forall w, x, y, z :: b.leaves(w, x, y, z) == g.compute(w, x, y, z)
  }

  type Buffers = map<nat, Content>

  function At(m: Buffers, name: nat): Content { if name in m then m[name] else [] }

  function OnCpu(g: GemmCall, m: Buffers): Buffers {
    m[g.C := g.compute(At(m, g.A), At(m, g.B), At(m, g.C), At(m, g.bias))]
  }

  /** The CPU reads its four buffers and replaces the output. */
  lemma OnCpuExactly(g: GemmCall, m: Buffers)
    requires {g.A, g.B, g.C, g.bias} <= m.Keys
    ensures OnCpu(g, m).Keys == m.Keys
    ensures OnCpu(g, m)[g.C] == g.compute(m[g.A], m[g.B], m[g.C], m[g.bias])
    ensures forall name :: name in m && name != g.C ==> OnCpu(g, m)[name] == m[name]
  {}

  /** The all-CPU result. */
  function AllOnCpu(gemms: seq<GemmCall>, m: Buffers): Buffers
    decreases |gemms|
  {
    if gemms == [] then m else OnCpu(gemms[|gemms| - 1], AllOnCpu(gemms[..|gemms| - 1], m))
  }

  datatype Mode = Cpu | Auto | Cuda

  class Host {
    var Memory: Buffers
    var CudaRuntimeError: int
    var DefaultDevice: int
    const MinimumCapability: int

    constructor (memory: Buffers, minimum: int)
      ensures Memory == memory && MinimumCapability == minimum
    {
      Memory, CudaRuntimeError, DefaultDevice, MinimumCapability := memory, CUDA_SUCCESS, -1, minimum;
    }

    method ReportCudaError(result: int)
      modifies this`CudaRuntimeError
      ensures CudaRuntimeError == Latched(old(CudaRuntimeError), [result])
    {
      assert [result][1..] == [];
      if result == CUDA_SUCCESS { return; }
      if CudaRuntimeError == CUDA_SUCCESS { CudaRuntimeError := result; }
    }

    method CudaIsAvailable(driver: Driver) returns (available: bool)
      modifies this`CudaRuntimeError, this`DefaultDevice
      ensures available <==> Available(driver, MinimumCapability)
      ensures CudaRuntimeError == AvailabilityCode(driver) && (!available ==> DefaultDevice == -1)
      ensures available ==>
        && 0 <= DefaultDevice < |driver.devices|
        && Usable(driver.devices[DefaultDevice], MinimumCapability)
        && forall i :: 0 <= i < DefaultDevice ==> !Usable(driver.devices[i], MinimumCapability)
    {
      CudaRuntimeError := CUDA_ERROR_NOT_INITIALIZED;
      DefaultDevice := -1;
      if !driver.loaded { return false; }
      CudaRuntimeError := CUDA_SUCCESS;
      if driver.init != CUDA_SUCCESS {
        CudaRuntimeError := driver.init;
        return false;
      }
      if driver.countResult != CUDA_SUCCESS {
        CudaRuntimeError := driver.countResult;
        return false;
      }
      for ordinal := 0 to |driver.devices|
        invariant CudaRuntimeError == CUDA_SUCCESS && DefaultDevice == -1
        invariant forall i :: 0 <= i < ordinal ==> !Usable(driver.devices[i], MinimumCapability)
      {
        var d := driver.devices[ordinal];
        if d.get != CUDA_SUCCESS || d.majorResult != CUDA_SUCCESS || d.minorResult != CUDA_SUCCESS { continue; }
        if d.major * 10 + d.minor >= MinimumCapability {
          DefaultDevice := ordinal;
          return true;
        }
      }
      return false;
    }

    method CudaResetError()
      modifies this`CudaRuntimeError
      ensures CudaRuntimeError == CUDA_SUCCESS
    {
      CudaRuntimeError := CUDA_SUCCESS;
    }

    predicate CudaHadError()
      reads this
    {
      CudaRuntimeError != CUDA_SUCCESS
    }

    /** The GEMM on the device with the given output buffer; every driver result is reported. */
    method OnCuda(g: GemmCall, output: Content, b: Behaviour) returns (left: Content)
      requires Honest(b, g)
      modifies this`CudaRuntimeError
      ensures CudaRuntimeError == Latched(old(CudaRuntimeError), b.results)
      ensures old(CudaRuntimeError) == CUDA_SUCCESS && !CudaHadError() ==>
        left == g.compute(At(Memory, g.A), At(Memory, g.B), output, At(Memory, g.bias))
    {
      for i := 0 to |b.results|
        invariant CudaRuntimeError == Latched(old(CudaRuntimeError), b.results[..i])
      {
        assert b.results[..i + 1] == b.results[..i] + [b.results[i]];
        LatchedNext(old(CudaRuntimeError), b.results[..i], b.results[i]);
        LatchedNext(CudaRuntimeError, [], b.results[i]);
        assert [] + [b.results[i]] == [b.results[i]];
        ReportCudaError(b.results[i]);
      }
      assert b.results[..|b.results|] == b.results;
      LatchTellsFailure(old(CudaRuntimeError), b.results);
      left := b.leaves(At(Memory, g.A), At(Memory, g.B), output, At(Memory, g.bias));
    }

    /** Auto mode: the device works on a scratch copy, and the CPU takes over when it fails. */
    method DispatchAuto(g: GemmCall, b: Behaviour)
      requires Honest(b, g)
      modifies this
      ensures Memory == OnCpu(g, old(Memory))
      ensures CudaRuntimeError ==
        if Available(b.driver, MinimumCapability) then Latched(CUDA_SUCCESS, b.results) else AvailabilityCode(b.driver)
    {
      var available := CudaIsAvailable(b.driver);
      if available {
        CudaResetError();
        var scratch := At(Memory, g.C);
        scratch := OnCuda(g, scratch, b);
        if CudaHadError() {
          Memory := OnCpu(g, Memory);
        } else {
          Memory := Memory[g.C := scratch];
        }
      } else {
        Memory := OnCpu(g, Memory);
      }
    }

    /** Cuda mode: the device works on C itself, and a failure ends the program. */
    method DispatchCuda(g: GemmCall, b: Behaviour) returns (aborted: bool)
      requires Honest(b, g)
      modifies this
      ensures aborted <==> !Available(b.driver, MinimumCapability) || !AllSucceed(b.results)
      ensures !aborted ==> Memory == OnCpu(g, old(Memory))
    {
      var available := CudaIsAvailable(b.driver);
      if !available { return true; }
      CudaResetError();
      var c := OnCuda(g, At(Memory, g.C), b);
      Memory := Memory[g.C := c];
      LatchTellsFailure(CUDA_SUCCESS, b.results);
      return CudaHadError();
    }

    /** A whole program of GEMMs.  Cpu and auto mode end with the all-CPU result whatever the
        device does; cuda mode does too, or aborts at the first device failure. */
    method Run(mode: Mode, gemms: seq<GemmCall>, behaviours: seq<Behaviour>) returns (aborted: bool, done: nat)
      requires |gemms| == |behaviours| && forall i :: 0 <= i < |gemms| ==> Honest(behaviours[i], gemms[i])
      modifies this
      ensures mode != Cuda ==> !aborted
      ensures !aborted ==> done == |gemms| && Memory == AllOnCpu(gemms, old(Memory))
      ensures aborted ==>
        && done < |gemms|
        && (!Available(behaviours[done].driver, MinimumCapability) || !AllSucceed(behaviours[done].results))
      ensures mode == Cuda ==> forall i :: 0 <= i < done ==>
        Available(behaviours[i].driver, MinimumCapability) && AllSucceed(behaviours[i].results)
    {
      for i := 0 to |gemms|
        invariant Memory == AllOnCpu(gemms[..i], old(Memory))
        invariant mode == Cuda ==> forall j :: 0 <= j < i ==>
          Available(behaviours[j].driver, MinimumCapability) && AllSucceed(behaviours[j].results)
      {
        assert gemms[..i + 1][..i] == gemms[..i];
        match mode {
          case Cpu => Memory := OnCpu(gemms[i], Memory);
          case Auto => DispatchAuto(gemms[i], behaviours[i]);
          case Cuda =>
            var failed := DispatchCuda(gemms[i], behaviours[i]);
            if failed { return true, i; }
        }
      }
      assert gemms[..|gemms|] == gemms;
      return false, |gemms|;
    }
  }
}
