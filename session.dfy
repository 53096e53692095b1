/**
 * The test script utils/test.py: the log level its `--log` option selects,
 * the NumPy array `create_array_from` allocates for a frame, and the order in
 * which `command` configures, starts, reads and stops the camera. The camera
 * is abstract: each call on it is recorded, and any one of them may raise.
 */
module Session {
  import opened Wrappers

  /** Python's `logging.DEBUG`, `logging.INFO` and `logging.ERROR`. */
  const Debug: nat := 10
  const Info: nat := 20
  const Error: nat := 40

  /** `LOG_OPTIONS`: the three level names the script knows. */
  const LogOptions: map<string, nat> := map["DEBUG" := Debug, "INFO" := Info, "ERROR" := Error]

  /** `LOG_DEFAULT`. */
  const LogDefault: string := "INFO"

  /** `LOG_CONFIG[key]`: a defaultdict that answers the default level for any name it does not know. */
  function LogConfig(key: string): nat
  {
    if key in LogOptions then LogOptions[key] else LogOptions[LogDefault]
  }

  /** The NumPy element types the script chooses between. */
  datatype DType = UInt8 | UInt16

  /** The largest value an element of the type holds. */
  function MaxValue(t: DType): nat
  {
    match t
    case UInt8 => 0xFF
    case UInt16 => 0xFFFF
  }

  /** A NumPy array as far as the script uses one: element type, shape, elements and data address. */
  datatype NdArray = NdArray(dtype: DType, shape: (nat, nat), data: seq<nat>, address: nat)

  /** `np.uint16 if bits > 8 else np.uint8`. */
  function ElementType(bits: nat): DType
  {
    if bits > 8 then UInt16 else UInt8
  }

  /**
   * `create_array_from`, given the camera's answers for sensor-bitdepth,
   * roi-height and roi-width, and the address NumPy gives the array's data:
   * the array and that address.
   */
  function CreateArrayFrom(bits: nat, roiHeight: nat, roiWidth: nat, address: nat): (r: (NdArray, nat))
    ensures r.0.dtype == UInt16 <==> bits > 8
    ensures r.0.shape == (roiHeight, roiWidth) && |r.0.data| == roiHeight * roiWidth
    ensures forall k :: 0 <= k < |r.0.data| ==> r.0.data[k] == 0
    ensures r.1 == r.0.address
  {
    var a := NdArray(ElementType(bits), (roiHeight, roiWidth), seq(roiHeight * roiWidth, _ => 0), address);
    (a, a.address)
  }

  function Pow2(n: nat): (p: nat)
    ensures p >= 1
  {
    if n == 0 then 1 else 2 * Pow2(n - 1)
  }

  lemma {:induction false} Pow2Monotone(m: nat, n: nat)
    requires m <= n
    ensures Pow2(m) <= Pow2(n)
    decreases n
  {
    if m < n {
      Pow2Monotone(m, n - 1);
    }
  }

  /**
   * The element type is the narrowest that holds every value of the sensor's
   * bit depth, up to 16 bits: uint8 holds every 8-bit value, and a deeper
   * sensor has values uint8 cannot hold but uint16 can.
   */
  lemma ElementTypeFits(bits: nat)
    requires bits <= 16
    ensures Pow2(bits) - 1 <= MaxValue(ElementType(bits))
    ensures ElementType(bits) == UInt16 ==> Pow2(bits) - 1 > MaxValue(UInt8)
  {
    assert Pow2(8) == 256 && Pow2(9) == 512 && Pow2(16) == 65536;
    if bits <= 8 {
      Pow2Monotone(bits, 8);
    } else {
      Pow2Monotone(9, bits);
      Pow2Monotone(bits, 16);
    }
  }

  /** What the script does to the camera, in the order it does it. */
  datatype Event =
    | SetNetworkAddress(ip: string)
    | SetNetworkInterface(name: string)
    | SetEnable10ge(on: bool)
    | SetConnect(on: bool)
    | StartRecording
    | GetSensorBitdepth
    | GetRoiHeight
    | GetRoiWidth
    | Grab(address: nat)
    | StopRecording

  /** Why the script stopped early. */
  datatype ScriptError =
    | NameError(name: string)   // an undefined global name
    | CameraError               // a call on the camera raised

  /** How `command` ends: it returns with the frame's array, or it raises. */
  datatype Outcome = Completed(frame: NdArray) | Raised(error: ScriptError)

  /**
   * The calls `command` makes on the camera when none of them raises: the
   * network address, the 10G settings when asked for, connect, start, the
   * three queries of create_array_from, one grab into the array's data, stop.
   */
  function Steps(ip: string, iface: string, xnetwork: bool, address: nat): seq<Event>
  {
    [SetNetworkAddress(ip)]
    + (if xnetwork then [SetNetworkInterface(iface), SetEnable10ge(true)] else [])
    + [SetConnect(true), StartRecording, GetSensorBitdepth, GetRoiHeight, GetRoiWidth, Grab(address), StopRecording]
  }

  /** The call numbered `failOn` raises, and it is one of the `n` calls from `base` on. */
  predicate FailsWithin(failOn: Option<nat>, base: nat, n: nat)
  {
    failOn.Some? && base <= failOn.value < base + n
  }

  /**
   * The calls that are made when the call numbered `failOn` raises: the steps
   * up to and including that one. No try/finally: nothing after it runs.
   */
  function Reached(steps: seq<Event>, base: nat, failOn: Option<nat>): seq<Event>
  {
    if FailsWithin(failOn, base, |steps|) then steps[..failOn.value - base + 1] else steps
  }

  /**
   * The camera the script drives: what it has been asked to do so far, the
   * values its properties answer, and the number of the call, if any, that
   * raises.
   */
  class ScriptCamera {
    var trace: seq<Event>
    const bitdepth: nat
    const roiHeight: nat
    const roiWidth: nat
    const failOn: Option<nat>

    constructor (bitdepth: nat, roiHeight: nat, roiWidth: nat, failOn: Option<nat>)
      ensures trace == [] && this.failOn == failOn
      ensures this.bitdepth == bitdepth && this.roiHeight == roiHeight && this.roiWidth == roiWidth
    {
      trace := [];
      this.bitdepth := bitdepth;
      this.roiHeight := roiHeight;
      this.roiWidth := roiWidth;
      this.failOn := failOn;
    }

    /** No call from `base` on, before the k-th step, has raised. */
    predicate Clear(base: nat, k: nat)
    {
      !FailsWithin(failOn, base, k)
    }

    /**
     * Step k of `steps` (the event `e`): the call is made and recorded; it
     * returns unless it is the call that raises.
     */
    method Perform(e: Event, ghost start: seq<Event>, ghost steps: seq<Event>, ghost k: nat) returns (ok: bool)
      requires k < |steps| && steps[k] == e
      requires trace == start + steps[..k] && Clear(|start|, k)
      modifies this
      ensures trace == start + steps[..k + 1]
      ensures ok <==> Clear(|start|, k + 1)
      ensures !ok ==> failOn == Some(|start| + k)
    {
      ok := failOn != Some(|trace|);
      trace := trace + [e];
      assert steps[..k + 1] == steps[..k] + [e];
    }
  }

  /** Where each call sits in Steps: k is the index of connect, after the optional 10G settings. */
  lemma StepsAt(ip: string, iface: string, xnetwork: bool, address: nat, k: nat)
    requires k == if xnetwork then 3 else 1
    ensures var s := Steps(ip, iface, xnetwork, address);
      |s| == k + 7 && s[0] == SetNetworkAddress(ip) &&
      (xnetwork ==> s[1] == SetNetworkInterface(iface) && s[2] == SetEnable10ge(true)) &&
      s[k] == SetConnect(true) && s[k + 1] == StartRecording && s[k + 2] == GetSensorBitdepth &&
      s[k + 3] == GetRoiHeight && s[k + 4] == GetRoiWidth && s[k + 5] == Grab(address) && s[k + 6] == StopRecording
  {
  }

  /** The call at step j raised: the trace holds the steps up to it and the run failed within the steps. */
  lemma Stopped(steps: seq<Event>, start: seq<Event>, trace: seq<Event>, failOn: Option<nat>, j: nat)
    requires j < |steps| && failOn == Some(|start| + j) && trace == start + steps[..j + 1]
    ensures trace == start + Reached(steps, |start|, failOn)
    ensures FailsWithin(failOn, |start|, |steps|)
  {
  }

  /** Every step returned: the trace holds all of them. */
  lemma Finished(steps: seq<Event>, start: seq<Event>, trace: seq<Event>, failOn: Option<nat>)
    requires trace == start + steps[..|steps|] && !FailsWithin(failOn, |start|, |steps|)
    ensures trace == start + Reached(steps, |start|, failOn)
  {
    assert steps[..|steps|] == steps;
  }

  /**
   * `command` with its first call spelt `logging`: the log level for `--log`,
   * then the calls of Steps until one raises. `address` is where NumPy puts
   * the frame array's data.
   */
  method Command(log: string, ip: string, iface: string, xnetwork: bool, camera: ScriptCamera, address: nat)
    returns (level: nat, outcome: Outcome)
    modifies camera
    ensures level == LogConfig(log)
    ensures camera.trace == old(camera.trace) + Reached(Steps(ip, iface, xnetwork, address), |old(camera.trace)|, camera.failOn)
    ensures outcome.Completed? <==> !FailsWithin(camera.failOn, |old(camera.trace)|, |Steps(ip, iface, xnetwork, address)|)
    ensures outcome.Completed? ==> (outcome.frame, address) == CreateArrayFrom(camera.bitdepth, camera.roiHeight, camera.roiWidth, address)
  {
    ghost var start := camera.trace;
    ghost var steps := Steps(ip, iface, xnetwork, address);
    ghost var k: nat := if xnetwork then 3 else 1;
    StepsAt(ip, iface, xnetwork, address, k);
    level := LogConfig(log);
    var ok := camera.Perform(SetNetworkAddress(ip), start, steps, 0);
    if !ok {
      Stopped(steps, start, camera.trace, camera.failOn, 0);
      return level, Raised(CameraError);
    }
    if xnetwork {
      ok := camera.Perform(SetNetworkInterface(iface), start, steps, 1);
      if !ok {
        Stopped(steps, start, camera.trace, camera.failOn, 1);
        return level, Raised(CameraError);
      }
      ok := camera.Perform(SetEnable10ge(true), start, steps, 2);
      if !ok {
        Stopped(steps, start, camera.trace, camera.failOn, 2);
        return level, Raised(CameraError);
      }
    }
    ok := camera.Perform(SetConnect(true), start, steps, k);
    if !ok {
      Stopped(steps, start, camera.trace, camera.failOn, k);
      return level, Raised(CameraError);
    }
    ok := camera.Perform(StartRecording, start, steps, k + 1);
    if !ok {
      Stopped(steps, start, camera.trace, camera.failOn, k + 1);
      return level, Raised(CameraError);
    }
    ok := camera.Perform(GetSensorBitdepth, start, steps, k + 2);
    if !ok {
      Stopped(steps, start, camera.trace, camera.failOn, k + 2);
      return level, Raised(CameraError);
    }
    ok := camera.Perform(GetRoiHeight, start, steps, k + 3);
    if !ok {
      Stopped(steps, start, camera.trace, camera.failOn, k + 3);
      return level, Raised(CameraError);
    }
    ok := camera.Perform(GetRoiWidth, start, steps, k + 4);
    if !ok {
      Stopped(steps, start, camera.trace, camera.failOn, k + 4);
      return level, Raised(CameraError);
    }
    var frame, buf := CreateArrayFrom(camera.bitdepth, camera.roiHeight, camera.roiWidth, address).0, address;
    ok := camera.Perform(Grab(buf), start, steps, k + 5);
    if !ok {
      Stopped(steps, start, camera.trace, camera.failOn, k + 5);
      return level, Raised(CameraError);
    }
    ok := camera.Perform(StopRecording, start, steps, k + 6);
    if !ok {
      Stopped(steps, start, camera.trace, camera.failOn, k + 6);
      return level, Raised(CameraError);
    }
    Finished(steps, start, camera.trace, camera.failOn);
    return level, Completed(frame);
  }

  /**
   * `command` as written: its first statement names `loggisetng`, which is not
   * defined, so it raises NameError before any call on the camera.
   */
  method CommandAsWritten(log: string, ip: string, iface: string, xnetwork: bool, camera: ScriptCamera, address: nat)
    returns (outcome: Outcome)
    ensures outcome == Raised(NameError("loggisetng"))
  {
    return Raised(NameError("loggisetng"));
  }

  /** The script as written never reaches the camera, while its intended run always starts by setting the address. */
  lemma AsWrittenSkipsCamera(ip: string, iface: string, xnetwork: bool, address: nat, failOn: Option<nat>)
    ensures |Reached(Steps(ip, iface, xnetwork, address), 0, failOn)| >= 1
    ensures Reached(Steps(ip, iface, xnetwork, address), 0, failOn)[0] == SetNetworkAddress(ip)
  {
  }

  /** The three level names map to their levels and every other name to INFO. */
  lemma LogConfigLevels(key: string)
    ensures LogConfig(key) == Debug <==> key == "DEBUG"
    ensures LogConfig(key) == Error <==> key == "ERROR"
    ensures LogConfig(key) == Info <==> key != "DEBUG" && key != "ERROR"
  {
  }

  /** The position of the call that enables 10G, the interface setting and connect in the steps. */
  lemma TenGigBeforeConnect(ip: string, iface: string, xnetwork: bool, address: nat)
    ensures SetEnable10ge(true) in Steps(ip, iface, xnetwork, address) <==> xnetwork
    ensures SetNetworkInterface(iface) in Steps(ip, iface, xnetwork, address) <==> xnetwork
    ensures var s := Steps(ip, iface, xnetwork, address);
      forall i, j :: 0 <= i < |s| && 0 <= j < |s| && (s[i].SetEnable10ge? || s[i].SetNetworkInterface?) && s[j].SetConnect? ==> i < j
  {
    var s := Steps(ip, iface, xnetwork, address);
    if !xnetwork {
      assert forall i :: 0 <= i < |s| ==> !s[i].SetEnable10ge? && !s[i].SetNetworkInterface?;
    }
  }

  /**
   * Exactly one grab, into the address create_array_from returned, after
   * start_recording; stop_recording is the last call.
   */
  lemma SingleGrab(ip: string, iface: string, xnetwork: bool, address: nat)
    ensures var s := Steps(ip, iface, xnetwork, address);
      forall i :: 0 <= i < |s| ==> (s[i].Grab? <==> i == |s| - 2)
    ensures var s := Steps(ip, iface, xnetwork, address);
      s[|s| - 2] == Grab(address) && s[|s| - 6] == StartRecording && s[|s| - 1] == StopRecording
  {
  }

  /**
   * stop_recording is called exactly when no call before it raised: the
   * script has no try/finally.
   */
  lemma NoFinally(ip: string, iface: string, xnetwork: bool, address: nat, base: nat, failOn: Option<nat>)
    ensures StopRecording in Reached(Steps(ip, iface, xnetwork, address), base, failOn)
      <==> !FailsWithin(failOn, base, |Steps(ip, iface, xnetwork, address)| - 1)
  {
    var s := Steps(ip, iface, xnetwork, address);
    StepsAt(ip, iface, xnetwork, address, if xnetwork then 3 else 1);
    assert forall i :: 0 <= i < |s| - 1 ==> s[i] != StopRecording;
    if FailsWithin(failOn, base, |s|) {
      var n := failOn.value - base + 1;
      if n < |s| {
        assert forall i :: 0 <= i < n ==> s[..n][i] == s[i];
        assert StopRecording !in s[..n];
      } else {
        assert s[..n] == s;
        assert s[|s| - 1] == StopRecording;
      }
    } else {
      assert s[|s| - 1] == StopRecording;
    }
  }
}
