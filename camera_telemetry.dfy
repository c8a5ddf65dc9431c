/**
 * The camera selection of the rover's telemetry node (`telemetry.rs`): the
 * base station cycles through the cameras, and the node keeps the index of
 * the camera being streamed.  Also the two derived settings of
 * `Telemetry::new`: the video port and the time between camera frames.
 *
 * Rust integer arithmetic is checked here as in a debug build: an overflow,
 * and a remainder by zero, panics.  A panic is the `None` outcome.
 */
module CameraTelemetry {
  import opened Wrappers

  newtype u8 = x: int | 0 <= x < 0x100
  newtype u16 = x: int | 0 <= x < 0x1_0000

  datatype CameraMessage = NextCamera | PreviousCamera | Sdp(sdp: string)

  /** `(i + 1) % camera_count` in `u8` arithmetic. */
  function NextIndex(i: u8, cameraCount: u8): (r: Option<u8>)
    ensures r.None? <==> cameraCount == 0 || i == 255
    ensures r.Some? ==> r.value < cameraCount && r.value as int == (i as int + 1) % cameraCount as int
    ensures r.Some? && i < cameraCount - 1 ==> r.value == i + 1
    ensures r.Some? && i == cameraCount - 1 ==> r.value == 0
  {
    if cameraCount == 0 || i == 255 then None
    else
      ModBelowTwice(i as int + 1, cameraCount as int);
      Some(((i as int + 1) % cameraCount as int) as u8)
  }

  /** `(i + camera_count - 1) % camera_count` in `u8` arithmetic, evaluated left to right. */
  function PreviousIndex(i: u8, cameraCount: u8): (r: Option<u8>)
    ensures r.None? <==> cameraCount == 0 || i as int + cameraCount as int > 255
    ensures r.Some? ==> r.value < cameraCount &&
                        r.value as int == (i as int + cameraCount as int - 1) % cameraCount as int
    ensures r.Some? && 0 < i <= cameraCount ==> r.value == i - 1
    ensures r.Some? && i == 0 ==> r.value == cameraCount - 1
  {
    if cameraCount == 0 || i as int + cameraCount as int > 255 then None
    else
      ModBelowTwice(i as int + cameraCount as int - 1, cameraCount as int);
      Some(((i as int + cameraCount as int - 1) % cameraCount as int) as u8)
  }

  /** The remainder of a number below twice the divisor. */
  lemma ModBelowTwice(v: int, d: int)
    requires 0 <= v && 0 < d
    ensures v < d ==> v % d == v
    ensures d <= v < d + d ==> v % d == v - d
  {
    if d <= v < d + d {
      assert v == 1 * d + (v - d);
    }
  }

  /** The index after one camera message; an `Sdp` message is only logged. */
  function OnCameraMessage(i: u8, cameraCount: u8, msg: CameraMessage): Option<u8>
  {
    match msg
    case NextCamera => NextIndex(i, cameraCount)
    case PreviousCamera => PreviousIndex(i, cameraCount)
    case Sdp(_) => Some(i)
  }

  /** The index after a run of camera messages, or `None` once one of them panics. */
  function AfterMessages(i: u8, cameraCount: u8, messages: seq<CameraMessage>): Option<u8>
    decreases |messages|
  {
    if messages == [] then Some(i)
    else match OnCameraMessage(i, cameraCount, messages[0])
      case None => None
      case Some(j) => AfterMessages(j, cameraCount, messages[1..])
  }

  /** Stepping forward and then back, or back and then forward, returns to the same camera. */
  lemma NextPreviousInverse(i: u8, cameraCount: u8)
    requires i < cameraCount && cameraCount as int + cameraCount as int <= 256
    ensures NextIndex(i, cameraCount).Some? &&
            PreviousIndex(NextIndex(i, cameraCount).value, cameraCount) == Some(i)
    ensures PreviousIndex(i, cameraCount).Some? &&
            NextIndex(PreviousIndex(i, cameraCount).value, cameraCount) == Some(i)
  {
  }

  /**
   * With at most 128 cameras and a valid starting index, no message panics,
   * and the index stays below the camera count.
   */
  lemma {:induction false} IndexStaysInRange(i: u8, cameraCount: u8, messages: seq<CameraMessage>)
    requires i < cameraCount <= 128
    ensures AfterMessages(i, cameraCount, messages).Some?
    ensures AfterMessages(i, cameraCount, messages).value < cameraCount
    decreases |messages|
  {
    if messages != [] {
      var j := OnCameraMessage(i, cameraCount, messages[0]);
      assert j.Some? && j.value < cameraCount;
      IndexStaysInRange(j.value, cameraCount, messages[1..]);
    }
  }

  /** The camera selection shared with the camera thread, as the telemetry node holds it. */
  class CameraSelector {
    /** `camera_index`, an atomic shared with the camera thread. */
    var cameraIndex: u8
    /** `camera_count`: zero after `Telemetry::new`; the caller sets it. */
    var cameraCount: u8

    constructor (cameraIndex: u8)
      ensures this.cameraIndex == cameraIndex && cameraCount == 0
    {
      this.cameraIndex := cameraIndex;
      cameraCount := 0;
    }

    /**
     * The loop over the camera channel: load the index, recompute it and store
     * it back, message by message.  `false` when a message makes the node panic;
     * the index then keeps the value from before that message.
     */
    method ServeCameraMessages(messages: seq<CameraMessage>) returns (ok: bool)
      modifies this`cameraIndex
      ensures ok <==> AfterMessages(old(cameraIndex), cameraCount, messages).Some?
      ensures ok ==> Some(cameraIndex) == AfterMessages(old(cameraIndex), cameraCount, messages)
    {
      var k := 0;
      while k < |messages|
        invariant 0 <= k <= |messages|
        invariant AfterMessages(old(cameraIndex), cameraCount, messages) ==
                  AfterMessages(cameraIndex, cameraCount, messages[k..])
      {
        assert messages[k..][1..] == messages[k + 1..];
        var current := cameraIndex;
        match messages[k] {
          case NextCamera =>
            if cameraCount == 0 || current == 255 {
              return false;
            }
            cameraIndex := ((current as int + 1) % cameraCount as int) as u8;
          case PreviousCamera =>
            if cameraCount == 0 || current as int + cameraCount as int > 255 {
              return false;
            }
            cameraIndex := ((current as int + cameraCount as int - 1) % cameraCount as int) as u8;
          case Sdp(_) =>
        }
        k := k + 1;
      }
      return true;
    }
  }

  /** The video stream goes to the port after the server's; `None` when that overflows. */
  function VideoPort(serverPort: u16): (r: Option<u16>)
    ensures r.None? <==> serverPort == 0xFFFF
    ensures r.Some? ==> r.value as int == serverPort as int + 1
  {
    if serverPort == 0xFFFF then None else Some(serverPort + 1)
  }

  /**
   * `camera_delta` in milliseconds: `1000 / cam_fps`, the longest whole number
   * of milliseconds that fits `cam_fps` times into a second.  `None` when
   * `cam_fps` is zero (a division by zero).
   */
  function CameraDeltaMillis(camFps: nat): (r: Option<nat>)
    ensures r.None? <==> camFps == 0
    ensures r.Some? ==> r.value * camFps <= 1000 < (r.value + 1) * camFps
  {
    if camFps == 0 then None
    else
      var d := 1000 / camFps;
      assert d * camFps + 1000 % camFps == 1000;
      Some(d)
  }
}
