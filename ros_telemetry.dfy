/**
 * The ROS 2 telemetry node (`telemetry/telemetry.py`): camera images are
 * split into packets of at most 200 payload bytes behind a small index
 * header, packets from the base station are dispatched by channel, and a
 * one-slot buffer passes one image at a time from the camera subscription to
 * the network loop.
 *
 * `struct` packs in native mode on a little-endian machine: `"IBB"` is a
 * 4-byte unsigned index and two bytes (6 bytes), `"IB"` an index and one
 * byte (5 bytes).  A value out of a field's range raises `struct.error`,
 * which nothing catches: the network process stops.
 */
module RosTelemetry {
  import opened Wrappers

  /** `MAX_PACKET_SIZE`: the payload bytes of one image fragment. */
  const MaxPacketSize: nat := 200

  /** `Channels`. */
  const Important: int := 0
  const Camera: int := 1
  const Steering: int := 3

  /** `ImportantMessage.PING`. */
  const PingMessage: byte := 2

  datatype ControlScheme = Archimedes | Unnamed

  /** A packet sent to the base station on a channel. */
  datatype Packet = Packet(channel: int, data: seq<byte>)

  /** `struct.error`: a value does not fit its field. */
  datatype PackError = StructError

  /** `ceil(n / MAX_PACKET_SIZE)`: the fragments an image of `n` bytes needs. */
  function FragmentCount(n: nat): (count: nat)
    ensures count == 0 <==> n == 0
    ensures n <= count * MaxPacketSize
    ensures count > 0 ==> (count - 1) * MaxPacketSize < n
  {
    (n + MaxPacketSize - 1) / MaxPacketSize
  }

  /** An unsigned 32-bit value in little-endian byte order (`struct` code `I`). */
  function U32LE(v: nat): (r: seq<byte>)
    requires v < 0x1_0000_0000
    ensures |r| == 4
  {
    [(v % 0x100) as byte, (v / 0x100 % 0x100) as byte, (v / 0x1_0000 % 0x100) as byte, (v / 0x100_0000) as byte]
  }

  /** Reads back a little-endian 32-bit value. */
  function DecodeU32LE(b: seq<byte>): nat
    requires |b| == 4
  {
    b[0] as nat + 0x100 * b[1] as nat + 0x1_0000 * b[2] as nat + 0x100_0000 * b[3] as nat
  }

  /** Decoding an encoded index gives the index back. */
  lemma U32RoundTrip(v: nat)
    requires v < 0x1_0000_0000
    ensures DecodeU32LE(U32LE(v)) == v
  {
    var q1 := v / 0x100;
    var q2 := q1 / 0x100;
    var q3 := q2 / 0x100;
    assert v == v % 0x100 + 0x100 * q1;
    assert q1 == q1 % 0x100 + 0x100 * q2;
    assert q2 == q2 % 0x100 + 0x100 * q3;
    assert v / 0x1_0000 == q2 by {
      assert v == v % 0x100 + 0x100 * (q1 % 0x100) + 0x1_0000 * q2;
    }
    assert v / 0x100_0000 == q3 by {
      assert v == v % 0x100 + 0x100 * (q1 % 0x100) + 0x1_0000 * (q2 % 0x100) + 0x100_0000 * q3;
    }
  }

  /** The payload of fragment `k`: `data[200k : 200(k+1)]`, cut short at the end of the image. */
  function Payload(data: seq<byte>, k: nat): (p: seq<byte>)
    requires k < FragmentCount(|data|)
    ensures 0 < |p| <= MaxPacketSize
    ensures k + 1 < FragmentCount(|data|) ==> |p| == MaxPacketSize
    ensures k * MaxPacketSize + |p| <= |data| && p == data[k * MaxPacketSize .. k * MaxPacketSize + |p|]
  {
    var lo := k * MaxPacketSize;
    assert lo <= (FragmentCount(|data|) - 1) * MaxPacketSize;
    var hi := if (k + 1) * MaxPacketSize <= |data| then (k + 1) * MaxPacketSize else |data|;
    data[lo .. hi]
  }

  /**
   * Fragment `k` of image number `index`: fragment 0 carries `IBB(index, 0,
   * count)`, the others `IB(index, k)`, each followed by its payload.
   */
  function Fragment(index: nat, data: seq<byte>, k: nat): seq<byte>
    requires index < 0x1_0000_0000
    requires k < FragmentCount(|data|) <= 255
  {
    if k == 0 then U32LE(index) + [0, FragmentCount(|data|) as byte] + Payload(data, 0)
    else U32LE(index) + [k as byte] + Payload(data, k)
  }

  /**
   * The packets the loop sends for image number `index`, or `struct.error`,
   * raised when packing the first header, before any packet is sent.  An empty
   * image has no fragments and packs nothing.
   */
  function Fragments(index: nat, data: seq<byte>): (r: Result<seq<seq<byte>>, PackError>)
    ensures r.Err? <==> |data| > 0 && (FragmentCount(|data|) > 255 || index >= 0x1_0000_0000)
    ensures r.Ok? ==> |r.value| == FragmentCount(|data|)
  {
    var count := FragmentCount(|data|);
    if count == 0 then Ok([])
    else if count > 255 || index >= 0x1_0000_0000 then Err(StructError)
    else Ok(seq(count, k requires 0 <= k < count => Fragment(index, data, k)))
  }

  /** A fragment without its header: 6 bytes for fragment 0, 5 for the others. */
  function Strip(f: seq<byte>, k: nat): seq<byte>
  {
    var header := if k == 0 then 6 else 5;
    if |f| >= header then f[header..] else []
  }

  /** The base station's side: the payloads of the fragments, in order, without their headers. */
  function Reassemble(fragments: seq<seq<byte>>): seq<byte>
    decreases |fragments|
  {
    if fragments == [] then []
    else
      var n := |fragments| - 1;
      Reassemble(fragments[..n]) + Strip(fragments[n], n)
  }

  /** The first `c` payloads together cover `data` up to this end. */
  function PrefixEnd(data: seq<byte>, c: nat): nat
  {
    if c * MaxPacketSize <= |data| then c * MaxPacketSize else |data|
  }

  /** Stripping fragment `k`'s header leaves its payload. */
  lemma StripFragment(index: nat, data: seq<byte>, k: nat)
    requires index < 0x1_0000_0000 && k < FragmentCount(|data|) <= 255
    ensures Strip(Fragment(index, data, k), k) == Payload(data, k)
  {
  }

  /** Payload `k` continues the bytes covered by the payloads before it. */
  lemma PayloadExtends(data: seq<byte>, k: nat)
    requires k < FragmentCount(|data|)
    ensures PrefixEnd(data, k) == k * MaxPacketSize
    ensures data[..PrefixEnd(data, k)] + Payload(data, k) == data[..PrefixEnd(data, k + 1)]
  {
    var p := Payload(data, k);
    var lo := k * MaxPacketSize;
    assert data[..lo] + data[lo .. lo + |p|] == data[..lo + |p|];
  }

  /** The payloads of the first `c` fragments are the first bytes of the image. */
  lemma {:induction false} ReassemblePrefix(index: nat, data: seq<byte>, fs: seq<seq<byte>>, c: nat)
    requires index < 0x1_0000_0000 && 0 < FragmentCount(|data|) <= 255
    requires |fs| == FragmentCount(|data|) && c <= |fs|
    requires forall k :: 0 <= k < |fs| ==> fs[k] == Fragment(index, data, k)
    ensures Reassemble(fs[..c]) == data[..PrefixEnd(data, c)]
    decreases c
  {
    if c > 0 {
      var k := c - 1;
      ReassemblePrefix(index, data, fs, k);
      assert fs[..c][..k] == fs[..k];
      StripFragment(index, data, k);
      PayloadExtends(data, k);
    }
  }

  /** Concatenating the payloads in fragment order rebuilds the image. */
  lemma ReassembleFragments(index: nat, data: seq<byte>)
    requires Fragments(index, data).Ok?
    ensures Reassemble(Fragments(index, data).value) == data
  {
    var fs := Fragments(index, data).value;
    if |data| > 0 {
      ReassemblePrefix(index, data, fs, |fs|);
      assert fs[..|fs|] == fs;
    }
  }

  /**
   * Every fragment starts with the image number; fragment 0 then holds 0 and
   * the fragment count, fragment `k > 0` holds `k`.
   */
  lemma FragmentHeaders(index: nat, data: seq<byte>, k: nat)
    requires Fragments(index, data).Ok? && k < |Fragments(index, data).value|
    ensures var f := Fragments(index, data).value[k];
            |f| > 5 && DecodeU32LE(f[..4]) == index &&
            f[4] as nat == k &&
            (k == 0 ==> |f| > 6 && f[5] as nat == FragmentCount(|data|))
  {
    var f := Fragments(index, data).value[k];
    assert f[..4] == U32LE(index);
    U32RoundTrip(index);
  }

  /** The steering struct: four signed bytes under Archimedes, three otherwise. */
  function SteeringWidth(scheme: ControlScheme): nat
  {
    if scheme == Archimedes then 4 else 3
  }

  /** A byte read with `struct` code `b`. */
  function Signed(b: byte): (v: int)
    ensures -128 <= v < 128
    ensures v >= 0 <==> b < 128
  {
    if b < 128 then b as int else b as int - 256
  }

  /** A value written with `struct` code `b`; the base station's side of the steering packet. */
  function SignedByte(v: int): (b: byte)
    requires -128 <= v < 128
    ensures Signed(b) == v
  {
    if v >= 0 then v as byte else (v + 256) as byte
  }

  /** A steering command; `drumVel` only under the Archimedes scheme. */
  datatype SteeringCommand = SteeringCommand(drive: int, steering: int, armVel: int, drumVel: Option<int>)

  /** What a received packet makes the node do besides its replies. */
  datatype Action = NoAction | Steer(command: SteeringCommand) | WarnUnexpectedChannel

  /**
   * What happens when packets reach `on_receive`: an empty packet on the
   * important channel raises `IndexError`, and a steering packet of the wrong
   * length raises `struct.error` after it has been echoed.
   */
  datatype ReceiveError = IndexError | UnpackError

  datatype ReceiveOutcome = ReceiveOutcome(replies: seq<Packet>, result: Result<Action, ReceiveError>)

  /** `on_receive(channel, data, peer)`. */
  function OnReceive(scheme: ControlScheme, channel: int, data: seq<byte>): (r: ReceiveOutcome)
    ensures channel == Important ==>
              (data == [] <==> r.result == Err(IndexError)) &&
              (data != [] ==> r.result == Ok(NoAction)) &&
              (r.replies == if data != [] && data[0] == PingMessage then [Packet(Important, [PingMessage])] else [])
    ensures channel == Steering ==>
              r.replies == [Packet(Steering, data)] &&
              (r.result.Ok? <==> |data| == SteeringWidth(scheme)) &&
              (r.result.Ok? ==>
                 r.result.value.Steer? &&
                 var c := r.result.value.command;
                 c.drive == Signed(data[0]) && c.steering == Signed(data[1]) && c.armVel == Signed(data[2]) &&
                 (c.drumVel.Some? <==> scheme == Archimedes) &&
                 (c.drumVel.Some? ==> c.drumVel.value == Signed(data[3])))
    ensures channel != Important && channel != Steering ==> r == ReceiveOutcome([], Ok(WarnUnexpectedChannel))
  {
    if channel == Important then
      if data == [] then ReceiveOutcome([], Err(IndexError))
      else if data[0] == PingMessage then ReceiveOutcome([Packet(Important, [PingMessage])], Ok(NoAction))
      else ReceiveOutcome([], Ok(NoAction))
    else if channel == Steering then
      var echo := [Packet(Steering, data)];
      if |data| != SteeringWidth(scheme) then ReceiveOutcome(echo, Err(UnpackError))
      else
        var drum := if scheme == Archimedes then Some(Signed(data[3])) else None;
        ReceiveOutcome(echo, Ok(Steer(SteeringCommand(Signed(data[0]), Signed(data[1]), Signed(data[2]), drum))))
    else ReceiveOutcome([], Ok(WarnUnexpectedChannel))
  }

  /** The steering packet the base station sends for a command. */
  function EncodeSteering(c: SteeringCommand): seq<byte>
    requires -128 <= c.drive < 128 && -128 <= c.steering < 128 && -128 <= c.armVel < 128
    requires c.drumVel.Some? ==> -128 <= c.drumVel.value < 128
  {
    [SignedByte(c.drive), SignedByte(c.steering), SignedByte(c.armVel)] +
    (if c.drumVel.Some? then [SignedByte(c.drumVel.value)] else [])
  }

  /** A steering packet built for the node's scheme is echoed and unpacked to the command it encodes. */
  lemma SteeringRoundTrip(scheme: ControlScheme, c: SteeringCommand)
    requires -128 <= c.drive < 128 && -128 <= c.steering < 128 && -128 <= c.armVel < 128
    requires c.drumVel.Some? ==> -128 <= c.drumVel.value < 128
    requires c.drumVel.Some? <==> scheme == Archimedes
    ensures OnReceive(scheme, Steering, EncodeSteering(c)) ==
            ReceiveOutcome([Packet(Steering, EncodeSteering(c))], Ok(Steer(c)))
  {
  }

  /** The camera packets for a list of fragments. */
  function CameraPackets(fragments: seq<seq<byte>>): (r: seq<Packet>)
    ensures |r| == |fragments|
    ensures forall k :: 0 <= k < |r| ==> r[k] == Packet(Camera, fragments[k])
  {
    seq(|fragments|, k requires 0 <= k < |fragments| => Packet(Camera, fragments[k]))
  }

  /** Sending one more fragment sends one more camera packet. */
  lemma CameraPacketsSnoc(fs: seq<seq<byte>>, k: nat)
    requires k < |fs|
    ensures CameraPackets(fs[..k + 1]) == CameraPackets(fs[..k]) + [Packet(Camera, fs[k])]
  {
  }

  class TelemetryNode {
    const scheme: ControlScheme
    /** `self.connected`, shared with the camera subscription. */
    var connected: bool
    /** `camera_image_buffer`, a queue of capacity one. */
    var imageBuffer: Option<seq<byte>>
    /** `camera_image_index` of the network loop. */
    var cameraImageIndex: nat
    /** Every packet sent to the base station, oldest first. */
    var sent: seq<Packet>

    constructor (scheme: ControlScheme)
      ensures this.scheme == scheme && !connected && imageBuffer.None? && cameraImageIndex == 0 && sent == []
    {
      this.scheme := scheme;
      connected := false;
      imageBuffer := None;
      cameraImageIndex := 0;
      sent := [];
    }

    /**
     * `receive_image`: while disconnected the image is dropped; otherwise it is
     * queued unless the buffer is full, in which case it is dropped.
     */
    method ReceiveImage(img: seq<byte>)
      modifies this`imageBuffer
      ensures imageBuffer == if connected && old(imageBuffer).None? then Some(img) else old(imageBuffer)
    {
      if !connected {
        return;
      }
      if imageBuffer.None? {
        imageBuffer := Some(img);
      }
    }

    /** Once connected: empty the image buffer, then mark the node connected. */
    method OnConnected()
      modifies this`imageBuffer, this`connected
      ensures imageBuffer.None? && connected
    {
      // `while not buffer.empty(): buffer.get()`: the queue holds at most one
      // image, so the loop runs at most once.
      while imageBuffer.Some?
        decreases if imageBuffer.Some? then 1 else 0
      {
        imageBuffer := None;
      }
      connected := true;
    }

    /** The disconnect branch as written: it stores `True`. */
    method OnDisconnectedAsWritten()
      modifies this`connected
      ensures connected
    {
      connected := true;
    }

    /** The disconnect branch as intended: the node stops taking images. */
    method OnDisconnected()
      modifies this`connected
      ensures !connected
    {
      connected := false;
    }

    /**
     * The image step of the network loop: take the buffered image, if any, send
     * its fragments on the camera channel and count it.  `false` when packing
     * raises `struct.error`; the image is then taken but nothing is sent or counted.
     */
    method ServiceImage() returns (ok: bool)
      modifies this`imageBuffer, this`cameraImageIndex, this`sent
      ensures imageBuffer.None?
      ensures old(imageBuffer).None? ==> ok && cameraImageIndex == old(cameraImageIndex) && sent == old(sent)
      ensures old(imageBuffer).Some? ==>
                var r := Fragments(old(cameraImageIndex), old(imageBuffer).value);
                (ok <==> r.Ok?) &&
                (r.Ok? ==> sent == old(sent) + CameraPackets(r.value) && cameraImageIndex == old(cameraImageIndex) + 1) &&
                (r.Err? ==> sent == old(sent) && cameraImageIndex == old(cameraImageIndex))
    {
      if imageBuffer.None? {
        return true;
      }
      var imageData := imageBuffer.value;
      imageBuffer := None;
      var count := FragmentCount(|imageData|);
      var k := 0;
      ghost var fs := if count == 0 || count > 255 || cameraImageIndex >= 0x1_0000_0000 then []
                      else Fragments(cameraImageIndex, imageData).value;
      while k < count
        invariant 0 <= k <= count
        invariant imageBuffer.None? && cameraImageIndex == old(cameraImageIndex)
        invariant k > 0 ==> count <= 255 && cameraImageIndex < 0x1_0000_0000
        invariant k > 0 ==> |fs| == count
        invariant sent == old(sent) + CameraPackets(fs[..k])
      {
        var data;
        if k == 0 {
          if cameraImageIndex >= 0x1_0000_0000 || count > 255 {
            return false;
          }
          data := U32LE(cameraImageIndex) + [0, count as byte] + Payload(imageData, 0);
        } else {
          data := U32LE(cameraImageIndex) + [k as byte] + Payload(imageData, k);
        }
        assert data == fs[k];
        CameraPacketsSnoc(fs, k);
        sent := sent + [Packet(Camera, data)];
        k := k + 1;
      }
      assert fs[..k] == fs;
      cameraImageIndex := cameraImageIndex + 1;
      return true;
    }
  }

  /** With the disconnect branch as written, an image that arrives after a disconnect is still buffered. */
  method DisconnectThenImageAsWritten(img: seq<byte>) returns (buffered: Option<seq<byte>>)
    ensures buffered == Some(img)
  {
    var node := new TelemetryNode(Unnamed);
    node.OnConnected();
    node.OnDisconnectedAsWritten();
    node.ReceiveImage(img);
    buffered := node.imageBuffer;
  }

  /** With the disconnect branch as intended, an image that arrives after a disconnect is dropped. */
  method DisconnectThenImage(img: seq<byte>) returns (buffered: Option<seq<byte>>)
    ensures buffered.None?
  {
    var node := new TelemetryNode(Unnamed);
    node.OnConnected();
    node.OnDisconnected();
    node.ReceiveImage(img);
    buffered := node.imageBuffer;
  }
}
