/**
 * The bandwidth diagnostics of the tunnel client (`lunadev/client_telemetry.py`):
 * a ring of `DIAGNOSTIC_WINDOW` slots, one per second modulo the window, each
 * holding the second it belongs to and the bytes seen in it.
 *
 * The clock is a parameter: `t` is `int(time.time())`, a whole number of
 * seconds.  Python's `%` with a positive divisor, like Dafny's, never gives a
 * negative remainder.
 */
module ClientTelemetry {
  import opened Wrappers

  /** `UDP_HEADER_SIZE`: bytes added to every packet's length. */
  const UdpHeaderSize: nat := 8
  /** `DIAGNOSTIC_WINDOW`: the number of slots. */
  const DiagnosticWindow: nat := 10

  /** One slot: the time step it counts and the bytes counted in it. */
  datatype Diagnostic = Diagnostic(timeStep: int, bytes: nat)

  /** The initial slot, `[0, 0]`. */
  const EmptySlot := Diagnostic(0, 0)

  /** The buffer after counting `size` bytes of data at time step `t`. */
  function Track(buffer: seq<Diagnostic>, t: int, size: nat): seq<Diagnostic>
    requires |buffer| == DiagnosticWindow
  {
    var i := t % DiagnosticWindow;
    var d := buffer[i];
    var base := if d.timeStep != t then 0 else d.bytes;
    buffer[i := Diagnostic(t, base + size + UdpHeaderSize)]
  }

  /**
   * Each slot counts a time step that falls on it, or is still the initial
   * slot: the buffer never mixes two time steps in one slot.
   */
  ghost predicate Consistent(buffer: seq<Diagnostic>)
  {
    |buffer| == DiagnosticWindow &&
    forall i :: 0 <= i < |buffer| ==> buffer[i].timeStep % DiagnosticWindow == i || buffer[i] == EmptySlot
  }

  /** The initial buffer is consistent. */
  lemma InitialConsistent()
    ensures Consistent(seq(DiagnosticWindow, _ => EmptySlot))
  {
  }

  /**
   * Counting data keeps the buffer consistent, sets slot `t mod 10` to time
   * step `t`, adds `size + 8` to it (after a reset to 0 when it held another
   * time step), and leaves every other slot as it was.
   */
  lemma TrackUpdatesOneSlot(buffer: seq<Diagnostic>, t: int, size: nat)
    requires Consistent(buffer)
    ensures var b := Track(buffer, t, size);
            var i := t % DiagnosticWindow;
            Consistent(b) && |b| == DiagnosticWindow &&
            b[i].timeStep == t &&
            b[i].bytes == (if buffer[i].timeStep == t then buffer[i].bytes else 0) + size + UdpHeaderSize &&
            forall j :: 0 <= j < DiagnosticWindow && j != i ==> b[j] == buffer[j]
  {
  }

  /** Two packets in the same second add up in the same slot. */
  lemma SameSecondAccumulates(buffer: seq<Diagnostic>, t: int, first: nat, second: nat)
    requires Consistent(buffer)
    ensures var once := Track(buffer, t, first);
            var twice := Track(once, t, second);
            twice[t % DiagnosticWindow].bytes == once[t % DiagnosticWindow].bytes + second + UdpHeaderSize
  {
  }

  /** A slot reused ten seconds later starts again from zero. */
  lemma NextLapResets(buffer: seq<Diagnostic>, t: int, first: nat, second: nat)
    requires Consistent(buffer)
    ensures Track(Track(buffer, t, first), t + DiagnosticWindow, second)[t % DiagnosticWindow] ==
            Diagnostic(t + DiagnosticWindow, second + UdpHeaderSize)
  {
    assert (t + DiagnosticWindow) % DiagnosticWindow == t % DiagnosticWindow;
  }

  /** The client's `diagnostic_buffer` and the `--diagnostics` switch. */
  class DiagnosticBuffer {
    const enabled: bool
    const slots: array<Diagnostic>

    ghost predicate Valid()
      reads this, slots
    {
      Consistent(slots[..])
    }

    constructor (enabled: bool)
      ensures Valid() && this.enabled == enabled && fresh(slots)
      ensures slots[..] == seq(DiagnosticWindow, _ => EmptySlot)
    {
      this.enabled := enabled;
      slots := new Diagnostic[DiagnosticWindow](_ => EmptySlot);
      InitialConsistent();
    }

    /** `track_data(data)` at time step `t`: nothing at all while diagnostics are off. */
    method TrackData(data: seq<byte>, t: int)
      requires Valid()
      modifies slots
      ensures Valid()
      ensures !enabled ==> slots[..] == old(slots[..])
      ensures enabled ==> slots[..] == Track(old(slots[..]), t, |data|)
    {
      if !enabled {
        return;
      }
      var i := t % DiagnosticWindow;
      var d := slots[i];
      if d.timeStep != t {
        d := Diagnostic(t, 0);
      }
      slots[i] := Diagnostic(d.timeStep, d.bytes + |data| + UdpHeaderSize);
      TrackUpdatesOneSlot(old(slots[..]), t, |data|);
    }
  }
}
