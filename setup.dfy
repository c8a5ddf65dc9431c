/**
 * The rover's control-loop blackboard (`setup/mod.rs`): the `setup` state
 * of the top-level state machine, the queue of special instants, the ping
 * timer and the loop that drains messages from the base station.
 *
 * Instants are integers.  The receiver for messages from the base station is
 * modelled by the messages that arrive before the current deadline, in
 * arrival order; when they run out, the receive times out (or the channel is
 * disconnected), which the source treats the same way.
 */
module Setup {
  import opened Wrappers

  /** The tick status of the top-level state machine (`bonsai_bt::Status`). */
  datatype TickStatus = Success | Failure | Running

  /** Messages from the base station. */
  datatype FromLunabase = Ping | ContinueMission | TriggerSetup

  /** `std::ops::ControlFlow<T>`, the verdict of a message handler. */
  datatype ControlFlow<T> = Continue | Break(value: T)

  /** `PING_DELAY`, in seconds. */
  const PingDelay: real := 1.0

  ghost predicate Sorted(s: seq<int>)
  {
    forall i, j :: 0 <= i < j < |s| ==> s[i] <= s[j]
  }

  /** Inserts `x` into an ascending sequence, keeping it ascending. */
  function Insert(s: seq<int>, x: int): (r: seq<int>)
    requires Sorted(s)
    ensures Sorted(r)
    ensures multiset(r) == multiset(s) + multiset{x}
    ensures |r| == |s| + 1
    ensures r[0] == x || (s != [] && r[0] == s[0])
  {
    if s == [] || x <= s[0] then [x] + s
    else
      assert Sorted(s[1..]);
      assert s == [s[0]] + s[1..];
      [s[0]] + Insert(s[1..], x)
  }

  /** The first element of an ascending sequence is its least. */
  lemma SortedHeadIsLeast(s: seq<int>)
    requires Sorted(s) && s != []
    ensures forall y :: y in multiset(s) ==> s[0] <= y
  {
    forall y | y in multiset(s) ensures s[0] <= y {
      var i :| 0 <= i < |s| && s[i] == y;
    }
  }

  /**
   * The first `Break` that `f` gives over `messages`, taken in order, and the
   * messages left unread after it; `None` and nothing left when every message
   * is answered with `Continue`.
   */
  function Drain<T(==)>(f: FromLunabase -> ControlFlow<T>, messages: seq<FromLunabase>)
    : (r: (Option<T>, seq<FromLunabase>))
    ensures r.0.None? <==> forall i :: 0 <= i < |messages| ==> f(messages[i]).Continue?
    ensures r.0.None? ==> r.1 == []
    ensures r.0.Some? ==> exists k :: 0 <= k < |messages| && f(messages[k]) == Break(r.0.value) &&
                                      (forall i :: 0 <= i < k ==> f(messages[i]).Continue?) &&
                                      r.1 == messages[k + 1..]
    decreases |messages|
  {
    if messages == [] then (None, [])
    else match f(messages[0])
      case Break(v) => (Some(v), messages[1..])
      case Continue =>
        var r := Drain(f, messages[1..]);
        assert forall i :: 1 <= i < |messages| ==> messages[i] == messages[1..][i - 1];
        if r.0.Some? then
          var k :| 0 <= k < |messages[1..]| && f(messages[1..][k]) == Break(r.0.value) &&
                   (forall i :: 0 <= i < k ==> f(messages[1..][i]).Continue?) &&
                   r.1 == messages[1..][k + 1..];
          assert messages[k + 1 + 1..] == messages[1..][k + 1..];
          assert f(messages[k + 1]) == Break(r.0.value);
          r
        else r
  }

  class Blackboard {
    /** `special_instants`, a min-heap, held as its contents in ascending order. */
    var specialInstants: seq<int>
    /** The messages from the base station that arrive before the current deadline. */
    var fromLunabase: seq<FromLunabase>
    var pingTimer: real
    /** How many `FromLunabot::Ping` messages were sent to the base station. */
    var pingsSent: nat

    ghost predicate Valid()
      reads this
    {
      Sorted(specialInstants)
    }

    /** The fields `Blackboard::new` sets when construction succeeds. */
    constructor ()
      ensures Valid()
      ensures specialInstants == [] && fromLunabase == [] && pingTimer == 0.0 && pingsSent == 0
    {
      specialInstants, fromLunabase, pingTimer, pingsSent := [], [], 0.0, 0;
    }

    /** `add_special_instant`: one more pending instant. */
    method AddSpecialInstant(instant: int)
      requires Valid()
      modifies this`specialInstants
      ensures Valid()
      ensures multiset(specialInstants) == old(multiset(specialInstants)) + multiset{instant}
    {
      specialInstants := Insert(specialInstants, instant);
    }

    /** `pop_special_instant`: removes and returns the earliest pending instant. */
    method PopSpecialInstant() returns (r: Option<int>)
      requires Valid()
      modifies this`specialInstants
      ensures Valid()
      ensures r.None? <==> old(specialInstants) == []
      ensures r.None? ==> specialInstants == old(specialInstants)
      ensures r.Some? ==> r.value in old(multiset(specialInstants)) &&
                          (forall y :: y in old(multiset(specialInstants)) ==> r.value <= y) &&
                          multiset(specialInstants) == old(multiset(specialInstants)) - multiset{r.value}
    {
      if specialInstants == [] {
        return None;
      }
      r := Some(specialInstants[0]);
      SortedHeadIsLeast(specialInstants);
      assert specialInstants == [specialInstants[0]] + specialInstants[1..];
      specialInstants := specialInstants[1..];
    }

    /** `peek_special_instant`: the instant `pop_special_instant` would return, left in place. */
    method PeekSpecialInstant() returns (r: Option<int>)
      requires Valid()
      ensures r.None? <==> specialInstants == []
      ensures r.Some? ==> r.value in multiset(specialInstants) &&
                          forall y :: y in multiset(specialInstants) ==> r.value <= y
    {
      if specialInstants == [] {
        return None;
      }
      SortedHeadIsLeast(specialInstants);
      r := Some(specialInstants[0]);
    }

    /**
     * `poll_ping`: lowers the timer by `delta`; once it is used up, rearms it
     * with `PING_DELAY` and sends one ping.
     */
    method PollPing(delta: real)
      modifies this`pingTimer, this`pingsSent
      ensures pingTimer > 0.0
      ensures old(pingTimer) - delta <= 0.0 ==> pingTimer == PingDelay && pingsSent == old(pingsSent) + 1
      ensures old(pingTimer) - delta > 0.0 ==> pingTimer == old(pingTimer) - delta && pingsSent == old(pingsSent)
    {
      pingTimer := pingTimer - delta;
      if pingTimer <= 0.0 {
        pingTimer := PingDelay;
        pingsSent := pingsSent + 1;
      }
    }

    /**
     * `on_get_msg_from_lunabase`: hands the arriving messages to `f` in order
     * and returns the value of the first `Break`, leaving the later messages
     * unread; `None` when the deadline passes first.
     */
    method OnGetMsgFromLunabase<T(==)>(f: FromLunabase -> ControlFlow<T>) returns (r: Option<T>)
      modifies this`fromLunabase
      ensures (r, fromLunabase) == Drain(f, old(fromLunabase))
    {
      while true
        invariant Drain(f, fromLunabase) == Drain(f, old(fromLunabase))
        decreases |fromLunabase|
      {
        if fromLunabase == [] {
          return None;
        }
        var msg := fromLunabase[0];
        fromLunabase := fromLunabase[1..];
        match f(msg)
        case Continue =>
        case Break(v) =>
          return Some(v);
      }
    }
  }

  /** The timer starts at zero, so the first poll with a non-negative delta always pings. */
  method FirstPollPings(delta: real) returns (sent: nat, timer: real)
    requires delta >= 0.0
    ensures sent == 1 && timer == PingDelay
  {
    var bb := new Blackboard();
    bb.PollPing(delta);
    sent, timer := bb.pingsSent, bb.pingTimer;
  }

  /**
   * The `setup` state: keeps an existing blackboard, or tries to create one;
   * `created` says whether `Blackboard::new` succeeds.
   */
  method SetupState(bb: Blackboard?, dt: real, created: bool)
    returns (bb': Blackboard?, status: TickStatus, delta: real)
    ensures delta == dt
    ensures bb != null ==> bb' == bb && status == Success
    ensures bb == null && !created ==> bb' == null && status == Failure
    ensures bb == null && created ==> status == Success && bb' != null && fresh(bb') && bb'.Valid() &&
                                      bb'.specialInstants == [] && bb'.pingTimer == 0.0
  {
    if bb != null {
      return bb, Success, dt;
    }
    if !created {
      return null, Failure, dt;
    }
    var made := new Blackboard();
    return made, Success, dt;
  }
}
