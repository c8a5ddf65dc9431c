/**
 * The `soft_stop` state of the rover's top-level state machine: with a
 * blackboard it waits for the base station's verdict, without one it asks
 * for setup.
 */
module SoftStop {
  import opened Wrappers
  import opened Setup

  /** The handler `soft_stop` gives `on_get_msg_from_lunabase`, per message. */
  function Dispatch(msg: FromLunabase): (r: ControlFlow<(TickStatus, real)>)
    ensures r.Continue? <==> msg == Ping
    ensures msg == ContinueMission ==> r == Break((Success, 0.0))
    ensures msg == TriggerSetup ==> r == Break((Failure, 0.0))
  {
    match msg
    case Ping => Continue
    case ContinueMission => Break((Success, 0.0))
    case TriggerSetup => Break((Failure, 0.0))
  }

  /** What `soft_stop` reports when these messages arrive before the deadline. */
  function Verdict(messages: seq<FromLunabase>): (TickStatus, real)
  {
    match Drain(Dispatch, messages).0
    case Some(v) => v
    case None => (Running, 0.0)
  }

  /** `soft_stop`: the state's status and the time it reports as spent. */
  method SoftStopState(bb: Blackboard?, dt: real) returns (status: TickStatus, delta: real)
    modifies bb
    ensures bb == null ==> status == Failure && delta == dt
    ensures bb != null ==> (status, delta) == Verdict(old(bb.fromLunabase)) &&
                           bb.fromLunabase == Drain(Dispatch, old(bb.fromLunabase)).1 &&
                           bb.specialInstants == old(bb.specialInstants) &&
                           bb.pingTimer == old(bb.pingTimer) && bb.pingsSent == old(bb.pingsSent)
  {
    if bb == null {
      return Failure, dt;
    }
    var r := bb.OnGetMsgFromLunabase(Dispatch);
    match r
    case Some(v) => status, delta := v.0, v.1;
    case None => status, delta := Running, 0.0;
  }

  /** Pings ahead of the other messages change nothing. */
  lemma {:induction false} PingsAreIgnored(pings: nat, messages: seq<FromLunabase>)
    ensures Verdict(seq(pings, _ => Ping) + messages) == Verdict(messages)
    decreases pings
  {
    if pings > 0 {
      var rest := seq(pings - 1, _ => Ping) + messages;
      assert seq(pings, _ => Ping) + messages == [Ping] + rest;
      assert ([Ping] + rest)[1..] == rest;
      assert Drain(Dispatch, [Ping] + rest) == Drain(Dispatch, rest);
      PingsAreIgnored(pings - 1, messages);
    } else {
      assert seq(pings, _ => Ping) + messages == messages;
    }
  }

  /**
   * The first message that is not a ping decides: `ContinueMission` gives
   * `(Success, 0.0)` and `TriggerSetup` gives `(Failure, 0.0)`, whatever comes after.
   */
  lemma FirstDecisiveMessageWins(pings: nat, decisive: FromLunabase, later: seq<FromLunabase>)
    requires decisive != Ping
    ensures Verdict(seq(pings, _ => Ping) + [decisive] + later) ==
            (if decisive == ContinueMission then (Success, 0.0) else (Failure, 0.0))
  {
    assert seq(pings, _ => Ping) + [decisive] + later == seq(pings, _ => Ping) + ([decisive] + later);
    PingsAreIgnored(pings, [decisive] + later);
  }

  /**
   * The wait ends `Running` exactly when only pings arrive before the
   * deadline; whatever the outcome, the time reported is zero, not `dt`.
   */
  lemma RunningIffOnlyPings(messages: seq<FromLunabase>)
    ensures Verdict(messages).0 == Running <==> forall i :: 0 <= i < |messages| ==> messages[i] == Ping
    ensures Verdict(messages).1 == 0.0
  {
    var d := Drain(Dispatch, messages);
    if d.0.Some? {
      var k :| 0 <= k < |messages| && Dispatch(messages[k]) == Break(d.0.value);
    }
  }
}
