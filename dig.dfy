/**
 * The `dig` behaviour of the autonomy tree: if the autonomy stage is `Dig`,
 * advance it and succeed, otherwise fail.
 *
 * The queue of messages from the base station is a type parameter: the
 * behaviour can neither read nor change it.
 */
module DigBehavior {
  import BT = BehaviorTree
  import opened Autonomy

  datatype AutonomyBlackboard<Q> = AutonomyBlackboard(autonomy: Autonomy, fromLunabase: Q)

  /** The condition closure: `matches!(autonomy, FullAutonomy(Dig) | PartialAutonomy(Dig))`. */
  function DigCondition<Q>(bb: AutonomyBlackboard<Q>): (r: (BT.Status, AutonomyBlackboard<Q>))
    ensures r.0 == BT.Ok <==> bb.autonomy == FullAutonomy(Dig) || bb.autonomy == PartialAutonomy(Dig)
    ensures r.1 == bb
  {
    var matches := match bb.autonomy
      case FullAutonomy(Dig) => true
      case PartialAutonomy(Dig) => true
      case _ => false;
    (BT.StatusOf(matches), bb)
  }

  /** The action closure: advance the autonomy stage and report success. */
  function DigAction<Q>(bb: AutonomyBlackboard<Q>): (BT.Status, AutonomyBlackboard<Q>)
  {
    (BT.Ok, bb.(autonomy := Advance(bb.autonomy)))
  }

  /** `dig()`: `IfElse(condition, action, AlwaysFail)`. */
  function DigTree<Q>(): BT.Behavior<AutonomyBlackboard<Q>>
  {
    BT.IfElse(DigCondition, DigAction, BT.Constant(BT.Err))
  }

  /**
   * Running `dig` succeeds exactly when the stage is `Dig`, and then advances
   * the autonomy once; otherwise it fails and changes nothing.  The base
   * station queue is never touched.
   */
  lemma DigOutcome<Q>(bb: AutonomyBlackboard<Q>)
    ensures DigTree()(bb).0 == BT.Ok <==> bb.autonomy == FullAutonomy(Dig) || bb.autonomy == PartialAutonomy(Dig)
    ensures DigTree()(bb).0 == BT.Ok ==> DigTree()(bb).1.autonomy == Advance(bb.autonomy)
    ensures DigTree()(bb).0 == BT.Err ==> DigTree()(bb).1 == bb
    ensures DigTree()(bb).1.fromLunabase == bb.fromLunabase
  {
    var (c, bb') := DigCondition(bb);
    assert DigTree()(bb) == if c == BT.Ok then DigAction(bb') else BT.Constant(BT.Err)(bb');
  }

  /** Under full autonomy `dig` moves on to dumping; under partial autonomy it stops autonomy. */
  lemma DigTransitions<Q>(queue: Q)
    ensures DigTree()(AutonomyBlackboard(FullAutonomy(Dig), queue)) ==
            (BT.Ok, AutonomyBlackboard(FullAutonomy(Dump), queue))
    ensures DigTree()(AutonomyBlackboard(PartialAutonomy(Dig), queue)) ==
            (BT.Ok, AutonomyBlackboard(None, queue))
  {
    DigOutcome(AutonomyBlackboard(FullAutonomy(Dig), queue));
    DigOutcome(AutonomyBlackboard(PartialAutonomy(Dig), queue));
  }
}
