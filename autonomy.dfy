/**
 * The autonomy stage machine of the rover's AI (`Autonomy::advance`).
 *
 * `advance` overwrites the autonomy value in place; since the value is a
 * plain copyable enum, it is modelled as a next-state function.
 */
module Autonomy {

  datatype AutonomyStage = TraverseObstacles | Dig | Dump

  /** `Autonomy::None` is spelled `None` as in the source. */
  datatype Autonomy = FullAutonomy(stage: AutonomyStage) | PartialAutonomy(stage: AutonomyStage) | None

  /**
   * `Autonomy::advance`.  Full autonomy moves through the stages and stays
   * full; partial autonomy performs one stage and then stops; `None` stays.
   */
  function Advance(a: Autonomy): (r: Autonomy)
    ensures r.FullAutonomy? <==> a.FullAutonomy?
    ensures a.FullAutonomy? ==> r.stage != TraverseObstacles
    ensures !r.PartialAutonomy?
    ensures a.PartialAutonomy? || a == None ==> r == None
    ensures a == FullAutonomy(TraverseObstacles) ==> r == FullAutonomy(Dig)
    ensures a == FullAutonomy(Dig) <==> r == FullAutonomy(Dump)
  {
    match a
    case FullAutonomy(stage) =>
      (match stage
       case TraverseObstacles => FullAutonomy(Dig)
       case Dig => FullAutonomy(Dump)
       case Dump => FullAutonomy(Dig))
    case PartialAutonomy(_) => None
    case None => None
  }

  /** `n` successive calls of `advance`. */
  function AdvanceTimes(a: Autonomy, n: nat): Autonomy
    decreases n
  {
    if n == 0 then a else AdvanceTimes(Advance(a), n - 1)
  }

  /** Under full autonomy, digging and dumping alternate: two advances return to the start. */
  lemma DigDumpCycle(stage: AutonomyStage)
    requires stage != TraverseObstacles
    ensures AdvanceTimes(FullAutonomy(stage), 2) == FullAutonomy(stage)
  {
  }

  /**
   * After the first advance the machine is periodic with period two, whatever
   * the start: full autonomy alternates between digging and dumping, and every
   * other start has already stopped at `None`.
   */
  lemma {:induction false} EventuallyPeriodic(a: Autonomy, n: nat)
    requires n >= 1
    ensures AdvanceTimes(a, n + 2) == AdvanceTimes(a, n)
    decreases n
  {
    if n == 1 {
      assert AdvanceTimes(a, 3) == AdvanceTimes(Advance(a), 2);
      assert AdvanceTimes(a, 1) == Advance(a);
      match Advance(a)
      case FullAutonomy(s) => DigDumpCycle(s);
      case None =>
    } else {
      EventuallyPeriodic(Advance(a), n - 1);
    }
  }

  /** However many advances follow, full autonomy stays full and never returns to traversal. */
  lemma {:induction false} FullAutonomyIsForever(a: Autonomy, n: nat)
    requires a.FullAutonomy?
    ensures AdvanceTimes(a, n).FullAutonomy?
    ensures n >= 1 ==> AdvanceTimes(a, n).stage != TraverseObstacles
    decreases n
  {
    if n > 0 {
      FullAutonomyIsForever(Advance(a), n - 1);
    }
  }
}
