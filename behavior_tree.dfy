/**
 * The behaviour-tree combinators of the `ares-bt` crate.
 *
 * A behaviour runs against a mutable blackboard and reports a `Status`.
 * Here a behaviour is a state-passing function: it takes the blackboard and
 * returns its status together with the blackboard as it left it.  The source
 * combinators over tuples of one to three children are modelled over
 * sequences of children of any length.
 */
module BehaviorTree {
  import Wrappers

  /** `Status = Result<(), ()>`. */
  datatype Status = Ok | Err

  /** A behaviour over blackboards of type `B`. */
  type Behavior<!B> = B -> (Status, B)

  /** `Ok` becomes `Err` and `Err` becomes `Ok`. */
  function Negate(s: Status): (r: Status)
    ensures r != s
  {
    if s == Ok then Err else Ok
  }

  /** `status(b)`: the status that reports a boolean. */
  function StatusOf(b: bool): (r: Status)
    ensures r == Ok <==> b
  {
    if b then Ok else Err
  }

  /** A `Status` used as a behaviour: it reports itself and leaves the blackboard alone. */
  function Constant<B>(s: Status): Behavior<B>
  {
    bb => (s, bb)
  }

  /** `IfElse`: run the condition once, then exactly one of the two branches. */
  function IfElse<B>(condition: Behavior<B>, ifTrue: Behavior<B>, ifFalse: Behavior<B>): Behavior<B>
  {
    bb => var (c, bb') := condition(bb);
          if c == Ok then ifTrue(bb') else ifFalse(bb')
  }

  /** `Invert`: run the child and report the opposite status. */
  function Invert<B>(a: Behavior<B>): Behavior<B>
  {
    bb => var (s, bb') := a(bb); (Negate(s), bb')
  }

  /** Runs the children of a `Sequence` from left to right, stopping at the first `Err`. */
  function RunSequence<B>(children: seq<Behavior<B>>, bb: B): (Status, B)
    decreases |children|
  {
    if children == [] then (Ok, bb)
    else
      var (s, bb') := children[0](bb);
      if s == Err then (Err, bb') else RunSequence(children[1..], bb')
  }

  function Sequence<B>(children: seq<Behavior<B>>): Behavior<B>
  {
    bb => RunSequence(children, bb)
  }

  /** Runs the children of a `Select` from left to right, stopping at the first `Ok`. */
  function RunSelect<B>(children: seq<Behavior<B>>, bb: B): (Status, B)
    decreases |children|
  {
    if children == [] then (Err, bb)
    else
      var (s, bb') := children[0](bb);
      if s == Ok then (Ok, bb') else RunSelect(children[1..], bb')
  }

  function Select<B>(children: seq<Behavior<B>>): Behavior<B>
  {
    bb => RunSelect(children, bb)
  }

  /**
   * The blackboard after the first `k` children have each run once, in order,
   * whatever they reported.
   */
  function After<B>(children: seq<Behavior<B>>, bb: B, k: nat): B
    requires k <= |children|
    decreases k
  {
    if k == 0 then bb else After(children[1..], children[0](bb).1, k - 1)
  }

  /** The status child `k` reports when it runs after the first `k` children. */
  function StatusAt<B>(children: seq<Behavior<B>>, bb: B, k: nat): Status
    requires k < |children|
  {
    children[k](After(children, bb, k)).0
  }

  /**
   * `Sequence` is `Ok` exactly when every child succeeds in turn, and then the
   * blackboard is the one all children leave behind; at the first child that
   * fails it stops with `Err`, so the children after it never run.
   */
  lemma {:induction false} SequenceSemantics<B>(children: seq<Behavior<B>>, bb: B)
    ensures RunSequence(children, bb).0 == Ok <==>
            forall i :: 0 <= i < |children| ==> StatusAt(children, bb, i) == Ok
    ensures (forall i :: 0 <= i < |children| ==> StatusAt(children, bb, i) == Ok) ==>
            RunSequence(children, bb).1 == After(children, bb, |children|)
    ensures forall k :: 0 <= k < |children| && StatusAt(children, bb, k) == Err &&
                        (forall i :: 0 <= i < k ==> StatusAt(children, bb, i) == Ok) ==>
                        RunSequence(children, bb) == (Err, After(children, bb, k + 1))
    decreases |children|
  {
    if children != [] {
      var (s, bb') := children[0](bb);
      var rest := children[1..];
      SequenceSemantics(rest, bb');
      ShiftAfter(children, bb);
      if s == Ok {
        assert RunSequence(children, bb) == RunSequence(rest, bb');
        assert (forall i :: 0 <= i < |children| ==> StatusAt(children, bb, i) == Ok) <==>
               (forall i :: 0 <= i < |rest| ==> StatusAt(rest, bb', i) == Ok) by {
          if forall i :: 0 <= i < |rest| ==> StatusAt(rest, bb', i) == Ok {
            forall i | 0 <= i < |children| ensures StatusAt(children, bb, i) == Ok {
              if i > 0 { assert StatusAt(rest, bb', i - 1) == Ok; }
            }
          }
          if forall i :: 0 <= i < |children| ==> StatusAt(children, bb, i) == Ok {
            forall i | 0 <= i < |rest| ensures StatusAt(rest, bb', i) == Ok {
              assert StatusAt(children, bb, i + 1) == Ok;
            }
          }
        }
        forall k | 0 <= k < |children| && StatusAt(children, bb, k) == Err &&
                   (forall i :: 0 <= i < k ==> StatusAt(children, bb, i) == Ok)
          ensures RunSequence(children, bb) == (Err, After(children, bb, k + 1))
        {
          assert k > 0;
          forall i | 0 <= i < k - 1 ensures StatusAt(rest, bb', i) == Ok {
            assert StatusAt(children, bb, i + 1) == Ok;
          }
        }
      } else {
        assert RunSequence(children, bb) == (Err, bb');
        assert StatusAt(children, bb, 0) == Err;
      }
    }
  }

  /**
   * `Select` is `Err` exactly when every child fails in turn; at the first
   * child that succeeds it stops with `Ok`, so the children after it never run.
   */
  lemma {:induction false} SelectSemantics<B>(children: seq<Behavior<B>>, bb: B)
    ensures RunSelect(children, bb).0 == Err <==>
            forall i :: 0 <= i < |children| ==> StatusAt(children, bb, i) == Err
    ensures (forall i :: 0 <= i < |children| ==> StatusAt(children, bb, i) == Err) ==>
            RunSelect(children, bb).1 == After(children, bb, |children|)
    ensures forall k :: 0 <= k < |children| && StatusAt(children, bb, k) == Ok &&
                        (forall i :: 0 <= i < k ==> StatusAt(children, bb, i) == Err) ==>
                        RunSelect(children, bb) == (Ok, After(children, bb, k + 1))
    decreases |children|
  {
    if children != [] {
      var (s, bb') := children[0](bb);
      var rest := children[1..];
      SelectSemantics(rest, bb');
      ShiftAfter(children, bb);
      if s == Err {
        assert RunSelect(children, bb) == RunSelect(rest, bb');
        assert (forall i :: 0 <= i < |children| ==> StatusAt(children, bb, i) == Err) <==>
               (forall i :: 0 <= i < |rest| ==> StatusAt(rest, bb', i) == Err) by {
          if forall i :: 0 <= i < |rest| ==> StatusAt(rest, bb', i) == Err {
            forall i | 0 <= i < |children| ensures StatusAt(children, bb, i) == Err {
              if i > 0 { assert StatusAt(rest, bb', i - 1) == Err; }
            }
          }
          if forall i :: 0 <= i < |children| ==> StatusAt(children, bb, i) == Err {
            forall i | 0 <= i < |rest| ensures StatusAt(rest, bb', i) == Err {
              assert StatusAt(children, bb, i + 1) == Err;
            }
          }
        }
        forall k | 0 <= k < |children| && StatusAt(children, bb, k) == Ok &&
                   (forall i :: 0 <= i < k ==> StatusAt(children, bb, i) == Err)
          ensures RunSelect(children, bb) == (Ok, After(children, bb, k + 1))
        {
          assert k > 0;
          forall i | 0 <= i < k - 1 ensures StatusAt(rest, bb', i) == Err {
            assert StatusAt(children, bb, i + 1) == Err;
          }
        }
      } else {
        assert RunSelect(children, bb) == (Ok, bb');
        assert StatusAt(children, bb, 0) == Ok;
      }
    }
  }

  /** Running the first `k + 1` children is running the first one and then `k` of the rest. */
  lemma ShiftAfter<B>(children: seq<Behavior<B>>, bb: B)
    requires children != []
    ensures forall k :: 0 <= k < |children| ==>
              After(children, bb, k + 1) == After(children[1..], children[0](bb).1, k)
    ensures forall k :: 0 < k < |children| ==>
              StatusAt(children, bb, k) == StatusAt(children[1..], children[0](bb).1, k - 1)
    ensures StatusAt(children, bb, 0) == children[0](bb).0
  {
    forall k | 0 < k < |children|
      ensures StatusAt(children, bb, k) == StatusAt(children[1..], children[0](bb).1, k - 1)
    {
      assert children[k] == children[1..][k - 1];
    }
  }

  /**
   * A `Status` used as a child reports itself and leaves the blackboard as it
   * was: `Ok` in front of a `Sequence` and `Err` in front of a `Select` change
   * nothing, while `Err` in front of a `Sequence` and `Ok` in front of a
   * `Select` end it at once, before any other child runs.
   */
  lemma ConstantChildren<B>(s: Status, children: seq<Behavior<B>>, bb: B)
    ensures Constant<B>(s)(bb) == (s, bb)
    ensures Sequence([Constant(Ok)] + children)(bb) == Sequence(children)(bb)
    ensures Sequence([Constant(Err)] + children)(bb) == (Err, bb)
    ensures Select([Constant(Err)] + children)(bb) == Select(children)(bb)
    ensures Select([Constant(Ok)] + children)(bb) == (Ok, bb)
  {
    assert ([Constant(Ok)] + children)[1..] == children;
    assert ([Constant(Err)] + children)[1..] == children;
  }

  /** `Invert` undoes itself. */
  lemma InvertInvolution<B>(a: Behavior<B>, bb: B)
    ensures Invert(Invert(a))(bb) == a(bb)
  {
  }

  /** Inverting the condition of an `IfElse` swaps its branches. */
  lemma IfElseInvertedCondition<B>(c: Behavior<B>, t: Behavior<B>, e: Behavior<B>, bb: B)
    ensures IfElse(Invert(c), t, e)(bb) == IfElse(c, e, t)(bb)
  {
  }

  /** The children, each wrapped in `Invert`. */
  function InvertAll<B>(children: seq<Behavior<B>>): (r: seq<Behavior<B>>)
    ensures |r| == |children|
    ensures forall i :: 0 <= i < |children| ==> r[i] == Invert(children[i])
  {
    seq(|children|, i requires 0 <= i < |children| => Invert(children[i]))
  }

  /**
   * `Select` and `Sequence` are duals: a `Select` that is inverted behaves as
   * the `Sequence` of the inverted children, blackboard effect included.
   */
  lemma {:induction false} SelectSequenceDuality<B>(children: seq<Behavior<B>>, bb: B)
    ensures Invert(Select(children))(bb) == Sequence(InvertAll(children))(bb)
    decreases |children|
  {
    if children != [] {
      var bb' := children[0](bb).1;
      assert InvertAll(children)[1..] == InvertAll(children[1..]);
      SelectSequenceDuality(children[1..], bb');
    }
  }

  /** A `Sequence` of a concatenation runs the first part, and the second only if the first succeeds. */
  lemma {:induction false} SequenceAppend<B>(xs: seq<Behavior<B>>, ys: seq<Behavior<B>>, bb: B)
    ensures RunSequence(xs + ys, bb) == RunSequence([Sequence(xs), Sequence(ys)], bb)
    decreases |xs|
  {
    PairSequence(Sequence(xs), Sequence(ys), bb);
    if xs == [] {
      assert xs + ys == ys;
      PairSequence(Sequence(xs), Sequence(ys), bb);
    } else {
      var (s, bb') := xs[0](bb);
      assert (xs + ys)[0] == xs[0];
      assert (xs + ys)[1..] == xs[1..] + ys;
      if s == Ok {
        SequenceAppend(xs[1..], ys, bb');
        PairSequence(Sequence(xs[1..]), Sequence(ys), bb');
      }
    }
  }

  /** A `Sequence` of two children. */
  lemma PairSequence<B>(a: Behavior<B>, b: Behavior<B>, bb: B)
    ensures RunSequence([a, b], bb) ==
            var (s, bb') := a(bb); if s == Err then (Err, bb') else b(bb')
  {
    var (s, bb') := a(bb);
    assert [a, b][1..] == [b];
    if s == Ok {
      assert RunSequence([a, b], bb) == RunSequence([b], bb');
      assert [b][1..] == [];
      var (t, bb'') := b(bb');
      if t == Ok {
        assert RunSequence([b], bb') == RunSequence([], bb'');
      }
    }
  }

  /**
   * The meaning of `WhileLoop` with at most `fuel` runs of the body: `None`
   * when the condition still holds after `fuel` rounds (the source loop would
   * go on).  A failing condition ends the loop with `Ok`; a failing body child
   * aborts it with `Err`.
   */
  function RunWhile<B>(condition: Behavior<B>, body: seq<Behavior<B>>, bb: B, fuel: nat)
    : Wrappers.Option<(Status, B)>
    decreases fuel
  {
    var (c, bb') := condition(bb);
    if c == Err then Wrappers.Some((Ok, bb'))
    else if fuel == 0 then Wrappers.None
    else
      var (s, bb'') := RunSequence(body, bb');
      if s == Err then Wrappers.Some((Err, bb''))
      else RunWhile(condition, body, bb'', fuel - 1)
  }

  /** `WhileLoop::run`, which repeats the body while the condition is `Ok`. */
  method WhileLoop<B>(condition: Behavior<B>, body: seq<Behavior<B>>, bb: B, fuel: nat)
    returns (r: Wrappers.Option<(Status, B)>)
    ensures r == RunWhile(condition, body, bb, fuel)
  {
    var board := bb;
    var left := fuel;
    while true
      invariant RunWhile(condition, body, board, left) == RunWhile(condition, body, bb, fuel)
      decreases left
    {
      var (c, afterCondition) := condition(board);
      if c == Err {
        return Wrappers.Some((Ok, afterCondition));
      }
      if left == 0 {
        return Wrappers.None;
      }
      var (s, afterBody) := RunSequence(body, afterCondition);
      if s == Err {
        return Wrappers.Some((Err, afterBody));
      }
      board, left := afterBody, left - 1;
    }
  }

  /** More fuel never changes a loop outcome that was already reached. */
  lemma {:induction false} RunWhileFuelMonotone<B>(
    condition: Behavior<B>, body: seq<Behavior<B>>, bb: B, fuel: nat, more: nat)
    requires fuel <= more
    requires RunWhile(condition, body, bb, fuel).Some?
    ensures RunWhile(condition, body, bb, more) == RunWhile(condition, body, bb, fuel)
    decreases fuel
  {
    var (c, bb') := condition(bb);
    if c == Ok {
      var (s, bb'') := RunSequence(body, bb');
      if s == Ok {
        RunWhileFuelMonotone(condition, body, bb'', fuel - 1, more - 1);
      }
    }
  }

  /** The condition of the crate's own loop test: `status(*sum < 10)`. */
  function SumBelowTen(sum: nat): (Status, nat)
  {
    (StatusOf(sum < 10), sum)
  }

  /** The body of the crate's own loop test: `*sum += 1; Ok(())`. */
  function Increment(sum: nat): (Status, nat)
  {
    (Ok, sum + 1)
  }

  /** A loop counting up while below ten ends with `Ok` and the counter at exactly ten. */
  lemma {:induction false} CountToTen(sum: nat, fuel: nat)
    requires sum <= 10 && 10 - sum <= fuel
    ensures RunWhile(SumBelowTen, [Increment], sum, fuel) == Wrappers.Some((Ok, 10))
    decreases 10 - sum
  {
    if sum < 10 {
      assert RunSequence([Increment], sum) == (Ok, sum + 1);
      CountToTen(sum + 1, fuel - 1);
    }
  }
}
