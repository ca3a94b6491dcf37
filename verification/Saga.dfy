/**
 `SagaBuilder`: steps run in order over one mutable context; when a step throws, the compensations of the
 steps that completed run in reverse, a throwing one does not stop the rest, and the error is rethrown.
 */
module Saga {
  import opened Common

  /** What one call leaves behind: the context as it is then, and the error if it threw. */
  datatype Outcome<C, E> = Outcome(ctx: C, error: Option<E>)

  datatype Step<!C, !E> = Step(name: string, execute: C -> Outcome<C, E>, compensate: C -> Outcome<C, E>)

  /** The calls the saga makes, by step index. */
  datatype Action = Execute(step: nat) | Compensate(undone: nat)

  class SagaBuilder<C, E> {
    var steps: seq<Step<C, E>>

    constructor ()
      ensures steps == []
    {
      steps := [];
    }

    method AddStep(name: string, execute: C -> Outcome<C, E>, compensate: C -> Outcome<C, E>)
      modifies this
      ensures steps == old(steps) + [Step(name, execute, compensate)]
    {
      steps := steps + [Step(name, execute, compensate)];
    }

    /** The descending loop; each compensation is attempted whether or not the later ones threw. */
    method Rollback(count: nat, ctx: C) returns (after: C, actions: seq<Action>)
      requires count <= |steps|
      ensures after == Backward(steps[..count], ctx) && actions == Compensates(count)
    {
      after, actions := ctx, [];
      for i := count downto 0
        invariant Backward(steps[..i], after) == Backward(steps[..count], ctx)
        invariant actions + Compensates(i) == Compensates(count)
      {
        assert steps[..i + 1][..i] == steps[..i];
        assert Compensates(i + 1) == [Compensate(i)] + Compensates(i);
        after := steps[i].compensate(after).ctx;
        actions := actions + [Compensate(i)];
      }
    }

    method Run(ctx: C) returns (after: C, error: Option<E>, actions: seq<Action>)
      ensures match FirstFailure(steps, ctx)
        case None =>
          error.None? && after == Forward(steps, ctx) && actions == Executes(|steps|)
        case Some(k) =>
          var thrown := steps[k].execute(Forward(steps[..k], ctx));
          error == thrown.error && error.Some?
          && after == Backward(steps[..k], thrown.ctx)
          && actions == Executes(k + 1) + Compensates(k)
    {
      after := ctx;
      actions := [];
      var executed: seq<string> := [];
      for i := 0 to |steps|
        invariant FirstFailure(steps[..i], ctx).None?
        invariant after == Forward(steps[..i], ctx)
        invariant actions == Executes(i) && |executed| == i
      {
        var r := steps[i].execute(after);
        actions := actions + [Execute(i)];
        assert steps[..i + 1][..i] == steps[..i];
        assert Executes(i + 1) == Executes(i) + [Execute(i)];
        if r.error.Some? {
          FailureFound(steps, ctx, i);
          var undone: seq<Action>;
          after, undone := Rollback(|executed|, r.ctx);
          return after, r.error, actions + undone;
        }
        executed := executed + [steps[i].name];
        after := r.ctx;
      }
      assert steps[..|steps|] == steps;
      error := None;
    }
  }

  // ---- What a run means -----------------------------------------------------------------------

  /** The context after all the steps, while none throws. */
  function Forward<C, E>(steps: seq<Step<C, E>>, ctx: C): C {
    if steps == [] then ctx
    else steps[|steps| - 1].execute(Forward(steps[..|steps| - 1], ctx)).ctx
  }

  function FirstFailure<C, E>(steps: seq<Step<C, E>>, ctx: C): (k: Option<nat>)
    ensures k.Some? ==>
      && k.value < |steps|
      && steps[k.value].execute(Forward(steps[..k.value], ctx)).error.Some?
      && FirstFailure(steps[..k.value], ctx).None?
  {
    if steps == [] then None
    else
      var n := |steps| - 1;
      var earlier := FirstFailure(steps[..n], ctx);
      if earlier.Some? then
        assert steps[..n][..earlier.value] == steps[..earlier.value];
        earlier
      else if steps[n].execute(Forward(steps[..n], ctx)).error.Some? then Some(n) else None
  }

  lemma OneMoreStep<C, E>(steps: seq<Step<C, E>>, i: nat, ctx: C)
    requires i < |steps|
    ensures var r := steps[i].execute(Forward(steps[..i], ctx));
            && Forward(steps[..i + 1], ctx) == r.ctx
            && FirstFailure(steps[..i + 1], ctx)
               == if FirstFailure(steps[..i], ctx).Some? then FirstFailure(steps[..i], ctx)
                  else if r.error.Some? then Some(i) else None
  {
    assert steps[..i + 1][..i] == steps[..i];
  }

  lemma ForwardStep<C, E>(steps: seq<Step<C, E>>, i: nat, ctx: C)
    requires i < |steps|
    ensures Forward(steps[..i + 1], ctx) == steps[i].execute(Forward(steps[..i], ctx)).ctx
  {
    assert steps[..i + 1][..i] == steps[..i];
  }

  /** The compensations of all the steps, last first, whatever they throw. */
  function Backward<C, E>(steps: seq<Step<C, E>>, ctx: C): C {
    if steps == [] then ctx
    else Backward(steps[..|steps| - 1], steps[|steps| - 1].compensate(ctx).ctx)
  }

  lemma OneLessStep<C, E>(steps: seq<Step<C, E>>, i: nat, ctx: C)
    requires i < |steps|
    ensures Backward(steps[..i + 1], ctx) == Backward(steps[..i], steps[i].compensate(ctx).ctx)
  {
    assert steps[..i + 1][..i] == steps[..i];
  }

  function Executes(n: nat): seq<Action> {
    seq(n, i requires 0 <= i < n => Execute(i))
  }

  function Compensates(n: nat): seq<Action> {
    seq(n, i requires 0 <= i < n => Compensate(n - 1 - i))
  }

  /** Once a prefix fails, the whole list fails at the same step. */
  lemma {:induction false} FailureFound<C, E>(steps: seq<Step<C, E>>, ctx: C, i: nat)
    requires i < |steps| && FirstFailure(steps[..i], ctx).None?
    requires steps[i].execute(Forward(steps[..i], ctx)).error.Some?
    ensures FirstFailure(steps, ctx) == Some(i)
  {
    var n := |steps| - 1;
    assert steps[..n + 1] == steps;
    OneMoreStep(steps, n, ctx);
    if i < n {
      assert steps[..n][..i] == steps[..i] && steps[..n][i] == steps[i];
      FailureFound(steps[..n], ctx, i);
    }
  }

  /** Undoing a completed step restores the context it started from, even if the undoing also throws. */
  ghost predicate Inverts<C(!new), E>(s: Step<C, E>) {
    forall c: C :: s.execute(c).error.None? ==> s.compensate(s.execute(c).ctx).ctx == c
  }

  lemma {:induction false} BackwardUndoesForward<C(!new), E>(steps: seq<Step<C, E>>, ctx: C)
    requires FirstFailure(steps, ctx).None?
    requires forall i | 0 <= i < |steps| :: Inverts(steps[i])
    ensures Backward(steps, Forward(steps, ctx)) == ctx
  {
    if steps != [] {
      var n := |steps| - 1;
      assert Inverts(steps[n]);
      BackwardUndoesForward(steps[..n], ctx);
    }
  }

  /**
   If every completed step is inverted by its compensation and the failing step left the context as it
   found it, a failed saga ends in the context it started from.
   */
  lemma FailedSagaRestores<C(!new), E>(steps: seq<Step<C, E>>, ctx: C)
    requires FirstFailure(steps, ctx).Some?
    requires var k := FirstFailure(steps, ctx).value;
             && (forall i | 0 <= i < k :: Inverts(steps[i]))
             && steps[k].execute(Forward(steps[..k], ctx)).ctx == Forward(steps[..k], ctx)
    ensures var k := FirstFailure(steps, ctx).value;
            Backward(steps[..k], steps[k].execute(Forward(steps[..k], ctx)).ctx) == ctx
  {
    BackwardUndoesForward(steps[..FirstFailure(steps, ctx).value], ctx);
  }
}
