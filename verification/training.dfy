/** The training loop: finished, the convergence test on the likelihood, and
    bw, which repeats forward, backward and update until finished says so. */
module Training {
  import opened Sums
  import opened Recurrences
  import opened Reestimation
  import opened Kernel
  import opened ParameterUpdate

  /** EPSILON: the likelihood gain below which training stops. */
  const Epsilon: real := 0.00000001

  /** alpha[s][T-1] for every state s: the last column of the forward table. */
  ghost function LastColumn(alpha: array2<real>): seq<real>
    reads alpha
  {
    seq(alpha.Length0, s requires 0 <= s < alpha.Length0 reads alpha =>
      if 0 < alpha.Length1 then alpha[s, alpha.Length1 - 1] else 0.0)
  }

  /** The sum of the last column of the forward table. */
  ghost function ColumnSum(alpha: array2<real>): real
    reads alpha
  {
    Sum(alpha.Length0, Weights(LastColumn(alpha)))
  }

  /** finished: the new likelihood is the sum of the last forward column
      (offset state*T-1 of the flat buffer is cell (state-1, T-1), Flat.RowEnd),
      and training is done when it gained less than Epsilon on the old one.
      The likelihood the C code passes by address comes in as `likelihood`
      and goes out as `newLikelihood`. */
  method Finished(alpha: array2<real>, likelihood: real, N: nat, T: nat) returns (done: bool, newLikelihood: real)
    requires alpha.Length0 == N && alpha.Length1 == T && T >= 1
    ensures newLikelihood == ColumnSum(alpha)
    ensures done <==> newLikelihood - likelihood < Epsilon
  {
    newLikelihood := 0.0;
    for state := 1 to N + 1
      invariant newLikelihood == Sum(state - 1, Weights(LastColumn(alpha)))
    {
      newLikelihood := newLikelihood + alpha[state - 1, T - 1];
    }
    done := newLikelihood - likelihood < Epsilon;
  }

  /** On the forward table of a model, the last column sums to the likelihood
      of the observations: finished tracks P(y | model). */
  lemma ColumnSumIsLikelihood(alpha: array2<real>, m: Model, y: seq<int>)
    requires AlphaTable(alpha, m, y)
    ensures ColumnSum(alpha) == Likelihood(m, y)
  {
    var col := Weights(LastColumn(alpha));
    forall s | 0 <= s < m.N
      ensures col(s) == FinalAlpha(m, y)(s)
    {
      assert col(s) == alpha[s, |y| - 1];
    }
    SumExt(m.N, col, FinalAlpha(m, y));
  }

  /** A positive model with at least one state gives the observations a
      positive likelihood. */
  lemma LikelihoodPositive(m: Model, y: seq<int>)
    requires Shaped(m, y) && Positive(m, y) && m.N >= 1
    ensures Likelihood(m, y) > 0.0
  {
    forall s | 0 <= s < m.N
      ensures FinalAlpha(m, y)(s) > 0.0
    {
      AlphaPositive(m, y, s, |y| - 1);
    }
    SumPositive(m.N, FinalAlpha(m, y));
  }

  /** The tables forward and backward leave behind are exactly what update
      needs: the step reads the forward and backward tables of the model. */
  lemma ExactStep(a: array2<real>, p: array<real>, b: array2<real>, alpha: array2<real>, beta: array2<real>, y: seq<int>)
    requires a.Length0 == a.Length1 == p.Length == b.Length0 == alpha.Length0 == beta.Length0
    requires alpha.Length1 == beta.Length1 == |y| >= 2
    requires AlphaTable(alpha, ModelOf(a, p, b), y) && BetaTable(beta, ModelOf(a, p, b), y)
    ensures Ready(StepOf(a, p, b, alpha, beta, y)) && Exact(StepOf(a, p, b, alpha, beta, y))
  {
    StepCells(a, p, b, alpha, beta, y);
  }

  /** One pass of bw as it ran: the step update performed was read off the
      exact forward and backward tables of a positive model. */
  ghost predicate Pass(e: EStep, y: seq<int>)
  {
    e.y == y && Ready(e) && Exact(e) && Positive(e.m, e.y)
  }

  /** The passes of a bw run, in order: the first starts from the model
      `start`, each one re-estimates, from its exact tables, the model the
      next one starts from, and the last one re-estimated the model `now`. */
  ghost predicate Trace(passes: seq<EStep>, y: seq<int>, start: Model, now: Model)
  {
    |passes| >= 1 && passes[0].m == start &&
    (forall i :: 0 <= i < |passes| ==> Pass(passes[i], y)) &&
    (forall i, j {:trigger passes[i], passes[j]} :: 0 <= i && j == i + 1 && j < |passes| ==>
      Reestimated(passes[i], passes[j].m)) &&
    Reestimated(passes[|passes| - 1], now)
  }

  /** A further pass from the model a run has reached extends its trace; the
      likelihoods finished saw carry over to the longer trace. */
  lemma TraceExtend(passes: seq<EStep>, e: EStep, next: seq<EStep>, y: seq<int>, start: Model, now: Model,
                    older: real, newer: real)
    requires if passes == [] then e.m == start
             else Trace(passes, y, start, e.m) && older == Likelihood(passes[|passes| - 1].m, y)
    requires Pass(e, y) && Reestimated(e, now) && newer == Likelihood(e.m, y)
    requires next == passes + [e]
    ensures Trace(next, y, start, now)
    ensures next[|next| - 1] == e && newer == Likelihood(next[|next| - 1].m, y)
    ensures |next| >= 2 ==> Shaped(next[|next| - 2].m, y) && older == Likelihood(next[|next| - 2].m, y)
  {
    forall i, j | 0 <= i && j == i + 1 && j < |next|
      ensures Reestimated(next[i], next[j].m)
    {
      if j < |passes| {
        assert next[i] == passes[i] && next[j] == passes[j];
      } else {
        assert next[i] == passes[|passes| - 1] && next[j] == e;
      }
    }
  }

  /** The finished test after pass j (j >= 1) failed: the model of pass j
      gained at least Epsilon in likelihood on the model of pass j - 1. */
  ghost predicate Rises(passes: seq<EStep>, y: seq<int>, j: int)
    requires 1 <= j < |passes|
  {
    Shaped(passes[j - 1].m, y) && Shaped(passes[j].m, y) &&
    Likelihood(passes[j].m, y) - Likelihood(passes[j - 1].m, y) >= Epsilon
  }

  /** Along the passes, every finished test between two of them failed. */
  ghost predicate Climbing(passes: seq<EStep>, y: seq<int>)
  {
    forall j :: 1 <= j < |passes| ==> Rises(passes, y, j)
  }

  /** A further pass keeps the tests between the earlier passes, and the run
      goes on climbing exactly when the new test failed too. */
  lemma ClimbingExtend(passes: seq<EStep>, e: EStep, y: seq<int>, older: real, newer: real)
    requires Climbing(passes, y) && Shaped(e.m, y) && newer == Likelihood(e.m, y)
    requires passes != [] ==> Shaped(passes[|passes| - 1].m, y) && older == Likelihood(passes[|passes| - 1].m, y)
    ensures forall j :: 1 <= j < |passes| ==> Rises(passes + [e], y, j)
    ensures Climbing(passes + [e], y) <==> passes == [] || newer - older >= Epsilon
  {
    var next := passes + [e];
    forall j | 1 <= j < |passes|
      ensures Rises(next, y, j)
    {
      assert Rises(passes, y, j);
      assert next[j - 1] == passes[j - 1] && next[j] == passes[j];
    }
    if passes != [] {
      assert next[|passes| - 1] == passes[|passes| - 1] && next[|passes|] == e;
      if newer - older >= Epsilon {
        assert Rises(next, y, |passes|);
      } else {
        assert !Rises(next, y, |passes|);
      }
    }
  }

  /** The buffers hold the tables of pass e: the forward and backward tables
      of its model, and the gamma and xi update computed from them. */
  ghost predicate Holds(alpha: array2<real>, beta: array2<real>, gamma: array2<real>, xi: array3<real>, e: EStep)
    reads alpha, beta, gamma, xi
  {
    AlphaTable(alpha, e.m, e.y) && BetaTable(beta, e.m, e.y) && GammaTable(gamma, e) && XiTable(xi, e)
  }

  /** The body of bw's do-while loop: forward, backward and update on a
      positive model. `e` is the pass it performed: its tables are those
      left in alpha and beta, gamma and xi hold its posteriors, and the
      model it re-estimated into a, p, b is the one they held before. */
  method TrainPass(a: array2<real>, p: array<real>, b: array2<real>, y: seq<int>, N: nat, K: nat, T: nat,
                   alpha: array2<real>, beta: array2<real>, gamma: array2<real>, xi: array3<real>)
    returns (ghost e: EStep)
    requires a.Length0 == N && a.Length1 == N && p.Length == N && b.Length0 == N && b.Length1 == K
    requires alpha.Length0 == N && alpha.Length1 == T && beta.Length0 == N && beta.Length1 == T
    requires gamma.Length0 == N && gamma.Length1 == T && xi.Length0 == T - 1 && xi.Length1 == N && xi.Length2 == N
    requires T == |y| >= 2 && ValidObservations(y, K) && N >= 1
    requires a != b && alpha != a && alpha != b && beta != a && beta != b && gamma != a && gamma != b
    requires alpha != beta && gamma != alpha && gamma != beta
    requires Shaped(ModelOf(a, p, b), y) && Positive(ModelOf(a, p, b), y)
    modifies a, p, b, alpha, beta, gamma, xi
    ensures e.m == old(ModelOf(a, p, b)) && Pass(e, y) && Reestimated(e, ModelOf(a, p, b))
    ensures AlphaTable(alpha, e.m, y) && BetaTable(beta, e.m, y) && GammaTable(gamma, e) && XiTable(xi, e)
    ensures ColumnSum(alpha) == Likelihood(e.m, y) > 0.0
    ensures Shaped(ModelOf(a, p, b), y) && Positive(ModelOf(a, p, b), y) && Stochastic(ModelOf(a, p, b))
  {
    ghost var m := ModelOf(a, p, b);
    Forward(a, p, b, alpha, y, N, K, T);
    Backward(a, b, beta, y, N, K, T, p);
    e := StepOf(a, p, b, alpha, beta, y);
    ExactStep(a, p, b, alpha, beta, y);
    ExactTablesPositive(e);
    PositiveNonDegenerate(e);
    Update(a, p, b, alpha, beta, gamma, xi, y, N, K, T);
    ReestimatedPositive(e, ModelOf(a, p, b));
    ReestimatedStochastic(e, ModelOf(a, p, b));
    ColumnSumIsLikelihood(alpha, m, y);
    LikelihoodPositive(m, y);
  }

  /** One round of bw's do-while loop: the pass of TrainPass on the model
      `current` the run has reached, then finished. The pass extends the
      run's trace to `next` and leaves the model `model` in a, p, b;
      `newLikelihood` is the likelihood of `current`, and `done` reports
      whether it gained less than Epsilon on `likelihood`, which never
      happens in the first round. A run that was climbing still is when
      the test fails. */
  method Round(a: array2<real>, p: array<real>, b: array2<real>, y: seq<int>, N: nat, K: nat, T: nat,
               alpha: array2<real>, beta: array2<real>, gamma: array2<real>, xi: array3<real>,
               likelihood: real, ghost passes: seq<EStep>, ghost start: Model, ghost current: Model)
    returns (done: bool, newLikelihood: real, ghost next: seq<EStep>, ghost model: Model)
    requires a.Length0 == N && a.Length1 == N && p.Length == N && b.Length0 == N && b.Length1 == K
    requires alpha.Length0 == N && alpha.Length1 == T && beta.Length0 == N && beta.Length1 == T
    requires gamma.Length0 == N && gamma.Length1 == T && xi.Length0 == T - 1 && xi.Length1 == N && xi.Length2 == N
    requires T == |y| >= 2 && ValidObservations(y, K) && N >= 1
    requires a != b && alpha != a && alpha != b && beta != a && beta != b && gamma != a && gamma != b
    requires alpha != beta && gamma != alpha && gamma != beta
    requires current == ModelOf(a, p, b) && Shaped(current, y) && Positive(current, y)
    requires if passes == [] then current == start && likelihood == -1.0
             else Trace(passes, y, start, current) && likelihood == Likelihood(passes[|passes| - 1].m, y)
    requires Climbing(passes, y)
    modifies a, p, b, alpha, beta, gamma, xi
    ensures model == ModelOf(a, p, b)
    ensures |next| == |passes| + 1 && next == passes + [next[|passes|]]
    ensures next[|passes|].m == current
    ensures Trace(next, y, start, model)
    ensures newLikelihood == Likelihood(next[|next| - 1].m, y)
    ensures |next| >= 2 ==> Shaped(next[|next| - 2].m, y) && likelihood == Likelihood(next[|next| - 2].m, y)
    ensures done <==> newLikelihood - likelihood < Epsilon
    ensures passes == [] ==> !done
    ensures forall j :: 1 <= j < |next| - 1 ==> Rises(next, y, j)
    ensures !done ==> Climbing(next, y)
    ensures Holds(alpha, beta, gamma, xi, next[|next| - 1])
    ensures Shaped(model, y) && Positive(model, y) && Stochastic(model)
  {
    ghost var e := TrainPass(a, p, b, y, N, K, T, alpha, beta, gamma, xi);
    done, newLikelihood := Finished(alpha, likelihood, N, T);
    next := passes + [e];
    model := ModelOf(a, p, b);
    TraceExtend(passes, e, next, y, start, model, likelihood, newLikelihood);
    ClimbingExtend(passes, e, y, likelihood, newLikelihood);
  }

  /** bw: forward, backward and update are repeated until finished reports a
      likelihood gain below Epsilon, or until maxSteps passes have run.
      `passes` traces the run from the model handed in to the model now in
      a, p, b. The likelihood finished returns is that of the last pass's
      model, `previous` that of the pass before (or the initial -1), and
      training converged exactly when the gain between them is below
      Epsilon; every test before the last failed, so bw stops at the first
      test that passes. gamma and xi hold the posteriors of the last pass. */
  method Bw(a: array2<real>, p: array<real>, b: array2<real>, y: seq<int>, N: nat, K: nat, T: nat,
            alpha: array2<real>, beta: array2<real>, gamma: array2<real>, xi: array3<real>, maxSteps: nat)
    returns (steps: nat, converged: bool, likelihood: real, ghost previous: real, ghost passes: seq<EStep>)
    requires a.Length0 == N && a.Length1 == N && p.Length == N && b.Length0 == N && b.Length1 == K
    requires alpha.Length0 == N && alpha.Length1 == T && beta.Length0 == N && beta.Length1 == T
    requires gamma.Length0 == N && gamma.Length1 == T && xi.Length0 == T - 1 && xi.Length1 == N && xi.Length2 == N
    requires T == |y| >= 2 && ValidObservations(y, K) && N >= 1 && maxSteps >= 1
    requires a != b && alpha != a && alpha != b && beta != a && beta != b && gamma != a && gamma != b
    requires alpha != beta && gamma != alpha && gamma != beta
    requires Shaped(ModelOf(a, p, b), y) && Positive(ModelOf(a, p, b), y)
    modifies a, p, b, alpha, beta, gamma, xi
    ensures 1 <= steps <= maxSteps && |passes| == steps
    ensures Trace(passes, y, old(ModelOf(a, p, b)), ModelOf(a, p, b))
    ensures likelihood == Likelihood(passes[|passes| - 1].m, y)
    ensures steps == 1 ==> previous == -1.0
    ensures steps >= 2 ==> Shaped(passes[|passes| - 2].m, y) && previous == Likelihood(passes[|passes| - 2].m, y)
    ensures converged <==> likelihood - previous < Epsilon
    ensures converged ==> steps >= 2
    ensures !converged ==> steps == maxSteps
    ensures forall j :: 1 <= j < |passes| - 1 ==> Rises(passes, y, j)
    ensures Holds(alpha, beta, gamma, xi, passes[|passes| - 1])
    ensures Shaped(ModelOf(a, p, b), y) && Positive(ModelOf(a, p, b), y) && Stochastic(ModelOf(a, p, b))
  {
    ghost var m0 := ModelOf(a, p, b);
    ghost var now := m0;
    steps := 0;
    likelihood := -1.0;
    converged := false;
    previous := -1.0;
    passes := [];
    var done := false;
    // the do-while loop of the C code: the body runs before the first test
    while !done
      invariant steps <= maxSteps && |passes| == steps && (done || steps < maxSteps)
      invariant now == ModelOf(a, p, b) && Shaped(now, y) && Positive(now, y)
      invariant steps == 0 ==> !done && likelihood == -1.0 && now == m0
      invariant steps >= 1 ==> Trace(passes, y, m0, now) && likelihood == Likelihood(passes[|passes| - 1].m, y)
      invariant steps >= 1 ==> Holds(alpha, beta, gamma, xi, passes[|passes| - 1])
      invariant !done ==> Climbing(passes, y)
      invariant forall j :: 1 <= j < |passes| - 1 ==> Rises(passes, y, j)
      invariant steps >= 1 ==> Stochastic(now)
      invariant steps == 1 ==> previous == -1.0
      invariant steps >= 2 ==> Shaped(passes[|passes| - 2].m, y) && previous == Likelihood(passes[|passes| - 2].m, y)
      invariant done ==> (converged <==> likelihood - previous < Epsilon) && (!converged ==> steps == maxSteps)
      invariant converged ==> steps >= 2
      decreases maxSteps - steps
    {
      var newLikelihood;
      converged, newLikelihood, passes, now := Round(a, p, b, y, N, K, T, alpha, beta, gamma, xi, likelihood, passes, m0, now);
      steps := steps + 1;
      previous := likelihood;
      likelihood := newLikelihood;
      done := converged || steps == maxSteps;
    }
  }
}
