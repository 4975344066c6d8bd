/** update: one Baum-Welch re-estimation step on the trainer's buffers. It
    sums the evidence, fills gamma and xi, and overwrites p, a and b with the
    re-estimated parameters. Each stage is a method proved against the
    functions of Reestimation, read off the model in a, p, b and the tables
    in alpha, beta as they stand when update is entered. */
module ParameterUpdate {
  import opened Sums
  import opened Flat
  import opened Recurrences
  import opened Reestimation
  import opened Kernel

  /** The step update performs on the model in a, p, b and the tables alpha, beta. */
  ghost function StepOf(a: array2<real>, p: array<real>, b: array2<real>, alpha: array2<real>, beta: array2<real>,
                        y: seq<int>): EStep
    reads a, p, b, alpha, beta
  {
    EStep(ModelOf(a, p, b), y, Flatten(alpha), Flatten(beta))
  }

  /** alpha and beta are the N x T tables the step reads. */
  ghost predicate OnTables(e: EStep, alpha: array2<real>, beta: array2<real>)
    reads alpha, beta
  {
    Ready(e) && alpha.Length0 == e.m.N && alpha.Length1 == |e.y| && beta.Length0 == e.m.N && beta.Length1 == |e.y| &&
    forall s, t :: 0 <= s < e.m.N && 0 <= t < |e.y| ==> AlphaAt(e, s, t) == alpha[s, t] && BetaAt(e, s, t) == beta[s, t]
  }

  /** Reading the step's tables and parameters is reading the buffers. */
  lemma StepCells(a: array2<real>, p: array<real>, b: array2<real>, alpha: array2<real>, beta: array2<real>, y: seq<int>)
    requires a.Length0 == a.Length1 == p.Length == b.Length0 == alpha.Length0 == beta.Length0
    requires alpha.Length1 == beta.Length1 == |y| >= 2 && ValidObservations(y, b.Length1)
    ensures OnTables(StepOf(a, p, b, alpha, beta, y), alpha, beta)
    ensures Stores(a, b, StepOf(a, p, b, alpha, beta, y).m)
  {
    var e := StepOf(a, p, b, alpha, beta, y);
    ModelCells(a, p, b);
    RowsLength(alpha, alpha.Length0);
    RowsLength(beta, beta.Length0);
    IdxIsOffset(alpha.Length0, 0, |y|);
    forall s, t | 0 <= s < e.m.N && 0 <= t < |e.y|
      ensures AlphaAt(e, s, t) == alpha[s, t] && BetaAt(e, s, t) == beta[s, t]
    {
      FlattenAt(alpha, s, t);
      FlattenAt(beta, s, t);
    }
  }

  /** The t-loop at the head of update: each pass recomputes the evidence
      from column t-1, so the value that survives is the one of column T-2. */
  method SumEvidence(alpha: array2<real>, beta: array2<real>, N: nat, T: nat, ghost e: EStep) returns (evidence: real)
    requires OnTables(e, alpha, beta) && e.m.N == N && |e.y| == T
    ensures evidence == Evidence(e)
  {
    evidence := 0.0;
    for t := 1 to T
      invariant t >= 2 ==> evidence == Sum(N, Products(e, t - 2))
    {
      evidence := 0.0;
      for s := 0 to N
        invariant evidence == Sum(s, Products(e, t - 1))
      {
        evidence := evidence + alpha[s, t - 1] * beta[s, t - 1];
      }
    }
  }

  /** The gamma cells filled before (s, t): earlier columns, and rows 0 .. s-1 of column t. */
  ghost predicate GammaFilled(gamma: array2<real>, e: EStep, t: int, s: int)
    reads gamma
  {
    Ready(e) && Evidence(e) != 0.0 && gamma.Length0 == e.m.N && gamma.Length1 == |e.y| &&
    forall i, k :: 0 <= i < e.m.N && 0 <= k < |e.y| && (k < t || (k == t && i < s)) ==> gamma[i, k] == Gamma(e, i, k)
  }

  /** gamma[s][t] holds the posterior of state s at time t, for every s and t. */
  ghost predicate GammaTable(gamma: array2<real>, e: EStep)
    reads gamma
  {
    GammaFilled(gamma, e, |e.y|, 0)
  }

  /** The product update divides by the evidence is the numerator of gamma. */
  lemma GammaEntry(e: EStep, s: int, t: int, x: real, z: real)
    requires Ready(e) && Evidence(e) != 0.0 && 0 <= s < e.m.N && 0 <= t < |e.y|
    requires x == AlphaAt(e, s, t) && z == BetaAt(e, s, t)
    ensures (x * z) / Evidence(e) == Gamma(e, s, t)
  {
  }

  /** The value update stores in gamma[s][t]: the posterior of state s at time t. */
  method GammaValue(alpha: array2<real>, beta: array2<real>, evidence: real, s: nat, t: nat, ghost e: EStep)
    returns (v: real)
    requires OnTables(e, alpha, beta) && evidence == Evidence(e) && evidence != 0.0
    requires s < e.m.N && t < |e.y|
    ensures v == Gamma(e, s, t)
  {
    var x, z := alpha[s, t], beta[s, t];
    GammaEntry(e, s, t, x, z);
    v := (x * z) / evidence;
  }

  /** A column filled in every row means the next column is reached. */
  lemma GammaNextColumn(gamma: array2<real>, e: EStep, t: int)
    requires GammaFilled(gamma, e, t, e.m.N)
    ensures GammaFilled(gamma, e, t + 1, 0)
  {
  }

  /** The gamma loop of update: gamma[s][t] = alpha[s][t] * beta[s][t] / evidence. */
  method FillGamma(alpha: array2<real>, beta: array2<real>, gamma: array2<real>, evidence: real, N: nat, T: nat,
                   ghost e: EStep)
    requires OnTables(e, alpha, beta) && e.m.N == N && |e.y| == T
    requires evidence == Evidence(e) && evidence != 0.0
    requires gamma.Length0 == N && gamma.Length1 == T && gamma != alpha && gamma != beta
    modifies gamma
    ensures GammaTable(gamma, e)
  {
    for t := 0 to T
      invariant GammaFilled(gamma, e, t, 0)
    {
      for s := 0 to N
        invariant GammaFilled(gamma, e, t, s)
      {
        var v := GammaValue(alpha, beta, evidence, s, t, e);
        gamma[s, t] := v;
      }
      GammaNextColumn(gamma, e, t);
    }
  }

  /** The xi cells filled before (t, s): every earlier time, and rows 0 .. s-1
      at time t; cell xi[t-1][s][j] belongs to time t. */
  ghost predicate XiFilled(xi: array3<real>, e: EStep, t: int, s: int)
    reads xi
  {
    Ready(e) && Evidence(e) != 0.0 && xi.Length0 == |e.y| - 1 && xi.Length1 == e.m.N && xi.Length2 == e.m.N &&
    forall u, i, j :: 0 <= u < |e.y| - 1 && 0 <= i < e.m.N && 0 <= j < e.m.N && (u + 1 < t || (u + 1 == t && i < s)) ==>
      xi[u, i, j] == Xi(e, u + 1, i, j)
  }

  /** xi[t-1][s][j] holds the posterior of the transition s -> j at time t, for every t, s and j. */
  ghost predicate XiTable(xi: array3<real>, e: EStep)
    reads xi
  {
    XiFilled(xi, e, |e.y|, 0)
  }

  /** The product update divides by the evidence is the numerator of xi. */
  lemma XiEntry(e: EStep, t: int, s: int, j: int, x: real, u: real, z: real, w: real)
    requires Ready(e) && Evidence(e) != 0.0 && 1 <= t < |e.y| && 0 <= s < e.m.N && 0 <= j < e.m.N
    requires x == AlphaAt(e, s, t - 1) && u == Trans(e.m, s, j) && z == BetaAt(e, j, t) && w == Emit(e.m, j, e.y[t])
    ensures (x * u * z * w) / Evidence(e) == Xi(e, t, s, j)
  {
  }

  /** The value update stores in xi[t-1][s][j]: the posterior of the
      transition s -> j at time t. */
  method XiValue(a: array2<real>, b: array2<real>, alpha: array2<real>, beta: array2<real>, y: seq<int>,
                 evidence: real, t: nat, s: nat, j: nat, ghost e: EStep) returns (v: real)
    requires OnTables(e, alpha, beta) && Stores(a, b, e.m) && e.y == y
    requires evidence == Evidence(e) && evidence != 0.0
    requires 1 <= t < |y| && s < e.m.N && j < e.m.N
    ensures v == Xi(e, t, s, j)
  {
    var x, u, z, w := alpha[s, t - 1], a[s, j], beta[j, t], b[j, y[t]];
    XiEntry(e, t, s, j, x, u, z, w);
    v := (x * u * z * w) / evidence;
  }

  /** A row of xi filled at time t extends what is filled by that row. */
  lemma XiRowFilled(xi: array3<real>, e: EStep, t: int, s: int)
    requires XiFilled(xi, e, t, s) && 1 <= t < |e.y| && 0 <= s < e.m.N
    requires forall j :: 0 <= j < e.m.N ==> xi[t - 1, s, j] == Xi(e, t, s, j)
    ensures XiFilled(xi, e, t, s + 1)
  {
  }

  /** The innermost loop of update's xi loop: xi[t-1][s][j] for every j, so
      row s at time t is added to what is filled. */
  method FillXiRow(a: array2<real>, b: array2<real>, alpha: array2<real>, beta: array2<real>, xi: array3<real>,
                   y: seq<int>, evidence: real, N: nat, K: nat, T: nat, t: nat, s: nat, ghost e: EStep)
    requires OnTables(e, alpha, beta) && Stores(a, b, e.m) && e.m.N == N && e.m.K == K && e.y == y && |y| == T
    requires evidence == Evidence(e) && evidence != 0.0
    requires 1 <= t < T && s < N
    requires XiFilled(xi, e, t, s)
    modifies xi
    ensures XiFilled(xi, e, t, s + 1)
  {
    for j := 0 to N
      invariant XiFilled(xi, e, t, s)
      invariant forall k :: 0 <= k < j ==> xi[t - 1, s, k] == Xi(e, t, s, k)
    {
      var v := XiValue(a, b, alpha, beta, y, evidence, t, s, j, e);
      xi[t - 1, s, j] := v;
    }
    XiRowFilled(xi, e, t, s);
  }

  /** Every row filled at time t means time t + 1 is reached. */
  lemma XiNextTime(xi: array3<real>, e: EStep, t: int)
    requires XiFilled(xi, e, t, e.m.N)
    ensures XiFilled(xi, e, t + 1, 0)
  {
  }

  /** The xi loop of update. */
  method FillXi(a: array2<real>, b: array2<real>, alpha: array2<real>, beta: array2<real>, xi: array3<real>,
                y: seq<int>, evidence: real, N: nat, K: nat, T: nat, ghost e: EStep)
    requires OnTables(e, alpha, beta) && Stores(a, b, e.m) && e.m.N == N && e.m.K == K && e.y == y && |y| == T
    requires evidence == Evidence(e) && evidence != 0.0
    requires xi.Length0 == T - 1 && xi.Length1 == N && xi.Length2 == N
    modifies xi
    ensures XiTable(xi, e)
  {
    for t := 1 to T
      invariant XiFilled(xi, e, t, 0)
    {
      for s := 0 to N
        invariant XiFilled(xi, e, t, s)
      {
        FillXiRow(a, b, alpha, beta, xi, y, evidence, N, K, T, t, s, e);
      }
      XiNextTime(xi, e, t);
    }
  }

  /** The t-loop of update for the transition s -> j: the xi entries of s -> j
      and the gamma entries of s, summed over t = 1 .. T-1. */
  method TransitionSums(gamma: array2<real>, xi: array3<real>, N: nat, T: nat, s: nat, j: nat, ghost e: EStep)
    returns (xiSum: real, den: real)
    requires GammaTable(gamma, e) && XiTable(xi, e) && e.m.N == N && |e.y| == T && s < N && j < N
    ensures xiSum == Sum(T - 1, XiSeries(e, s, j)) && den == VisitsBefore(e, s)
  {
    xiSum := 0.0;
    den := 0.0;
    for t := 1 to T
      invariant xiSum == Sum(t - 1, XiSeries(e, s, j)) && den == Sum(t - 1, GammaSeries(e, s))
    {
      xiSum := xiSum + xi[t - 1, s, j];
      den := den + gamma[s, t - 1];
    }
  }

  /** The loop over j of update for state s: a[s][j] becomes the summed xi
      over the summed gamma for every j. The denominator of the last pass is
      returned, as the C code carries it on to the emissions. */
  method TransitionRow(a: array2<real>, gamma: array2<real>, xi: array3<real>, N: nat, T: nat, s: nat, ghost e: EStep)
    returns (den: real)
    requires NonDegenerate(e) && GammaTable(gamma, e) && XiTable(xi, e) && e.m.N == N && |e.y| == T && s < N
    requires a.Length0 == N && a.Length1 == N && a != gamma
    modifies a
    ensures den == VisitsBefore(e, s)
    ensures forall j :: 0 <= j < N ==> a[s, j] == NewA(e, s, j)
    ensures forall i, j :: 0 <= i < N && 0 <= j < N && i != s ==> a[i, j] == old(a[i, j])
  {
    den := 0.0;
    for j := 0 to N
      invariant j > 0 ==> den == VisitsBefore(e, s)
      invariant forall k :: 0 <= k < j ==> a[s, k] == NewA(e, s, k)
      invariant forall i, k :: 0 <= i < N && 0 <= k < N && i != s ==> a[i, k] == old(a[i, k])
    {
      var xiSum;
      xiSum, den := TransitionSums(gamma, xi, N, T, s, j, e);
      a[s, j] := xiSum / den;
    }
  }

  /** The t-loop of update for state s and symbol v: the gamma entries of s
      at the times v is observed. */
  method EmissionSum(gamma: array2<real>, y: seq<int>, N: nat, T: nat, s: nat, v: int, ghost e: EStep)
    returns (num: real)
    requires GammaTable(gamma, e) && e.m.N == N && e.y == y && |y| == T && s < N
    ensures num == Sum(T, GammaWhere(e, s, v))
  {
    num := 0.0;
    for t := 0 to T
      invariant num == Sum(t, GammaWhere(e, s, v))
    {
      if y[t] == v {
        num := num + gamma[s, t];
      }
    }
  }

  /** The loop over v of update for state s: b[s][v] becomes the gamma of s
      where v is observed over all the gamma of s. */
  method EmissionRow(b: array2<real>, gamma: array2<real>, y: seq<int>, den: real, N: nat, K: nat, T: nat, s: nat,
                     ghost e: EStep)
    requires NonDegenerate(e) && GammaTable(gamma, e) && e.m.N == N && e.m.K == K && e.y == y && |y| == T && s < N
    requires den == Visits(e, s)
    requires b.Length0 == N && b.Length1 == K && b != gamma
    modifies b
    ensures forall v :: 0 <= v < K ==> b[s, v] == NewB(e, s, v)
    ensures forall i, v :: 0 <= i < N && 0 <= v < K && i != s ==> b[i, v] == old(b[i, v])
  {
    for v := 0 to K
      invariant forall w :: 0 <= w < v ==> b[s, w] == NewB(e, s, w)
      invariant forall i, w :: 0 <= i < N && 0 <= w < K && i != s ==> b[i, w] == old(b[i, w])
    {
      var num := EmissionSum(gamma, y, N, T, s, v, e);
      b[s, v] := num / den;
    }
  }

  /** p, a and b hold the re-estimated parameters in their first `rows` rows. */
  ghost predicate RowsDone(a: array2<real>, p: array<real>, b: array2<real>, e: EStep, rows: int)
    reads a, p, b
  {
    NonDegenerate(e) && rows <= e.m.N &&
    a.Length0 == e.m.N && a.Length1 == e.m.N && p.Length == e.m.N && b.Length0 == e.m.N && b.Length1 == e.m.K &&
    (forall s :: 0 <= s < rows ==> p[s] == NewP(e, s)) &&
    (forall s, j :: 0 <= s < rows && 0 <= j < e.m.N ==> a[s, j] == NewA(e, s, j)) &&
    (forall s, v :: 0 <= s < rows && 0 <= v < e.m.K ==> b[s, v] == NewB(e, s, v))
  }

  /** Every row re-estimated is the re-estimated model. */
  lemma AllRowsDone(a: array2<real>, p: array<real>, b: array2<real>, e: EStep)
    requires RowsDone(a, p, b, e, e.m.N)
    ensures Reestimated(e, ModelOf(a, p, b))
  {
    var m2 := ModelOf(a, p, b);
    ModelCells(a, p, b);
    assert forall s :: 0 <= s < m2.N ==> m2.p[s] == p[s];
  }

  /** The body of update's last loop, for state s: p[s], row s of a and row
      s of b become the re-estimated ones; no other row changes. */
  method ReestimateRow(a: array2<real>, p: array<real>, b: array2<real>, gamma: array2<real>, xi: array3<real>,
                       y: seq<int>, N: nat, K: nat, T: nat, s: nat, ghost e: EStep)
    requires NonDegenerate(e) && GammaTable(gamma, e) && XiTable(xi, e) && e.m.N == N && e.m.K == K && e.y == y && |y| == T
    requires s < N && a.Length0 == N && a.Length1 == N && p.Length == N && b.Length0 == N && b.Length1 == K
    requires a != gamma && b != gamma && a != b
    requires RowsDone(a, p, b, e, s)
    modifies a, p, b
    ensures RowsDone(a, p, b, e, s + 1)
  {
    p[s] := gamma[s, 0];
    var den := TransitionRow(a, gamma, xi, N, T, s, e);
    den := den + gamma[s, T - 1];
    EmissionRow(b, gamma, y, den, N, K, T, s, e);
  }

  /** update's last loop: p, a and b become the re-estimated parameters. */
  method Reestimate(a: array2<real>, p: array<real>, b: array2<real>, gamma: array2<real>, xi: array3<real>,
                    y: seq<int>, N: nat, K: nat, T: nat, ghost e: EStep)
    requires NonDegenerate(e) && GammaTable(gamma, e) && XiTable(xi, e) && e.m.N == N && e.m.K == K && e.y == y && |y| == T
    requires a.Length0 == N && a.Length1 == N && p.Length == N && b.Length0 == N && b.Length1 == K
    requires a != gamma && b != gamma && a != b
    modifies a, p, b
    ensures Reestimated(e, ModelOf(a, p, b))
  {
    for s := 0 to N
      invariant RowsDone(a, p, b, e, s)
    {
      ReestimateRow(a, p, b, gamma, xi, y, N, K, T, s, e);
    }
    AllRowsDone(a, p, b, e);
  }

  /** update: given the forward and backward tables of the model in a, p, b,
      p, a and b become the re-estimated parameters, and gamma and xi hold
      the posteriors they were computed from. alpha and beta are only read. */
  method Update(a: array2<real>, p: array<real>, b: array2<real>, alpha: array2<real>, beta: array2<real>,
                gamma: array2<real>, xi: array3<real>, y: seq<int>, N: nat, K: nat, T: nat)
    requires a.Length0 == N && a.Length1 == N && p.Length == N && b.Length0 == N && b.Length1 == K
    requires alpha.Length0 == N && alpha.Length1 == T && beta.Length0 == N && beta.Length1 == T
    requires gamma.Length0 == N && gamma.Length1 == T && xi.Length0 == T - 1 && xi.Length1 == N && xi.Length2 == N
    requires T == |y| >= 2 && ValidObservations(y, K)
    requires a != b && gamma != a && gamma != b && gamma != alpha && gamma != beta
    requires NonDegenerate(StepOf(a, p, b, alpha, beta, y))
    modifies a, p, b, gamma, xi
    ensures Reestimated(old(StepOf(a, p, b, alpha, beta, y)), ModelOf(a, p, b))
    ensures GammaTable(gamma, old(StepOf(a, p, b, alpha, beta, y)))
    ensures XiTable(xi, old(StepOf(a, p, b, alpha, beta, y)))
  {
    ghost var e := StepOf(a, p, b, alpha, beta, y);
    StepCells(a, p, b, alpha, beta, y);
    var evidence := SumEvidence(alpha, beta, N, T, e);
    FillGamma(alpha, beta, gamma, evidence, N, T, e);
    FillXi(a, b, alpha, beta, xi, y, evidence, N, K, T, e);
    Reestimate(a, p, b, gamma, xi, y, N, K, T, e);
  }
}
