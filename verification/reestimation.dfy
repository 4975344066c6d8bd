/** What one re-estimation step computes, as functions of what it reads: the
    evidence, the posteriors gamma and xi, and the new p, a and b; and why the
    new parameters are probability distributions again. */
module Reestimation {
  import opened Sums
  import opened Flat
  import opened Recurrences

  /** The inputs of one update: the current model, the observations (T = |y|),
      and the N x T forward and backward tables it is handed. */
  datatype EStep = EStep(m: Model, y: seq<int>, alpha: seq<real>, beta: seq<real>)

  /** Shapes the update needs; T >= 2 because the evidence is only assigned
      inside a loop over t = 1 .. T-1. */
  ghost predicate Ready(e: EStep)
  {
    Shaped(e.m, e.y) && |e.y| >= 2 && |e.alpha| == Idx(e.m.N, 0, |e.y|) && |e.beta| == Idx(e.m.N, 0, |e.y|)
  }

  /** alpha[s*T+t] of the table handed in */
  ghost function AlphaAt(e: EStep, s: int, t: int): real
    requires Ready(e) && 0 <= s < e.m.N && 0 <= t < |e.y|
  {
    IdxBelow(s, t, e.m.N, |e.y|);
    e.alpha[Idx(s, t, |e.y|)]
  }

  /** beta[s*T+t] of the table handed in */
  ghost function BetaAt(e: EStep, s: int, t: int): real
    requires Ready(e) && 0 <= s < e.m.N && 0 <= t < |e.y|
  {
    IdxBelow(s, t, e.m.N, |e.y|);
    e.beta[Idx(s, t, |e.y|)]
  }

  /** The tables handed in are the forward and backward tables of the model. */
  ghost predicate Exact(e: EStep)
    requires Ready(e)
  {
    (forall s, t {:trigger AlphaAt(e, s, t)} :: 0 <= s < e.m.N && 0 <= t < |e.y| ==>
      AlphaAt(e, s, t) == Alpha(e.m, e.y, s, t)) &&
    (forall s, t {:trigger BetaAt(e, s, t)} :: 0 <= s < e.m.N && 0 <= t < |e.y| ==>
      BetaAt(e, s, t) == Beta(e.m, e.y, s, t))
  }

  /** s |-> alpha[s][t] * beta[s][t] of the tables handed in */
  ghost function Products(e: EStep, t: int): int -> real
    requires Ready(e) && 0 <= t < |e.y|
  {
    s => if 0 <= s < e.m.N then AlphaAt(e, s, t) * BetaAt(e, s, t) else 0.0
  }

  /** The evidence as the update computes it: read off at the single column
      T-2, the one the last pass of its t-loop leaves behind. */
  ghost function Evidence(e: EStep): real
    requires Ready(e)
  {
    Sum(e.m.N, Products(e, |e.y| - 2))
  }

  /** gamma[s][t] = alpha[s][t] * beta[s][t] / evidence */
  ghost function Gamma(e: EStep, s: int, t: int): real
    requires Ready(e) && Evidence(e) != 0.0 && 0 <= s < e.m.N && 0 <= t < |e.y|
  {
    AlphaAt(e, s, t) * BetaAt(e, s, t) / Evidence(e)
  }

  /** xi[t-1][s][j] = alpha[s][t-1] * a[s][j] * beta[j][t] * b[j][y[t]] / evidence, for 1 <= t < T */
  ghost function Xi(e: EStep, t: int, s: int, j: int): real
    requires Ready(e) && Evidence(e) != 0.0 && 1 <= t < |e.y| && 0 <= s < e.m.N && 0 <= j < e.m.N
  {
    AlphaAt(e, s, t - 1) * Trans(e.m, s, j) * BetaAt(e, j, t) * Emit(e.m, j, e.y[t]) / Evidence(e)
  }

  /** t |-> gamma[s][t] */
  ghost function GammaSeries(e: EStep, s: int): int -> real
    requires Ready(e) && Evidence(e) != 0.0 && 0 <= s < e.m.N
  {
    t => if 0 <= t < |e.y| then Gamma(e, s, t) else 0.0
  }

  /** s |-> gamma[s][t] */
  ghost function GammaColumn(e: EStep, t: int): int -> real
    requires Ready(e) && Evidence(e) != 0.0 && 0 <= t < |e.y|
  {
    s => if 0 <= s < e.m.N then Gamma(e, s, t) else 0.0
  }

  /** u |-> xi[u][s][j], for u = t - 1 in 0 .. T-2 */
  ghost function XiSeries(e: EStep, s: int, j: int): int -> real
    requires Ready(e) && Evidence(e) != 0.0 && 0 <= s < e.m.N && 0 <= j < e.m.N
  {
    u => if 0 <= u < |e.y| - 1 then Xi(e, u + 1, s, j) else 0.0
  }

  /** j |-> xi[t-1][s][j] */
  ghost function XiRow(e: EStep, t: int, s: int): int -> real
    requires Ready(e) && Evidence(e) != 0.0 && 1 <= t < |e.y| && 0 <= s < e.m.N
  {
    j => if 0 <= j < e.m.N then Xi(e, t, s, j) else 0.0
  }

  /** t |-> gamma[s][t] where y[t] == v, and 0 elsewhere */
  ghost function GammaWhere(e: EStep, s: int, v: int): int -> real
    requires Ready(e) && Evidence(e) != 0.0 && 0 <= s < e.m.N
  {
    t => if 0 <= t < |e.y| && e.y[t] == v then Gamma(e, s, t) else 0.0
  }

  /** sum of gamma[s][0 .. T-2]: expected visits to s that a transition leaves */
  ghost function VisitsBefore(e: EStep, s: int): real
    requires Ready(e) && Evidence(e) != 0.0 && 0 <= s < e.m.N
  {
    Sum(|e.y| - 1, GammaSeries(e, s))
  }

  /** sum of gamma[s][0 .. T-1]: expected visits to s */
  ghost function Visits(e: EStep, s: int): real
    requires Ready(e) && Evidence(e) != 0.0 && 0 <= s < e.m.N
  {
    Sum(|e.y|, GammaSeries(e, s))
  }

  /** The update divides by the evidence, by VisitsBefore (for a) and by
      Visits (for b). */
  ghost predicate NonDegenerate(e: EStep)
  {
    Ready(e) && Evidence(e) != 0.0 &&
    forall s :: 0 <= s < e.m.N ==> VisitsBefore(e, s) != 0.0 && Visits(e, s) != 0.0
  }

  /** new p[s] */
  ghost function NewP(e: EStep, s: int): real
    requires NonDegenerate(e) && 0 <= s < e.m.N
  {
    Gamma(e, s, 0)
  }

  /** new a[s][j]: expected s -> j transitions over expected visits to s before T-1 */
  ghost function NewA(e: EStep, s: int, j: int): real
    requires NonDegenerate(e) && 0 <= s < e.m.N && 0 <= j < e.m.N
  {
    Sum(|e.y| - 1, XiSeries(e, s, j)) / VisitsBefore(e, s)
  }

  /** new b[s][v]: expected emissions of v in s over expected visits to s */
  ghost function NewB(e: EStep, s: int, v: int): real
    requires NonDegenerate(e) && 0 <= s < e.m.N && 0 <= v < e.m.K
  {
    Sum(|e.y|, GammaWhere(e, s, v)) / Visits(e, s)
  }

  /** m2 holds exactly the re-estimated parameters. */
  ghost predicate Reestimated(e: EStep, m2: Model)
  {
    NonDegenerate(e) && WellFormed(m2) && m2.N == e.m.N && m2.K == e.m.K &&
    (forall s :: 0 <= s < m2.N ==> m2.p[s] == NewP(e, s)) &&
    (forall s, j :: 0 <= s < m2.N && 0 <= j < m2.N ==> Trans(m2, s, j) == NewA(e, s, j)) &&
    (forall s, v :: 0 <= s < m2.N && 0 <= v < m2.K ==> Emit(m2, s, v) == NewB(e, s, v))
  }

  /** On exact tables, the products handed in sum to the evidence at time t. */
  lemma ProductsExact(e: EStep, t: int)
    requires Ready(e) && Exact(e) && 0 <= t < |e.y|
    ensures Sum(e.m.N, Products(e, t)) == EvidenceAt(e.m, e.y, t)
  {
    forall s | 0 <= s < e.m.N
      ensures Products(e, t)(s) == Joint(e.m, e.y, t)(s)
    {
      assert AlphaAt(e, s, t) == Alpha(e.m, e.y, s, t);
      assert BetaAt(e, s, t) == Beta(e.m, e.y, s, t);
    }
    SumExt(e.m.N, Products(e, t), Joint(e.m, e.y, t));
  }

  /** On exact tables, the update's evidence is the likelihood of the observations. */
  lemma EvidenceIsLikelihood(e: EStep)
    requires Ready(e) && Exact(e)
    ensures Evidence(e) == Likelihood(e.m, e.y)
  {
    ProductsExact(e, |e.y| - 2);
    Consistency(e.m, e.y, |e.y| - 2);
  }

  lemma GammaIsScaled(e: EStep, t: int)
    requires Ready(e) && Evidence(e) != 0.0 && 0 <= t < |e.y|
    ensures forall s :: 0 <= s < e.m.N ==> GammaColumn(e, t)(s) == (1.0 / Evidence(e)) * Products(e, t)(s)
  {
    forall s | 0 <= s < e.m.N
      ensures GammaColumn(e, t)(s) == (1.0 / Evidence(e)) * Products(e, t)(s)
    {
      DivIsScale(AlphaAt(e, s, t) * BetaAt(e, s, t), Evidence(e));
    }
  }

  /** gamma[.][t] sums to the products at t over the evidence. */
  lemma GammaColumnScaled(e: EStep, t: int)
    requires Ready(e) && Evidence(e) != 0.0 && 0 <= t < |e.y|
    ensures Sum(e.m.N, GammaColumn(e, t)) == (1.0 / Evidence(e)) * Sum(e.m.N, Products(e, t))
  {
    GammaIsScaled(e, t);
    SumScale(e.m.N, 1.0 / Evidence(e), Products(e, t), GammaColumn(e, t));
  }

  /** On exact tables, the products at every time sum to the evidence the update uses. */
  lemma ProductsAreEvidence(e: EStep, t: int)
    requires Ready(e) && Exact(e) && 0 <= t < |e.y|
    ensures Sum(e.m.N, Products(e, t)) == Evidence(e)
  {
    ProductsExact(e, t);
    Consistency(e.m, e.y, t);
    EvidenceIsLikelihood(e);
  }

  lemma InverseScale(E: real, S: real, G: real)
    requires E != 0.0 && G == (1.0 / E) * S && S == E
    ensures G == 1.0
  {
  }

  /** gamma[.][t] sums to one whenever the products at t sum to the evidence. */
  lemma GammaColumnNormalised(e: EStep, t: int)
    requires Ready(e) && Evidence(e) != 0.0 && 0 <= t < |e.y|
    requires Sum(e.m.N, Products(e, t)) == Evidence(e)
    ensures Sum(e.m.N, GammaColumn(e, t)) == 1.0
  {
    GammaColumnScaled(e, t);
    InverseScale(Evidence(e), Sum(e.m.N, Products(e, t)), Sum(e.m.N, GammaColumn(e, t)));
  }

  /** On exact tables, gamma[.][t] is a distribution over states at every t. */
  lemma GammaColumnSum(e: EStep, t: int)
    requires Ready(e) && Exact(e) && Evidence(e) != 0.0 && 0 <= t < |e.y|
    ensures Sum(e.m.N, GammaColumn(e, t)) == 1.0
  {
    ProductsAreEvidence(e, t);
    GammaColumnNormalised(e, t);
  }

  lemma Rearrange(x: real, u: real, v: real, w: real, d: real)
    requires d != 0.0
    ensures x * u * v * w / d == (x / d) * (v * u * w)
  {
  }

  lemma ScaleIsDiv(x: real, d: real, y: real)
    requires d != 0.0
    ensures (x / d) * y == x * y / d
  {
  }

  /** j |-> beta[j][t] * a[s][j] * b[j][y[t]] read from the table handed in:
      the terms of the backward step that fills beta[s][t-1]. */
  ghost function TableOutflow(e: EStep, s: int, t: int): int -> real
    requires Ready(e) && 0 <= s < e.m.N && 1 <= t < |e.y|
  {
    j => if 0 <= j < e.m.N then BetaAt(e, j, t) * Trans(e.m, s, j) * Emit(e.m, j, e.y[t]) else 0.0
  }

  /** On exact tables, the backward table satisfies the backward recurrence. */
  lemma BackwardOnTable(e: EStep, s: int, t: int)
    requires Ready(e) && Exact(e) && 0 <= s < e.m.N && 1 <= t < |e.y|
    ensures BetaAt(e, s, t - 1) == Sum(e.m.N, TableOutflow(e, s, t))
  {
    forall j | 0 <= j < e.m.N
      ensures Outflow(e.m, e.y, s, t)(j) == TableOutflow(e, s, t)(j)
    {
      assert BetaAt(e, j, t) == Beta(e.m, e.y, j, t);
    }
    SumExt(e.m.N, Outflow(e.m, e.y, s, t), TableOutflow(e, s, t));
    assert BetaAt(e, s, t - 1) == Beta(e.m, e.y, s, t - 1);
  }

  /** alpha[s][t] / evidence: the factor gamma[s][t] and every xi out of s at
      time t + 1 share. */
  ghost function Share(e: EStep, s: int, t: int): real
    requires Ready(e) && Evidence(e) != 0.0 && 0 <= s < e.m.N && 0 <= t < |e.y|
  {
    AlphaAt(e, s, t) / Evidence(e)
  }

  /** xi[t-1][s][j] is alpha[s][t-1] / evidence times the term of the backward
      step at t that leads from s to j. */
  lemma XiTermScaled(e: EStep, t: int, s: int, j: int)
    requires Ready(e) && Evidence(e) != 0.0 && 1 <= t < |e.y| && 0 <= s < e.m.N && 0 <= j < e.m.N
    ensures XiRow(e, t, s)(j) == Share(e, s, t - 1) * TableOutflow(e, s, t)(j)
  {
    Rearrange(AlphaAt(e, s, t - 1), Trans(e.m, s, j), BetaAt(e, j, t), Emit(e.m, j, e.y[t]), Evidence(e));
  }

  /** Summing xi[t-1][s][.] over the target state takes the factor
      alpha[s][t-1] / evidence out of the backward step at t. */
  lemma XiRowSum(e: EStep, t: int, s: int)
    requires Ready(e) && Evidence(e) != 0.0 && 1 <= t < |e.y| && 0 <= s < e.m.N
    ensures Sum(e.m.N, XiRow(e, t, s)) == Share(e, s, t - 1) * Sum(e.m.N, TableOutflow(e, s, t))
  {
    forall j | 0 <= j < e.m.N
      ensures XiRow(e, t, s)(j) == Share(e, s, t - 1) * TableOutflow(e, s, t)(j)
    {
      XiTermScaled(e, t, s, j);
    }
    SumScale(e.m.N, Share(e, s, t - 1), TableOutflow(e, s, t), XiRow(e, t, s));
  }

  /** gamma[s][t] is alpha[s][t] / evidence times beta[s][t]. */
  lemma GammaSplit(e: EStep, s: int, t: int)
    requires Ready(e) && Evidence(e) != 0.0 && 0 <= s < e.m.N && 0 <= t < |e.y|
    ensures Gamma(e, s, t) == Share(e, s, t) * BetaAt(e, s, t)
  {
    ScaleIsDiv(AlphaAt(e, s, t), Evidence(e), BetaAt(e, s, t));
  }

  lemma SameScale(c: real, x: real, y: real, g: real, h: real)
    requires x == c * y && g == c * h && y == h
    ensures x == g
  {
  }

  /** On exact tables, summing xi[t-1][s][.] over the target state gives gamma[s][t-1]:
      this is the backward recurrence read at column t - 1. */
  lemma XiMarginal(e: EStep, t: int, s: int)
    requires Ready(e) && Evidence(e) != 0.0 && 1 <= t < |e.y| && 0 <= s < e.m.N
    requires BetaAt(e, s, t - 1) == Sum(e.m.N, TableOutflow(e, s, t))
    ensures Sum(e.m.N, XiRow(e, t, s)) == Gamma(e, s, t - 1)
  {
    XiRowSum(e, t, s);
    GammaSplit(e, s, t - 1);
    SameScale(Share(e, s, t - 1), Sum(e.m.N, XiRow(e, t, s)), Sum(e.m.N, TableOutflow(e, s, t)),
              Gamma(e, s, t - 1), BetaAt(e, s, t - 1));
  }

  /** j |-> new a[s][j] */
  ghost function NewARow(e: EStep, s: int): int -> real
    requires NonDegenerate(e) && 0 <= s < e.m.N
  {
    j => if 0 <= j < e.m.N then NewA(e, s, j) else 0.0
  }

  /** v |-> new b[s][v] */
  ghost function NewBRow(e: EStep, s: int): int -> real
    requires NonDegenerate(e) && 0 <= s < e.m.N
  {
    v => if 0 <= v < e.m.K then NewB(e, s, v) else 0.0
  }

  /** s |-> new p[s] */
  ghost function NewPrior(e: EStep): int -> real
    requires NonDegenerate(e)
  {
    s => if 0 <= s < e.m.N then NewP(e, s) else 0.0
  }

  /** j, u |-> xi[u][s][j] */
  ghost function XiGrid(e: EStep, s: int): int -> int -> real
    requires NonDegenerate(e) && 0 <= s < e.m.N
  {
    j => if 0 <= j < e.m.N then XiSeries(e, s, j) else (u => 0.0)
  }

  /** v, t |-> gamma[s][t] where y[t] == v */
  ghost function EmissionGrid(e: EStep, s: int): int -> int -> real
    requires NonDegenerate(e) && 0 <= s < e.m.N
  {
    v => if 0 <= v < e.m.K then GammaWhere(e, s, v) else (t => 0.0)
  }

  /** At every time u = t - 1 < T - 1, xi[u][s][.] sums to gamma[s][u]. */
  lemma XiGridColumn(e: EStep, s: int, u: int)
    requires NonDegenerate(e) && Exact(e) && 0 <= s < e.m.N && 0 <= u < |e.y| - 1
    ensures Sum(e.m.N, Transpose(XiGrid(e, s))(u)) == GammaSeries(e, s)(u)
  {
    BackwardOnTable(e, s, u + 1);
    XiMarginal(e, u + 1, s);
    forall j | 0 <= j < e.m.N
      ensures Transpose(XiGrid(e, s))(u)(j) == XiRow(e, u + 1, s)(j)
    {
    }
    SumExt(e.m.N, Transpose(XiGrid(e, s))(u), XiRow(e, u + 1, s));
  }

  /** On exact tables, xi[u][s][.] sums to gamma[s][u] at every u < T - 1. */
  lemma XiGridColumns(e: EStep, s: int)
    requires NonDegenerate(e) && Exact(e) && 0 <= s < e.m.N
    ensures forall u :: 0 <= u < |e.y| - 1 ==> Sum(e.m.N, Transpose(XiGrid(e, s))(u)) == GammaSeries(e, s)(u)
  {
    forall u | 0 <= u < |e.y| - 1
      ensures Sum(e.m.N, Transpose(XiGrid(e, s))(u)) == GammaSeries(e, s)(u)
    {
      XiGridColumn(e, s, u);
    }
  }

  /** Each re-estimated row of a sums to one whenever xi marginalises to gamma,
      which holds on exact tables (NewTransitionRowSum). */
  lemma TransitionRowRatio(e: EStep, s: int)
    requires NonDegenerate(e) && 0 <= s < e.m.N
    requires forall u :: 0 <= u < |e.y| - 1 ==> Sum(e.m.N, Transpose(XiGrid(e, s))(u)) == GammaSeries(e, s)(u)
    ensures Sum(e.m.N, NewARow(e, s)) == 1.0
  {
    RatioSum(e.m.N, |e.y| - 1, XiGrid(e, s), GammaSeries(e, s), NewARow(e, s), VisitsBefore(e, s));
  }

  /** On exact tables, each re-estimated row of a sums to one. */
  lemma NewTransitionRowSum(e: EStep, s: int)
    requires NonDegenerate(e) && Exact(e) && 0 <= s < e.m.N
    ensures Sum(e.m.N, NewARow(e, s)) == 1.0
  {
    XiGridColumns(e, s);
    TransitionRowRatio(e, s);
  }

  /** Every time t falls in exactly one bucket of the emission grid, v = y[t]. */
  lemma EmissionGridColumn(e: EStep, s: int, t: int)
    requires NonDegenerate(e) && 0 <= s < e.m.N && 0 <= t < |e.y|
    ensures Sum(e.m.K, Transpose(EmissionGrid(e, s))(t)) == GammaSeries(e, s)(t)
  {
    var g := Gamma(e, s, t);
    forall v | 0 <= v < e.m.K
      ensures Transpose(EmissionGrid(e, s))(t)(v) == (if v == e.y[t] then g else 0.0)
    {
    }
    SumIndicator(e.m.K, e.y[t], g, Transpose(EmissionGrid(e, s))(t));
  }

  /** Each re-estimated row of b sums to one, because the sets {t | y[t] == v}
      partition the times. This holds for any tables the update is handed. */
  lemma NewEmissionRowSum(e: EStep, s: int)
    requires NonDegenerate(e) && 0 <= s < e.m.N
    ensures Sum(e.m.K, NewBRow(e, s)) == 1.0
  {
    var H := EmissionGrid(e, s);
    forall t | 0 <= t < |e.y|
      ensures Sum(e.m.K, Transpose(H)(t)) == GammaSeries(e, s)(t)
    {
      EmissionGridColumn(e, s, t);
    }
    RatioSum(e.m.K, |e.y|, H, GammaSeries(e, s), NewBRow(e, s), Visits(e, s));
  }

  /** On exact tables, the re-estimated p sums to one. */
  lemma NewPriorSum(e: EStep)
    requires NonDegenerate(e) && Exact(e)
    ensures Sum(e.m.N, NewPrior(e)) == 1.0
  {
    GammaColumnSum(e, 0);
    SumExt(e.m.N, NewPrior(e), GammaColumn(e, 0));
  }

  /** Row-stochasticity after the update: the re-estimated p, a and b are distributions. */
  lemma ReestimatedStochastic(e: EStep, m2: Model)
    requires Reestimated(e, m2) && Exact(e)
    ensures Stochastic(m2)
  {
    NewPriorSum(e);
    SumExt(m2.N, Prior(m2), NewPrior(e));
    forall s | 0 <= s < m2.N
      ensures Sum(m2.N, TransRow(m2, s)) == 1.0 && Sum(m2.K, EmitRow(m2, s)) == 1.0
    {
      NewTransitionRowSum(e, s);
      SumExt(m2.N, TransRow(m2, s), NewARow(e, s));
      NewEmissionRowSum(e, s);
      SumExt(m2.K, EmitRow(m2, s), NewBRow(e, s));
    }
  }

  lemma DivPositive(x: real, d: real)
    requires x > 0.0 && d > 0.0
    ensures x / d > 0.0
  {
  }

  /** Every entry of both tables handed in is positive. */
  ghost predicate TablesPositive(e: EStep)
    requires Ready(e)
  {
    forall s, t :: 0 <= s < e.m.N && 0 <= t < |e.y| ==> AlphaAt(e, s, t) > 0.0 && BetaAt(e, s, t) > 0.0
  }

  /** Exact tables of a positive model are positive. */
  lemma ExactTablesPositive(e: EStep)
    requires Ready(e) && Exact(e) && Positive(e.m, e.y)
    ensures TablesPositive(e)
  {
    forall s, t | 0 <= s < e.m.N && 0 <= t < |e.y|
      ensures AlphaAt(e, s, t) > 0.0 && BetaAt(e, s, t) > 0.0
    {
      AlphaPositive(e.m, e.y, s, t);
      BetaPositive(e.m, e.y, s, t);
    }
  }

  /** With at least one state and positive tables, the evidence is positive. */
  lemma EvidencePositive(e: EStep)
    requires Ready(e) && TablesPositive(e) && e.m.N >= 1
    ensures Evidence(e) > 0.0
  {
    var t := |e.y| - 2;
    forall s | 0 <= s < e.m.N
      ensures Products(e, t)(s) > 0.0
    {
      MulPositive(AlphaAt(e, s, t), BetaAt(e, s, t));
    }
    SumPositive(e.m.N, Products(e, t));
  }

  lemma GammaPositive(e: EStep, s: int, t: int)
    requires Ready(e) && TablesPositive(e) && Evidence(e) > 0.0 && 0 <= s < e.m.N && 0 <= t < |e.y|
    ensures Gamma(e, s, t) > 0.0
  {
    MulPositive(AlphaAt(e, s, t), BetaAt(e, s, t));
    DivPositive(AlphaAt(e, s, t) * BetaAt(e, s, t), Evidence(e));
  }

  /** Positive tables leave nothing the update divides by at zero. */
  lemma PositiveNonDegenerate(e: EStep)
    requires Ready(e) && TablesPositive(e) && e.m.N >= 1
    ensures NonDegenerate(e) && Evidence(e) > 0.0
    ensures forall s :: 0 <= s < e.m.N ==> VisitsBefore(e, s) > 0.0 && Visits(e, s) > 0.0
  {
    EvidencePositive(e);
    forall s | 0 <= s < e.m.N
      ensures VisitsBefore(e, s) > 0.0 && Visits(e, s) > 0.0
    {
      forall t | 0 <= t < |e.y|
        ensures GammaSeries(e, s)(t) > 0.0
      {
        GammaPositive(e, s, t);
      }
      SumPositive(|e.y| - 1, GammaSeries(e, s));
      SumPositive(|e.y|, GammaSeries(e, s));
    }
  }

  lemma XiPositive(e: EStep, t: int, s: int, j: int)
    requires Ready(e) && TablesPositive(e) && Positive(e.m, e.y) && Evidence(e) > 0.0
    requires 1 <= t < |e.y| && 0 <= s < e.m.N && 0 <= j < e.m.N
    ensures Xi(e, t, s, j) > 0.0
  {
    var x, u, v, w := AlphaAt(e, s, t - 1), Trans(e.m, s, j), BetaAt(e, j, t), Emit(e.m, j, e.y[t]);
    MulPositive(x, u);
    MulPositive(x * u, v);
    MulPositive(x * u * v, w);
    DivPositive(x * u * v * w, Evidence(e));
  }

  /** Every re-estimated transition is positive. */
  lemma NewAPositive(e: EStep, s: int, j: int)
    requires Ready(e) && TablesPositive(e) && Positive(e.m, e.y) && e.m.N >= 1
    requires 0 <= s < e.m.N && 0 <= j < e.m.N
    ensures NonDegenerate(e) && NewA(e, s, j) > 0.0
  {
    PositiveNonDegenerate(e);
    forall u | 0 <= u < |e.y| - 1
      ensures XiSeries(e, s, j)(u) > 0.0
    {
      XiPositive(e, u + 1, s, j);
    }
    SumPositive(|e.y| - 1, XiSeries(e, s, j));
    DivPositive(Sum(|e.y| - 1, XiSeries(e, s, j)), VisitsBefore(e, s));
  }

  /** The re-estimated emission of every observed symbol is positive. */
  lemma NewBPositive(e: EStep, s: int, t: int)
    requires Ready(e) && TablesPositive(e) && e.m.N >= 1 && 0 <= s < e.m.N && 0 <= t < |e.y|
    ensures NonDegenerate(e) && NewB(e, s, e.y[t]) > 0.0
  {
    PositiveNonDegenerate(e);
    var w := GammaWhere(e, s, e.y[t]);
    forall u | 0 <= u < |e.y|
      ensures w(u) >= 0.0
    {
      GammaPositive(e, s, u);
    }
    GammaPositive(e, s, t);
    SumPositiveSome(|e.y|, w, t);
    DivPositive(Sum(|e.y|, w), Visits(e, s));
  }

  /** Re-estimation keeps the model positive: new p, new a, and the new emission
      of every observed symbol stay above zero. */
  lemma ReestimatedPositive(e: EStep, m2: Model)
    requires Reestimated(e, m2) && TablesPositive(e) && Positive(e.m, e.y) && e.m.N >= 1
    ensures Shaped(m2, e.y) && Positive(m2, e.y)
  {
    forall s | 0 <= s < m2.N
      ensures m2.p[s] > 0.0
    {
      PositiveNonDegenerate(e);
      GammaPositive(e, s, 0);
    }
    forall s, j | 0 <= s < m2.N && 0 <= j < m2.N
      ensures Trans(m2, s, j) > 0.0
    {
      NewAPositive(e, s, j);
    }
    forall s, t | 0 <= s < m2.N && 0 <= t < |e.y|
      ensures Emit(m2, s, e.y[t]) > 0.0
    {
      NewBPositive(e, s, t);
    }
  }
}
