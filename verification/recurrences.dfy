/** The forward and backward recurrences of a discrete HMM over exact reals,
    and the facts about them that the re-estimation step relies on. */
module Recurrences {
  import opened Sums
  import opened Flat

  /** The parameters as the trainer stores them, row-major:
      a is N x N (a[i*N+j]: state i to state j), p has N entries,
      b is N x K (b[s*K+v]: state s emits symbol v). */
  datatype Model = Model(N: nat, K: nat, a: seq<real>, p: seq<real>, b: seq<real>)

  ghost predicate WellFormed(m: Model)
  {
    |m.a| == m.N * m.N && |m.p| == m.N && |m.b| == m.N * m.K
  }

  /** Every observation is a symbol in [0, K). */
  ghost predicate ValidObservations(y: seq<int>, K: int)
  {
    forall t :: 0 <= t < |y| ==> 0 <= y[t] < K
  }

  /** A model and a non-empty observation sequence T = |y| that fit together. */
  ghost predicate Shaped(m: Model, y: seq<int>)
  {
    WellFormed(m) && ValidObservations(y, m.K) && |y| >= 1
  }

  /** a[i][j] */
  ghost function Trans(m: Model, i: int, j: int): real
    requires WellFormed(m) && 0 <= i < m.N && 0 <= j < m.N
  {
    IdxInRange(i, j, m.N, m.N);
    m.a[Idx(i, j, m.N)]
  }

  /** b[s][v] */
  ghost function Emit(m: Model, s: int, v: int): real
    requires WellFormed(m) && 0 <= s < m.N && 0 <= v < m.K
  {
    IdxInRange(s, v, m.N, m.K);
    m.b[Idx(s, v, m.K)]
  }

  /** alpha[s][t]: probability of y[0..t] and of being in state s at time t. */
  ghost function Alpha(m: Model, y: seq<int>, s: int, t: int): real
    requires Shaped(m, y) && 0 <= s < m.N && 0 <= t < |y|
    decreases t, 2
  {
    if t == 0 then m.p[s] * Emit(m, s, y[0])
    else Sum(m.N, Inflow(m, y, s, t)) * Emit(m, s, y[t])
  }

  /** The terms of the forward step into state s at time t >= 1:
      j |-> alpha[j][t-1] * a[j][s]. */
  ghost function Inflow(m: Model, y: seq<int>, s: int, t: int): int -> real
    requires Shaped(m, y) && 0 <= s < m.N && 1 <= t < |y|
    decreases t, 1
  {
    j => InTerm(m, y, s, t, j)
  }

  ghost function InTerm(m: Model, y: seq<int>, s: int, t: int, j: int): real
    requires Shaped(m, y) && 0 <= s < m.N && 1 <= t < |y|
    decreases t, 0
  {
    if 0 <= j < m.N then Alpha(m, y, j, t - 1) * Trans(m, j, s) else 0.0
  }

  /** beta[s][t]: probability of y[t+1..] given state s at time t; 1 in the last column. */
  ghost function Beta(m: Model, y: seq<int>, s: int, t: int): real
    requires Shaped(m, y) && 0 <= s < m.N && 0 <= t < |y|
    decreases |y| - t, 0
  {
    if t == |y| - 1 then 1.0 else Sum(m.N, Outflow(m, y, s, t + 1))
  }

  /** The terms of the backward step that fills beta[s][t-1] from column t >= 1:
      j |-> beta[j][t] * a[s][j] * b[j][y[t]]. */
  ghost function Outflow(m: Model, y: seq<int>, s: int, t: int): int -> real
    requires Shaped(m, y) && 0 <= s < m.N && 1 <= t < |y|
    decreases |y| - t, 2
  {
    j => OutTerm(m, y, s, t, j)
  }

  ghost function OutTerm(m: Model, y: seq<int>, s: int, t: int, j: int): real
    requires Shaped(m, y) && 0 <= s < m.N && 1 <= t < |y|
    decreases |y| - t, 1
  {
    if 0 <= j < m.N then Beta(m, y, j, t) * Trans(m, s, j) * Emit(m, j, y[t]) else 0.0
  }

  /** The backward table reads a and b only: two models that differ only in
      their initial distribution have the same beta. */
  lemma {:induction false} BetaIgnoresPrior(m: Model, m': Model, y: seq<int>, s: int, t: int)
    requires Shaped(m, y) && Shaped(m', y) && m'.N == m.N && m'.K == m.K && m'.a == m.a && m'.b == m.b
    requires 0 <= s < m.N && 0 <= t < |y|
    ensures Beta(m, y, s, t) == Beta(m', y, s, t)
    decreases |y| - t
  {
    if t < |y| - 1 {
      var out, out' := Outflow(m, y, s, t + 1), Outflow(m', y, s, t + 1);
      forall j | 0 <= j < m.N
        ensures out(j) == out'(j)
      {
        BetaIgnoresPrior(m, m', y, j, t + 1);
        assert out(j) == OutTerm(m, y, s, t + 1, j) == Beta(m, y, j, t + 1) * Trans(m, s, j) * Emit(m, j, y[t + 1]);
        assert out'(j) == OutTerm(m', y, s, t + 1, j) == Beta(m', y, j, t + 1) * Trans(m', s, j) * Emit(m', j, y[t + 1]);
      }
      SumExt(m.N, out, out');
    }
  }

  /** s |-> alpha[s][t] * beta[s][t] */
  ghost function Joint(m: Model, y: seq<int>, t: int): int -> real
    requires Shaped(m, y) && 0 <= t < |y|
  {
    s => if 0 <= s < m.N then Alpha(m, y, s, t) * Beta(m, y, s, t) else 0.0
  }

  /** The evidence read off at time t: the sum over s of alpha[s][t] * beta[s][t]. */
  ghost function EvidenceAt(m: Model, y: seq<int>, t: int): real
    requires Shaped(m, y) && 0 <= t < |y|
  {
    Sum(m.N, Joint(m, y, t))
  }

  /** s |-> alpha[s][T-1] */
  ghost function FinalAlpha(m: Model, y: seq<int>): int -> real
    requires Shaped(m, y)
  {
    s => if 0 <= s < m.N then Alpha(m, y, s, |y| - 1) else 0.0
  }

  /** P(y | model): the sum of the last forward column. */
  ghost function Likelihood(m: Model, y: seq<int>): real
    requires Shaped(m, y)
  {
    Sum(m.N, FinalAlpha(m, y))
  }

  /** The double-sum terms linking time t and t + 1:
      s, j |-> alpha[s][t] * beta[j][t+1] * a[s][j] * b[j][y[t+1]]. */
  ghost function Flow(m: Model, y: seq<int>, t: int): int -> int -> real
    requires Shaped(m, y) && 0 <= t < |y| - 1
  {
    s => j => if 0 <= s < m.N then Alpha(m, y, s, t) * OutTerm(m, y, s, t + 1, j) else 0.0
  }

  /** Row s of Flow(t) sums to alpha[s][t] * beta[s][t] (the backward recurrence). */
  lemma FlowRow(m: Model, y: seq<int>, t: int, s: int)
    requires Shaped(m, y) && 0 <= t < |y| - 1 && 0 <= s < m.N
    ensures RowSums(Flow(m, y, t), m.N)(s) == Joint(m, y, t)(s)
  {
    var row := Flow(m, y, t)(s);
    var out := Outflow(m, y, s, t + 1);
    var x := Alpha(m, y, s, t);
    forall j | 0 <= j < m.N
      ensures row(j) == x * out(j)
    {
      assert row(j) == x * OutTerm(m, y, s, t + 1, j);
      assert out(j) == OutTerm(m, y, s, t + 1, j);
    }
    SumScale(m.N, x, out, row);
    calc {
      RowSums(Flow(m, y, t), m.N)(s);
      Sum(m.N, row);
      x * Sum(m.N, out);
      { assert Beta(m, y, s, t) == Sum(m.N, out); }
      x * Beta(m, y, s, t);
      Joint(m, y, t)(s);
    }
  }

  lemma Regroup(x: real, b: real, u: real, w: real)
    ensures x * (b * u * w) == (b * w) * (x * u)
  {
  }

  /** One cell of Flow(t), read down column j, is a term of the forward step into j. */
  lemma FlowCell(m: Model, y: seq<int>, t: int, s: int, j: int)
    requires Shaped(m, y) && 0 <= t < |y| - 1 && 0 <= s < m.N && 0 <= j < m.N
    ensures Transpose(Flow(m, y, t))(j)(s) == (Beta(m, y, j, t + 1) * Emit(m, j, y[t + 1])) * Inflow(m, y, j, t + 1)(s)
  {
    assert Transpose(Flow(m, y, t))(j)(s) == Alpha(m, y, s, t) * OutTerm(m, y, s, t + 1, j);
    assert OutTerm(m, y, s, t + 1, j) == Beta(m, y, j, t + 1) * Trans(m, s, j) * Emit(m, j, y[t + 1]);
    assert Inflow(m, y, j, t + 1)(s) == InTerm(m, y, j, t + 1, s) == Alpha(m, y, s, t) * Trans(m, s, j);
    Regroup(Alpha(m, y, s, t), Beta(m, y, j, t + 1), Trans(m, s, j), Emit(m, j, y[t + 1]));
  }

  /** Column j of Flow(t) sums to alpha[j][t+1] * beta[j][t+1] (the forward recurrence). */
  lemma FlowColumn(m: Model, y: seq<int>, t: int, j: int)
    requires Shaped(m, y) && 0 <= t < |y| - 1 && 0 <= j < m.N
    ensures RowSums(Transpose(Flow(m, y, t)), m.N)(j) == Joint(m, y, t + 1)(j)
  {
    var F := Flow(m, y, t);
    var inflow := Inflow(m, y, j, t + 1);
    var c := Beta(m, y, j, t + 1) * Emit(m, j, y[t + 1]);
    forall s | 0 <= s < m.N
      ensures Transpose(F)(j)(s) == c * inflow(s)
    {
      FlowCell(m, y, t, s, j);
    }
    SumScale(m.N, c, inflow, Transpose(F)(j));
  }

  /** Forward/backward consistency: the evidence does not depend on the time it is read at. */
  lemma {:induction false} ConsistencyStep(m: Model, y: seq<int>, t: int)
    requires Shaped(m, y) && 0 <= t < |y| - 1
    ensures EvidenceAt(m, y, t) == EvidenceAt(m, y, t + 1)
  {
    var F := Flow(m, y, t);
    forall s | 0 <= s < m.N
      ensures Joint(m, y, t)(s) == RowSums(F, m.N)(s)
    {
      FlowRow(m, y, t, s);
    }
    SumExt(m.N, Joint(m, y, t), RowSums(F, m.N));
    SumSwap(m.N, m.N, F);
    forall j | 0 <= j < m.N
      ensures RowSums(Transpose(F), m.N)(j) == Joint(m, y, t + 1)(j)
    {
      FlowColumn(m, y, t, j);
    }
    SumExt(m.N, RowSums(Transpose(F), m.N), Joint(m, y, t + 1));
  }

  /** The evidence at every time equals the likelihood, the sum of the last forward column. */
  lemma {:induction false} Consistency(m: Model, y: seq<int>, t: int)
    requires Shaped(m, y) && 0 <= t < |y|
    ensures EvidenceAt(m, y, t) == Likelihood(m, y)
    decreases |y| - t
  {
    if t == |y| - 1 {
      SumExt(m.N, Joint(m, y, t), FinalAlpha(m, y));
    } else {
      ConsistencyStep(m, y, t);
      Consistency(m, y, t + 1);
    }
  }

  /** All of p, all of a, and every emission of an observed symbol are positive. */
  ghost predicate Positive(m: Model, y: seq<int>)
    requires Shaped(m, y)
  {
    (forall s :: 0 <= s < m.N ==> m.p[s] > 0.0) &&
    (forall i, j :: 0 <= i < m.N && 0 <= j < m.N ==> Trans(m, i, j) > 0.0) &&
    (forall s, t :: 0 <= s < m.N && 0 <= t < |y| ==> Emit(m, s, y[t]) > 0.0)
  }

  lemma MulPositive(x: real, y: real)
    requires x > 0.0 && y > 0.0
    ensures x * y > 0.0
  {
  }

  lemma {:induction false} AlphaPositive(m: Model, y: seq<int>, s: int, t: int)
    requires Shaped(m, y) && Positive(m, y) && 0 <= s < m.N && 0 <= t < |y|
    ensures Alpha(m, y, s, t) > 0.0
    decreases t
  {
    if t > 0 {
      forall j | 0 <= j < m.N
        ensures Inflow(m, y, s, t)(j) > 0.0
      {
        AlphaPositive(m, y, j, t - 1);
      }
      SumPositive(m.N, Inflow(m, y, s, t));
    }
  }

  lemma {:induction false} BetaPositive(m: Model, y: seq<int>, s: int, t: int)
    requires Shaped(m, y) && Positive(m, y) && 0 <= s < m.N && 0 <= t < |y|
    ensures Beta(m, y, s, t) > 0.0
    decreases |y| - t
  {
    if t < |y| - 1 {
      var out := Outflow(m, y, s, t + 1);
      forall j | 0 <= j < m.N
        ensures out(j) > 0.0
      {
        BetaPositive(m, y, j, t + 1);
        assert out(j) == OutTerm(m, y, s, t + 1, j) == Beta(m, y, j, t + 1) * Trans(m, s, j) * Emit(m, j, y[t + 1]);
        MulPositive(Beta(m, y, j, t + 1), Trans(m, s, j));
        MulPositive(Beta(m, y, j, t + 1) * Trans(m, s, j), Emit(m, j, y[t + 1]));
      }
      SumPositive(m.N, out);
    }
  }

  /** s |-> p[s] */
  ghost function Prior(m: Model): int -> real
    requires WellFormed(m)
  {
    s => if 0 <= s < m.N then m.p[s] else 0.0
  }

  /** j |-> a[s][j] */
  ghost function TransRow(m: Model, s: int): int -> real
    requires WellFormed(m) && 0 <= s < m.N
  {
    j => if 0 <= j < m.N then Trans(m, s, j) else 0.0
  }

  /** v |-> b[s][v] */
  ghost function EmitRow(m: Model, s: int): int -> real
    requires WellFormed(m) && 0 <= s < m.N
  {
    v => if 0 <= v < m.K then Emit(m, s, v) else 0.0
  }

  /** p, every row of a and every row of b sum to one. */
  ghost predicate Stochastic(m: Model)
    requires WellFormed(m)
  {
    Sum(m.N, Prior(m)) == 1.0 &&
    (forall s :: 0 <= s < m.N ==> Sum(m.N, TransRow(m, s)) == 1.0 && Sum(m.K, EmitRow(m, s)) == 1.0)
  }
}
