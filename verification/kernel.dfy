/** The forward and backward passes of the training kernel. Each works in
    place on the trainer's buffers and is proved against the recurrences of
    Recurrences; the update is in ParameterUpdate and the training loop in
    Training.

    The C code keeps every table in a flat row-major buffer (alpha[s*T+t],
    a[i*N+j], b[s*K+v], xi[((t-1)*N+s)*N+j]); here each buffer is a 2-D (or,
    for xi, 3-D) array indexed by the same pairs (or triples), and
    Flat.Flatten is the row-major buffer a 2-D array stands for. Flat.XiLayout
    shows that the xi offsets are the layout applied twice. */
module Kernel {
  import opened Sums
  import opened Flat
  import opened Recurrences

  /** The model held by the transition matrix a, the initial distribution p
      and the emission matrix b. */
  ghost function ModelOf(a: array2<real>, p: array<real>, b: array2<real>): Model
    reads a, p, b
  {
    Model(a.Length0, b.Length1, Flatten(a), p[..], Flatten(b))
  }

  /** a and b store the transitions and emissions of m, cell by cell. */
  ghost predicate Stores(a: array2<real>, b: array2<real>, m: Model)
    reads a, b
  {
    WellFormed(m) && a.Length0 == m.N && a.Length1 == m.N && b.Length0 == m.N && b.Length1 == m.K &&
    (forall i, j :: 0 <= i < m.N && 0 <= j < m.N ==> Trans(m, i, j) == a[i, j]) &&
    (forall s, v :: 0 <= s < m.N && 0 <= v < m.K ==> Emit(m, s, v) == b[s, v])
  }

  /** Reading the model's parameters is reading the buffers. */
  lemma ModelCells(a: array2<real>, p: array<real>, b: array2<real>)
    requires a.Length0 == a.Length1 == p.Length == b.Length0
    ensures Stores(a, b, ModelOf(a, p, b))
  {
    var m := ModelOf(a, p, b);
    if 0 < a.Length0 {
      FlattenAt(a, 0, 0);
      if 0 < b.Length1 {
        FlattenAt(b, 0, 0);
      } else {
        RowsLength(b, b.Length0);
        IdxIsOffset(b.Length0, 0, b.Length1);
      }
    } else {
      RowsLength(a, 0);
      RowsLength(b, 0);
    }
    forall i, j | 0 <= i < a.Length0 && 0 <= j < a.Length0
      ensures Trans(m, i, j) == a[i, j]
    {
      FlattenAt(a, i, j);
    }
    forall s, v | 0 <= s < a.Length0 && 0 <= v < b.Length1
      ensures Emit(m, s, v) == b[s, v]
    {
      FlattenAt(b, s, v);
    }
  }

  /** The cells forward has filled before it reaches (s, t) hold the forward
      values of m: every column before t, and rows 0 .. s-1 of column t. */
  ghost predicate ForwardFilled(alpha: array2<real>, m: Model, y: seq<int>, t: int, s: int)
    reads alpha
  {
    Shaped(m, y) && alpha.Length0 == m.N && alpha.Length1 == |y| &&
    forall i, k :: 0 <= i < m.N && 0 <= k < |y| && (k < t || (k == t && i < s)) ==> alpha[i, k] == Alpha(m, y, i, k)
  }

  /** Every cell alpha[s][t] holds alpha_s(t) of m. */
  ghost predicate AlphaTable(alpha: array2<real>, m: Model, y: seq<int>)
    reads alpha
  {
    ForwardFilled(alpha, m, y, |y|, 0)
  }

  /** The products forward accumulates into (s, t), t >= 1, are the terms of
      the forward step, once column t-1 is filled. */
  lemma ForwardTerms(alpha: array2<real>, a: array2<real>, b: array2<real>, m: Model, y: seq<int>, t: int, s: int)
    requires ForwardFilled(alpha, m, y, t, s) && Stores(a, b, m) && 1 <= t < |y| && 0 <= s < m.N
    ensures forall j :: 0 <= j < m.N ==> Inflow(m, y, s, t)(j) == alpha[j, t - 1] * a[j, s]
  {
  }

  /** The forward recurrence for t >= 1, as forward evaluates it. */
  lemma ForwardStep(m: Model, y: seq<int>, s: int, t: int, v: real)
    requires Shaped(m, y) && 0 <= s < m.N && 1 <= t < |y|
    requires v == Sum(m.N, Inflow(m, y, s, t)) * Emit(m, s, y[t])
    ensures v == Alpha(m, y, s, t)
  {
  }

  /** A column filled in every row is the next column reached. */
  lemma ForwardNextColumn(alpha: array2<real>, m: Model, y: seq<int>, t: int)
    requires ForwardFilled(alpha, m, y, t, m.N)
    ensures ForwardFilled(alpha, m, y, t + 1, 0)
  {
  }

  /** The body of forward's loop over s for t >= 1: alpha[s][t] is cleared,
      accumulates alpha[j][t-1] * a[j][s] over every state j, and is scaled by
      b[s][y[t]]. When those products are the terms of the forward step of m,
      the cell ends up as alpha_s(t); no other cell changes. */
  method ForwardCell(a: array2<real>, b: array2<real>, alpha: array2<real>, y: seq<int>, N: nat, K: nat, T: nat, s: nat, t: nat,
                     ghost m: Model)
    requires a.Length0 == N && a.Length1 == N && b.Length0 == N && b.Length1 == K && alpha.Length0 == N && alpha.Length1 == T
    requires Shaped(m, y) && m.N == N && m.K == K
    requires s < N && 1 <= t < T && |y| == T
    requires alpha != a && alpha != b
    requires Emit(m, s, y[t]) == b[s, y[t]]
    requires forall j :: 0 <= j < N ==> Inflow(m, y, s, t)(j) == alpha[j, t - 1] * a[j, s]
    modifies alpha
    ensures alpha[s, t] == Alpha(m, y, s, t)
    ensures forall i, k :: 0 <= i < N && 0 <= k < T && (i != s || k != t) ==> alpha[i, k] == old(alpha[i, k])
  {
    ghost var inflow := Inflow(m, y, s, t);
    alpha[s, t] := 0.0;
    for j := 0 to N
      invariant alpha[s, t] == Sum(j, inflow)
      invariant forall i, k :: 0 <= i < N && 0 <= k < T && (i != s || k != t) ==> alpha[i, k] == old(alpha[i, k])
    {
      alpha[s, t] := alpha[s, t] + alpha[j, t - 1] * a[j, s];
    }
    alpha[s, t] := alpha[s, t] * b[s, y[t]];
    ForwardStep(m, y, s, t, alpha[s, t]);
  }

  /** forward's first loop: alpha[s][0] = p[s] * b[s][y[0]] for every state s. */
  method ForwardFirstColumn(p: array<real>, b: array2<real>, alpha: array2<real>, y: seq<int>, N: nat, K: nat, T: nat,
                            ghost m: Model)
    requires Shaped(m, y) && m.N == N && m.K == K && |y| == T && m.p == p[..]
    requires b.Length0 == N && b.Length1 == K && alpha.Length0 == N && alpha.Length1 == T && alpha != b
    requires forall s :: 0 <= s < N ==> Emit(m, s, y[0]) == b[s, y[0]]
    modifies alpha
    ensures ForwardFilled(alpha, m, y, 1, 0)
  {
    for s := 0 to N
      invariant ForwardFilled(alpha, m, y, 0, s)
    {
      alpha[s, 0] := p[s] * b[s, y[0]];
    }
    ForwardNextColumn(alpha, m, y, 0);
  }

  /** One pass of forward's loop over t >= 1: column t is filled from column t-1. */
  method ForwardColumn(a: array2<real>, b: array2<real>, alpha: array2<real>, y: seq<int>, N: nat, K: nat, T: nat, t: nat,
                       ghost m: Model)
    requires Stores(a, b, m) && ForwardFilled(alpha, m, y, t, 0) && m.N == N && m.K == K
    requires 1 <= t < T && |y| == T && alpha != a && alpha != b
    modifies alpha
    ensures ForwardFilled(alpha, m, y, t + 1, 0)
  {
    for s := 0 to N
      invariant ForwardFilled(alpha, m, y, t, s)
    {
      ForwardTerms(alpha, a, b, m, y, t, s);
      ForwardCell(a, b, alpha, y, N, K, T, s, t, m);
    }
    ForwardNextColumn(alpha, m, y, t);
  }

  /** forward: alpha[s][t] becomes alpha_s(t) of the model in a, p, b, for
      every state s and time t; only alpha is written. */
  method Forward(a: array2<real>, p: array<real>, b: array2<real>, alpha: array2<real>, y: seq<int>, N: nat, K: nat, T: nat)
    requires a.Length0 == N && a.Length1 == N && p.Length == N && b.Length0 == N && b.Length1 == K
    requires alpha.Length0 == N && alpha.Length1 == T
    requires T == |y| && T >= 1 && ValidObservations(y, K)
    requires alpha != a && alpha != b
    modifies alpha
    ensures AlphaTable(alpha, ModelOf(a, p, b), y)
  {
    ghost var m := ModelOf(a, p, b);
    ModelCells(a, p, b);
    ForwardFirstColumn(p, b, alpha, y, N, K, T, m);
    for t := 1 to T
      invariant ForwardFilled(alpha, m, y, t, 0)
    {
      ForwardColumn(a, b, alpha, y, N, K, T, t, m);
    }
  }

  /** The cells backward has filled before it reaches (s, c) hold the backward
      values of m: every column after c, and rows 0 .. s-1 of column c. */
  ghost predicate BackwardFilled(beta: array2<real>, m: Model, y: seq<int>, c: int, s: int)
    reads beta
  {
    Shaped(m, y) && beta.Length0 == m.N && beta.Length1 == |y| &&
    forall i, k :: 0 <= i < m.N && 0 <= k < |y| && (k > c || (k == c && i < s)) ==> beta[i, k] == Beta(m, y, i, k)
  }

  /** Every cell beta[s][t] holds beta_s(t) of m. */
  ghost predicate BetaTable(beta: array2<real>, m: Model, y: seq<int>)
    reads beta
  {
    BackwardFilled(beta, m, y, -1, 0)
  }

  /** The products backward accumulates into (s, t-1), 1 <= t < T, are the
      terms of the backward step, once column t is filled. */
  lemma BackwardTerms(beta: array2<real>, a: array2<real>, b: array2<real>, m: Model, y: seq<int>, t: int, s: int)
    requires BackwardFilled(beta, m, y, t - 1, s) && Stores(a, b, m) && 1 <= t < |y| && 0 <= s < m.N
    ensures forall j :: 0 <= j < m.N ==> Outflow(m, y, s, t)(j) == beta[j, t] * a[s, j] * b[j, y[t]]
  {
  }

  /** The backward recurrence, as backward evaluates it: the sum of the
      terms from column t is beta_s(t-1). */
  lemma BackwardStep(m: Model, y: seq<int>, s: int, t: int, v: real)
    requires Shaped(m, y) && 0 <= s < m.N && 1 <= t < |y|
    requires v == Sum(m.N, Outflow(m, y, s, t))
    ensures v == Beta(m, y, s, t - 1)
  {
  }

  /** A column filled in every row is the previous column reached. */
  lemma BackwardPreviousColumn(beta: array2<real>, m: Model, y: seq<int>, c: int)
    requires BackwardFilled(beta, m, y, c, m.N)
    ensures BackwardFilled(beta, m, y, c - 1, 0)
  {
  }

  /** The body of backward's loop over s: beta[s][t-1] is cleared and
      accumulates beta[j][t] * a[s][j] * b[j][y[t]] over every state j. When
      those products are the terms of the backward step of m, the cell ends
      up as beta_s(t-1); no other cell changes. */
  method BackwardCell(a: array2<real>, b: array2<real>, beta: array2<real>, y: seq<int>, N: nat, K: nat, T: nat, s: nat, t: nat,
                      ghost m: Model)
    requires a.Length0 == N && a.Length1 == N && b.Length0 == N && b.Length1 == K && beta.Length0 == N && beta.Length1 == T
    requires Shaped(m, y) && m.N == N && m.K == K
    requires s < N && 1 <= t < T && |y| == T
    requires beta != a && beta != b
    requires forall j :: 0 <= j < N ==> Outflow(m, y, s, t)(j) == beta[j, t] * a[s, j] * b[j, y[t]]
    modifies beta
    ensures beta[s, t - 1] == Beta(m, y, s, t - 1)
    ensures forall i, k :: 0 <= i < N && 0 <= k < T && (i != s || k != t - 1) ==> beta[i, k] == old(beta[i, k])
  {
    ghost var outflow := Outflow(m, y, s, t);
    beta[s, t - 1] := 0.0;
    for j := 0 to N
      invariant beta[s, t - 1] == Sum(j, outflow)
      invariant forall i, k :: 0 <= i < N && 0 <= k < T && (i != s || k != t - 1) ==> beta[i, k] == old(beta[i, k])
    {
      beta[s, t - 1] := beta[s, t - 1] + beta[j, t] * a[s, j] * b[j, y[t]];
    }
    BackwardStep(m, y, s, t, beta[s, t - 1]);
  }

  /** backward's first loop: beta[s-1][T-1] = 1 for s = 1 .. N, the last
      column (offset s*T-1 is cell (s-1, T-1), Flat.RowEnd). */
  method BackwardLastColumn(beta: array2<real>, y: seq<int>, N: nat, T: nat, ghost m: Model)
    requires Shaped(m, y) && m.N == N && |y| == T && beta.Length0 == N && beta.Length1 == T
    modifies beta
    ensures BackwardFilled(beta, m, y, T - 2, 0)
  {
    for s := 1 to N + 1
      invariant BackwardFilled(beta, m, y, T - 1, s - 1)
    {
      beta[s - 1, T - 1] := 1.0;
    }
    BackwardPreviousColumn(beta, m, y, T - 1);
  }

  /** One pass of backward's loop over t = T-1 down to 1: column t-1 is filled from column t. */
  method BackwardColumn(a: array2<real>, b: array2<real>, beta: array2<real>, y: seq<int>, N: nat, K: nat, T: nat, t: nat,
                        ghost m: Model)
    requires Stores(a, b, m) && BackwardFilled(beta, m, y, t - 1, 0) && m.N == N && m.K == K
    requires 1 <= t < T && |y| == T && beta != a && beta != b
    modifies beta
    ensures BackwardFilled(beta, m, y, t - 2, 0)
  {
    for s := 0 to N
      invariant BackwardFilled(beta, m, y, t - 1, s)
    {
      BackwardTerms(beta, a, b, m, y, t, s);
      BackwardCell(a, b, beta, y, N, K, T, s, t, m);
    }
    BackwardPreviousColumn(beta, m, y, t - 1);
  }

  /** backward: beta[s][t] becomes beta_s(t) of the model in a and b, for
      every state s and time t; only beta is written. The C function has no
      prior parameter and reads none; p is here only to name a complete model,
      and Recurrences.BetaIgnoresPrior shows the table does not depend on it. */
  method Backward(a: array2<real>, b: array2<real>, beta: array2<real>, y: seq<int>, N: nat, K: nat, T: nat, ghost p: array<real>)
    requires a.Length0 == N && a.Length1 == N && p.Length == N && b.Length0 == N && b.Length1 == K
    requires beta.Length0 == N && beta.Length1 == T
    requires T == |y| && T >= 1 && ValidObservations(y, K)
    requires beta != a && beta != b
    modifies beta
    ensures BetaTable(beta, ModelOf(a, p, b), y)
  {
    ghost var m := ModelOf(a, p, b);
    ModelCells(a, p, b);
    BackwardLastColumn(beta, y, N, T, m);
    var t := T - 1;
    while t > 0
      invariant 0 <= t < T
      invariant BackwardFilled(beta, m, y, t - 1, 0)
    {
      BackwardColumn(a, b, beta, y, N, K, T, t, m);
      t := t - 1;
    }
  }
}
