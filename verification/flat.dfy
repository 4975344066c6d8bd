/** Row-major layout of the kernel's buffers: entry (r, c) of a table with
    `cols` columns lives at offset r * cols + c (alpha[s*T+t], a[j*N+s],
    b[s*K+y[t]], and xi at ((t-1)*N+s)*N+j, the layout applied twice, as
    XiLayout shows).
    The offset is defined row by row, so that reasoning about one cell never
    has to multiply; IdxIsOffset states the closed form. */
module Flat {

  function Idx(r: int, c: int, cols: int): int
    decreases if r < 0 then 0 else r
  {
    if r <= 0 then c else Idx(r - 1, c, cols) + cols
  }

  /** For a non-negative row, the offset is r * cols + c. */
  lemma {:induction false} IdxIsOffset(r: int, c: int, cols: int)
    requires 0 <= r
    ensures Idx(r, c, cols) == r * cols + c
    decreases r
  {
    if r > 0 {
      IdxIsOffset(r - 1, c, cols);
    }
  }

  lemma {:induction false} IdxNonNegative(r: int, c: int, cols: int)
    requires 0 <= c && 0 <= cols
    ensures 0 <= Idx(r, c, cols)
    decreases if r < 0 then 0 else r
  {
    if r > 0 {
      IdxNonNegative(r - 1, c, cols);
    }
  }

  /** Within a row, cells are consecutive: (r, c) sits c places after (r, 0). */
  lemma {:induction false} IdxShift(r: int, c: int, cols: int)
    requires 0 <= r
    ensures Idx(r, c, cols) == Idx(r, 0, cols) + c
    decreases r
  {
    if r > 0 {
      IdxShift(r - 1, c, cols);
    }
  }

  /** The offset just before row r >= 1 starts (r * cols - 1) is the last cell of row r - 1. */
  lemma RowEnd(r: int, cols: int)
    requires 1 <= r && 1 <= cols
    ensures Idx(r, 0, cols) - 1 == Idx(r - 1, cols - 1, cols)
  {
    IdxShift(r - 1, cols - 1, cols);
  }

  /** Every in-range cell of a rows x cols table lies inside its buffer. */
  lemma IdxInRange(r: int, c: int, rows: int, cols: int)
    requires 0 <= r < rows && 0 <= c < cols
    ensures 0 <= Idx(r, c, cols) < rows * cols
  {
    IdxIsOffset(r, c, cols);
    OffsetBound(r, c, rows, cols);
  }

  /** The same, with the size of the buffer written as the offset of row `rows`. */
  lemma IdxBelow(r: int, c: int, rows: int, cols: int)
    requires 0 <= r < rows && 0 <= c < cols
    ensures 0 <= Idx(r, c, cols) < Idx(rows, 0, cols)
  {
    IdxIsOffset(r, c, cols);
    IdxIsOffset(rows, 0, cols);
    OffsetBound(r, c, rows, cols);
  }

  lemma OffsetBound(r: int, c: int, rows: int, cols: int)
    requires 0 <= r < rows && 0 <= c < cols
    ensures 0 <= r * cols + c < rows * cols
  {
    MulMonotone(0, r, cols);
    MulMonotone(r, rows - 1, cols);
    assert (rows - 1) * cols + cols == rows * cols;
  }

  lemma MulMonotone(x: int, y: int, k: int)
    requires x <= y && 0 <= k
    ensures x * k <= y * k
  {
    assert y * k - x * k == (y - x) * k;
  }

  /** Distinct cells have distinct offsets. */
  lemma IdxInjective(r: int, c: int, r': int, c': int, cols: int)
    requires 0 <= r && 0 <= r' && 0 <= c < cols && 0 <= c' < cols
    requires Idx(r, c, cols) == Idx(r', c', cols)
    ensures r == r' && c == c'
  {
    IdxIsOffset(r, c, cols);
    IdxIsOffset(r', c', cols);
    if r < r' {
      MulMonotone(r + 1, r', cols);
      assert false;
    } else if r' < r {
      MulMonotone(r' + 1, r, cols);
      assert false;
    }
  }

  /** Both facts for every cell of a rows x cols table at once. */
  lemma Layout(rows: int, cols: int)
    ensures forall r, c {:trigger Idx(r, c, cols)} ::
      0 <= r < rows && 0 <= c < cols ==> 0 <= Idx(r, c, cols) < rows * cols
    ensures forall r, c, r', c' {:trigger Idx(r, c, cols), Idx(r', c', cols)} ::
      0 <= r && 0 <= r' && 0 <= c < cols && 0 <= c' < cols && Idx(r, c, cols) == Idx(r', c', cols) ==>
        r == r' && c == c'
  {
    forall r, c | 0 <= r < rows && 0 <= c < cols
      ensures 0 <= Idx(r, c, cols) < rows * cols
    {
      IdxInRange(r, c, rows, cols);
    }
    forall r, c, r', c' | 0 <= r && 0 <= r' && 0 <= c < cols && 0 <= c' < cols && Idx(r, c, cols) == Idx(r', c', cols)
      ensures r == r' && c == c'
    {
      IdxInjective(r, c, r', c', cols);
    }
  }

  /** The xi buffer of `times` x N x N entries is the layout applied twice:
      entry (u, s, j) sits at Idx(Idx(u, s, N), j, N) = (u*N+s)*N+j, inside
      [0, times*N*N), and distinct entries have distinct offsets. */
  lemma XiLayout(times: int, N: int)
    ensures forall u, s, j {:trigger Idx(Idx(u, s, N), j, N)} ::
      0 <= u < times && 0 <= s < N && 0 <= j < N ==>
        Idx(Idx(u, s, N), j, N) == (u * N + s) * N + j && 0 <= Idx(Idx(u, s, N), j, N) < times * N * N
    ensures forall u, s, j, u', s', j' {:trigger Idx(Idx(u, s, N), j, N), Idx(Idx(u', s', N), j', N)} ::
      0 <= u && 0 <= u' && 0 <= s < N && 0 <= s' < N && 0 <= j < N && 0 <= j' < N &&
      Idx(Idx(u, s, N), j, N) == Idx(Idx(u', s', N), j', N) ==>
        u == u' && s == s' && j == j'
  {
    forall u, s, j | 0 <= u < times && 0 <= s < N && 0 <= j < N
      ensures Idx(Idx(u, s, N), j, N) == (u * N + s) * N + j && 0 <= Idx(Idx(u, s, N), j, N) < times * N * N
    {
      IdxInRange(u, s, times, N);
      IdxInRange(Idx(u, s, N), j, times * N, N);
      IdxIsOffset(u, s, N);
      IdxIsOffset(Idx(u, s, N), j, N);
    }
    forall u, s, j, u', s', j' | 0 <= u && 0 <= u' && 0 <= s < N && 0 <= s' < N && 0 <= j < N && 0 <= j' < N &&
      Idx(Idx(u, s, N), j, N) == Idx(Idx(u', s', N), j', N)
      ensures u == u' && s == s' && j == j'
    {
      IdxNonNegative(u, s, N);
      IdxNonNegative(u', s', N);
      IdxInjective(Idx(u, s, N), j, Idx(u', s', N), j', N);
      IdxInjective(u, s, u', s', N);
    }
  }

  /** Row r of a 2-D array, as a sequence. */
  ghost function RowOf(g: array2<real>, r: int): seq<real>
    requires 0 <= r < g.Length0
    reads g
  {
    seq(g.Length1, c requires 0 <= c < g.Length1 reads g => g[r, c])
  }

  /** Rows 0 .. n-1 of a 2-D array laid end to end. */
  ghost function Rows(g: array2<real>, n: int): seq<real>
    requires n <= g.Length0
    reads g
    decreases n
  {
    if n <= 0 then [] else Rows(g, n - 1) + RowOf(g, n - 1)
  }

  /** The row-major buffer a 2-D array stands for. */
  ghost function Flatten(g: array2<real>): seq<real>
    reads g
  {
    Rows(g, g.Length0)
  }

  lemma {:induction false} RowsAt(g: array2<real>, n: int, r: int, c: int)
    requires 0 <= n <= g.Length0 && 0 <= r < n && 0 <= c < g.Length1
    ensures |Rows(g, n)| == Idx(n, 0, g.Length1)
    ensures 0 <= Idx(r, c, g.Length1) < |Rows(g, n)| && Rows(g, n)[Idx(r, c, g.Length1)] == g[r, c]
    decreases n
  {
    IdxShift(n - 1, c, g.Length1);
    if n == 1 {
      assert Rows(g, 1) == RowOf(g, 0);
    } else {
      RowsLength(g, n - 1);
      IdxShift(n - 1, 0, g.Length1);
      if r < n - 1 {
        RowsAt(g, n - 1, r, c);
      } else {
        IdxNonNegative(r, 0, g.Length1);
      }
    }
  }

  lemma {:induction false} RowsLength(g: array2<real>, n: int)
    requires 0 <= n <= g.Length0
    ensures |Rows(g, n)| == Idx(n, 0, g.Length1)
    decreases n
  {
    if n > 0 {
      RowsLength(g, n - 1);
      IdxShift(n - 1, g.Length1, g.Length1);
    }
  }

  /** The buffer has rows * cols entries, and cell (r, c) is at offset r * cols + c. */
  lemma FlattenAt(g: array2<real>, r: int, c: int)
    requires 0 <= r < g.Length0 && 0 <= c < g.Length1
    ensures |Flatten(g)| == g.Length0 * g.Length1
    ensures 0 <= Idx(r, c, g.Length1) < |Flatten(g)| && Flatten(g)[Idx(r, c, g.Length1)] == g[r, c]
  {
    RowsAt(g, g.Length0, r, c);
    IdxIsOffset(g.Length0, 0, g.Length1);
  }
}
