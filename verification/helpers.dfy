/** The small helpers around the trainer: clearing a buffer, making random
    probability vectors and row-stochastic matrices, and picking an index by
    cumulative probability. The pseudo-random values the C code draws with
    rand() / RAND_MAX are parameters here (`draws`, `decider`). */
module Helpers {
  import opened Sums
  import opened Flat

  datatype Option<T> = None | Some(value: T)

  /** Ratio between the smallest and the largest weight makeProbabilities can draw. */
  const Ratio: real := 100.0

  /** set_zero: every entry of the rows x cols table becomes 0.0; entries past
      the table are left alone. */
  method SetZero(a: array<real>, rows: nat, cols: nat)
    requires rows * cols <= a.Length
    modifies a
    ensures forall i :: 0 <= i < rows * cols ==> a[i] == 0.0
    ensures forall i :: rows * cols <= i < a.Length ==> a[i] == old(a[i])
  {
    for row := 0 to rows
      invariant 0 <= Idx(row, 0, cols) <= rows * cols
      invariant forall i :: 0 <= i < Idx(row, 0, cols) ==> a[i] == 0.0
      invariant forall i :: Idx(row, 0, cols) <= i < a.Length ==> a[i] == old(a[i])
    {
      IdxShift(row, cols, cols);
      IdxIsOffset(row + 1, 0, cols);
      MulMonotone(row + 1, rows, cols);
      IdxNonNegative(row, 0, cols);
      for col := 0 to cols
        invariant 0 <= Idx(row, col, cols) <= Idx(row + 1, 0, cols) <= rows * cols
        invariant forall i :: 0 <= i < Idx(row, col, cols) ==> a[i] == 0.0
        invariant forall i :: Idx(row, col, cols) <= i < a.Length ==> a[i] == old(a[i])
      {
        IdxShift(row, col, cols);
        IdxShift(row, col + 1, cols);
        a[Idx(row, col, cols)] := 0.0;
      }
    }
    IdxIsOffset(rows, 0, cols);
  }

  /** The cumulative probability probs[0] + ... + probs[i]. */
  ghost function Covered(probs: seq<real>, i: int): real
  {
    Sum(i + 1, Weights(probs))
  }

  /** chooseOf: the least index whose cumulative probability reaches the
      decider; None is the error exit taken when no prefix of the first
      `choices` entries reaches it. */
  method ChooseOf(choices: int, probArray: array<real>, decider: real) returns (choice: Option<int>)
    requires choices <= probArray.Length
    ensures choice.Some? ==>
      0 <= choice.value < choices && decider <= Covered(probArray[..], choice.value) &&
      forall i :: 0 <= i < choice.value ==> Covered(probArray[..], i) < decider
    ensures choice.None? <==> forall i :: 0 <= i < choices ==> Covered(probArray[..], i) < decider
  {
    var probSum := 0.0;
    var i := 0;
    while i < choices
      invariant 0 <= i && (i <= choices || i == 0)
      invariant probSum == Sum(i, Weights(probArray[..]))
      invariant forall k :: 0 <= k < i ==> Covered(probArray[..], k) < decider
    {
      probSum := probSum + probArray[i];
      if decider <= probSum {
        return Some(i);
      }
      i := i + 1;
    }
    return None;
  }

  /** i |-> draws[i] * Ratio: the weights makeProbabilities accumulates. */
  ghost function Scaled(draws: seq<real>): int -> real
  {
    i => if 0 <= i < |draws| then draws[i] * Ratio else 0.0
  }

  /** totalProbabilites after the first loop of makeProbabilities. */
  ghost function Total(draws: seq<real>): real
  {
    Sum(|draws|, Scaled(draws))
  }

  /** i |-> buf[offset + i]: the vector that starts at `offset` of a buffer. */
  ghost function Window(buf: seq<real>, offset: int): int -> real
  {
    i => if 0 <= i && 0 <= offset + i < |buf| then buf[offset + i] else 0.0
  }

  /** makeProbabilities on the vector of `options` entries at `offset`:
      entry i becomes draws[i] * Ratio divided by the total of all of them,
      so the vector sums to one; nothing else in the buffer changes. */
  method MakeProbabilities(probabilities: array<real>, offset: nat, options: nat, draws: seq<real>)
    requires |draws| == options && offset + options <= probabilities.Length
    requires forall i :: 0 <= i < options ==> 0.0 <= draws[i] <= 1.0
    requires Total(draws) > 0.0
    modifies probabilities
    ensures forall i :: 0 <= i < options ==> probabilities[offset + i] == draws[i] * Ratio / Total(draws)
    ensures forall i :: 0 <= i < probabilities.Length && !(offset <= i < offset + options) ==>
      probabilities[i] == old(probabilities[i])
    ensures Sum(options, Window(probabilities[..], offset)) == 1.0
  {
    var totalProbabilities := 0.0;
    for i := 0 to options
      invariant totalProbabilities == Sum(i, Scaled(draws))
      invariant forall j :: 0 <= j < i ==> probabilities[offset + j] == draws[j] * Ratio
      invariant forall j :: 0 <= j < probabilities.Length && !(offset <= j < offset + i) ==>
        probabilities[j] == old(probabilities[j])
    {
      var currentValue := draws[i] * Ratio;
      probabilities[offset + i] := currentValue;
      totalProbabilities := totalProbabilities + currentValue;
    }
    for i := 0 to options
      invariant forall j :: 0 <= j < i ==> probabilities[offset + j] == draws[j] * Ratio / totalProbabilities
      invariant forall j :: i <= j < options ==> probabilities[offset + j] == draws[j] * Ratio
      invariant forall j :: 0 <= j < probabilities.Length && !(offset <= j < offset + options) ==>
        probabilities[j] == old(probabilities[j])
    {
      probabilities[offset + i] := probabilities[offset + i] / totalProbabilities;
    }
    Normalised(probabilities[..], offset, draws);
  }

  /** A vector holding the scaled draws over their total sums to one. */
  lemma Normalised(buf: seq<real>, offset: int, draws: seq<real>)
    requires Total(draws) > 0.0 && 0 <= offset && offset + |draws| <= |buf|
    requires forall i :: 0 <= i < |draws| ==> buf[offset + i] == draws[i] * Ratio / Total(draws)
    ensures Sum(|draws|, Window(buf, offset)) == 1.0
  {
    var c := 1.0 / Total(draws);
    forall i | 0 <= i < |draws|
      ensures Window(buf, offset)(i) == c * Scaled(draws)(i)
    {
      NormalisedEntry(buf[offset + i], draws[i] * Ratio, Total(draws));
    }
    SumScale(|draws|, c, Scaled(draws), Window(buf, offset));
  }

  lemma NormalisedEntry(entry: real, x: real, total: real)
    requires total != 0.0 && entry == x / total
    ensures entry == (1.0 / total) * x
  {
    DivIsScale(x, total);
  }

  /** Row r of a buffer with `cols` columns holds the normalised draws d. */
  ghost predicate RowDone(buf: seq<real>, r: int, cols: int, d: seq<real>)
    requires 0 <= r && |d| == cols && Total(d) > 0.0
  {
    (forall c :: 0 <= c < cols ==> 0 <= Idx(r, c, cols) < |buf| && buf[Idx(r, c, cols)] == d[c] * Ratio / Total(d)) &&
    Sum(cols, Window(buf, Idx(r, 0, cols))) == 1.0
  }

  /** A finished row before `row` survives writes that start at row `row`. */
  lemma RowKept(before: seq<real>, after: seq<real>, r: int, row: int, cols: int, d: seq<real>)
    requires 0 <= r < row && |d| == cols && Total(d) > 0.0 && |before| == |after|
    requires forall i :: 0 <= i < Idx(row, 0, cols) && i < |before| ==> after[i] == before[i]
    requires RowDone(before, r, cols, d)
    ensures RowDone(after, r, cols, d)
  {
    forall c | 0 <= c < cols
      ensures Window(after, Idx(r, 0, cols))(c) == Window(before, Idx(r, 0, cols))(c)
    {
      IdxShift(r, c, cols);
      RowBefore(r, c, row, cols);
    }
    SumExt(cols, Window(after, Idx(r, 0, cols)), Window(before, Idx(r, 0, cols)));
    forall c | 0 <= c < cols
      ensures after[Idx(r, c, cols)] == before[Idx(r, c, cols)]
    {
      RowBefore(r, c, row, cols);
    }
  }

  /** makeMatrix: row r of the dim1 x dim2 matrix is made by makeProbabilities
      from draws[r], so every row sums to one. */
  method MakeMatrix(dim1: nat, dim2: nat, matrix: array<real>, draws: seq<seq<real>>)
    requires matrix.Length == dim1 * dim2 && |draws| == dim1
    requires forall r :: 0 <= r < dim1 ==> |draws[r]| == dim2
    requires forall r, c :: 0 <= r < dim1 && 0 <= c < dim2 ==> 0.0 <= draws[r][c] <= 1.0
    requires forall r :: 0 <= r < dim1 ==> Total(draws[r]) > 0.0
    modifies matrix
    ensures forall r :: 0 <= r < dim1 ==> RowDone(matrix[..], r, dim2, draws[r])
  {
    for row := 0 to dim1
      invariant forall r :: 0 <= r < row ==> RowDone(matrix[..], r, dim2, draws[r])
    {
      IdxShift(row, dim2, dim2);
      IdxShift(row + 1, 0, dim2);
      IdxIsOffset(row + 1, 0, dim2);
      MulMonotone(row + 1, dim1, dim2);
      IdxNonNegative(row, 0, dim2);
      ghost var before := matrix[..];
      MakeProbabilities(matrix, Idx(row, 0, dim2), dim2, draws[row]);
      forall r | 0 <= r < row
        ensures RowDone(matrix[..], r, dim2, draws[r])
      {
        RowKept(before, matrix[..], r, row, dim2, draws[r]);
      }
      forall c | 0 <= c < dim2
        ensures Idx(row, c, dim2) == Idx(row, 0, dim2) + c
      {
        IdxShift(row, c, dim2);
      }
    }
  }

  /** A cell of an earlier row lies before the row being written. */
  lemma RowBefore(r: int, c: int, row: int, cols: int)
    requires 0 <= r < row && 0 <= c < cols
    ensures 0 <= Idx(r, c, cols) < Idx(row, 0, cols)
  {
    IdxInRange(r, c, row, cols);
    IdxIsOffset(row, 0, cols);
  }
}
