/** Finite sums over exact reals.
    Every accumulation loop of the kernel (`x += ...` over a range) is a
    left-to-right sum; `Sum(n, f)` is that sum, f(0) + ... + f(n - 1). */
module Sums {

  ghost function Sum(n: int, f: int -> real): real
    decreases n
  {
    if n <= 0 then 0.0 else Sum(n - 1, f) + f(n - 1)
  }

  /** Sums of functions that agree on the range agree. */
  lemma {:induction false} SumExt(n: int, f: int -> real, g: int -> real)
    requires forall i :: 0 <= i < n ==> f(i) == g(i)
    ensures Sum(n, f) == Sum(n, g)
    decreases n
  {
    if n > 0 {
      SumExt(n - 1, f, g);
    }
  }

  /** A constant factor comes out of a sum. */
  lemma {:induction false} SumScale(n: int, c: real, f: int -> real, g: int -> real)
    requires forall i :: 0 <= i < n ==> g(i) == c * f(i)
    ensures Sum(n, g) == c * Sum(n, f)
    decreases n
  {
    if n > 0 {
      SumScale(n - 1, c, f, g);
    }
  }

  /** A sum of pointwise sums is the sum of the sums. */
  lemma {:induction false} SumAdd(n: int, f: int -> real, g: int -> real, h: int -> real)
    requires forall i :: 0 <= i < n ==> h(i) == f(i) + g(i)
    ensures Sum(n, h) == Sum(n, f) + Sum(n, g)
    decreases n
  {
    if n > 0 {
      SumAdd(n - 1, f, g, h);
    }
  }

  lemma {:induction false} SumNonNegative(n: int, f: int -> real)
    requires forall i :: 0 <= i < n ==> f(i) >= 0.0
    ensures Sum(n, f) >= 0.0
    decreases n
  {
    if n > 0 {
      SumNonNegative(n - 1, f);
    }
  }

  lemma {:induction false} SumPositive(n: int, f: int -> real)
    requires n >= 1
    requires forall i :: 0 <= i < n ==> f(i) > 0.0
    ensures Sum(n, f) > 0.0
    decreases n
  {
    if n > 1 {
      SumPositive(n - 1, f);
    } else {
      assert Sum(0, f) == 0.0;
    }
  }

  /** A sum with one positive term and no negative ones is positive. */
  lemma {:induction false} SumPositiveSome(n: int, f: int -> real, k: int)
    requires 0 <= k < n
    requires forall i :: 0 <= i < n ==> f(i) >= 0.0
    requires f(k) > 0.0
    ensures Sum(n, f) > 0.0
    decreases n
  {
    if k < n - 1 {
      SumPositiveSome(n - 1, f, k);
    } else {
      SumNonNegative(n - 1, f);
    }
  }

  /** Summing an indicator picks out the one selected term. */
  lemma {:induction false} SumIndicator(n: int, c: int, x: real, f: int -> real)
    requires 0 <= c < n
    requires forall i :: 0 <= i < n ==> f(i) == (if i == c then x else 0.0)
    ensures Sum(n, f) == x
    decreases n
  {
    if n - 1 == c {
      SumZero(n - 1, f);
    } else {
      SumIndicator(n - 1, c, x, f);
    }
  }

  lemma {:induction false} SumZero(n: int, f: int -> real)
    requires forall i :: 0 <= i < n ==> f(i) == 0.0
    ensures Sum(n, f) == 0.0
    decreases n
  {
    if n > 0 {
      SumZero(n - 1, f);
    }
  }

  /** The entries of a vector as a family: i |-> probs[i], and 0 outside it. */
  ghost function Weights(probs: seq<real>): int -> real
  {
    i => if 0 <= i < |probs| then probs[i] else 0.0
  }

  /** The row sums of a two-index family F: row i sums F(i)(0), ..., F(i)(m - 1). */
  ghost function RowSums(F: int -> int -> real, m: int): int -> real
  {
    i => Sum(m, F(i))
  }

  ghost function Transpose(F: int -> int -> real): int -> int -> real
  {
    j => i => F(i)(j)
  }

  /** The order of a finite double sum does not matter. */
  lemma {:induction false} SumSwap(n: int, m: int, F: int -> int -> real)
    ensures Sum(n, RowSums(F, m)) == Sum(m, RowSums(Transpose(F), n))
    decreases n
  {
    if n > 0 {
      SumSwap(n - 1, m, F);
      forall j | 0 <= j < m
        ensures RowSums(Transpose(F), n)(j) == RowSums(Transpose(F), n - 1)(j) + F(n - 1)(j)
      {
        assert Transpose(F)(j)(n - 1) == F(n - 1)(j);
        assert Sum(n, Transpose(F)(j)) == Sum(n - 1, Transpose(F)(j)) + Transpose(F)(j)(n - 1);
      }
      SumAdd(m, RowSums(Transpose(F), n - 1), F(n - 1), RowSums(Transpose(F), n));
    } else {
      forall j | 0 <= j < m
        ensures RowSums(Transpose(F), n)(j) == 0.0
      {
        assert RowSums(Transpose(F), n)(j) == Sum(n, Transpose(F)(j));
      }
      SumZero(m, RowSums(Transpose(F), n));
    }
  }

  lemma DivIsScale(x: real, d: real)
    requires d != 0.0
    ensures x / d == (1.0 / d) * x
  {
  }

  /** Normalising rows by a common total: if column u of the family G sums to
      g(u), the columns' sums add up to D, and r(i) is the sum of row i of G
      divided by D, then the r(i) add up to one. */
  lemma RatioSum(n: int, m: int, G: int -> int -> real, g: int -> real, r: int -> real, D: real)
    requires D != 0.0 && Sum(m, g) == D
    requires forall i :: 0 <= i < n ==> r(i) == Sum(m, G(i)) / D
    requires forall u :: 0 <= u < m ==> Sum(n, Transpose(G)(u)) == g(u)
    ensures Sum(n, r) == 1.0
  {
    forall i | 0 <= i < n
      ensures r(i) == (1.0 / D) * RowSums(G, m)(i)
    {
      DivIsScale(Sum(m, G(i)), D);
    }
    SumScale(n, 1.0 / D, RowSums(G, m), r);
    SumSwap(n, m, G);
    SumExt(m, RowSums(Transpose(G), n), g);
  }
}
