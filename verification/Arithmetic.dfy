/** Products, quotients and remainders of integers that the solver does not find by itself. */
module Arithmetic {

  lemma MulNonNegative(a: nat, b: nat)
    ensures a * b >= 0
  {
  }

  lemma MulMono(a: int, b: int, m: nat)
    ensures a <= b ==> a * m <= b * m
    ensures a < b ==> a * m + m <= b * m
  {
    if a < b {
      MulNonNegative(b - a - 1, m);
      assert b * m == a * m + m + (b - a - 1) * m;
    }
  }

  /** Euclidean division is determined by its identity. */
  lemma DivMod(n: nat, m: nat, q: nat, r: nat)
    requires m > 0 && n == q * m + r && r < m
    ensures n / m == q && n % m == r
  {
    assert n == n / m * m + n % m;
    MulMono(q, n / m, m);
    MulMono(n / m, q, m);
  }

  lemma MultipleMod(q: nat, m: nat)
    requires m > 0
    ensures q * m % m == 0
  {
    DivMod(q * m, m, q, 0);
  }

  lemma MultiplesApart(a: nat, b: nat, m: nat)
    requires m > 0 && a % m == 0 && b % m == 0
    ensures a < b ==> a + m <= b
  {
    assert a == a / m * m && b == b / m * m;
    MulMono(a / m, b / m, m);
    MulMono(b / m, a / m, m);
  }

  lemma SumOfMultiples(a: nat, b: nat, m: nat)
    requires m > 0 && a % m == 0 && b % m == 0
    ensures (a + b) % m == 0
  {
    assert a + b == (a / m + b / m) * m;
    MultipleMod(a / m + b / m, m);
  }

  lemma DifferenceOfMultiples(a: nat, b: nat, m: nat)
    requires m > 0 && a % m == 0 && b % m == 0 && b <= a
    ensures (a - b) % m == 0
  {
    MulMono(a / m, b / m, m);
    assert a - b == (a / m - b / m) * m;
    MultipleMod(a / m - b / m, m);
  }

  /** Splitting a position below `d` rows of `row` elements into a row number and a position in the row. */
  lemma RowSplit(k: nat, d: int, row: nat)
    requires k < d * row
    ensures row > 0 && 0 <= k / row < d && 0 <= k % row < row && k == k / row * row + k % row
  {
    if row > 0 {
      Quotient(k, row);
      MulMono(d, k / row, row);
    }
  }

  lemma Quotient(k: nat, m: nat)
    requires m > 0
    ensures k == k / m * m + k % m && 0 <= k / m
  {
  }
}
