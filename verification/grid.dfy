/** Row-major grid arithmetic shared by the puzzle board and the percolation
    grid. On an n-wide grid the cell with flat index i sits in row i / n and
    column i % n, both counted from 0. */
module Grid {

  function Abs(x: int): nat {
    if x < 0 then -x else x
  }

  /** The flat index of row r, column c. */
  function At(r: int, c: int, n: int): int {
    r * n + c
  }

  function Row(i: int, n: int): int
    requires n > 0
  {
    i / n
  }

  function Col(i: int, n: int): int
    requires n > 0
  {
    i % n
  }

  /** Orthogonal neighbours: cells at grid (Manhattan) distance exactly one. */
  predicate Adjacent(i: int, j: int, n: int)
    requires n > 0
  {
    Abs(Row(i, n) - Row(j, n)) + Abs(Col(i, n) - Col(j, n)) == 1
  }

  /** Quotient and remainder are determined by any decomposition x == q * n + r
      with 0 <= r < n. */
  lemma DivModUnique(x: int, q: int, r: int, n: int)
    requires n > 0 && 0 <= r < n && x == q * n + r
    ensures x / n == q && x % n == r
  {
    var q', r' := x / n, x % n;
    assert (q' - q) * n == r - r';
    if q' > q {
      MulAtLeast(q' - q, n);
    }
    if q' < q {
      MulAtLeast(q - q', n);
    }
  }

  lemma MulAtLeast(k: int, n: int)
    requires k >= 1 && n > 0
    ensures k * n >= n
  {
  }

  /** The cell one row down is n flat positions further on, in the same column. */
  lemma StepDown(i: int, n: int)
    requires n > 0 && i >= 0
    ensures Row(i + n, n) == Row(i, n) + 1 && Col(i + n, n) == Col(i, n)
  {
    DivModUnique(i + n, Row(i, n) + 1, Col(i, n), n);
  }

  /** For n >= 2 the only cells adjacent to e are e - 1 and e + 1 in e's own row
      and e - n and e + n in its column. */
  lemma AdjacentCandidates(e: int, p: int, n: int)
    requires n >= 2 && e >= 0 && p >= 0
    ensures Adjacent(e, p, n) <==>
              ((p == e - 1 || p == e + 1) && Row(p, n) == Row(e, n))
              || p == e - n || p == e + n
  {
    if p == e - n {
      StepDown(p, n);
    }
    if p == e + n {
      StepDown(e, n);
    }
    if Adjacent(e, p, n) {
      AdjacentIsCandidate(e, p, n);
    }
  }

  lemma AdjacentIsCandidate(e: int, p: int, n: int)
    requires n >= 2 && e >= 0 && p >= 0 && Adjacent(e, p, n)
    ensures ((p == e - 1 || p == e + 1) && Row(p, n) == Row(e, n))
            || p == e - n || p == e + n
  {
    var er, ec, pr, pc := Row(e, n), Col(e, n), Row(p, n), Col(p, n);
    assert p - e == (pr - er) * n + (pc - ec);
    if pr == er + 1 {
      assert p - e == n;
    } else if pr == er - 1 {
      assert p - e == -n;
    }
  }

  lemma MulMonotone(a: int, b: int, n: int)
    requires a >= b && n >= 0
    ensures a * n >= b * n
  {
    assert a * n - b * n == (a - b) * n;
  }

  /** A cell of an n*n grid lies in one of its n rows. */
  lemma RowBound(i: int, n: int)
    requires n > 0 && 0 <= i < n * n
    ensures 0 <= Row(i, n) < n && 0 <= Col(i, n) < n
  {
    if Row(i, n) >= n {
      MulMonotone(Row(i, n), n, n);
    }
  }
}
