/** The few facts about products and remainders that page, plane and ring indices need. */
module Arithmetic {
  function Min(a: int, b: int): int { if a <= b then a else b }

  lemma MulMono(a: nat, b: nat, c: nat)
    requires a <= b
    ensures a * c <= b * c
  {
    assert 0 <= (b - a) * c;
    assert (b - a) * c == b * c - a * c;
  }

  /** Quotient and remainder are determined by their equation. */
  lemma DivModUnique(n: nat, d: nat, q: nat, r: nat)
    requires n == q * d + r && r < d
    ensures n / d == q && n % d == r
  {
    var q', r' := n / d, n % d;
    DivMod(n, d);
    if q' < q {
      MulMono(q' + 1, q, d);
    } else if q < q' {
      MulMono(q + 1, q', d);
    }
  }

  lemma DivMod(n: nat, d: nat)
    requires 0 < d
    ensures n == (n / d) * d + n % d && 0 <= n % d < d && 0 <= n / d
  {
  }

  /** Row-major indices stay inside the table. */
  lemma IndexBound(i: nat, rows: nat, j: nat, cols: nat)
    requires i < rows && j < cols
    ensures i * cols + j < rows * cols
  {
    MulMono(i + 1, rows, cols);
    assert (i + 1) * cols == i * cols + cols;
  }

  lemma QuotientBound(n: nat, rows: nat, cols: nat)
    requires 0 < cols && n < rows * cols
    ensures n / cols < rows
  {
    DivMod(n, cols);
    if rows <= n / cols {
      MulMono(rows, n / cols, cols);
    }
  }
}
