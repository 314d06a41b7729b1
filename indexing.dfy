/** Integer facts behind the row-major layout: flat index `i * columns + j`. */
module Indexing {

  /** Multiplication by a natural number preserves order. */
  lemma {:induction false} MulMonotone(a: nat, b: nat, c: nat)
    requires a <= b
    ensures a * c <= b * c
  {
    if c > 0 {
      MulMonotone(a, b, c - 1);
      assert a * c == a * (c - 1) + a;
      assert b * c == b * (c - 1) + b;
    }
  }

  /** Peeling one row off a layout of `rows` rows. */
  lemma MulPred(rows: nat, columns: nat)
    requires rows > 0
    ensures rows * columns == columns + (rows - 1) * columns
  {
  }

  /** Quotient and remainder are unique. */
  lemma DivModUnique(x: int, d: int, q: int, r: int)
    requires d > 0 && 0 <= r < d && x == q * d + r
    ensures x / d == q && x % d == r
  {
    var q', r' := x / d, x % d;
    assert x == q' * d + r';
    if q' < q {
      assert (q - q') * d == r' - r;
      MulMonotone(1, q - q', d);
      assert false;
    } else if q < q' {
      assert (q' - q) * d == r - r';
      MulMonotone(1, q' - q, d);
      assert false;
    }
  }

  /** Row-major index of (i, j) stays inside a rows-by-columns buffer. */
  lemma FlatIndexBound(i: nat, j: nat, rows: nat, columns: nat)
    requires i < rows && j < columns
    ensures i * columns + j < rows * columns
  {
    MulMonotone(i + 1, rows, columns);
  }

  /** Every flat index below rows * columns has a row below rows. */
  lemma FlatRowBound(k: nat, rows: nat, columns: nat)
    requires columns > 0 && k < rows * columns
    ensures k / columns < rows
  {
    if k / columns >= rows {
      MulMonotone(rows, k / columns, columns);
    }
  }

  /**
   * Row-major position of entry (i, j) in a rows-by-columns buffer: it lies
   * inside the buffer (and decodes back to (i, j), by `FlatDecodes`).
   */
  function Flat(i: nat, j: nat, rows: nat, columns: nat): (k: nat)
    requires i < rows && j < columns
    ensures k < rows * columns
  {
    FlatIndexBound(i, j, rows, columns);
    i * columns + j
  }

  /** The row-major position of (i, j) decodes back to (i, j). */
  lemma FlatDecodes(i: nat, j: nat, rows: nat, columns: nat)
    requires i < rows && j < columns
    ensures Flat(i, j, rows, columns) / columns == i && Flat(i, j, rows, columns) % columns == j
  {
    FlatIndexDecodes(i, j, columns);
  }

  /** The rows after the first of a rows-by-columns layout start `columns` items in. */
  lemma FlatNextRow(i: nat, j: nat, rows: nat, columns: nat)
    requires 0 < i < rows && j < columns
    ensures rows * columns == columns + (rows - 1) * columns
    ensures Flat(i, j, rows, columns) == columns + Flat(i - 1, j, rows - 1, columns)
  {
  }

  /** Every position of a rows-by-columns buffer is the flat index of one entry. */
  lemma FlatOnto(k: nat, rows: nat, columns: nat)
    requires columns > 0 && k < rows * columns
    ensures k / columns < rows && Flat(k / columns, k % columns, rows, columns) == k
  {
    FlatRowBound(k, rows, columns);
  }

  /** The entry (i, j) whose row-major position is k. */
  lemma FlatDecode(k: nat, rows: nat, columns: nat) returns (i: nat, j: nat)
    requires columns > 0 && k < rows * columns
    ensures i < rows && j < columns && Flat(i, j, rows, columns) == k
  {
    FlatOnto(k, rows, columns);
    i, j := k / columns, k % columns;
  }

  /** The flat index of (i, j) decodes back to (i, j). */
  lemma FlatIndexDecodes(i: nat, j: nat, columns: nat)
    requires j < columns
    ensures (i * columns + j) / columns == i && (i * columns + j) % columns == j
  {
    DivModUnique(i * columns + j, columns, i, j);
  }

  /**
   * In an n-by-n matrix, the flat index of (i, j) is a multiple of n + 1
   * exactly when the entry lies on the main diagonal.
   */
  lemma DiagonalIndex(n: nat, i: nat, j: nat)
    requires i < n && j < n
    ensures (i * n + j) % (n + 1) == 0 <==> i == j
    ensures i == j ==> (i * n + j) / (n + 1) == i
  {
    var k := i * n + j;
    if i == j {
      DivModUnique(k, n + 1, i, 0);
    } else if i < j {
      DivModUnique(k, n + 1, i, j - i);
    } else {
      DivModUnique(k, n + 1, i - 1, n + 1 + j - i);
    }
  }

  /**
   * Decoding a position k of an n-by-n buffer to its entry (i, j): it is on
   * the main diagonal exactly when k is a multiple of n + 1.
   */
  lemma DiagonalSlot(n: nat, k: nat) returns (i: nat, j: nat)
    requires k < n * n
    ensures i < n && j < n && Flat(i, j, n, n) == k
    ensures k % (n + 1) == 0 <==> i == j
  {
    i, j := FlatDecode(k, n, n);
    DiagonalIndex(n, i, j);
  }

  /** A multiple-of-(n+1) index below n * n reads a diagonal slot below n. */
  lemma DiagonalSlotBound(n: nat, k: nat)
    requires k < n * n
    ensures k / (n + 1) < n
  {
    if k / (n + 1) >= n {
      MulMonotone(n, k / (n + 1), n + 1);
    }
  }
}
