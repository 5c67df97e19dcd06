/** Row-major tables of words, and building them cell by cell. */
module Tables {
  import opened Base

  /** A row-major table. */
  function Table(rows: nat, columns: nat, f: (int, int) -> int): (t: seq<int>)
    ensures |t| == Times(columns, rows)
  {
    TimesNonNegative(columns, rows);
    seq(Times(columns, rows), n requires 0 <= n < Times(columns, rows) => if columns == 0 then 0 else f(n / columns, n % columns))
  }

  /** The word at a row and column of a row-major table. */
  function Index(columns: int, row: int, column: int): int {
    Times(columns, row) + column
  }

  lemma {:induction false} IndexInRange(rows: nat, columns: nat, r: nat, c: nat)
    requires r < rows && c < columns
    ensures 0 <= Index(columns, r, c) < Times(columns, rows)
    ensures Index(columns, r, c) / columns == r && Index(columns, r, c) % columns == c
  {
    TimesIsProduct(columns, r);
    TimesIsProduct(columns, rows);
    MulMonotone(r + 1, rows, columns);
    DivisionOf(r, c, columns);
  }

  lemma {:induction false} IndexOfCell(columns: nat, n: nat)
    requires columns > 0
    ensures Index(columns, n / columns, n % columns) == n
  {
    TimesIsProduct(columns, n / columns);
  }

  lemma {:induction false} TableCell(rows: nat, columns: nat, f: (int, int) -> int, r: nat, c: nat)
    requires r < rows && c < columns
    ensures 0 <= Index(columns, r, c) < |Table(rows, columns, f)| && Table(rows, columns, f)[Index(columns, r, c)] == f(r, c)
  {
    IndexInRange(rows, columns, r, c);
  }

  lemma {:induction false} CellOfIndex(rows: nat, columns: nat, n: nat)
    requires n < Times(columns, rows)
    ensures columns > 0 && 0 <= n / columns < rows && 0 <= n % columns < columns
  {
    TimesIsProduct(columns, rows);
    if n / columns >= rows {
      MulMonotone(rows, n / columns, columns);
    }
  }

  lemma {:induction false} TablesAgree(rows: nat, columns: nat, f: (int, int) -> int, g: (int, int) -> int)
    requires forall i, j :: f(i, j) == g(i, j)
    ensures Table(rows, columns, f) == Table(rows, columns, g)
  {
  }

  /** The first `i * columns + j` words of a row-major table. */
  ghost predicate Partial(columns: nat, f: (int, int) -> int, t: seq<int>, i: nat, j: nat)
    requires columns > 0
  {
    && |t| == i * columns + j
    && forall n :: 0 <= n < |t| ==> t[n] == f(n / columns, n % columns)
  }

  lemma {:induction false} AppendCell(columns: nat, f: (int, int) -> int, t: seq<int>, i: nat, j: nat)
    requires columns > 0 && j < columns && Partial(columns, f, t, i, j)
    ensures Partial(columns, f, t + [f(i, j)], i, j + 1)
  {
    DivisionOf(i, j, columns);
  }

  lemma {:induction false} AppendRow(columns: nat, f: (int, int) -> int, t: seq<int>, i: nat)
    requires columns > 0 && Partial(columns, f, t, i, columns)
    ensures Partial(columns, f, t, i + 1, 0)
  {
    assert (i + 1) * columns == i * columns + columns;
  }

  lemma {:induction false} TableDone(rows: nat, columns: nat, f: (int, int) -> int, t: seq<int>)
    requires columns > 0 && Partial(columns, f, t, rows, 0)
    ensures t == Table(rows, columns, f)
  {
    TimesIsProduct(columns, rows);
  }
}
