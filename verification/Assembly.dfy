/** Checked assembly of row-major tiles into one grid. */
module Assembly {
  import opened Base
  import opened Tables

  datatype Tile = Tile(name: string, row: int, column: int, rows: int, columns: int)

  datatype TileOutput = TileOutput(name: string, rows: int, columns: int, words: seq<int>)

  predicate InBounds(t: Tile, rows: int, columns: int) {
    0 <= t.row && 0 <= t.column && 1 <= t.rows && 1 <= t.columns && t.row + t.rows <= rows && t.column + t.columns <= columns
  }

  /** The output is the tile's: same name, same shape, one word per cell. */
  predicate Identified(o: TileOutput, t: Tile) {
    o.name == t.name && o.rows == t.rows && o.columns == t.columns && |o.words| == Times(t.columns, t.rows)
  }

  predicate Covers(t: Tile, r: int, c: int) {
    t.row <= r < t.row + t.rows && t.column <= c < t.column + t.columns
  }

  function WordFor(o: TileOutput, t: Tile, r: int, c: int): int {
    var n := Index(t.columns, r - t.row, c - t.column);
    if 0 <= n < |o.words| then o.words[n] else 0
  }

  // ----- Cells of the flat buffer -----

  type Buffer = seq<Option<int>>

  function CellAt(s: Buffer, columns: int, r: int, c: int): Option<int> {
    var n := Index(columns, r, c);
    if 0 <= n < |s| then s[n] else None
  }

  lemma {:induction false} IndexInjective(rows: nat, columns: nat, r: nat, c: nat, q: nat, d: nat)
    requires r < rows && c < columns && q < rows && d < columns && Index(columns, r, c) == Index(columns, q, d)
    ensures r == q && c == d
  {
    IndexInRange(rows, columns, r, c);
    IndexInRange(rows, columns, q, d);
  }

  /** Writing one cell changes that cell only. */
  lemma {:induction false} WriteCell(s: Buffer, rows: nat, columns: nat, r: nat, c: nat, v: Option<int>, q: nat, d: nat)
    requires |s| == Times(columns, rows) && r < rows && c < columns && q < rows && d < columns
    ensures 0 <= Index(columns, r, c) < |s|
    ensures CellAt(s[Index(columns, r, c) := v], columns, q, d) == if q == r && d == c then v else CellAt(s, columns, q, d)
  {
    IndexInRange(rows, columns, r, c);
    IndexInRange(rows, columns, q, d);
    if Index(columns, r, c) == Index(columns, q, d) {
      IndexInjective(rows, columns, r, c, q, d);
    }
  }

  /** `after` is `before` with the first `k` cells of the tile's row `r` painted. */
  ghost predicate RowPainted(before: Buffer, after: Buffer, rows: nat, columns: nat, o: TileOutput, t: Tile, r: int, k: int) {
    |after| == |before| &&
    forall q, d {:trigger CellAt(after, columns, q, d)} :: 0 <= q < rows && 0 <= d < columns ==>
      CellAt(after, columns, q, d) == if q == r && t.column <= d < t.column + k then Some(WordFor(o, t, q, d)) else CellAt(before, columns, q, d)
  }

  ghost predicate RowFree(s: Buffer, columns: nat, t: Tile, r: int, k: int) {
    forall d {:trigger CellAt(s, columns, r, d)} :: t.column <= d < t.column + k ==> CellAt(s, columns, r, d).None?
  }

  method PaintRow(values: array<Option<int>>, rows: nat, columns: nat, o: TileOutput, t: Tile, r: int) returns (ok: bool)
    requires values.Length == Times(columns, rows) && InBounds(t, rows, columns) && Identified(o, t) && t.row <= r < t.row + t.rows
    modifies values
    ensures ok <==> RowFree(old(values[..]), columns, t, r, t.columns)
    ensures ok ==> RowPainted(old(values[..]), values[..], rows, columns, o, t, r, t.columns)
  {
    ghost var before := values[..];
    var c := 0;
    while c < t.columns
      invariant 0 <= c <= t.columns && RowPainted(before, values[..], rows, columns, o, t, r, c) && RowFree(before, columns, t, r, c)
    {
      var index := Index(columns, r, t.column + c);
      IndexInRange(rows, columns, r, t.column + c);
      assert CellAt(values[..], columns, r, t.column + c) == CellAt(before, columns, r, t.column + c);
      if values[index].Some? {
        assert CellAt(before, columns, r, t.column + c).Some?;
        return false;
      }
      IndexInRange(t.rows, t.columns, r - t.row, c);
      ghost var now := values[..];
      values[index] := Some(o.words[Index(t.columns, r - t.row, c)]);
      assert values[..] == now[index := Some(WordFor(o, t, r, t.column + c))];
      PaintStep(before, now, values[..], rows, columns, o, t, r, c);
      c := c + 1;
    }
    ok := true;
  }

  lemma {:induction false} PaintStep(before: Buffer, now: Buffer, after: Buffer, rows: nat, columns: nat, o: TileOutput, t: Tile, r: int, k: nat)
    requires |before| == Times(columns, rows) && InBounds(t, rows, columns) && t.row <= r < t.row + t.rows && k < t.columns
    requires RowPainted(before, now, rows, columns, o, t, r, k)
    requires 0 <= Index(columns, r, t.column + k) < |now| && after == now[Index(columns, r, t.column + k) := Some(WordFor(o, t, r, t.column + k))]
    ensures RowPainted(before, after, rows, columns, o, t, r, k + 1)
  {
    forall q, d | 0 <= q < rows && 0 <= d < columns
      ensures CellAt(after, columns, q, d) == if q == r && t.column <= d < t.column + (k + 1) then Some(WordFor(o, t, q, d)) else CellAt(before, columns, q, d) {
      WriteCell(now, rows, columns, r, t.column + k, Some(WordFor(o, t, r, t.column + k)), q, d);
      assert CellAt(now, columns, q, d) == if q == r && t.column <= d < t.column + k then Some(WordFor(o, t, q, d)) else CellAt(before, columns, q, d);
    }
  }

  // ----- Tiles -----

  /** The tile's first `k` rows are painted, nothing else changed. */
  ghost predicate TilePainted(before: Buffer, after: Buffer, rows: nat, columns: nat, o: TileOutput, t: Tile, k: int) {
    |after| == |before| &&
    forall q, d {:trigger CellAt(after, columns, q, d)} :: 0 <= q < rows && 0 <= d < columns ==>
      CellAt(after, columns, q, d) == if Covers(t, q, d) && q < t.row + k then Some(WordFor(o, t, q, d)) else CellAt(before, columns, q, d)
  }

  ghost predicate TileFree(s: Buffer, columns: nat, t: Tile, k: int) {
    forall q, d {:trigger CellAt(s, columns, q, d)} :: Covers(t, q, d) && q < t.row + k ==> CellAt(s, columns, q, d).None?
  }

  lemma {:induction false} RowsPaint(before: Buffer, now: Buffer, after: Buffer, rows: nat, columns: nat, o: TileOutput, t: Tile, k: nat)
    requires InBounds(t, rows, columns) && k < t.rows && TilePainted(before, now, rows, columns, o, t, k)
    requires RowPainted(now, after, rows, columns, o, t, t.row + k, t.columns)
    ensures TilePainted(before, after, rows, columns, o, t, k + 1)
  {
    forall q, d | 0 <= q < rows && 0 <= d < columns
      ensures CellAt(after, columns, q, d) == if Covers(t, q, d) && q < t.row + (k + 1) then Some(WordFor(o, t, q, d)) else CellAt(before, columns, q, d) {
      assert CellAt(now, columns, q, d) == if Covers(t, q, d) && q < t.row + k then Some(WordFor(o, t, q, d)) else CellAt(before, columns, q, d);
    }
  }

  lemma {:induction false} RowsFree(before: Buffer, now: Buffer, rows: nat, columns: nat, o: TileOutput, t: Tile, k: nat)
    requires InBounds(t, rows, columns) && k < t.rows && TilePainted(before, now, rows, columns, o, t, k) && TileFree(before, columns, t, k)
    ensures RowFree(now, columns, t, t.row + k, t.columns) ==> TileFree(before, columns, t, k + 1)
    ensures !RowFree(now, columns, t, t.row + k, t.columns) ==> !TileFree(before, columns, t, t.rows)
  {
    var r := t.row + k;
    forall d | t.column <= d < t.column + t.columns ensures CellAt(now, columns, r, d) == CellAt(before, columns, r, d) {
    }
    if RowFree(now, columns, t, r, t.columns) {
      forall q, d | Covers(t, q, d) && q < t.row + (k + 1) ensures CellAt(before, columns, q, d).None? {
        assert q == r ==> CellAt(now, columns, r, d).None?;
      }
    } else {
      var d :| t.column <= d < t.column + t.columns && CellAt(now, columns, r, d).Some?;
      assert CellAt(before, columns, r, d).Some? && Covers(t, r, d);
    }
  }

  /** Paints a tile; refuses exactly when some cell of it is already taken. */
  method PaintTile(values: array<Option<int>>, rows: nat, columns: nat, o: TileOutput, t: Tile) returns (ok: bool)
    requires values.Length == Times(columns, rows) && InBounds(t, rows, columns) && Identified(o, t)
    modifies values
    ensures ok <==> TileFree(old(values[..]), columns, t, t.rows)
    ensures ok ==> TilePainted(old(values[..]), values[..], rows, columns, o, t, t.rows)
  {
    ghost var before := values[..];
    var r := 0;
    while r < t.rows
      invariant 0 <= r <= t.rows && TilePainted(before, values[..], rows, columns, o, t, r) && TileFree(before, columns, t, r)
    {
      ghost var now := values[..];
      RowsFree(before, now, rows, columns, o, t, r);
      var free := PaintRow(values, rows, columns, o, t, t.row + r);
      if !free {
        return false;
      }
      RowsPaint(before, now, values[..], rows, columns, o, t, r);
      r := r + 1;
    }
    ok := true;
  }

  // ----- Whole grids -----

  /** The word of the last of the first `k` tiles that covers a cell. */
  function Painted(outputs: seq<TileOutput>, layout: seq<Tile>, k: nat, q: int, d: int): Option<int>
    requires k <= |layout| == |outputs|
  {
    if k == 0 then None
    else if Covers(layout[k - 1], q, d) then Some(WordFor(outputs[k - 1], layout[k - 1], q, d))
    else Painted(outputs, layout, k - 1, q, d)
  }

  ghost predicate CoveredBy(layout: seq<Tile>, k: nat, q: int, d: int)
    requires k <= |layout|
  {
    exists i :: 0 <= i < k && Covers(layout[i], q, d)
  }

  lemma {:induction false} PaintedIsCovered(outputs: seq<TileOutput>, layout: seq<Tile>, k: nat, q: int, d: int)
    requires k <= |layout| == |outputs|
    ensures Painted(outputs, layout, k, q, d).Some? <==> CoveredBy(layout, k, q, d)
  {
    if k > 0 {
      PaintedIsCovered(outputs, layout, k - 1, q, d);
    }
  }

  ghost predicate Apart(a: Tile, b: Tile) {
    forall q, d {:trigger Covers(a, q, d)} {:trigger Covers(b, q, d)} :: !(Covers(a, q, d) && Covers(b, q, d))
  }

  /** No two of the first `k` tiles share a cell. */
  ghost predicate AllApart(layout: seq<Tile>, k: nat)
    requires k <= |layout|
  {
    forall i, j {:trigger Apart(layout[i], layout[j])} :: 0 <= i < j < k ==> Apart(layout[i], layout[j])
  }

  /** The tiles cover every cell of the grid exactly once, and nothing outside it. */
  ghost predicate Partitions(layout: seq<Tile>, rows: int, columns: int) {
    && (forall i :: 0 <= i < |layout| ==> InBounds(layout[i], rows, columns))
    && AllApart(layout, |layout|)
    && Gapless(layout, rows, columns)
  }

  ghost predicate Gapless(layout: seq<Tile>, rows: int, columns: int) {
    forall q, d {:trigger CoveredBy(layout, |layout|, q, d)} :: 0 <= q < rows && 0 <= d < columns ==> CoveredBy(layout, |layout|, q, d)
  }

  ghost predicate PaintedTo(s: Buffer, rows: nat, columns: nat, outputs: seq<TileOutput>, layout: seq<Tile>, k: nat)
    requires k <= |layout| == |outputs|
  {
    |s| == Times(columns, rows) &&
    forall q, d {:trigger CellAt(s, columns, q, d)} :: 0 <= q < rows && 0 <= d < columns ==> CellAt(s, columns, q, d) == Painted(outputs, layout, k, q, d)
  }

  /** A tile's cells are free exactly when it is apart from every tile before it. */
  lemma {:induction false} FreeIffApart(s: Buffer, rows: nat, columns: nat, outputs: seq<TileOutput>, layout: seq<Tile>, k: nat)
    requires k < |layout| == |outputs| && PaintedTo(s, rows, columns, outputs, layout, k) && AllApart(layout, k)
    requires InBounds(layout[k], rows, columns)
    ensures TileFree(s, columns, layout[k], layout[k].rows) <==> AllApart(layout, k + 1)
  {
    var t := layout[k];
    if TileFree(s, columns, t, t.rows) {
      forall i, j | 0 <= i < j < k + 1 ensures Apart(layout[i], layout[j]) {
        if j == k {
          forall q, d ensures !(Covers(layout[i], q, d) && Covers(t, q, d)) {
            PaintedIsCovered(outputs, layout, k, q, d);
            if Covers(t, q, d) {
              assert CellAt(s, columns, q, d).None?;
            }
          }
        } else {
          assert Apart(layout[i], layout[j]);
        }
      }
    } else {
      var q, d :| Covers(t, q, d) && CellAt(s, columns, q, d).Some?;
      PaintedIsCovered(outputs, layout, k, q, d);
      var i :| 0 <= i < k && Covers(layout[i], q, d);
      assert !Apart(layout[i], layout[k]);
    }
  }

  /** The tile that covers a cell of a layout without overlaps decides its word. */
  lemma {:induction false} UniqueWord(outputs: seq<TileOutput>, layout: seq<Tile>, k: nat, i: nat, q: int, d: int)
    requires i < k <= |layout| == |outputs| && AllApart(layout, k) && Covers(layout[i], q, d)
    ensures Painted(outputs, layout, k, q, d) == Some(WordFor(outputs[i], layout[i], q, d))
  {
    if i < k - 1 {
      assert Apart(layout[i], layout[k - 1]);
      UniqueWord(outputs, layout, k - 1, i, q, d);
    }
  }

  ghost predicate Assemblable(outputs: seq<TileOutput>, layout: seq<Tile>, rows: int, columns: int) {
    && 1 <= rows <= 64 && 1 <= columns <= 64 && |outputs| == |layout|
    && (forall i :: 0 <= i < |layout| ==> Identified(outputs[i], layout[i]))
    && Partitions(layout, rows, columns)
  }

  /** Succeeds exactly when the identified tiles partition the grid; each cell is the word of the one tile that covers it. */
  method Assemble(outputs: seq<TileOutput>, layout: seq<Tile>, rows: int, columns: int) returns (r: Option<seq<int>>)
    ensures r.Some? <==> Assemblable(outputs, layout, rows, columns)
    ensures r.Some? ==> |r.value| == Times(columns, rows)
    ensures r.Some? ==> forall i, q, d {:trigger Covers(layout[i], q, d)} :: 0 <= i < |layout| && Covers(layout[i], q, d) ==>
      0 <= Index(columns, q, d) < |r.value| && r.value[Index(columns, q, d)] == WordFor(outputs[i], layout[i], q, d)
  {
    if !(1 <= rows <= 64) || !(1 <= columns <= 64) || |outputs| != |layout| {
      return None;
    }
    TimesNonNegative(columns, rows);
    var values := new Option<int>[Times(columns, rows)](_ => None);
    var k := 0;
    while k < |layout|
      invariant 0 <= k <= |layout| && PaintedTo(values[..], rows, columns, outputs, layout, k) && AllApart(layout, k)
      invariant forall i :: 0 <= i < k ==> InBounds(layout[i], rows, columns) && Identified(outputs[i], layout[i])
    {
      if !InBounds(layout[k], rows, columns) || !Identified(outputs[k], layout[k]) {
        return None;
      }
      FreeIffApart(values[..], rows, columns, outputs, layout, k);
      ghost var before := values[..];
      var painted := PaintTile(values, rows, columns, outputs[k], layout[k]);
      if !painted {
        assert !AllApart(layout, |layout|) by { ApartPrefix(layout, k + 1); }
        return None;
      }
      TilePaints(before, values[..], rows, columns, outputs, layout, k);
      k := k + 1;
    }
    var gap := exists n :: 0 <= n < values.Length && values[n].None?;
    GapIsUncovered(values[..], rows, columns, outputs, layout);
    if gap {
      return None;
    }
    var words := seq(values.Length, n requires 0 <= n < values.Length reads values => if values[n].Some? then values[n].value else 0);
    forall i, q, d | 0 <= i < |layout| && Covers(layout[i], q, d)
      ensures 0 <= Index(columns, q, d) < |words| && words[Index(columns, q, d)] == WordFor(outputs[i], layout[i], q, d) {
      IndexInRange(rows, columns, q, d);
      UniqueWord(outputs, layout, k, i, q, d);
      assert CellAt(values[..], columns, q, d) == Some(WordFor(outputs[i], layout[i], q, d));
    }
    r := Some(words);
  }

  lemma {:induction false} ApartPrefix(layout: seq<Tile>, k: nat)
    requires k <= |layout| && !AllApart(layout, k)
    ensures !AllApart(layout, |layout|)
  {
  }

  lemma {:induction false} TilePaints(before: Buffer, after: Buffer, rows: nat, columns: nat, outputs: seq<TileOutput>, layout: seq<Tile>, k: nat)
    requires k < |layout| == |outputs| && PaintedTo(before, rows, columns, outputs, layout, k)
    requires TilePainted(before, after, rows, columns, outputs[k], layout[k], layout[k].rows)
    ensures PaintedTo(after, rows, columns, outputs, layout, k + 1)
  {
    forall q, d | 0 <= q < rows && 0 <= d < columns ensures CellAt(after, columns, q, d) == Painted(outputs, layout, k + 1, q, d) {
      assert CellAt(before, columns, q, d) == Painted(outputs, layout, k, q, d);
    }
  }

  /** The painted buffer has a gap exactly when some cell of the grid is covered by no tile. */
  lemma {:induction false} GapIsUncovered(s: Buffer, rows: nat, columns: nat, outputs: seq<TileOutput>, layout: seq<Tile>)
    requires |layout| == |outputs| && columns > 0 && PaintedTo(s, rows, columns, outputs, layout, |layout|)
    ensures (forall n :: 0 <= n < |s| ==> s[n].Some?) <==> Gapless(layout, rows, columns)
  {
    if Gapless(layout, rows, columns) {
      forall n | 0 <= n < |s| ensures s[n].Some? {
        CellOfIndex(rows, columns, n);
        IndexOfCell(columns, n);
        var q, d := n / columns, n % columns;
        assert CellAt(s, columns, q, d) == s[n];
        assert CoveredBy(layout, |layout|, q, d);
        PaintedIsCovered(outputs, layout, |layout|, q, d);
      }
    }
    if forall n :: 0 <= n < |s| ==> s[n].Some? {
      forall q, d | 0 <= q < rows && 0 <= d < columns ensures CoveredBy(layout, |layout|, q, d) {
        IndexInRange(rows, columns, q, d);
        PaintedIsCovered(outputs, layout, |layout|, q, d);
        assert CellAt(s, columns, q, d) == s[Index(columns, q, d)];
      }
    }
  }
}
