/** Integer grid cells and the rectangular scans that the world code runs over them. */
module Grid {

  /** A cell of the world grid (Unity's Vector2Int); equality is by value. */
  datatype Cell = Cell(x: int, y: int)

  /** Component-wise sum of a cell and an offset (`basePos + offset` on Vector2Int). */
  function Offset(origin: Cell, d: Cell): Cell {
    Cell(origin.x + d.x, origin.y + d.y)
  }

  /** Number of integers in the half-open range [lo, hi); zero when the range is empty. */
  function Span(lo: int, hi: int): nat {
    if hi <= lo then 0 else hi - lo
  }

  /** C#'s `n / 2` on `int`, which truncates toward zero (Dafny's `/` is Euclidean). */
  function HalfTowardZero(n: int): (r: int)
    ensures n >= 0 ==> 0 <= n - 2 * r <= 1
    ensures n < 0 ==> -1 <= n - 2 * r <= 0
  {
    if n >= 0 then n / 2 else -((-n) / 2)
  }

  /** The cells (x, y0), (x, y0 + 1), ..., (x, y1 - 1), in that order. */
  function Column(x: int, y0: int, y1: int): seq<Cell>
    decreases y1 - y0
  {
    if y1 <= y0 then [] else Column(x, y0, y1 - 1) + [Cell(x, y1 - 1)]
  }

  /** The cells (x0, y), (x0 + 1, y), ..., (x1 - 1, y), in that order. */
  function Row(y: int, x0: int, x1: int): seq<Cell>
    decreases x1 - x0
  {
    if x1 <= x0 then [] else Row(y, x0, x1 - 1) + [Cell(x1 - 1, y)]
  }

  /** The cells of [x0, x1) x [y0, y1) in scan order: x in the outer loop, y in the inner one. */
  function Rect(x0: int, x1: int, y0: int, y1: int): seq<Cell>
    decreases x1 - x0
  {
    if x1 <= x0 then [] else Rect(x0, x1 - 1, y0, y1) + Column(x1 - 1, y0, y1)
  }

  predicate InRect(c: Cell, x0: int, x1: int, y0: int, y1: int) {
    x0 <= c.x < x1 && y0 <= c.y < y1
  }

  /** `a` is visited strictly before `b` by a scan with x outer and y inner. */
  predicate ScansBefore(a: Cell, b: Cell) {
    a.x < b.x || (a.x == b.x && a.y < b.y)
  }

  /** A column lists each of its cells exactly once and nothing else. */
  lemma {:induction false} ColumnCount(x: int, y0: int, y1: int, c: Cell)
    ensures multiset(Column(x, y0, y1))[c] == if c.x == x && y0 <= c.y < y1 then 1 else 0
    decreases y1 - y0
  {
    if y0 < y1 {
      ColumnCount(x, y0, y1 - 1, c);
    }
  }

  lemma {:induction false} ColumnLength(x: int, y0: int, y1: int)
    ensures |Column(x, y0, y1)| == Span(y0, y1)
    decreases y1 - y0
  {
    if y0 < y1 {
      ColumnLength(x, y0, y1 - 1);
    }
  }

  lemma ColumnCells(x: int, y0: int, y1: int)
    ensures forall c :: c in Column(x, y0, y1) <==> c.x == x && y0 <= c.y < y1
  {
    forall c ensures c in Column(x, y0, y1) <==> c.x == x && y0 <= c.y < y1 {
      ColumnCount(x, y0, y1, c);
    }
  }

  /** A row lists each of its cells exactly once and nothing else. */
  lemma {:induction false} RowCount(y: int, x0: int, x1: int, c: Cell)
    ensures multiset(Row(y, x0, x1))[c] == if c.y == y && x0 <= c.x < x1 then 1 else 0
    decreases x1 - x0
  {
    if x0 < x1 {
      RowCount(y, x0, x1 - 1, c);
    }
  }

  lemma {:induction false} RowLength(y: int, x0: int, x1: int)
    ensures |Row(y, x0, x1)| == Span(x0, x1)
    decreases x1 - x0
  {
    if x0 < x1 {
      RowLength(y, x0, x1 - 1);
    }
  }

  /** A rectangle scan lists each cell of the rectangle exactly once and nothing else. */
  lemma {:induction false} RectCount(x0: int, x1: int, y0: int, y1: int, c: Cell)
    ensures multiset(Rect(x0, x1, y0, y1))[c] == if InRect(c, x0, x1, y0, y1) then 1 else 0
    decreases x1 - x0
  {
    if x0 < x1 {
      RectCount(x0, x1 - 1, y0, y1, c);
      ColumnCount(x1 - 1, y0, y1, c);
    }
  }

  lemma RectCells(x0: int, x1: int, y0: int, y1: int)
    ensures forall c :: c in Rect(x0, x1, y0, y1) <==> InRect(c, x0, x1, y0, y1)
  {
    forall c ensures c in Rect(x0, x1, y0, y1) <==> InRect(c, x0, x1, y0, y1) {
      RectCount(x0, x1, y0, y1, c);
    }
  }

  lemma {:induction false} RectLength(x0: int, x1: int, y0: int, y1: int)
    ensures |Rect(x0, x1, y0, y1)| == Span(x0, x1) * Span(y0, y1)
    decreases x1 - x0
  {
    if x0 < x1 {
      RectLength(x0, x1 - 1, y0, y1);
      ColumnLength(x1 - 1, y0, y1);
      assert Span(x0, x1) == Span(x0, x1 - 1) + 1;
    }
  }

  /** A rectangle scan cut off after fewer columns is a prefix of the whole scan. */
  lemma {:induction false} RectPrefix(x0: int, x: int, x1: int, y0: int, y1: int)
    requires x <= x1
    ensures Rect(x0, x, y0, y1) <= Rect(x0, x1, y0, y1)
    decreases x1 - x
  {
    if x < x1 {
      RectPrefix(x0, x, x1 - 1, y0, y1);
      if x0 < x1 {
        assert Rect(x0, x1 - 1, y0, y1) <= Rect(x0, x1, y0, y1);
      }
    }
  }

  /** Each finished column extends the visited cells by that column, one column's height more. */
  lemma ColumnDone(x0: int, y0: int, y1: int, x: int)
    requires x0 <= x
    ensures Rect(x0, x + 1, y0, y1) == Rect(x0, x, y0, y1) + Column(x, y0, y1)
    ensures |Rect(x0, x + 1, y0, y1)| == |Rect(x0, x, y0, y1)| + Span(y0, y1)
  {
    ColumnLength(x, y0, y1);
  }

  /** Once the outer loop has passed the last column it has visited the whole rectangle. */
  lemma ScanDone(x0: int, x1: int, y0: int, y1: int, x: int)
    requires x0 <= x && (x <= x1 || x == x0) && x1 <= x
    ensures Rect(x0, x, y0, y1) == Rect(x0, x1, y0, y1)
  {
  }

  /** Recording (x, y) after the cells of column `x` below it records the column up to and including (x, y). */
  lemma ColumnAppend(p: seq<Cell>, x: int, y0: int, y: int)
    requires y0 <= y
    ensures p + Column(x, y0, y) + [Cell(x, y)] == p + Column(x, y0, y + 1)
  {
    assert Column(x, y0, y + 1) == Column(x, y0, y) + [Cell(x, y)];
  }

  /** Recording a whole column after the first columns of a rectangle records one more column of it. */
  lemma RectAppend(p: seq<Cell>, x0: int, x: int, y0: int, y1: int)
    requires x0 <= x
    ensures p + Rect(x0, x, y0, y1) + Column(x, y0, y1) == p + Rect(x0, x + 1, y0, y1)
  {
    ColumnDone(x0, y0, y1, x);
    assert p + Rect(x0, x, y0, y1) + Column(x, y0, y1) == p + (Rect(x0, x, y0, y1) + Column(x, y0, y1));
  }

  /** A column is scanned bottom to top. */
  lemma {:induction false} ColumnOrdered(x: int, y0: int, y1: int)
    ensures forall i, j | 0 <= i < j < |Column(x, y0, y1)| :: ScansBefore(Column(x, y0, y1)[i], Column(x, y0, y1)[j])
    decreases y1 - y0
  {
    if y0 < y1 {
      ColumnOrdered(x, y0, y1 - 1);
      ColumnCells(x, y0, y1 - 1);
    }
  }

  /** A rectangle scan visits its cells in strictly increasing (x, y) order: x outer, y inner. */
  lemma {:induction false} RectOrdered(x0: int, x1: int, y0: int, y1: int)
    ensures forall i, j | 0 <= i < j < |Rect(x0, x1, y0, y1)| :: ScansBefore(Rect(x0, x1, y0, y1)[i], Rect(x0, x1, y0, y1)[j])
    decreases x1 - x0
  {
    if x0 < x1 {
      var before, col := Rect(x0, x1 - 1, y0, y1), Column(x1 - 1, y0, y1);
      RectOrdered(x0, x1 - 1, y0, y1);
      ColumnOrdered(x1 - 1, y0, y1);
      RectCells(x0, x1 - 1, y0, y1);
      ColumnCells(x1 - 1, y0, y1);
      forall i, j | 0 <= i < j < |before + col|
        ensures ScansBefore((before + col)[i], (before + col)[j])
      {
        if i < |before| && j >= |before| {
          assert before[i] in before;
          assert col[j - |before|] in col;
        }
      }
    }
  }

  /** Occurrences in a concatenation of four lists add up. */
  lemma CountConcat(p: seq<Cell>, q: seq<Cell>, r: seq<Cell>, s: seq<Cell>, c: Cell)
    ensures multiset(p + q + r + s)[c] == multiset(p)[c] + multiset(q)[c] + multiset(r)[c] + multiset(s)[c]
  {
    assert multiset(p + q + r + s) == multiset(p) + multiset(q) + multiset(r) + multiset(s);
  }
}
