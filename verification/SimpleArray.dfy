/** Simple arrays: `PutSimpleArray` writes a whole one- or two-dimensional array, `GetSimpleArray`
    reads a window of it. */
module SimpleArrays {
  import opened GoStrings
  import opened DenseArrays
  import opened Records
  import opened ArrayResults
  import opened ArrayStores

  const DEFAULT_ATTR_NAME := "a"

  /** The whole array: 1 to the size of each dimension. */
  function WholeRange(dims: seq<int>): seq<int>
  {
    seq(2 * |dims|, i requires 0 <= i < 2 * |dims| => if i % 2 == 0 then 1 else dims[i / 2])
  }

  /** The range loop of `PutSimpleArray`: its counter runs in steps of two up to the number of
      dimensions, so that later dimensions keep the bounds 0. */
  method PutRange(dims: seq<int>) returns (range: seq<int>)
    requires |dims| >= 1
    ensures |range| == 2 * |dims|
    ensures forall j | 0 <= j < |range| :: range[j] == if j - j % 2 <= |dims| then WholeRange(dims)[j] else 0
  {
    var br := new int[2 * |dims|](_ => 0);
    var i := 0;
    while i <= |dims|
      invariant 0 <= i <= |dims| + 2 && i % 2 == 0
      invariant forall j | 0 <= j < br.Length :: br[j] == if j < i then WholeRange(dims)[j] else 0
    {
      br[i] := 1;
      br[i + 1] := dims[i / 2];
      i := i + 2;
    }
    return br[..];
  }

  /** The loop fills the whole range exactly for one and two dimensions. */
  lemma RangeFilledExactlyWhen(dims: seq<int>, range: seq<int>)
    requires |dims| >= 1 && |range| == 2 * |dims|
    requires forall j | 0 <= j < |range| :: range[j] == if j - j % 2 <= |dims| then WholeRange(dims)[j] else 0
    ensures range == WholeRange(dims) <==> |dims| <= 2
  {
    var last := 2 * |dims| - 2;
    assert last % 2 == 0 && WholeRange(dims)[last] == 1;
    assert range[last] == if last <= |dims| then 1 else 0;
  }

  /** The window asked for: rows first, then columns; no range at all is the whole array. */
  predicate Window(xRange: seq<int>, yRange: seq<int>, domain: seq<int>, w: seq<int>)
  {
    if |xRange| != 2 && |yRange| != 2 then w == domain
    else
      && |domain| == |w| == 4
      && AxisBounds(yRange, domain[0], domain[1], w[0], w[1]) && AxisBounds(xRange, domain[2], domain[3], w[2], w[3])
  }

  /** The array of the given sizes, as a store with one attribute. */
  method PutSimpleArray(buffer: seq<Cell>, dims: seq<int>) returns (store: ArrayStore)
    requires 1 <= |dims| <= 2 && (forall i | 0 <= i < |dims| :: dims[i] >= 1)
    requires |buffer| == Points(BoxOf(WholeRange(dims))) && Ordered(BoxOf(WholeRange(dims)))
    ensures fresh(store) && store.domain == WholeRange(dims) && store.schema == [DEFAULT_ATTR_NAME] && store.kinds == map[]
    ensures DEFAULT_ATTR_NAME in store.columns
    ensures exists cells :: store.columns[DEFAULT_ATTR_NAME] == Put(cells, BoxOf(WholeRange(dims)), buffer)
  {
    store := new ArrayStore(WholeRange(dims), [DEFAULT_ATTR_NAME], map[]);
    var range := PutRange(dims);
    RangeFilledExactlyWhen(dims, range);
    var attr := AttrData(DEFAULT_ATTR_NAME, 0, Float64, Column(buffer), []);
    assert PutPossible(BoxOf(range), [attr]);
    PutAllColumn(store.columns, BoxOf(range), [attr], 0);
    store.PutArray(PutArrayInput([attr], range));
  }

  method GetSimpleArray(store: ArrayStore, xRange: seq<int>, yRange: seq<int>, ghost w: seq<int>) returns (r: Option<ArrayResult>)
    requires store.kinds == map[] && Window(xRange, yRange, store.domain, w) && IsRange(w)
    ensures r.Some? <==> DEFAULT_ATTR_NAME in store.schema
    ensures r.Some? ==> fresh(r.value) && r.value.range == w && r.value.data == [store.Read(DEFAULT_ATTR_NAME, w)]
  {
    var bufferRange: seq<int> := [];
    if |xRange| == 2 || |yRange| == 2 {
      bufferRange := [0, 0, 0, 0];
      if |yRange| == 2 {
        bufferRange := bufferRange[0 := yRange[0]];
        bufferRange := bufferRange[1 := yRange[1]];
      }
      if |xRange| == 2 {
        bufferRange := bufferRange[2 := xRange[0]];
        bufferRange := bufferRange[3 := xRange[1]];
      }
    }
    assert OpRange(bufferRange, store.domain) == w;
    r := store.GetArray([DEFAULT_ATTR_NAME], bufferRange);
    if r.Some? {
      assert DEFAULT_ATTR_NAME in [DEFAULT_ATTR_NAME];
      assert r.value.data == [r.value.data[0]];
    } else {
      assert forall a | a in [DEFAULT_ATTR_NAME] :: a == DEFAULT_ATTR_NAME;
    }
  }

  // ------------------------------------------------------------ what a window shows

  predicate WindowOf(w: seq<int>, rows: int, cols: int)
  {
    |w| == 4 && 1 <= w[0] <= w[1] <= rows && 1 <= w[2] <= w[3] <= cols
  }

  /** A window of an array of `cols` columns shows the buffer: every index is in bounds and cell
      (r, c) of the window is the buffer element of that point. */
  ghost predicate ShowsBuffer(data: seq<Cell>, w: seq<int>, buffer: seq<Cell>, cols: int)
    requires |w| == 4
  {
    && |data| == Rows(w) * Cols(w)
    && forall r, c | 0 <= r < Rows(w) && 0 <= c < Cols(w) :: ShowsAt(data, w, buffer, cols, r, c)
  }

  /** Where row `y` and column `x` of the array are in the buffer, both counted from 1. */
  function At(cols: int, y: int, x: int): int { (y - 1) * cols + (x - 1) }

  /** The cell is the buffer element of that row and column. */
  predicate IsElement(cell: Cell, buffer: seq<Cell>, cols: int, y: int, x: int)
  {
    0 <= At(cols, y, x) < |buffer| && cell == buffer[At(cols, y, x)]
  }

  predicate ShowsAt(data: seq<Cell>, w: seq<int>, buffer: seq<Cell>, cols: int, r: int, c: int)
    requires |w| == 4
  {
    0 <= IndexAt(w, r, c) < |data| && IsElement(data[IndexAt(w, r, c)], buffer, cols, w[0] + r, w[2] + c)
  }

  lemma WholePlane(rows: int, cols: int)
    requires rows >= 1 && cols >= 1
    ensures WholeRange([rows, cols]) == [1, rows, 1, cols]
    ensures BoxOf([1, rows, 1, cols]) == Axis(1, rows, Axis(1, cols, Unit))
    ensures Ordered(BoxOf([1, rows, 1, cols])) && Points(BoxOf([1, rows, 1, cols])) == rows * cols
  {
    PlaneBox([1, rows, 1, cols]);
    PlanePoints([1, rows, 1, cols]);
  }

  lemma WindowInside(w: seq<int>, rows: int, cols: int)
    requires WindowOf(w, rows, cols)
    ensures IsRange(w) && Inside(BoxOf(w), BoxOf([1, rows, 1, cols]))
  {
    PlaneBox(w);
    PlaneBox([1, rows, 1, cols]);
    assert Inside(Unit, Unit);
  }

  lemma WindowCell(cells: Cells<Cell>, rows: int, cols: int, buffer: seq<Cell>, w: seq<int>, r: int, c: int)
    requires rows >= 1 && cols >= 1 && |buffer| == rows * cols && WindowOf(w, rows, cols)
    requires 0 <= r < Rows(w) && 0 <= c < Cols(w)
    ensures Ordered(BoxOf([1, rows, 1, cols])) && Points(BoxOf([1, rows, 1, cols])) == |buffer| && Ordered(BoxOf(w))
    ensures ShowsAt(Get(Put(cells, BoxOf([1, rows, 1, cols]), buffer), BoxOf(w)), w, buffer, cols, r, c)
  {
    var whole := [1, rows, 1, cols];
    WholePlane(rows, cols);
    WindowInside(w, rows, cols);
    var pt := [w[0] + r, w[2] + c];
    PlanePosition(w, w[0] + r, w[2] + c);
    PointOfLinear(BoxOf(w), pt);
    var i := Linear(BoxOf(w), pt);
    assert i == IndexAt(w, r, c);
    WindowOfBuffer(cells, BoxOf(whole), buffer, BoxOf(w), i);
    PlanePosition(whole, w[0] + r, w[2] + c);
    assert Linear(BoxOf(whole), pt) == At(cols, w[0] + r, w[2] + c);
  }

  /** Reading any window inside an array shows the buffer that was written. */
  lemma WindowShowsBuffer(cells: Cells<Cell>, rows: int, cols: int, buffer: seq<Cell>, w: seq<int>)
    requires rows >= 1 && cols >= 1 && |buffer| == rows * cols && WindowOf(w, rows, cols)
    ensures Ordered(BoxOf([1, rows, 1, cols])) && Points(BoxOf([1, rows, 1, cols])) == |buffer| && Ordered(BoxOf(w))
    ensures ShowsBuffer(Get(Put(cells, BoxOf([1, rows, 1, cols]), buffer), BoxOf(w)), w, buffer, cols)
  {
    WholePlane(rows, cols);
    WindowInside(w, rows, cols);
    PlanePoints(w);
    PointsPositive(BoxOf(w));
    forall r, c | 0 <= r < Rows(w) && 0 <= c < Cols(w)
      ensures ShowsAt(Get(Put(cells, BoxOf([1, rows, 1, cols]), buffer), BoxOf(w)), w, buffer, cols, r, c)
    {
      WindowCell(cells, rows, cols, buffer, w, r, c);
    }
  }

  lemma RowBounds(w: seq<int>, data: seq<Cell>, r: int)
    requires |w| == 4 && |data| == Rows(w) * Cols(w) && 0 <= r < Rows(w) && Cols(w) >= 0
    ensures 0 <= r * Cols(w) <= r * Cols(w) + Cols(w) <= |data|
  {
    TimesMonotone(Rows(w), r + 1, Cols(w));
    TimesMonotone(r, 0, Cols(w));
    assert (r + 1) * Cols(w) == r * Cols(w) + Cols(w);
  }

  /** The rows of a result, one after the other. */
  function JoinedRows(w: seq<int>, data: seq<Cell>, n: int): seq<Cell>
    requires |w| == 4 && |data| == Rows(w) * Cols(w) && 0 <= n <= Rows(w) && Cols(w) >= 0
  {
    if n == 0 then [] else RowBounds(w, data, n - 1); JoinedRows(w, data, n - 1) + RowOf(w, data, n - 1)
  }

  /** Concatenated, the rows rebuild the data of the result. */
  lemma {:induction false} RowsRebuild(w: seq<int>, data: seq<Cell>, n: int)
    requires |w| == 4 && |data| == Rows(w) * Cols(w) && 0 <= n <= Rows(w) && Cols(w) >= 0
    ensures 0 <= n * Cols(w) <= |data| && JoinedRows(w, data, n) == data[..n * Cols(w)]
  {
    if n > 0 {
      RowsRebuild(w, data, n - 1);
      RowBounds(w, data, n - 1);
      assert (n - 1) * Cols(w) + Cols(w) == n * Cols(w);
    }
  }

  /** Rows and columns of a window show the buffer: row `r` from column `x0` and column `c` from
      row `y0` on. */
  method RowAndColumn(buffer: seq<Cell>, rows: int, cols: int, xRange: seq<int>, yRange: seq<int>, r: int, c: int,
                      ghost y0: int, ghost y1: int, ghost x0: int, ghost x1: int)
    returns (row: seq<Cell>, column: seq<Cell>)
    requires rows >= 1 && cols >= 1 && |buffer| == rows * cols
    requires AxisBounds(yRange, 1, rows, y0, y1) && 1 <= y0 <= y1 <= rows && 0 <= r <= y1 - y0
    requires AxisBounds(xRange, 1, cols, x0, x1) && 1 <= x0 <= x1 <= cols && 0 <= c <= x1 - x0
    ensures |row| == x1 - x0 + 1 && |column| == y1 - y0 + 1
    ensures forall i | 0 <= i < |row| :: IsElement(row[i], buffer, cols, y0 + r, x0 + i)
    ensures forall i | 0 <= i < |column| :: IsElement(column[i], buffer, cols, y0 + i, x0 + c)
  {
    WholePlane(rows, cols);
    var store := PutSimpleArray(buffer, [rows, cols]);
    ghost var w := [y0, y1, x0, x1];
    WindowInside(w, rows, cols);
    var result := GetSimpleArray(store, xRange, yRange, w);
    ghost var cells :| store.columns[DEFAULT_ATTR_NAME] == Put(cells, BoxOf(WholeRange([rows, cols])), buffer);
    WindowShowsBuffer(cells, rows, cols, buffer, w);
    ghost var data := result.value.data[0];
    assert ShowsBuffer(data, w, buffer, cols);
    RowBounds(w, data, r);
    row := result.value.GetRow(r, 0);
    RowShows(data, w, buffer, cols, r);
    ColumnShows(data, w, buffer, cols, c);
    column := result.value.GetColumn(c, 0);
  }

  lemma RowShows(data: seq<Cell>, w: seq<int>, buffer: seq<Cell>, cols: int, r: int)
    requires |w| == 4 && ShowsBuffer(data, w, buffer, cols) && 0 <= r < Rows(w) && Cols(w) >= 0
    ensures 0 <= r * Cols(w) <= r * Cols(w) + Cols(w) <= |data|
    ensures forall i | 0 <= i < Cols(w) :: IsElement(RowOf(w, data, r)[i], buffer, cols, w[0] + r, w[2] + i)
  {
    RowBounds(w, data, r);
    forall i | 0 <= i < Cols(w) ensures IsElement(RowOf(w, data, r)[i], buffer, cols, w[0] + r, w[2] + i) {
      assert ShowsAt(data, w, buffer, cols, r, i);
      RowCell(data, w, r, i);
    }
  }

  lemma RowCell(data: seq<Cell>, w: seq<int>, r: int, i: int)
    requires |w| == 4 && 0 <= r * Cols(w) <= r * Cols(w) + Cols(w) <= |data| && 0 <= i < Cols(w)
    ensures 0 <= IndexAt(w, r, i) < |data| && RowOf(w, data, r)[i] == data[IndexAt(w, r, i)]
  {
  }

  lemma ColumnInside(data: seq<Cell>, w: seq<int>, buffer: seq<Cell>, cols: int, c: int)
    requires |w| == 4 && ShowsBuffer(data, w, buffer, cols) && 0 <= c < Cols(w)
    ensures ColumnInBounds(w, data, c)
  {
    forall i | 0 <= i < Rows(w) ensures 0 <= IndexAt(w, i, c) < |data| {
      assert ShowsAt(data, w, buffer, cols, i, c);
    }
  }

  lemma ColumnCell(data: seq<Cell>, w: seq<int>, c: int, i: int)
    requires |w| == 4 && ColumnInBounds(w, data, c) && 0 <= i < Rows(w)
    ensures 0 <= IndexAt(w, i, c) < |data| && ColumnAt(w, data, c)[i] == data[IndexAt(w, i, c)]
  {
  }

  lemma ColumnShows(data: seq<Cell>, w: seq<int>, buffer: seq<Cell>, cols: int, c: int)
    requires |w| == 4 && ShowsBuffer(data, w, buffer, cols) && 0 <= c < Cols(w)
    ensures ColumnInBounds(w, data, c)
    ensures forall i | 0 <= i < Rows(w) :: IsElement(ColumnAt(w, data, c)[i], buffer, cols, w[0] + i, w[2] + c)
  {
    ColumnInside(data, w, buffer, cols, c);
    forall i | 0 <= i < Rows(w) ensures IsElement(ColumnAt(w, data, c)[i], buffer, cols, w[0] + i, w[2] + c) {
      assert ShowsAt(data, w, buffer, cols, i, c);
      ColumnCell(data, w, c, i);
    }
  }
}
