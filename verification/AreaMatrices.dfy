/** The areas of combat spells: flat arrays whose rotations are strided slice assignments, and the
    centre that has to move with the cells. */
module AreaMatrices {
  import opened Arithmetic

  /** `MatrixArea`: the column and row of the centre, the size, and the cells row by row. */
  datatype Area = Area(x: nat, y: nat, rows: nat, cols: nat, arr: seq<bool>)

  /** The position of an element of a slice, and of a cell in the flat array. */
  function Idx(k: int, start: int, stride: int): int { k * stride + start }

  ghost predicate Valid(a: Area) {
    && |a.arr| == a.rows * a.cols
    && a.x < TWO_32 && a.y < TWO_32 && a.rows < TWO_32 && a.cols < TWO_32
  }

  /** The cell in a row and column; outside nothing is set. */
  ghost predicate Get(a: Area, r: int, c: int) {
    0 <= r < a.rows && 0 <= c < a.cols && 0 <= Idx(r, c, a.cols) < |a.arr| && a.arr[Idx(r, c, a.cols)]
  }

  /** `n - k - 1` in 32 bits */
  function Across(n: nat, k: nat): nat {
    (n as int - k - 1) % TWO_32
  }

  // ----- Positions --------------------------------------------------------------------------

  lemma IdxInside(r: int, c: int, rows: int, cols: int)
    requires 0 <= r < rows && 0 <= c < cols
    ensures 0 <= Idx(r, c, cols) < rows * cols
  {
    TimesOrder(r + 1, rows, cols);
    TimesOrder(0, r, cols);
    NextMultiple(r, cols);
  }

  /** A row further down is a position further on. */
  lemma IdxLater(r: int, c: int, r': int, c': int, cols: int)
    requires 0 <= c < cols && 0 <= c' && r < r'
    ensures Idx(r, c, cols) < Idx(r', c', cols)
  {
    TimesOrder(r + 1, r', cols);
    NextMultiple(r, cols);
  }

  lemma IdxApart(r: int, c: int, r': int, c': int, cols: int)
    requires 0 <= c < cols && 0 <= c' < cols && Idx(r, c, cols) == Idx(r', c', cols)
    ensures r == r' && c == c'
  {
    if r < r' { IdxLater(r, c, r', c', cols); }
    if r' < r { IdxLater(r', c', r, c, cols); }
  }

  lemma IdxOf(p: int, rows: int, cols: int) returns (r: int, c: int)
    requires 0 <= p < rows * cols && 0 <= rows && 0 <= cols
    ensures 0 <= r < rows && 0 <= c < cols && p == Idx(r, c, cols)
  {
    assert cols > 0;
    r, c := p / cols, p % cols;
    assert p == r * cols + c;
    FactorOrder(r, rows, cols);
  }

  lemma RowStart(r: int, k: int, cols: int)
    ensures Idx(k, r * cols, 1) == Idx(r, k, cols)
  {
  }

  // ----- Cells decide -----------------------------------------------------------------------

  /** Areas of the same size with the same cells are the same array. */
  lemma CellsDecide(a: Area, b: Area)
    requires Valid(a) && Valid(b) && a.rows == b.rows && a.cols == b.cols
    requires forall r, c :: 0 <= r < a.rows && 0 <= c < a.cols ==> Get(a, r, c) == Get(b, r, c)
    ensures a.arr == b.arr
  {
    forall p | 0 <= p < |a.arr| ensures a.arr[p] == b.arr[p] {
      var r, c := IdxOf(p, a.rows, a.cols);
      assert Get(a, r, c) == Get(b, r, c);
    }
  }

  /** What the transformations are for: b is a turned by 90, 180 and 270 degrees clockwise, with the
      rows upside down, with the columns the other way round, or with rows and columns exchanged. */
  ghost predicate Quarter(a: Area, b: Area) {
    && Valid(b) && b.rows == a.cols && b.cols == a.rows && b.x == Across(a.rows, a.y) && b.y == a.x
    && forall r, c :: 0 <= r < b.rows && 0 <= c < b.cols ==> Get(b, r, c) == Get(a, a.rows - 1 - c, r)
  }

  ghost predicate Half(a: Area, b: Area) {
    && Valid(b) && b.rows == a.rows && b.cols == a.cols && b.x == Across(a.cols, a.x) && b.y == Across(a.rows, a.y)
    && forall r, c :: 0 <= r < b.rows && 0 <= c < b.cols ==> Get(b, r, c) == Get(a, a.rows - 1 - r, a.cols - 1 - c)
  }

  ghost predicate ThreeQuarters(a: Area, b: Area) {
    && Valid(b) && b.rows == a.cols && b.cols == a.rows && b.x == a.y && b.y == Across(a.cols, a.x)
    && forall r, c :: 0 <= r < b.rows && 0 <= c < b.cols ==> Get(b, r, c) == Get(a, c, a.cols - 1 - r)
  }

  ghost predicate Flipped(a: Area, b: Area) {
    && Valid(b) && b.rows == a.rows && b.cols == a.cols
    && forall r, c :: 0 <= r < b.rows && 0 <= c < b.cols ==> Get(b, r, c) == Get(a, a.rows - 1 - r, c)
  }

  ghost predicate Mirrored(a: Area, b: Area) {
    && Valid(b) && b.rows == a.rows && b.cols == a.cols
    && forall r, c :: 0 <= r < b.rows && 0 <= c < b.cols ==> Get(b, r, c) == Get(a, r, a.cols - 1 - c)
  }

  ghost predicate Transposed(a: Area, b: Area) {
    && Valid(b) && b.rows == a.cols && b.cols == a.rows && b.x == a.y && b.y == a.x
    && forall r, c :: 0 <= r < b.rows && 0 <= c < b.cols ==> Get(b, r, c) == Get(a, c, r)
  }

  // ----- Slices -----------------------------------------------------------------------------

  /** The slices of an array and of a value stay inside. */
  ghost predicate Fits(start: int, size: int, stride: int, length: int) {
    forall k :: 0 <= k < size ==> 0 <= Idx(k, start, stride) < length
  }

  ghost predicate InSlice(p: int, start: int, size: int, stride: int) {
    exists k :: 0 <= k < size && p == Idx(k, start, stride)
  }

  /** `dst[slice(start, size, stride)] = src[slice(from, size, step)]` */
  method AssignSlice(dst: array<bool>, start: nat, size: nat, stride: nat, src: seq<bool>, from: nat, step: nat)
    requires Fits(start, size, stride, dst.Length) && Fits(from, size, step, |src|)
    requires forall k, l :: 0 <= k < l < size ==> Idx(k, start, stride) != Idx(l, start, stride)
    modifies dst
    ensures forall k :: 0 <= k < size ==> dst[Idx(k, start, stride)] == src[Idx(k, from, step)]
    ensures forall p :: 0 <= p < dst.Length && !InSlice(p, start, size, stride) ==> dst[p] == old(dst[p])
  {
    hide Idx;
    var k := 0;
    while k < size
      invariant 0 <= k <= size
      invariant forall j :: 0 <= j < k ==> dst[Idx(j, start, stride)] == src[Idx(j, from, step)]
      invariant forall p :: 0 <= p < dst.Length && !InSlice(p, start, size, stride) ==> dst[p] == old(dst[p])
    {
      assert InSlice(Idx(k, start, stride), start, size, stride);
      dst[Idx(k, start, stride)] := src[Idx(k, from, step)];
      k := k + 1;
    }
  }

  lemma RowFits(r: int, rows: int, cols: int)
    requires 0 <= r < rows && 0 <= cols
    ensures Fits(r * cols, cols, 1, rows * cols) && r * cols >= 0
  {
    forall k | 0 <= k < cols ensures 0 <= Idx(k, r * cols, 1) < rows * cols {
      RowStart(r, k, cols);
      IdxInside(r, k, rows, cols);
    }
    TimesOrder(0, r, cols);
  }

  lemma ColumnFits(c: int, rows: int, cols: int)
    requires 0 <= c < cols && 0 <= rows
    ensures Fits(c, rows, cols, rows * cols)
    ensures forall k, l :: 0 <= k < l < rows ==> Idx(k, c, cols) != Idx(l, c, cols)
  {
    forall k | 0 <= k < rows ensures 0 <= Idx(k, c, cols) < rows * cols { IdxInside(k, c, rows, cols); }
    forall k, l | 0 <= k < l < rows ensures Idx(k, c, cols) != Idx(l, c, cols) { IdxLater(k, c, l, c, cols); }
  }

  lemma OtherColumn(r: int, c: int, i: int, rows: int, cols: int)
    requires 0 <= c < cols && 0 <= i < cols && c != i
    ensures !InSlice(Idx(r, c, cols), i, rows, cols)
  {
    forall k | 0 <= k < rows && Idx(r, c, cols) == Idx(k, i, cols) ensures false { IdxApart(r, c, k, i, cols); }
  }

  lemma OtherRow(r: int, c: int, i: int, cols: int)
    requires 0 <= c < cols && r != i
    ensures !InSlice(Idx(r, c, cols), i * cols, cols, 1)
  {
    forall k | 0 <= k < cols && Idx(r, c, cols) == Idx(k, i * cols, 1) ensures false {
      RowStart(i, k, cols);
      IdxApart(r, c, i, k, cols);
    }
  }

  /** Of a grid with this many rows and columns the first n columns, or rows, show f; the rest is not set. */
  ghost predicate ColumnsShow(arr: seq<bool>, rows: int, cols: int, n: int, f: (int, int) -> bool) {
    && |arr| == rows * cols
    && forall r, c :: 0 <= r < rows && 0 <= c < cols ==>
         && 0 <= Idx(r, c, cols) < |arr|
         && arr[Idx(r, c, cols)] == (c < n && f(r, c))
  }

  ghost predicate RowsShow(arr: seq<bool>, rows: int, cols: int, n: int, f: (int, int) -> bool) {
    && |arr| == rows * cols
    && forall r, c :: 0 <= r < rows && 0 <= c < cols ==>
         && 0 <= Idx(r, c, cols) < |arr|
         && arr[Idx(r, c, cols)] == (r < n && f(r, c))
  }

  lemma NothingShown(arr: seq<bool>, rows: int, cols: int, f: (int, int) -> bool)
    requires |arr| == rows * cols && forall p :: 0 <= p < |arr| ==> !arr[p]
    ensures ColumnsShow(arr, rows, cols, 0, f) && RowsShow(arr, rows, cols, 0, f)
  {
    forall r, c | 0 <= r < rows && 0 <= c < cols ensures 0 <= Idx(r, c, cols) < |arr| { IdxInside(r, c, rows, cols); }
  }

  /** One more column is filled. */
  lemma NextColumn(was: seq<bool>, now: seq<bool>, rows: int, cols: int, i: int, f: (int, int) -> bool)
    requires ColumnsShow(was, rows, cols, i, f) && |now| == |was| && 0 <= i < cols && Fits(i, rows, cols, |now|)
    requires forall k :: 0 <= k < rows ==> now[Idx(k, i, cols)] == f(k, i)
    requires forall p :: 0 <= p < |now| && !InSlice(p, i, rows, cols) ==> now[p] == was[p]
    ensures ColumnsShow(now, rows, cols, i + 1, f)
  {
    hide Idx, InSlice;
    forall r, c | 0 <= r < rows && 0 <= c < cols
      ensures 0 <= Idx(r, c, cols) < |now| && now[Idx(r, c, cols)] == (c < i + 1 && f(r, c))
    {
      if c != i { OtherColumn(r, c, i, rows, cols); }
    }
  }

  /** One more row is filled. */
  lemma NextRow(was: seq<bool>, now: seq<bool>, rows: int, cols: int, i: int, f: (int, int) -> bool)
    requires RowsShow(was, rows, cols, i, f) && |now| == |was| && 0 <= i < rows && Fits(i * cols, cols, 1, |now|)
    requires forall k :: 0 <= k < cols ==> now[Idx(k, i * cols, 1)] == f(i, k)
    requires forall p :: 0 <= p < |now| && !InSlice(p, i * cols, cols, 1) ==> now[p] == was[p]
    ensures RowsShow(now, rows, cols, i + 1, f)
  {
    hide Idx, InSlice;
    forall r, c | 0 <= r < rows && 0 <= c < cols
      ensures 0 <= Idx(r, c, cols) < |now| && now[Idx(r, c, cols)] == (r < i + 1 && f(r, c))
    {
      if r != i { OtherRow(r, c, i, cols); } else { RowStart(i, c, cols); }
    }
  }

  /** A row, or a column, of a as a slice of its array. */
  lemma RowOf(a: Area, r: int)
    requires Valid(a) && 0 <= r < a.rows
    ensures Fits(r * a.cols, a.cols, 1, |a.arr|) && r * a.cols >= 0
    ensures forall k :: 0 <= k < a.cols ==> a.arr[Idx(k, r * a.cols, 1)] == Get(a, r, k)
  {
    RowFits(r, a.rows, a.cols);
    forall k | 0 <= k < a.cols ensures a.arr[Idx(k, r * a.cols, 1)] == Get(a, r, k) {
      RowStart(r, k, a.cols);
      IdxInside(r, k, a.rows, a.cols);
    }
  }

  lemma ColumnOf(a: Area, c: int)
    requires Valid(a) && 0 <= c < a.cols
    ensures Fits(c, a.rows, a.cols, |a.arr|)
    ensures forall k :: 0 <= k < a.rows ==> a.arr[Idx(k, c, a.cols)] == Get(a, k, c)
  {
    ColumnFits(c, a.rows, a.cols);
  }

  lemma RowApart(start: int, size: int)
    ensures forall k, l :: 0 <= k < l < size ==> Idx(k, start, 1) != Idx(l, start, 1)
  {
  }

  /** `newArr[slice(i * cols, cols, 1)] = src[slice(from, cols, step)]` fills row i. */
  method SetRow(dst: array<bool>, rows: nat, cols: nat, i: nat, src: seq<bool>, from: nat, step: nat,
                ghost f: (int, int) -> bool)
    requires RowsShow(dst[..], rows, cols, i, f) && i < rows && Fits(from, cols, step, |src|)
    requires forall k :: 0 <= k < cols ==> src[Idx(k, from, step)] == f(i, k)
    modifies dst
    ensures RowsShow(dst[..], rows, cols, i + 1, f)
  {
    ghost var was := dst[..];
    var start := i * cols;
    RowFits(i, rows, cols);
    RowApart(start, cols);
    AssignSlice(dst, start, cols, 1, src, from, step);
    hide Idx, InSlice, RowsShow;
    NextRow(was, dst[..], rows, cols, i, f);
  }

  /** `newArr[slice(i, rows, cols)] = src[slice(from, rows, step)]` fills column i. */
  method SetColumn(dst: array<bool>, rows: nat, cols: nat, i: nat, src: seq<bool>, from: nat, step: nat,
                   ghost f: (int, int) -> bool)
    requires ColumnsShow(dst[..], rows, cols, i, f) && i < cols && Fits(from, rows, step, |src|)
    requires forall k :: 0 <= k < rows ==> src[Idx(k, from, step)] == f(k, i)
    modifies dst
    ensures ColumnsShow(dst[..], rows, cols, i + 1, f)
  {
    ghost var was := dst[..];
    ColumnFits(i, rows, cols);
    AssignSlice(dst, i, rows, cols, src, from, step);
    hide Idx, InSlice, ColumnsShow;
    NextColumn(was, dst[..], rows, cols, i, f);
  }

  // ----- The transformations ----------------------------------------------------------------

  method Rotate90(a: Area) returns (b: Area)
    requires Valid(a)
    ensures Quarter(a, b)
  {
    var newArr := new bool[|a.arr|](_ => false);
    ghost var f := (r: int, c: int) => Get(a, a.rows - 1 - c, r);
    assert a.cols * a.rows == |a.arr|;
    NothingShown(newArr[..], a.cols, a.rows, f);
    hide Idx, Fits, InSlice;
    var i := 0;
    while i < a.rows
      invariant 0 <= i <= a.rows && ColumnsShow(newArr[..], a.cols, a.rows, i, f)
    {
      RowOf(a, a.rows - i - 1);
      SetColumn(newArr, a.cols, a.rows, i, a.arr, (a.rows - i - 1) * a.cols, 1, f);
      i := i + 1;
    }
    b := Area(Across(a.rows, a.y), a.x, a.cols, a.rows, newArr[..]);
  }

  method Rotate270(a: Area) returns (b: Area)
    requires Valid(a)
    ensures ThreeQuarters(a, b)
  {
    var newArr := new bool[|a.arr|](_ => false);
    ghost var f := (r: int, c: int) => Get(a, c, a.cols - 1 - r);
    assert a.cols * a.rows == |a.arr|;
    NothingShown(newArr[..], a.cols, a.rows, f);
    hide Idx, Fits, InSlice;
    var i := 0;
    while i < a.cols
      invariant 0 <= i <= a.cols && RowsShow(newArr[..], a.cols, a.rows, i, f)
    {
      ColumnOf(a, a.cols - i - 1);
      SetRow(newArr, a.cols, a.rows, i, a.arr, a.cols - i - 1, a.cols, f);
      i := i + 1;
    }
    b := Area(a.y, Across(a.cols, a.x), a.cols, a.rows, newArr[..]);
  }

  function Rotate180(a: Area): Area {
    Area(Across(a.cols, a.x), Across(a.rows, a.y), a.rows, a.cols,
         seq(|a.arr|, p requires 0 <= p < |a.arr| => a.arr[|a.arr| - 1 - p]))
  }

  /** The array read backwards is the area turned upside down. */
  lemma ReversedIsHalf(a: Area)
    requires Valid(a)
    ensures Half(a, Rotate180(a))
  {
    var b := Rotate180(a);
    forall r, c | 0 <= r < b.rows && 0 <= c < b.cols
      ensures Get(b, r, c) == Get(a, a.rows - 1 - r, a.cols - 1 - c)
    {
      IdxInside(r, c, a.rows, a.cols);
      IdxInside(a.rows - 1 - r, a.cols - 1 - c, a.rows, a.cols);
      IdxReversed(r, c, a.rows, a.cols);
    }
  }

  lemma IdxReversed(r: int, c: int, rows: int, cols: int)
    ensures Idx(rows - 1 - r, cols - 1 - c, cols) == rows * cols - 1 - Idx(r, c, cols)
  {
  }

  /** The area upside down, read off the source */
  ghost function UpsideDown(a: Area): (int, int) -> bool {
    (r: int, c: int) => Get(a, a.rows - 1 - r, c)
  }

  lemma FlippedAll(a: Area, b: Area)
    requires Valid(a) && b.rows == a.rows && b.cols == a.cols && b.x < TWO_32 && b.y < TWO_32
    requires RowsShow(b.arr, a.rows, a.cols, a.rows, UpsideDown(a))
    ensures Flipped(a, b)
  {
  }

  lemma UpsideDownRow(a: Area, i: int)
    requires Valid(a) && 0 <= i < a.rows
    ensures
      var from := (a.rows - i - 1) * a.cols;
      && from >= 0 && Fits(from, a.cols, 1, |a.arr|)
      && forall k :: 0 <= k < a.cols ==> a.arr[Idx(k, from, 1)] == UpsideDown(a)(i, k)
  {
    RowOf(a, a.rows - i - 1);
  }

  /** What `flip` makes of an area: it reflects the cells and the other coordinate of the centre. */
  ghost predicate FlipOf(a: Area, b: Area) {
    Flipped(a, b) && b.x == Across(a.cols, a.x) && b.y == a.y
  }

  method Flip(a: Area) returns (b: Area)
    requires Valid(a)
    ensures FlipOf(a, b)
  {
    var newArr := new bool[|a.arr|](_ => false);
    NothingShown(newArr[..], a.rows, a.cols, UpsideDown(a));
    hide Idx, Fits, RowsShow, UpsideDown;
    var i := 0;
    while i < a.rows
      invariant 0 <= i <= a.rows && RowsShow(newArr[..], a.rows, a.cols, i, UpsideDown(a))
    {
      UpsideDownRow(a, i);
      SetRow(newArr, a.rows, a.cols, i, a.arr, (a.rows - i - 1) * a.cols, 1, UpsideDown(a));
      i := i + 1;
    }
    b := Area(Across(a.cols, a.x), a.y, a.rows, a.cols, newArr[..]);
    FlippedAll(a, b);
  }

  /** The slices of `mirror` have as many elements as there are columns and the rows as their stride, so
      that they read the array as if rows and columns were exchanged. */
  ghost predicate MirrorReads(a: Area, b: Area) {
    && Valid(b) && b.rows == a.rows && b.cols == a.cols
    && ColumnsShow(b.arr, a.cols, a.rows, a.cols, (k, c) => Get(Exchanged(a), k, a.cols - 1 - c))
  }

  /** The same array with rows and columns exchanged */
  function Exchanged(a: Area): Area {
    Area(a.x, a.y, a.cols, a.rows, a.arr)
  }

  /** What `mirror` makes of an area */
  ghost predicate MirrorOf(a: Area, b: Area) {
    MirrorReads(a, b) && b.x == a.x && b.y == Across(a.rows, a.y)
  }

  method Mirror(a: Area) returns (b: Area)
    requires Valid(a) && a.cols <= a.rows
    ensures MirrorOf(a, b)
  {
    var newArr := new bool[|a.arr|](_ => false);
    ghost var f := (k: int, c: int) => Get(Exchanged(a), k, a.cols - 1 - c);
    assert a.cols * a.rows == |a.arr|;
    NothingShown(newArr[..], a.cols, a.rows, f);
    assert Valid(Exchanged(a));
    hide Idx, Fits, InSlice;
    var i := 0;
    while i < a.cols
      invariant 0 <= i <= a.cols && ColumnsShow(newArr[..], a.cols, a.rows, i, f)
    {
      ColumnOf(Exchanged(a), a.cols - i - 1);
      SetColumn(newArr, a.cols, a.rows, i, a.arr, a.cols - i - 1, a.rows, f);
      i := i + 1;
    }
    b := Area(a.x, Across(a.rows, a.y), a.rows, a.cols, newArr[..]);
  }

  /** On a square area that is the mirror image. */
  lemma MirrorOfSquare(a: Area, b: Area)
    requires Valid(a) && MirrorReads(a, b) && a.rows == a.cols
    ensures Mirrored(a, b)
  {
    assert Exchanged(a) == a;
    hide Idx;
    forall r, c | 0 <= r < b.rows && 0 <= c < b.cols ensures Get(b, r, c) == Get(a, r, a.cols - 1 - c) {
      assert 0 <= Idx(r, c, a.cols) < |b.arr|;
    }
  }

  /** On any other the full area comes out with a hole, so mirroring needs a square. */
  lemma MirrorNeedsSquare(a: Area, b: Area)
    requires Valid(a) && MirrorReads(a, b) && 1 <= a.cols <= a.rows
    requires forall p :: 0 <= p < |a.arr| ==> a.arr[p]
    ensures Mirrored(a, b) <==> a.rows == a.cols
  {
    if a.rows == a.cols {
      MirrorOfSquare(a, b);
    } else {
      var r, c := a.rows - 1, a.cols - 1;
      assert Idx(r, c, a.cols) == Idx(c, r, a.rows) by { Corner(a.rows, a.cols); }
      IdxInside(r, c, a.rows, a.cols);
      IdxInside(r, 0, a.rows, a.cols);
      assert !Get(b, r, c) && Get(a, r, 0);
    }
  }

  lemma Corner(rows: int, cols: int)
    ensures Idx(rows - 1, cols - 1, cols) == Idx(cols - 1, rows - 1, rows)
  {
  }

  /** The slices of `mirror` stay inside the array exactly if there are not more columns than rows. */
  lemma MirrorStaysInside(rows: int, cols: int)
    requires 0 <= rows && 1 <= cols
    ensures (forall i :: 0 <= i < cols ==> Fits(i, cols, rows, rows * cols)) <==> cols <= rows
  {
    if cols <= rows {
      forall i | 0 <= i < cols ensures Fits(i, cols, rows, rows * cols) { ColumnFits(i, cols, rows); }
    } else {
      assert Idx(cols - 1, cols - 1, rows) >= rows * cols by { NextMultiple(cols - 1, rows); }
      assert !Fits(cols - 1, cols, rows, rows * cols);
    }
  }

  /** The gslice takes the columns from left to right; rows and columns stay what they were. */
  function Transpose(a: Area): Area
    requires |a.arr| == a.rows * a.cols
  {
    Area(a.y, a.x, a.rows, a.cols,
         seq(a.rows * a.cols, p requires 0 <= p < a.rows * a.cols =>
           var i, j := if a.rows == 0 then 0 else p / a.rows, if a.rows == 0 then 0 else p % a.rows;
           0 <= Idx(j, i, a.cols) < |a.arr| && a.arr[Idx(j, i, a.cols)]))
  }

  /** That exchanges rows and columns exactly if there are as many of them. */
  lemma TransposeOfSquare(a: Area)
    requires Valid(a)
    ensures Transposed(a, Transpose(a)) <==> a.rows == a.cols
  {
    var b := Transpose(a);
    if a.rows == a.cols {
      forall r, c | 0 <= r < b.rows && 0 <= c < b.cols ensures Get(b, r, c) == Get(a, c, r) {
        TransposedCell(a, r, c);
      }
    }
  }

  lemma TransposedCell(a: Area, r: int, c: int)
    requires Valid(a) && a.rows == a.cols && 0 <= r < a.rows && 0 <= c < a.cols
    ensures Get(Transpose(a), r, c) == Get(a, c, r)
  {
    IdxInside(r, c, a.rows, a.cols);
    IdxInside(c, r, a.rows, a.cols);
    var p := Idx(r, c, a.cols);
    QuotientAndRest(p, r, c, a.cols);
  }

  // ----- The laws of the transformations ----------------------------------------------------

  lemma AcrossInside(n: nat, k: nat)
    requires k < n < TWO_32
    ensures Across(n, k) == n - k - 1
  {
  }

  lemma AcrossTwice(n: nat, k: nat)
    requires n < TWO_32 && k < TWO_32
    ensures Across(n, Across(n, k)) == k
  {
  }

  /** Two quarter turns are a half turn, cells and centre. */
  lemma QuarterTwice(a: Area, b: Area, c: Area, d: Area)
    requires Valid(a) && Quarter(a, b) && Quarter(b, c) && Half(a, d)
    ensures c == d
  {
    hide Idx, Get;
    forall r, k | 0 <= r < c.rows && 0 <= k < c.cols ensures Get(c, r, k) == Get(d, r, k) {
      assert Get(c, r, k) == Get(b, b.rows - 1 - k, r);
    }
    CellsDecide(c, d);
  }

  /** A turn by 270 degrees undoes a quarter turn, and the other way round. */
  lemma QuarterAndBack(a: Area, b: Area, c: Area)
    requires Valid(a)
    requires (Quarter(a, b) && ThreeQuarters(b, c)) || (ThreeQuarters(a, b) && Quarter(b, c))
    ensures c == a
  {
    if Quarter(a, b) && ThreeQuarters(b, c) {
      BackAfterQuarter(a, b, c);
    } else {
      QuarterAfterBack(a, b, c);
    }
  }

  lemma BackAfterQuarter(a: Area, b: Area, c: Area)
    requires Valid(a) && Quarter(a, b) && ThreeQuarters(b, c)
    ensures c == a
  {
    hide Idx, Get;
    AcrossTwice(a.rows, a.y);
    forall r, k | 0 <= r < c.rows && 0 <= k < c.cols ensures Get(c, r, k) == Get(a, r, k) {
      assert Get(c, r, k) == Get(b, k, b.cols - 1 - r);
    }
    CellsDecide(c, a);
  }

  lemma QuarterAfterBack(a: Area, b: Area, c: Area)
    requires Valid(a) && ThreeQuarters(a, b) && Quarter(b, c)
    ensures c == a
  {
    hide Idx, Get;
    AcrossTwice(a.cols, a.x);
    forall r, k | 0 <= r < c.rows && 0 <= k < c.cols ensures Get(c, r, k) == Get(a, r, k) {
      assert Get(c, r, k) == Get(b, b.rows - 1 - k, r);
    }
    CellsDecide(c, a);
  }

  /** Flipping the mirror image of a square turns it upside down, as far as the cells go. */
  lemma FlipAfterMirror(a: Area, b: Area, c: Area, d: Area)
    requires Valid(a) && a.rows == a.cols && MirrorReads(a, b) && Flipped(b, c) && Half(a, d)
    ensures c.arr == d.arr
  {
    MirrorOfSquare(a, b);
    hide Idx, Get, MirrorReads;
    forall r, k | 0 <= r < c.rows && 0 <= k < c.cols ensures Get(c, r, k) == Get(d, r, k) {
      assert Get(c, r, k) == Get(b, b.rows - 1 - r, k);
    }
    CellsDecide(c, d);
  }

  lemma TransposeTwice(a: Area)
    requires Valid(a) && a.rows == a.cols
    ensures Transpose(Transpose(a)) == a
  {
    var b := Transpose(a);
    TransposeOfSquare(a);
    TransposeOfSquare(b);
    hide Idx, Get;
    var c := Transpose(b);
    forall r, k | 0 <= r < c.rows && 0 <= k < c.cols ensures Get(c, r, k) == Get(a, r, k) {
      assert Get(c, r, k) == Get(b, k, r);
    }
    CellsDecide(c, a);
  }

  // ----- Cells around the centre ------------------------------------------------------------

  /** The cell at this offset from the centre is set. */
  ghost predicate Hits(a: Area, dx: int, dy: int) {
    Get(a, a.y + dy, a.x + dx)
  }

  ghost predicate Centred(a: Area) {
    Valid(a) && a.x < a.cols && a.y < a.rows
  }

  lemma NothingOutside(a: Area)
    ensures forall r, c :: Get(a, r, c) ==> 0 <= r < a.rows && 0 <= c < a.cols
  {
  }

  /** Seen from the centre, the cells turn with the area. */
  lemma QuarterHits(a: Area, b: Area, dx: int, dy: int)
    requires Centred(a) && Quarter(a, b)
    ensures Centred(b) && Hits(b, dx, dy) == Hits(a, dy, -dx)
  {
    NothingOutside(a);
    NothingOutside(b);
    hide Idx, Get;
  }

  lemma HalfHits(a: Area, b: Area, dx: int, dy: int)
    requires Centred(a) && Half(a, b)
    ensures Centred(b) && Hits(b, dx, dy) == Hits(a, -dx, -dy)
  {
    NothingOutside(a);
    NothingOutside(b);
    hide Idx, Get;
  }

  lemma ThreeQuartersHits(a: Area, b: Area, dx: int, dy: int)
    requires Centred(a) && ThreeQuarters(a, b)
    ensures Centred(b) && Hits(b, dx, dy) == Hits(a, -dy, dx)
  {
    NothingOutside(a);
    NothingOutside(b);
    hide Idx, Get;
  }

  lemma TransposedHits(a: Area, b: Area, dx: int, dy: int)
    requires Centred(a) && Transposed(a, b)
    ensures Centred(b) && Hits(b, dx, dy) == Hits(a, dy, dx)
  {
    NothingOutside(a);
    NothingOutside(b);
    hide Idx, Get;
  }

  /** The centre is in the very middle. */
  predicate Middle(x: nat, y: nat, rows: nat, cols: nat) {
    2 * x + 1 == cols && 2 * y + 1 == rows
  }

  /** Seen from the centre, `flip` reflects the cells and shifts them by twice as much as the centre is off
      the middle. */
  lemma FlipHits(a: Area, b: Area, dx: int, dy: int)
    requires Centred(a) && FlipOf(a, b)
    ensures Centred(b) && Hits(b, dx, dy) == Hits(a, a.cols - 1 - 2 * a.x + dx, a.rows - 1 - 2 * a.y - dy)
  {
    AcrossInside(a.cols, a.x);
    NothingOutside(a);
    NothingOutside(b);
    hide Idx, Get;
  }

  /** So does `mirror`, of squares. */
  lemma MirrorHits(a: Area, b: Area, dx: int, dy: int)
    requires Centred(a) && MirrorOf(a, b) && a.rows == a.cols
    ensures Centred(b) && Hits(b, dx, dy) == Hits(a, a.cols - 1 - 2 * a.x - dx, a.rows - 1 - 2 * a.y + dy)
  {
    AcrossInside(a.rows, a.y);
    MirrorOfSquare(a, b);
    NothingOutside(a);
    NothingOutside(b);
    hide Idx, Get, MirrorReads;
  }

  /** With the centre in the middle the cells are reflected. */
  lemma ReflectedHits(a: Area, b: Area, dx: int, dy: int)
    requires Centred(a) && Middle(a.x, a.y, a.rows, a.cols)
    ensures FlipOf(a, b) ==> Centred(b) && Hits(b, dx, dy) == Hits(a, dx, -dy)
    ensures MirrorOf(a, b) && a.rows == a.cols ==> Centred(b) && Hits(b, dx, dy) == Hits(a, -dx, dy)
  {
    if FlipOf(a, b) { FlipHits(a, b, dx, dy); }
    if MirrorOf(a, b) && a.rows == a.cols { MirrorHits(a, b, dx, dy); }
    hide Hits, MirrorOf, FlipOf, Centred;
  }

  ghost predicate SeenFlipped(a: Area, b: Area) {
    forall dx, dy :: Hits(b, dx, dy) == Hits(a, dx, -dy)
  }

  ghost predicate SeenMirrored(a: Area, b: Area) {
    forall dx, dy :: Hits(b, dx, dy) == Hits(a, -dx, dy)
  }

  ghost predicate Framed(a: Area, x: nat, y: nat, rows: nat, cols: nat) {
    Centred(a) && a.x == x && a.y == y && a.rows == rows && a.cols == cols
  }

  /** The area with this centre in which one cell is set */
  ghost function Dot(x: nat, y: nat, rows: nat, cols: nat, r: nat, c: nat): Area {
    Area(x, y, rows, cols, seq(rows * cols, p requires 0 <= p < rows * cols => p == Idx(r, c, cols)))
  }

  lemma DotCells(x: nat, y: nat, rows: nat, cols: nat, r: nat, c: nat)
    requires r < rows < TWO_32 && c < cols < TWO_32 && x < TWO_32 && y < TWO_32
    ensures Valid(Dot(x, y, rows, cols, r, c))
    ensures forall i, j :: Get(Dot(x, y, rows, cols, r, c), i, j) <==> i == r && j == c
  {
    var a := Dot(x, y, rows, cols, r, c);
    IdxInside(r, c, rows, cols);
    forall i, j
      ensures Get(a, i, j) <==> i == r && j == c
    {
      if 0 <= i < rows && 0 <= j < cols {
        IdxInside(i, j, rows, cols);
        if Idx(i, j, cols) == Idx(r, c, cols) { IdxApart(i, j, r, c, cols); }
      }
    }
  }

  /** With the centre elsewhere, an area that hits only its centre does not after `flip`. */
  lemma FlipMovesCentre(x: nat, y: nat, rows: nat, cols: nat) returns (a: Area, b: Area)
    requires x < cols < TWO_32 && y < rows < TWO_32 && !Middle(x, y, rows, cols)
    ensures Framed(a, x, y, rows, cols) && FlipOf(a, b) && Hits(a, 0, 0) && !Hits(b, 0, 0)
  {
    a := Dot(x, y, rows, cols, y, x);
    b := Dot(Across(cols, x), y, rows, cols, rows - 1 - y, x);
    AcrossInside(cols, x);
    DotCells(x, y, rows, cols, y, x);
    DotCells(Across(cols, x), y, rows, cols, rows - 1 - y, x);
    hide Dot, Get;
  }

  /** `flip` reflects what an area hits, for all areas of a size and centre, exactly if the centre is in the
      very middle. */
  lemma CentreOfFlip(x: nat, y: nat, rows: nat, cols: nat)
    requires x < cols < TWO_32 && y < rows < TWO_32
    ensures (forall a, b :: Framed(a, x, y, rows, cols) && FlipOf(a, b) ==> SeenFlipped(a, b)) <==>
            Middle(x, y, rows, cols)
  {
    hide FlipOf;
    if Middle(x, y, rows, cols) {
      forall a, b | Framed(a, x, y, rows, cols) && FlipOf(a, b)
        ensures SeenFlipped(a, b)
      {
        forall dx, dy ensures Hits(b, dx, dy) == Hits(a, dx, -dy) { ReflectedHits(a, b, dx, dy); }
      }
    } else {
      var a, b := FlipMovesCentre(x, y, rows, cols);
      assert Hits(b, 0, 0) != Hits(a, 0, -0);
      assert !SeenFlipped(a, b);
    }
  }

  lemma MirrorMovesCentre(x: nat, y: nat, n: nat) returns (a: Area, b: Area)
    requires x < n < TWO_32 && y < n && !Middle(x, y, n, n)
    ensures Framed(a, x, y, n, n) && MirrorOf(a, b) && Hits(a, 0, 0) && !Hits(b, 0, 0)
  {
    a := Dot(x, y, n, n, y, x);
    b := Dot(x, Across(n, y), n, n, y, n - 1 - x);
    AcrossInside(n, y);
    DotCells(x, y, n, n, y, x);
    DotCells(x, Across(n, y), n, n, y, n - 1 - x);
    hide Dot, Get, MirrorReads;
    MirrorReadsSquare(a, b);
  }

  /** What `mirror` reads of a square is its mirror image. */
  lemma MirrorReadsSquare(a: Area, b: Area)
    requires Valid(a) && Mirrored(a, b) && a.rows == a.cols
    ensures MirrorReads(a, b)
  {
    var n := a.rows;
    assert Exchanged(a) == a;
    hide Idx;
    forall k, c | 0 <= k < n && 0 <= c < n
      ensures 0 <= Idx(k, c, n) < |b.arr| && b.arr[Idx(k, c, n)] == Get(a, k, n - 1 - c)
    {
      IdxInside(k, c, n, n);
      assert Get(b, k, c) == Get(a, k, n - 1 - c);
    }
  }

  /** So does `mirror`, of squares. */
  lemma CentreOfMirror(x: nat, y: nat, n: nat)
    requires x < n < TWO_32 && y < n
    ensures (forall a, b :: Framed(a, x, y, n, n) && MirrorOf(a, b) ==> SeenMirrored(a, b)) <==> Middle(x, y, n, n)
  {
    hide MirrorOf;
    if Middle(x, y, n, n) {
      forall a, b | Framed(a, x, y, n, n) && MirrorOf(a, b)
        ensures SeenMirrored(a, b)
      {
        forall dx, dy ensures Hits(b, dx, dy) == Hits(a, -dx, dy) { ReflectedHits(a, b, dx, dy); }
      }
    } else {
      var a, b := MirrorMovesCentre(x, y, n);
      assert Hits(b, 0, 0) != Hits(a, -0, 0);
      assert !SeenMirrored(a, b);
    }
  }

  // ----- The number of cells ----------------------------------------------------------------

  ghost function Cells(a: Area): set<(int, int)> {
    set r, c | 0 <= r < a.rows && 0 <= c < a.cols && Get(a, r, c) :: (r, c)
  }

  lemma {:induction false} Paired(s: set<(int, int)>, t: set<(int, int)>, f: ((int, int)) -> (int, int),
                                  g: ((int, int)) -> (int, int))
    requires forall p :: p in s ==> f(p) in t && g(f(p)) == p
    requires forall q :: q in t ==> g(q) in s && f(g(q)) == q
    ensures |s| == |t|
  {
    if s == {} {
      assert t == {};
    } else {
      var p :| p in s;
      Paired(s - {p}, t - {f(p)}, f, g);
    }
  }

  lemma InCells(a: Area)
    ensures forall p :: p in Cells(a) <==> Get(a, p.0, p.1)
  {
    NothingOutside(a);
  }

  ghost predicate Carries(a: Area, b: Area, f: ((int, int)) -> (int, int), g: ((int, int)) -> (int, int)) {
    && (forall p :: p in Cells(b) ==> f(p) in Cells(a) && g(f(p)) == p)
    && (forall q :: q in Cells(a) ==> g(q) in Cells(b) && f(g(q)) == q)
  }

  lemma QuarterCarries(a: Area, b: Area)
    requires Valid(a) && Quarter(a, b)
    ensures |Cells(b)| == |Cells(a)|
  {
    InCells(a);
    InCells(b);
    NothingOutside(a);
    NothingOutside(b);
    hide Cells, Get;
    var f, g := (p: (int, int)) => (a.rows - 1 - p.1, p.0), (p: (int, int)) => (p.1, a.rows - 1 - p.0);
    assert Carries(a, b, f, g);
    Paired(Cells(b), Cells(a), f, g);
  }

  lemma HalfCarries(a: Area, b: Area)
    requires Valid(a) && Half(a, b)
    ensures |Cells(b)| == |Cells(a)|
  {
    InCells(a);
    InCells(b);
    NothingOutside(a);
    NothingOutside(b);
    hide Cells, Get;
    var f := (p: (int, int)) => (a.rows - 1 - p.0, a.cols - 1 - p.1);
    assert Carries(a, b, f, f);
    Paired(Cells(b), Cells(a), f, f);
  }

  /** A turn keeps the number of cells that are set. */
  lemma TurnsKeepCount(a: Area, b: Area)
    requires Valid(a) && (Quarter(a, b) || Half(a, b) || ThreeQuarters(a, b))
    ensures |Cells(b)| == |Cells(a)|
  {
    if Quarter(a, b) {
      QuarterCarries(a, b);
    } else if Half(a, b) {
      HalfCarries(a, b);
    } else {
      QuarterOfThree(a, b);
      QuarterCarries(b, a);
    }
  }

  lemma QuarterOfThree(a: Area, b: Area)
    requires Valid(a) && ThreeQuarters(a, b)
    ensures Quarter(b, a)
  {
    hide Get, Idx;
    AcrossTwice(a.cols, a.x);
  }
}
