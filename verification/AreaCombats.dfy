/** How the areas of a spell are made: from a list of numbers, and for a wave that widens away from the
    caster; and which area is taken for a target. */
module AreaCombats {
  import opened Arithmetic
  import opened AreaMatrices

  const DIRECTION_NORTH := 0
  const DIRECTION_EAST := 1
  const DIRECTION_SOUTH := 2
  const DIRECTION_WEST := 3
  const DIRECTION_SOUTHWEST := 4
  const DIRECTION_SOUTHEAST := 5
  const DIRECTION_NORTHWEST := 6
  const DIRECTION_NORTHEAST := 7

  predicate IsSet(v: nat) { v == 1 || v == 3 }

  predicate IsCentre(v: nat) { v == 2 || v == 3 }

  /** A list that fills the rows; the source writes past the array for any other. */
  predicate Fills(vec: seq<nat>, rows: nat) {
    && rows < TWO_32 && |vec| < TWO_32
    && if rows == 0 then vec == [] else |vec| % rows == 0
  }

  function Columns(vec: seq<nat>, rows: nat): nat {
    if rows == 0 then 0 else |vec| / rows
  }

  lemma FilledRows(vec: seq<nat>, rows: nat)
    requires Fills(vec, rows)
    ensures |vec| == rows * Columns(vec, rows) && Columns(vec, rows) < TWO_32
  {
    if rows > 0 {
      assert |vec| == rows * (|vec| / rows) + |vec| % rows;
    }
  }

  /** The centre is at the last number that marks one, or at the origin. */
  ghost predicate CentreOf(vec: seq<nat>, n: nat, cols: nat, x: nat, y: nat) {
    && n <= |vec|
    && (|| (x == 0 && y == 0 && forall p :: 0 <= p < n ==> !IsCentre(vec[p]))
        || (&& x < cols && 0 <= Idx(y, x, cols) < n && IsCentre(vec[Idx(y, x, cols)])
            && forall p :: Idx(y, x, cols) < p < n ==> !IsCentre(vec[p])))
  }

  /** The area that a list describes. */
  ghost predicate Described(vec: seq<nat>, rows: nat, a: Area) {
    && Valid(a) && a.rows == rows && a.cols == Columns(vec, rows) && |vec| == a.rows * a.cols
    && (forall p :: 0 <= p < |vec| ==> a.arr[p] == IsSet(vec[p]))
    && CentreOf(vec, |vec|, a.cols, a.x, a.y)
  }

  method CreateArea(vec: seq<nat>, rows: nat) returns (area: Area)
    requires Fills(vec, rows)
    ensures Described(vec, rows, area)
  {
    var cols := if rows == 0 then 0 else |vec| / rows;
    FilledRows(vec, rows);
    var arr := new bool[rows * cols](_ => false);
    var centerX, centerY := ReadCells(vec, rows, cols, arr);
    area := Area(centerX, centerY, rows, cols, arr[..]);
  }

  /** The loop over the list: it sets cells and the centre. */
  method ReadCells(vec: seq<nat>, rows: nat, cols: nat, arr: array<bool>) returns (centerX: nat, centerY: nat)
    requires arr.Length == |vec| == rows * cols && rows < TWO_32 && cols < TWO_32
    requires forall p :: 0 <= p < |vec| ==> !arr[p]
    modifies arr
    ensures forall p :: 0 <= p < |vec| ==> arr[p] == IsSet(vec[p])
    ensures CentreOf(vec, |vec|, cols, centerX, centerY) && centerX < TWO_32 && centerY < TWO_32
  {
    centerX, centerY := 0, 0;
    var x: nat, y: nat := 0, 0;
    var k := 0;
    FirstPlace(vec, cols);
    hide Idx, CentreOf;
    while k < |vec|
      invariant 0 <= k <= |vec| && k == Idx(y, x, cols) && (cols > 0 ==> x < cols)
      invariant forall p :: 0 <= p < |vec| ==> arr[p] == (p < k && IsSet(vec[p]))
      invariant CentreOf(vec, k, cols, centerX, centerY) && centerX < TWO_32 && centerY < TWO_32
    {
      var value := vec[k];
      Inside(y, x, rows, cols);
      CentreSoFar(vec, k, cols, x, y, centerX, centerY);
      NextPlace(y, x, cols);
      if value == 1 || value == 3 {
        arr[Idx(y, x, cols)] := true;
      }
      if value == 2 || value == 3 {
        centerX, centerY := x, y;
      }
      x := x + 1;
      if cols == x {
        x := 0;
        y := y + 1;
      }
      k := k + 1;
    }
  }

  lemma FirstPlace(vec: seq<nat>, cols: nat)
    ensures Idx(0, 0, cols) == 0 && CentreOf(vec, 0, cols, 0, 0)
  {
  }

  lemma CentreSoFar(vec: seq<nat>, k: nat, cols: nat, x: nat, y: nat, centerX: nat, centerY: nat)
    requires k < |vec| && k == Idx(y, x, cols) && x < cols && CentreOf(vec, k, cols, centerX, centerY)
    ensures if IsCentre(vec[k]) then CentreOf(vec, k + 1, cols, x, y) else CentreOf(vec, k + 1, cols, centerX, centerY)
  {
  }

  lemma NextPlace(y: int, x: int, cols: int)
    ensures Idx(y, x + 1, cols) == Idx(y, x, cols) + 1
    ensures Idx(y, cols, cols) == Idx(y + 1, 0, cols)
  {
    NextMultiple(y, cols);
  }

  lemma Inside(y: int, x: int, rows: int, cols: int)
    requires 0 <= x && 0 <= rows && 0 <= cols && 0 <= y && Idx(y, x, cols) < rows * cols
    ensures cols > 0 && y < rows
  {
    TimesOrder(0, y, cols);
    FactorOrder(y, rows, cols);
  }

  /** The cells of the area, row by row */
  lemma DescribedCell(vec: seq<nat>, rows: nat, a: Area, r: int, c: int)
    requires Described(vec, rows, a) && 0 <= r < a.rows && 0 <= c < a.cols
    ensures 0 <= Idx(r, c, a.cols) < |vec| && Get(a, r, c) == IsSet(vec[Idx(r, c, a.cols)])
  {
    IdxInside(r, c, a.rows, a.cols);
  }

  /** The four areas of a spell: the one that was given, and its turns. */
  ghost predicate Turns(areas: seq<Area>, north: Area) {
    && |areas| >= 4
    && areas[DIRECTION_NORTH] == north
    && Quarter(north, areas[DIRECTION_EAST])
    && Half(north, areas[DIRECTION_SOUTH])
    && ThreeQuarters(north, areas[DIRECTION_WEST])
  }

  /** Whichever way the spell is cast, the same cells are hit as seen by the caster: a cell d ahead of
      the target and e to its right is hit to the east, south and west if it is to the north. */
  lemma SameInAllDirections(areas: seq<Area>, ahead: int, right: int)
    requires |areas| >= 4 && Turns(areas, areas[DIRECTION_NORTH]) && Centred(areas[DIRECTION_NORTH])
    ensures var hit := Hits(areas[DIRECTION_NORTH], right, -ahead);
            && Hits(areas[DIRECTION_EAST], ahead, right) == hit
            && Hits(areas[DIRECTION_SOUTH], -right, ahead) == hit
            && Hits(areas[DIRECTION_WEST], -ahead, -right) == hit
  {
    var north := areas[DIRECTION_NORTH];
    QuarterHits(north, areas[DIRECTION_EAST], ahead, right);
    HalfHits(north, areas[DIRECTION_SOUTH], -right, ahead);
    ThreeQuartersHits(north, areas[DIRECTION_WEST], -ahead, -right);
  }

  // ----- Waves ------------------------------------------------------------------------------

  /** How far a wave of this length reaches to each side in the row that is d cells ahead. */
  function Reach(length: int, spread: int, d: int): int
    requires spread >= 0 && 0 <= d < length
  {
    if spread == 0 then 0 else length / spread - (length - 1 - d) / spread
  }

  /** The width of a wave */
  function Width(length: int, spread: int): int
    requires spread >= 0
  {
    if spread == 0 then 1 else length / spread * 2 + 1
  }

  /** The number for a row and column of a wave, both counted from 0. */
  function WaveNumber(length: int, spread: int, r: int, c: int): nat
    requires spread >= 0 && 0 <= r < length
  {
    var middle := Width(length, spread) / 2;
    if r == length - 1 && c == middle then 3
    else if -Reach(length, spread, length - 1 - r) <= c - middle <= Reach(length, spread, length - 1 - r) then 1
    else 0
  }

  ghost predicate IsWave(vec: seq<nat>, n: int, length: int, spread: int) {
    && spread >= 0 && |vec| == n
    && forall r, c :: 0 <= r < length && 0 <= c < Width(length, spread) && Idx(r, c, Width(length, spread)) < n ==>
         && 0 <= Idx(r, c, Width(length, spread))
         && vec[Idx(r, c, Width(length, spread))] == WaveNumber(length, spread, r, c)
  }

  lemma WaveGrows(vec: seq<nat>, length: int, spread: int, r: int, c: int, v: nat)
    requires spread >= 0 && 0 <= r < length && 0 <= c < Width(length, spread)
    requires IsWave(vec, Idx(r, c, Width(length, spread)), length, spread) && v == WaveNumber(length, spread, r, c)
    ensures IsWave(vec + [v], Idx(r, c + 1, Width(length, spread)), length, spread)
  {
    hide WaveNumber, Width;
    var w := Width(length, spread);
    assert Idx(r, c + 1, w) == Idx(r, c, w) + 1;
    IdxInside(r, c, r + 1, w);
    forall r', c' | 0 <= r' < length && 0 <= c' < w && Idx(r', c', w) < |vec| + 1
      ensures 0 <= Idx(r', c', w) && (vec + [v])[Idx(r', c', w)] == WaveNumber(length, spread, r', c')
    {
      IdxInside(r', c', length, w);
      if Idx(r', c', w) == |vec| { IdxApart(r, c, r', c', w); }
    }
  }

  /** How much narrower than the widest row y is on each side. */
  function Lost(y: int, spread: int): int
    requires spread >= 0
  {
    if spread == 0 then 0 else (y - 1) / spread
  }

  /** The wave narrows after row y. */
  predicate Ends(y: int, spread: int)
    requires spread >= 0
  {
    spread > 0 && y % spread == 0
  }

  lemma ZeroOver(spread: nat)
    ensures Lost(1, spread) == 0
  {
  }

  lemma NoWaveYet(length: nat, spread: nat)
    ensures IsWave([], 0, length, spread)
  {
    forall r, c | 0 <= r < length && 0 <= c < Width(length, spread) && Idx(r, c, Width(length, spread)) < 0
      ensures false
    {
      IdxInside(r, c, length, Width(length, spread));
    }
  }

  lemma RowBegins(r: int, cols: int)
    ensures Idx(r, 0, cols) == r * cols
  {
  }

  lemma RowEnds(r: int, cols: int)
    ensures Idx(r, cols, cols) == (r + 1) * cols
  {
  }

  lemma WaveCell(length: nat, spread: nat, y: int, x: int, cols: int, colSpread: int)
    requires 1 <= y <= length && 1 <= x <= cols == Width(length, spread) && colSpread == cols - Lost(y, spread)
    ensures WaveNumber(length, spread, y - 1, x - 1) ==
            if y == length && x == (cols - cols % 2) / 2 + 1 then 3
            else if cols - colSpread + 1 <= x <= cols - (cols - colSpread) then 1 else 0
  {
    assert length - 1 - (length - 1 - (y - 1)) == y - 1;
  }

  lemma SpreadStep(y: int, spread: int)
    requires spread >= 0 && y >= 1
    ensures Lost(y + 1, spread) == Lost(y, spread) + if Ends(y, spread) then 1 else 0
  {
    if spread > 0 { QuotientStep(y, spread); }
  }

  lemma QuotientStep(y: int, spread: int)
    requires spread > 0 && y >= 1
    ensures y / spread == (y - 1) / spread + if y % spread == 0 then 1 else 0
  {
    var q := y / spread;
    assert y == q * spread + y % spread;
    if y % spread == 0 {
      assert y - 1 == (q - 1) * spread + (spread - 1) by { NextMultiple(q - 1, spread); }
      QuotientAndRest(y - 1, q - 1, spread - 1, spread);
    } else {
      QuotientAndRest(y - 1, q, y % spread - 1, spread);
    }
  }

  method WaveColumns(length: nat, spread: nat) returns (cols: nat)
    ensures cols == Width(length, spread)
  {
    cols := 1;
    if spread != 0 {
      cols := (length - length % spread) / spread * 2 + 1;
      QuotientAndRest(length - length % spread, length / spread, 0, spread);
    }
  }

  /** One row of the list */
  method WaveRow(vec0: seq<nat>, y: nat, length: nat, spread: nat, cols: nat, colSpread: int) returns (vec: seq<nat>)
    requires 1 <= y <= length && cols == Width(length, spread) && colSpread == cols - Lost(y, spread)
    requires IsWave(vec0, (y - 1) * cols, length, spread)
    ensures IsWave(vec, ((y - 1) + 1) * cols, length, spread)
  {
    vec := vec0;
    RowBegins(y - 1, cols);
    RowEnds(y - 1, cols);
    hide *;
    var mincol := cols - colSpread + 1;
    var maxcol := cols - (cols - colSpread);
    var x := 1;
    while x <= cols
      invariant 1 <= x <= cols + 1
      invariant IsWave(vec, Idx(y - 1, x - 1, cols), length, spread)
    {
      var v: nat := if y == length && x == (cols - cols % 2) / 2 + 1 then 3
                    else if mincol <= x <= maxcol then 1
                    else 0;
      WaveCell(length, spread, y, x, cols, colSpread);
      WaveGrows(vec, length, spread, y - 1, x - 1, v);
      vec := vec + [v];
      x := x + 1;
    }
  }

  /** The list for a wave */
  method WaveList(length: nat, spread: nat) returns (vec: seq<nat>)
    ensures IsWave(vec, length * Width(length, spread), length, spread)
  {
    var cols := WaveColumns(length, spread);
    var colSpread: int := cols;
    vec := [];
    ZeroOver(spread);
    NoWaveYet(length, spread);
    var y := 1;
    assert (y - 1) * cols == 0;
    hide *;
    while y <= length
      invariant 1 <= y <= length + 1 && colSpread == cols - Lost(y, spread)
      invariant IsWave(vec, (y - 1) * cols, length, spread)
    {
      vec := WaveRow(vec, y, length, spread, cols, colSpread);
      SpreadStep(y, spread);
      if Ends(y, spread) {
        colSpread := colSpread - 1;
      }
      y := y + 1;
    }
  }

  lemma WaveFills(vec: seq<nat>, length: nat, spread: nat)
    requires IsWave(vec, length * Width(length, spread), length, spread)
    requires length < TWO_32 && length * Width(length, spread) < TWO_32
    ensures Fills(vec, length)
  {
    if length > 0 { QuotientAndRest(|vec|, Width(length, spread), 0, length); }
  }

  lemma WaveCentre(vec: seq<nat>, length: nat, spread: nat, a: Area)
    requires length >= 1 && IsWave(vec, length * Width(length, spread), length, spread) && Described(vec, length, a)
    ensures a.cols == Width(length, spread) && a.x == Width(length, spread) / 2 && a.y == length - 1
  {
    var w := Width(length, spread);
    var middle := w / 2;
    assert a.cols == w by { QuotientAndRest(|vec|, w, 0, length); }
    IdxInside(length - 1, middle, length, w);
    assert vec[Idx(length - 1, middle, w)] == 3;
    Inside(a.y, a.x, length, w);
    assert IsCentre(vec[Idx(a.y, a.x, w)]);
  }

  ghost predicate HitsLikeWave(a: Area, length: nat, spread: nat, ahead: int, right: int) {
    Hits(a, right, -ahead) <==>
      0 <= ahead < length && -Reach(length, spread, ahead) <= right <= Reach(length, spread, ahead)
  }

  /** A wave hits, in the row that is d cells ahead, the cells up to its reach on both sides: it starts
      narrow at the caster and is widest in its last row. */
  lemma WaveHits(vec: seq<nat>, length: nat, spread: nat, a: Area, ahead: int, right: int)
    requires length >= 1 && IsWave(vec, length * Width(length, spread), length, spread) && Described(vec, length, a)
    ensures Centred(a)
    ensures HitsLikeWave(a, length, spread, ahead, right)
  {
    WaveCentre(vec, length, spread, a);
    var w := Width(length, spread);
    var r, c := length - 1 - ahead, w / 2 + right;
    NothingOutside(a);
    if 0 <= ahead < length {
      ReachInside(length, spread, ahead);
      if 0 <= c < w {
        DescribedCell(vec, length, a, r, c);
      }
    }
  }

  lemma ReachInside(length: nat, spread: nat, d: int)
    requires 0 <= d < length
    ensures 0 <= Reach(length, spread, d) <= Width(length, spread) / 2
  {
    if spread > 0 {
      QuotientOrder(length - 1 - d, length, spread);
      QuotientOrder(0, length - 1 - d, spread);
    }
  }

  lemma QuotientOrder(a: int, b: int, d: int)
    requires 0 <= a <= b && d > 0
    ensures 0 <= a / d <= b / d
  {
    assert a == (a / d) * d + a % d && b == (b / d) * d + b % d;
    if b / d < a / d { IdxLater(b / d, b % d, a / d, a % d, d); }
    if a / d < 0 { IdxLater(a / d, a % d, 0, 0, d); }
  }

  const NO_AREA := Area(0, 0, 0, 0, [])

  class AreaCombat {
    var areas: seq<Area>
    var hasExtArea: bool

    constructor ()
      ensures areas == [] && !hasExtArea
    {
      areas, hasExtArea := [], false;
    }

    /** `setupArea` of a list */
    method SetupArea(vec: seq<nat>, rows: nat)
      requires Fills(vec, rows) && (|areas| == 0 || |areas| >= 4)
      modifies `areas
      ensures |areas| == if old(areas) == [] then 4 else |old(areas)|
      ensures Described(vec, rows, areas[DIRECTION_NORTH]) && Turns(areas, areas[DIRECTION_NORTH])
      ensures areas[4..] == if old(areas) == [] then [] else old(areas)[4..]
    {
      var area := CreateArea(vec, rows);
      if |areas| == 0 {
        areas := [NO_AREA, NO_AREA, NO_AREA, NO_AREA];
      }
      var east := Rotate90(area);
      var west := Rotate270(area);
      ReversedIsHalf(area);
      areas := areas[DIRECTION_EAST := east];
      areas := areas[DIRECTION_SOUTH := Rotate180(area)];
      areas := areas[DIRECTION_WEST := west];
      areas := areas[DIRECTION_NORTH := area];
    }

    /** `setupArea` of a wave */
    method SetupWave(length: nat, spread: nat)
      requires length < TWO_32 && length * Width(length, spread) < TWO_32 && (|areas| == 0 || |areas| >= 4)
      modifies `areas
      ensures |areas| >= 4 && Turns(areas, areas[DIRECTION_NORTH])
      ensures length >= 1 ==>
        && Centred(areas[DIRECTION_NORTH])
        && forall ahead, right :: HitsLikeWave(areas[DIRECTION_NORTH], length, spread, ahead, right)
    {
      var vec := WaveList(length, spread);
      WaveFills(vec, length, spread);
      SetupArea(vec, length);
      if length >= 1 {
        forall ahead, right ensures HitsLikeWave(areas[DIRECTION_NORTH], length, spread, ahead, right) {
          WaveHits(vec, length, spread, areas[DIRECTION_NORTH], ahead, right);
        }
        WaveHits(vec, length, spread, areas[DIRECTION_NORTH], 0, 0);
      }
    }

    /** `setupExtArea`; `mirror` needs an area that is not wider than high. */
    method SetupExtArea(vec: seq<nat>, rows: nat)
      requires Fills(vec, rows) && Columns(vec, rows) <= rows
      modifies `areas, `hasExtArea
      ensures vec == [] ==> areas == old(areas) && hasExtArea == old(hasExtArea)
      ensures vec != [] ==>
        && hasExtArea && |areas| == 8 && Described(vec, rows, areas[DIRECTION_NORTHWEST])
        && (forall d :: 0 <= d < 4 ==> areas[d] == if d < |old(areas)| then old(areas)[d] else NO_AREA)
        && Diagonals(areas, areas[DIRECTION_NORTHWEST])
    {
      if vec == [] { return; }
      hasExtArea := true;
      var area := CreateArea(vec, rows);
      var northeast := Mirror(area);
      var southwest := Flip(area);
      var was := areas;
      areas := seq(8, d requires 0 <= d < 8 => if d < |was| then was[d] else NO_AREA);
      areas := areas[DIRECTION_NORTHEAST := northeast];
      areas := areas[DIRECTION_SOUTHWEST := southwest];
      areas := areas[DIRECTION_SOUTHEAST := Transpose(area)];
      areas := areas[DIRECTION_NORTHWEST := area];
    }

    /** `getArea`, by the offset of the target from the caster */
    function GetArea(dx: int, dy: int): Area
      reads this
    {
      var straight := if dx < 0 then DIRECTION_WEST else if dx > 0 then DIRECTION_EAST
                      else if dy < 0 then DIRECTION_NORTH else DIRECTION_SOUTH;
      var dir := if !hasExtArea then straight
                 else if dx < 0 && dy < 0 then DIRECTION_NORTHWEST
                 else if dx > 0 && dy < 0 then DIRECTION_NORTHEAST
                 else if dx < 0 && dy > 0 then DIRECTION_SOUTHWEST
                 else if dx > 0 && dy > 0 then DIRECTION_SOUTHEAST
                 else straight;
      if dir >= |areas| then NO_AREA else areas[dir]
    }

    /** Without diagonal areas, and to a target straight ahead, the spell goes where the target is, east and west
        before north and south: a cell so far ahead and so far to the right of that direction is hit like in
        the north. */
    lemma FacesTarget(dx: int, dy: int, ahead: int, right: int)
      requires !hasExtArea || dx == 0 || dy == 0
      requires |areas| >= 4 && Turns(areas, areas[DIRECTION_NORTH]) && Centred(areas[DIRECTION_NORTH])
      ensures
        var fx, fy := Facing(dx, dy).0, Facing(dx, dy).1;
        Hits(GetArea(dx, dy), ahead * fx - right * fy, ahead * fy + right * fx)
        == Hits(areas[DIRECTION_NORTH], right, -ahead)
    {
      SameInAllDirections(areas, ahead, right);
      hide Hits, Turns, Centred;
    }

    /** The diagonal areas of a square: to the north-east and the south-west a spell hits the reflection of what
        it hits to the north-west, shifted by twice as much as the centre is off the middle, to the south-east
        the transposed cells. */
    lemma FacesDiagonally(dx: int, dy: int, u: int, v: int)
      requires hasExtArea && |areas| == 8 && dx != 0 && dy != 0
      requires var a := areas[DIRECTION_NORTHWEST]; Diagonals(areas, a) && Centred(a) && a.rows == a.cols
      ensures var a := areas[DIRECTION_NORTHWEST]; var (sx, sy) := (a.cols - 1 - 2 * a.x, a.rows - 1 - 2 * a.y);
              Hits(GetArea(dx, dy), u, v) ==
              if dx < 0 && dy < 0 then Hits(a, u, v)
              else if dx > 0 && dy < 0 then Hits(a, sx - u, sy + v)
              else if dx < 0 && dy > 0 then Hits(a, sx + u, sy - v)
              else Hits(a, v, u)
    {
      hide Diagonals, Centred, Hits, GetArea, Transpose, MirrorOf, FlipOf;
      var a := areas[DIRECTION_NORTHWEST];
      TakesDiagonal(dx, dy);
      DiagonalsMean(areas, a);
      if dx > 0 && dy < 0 {
        MirrorHits(a, areas[DIRECTION_NORTHEAST], u, v);
      } else if dx < 0 && dy > 0 {
        FlipHits(a, areas[DIRECTION_SOUTHWEST], u, v);
      } else if dx > 0 && dy > 0 {
        TransposeOfSquare(a);
        TransposedHits(a, Transpose(a), u, v);
      }
    }

    lemma TakesDiagonal(dx: int, dy: int)
      requires hasExtArea && |areas| == 8 && dx != 0 && dy != 0
      ensures GetArea(dx, dy) ==
              areas[if dy < 0 then (if dx < 0 then DIRECTION_NORTHWEST else DIRECTION_NORTHEAST)
                    else if dx < 0 then DIRECTION_SOUTHWEST else DIRECTION_SOUTHEAST]
    {
    }

    /** With the centre in the corner, so that the area lies to the north-west of it, the other diagonal areas
        lie on the wrong side: the one for the north-east to the south-west, the one for the south-west to the
        north-east, and the one for the south-east to the north-west. */
    lemma CornerFacesAway(dx: int, dy: int, u: int, v: int)
      requires hasExtArea && |areas| == 8 && dx != 0 && dy != 0
      requires var a := areas[DIRECTION_NORTHWEST];
               Diagonals(areas, a) && a.rows == a.cols && a.x == a.cols - 1 && a.y == a.rows - 1
      requires Hits(GetArea(dx, dy), u, v)
      ensures if (dx > 0 && dy < 0) then u <= 0 && v >= 0
              else if dx < 0 && dy > 0 then u >= 0 && v <= 0
              else u <= 0 && v <= 0
    {
      FacesDiagonally(dx, dy, u, v);
      NothingOutside(areas[DIRECTION_NORTHWEST]);
      hide Get, Transpose, MirrorOf, FlipOf;
    }
  }

  /** The diagonal areas as they are made from one of them */
  ghost predicate Diagonals(areas: seq<Area>, a: Area)
    requires |areas| == 8
  {
    && Valid(a) && areas[DIRECTION_NORTHWEST] == a && MirrorOf(a, areas[DIRECTION_NORTHEAST])
    && FlipOf(a, areas[DIRECTION_SOUTHWEST]) && areas[DIRECTION_SOUTHEAST] == Transpose(a)
  }

  lemma DiagonalsMean(areas: seq<Area>, a: Area)
    requires |areas| == 8 && Diagonals(areas, a)
    ensures Valid(a) && areas[DIRECTION_NORTHWEST] == a && MirrorOf(a, areas[DIRECTION_NORTHEAST])
    ensures FlipOf(a, areas[DIRECTION_SOUTHWEST]) && areas[DIRECTION_SOUTHEAST] == Transpose(a)
  {
    hide Valid, MirrorOf, FlipOf, Transpose;
  }

  /** The south-eastern area hits to its side what the north-western one hits to the other. */
  ghost predicate Opposite(a: Area, b: Area) {
    forall u, v :: Hits(b, u, v) == Hits(a, -u, -v)
  }

  /** The area is symmetric about the line from the south-west to the north-east. */
  ghost predicate Symmetric(a: Area) {
    forall u, v :: Hits(a, u, v) == Hits(a, -v, -u)
  }

  /** Exchanging rows and columns turns a square to the opposite side only if it is symmetric about the other
      diagonal; an area that lies to the north-west stays there. */
  lemma SouthEastFaces(a: Area)
    requires Centred(a) && a.rows == a.cols
    ensures Opposite(a, Transpose(a)) <==> Symmetric(a)
    ensures (forall u, v :: Hits(a, u, v) ==> u <= 0 && v <= 0) ==>
              forall u, v :: Hits(Transpose(a), u, v) ==> u <= 0 && v <= 0
  {
    var b := Transpose(a);
    TransposeOfSquare(a);
    forall u, v
      ensures Hits(b, u, v) == Hits(a, v, u)
    {
      TransposedHits(a, b, u, v);
    }
    hide Hits, Transpose;
    if Opposite(a, b) {
      forall u, v ensures Hits(a, u, v) == Hits(a, -v, -u) { assert Hits(b, v, u) == Hits(a, -v, -u); }
    }
    if Symmetric(a) {
      forall u, v ensures Hits(b, u, v) == Hits(a, -u, -v) { assert Hits(a, v, u) == Hits(a, -u, -v); }
    }
  }

  /** The direction of the target, as a step */
  function Facing(dx: int, dy: int): (int, int) {
    if dx < 0 then (-1, 0) else if dx > 0 then (1, 0) else if dy < 0 then (0, -1) else (0, 1)
  }
}
