/** The local walk cache of a creature: a square of flags around it that says which tiles it could
    step on, shifted in place when the creature moves by one tile. */
module WalkCache {
  import opened Arithmetic

  const WIDTH := 23
  const HEIGHT := 23
  const MAX_X := 11
  const MAX_Y := 11

  /** Whether the tile at (x, y) would take the creature. */
  type Ground = (int, int) -> bool

  datatype Pos = Pos(x: int, y: int)

  /** What a full recomputation puts into row r and column c for a creature at p. */
  function Fresh(g: Ground, p: Pos, r: int, c: int): bool {
    g(p.x + c - MAX_X, p.y + r - MAX_Y)
  }

  /** The eight directions and staying, by their offsets. */
  predicate OneStep(from: Pos, to: Pos) {
    Abs(to.x - from.x) <= 1 && Abs(to.y - from.y) <= 1
  }

  class Creature {
    const localMapCache: array2<bool>
    var position: Pos

    constructor (p: Pos)
      ensures position == p && fresh(localMapCache) && Sized()
    {
      localMapCache := new bool[HEIGHT, WIDTH]((i, j) => false);
      position := p;
    }

    predicate Sized() {
      localMapCache.Length0 == HEIGHT && localMapCache.Length1 == WIDTH
    }

    /** The cache agrees with recomputing every cell but the one of the creature itself. */
    ghost predicate Current(g: Ground)
      requires Sized()
      reads this, localMapCache
    {
      forall r, c :: 0 <= r < HEIGHT && 0 <= c < WIDTH && !(r == MAX_Y && c == MAX_X) ==>
        localMapCache[r, c] == Fresh(g, position, r, c)
    }

    /** `updateTileCache(tile, dx, dy)`: offsets outside the square are ignored. */
    method UpdateTileCache(g: Ground, dx: int, dy: int)
      requires Sized()
      modifies localMapCache
      ensures forall r, c :: 0 <= r < HEIGHT && 0 <= c < WIDTH ==>
        localMapCache[r, c] ==
          if r == MAX_Y + dy && c == MAX_X + dx then Fresh(g, position, r, c) else old(localMapCache[r, c])
    {
      if Abs(dx) <= MAX_X && Abs(dy) <= MAX_Y {
        localMapCache[MAX_Y + dy, MAX_X + dx] := g(position.x + dx, position.y + dy);
      }
    }

    /** `updateMapCache` */
    method UpdateMapCache(g: Ground)
      requires Sized()
      modifies localMapCache
      ensures forall r, c :: 0 <= r < HEIGHT && 0 <= c < WIDTH ==> localMapCache[r, c] == Fresh(g, position, r, c)
    {
      var y := -MAX_Y;
      while y <= MAX_Y
        invariant -MAX_Y <= y <= MAX_Y + 1
        invariant forall r, c :: 0 <= r < MAX_Y + y && 0 <= c < WIDTH ==>
                    localMapCache[r, c] == Fresh(g, position, r, c)
      {
        var x := -MAX_X;
        while x <= MAX_X
          invariant -MAX_X <= x <= MAX_X + 1
          invariant forall r, c :: 0 <= r < MAX_Y + y && 0 <= c < WIDTH ==>
                      localMapCache[r, c] == Fresh(g, position, r, c)
          invariant forall r, c :: r == MAX_Y + y && 0 <= c < MAX_X + x ==>
                      localMapCache[r, c] == Fresh(g, position, r, c)
        {
          UpdateTileCache(g, x, y);
          x := x + 1;
        }
        y := y + 1;
      }
    }

    /** Row `target` becomes a copy of row `source`. */
    method CopyRow(target: int, source: int)
      requires Sized() && 0 <= target < HEIGHT && 0 <= source < HEIGHT && target != source
      modifies localMapCache
      ensures forall c :: 0 <= c < WIDTH ==> localMapCache[target, c] == old(localMapCache[source, c])
      ensures forall r, c :: 0 <= r < HEIGHT && 0 <= c < WIDTH && r != target ==>
                localMapCache[r, c] == old(localMapCache[r, c])
    {
      var c := 0;
      while c < WIDTH
        invariant 0 <= c <= WIDTH
        invariant forall r, d :: 0 <= r < HEIGHT && 0 <= d < WIDTH ==>
          localMapCache[r, d] == old(localMapCache[if r == target && d < c then source else r, d])
      {
        localMapCache[target, c] := localMapCache[source, c];
        c := c + 1;
      }
    }

    /** One row is recomputed. */
    method UpdateRow(g: Ground, dy: int)
      requires Sized() && -MAX_Y <= dy <= MAX_Y
      modifies localMapCache
      ensures forall r, c :: 0 <= r < HEIGHT && 0 <= c < WIDTH ==>
        localMapCache[r, c] == if r == MAX_Y + dy then Fresh(g, position, r, c) else old(localMapCache[r, c])
    {
      var x := -MAX_X;
      while x <= MAX_X
        invariant -MAX_X <= x <= MAX_X + 1
        invariant forall r, c :: 0 <= r < HEIGHT && 0 <= c < WIDTH ==>
          localMapCache[r, c] ==
            if r == MAX_Y + dy && c < MAX_X + x then Fresh(g, position, r, c) else old(localMapCache[r, c])
      {
        UpdateTileCache(g, x, dy);
        x := x + 1;
      }
    }

    /** One column is recomputed. */
    method UpdateColumn(g: Ground, dx: int)
      requires Sized() && -MAX_X <= dx <= MAX_X
      modifies localMapCache
      ensures forall r, c :: 0 <= r < HEIGHT && 0 <= c < WIDTH ==>
        localMapCache[r, c] == if c == MAX_X + dx then Fresh(g, position, r, c) else old(localMapCache[r, c])
    {
      var y := -MAX_Y;
      while y <= MAX_Y
        invariant -MAX_Y <= y <= MAX_Y + 1
        invariant forall r, c :: 0 <= r < HEIGHT && 0 <= c < WIDTH ==>
          localMapCache[r, c] ==
            if c == MAX_X + dx && r < MAX_Y + y then Fresh(g, position, r, c) else old(localMapCache[r, c])
      {
        UpdateTileCache(g, dx, y);
        y := y + 1;
      }
    }

    /** North: every row moves one down. */
    method ShiftSouth()
      requires Sized()
      modifies localMapCache
      ensures forall r, c :: 0 <= r < HEIGHT && 0 <= c < WIDTH ==>
        localMapCache[r, c] == old(localMapCache[if r == 0 then r else r - 1, c])
    {
      ghost var was := map r, c | 0 <= r < HEIGHT && 0 <= c < WIDTH :: (r, c) := localMapCache[r, c];
      var y := HEIGHT - 1;
      while y > 0
        invariant 0 <= y <= HEIGHT - 1
        invariant forall r, c :: 0 <= r <= y && 0 <= c < WIDTH ==> localMapCache[r, c] == was[(r, c)]
        invariant forall r, c :: y < r < HEIGHT && 0 <= c < WIDTH ==> localMapCache[r, c] == was[(r - 1, c)]
      {
        y := y - 1;
        CopyRow(y + 1, y);
      }
    }

    /** South: every row moves one up. */
    method ShiftNorth()
      requires Sized()
      modifies localMapCache
      ensures forall r, c :: 0 <= r < HEIGHT && 0 <= c < WIDTH ==>
        localMapCache[r, c] == old(localMapCache[if r == HEIGHT - 1 then r else r + 1, c])
    {
      var y := 0;
      while y <= HEIGHT - 2
        invariant 0 <= y <= HEIGHT - 1
        invariant forall r, c :: 0 <= r < HEIGHT && 0 <= c < WIDTH ==>
          localMapCache[r, c] == old(localMapCache[if r < y then r + 1 else r, c])
      {
        CopyRow(y, y + 1);
        y := y + 1;
      }
    }

    /** East: in the rows from starty to endy every cell moves one to the left. */
    method ShiftWest(starty: int, endy: int)
      requires Sized() && 0 <= starty && endy < HEIGHT
      modifies localMapCache
      ensures forall r, c :: 0 <= r < HEIGHT && 0 <= c < WIDTH ==>
        localMapCache[r, c] == old(localMapCache[r, if starty <= r <= endy && c < WIDTH - 1 then c + 1 else c])
    {
      var y := starty;
      while y <= endy
        invariant starty <= y
        invariant y <= endy + 1 || y == starty
        invariant forall r, c :: 0 <= r < HEIGHT && 0 <= c < WIDTH ==>
          localMapCache[r, c] == old(localMapCache[r, if starty <= r < y && c < WIDTH - 1 then c + 1 else c])
      {
        var x := 0;
        while x <= WIDTH - 2
          invariant 0 <= x <= WIDTH - 1
          invariant forall r, c :: 0 <= r < HEIGHT && 0 <= c < WIDTH ==>
            localMapCache[r, c] ==
              old(localMapCache[r, if (starty <= r < y && c < WIDTH - 1) || (r == y && c < x) then c + 1 else c])
        {
          localMapCache[y, x] := localMapCache[y, x + 1];
          x := x + 1;
        }
        y := y + 1;
      }
    }

    /** West: in the rows from starty to endy every cell moves one to the right. */
    method ShiftEast(starty: int, endy: int)
      requires Sized() && 0 <= starty && endy < HEIGHT
      modifies localMapCache
      ensures forall r, c :: 0 <= r < HEIGHT && 0 <= c < WIDTH ==>
        localMapCache[r, c] == old(localMapCache[r, if starty <= r <= endy && c > 0 then c - 1 else c])
    {
      var y := starty;
      while y <= endy
        invariant starty <= y
        invariant y <= endy + 1 || y == starty
        invariant forall r, c :: 0 <= r < HEIGHT && 0 <= c < WIDTH ==>
          localMapCache[r, c] == old(localMapCache[r, if starty <= r < y && c > 0 then c - 1 else c])
      {
        var x := WIDTH - 1;
        while x > 0
          invariant 0 <= x <= WIDTH - 1
          invariant forall r, c :: 0 <= r < HEIGHT && 0 <= c < WIDTH ==>
            localMapCache[r, c] ==
              old(localMapCache[r, if (starty <= r < y && c > 0) || (r == y && c > x) then c - 1 else c])
        {
          x := x - 1;
          localMapCache[y, x + 1] := localMapCache[y, x];
        }
        y := y + 1;
      }
    }

    /** `onCreatureMove` for the creature itself, on one floor. */
    method OnOwnMove(g: Ground, oldPos: Pos, newPos: Pos, teleport: bool, ghost was: Ground, ghost g0: Ground)
      requires Sized() && (!teleport ==> OneStep(oldPos, newPos))
      requires forall r, c :: 0 <= r < HEIGHT && 0 <= c < WIDTH ==> localMapCache[r, c] == was(r, c)
      modifies this, localMapCache
      ensures position == newPos
      ensures forall r, c :: 0 <= r < HEIGHT && 0 <= c < WIDTH ==>
        localMapCache[r, c] == if teleport then Fresh(g, newPos, r, c) else Stepped(was, g, oldPos, newPos, r, c)
      ensures teleport ==> Current(g)
      ensures !SouthDiagonal(oldPos, newPos) && Agrees(was, g0, oldPos) && SameBut(g0, g, oldPos, newPos) ==> Current(g)
    {
      position := newPos;
      if teleport {
        UpdateMapCache(g);
        return;
      }
      if oldPos.y > newPos.y {
        ShiftSouth();
        UpdateRow(g, -MAX_Y);
      } else if oldPos.y < newPos.y {
        ShiftNorth();
        UpdateRow(g, MAX_Y);
      }
      assert forall r, c :: 0 <= r < HEIGHT && 0 <= c < WIDTH ==>
        localMapCache[r, c] == SteppedY(was, g, oldPos, newPos, r, c);
      var starty, endy := 0, HEIGHT - 1;
      var dy := Abs(newPos.y - oldPos.y);
      if dy < 0 {
        endy := endy + dy;
      } else if dy > 0 {
        starty := dy;
      }
      if oldPos.x < newPos.x {
        ShiftWest(starty, endy);
        UpdateColumn(g, MAX_X);
      } else if oldPos.x > newPos.x {
        ShiftEast(starty, endy);
        UpdateColumn(g, -MAX_X);
      }
      assert forall r, c :: 0 <= r < HEIGHT && 0 <= c < WIDTH ==>
        localMapCache[r, c] == SteppedX(was, g, oldPos, newPos, r, c);
      UpdateTileCache(g, oldPos.x - newPos.x, oldPos.y - newPos.y);
      if !SouthDiagonal(oldPos, newPos) && Agrees(was, g0, oldPos) && SameBut(g0, g, oldPos, newPos) {
        StepKeepsAgreement(was, g0, g, oldPos, newPos);
      }
    }

    /** `onCreatureMove` for another creature on the same floor. */
    method OnOtherMove(g: Ground, oldPos: Pos, newPos: Pos, ghost g0: Ground)
      requires Sized() && Current(g0) && SameBut(g0, g, oldPos, newPos)
      modifies localMapCache
      ensures Current(g)
    {
      UpdateTileCache(g, newPos.x - position.x, newPos.y - position.y);
      UpdateTileCache(g, oldPos.x - position.x, oldPos.y - position.y);
    }
  }

  /** Only the two tiles of a move may have changed. */
  ghost predicate SameBut(g0: Ground, g: Ground, oldPos: Pos, newPos: Pos) {
    forall x, y :: Pos(x, y) != oldPos && Pos(x, y) != newPos ==> g(x, y) == g0(x, y)
  }

  /** The cache after the vertical part of a step. */
  ghost function SteppedY(was: Ground, g: Ground, from: Pos, to: Pos, r: int, c: int): bool {
    if to.y < from.y then (if r == 0 then Fresh(g, to, r, c) else was(r - 1, c))
    else if to.y > from.y then (if r == HEIGHT - 1 then Fresh(g, to, r, c) else was(r + 1, c))
    else was(r, c)
  }

  /** The cache after the horizontal part; the first row is left out when the step is diagonal. */
  ghost function SteppedX(was: Ground, g: Ground, from: Pos, to: Pos, r: int, c: int): bool {
    var shifted := r >= Abs(to.y - from.y);
    if to.x > from.x then
      if c == WIDTH - 1 then Fresh(g, to, r, c)
      else SteppedY(was, g, from, to, r, if shifted then c + 1 else c)
    else if to.x < from.x then
      if c == 0 then Fresh(g, to, r, c)
      else SteppedY(was, g, from, to, r, if shifted then c - 1 else c)
    else SteppedY(was, g, from, to, r, c)
  }

  /** The cache after a whole step: the tile that was left is recomputed last. */
  ghost function Stepped(was: Ground, g: Ground, from: Pos, to: Pos, r: int, c: int): bool {
    if r == MAX_Y + from.y - to.y && c == MAX_X + from.x - to.x then Fresh(g, to, r, c)
    else SteppedX(was, g, from, to, r, c)
  }

  /** Every cell but the centre is what a recomputation at p gives. */
  ghost predicate Agrees(was: Ground, g: Ground, p: Pos) {
    forall r, c :: 0 <= r < HEIGHT && 0 <= c < WIDTH && !(r == MAX_Y && c == MAX_X) ==> was(r, c) == Fresh(g, p, r, c)
  }

  /** The step turns every correct cache into a correct one, whatever the ground is like. */
  ghost predicate AlwaysRight(from: Pos, to: Pos) {
    forall was: Ground, g0: Ground, g: Ground {:trigger Agrees(was, g0, from), SameBut(g0, g, from, to)} ::
      Agrees(was, g0, from) && SameBut(g0, g, from, to) ==> StepAgrees(was, g, from, to)
  }

  ghost predicate StepAgrees(was: Ground, g: Ground, from: Pos, to: Pos) {
    forall r, c :: 0 <= r < HEIGHT && 0 <= c < WIDTH && !(r == MAX_Y && c == MAX_X) ==>
      Stepped(was, g, from, to, r, c) == Fresh(g, to, r, c)
  }

  ghost predicate SouthDiagonal(from: Pos, to: Pos) {
    to.y > from.y && to.x != from.x
  }

  /** North, south, east, west, north-east and north-west keep the cache correct. */
  lemma StepKeepsAgreement(was: Ground, g0: Ground, g: Ground, from: Pos, to: Pos)
    requires OneStep(from, to) && !SouthDiagonal(from, to)
    requires Agrees(was, g0, from) && SameBut(g0, g, from, to)
    ensures StepAgrees(was, g, from, to)
  {
  }

  /** South-east and south-west do not: on ground striped by columns the first row is wrong. */
  lemma SouthDiagonalBreaks(from: Pos, to: Pos)
    requires OneStep(from, to) && SouthDiagonal(from, to)
    ensures !AlwaysRight(from, to)
  {
    var stripes: Ground := (x, y) => x % 2 == 0;
    var was: Ground := (r, c) => Fresh(stripes, from, r, c);
    assert Agrees(was, stripes, from) && SameBut(stripes, stripes, from, to);
    assert Stepped(was, stripes, from, to, 0, 5) != Fresh(stripes, to, 0, 5);
  }

  /** A step is always handled correctly exactly if it is no diagonal step to the south. */
  lemma RightUnlessSouthDiagonal(from: Pos, to: Pos)
    requires OneStep(from, to)
    ensures AlwaysRight(from, to) <==> !SouthDiagonal(from, to)
  {
    if SouthDiagonal(from, to) {
      SouthDiagonalBreaks(from, to);
    } else {
      forall was: Ground, g0: Ground, g: Ground | Agrees(was, g0, from) && SameBut(g0, g, from, to)
        ensures StepAgrees(was, g, from, to)
      {
        StepKeepsAgreement(was, g0, g, from, to);
      }
    }
  }
}
