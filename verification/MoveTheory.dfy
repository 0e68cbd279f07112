/** What one move between containers does, as a function on the forest, and the laws it obeys. */
module MoveTheory {
  import opened Arithmetic
  import opened Collections
  import opened Forests
  import opened Containers
  import opened StackAccounts
  import opened ContainerQueries

  /** Stacks are legal and no container is over its capacity. */
  ghost predicate Orderly(f: Forest<Item>) {
    && Consistent(f)
    && Stacked(f)
    && (forall d {:trigger Fits(f, d)} :: d in f ==> Fits(f, d))
  }

  /** A second stack of the same type and attributes, outside every container. */
  ghost function Copied(f: Forest<Item>, item: Item, n: nat, copy: Item): Forest<Item>
    requires item in f
  {
    f[copy := f[item].(count := n, parent := None, list := [], total := 0, ammo := 0)]
  }

  /** How much of m goes onto the stack `onto`. */
  ghost function Joining(f: Forest<Item>, item: Item, onto: Option<Item>, m: nat): nat
    requires item in f
  {
    if onto.Some? && Stackables(f, onto.value, item) && f[onto.value].count <= STACK_LIMIT
    then Min(STACK_LIMIT - f[onto.value].count, m) else 0
  }

  /** A new stack of n arrives in c. */
  ghost function SplitOff(f: Forest<Item>, c: Item, item: Item, n: nat, copy: Item): Forest<Item>
    requires c in f && item in f
  {
    PushFront(Copied(f, item, n, copy), c, copy)
  }

  /** The forest after the joining step of an arrival. */
  ghost function Joined(f: Forest<Item>, c: Item, item: Item, onto: Option<Item>, m: nat): Forest<Item>
    requires c in f && item in f
  {
    if onto.Some? && Stackables(f, onto.value, item)
    then Change(f, c, onto.value, f[onto.value].kind, f[onto.value].count + Joining(f, item, onto, m)) else f
  }

  /** The second half of a move: m pieces of a stack, already taken out, arrive in c. */
  ghost function Arrived(f: Forest<Item>, c: Item, item: Item, onto: Option<Item>, m: nat, copy: Item): Forest<Item>
    requires c in f && item in f
  {
    var n := Joining(f, item, onto, m);
    var g := Joined(f, c, item, onto, m);
    if n < m then SplitOff(g, c, item, m - n, copy) else g
  }

  /** A whole move: m of the item leaves `from` and arrives in c, possibly onto another stack. */
  ghost function Moved(f: Forest<Item>, from: Item, c: Item, item: Item, onto: Option<Item>, m: nat, copy: Item)
    : Forest<Item>
    requires Consistent(f) && from in f && c in f && item in f
  {
    var g := RemoveSpec(f, from, item, m);
    RemoveKeys(f, from, item, m);
    if f[item].kind.stackable then Arrived(g, c, item, onto, m, copy)
    else PushFront(g, c, item)
  }

  lemma RemoveKeys(f: Forest<Item>, from: Item, item: Item, m: nat)
    requires Consistent(f) && from in f && item in f
    ensures RemoveSpec(f, from, item, m).Keys == f.Keys
  {
    if item in f[from].list { assert ListHolds(f, from); }
  }

  // ----- The first half: taking out ---------------------------------------------------------

  ghost predicate MayTake(f: Forest<Item>, from: Item, item: Item, m: nat) {
    && from in f && item in f && f[from].box && item in f[from].list
    && 1 <= m && (f[item].kind.stackable ==> m <= f[item].count)
  }

  /** What is known of the forest once m of an item has been taken out. */
  lemma TakenOut(f: Forest<Item>, from: Item, item: Item, m: nat)
    requires Orderly(f) && MayTake(f, from, item, m)
    ensures var g := RemoveSpec(f, from, item, m);
            && Orderly(g) && g.Keys == f.Keys && item != from
            && (forall x :: x in f && x != from && x != item ==> SameItem(g[x], f[x]))
            && SameItem(g[from], f[from].(list := g[from].list, ammo := g[from].ammo))
            && (if f[item].kind.stackable && m < f[item].count
                then g[from].list == f[from].list && SameItem(g[item], f[item].(count := f[item].count - m))
                else |g[from].list| == |f[from].list| - 1 && SameItem(g[item], f[item].(parent := None)))
            && (forall x :: x in g[from].list <==>
                  x in f[from].list && (x == item ==> f[item].kind.stackable && m < f[item].count))
  {
    hide Above, Change, Drop, Balanced, Counted;
    var k := IndexOf(f[from].list, item);
    MemberFacts(f, from, k);
    assert ListHolds(f, from) && Fits(f, from);
    var g := RemoveSpec(f, from, item, m);
    if f[item].kind.stackable && m < f[item].count {
      assert StackOk(f[item]) && ListHolds(f, item);
      ChangeKeeps(f, from, item, f[item].kind, f[item].count - m);
      ChangeCells(f, from, item, f[item].count - m);
      StaysOrderly(f, g, from, item);
    } else {
      DropKeeps(f, from, k);
      DropCells(f, from, k);
      RestOfList(f[from].list, k);
      StaysOrderly(f, g, from, item);
    }
  }

  lemma RestOfList<T>(s: seq<T>, k: nat)
    requires k < |s| && NoDup(s)
    ensures forall x :: x in s[..k] + s[k + 1..] <==> x in s && x != s[k]
  {
    forall x | x in s && x != s[k]
      ensures x in s[..k] + s[k + 1..]
    {
      var i :| 0 <= i < |s| && s[i] == x;
      assert (s[..k] + s[k + 1..])[if i < k then i else i - 1] == x;
    }
  }

  lemma StaysOrderly(f: Forest<Item>, g: Forest<Item>, c: Item, item: Item)
    requires Orderly(f) && Consistent(g) && g.Keys == f.Keys && c in f && item in f && c != item
    requires forall x :: x in f && x != c && x != item ==> SameItem(g[x], f[x])
    requires StackOk(g[item]) && g[item].list == f[item].list
    requires g[item].capacity == f[item].capacity && g[item].box == f[item].box
    requires g[c].kind == f[c].kind && g[c].count == f[c].count
    requires g[c].box == f[c].box && g[c].capacity == f[c].capacity
    requires g[c].box ==> |g[c].list| <= g[c].capacity
    ensures Orderly(g)
  {
    forall x | x in g
      ensures StackOk(g[x]) && Fits(g, x)
    {
      assert StackOk(f[x]) && Fits(f, x);
    }
  }

  // ----- The second half: arriving ----------------------------------------------------------

  /** Walks from old items do not notice a new item outside every container. */
  lemma {:induction false} UpGrows(f: Forest<Item>, g: Forest<Item>, x: Item, n: nat)
    requires Shaped(f) && x in f
    requires forall y :: y in f ==> y in g && g[y].parent == f[y].parent
    ensures Up(f, Some(x), n) == Up(g, Some(x), n)
    decreases n
  {
    if n > 0 {
      assert ParentHolds(f, x);
      if f[x].parent.Some? {
        UpGrows(f, g, f[x].parent.value, n - 1);
      } else {
        UpNone(f, n - 1);
        UpNone(g, n - 1);
      }
    }
  }

  lemma CopyKeeps(f: Forest<Item>, item: Item, n: nat, copy: Item)
    requires Orderly(f) && item in f && f[item].kind.stackable && copy !in f && 1 <= n <= STACK_LIMIT
    ensures Orderly(Copied(f, item, n, copy))
    ensures forall x :: x in f ==> Copied(f, item, n, copy)[x] == f[x]
    ensures forall c, x :: x in f && c in f ==> (Above(f, c, x) <==> Above(Copied(f, item, n, copy), c, x))
    ensures forall x :: x in f ==> !Above(Copied(f, item, n, copy), copy, x)
  {
    assert ListHolds(f, item);
    NewKeeps(f, copy, f[item].(count := n, parent := None, list := [], total := 0, ammo := 0));
  }

  /** A new stack or other item outside every container that is no container itself. */
  ghost predicate Alone(cell: Cell<Item>) {
    && cell.parent == None && cell.list == [] && cell.total == 0 && cell.ammo == 0 && !cell.box && StackOk(cell)
  }

  lemma NewKeeps(f: Forest<Item>, copy: Item, cell: Cell<Item>)
    requires Orderly(f) && copy !in f && Alone(cell)
    ensures Orderly(f[copy := cell])
    ensures forall c, x :: x in f && c in f ==> (Above(f, c, x) <==> Above(f[copy := cell], c, x))
    ensures forall x :: x in f ==> !Above(f[copy := cell], copy, x)
  {
    var g := f[copy := cell];
    forall x, k: nat | x in f
      ensures Up(f, Some(x), k) == Up(g, Some(x), k)
      ensures Up(g, Some(x), k) != Some(copy)
    {
      UpGrows(f, g, x, k);
      UpStaysIn(f, x, k);
    }
    forall x | x in g
      ensures ParentHolds(g, x) && ListHolds(g, x) && Rooted(g, x) && Weighed(g, x, 0) && Counted(g, x)
      ensures StackOk(g[x]) && Fits(g, x)
    {
      if x == copy {
        assert Up(g, Some(copy), 1) == None;
      } else {
        assert ParentHolds(f, x) && ListHolds(f, x) && Rooted(f, x) && Weighed(f, x, 0) && Counted(f, x);
        assert StackOk(f[x]) && Fits(f, x);
        Untouched(f, g, x);
      }
    }
  }

  ghost predicate MayJoin(f: Forest<Item>, c: Item, item: Item, onto: Option<Item>) {
    c in f && f[c].box && item in f && f[item].kind.stackable &&
    (onto.Some? ==> onto.value in f && onto.value in f[c].list && !f[onto.value].box)
  }

  /** There is a slot for what does not fit onto the stack it joins. */
  ghost predicate SlotLeft(f: Forest<Item>, c: Item, item: Item, onto: Option<Item>, m: nat)
    requires c in f && item in f
  {
    Joining(f, item, onto, m) == m || |f[c].list| < f[c].capacity
  }

  lemma JoinKeeps(f: Forest<Item>, c: Item, item: Item, onto: Item, m: nat)
    requires Orderly(f) && MayJoin(f, c, item, Some(onto)) && Stackables(f, onto, item)
    ensures var n := Joining(f, item, Some(onto), m);
            var g := Change(f, c, onto, f[onto].kind, f[onto].count + n);
            && Orderly(g) && g.Keys == f.Keys && onto != c && f[onto].parent == Some(c)
            && (forall x :: x in f && x != c && x != onto ==> SameItem(g[x], f[x]))
            && SameItem(g[onto], f[onto].(count := f[onto].count + n))
            && SameItem(g[c], f[c].(ammo := g[c].ammo))
  {
    hide Above, Change;
    var n := Joining(f, item, Some(onto), m);
    var g := Change(f, c, onto, f[onto].kind, f[onto].count + n);
    assert ListHolds(f, c) && StackOk(f[onto]) && Fits(f, c);
    NotItsOwnParent(f, c, onto);
    ChangeKeeps(f, c, onto, f[onto].kind, f[onto].count + n);
    ChangeCells(f, c, onto, f[onto].count + n);
    StaysOrderly(f, g, c, onto);
  }

  lemma PushKeepsOrder(f: Forest<Item>, c: Item, item: Item)
    requires Orderly(f) && c in f && item in f && f[c].box && f[item].parent.None? && !Above(f, item, c)
    requires |f[c].list| < f[c].capacity
    ensures Orderly(PushFront(f, c, item))
  {
    assert c != item by { assert Up(f, Some(c), 0) == Some(c); }
    PushFrontKeeps(f, c, item);
    PushFrontCells(f, c, item);
    assert Fits(f, c) && StackOk(f[item]);
    StaysOrderly(f, PushFront(f, c, item), c, item);
  }

  /** The same item up to its count and the cached sums. */
  ghost predicate SameBut(a: Cell<Item>, b: Cell<Item>) {
    a == b.(count := a.count, total := a.total, ammo := a.ammo)
  }

  lemma JoinedKeeps(f: Forest<Item>, c: Item, item: Item, onto: Option<Item>, m: nat)
    requires Orderly(f) && MayJoin(f, c, item, onto)
    ensures var g := Joined(f, c, item, onto, m);
            && Orderly(g) && g.Keys == f.Keys
            && SameItem(g[c], f[c].(ammo := g[c].ammo))
            && (forall x :: x in f && x != c && onto != Some(x) ==> SameItem(g[x], f[x]))
            && (forall x :: x in f ==> SameBut(g[x], f[x]))
  {
    hide Above, Change;
    if onto.Some? && Stackables(f, onto.value, item) {
      JoinKeeps(f, c, item, onto.value, m);
    }
  }

  ghost predicate MaySplit(f: Forest<Item>, c: Item, item: Item, n: nat, copy: Item) {
    c in f && f[c].box && item in f && f[item].kind.stackable && copy !in f && 1 <= n <= STACK_LIMIT
  }

  lemma SplitKeeps(f: Forest<Item>, c: Item, item: Item, n: nat, copy: Item)
    requires Orderly(f) && MaySplit(f, c, item, n, copy) && |f[c].list| < f[c].capacity
    ensures var g := SplitOff(f, c, item, n, copy);
            && Orderly(g) && g.Keys == f.Keys + {copy} && g[c].list == [copy] + f[c].list
            && (forall x :: x in f && x != c ==> SameItem(g[x], f[x]))
  {
    hide Above, PushFront;
    var k := Copied(f, item, n, copy);
    CopyKeeps(f, item, n, copy);
    PushKeepsOrder(k, c, copy);
    PushFrontCells(k, c, copy);
  }

  lemma SplitHolds(f: Forest<Item>, c: Item, item: Item, n: nat, copy: Item, d: Item, kind: Kind, attrs: Attrs)
    requires Orderly(f) && MaySplit(f, c, item, n, copy) && d in f
    ensures var g := SplitOff(f, c, item, n, copy);
            && d in g
            && Held(g, d, kind, attrs)
               == Held(f, d, kind, attrs) + One(d == c) * One(Alike(f[item], kind, attrs)) * n
  {
    hide Above, PushFront;
    var k := Copied(f, item, n, copy);
    CopyKeeps(f, item, n, copy);
    assert ListHolds(f, d);
    TallyFrame(f, k, f[d].list, kind, attrs);
    PushFrontHolds(k, c, copy, d, kind, attrs);
    PushFrontCells(k, c, copy);
  }

  lemma SplitWeighs(f: Forest<Item>, c: Item, item: Item, n: nat, copy: Item, d: Item)
    requires Orderly(f) && MaySplit(f, c, item, n, copy) && d in f
    ensures var g := SplitOff(f, c, item, n, copy);
            d in g && g[d].total == if Above(f, d, c) then Wrap(f[d].total + PiecesWeight(f[item], n)) else f[d].total
  {
    hide PushFront;
    var k := Copied(f, item, n, copy);
    CopyKeeps(f, item, n, copy);
    PushFrontWeighs(k, c, copy, d);
    PushFrontCells(k, c, copy);
    assert WeightOf(k[copy]) == Wrap(PiecesWeight(f[item], n)) by { assert ListHolds(f, item); }
    WrapAdd(PiecesWeight(f[item], n), f[d].total);
  }

  /** An arrival keeps the forest in order and uses at most one new slot. */
  lemma ArrivedKeeps(f: Forest<Item>, c: Item, item: Item, onto: Option<Item>, m: nat, copy: Item)
    requires Orderly(f) && MayJoin(f, c, item, onto) && copy !in f && 1 <= m <= STACK_LIMIT
    requires SlotLeft(f, c, item, onto, m)
    ensures var g := Arrived(f, c, item, onto, m, copy);
            && Orderly(g)
            && g.Keys == f.Keys + (if Joining(f, item, onto, m) < m then {copy} else {})
            && g[c].list == (if Joining(f, item, onto, m) < m then [copy] else []) + f[c].list
            && (forall x :: x in f && x != c && onto != Some(x) ==> SameItem(g[x], f[x]))
  {
    hide Orderly, SplitOff;
    var h := Joined(f, c, item, onto, m);
    JoinedKeeps(f, c, item, onto, m);
    var n := Joining(f, item, onto, m);
    if n < m {
      SplitKeeps(h, c, item, m - n, copy);
    }
  }

  /** An arrival adds m to what c holds of the type, and nothing to anything else. */
  lemma ArrivedHolds(f: Forest<Item>, c: Item, item: Item, onto: Option<Item>, m: nat, copy: Item,
                     d: Item, kind: Kind, attrs: Attrs)
    requires Orderly(f) && MayJoin(f, c, item, onto) && copy !in f && 1 <= m <= STACK_LIMIT && d in f
    ensures var g := Arrived(f, c, item, onto, m, copy);
            && d in g
            && Held(g, d, kind, attrs)
               == Held(f, d, kind, attrs) + One(d == c) * One(Alike(f[item], kind, attrs)) * m
  {
    hide Above, Orderly, SplitOff, Held, Change, One;
    var n := Joining(f, item, onto, m);
    var h := Joined(f, c, item, onto, m);
    JoinedKeeps(f, c, item, onto, m);
    JoinedHolds(f, c, item, onto, m, d, kind, attrs);
    if n < m {
      SplitHolds(h, c, item, m - n, copy, d, kind, attrs);
      Distribute(One(d == c) * One(Alike(f[item], kind, attrs)), n, m - n);
    }
  }

  lemma JoinedHolds(f: Forest<Item>, c: Item, item: Item, onto: Option<Item>, m: nat, d: Item, kind: Kind, attrs: Attrs)
    requires Orderly(f) && MayJoin(f, c, item, onto) && d in f
    ensures var h := Joined(f, c, item, onto, m);
            d in h && Held(h, d, kind, attrs)
                   == Held(f, d, kind, attrs)
                      + One(d == c) * One(Alike(f[item], kind, attrs)) * Joining(f, item, onto, m)
  {
    hide Above, Held, Change, One;
    JoinedKeeps(f, c, item, onto, m);
    if onto.Some? && Stackables(f, onto.value, item) {
      assert ListHolds(f, c);
      ChangeHolds(f, c, onto.value, f[onto.value].count + Joining(f, item, onto, m), d, kind, attrs);
    }
  }

  /** The weight of m pieces of a stack. */
  ghost function PiecesWeight(c: Cell<Item>, m: nat): int {
    BaseWeight(c.kind, c.attrs) * m
  }

  /** An arrival adds the weight of m pieces to c and to everything around it. */
  lemma ArrivedWeighs(f: Forest<Item>, c: Item, item: Item, onto: Option<Item>, m: nat, copy: Item, d: Item)
    requires Orderly(f) && MayJoin(f, c, item, onto) && copy !in f && 1 <= m <= STACK_LIMIT && d in f && f[d].box
    ensures var g := Arrived(f, c, item, onto, m, copy);
            d in g && g[d].total == if Above(f, d, c) then Wrap(f[d].total + PiecesWeight(f[item], m)) else f[d].total
  {
    hide Orderly, SplitOff, Change, Wrap;
    var n := Joining(f, item, onto, m);
    var h := Joined(f, c, item, onto, m);
    JoinedKeeps(f, c, item, onto, m);
    AboveFrame(f, h);
    JoinedWeighs(f, c, item, onto, m, d);
    if n < m {
      SplitWeighs(h, c, item, m - n, copy, d);
      WrapAdd(f[d].total + PiecesWeight(f[item], n), PiecesWeight(f[item], m - n));
      Distribute(BaseWeight(f[item].kind, f[item].attrs), n, m - n);
    }
  }

  lemma Distribute(w: int, a: int, b: int)
    ensures w * a + w * b == w * (a + b)
  {
  }

  lemma JoinedWeighs(f: Forest<Item>, c: Item, item: Item, onto: Option<Item>, m: nat, d: Item)
    requires Orderly(f) && MayJoin(f, c, item, onto) && d in f && f[d].box
    ensures Joined(f, c, item, onto, m)[d].total ==
            if Above(f, d, c) then Wrap(f[d].total + PiecesWeight(f[item], Joining(f, item, onto, m))) else f[d].total
  {
    assert Weighed(f, d, 0);
    if onto.Some? && Stackables(f, onto.value, item) {
      var n := Joining(f, item, onto, m);
      var at := onto.value;
      assert ListHolds(f, c) && StackOk(f[at]);
      NotItsOwnParent(f, c, at);
      ChangeWeighs(f, c, at, f[at].count + n, d);
      Distribute(BaseWeight(f[item].kind, f[item].attrs), f[at].count, n);
    } else {
      assert PiecesWeight(f[item], 0) == 0;
      WrapUnique(f[d].total, 0, f[d].total);
    }
  }

  // ----- What taking out does to the numbers ------------------------------------------------

  /** How many pieces leave with m of an item: the whole count if it is not stackable. */
  ghost function Pieces(c: Cell<Item>, m: nat): nat {
    if c.kind.stackable then m else c.count
  }

  /** What they weigh. */
  ghost function PartWeight(c: Cell<Item>, m: nat): int {
    if c.kind.stackable then PiecesWeight(c, m) else WeightOf(c)
  }

  lemma TakenHolds(f: Forest<Item>, from: Item, item: Item, m: nat, d: Item, kind: Kind, attrs: Attrs)
    requires Orderly(f) && MayTake(f, from, item, m) && d in f
    ensures var g := RemoveSpec(f, from, item, m);
            d in g && Held(g, d, kind, attrs)
                   == Held(f, d, kind, attrs) - One(d == from) * One(Alike(f[item], kind, attrs)) * Pieces(f[item], m)
  {
    hide Above, Held, Change, Drop, One;
    var k := IndexOf(f[from].list, item);
    MemberFacts(f, from, k);
    RemoveKeys(f, from, item, m);
    assert StackOk(f[item]);
    var g := RemoveSpec(f, from, item, m);
    if f[item].kind.stackable && m < f[item].count {
      ChangeHolds(f, from, item, f[item].count - m, d, kind, attrs);
      Distribute(One(d == from) * One(Alike(f[item], kind, attrs)), f[item].count - m - f[item].count, m);
    } else {
      DropHolds(f, from, k, d, kind, attrs);
    }
  }

  lemma TakenWeighs(f: Forest<Item>, from: Item, item: Item, m: nat, d: Item)
    requires Orderly(f) && MayTake(f, from, item, m) && d in f
    ensures var g := RemoveSpec(f, from, item, m);
            d in g && g[d].total ==
                      if Above(f, d, from) then Wrap(f[d].total - PartWeight(f[item], m)) else f[d].total
  {
    hide Above, Change, Drop, Wrap;
    var k := IndexOf(f[from].list, item);
    MemberFacts(f, from, k);
    RemoveKeys(f, from, item, m);
    assert StackOk(f[item]) && ListHolds(f, item);
    if f[item].kind.stackable && m < f[item].count {
      ChangeWeighs(f, from, item, f[item].count - m, d);
      Distribute(BaseWeight(f[item].kind, f[item].attrs), f[item].count - m, m);
    } else {
      DropWeighs(f, from, k, d);
      if f[item].kind.stackable {
        WholeStack(f[item]);
        WrapLess(f[d].total, PiecesWeight(f[item], m));
      }
    }
  }

  lemma WholeStack(c: Cell<Item>)
    requires c.kind.stackable && !c.box && c.count >= 1
    ensures WeightOf(c) == Wrap(PiecesWeight(c, c.count))
  {
  }

  lemma WrapLess(t: int, w: int)
    ensures Wrap(t - Wrap(w)) == Wrap(t - w)
  {
    WrapDifference(t, 0, w);
  }

  // ----- The whole move ---------------------------------------------------------------------

  /** The destination has a place for what is moved, once it has been taken out. */
  ghost predicate MayMove(f: Forest<Item>, from: Item, c: Item, item: Item, onto: Option<Item>, m: nat) {
    && MayTake(f, from, item, m) && c in f && f[c].box && !Above(f, item, c)
    && (onto.Some? ==> onto.value in f && onto.value != item && onto.value in f[c].list && !f[onto.value].box)
    && (if f[item].kind.stackable then SlotLeft(f, c, item, onto, m) else |f[c].list| < f[c].capacity)
  }

  lemma StillMayJoin(f: Forest<Item>, from: Item, c: Item, item: Item, onto: Option<Item>, m: nat)
    requires Orderly(f) && MayMove(f, from, c, item, onto, m)
    ensures var g := RemoveSpec(f, from, item, m);
            && Orderly(g) && g.Keys == f.Keys && c in g && g[c].box && item in g && item != c
            && (forall d :: Above(f, d, c) <==> Above(g, d, c))
            && (f[item].kind.stackable ==>
                  MayJoin(g, c, item, onto) && SlotLeft(g, c, item, onto, m) && 1 <= m <= STACK_LIMIT)
            && (!f[item].kind.stackable ==> g[item].parent.None? && |g[c].list| < g[c].capacity)
            && g[item].kind == f[item].kind && g[item].attrs == f[item].attrs
            && (forall x :: x in f ==> g[x].box == f[x].box)
  {
    hide RemoveSpec;
    var g := RemoveSpec(f, from, item, m);
    TakenOut(f, from, item, m);
    assert item != c by { assert Up(f, Some(c), 0) == Some(c); }
    assert StackOk(f[item]);
    forall d
      ensures Above(f, d, c) <==> Above(g, d, c)
    {
      AboveAvoid(f, g, item, c, d);
    }
  }

  /** A move keeps the forest in order. */
  lemma MovedKeeps(f: Forest<Item>, from: Item, c: Item, item: Item, onto: Option<Item>, m: nat, copy: Item)
    requires Orderly(f) && MayMove(f, from, c, item, onto, m) && copy !in f
    ensures Orderly(Moved(f, from, c, item, onto, m, copy))
  {
    hide Orderly, RemoveSpec, Arrived, PushFront;
    OrderlyShaped(f);
    var g := RemoveSpec(f, from, item, m);
    StillMayJoin(f, from, c, item, onto, m);
    if f[item].kind.stackable {
      ArrivedKeeps(g, c, item, onto, m, copy);
    } else {
      PushKeepsOrder(g, c, item);
    }
  }

  /** A move takes its pieces from one container and gives them to another, and changes what no
      other container holds of any type. */
  lemma MovedConserves(f: Forest<Item>, from: Item, c: Item, item: Item, onto: Option<Item>, m: nat, copy: Item,
                       d: Item, kind: Kind, attrs: Attrs)
    requires Orderly(f) && MayMove(f, from, c, item, onto, m) && copy !in f && d in f
    ensures var g := Moved(f, from, c, item, onto, m, copy);
            d in g && Held(g, d, kind, attrs) == Held(f, d, kind, attrs)
              + (One(d == c) - One(d == from)) * One(Alike(f[item], kind, attrs)) * Pieces(f[item], m)
  {
    hide Orderly, RemoveSpec, Arrived, PushFront, Held, Above, One, Shaped;
    OrderlyShaped(f);
    var g := RemoveSpec(f, from, item, m);
    StillMayJoin(f, from, c, item, onto, m);
    TakenHolds(f, from, item, m, d, kind, attrs);
    if f[item].kind.stackable {
      ArrivedHolds(g, c, item, onto, m, copy, d, kind, attrs);
    } else {
      TakenOut(f, from, item, m);
      OrderlyShaped(g);
      PushFrontHolds(g, c, item, d, kind, attrs);
      PushFrontCells(g, c, item);
      TakenCount(f, from, item, m);
    }
    GainLessLoss(One(d == c), One(d == from), One(Alike(f[item], kind, attrs)), Pieces(f[item], m));
  }

  lemma GainLessLoss(a: int, b: int, u: int, p: int)
    ensures (a - b) * u * p == a * u * p - b * u * p
  {
    assert (a - b) * u == a * u - b * u;
    assert (a * u - b * u) * p == a * u * p - b * u * p;
  }

  lemma TakenCount(f: Forest<Item>, from: Item, item: Item, m: nat)
    requires Orderly(f) && MayTake(f, from, item, m) && !f[item].kind.stackable
    ensures var g := RemoveSpec(f, from, item, m); item in g && g[item].count == f[item].count
  {
    TakenOut(f, from, item, m);
  }

  lemma OrderlyShaped(f: Forest<Item>)
    requires Orderly(f)
    ensures Shaped(f) && Consistent(f)
  {
  }

  /** A move takes the weight of its pieces from every container around the source and gives it to
      every container around the destination: what surrounds both keeps its weight. */
  lemma MovedWeighs(f: Forest<Item>, from: Item, c: Item, item: Item, onto: Option<Item>, m: nat, copy: Item, d: Item)
    requires Orderly(f) && MayMove(f, from, c, item, onto, m) && copy !in f && d in f && f[d].box
    ensures var g := Moved(f, from, c, item, onto, m, copy);
            && d in g
            && g[d].total == Wrap(f[d].total + (One(Above(f, d, c)) - One(Above(f, d, from))) * PartWeight(f[item], m))
  {
    hide Orderly, RemoveSpec, Arrived, PushFront, Above, Shaped, Wrap;
    OrderlyShaped(f);
    var g := RemoveSpec(f, from, item, m);
    var w := PartWeight(f[item], m);
    StillMayJoin(f, from, c, item, onto, m);
    TakenWeighs(f, from, item, m, d);
    TotalFits(f, d);
    if f[item].kind.stackable {
      ArrivedWeighs(g, c, item, onto, m, copy, d);
      assert PiecesWeight(g[item], m) == w;
    } else {
      TakenOut(f, from, item, m);
      OrderlyShaped(g);
      TakenWhole(f, from, item, m);
      PushFrontWeighs(g, c, item, d);
      PushFrontCells(g, c, item);
    }
    WrapAdd(f[d].total - w, w);
    WrapAdd(f[d].total + w, 0);
  }

  lemma TakenWhole(f: Forest<Item>, from: Item, item: Item, m: nat)
    requires Orderly(f) && MayTake(f, from, item, m) && !f[item].kind.stackable
    ensures var g := RemoveSpec(f, from, item, m); item in g && WeightOf(g[item]) == WeightOf(f[item])
  {
    DropCells(f, from, IndexOf(f[from].list, item));
  }

  lemma TotalFits(f: Forest<Item>, d: Item)
    requires Orderly(f) && d in f && f[d].box
    ensures f[d].total == Wrap(f[d].total)
  {
    assert Weighed(f, d, 0);
  }

}
