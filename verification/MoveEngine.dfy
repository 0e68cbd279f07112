/** `internalMoveItem`, `internalAddItem` and `internalRemoveItem` between containers that no
    player, tile or inbox holds. */
module MoveEngine {
  import opened Arithmetic
  import opened Collections
  import opened Forests
  import opened Containers
  import opened StackAccounts
  import opened ContainerQueries
  import opened MoveTheory

  // ----- Where a move ends up ---------------------------------------------------------------

  /** The destination after following `queryDestination` until it stays; each hop clears the flags. */
  ghost function Resolve(f: Forest<Item>, to: Item, index: int, item: Item, flags: Flags): (Destination, Flags)
    requires Shaped(f) && to in f && f[to].box && item in f
  {
    ListsIn(f, to);
    var d := DestinationSpec(f, to, index, item, flags);
    HopFacts(f, to, index, item, flags);
    if d.cylinder == to then (d, flags)
    else (DestinationSpec(f, d.cylinder, INDEX_WHEREEVER, item, NO_FLAGS), NO_FLAGS)
  }

  /** One hop leads to a container of the forest; a hop away from the first container means
      "anywhere in there", and asking for anywhere never hops. */
  lemma HopFacts(f: Forest<Item>, to: Item, index: int, item: Item, flags: Flags)
    requires Shaped(f) && to in f && f[to].box && item in f
    ensures ListIn(f, to)
    ensures var d := DestinationSpec(f, to, index, item, flags);
            && d.cylinder in f && f[d.cylinder].box && ListIn(f, d.cylinder)
            && (d.cylinder != to ==> d.index == INDEX_WHEREEVER && d.toItem.None?)
            && (index == INDEX_WHEREEVER ==> d.cylinder == to)
  {
    assert ListHolds(f, to) && ParentHolds(f, to);
    var d := DestinationSpec(f, to, index, item, flags);
    assert ListHolds(f, d.cylinder);
  }

  lemma PartialFacts(f: Forest<Item>, s: seq<Item>, item: Item, i: nat)
    requires item in f && i <= |s|
    ensures var n := FirstPartial(f, s, item, i);
            n.Some? ==>
              && n.value < |s| && s[n.value] != item
              && Stackables(f, s[n.value], item) && f[s[n.value]].count < STACK_LIMIT
    decreases |s| - i
  {
    if i < |s| { PartialFacts(f, s, item, i + 1); }
  }

  /** The index is a real slot or "anywhere"; the item to join, if any, is the one at the index. */
  ghost predicate WellAimed(f: Forest<Item>, d: Destination)
    requires d.cylinder in f
  {
    var c := f[d.cylinder];
    && (d.index == INDEX_WHEREEVER || 0 <= d.index < c.capacity)
    && (d.toItem.Some? ==>
          && 0 <= d.index < |c.list| && c.list[d.index] == d.toItem.value
          && d.toItem.value in f && !f[d.toItem.value].box)
    && (d.toItem.None? && d.index != INDEX_WHEREEVER ==> |c.list| <= d.index)
  }

  lemma DestinationFacts(f: Forest<Item>, to: Item, index: int, item: Item, flags: Flags)
    requires Orderly(f) && to in f && f[to].box && item in f && index >= INDEX_WHEREEVER
    ensures ListIn(f, to)
    ensures var d := DestinationSpec(f, to, index, item, flags);
            d.cylinder == to ==> WellAimed(f, d)
  {
    assert ListHolds(f, to) && Fits(f, to);
    PartialFacts(f, f[to].list, item, 0);
    var n := FirstPartial(f, f[to].list, item, 0);
    if n.Some? { assert ListHolds(f, f[to].list[n.value]) && ListHolds(f, item); }
    if index == 254 {
      assert ParentHolds(f, to);
    }
  }

  lemma ResolveFacts(f: Forest<Item>, to: Item, index: int, item: Item, flags: Flags)
    requires Orderly(f) && to in f && f[to].box && item in f && index >= INDEX_WHEREEVER
    ensures var (d, fl) := Resolve(f, to, index, item, flags);
            d.cylinder in f && f[d.cylinder].box && (fl == flags || fl == NO_FLAGS) && WellAimed(f, d)
  {
    hide Orderly, DestinationSpec;
    OrderlyShaped(f);
    HopFacts(f, to, index, item, flags);
    DestinationFacts(f, to, index, item, flags);
    var d := DestinationSpec(f, to, index, item, flags);
    if d.cylinder != to {
      HopFacts(f, d.cylinder, INDEX_WHEREEVER, item, NO_FLAGS);
      DestinationFacts(f, d.cylinder, INDEX_WHEREEVER, item, NO_FLAGS);
    }
  }

  // ----- The verdict ------------------------------------------------------------------------

  /** Either nothing happens, or m of the item goes to a destination. */
  datatype Plan =
    | Nothing(ret: ReturnValue)
    | Go(m: nat, to: Destination, ret: ReturnValue)

  /** What `internalMoveItem` decides before it changes anything. */
  ghost function PlanMove(f: Forest<Item>, from: Item, to: Item, index: int, item: Item, count: nat, flags: Flags,
                          trade: Option<Item>): Plan
    requires Shaped(f) && from in f && to in f && f[to].box && item in f
  {
    var (d, fl) := Resolve(f, to, index, item, flags);
    ResolveIn(f, to, index, item, flags);
    if d.toItem == Some(item) then Nothing(NoError)
    else
      var add := QueryAddSpec(f, d.cylinder, d.index, item, fl);
      var most := MaxCountSpec(f, d.cylinder, d.index, item, count, fl);
      var mostRet := MaxCountRet(f, d.cylinder, d.index, item, count, fl);
      var m := if f[item].kind.stackable then Min(count, most) else most;
      var remove := QueryRemoveSpec(f, from, item, m, fl);
      if add != NoError then Nothing(add)
      else if mostRet != NoError && most == 0 then Nothing(mostRet)
      else if remove != NoError then Nothing(remove)
      else if trade.Some? && Above(f, trade.value, d.cylinder) then Nothing(NotEnoughRoom)
      else Go(m, d, if f[item].kind.stackable && most < count then mostRet else NoError)
  }

  lemma ResolveIn(f: Forest<Item>, to: Item, index: int, item: Item, flags: Flags)
    requires Shaped(f) && to in f && f[to].box && item in f
    ensures var (d, fl) := Resolve(f, to, index, item, flags); d.cylinder in f && f[d.cylinder].box
  {
    HopFacts(f, to, index, item, flags);
    var d := DestinationSpec(f, to, index, item, flags);
    if d.cylinder != to { HopFacts(f, d.cylinder, INDEX_WHEREEVER, item, NO_FLAGS); }
  }

  /** A plan to go ahead can be carried out. */
  lemma PlanIsSound(f: Forest<Item>, from: Item, to: Item, index: int, item: Item, count: nat, flags: Flags,
                    trade: Option<Item>)
    requires Orderly(f) && from in f && f[from].box && to in f && f[to].box && item in f
    requires index >= INDEX_WHEREEVER && !flags.noLimit && !flags.childIsOwner
    ensures var p := PlanMove(f, from, to, index, item, count, flags, trade);
            p.Go? ==> MayMove(f, from, p.to.cylinder, item, p.to.toItem, p.m)
  {
    hide Orderly, Resolve;
    OrderlyShaped(f);
    ResolveFacts(f, to, index, item, flags);
    var p := PlanMove(f, from, to, index, item, count, flags, trade);
    if p.Go? {
      var (d, fl) := Resolve(f, to, index, item, flags);
      assert !Above(f, item, d.cylinder);
      assert d.toItem.Some? ==> d.toItem.value in f[d.cylinder].list;
      assert f[item].kind.stackable ==> SlotLeft(f, d.cylinder, item, d.toItem, p.m);
    }
  }

  /** The loop over `queryDestination`, bounded by the number of map layers. */
  method ResolveDestination(ghost W: set<Item>, to0: Item, index0: int, item: Item, flags0: Flags)
    returns (to: Item, index: int, toItem: Item?, flags: Flags)
    requires to0 in W && to0.box && item in W && Shaped(View(W))
    ensures (Destination(to, index, Item.Link0(toItem)), flags) == Resolve(View(W), to0, index0, item, flags0)
  {
    hide DestinationSpec, Shaped;
    ghost var f := View(W);
    to, flags := to0, flags0;
    HopFacts(f, to0, index0, item, flags0);
    var subCylinder: Item;
    subCylinder, index, toItem := QueryDestination(W, to, index0, item, flags);
    var floorN := 0;
    while subCylinder != to
      invariant 0 <= floorN <= 1
      invariant floorN == 0 ==>
        && to == to0 && flags == flags0
        && Destination(subCylinder, index, Item.Link0(toItem)) == DestinationSpec(f, to0, index0, item, flags0)
      invariant floorN == 1 ==>
        && subCylinder == to
        && (Destination(to, index, Item.Link0(toItem)), flags) == Resolve(f, to0, index0, item, flags0)
      decreases 1 - floorN
    {
      to := subCylinder;
      flags := NO_FLAGS;
      floorN := floorN + 1;
      if floorN >= MAX_LAYERS { break; }
      HopFacts(f, to, index, item, flags);
      subCylinder, index, toItem := QueryDestination(W, to, index, item, flags);
    }
  }

  /** The trade check: the destination is the traded item or lies in it. */
  method LiesIn(ghost W: set<Item>, c: Item, thing: Item) returns (found: bool)
    requires c in W && c.box && Shaped(View(W))
    ensures found <==> Above(View(W), thing, c)
  {
    ghost var f := View(W);
    assert f[c] == c.Look();
    AboveParent(f, thing, c);
    if c == thing { return true; }
    found := IsInside(W, c, thing);
  }

  /** As much as fits joins the stack it is meant for. */
  method Join(ghost W: set<Item>, to: Item, item: Item, m: nat, toItem: Item?) returns (n: nat)
    requires to in W && item in W && Orderly(View(W)) && MayJoin(View(W), to, item, Item.Link0(toItem))
    modifies W
    ensures n == Joining(old(View(W)), item, Item.Link0(toItem), m)
    ensures View(W) == Joined(old(View(W)), to, item, Item.Link0(toItem), m)
  {
    ghost var f := View(W);
    OrderlyShaped(f);
    JoinLooks(W, to, item, toItem);
    hide Orderly, Consistent, Change, Above, View, Shaped, MayJoin;
    n := 0;
    if toItem != null && item.Equals(toItem) {
      OntoFacts(f, to, item, toItem);
      n := Min(STACK_LIMIT - toItem.count, m);
      UpdateThing(W, to, toItem, toItem.kind, toItem.count + n);
    }
  }

  /** What the forest knows of the objects that a join looks at. */
  lemma JoinLooks(W: set<Item>, to: Item, item: Item, toItem: Item?)
    requires to in W && item in W && MayJoin(View(W), to, item, Item.Link0(toItem))
    ensures to.box && View(W)[to].list == to.itemlist
    ensures toItem != null ==>
              && toItem in W && toItem in to.itemlist && !toItem.box && View(W)[toItem].count == toItem.count
              && View(W)[toItem].kind == toItem.kind && (Stackables(View(W), toItem, item) <==> item.Equals(toItem))
  {
    assert View(W)[to] == to.Look() && View(W)[item] == item.Look();
    if toItem != null { assert View(W)[toItem] == toItem.Look(); }
  }

  /** As many pieces as could have joined a stack, and so many are left, with a free slot to go to. */
  ghost predicate HalfArrived(f: Forest<Item>, g: Forest<Item>, c: Item, item: Item, onto: Option<Item>, m: nat,
                              left: nat) {
    && c in f && item in f && g == Joined(f, c, item, onto, m) && g.Keys == f.Keys && Orderly(g)
    && Joining(f, item, onto, m) + left == m && g[c].capacity == f[c].capacity
    && (0 < left ==> g[c].box && |g[c].list| < g[c].capacity && g[item].kind.stackable)
  }

  /** What has not joined a stack has a free slot to go to. */
  lemma RestHasSlot(f: Forest<Item>, c: Item, item: Item, onto: Option<Item>, m: nat)
    requires c in f && item in f && Orderly(f) && MayJoin(f, c, item, onto) && SlotLeft(f, c, item, onto, m)
    ensures Joining(f, item, onto, m) <= m
    ensures HalfArrived(f, Joined(f, c, item, onto, m), c, item, onto, m, m - Joining(f, item, onto, m))
  {
    JoinedKeeps(f, c, item, onto, m);
    hide Orderly, Joined;
  }

  /** The pieces of a stack that has been taken out join a stack and, if need be, open a new one. */
  method Arrive(ghost W: set<Item>, to: Item, index: int, item: Item, m: nat, toItem: Item?)
    returns (moveItem: Item?, ghost W': set<Item>, ghost copy: Item)
    requires to in W && item in W && Orderly(View(W)) && MayJoin(View(W), to, item, Item.Link0(toItem))
    requires SlotLeft(View(W), to, item, Item.Link0(toItem), m) && 1 <= m <= STACK_LIMIT
    requires index < to.maxSize
    modifies W
    ensures W <= W' && fresh(W' - W)
    ensures moveItem == null ==> W' == W
    ensures moveItem != null ==> moveItem == copy && copy !in W && W' == W + {copy}
    ensures View(W') == Arrived(old(View(W)), to, item, Item.Link0(toItem), m, copy)
    ensures Orderly(View(W'))
  {
    ghost var f := View(W);
    RestHasSlot(f, to, item, Item.Link0(toItem), m);
    hide *;
    var n := Join(W, to, item, m, toItem);
    moveItem, W', copy := PlaceRest(W, to, index, item, m - n, f, Item.Link0(toItem), m);
  }

  /** What is left of the pieces, if anything, becomes a stack of its own. */
  method PlaceRest(ghost W: set<Item>, to: Item, index: int, item: Item, newCount: nat, ghost f: Forest<Item>,
                   ghost onto: Option<Item>, ghost m: nat)
    returns (moveItem: Item?, ghost W': set<Item>, ghost copy: Item)
    requires to in W && item in W && index < to.maxSize && newCount <= STACK_LIMIT
    requires HalfArrived(f, View(W), to, item, onto, m, newCount)
    modifies W
    ensures W <= W' && fresh(W' - W) && Orderly(View(W'))
    ensures moveItem == null ==> W' == W
    ensures moveItem != null ==> moveItem == copy && copy !in W && W' == W + {copy}
    ensures to in f && item in f && View(W') == Arrived(f, to, item, onto, m, copy)
  {
    hide Orderly, SplitOff, View, Arrived, Joined, Joining;
    W', moveItem, copy := W, null, item;
    ghost var g := View(W);
    SeenIn(W, to);
    SeenIn(W, item);
    if newCount > 0 {
      var clone;
      clone, W' := AddClone(W, to, index, item, newCount);
      moveItem, copy := clone, clone;
    }
    ArrivedInParts(f, g, View(W'), to, item, onto, m, copy);
  }

  lemma ArrivedInParts(f: Forest<Item>, g: Forest<Item>, h: Forest<Item>, c: Item, item: Item, onto: Option<Item>,
                       m: nat, copy: Item)
    requires c in f && item in f && g == Joined(f, c, item, onto, m) && g.Keys == f.Keys
    requires var n := Joining(f, item, onto, m);
             n <= m && h == if n < m then SplitOff(g, c, item, m - n, copy) else g
    ensures h == Arrived(f, c, item, onto, m, copy)
  {
  }

  lemma SeenIn(W: set<Item>, x: Item)
    requires x in W
    ensures var cell := View(W)[x];
            cell.kind == x.kind && cell.box == x.box && cell.capacity == x.maxSize && cell.list == x.itemlist
  {
  }

  /** A clone of the stack with its own count is added. */
  method AddClone(ghost W: set<Item>, to: Item, index: int, item: Item, n: nat)
    returns (clone: Item, ghost W': set<Item>)
    requires to in W && to.box && item in W && Orderly(View(W)) && item.kind.stackable && 1 <= n <= STACK_LIMIT
    requires index < to.maxSize && |to.itemlist| < to.maxSize
    modifies W
    ensures fresh(clone) && W' == W + {clone}
    ensures View(W') == SplitOff(old(View(W)), to, item, n, clone)
    ensures Orderly(View(W'))
  {
    hide Orderly, PushFront, Above;
    ghost var f := View(W);
    clone := new Item(item.kind, item.attrs, n, item.box, item.maxSize);
    W' := W + {clone};
    assert View(W') == Copied(f, item, n, clone);
    SplitKeeps(f, to, item, n, clone);
    CopyIsFree(f, to, item, n, clone);
    AddThing(W', to, index, clone);
  }

  lemma CopyIsFree(f: Forest<Item>, c: Item, item: Item, n: nat, copy: Item)
    requires Orderly(f) && MaySplit(f, c, item, n, copy)
    ensures var g := Copied(f, item, n, copy);
            Consistent(g) && g[copy].parent.None? && !Above(g, copy, c) && g[c] == f[c]
  {
    CopyKeeps(f, item, n, copy);
  }

  lemma OntoFacts(f: Forest<Item>, c: Item, item: Item, onto: Item)
    requires Orderly(f) && MayJoin(f, c, item, Some(onto)) && Stackables(f, onto, item)
    ensures 1 <= f[onto].count <= STACK_LIMIT && onto in f[c].list && !f[onto].box
  {
    assert StackOk(f[onto]);
  }

  /** Carry out a plan: take the pieces out, then let them arrive. */
  method CarryOut(ghost W: set<Item>, from: Item, to: Item, index: int, item: Item, m: nat, toItem: Item?)
    returns (moveItem: Item?, ghost W': set<Item>, ghost copy: Item)
    requires from in W && to in W && item in W && Orderly(View(W))
    requires MayMove(View(W), from, to, item, Item.Link0(toItem), m)
    requires index < to.maxSize
    modifies W
    ensures W <= W' && fresh(W' - W)
    ensures W' != W ==> copy !in W && W' == W + {copy}
    ensures View(W') == Moved(old(View(W)), from, to, item, Item.Link0(toItem), m, copy)
    ensures Orderly(View(W'))
  {
    hide Orderly, Consistent, Above, PushFront, Arrived, RemoveSpec;
    ghost var f := View(W);
    OrderlyShaped(f);
    StillMayJoin(f, from, to, item, Item.Link0(toItem), m);
    RemoveThing(W, from, item, m);
    ghost var g := View(W);
    OrderlyShaped(g);
    if item.kind.stackable {
      moveItem, W', copy := Arrive(W, to, index, item, m, toItem);
    } else {
      W', copy, moveItem := W, item, item;
      PushKeepsOrder(g, to, item);
      AddThing(W, to, index, item);
    }
  }

  /** The checks of `internalMoveItem`: whether to go ahead, how many pieces go where, and the result. */
  method Decide(ghost W: set<Item>, from: Item, to0: Item, index0: int, item: Item, count: nat, flags0: Flags,
                tradeItem: Item?)
    returns (go: bool, ret: ReturnValue, m: nat, to: Item, index: int, toItem: Item?)
    requires from in W && from.box && to0 in W && to0.box && item in W && Orderly(View(W)) && Shaped(View(W))
    requires index0 >= INDEX_WHEREEVER && !flags0.noLimit && !flags0.childIsOwner
    ensures var p := PlanMove(View(W), from, to0, index0, item, count, flags0, Item.Link0(tradeItem));
            && ret == p.ret && (go <==> p.Go?)
            && (go ==> p.m == m && p.to == Destination(to, index, Item.Link0(toItem)) && index < to.maxSize)
  {
    hide Orderly, Shaped, Above, Resolve, MaxCountSpec, QueryAddSpec;
    ghost var f := View(W);
    ResolveFacts(f, to0, index0, item, flags0);
    go, m := false, 0;
    var flags;
    to, index, toItem, flags := ResolveDestination(W, to0, index0, item, flags0);
    if item == toItem { return false, NoError, 0, to, index, toItem; }
    ret := QueryAdd(W, to, index, item, flags);
    if ret != NoError { return; }
    var retMaxCount, maxQueryCount := QueryMaxCount(W, to, index, item, count, flags);
    if retMaxCount != NoError && maxQueryCount == 0 { return false, retMaxCount, 0, to, index, toItem; }
    m := if item.kind.stackable then Min(count, maxQueryCount) else maxQueryCount;
    ret := QueryRemove(W, from, item, m, flags);
    if ret != NoError { return; }
    if tradeItem != null {
      var inTrade := LiesIn(W, to, tradeItem);
      if inTrade { return false, NotEnoughRoom, 0, to, index, toItem; }
    }
    go := true;
    ret := if item.kind.stackable && maxQueryCount < count then retMaxCount else NoError;
  }

  /** `internalMoveItem` without the unlimited flag: either nothing changes, or exactly the planned
      m pieces are moved. */
  method InternalMoveItem(ghost W: set<Item>, from: Item, to0: Item, index0: int, item: Item, count: nat, flags0: Flags,
                          tradeItem: Item?)
    returns (ret: ReturnValue, moveItem: Item?, ghost W': set<Item>, ghost copy: Item)
    requires from in W && from.box && to0 in W && to0.box && item in W && Orderly(View(W))
    requires index0 >= INDEX_WHEREEVER && !flags0.noLimit && !flags0.childIsOwner
    modifies W
    ensures W <= W' && fresh(W' - W) && Orderly(View(W'))
    ensures W' != W ==> copy !in W && W' == W + {copy}
    ensures var f := old(View(W)); var p := PlanMove(f, from, to0, index0, item, count, flags0, Item.Link0(tradeItem));
            && ret == p.ret
            && (p.Nothing? ==> View(W') == f)
            && (p.Go? ==> MayMove(f, from, p.to.cylinder, item, p.to.toItem, p.m)
                          && View(W') == Moved(f, from, p.to.cylinder, item, p.to.toItem, p.m, copy))
  {
    hide Orderly, Consistent, Above, PlanMove, Moved;
    ghost var f := View(W);
    OrderlyShaped(f);
    PlanIsSound(f, from, to0, index0, item, count, flags0, Item.Link0(tradeItem));
    W', copy, moveItem := W, item, null;
    var go, m, to, index, toItem;
    go, ret, m, to, index, toItem := Decide(W, from, to0, index0, item, count, flags0, tradeItem);
    if go {
      moveItem, W', copy := CarryOut(W, from, to, index, item, m, toItem);
    }
  }

  // ----- Removal ----------------------------------------------------------------------------

  /** Whether so many of an item can be removed from where it is. */
  ghost function RemovalSpec(f: Forest<Item>, item: Item, n: nat, flags: Flags): ReturnValue
    requires Shaped(f) && item in f
  {
    assert ParentHolds(f, item);
    if f[item].parent.None? then NotPossible
    else QueryRemoveSpec(f, f[item].parent.value, item, n, flags.(ignoreNotMoveable := true))
  }

  /** `internalRemoveItem` for an item in a container; a count of -1 means all of it. */
  method InternalRemoveItem(ghost W: set<Item>, item: Item, count0: int, test: bool, flags: Flags)
    returns (ret: ReturnValue)
    requires item in W && Orderly(View(W)) && count0 >= -1
    modifies W
    ensures Orderly(View(W))
    ensures var f := old(View(W)); var n: nat := if count0 == -1 then f[item].count else count0;
            && ret == RemovalSpec(f, item, n, flags)
            && (ret == NoError && !test ==>
                  MayTake(f, f[item].parent.value, item, n) && View(W) == RemoveSpec(f, f[item].parent.value, item, n))
            && (ret != NoError || test ==> View(W) == f)
  {
    ghost var f := View(W);
    OrderlyShaped(f);
    assert ParentHolds(f, item);
    var cylinder: Item? := item.parent;
    if cylinder == null { return NotPossible; }
    var count: nat := if count0 == -1 then item.count else count0;
    ret := QueryRemove(W, cylinder, item, count, flags.(ignoreNotMoveable := true));
    if ret != NoError || test { return; }
    TakenOut(f, cylinder, item, count);
    hide Orderly, Consistent, RemoveSpec, ParentHolds;
    RemoveThing(W, cylinder, item, count);
  }

  /** A removal takes exactly what was asked for out of one container and nothing anywhere else, and
      the weight with it from everything around. */
  lemma RemovesExactly(f: Forest<Item>, from: Item, item: Item, n: nat, flags: Flags, d: Item, kind: Kind, attrs: Attrs)
    requires Orderly(f) && item in f && from in f && f[item].parent == Some(from) && d in f
    requires RemovalSpec(f, item, n, flags) == NoError
    ensures var g := RemoveSpec(f, from, item, n);
            && d in g
            && Held(g, d, kind, attrs)
               == Held(f, d, kind, attrs) - One(d == from) * One(Alike(f[item], kind, attrs)) * Pieces(f[item], n)
            && g[d].total == if Above(f, d, from) then Wrap(f[d].total - PartWeight(f[item], n)) else f[d].total
  {
    OrderlyShaped(f);
    assert ParentHolds(f, item);
    TakenHolds(f, from, item, n, d, kind, attrs);
    TakenWeighs(f, from, item, n, d);
  }
}
