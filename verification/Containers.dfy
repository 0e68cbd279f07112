/** Items and containers as the objects they are, with the operations of `Container` that change
    them in place. Every operation is proved against a function on the forest the objects form. */
module Containers {
  import opened Arithmetic
  import opened Collections
  import opened Forests

  const INDEX_WHEREEVER := -1

  /** The results of the queries that containers can give. */
  datatype ReturnValue =
    | NoError
    | NotPossible
    | NotMoveable
    | CannotPickup
    | ThisIsImpossible
    | QuiverAmmoOnly
    | ContainerNotEnoughRoom
    | NotEnoughRoom

  /** The cylinder flags that containers look at. */
  datatype Flags = Flags(noLimit: bool, childIsOwner: bool, ignoreNotMoveable: bool, ignoreAutoStack: bool)

  const NO_FLAGS := Flags(false, false, false, false)

  /** `Item`, with the fields of `Container` beside it; only a `box` uses those. */
  class Item {
    var kind: Kind
    var attrs: Attrs
    var count: nat
    var parent: Item?
    const box: bool
    const maxSize: nat
    var itemlist: seq<Item>
    var totalWeight: nat
    var ammoCount: nat

    /** A fresh item outside every container. */
    constructor (kind: Kind, attrs: Attrs, count: nat, box: bool, maxSize: nat)
      ensures Look() == Cell(kind, attrs, count, None, box, maxSize, [], 0, 0)
    {
      this.kind, this.attrs, this.count := kind, attrs, count;
      this.box, this.maxSize := box, maxSize;
      parent, itemlist, totalWeight, ammoCount := null, [], 0, 0;
    }

    ghost function Look(): Cell<Item>
      reads this
    {
      Cell(kind, attrs, count, Link0(parent), box, maxSize, itemlist, totalWeight, ammoCount)
    }

    static ghost function Link0(p: Item?): (r: Option<Item>)
      ensures p == null <==> r.None?
    {
      if p == null then None else var q: Item := p; Some(q)
    }

    /** `Container::getWeight` and `Item::getWeight`. */
    function GetWeight(): (w: nat)
      reads this
      ensures w == WeightOf(Look())
    {
      Wrap(StackWeight(kind, attrs, count) + if box then totalWeight else 0)
    }

    /** `Item::equals` */
    predicate Equals(other: Item?)
      reads this, other
    {
      other != null && kind == other.kind && attrs == other.attrs
    }
  }

  /** The forest that the objects of W form. */
  ghost function View(W: set<Item>): (f: Forest<Item>)
    reads W
    ensures f.Keys == W
  {
    map x | x in W :: x.Look()
  }

  /** `Container::updateItemWeight`: the change goes into c and into every container around it. */
  method UpdateItemWeight(ghost W: set<Item>, c: Item, diff: int)
    requires c in W && c.box && Shaped(View(W))
    modifies W`totalWeight
    ensures View(W) == Bump(old(View(W)), c, diff)
  {
    hide Shaped, Bumped, Bump, Up, Wrap, View;
    ghost var f := View(W);
    ghost var n := RootDistance(f, c);
    BumpedOne(f, c, diff);
    var container := BumpOne(W, c, diff);
    ghost var k: nat, g := 1, View(W);
    while container != null
      invariant Item.Link0(container) == Up(f, Some(c), k) && (container != null ==> k < n)
      invariant View(W) == g == Bumped(f, c, diff, k)
      decreases n - k
    {
      BumpedNext(f, c, diff, k, n);
      container := BumpOne(W, container, diff);
      k, g := k + 1, View(W);
    }
    BumpedAll(f, c, diff, k);
  }

  /** One round of the walk: the total of one container changes, and its parent is the next. */
  method BumpOne(ghost W: set<Item>, container: Item, diff: int) returns (next: Item?)
    requires container in W
    modifies container`totalWeight
    ensures View(W) == var f := old(View(W)); f[container := f[container].(total := Wrap(f[container].total + diff))]
    ensures Item.Link0(next) == old(View(W))[container].parent
  {
    assert View(W)[container] == container.Look();
    AddTotal(W, container, diff);
    next := container.parent;
  }

  method AddTotal(ghost W: set<Item>, c: Item, diff: int)
    requires c in W
    modifies c`totalWeight
    ensures View(W) == var f := old(View(W)); f[c := f[c].(total := Wrap(f[c].total + diff))]
  {
    c.totalWeight := Wrap(c.totalWeight + diff);
  }

  lemma RootDistance<N>(f: Forest<N>, c: N) returns (n: nat)
    requires Shaped(f) && c in f
    ensures Up(f, Some(c), n).None? && n >= 1
  {
    assert Rooted(f, c);
    n :| Up(f, Some(c), n) == None;
  }

  /** x is among the first k containers on the way up from c. */
  ghost predicate Passed<N>(f: Forest<N>, c: N, k: nat, x: N) {
    exists j: nat :: j < k && Up(f, Some(c), j) == Some(x)
  }

  /** The forest when a change from c has reached k containers. */
  ghost function Bumped<N>(f: Forest<N>, c: N, diff: int, k: nat): Forest<N> {
    map x | x in f :: if Passed(f, c, k, x) then f[x].(total := Wrap(f[x].total + diff)) else f[x]
  }

  lemma BumpedOne<N>(f: Forest<N>, c: N, diff: int)
    requires c in f
    ensures Bumped(f, c, diff, 1) == f[c := f[c].(total := Wrap(f[c].total + diff))]
    ensures Up(f, Some(c), 1) == f[c].parent
  {
    assert Up(f, Some(c), 0) == Some(c);
    assert forall x :: Passed(f, c, 1, x) <==> x == c;
  }

  lemma BumpedNext<N>(f: Forest<N>, c: N, diff: int, k: nat, n: nat)
    requires Shaped(f) && c in f && Up(f, Some(c), k).Some? && Up(f, Some(c), n).None?
    ensures var p := Up(f, Some(c), k).value; var g := Bumped(f, c, diff, k);
            && p in f && Up(f, Some(c), k + 1) == g[p].parent
            && Bumped(f, c, diff, k + 1) == g[p := g[p].(total := Wrap(g[p].total + diff))]
    ensures k < n && (Up(f, Some(c), k + 1).Some? ==> k + 1 < n)
  {
    UpStaysIn(f, c, k);
    UpStep(f, Some(c), k);
    assert Rooted(f, c);
    var p := Up(f, Some(c), k).value;
    if Passed(f, c, k, p) {
      var j: nat :| j < k && Up(f, Some(c), j) == Some(p);
      UpDistinct(f, c, j, k);
    }
    assert forall x :: Passed(f, c, k + 1, x) <==> Passed(f, c, k, x) || x == p;
    Beyond(f, c, k, n);
    Beyond(f, c, k + 1, n);
  }

  /** Past the root there is nothing. */
  lemma {:induction false} Beyond<N>(f: Forest<N>, c: N, k: nat, n: nat)
    requires Up(f, Some(c), n).None?
    ensures n <= k ==> Up(f, Some(c), k).None?
  {
    if n < k {
      Beyond(f, c, k - 1, n);
      UpStep(f, Some(c), k - 1);
    }
  }

  lemma BumpedAll<N>(f: Forest<N>, c: N, diff: int, k: nat)
    requires Up(f, Some(c), k).None?
    ensures Bumped(f, c, diff, k) == Bump(f, c, diff)
  {
    forall x | Above(f, x, c)
      ensures Passed(f, c, k, x)
    {
      var n: nat :| Up(f, Some(c), n) == Some(x);
      if k <= n {
        UpAdd(f, Some(c), k, n - k);
        UpNone(f, n - k);
      }
    }
  }

  // ----- Queries ----------------------------------------------------------------------------

  /** What `Container::queryAdd` answers for a container that no player, tile or inbox holds. */
  ghost function QueryAddSpec(f: Forest<Item>, c: Item, index: int, item: Item, flags: Flags): ReturnValue
    requires c in f && item in f
  {
    if flags.childIsOwner then NoError
    else if !f[item].kind.pickupable then CannotPickup
    else if item == c then ThisIsImpossible
    else if f[c].kind.weapon.Quiver? && !f[item].kind.weapon.Ammo? then QuiverAmmoOnly
    else if Above(f, item, c) then ThisIsImpossible
    else if !flags.noLimit && index == INDEX_WHEREEVER && |f[c].list| >= f[c].capacity then ContainerNotEnoughRoom
    else NoError
  }

  method QueryAdd(ghost W: set<Item>, c: Item, index: int, item: Item, flags: Flags) returns (ret: ReturnValue)
    requires c in W && item in W && c.box && Shaped(View(W))
    ensures ret == QueryAddSpec(View(W), c, index, item, flags)
  {
    ghost var f := View(W);
    if flags.childIsOwner { return NoError; }
    if !item.kind.pickupable { return CannotPickup; }
    if item == c { return ThisIsImpossible; }
    if c.kind.weapon.Quiver? && !item.kind.weapon.Ammo? { return QuiverAmmoOnly; }
    var inside := IsInside(W, c, item);
    AboveParent(f, item, c);
    if inside { return ThisIsImpossible; }
    if !flags.noLimit && index == INDEX_WHEREEVER && |c.itemlist| >= c.maxSize { return ContainerNotEnoughRoom; }
    return NoError;
  }

  /** The walk over the containers around c that looks for the thing being added. */
  method IsInside(ghost W: set<Item>, c: Item, thing: Item) returns (found: bool)
    requires c in W && c.box && Shaped(View(W))
    ensures found <==> c.parent != null && Above(View(W), thing, c.parent)
  {
    ghost var f := View(W);
    ghost var n := RootDistance(f, c);
    var cylinder: Item? := c.parent;
    ghost var k: nat := 1;
    assert f[c] == c.Look();
    assert Up(f, Some(c), 1) == f[c].parent;
    UpStaysIn(f, c, 1);
    Beyond(f, c, 1, n);
    while cylinder != null
      invariant Item.Link0(cylinder) == Up(f, Some(c), k) && (cylinder != null ==> k < n && cylinder in W)
      invariant forall j: nat :: 1 <= j < k ==> Up(f, Some(c), j) != Some(thing)
      decreases n - k
    {
      if cylinder == thing {
        assert Up(f, f[c].parent, k - 1) == Some(thing);
        return true;
      }
      UpStep(f, Some(c), k);
      UpStaysIn(f, c, k + 1);
      assert f[cylinder] == cylinder.Look();
      Beyond(f, c, k + 1, n);
      cylinder := cylinder.parent;
      k := k + 1;
    }
    if c.parent != null && Above(f, thing, c.parent) {
      var j: nat :| Up(f, Item.Link0(c.parent), j) == Some(thing);
      assert Up(f, Some(c), j + 1) == Some(thing);
      Beyond(f, c, j + 1, k);
      assert false;
    }
    return false;
  }

  /** `getThingIndex`, as the first position of the item or -1. */
  method GetThingIndex(c: Item, item: Item) returns (index: int)
    ensures -1 <= index < |c.itemlist|
    ensures index == -1 <==> item !in c.itemlist
    ensures index >= 0 ==> c.itemlist[index] == item
  {
    index := 0;
    while index < |c.itemlist|
      invariant 0 <= index <= |c.itemlist|
      invariant item !in c.itemlist[..index]
    {
      if c.itemlist[index] == item { return; }
      index := index + 1;
    }
    index := -1;
  }

  // ----- Setters, as updates of the forest --------------------------------------------------

  method SetParent(ghost W: set<Item>, item: Item, p: Item?)
    requires item in W
    modifies item`parent
    ensures item.parent == p
    ensures View(W) == var f := old(View(W)); f[item := f[item].(parent := Item.Link0(p))]
  {
    item.parent := p;
  }

  /** `setID` and `setSubType` */
  method SetKindAndCount(ghost W: set<Item>, item: Item, kind: Kind, count: nat)
    requires item in W
    modifies item`kind, item`count
    ensures View(W) == var f := old(View(W)); f[item := f[item].(kind := kind, count := count)]
  {
    item.kind := kind;
    item.count := count;
  }

  method SetAmmoCount(ghost W: set<Item>, c: Item, ammo: nat)
    requires c in W
    modifies c`ammoCount
    ensures View(W) == var f := old(View(W)); f[c := f[c].(ammo := ammo)]
  {
    c.ammoCount := ammo;
  }

  method SetContents(ghost W: set<Item>, c: Item, list: seq<Item>, ammo: nat)
    requires c in W
    modifies c`itemlist, c`ammoCount
    ensures View(W) == var f := old(View(W)); f[c := f[c].(list := list, ammo := ammo)]
  {
    c.itemlist, c.ammoCount := list, ammo;
  }

  ghost function IndexOf(s: seq<Item>, item: Item): (k: nat)
    requires item in s
    ensures k < |s| && s[k] == item
  {
    var k :| 0 <= k < |s| && s[k] == item; k
  }

  // ----- Changes ----------------------------------------------------------------------------

  /** `addThing(index, thing)`: an index past the capacity is refused without a word. */
  method AddThing(ghost W: set<Item>, c: Item, index: int, item: Item)
    requires c in W && item in W && c.box && Consistent(View(W))
    requires item.parent == null && !Above(View(W), item, c)
    modifies W
    ensures Consistent(View(W))
    ensures View(W) == if index >= c.maxSize then old(View(W)) else PushFront(old(View(W)), c, item)
  {
    if index >= c.maxSize { return; }
    InternalAddThing(W, c, item);
  }

  /** `internalAddThing` */
  method InternalAddThing(ghost W: set<Item>, c: Item, item: Item)
    requires c in W && item in W && c.box && Consistent(View(W))
    requires item.parent == null && !Above(View(W), item, c)
    modifies W
    ensures Consistent(View(W))
    ensures View(W) == PushFront(old(View(W)), c, item)
  {
    ghost var f := View(W);
    PushFrontKeeps(f, c, item);
    LinkBooksOf(f, c, item, 0);
    item.parent := c;
    c.itemlist := [item] + c.itemlist;
    c.ammoCount := Wrap(c.ammoCount + item.count);
    assert c.itemlist == f[c].list[..0] + [item] + f[c].list[0..];
    assert View(W) == Link(f, c, item, 0);
    UpdateItemWeight(W, c, item.GetWeight());
  }

  lemma LinkBooksOf(f: Forest<Item>, c: Item, item: Item, k: nat)
    requires Consistent(f) && c in f && item in f && k <= |f[c].list|
    requires f[c].box && f[item].parent.None? && !Above(f, item, c)
    ensures Shaped(Link(f, c, item, k)) && c != item
    ensures WeightOf(Link(f, c, item, k)[item]) == WeightOf(f[item])
  {
    assert Above(f, c, c) by { assert Up(f, Some(c), 0) == Some(c); }
    LinkShaped(f, c, item, k);
  }

  /** `addItemBack` */
  method AddItemBack(ghost W: set<Item>, c: Item, item: Item)
    requires c in W && item in W && c.box && Consistent(View(W))
    requires item.parent == null && !Above(View(W), item, c)
    modifies W
    ensures Consistent(View(W))
    ensures View(W) == PushBack(old(View(W)), c, item)
  {
    ghost var f := View(W);
    PushBackKeeps(f, c, item);
    LinkBooksOf(f, c, item, |f[c].list|);
    item.parent := c;
    c.itemlist := c.itemlist + [item];
    c.ammoCount := Wrap(c.ammoCount + item.count);
    assert c.itemlist == f[c].list[..|f[c].list|] + [item] + f[c].list[|f[c].list|..];
    assert View(W) == Link(f, c, item, |f[c].list|);
    UpdateItemWeight(W, c, item.GetWeight());
  }

  /** The writes that `updateThing` and `removeThing` make when a member stays where it is. */
  method ChangeInPlace(ghost W: set<Item>, c: Item, item: Item, kind: Kind, count: nat)
    requires c in W && item in W && c.box && Consistent(View(W))
    requires item in c.itemlist && (item.box ==> !kind.stackable)
    modifies W
    ensures Consistent(View(W))
    ensures View(W) == Change(old(View(W)), c, item, kind, count)
  {
    hide Consistent, Bump, Shaped, Restock, WeightOf;
    ghost var f := View(W);
    ChangeReady(f, c, IndexOf(c.itemlist, item), kind, count);
    var change := RestockInPlace(W, c, item, kind, count);
    UpdateItemWeight(W, c, change);
  }

  /** Type, count and ammunition count change; the weight that this makes is still to be passed up. */
  method RestockInPlace(ghost W: set<Item>, c: Item, item: Item, kind: Kind, count: nat) returns (change: int)
    requires c in W && item in W
    modifies W
    ensures View(W) == Restock(old(View(W)), c, item, kind, count)
    ensures change == WeightOf(View(W)[item]) - WeightOf(old(View(W))[item])
  {
    hide WeightOf, Wrap;
    ghost var f := View(W);
    var oldWeight := item.GetWeight();
    assert oldWeight == WeightOf(f[item]);
    SetAmmoCount(W, c, Wrap(c.ammoCount + count - item.count));
    SetKindAndCount(W, item, kind, count);
    change := item.GetWeight();
    assert change == WeightOf(View(W)[item]);
    change := change - oldWeight;
  }

  /** `updateThing(thing, itemId, count)` for item types whose subtype is their count. */
  method UpdateThing(ghost W: set<Item>, c: Item, item: Item, kind: Kind, count: nat)
    requires c in W && item in W && c.box && Consistent(View(W))
    requires count < 256 && (item.box ==> !kind.stackable)
    modifies W
    ensures Consistent(View(W))
    ensures View(W) == if item in old(c.itemlist) then Change(old(View(W)), c, item, kind, count) else old(View(W))
  {
    var index := GetThingIndex(c, item);
    if index == -1 { return; }
    ChangeInPlace(W, c, item, kind, count);
  }

  lemma ChangeReady(f: Forest<Item>, c: Item, k: nat, kind: Kind, count: nat)
    requires Consistent(f) && c in f && k < |f[c].list|
    requires f[c].list[k] in f && f[f[c].list[k]].box ==> !kind.stackable
    ensures var item := f[c].list[k];
            && item in f && item != c
            && Consistent(Change(f, c, item, kind, count))
            && Shaped(Restock(f, c, item, kind, count))
  {
    var item := f[c].list[k];
    MemberFacts(f, c, k);
    ChangeKeeps(f, c, item, kind, count);
    RestockShaped(f, c, item, kind, count);
  }

  lemma MemberFacts(f: Forest<Item>, c: Item, k: nat)
    requires Shaped(f) && c in f && k < |f[c].list|
    ensures f[c].list[k] in f && f[f[c].list[k]].parent == Some(c) && f[c].list[k] != c
    ensures !Above(f, f[c].list[k], c) && f[c].box
    ensures forall i :: 0 <= i < |f[c].list| && f[c].list[i] == f[c].list[k] ==> i == k
  {
    assert ListHolds(f, c);
    NotItsOwnParent(f, c, f[c].list[k]);
  }

  /** The forest after the writes of `replaceThing` to the item list and the parent links. */
  ghost function InPlace(f: Forest<Item>, c: Item, k: nat, item: Item): Forest<Item>
    requires c in f && item in f && k < |f[c].list| && f[c].list[k] in f
  {
    var gone := f[c].list[k];
    var g := f[c := f[c].(list := f[c].list[k := item], ammo := Wrap(Wrap(f[c].ammo - f[gone].count) + f[item].count))];
    var h := g[item := g[item].(parent := Some(c))];
    h[gone := h[gone].(parent := None)]
  }

  lemma SwapShaped(f: Forest<Item>, c: Item, k: nat, item: Item)
    requires Consistent(f) && c in f && k < |f[c].list| && item in f && f[c].box
    requires f[item].parent.None? && !Above(f, item, c)
    ensures f[c].list[k] in f && c != item && item != f[c].list[k] && c != f[c].list[k]
    ensures var g := Unlink(f, c, k); k <= |g[c].list| && Shaped(Link(g, c, item, k))
    ensures Link(Unlink(f, c, k), c, item, k) == InPlace(f, c, k, item)
  {
    MemberFacts(f, c, k);
    assert Up(f, Some(c), 0) == Some(c);
    UnlinkShaped(f, c, k);
    AboveAvoid(f, Unlink(f, c, k), f[c].list[k], c, item);
    LinkShaped(Unlink(f, c, k), c, item, k);
    assert Link(Unlink(f, c, k), c, item, k)[c].list == f[c].list[k := item];
  }

  method PutInPlace(ghost W: set<Item>, c: Item, index: nat, item: Item)
    requires c in W && item in W && index < |c.itemlist| && c.itemlist[index] in W
    requires c != item && item != c.itemlist[index] && c != c.itemlist[index]
    modifies W
    ensures index < |old(c.itemlist)| && View(W) == InPlace(old(View(W)), c, index, item)
  {
    ghost var f := View(W);
    InPlaceCells(f, c, index, item);
    hide InPlace;
    Exchange(W, c, index, item);
    assert View(W) == InPlace(f, c, index, item);
  }

  /** The writes to the container and to both items */
  method Exchange(ghost W: set<Item>, c: Item, index: nat, item: Item)
    requires c in W && item in W && index < |c.itemlist| && c.itemlist[index] in W
    requires c != item && item != c.itemlist[index] && c != c.itemlist[index]
    modifies W
    ensures View(W).Keys == old(View(W)).Keys && index < |old(c.itemlist)|
    ensures var f, g, gone := old(View(W)), View(W), old(c.itemlist)[index];
            && g[c] == f[c].(list := f[c].list[index := item],
                             ammo := Wrap(Wrap(f[c].ammo - f[gone].count) + f[item].count))
            && g[item] == f[item].(parent := Some(c)) && g[gone] == f[gone].(parent := None)
            && (forall x :: x in f && x != c && x != item && x != gone ==> g[x] == f[x])
  {
    hide Wrap;
    var replacedItem := c.itemlist[index];
    c.itemlist, c.ammoCount := c.itemlist[index := item], Wrap(Wrap(c.ammoCount - replacedItem.count) + item.count);
    item.parent := c;
    replacedItem.parent := null;
  }

  lemma InPlaceCells(f: Forest<Item>, c: Item, k: nat, item: Item)
    requires c in f && item in f && k < |f[c].list| && f[c].list[k] in f
    requires c != item && item != f[c].list[k] && c != f[c].list[k]
    ensures var g := InPlace(f, c, k, item); var gone := f[c].list[k];
            && g.Keys == f.Keys
            && g[c] == f[c].(list := f[c].list[k := item],
                             ammo := Wrap(Wrap(f[c].ammo - f[gone].count) + f[item].count))
            && g[item] == f[item].(parent := Some(c)) && g[gone] == f[gone].(parent := None)
            && (forall x :: x in f && x != c && x != item && x != gone ==> g[x] == f[x])
  {
    hide Wrap;
  }

  /** `replaceThing(index, thing)`; the replaced item is let go just before the weight is passed up,
      which reads nothing of it. */
  method ReplaceThing(ghost W: set<Item>, c: Item, index: nat, item: Item)
    requires c in W && item in W && c.box && Consistent(View(W))
    requires item.parent == null && !Above(View(W), item, c)
    modifies W
    ensures Consistent(View(W))
    ensures View(W) == if index < |old(c.itemlist)| then Swap(old(View(W)), c, index, item) else old(View(W))
  {
    hide Consistent, Bump, StackWeight, Wrap;
    if index >= |c.itemlist| { return; }
    SwapKeeps(View(W), c, index, item);
    SwapShaped(View(W), c, index, item);
    var change: int := item.GetWeight();
    change := change - c.itemlist[index].GetWeight();
    PutInPlace(W, c, index, item);
    UpdateItemWeight(W, c, change);
  }

  /** What is left of a stack of `have` after taking `count` from it, as the byte that stores it. */
  function Remaining(have: nat, count: nat): (left: nat) {
    if count <= have then (have - count) % 256 else 0
  }

  /** What `removeThing(thing, count)` does to the forest. */
  ghost function RemoveSpec(f: Forest<Item>, c: Item, item: Item, count: nat): Forest<Item>
    requires Consistent(f) && c in f && item in f
  {
    if item !in f[c].list then f
    else if f[item].kind.stackable && count != f[item].count then
      Change(f, c, item, f[item].kind, Remaining(f[item].count, count))
    else Drop(f, c, IndexOf(f[c].list, item))
  }

  /** The forest once the k-th item of c has been cut off. */
  ghost function CutOff(f: Forest<Item>, c: Item, k: nat): Forest<Item>
    requires c in f && k < |f[c].list| && f[c].list[k] in f
  {
    var item := f[c].list[k];
    var g := f[c := f[c].(list := f[c].list[..k] + f[c].list[k + 1..], ammo := Wrap(f[c].ammo - f[item].count))];
    g[item := g[item].(parent := None)]
  }

  lemma DropReady(f: Forest<Item>, c: Item, k: nat)
    requires Consistent(f) && c in f && k < |f[c].list| && f[c].box
    ensures var item := f[c].list[k];
            && item in f && item != c && f[item].parent == Some(c) && Consistent(Drop(f, c, k))
            && var g := Bump(f, c, -(WeightOf(f[item]) as int));
               && g[c].list == f[c].list && g[c].ammo == f[c].ammo && g[item] == f[item]
               && Drop(f, c, k) == CutOff(g, c, k)
    ensures forall i :: 0 <= i < |f[c].list| && f[c].list[i] == f[c].list[k] ==> i == k
  {
    MemberFacts(f, c, k);
    DropKeeps(f, c, k);
  }

  /** The writes of `removeThing` to the item list and the parent link. */
  method Erase(ghost W: set<Item>, c: Item, index: nat)
    requires c in W && index < |c.itemlist| && c.itemlist[index] in W && c.itemlist[index] != c
    modifies W
    ensures index < |old(c.itemlist)| && View(W) == CutOff(old(View(W)), c, index)
  {
    var item := c.itemlist[index];
    SetContents(W, c, c.itemlist[..index] + c.itemlist[index + 1..], Wrap(c.ammoCount - item.count));
    SetParent(W, item, null);
  }

  /** The branch of `removeThing` that takes the whole item: first its weight, then the item. */
  method TakeOut(ghost W: set<Item>, c: Item, index: nat)
    requires c in W && index < |c.itemlist| && c.box && Consistent(View(W))
    modifies W
    ensures Consistent(View(W))
    ensures index < |old(c.itemlist)| && View(W) == Drop(old(View(W)), c, index)
  {
    hide Bump, StackWeight, Wrap, Balanced, Counted, Drop;
    DropReady(View(W), c, index);
    var item := c.itemlist[index];
    var weight: int := item.GetWeight();
    UpdateItemWeight(W, c, -weight);
    assert View(W)[c] == c.Look();
    Erase(W, c, index);
  }

  /** `removeThing(thing, count)` */
  method RemoveThing(ghost W: set<Item>, c: Item, item: Item, count: nat)
    requires c in W && item in W && c.box && Consistent(View(W))
    modifies W
    ensures Consistent(View(W))
    ensures View(W) == RemoveSpec(old(View(W)), c, item, count)
  {
    hide Change, Drop;
    ghost var f := View(W);
    var index := GetThingIndex(c, item);
    if index == -1 { return; }
    if item.kind.stackable && count != item.count {
      assert ListHolds(f, item);
      ChangeInPlace(W, c, item, item.kind, Remaining(item.count, count));
    } else {
      DropReady(f, c, index);
      TakeOut(W, c, index);
    }
  }
}
