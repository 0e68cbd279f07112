/** The questions a move asks of containers before it changes anything: how much of an item fits,
    what may be taken, and where exactly it goes. */
module ContainerQueries {
  import opened Arithmetic
  import opened Collections
  import opened Forests
  import opened Containers
  import opened StackAccounts

  const MAX_LAYERS := 16

  // ----- Query: whether it fits at all -------------------------------------------------------

  /** The container takes this kind of item at all. */
  ghost predicate Accepts(f: Forest<Item>, c: Item, item: Item)
    requires c in f && item in f
  {
    && f[item].kind.pickupable
    && (f[c].kind.weapon.Quiver? ==> f[item].kind.weapon.Ammo?)
    && !Above(f, item, c)
  }

  lemma AcceptsIsQuery(f: Forest<Item>, c: Item, item: Item, index: int, flags: Flags)
    requires c in f && item in f && Plain(flags)
    ensures QueryAddSpec(f, c, index, item, flags) == NoError <==>
      Accepts(f, c, item) && !(index == INDEX_WHEREEVER && |f[c].list| >= f[c].capacity)
  {
    assert Up(f, Some(c), 0) == Some(c);
  }

  /** Neither the unlimited nor the owner query. */
  ghost predicate Plain(flags: Flags) {
    !flags.noLimit && !flags.childIsOwner
  }

  // ----- Query: how much fits ---------------------------------------------------------------

  ghost predicate Stackables(f: Forest<Item>, x: Item, item: Item)
    requires item in f
  {
    x in f && f[x].kind == f[item].kind && f[x].attrs == f[item].attrs
  }

  /** The room on the partial stacks of a list that are equal to the item and are not the item. */
  ghost function Room(f: Forest<Item>, s: seq<Item>, item: Item): nat
    requires item in f
  {
    if s == [] then 0
    else
      (if s[0] != item && Stackables(f, s[0], item) && f[s[0]].count < STACK_LIMIT
       then STACK_LIMIT - f[s[0]].count else 0)
      + Room(f, s[1..], item)
  }

  ghost function FreeSlots(c: Cell<Item>): nat {
    if c.capacity < |c.list| then 0 else c.capacity - |c.list|
  }

  /** The room that `queryMaxCount` finds on stacks already there. */
  ghost function StackRoom(f: Forest<Item>, c: Item, index: int, item: Item, flags: Flags): nat
    requires c in f && item in f
  {
    if index == INDEX_WHEREEVER then
      (if QueryAddSpec(f, c, 0, item, flags) == NoError then Room(f, f[c].list, item) else 0)
    else if 0 <= index < |f[c].list| && Stackables(f, f[c].list[index], item) && f[f[c].list[index]].count < STACK_LIMIT
         && QueryAddSpec(f, c, index, item, flags) == NoError then
      STACK_LIMIT - f[f[c].list[index]].count
    else 0
  }

  ghost function MaxCountSpec(f: Forest<Item>, c: Item, index: int, item: Item, count: nat, flags: Flags): nat
    requires c in f && item in f
  {
    if flags.noLimit then (if count < 1 then 1 else count)
    else if f[item].kind.stackable then FreeSlots(f[c]) * STACK_LIMIT + StackRoom(f, c, index, item, flags)
    else FreeSlots(f[c])
  }

  ghost function MaxCountRet(f: Forest<Item>, c: Item, index: int, item: Item, count: nat, flags: Flags): ReturnValue
    requires c in f && item in f
  {
    if flags.noLimit then NoError
    else if MaxCountSpec(f, c, index, item, count, flags) < (if f[item].kind.stackable then count else 1)
    then ContainerNotEnoughRoom else NoError
  }

  /** The loop of `queryMaxCount` over the stacks of the container */
  method RoomOnStacks(ghost W: set<Item>, c: Item, item: Item, flags: Flags) returns (n: nat)
    requires c in W && item in W && c.box && Shaped(View(W))
    ensures n == StackRoom(View(W), c, INDEX_WHEREEVER, item, flags)
  {
    hide Shaped, Above;
    ghost var f := View(W);
    assert ListIn(f, c) by { ListsIn(f, c); }
    n := 0;
    var i := 0;
    var slotIndex := 0;
    while i < |c.itemlist|
      invariant 0 <= i <= |c.itemlist| && 0 <= slotIndex
      invariant n + (if QueryAddSpec(f, c, 0, item, flags) == NoError then Room(f, f[c].list[i..], item) else 0)
             == StackRoom(f, c, INDEX_WHEREEVER, item, flags)
    {
      var containerItem := c.itemlist[i];
      assert f[c].list[i..][1..] == f[c].list[i + 1..];
      if containerItem != item && containerItem.Equals(item) && containerItem.count < STACK_LIMIT {
        var q := QueryAdd(W, c, slotIndex, item, flags);
        slotIndex := slotIndex + 1;
        if q == NoError {
          n := n + (STACK_LIMIT - containerItem.count);
        }
      }
      i := i + 1;
    }
  }

  /** `queryMaxCount` */
  method QueryMaxCount(ghost W: set<Item>, c: Item, index: int, item: Item, count: nat, flags: Flags)
    returns (ret: ReturnValue, maxQueryCount: nat)
    requires c in W && item in W && c.box && Shaped(View(W))
    ensures maxQueryCount == MaxCountSpec(View(W), c, index, item, count, flags)
    ensures ret == MaxCountRet(View(W), c, index, item, count, flags)
  {
    hide Shaped, Above;
    ghost var f := View(W);
    if flags.noLimit {
      return NoError, if count < 1 then 1 else count;
    }
    var freeSlots: nat := if c.maxSize < |c.itemlist| then 0 else c.maxSize - |c.itemlist|;
    if item.kind.stackable {
      var n: nat := 0;
      assert ListIn(f, c) by { ListsIn(f, c); }
      if index == INDEX_WHEREEVER {
        n := RoomOnStacks(W, c, item, flags);
      } else if 0 <= index < |c.itemlist| {
        var destItem := c.itemlist[index];
        if item.Equals(destItem) && destItem.count < STACK_LIMIT {
          var q := QueryAdd(W, c, index, item, flags);
          if q == NoError {
            n := STACK_LIMIT - destItem.count;
          }
        }
      }
      maxQueryCount := freeSlots * STACK_LIMIT + n;
      ret := if maxQueryCount < count then ContainerNotEnoughRoom else NoError;
    } else {
      maxQueryCount := freeSlots;
      ret := if maxQueryCount == 0 then ContainerNotEnoughRoom else NoError;
    }
  }

  ghost predicate ListIn(f: Forest<Item>, c: Item) {
    c in f && forall i :: 0 <= i < |f[c].list| ==> f[c].list[i] in f
  }

  lemma ListsIn(f: Forest<Item>, c: Item)
    requires Shaped(f) && c in f
    ensures ListIn(f, c)
  {
    assert ListHolds(f, c);
  }

  // ----- Query: what may be taken -----------------------------------------------------------

  ghost function QueryRemoveSpec(f: Forest<Item>, c: Item, item: Item, count: nat, flags: Flags): ReturnValue
    requires c in f && item in f
  {
    if item !in f[c].list || count == 0 || (f[item].kind.stackable && count > f[item].count) then NotPossible
    else if !f[item].kind.moveable && !flags.ignoreNotMoveable then NotMoveable
    else NoError
  }

  /** `queryRemove` for a container outside houses */
  method QueryRemove(ghost W: set<Item>, c: Item, item: Item, count: nat, flags: Flags) returns (ret: ReturnValue)
    requires c in W && item in W
    ensures ret == QueryRemoveSpec(View(W), c, item, count, flags)
  {
    var index := GetThingIndex(c, item);
    if index == -1 { return NotPossible; }
    if count == 0 || (item.kind.stackable && count > item.count) { return NotPossible; }
    if !item.kind.moveable && !flags.ignoreNotMoveable { return NotMoveable; }
    return NoError;
  }

  // ----- Query: where it goes ---------------------------------------------------------------

  /** Where an item is headed: the container, the index in it, and the item it may join. */
  datatype Destination = Destination(cylinder: Item, index: int, toItem: Option<Item>)

  /** The first partial stack of a list from position i on that the item can join. */
  ghost function FirstPartial(f: Forest<Item>, s: seq<Item>, item: Item, i: nat): Option<nat>
    requires item in f && i <= |s|
    decreases |s| - i
  {
    if i == |s| then None
    else if s[i] != item && Stackables(f, s[i], item) && f[s[i]].count < STACK_LIMIT then Some(i)
    else FirstPartial(f, s, item, i + 1)
  }

  ghost function Normal(f: Forest<Item>, c: Item, index: int): int
    requires c in f
  {
    if index == 255 || index >= f[c].capacity then INDEX_WHEREEVER else index
  }

  ghost function AutoStack(f: Forest<Item>, c: Item, index: int, item: Item, at: Option<Item>,
                           flags: Flags): Destination
    requires c in f && item in f && (at.Some? ==> at.value in f)
  {
    if flags.ignoreAutoStack || !f[item].kind.stackable || f[item].parent == Some(c) then Destination(c, index, at)
    else if at.Some? && Stackables(f, at.value, item) && f[at.value].count < STACK_LIMIT then Destination(c, index, at)
    else
      var n := FirstPartial(f, f[c].list, item, 0);
      if n.Some? && n.value < |f[c].list| then Destination(c, n.value, Some(f[c].list[n.value]))
      else Destination(c, index, at)
  }

  ghost function DestinationSpec(f: Forest<Item>, c: Item, index: int, item: Item, flags: Flags): Destination
    requires ListIn(f, c) && item in f
  {
    if index == 254 then
      Destination(if f[c].parent.Some? then f[c].parent.value else c, INDEX_WHEREEVER, None)
    else
      var i := Normal(f, c, index);
      if 0 <= i < |f[c].list| then
        var at := f[c].list[i];
        if f[at].box then Destination(at, INDEX_WHEREEVER, None)
        else AutoStack(f, c, i, item, Some(at), flags)
      else AutoStack(f, c, i, item, None, flags)
  }

  /** `queryDestination` */
  method QueryDestination(ghost W: set<Item>, c: Item, index: int, item: Item, flags: Flags)
    returns (cylinder: Item, toIndex: int, toItem: Item?)
    requires c in W && item in W && ListIn(View(W), c)
    ensures Destination(cylinder, toIndex, Item.Link0(toItem)) == DestinationSpec(View(W), c, index, item, flags)
  {
    ghost var f := View(W);
    assert f[c] == c.Look();
    if index == 254 {
      if c.parent != null { return c.parent, INDEX_WHEREEVER, null; }
      return c, INDEX_WHEREEVER, null;
    }
    toIndex, toItem := index, null;
    if index == 255 || index >= c.maxSize {
      toIndex := INDEX_WHEREEVER;
    }
    if 0 <= toIndex < |c.itemlist| {
      toItem := c.itemlist[toIndex];
      assert f[toItem] == toItem.Look();
      if toItem.box { return toItem, INDEX_WHEREEVER, null; }
    }
    cylinder := c;
    if !flags.ignoreAutoStack && item.kind.stackable && item.parent != c {
      if toItem != null && toItem.Equals(item) && toItem.count < STACK_LIMIT { return; }
      var n := 0;
      while n < |c.itemlist|
        invariant 0 <= n <= |c.itemlist|
        invariant FirstPartial(f, f[c].list, item, 0) == FirstPartial(f, f[c].list, item, n)
      {
        var listItem := c.itemlist[n];
        if listItem != item && listItem.Equals(item) && listItem.count < STACK_LIMIT {
          return c, n, listItem;
        }
        n := n + 1;
      }
    }
  }
}
