/** `internalAddItem` anywhere into a container that no player, tile or inbox holds: when it
    succeeds, and that it then delivers every piece. */
module AddItem {
  import opened Arithmetic
  import opened Collections
  import opened Forests
  import opened Containers
  import opened StackAccounts
  import opened ContainerQueries
  import opened MoveTheory
  import opened MoveEngine

  /** The answer of `internalAddItem` with the index "anywhere". */
  ghost function AddVerdict(f: Forest<Item>, c: Item, item: Item, flags: Flags): ReturnValue
    requires ListIn(f, c) && item in f
  {
    var d := DestinationSpec(f, c, INDEX_WHEREEVER, item, flags);
    var add := QueryAddSpec(f, c, d.index, item, flags);
    if add != NoError then add
    else MaxCountRet(f, c, INDEX_WHEREEVER, item, f[item].count, flags)
  }

  /** All the room there is for the item: empty slots and partial stacks. */
  ghost function Capacity(f: Forest<Item>, c: Item, item: Item): nat
    requires c in f && item in f
  {
    FreeSlots(f[c]) * STACK_LIMIT + Room(f, f[c].list, item)
  }

  lemma {:induction false} RoomMeansPartial(f: Forest<Item>, s: seq<Item>, item: Item, i: nat)
    requires item in f && i <= |s|
    ensures FirstPartial(f, s, item, i).None? <==> Room(f, s[i..], item) == 0
    decreases |s| - i
  {
    if i < |s| {
      assert s[i..][1..] == s[i + 1..];
      RoomMeansPartial(f, s, item, i + 1);
    }
  }

  /** A stack is added exactly if the container takes its kind and has room for all of it; a stack that is
      not to join others needs a free slot. */
  lemma AddedIffRoom(f: Forest<Item>, c: Item, item: Item, flags: Flags)
    requires Orderly(f) && c in f && f[c].box && item in f && f[item].parent.None? && f[item].kind.stackable
    requires Plain(flags)
    ensures ListIn(f, c)
    ensures AddVerdict(f, c, item, flags) == NoError <==>
            && Accepts(f, c, item)
            && if flags.ignoreAutoStack then |f[c].list| < f[c].capacity
               else f[item].count <= Capacity(f, c, item)
  {
    ListsIn(f, c);
    assert StackOk(f[item]);
    var d := DestinationSpec(f, c, INDEX_WHEREEVER, item, flags);
    AcceptsIsQuery(f, c, item, d.index, flags);
    AcceptsIsQuery(f, c, item, 0, flags);
    PartialFacts(f, f[c].list, item, 0);
    RoomMeansPartial(f, f[c].list, item, 0);
    assert f[c].list[0..] == f[c].list;
  }

  /** Any other item is added exactly if the container takes its kind and has a free slot. */
  lemma AddedIffSlot(f: Forest<Item>, c: Item, item: Item, flags: Flags)
    requires Orderly(f) && c in f && f[c].box && item in f && !f[item].kind.stackable && Plain(flags)
    ensures ListIn(f, c)
    ensures AddVerdict(f, c, item, flags) == NoError <==> Accepts(f, c, item) && |f[c].list| < f[c].capacity
  {
    ListsIn(f, c);
    var d := DestinationSpec(f, c, INDEX_WHEREEVER, item, flags);
    AcceptsIsQuery(f, c, item, d.index, flags);
  }

  /** How many slots an addition takes: none if the partial stacks that a stack may join have room for it. */
  ghost function NewSlots(f: Forest<Item>, c: Item, item: Item, flags: Flags): nat
    requires c in f && item in f
  {
    if f[item].kind.stackable && !flags.ignoreAutoStack && f[item].count <= Room(f, f[c].list, item) then 0 else 1
  }

  lemma {:induction false} RoomAtLeast(f: Forest<Item>, s: seq<Item>, item: Item, j: nat)
    requires item in f && j < |s| && s[j] != item && Stackables(f, s[j], item) && f[s[j]].count < STACK_LIMIT
    ensures Room(f, s, item) >= STACK_LIMIT - f[s[j]].count
  {
    if j > 0 { RoomAtLeast(f, s[1..], item, j - 1); }
  }

  /** A stack that joins another whole takes no slot. */
  lemma NoSlotOnto(f: Forest<Item>, c: Item, item: Item, onto: Item, flags: Flags)
    requires Orderly(f) && MayJoin(f, c, item, Some(onto)) && f[item].parent.None? && !flags.ignoreAutoStack
    requires Stackables(f, onto, item) && f[onto].count < STACK_LIMIT
    requires Joining(f, item, Some(onto), f[item].count) == f[item].count
    ensures NewSlots(f, c, item, flags) == 0
    ensures Joined(f, c, item, Some(onto), f[item].count)[c].list == f[c].list
  {
    JoinedKeeps(f, c, item, Some(onto), f[item].count);
    assert ListHolds(f, c);
    var j :| 0 <= j < |f[c].list| && f[c].list[j] == onto;
    RoomAtLeast(f, f[c].list, item, j);
  }

  /** An item for which no partial stack was found takes one. */
  lemma OneSlotInFront(f: Forest<Item>, c: Item, item: Item, flags: Flags)
    requires Orderly(f) && c in f && f[c].box && item in f && f[item].parent.None? && ListIn(f, c) && c != item
    requires DestinationSpec(f, c, INDEX_WHEREEVER, item, flags).toItem.None?
    ensures NewSlots(f, c, item, flags) == 1 && PushFront(f, c, item)[c].list == [item] + f[c].list
  {
    assert StackOk(f[item]);
    RoomMeansPartial(f, f[c].list, item, 0);
    PartialFacts(f, f[c].list, item, 0);
    assert f[c].list[0..] == f[c].list;
  }

  /** Everything of the item has arrived in c and nowhere else, on at most one new slot, and every
      container around c has become that much heavier. */
  ghost predicate Delivered(f: Forest<Item>, g: Forest<Item>, c: Item, item: Item)
    requires c in f && item in f
  {
    && f.Keys <= g.Keys
    && |g[c].list| <= |f[c].list| + 1
    && (forall d, kind, attrs :: d in f ==> Gained(f, g, c, item, d, kind, attrs))
    && (forall d :: d in f ==> Heavier(f, g, c, item, d))
  }

  ghost predicate Gained(f: Forest<Item>, g: Forest<Item>, c: Item, item: Item, d: Item, kind: Kind, attrs: Attrs)
    requires item in f && d in f
  {
    && d in g
    && Held(g, d, kind, attrs)
       == Held(f, d, kind, attrs) + One(d == c) * One(Alike(f[item], kind, attrs)) * f[item].count
  }

  ghost predicate Heavier(f: Forest<Item>, g: Forest<Item>, c: Item, item: Item, d: Item)
    requires item in f && d in f
  {
    d in g && (f[d].box ==> g[d].total == if Above(f, d, c) then Wrap(f[d].total + WeightOf(f[item])) else f[d].total)
  }

  /** The case in which the whole item takes a slot of its own. */
  lemma DeliveredInFront(f: Forest<Item>, c: Item, item: Item)
    requires Orderly(f) && c in f && item in f && f[c].box && f[item].parent.None? && !Above(f, item, c)
    requires |f[c].list| < f[c].capacity
    ensures Orderly(PushFront(f, c, item)) && Delivered(f, PushFront(f, c, item), c, item)
  {
    hide Above, Held;
    var g := PushFront(f, c, item);
    assert c != item by { AboveItself(f, c); }
    PushKeepsOrder(f, c, item);
    PushFrontCells(f, c, item);
    forall d, kind, attrs | d in f
      ensures Gained(f, g, c, item, d, kind, attrs)
    {
      PushFrontHolds(f, c, item, d, kind, attrs);
    }
    forall d | d in f
      ensures Heavier(f, g, c, item, d)
    {
      PushFrontWeighs(f, c, item, d);
    }
  }

  lemma AboveItself(f: Forest<Item>, c: Item)
    ensures Above(f, c, c)
  {
    assert Up(f, Some(c), 0) == Some(c);
  }

  /** The case in which the whole stack merges into one that is there. */
  lemma DeliveredOnto(f: Forest<Item>, c: Item, item: Item, onto: Item)
    requires Orderly(f) && MayJoin(f, c, item, Some(onto))
    requires Joining(f, item, Some(onto), f[item].count) == f[item].count
    ensures var g := Joined(f, c, item, Some(onto), f[item].count);
            Orderly(g) && g.Keys == f.Keys && Delivered(f, g, c, item)
  {
    hide Above, Held, Joined;
    var g := Joined(f, c, item, Some(onto), f[item].count);
    JoinedKeeps(f, c, item, Some(onto), f[item].count);
    forall d, kind, attrs | d in f
      ensures Gained(f, g, c, item, d, kind, attrs)
    {
      JoinedHolds(f, c, item, Some(onto), f[item].count, d, kind, attrs);
    }
    StackWeighs(f, item);
    forall d | d in f
      ensures Heavier(f, g, c, item, d)
    {
      if f[d].box {
        JoinedWeighs(f, c, item, Some(onto), f[item].count, d);
        WrapAdd(PiecesWeight(f[item], f[item].count), f[d].total);
      }
    }
  }

  lemma StackWeighs(f: Forest<Item>, item: Item)
    requires Orderly(f) && item in f && f[item].kind.stackable
    ensures WeightOf(f[item]) == Wrap(PiecesWeight(f[item], f[item].count))
  {
    assert ListHolds(f, item) && StackOk(f[item]);
    WholeStack(f[item]);
  }

  /** A stack of which n pieces have joined another and the rest has been cloned. */
  ghost predicate PartJoined(f: Forest<Item>, c: Item, item: Item, onto: Item, clone: Item, k: Forest<Item>) {
    && Orderly(f) && MayJoin(f, c, item, Some(onto)) && clone !in f
    && var n := Joining(f, item, Some(onto), f[item].count);
       var h := Joined(f, c, item, Some(onto), f[item].count);
       n < f[item].count && h.Keys == f.Keys && k == Copied(h, item, f[item].count - n, clone)
  }

  lemma GainedInParts(f: Forest<Item>, c: Item, item: Item, onto: Item, clone: Item, k: Forest<Item>, g: Forest<Item>,
                      d: Item, kind: Kind, attrs: Attrs)
    requires PartJoined(f, c, item, onto, clone, k) && d in f && Gained(k, g, c, clone, d, kind, attrs)
    ensures Gained(f, g, c, item, d, kind, attrs)
  {
    hide Above, Held, Joined, One;
    var n := Joining(f, item, Some(onto), f[item].count);
    var h := Joined(f, c, item, Some(onto), f[item].count);
    JoinedKeeps(f, c, item, Some(onto), f[item].count);
    JoinedHolds(f, c, item, Some(onto), f[item].count, d, kind, attrs);
    assert Held(k, d, kind, attrs) == Held(h, d, kind, attrs) by {
      CopyHolds(h, item, f[item].count - n, clone, d, kind, attrs);
    }
    Distribute(One(d == c) * One(Alike(f[item], kind, attrs)), n, f[item].count - n);
  }

  lemma CopyHolds(f: Forest<Item>, item: Item, n: nat, copy: Item, d: Item, kind: Kind, attrs: Attrs)
    requires Orderly(f) && item in f && copy !in f && d in f
    ensures Held(Copied(f, item, n, copy), d, kind, attrs) == Held(f, d, kind, attrs)
  {
    assert ListHolds(f, d);
    TallyFrame(f, Copied(f, item, n, copy), f[d].list, kind, attrs);
  }

  lemma HeavierInParts(f: Forest<Item>, c: Item, item: Item, onto: Item, clone: Item, k: Forest<Item>, g: Forest<Item>,
                       d: Item)
    requires PartJoined(f, c, item, onto, clone, k) && d in f && Heavier(k, g, c, clone, d)
    ensures Heavier(f, g, c, item, d)
  {
    var n := Joining(f, item, Some(onto), f[item].count);
    PartWeighs(f, c, item, onto, clone, k, d);
    hide PartJoined, Joining, Orderly, MayJoin, Above;
    if f[d].box {
      StackWeighs(f, item);
      StackWeighs(k, clone);
      HeavierSum(f[d].total, PiecesWeight(f[item], n), PiecesWeight(k[clone], k[clone].count),
                 PiecesWeight(f[item], f[item].count));
      Distribute(BaseWeight(f[item].kind, f[item].attrs), n, f[item].count - n);
    }
  }

  /** What holds when the first part has joined: the clone looks like the rest of the stack. */
  lemma PartKeeps(f: Forest<Item>, c: Item, item: Item, onto: Item, clone: Item, k: Forest<Item>)
    requires PartJoined(f, c, item, onto, clone, k)
    ensures var n := Joining(f, item, Some(onto), f[item].count);
            var h := Joined(f, c, item, Some(onto), f[item].count);
            && c in f && item in f && f[item].kind.stackable && Orderly(k) && clone in k && clone !in f
            && k[clone] == f[item].(count := f[item].count - n, parent := None, list := [], total := 0, ammo := 0)
            && f[item].count <= STACK_LIMIT && c in k && k[c].list == f[c].list && k[c].box == f[c].box
            && k[c].capacity == f[c].capacity && k[c].kind == f[c].kind
            && (forall x :: x in f ==> x in k && k[x] == h[x] && SameBut(k[x], f[x]))
            && (forall x :: x in f ==> !Above(k, clone, x))
  {
    hide Joined, Above;
    var n := Joining(f, item, Some(onto), f[item].count);
    var h := Joined(f, c, item, Some(onto), f[item].count);
    assert StackOk(f[item]);
    JoinedKeeps(f, c, item, Some(onto), f[item].count);
    CopyKeeps(h, item, f[item].count - n, clone);
  }

  /** What the first part weighs */
  lemma PartWeighs(f: Forest<Item>, c: Item, item: Item, onto: Item, clone: Item, k: Forest<Item>, d: Item)
    requires PartJoined(f, c, item, onto, clone, k) && d in f
    ensures var n := Joining(f, item, Some(onto), f[item].count);
            && item in f && c in k && Orderly(f) && Orderly(k) && f[item].kind.stackable && n < f[item].count
            && d in k && clone in k && k[d].box == f[d].box && (Above(k, d, c) <==> Above(f, d, c))
            && k[clone].kind == f[item].kind && k[clone].attrs == f[item].attrs && k[clone].count == f[item].count - n
            && (f[d].box ==>
                  k[d].total == if Above(f, d, c) then Wrap(f[d].total + PiecesWeight(f[item], n)) else f[d].total)
  {
    PartKeeps(f, c, item, onto, clone, k);
    var n := Joining(f, item, Some(onto), f[item].count);
    var h := Joined(f, c, item, Some(onto), f[item].count);
    JoinedKeeps(f, c, item, Some(onto), f[item].count);
    CopyKeeps(h, item, f[item].count - n, clone);
    AboveFrame(f, h);
    hide Joined, Joining, Orderly, Above, MayJoin;
    if f[d].box { JoinedWeighs(f, c, item, Some(onto), f[item].count, d); }
  }

  lemma HeavierSum(t: int, a: int, b: int, s: int)
    ensures a + b == s ==> Wrap(Wrap(t + a) + Wrap(b)) == Wrap(t + Wrap(s))
  {
    WrapAdd(t + a, Wrap(b));
    WrapAdd(b, t + a);
    WrapAdd(s, t);
  }

  /** The case in which a part merges and the rest is delivered as an item of its own. */
  lemma DeliveredInParts(f: Forest<Item>, c: Item, item: Item, onto: Item, clone: Item, k: Forest<Item>,
                         g: Forest<Item>)
    requires PartJoined(f, c, item, onto, clone, k) && Delivered(k, g, c, clone)
    ensures Delivered(f, g, c, item)
  {
    hide Above, Held, Joined;
    JoinedKeeps(f, c, item, Some(onto), f[item].count);
    forall d, kind, attrs | d in f
      ensures Gained(f, g, c, item, d, kind, attrs)
    {
      assert Gained(k, g, c, clone, d, kind, attrs);
      GainedInParts(f, c, item, onto, clone, k, g, d, kind, attrs);
    }
    forall d | d in f
      ensures Heavier(f, g, c, item, d)
    {
      assert Heavier(k, g, c, clone, d);
      HeavierInParts(f, c, item, onto, clone, k, g, d);
    }
  }

  /** Filling up one partial stack takes its room from the rest. */
  lemma {:induction false} RoomDrops(f: Forest<Item>, k: Forest<Item>, s: seq<Item>, item: Item, clone: Item, j: nat)
    requires j < |s| && NoDup(s) && item in f && clone in k && item !in s && clone !in s
    requires f[item].kind == k[clone].kind && f[item].attrs == k[clone].attrs
    requires forall x :: x in s ==> x in f && x in k && k[x].kind == f[x].kind && k[x].attrs == f[x].attrs
    requires forall x :: x in s && x != s[j] ==> k[x].count == f[x].count
    requires Stackables(f, s[j], item) && f[s[j]].count < STACK_LIMIT && k[s[j]].count == STACK_LIMIT
    ensures Room(k, s, clone) == Room(f, s, item) - (STACK_LIMIT - f[s[j]].count)
  {
    if j == 0 {
      RoomSame(f, k, s[1..], item, clone);
    } else {
      RoomDrops(f, k, s[1..], item, clone, j - 1);
    }
  }

  lemma {:induction false} RoomSame(f: Forest<Item>, k: Forest<Item>, s: seq<Item>, item: Item, clone: Item)
    requires item in f && clone in k && item !in s && clone !in s
    requires f[item].kind == k[clone].kind && f[item].attrs == k[clone].attrs
    requires forall x :: x in s ==>
               x in f && x in k && k[x].kind == f[x].kind && k[x].attrs == f[x].attrs && k[x].count == f[x].count
    ensures Room(k, s, clone) == Room(f, s, item)
  {
    if s != [] { RoomSame(f, k, s[1..], item, clone); }
  }

  /** The rest of a stack is accepted if the stack was. */
  lemma RestAccepted(f: Forest<Item>, c: Item, item: Item, onto: Item, clone: Item, k: Forest<Item>, flags: Flags)
    requires PartJoined(f, c, item, onto, clone, k) && Plain(flags) && !flags.ignoreAutoStack
    requires f[item].parent.None? && Stackables(f, onto, item) && f[onto].count < STACK_LIMIT
    requires ListIn(f, c) && AddVerdict(f, c, item, flags) == NoError
    ensures Orderly(k) && ListIn(k, c) && AddVerdict(k, c, clone, flags) == NoError
  {
    PartKeeps(f, c, item, onto, clone, k);
    ListsIn(k, c);
    AddedIffRoom(f, c, item, flags);
    AddedIffRoom(k, c, clone, flags);
    RestFits(f, c, item, onto, clone, k);
    hide AddVerdict, PartJoined, Orderly, Joined, Joining, Room, Above;
    assert Accepts(k, c, clone);
  }

  /** There is as much less room for the rest as the first part took. */
  lemma RestFits(f: Forest<Item>, c: Item, item: Item, onto: Item, clone: Item, k: Forest<Item>)
    requires PartJoined(f, c, item, onto, clone, k)
    requires f[item].parent.None? && Stackables(f, onto, item) && f[onto].count < STACK_LIMIT
    ensures c in f && item in f && c in k && clone in k
    ensures k[clone].count - Capacity(k, c, clone) == f[item].count - Capacity(f, c, item)
  {
    PartKeeps(f, c, item, onto, clone, k);
    JoinedFull(f, c, item, onto);
    assert ListHolds(f, c) && ListIn(f, c) by { ListsIn(f, c); }
    hide Joined, Above, Orderly;
    var j :| 0 <= j < |f[c].list| && f[c].list[j] == onto;
    RoomDrops(f, k, f[c].list, item, clone, j);
  }

  /** The rest of a stack takes a slot if the stack does. */
  lemma RestTakesSame(f: Forest<Item>, c: Item, item: Item, onto: Item, clone: Item, k: Forest<Item>, flags: Flags)
    requires PartJoined(f, c, item, onto, clone, k)
    requires f[item].parent.None? && Stackables(f, onto, item) && f[onto].count < STACK_LIMIT
    ensures c in k && clone in k && k[c].list == f[c].list
    ensures NewSlots(k, c, clone, flags) == NewSlots(f, c, item, flags)
  {
    PartKeeps(f, c, item, onto, clone, k);
    RestFits(f, c, item, onto, clone, k);
    hide PartJoined, Orderly, Joined, Joining, Room, Above;
  }

  lemma JoinedFull(f: Forest<Item>, c: Item, item: Item, onto: Item)
    requires Orderly(f) && MayJoin(f, c, item, Some(onto)) && Stackables(f, onto, item) && f[onto].count < STACK_LIMIT
    requires Joining(f, item, Some(onto), f[item].count) < f[item].count
    ensures var h := Joined(f, c, item, Some(onto), f[item].count);
            && onto in h && h[onto].count == STACK_LIMIT
            && (forall x :: x in f[c].list && x != onto ==> x in f && x in h && h[x].count == f[x].count)
  {
    hide Above;
    assert ListHolds(f, c);
    NotItsOwnParent(f, c, onto);
    forall x | x in f[c].list
      ensures x in f && x != c
    {
      NotItsOwnParent(f, c, x);
    }
    ChangeCells(f, c, onto, STACK_LIMIT);
  }

  /** `internalAddItem` with the index "anywhere": a refusal changes nothing, a success delivers
      every piece and leaves no remainder. */
  method InternalAddItem(ghost W: set<Item>, c: Item, item: Item, flags: Flags, test: bool)
    returns (ret: ReturnValue, remainderCount: nat, ghost W': set<Item>)
    requires c in W && c.box && item in W && item.parent == null && Orderly(View(W)) && Plain(flags)
    modifies W
    ensures W <= W' && fresh(W' - W) && Orderly(View(W')) && remainderCount == 0
    ensures ListIn(old(View(W)), c) && ret == AddVerdict(old(View(W)), c, item, flags)
    ensures ret != NoError || test ==> View(W') == old(View(W))
    ensures ret == NoError && !test ==> Delivered(old(View(W)), View(W'), c, item)
    ensures ret == NoError && !test ==>
              |View(W')[c].list| == |old(View(W))[c].list| + NewSlots(old(View(W)), c, item, flags)
    decreases item.count, 0
  {
    hide NewSlots;
    hide Orderly, Delivered, Above, PushFront, Joined, DestinationSpec, QueryAddSpec, MaxCountSpec;
    ghost var f := View(W);
    W', remainderCount := W, 0;
    OrderlyShaped(f);
    ListsIn(f, c);
    DestinationFacts(f, c, INDEX_WHEREEVER, item, flags);
    HopFacts(f, c, INDEX_WHEREEVER, item, flags);
    var to, index, toItem := QueryDestination(W, c, INDEX_WHEREEVER, item, flags);
    ret := QueryAdd(W, to, index, item, flags);
    if ret != NoError { return; }
    var maxQueryCount;
    ret, maxQueryCount := QueryMaxCount(W, c, INDEX_WHEREEVER, item, item.count, flags);
    if ret != NoError || test { return; }
    VerdictFacts(f, c, item, flags);
    if item.kind.stackable && toItem != null && item.Equals(toItem) {
      var m := Min(item.count, maxQueryCount);
      var n := Join(W, c, item, m, toItem);
      var count: nat := m - n;
      // The joined stack had room, so the rest is always smaller than the item and never the item itself.
      if count > 0 {
        W', remainderCount := AddRest(W, c, item, count, toItem, flags, f);
      } else {
        DeliveredOnto(f, c, item, toItem);
        NoSlotOnto(f, c, item, toItem, flags);
      }
    } else {
      DeliveredInFront(f, c, item);
      AboveItself(f, c);
      OneSlotInFront(f, c, item, flags);
      AddThing(W, c, index, item);
    }
    ret := NoError;
  }

  /** A clone with what is left of the stack is added in turn. */
  method AddRest(ghost W: set<Item>, c: Item, item: Item, count: nat, toItem: Item, flags: Flags, ghost f: Forest<Item>)
    returns (ghost W': set<Item>, remainderCount: nat)
    requires c in W && c.box && item in W && toItem in W && f.Keys == W
    requires Orderly(f) && MayJoin(f, c, item, Some(toItem)) && f[item].parent.None?
    requires View(W) == Joined(f, c, item, Some(toItem), f[item].count)
    requires Stackables(f, toItem, item) && f[toItem].count < STACK_LIMIT
    requires count > 0 && count == f[item].count - Joining(f, item, Some(toItem), f[item].count)
    requires Plain(flags) && !flags.ignoreAutoStack && ListIn(f, c) && AddVerdict(f, c, item, flags) == NoError
    modifies W
    ensures W <= W' && fresh(W' - W) && Orderly(View(W')) && remainderCount == 0
    ensures Delivered(f, View(W'), c, item)
    ensures |View(W')[c].list| == |f[c].list| + NewSlots(f, c, item, flags)
    decreases count, 1
  {
    hide NewSlots;
    hide Orderly, Delivered, Above, Joined, AddVerdict, MayJoin, Stackables;
    remainderCount := 0;
    ghost var h := View(W);
    assert h[item] == item.Look();
    JoinedKeeps(f, c, item, Some(toItem), f[item].count);
    var remainderItem := new Item(item.kind, item.attrs, count, item.box, item.maxSize);
    ghost var k := View(W + {remainderItem});
    assert k == Copied(h, item, count, remainderItem);
    RestAccepted(f, c, item, toItem, remainderItem, k, flags);
    RestTakesSame(f, c, item, toItem, remainderItem, k, flags);
    var added, lost;
    added, lost, W' := InternalAddItem(W + {remainderItem}, c, remainderItem, flags, false);
    if added != NoError {
      remainderCount := count;
    }
    DeliveredInParts(f, c, item, toItem, remainderItem, k, View(W'));
  }

  /** What an accepted item can rely on. */
  lemma VerdictFacts(f: Forest<Item>, c: Item, item: Item, flags: Flags)
    requires Orderly(f) && c in f && f[c].box && item in f && f[item].parent.None? && Plain(flags)
    requires ListIn(f, c) && AddVerdict(f, c, item, flags) == NoError
    ensures var d := DestinationSpec(f, c, INDEX_WHEREEVER, item, flags);
            && !Above(f, item, c)
            && MaxCountSpec(f, c, INDEX_WHEREEVER, item, f[item].count, flags)
               >= (if f[item].kind.stackable then f[item].count else 1)
            && (d.toItem.None? ==> d.index == INDEX_WHEREEVER && |f[c].list| < f[c].capacity)
            && (d.toItem.Some? ==>
                  && f[item].kind.stackable && !flags.ignoreAutoStack && MayJoin(f, c, item, d.toItem)
                  && Stackables(f, d.toItem.value, item) && f[d.toItem.value].count < STACK_LIMIT)
  {
    var d := DestinationSpec(f, c, INDEX_WHEREEVER, item, flags);
    AcceptsIsQuery(f, c, item, d.index, flags);
    PartialFacts(f, f[c].list, item, 0);
    DestinationFacts(f, c, INDEX_WHEREEVER, item, flags);
  }
}
