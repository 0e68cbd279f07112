/** When `internalMoveItem` goes ahead, where to, and with how many pieces, in terms of what the containers
    hold. */
module MoveVerdicts {
  import opened Arithmetic
  import opened Collections
  import opened Forests
  import opened Containers
  import opened StackAccounts
  import opened ContainerQueries
  import opened MoveTheory
  import opened MoveEngine

  // ----- Where a move ends up ---------------------------------------------------------------

  /** The item can join this one, and there is room on it. */
  ghost predicate IsPartial(f: Forest<Item>, x: Item, item: Item)
    requires item in f
  {
    x != item && Stackables(f, x, item) && f[x].count < STACK_LIMIT
  }

  /** The index stands for the first partial stack of the container that the item can join. */
  ghost predicate IsFirstPartial(f: Forest<Item>, c: Item, item: Item, index: int)
    requires c in f && item in f
  {
    && 0 <= index < |f[c].list| && IsPartial(f, f[c].list[index], item)
    && forall j :: 0 <= j < index ==> !IsPartial(f, f[c].list[j], item)
  }

  ghost predicate NoPartial(f: Forest<Item>, c: Item, item: Item)
    requires c in f && item in f
  {
    forall j :: 0 <= j < |f[c].list| ==> !IsPartial(f, f[c].list[j], item)
  }

  lemma {:induction false} FirstPartialMeans(f: Forest<Item>, c: Item, item: Item, i: nat)
    requires c in f && item in f && i <= |f[c].list|
    requires forall j :: 0 <= j < i ==> !IsPartial(f, f[c].list[j], item)
    ensures var n := FirstPartial(f, f[c].list, item, i);
            if n.Some? then IsFirstPartial(f, c, item, n.value) else NoPartial(f, c, item)
    decreases |f[c].list| - i
  {
    if i < |f[c].list| && !IsPartial(f, f[c].list[i], item) { FirstPartialMeans(f, c, item, i + 1); }
  }

  /** The item at an index, if there is one */
  ghost function ItemAt(f: Forest<Item>, c: Item, index: int): Option<Item>
    requires c in f
  {
    if 0 <= index < |f[c].list| then Some(f[c].list[index]) else None
  }

  /** An index of 254 means the container around, 255 and any index beyond the capacity mean anywhere; an index
      where a container lies means anywhere in that one. A stack that comes from elsewhere joins the equal partial
      stack at the index, or else the first there is; anything else stays at the index. */
  lemma DestinationMeans(f: Forest<Item>, c: Item, index: int, item: Item, flags: Flags)
    requires Shaped(f) && c in f && f[c].box && item in f && index >= INDEX_WHEREEVER
    ensures ListIn(f, c)
    ensures var d := DestinationSpec(f, c, index, item, flags);
            var i := if index == 255 || index >= f[c].capacity then INDEX_WHEREEVER else index;
            var at := ItemAt(f, c, i);
            var joins := f[item].kind.stackable && !flags.ignoreAutoStack && f[item].parent != Some(c);
            if index == 254 then
              d == Destination(if f[c].parent.Some? then f[c].parent.value else c, INDEX_WHEREEVER, None)
            else if at.Some? && f[at.value].box then d == Destination(at.value, INDEX_WHEREEVER, None)
            else
              && d.cylinder == c && d.toItem == ItemAt(f, c, d.index)
              && (if joins && !(at.Some? && Stackables(f, at.value, item) && f[at.value].count < STACK_LIMIT)
                     && !NoPartial(f, c, item)
                  then IsFirstPartial(f, c, item, d.index) else d.index == i)
  {
    ListsIn(f, c);
    FirstPartialMeans(f, c, item, 0);
  }

  // ----- When it goes ahead -----------------------------------------------------------------

  /** The pieces may leave the container: they are there, and may be moved. */
  ghost predicate MayLeave(f: Forest<Item>, from: Item, item: Item, m: nat, flags: Flags)
    requires from in f && item in f
  {
    && item in f[from].list && 1 <= m && (f[item].kind.stackable ==> m <= f[item].count)
    && (f[item].kind.moveable || flags.ignoreNotMoveable)
  }

  /** The destination is neither the traded item nor in it. */
  ghost predicate NotTraded(f: Forest<Item>, c: Item, trade: Option<Item>) {
    trade.Some? ==> !Above(f, trade.value, c)
  }

  /** What an equal stack at an index can still take */
  ghost function RoomAt(f: Forest<Item>, c: Item, index: int, item: Item): nat
    requires c in f && item in f
  {
    var at := ItemAt(f, c, index);
    if at.Some? && Stackables(f, at.value, item) && f[at.value].count < STACK_LIMIT
    then STACK_LIMIT - f[at.value].count else 0
  }

  lemma {:induction false} RoomIfPartial(f: Forest<Item>, s: seq<Item>, item: Item)
    requires item in f
    ensures Room(f, s, item) == 0 <==> forall j :: 0 <= j < |s| ==> !IsPartial(f, s[j], item)
  {
    if s != [] {
      RoomIfPartial(f, s[1..], item);
      assert (forall j :: 0 <= j < |s| ==> !IsPartial(f, s[j], item)) <==>
             !IsPartial(f, s[0], item) && forall j :: 0 <= j < |s[1..]| ==> !IsPartial(f, s[1..][j], item);
    }
  }

  lemma MayLeaveIsQuery(f: Forest<Item>, from: Item, item: Item, m: nat, flags: Flags)
    requires from in f && item in f
    ensures QueryRemoveSpec(f, from, item, m, flags) == NoError <==> MayLeave(f, from, item, m, flags)
    ensures item in f[from].list && 1 <= m && (f[item].kind.stackable ==> m <= f[item].count)
            && !f[item].kind.moveable && !flags.ignoreNotMoveable ==>
              QueryRemoveSpec(f, from, item, m, flags) == NotMoveable
  {
  }

  /** What a move to an index asks for: as many pieces as wanted, but no more than a hundred for each free slot
      and what an equal stack at the index can take. */
  ghost function Wanted(f: Forest<Item>, d: Destination, item: Item, count: nat): nat
    requires d.cylinder in f && item in f
  {
    Min(count, STACK_LIMIT * FreeSlots(f[d.cylinder]) + RoomAt(f, d.cylinder, d.index, item))
  }

  /** A stack moves to an index exactly if the container takes its kind, the pieces that it has room for may
      leave, and no trade forbids it; just these pieces move then. */
  lemma StackMovesIff(f: Forest<Item>, from: Item, to: Item, index: int, item: Item, count: nat, flags: Flags,
                      trade: Option<Item>)
    requires Orderly(f) && Shaped(f) && from in f && f[from].box && to in f && f[to].box && item in f
    requires index >= INDEX_WHEREEVER && Plain(flags) && f[item].kind.stackable
    requires var (d, fl) := Resolve(f, to, index, item, flags); d.toItem != Some(item) && d.index != INDEX_WHEREEVER
    ensures var (d, fl) := Resolve(f, to, index, item, flags); var c := d.cylinder;
            && c in f
            && var m := Wanted(f, d, item, count); var p := PlanMove(f, from, to, index, item, count, flags, trade);
               && (p.Go? <==> Accepts(f, c, item) && MayLeave(f, from, item, m, fl) && NotTraded(f, c, trade))
               && (p.Go? ==> p == Go(m, d, if m < count then ContainerNotEnoughRoom else NoError))
               && (Accepts(f, c, item) && m == 0 && count > 0 ==> p == Nothing(ContainerNotEnoughRoom))
  {
    var (d, fl) := Resolve(f, to, index, item, flags);
    ResolveFacts(f, to, index, item, flags);
    AcceptsIsQuery(f, d.cylinder, item, d.index, fl);
    MayLeaveIsQuery(f, from, item, Wanted(f, d, item, count), fl);
    RoomAtIndex(f, d.cylinder, d.index, item, fl);
    hide Orderly, Shaped, Resolve, Accepts, MayLeave, QueryAddSpec, QueryRemoveSpec, Above, RoomAt, StackRoom;
    hide WellAimed;
  }

  lemma RoomAtIndex(f: Forest<Item>, c: Item, index: int, item: Item, flags: Flags)
    requires c in f && item in f && index >= 0 && Plain(flags)
    ensures Accepts(f, c, item) ==> StackRoom(f, c, index, item, flags) == RoomAt(f, c, index, item)
    ensures QueryAddSpec(f, c, index, item, flags) == NoError <==> Accepts(f, c, item)
  {
    AcceptsIsQuery(f, c, item, index, flags);
    hide QueryAddSpec, Accepts;
  }

  /** A stack that is not headed for an index needs a free slot and moves as a whole count; of more than a
      hundred pieces a full stack moves into the last slot, if no stack there can be joined. */
  lemma StackMovesAnywhereIff(f: Forest<Item>, from: Item, to: Item, index: int, item: Item, count: nat, flags: Flags,
                              trade: Option<Item>)
    requires Orderly(f) && Shaped(f) && from in f && f[from].box && to in f && f[to].box && item in f
    requires index >= INDEX_WHEREEVER && Plain(flags) && f[item].kind.stackable
    requires var (d, fl) := Resolve(f, to, index, item, flags); d.index == INDEX_WHEREEVER
    ensures var (d, fl) := Resolve(f, to, index, item, flags); var c := d.cylinder;
            && c in f
            && var m := Min(count, STACK_LIMIT); var p := PlanMove(f, from, to, index, item, count, flags, trade);
               && (p.Go? <==>
                     && Accepts(f, c, item) && |f[c].list| < f[c].capacity && MayLeave(f, from, item, m, fl)
                     && NotTraded(f, c, trade)
                     && (count <= STACK_LIMIT || (FreeSlots(f[c]) == 1 && NoPartial(f, c, item))))
               && (p.Go? ==> p == Go(m, d, if m < count then ContainerNotEnoughRoom else NoError))
  {
    var (d, fl) := Resolve(f, to, index, item, flags);
    var c := d.cylinder;
    ResolveFacts(f, to, index, item, flags);
    assert d.toItem.None?;
    assert StackOk(f[item]);
    AcceptsIsQuery(f, c, item, INDEX_WHEREEVER, fl);
    AcceptsIsQuery(f, c, item, 0, fl);
    RoomIfPartial(f, f[c].list, item);
    MayLeaveIsQuery(f, from, item, Min(count, MaxCountSpec(f, c, d.index, item, count, fl)), fl);
    MayLeaveIsQuery(f, from, item, Min(count, STACK_LIMIT), fl);
    hide Orderly, Shaped, Resolve, Accepts, QueryAddSpec, QueryRemoveSpec, Above, Room, WellAimed, IsPartial;
  }

  /** Any other item moves exactly if there is a free slot for it. */
  lemma ItemMovesIff(f: Forest<Item>, from: Item, to: Item, index: int, item: Item, count: nat, flags: Flags,
                     trade: Option<Item>)
    requires Orderly(f) && Shaped(f) && from in f && f[from].box && to in f && f[to].box && item in f
    requires index >= INDEX_WHEREEVER && Plain(flags) && !f[item].kind.stackable
    requires Resolve(f, to, index, item, flags).0.toItem != Some(item)
    ensures var (d, fl) := Resolve(f, to, index, item, flags); var c := d.cylinder;
            && c in f
            && var p := PlanMove(f, from, to, index, item, count, flags, trade);
               && (p.Go? <==>
                     && Accepts(f, c, item) && |f[c].list| < f[c].capacity && MayLeave(f, from, item, 1, fl)
                     && NotTraded(f, c, trade))
               && (p.Go? ==> p.to == d && p.ret == NoError)
  {
    var (d, fl) := Resolve(f, to, index, item, flags);
    ResolveFacts(f, to, index, item, flags);
    AcceptsIsQuery(f, d.cylinder, item, d.index, fl);
    MayLeaveIsQuery(f, from, item, FreeSlots(f[d.cylinder]), fl);
    hide Orderly, Shaped, Resolve, Accepts, QueryAddSpec, QueryRemoveSpec, Above, WellAimed;
  }

  /** An item stays where it is, and that is no error, if it is headed for itself. */
  lemma OntoItself(f: Forest<Item>, from: Item, to: Item, index: int, item: Item, count: nat, flags: Flags,
                   trade: Option<Item>)
    requires Shaped(f) && from in f && to in f && f[to].box && item in f
    requires Resolve(f, to, index, item, flags).0.toItem == Some(item)
    ensures PlanMove(f, from, to, index, item, count, flags, trade) == Nothing(NoError)
  {
  }

  // ----- What a move leaves behind ----------------------------------------------------------

  /** How many of m pieces go onto a stack */
  ghost function Onto(f: Forest<Item>, item: Item, onto: Option<Item>, m: nat): nat
    requires item in f
  {
    if onto.Some? && Stackables(f, onto.value, item) && f[onto.value].count < STACK_LIMIT
    then Min(STACK_LIMIT - f[onto.value].count, m) else 0
  }

  /** Pieces that arrive fill up the stack that they can join; only what is then left takes a slot, in front. */
  lemma ArrivedFills(f: Forest<Item>, c: Item, item: Item, onto: Option<Item>, m: nat, copy: Item)
    requires Orderly(f) && MayJoin(f, c, item, onto) && copy !in f && 1 <= m <= STACK_LIMIT
    requires SlotLeft(f, c, item, onto, m)
    ensures var g := Arrived(f, c, item, onto, m, copy); var n := Onto(f, item, onto, m);
            && c in g && (onto.Some? ==> onto.value in g && g[onto.value].count == f[onto.value].count + n)
            && (if n < m then copy in g && g[copy].count == m - n && g[c].list == [copy] + f[c].list
                else g[c].list == f[c].list)
  {
    var h := Joined(f, c, item, onto, m);
    var n := Onto(f, item, onto, m);
    OntoIsJoining(f, c, item, onto, m);
    ArrivedKeeps(f, c, item, onto, m, copy);
    JoinedKeeps(f, c, item, onto, m);
    ArrivedInParts(f, h, Arrived(f, c, item, onto, m, copy), c, item, onto, m, copy);
    hide Orderly, Joined, Joining, Onto, SplitOff, SlotLeft, Arrived;
    if n < m { SplitCount(h, c, item, m - n, copy); }
  }

  lemma OntoIsJoining(f: Forest<Item>, c: Item, item: Item, onto: Option<Item>, m: nat)
    requires Orderly(f) && MayJoin(f, c, item, onto)
    ensures Onto(f, item, onto, m) == Joining(f, item, onto, m)
    ensures onto.Some? ==>
              && onto.value in f && onto.value in Joined(f, c, item, onto, m) && onto.value != c
              && Joined(f, c, item, onto, m)[onto.value].count == f[onto.value].count + Onto(f, item, onto, m)
  {
    if onto.Some? {
      assert StackOk(f[onto.value]) && ListHolds(f, c);
      NotItsOwnParent(f, c, onto.value);
      hide Orderly, Change;
      if Stackables(f, onto.value, item) { JoinKeeps(f, c, item, onto.value, m); }
    }
  }

  lemma SplitCount(f: Forest<Item>, c: Item, item: Item, n: nat, copy: Item)
    requires c in f && item in f && copy !in f
    ensures SplitOff(f, c, item, n, copy)[copy].count == n
    ensures forall x :: x in f ==> SplitOff(f, c, item, n, copy)[x].count == f[x].count
  {
    PushFrontCells(Copied(f, item, n, copy), c, copy);
  }

  /** The same for a whole move from another container. */
  lemma MovedFills(f: Forest<Item>, from: Item, c: Item, item: Item, onto: Option<Item>, m: nat, copy: Item)
    requires Orderly(f) && MayMove(f, from, c, item, onto, m) && f[item].kind.stackable && from != c && copy !in f
    ensures var g := Moved(f, from, c, item, onto, m, copy); var n := Onto(f, item, onto, m);
            && c in g && (onto.Some? ==> onto.value in g && g[onto.value].count == f[onto.value].count + n)
            && (if n < m then copy in g && g[copy].count == m - n && g[c].list == [copy] + f[c].list
                else g[c].list == f[c].list)
  {
    var k := RemoveSpec(f, from, item, m);
    TakenOut(f, from, item, m);
    StillMayJoin(f, from, c, item, onto, m);
    assert StackOk(f[item]) && k[c].list == f[c].list;
    if onto.Some? { NotFrom(f, from, c, item, onto.value); }
    hide Orderly, Arrived, RemoveSpec;
    ArrivedFills(k, c, item, onto, m, copy);
  }

  lemma NotFrom(f: Forest<Item>, from: Item, c: Item, item: Item, onto: Item)
    requires Orderly(f) && from in f && c in f && onto in f && !f[onto].box && f[from].box
    ensures onto != from
  {
  }

  /** An item of a container is removed exactly if it is there in so many pieces; that it may not be moved is
      ignored. */
  lemma RemovedIff(f: Forest<Item>, item: Item, n: nat, flags: Flags)
    requires Shaped(f) && item in f
    ensures RemovalSpec(f, item, n, flags) == NoError <==>
            && f[item].parent.Some? && f[item].parent.value in f && item in f[f[item].parent.value].list
            && 1 <= n && (f[item].kind.stackable ==> n <= f[item].count)
    ensures RemovalSpec(f, item, n, flags) in {NoError, NotPossible}
  {
    assert ParentHolds(f, item);
  }
}
