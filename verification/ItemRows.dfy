/** Saving the item forest of a player as rows `(pid, sid, item)` in breadth-first order, and
    rebuilding it from the rows in descending order of their ids. */
module ItemRows {
  import opened Collections
  import opened ItemTypes

  /** What a row keeps of an item besides its place. */
  datatype Data = Data(itemType: nat, subType: nat, attributes: seq<int>)

  /** An item, or a container with the items in it. */
  datatype Tree =
    | Leaf(data: Data)
    | Box(data: Data, kids: seq<Tree>)

  datatype Row = Row(pid: int, sid: int, data: Data)

  /** The first id handed out; smaller numbers are slots and depots. */
  const FIRST_ID := 101

  /** The numbers that stand for places of the player itself run from `first` to before `end`, but only
      those before `open` exist. A `single` place takes one item and turns away any other. */
  datatype Places = Places(first: int, open: int, end: int, single: bool) {
    predicate Has(p: int) { first <= p < end }

    predicate Open(p: int) { Has(p) && p < open }
  }

  /** The slots of the inventory */
  const INVENTORY := Places(1, 11, 11, true)

  /** The depot chests: a number below 100 is one of a chest, even where there are fewer chests. */
  function Depots(chests: nat): Places {
    Places(0, chests, 100, false)
  }

  /** How many depot chests there are */
  const DEPOT_CHESTS: nat := 1

  /** What the notification that an item has come to a place makes of its data: an equip event may turn it
      into another type. */
  type Equip = (int, Data) -> Data

  /** Chests are not notified. */
  function Unchanged(p: int, data: Data): Data { data }

  /** What a place holds of the items that come to it, the last one coming first. */
  function Placed<T>(places: Places, items: seq<T>): seq<T> {
    if places.single && items != [] then [items[|items| - 1]] else items
  }

  function Kids(t: Tree): seq<Tree> {
    if t.Box? then t.kids else []
  }

  // ----- The rows of one parent -------------------------------------------------------------

  /** The ids of the rows with parent p, in the order of the rows. */
  ghost function KidsOf(rows: seq<Row>, p: int): seq<int> {
    if rows == [] then []
    else (if rows[0].pid == p then [rows[0].sid] else []) + KidsOf(rows[1..], p)
  }

  lemma {:induction false} KidsOfAppend(a: seq<Row>, b: seq<Row>, p: int)
    ensures KidsOf(a + b, p) == KidsOf(a, p) + KidsOf(b, p)
  {
    if a == [] {
      assert a + b == b;
    } else {
      var first := if a[0].pid == p then [a[0].sid] else [];
      KidsOfAppend(a[1..], b, p);
      assert (a + b)[0] == a[0] && (a + b)[1..] == a[1..] + b;
      assert KidsOf(a + b, p) == first + KidsOf(a[1..] + b, p);
      assert KidsOf(a, p) == first + KidsOf(a[1..], p);
      hide KidsOf;
      Assoc(first, KidsOf(a[1..], p), KidsOf(b, p));
    }
  }

  lemma KidsOfOneMore(rows: seq<Row>, r: Row, p: int)
    ensures r.pid == p ==> KidsOf(rows + [r], p) == KidsOf(rows, p) + [r.sid]
    ensures r.pid != p ==> KidsOf(rows + [r], p) == KidsOf(rows, p)
  {
    KidsOfAppend(rows, [r], p);
    assert KidsOf([r], p) == (if r.pid == p then [r.sid] else []) + KidsOf([], p);
  }

  /** The trees with these ids are these trees, in order. */
  ghost predicate Matches(order: seq<Tree>, sids: seq<int>, kids: seq<Tree>) {
    && |sids| == |kids|
    && forall t :: 0 <= t < |sids| ==>
         FIRST_ID <= sids[t] < FIRST_ID + |order| && order[sids[t] - FIRST_ID] == kids[t]
  }

  // ----- Saving -----------------------------------------------------------------------------

  ghost function Size(t: Tree): nat {
    match t
    case Leaf(_) => 1
    case Box(_, kids) => 1 + Sizes(kids)
  }

  ghost function Sizes(ts: seq<Tree>): nat {
    if ts == [] then 0 else Size(ts[0]) + Sizes(ts[1..])
  }

  /** The sizes of the trees of a work list. */
  ghost function Work(containers: seq<(Tree, int)>): nat {
    if containers == [] then 0 else Size(containers[0].0) + Work(containers[1..])
  }

  lemma {:induction false} WorkAppend(a: seq<(Tree, int)>, c: (Tree, int))
    ensures Work(a + [c]) == Work(a) + Size(c.0)
  {
    if a == [] {
      assert a + [c] == [c];
      assert Work([c]) == Size(c.0) + Work([]);
    } else {
      assert (a + [c])[1..] == a[1..] + [c];
      WorkAppend(a[1..], c);
    }
  }

  lemma {:induction false} SizesAppend(a: seq<Tree>, t: Tree)
    ensures Sizes(a + [t]) == Sizes(a) + Size(t)
  {
    if a == [] {
      assert a + [t] == [t];
      assert Sizes([t]) == Size(t) + Sizes([]);
    } else {
      assert (a + [t])[1..] == a[1..] + [t];
      SizesAppend(a[1..], t);
    }
  }

  /** The j-th row describes the j-th tree of the order. */
  ghost predicate Describes(order: seq<Tree>, rows: seq<Row>) {
    && |rows| == |order|
    && forall j :: 0 <= j < |rows| ==>
         rows[j].sid == FIRST_ID + j && rows[j].data == order[j].data
  }

  /** The first rows are the items handed in, with the parent ids handed in. */
  ghost predicate StartsWith(order: seq<Tree>, rows: seq<Row>, itemList: seq<(int, Tree)>) {
    && |itemList| <= |rows| == |order|
    && (forall j :: 0 <= j < |itemList| ==> order[j] == itemList[j].1 && rows[j].pid == itemList[j].0)
    && (forall j :: |itemList| <= j < |rows| ==> rows[j].pid >= FIRST_ID)
  }

  /** The containers among the trees so far with their ids, in order: what the work list holds. */
  ghost function Listed(order: seq<Tree>): seq<(Tree, int)> {
    if order == [] then []
    else
      var n := |order| - 1;
      Listed(order[..n]) + if order[n].Box? then [(order[n], FIRST_ID + n)] else []
  }

  /** The id of the i-th container to be written out; past all ids when there is none. */
  ghost function Next(order: seq<Tree>, i: nat): int {
    if i < |Listed(order)| then Listed(order)[i].1 else FIRST_ID + |order|
  }

  /** The i-th container of the work list is where its id says. */
  lemma {:induction false} ListedAt(order: seq<Tree>, i: nat)
    requires i < |Listed(order)|
    ensures var (t, id) := Listed(order)[i]; FIRST_ID <= id < FIRST_ID + |order| && order[id - FIRST_ID] == t && t.Box?
    decreases |order|
  {
    var n := |order| - 1;
    if i < |Listed(order[..n])| { ListedAt(order[..n], i); }
  }

  /** The ids rise, and the trees between one container of the list and the next are no containers. */
  lemma {:induction false} ListedGap(order: seq<Tree>, i: nat)
    requires i <= |Listed(order)|
    ensures forall j :: 0 <= j < |order| && FIRST_ID + j < Next(order, i) && order[j].Box? ==>
              0 < i && FIRST_ID + j <= Listed(order)[i - 1].1
    ensures 0 < i ==> Listed(order)[i - 1].1 < Next(order, i)
    decreases |order|
  {
    if order != [] {
      var n := |order| - 1;
      if i <= |Listed(order[..n])| { ListedGap(order[..n], i); }
      if 0 < i { ListedAt(order, i - 1); }
      if i < |Listed(order)| { ListedAt(order, i); }
    }
  }

  /** The rows of every tree before `next` are complete; later trees have none yet. */
  ghost predicate WrittenUpTo(order: seq<Tree>, rows: seq<Row>, next: int, part: seq<Tree>) {
    forall j :: 0 <= j < |order| ==> Matches(order, KidsOf(rows, FIRST_ID + j), Due(order, next, part, j))
  }

  /** The rows are a complete breadth-first listing of the item list. */
  ghost predicate Complete(order: seq<Tree>, rows: seq<Row>, itemList: seq<(int, Tree)>) {
    && Describes(order, rows)
    && StartsWith(order, rows, itemList)
    && forall j :: 0 <= j < |order| ==> Matches(order, KidsOf(rows, FIRST_ID + j), Kids(order[j]))
  }

  lemma MatchesGrow(order: seq<Tree>, t: Tree, sids: seq<int>, kids: seq<Tree>)
    requires Matches(order, sids, kids)
    ensures Matches(order + [t], sids, kids)
    ensures Matches(order + [t], sids + [FIRST_ID + |order|], kids + [t])
  {
  }

  /** What the rows of the j-th tree should be while the container `next` is being written. */
  ghost function Due(order: seq<Tree>, next: int, part: seq<Tree>, j: nat): seq<Tree>
    requires j < |order|
  {
    if FIRST_ID + j < next then Kids(order[j]) else if FIRST_ID + j == next then part else []
  }

  /** One more row of the container being written keeps the books. */
  lemma RowAdded(order: seq<Tree>, rows: seq<Row>, next: int, part: seq<Tree>, t: Tree, r: Row)
    requires WrittenUpTo(order, rows, next, part)
    requires PidsBelow(rows, FIRST_ID + |order|)
    requires r.sid == FIRST_ID + |order| && r.pid == next && FIRST_ID <= next < FIRST_ID + |order|
    ensures WrittenUpTo(order + [t], rows + [r], next, part + [t])
  {
    hide KidsOf, Matches, Due;
    forall j | 0 <= j < |order + [t]|
      ensures Matches(order + [t], KidsOf(rows + [r], FIRST_ID + j), Due(order + [t], next, part + [t], j))
    {
      if j < |order| {
        OldRowsGrow(order, rows, next, part, t, r, j);
      } else {
        NewRowEmpty(order, rows, next, part + [t], t, r);
      }
    }
  }

  lemma OldRowsGrow(order: seq<Tree>, rows: seq<Row>, next: int, part: seq<Tree>, t: Tree, r: Row, j: nat)
    requires j < |order| && Matches(order, KidsOf(rows, FIRST_ID + j), Due(order, next, part, j))
    requires r.sid == FIRST_ID + |order| && r.pid == next
    ensures Matches(order + [t], KidsOf(rows + [r], FIRST_ID + j), Due(order + [t], next, part + [t], j))
  {
    hide KidsOf, Matches;
    KidsOfOneMore(rows, r, FIRST_ID + j);
    MatchesGrow(order, t, KidsOf(rows, FIRST_ID + j), Due(order, next, part, j));
  }

  lemma NewRowEmpty(order: seq<Tree>, rows: seq<Row>, next: int, part: seq<Tree>, t: Tree, r: Row)
    requires PidsBelow(rows, FIRST_ID + |order|)
    requires r.pid < FIRST_ID + |order| && next < FIRST_ID + |order|
    ensures Matches(order + [t], KidsOf(rows + [r], FIRST_ID + |order|), Due(order + [t], next, part, |order|))
  {
    hide KidsOf;
    NoKids(rows, FIRST_ID + |order|);
    KidsOfOneMore(rows, r, FIRST_ID + |order|);
  }

  /** So does one more of the rows handed in. */
  lemma TopRowAdded(order: seq<Tree>, rows: seq<Row>, t: Tree, r: Row)
    requires WrittenUpTo(order, rows, FIRST_ID, [])
    requires PidsBelow(rows, FIRST_ID)
    requires r.pid < FIRST_ID
    ensures WrittenUpTo(order + [t], rows + [r], FIRST_ID, [])
  {
    hide KidsOf;
    forall j | 0 <= j < |order + [t]|
      ensures Matches(order + [t], KidsOf(rows + [r], FIRST_ID + j), Due(order + [t], FIRST_ID, [], j))
    {
      NoKids(rows + [r], FIRST_ID + j);
    }
  }

  lemma {:induction false} NoKids(rows: seq<Row>, p: int)
    requires forall j :: 0 <= j < |rows| ==> rows[j].pid != p
    ensures KidsOf(rows, p) == []
  {
    if rows != [] { NoKids(rows[1..], p); }
  }

  /** When a container is finished, everything before the next one is. */
  lemma ContainerFinished(order: seq<Tree>, rows: seq<Row>, i: nat)
    requires i < |Listed(order)|
    requires WrittenUpTo(order, rows, Listed(order)[i].1, Kids(Listed(order)[i].0))
    ensures WrittenUpTo(order, rows, Next(order, i + 1), [])
  {
    var (t, id) := Listed(order)[i];
    var next := Next(order, i + 1);
    ListedAt(order, i);
    hide KidsOf, Matches, Due;
    forall j | 0 <= j < |order|
      ensures Matches(order, KidsOf(rows, FIRST_ID + j), Due(order, next, [], j))
    {
      assert Matches(order, KidsOf(rows, FIRST_ID + j), Due(order, id, Kids(t), j));
      DueNext(order, i, j);
    }
  }

  /** What is due of each tree when a container is finished is what is due before the next. */
  lemma DueNext(order: seq<Tree>, i: nat, j: nat)
    requires i < |Listed(order)| && j < |order|
    ensures Due(order, Listed(order)[i].1, Kids(Listed(order)[i].0), j) == Due(order, Next(order, i + 1), [], j)
  {
    ListedAt(order, i);
    ListedGap(order, i + 1);
    hide Listed, Next;
  }

  lemma NothingWrittenYet(order: seq<Tree>, rows: seq<Row>)
    requires WrittenUpTo(order, rows, FIRST_ID, [])
    ensures WrittenUpTo(order, rows, Next(order, 0), [])
  {
    ListedGap(order, 0);
    hide KidsOf, Matches, Listed, Next;
    forall j | 0 <= j < |order|
      ensures Matches(order, KidsOf(rows, FIRST_ID + j), Due(order, Next(order, 0), [], j))
    {
      assert Matches(order, KidsOf(rows, FIRST_ID + j), Due(order, FIRST_ID, [], j));
    }
  }

  /** A new tree enters the work list if it is a container. */
  lemma ListedGrows(order: seq<Tree>, t: Tree)
    ensures Listed(order + [t]) == Listed(order) + if t.Box? then [(t, FIRST_ID + |order|)] else []
  {
    var s := order + [t];
    assert s != [] && |s| - 1 == |order| && s[..|order|] == order && s[|order|] == t;
  }

  /** No parent id handed in looks like the id of an item. */
  ghost predicate PlainIds(itemList: seq<(int, Tree)>) {
    forall j :: 0 <= j < |itemList| ==> itemList[j].0 < FIRST_ID
  }

  ghost predicate PidsBelow(rows: seq<Row>, bound: int) {
    forall j :: 0 <= j < |rows| ==> rows[j].pid < bound
  }

  lemma PidsGrow(rows: seq<Row>, bound: int, r: Row, bound': int)
    requires PidsBelow(rows, bound) && bound <= bound' && r.pid < bound'
    ensures PidsBelow(rows + [r], bound')
  {
  }

  lemma PidsWiden(rows: seq<Row>, bound: int, bound': int)
    requires PidsBelow(rows, bound) && bound <= bound'
    ensures PidsBelow(rows, bound')
  {
  }

  lemma NothingYet()
    ensures WrittenUpTo([], [], FIRST_ID, []) && Listed([]) == [] && PidsBelow([], FIRST_ID)
  {
  }

  /** The trees handed in */
  ghost function TopTrees(itemList: seq<(int, Tree)>): seq<Tree> {
    seq(|itemList|, i requires 0 <= i < |itemList| => itemList[i].1)
  }

  /** What the containers of the work list hold, one after the other */
  ghost function AllKids(containers: seq<(Tree, int)>): seq<Tree> {
    if containers == [] then []
    else AllKids(containers[..|containers| - 1]) + Kids(containers[|containers| - 1].0)
  }

  /** Breadth-first: the trees handed in, then what the containers hold, in the order of the containers. */
  ghost predicate BreadthFirst(order: seq<Tree>, itemList: seq<(int, Tree)>) {
    order == TopTrees(itemList) + AllKids(Listed(order))
  }

  /** What has been written when i containers are done and part of the next one. */
  ghost predicate SoFar(order: seq<Tree>, itemList: seq<(int, Tree)>, containers: seq<(Tree, int)>, i: nat,
                        part: seq<Tree>) {
    i <= |containers| && order == TopTrees(itemList) + (AllKids(containers[..i]) + part)
  }

  lemma SoFarStarts(order: seq<Tree>, itemList: seq<(int, Tree)>, containers: seq<(Tree, int)>)
    requires |order| == |itemList| && forall j :: 0 <= j < |order| ==> order[j] == itemList[j].1
    ensures SoFar(order, itemList, containers, 0, [])
  {
    assert order == TopTrees(itemList);
    assert AllKids(containers[..0]) == [];
  }

  lemma SoFarGrows(order: seq<Tree>, itemList: seq<(int, Tree)>, containers: seq<(Tree, int)>, i: nat, part: seq<Tree>,
                   t: Tree, more: seq<(Tree, int)>)
    requires SoFar(order, itemList, containers, i, part)
    ensures SoFar(order + [t], itemList, containers + more, i, part + [t])
  {
    assert (containers + more)[..i] == containers[..i];
    hide AllKids, TopTrees;
    Assoc(AllKids(containers[..i]), part, [t]);
    Assoc(TopTrees(itemList), AllKids(containers[..i]) + part, [t]);
  }

  lemma SoFarNext(order: seq<Tree>, itemList: seq<(int, Tree)>, containers: seq<(Tree, int)>, i: nat)
    requires i < |containers| && SoFar(order, itemList, containers, i, Kids(containers[i].0))
    ensures SoFar(order, itemList, containers, i + 1, [])
  {
    assert containers[..i + 1][..i] == containers[..i];
    assert AllKids(containers[..i + 1]) + [] == AllKids(containers[..i + 1]);
  }

  lemma SoFarEnds(order: seq<Tree>, itemList: seq<(int, Tree)>)
    requires SoFar(order, itemList, Listed(order), |Listed(order)|, [])
    ensures BreadthFirst(order, itemList)
  {
    assert Listed(order)[..|Listed(order)|] == Listed(order);
    assert AllKids(Listed(order)) + [] == AllKids(Listed(order));
  }

  /** Everything known between two rows: what has been written, and that i containers are done and
      part of the next one. The last part holds when no number handed in looks like an id. */
  ghost predicate Writing(order: seq<Tree>, rows: seq<Row>, itemList: seq<(int, Tree)>, containers: seq<(Tree, int)>,
                          i: nat, part: seq<Tree>) {
    && Describes(order, rows) && containers == Listed(order) && StartsWith(order, rows, itemList)
    && SoFar(order, itemList, containers, i, part)
    && (PlainIds(itemList) ==> PidsBelow(rows, FIRST_ID + |order|))
  }

  /** The first loop: the items handed in */
  method WriteTops(itemList: seq<(int, Tree)>)
    returns (rows: seq<Row>, containers: seq<(Tree, int)>, runningId: int, ghost order: seq<Tree>)
    ensures Writing(order, rows, itemList, containers, 0, []) && runningId == FIRST_ID - 1 + |order|
    ensures PlainIds(itemList) ==> WrittenUpTo(order, rows, Next(order, 0), [])
  {
    ghost var plain := PlainIds(itemList);
    hide WrittenUpTo, KidsOf, Listed, Matches, PidsBelow;
    containers := [];
    runningId := FIRST_ID - 1;
    rows, order := [], [];
    NothingYet();
    var k := 0;
    while k < |itemList|
      invariant 0 <= k <= |itemList| && |order| == k && runningId == FIRST_ID - 1 + |order|
      invariant Describes(order, rows) && containers == Listed(order)
      invariant forall j :: 0 <= j < k ==> order[j] == itemList[j].1 && rows[j].pid == itemList[j].0
      invariant plain ==> WrittenUpTo(order, rows, FIRST_ID, []) && PidsBelow(rows, FIRST_ID)
    {
      var pid, item := itemList[k].0, itemList[k].1;
      runningId := runningId + 1;
      ListedGrows(order, item);
      if item.Box? {
        containers := containers + [(item, runningId)];
      }
      var row := Row(pid, runningId, item.data);
      if plain {
        TopRowAdded(order, rows, item, row);
        PidsGrow(rows, FIRST_ID, row, FIRST_ID);
      }
      rows, order := rows + [row], order + [item];
      k := k + 1;
    }
    SoFarStarts(order, itemList, containers);
    if plain {
      NothingWrittenYet(order, rows);
      PidsWiden(rows, FIRST_ID, FIRST_ID + |order|);
    }
  }

  lemma RowDescribed(order: seq<Tree>, rows: seq<Row>, itemList: seq<(int, Tree)>, t: Tree, r: Row)
    requires Describes(order, rows) && StartsWith(order, rows, itemList)
    requires r.sid == FIRST_ID + |order| && r.data == t.data && r.pid >= FIRST_ID
    ensures Describes(order + [t], rows + [r]) && StartsWith(order + [t], rows + [r], itemList)
  {
  }

  /** One row of a container. */
  lemma RowWritten(order: seq<Tree>, rows: seq<Row>, itemList: seq<(int, Tree)>, containers: seq<(Tree, int)>,
                   i: nat, part: seq<Tree>, t: Tree, parentId: int)
    requires Writing(order, rows, itemList, containers, i, part) && FIRST_ID <= parentId < FIRST_ID + |order|
    ensures Writing(order + [t], rows + [Row(parentId, FIRST_ID + |order|, t.data)], itemList,
                    containers + (if t.Box? then [(t, FIRST_ID + |order|)] else []), i, part + [t])
  {
    var row := Row(parentId, FIRST_ID + |order|, t.data);
    ListedGrows(order, t);
    SoFarGrows(order, itemList, containers, i, part, t, if t.Box? then [(t, FIRST_ID + |order|)] else []);
    hide SoFar, Listed, PidsBelow, PlainIds, Describes, StartsWith;
    RowDescribed(order, rows, itemList, t, row);
    if PlainIds(itemList) { PidsGrow(rows, FIRST_ID + |order|, row, FIRST_ID + |order| + 1); }
  }

  /** The inner loop: what one container holds. */
  method WriteKids(container: Tree, parentId: int, itemList: seq<(int, Tree)>, rows0: seq<Row>,
                   containers0: seq<(Tree, int)>, runningId0: int, ghost order0: seq<Tree>, ghost i: nat)
    returns (rows: seq<Row>, containers: seq<(Tree, int)>, runningId: int, ghost order: seq<Tree>)
    requires Writing(order0, rows0, itemList, containers0, i, []) && runningId0 == FIRST_ID - 1 + |order0|
    requires i < |containers0| && containers0[i] == (container, parentId) && container.Box?
    requires FIRST_ID <= parentId < FIRST_ID + |order0|
    requires PlainIds(itemList) ==> WrittenUpTo(order0, rows0, parentId, [])
    ensures Writing(order, rows, itemList, containers, i, container.kids) && runningId == FIRST_ID - 1 + |order|
    ensures |order0| <= |order| && i < |containers| && containers[i] == (container, parentId)
    ensures Work(containers[i + 1..]) <= Work(containers0[i + 1..]) + Sizes(container.kids)
    ensures PlainIds(itemList) ==> WrittenUpTo(order, rows, parentId, container.kids)
  {
    ghost var plain := PlainIds(itemList);
    hide Writing, WrittenUpTo, PlainIds;
    rows, containers, runningId, order := rows0, containers0, runningId0, order0;
    var n := 0;
    assert container.kids[..0] == [];
    while n < |container.kids|
      invariant 0 <= n <= |container.kids| && runningId == FIRST_ID - 1 + |order| && |order0| <= |order|
      invariant i < |containers| && containers[i] == (container, parentId)
      invariant Writing(order, rows, itemList, containers, i, container.kids[..n])
      invariant plain ==> WrittenUpTo(order, rows, parentId, container.kids[..n])
      invariant Work(containers[i + 1..]) <= Work(containers0[i + 1..]) + Sizes(container.kids[..n])
    {
      var item := container.kids[n];
      runningId := runningId + 1;
      ghost var part := container.kids[..n];
      assert container.kids[..n + 1] == part + [item];
      SizesAppend(part, item);
      RowWritten(order, rows, itemList, containers, i, part, item, parentId);
      var row := Row(parentId, runningId, item.data);
      if plain {
        WritingDescribes(order, rows, itemList, containers, i, part);
        RowAdded(order, rows, parentId, part, item, row);
      }
      if item.Box? {
        WorkAppend(containers[i + 1..], (item, runningId));
        assert (containers + [(item, runningId)])[i + 1..] == containers[i + 1..] + [(item, runningId)];
        containers := containers + [(item, runningId)];
      } else {
        assert containers + [] == containers;
      }
      rows, order := rows + [row], order + [item];
      n := n + 1;
    }
    assert container.kids[..n] == container.kids;
  }

  lemma WritingDescribes(order: seq<Tree>, rows: seq<Row>, itemList: seq<(int, Tree)>, containers: seq<(Tree, int)>,
                         i: nat, part: seq<Tree>)
    requires Writing(order, rows, itemList, containers, i, part)
    ensures Describes(order, rows) && containers == Listed(order) && StartsWith(order, rows, itemList)
    ensures PlainIds(itemList) ==> PidsBelow(rows, FIRST_ID + |order|)
  {
  }

  lemma WritingNext(order: seq<Tree>, rows: seq<Row>, itemList: seq<(int, Tree)>, containers: seq<(Tree, int)>, i: nat)
    requires i < |containers| && Writing(order, rows, itemList, containers, i, Kids(containers[i].0))
    ensures Writing(order, rows, itemList, containers, i + 1, [])
  {
    SoFarNext(order, itemList, containers, i);
  }

  /** `saveItems` */
  method SaveItems(itemList: seq<(int, Tree)>) returns (rows: seq<Row>, ghost order: seq<Tree>)
    ensures forall k :: 0 <= k < |rows| ==> rows[k].sid == FIRST_ID + k
    ensures Describes(order, rows) && StartsWith(order, rows, itemList) && BreadthFirst(order, itemList)
    ensures PlainIds(itemList) ==> Complete(order, rows, itemList)
  {
    ghost var plain := PlainIds(itemList);
    var containers, runningId;
    rows, containers, runningId, order := WriteTops(itemList);
    var i := 0;
    hide Writing, WrittenUpTo, Next, PlainIds, Listed, BreadthFirst, StartsWith;
    while i < |containers|
      invariant 0 <= i <= |containers| && runningId == FIRST_ID - 1 + |order|
      invariant Writing(order, rows, itemList, containers, i, [])
      invariant plain ==> WrittenUpTo(order, rows, Next(order, i), [])
      decreases Work(containers[i..])
    {
      WritingDescribes(order, rows, itemList, containers, i, []);
      assert containers[i..][1..] == containers[i + 1..];
      ListedAt(order, i);
      NextListed(order, i);
      rows, containers, runningId, order :=
        WriteKids(containers[i].0, containers[i].1, itemList, rows, containers, runningId, order, i);
      WritingDescribes(order, rows, itemList, containers, i, Kids(containers[i].0));
      WritingNext(order, rows, itemList, containers, i);
      if plain { ContainerFinished(order, rows, i); }
      i := i + 1;
    }
    Finished(order, rows, itemList, containers);
  }

  lemma NextListed(order: seq<Tree>, i: nat)
    ensures i < |Listed(order)| ==> Next(order, i) == Listed(order)[i].1
    ensures i == |Listed(order)| ==> Next(order, i) == FIRST_ID + |order|
  {
  }

  lemma Finished(order: seq<Tree>, rows: seq<Row>, itemList: seq<(int, Tree)>, containers: seq<(Tree, int)>)
    requires Writing(order, rows, itemList, containers, |containers|, [])
    requires PlainIds(itemList) ==> WrittenUpTo(order, rows, Next(order, |containers|), [])
    ensures Describes(order, rows) && StartsWith(order, rows, itemList) && BreadthFirst(order, itemList)
    ensures PlainIds(itemList) ==> Complete(order, rows, itemList)
  {
    SoFarEnds(order, itemList);
    NextListed(order, |containers|);
    if PlainIds(itemList) { AllWritten(order, rows); }
  }

  lemma AllWritten(order: seq<Tree>, rows: seq<Row>)
    requires WrittenUpTo(order, rows, FIRST_ID + |order|, [])
    ensures forall j :: 0 <= j < |order| ==> Matches(order, KidsOf(rows, FIRST_ID + j), Kids(order[j]))
  {
    forall j | 0 <= j < |order|
      ensures Matches(order, KidsOf(rows, FIRST_ID + j), Kids(order[j]))
    {
      assert Matches(order, KidsOf(rows, FIRST_ID + j), Due(order, FIRST_ID + |order|, [], j));
    }
  }

  // ----- Loading ----------------------------------------------------------------------------

  function Reversed<T>(s: seq<T>): (r: seq<T>)
    ensures |r| == |s| && forall k :: 0 <= k < |s| ==> r[k] == s[|s| - 1 - k]
  {
    if s == [] then [] else Reversed(s[1..]) + [s[0]]
  }

  lemma ReversedTwice<T>(s: seq<T>)
    ensures Reversed(Reversed(s)) == s
  {
  }

  function ContentOf(lists: map<int, seq<int>>, sid: int): seq<int> {
    if sid in lists then lists[sid] else []
  }

  /** A loaded item with the parent id of its row; its type says whether it was created as a container. */
  datatype Item = Item(pid: int, data: Data, container: bool)

  /** `CreateItem` */
  function CreateItem(types: Types, r: Row): Item {
    Item(r.pid, Renewed(types, r.data), r.data.itemType in types.containers)
  }

  /** The data of an item that is created from these: an item that is no container may change its type. */
  function Renewed(types: Types, d: Data): Data {
    if d.itemType in types.containers then d else d.(itemType := Created(d.itemType))
  }

  /** The rows that become items: those of a known type */
  ghost function Known(types: Types, rows: seq<Row>): seq<Row> {
    if rows == [] then []
    else (if rows[0].data.itemType in types.known then [rows[0]] else []) + Known(types, rows[1..])
  }

  ghost function Ids(rows: seq<Row>): seq<int> {
    seq(|rows|, i requires 0 <= i < |rows| => rows[i].sid)
  }

  /** Every row is in the item map as the item that is created from it. */
  ghost predicate Creates(types: Types, itemMap: map<int, Item>, rows: seq<Row>) {
    forall j :: 0 <= j < |rows| ==> rows[j].sid in itemMap && itemMap[rows[j].sid] == CreateItem(types, rows[j])
  }

  /** The containers have got lists and nothing in them. */
  ghost predicate NothingInside(itemMap: map<int, Item>, lists: map<int, seq<int>>) {
    && (forall sid :: sid in itemMap && itemMap[sid].container ==> sid in lists)
    && (forall sid :: sid in lists ==> lists[sid] == [])
  }

  /** What has been loaded: the items by id, what the containers hold, and what the places of the
      player hold, front first, and what being notified of an item has made of its data there. */
  datatype Memory = Memory(itemMap: map<int, Item>, lists: map<int, seq<int>>, tops: map<int, seq<int>>,
                           worn: map<int, Data>)

  /** The loops of `loadPlayer` that turn rows into items and put the items into one another. */
  class Loader {
    const types: Types
    const places: Places
    const equip: Equip
    var itemMap: map<int, Item>
    /** the ids of the item map, the largest first */
    var ids: seq<int>
    var lists: map<int, seq<int>>
    var tops: map<int, seq<int>>
    var worn: map<int, Data>

    constructor (types: Types, places: Places, equip: Equip)
      ensures this.types == types && this.places == places && this.equip == equip
      ensures itemMap == map[] && ids == [] && lists == map[] && tops == map[] && worn == map[]
    {
      this.types, this.places, this.equip := types, places, equip;
      itemMap, ids, lists, tops, worn := map[], [], map[], map[], map[];
    }

    ghost function Loaded(): Memory
      reads this
    {
      Memory(itemMap, lists, tops, worn)
    }

    /** `loadItems`: an item for each row of a known type, containers empty. */
    method LoadItems(result: seq<Row>)
      requires itemMap == map[] && ids == [] && lists == map[] && tops == map[]
      requires forall i, j :: 0 <= i < j < |result| ==> result[i].sid > result[j].sid
      modifies `itemMap, `ids, `lists
      ensures ids == Ids(Known(types, result)) && Creates(types, itemMap, Known(types, result))
      ensures forall sid :: sid in itemMap <==> sid in ids
      ensures NothingInside(itemMap, lists) && tops == map[]
    {
      hide Known, Created;
      NoneKnown(types, result);
      var i := 0;
      while i < |result|
        invariant 0 <= i <= |result| && tops == map[]
        invariant ids == Ids(Known(types, result[..i])) && Creates(types, itemMap, Known(types, result[..i]))
        invariant forall sid :: sid in itemMap <==> sid in ids
        invariant forall sid :: sid in ids ==> i > 0 && sid >= result[i - 1].sid
        invariant NothingInside(itemMap, lists)
      {
        var row := result[i];
        KnownOneMore(types, result, i);
        if row.data.itemType in types.known {
          var item := CreateItem(types, row);
          assert row.sid !in ids;
          CreatesOneMore(types, itemMap, Known(types, result[..i]), row);
          itemMap, ids := itemMap[row.sid := item], ids + [row.sid];
          if item.container {
            lists := lists[row.sid := []];
          }
        }
        i := i + 1;
      }
      assert result[..i] == result;
    }

    /** The rebuild loop: the item map is walked from the largest id down, and every item goes to the
        front of its slot, its depot or its container. */
    method Rebuild(ghost rows: seq<Row>)
      requires ids == Ids(rows) && Creates(types, itemMap, rows) && NothingInside(itemMap, lists) && tops == map[]
      modifies `lists, `tops, `worn
      ensures TopsHold(places, tops, Reversed(rows)) && ListsHold(places, itemMap, lists, Reversed(rows))
      ensures WornHold(equip, itemMap, tops, worn)
    {
      hide TopsHold, ListsHold, WornHold, KidsOf;
      NothingLoaded(places, itemMap, lists);
      NothingWorn(equip, itemMap, worn);
      var i := 0;
      while i < |ids|
        invariant 0 <= i <= |ids|
        invariant TopsHold(places, tops, Reversed(rows[..i]))
        invariant ListsHold(places, itemMap, lists, Reversed(rows[..i]))
        invariant WornHold(equip, itemMap, tops, worn)
      {
        var sid := ids[i];
        var pid := itemMap[sid].pid;
        ReversedOneMore(rows, i);
        TopsStep(places, tops, Reversed(rows[..i]), rows[i]);
        ListsStep(places, itemMap, lists, Reversed(rows[..i]), rows[i]);
        WornStep(equip, itemMap, tops, worn, sid);
        if places.Has(pid) {
          if places.Open(pid) && !(places.single && ContentOf(tops, pid) != []) {
            tops := tops[pid := [sid] + ContentOf(tops, pid)];
            worn := worn[sid := equip(pid, itemMap[sid].data)];
          }
        } else if pid in itemMap && itemMap[pid].container {
          lists := lists[pid := [sid] + ContentOf(lists, pid)];
        }
        i := i + 1;
      }
      assert rows[..i] == rows;
    }
  }

  /** The items in slots and depots are there by the number of their row, and what they are there is what the
      notification made of them. */
  ghost predicate WornHold(equip: Equip, itemMap: map<int, Item>, tops: map<int, seq<int>>, worn: map<int, Data>) {
    forall p, sid :: sid in ContentOf(tops, p) ==>
      sid in itemMap && itemMap[sid].pid == p && sid in worn && worn[sid] == equip(p, itemMap[sid].data)
  }

  lemma NothingWorn(equip: Equip, itemMap: map<int, Item>, worn: map<int, Data>)
    ensures WornHold(equip, itemMap, map[], worn)
  {
  }

  lemma WornStep(equip: Equip, itemMap: map<int, Item>, tops: map<int, seq<int>>, worn: map<int, Data>, sid: int)
    requires WornHold(equip, itemMap, tops, worn) && sid in itemMap
    ensures var pid := itemMap[sid].pid;
            WornHold(equip, itemMap, tops[pid := [sid] + ContentOf(tops, pid)],
                     worn[sid := equip(pid, itemMap[sid].data)])
  {
    var pid := itemMap[sid].pid;
    var tops', worn' := tops[pid := [sid] + ContentOf(tops, pid)], worn[sid := equip(pid, itemMap[sid].data)];
    forall p, k | k in ContentOf(tops', p)
      ensures k in itemMap && itemMap[k].pid == p && k in worn' && worn'[k] == equip(p, itemMap[k].data)
    {
      assert k in ContentOf(tops, p) || (p == pid && k == sid);
    }
  }

  lemma NoneKnown(types: Types, result: seq<Row>)
    ensures Known(types, result[..0]) == []
  {
  }

  lemma {:induction false} KnownAppend(types: Types, a: seq<Row>, b: seq<Row>)
    ensures Known(types, a + b) == Known(types, a) + Known(types, b)
  {
    if a == [] {
      assert a + b == b;
    } else {
      var first := if a[0].data.itemType in types.known then [a[0]] else [];
      KnownAppend(types, a[1..], b);
      assert (a + b)[0] == a[0] && (a + b)[1..] == a[1..] + b;
      assert Known(types, a + b) == first + Known(types, a[1..] + b);
      hide Known;
      Assoc(first, Known(types, a[1..]), Known(types, b));
    }
  }

  lemma KnownOneMore(types: Types, rows: seq<Row>, i: nat)
    requires i < |rows|
    ensures Known(types, rows[..i + 1]) ==
            Known(types, rows[..i]) + if rows[i].data.itemType in types.known then [rows[i]] else []
  {
    assert rows[..i + 1] == rows[..i] + [rows[i]];
    KnownAppend(types, rows[..i], [rows[i]]);
    assert Known(types, [rows[i]][1..]) == [];
  }

  lemma CreatesOneMore(types: Types, itemMap: map<int, Item>, rows: seq<Row>, r: Row)
    requires Creates(types, itemMap, rows) && r.sid !in Ids(rows)
    ensures Creates(types, itemMap[r.sid := CreateItem(types, r)], rows + [r])
    ensures Ids(rows + [r]) == Ids(rows) + [r.sid]
  {
    forall j | 0 <= j < |rows|
      ensures rows[j].sid != r.sid
    {
      assert Ids(rows)[j] == rows[j].sid;
    }
  }

  /** Choosing the known rows and reversing can be exchanged. */
  lemma {:induction false} KnownReversed(types: Types, rows: seq<Row>)
    ensures Reversed(Known(types, rows)) == Known(types, Reversed(rows))
  {
    if rows != [] {
      KnownReversed(types, rows[1..]);
      KnownAppend(types, Reversed(rows[1..]), [rows[0]]);
      assert Known(types, [rows[0]][1..]) == [];
      hide Known;
      if rows[0].data.itemType in types.known {
        assert ([rows[0]] + Known(types, rows[1..]))[1..] == Known(types, rows[1..]);
      }
    }
  }

  /** Slots and depots hold the rows with their number as parent, and nothing else is one. */
  ghost predicate TopsHold(places: Places, tops: map<int, seq<int>>, rows: seq<Row>) {
    && (forall p :: p in tops ==> places.Open(p))
    && (forall p :: places.Open(p) ==> ContentOf(tops, p) == Placed(places, KidsOf(rows, p)))
  }

  /** Loaded containers hold the rows with their id as parent. */
  ghost predicate ListsHold(places: Places, itemMap: map<int, Item>, lists: map<int, seq<int>>, rows: seq<Row>) {
    forall sid :: sid in itemMap && itemMap[sid].container && !places.Has(sid) ==>
      ContentOf(lists, sid) == KidsOf(rows, sid)
  }

  lemma NothingLoaded(places: Places, itemMap: map<int, Item>, lists: map<int, seq<int>>)
    requires forall sid :: sid in lists ==> lists[sid] == []
    ensures TopsHold(places, map[], Reversed([])) && ListsHold(places, itemMap, lists, Reversed([]))
  {
  }

  lemma ReversedOneMore<T>(s: seq<T>, i: nat)
    requires i < |s|
    ensures Reversed(s[..i + 1]) == [s[i]] + Reversed(s[..i])
  {
  }

  lemma KidsOfFirst(r: Row, rows: seq<Row>, p: int)
    ensures KidsOf([r] + rows, p) == (if r.pid == p then [r.sid] else []) + KidsOf(rows, p)
  {
    assert ([r] + rows)[1..] == rows;
  }

  lemma TopsStep(places: Places, tops: map<int, seq<int>>, rows: seq<Row>, r: Row)
    requires TopsHold(places, tops, rows)
    ensures TopsHold(places,
      if places.Open(r.pid) && !(places.single && ContentOf(tops, r.pid) != [])
      then tops[r.pid := [r.sid] + ContentOf(tops, r.pid)] else tops, [r] + rows)
  {
    hide KidsOf;
    forall p | places.Open(p)
      ensures KidsOf([r] + rows, p) == (if r.pid == p then [r.sid] else []) + KidsOf(rows, p)
    {
      KidsOfFirst(r, rows, p);
    }
  }

  lemma ListsStep(places: Places, itemMap: map<int, Item>, lists: map<int, seq<int>>, rows: seq<Row>, r: Row)
    requires ListsHold(places, itemMap, lists, rows)
    ensures ListsHold(places, itemMap,
      if !places.Has(r.pid) && r.pid in itemMap && itemMap[r.pid].container
      then lists[r.pid := [r.sid] + ContentOf(lists, r.pid)] else lists, [r] + rows)
  {
    hide KidsOf;
    forall sid | sid in itemMap
      ensures KidsOf([r] + rows, sid) == (if r.pid == sid then [r.sid] else []) + KidsOf(rows, sid)
    {
      KidsOfFirst(r, rows, sid);
    }
  }

  // ----- What comes back --------------------------------------------------------------------

  /** The loaded item with this id is the tree. */
  ghost predicate Represents(m: Memory, sid: int, t: Tree)
    decreases t
  {
    && sid in m.itemMap && m.itemMap[sid].data == t.data && m.itemMap[sid].container == t.Box?
    && (t.Box? ==>
          && |ContentOf(m.lists, sid)| == |t.kids|
          && forall i :: 0 <= i < |t.kids| ==> Represents(m, ContentOf(m.lists, sid)[i], t.kids[i]))
  }

  ghost predicate RepresentsAll(m: Memory, sids: seq<int>, ts: seq<Tree>) {
    |sids| == |ts| && forall i :: 0 <= i < |ts| ==> Represents(m, sids[i], ts[i])
  }

  /** The item with this id in a slot or depot is the tree, as it is there now. */
  ghost predicate RepresentsTop(m: Memory, sid: int, t: Tree) {
    && sid in m.worn && m.worn[sid] == t.data
    && sid in m.itemMap && Represents(m, sid, t.(data := m.itemMap[sid].data))
  }

  ghost predicate RepresentsTops(m: Memory, sids: seq<int>, ts: seq<Tree>) {
    |sids| == |ts| && forall i :: 0 <= i < |ts| ==> RepresentsTop(m, sids[i], ts[i])
  }

  /** A loaded item is only one tree. */
  lemma {:induction false} RepresentsOne(m: Memory, sid: int, t: Tree, u: Tree)
    requires Represents(m, sid, t) && Represents(m, sid, u)
    ensures t == u
    decreases t
  {
    if t.Box? {
      forall i | 0 <= i < |t.kids|
        ensures t.kids[i] == u.kids[i]
      {
        RepresentsOne(m, ContentOf(m.lists, sid)[i], t.kids[i], u.kids[i]);
      }
    }
  }

  /** What a tree becomes: nothing if its type is unknown, an item without content if its type is not that
      of a container, and otherwise the container with what its items become. */
  ghost function Revived(types: Types, t: Tree): seq<Tree>
    decreases t, 1
  {
    if t.data.itemType !in types.known then []
    else if t.data.itemType !in types.containers then [Leaf(Renewed(types, t.data))]
    else [Box(t.data, RevivedKids(types, t))]
  }

  ghost function RevivedKids(types: Types, t: Tree): seq<Tree>
    decreases t, 0
  {
    match t
    case Leaf(_) => []
    case Box(_, kids) => RevivedAll(types, kids)
  }

  ghost function RevivedAll(types: Types, ts: seq<Tree>): seq<Tree>
    decreases ts
  {
    if ts == [] then [] else Revived(types, ts[0]) + RevivedAll(types, ts[1..])
  }

  /** The items handed in for one slot or depot, in order. */
  ghost function TopsFor(itemList: seq<(int, Tree)>, p: int): seq<Tree> {
    if itemList == [] then []
    else (if itemList[0].0 == p then [itemList[0].1] else []) + TopsFor(itemList[1..], p)
  }

  /** The trees as they are once a place has been notified of them */
  ghost function Equipped(equip: Equip, p: int, ts: seq<Tree>): (r: seq<Tree>)
    ensures |r| == |ts| && forall i :: 0 <= i < |ts| ==> r[i] == ts[i].(data := equip(p, ts[i].data))
  {
    if ts == [] then [] else [ts[0].(data := equip(p, ts[0].data))] + Equipped(equip, p, ts[1..])
  }

  /** What the place with this number holds after loading. */
  ghost function HeldAt(types: Types, places: Places, equip: Equip, itemList: seq<(int, Tree)>, p: int): seq<Tree> {
    if places.Open(p) then Equipped(equip, p, Placed(places, RevivedAll(types, TopsFor(itemList, p)))) else []
  }

  /** The state after loading the saved rows. */
  ghost predicate LoadedFrom(types: Types, places: Places, equip: Equip, m: Memory, rows: seq<Row>) {
    && WornHold(equip, m.itemMap, m.tops, m.worn)
    && Creates(types, m.itemMap, rows)
    && TopsHold(places, m.tops, rows)
    && ListsHold(places, m.itemMap, m.lists, rows)
  }

  /** The rows of the item list have been loaded. */
  ghost predicate Trip(types: Types, places: Places, order: seq<Tree>, rows: seq<Row>, itemList: seq<(int, Tree)>,
                       m: Memory) {
    && Complete(order, rows, itemList)
    && Creates(types, m.itemMap, Known(types, rows))
    && TopsHold(places, m.tops, Known(types, rows))
    && ListsHold(places, m.itemMap, m.lists, Known(types, rows))
    && places.end <= FIRST_ID
  }

  /** Those of the saved trees that become items */
  ghost function Living(types: Types, order: seq<Tree>, sids: seq<int>): seq<int> {
    if sids == [] then []
    else
      var j := sids[0] - FIRST_ID;
      (if 0 <= j < |order| && order[j].data.itemType in types.known then [sids[0]] else []) +
      Living(types, order, sids[1..])
  }

  /** Every row describes the tree of its id. */
  ghost predicate Named(order: seq<Tree>, rows: seq<Row>) {
    forall j :: 0 <= j < |rows| ==>
      FIRST_ID <= rows[j].sid < FIRST_ID + |order| && rows[j].data == order[rows[j].sid - FIRST_ID].data
  }

  lemma {:induction false} KidsOfKnown(types: Types, order: seq<Tree>, rows: seq<Row>, p: int)
    requires Named(order, rows)
    ensures KidsOf(Known(types, rows), p) == Living(types, order, KidsOf(rows, p))
  {
    if rows != [] {
      var r, rest := rows[0], rows[1..];
      KidsOfKnown(types, order, rest, p);
      KidsOfFirst(r, Known(types, rest), p);
      assert ([r.sid] + KidsOf(rest, p))[1..] == KidsOf(rest, p);
      assert [] + Known(types, rest) == Known(types, rest) && [] + KidsOf(rest, p) == KidsOf(rest, p);
    }
  }

  /** A known row is among the chosen ones. */
  lemma {:induction false} KnownHas(types: Types, rows: seq<Row>, j: nat)
    requires j < |rows| && rows[j].data.itemType in types.known
    ensures rows[j] in Known(types, rows)
  {
    if j > 0 { KnownHas(types, rows[1..], j - 1); }
  }

  lemma DescribedIsNamed(order: seq<Tree>, rows: seq<Row>)
    requires Describes(order, rows)
    ensures Named(order, rows)
  {
  }

  /** What is loaded under the id of a known tree */
  lemma CreatedAt(types: Types, order: seq<Tree>, rows: seq<Row>, itemMap: map<int, Item>, sid: int)
    requires Describes(order, rows) && Creates(types, itemMap, Known(types, rows))
    requires FIRST_ID <= sid < FIRST_ID + |order| && order[sid - FIRST_ID].data.itemType in types.known
    ensures var data := order[sid - FIRST_ID].data;
            && sid in itemMap && itemMap[sid].data == Renewed(types, data)
            && itemMap[sid].container == (data.itemType in types.containers)
  {
    hide Renewed, Known;
    KnownHas(types, rows, sid - FIRST_ID);
  }

  /** What is loaded into it, if it is a container */
  lemma LoadedInto(types: Types, places: Places, order: seq<Tree>, rows: seq<Row>, itemList: seq<(int, Tree)>,
                   m: Memory, sid: int)
    requires Trip(types, places, order, rows, itemList, m)
    requires FIRST_ID <= sid < FIRST_ID + |order| && sid in m.itemMap && m.itemMap[sid].container
    ensures Matches(order, KidsOf(rows, sid), Kids(order[sid - FIRST_ID]))
    ensures ContentOf(m.lists, sid) == Living(types, order, KidsOf(rows, sid))
  {
    hide KidsOf, Matches, TopsHold, StartsWith, ContentOf, Known, Living, Creates, Describes;
    DescribedIsNamed(order, rows);
    KidsOfKnown(types, order, rows, sid);
    var j := sid - FIRST_ID;
    assert Matches(order, KidsOf(rows, FIRST_ID + j), Kids(order[j]));
  }

  /** A saved tree comes back as what it becomes. */
  lemma {:induction false} TreeComesBack(types: Types, places: Places, order: seq<Tree>, rows: seq<Row>,
                                         itemList: seq<(int, Tree)>, m: Memory, sid: int, t: Tree)
    requires Trip(types, places, order, rows, itemList, m)
    requires FIRST_ID <= sid < FIRST_ID + |order| && order[sid - FIRST_ID] == t && t.data.itemType in types.known
    ensures Represents(m, sid, Revived(types, t)[0])
    decreases t, 1
  {
    CreatedAt(types, order, rows, m.itemMap, sid);
    hide Trip, Matches, Living, KidsOf, RevivedAll, Created;
    if m.itemMap[sid].container {
      LoadedInto(types, places, order, rows, itemList, m, sid);
      KidsComeBack(types, places, order, rows, itemList, m, KidsOf(rows, sid), t);
    }
  }

  lemma {:induction false} KidsComeBack(types: Types, places: Places, order: seq<Tree>, rows: seq<Row>,
                                        itemList: seq<(int, Tree)>, m: Memory, sids: seq<int>, t: Tree)
    requires Trip(types, places, order, rows, itemList, m) && Matches(order, sids, Kids(t))
    ensures RepresentsAll(m, Living(types, order, sids), RevivedKids(types, t))
    decreases t, 0
  {
    hide Trip, Represents;
    if t.Box? {
      AllComeBack(types, places, order, rows, itemList, m, sids, t.kids);
    } else {
      NoneLiving(types, order, sids);
    }
  }

  lemma NoneLiving(types: Types, order: seq<Tree>, sids: seq<int>)
    requires Matches(order, sids, [])
    ensures Living(types, order, sids) == []
  {
  }

  /** So do the items of a container or a place. */
  lemma {:induction false} AllComeBack(types: Types, places: Places, order: seq<Tree>, rows: seq<Row>,
                                       itemList: seq<(int, Tree)>, m: Memory, sids: seq<int>, ts: seq<Tree>)
    requires Trip(types, places, order, rows, itemList, m) && Matches(order, sids, ts)
    ensures RepresentsAll(m, Living(types, order, sids), RevivedAll(types, ts))
    decreases ts, 0
  {
    hide Trip, Represents;
    if ts != [] {
      var rest := Living(types, order, sids[1..]);
      AllComeBack(types, places, order, rows, itemList, m, sids[1..], ts[1..]);
      if ts[0].data.itemType in types.known {
        TreeComesBack(types, places, order, rows, itemList, m, sids[0], ts[0]);
        assert Living(types, order, sids) == [sids[0]] + rest;
      } else {
        assert Living(types, order, sids) == rest;
        assert RevivedAll(types, ts) == RevivedAll(types, ts[1..]);
      }
    }
  }

  lemma {:induction false} TopsAreFirst(order: seq<Tree>, rows: seq<Row>, itemList: seq<(int, Tree)>, p: int, k: nat)
    requires Describes(order, rows) && StartsWith(order, rows, itemList) && p < FIRST_ID && k <= |itemList|
    ensures Matches(order, KidsOf(rows[k..], p), TopsFor(itemList[k..], p))
    decreases |itemList| - k
  {
    if k < |itemList| {
      TopsAreFirst(order, rows, itemList, p, k + 1);
      KidsOfFirst(rows[k], rows[k + 1..], p);
      hide Matches, KidsOf;
      assert rows[k..] == [rows[k]] + rows[k + 1..] && itemList[k..][1..] == itemList[k + 1..];
      var sids, ts := KidsOf(rows[k + 1..], p), TopsFor(itemList[k + 1..], p);
      if rows[k].pid == p {
        MatchesFront(order, rows[k].sid, sids, itemList[k].1, ts);
      } else {
        assert [] + sids == sids && [] + ts == ts;
      }
    } else {
      NoKids(rows[k..], p);
    }
  }

  lemma MatchesFront(order: seq<Tree>, sid: int, sids: seq<int>, t: Tree, ts: seq<Tree>)
    requires Matches(order, sids, ts)
    requires FIRST_ID <= sid < FIRST_ID + |order| && order[sid - FIRST_ID] == t
    ensures Matches(order, [sid] + sids, [t] + ts)
  {
  }

  /** Every slot and depot holds what is created of the trees that were saved for it, in order. */
  lemma ForestCreated(types: Types, places: Places, order: seq<Tree>, rows: seq<Row>, itemList: seq<(int, Tree)>,
                      m: Memory, p: int)
    requires Trip(types, places, order, rows, itemList, m) && places.Open(p)
    ensures RepresentsAll(m, ContentOf(m.tops, p), Placed(places, RevivedAll(types, TopsFor(itemList, p))))
  {
    LoadedOnto(types, places, order, rows, itemList, m, p);
    AllComeBack(types, places, order, rows, itemList, m, KidsOf(rows, p), TopsFor(itemList, p));
    hide Living, RevivedAll, KidsOf, TopsFor, Represents, Trip;
  }

  /** Every slot and depot holds what becomes of the trees that were saved for it, in order, once it has been
      notified of them. */
  lemma ForestComesBack(types: Types, places: Places, equip: Equip, order: seq<Tree>, rows: seq<Row>,
                        itemList: seq<(int, Tree)>, m: Memory, p: int)
    requires Trip(types, places, order, rows, itemList, m) && WornHold(equip, m.itemMap, m.tops, m.worn)
    ensures RepresentsTops(m, ContentOf(m.tops, p), HeldAt(types, places, equip, itemList, p))
  {
    if places.Open(p) {
      ForestCreated(types, places, order, rows, itemList, m, p);
      hide Trip, RevivedAll, TopsFor;
      EquippedComeBack(equip, m, p, Placed(places, RevivedAll(types, TopsFor(itemList, p))));
    } else {
      assert ContentOf(m.tops, p) == [] by { TripTops(types, places, order, rows, itemList, m); }
    }
  }

  lemma TripTops(types: Types, places: Places, order: seq<Tree>, rows: seq<Row>, itemList: seq<(int, Tree)>, m: Memory)
    requires Trip(types, places, order, rows, itemList, m)
    ensures TopsHold(places, m.tops, Known(types, rows))
  {
    hide Complete, Creates, ListsHold, TopsHold;
  }

  lemma EquippedComeBack(equip: Equip, m: Memory, p: int, ts: seq<Tree>)
    requires WornHold(equip, m.itemMap, m.tops, m.worn) && RepresentsAll(m, ContentOf(m.tops, p), ts)
    ensures RepresentsTops(m, ContentOf(m.tops, p), Equipped(equip, p, ts))
  {
    var sids := ContentOf(m.tops, p);
    forall i | 0 <= i < |ts|
      ensures RepresentsTop(m, sids[i], Equipped(equip, p, ts)[i])
    {
      DataIs(m, sids[i], ts[i]);
      assert sids[i] in ContentOf(m.tops, p);
      hide Represents;
      assert Equipped(equip, p, ts)[i].(data := ts[i].data) == ts[i];
    }
  }

  lemma DataIs(m: Memory, sid: int, t: Tree)
    requires Represents(m, sid, t)
    ensures sid in m.itemMap && m.itemMap[sid].data == t.data
  {
  }

  lemma LoadedOnto(types: Types, places: Places, order: seq<Tree>, rows: seq<Row>, itemList: seq<(int, Tree)>,
                   m: Memory, p: int)
    requires Trip(types, places, order, rows, itemList, m) && places.Open(p)
    ensures Matches(order, KidsOf(rows, p), TopsFor(itemList, p))
    ensures ContentOf(m.tops, p) == Placed(places, Living(types, order, KidsOf(rows, p)))
  {
    hide KidsOf, Matches, ListsHold, StartsWith, ContentOf, Known, Living, Creates, Describes, TopsFor;
    DescribedIsNamed(order, rows);
    KidsOfKnown(types, order, rows, p);
    TopsAreFirst(order, rows, itemList, p, 0);
    assert rows[0..] == rows && itemList[0..] == itemList;
  }

  /** Every slot and depot holds exactly the trees that were saved for it, in order. */
  ghost predicate Restored(m: Memory, itemList: seq<(int, Tree)>) {
    forall p :: RepresentsTops(m, ContentOf(m.tops, p), TopsFor(itemList, p))
  }

  /** Every item goes to a place of its own, as far as places take only one. */
  ghost predicate HasPlace(places: Places, itemList: seq<(int, Tree)>) {
    && (forall j :: 0 <= j < |itemList| ==> places.Open(itemList[j].0))
    && (places.single ==> forall i, j :: 0 <= i < j < |itemList| ==> itemList[i].0 != itemList[j].0)
  }

  /** Creating the items of the tree anew changes none of them: their types are known, are those of
      containers where they are containers, and are not replaced. */
  ghost predicate Unaltered(types: Types, t: Tree) {
    && t.data.itemType in types.known
    && (t.data.itemType in types.containers <==> t.Box?)
    && match t
       case Leaf(_) => Created(t.data.itemType) == t.data.itemType
       case Box(_, kids) => forall i :: 0 <= i < |kids| ==> Unaltered(types, kids[i])
  }

  /** Neither creating the items of the tree anew nor notifying the place changes any of them: an item at the
      top may be replaced if the notification turns it back. */
  ghost predicate UnalteredAt(types: Types, equip: Equip, p: int, t: Tree) {
    && t.data.itemType in types.known
    && (t.data.itemType in types.containers <==> t.Box?)
    && equip(p, Renewed(types, t.data)) == t.data
    && (t.Box? ==> forall i :: 0 <= i < |t.kids| ==> Unaltered(types, t.kids[i]))
  }

  ghost predicate NoneAltered(types: Types, equip: Equip, itemList: seq<(int, Tree)>) {
    forall j :: 0 <= j < |itemList| ==> UnalteredAt(types, equip, itemList[j].0, itemList[j].1)
  }

  /** Where nothing is notified, that is creation alone. */
  lemma UnchangedUnaltered(types: Types, p: int, t: Tree)
    ensures UnalteredAt(types, Unchanged, p, t) <==> Unaltered(types, t)
  {
  }

  /** What comes back is what was saved exactly if no tree is altered. */
  lemma {:induction false} RevivedIffUnaltered(types: Types, t: Tree)
    ensures Revived(types, t) == [t] <==> Unaltered(types, t)
    decreases t, 1
  {
    if t.Box? { RevivedAllIffUnaltered(types, t.kids); }
  }

  lemma {:induction false} RevivedAllIffUnaltered(types: Types, ts: seq<Tree>)
    ensures |RevivedAll(types, ts)| <= |ts|
    ensures RevivedAll(types, ts) == ts <==> forall i :: 0 <= i < |ts| ==> Unaltered(types, ts[i])
    decreases ts, 0
  {
    if ts != [] {
      var first, rest := Revived(types, ts[0]), RevivedAll(types, ts[1..]);
      RevivedIffUnaltered(types, ts[0]);
      RevivedAllIffUnaltered(types, ts[1..]);
      assert |first| <= 1;
      if RevivedAll(types, ts) == ts {
        assert first == [first[0]] && (first + rest)[0] == ts[0] && (first + rest)[1..] == ts[1..];
      }
      assert (forall i :: 0 <= i < |ts| ==> Unaltered(types, ts[i])) <==>
             Unaltered(types, ts[0]) && forall i :: 0 <= i < |ts[1..]| ==> Unaltered(types, ts[1..][i]);
    }
  }

  lemma {:induction false} EquippedAppend(equip: Equip, p: int, ts: seq<Tree>, us: seq<Tree>)
    ensures Equipped(equip, p, ts + us) == Equipped(equip, p, ts) + Equipped(equip, p, us)
  {
  }

  lemma TopIffUnaltered(types: Types, equip: Equip, p: int, t: Tree)
    ensures Equipped(equip, p, Revived(types, t)) == [t] <==> UnalteredAt(types, equip, p, t)
    ensures |Revived(types, t)| <= 1
  {
    if t.Box? { RevivedAllIffUnaltered(types, t.kids); }
    hide RevivedAll, Renewed, Unaltered;
    var now := Equipped(equip, p, Revived(types, t));
    if |now| == 1 { assert now == [now[0]]; }
  }

  lemma {:induction false} TopsIffUnaltered(types: Types, equip: Equip, p: int, ts: seq<Tree>)
    ensures |RevivedAll(types, ts)| <= |ts|
    ensures Equipped(equip, p, RevivedAll(types, ts)) == ts <==>
            forall i :: 0 <= i < |ts| ==> UnalteredAt(types, equip, p, ts[i])
  {
    if ts != [] {
      var first, rest := Revived(types, ts[0]), RevivedAll(types, ts[1..]);
      TopIffUnaltered(types, equip, p, ts[0]);
      TopsIffUnaltered(types, equip, p, ts[1..]);
      EquippedAppend(equip, p, first, rest);
      assert RevivedAll(types, ts) == first + rest;
      hide Equipped, Revived, RevivedAll, UnalteredAt;
      var a, b := Equipped(equip, p, first), Equipped(equip, p, rest);
      if a + b == ts {
        assert |a| == 1 && (a + b)[0] == ts[0] && (a + b)[1..] == ts[1..];
      }
      assert (forall i :: 0 <= i < |ts| ==> UnalteredAt(types, equip, p, ts[i])) <==>
             UnalteredAt(types, equip, p, ts[0])
             && forall i :: 0 <= i < |ts[1..]| ==> UnalteredAt(types, equip, p, ts[1..][i]);
    }
  }

  /** The places hold what was saved for them exactly if each item has a place of its own and none is altered. */
  lemma HeldIffSaved(types: Types, places: Places, equip: Equip, itemList: seq<(int, Tree)>)
    requires forall j :: 0 <= j < |itemList| ==> places.Open(itemList[j].0)
    ensures (forall p :: HeldAt(types, places, equip, itemList, p) == TopsFor(itemList, p)) <==>
            HasPlace(places, itemList) && NoneAltered(types, equip, itemList)
  {
    hide HeldAt, TopsFor, UnalteredAt;
    if HasPlace(places, itemList) && NoneAltered(types, equip, itemList) {
      forall p
        ensures HeldAt(types, places, equip, itemList, p) == TopsFor(itemList, p)
      {
        HeldAsSaved(types, places, equip, itemList, p);
      }
    } else if !NoneAltered(types, equip, itemList) {
      var j :| 0 <= j < |itemList| && !UnalteredAt(types, equip, itemList[j].0, itemList[j].1);
      AlteredNotHeld(types, places, equip, itemList, j);
    } else {
      var i, j :| 0 <= i < j < |itemList| && itemList[i].0 == itemList[j].0;
      OneOfTwoHeld(types, places, equip, itemList, i, j);
    }
  }

  lemma HeldAsSaved(types: Types, places: Places, equip: Equip, itemList: seq<(int, Tree)>, p: int)
    requires HasPlace(places, itemList) && NoneAltered(types, equip, itemList)
    ensures HeldAt(types, places, equip, itemList, p) == TopsFor(itemList, p)
  {
    hide TopsFor, UnalteredAt, RevivedAll, Equipped;
    NoneAlteredAt(types, equip, itemList, p);
    TopsIffUnaltered(types, equip, p, TopsFor(itemList, p));
    if !places.Open(p) { NoTops(itemList, p); }
    if places.single { AtMostOne(itemList, p); }
  }

  lemma AlteredNotHeld(types: Types, places: Places, equip: Equip, itemList: seq<(int, Tree)>, j: nat)
    requires j < |itemList| && places.Open(itemList[j].0)
    requires !UnalteredAt(types, equip, itemList[j].0, itemList[j].1)
    ensures HeldAt(types, places, equip, itemList, itemList[j].0) != TopsFor(itemList, itemList[j].0)
  {
    hide TopsFor, UnalteredAt, RevivedAll;
    TopsIffUnaltered(types, equip, itemList[j].0, TopsFor(itemList, itemList[j].0));
    TopAmong(itemList, j);
  }

  lemma OneOfTwoHeld(types: Types, places: Places, equip: Equip, itemList: seq<(int, Tree)>, i: nat, j: nat)
    requires i < j < |itemList| && itemList[i].0 == itemList[j].0 && places.single
    ensures HeldAt(types, places, equip, itemList, itemList[i].0) != TopsFor(itemList, itemList[i].0)
  {
    hide TopsFor, RevivedAll;
    TwoTops(itemList, i, j);
  }

  lemma {:induction false} NoneAlteredAt(types: Types, equip: Equip, itemList: seq<(int, Tree)>, p: int)
    requires NoneAltered(types, equip, itemList)
    ensures forall i :: 0 <= i < |TopsFor(itemList, p)| ==> UnalteredAt(types, equip, p, TopsFor(itemList, p)[i])
  {
    hide UnalteredAt;
    if itemList != [] { NoneAlteredAt(types, equip, itemList[1..], p); }
  }

  lemma {:induction false} TopAmong(itemList: seq<(int, Tree)>, j: nat)
    requires j < |itemList|
    ensures itemList[j].1 in TopsFor(itemList, itemList[j].0)
  {
    if j > 0 { TopAmong(itemList[1..], j - 1); }
  }

  lemma {:induction false} AtMostOne(itemList: seq<(int, Tree)>, p: int)
    requires forall i, j :: 0 <= i < j < |itemList| ==> itemList[i].0 != itemList[j].0
    ensures |TopsFor(itemList, p)| <= 1
  {
    if itemList != [] {
      var rest := itemList[1..];
      assert forall i, j :: 0 <= i < j < |rest| ==> rest[i] == itemList[i + 1] && rest[j] == itemList[j + 1];
      AtMostOne(rest, p);
      if itemList[0].0 == p {
        assert forall i :: 0 <= i < |rest| ==> rest[i] == itemList[i + 1];
        NoTops(rest, p);
      }
    }
  }

  lemma {:induction false} TwoTops(itemList: seq<(int, Tree)>, i: nat, j: nat)
    requires i < j < |itemList| && itemList[i].0 == itemList[j].0
    ensures |TopsFor(itemList, itemList[i].0)| > 1
  {
    var p, rest := itemList[i].0, itemList[1..];
    assert |TopsFor(itemList, p)| == (if itemList[0].0 == p then 1 else 0) + |TopsFor(rest, p)|;
    hide TopsFor;
    assert rest[j - 1] == itemList[j];
    if i > 0 {
      assert rest[i - 1] == itemList[i];
      TwoTops(rest, i - 1, j - 1);
    } else {
      TopAmong(rest, j - 1);
    }
  }

  lemma {:induction false} NoTops(itemList: seq<(int, Tree)>, p: int)
    requires forall j :: 0 <= j < |itemList| ==> itemList[j].0 != p
    ensures TopsFor(itemList, p) == []
  {
    if itemList != [] { NoTops(itemList[1..], p); }
  }

  /** An item that is handed in for no existing place is lost. */
  lemma PlacelessIsLost(places: Places, rows: seq<Row>, itemList: seq<(int, Tree)>, m: Memory, j: nat)
    requires TopsHold(places, m.tops, rows) && j < |itemList| && !places.Open(itemList[j].0)
    ensures !Restored(m, itemList)
  {
    var p := itemList[j].0;
    TopAmong(itemList, j);
    hide TopsFor, RepresentsTop;
    assert !RepresentsTops(m, ContentOf(m.tops, p), TopsFor(itemList, p));
  }

  lemma RestoredIffHeld(types: Types, places: Places, equip: Equip, order: seq<Tree>, rows: seq<Row>,
                        itemList: seq<(int, Tree)>, m: Memory)
    requires Trip(types, places, order, rows, itemList, m) && WornHold(equip, m.itemMap, m.tops, m.worn)
    ensures Restored(m, itemList) <==>
            forall p :: HeldAt(types, places, equip, itemList, p) == TopsFor(itemList, p)
  {
    hide Trip, WornHold, HeldAt, TopsFor;
    forall p
      ensures RepresentsTops(m, ContentOf(m.tops, p), TopsFor(itemList, p)) <==>
              HeldAt(types, places, equip, itemList, p) == TopsFor(itemList, p)
    {
      ForestComesBack(types, places, equip, order, rows, itemList, m, p);
      if RepresentsTops(m, ContentOf(m.tops, p), TopsFor(itemList, p)) {
        AllRepresentOne(m, ContentOf(m.tops, p), HeldAt(types, places, equip, itemList, p), TopsFor(itemList, p));
      }
    }
  }

  lemma AllRepresentOne(m: Memory, sids: seq<int>, ts: seq<Tree>, us: seq<Tree>)
    requires RepresentsTops(m, sids, ts) && RepresentsTops(m, sids, us)
    ensures ts == us
  {
    forall i | 0 <= i < |ts|
      ensures ts[i] == us[i]
    {
      var data := m.itemMap[sids[i]].data;
      RepresentsOne(m, sids[i], ts[i].(data := data), us[i].(data := data));
    }
  }

  /** Saving a forest and loading the rows restores it exactly when the numbers handed in with the items are
      places that exist, no place that takes one item is handed in twice, and creating the items anew and
      notifying the places alters none of them. */
  lemma RestoredIffHasPlace(types: Types, places: Places, equip: Equip, order: seq<Tree>, rows: seq<Row>,
                            itemList: seq<(int, Tree)>, m: Memory)
    requires LoadedFrom(types, places, equip, m, Known(types, rows)) && places.end <= FIRST_ID
    requires PlainIds(itemList) ==> Complete(order, rows, itemList)
    ensures Restored(m, itemList) <==> HasPlace(places, itemList) && NoneAltered(types, equip, itemList)
  {
    hide Complete, Known, Restored, NoneAltered, Creates, TopsHold, ListsHold, WornHold;
    if j :| 0 <= j < |itemList| && !places.Open(itemList[j].0) {
      PlacelessIsLost(places, Known(types, rows), itemList, m, j);
    } else {
      RestoredIffHeld(types, places, equip, order, rows, itemList, m);
      HeldIffSaved(types, places, equip, itemList);
    }
  }

  const WORN := Data(2210, 1, [])
  const UNWORN := Data(2207, 1, [])

  /** A worn ring in its slot is created as the ring that is not worn; the slot gets back the worn one exactly
      if an equip event turns it into that again. */
  lemma WornRingComesBack(types: Types, equip: Equip, order: seq<Tree>, rows: seq<Row>, itemList: seq<(int, Tree)>,
                          m: Memory)
    requires itemList == [(9, Leaf(WORN))] && 2210 in types.known && 2210 !in types.containers
    requires Trip(types, INVENTORY, order, rows, itemList, m) && WornHold(equip, m.itemMap, m.tops, m.worn)
    ensures RepresentsTops(m, ContentOf(m.tops, 9), [Leaf(equip(9, UNWORN))])
    ensures Restored(m, itemList) <==> equip(9, UNWORN) == WORN
  {
    var worn := itemList[0].1;
    assert TopsFor(itemList, 9) == [worn] + TopsFor(itemList[1..], 9) == [worn];
    assert RevivedAll(types, [worn]) == Revived(types, worn) + RevivedAll(types, [worn][1..]) == Revived(types, worn);
    ForestComesBack(types, INVENTORY, equip, order, rows, itemList, m, 9);
    assert Equipped(equip, 9, [Leaf(UNWORN)]) == [Leaf(equip(9, UNWORN))];
    RestoredIffHasPlace(types, INVENTORY, equip, order, rows, itemList, m);
    assert UnalteredAt(types, equip, 9, worn) <==> equip(9, UNWORN) == WORN;
  }

  /** An item of a depot whose chest does not exist is lost, although its number is that of a depot. Saving
      hands in numbers of existing chests only, so that such a row is from a server with more of them. */
  lemma ChestlessIsLost(types: Types, order: seq<Tree>, rows: seq<Row>, itemList: seq<(int, Tree)>, m: Memory)
    requires itemList == [(5, Leaf(Data(2148, 1, [])))]
    requires Trip(types, Depots(DEPOT_CHESTS), order, rows, itemList, m)
    requires WornHold(Unchanged, m.itemMap, m.tops, m.worn)
    ensures Depots(DEPOT_CHESTS).Has(5) && !Restored(m, itemList)
    ensures forall p :: ContentOf(m.tops, p) == []
  {
    var places := Depots(DEPOT_CHESTS);
    assert places.Has(5) && !places.Open(itemList[0].0);
    PlacelessIsLost(places, Known(types, rows), itemList, m, 0);
    forall p
      ensures ContentOf(m.tops, p) == []
    {
      ForestComesBack(types, places, Unchanged, order, rows, itemList, m, p);
      if places.Open(p) { NoTops(itemList, p); }
    }
  }

  /** Save, then load what was saved: the whole trip. */
  method SaveAndLoad(itemList: seq<(int, Tree)>, types: Types, places: Places, equip: Equip) returns (loader: Loader)
    requires places.end <= FIRST_ID
    ensures fresh(loader)
    ensures Restored(loader.Loaded(), itemList) <==>
            HasPlace(places, itemList) && NoneAltered(types, equip, itemList)
    ensures PlainIds(itemList) ==> forall p ::
              RepresentsTops(loader.Loaded(), ContentOf(loader.tops, p), HeldAt(types, places, equip, itemList, p))
  {
    var rows, order := SaveItems(itemList);
    loader := LoadRows(types, places, equip, order, rows);
    ghost var m := loader.Loaded();
    Arrives(types, places, equip, order, rows, itemList, m);
  }

  /** Both loops over the rows in descending order of their ids */
  method LoadRows(types: Types, places: Places, equip: Equip, ghost order: seq<Tree>, rows: seq<Row>)
    returns (loader: Loader)
    requires Describes(order, rows)
    ensures fresh(loader) && LoadedFrom(types, places, equip, loader.Loaded(), Known(types, rows))
  {
    hide WornHold;
    var result := Reversed(rows);
    Descending(order, rows);
    loader := new Loader(types, places, equip);
    loader.LoadItems(result);
    loader.Rebuild(Known(types, result));
    ReversedTwice(rows);
    KnownReversed(types, result);
    CreatesReversed(types, loader.itemMap, Known(types, result));
  }

  lemma CreatesReversed(types: Types, itemMap: map<int, Item>, rows: seq<Row>)
    requires Creates(types, itemMap, rows)
    ensures Creates(types, itemMap, Reversed(rows))
  {
  }

  lemma Arrives(types: Types, places: Places, equip: Equip, order: seq<Tree>, rows: seq<Row>,
                itemList: seq<(int, Tree)>, m: Memory)
    requires LoadedFrom(types, places, equip, m, Known(types, rows)) && places.end <= FIRST_ID
    requires PlainIds(itemList) ==> Complete(order, rows, itemList)
    ensures Restored(m, itemList) <==> HasPlace(places, itemList) && NoneAltered(types, equip, itemList)
    ensures PlainIds(itemList) ==> forall p ::
              RepresentsTops(m, ContentOf(m.tops, p), HeldAt(types, places, equip, itemList, p))
  {
    hide WornHold, Restored, NoneAltered, HasPlace;
    RestoredIffHasPlace(types, places, equip, order, rows, itemList, m);
    if PlainIds(itemList) {
      forall p
        ensures RepresentsTops(m, ContentOf(m.tops, p), HeldAt(types, places, equip, itemList, p))
      {
        ForestComesBack(types, places, equip, order, rows, itemList, m, p);
      }
    }
  }

  /** The inventory is restored exactly if every item has a slot number, no slot comes twice, and no item is
      altered when it is created anew and its slot is notified. */
  method SaveAndLoadInventory(itemList: seq<(int, Tree)>, types: Types, equip: Equip) returns (loader: Loader)
    ensures Restored(loader.Loaded(), itemList) <==>
              && (forall j :: 0 <= j < |itemList| ==> 1 <= itemList[j].0 <= 10)
              && (forall i, j :: 0 <= i < j < |itemList| ==> itemList[i].0 != itemList[j].0)
              && NoneAltered(types, equip, itemList)
  {
    hide Restored, NoneAltered;
    loader := SaveAndLoad(itemList, types, INVENTORY, equip);
  }

  /** The depots are restored exactly if every item has the number of an existing chest and no item is
      altered when it is created anew. */
  method SaveAndLoadDepots(itemList: seq<(int, Tree)>, types: Types, chests: nat) returns (loader: Loader)
    ensures Restored(loader.Loaded(), itemList) <==>
              && (forall j :: 0 <= j < |itemList| ==> 0 <= itemList[j].0 < 100 && itemList[j].0 < chests)
              && (forall j :: 0 <= j < |itemList| ==> Unaltered(types, itemList[j].1))
  {
    forall p, t
      ensures UnalteredAt(types, Unchanged, p, t) <==> Unaltered(types, t)
    {
      UnchangedUnaltered(types, p, t);
    }
    hide Restored, UnalteredAt, Unaltered;
    loader := SaveAndLoad(itemList, types, Depots(chests), Unchanged);
  }

  lemma Descending(order: seq<Tree>, rows: seq<Row>)
    requires Describes(order, rows)
    ensures forall i, j :: 0 <= i < j < |rows| ==> Reversed(rows)[i].sid > Reversed(rows)[j].sid
  {
  }
}
