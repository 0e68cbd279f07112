/** `ContainerIterator`: a breadth-first walk with a queue of containers and a cursor into the
    first of them, and the queries that are answered with it. */
module ContainerIteration {
  import opened Arithmetic
  import opened Collections
  import opened Forests
  import opened Containers

  /** The item lists of the members of s, one after the other. */
  ghost function Flat<N>(f: Forest<N>, s: seq<N>): seq<N> {
    if s == [] then []
    else (if s[0] in f then f[s[0]].list else []) + Flat(f, s[1..])
  }

  /** The members of s that hold anything. */
  ghost function Holders<N>(f: Forest<N>, s: seq<N>): seq<N> {
    if s == [] then []
    else (if s[0] in f && f[s[0]].list != [] then [s[0]] else []) + Holders(f, s[1..])
  }

  lemma {:induction false} FlatAppend<N>(f: Forest<N>, s: seq<N>, t: seq<N>)
    ensures Flat(f, s + t) == Flat(f, s) + Flat(f, t)
  {
    if s == [] {
      assert s + t == t;
    } else {
      assert (s + t)[1..] == s[1..] + t;
      FlatAppend(f, s[1..], t);
    }
  }

  lemma {:induction false} HoldersAppend<N>(f: Forest<N>, s: seq<N>, t: seq<N>)
    ensures Holders(f, s + t) == Holders(f, s) + Holders(f, t)
  {
    if s == [] {
      assert s + t == t;
    } else {
      assert (s + t)[1..] == s[1..] + t;
      HoldersAppend(f, s[1..], t);
    }
  }

  /** The first holder of a list, with nothing held before it. */
  lemma {:induction false} FirstHolder<N>(f: Forest<N>, s: seq<N>) returns (k: nat)
    ensures k <= |s| && Flat(f, s[..k]) == [] && Holders(f, s[k..]) == Holders(f, s)
    ensures Holders(f, s) == [] <==> k == |s|
    ensures k < |s| ==> s[k] in f && f[s[k]].list != []
    ensures k < |s| ==> Holders(f, s)[0] == s[k] && Holders(f, s[k + 1..]) == Holders(f, s)[1..]
  {
    if s == [] || (s[0] in f && f[s[0]].list != []) {
      k := 0;
    } else {
      var j := FirstHolder(f, s[1..]);
      k := j + 1;
      assert s[..k] == [s[0]] + s[1..][..j] && s[k..] == s[1..][j..];
      if Holders(f, s) != [] { assert s[k + 1..] == s[1..][j + 1..]; }
    }
  }

  lemma {:induction false} FlatMember<N>(f: Forest<N>, s: seq<N>, x: N)
    ensures x in Flat(f, s) <==> exists i :: 0 <= i < |s| && s[i] in f && x in f[s[i]].list
  {
    if s != [] {
      FlatMember(f, s[1..], x);
      if exists i :: 0 <= i < |s| && s[i] in f && x in f[s[i]].list {
        var i :| 0 <= i < |s| && s[i] in f && x in f[s[i]].list;
        if i > 0 { assert s[1..][i - 1] == s[i]; }
      }
    }
  }

  /** The walk after some items: which are visited, which containers wait, and where the cursor is. */
  datatype Walk<N> = Walk(visited: seq<N>, done: nat, over: seq<N>, cur: nat)

  /** All of these are in c, or are c. */
  ghost predicate Within<N>(f: Forest<N>, c: N, all: seq<N>) {
    forall i :: 0 <= i < |all| ==> all[i] in f && Above(f, c, all[i])
  }

  ghost predicate Walking<N>(f: Forest<N>, c: N, w: Walk<N>) {
    var all := [c] + w.visited;
    && w.done <= |all|
    && w.over == Holders(f, all[w.done..])
    && (w.over != [] ==> w.done < |all| && all[w.done] == w.over[0] && w.over[0] in f && w.cur < |f[w.over[0]].list|)
    && w.visited == Flat(f, all[..w.done]) + (if w.over == [] then [] else f[w.over[0]].list[..w.cur])
    && NoDup(all)
    && Within(f, c, all)
  }

  lemma WalkStarts<N>(f: Forest<N>, c: N)
    requires c in f
    ensures Walking(f, c, if f[c].list == [] then Walk([], 1, [], 0) else Walk([], 0, [c], 0))
  {
    assert Up(f, Some(c), 0) == Some(c);
    assert [c] + [] == [c];
    assert [c][1..] == [] && [c][0..] == [c];
    assert Flat(f, [c]) == f[c].list + Flat(f, []);
    assert Holders(f, [c]) == (if f[c].list != [] then [c] else []) + Holders(f, []);
    assert [c][..1] == [c];
  }

  /** Every visited item is in a container passed before, or before the cursor. */
  lemma VisitedBefore<N>(f: Forest<N>, c: N, w: Walk<N>, y: N)
    requires Shaped(f) && Walking(f, c, w) && w.over != [] && y in w.visited
    ensures y in f && (f[y].parent != Some(w.over[0]) || exists j :: 0 <= j < w.cur && f[w.over[0]].list[j] == y)
  {
    var all := [c] + w.visited;
    var j :| 0 <= j < |w.visited| && w.visited[j] == y;
    assert all[j + 1] == y;
    if y in Flat(f, all[..w.done]) {
      FlatMember(f, all[..w.done], y);
      var i :| 0 <= i < w.done && all[i] in f && y in f[all[i]].list;
      assert ListHolds(f, all[i]);
    }
  }

  /** The item under the cursor is new, and it is inside c. */
  lemma NextIsNew<N>(f: Forest<N>, c: N, w: Walk<N>)
    requires Shaped(f) && c in f && Walking(f, c, w) && w.over != []
    ensures var x := f[w.over[0]].list[w.cur];
            x in f && x != c && x !in w.visited && Above(f, c, x) && f[x].parent == Some(w.over[0])
  {
    var p := w.over[0];
    var x := f[p].list[w.cur];
    assert ListHolds(f, p) && ([c] + w.visited)[w.done] == p;
    AboveParent(f, c, x);
    NotItsOwnParent(f, p, x);
    forall y | y in w.visited
      ensures y != x
    {
      VisitedBefore(f, c, w, y);
    }
  }

  ghost function Advanced<N>(f: Forest<N>, c: N, w: Walk<N>, x: N, done: nat): Walk<N>
    requires w.over != [] && w.over[0] in f && x in f
  {
    var over := w.over + if f[x].list != [] then [x] else [];
    if w.cur + 1 == |f[w.over[0]].list| then Walk(w.visited + [x], done, over[1..], 0)
    else Walk(w.visited + [x], w.done, over, w.cur + 1)
  }

  lemma TakeMore<T>(s: seq<T>, d: nat, k: nat)
    requires d + k <= |s|
    ensures s[..d + k] == s[..d] + s[d..][..k]
    ensures s[d + k..] == s[d..][k..]
  {
  }

  /** `advance()` keeps the walk going: within a container, ... */
  lemma WalkSteps<N>(f: Forest<N>, c: N, w: Walk<N>)
    requires Shaped(f) && c in f && Walking(f, c, w) && w.over != [] && w.cur + 1 < |f[w.over[0]].list|
    ensures f[w.over[0]].list[w.cur] in f
    ensures Walking(f, c, Advanced(f, c, w, f[w.over[0]].list[w.cur], w.done))
  {
    NextIsNew(f, c, w);
    var p := w.over[0];
    var x := f[p].list[w.cur];
    AllGrows(f, c, w, x);
    assert f[p].list[..w.cur + 1] == f[p].list[..w.cur] + [x];
  }

  /** ... and on to the next one. */
  lemma WalkMovesOn<N>(f: Forest<N>, c: N, w: Walk<N>) returns (done: nat)
    requires Shaped(f) && c in f && Walking(f, c, w) && w.over != [] && w.cur + 1 == |f[w.over[0]].list|
    ensures f[w.over[0]].list[w.cur] in f
    ensures Walking(f, c, Advanced(f, c, w, f[w.over[0]].list[w.cur], done))
  {
    hide Above, Shaped, NoDup, Flat, Holders;
    NextIsNew(f, c, w);
    var p := w.over[0];
    var x := f[p].list[w.cur];
    AllGrows(f, c, w, x);
    done := NextHolder(f, [c] + (w.visited + [x]), w.done);
    assert f[p].list == f[p].list[..w.cur] + [x];
  }

  /** Past the holder at d, the next one in a list; between them nothing is held. */
  lemma NextHolder<N>(f: Forest<N>, all: seq<N>, d: nat) returns (e: nat)
    requires d < |all| && all[d] in f && f[all[d]].list != []
    ensures d < e <= |all| && Flat(f, all[..e]) == Flat(f, all[..d]) + f[all[d]].list
    ensures |Holders(f, all[d..])| > 0 && Holders(f, all[e..]) == Holders(f, all[d..])[1..]
    ensures Holders(f, all[e..]) != [] ==>
      e < |all| && all[e] == Holders(f, all[e..])[0] && all[e] in f && f[all[e]].list != []
  {
    var p, rest := all[d], all[d + 1..];
    assert all[d..] == [p] + rest;
    var k := FirstHolder(f, rest);
    e := d + (1 + k);
    TakeMore(all, d, 1 + k);
    assert all[d..][..1 + k] == [p] + rest[..k] && all[e..] == rest[k..];
    FlatAppend(f, all[..d], [p] + rest[..k]);
    FlatAppend(f, [p], rest[..k]);
    assert Flat(f, [p]) == f[p].list + Flat(f, []);
    HoldersAppend(f, [p], rest);
    assert Holders(f, [p]) == [p] + Holders(f, []);
  }

  lemma Snoc<T>(s: seq<T>, x: T, d: nat)
    requires d <= |s|
    ensures (s + [x])[d..] == s[d..] + [x] && (s + [x])[..d] == s[..d]
    ensures d < |s| ==> (s + [x])[d] == s[d]
    ensures |s + [x]| == |s| + 1 && (s + [x])[|s|] == x
    ensures forall i :: 0 <= i < |s| ==> (s + [x])[i] == s[i]
  {
  }

  lemma Behind<T>(c: T, s: seq<T>, x: T)
    ensures [c] + (s + [x]) == ([c] + s) + [x]
  {
  }

  lemma HoldersOne<N>(f: Forest<N>, x: N)
    requires x in f
    ensures Holders(f, [x]) == if f[x].list != [] then [x] else []
  {
    assert Holders(f, [x][1..]) == [];
  }

  lemma WithinSnoc<N>(f: Forest<N>, c: N, all: seq<N>, x: N)
    requires Within(f, c, all) && x in f && Above(f, c, x)
    ensures Within(f, c, all + [x])
  {
    hide Above;
    Snoc(all, x, 0);
  }

  /** One more visited item joins the queue if it holds anything. */
  lemma AllGrows<N>(f: Forest<N>, c: N, w: Walk<N>, x: N)
    requires Walking(f, c, w) && x in f && x != c && x !in w.visited && Above(f, c, x)
    ensures var all := [c] + w.visited; var all' := [c] + (w.visited + [x]);
            && all' == all + [x] && NoDup(all') && Within(f, c, all')
            && all'[..w.done] == all[..w.done]
            && (w.done < |all| ==> all'[w.done] == all[w.done])
            && Holders(f, all'[w.done..]) == w.over + if f[x].list != [] then [x] else []
  {
    var all := [c] + w.visited;
    assert Holders(f, all[w.done..]) == w.over && NoDup(all) && Within(f, c, all) && x !in all;
    hide Above, Flat, NoDup, Holders, Within, Walking;
    Behind(c, w.visited, x);
    Snoc(all, x, w.done);
    HoldersAppend(f, all[w.done..], [x]);
    HoldersOne(f, x);
    NoDupAppend(all, x);
    WithinSnoc(f, c, all, x);
  }

  lemma NoDupAppend<T>(s: seq<T>, x: T)
    requires NoDup(s) && x !in s
    ensures NoDup(s + [x])
  {
  }

  /** When no container waits any more, the walk has listed everything inside c, breadth first. */
  lemma WalkEnds<N>(f: Forest<N>, c: N, w: Walk<N>)
    requires Shaped(f) && c in f && Walking(f, c, w) && w.over == []
    ensures w.visited == Flat(f, [c] + w.visited)
    ensures forall x :: x in w.visited <==> x in f && x != c && Above(f, c, x)
  {
    hide Shaped, Holders;
    var all := [c] + w.visited;
    var k := FirstHolder(f, all[w.done..]);
    assert all[w.done..][..k] == all[w.done..];
    assert all == all[..w.done] + all[w.done..];
    FlatAppend(f, all[..w.done], all[w.done..]);
    forall x
      ensures x in w.visited <==> x in f && x != c && Above(f, c, x)
    {
      if x in w.visited {
        var i :| 0 <= i < |w.visited| && w.visited[i] == x;
        assert all[i + 1] == x;
      } else if x in f && x != c && Above(f, c, x) {
        var n: nat :| Up(f, Some(x), n) == Some(c);
        InsideIsListed(f, c, w.visited, x, n);
      }
    }
  }

  lemma {:induction false} InsideIsListed<N>(f: Forest<N>, c: N, items: seq<N>, x: N, n: nat)
    requires Shaped(f) && items == Flat(f, [c] + items) && x in f && x != c && Up(f, Some(x), n) == Some(c)
    ensures x in items
    decreases n
  {
    assert n > 0 && ParentHolds(f, x);
    var p := f[x].parent.value;
    if p == c {
      assert ([c] + items)[0] == c;
    } else {
      InsideIsListed(f, c, items, p, n - 1);
      var i :| 0 <= i < |items| && items[i] == p;
      assert ([c] + items)[i + 1] == p;
    }
    FlatMember(f, [c] + items, x);
  }

  /** The iterator object: a queue of containers and a cursor into the first. */
  class ContainerIterator {
    var over: seq<Item>
    var cur: nat
    ghost var visited: seq<Item>
    ghost var done: nat

    ghost function State(): Walk<Item>
      reads this
    {
      Walk(visited, done, over, cur)
    }

    /** `Container::iterator()` */
    constructor (ghost W: set<Item>, c: Item)
      requires c in W
      ensures Walking(View(W), c, State()) && visited == []
    {
      over, cur, visited, done := [], 0, [], 1;
      if c.itemlist != [] {
        over, done := [c], 0;
      }
      new;
      WalkStarts(View(W), c);
    }

    predicate HasNext()
      reads this
    {
      over != []
    }

    /** `operator*` */
    method Current(ghost W: set<Item>, ghost c: Item) returns (item: Item)
      requires c in W && Shaped(View(W)) && Walking(View(W), c, State()) && HasNext()
      ensures item in W && item == over[0].itemlist[cur] && item !in visited
    {
      NextIsNew(View(W), c, State());
      item := over[0].itemlist[cur];
    }

    /** `advance()` */
    method Advance(ghost W: set<Item>, ghost c: Item)
      requires c in W && Shaped(View(W)) && Walking(View(W), c, State()) && HasNext()
      modifies this
      ensures Walking(View(W), c, State())
      ensures visited == old(visited + [over[0].itemlist[cur]])
    {
      ghost var f, w := View(W), State();
      NextIsNew(f, c, w);
      assert cur < |f[over[0]].list|;
      hide Above, NoDup, Flat, Holders, Shaped, Walking;
      var item := over[0].itemlist[cur];
      ghost var next := done;
      if cur + 1 == |over[0].itemlist| {
        next := WalkMovesOn(f, c, w);
      } else {
        WalkSteps(f, c, w);
      }
      assert item.itemlist == f[item].list && over[0].itemlist == f[over[0]].list;
      GoOn(item, next);
    }

    /** The item is queued if it holds anything, and the cursor moves on. */
    method GoOn(item: Item, ghost next: nat)
      requires over != [] && cur < |over[0].itemlist|
      modifies this
      ensures State() ==
        var queue := old(over) + if item.itemlist != [] then [item] else [];
        if old(cur) + 1 == |old(over)[0].itemlist| then Walk(old(visited) + [item], next, queue[1..], 0)
        else Walk(old(visited) + [item], old(done), queue, old(cur) + 1)
    {
      if item.itemlist != [] {
        over := over + [item];
      }
      cur := cur + 1;
      if cur == |over[0].itemlist| {
        over := over[1..];
        cur := 0;
        done := next;
      }
      visited := visited + [item];
    }
  }

  /** The items inside c, at any depth. */
  ghost function Inside(f: Forest<Item>, c: Item): set<Item> {
    set x | x in f && x != c && Above(f, c, x)
  }

  lemma NoDupFits<N>(s: seq<N>, S: set<N>)
    requires NoDup(s) && forall x :: x in s ==> x in S
    ensures |s| <= |S|
    ensures (forall x :: x in S ==> x in s) ==> |s| == |S|
  {
    if s == [] {
      if forall x :: x in S ==> x in s { assert S == {}; }
    } else {
      assert s[0] in S;
      assert forall i :: 0 < i < |s| ==> s[i] != s[0];
      NoDupFits(s[1..], S - {s[0]});
    }
  }

  /** A walk never visits more items than there are. */
  lemma WalkFits(f: Forest<Item>, c: Item, w: Walk<Item>)
    requires Walking(f, c, w)
    ensures |w.visited| < |f.Keys|
    ensures forall x :: x in w.visited ==> x in Inside(f, c)
    ensures NoDup(w.visited)
  {
    var all := [c] + w.visited;
    assert forall i :: 0 <= i < |w.visited| ==> all[i + 1] == w.visited[i];
    assert all[0] == c;
    NoDupFits(all, f.Keys);
  }

  /** `getItems(true)`: every item inside c exactly once, in breadth-first order. */
  method GetItems(ghost W: set<Item>, c: Item) returns (items: seq<Item>)
    requires c in W && Shaped(View(W))
    ensures items == Flat(View(W), [c] + items)
    ensures NoDup(items) && forall x :: x in items <==> x in Inside(View(W), c)
  {
    hide Walking, Shaped, NoDup;
    ghost var f := View(W);
    var it := new ContainerIterator(W, c);
    items := [];
    WalkFits(f, c, it.State());
    while it.HasNext()
      invariant View(W) == f && Walking(f, c, it.State()) && items == it.visited
      invariant |items| < |W|
      decreases |W| - |items|
    {
      var item := it.Current(W, c);
      items := items + [item];
      it.Advance(W, c);
      WalkFits(f, c, it.State());
    }
    WalkEnds(f, c, it.State());
    WalkFits(f, c, it.State());
  }

  /** `getItemHoldingCount()` is the number of items inside c. */
  method GetItemHoldingCount(ghost W: set<Item>, c: Item) returns (counter: nat)
    requires c in W && Shaped(View(W))
    ensures counter == |Inside(View(W), c)|
  {
    hide Walking, Shaped, NoDup;
    ghost var f := View(W);
    var it := new ContainerIterator(W, c);
    counter := 0;
    WalkFits(f, c, it.State());
    while it.HasNext()
      invariant View(W) == f && Walking(f, c, it.State()) && counter == |it.visited|
      invariant counter < |W|
      decreases |W| - counter
    {
      counter := counter + 1;
      it.Advance(W, c);
      WalkFits(f, c, it.State());
    }
    WalkEnds(f, c, it.State());
    WalkFits(f, c, it.State());
    NoDupFits(it.visited, Inside(f, c));
  }

  /** `isHoldingItem(item)` holds exactly for the items inside c. */
  method IsHoldingItem(ghost W: set<Item>, c: Item, item: Item) returns (held: bool)
    requires c in W && Shaped(View(W))
    ensures held <==> item in Inside(View(W), c)
  {
    hide Walking, Shaped, NoDup;
    ghost var f := View(W);
    var it := new ContainerIterator(W, c);
    WalkFits(f, c, it.State());
    while it.HasNext()
      invariant View(W) == f && Walking(f, c, it.State())
      invariant |it.visited| < |W| && item !in it.visited
      decreases |W| - |it.visited|
    {
      var current := it.Current(W, c);
      it.Advance(W, c);
      WalkFits(f, c, it.State());
      if current == item {
        assert item in it.visited;
        return true;
      }
    }
    WalkEnds(f, c, it.State());
    return false;
  }
}
