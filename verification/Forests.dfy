/** The values behind the item containers: what one item holds, how items hang together as an
    ordered forest with parent links, and how the cached container weights follow a change. */
module Forests {
  import opened Arithmetic
  import opened Collections

  /** Arithmetic on a `uint32_t` wraps modulo 2^32. */
  function Wrap(x: int): (r: nat)
    ensures r < TWO_32
  {
    x % TWO_32
  }

  datatype WeaponType = Ammo | Quiver | OtherWeapon

  /** The row of the item type table that an item id selects. */
  datatype Kind = Kind(id: nat, weight: nat, stackable: bool, pickupable: bool, moveable: bool, weapon: WeaponType)

  /** The attributes of an item; a weight attribute overrides the weight of the type. */
  datatype Attrs = Attrs(weight: Option<nat>, others: seq<int>)

  /** Everything the model keeps of one item. Only a `box` (a container) uses the last four fields. */
  datatype Cell<N> = Cell(
    kind: Kind, attrs: Attrs, count: nat, parent: Option<N>,
    box: bool, capacity: nat, list: seq<N>, total: nat, ammo: nat)

  type Forest<N> = map<N, Cell<N>>

  function BaseWeight(kind: Kind, attrs: Attrs): nat {
    if attrs.weight.Some? then attrs.weight.value else kind.weight
  }

  /** The weight of a stack or of an empty container, before wrapping. */
  function StackWeight(kind: Kind, attrs: Attrs, count: nat): int {
    if kind.stackable then BaseWeight(kind, attrs) * (if count < 1 then 1 else count) else BaseWeight(kind, attrs)
  }

  function WeightOf<N>(c: Cell<N>): nat {
    Wrap(StackWeight(c.kind, c.attrs, c.count) + if c.box then c.total else 0)
  }

  ghost function SumWeight<N>(f: Forest<N>, s: seq<N>): int {
    if s == [] then 0
    else (if s[0] in f then WeightOf(f[s[0]]) else 0) + SumWeight(f, s[1..])
  }

  ghost function SumCount<N>(f: Forest<N>, s: seq<N>): int {
    if s == [] then 0
    else (if s[0] in f then f[s[0]].count else 0) + SumCount(f, s[1..])
  }

  // ----- The shape of the forest ------------------------------------------------------------

  /** The n-th ancestor of x; `None` once the walk has left the forest. */
  ghost function Up<N>(f: Forest<N>, x: Option<N>, n: nat): Option<N>
    decreases n
  {
    if n == 0 then x
    else if x.None? || x.value !in f then None
    else Up(f, f[x.value].parent, n - 1)
  }

  ghost predicate Rooted<N>(f: Forest<N>, x: N) {
    exists n: nat :: Up(f, Some(x), n) == None
  }

  /** y is x itself or one of the containers around x. */
  ghost predicate Above<N>(f: Forest<N>, y: N, x: N) {
    exists n: nat :: Up(f, Some(x), n) == Some(y)
  }

  ghost predicate ParentHolds<N>(f: Forest<N>, x: N)
    requires x in f
  {
    f[x].parent.Some? ==>
      f[x].parent.value in f && f[f[x].parent.value].box && x in f[f[x].parent.value].list
  }

  ghost predicate ListHolds<N>(f: Forest<N>, p: N)
    requires p in f
  {
    && (forall i :: 0 <= i < |f[p].list| ==> f[p].list[i] in f && f[f[p].list[i]].parent == Some(p))
    && NoDup(f[p].list)
    && (f[p].box ==> !f[p].kind.stackable)
    && (!f[p].box ==> f[p].list == [])
  }

  /** Parent links and item lists agree, and no item is inside itself. */
  ghost predicate Shaped<N>(f: Forest<N>) {
    && (forall x {:trigger ParentHolds(f, x)} :: x in f ==> ParentHolds(f, x))
    && (forall x {:trigger ListHolds(f, x)} :: x in f ==> ListHolds(f, x))
    && (forall x {:trigger Rooted(f, x)} :: x in f ==> Rooted(f, x))
  }

  /** The cached total of p plus `due` is the weight of what p directly holds. */
  ghost predicate Weighed<N>(f: Forest<N>, p: N, due: int)
    requires p in f
  {
    f[p].box ==> Wrap(f[p].total + due) == Wrap(SumWeight(f, f[p].list)) && f[p].total < TWO_32
  }

  ghost predicate Counted<N>(f: Forest<N>, p: N)
    requires p in f
  {
    f[p].box ==> f[p].ammo == Wrap(SumCount(f, f[p].list))
  }

  /** Every container's cached weight is exact, except that c still owes `due`. */
  ghost predicate Owing<N>(f: Forest<N>, c: N, due: int) {
    forall p {:trigger Weighed(f, p, 0)} {:trigger Weighed(f, p, due)} :: p in f ==>
      Weighed(f, p, if p == c then due else 0)
  }

  ghost predicate Balanced<N>(f: Forest<N>) {
    forall p {:trigger Weighed(f, p, 0)} :: p in f ==> Weighed(f, p, 0)
  }

  ghost predicate Consistent<N>(f: Forest<N>) {
    && Shaped(f)
    && Balanced(f)
    && (forall p {:trigger Counted(f, p)} :: p in f ==> Counted(f, p))
  }

  // ----- Ancestor chains --------------------------------------------------------------------

  ghost function ParentOf<N>(f: Forest<N>, x: Option<N>): Option<N> {
    if x.None? || x.value !in f then None else f[x.value].parent
  }

  lemma {:induction false} UpStep<N>(f: Forest<N>, x: Option<N>, n: nat)
    ensures Up(f, x, n + 1) == ParentOf(f, Up(f, x, n))
    decreases n
  {
    if n > 0 && x.Some? && x.value in f {
      UpStep(f, f[x.value].parent, n - 1);
    } else if n > 0 {
    }
  }

  lemma {:induction false} UpAdd<N>(f: Forest<N>, x: Option<N>, m: nat, n: nat)
    ensures Up(f, x, m + n) == Up(f, Up(f, x, m), n)
    decreases m
  {
    if m > 0 {
      if x.Some? && x.value in f {
        UpAdd(f, f[x.value].parent, m - 1, n);
      } else {
        UpNone(f, n);
      }
    }
  }

  lemma {:induction false} UpNone<N>(f: Forest<N>, n: nat)
    ensures Up(f, None, n) == None
  {
    if n > 0 {}
  }

  /** A walk that has returned to its start never ends. */
  lemma {:induction false} LoopNeverEnds<N>(f: Forest<N>, x: N, m: nat, n: nat)
    requires m > 0 && Up(f, Some(x), m) == Some(x)
    ensures Up(f, Some(x), n) != None
    decreases n
  {
    if n < m {
      UpNone(f, m - n);
      UpAdd(f, Some(x), n, m - n);
    } else {
      UpAdd(f, Some(x), m, n - m);
      LoopNeverEnds(f, x, m, n - m);
    }
  }

  /** The containers around an item of a shaped forest are pairwise distinct. */
  lemma UpDistinct<N>(f: Forest<N>, x: N, i: nat, j: nat)
    requires Rooted(f, x) && i < j && Up(f, Some(x), i).Some?
    ensures Up(f, Some(x), i) != Up(f, Some(x), j)
  {
    if Up(f, Some(x), i) == Up(f, Some(x), j) {
      var y := Up(f, Some(x), i).value;
      var n: nat :| Up(f, Some(x), n) == None;
      UpAdd(f, Some(x), i, j - i);
      if n < i {
        UpAdd(f, Some(x), n, i - n);
        UpNone(f, i - n);
      } else {
        UpAdd(f, Some(x), i, n - i);
        LoopNeverEnds(f, y, j - i, n - i);
      }
    }
  }

  lemma UpStaysIn<N>(f: Forest<N>, x: N, n: nat)
    requires Shaped(f) && x in f
    ensures Up(f, Some(x), n).Some? ==> Up(f, Some(x), n).value in f
  {
    if n > 0 {
      UpStep(f, Some(x), n - 1);
      UpStaysIn(f, x, n - 1);
      assert forall y :: y in f ==> ParentHolds(f, y);
    }
  }

  /** Anything above an item other than itself is above the container it is in. */
  lemma AboveParent<N>(f: Forest<N>, y: N, x: N)
    requires x in f
    ensures Above(f, y, x) <==> y == x || (f[x].parent.Some? && Above(f, y, f[x].parent.value))
  {
    if Above(f, y, x) && y != x {
      var n: nat :| Up(f, Some(x), n) == Some(y);
      assert Up(f, f[x].parent, n - 1) == Some(y);
      UpNone(f, n - 1);
    }
    if y == x {
      assert Up(f, Some(x), 0) == Some(y);
    }
    if f[x].parent.Some? && Above(f, y, f[x].parent.value) {
      var n: nat :| Up(f, f[x].parent, n) == Some(y);
      assert Up(f, Some(x), n + 1) == Some(y);
    }
  }

  /** A parent link is never above itself: no container holds one of its ancestors. */
  lemma NotAboveParent<N>(f: Forest<N>, x: N)
    requires x in f && Rooted(f, x) && f[x].parent.Some?
    ensures !Above(f, x, f[x].parent.value)
  {
    if Above(f, x, f[x].parent.value) {
      var n: nat :| Up(f, f[x].parent, n) == Some(x);
      assert Up(f, Some(x), n + 1) == Some(x);
      UpDistinct(f, x, 0, n + 1);
    }
  }

  /** Chains depend on the parent links alone. */
  lemma {:induction false} UpFrame<N>(f: Forest<N>, g: Forest<N>, x: Option<N>, n: nat)
    requires f.Keys == g.Keys
    requires forall y :: y in f ==> f[y].parent == g[y].parent
    ensures Up(f, x, n) == Up(g, x, n)
    decreases n
  {
    if n > 0 && x.Some? && x.value in f {
      UpFrame(f, g, f[x.value].parent, n - 1);
    }
  }

  lemma AboveFrame<N>(f: Forest<N>, g: Forest<N>)
    requires f.Keys == g.Keys
    requires forall y :: y in f ==> f[y].parent == g[y].parent
    ensures forall y, x :: Above(f, y, x) <==> Above(g, y, x)
    ensures forall x :: Rooted(f, x) <==> Rooted(g, x)
  {
    forall x, n: nat
      ensures Up(f, Some(x), n) == Up(g, Some(x), n)
    {
      UpFrame(f, g, Some(x), n);
    }
  }

  // ----- Sums over item lists ---------------------------------------------------------------

  lemma {:induction false} SumFrame<N>(f: Forest<N>, g: Forest<N>, s: seq<N>)
    requires forall i :: 0 <= i < |s| ==>
      (s[i] in f <==> s[i] in g) && (s[i] in f ==> WeightOf(f[s[i]]) == WeightOf(g[s[i]]))
    ensures SumWeight(f, s) == SumWeight(g, s)
  {
    if s != [] { SumFrame(f, g, s[1..]); }
  }

  lemma {:induction false} CountFrame<N>(f: Forest<N>, g: Forest<N>, s: seq<N>)
    requires forall i :: 0 <= i < |s| ==>
      (s[i] in f <==> s[i] in g) && (s[i] in f ==> f[s[i]].count == g[s[i]].count)
    ensures SumCount(f, s) == SumCount(g, s)
  {
    if s != [] { CountFrame(f, g, s[1..]); }
  }

  /** When one member of a list changes, the sums change by what it changed. */
  lemma {:induction false} SumChange<N>(f: Forest<N>, g: Forest<N>, s: seq<N>, k: nat)
    requires k < |s| && NoDup(s)
    requires forall i :: 0 <= i < |s| ==> s[i] in f && s[i] in g
    requires forall i :: 0 <= i < |s| && i != k ==>
               WeightOf(f[s[i]]) == WeightOf(g[s[i]]) && f[s[i]].count == g[s[i]].count
    ensures SumWeight(g, s) == SumWeight(f, s) - WeightOf(f[s[k]]) + WeightOf(g[s[k]])
    ensures SumCount(g, s) == SumCount(f, s) - f[s[k]].count + g[s[k]].count
  {
    if k == 0 {
      SumFrame(f, g, s[1..]);
      CountFrame(f, g, s[1..]);
    } else {
      SumChange(f, g, s[1..], k - 1);
    }
  }

  /** Taking one member out of a list takes its weight and count out of the sums. */
  lemma {:induction false} SumRemove<N>(f: Forest<N>, s: seq<N>, k: nat)
    requires k < |s| && s[k] in f
    ensures SumWeight(f, s[..k] + s[k + 1..]) == SumWeight(f, s) - WeightOf(f[s[k]])
    ensures SumCount(f, s[..k] + s[k + 1..]) == SumCount(f, s) - f[s[k]].count
  {
    if k == 0 {
      assert s[..0] + s[1..] == s[1..];
    } else {
      SumRemove(f, s[1..], k - 1);
      assert (s[..k] + s[k + 1..])[1..] == s[1..][..k - 1] + s[1..][k..];
    }
  }

  // ----- Passing a weight change up the chain -----------------------------------------------

  /** What `updateItemWeight(diff)` on c does to the forest. */
  ghost function Bump<N>(f: Forest<N>, c: N, diff: int): Forest<N> {
    map x | x in f :: if Above(f, x, c) then f[x].(total := Wrap(f[x].total + diff)) else f[x]
  }

  lemma WrapUnique(x: int, q: int, r: int)
    requires 0 <= r < TWO_32 && x == TWO_32 * q + r
    ensures Wrap(x) == r
  {
  }

  lemma WrapAdd(a: int, b: int)
    ensures Wrap(Wrap(a) + b) == Wrap(a + b)
    ensures Wrap(b + Wrap(a)) == Wrap(a + b)
  {
    var c := Wrap(a) + b;
    WrapUnique(a + b, a / TWO_32 + c / TWO_32, Wrap(c));
  }

  lemma WrapCancel(a: int, b: int, d: int)
    requires Wrap(a) == Wrap(b)
    ensures Wrap(a + d) == Wrap(b + d)
  {
    WrapAdd(a, d);
    WrapAdd(b, d);
  }

  lemma WeightBumped<N>(f: Forest<N>, c: N, diff: int, x: N)
    requires x in f
    ensures WeightOf(Bump(f, c, diff)[x]) ==
            if f[x].box && Above(f, x, c) then Wrap(WeightOf(f[x]) + diff) else WeightOf(f[x])
  {
    if f[x].box && Above(f, x, c) {
      var own := StackWeight(f[x].kind, f[x].attrs, f[x].count);
      WrapAdd(own, f[x].total + diff);
      WrapAdd(own + f[x].total, diff);
      assert own + (f[x].total + diff) == own + f[x].total + diff;
    }
  }

  /** Everything but the cached totals survives a bump. */
  lemma BumpShaped<N>(f: Forest<N>, c: N, diff: int)
    requires Shaped(f)
    ensures Shaped(Bump(f, c, diff))
    ensures forall p :: p in f && Counted(f, p) ==> Counted(Bump(f, c, diff), p)
  {
    var g := Bump(f, c, diff);
    AboveFrame(f, g);
    forall x | x in g
      ensures ParentHolds(g, x) && ListHolds(g, x) && Rooted(g, x)
      ensures Counted(f, x) ==> Counted(g, x)
    {
      assert ParentHolds(f, x) && ListHolds(f, x) && Rooted(f, x);
      CountFrame(f, g, f[x].list);
    }
  }

  /** A change passed up from c settles exactly that much of what c owes. */
  lemma BumpSettles<N>(f: Forest<N>, c: N, diff: int, due: int)
    requires Shaped(f) && Owing(f, c, due) && c in f && f[c].box
    ensures Owing(Bump(f, c, diff), c, due - diff)
  {
    forall p | p in f
      ensures Weighed(Bump(f, c, diff), p, if p == c then due - diff else 0)
    {
      assert ListHolds(f, p) && Weighed(f, p, if p == c then due else 0);
      if f[p].box {
        if p == c {
          SettlesAtStart(f, c, diff, due);
        } else if Above(f, p, c) {
          SettlesOnChain(f, c, diff, p);
        } else {
          SettlesOffChain(f, c, diff, p);
        }
      }
    }
  }

  lemma SettlesAtStart<N>(f: Forest<N>, c: N, diff: int, due: int)
    requires Shaped(f) && c in f && f[c].box && Weighed(f, c, due)
    ensures Weighed(Bump(f, c, diff), c, due - diff)
  {
    var g := Bump(f, c, diff);
    var s := f[c].list;
    assert ListHolds(f, c);
    forall i | 0 <= i < |s|
      ensures s[i] in f && s[i] in g && WeightOf(g[s[i]]) == WeightOf(f[s[i]])
    {
      assert Rooted(f, s[i]);
      NotAboveParent(f, s[i]);
    }
    SumFrame(f, g, s);
    assert Above(f, c, c) by { assert Up(f, Some(c), 0) == Some(c); }
    WrapAdd(f[c].total + diff, due - diff);
    assert f[c].total + diff + (due - diff) == f[c].total + due;
  }

  lemma SettlesOnChain<N>(f: Forest<N>, c: N, diff: int, p: N)
    requires Shaped(f) && c in f && f[c].box && p in f && p != c && f[p].box
    requires Above(f, p, c) && Weighed(f, p, 0)
    ensures Weighed(Bump(f, c, diff), p, 0)
  {
    var g := Bump(f, c, diff);
    var s := f[p].list;
    assert ListHolds(f, p);
    var k := ChildOnChain(f, c, p);
    forall i | 0 <= i < |s|
      ensures s[i] in f && s[i] in g
      ensures i != k ==> WeightOf(f[s[i]]) == WeightOf(g[s[i]]) && f[s[i]].count == g[s[i]].count
    {
    }
    WeightBumped(f, c, diff, s[k]);
    SumChange(f, g, s, k);
    var w := WeightOf(f[s[k]]);
    WrapAdd(w + diff, SumWeight(f, s) - w);
    assert (w + diff) + (SumWeight(f, s) - w) == SumWeight(f, s) + diff;
    WrapCancel(f[p].total, SumWeight(f, s), diff);
  }

  lemma SettlesOffChain<N>(f: Forest<N>, c: N, diff: int, p: N)
    requires Shaped(f) && p in f && f[p].box && !Above(f, p, c) && Weighed(f, p, 0)
    ensures Weighed(Bump(f, c, diff), p, 0)
  {
    var g := Bump(f, c, diff);
    var s := f[p].list;
    assert ListHolds(f, p);
    forall i | 0 <= i < |s|
      ensures s[i] in f && s[i] in g && WeightOf(g[s[i]]) == WeightOf(f[s[i]])
    {
      AboveTrans(f, p, s[i], c);
    }
    SumFrame(f, g, s);
  }

  lemma AboveTrans<N>(f: Forest<N>, p: N, x: N, c: N)
    requires x in f && f[x].parent == Some(p)
    ensures Above(f, x, c) ==> Above(f, p, c)
  {
    if Above(f, x, c) {
      var n: nat :| Up(f, Some(c), n) == Some(x);
      UpStep(f, Some(c), n);
    }
  }

  /** A proper ancestor p of c has exactly one member on the way down to c. */
  lemma ChildOnChain<N>(f: Forest<N>, c: N, p: N) returns (k: nat)
    requires Shaped(f) && c in f && f[c].box && p in f && p != c && Above(f, p, c)
    ensures k < |f[p].list| && f[p].list[k] in f && f[f[p].list[k]].box && Above(f, f[p].list[k], c)
    ensures forall i :: 0 <= i < |f[p].list| && i != k ==> !Above(f, f[p].list[i], c)
  {
    assert ListHolds(f, p) && Rooted(f, c);
    var n: nat :| Up(f, Some(c), n) == Some(p);
    assert n > 0;
    UpStep(f, Some(c), n - 1);
    UpStaysIn(f, c, n - 1);
    var x := Up(f, Some(c), n - 1).value;
    assert ParentHolds(f, x) && f[x].parent == Some(p);
    k :| 0 <= k < |f[p].list| && f[p].list[k] == x;
    assert f[x].box by {
      if n > 1 {
        UpStep(f, Some(c), n - 2);
        UpStaysIn(f, c, n - 2);
        var z := Up(f, Some(c), n - 2).value;
        assert ParentHolds(f, z);
      }
    }
    forall i | 0 <= i < |f[p].list| && i != k
      ensures !Above(f, f[p].list[i], c)
    {
      var y := f[p].list[i];
      if Above(f, y, c) {
        var m: nat :| Up(f, Some(c), m) == Some(y);
        UpStep(f, Some(c), m);
        assert Up(f, Some(c), m + 1) == Some(p);
        if m < n - 1 { UpDistinct(f, c, m + 1, n); }
        else if n - 1 < m { UpDistinct(f, c, n, m + 1); }
      }
    }
  }

  // ----- Relinking items --------------------------------------------------------------------

  /** Put a free item into the list of c at position k. */
  ghost function Link<N>(f: Forest<N>, c: N, item: N, k: nat): Forest<N>
    requires c in f && item in f && k <= |f[c].list|
  {
    var g := f[item := f[item].(parent := Some(c))];
    g[c := g[c].(list := g[c].list[..k] + [item] + g[c].list[k..], ammo := Wrap(g[c].ammo + f[item].count))]
  }

  /** Take the k-th item out of the list of c. */
  ghost function Unlink<N>(f: Forest<N>, c: N, k: nat): Forest<N>
    requires c in f && k < |f[c].list| && f[c].list[k] in f
  {
    var item := f[c].list[k];
    var g := f[item := f[item].(parent := None)];
    g[c := g[c].(list := f[c].list[..k] + f[c].list[k + 1..], ammo := Wrap(g[c].ammo - f[item].count))]
  }

  /** Change what a member of c is and how many of it there are. */
  ghost function Restock<N>(f: Forest<N>, c: N, item: N, kind: Kind, count: nat): Forest<N>
    requires c in f && item in f
  {
    var g := f[c := f[c].(ammo := Wrap(f[c].ammo + count - f[item].count))];
    g[item := g[item].(kind := kind, count := count)]
  }

  /** As long as a walk in f avoids t, it is the same walk in g. */
  lemma {:induction false} UpAvoid<N>(f: Forest<N>, g: Forest<N>, x: Option<N>, n: nat, t: N)
    requires f.Keys == g.Keys
    requires forall y :: y in f && y != t ==> f[y].parent == g[y].parent
    requires forall j: nat :: j < n ==> Up(f, x, j) != Some(t)
    ensures Up(f, x, n) == Up(g, x, n)
    decreases n
  {
    if n > 0 && x.Some? && x.value in f {
      assert Up(f, x, 0) == x;
      forall j: nat | j < n - 1
        ensures Up(f, f[x.value].parent, j) != Some(t)
      {
        assert Up(f, x, j + 1) != Some(t);
      }
      UpAvoid(f, g, f[x.value].parent, n - 1, t);
    }
  }

  /** The first position at which a walk meets t. */
  lemma FirstMeeting<N>(f: Forest<N>, x: N, t: N) returns (n: nat)
    requires Above(f, t, x)
    ensures Up(f, Some(x), n) == Some(t)
    ensures forall j: nat :: j < n ==> Up(f, Some(x), j) != Some(t)
  {
    n :| Up(f, Some(x), n) == Some(t);
    while exists j: nat :: j < n && Up(f, Some(x), j) == Some(t)
      invariant Up(f, Some(x), n) == Some(t)
      decreases n
    {
      var j: nat :| j < n && Up(f, Some(x), j) == Some(t);
      n := j;
    }
  }

  /** Redirecting the parent link of t keeps every walk finite when the new walk from t is. */
  lemma RootedRedirect<N>(f: Forest<N>, g: Forest<N>, t: N, x: N)
    requires f.Keys == g.Keys
    requires forall y :: y in f && y != t ==> f[y].parent == g[y].parent
    requires Rooted(f, x) && Rooted(g, t)
    ensures Rooted(g, x)
  {
    if Above(f, t, x) {
      var n := FirstMeeting(f, x, t);
      UpAvoid(f, g, Some(x), n, t);
      var m: nat :| Up(g, Some(t), m) == None;
      UpAdd(g, Some(x), n, m);
      assert Up(g, Some(x), n + m) == None;
    } else {
      var n: nat :| Up(f, Some(x), n) == None;
      UpAvoid(f, g, Some(x), n, t);
    }
  }

  /** Walks that never meet t do not depend on the parent link of t. */
  lemma AboveAvoid<N>(f: Forest<N>, g: Forest<N>, t: N, x: N, y: N)
    requires f.Keys == g.Keys
    requires forall z :: z in f && z != t ==> f[z].parent == g[z].parent
    requires !Above(f, t, x)
    ensures Above(f, y, x) <==> Above(g, y, x)
  {
    forall n: nat
      ensures Up(f, Some(x), n) == Up(g, Some(x), n)
    {
      UpAvoid(f, g, Some(x), n, t);
    }
  }

  lemma LinkShaped<N>(f: Forest<N>, c: N, item: N, k: nat)
    requires Shaped(f) && c in f && item in f && k <= |f[c].list|
    requires f[c].box && f[item].parent.None? && !Above(f, item, c)
    ensures Shaped(Link(f, c, item, k))
  {
    var g := Link(f, c, item, k);
    assert Above(f, c, c) by { assert Up(f, Some(c), 0) == Some(c); }
    assert Rooted(g, item) by {
      assert Rooted(f, c);
      var n: nat :| Up(f, Some(c), n) == None;
      UpAvoid(f, g, Some(c), n, item);
      assert Up(g, Some(item), n + 1) == None;
    }
    forall x | x in g
      ensures ParentHolds(g, x) && ListHolds(g, x) && Rooted(g, x)
    {
      assert ParentHolds(f, x) && ListHolds(f, x) && Rooted(f, x) && ListHolds(f, c);
      RootedRedirect(f, g, item, x);
      InsertParent(f, g, c, item, k, x);
      InsertList(f, g, c, item, k, x);
    }
  }

  /** Adding a free item to a container keeps the forest in shape exactly if the container is not in
      the item: otherwise the walk up from the item comes back to it and never ends. */
  lemma LinkShapedExactly<N>(f: Forest<N>, c: N, item: N, k: nat)
    requires Shaped(f) && c in f && item in f && k <= |f[c].list| && f[c].box && f[item].parent.None?
    ensures Shaped(Link(f, c, item, k)) <==> !Above(f, item, c)
    ensures Above(f, item, c) ==> forall n: nat :: Up(Link(f, c, item, k), Some(item), n) != None
  {
    if Above(f, item, c) {
      var g := Link(f, c, item, k);
      var n := FirstMeeting(f, c, item);
      UpAvoid(f, g, Some(c), n, item);
      assert Up(g, Some(item), n + 1) == Some(item);
      forall m: nat ensures Up(g, Some(item), m) != None { LoopNeverEnds(g, item, n + 1, m); }
      assert !Rooted(g, item);
    } else {
      LinkShaped(f, c, item, k);
    }
  }

  lemma InsertParent<N>(f: Forest<N>, g: Forest<N>, c: N, item: N, k: nat, x: N)
    requires c in f && item in f && k <= |f[c].list| && c != item && f[c].box && x in f
    requires g == Link(f, c, item, k) && ParentHolds(f, x)
    ensures ParentHolds(g, x)
  {
    var s := f[c].list;
    var t := s[..k] + [item] + s[k..];
    assert t[k] == item;
    if x != item && f[x].parent == Some(c) {
      var i :| 0 <= i < |s| && s[i] == x;
      assert t[if i < k then i else i + 1] == x;
    }
  }

  lemma InsertList<N>(f: Forest<N>, g: Forest<N>, c: N, item: N, k: nat, x: N)
    requires c in f && item in f && k <= |f[c].list| && c != item && f[c].box && x in f
    requires g == Link(f, c, item, k) && ListHolds(f, x) && f[item].parent.None?
    ensures ListHolds(g, x)
  {
    var s := f[x].list;
    assert forall i :: 0 <= i < |s| ==> s[i] != item;
    if x == c {
      var t := s[..k] + [item] + s[k..];
      assert g[c].list == t;
      forall i | 0 <= i < |t|
        ensures t[i] == if i < k then s[i] else if i == k then item else s[i - 1]
      {
      }
    }
  }

  lemma NotItsOwnParent<N>(f: Forest<N>, c: N, item: N)
    requires Shaped(f) && item in f && f[item].parent == Some(c)
    ensures item != c && !Above(f, item, c)
  {
    assert Rooted(f, item);
    NotAboveParent(f, item);
    assert Up(f, Some(c), 0) == Some(c);
  }

  lemma UnlinkShaped<N>(f: Forest<N>, c: N, k: nat)
    requires Shaped(f) && c in f && k < |f[c].list| && f[c].list[k] in f
    ensures Shaped(Unlink(f, c, k))
  {
    var g := Unlink(f, c, k);
    var item := f[c].list[k];
    assert ListHolds(f, c) && ParentHolds(f, item);
    NotItsOwnParent(f, c, item);
    assert Rooted(g, item) by { assert Up(g, Some(item), 1) == None; }
    forall x | x in g
      ensures ParentHolds(g, x) && ListHolds(g, x) && Rooted(g, x)
    {
      assert ParentHolds(f, x) && ListHolds(f, x) && Rooted(f, x);
      RootedRedirect(f, g, item, x);
      DeleteKeeps(f, g, c, k, x);
    }
  }

  lemma DeleteKeeps<N>(f: Forest<N>, g: Forest<N>, c: N, k: nat, x: N)
    requires c in f && k < |f[c].list| && f[c].list[k] in f && f[c].list[k] != c && x in f
    requires g == Unlink(f, c, k) && ListHolds(f, x) && ListHolds(f, c) && ParentHolds(f, x)
    ensures ListHolds(g, x) && ParentHolds(g, x)
  {
    var item := f[c].list[k];
    var s := f[c].list;
    var t := s[..k] + s[k + 1..];
    assert g[c].list == t;
    if x != item && f[x].parent == Some(c) {
      var i :| 0 <= i < |s| && s[i] == x;
      assert t[if i < k then i else i - 1] == x;
    }
  }

  // ----- What relinking does to the books ---------------------------------------------------

  /** Books that no change has touched stay as they were. */
  lemma Untouched<N>(f: Forest<N>, g: Forest<N>, p: N)
    requires p in f && p in g && ListHolds(f, p)
    requires f[p].box == g[p].box && f[p].total == g[p].total && f[p].ammo == g[p].ammo && f[p].list == g[p].list
    requires forall i :: 0 <= i < |f[p].list| ==> var x := f[p].list[i];
      x in g && f[x].count == g[x].count && WeightOf(f[x]) == WeightOf(g[x])
    ensures forall due :: Weighed(f, p, due) <==> Weighed(g, p, due)
    ensures Counted(f, p) <==> Counted(g, p)
  {
    SumFrame(f, g, f[p].list);
    CountFrame(f, g, f[p].list);
  }

  /** After linking, c owes the weight of the new member. */
  lemma LinkOwes<N>(f: Forest<N>, c: N, item: N, k: nat, due: int)
    requires Shaped(f) && Owing(f, c, due) && c in f && item in f && k <= |f[c].list|
    requires f[c].box && f[item].parent.None? && c != item
    ensures Owing(Link(f, c, item, k), c, due + WeightOf(f[item]))
    ensures forall p :: p in f && Counted(f, p) ==> Counted(Link(f, c, item, k), p)
  {
    forall p | p in f
      ensures Weighed(Link(f, c, item, k), p, if p == c then due + WeightOf(f[item]) else 0)
      ensures Counted(f, p) ==> Counted(Link(f, c, item, k), p)
    {
      assert Weighed(f, p, if p == c then due else 0) && ListHolds(f, p);
      if p == c {
        LinkOwesHere(f, c, item, k, due);
      } else {
        Untouched(f, Link(f, c, item, k), p);
      }
    }
  }

  lemma LinkOwesHere<N>(f: Forest<N>, c: N, item: N, k: nat, due: int)
    requires c in f && item in f && k <= |f[c].list| && f[c].box && c != item
    requires ListHolds(f, c) && Weighed(f, c, due)
    ensures Weighed(Link(f, c, item, k), c, due + WeightOf(f[item]))
    ensures Counted(f, c) ==> Counted(Link(f, c, item, k), c)
  {
    hide SumWeight, SumCount, Up;
    var g := Link(f, c, item, k);
    var s := f[c].list;
    var t := g[c].list;
    assert t[k] == item && t[..k] + t[k + 1..] == s;
    SumRemove(g, t, k);
    SumFrame(f, g, s);
    CountFrame(f, g, s);
    WrapCancel(f[c].total + due, SumWeight(f, s), WeightOf(f[item]));
    WrapAdd(SumCount(f, s), f[item].count);
  }

  /** After unlinking, c owes that much less. */
  lemma UnlinkOwes<N>(f: Forest<N>, c: N, k: nat, due: int)
    requires Shaped(f) && Owing(f, c, due) && c in f && k < |f[c].list| && f[c].list[k] in f
    ensures Owing(Unlink(f, c, k), c, due - WeightOf(f[f[c].list[k]]))
    ensures forall p :: p in f && Counted(f, p) ==> Counted(Unlink(f, c, k), p)
  {
    var g := Unlink(f, c, k);
    var item := f[c].list[k];
    assert ListHolds(f, c);
    NotItsOwnParent(f, c, item);
    forall p | p in f
      ensures Weighed(g, p, if p == c then due - WeightOf(f[item]) else 0)
      ensures Counted(f, p) ==> Counted(g, p)
    {
      assert Weighed(f, p, if p == c then due else 0) && ListHolds(f, p);
      if p == c {
        UnlinkOwesHere(f, c, k, due);
      } else {
        Untouched(f, g, p);
      }
    }
  }

  lemma UnlinkOwesHere<N>(f: Forest<N>, c: N, k: nat, due: int)
    requires c in f && k < |f[c].list| && f[c].list[k] in f && f[c].list[k] != c
    requires ListHolds(f, c) && Weighed(f, c, due)
    ensures Weighed(Unlink(f, c, k), c, due - WeightOf(f[f[c].list[k]]))
    ensures Counted(f, c) ==> Counted(Unlink(f, c, k), c)
  {
    var g := Unlink(f, c, k);
    var s := f[c].list;
    var item := s[k];
    SumFrame(f, g, g[c].list);
    CountFrame(f, g, g[c].list);
    SumRemove(f, s, k);
    WrapCancel(f[c].total + due, SumWeight(f, s), 0 - WeightOf(f[item]));
    WrapAdd(SumCount(f, s), 0 - f[item].count);
  }

  lemma RestockShaped<N>(f: Forest<N>, c: N, item: N, kind: Kind, count: nat)
    requires Shaped(f) && c in f && item in f && c != item
    requires f[item].box ==> !kind.stackable
    ensures Shaped(Restock(f, c, item, kind, count))
  {
    var g := Restock(f, c, item, kind, count);
    AboveFrame(f, g);
    forall p | p in g
      ensures ParentHolds(g, p) && ListHolds(g, p) && Rooted(g, p)
    {
      assert ParentHolds(f, p) && ListHolds(f, p) && Rooted(f, p);
    }
  }

  /** After restocking a member, c owes the difference. */
  lemma RestockOwes<N>(f: Forest<N>, c: N, item: N, kind: Kind, count: nat, due: int)
    requires Shaped(f) && Owing(f, c, due) && c in f && item in f && f[item].parent == Some(c) && c != item
    ensures var g := Restock(f, c, item, kind, count);
            Owing(g, c, due - WeightOf(f[item]) + WeightOf(g[item]))
    ensures forall p :: p in f && Counted(f, p) ==> Counted(Restock(f, c, item, kind, count), p)
  {
    forall p | p in f
      ensures var g := Restock(f, c, item, kind, count);
              Weighed(g, p, if p == c then due - WeightOf(f[item]) + WeightOf(g[item]) else 0)
      ensures Counted(f, p) ==> Counted(Restock(f, c, item, kind, count), p)
    {
      RestockOwesAt(f, c, item, kind, count, due, p);
    }
  }

  lemma RestockOwesAt<N>(f: Forest<N>, c: N, item: N, kind: Kind, count: nat, due: int, p: N)
    requires Shaped(f) && Owing(f, c, due) && c in f && item in f && f[item].parent == Some(c) && p in f && c != item
    ensures var g := Restock(f, c, item, kind, count);
            Weighed(g, p, if p == c then due - WeightOf(f[item]) + WeightOf(g[item]) else 0)
    ensures Counted(f, p) ==> Counted(Restock(f, c, item, kind, count), p)
  {
    var g := Restock(f, c, item, kind, count);
    var s := f[p].list;
    assert Weighed(f, p, if p == c then due else 0) && ListHolds(f, p) && ParentHolds(f, item);
    if p == c {
      var k :| 0 <= k < |s| && s[k] == item;
      RestockOwesHere(f, c, k, kind, count, due);
    } else {
      assert forall i :: 0 <= i < |s| ==> s[i] != item;
      Untouched(f, g, p);
    }
  }

  lemma RestockOwesHere<N>(f: Forest<N>, c: N, k: nat, kind: Kind, count: nat, due: int)
    requires c in f && k < |f[c].list| && f[c].list[k] in f && f[c].list[k] != c
    requires ListHolds(f, c) && Weighed(f, c, due)
    ensures var item := f[c].list[k]; var g := Restock(f, c, item, kind, count);
            && Weighed(g, c, due - WeightOf(f[item]) + WeightOf(g[item]))
            && (Counted(f, c) ==> Counted(g, c))
  {
    var s := f[c].list;
    var item := s[k];
    var g := Restock(f, c, item, kind, count);
    SumChange(f, g, s, k);
    WrapCancel(f[c].total + due, SumWeight(f, s), WeightOf(g[item]) - WeightOf(f[item]));
    WrapAdd(SumCount(f, s), count - f[item].count);
  }

  // ----- The container operations as functions on the forest --------------------------------

  /** `addThing` and `internalAddThing`: the item goes to the front of the list of c. */
  ghost function PushFront<N>(f: Forest<N>, c: N, item: N): Forest<N>
    requires c in f && item in f
  {
    Bump(Link(f, c, item, 0), c, WeightOf(f[item]))
  }

  /** `addItemBack`. */
  ghost function PushBack<N>(f: Forest<N>, c: N, item: N): Forest<N>
    requires c in f && item in f
  {
    Bump(Link(f, c, item, |f[c].list|), c, WeightOf(f[item]))
  }

  /** `updateThing`, and `removeThing` on part of a stack. */
  ghost function Change<N>(f: Forest<N>, c: N, item: N, kind: Kind, count: nat): Forest<N>
    requires c in f && item in f
  {
    var g := Restock(f, c, item, kind, count);
    Bump(g, c, WeightOf(g[item]) - WeightOf(f[item]))
  }

  /** `removeThing` on a whole item: the weight goes first, then the item. */
  ghost function Drop<N>(f: Forest<N>, c: N, k: nat): Forest<N>
    requires Shaped(f) && c in f && k < |f[c].list|
  {
    assert ListHolds(f, c);
    Unlink(Bump(f, c, -(WeightOf(f[f[c].list[k]]) as int)), c, k)
  }

  /** `replaceThing`: the k-th item of c makes way for another. */
  ghost function Swap<N>(f: Forest<N>, c: N, k: nat, item: N): Forest<N>
    requires Shaped(f) && c in f && k < |f[c].list| && item in f
  {
    assert ListHolds(f, c);
    Bump(Link(Unlink(f, c, k), c, item, k), c, WeightOf(f[item]) - WeightOf(f[f[c].list[k]]))
  }

  /** A well shaped forest whose books are right but for what c owes. */
  ghost predicate Books<N>(f: Forest<N>, c: N, due: int) {
    && Shaped(f)
    && Owing(f, c, due)
    && (forall p {:trigger Counted(f, p)} :: p in f ==> Counted(f, p))
  }

  lemma NothingDue<N>(f: Forest<N>, c: N)
    ensures Books(f, c, 0) <==> Consistent(f)
  {
    if Books(f, c, 0) {
      forall p | p in f
        ensures Weighed(f, p, 0)
      {
        assert Weighed(f, p, if p == c then 0 else 0);
      }
    }
  }

  lemma LinkBooks<N>(f: Forest<N>, c: N, item: N, k: nat, due: int)
    requires Books(f, c, due) && c in f && item in f && k <= |f[c].list|
    requires f[c].box && f[item].parent.None? && !Above(f, item, c)
    ensures Books(Link(f, c, item, k), c, due + WeightOf(f[item]))
  {
    assert Above(f, c, c) by { assert Up(f, Some(c), 0) == Some(c); }
    LinkShaped(f, c, item, k);
    LinkOwes(f, c, item, k, due);
  }

  lemma UnlinkBooks<N>(f: Forest<N>, c: N, k: nat, due: int)
    requires Books(f, c, due) && c in f && k < |f[c].list| && f[c].list[k] in f
    ensures Books(Unlink(f, c, k), c, due - WeightOf(f[f[c].list[k]]))
  {
    UnlinkShaped(f, c, k);
    UnlinkOwes(f, c, k, due);
  }

  lemma BumpBooks<N>(f: Forest<N>, c: N, diff: int, due: int)
    requires Books(f, c, due) && c in f && f[c].box
    ensures Books(Bump(f, c, diff), c, due - diff)
  {
    BumpShaped(f, c, diff);
    BumpSettles(f, c, diff, due);
  }

  lemma PushKeeps<N>(f: Forest<N>, c: N, item: N, k: nat)
    requires Consistent(f) && c in f && item in f && f[c].box && f[item].parent.None? && !Above(f, item, c)
    requires k <= |f[c].list|
    ensures Consistent(Bump(Link(f, c, item, k), c, WeightOf(f[item])))
  {
    var w: int := WeightOf(f[item]);
    NothingDue(f, c);
    LinkBooks(f, c, item, k, 0);
    BumpBooks(Link(f, c, item, k), c, w, w);
    NothingDue(Bump(Link(f, c, item, k), c, w), c);
  }

  /** Adding a free item to a container that is not inside it keeps every cached weight exact. */
  lemma PushFrontKeeps<N>(f: Forest<N>, c: N, item: N)
    requires Consistent(f) && c in f && item in f && f[c].box && f[item].parent.None? && !Above(f, item, c)
    ensures Consistent(PushFront(f, c, item))
  {
    PushKeeps(f, c, item, 0);
  }

  lemma PushBackKeeps<N>(f: Forest<N>, c: N, item: N)
    requires Consistent(f) && c in f && item in f && f[c].box && f[item].parent.None? && !Above(f, item, c)
    ensures Consistent(PushBack(f, c, item))
  {
    PushKeeps(f, c, item, |f[c].list|);
  }

  /** So does changing a member in place. */
  lemma ChangeKeeps<N>(f: Forest<N>, c: N, item: N, kind: Kind, count: nat)
    requires Consistent(f) && c in f && item in f && f[item].parent == Some(c) && c != item && f[c].box
    requires f[item].box ==> !kind.stackable
    ensures Consistent(Change(f, c, item, kind, count))
  {
    var g := Restock(f, c, item, kind, count);
    var change := WeightOf(g[item]) - WeightOf(f[item]);
    NothingDue(f, c);
    RestockShaped(f, c, item, kind, count);
    RestockOwes(f, c, item, kind, count, 0);
    assert Books(g, c, change);
    BumpBooks(g, c, change, change);
    NothingDue(Bump(g, c, change), c);
  }

  /** So does taking a member out. */
  lemma DropKeeps<N>(f: Forest<N>, c: N, k: nat)
    requires Consistent(f) && c in f && k < |f[c].list| && f[c].box
    ensures Consistent(Drop(f, c, k))
  {
    assert ListHolds(f, c);
    var item := f[c].list[k];
    var w: int := WeightOf(f[item]);
    NothingDue(f, c);
    BumpBooks(f, c, -w, 0);
    UnlinkBooks(Bump(f, c, -w), c, k, w);
    MemberWeight(f, c, k);
    NothingDue(Drop(f, c, k), c);
  }

  lemma MemberWeight<N>(f: Forest<N>, c: N, k: nat)
    requires Shaped(f) && c in f && k < |f[c].list| && f[c].list[k] in f
    ensures forall d :: WeightOf(Bump(f, c, d)[f[c].list[k]]) == WeightOf(f[f[c].list[k]])
  {
    assert ListHolds(f, c);
    NotItsOwnParent(f, c, f[c].list[k]);
  }

  /** And so does replacing one. */
  lemma SwapKeeps<N>(f: Forest<N>, c: N, k: nat, item: N)
    requires Consistent(f) && c in f && k < |f[c].list| && item in f && f[c].box
    requires f[item].parent.None? && !Above(f, item, c)
    ensures Consistent(Swap(f, c, k, item))
  {
    assert ListHolds(f, c);
    var gone := f[c].list[k];
    NothingDue(f, c);
    UnlinkBooks(f, c, k, 0);
    var g := Unlink(f, c, k);
    assert c != item && c != gone && !Above(f, gone, c) && f[gone].parent == Some(c) by {
      assert ListHolds(f, c);
      NotItsOwnParent(f, c, gone);
      assert Up(f, Some(c), 0) == Some(c);
    }
    AboveAvoid(f, g, gone, c, item);
    assert WeightOf(g[item]) == WeightOf(f[item]);
    LinkBooks(g, c, item, k, 0 - WeightOf(f[gone]));
    var change := WeightOf(f[item]) - WeightOf(f[gone]);
    BumpBooks(Link(g, c, item, k), c, change, change);
    NothingDue(Swap(f, c, k, item), c);
  }
}
