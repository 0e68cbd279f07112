/** How many items of a type a container directly holds, and what each container operation does
    to those numbers, to the stack sizes and to the cached weights. */
module StackAccounts {
  import opened Arithmetic
  import opened Collections
  import opened Forests

  const STACK_LIMIT := 100

  ghost predicate Alike<N>(c: Cell<N>, kind: Kind, attrs: Attrs) {
    c.kind == kind && c.attrs == attrs
  }

  /** The items of one type and attributes in a list, counted with their stack sizes. */
  ghost function Tally<N>(f: Forest<N>, s: seq<N>, kind: Kind, attrs: Attrs): int {
    if s == [] then 0
    else (if s[0] in f && Alike(f[s[0]], kind, attrs) then f[s[0]].count else 0) + Tally(f, s[1..], kind, attrs)
  }

  /** The same for what container d directly holds. */
  ghost function Held<N>(f: Forest<N>, d: N, kind: Kind, attrs: Attrs): int
    requires d in f
  {
    Tally(f, f[d].list, kind, attrs)
  }

  ghost function One(b: bool): int {
    if b then 1 else 0
  }

  /** Stackable items come in stacks of 1 to 100. */
  ghost predicate StackOk<N>(c: Cell<N>) {
    c.kind.stackable ==> 1 <= c.count <= STACK_LIMIT
  }

  ghost predicate Stacked<N>(f: Forest<N>) {
    forall x {:trigger StackOk(f[x])} :: x in f ==> StackOk(f[x])
  }

  ghost predicate Fits<N>(f: Forest<N>, d: N)
    requires d in f
  {
    f[d].box ==> |f[d].list| <= f[d].capacity
  }

  /** x is the same item in both forests; only cached totals may differ. */
  ghost predicate SameItem<N>(a: Cell<N>, b: Cell<N>) {
    a == b.(total := a.total)
  }

  lemma {:induction false} TallyFrame<N>(f: Forest<N>, g: Forest<N>, s: seq<N>, kind: Kind, attrs: Attrs)
    requires forall i :: 0 <= i < |s| ==>
      (s[i] in f <==> s[i] in g)
      && (s[i] in f ==>
            f[s[i]].kind == g[s[i]].kind && f[s[i]].attrs == g[s[i]].attrs && f[s[i]].count == g[s[i]].count)
    ensures Tally(f, s, kind, attrs) == Tally(g, s, kind, attrs)
  {
    if s != [] { TallyFrame(f, g, s[1..], kind, attrs); }
  }

  lemma {:induction false} TallyRemove<N>(f: Forest<N>, s: seq<N>, k: nat, kind: Kind, attrs: Attrs)
    requires k < |s| && s[k] in f
    ensures Tally(f, s[..k] + s[k + 1..], kind, attrs)
         == Tally(f, s, kind, attrs) - One(Alike(f[s[k]], kind, attrs)) * f[s[k]].count
  {
    if k == 0 {
      assert s[..0] + s[1..] == s[1..];
    } else {
      TallyRemove(f, s[1..], k - 1, kind, attrs);
      assert (s[..k] + s[k + 1..])[1..] == s[1..][..k - 1] + s[1..][k..];
    }
  }

  lemma {:induction false} TallyChange<N>(f: Forest<N>, g: Forest<N>, s: seq<N>, k: nat, kind: Kind, attrs: Attrs)
    requires k < |s| && NoDup(s)
    requires forall i :: 0 <= i < |s| ==>
      && s[i] in f && s[i] in g && f[s[i]].kind == g[s[i]].kind && f[s[i]].attrs == g[s[i]].attrs
      && (i != k ==> f[s[i]].count == g[s[i]].count)
    ensures Tally(g, s, kind, attrs)
         == Tally(f, s, kind, attrs) + One(Alike(f[s[k]], kind, attrs)) * (g[s[k]].count - f[s[k]].count)
  {
    if k == 0 {
      TallyFrame(f, g, s[1..], kind, attrs);
    } else {
      TallyChange(f, g, s[1..], k - 1, kind, attrs);
    }
  }

  // ----- Putting an item in front -----------------------------------------------------------

  lemma PushFrontHolds<N>(f: Forest<N>, c: N, item: N, d: N, kind: Kind, attrs: Attrs)
    requires Shaped(f) && c in f && item in f && c != item && f[item].parent.None? && d in f
    ensures Held(PushFront(f, c, item), d, kind, attrs)
         == Held(f, d, kind, attrs) + One(d == c) * One(Alike(f[item], kind, attrs)) * f[item].count
  {
    var g := PushFront(f, c, item);
    PushFrontStock(f, c, item);
    hide PushFront, Shaped, Alike;
    TallyFrame(f, g, f[d].list, kind, attrs);
    if d == c {
      assert Tally(g, g[c].list, kind, attrs)
          == One(Alike(f[item], kind, attrs)) * f[item].count + Tally(g, f[c].list, kind, attrs) by {
        assert g[c].list[1..] == f[c].list;
        SameLook(f[item], g[item], kind, attrs);
      }
    }
  }

  lemma SameLook<N>(a: Cell<N>, b: Cell<N>, kind: Kind, attrs: Attrs)
    requires a.kind == b.kind && a.attrs == b.attrs
    ensures Alike(a, kind, attrs) == Alike(b, kind, attrs)
  {
  }

  /** An addition changes no stack and one list. */
  lemma PushFrontStock<N>(f: Forest<N>, c: N, item: N)
    requires c in f && item in f && c != item
    ensures var g := PushFront(f, c, item);
            && g.Keys == f.Keys && g[c].list == [item] + f[c].list
            && (forall x :: x in f ==> g[x].kind == f[x].kind && g[x].attrs == f[x].attrs && g[x].count == f[x].count)
            && (forall x :: x in f && x != c ==> g[x].list == f[x].list)
  {
    hide Above, Wrap, StackWeight;
  }

  lemma PushFrontCells<N>(f: Forest<N>, c: N, item: N)
    requires c in f && item in f && c != item
    ensures var g := PushFront(f, c, item);
            && g.Keys == f.Keys
            && (forall x :: x in f && x != c && x != item ==> SameItem(g[x], f[x]))
            && SameItem(g[item], f[item].(parent := Some(c)))
            && SameItem(g[c], f[c].(list := [item] + f[c].list, ammo := g[c].ammo))
  {
    assert PushFront(f, c, item)[c].list == [item] + f[c].list;
  }

  /** The chain of c is the same before and after. */
  lemma PushFrontWeighs<N>(f: Forest<N>, c: N, item: N, d: N)
    requires Shaped(f) && c in f && item in f && f[item].parent.None? && !Above(f, item, c) && d in f
    ensures PushFront(f, c, item)[d].total
         == if Above(f, d, c) then Wrap(f[d].total + WeightOf(f[item])) else f[d].total
  {
    AboveAvoid(f, Link(f, c, item, 0), item, c, d);
  }

  // ----- Changing a stack in place ----------------------------------------------------------

  lemma ChangeHolds<N>(f: Forest<N>, c: N, item: N, count: nat, d: N, kind: Kind, attrs: Attrs)
    requires Shaped(f) && c in f && item in f && f[item].parent == Some(c) && d in f
    ensures Held(Change(f, c, item, f[item].kind, count), d, kind, attrs)
         == Held(f, d, kind, attrs) + One(d == c) * One(Alike(f[item], kind, attrs)) * (count - f[item].count)
  {
    hide Above, Wrap, StackWeight;
    var g := Change(f, c, item, f[item].kind, count);
    NotItsOwnParent(f, c, item);
    assert ListHolds(f, d) && ParentHolds(f, item);
    if d == c {
      var k :| 0 <= k < |f[c].list| && f[c].list[k] == item;
      TallyChange(f, g, f[c].list, k, kind, attrs);
    } else {
      TallyFrame(f, g, f[d].list, kind, attrs);
    }
  }

  lemma ChangeCells<N>(f: Forest<N>, c: N, item: N, count: nat)
    requires c in f && item in f && c != item
    ensures var g := Change(f, c, item, f[item].kind, count);
            && g.Keys == f.Keys
            && (forall x :: x in f && x != c && x != item ==> SameItem(g[x], f[x]))
            && SameItem(g[item], f[item].(count := count))
            && SameItem(g[c], f[c].(ammo := g[c].ammo))
  {
  }

  lemma ChangeWeighs<N>(f: Forest<N>, c: N, item: N, count: nat, d: N)
    requires Shaped(f) && c in f && item in f && c != item && !f[item].box && d in f
    ensures Change(f, c, item, f[item].kind, count)[d].total ==
            if Above(f, d, c) then Wrap(f[d].total + StackWeight(f[item].kind, f[item].attrs, count)
                                                   - StackWeight(f[item].kind, f[item].attrs, f[item].count))
            else f[d].total
  {
    var g := Restock(f, c, item, f[item].kind, count);
    AboveFrame(f, g);
    var new0 := StackWeight(f[item].kind, f[item].attrs, count);
    var old0 := StackWeight(f[item].kind, f[item].attrs, f[item].count);
    assert WeightOf(g[item]) == Wrap(new0) && WeightOf(f[item]) == Wrap(old0);
    WrapDifference(f[d].total, new0, old0);
  }

  lemma WrapDifference(t: int, a: int, b: int)
    ensures Wrap(t + (Wrap(a) - Wrap(b))) == Wrap(t + a - b)
  {
    WrapAdd(a, t - Wrap(b));
    WrapAdd(b, 0 - b);
    assert Wrap(Wrap(b) - b) == 0;
    WrapUnique(Wrap(b) - b, (Wrap(b) - b) / TWO_32, 0);
    WrapUnique(t + a - b, (t + a - b) / TWO_32, Wrap(t + a - b));
    WrapUnique(t + a - Wrap(b), (t + a - b) / TWO_32 - (Wrap(b) - b) / TWO_32, Wrap(t + a - b));
    assert t + Wrap(a) - Wrap(b) == Wrap(a) + (t - Wrap(b));
  }

  // ----- Taking an item out -----------------------------------------------------------------

  lemma DropHolds<N>(f: Forest<N>, c: N, k: nat, d: N, kind: Kind, attrs: Attrs)
    requires Shaped(f) && c in f && k < |f[c].list| && d in f
    ensures f[c].list[k] in f
    ensures Held(Drop(f, c, k), d, kind, attrs)
         == Held(f, d, kind, attrs) - One(d == c) * One(Alike(f[f[c].list[k]], kind, attrs)) * f[f[c].list[k]].count
  {
    assert ListHolds(f, c) && ListHolds(f, d);
    var item := f[c].list[k];
    NotItsOwnParent(f, c, item);
    var g := Drop(f, c, k);
    if d == c {
      TallyFrame(f, g, g[c].list, kind, attrs);
      TallyRemove(f, f[c].list, k, kind, attrs);
    } else {
      TallyFrame(f, g, f[d].list, kind, attrs);
    }
  }

  lemma DropCells<N>(f: Forest<N>, c: N, k: nat)
    requires Shaped(f) && c in f && k < |f[c].list|
    ensures var g := Drop(f, c, k); var item := f[c].list[k];
            && g.Keys == f.Keys && item in f && item != c
            && (forall x :: x in f && x != c && x != item ==> SameItem(g[x], f[x]))
            && SameItem(g[item], f[item].(parent := None))
            && SameItem(g[c], f[c].(list := f[c].list[..k] + f[c].list[k + 1..], ammo := g[c].ammo))
            && WeightOf(g[item]) == WeightOf(f[item])
  {
    assert ListHolds(f, c);
    NotItsOwnParent(f, c, f[c].list[k]);
  }

  lemma DropWeighs<N>(f: Forest<N>, c: N, k: nat, d: N)
    requires Shaped(f) && c in f && k < |f[c].list| && d in f
    ensures f[c].list[k] in f
    ensures Drop(f, c, k)[d].total ==
            if Above(f, d, c) then Wrap(f[d].total - WeightOf(f[f[c].list[k]])) else f[d].total
  {
    assert ListHolds(f, c);
  }
}
