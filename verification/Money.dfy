/** Paying with coins: `removeMoney` takes the cheapest stacks first and splits at most one, and
    `addMoney` gives the change. */
module Money {
  import opened Collections
  import opened Arithmetic

  const STACK_LIMIT := 100

  /** What a cylinder holds, at any depth: items, each under its own reference, and containers. */
  datatype Thing = Item(ref: nat) | Box(things: seq<Thing>)

  /** A stack of coins; `unit` is the worth of one of them. */
  datatype Stack = Stack(unit: nat, count: nat)

  /** The stacks of coins among the items; any other item is worth nothing. */
  type Coins = map<nat, Stack>

  function Value(s: Stack): nat { s.unit * s.count }

  function Worth(coins: Coins, ref: nat): nat {
    if ref in coins then Value(coins[ref]) else 0
  }

  /** What everything in a cylinder is worth together. */
  ghost function Total(things: seq<Thing>, coins: Coins): nat {
    if things == [] then 0
    else Total(things[..|things| - 1], coins) +
         match things[|things| - 1] case Item(ref) => Worth(coins, ref) case Box(inner) => Total(inner, coins)
  }

  /** The worth of a coin and the size of a stack leave the 32 bits of `getWorth` alone. */
  ghost predicate Proper(coins: Coins) {
    forall r :: r in coins ==> 1 <= coins[r].unit && 1 <= coins[r].count && Value(coins[r]) < TWO_32
  }

  // ----- The order in which stacks are found ------------------------------------------------

  function Items(things: seq<Thing>): seq<nat> {
    if things == [] then []
    else Items(things[..|things| - 1]) +
         match things[|things| - 1] case Item(ref) => [ref] case Box(_) => []
  }

  function Boxes(things: seq<Thing>): seq<seq<Thing>> {
    if things == [] then []
    else Boxes(things[..|things| - 1]) +
         match things[|things| - 1] case Item(_) => [] case Box(inner) => [inner]
  }

  ghost function Size(things: seq<Thing>): nat {
    if things == [] then 0
    else 1 + Size(things[..|things| - 1]) +
         match things[|things| - 1] case Item(_) => 0 case Box(inner) => Size(inner)
  }

  ghost function Sizes(lists: seq<seq<Thing>>): nat {
    if lists == [] then 0 else 1 + Size(lists[0]) + Sizes(lists[1..])
  }

  lemma {:induction false} SizesAppend(a: seq<seq<Thing>>, b: seq<seq<Thing>>)
    ensures Sizes(a + b) == Sizes(a) + Sizes(b)
  {
    if a == [] {
      assert a + b == b;
    } else {
      SizesAppend(a[1..], b);
      assert (a + b)[1..] == a[1..] + b;
    }
  }

  lemma {:induction false} SizesOfBoxes(things: seq<Thing>)
    ensures Sizes(Boxes(things)) <= Size(things)
  {
    if things != [] {
      var n := |things| - 1;
      SizesOfBoxes(things[..n]);
      match things[n] {
        case Item(_) =>
          assert Boxes(things) == Boxes(things[..n]);
        case Box(inner) =>
          SizesAppend(Boxes(things[..n]), [inner]);
          assert Sizes([inner]) == 1 + Size(inner) + Sizes([inner][1..]);
      }
    }
  }

  /** Each list in turn; the containers in it are put off to the end. */
  ghost function Walk(lists: seq<seq<Thing>>): seq<nat>
    decreases Sizes(lists)
  {
    if lists == [] then []
    else
      SizesOfBoxes(lists[0]);
      SizesAppend(lists[1..], Boxes(lists[0]));
      Items(lists[0]) + Walk(lists[1..] + Boxes(lists[0]))
  }

  ghost function Sum(coins: Coins, refs: seq<nat>): nat {
    if refs == [] then 0 else Worth(coins, refs[0]) + Sum(coins, refs[1..])
  }

  ghost function Totals(coins: Coins, lists: seq<seq<Thing>>): nat {
    if lists == [] then 0 else Total(lists[0], coins) + Totals(coins, lists[1..])
  }

  lemma {:induction false} SumAppend(coins: Coins, a: seq<nat>, b: seq<nat>)
    ensures Sum(coins, a + b) == Sum(coins, a) + Sum(coins, b)
  {
    if a == [] {
      assert a + b == b;
    } else {
      SumAppend(coins, a[1..], b);
      assert (a + b)[1..] == a[1..] + b;
    }
  }

  lemma {:induction false} TotalsAppend(coins: Coins, a: seq<seq<Thing>>, b: seq<seq<Thing>>)
    ensures Totals(coins, a + b) == Totals(coins, a) + Totals(coins, b)
  {
    if a == [] {
      assert a + b == b;
    } else {
      TotalsAppend(coins, a[1..], b);
      assert (a + b)[1..] == a[1..] + b;
    }
  }

  lemma {:induction false} TotalInParts(coins: Coins, things: seq<Thing>)
    ensures Total(things, coins) == Sum(coins, Items(things)) + Totals(coins, Boxes(things))
  {
    if things != [] {
      var n := |things| - 1;
      TotalInParts(coins, things[..n]);
      match things[n] {
        case Item(ref) =>
          SumAppend(coins, Items(things[..n]), [ref]);
          assert Sum(coins, [ref]) == Worth(coins, ref) + Sum(coins, [ref][1..]);
          assert Boxes(things) == Boxes(things[..n]);
        case Box(inner) =>
          TotalsAppend(coins, Boxes(things[..n]), [inner]);
          assert Totals(coins, [inner]) == Total(inner, coins) + Totals(coins, [inner][1..]);
          assert Items(things) == Items(things[..n]);
      }
    }
  }

  /** The walk finds everything of worth, however deep, once for each time that it is there. */
  lemma {:induction false} WalkFindsAll(coins: Coins, lists: seq<seq<Thing>>)
    ensures Sum(coins, Walk(lists)) == Totals(coins, lists)
    decreases Sizes(lists)
  {
    if lists != [] {
      SizesOfBoxes(lists[0]);
      SizesAppend(lists[1..], Boxes(lists[0]));
      var next := lists[1..] + Boxes(lists[0]);
      WalkFindsAll(coins, next);
      SumAppend(coins, Items(lists[0]), Walk(next));
      TotalsAppend(coins, lists[1..], Boxes(lists[0]));
      TotalInParts(coins, lists[0]);
    }
  }

  // ----- The sorted list of stacks ----------------------------------------------------------

  /** An entry of `moneyMap` */
  datatype Entry = Entry(worth: nat, ref: nat)

  ghost predicate Sorted(m: seq<Entry>) {
    forall i, j :: 0 <= i < j < |m| ==> m[i].worth <= m[j].worth
  }

  ghost predicate Distinct(m: seq<Entry>) {
    forall i, j :: 0 <= i < j < |m| ==> m[i].ref != m[j].ref
  }

  ghost function SumOf(m: seq<Entry>): nat {
    if m == [] then 0 else m[0].worth + SumOf(m[1..])
  }

  lemma {:induction false} SumOfAppend(a: seq<Entry>, b: seq<Entry>)
    ensures SumOf(a + b) == SumOf(a) + SumOf(b)
  {
    if a == [] {
      assert a + b == b;
    } else {
      SumOfAppend(a[1..], b);
      assert (a + b)[1..] == a[1..] + b;
    }
  }

  /** Where a stack was found first */
  ghost function Place(refs: seq<nat>, r: nat): nat {
    if refs == [] || refs[0] == r then 0 else 1 + Place(refs[1..], r)
  }

  /** The first stack is cheaper, or as cheap and found earlier. */
  ghost predicate Before(coins: Coins, refs: seq<nat>, a: nat, b: nat) {
    Worth(coins, a) < Worth(coins, b) || (Worth(coins, a) == Worth(coins, b) && Place(refs, a) < Place(refs, b))
  }

  ghost predicate Ordered(m: seq<Entry>, coins: Coins, refs: seq<nat>) {
    forall i, j :: 0 <= i < j < |m| ==> Before(coins, refs, m[i].ref, m[j].ref)
  }

  lemma {:induction false} PlaceMore(refs: seq<nat>, ref: nat, r: nat)
    ensures Place(refs, r) <= |refs| && (r in refs ==> Place(refs, r) < |refs|)
    ensures r in refs ==> Place(refs + [ref], r) == Place(refs, r)
    ensures ref !in refs ==> Place(refs + [ref], ref) == |refs|
  {
    if refs != [] {
      PlaceMore(refs[1..], ref, r);
      assert (refs + [ref])[1..] == refs[1..] + [ref];
    }
  }

  lemma OrderedMore(m: seq<Entry>, coins: Coins, refs: seq<nat>, ref: nat)
    requires Ordered(m, coins, refs) && forall e :: e in m ==> e.ref in refs
    ensures Ordered(m, coins, refs + [ref])
  {
    forall i, j | 0 <= i < j < |m|
      ensures Before(coins, refs + [ref], m[i].ref, m[j].ref)
    {
      assert m[i] in m && m[j] in m && Before(coins, refs, m[i].ref, m[j].ref);
      PlaceMore(refs, ref, m[i].ref);
      PlaceMore(refs, ref, m[j].ref);
      hide Place, Worth;
    }
  }

  /** A new entry behind those of the same worth keeps the order. */
  lemma OrderedInsert(m: seq<Entry>, coins: Coins, refs: seq<nat>, ref: nat, p: nat)
    requires Ordered(m, coins, refs) && ref !in refs && p <= |m| && Sorted(m)
    requires forall e :: e in m ==> e.ref in refs && e.worth == Worth(coins, e.ref)
    requires p < |m| ==> Worth(coins, ref) < m[p].worth
    requires forall i :: 0 <= i < p ==> m[i].worth <= Worth(coins, ref)
    ensures Ordered(m[..p] + [Entry(Worth(coins, ref), ref)] + m[p..], coins, refs + [ref])
  {
    var r := m[..p] + [Entry(Worth(coins, ref), ref)] + m[p..];
    OrderedMore(m, coins, refs, ref);
    PlaceMore(refs, ref, ref);
    forall i, j | 0 <= i < j < |r|
      ensures Before(coins, refs + [ref], r[i].ref, r[j].ref)
    {
      if j == p {
        assert m[i] in m;
        PlaceMore(refs, ref, m[i].ref);
      } else if i == p {
        assert r[j] == m[j - 1] && m[j - 1] in m && m[p].worth <= m[j - 1].worth;
      } else {
        assert r[i] == m[if i < p then i else i - 1] && r[j] == m[if j < p then j else j - 1];
      }
    }
  }

  /** The entries are those of the references found that are worth something. */
  ghost predicate Lists(m: seq<Entry>, coins: Coins, refs: seq<nat>) {
    && Sorted(m) && Distinct(m) && SumOf(m) == Sum(coins, refs) && Ordered(m, coins, refs)
    && (forall e :: e in m ==> e.ref in refs && e.worth == Worth(coins, e.ref) > 0)
    && (forall r :: r in refs && Worth(coins, r) > 0 ==> Entry(Worth(coins, r), r) in m)
  }

  /** `emplace`: behind the entries of the same worth */
  method Emplace(m: seq<Entry>, e: Entry) returns (r: seq<Entry>, ghost p: nat)
    requires Sorted(m)
    ensures p <= |m| && r == m[..p] + [e] + m[p..] && Sorted(r)
    ensures p < |m| ==> e.worth < m[p].worth
    ensures forall i :: 0 <= i < p ==> m[i].worth <= e.worth
  {
    var i := |m|;
    while i > 0 && e.worth < m[i - 1].worth
      invariant 0 <= i <= |m|
      invariant forall j :: i <= j < |m| ==> e.worth < m[j].worth
    {
      i := i - 1;
    }
    r, p := m[..i] + [e] + m[i..], i;
  }

  lemma SumOfInsert(m: seq<Entry>, e: Entry, p: nat)
    requires p <= |m|
    ensures SumOf(m[..p] + [e] + m[p..]) == SumOf(m) + e.worth
  {
    assert m == m[..p] + m[p..];
    SumOfAppend(m[..p], m[p..]);
    SumOfAppend(m[..p] + [e], m[p..]);
    SumOfAppend(m[..p], [e]);
    assert SumOf([e]) == e.worth + SumOf([e][1..]);
  }

  lemma DistinctInsert(m: seq<Entry>, e: Entry, p: nat)
    requires p <= |m| && Distinct(m) && forall x :: x in m ==> x.ref != e.ref
    ensures Distinct(m[..p] + [e] + m[p..])
    ensures forall x :: x in m[..p] + [e] + m[p..] <==> x in m || x == e
  {
    var r := m[..p] + [e] + m[p..];
    assert forall i :: 0 <= i < |r| ==> r[i] == if i < p then m[i] else if i == p then e else m[i - 1];
    assert forall i :: 0 <= i < |m| ==> m[i] == if i < p then r[i] else r[i + 1];
    assert r[p] == e;
  }

  lemma SumMore(coins: Coins, refs: seq<nat>, ref: nat)
    ensures Sum(coins, refs + [ref]) == Sum(coins, refs) + Worth(coins, ref)
  {
    SumAppend(coins, refs, [ref]);
    assert Sum(coins, [ref]) == Worth(coins, ref) + Sum(coins, [ref][1..]);
  }

  lemma ListsMore(m: seq<Entry>, coins: Coins, refs: seq<nat>, ref: nat, p: nat)
    requires Lists(m, coins, refs) && ref !in refs && p <= |m| && Worth(coins, ref) > 0
    requires Sorted(m[..p] + [Entry(Worth(coins, ref), ref)] + m[p..])
    requires p < |m| ==> Worth(coins, ref) < m[p].worth
    requires forall i :: 0 <= i < p ==> m[i].worth <= Worth(coins, ref)
    ensures Lists(m[..p] + [Entry(Worth(coins, ref), ref)] + m[p..], coins, refs + [ref])
  {
    var e := Entry(Worth(coins, ref), ref);
    SumOfInsert(m, e, p);
    DistinctInsert(m, e, p);
    SumMore(coins, refs, ref);
    OrderedInsert(m, coins, refs, ref, p);
    hide SumOf, Sum, Sorted, Distinct, Worth, Ordered;
  }

  lemma ListsSame(m: seq<Entry>, coins: Coins, refs: seq<nat>, ref: nat)
    requires Lists(m, coins, refs) && Worth(coins, ref) == 0
    ensures Lists(m, coins, refs + [ref])
  {
    SumMore(coins, refs, ref);
    OrderedMore(m, coins, refs, ref);
    hide SumOf, Sum, Sorted, Distinct, Worth, Ordered;
  }

  // ----- The currency -----------------------------------------------------------------------

  /** `currencyItems`: the worths of the kinds of coins, the largest first */
  ghost predicate Currency(c: seq<nat>) {
    && (forall i :: 0 <= i < |c| ==> 1 <= c[i] && c[i] * STACK_LIMIT < TWO_32)
    && (forall i, j :: 0 <= i < j < |c| ==> c[i] > c[j])
  }

  function CoinsFor(money: nat, worth: nat): nat
    requires worth > 0
  {
    money / worth % TWO_32
  }

  lemma Division(money: nat, w: nat)
    requires w > 0
    ensures 0 <= money - money / w * w < w
  {
    assert money == money / w * w + money % w;
  }

  lemma CoinsWorth(money: nat, w: nat)
    requires w > 0
    ensures CoinsFor(money, w) * w <= money
  {
    Division(money, w);
    TimesOrder(CoinsFor(money, w), money / w, w);
  }

  /** What `addMoney` cannot pay in the coins of this currency */
  function Rest(c: seq<nat>, money: nat): (r: nat)
    requires forall i :: 0 <= i < |c| ==> c[i] > 0
    ensures r <= money
  {
    if c == [] then money
    else
      CoinsWorth(money, c[0]);
      Rest(c[1..], money - CoinsFor(money, c[0]) * c[0])
  }

  /** What is lost is the part of some change for one coin of this worth that no coin is small enough for. */
  ghost predicate LostFrom(currency: seq<nat>, unit: nat, lost: nat)
    requires Currency(currency)
  {
    exists due: nat :: due < unit && lost == Rest(currency, due)
  }

  /** If anything is lost, it is lost on the change for a coin of one of these stacks. */
  ghost predicate LostOnOne(currency: seq<nat>, coins: Coins, refs: seq<nat>, lost: nat)
    requires Currency(currency)
  {
    lost == 0 || exists r :: r in refs && r in coins && LostFrom(currency, coins[r].unit, lost)
  }

  ghost function ValueOf(change: seq<Stack>): nat {
    if change == [] then 0 else ValueOf(change[..|change| - 1]) + Value(change[|change| - 1])
  }

  /** What the coins of the list are worth together that are worth less than this. */
  ghost function WorthBelow(change: seq<Stack>, bound: nat): nat {
    if change == [] then 0
    else
      var last := change[|change| - 1];
      WorthBelow(change[..|change| - 1], bound) + if last.unit < bound then Value(last) else 0
  }

  lemma WorthBelowMore(change: seq<Stack>, s: Stack, bound: nat)
    ensures WorthBelow(change + [s], bound) == WorthBelow(change, bound) + if s.unit < bound then Value(s) else 0
  {
    assert (change + [s])[..|change|] == change;
  }

  /** So many coins of a worth have come to the list. */
  ghost predicate CoinsCame(was: seq<Stack>, now: seq<Stack>, n: int, worth: nat) {
    forall bound :: WorthBelow(now, bound) == WorthBelow(was, bound) + if worth < bound then n * worth else 0
  }

  lemma OneStackCame(was: seq<Stack>, now: seq<Stack>, n: int, worth: nat, count: nat)
    requires CoinsCame(was, now, n, worth)
    ensures CoinsCame(was, now + [Stack(worth, count)], n + count, worth)
  {
    forall bound
      ensures WorthBelow(now + [Stack(worth, count)], bound)
           == WorthBelow(was, bound) + if worth < bound then (n + count) * worth else 0
    {
      WorthBelowMore(now, Stack(worth, count), bound);
      MoreCoins(n, count, worth);
    }
  }

  lemma MoreCoins(n: int, k: int, worth: int)
    ensures (n + k) * worth == n * worth + worth * k
  {
  }

  /** With the first k kinds of coins given out, the smaller coins and what is left come to less than one of
      each of these. */
  ghost predicate LargestFirst(was: seq<Stack>, now: seq<Stack>, c: seq<nat>, k: nat, left: nat)
    requires k <= |c|
  {
    forall j :: 0 <= j < k ==> WorthBelow(now, c[j]) + left < WorthBelow(was, c[j]) + c[j]
  }

  /** None of the coins that are worth less than the others has been given out. */
  ghost predicate NoSmaller(was: seq<Stack>, now: seq<Stack>, c: seq<nat>, k: nat) {
    forall j :: k <= j < |c| ==> WorthBelow(now, c[j]) == WorthBelow(was, c[j])
  }

  /** No more can be left than the coins before this allow. */
  ghost predicate LeftFits(c: seq<nat>, k: nat, left: nat)
    requires k <= |c|
  {
    if k == 0 then Payable(c, left) else left < c[k - 1]
  }

  lemma NotTruncated(c: seq<nat>, k: nat, left: nat)
    requires Currency(c) && k < |c| && LeftFits(c, k, left)
    ensures var rest := left - CoinsFor(left, c[k]) * c[k]; 0 <= rest < c[k]
  {
    Division(left, c[k]);
    assert left / c[k] < TWO_32 by {
      if k > 0 { SmallCount(left, c[k], c[k - 1]); }
    }
    Untruncated(left / c[k]);
  }

  lemma SmallCount(left: nat, w: nat, larger: nat)
    requires w >= 1 && left < larger && larger * STACK_LIMIT < TWO_32
    ensures left / w < TWO_32
  {
    SmallQuotient(left, w);
  }

  lemma Untruncated(n: nat)
    requires n < TWO_32
    ensures n % TWO_32 == n
  {
  }

  lemma GreedyStep(was: seq<Stack>, before: seq<Stack>, now: seq<Stack>, c: seq<nat>, k: nat, left: nat)
    requires Currency(c) && k < |c| && LeftFits(c, k, left)
    requires LargestFirst(was, before, c, k, left) && NoSmaller(was, before, c, k)
    requires CoinsCame(before, now, CoinsFor(left, c[k]), c[k])
    ensures var rest := left - CoinsFor(left, c[k]) * c[k];
            && rest >= 0 && LargestFirst(was, now, c, k + 1, rest) && NoSmaller(was, now, c, k + 1)
            && LeftFits(c, k + 1, rest)
  {
    NotTruncated(c, k, left);
    hide CoinsFor, WorthBelow;
  }

  /** The loop of `addMoney` has given out the first k kinds of coins, and so much is left. */
  ghost predicate Giving(was: seq<Stack>, now: seq<Stack>, c: seq<nat>, money: nat, k: nat, left: nat) {
    && Currency(c) && k <= |c| && Rest(c, money) == Rest(c[k..], left)
    && ValueOf(now) + left == ValueOf(was) + money && was <= now && NewStacks(was, now, c)
    && (Payable(c, money) ==> LargestFirst(was, now, c, k, left) && NoSmaller(was, now, c, k) && LeftFits(c, k, left))
  }

  /** What has come are stacks of 1 to 100 coins of the currency. */
  ghost predicate NewStacks(was: seq<Stack>, now: seq<Stack>, c: seq<nat>) {
    forall j :: |was| <= j < |now| ==> 1 <= now[j].count <= STACK_LIMIT && now[j].unit in c
  }

  lemma NothingGiven(was: seq<Stack>, c: seq<nat>, money: nat)
    requires Currency(c)
    ensures Giving(was, was, c, money, 0, money)
  {
    assert c[0..] == c;
  }

  lemma GivenOne(was: seq<Stack>, before: seq<Stack>, now: seq<Stack>, c: seq<nat>, money: nat, k: nat, left: nat)
    requires Giving(was, before, c, money, k, left) && k < |c|
    requires before <= now && CoinsCame(before, now, CoinsFor(left, c[k]), c[k])
    requires ValueOf(now) == ValueOf(before) + CoinsFor(left, c[k]) * c[k]
    requires forall j :: |before| <= j < |now| ==> 1 <= now[j].count <= STACK_LIMIT && now[j].unit == c[k]
    ensures var n := CoinsFor(left, c[k]); n * c[k] <= left && Giving(was, now, c, money, k + 1, left - n * c[k])
  {
    RestOn(c, k, left);
    hide Rest, CoinsFor, CoinsCame, ValueOf, LargestFirst, NoSmaller, LeftFits;
    if Payable(c, money) { GreedyStep(was, before, now, c, k, left); }
  }

  lemma AllGiven(was: seq<Stack>, now: seq<Stack>, c: seq<nat>, money: nat, left: nat)
    requires Giving(was, now, c, money, |c|, left)
    ensures ValueOf(now) + Rest(c, money) == ValueOf(was) + money && was <= now && NewStacks(was, now, c)
    ensures Payable(c, money) ==> LargestFirst(was, now, c, |c|, Rest(c, money))
  {
    assert c[|c|..] == [];
  }

  lemma NothingToGive(change: seq<Stack>, c: seq<nat>)
    requires Currency(c)
    ensures Rest(c, 0) == 0 && NewStacks(change, change, c) && LargestFirst(change, change, c, |c|, 0)
  {
    assert Rest(c, 0) <= 0;
  }

  /** The amount is small enough for the number of the largest coins to fit 32 bits. */
  predicate Payable(c: seq<nat>, money: nat) {
    c != [] ==> c[0] > 0 && money / c[0] < TWO_32
  }

  lemma SmallQuotient(a: nat, b: nat)
    requires b >= 1
    ensures a / b <= a
  {
    TimesOrder(1, b, a / b);
    Division(a, b);
  }

  lemma SecondIsSmaller(c: seq<nat>)
    requires Currency(c)
    ensures |c| > 1 ==> 1 <= c[1] < c[0]
  {
  }

  lemma FirstCoins(c: seq<nat>, money: nat)
    requires Currency(c) && c != [] && Payable(c, money)
    ensures var left := money - CoinsFor(money, c[0]) * c[0];
            && 0 <= left < c[0] < TWO_32 && Rest(c, money) == Rest(c[1..], left) && Currency(c[1..])
  {
    CurrencyTail(c);
    FewCoins(money, c[0]);
    hide Currency;
  }

  lemma CurrencyTail(c: seq<nat>)
    requires Currency(c) && c != []
    ensures Currency(c[1..]) && 1 <= c[0] < TWO_32 && forall i :: 0 <= i < |c| ==> c[i] > 0
  {
    assert forall i :: 0 <= i < |c[1..]| ==> c[1..][i] == c[i + 1];
  }

  lemma FewCoins(money: nat, w: nat)
    requires w > 0 && money / w < TWO_32
    ensures 0 <= money - CoinsFor(money, w) * w < w
  {
    Division(money, w);
    Unwrapped(money / w);
  }

  lemma Unwrapped(n: nat)
    requires n < TWO_32
    ensures n % TWO_32 == n
  {
  }

  lemma {:induction false} NoRest(c: seq<nat>, money: nat)
    requires Currency(c) && 1 in c && Payable(c, money)
    ensures Rest(c, money) == 0
  {
    FirstCoins(c, money);
    SecondIsSmaller(c);
    var left := money - CoinsFor(money, c[0]) * c[0];
    hide Rest, CoinsFor, Currency;
    if c[0] == 1 {
      assert left == 0;
    } else {
      assert 1 in c[1..] by { assert c == [c[0]] + c[1..]; }
      SmallQuotient(left, c[1]);
      NoRest(c[1..], left);
    }
  }

  lemma {:induction false} OneIsLeft(c: seq<nat>)
    requires Currency(c) && 1 !in c
    ensures Rest(c, 1) == 1
  {
    if c != [] {
      assert c[0] > 1 && 1 / c[0] == 0;
      OneIsLeft(c[1..]);
    }
  }

  /** Every amount can be paid exactly if there is a coin of worth 1. */
  lemma PaysAllIffUnitCoin(c: seq<nat>)
    requires Currency(c)
    ensures (forall money: nat :: Payable(c, money) ==> Rest(c, money) == 0) <==> 1 in c
  {
    if 1 in c {
      forall money: nat | Payable(c, money) ensures Rest(c, money) == 0 { NoRest(c, money); }
    } else {
      OneIsLeft(c);
      if c != [] { SmallQuotient(1, c[0]); }
      assert Payable(c, 1) && Rest(c, 1) != 0;
    }
  }

  lemma ValueMore(change: seq<Stack>, s: Stack)
    ensures ValueOf(change + [s]) == ValueOf(change) + Value(s)
  {
    assert (change + [s])[..|change|] == change;
  }

  // ----- Taking from stacks -----------------------------------------------------------------

  /** The coins when n of a stack are gone */
  function Taken(coins: Coins, ref: nat, n: nat): Coins
    requires ref in coins
  {
    if n >= coins[ref].count then coins - {ref}
    else coins[ref := Stack(coins[ref].unit, coins[ref].count - n)]
  }

  lemma {:induction false} SumTaken(was: Coins, now: Coins, refs: seq<nat>, ref: nat)
    requires forall r :: r in refs && r != ref ==> Worth(now, r) == Worth(was, r)
    requires NoDup(refs)
    ensures Sum(now, refs) == Sum(was, refs) + if ref in refs then Worth(now, ref) - Worth(was, ref) else 0
  {
    if refs != [] {
      assert forall i, j :: 0 <= i < j < |refs[1..]| ==> refs[1..][i] == refs[i + 1] && refs[1..][j] == refs[j + 1];
      SumTaken(was, now, refs[1..], ref);
      if refs[0] == ref {
        assert forall i :: 1 <= i < |refs| ==> refs[i] != refs[0];
      }
    }
  }

  /** How many coins of this worth cover the amount, and what comes back. */
  lemma Split(unit: nat, count: nat, money: nat)
    requires unit >= 1 && money < unit * count
    ensures var n := (money + unit - 1) / unit;
            n <= count && 0 <= unit * n - money < unit && (money > 0 ==> n >= 1)
  {
    var n := (money + unit - 1) / unit;
    Division(money + unit - 1, unit);
    assert n * unit == unit * n && count * unit == unit * count;
    NextMultiple(n - 1, unit);
    FactorOrder(n - 1, count, unit);
    if n <= 0 { TimesOrder(n, 0, unit); }
  }

  predicate Touched(was: Coins, now: Coins, r: nat) {
    r in was && (r !in now || now[r] != was[r])
  }

  /** Only stacks that were found change, and they only shrink; at most one of them is still there; and
      no stack is spared that is cheaper than one that was taken from, or as cheap and found earlier. */
  ghost predicate TakenCheapestFirst(was: Coins, now: Coins, refs: seq<nat>) {
    && (forall r :: r in now ==> r in was && now[r].unit == was[r].unit && now[r].count <= was[r].count)
    && (forall r :: Touched(was, now, r) ==> r in refs)
    && (forall a, b :: Touched(was, now, a) && Touched(was, now, b) && a in now && b in now ==> a == b)
    && (forall a, b :: Touched(was, now, a) && b in refs && b in was && !Touched(was, now, b) ==>
          Before(was, refs, a, b))
  }

  /** The stack is the last in the order that was taken from. */
  ghost predicate LastTouched(was: Coins, now: Coins, refs: seq<nat>, r: nat) {
    Touched(was, now, r) && forall x :: Touched(was, now, x) && x != r ==> Before(was, refs, x, r)
  }

  /** What is taken beyond the amount is less than one coin of the last stack taken from; every stack before
      it is gone. */
  ghost predicate Overpaid(was: Coins, now: Coins, refs: seq<nat>, over: int) {
    exists r :: LastTouched(was, now, refs, r) && 0 <= over < was[r].unit && AllBeforeGone(was, now, r)
  }

  ghost predicate AllBeforeGone(was: Coins, now: Coins, r: nat) {
    forall x :: Touched(was, now, x) && x in now ==> x == r
  }

  class Purse {
    const things: seq<Thing>
    const currency: seq<nat>
    var coins: Coins
    /** the stacks that `addMoney` has made, wherever there was room for them */
    var change: seq<Stack>

    ghost predicate Valid()
      reads this
    {
      Proper(coins) && NoDup(Walk([things])) && Currency(currency)
    }

    ghost function Worthy(): nat
      reads this
    {
      Total(things, coins)
    }

    /** One item: what is worth something goes to the map. */
    method Enter(ref: nat, map0: seq<Entry>, count0: nat, ghost refs: seq<nat>)
      returns (moneyMap: seq<Entry>, moneyCount: nat)
      requires Lists(map0, coins, refs) && ref !in refs && count0 == SumOf(map0)
      ensures Lists(moneyMap, coins, refs + [ref]) && moneyCount == SumOf(moneyMap)
    {
      moneyMap, moneyCount := map0, count0;
      var worth := Worth(coins, ref);
      if worth != 0 {
        ListsSorted(moneyMap, coins, refs);
        ghost var p;
        moneyMap, p := Emplace(moneyMap, Entry(worth, ref));
        ListsMore(map0, coins, refs, ref, p);
        SumOfInsert(map0, Entry(worth, ref), p);
        moneyCount := moneyCount + worth;
      } else {
        ListsSame(moneyMap, coins, refs, ref);
      }
    }

    /** One list: stacks go to the map, containers to the end of the queue. */
    method Scan(list: seq<Thing>, containers0: seq<seq<Thing>>, map0: seq<Entry>, count0: nat, ghost found: seq<nat>)
      returns (containers: seq<seq<Thing>>, moneyMap: seq<Entry>, moneyCount: nat)
      requires Lists(map0, coins, found) && NoDup(found + Items(list)) && count0 == SumOf(map0)
      ensures containers == containers0 + Boxes(list)
      ensures Lists(moneyMap, coins, found + Items(list)) && moneyCount == SumOf(moneyMap)
    {
      containers, moneyMap, moneyCount := containers0, map0, count0;
      var k := 0;
      assert found + Items(list[..0]) == found && containers0 + Boxes(list[..0]) == containers0;
      assert list[..|list|] == list;
      hide *;
      while k < |list|
        invariant 0 <= k <= |list| && containers == containers0 + Boxes(list[..k])
        invariant Lists(moneyMap, coins, found + Items(list[..k])) && moneyCount == SumOf(moneyMap)
      {
        ghost var refs := found + Items(list[..k]);
        OneThing(list, k, found, containers0);
        match list[k] {
          case Box(inner) =>
            containers := containers + [inner];
          case Item(ref) =>
            moneyMap, moneyCount := Enter(ref, moneyMap, moneyCount, refs);
        }
        k := k + 1;
      }
    }

    /** The stacks in the cylinder and in everything in it */
    method Collect() returns (moneyMap: seq<Entry>, moneyCount: nat)
      requires Valid()
      ensures Lists(moneyMap, coins, Walk([things])) && moneyCount == Worthy()
    {
      ghost var all := Walk([things]);
      WalkStarts(things);
      NothingListed(coins);
      var containers;
      ghost var found := Items(things);
      assert [] + Items(things) == found && [] + Boxes(things) == Boxes(things);
      containers, moneyMap, moneyCount := Scan(things, [], [], 0, []);
      assert containers[0..] == containers;
      hide *;
      var i := 0;
      while i < |containers|
        invariant 0 <= i <= |containers| && all == found + Walk(containers[i..]) && NoDup(all)
        invariant Lists(moneyMap, coins, found) && moneyCount == SumOf(moneyMap)
        decreases Sizes(containers[i..])
      {
        containers, moneyMap, moneyCount, found := ScanNext(containers, i, moneyMap, moneyCount, found, all);
        i := i + 1;
      }
      WalkedAll(containers, i, found, all);
      ListsSum(moneyMap, coins, all);
      WorthyIs();
    }

    /** One round of the second loop: a container of the queue */
    method ScanNext(containers0: seq<seq<Thing>>, i: nat, map0: seq<Entry>, count0: nat, ghost found0: seq<nat>,
        ghost all: seq<nat>)
      returns (containers: seq<seq<Thing>>, moneyMap: seq<Entry>, moneyCount: nat, ghost found: seq<nat>)
      requires i < |containers0| && all == found0 + Walk(containers0[i..]) && NoDup(all)
      requires Lists(map0, coins, found0) && count0 == SumOf(map0)
      ensures i + 1 <= |containers| && all == found + Walk(containers[i + 1..])
      ensures Lists(moneyMap, coins, found) && moneyCount == SumOf(moneyMap)
      ensures Sizes(containers[i + 1..]) < Sizes(containers0[i..])
    {
      hide *;
      WalkOn(containers0[i..], found0);
      QueueOn(containers0, i, Boxes(containers0[i]));
      containers, moneyMap, moneyCount := Scan(containers0[i], containers0, map0, count0, found0);
      found := found0 + Items(containers0[i]);
    }

    /** `addMoney`: stacks of at most 100 coins, the largest coins first */
    method AddMoney(money: nat)
      requires Currency(currency)
      modifies `change
      ensures ValueOf(change) + Rest(currency, money) == old(ValueOf(change)) + money
      ensures old(change) <= change && NewStacks(old(change), change, currency)
      ensures Payable(currency, money) ==>
                LargestFirst(old(change), change, currency, |currency|, Rest(currency, money))
    {
      if money == 0 {
        NothingToGive(change, currency);
        return;
      }
      ghost var was := change;
      var left: nat := money;
      var k := 0;
      NothingGiven(was, currency, money);
      hide *;
      while k < |currency|
        invariant 0 <= k <= |currency| && Giving(was, change, currency, money, k, left)
      {
        left := GiveOne(k, left, was, money);
        k := k + 1;
      }
      AllGiven(was, change, currency, money, left);
    }

    /** One round: as many coins of one worth as the amount that is left allows. */
    method GiveOne(k: nat, left: nat, ghost was: seq<Stack>, ghost money: nat) returns (rest: nat)
      requires Currency(currency) && k < |currency| && Giving(was, change, currency, money, k, left)
      modifies `change
      ensures Giving(was, change, currency, money, k + 1, rest)
    {
      ghost var before := change;
      var worth := currency[k];
      RestOn(currency, k, left);
      hide Rest, CoinsFor, Giving, CoinsCame, ValueOf;
      var currencyCoins := CoinsFor(left, worth);
      rest := left - currencyCoins * worth;
      MakeCoins(currencyCoins, worth);
      GivenOne(was, before, change, currency, money, k, left);
    }

    method MakeCoins(n: nat, worth: nat)
      requires worth in currency
      modifies `change
      ensures ValueOf(change) == old(ValueOf(change)) + n * worth && old(change) <= change
      ensures forall j :: |old(change)| <= j < |change| ==>
                1 <= change[j].count <= STACK_LIMIT && change[j].unit == worth
      ensures CoinsCame(old(change), change, n, worth)
    {
      var currencyCoins: int := n;
      while currencyCoins > 0
        invariant 0 <= currencyCoins <= n && old(change) <= change
        invariant ValueOf(change) + currencyCoins * worth == old(ValueOf(change)) + n * worth
        invariant forall j :: |old(change)| <= j < |change| ==>
                    1 <= change[j].count <= STACK_LIMIT && change[j].unit == worth
        invariant CoinsCame(old(change), change, n - currencyCoins, worth)
      {
        hide CoinsCame;
        var count := if currencyCoins < STACK_LIMIT then currencyCoins else STACK_LIMIT;
        ValueMore(change, Stack(worth, count));
        OneStackCame(old(change), change, n - currencyCoins, worth, count);
        FewerCoins(currencyCoins, count, worth);
        change := change + [Stack(worth, count)];
        currencyCoins := currencyCoins - count;
      }
    }

    /** `internalRemoveItem` of n coins of a stack */
    method InternalRemoveItem(ref: nat, n: nat)
      requires ref in coins && 1 <= n <= coins[ref].count
      modifies `coins
      ensures coins == Taken(old(coins), ref, n)
    {
      var stack := coins[ref];
      if n == stack.count {
        coins := coins - {ref};
      } else {
        coins := coins[ref := Stack(stack.unit, stack.count - n)];
      }
    }

    /** The stack that is worth more than what is left to pay: coins enough to cover it are taken, and
        the difference is given back. */
    method SplitStack(entry: Entry, money: nat) returns (ghost removeCount: nat, ghost lost: nat)
      requires entry.ref in coins && coins[entry.ref].count >= 1 && coins[entry.ref].unit >= 1 && Currency(currency)
      requires 1 <= money < entry.worth == Value(coins[entry.ref]) < TWO_32
      modifies `coins, `change
      ensures 1 <= removeCount <= old(coins)[entry.ref].count && coins == Taken(old(coins), entry.ref, removeCount)
      ensures ValueOf(change) + money + lost == old(ValueOf(change)) + old(coins)[entry.ref].unit * removeCount
      ensures LostFrom(currency, old(coins)[entry.ref].unit, lost) && (1 in currency ==> lost == 0)
      ensures 0 <= old(coins)[entry.ref].unit * removeCount - money < old(coins)[entry.ref].unit
    {
      var unit, count := coins[entry.ref].unit, coins[entry.ref].count;
      UnitOf(unit, count);
      AtLeastOne(unit, count);
      var worth := entry.worth / count;
      var n := (money + worth - 1) / worth;
      removeCount := n;
      Split(worth, count, money);
      SmallUnit(unit, count);
      if 1 in currency { ChangeIsExact(currency, worth * n - money, worth); }
      lost := Rest(currency, worth * n - money);
      AddMoney(worth * n - money);
      InternalRemoveItem(entry.ref, n);
    }

    /** The loop over the sorted map; `lost` is the part of the change that no coin is small enough for. */
    method TakeStacks(moneyMap: seq<Entry>, amount: nat, ghost refs: seq<nat>) returns (ghost lost: nat)
      requires Proper(coins) && Currency(currency) && NoDup(refs) && Lists(moneyMap, coins, refs)
      requires 1 <= amount <= SumOf(moneyMap)
      modifies `coins, `change
      ensures Settled(old(coins), coins, refs, currency, amount, ValueOf(change) - ValueOf(old(change)), lost)
    {
      hide *;
      ghost var was: Coins, change0 := coins, change;
      var money: nat, i, paid := amount, 0, false;
      lost := 0;
      NothingTaken(was, moneyMap, refs, amount);
      while i < |moneyMap| && !paid
        invariant 0 <= i <= |moneyMap|
        invariant !paid ==> Unpaid(was, coins, moneyMap, i, refs, amount, money) && change == change0
        invariant paid ==> Settled(was, coins, refs, currency, amount, ValueOf(change) - ValueOf(change0), lost)
      {
        money, paid, lost := TakeNext(moneyMap, i, money, was, refs, amount);
        i := i + 1;
      }
      if !paid { StillToPay(was, coins, moneyMap, i, refs, amount, money); }
    }

    /** One round: a stack that is worth less than what is left to pay is taken whole, any other pays the rest. */
    method TakeNext(m: seq<Entry>, i: nat, money: nat, ghost was: Coins, ghost refs: seq<nat>, ghost amount: nat)
      returns (left: nat, paid: bool, ghost lost: nat)
      requires Proper(was) && Currency(currency) && NoDup(refs) && Lists(m, was, refs) && i < |m|
      requires Unpaid(was, coins, m, i, refs, amount, money)
      modifies `coins, `change
      ensures !paid ==> Unpaid(was, coins, m, i + 1, refs, amount, left) && change == old(change)
      ensures paid ==> Settled(was, coins, refs, currency, amount, ValueOf(change) - ValueOf(old(change)), lost)
    {
      hide *;
      UnpaidMeans(was, coins, m, i, refs, amount, money);
      NextStack(was, m, i, refs);
      var entry := m[i];
      left, paid, lost := money, true, 0;
      if entry.worth < money {
        WholeTaken(was, m, i, refs, amount, money);
        InternalRemoveItem(entry.ref, coins[entry.ref].count);
        left, paid := money - entry.worth, false;
      } else if entry.worth > money {
        ghost var removeCount;
        EntryValue(was, m, i, refs);
        removeCount, lost := SplitStack(entry, money);
        SplitSettles(was, m, i, refs, currency, amount, money, removeCount, lost);
      } else {
        ExactSettles(was, m, i, refs, currency, amount);
        InternalRemoveItem(entry.ref, coins[entry.ref].count);
      }
    }

    /** `removeMoney` */
    method RemoveMoney(amount: nat) returns (ok: bool, ghost lost: nat)
      requires Valid()
      modifies `coins, `change
      ensures Valid()
      ensures ok <==> old(Worthy()) >= amount
      ensures !ok || amount == 0 ==> coins == old(coins) && change == old(change)
      ensures TakenCheapestFirst(old(coins), coins, Walk([things]))
      ensures ok ==> Worthy() + ValueOf(change) + amount + lost == old(Worthy() + ValueOf(change))
      ensures LostOnOne(currency, old(coins), Walk([things]), lost) && (1 in currency ==> lost == 0)
      ensures ok && amount > 0 ==>
                Overpaid(old(coins), coins, Walk([things]), old(Worthy()) - Worthy() - amount)
    {
      hide Settled, ValueOf, TakenCheapestFirst, Overpaid, LostOnOne, Walk, Total, Sum, SumOf, Lists, NoDup, Proper;
      hide Currency;
      ghost var refs := Walk([things]);
      NothingTouched(coins, refs);
      NothingLost(currency, coins, refs);
      if amount == 0 { return true, 0; }
      WorthyIs();
      var moneyMap, moneyCount := Collect();
      if moneyCount < amount { return false, 0; }
      ListsSum(moneyMap, coins, refs);
      ghost var was: Coins, change0 := coins, change;
      lost := TakeStacks(moneyMap, amount, refs);
      SettledMeans(was, coins, refs, currency, amount, ValueOf(change) - ValueOf(change0), lost);
      WorthyIs();
      return true, lost;
    }

    lemma WorthyIs()
      ensures Worthy() == Sum(coins, Walk([things]))
    {
      WalkFindsAll(coins, [things]);
      WalkStarts(things);
    }
  }

  lemma FewerCoins(n: int, k: int, worth: int)
    ensures (n - k) * worth + worth * k == n * worth
  {
  }

  /** The stacks before the cursor are gone, and so much is still to be paid. */
  ghost predicate Unpaid(was: Coins, now: Coins, m: seq<Entry>, i: nat, refs: seq<nat>, amount: nat, money: nat) {
    && i <= |m| && 1 <= money <= amount && SumOf(m[i..]) >= money
    && now == was - Gone(m, i) && Sum(now, refs) + amount == Sum(was, refs) + money
  }

  /** The amount is paid: only the cheapest stacks were taken from, in order, and all but the last are gone; what
      was taken beyond the amount is less than one coin of that, and is in the change, worth `gained`, or lost. */
  ghost predicate Settled(was: Coins, now: Coins, refs: seq<nat>, currency: seq<nat>, amount: nat, gained: int,
                          lost: nat) {
    && Currency(currency) && Proper(now) && TakenCheapestFirst(was, now, refs)
    && Sum(now, refs) + gained + amount + lost == Sum(was, refs)
    && LostOnOne(currency, was, refs, lost) && (1 in currency ==> lost == 0)
    && Overpaid(was, now, refs, Sum(was, refs) - Sum(now, refs) - amount)
  }

  lemma NothingTouched(coins: Coins, refs: seq<nat>)
    ensures TakenCheapestFirst(coins, coins, refs)
  {
  }

  lemma NothingTaken(was: Coins, m: seq<Entry>, refs: seq<nat>, amount: nat)
    requires Lists(m, was, refs) && 1 <= amount <= SumOf(m)
    ensures Unpaid(was, was, m, 0, refs, amount, amount)
  {
    GoneNone(was, m);
    assert m[0..] == m;
  }

  lemma UnpaidMeans(was: Coins, now: Coins, m: seq<Entry>, i: nat, refs: seq<nat>, amount: nat, money: nat)
    requires Unpaid(was, now, m, i, refs, amount, money)
    ensures now == was - Gone(m, i) && 1 <= money && Sum(now, refs) + amount == Sum(was, refs) + money
  {
  }

  lemma SettledIs(was: Coins, now: Coins, refs: seq<nat>, currency: seq<nat>, amount: nat, over: int, lost: nat)
    requires Currency(currency) && Proper(now) && TakenCheapestFirst(was, now, refs)
    requires Sum(now, refs) + amount + over == Sum(was, refs) && Overpaid(was, now, refs, over)
    requires LostOnOne(currency, was, refs, lost) && (1 in currency ==> lost == 0)
    ensures Settled(was, now, refs, currency, amount, over - lost, lost)
  {
    hide Sum, TakenCheapestFirst, Overpaid, LostOnOne, Proper, Currency;
  }

  lemma StillToPay(was: Coins, now: Coins, m: seq<Entry>, i: nat, refs: seq<nat>, amount: nat, money: nat)
    requires Unpaid(was, now, m, i, refs, amount, money)
    ensures i < |m|
  {
    NothingToSum(m);
  }

  lemma SettledMeans(was: Coins, now: Coins, refs: seq<nat>, currency: seq<nat>, amount: nat, gained: int, lost: nat)
    requires Settled(was, now, refs, currency, amount, gained, lost)
    ensures Currency(currency) && Proper(now) && TakenCheapestFirst(was, now, refs)
    ensures Sum(now, refs) + gained + amount + lost == Sum(was, refs)
    ensures LostOnOne(currency, was, refs, lost) && (1 in currency ==> lost == 0)
    ensures Overpaid(was, now, refs, Sum(was, refs) - Sum(now, refs) - amount)
  {
  }

  lemma EntryValue(was: Coins, m: seq<Entry>, i: nat, refs: seq<nat>)
    requires Lists(m, was, refs) && Proper(was) && i < |m|
    ensures m[i].ref in was && m[i].worth == Value(was[m[i].ref]) < TWO_32
  {
    EntryStack(was, m, i, refs);
  }

  lemma WholeTaken(was: Coins, m: seq<Entry>, i: nat, refs: seq<nat>, amount: nat, money: nat)
    requires Lists(m, was, refs) && Proper(was) && NoDup(refs) && i < |m|
    requires Unpaid(was, was - Gone(m, i), m, i, refs, amount, money) && m[i].worth < money
    requires m[i].ref in was && m[i].ref in was - Gone(m, i)
    ensures Unpaid(was, Taken(was - Gone(m, i), m[i].ref, was[m[i].ref].count), m, i + 1, refs, amount,
                   money - m[i].worth)
  {
    NextStack(was, m, i, refs);
    TakeSome(was, m, i, refs, was[m[i].ref].count);
    hide Lists, Sum, SumOf, Gone, Taken, NoDup, Proper;
  }

  lemma SplitSettles(was: Coins, m: seq<Entry>, i: nat, refs: seq<nat>, currency: seq<nat>, amount: nat, money: nat,
                     n: nat, lost: nat)
    requires Lists(m, was, refs) && Proper(was) && NoDup(refs) && i < |m| && Currency(currency)
    requires Unpaid(was, was - Gone(m, i), m, i, refs, amount, money)
    requires m[i].ref in was && m[i].ref in was - Gone(m, i) && m[i].ref !in Gone(m, i)
    requires 1 <= n <= was[m[i].ref].count && 0 <= was[m[i].ref].unit * n - money < was[m[i].ref].unit
    requires LostFrom(currency, was[m[i].ref].unit, lost) && (1 in currency ==> lost == 0)
    ensures Settled(was, Taken(was - Gone(m, i), m[i].ref, n), refs, currency, amount,
                    was[m[i].ref].unit * n - money - lost, lost)
  {
    hide *;
    var over := was[m[i].ref].unit * n - money;
    UnpaidMeans(was, was - Gone(m, i), m, i, refs, amount, money);
    TakeSome(was, m, i, refs, n);
    LastIsTaken(was, m, i, refs, n, over);
    LostOnEntry(currency, was, m, i, refs, lost);
    SettledIs(was, Taken(was - Gone(m, i), m[i].ref, n), refs, currency, amount, over, lost);
  }

  lemma ExactSettles(was: Coins, m: seq<Entry>, i: nat, refs: seq<nat>, currency: seq<nat>, amount: nat)
    requires Lists(m, was, refs) && Proper(was) && NoDup(refs) && i < |m| && Currency(currency)
    requires Unpaid(was, was - Gone(m, i), m, i, refs, amount, m[i].worth)
    requires m[i].ref in was && m[i].ref in was - Gone(m, i) && m[i].ref !in Gone(m, i)
    ensures Settled(was, Taken(was - Gone(m, i), m[i].ref, was[m[i].ref].count), refs, currency, amount, 0, 0)
  {
    hide *;
    var n := was[m[i].ref].count;
    UnpaidMeans(was, was - Gone(m, i), m, i, refs, amount, m[i].worth);
    NextStack(was, m, i, refs);
    TakeSome(was, m, i, refs, n);
    LastIsTaken(was, m, i, refs, n, 0);
    NothingLost(currency, was, refs);
    SettledIs(was, Taken(was - Gone(m, i), m[i].ref, n), refs, currency, amount, 0, 0);
  }

  lemma GoneNone(was: Coins, m: seq<Entry>)
    ensures was - Gone(m, 0) == was
  {
  }

  lemma NothingToSum(m: seq<Entry>)
    ensures SumOf(m[|m|..]) == 0
  {
  }

  lemma UnitOf(unit: nat, count: nat)
    requires count >= 1
    ensures unit * count / count == unit
  {
    QuotientAndRest(unit * count, unit, 0, count);
  }

  lemma SmallUnit(unit: nat, count: nat)
    requires count >= 1
    ensures unit <= unit * count
  {
  }

  lemma RestOn(c: seq<nat>, k: nat, money: nat)
    requires k < |c| && forall i :: 0 <= i < |c| ==> c[i] > 0
    ensures CoinsFor(money, c[k]) * c[k] <= money
    ensures Rest(c[k..], money) == Rest(c[k + 1..], money - CoinsFor(money, c[k]) * c[k])
  {
    CoinsWorth(money, c[k]);
    assert c[k..][1..] == c[k + 1..];
  }

  /** The change is less than one coin of the stack that was split, and is paid in full. */
  lemma ChangeIsExact(c: seq<nat>, money: nat, unit: nat)
    requires Currency(c) && 1 in c && money < unit < TWO_32
    ensures Rest(c, money) == 0
  {
    SmallQuotient(money, c[0]);
    NoRest(c, money);
  }

  // ----- What the first stacks of the map are -----------------------------------------------

  ghost function Gone(m: seq<Entry>, i: nat): set<nat> {
    set j | 0 <= j < i && j < |m| :: m[j].ref
  }

  lemma EntryStack(was: Coins, m: seq<Entry>, i: nat, refs: seq<nat>)
    requires Lists(m, was, refs) && Proper(was) && i < |m|
    ensures var ref := m[i].ref;
            && ref in was && ref !in Gone(m, i) && m[i].worth == Value(was[ref])
            && was[ref].count >= 1 && was[ref].unit >= 1
            && Value(was[ref]) < TWO_32
            && Gone(m, i + 1) == Gone(m, i) + {ref}
  {
    assert m[i] in m;
  }

  /** The stack at the cursor is still whole, and the map says what it is worth. */
  lemma NextStack(was: Coins, m: seq<Entry>, i: nat, refs: seq<nat>)
    requires Lists(m, was, refs) && Proper(was) && i < |m|
    ensures var now, ref := was - Gone(m, i), m[i].ref;
            && ref in now && now[ref] == was[ref] && now[ref].count >= 1 && now[ref].unit >= 1
            && m[i].worth == now[ref].unit * now[ref].count < TWO_32
            && Taken(now, ref, now[ref].count) == was - Gone(m, i + 1) && ref !in Gone(m, i) && ref in was
    ensures SumOf(m[i..]) == m[i].worth + SumOf(m[i + 1..])
  {
    EntryStack(was, m, i, refs);
    assert m[i..][1..] == m[i + 1..];
  }

  lemma NothingLost(currency: seq<nat>, was: Coins, refs: seq<nat>)
    requires Currency(currency)
    ensures LostOnOne(currency, was, refs, 0)
  {
  }

  lemma LostOnEntry(currency: seq<nat>, was: Coins, m: seq<Entry>, i: nat, refs: seq<nat>, lost: nat)
    requires Currency(currency) && Lists(m, was, refs) && i < |m| && m[i].ref in was
    requires LostFrom(currency, was[m[i].ref].unit, lost)
    ensures LostOnOne(currency, was, refs, lost)
  {
    assert m[i] in m;
  }

  /** Taking n coins of it, or all. */
  lemma TakeSome(was: Coins, m: seq<Entry>, i: nat, refs: seq<nat>, n: nat)
    requires Lists(m, was, refs) && Proper(was) && NoDup(refs) && i < |m|
    requires m[i].ref in was && 1 <= n <= was[m[i].ref].count && m[i].ref !in Gone(m, i)
    ensures var now, ref := was - Gone(m, i), m[i].ref;
            var after := Taken(now, ref, n);
            && Sum(after, refs) + was[ref].unit * n == Sum(now, refs)
            && Proper(after) && TakenCheapestFirst(was, after, refs)
  {
    var now, ref := was - Gone(m, i), m[i].ref;
    EntryStack(was, m, i, refs);
    assert ref in refs by { assert m[i] in m; }
    TakenTouches(was, m, i, refs, n);
    assert Proper(now) by { FewerAreProper(was, Gone(m, i)); }
    hide Gone, NoDup, Lists, TakenCheapestFirst, Proper, Taken, Sum, Worth;
    TakenIsProper(now, ref, n);
    TakenSum(now, refs, ref, n);
  }

  lemma FewerAreProper(coins: Coins, gone: set<nat>)
    requires Proper(coins)
    ensures Proper(coins - gone)
  {
  }

  lemma TakenSum(now: Coins, refs: seq<nat>, ref: nat, n: nat)
    requires NoDup(refs) && ref in refs && ref in now && 1 <= n <= now[ref].count && Proper(now)
    ensures Sum(Taken(now, ref, n), refs) + now[ref].unit * n == Sum(now, refs)
  {
    LessWorth(now[ref].unit, now[ref].count, n);
    hide NoDup;
    SumTaken(now, Taken(now, ref, n), refs, ref);
  }

  lemma TakenTouches(was: Coins, m: seq<Entry>, i: nat, refs: seq<nat>, n: nat)
    requires Lists(m, was, refs) && Proper(was) && i < |m|
    requires m[i].ref in was && 1 <= n <= was[m[i].ref].count && m[i].ref !in Gone(m, i)
    ensures TakenCheapestFirst(was, Taken(was - Gone(m, i), m[i].ref, n), refs)
  {
    EntryStack(was, m, i, refs);
    hide Gone, Lists, TakenCheapestFirst, Proper;
    TouchedSoFar(was, m, i, refs, Taken(was - Gone(m, i), m[i].ref, n));
  }

  lemma TakenIsProper(now: Coins, ref: nat, n: nat)
    requires ref in now && Proper(now) && 1 <= n <= now[ref].count
    ensures Proper(Taken(now, ref, n))
  {
    LessWorth(now[ref].unit, now[ref].count, n);
  }

  lemma TouchedSoFar(was: Coins, m: seq<Entry>, i: nat, refs: seq<nat>, after: Coins)
    requires Lists(m, was, refs) && Proper(was) && i < |m|
    requires forall r :: r in after ==> r in was && r !in Gone(m, i)
    requires forall r :: r in was && r !in Gone(m, i + 1) ==> r in after && after[r] == was[r]
    requires m[i].ref in after ==>
               after[m[i].ref].unit == was[m[i].ref].unit && after[m[i].ref].count < was[m[i].ref].count
    ensures TakenCheapestFirst(was, after, refs)
  {
    EntryStack(was, m, i, refs);
    forall r | Touched(was, after, r) ensures r in refs {
      var j := PlaceOf(m, i + 1, r);
      assert m[j] in m;
    }
    forall a, b | Touched(was, after, a) && b in refs && b in was && !Touched(was, after, b)
      ensures Before(was, refs, a, b)
    {
      assert b !in Gone(m, i + 1);
      TakenIsCheaper(was, m, i + 1, refs, a, b);
    }
  }

  lemma PlaceOf(m: seq<Entry>, i: nat, r: nat) returns (j: nat)
    requires r in Gone(m, i)
    ensures j < i && j < |m| && m[j].ref == r
  {
    j :| 0 <= j < i && j < |m| && m[j].ref == r;
  }

  lemma TakenIsCheaper(was: Coins, m: seq<Entry>, i: nat, refs: seq<nat>, a: nat, b: nat)
    requires Lists(m, was, refs) && Proper(was) && a in Gone(m, i) && b in refs && b in was && b !in Gone(m, i)
    ensures Before(was, refs, a, b)
  {
    var j := PlaceOf(m, i, a);
    assert m[j] in m;
    AtLeastOne(was[b].unit, was[b].count);
    assert Entry(Worth(was, b), b) in m;
    var k :| 0 <= k < |m| && m[k] == Entry(Worth(was, b), b);
    assert k >= i;
  }

  /** The stack at the cursor is the last that was taken from. */
  lemma LastIsTaken(was: Coins, m: seq<Entry>, i: nat, refs: seq<nat>, n: nat, over: int)
    requires Lists(m, was, refs) && Proper(was) && i < |m|
    requires m[i].ref in was && 1 <= n <= was[m[i].ref].count && m[i].ref !in Gone(m, i)
    requires 0 <= over < was[m[i].ref].unit
    ensures Overpaid(was, Taken(was - Gone(m, i), m[i].ref, n), refs, over)
  {
    var ref := m[i].ref;
    var now := Taken(was - Gone(m, i), ref, n);
    forall x | Touched(was, now, x) && x != ref
      ensures Before(was, refs, x, ref) && x !in now
    {
      var j := PlaceOf(m, i, x);
      hide Before;
    }
    assert Touched(was, now, ref);
    hide Touched, Before, Taken, Gone, Lists, Proper;
    assert LastTouched(was, now, refs, ref);
  }

  lemma AtLeastOne(a: nat, b: nat)
    requires a >= 1 && b >= 1
    ensures a * b >= 1
  {
  }

  lemma LessWorth(unit: nat, count: nat, n: nat)
    requires n <= count
    ensures unit * (count - n) + unit * n == unit * count && unit * (count - n) <= unit * count
  {
  }

  lemma WalkStarts(things: seq<Thing>)
    ensures Walk([things]) == Items(things) + Walk(Boxes(things))
    ensures NoDup(Walk([things])) ==> NoDup(Items(things))
    ensures forall coins :: Totals(coins, [things]) == Total(things, coins)
  {
    assert [things][1..] + Boxes(things) == Boxes(things);
    NoDupPrefix(Items(things), Walk(Boxes(things)));
  }

  lemma NoDupPrefix(a: seq<nat>, b: seq<nat>)
    ensures NoDup(a + b) ==> NoDup(a)
  {
    assert forall i :: 0 <= i < |a| ==> a[i] == (a + b)[i];
  }

  lemma NothingListed(coins: Coins)
    ensures Lists([], coins, [])
  {
  }

  lemma QueueOn(containers: seq<seq<Thing>>, i: nat, more: seq<seq<Thing>>)
    requires i < |containers|
    ensures (containers + more)[i + 1..] == containers[i..][1..] + more && containers[i..] != []
    ensures containers[i..][0] == containers[i]
  {
  }

  lemma WalkedAll(containers: seq<seq<Thing>>, i: nat, found: seq<nat>, all: seq<nat>)
    requires i >= |containers| && i <= |containers| && all == found + Walk(containers[i..])
    ensures found == all
  {
    assert containers[i..] == [];
    WalkEnds();
    assert found + [] == found;
  }

  lemma WalkOn(lists: seq<seq<Thing>>, found: seq<nat>)
    requires lists != []
    ensures found + Walk(lists) == (found + Items(lists[0])) + Walk(lists[1..] + Boxes(lists[0]))
    ensures NoDup(found + Walk(lists)) ==> NoDup(found + Items(lists[0]))
    ensures Sizes(lists[1..] + Boxes(lists[0])) < Sizes(lists)
  {
    SizesOfBoxes(lists[0]);
    SizesAppend(lists[1..], Boxes(lists[0]));
    var next := lists[1..] + Boxes(lists[0]);
    assert Walk(lists) == Items(lists[0]) + Walk(next);
    hide Items, Boxes, NoDup, Walk;
    NoDupPrefix(found + Items(lists[0]), Walk(next));
    Assoc(found, Items(lists[0]), Walk(next));
  }

  lemma WalkEnds()
    ensures Walk([]) == []
  {
  }

  lemma ListsSum(m: seq<Entry>, coins: Coins, refs: seq<nat>)
    requires Lists(m, coins, refs)
    ensures SumOf(m) == Sum(coins, refs)
  {
  }

  lemma ListsSorted(m: seq<Entry>, coins: Coins, refs: seq<nat>)
    requires Lists(m, coins, refs)
    ensures Sorted(m)
  {
  }

  lemma ItemsMore(list: seq<Thing>, k: nat)
    requires k < |list|
    ensures Items(list[..k + 1]) == Items(list[..k]) + match list[k] case Item(ref) => [ref] case Box(_) => []
    ensures Boxes(list[..k + 1]) == Boxes(list[..k]) + match list[k] case Item(_) => [] case Box(inner) => [inner]
  {
    assert list[..k + 1][..k] == list[..k];
  }

  lemma OneThing(list: seq<Thing>, k: nat, found: seq<nat>, queue: seq<seq<Thing>>)
    requires k < |list| && NoDup(found + Items(list))
    ensures match list[k]
            case Box(inner) =>
              && queue + Boxes(list[..k + 1]) == (queue + Boxes(list[..k])) + [inner]
              && found + Items(list[..k + 1]) == found + Items(list[..k])
            case Item(ref) =>
              && Boxes(list[..k + 1]) == Boxes(list[..k])
              && found + Items(list[..k + 1]) == (found + Items(list[..k])) + [ref]
              && ref !in found + Items(list[..k])
  {
    ItemsMore(list, k);
    ItemsPrefix(list, k + 1);
    hide Items, Boxes, NoDup;
    match list[k]
    case Box(inner) =>
      Assoc(queue, Boxes(list[..k]), [inner]);
    case Item(ref) =>
      Assoc(found, Items(list[..k]), [ref]);
      PrefixAfter(found, Items(list[..k + 1]), Items(list));
      NewInPrefix(found + Items(list[..k]), ref, found + Items(list));
  }

  lemma PrefixAfter(a: seq<nat>, b: seq<nat>, c: seq<nat>)
    requires b <= c
    ensures a + b <= a + c
  {
  }

  lemma NewInPrefix(refs: seq<nat>, ref: nat, all: seq<nat>)
    requires refs + [ref] <= all && NoDup(all)
    ensures ref !in refs
  {
    assert all[|refs|] == (refs + [ref])[|refs|] == ref;
    forall i | 0 <= i < |refs| ensures refs[i] != ref {
      assert all[i] == (refs + [ref])[i] == refs[i];
    }
  }

  lemma {:induction false} ItemsPrefix(list: seq<Thing>, k: nat)
    requires k <= |list|
    ensures Items(list[..k]) <= Items(list)
    decreases |list|
  {
    if k == |list| {
      assert list[..k] == list;
    } else {
      var n := |list| - 1;
      ItemsPrefix(list[..n], k);
      assert list[..n][..k] == list[..k];
    }
  }
}