/** `addMoney` on a container: the coins that fit are added to it, the others come to the tile. */
module MoneyDelivery {
  import opened Arithmetic
  import opened Collections
  import opened Forests
  import opened Containers
  import opened StackAccounts
  import opened ContainerQueries
  import opened MoveTheory
  import opened AddItem
  import Money

  /** A type of coin and what one of them is worth. */
  datatype Coin = Coin(worth: nat, kind: Kind)

  /** A stack of coins on the tile */
  datatype Pile = Pile(kind: Kind, count: nat)

  const NEW_COIN := Attrs(None, [])

  function Units(currency: seq<Coin>): seq<nat> {
    seq(|currency|, i requires 0 <= i < |currency| => currency[i].worth)
  }

  /** The table of currency items: worths as they are sorted, and types that are stackable and different. */
  ghost predicate Minted(currency: seq<Coin>) {
    && Money.Currency(Units(currency))
    && (forall i :: 0 <= i < |currency| ==> currency[i].kind.stackable)
    && (forall i, j :: 0 <= i < j < |currency| ==> currency[i].kind != currency[j].kind)
  }

  // ----- What the container and the tile hold ------------------------------------------------

  /** The coins of one type on the tile */
  ghost function OnTile(tile: seq<Pile>, kind: Kind): nat {
    if tile == [] then 0
    else OnTile(tile[..|tile| - 1], kind) + if tile[|tile| - 1].kind == kind then tile[|tile| - 1].count else 0
  }

  /** The coins of one type in container d */
  ghost function Inside(f: Forest<Item>, d: Item, kind: Kind): int
    requires d in f
  {
    Held(f, d, kind, NEW_COIN)
  }

  /** What the coins in container d and on the tile are worth together, from the k-th type of the currency on. */
  ghost function WorthFrom(f: Forest<Item>, d: Item, tile: seq<Pile>, currency: seq<Coin>, k: nat): int
    requires d in f && k <= |currency|
    decreases |currency| - k
  {
    if k == |currency| then 0
    else
      var coin := currency[k];
      coin.worth * (Inside(f, d, coin.kind) + OnTile(tile, coin.kind)) + WorthFrom(f, d, tile, currency, k + 1)
  }

  /** The worth of all of them */
  ghost function WorthOf(f: Forest<Item>, d: Item, tile: seq<Pile>, currency: seq<Coin>): int
    requires d in f
  {
    WorthFrom(f, d, tile, currency, 0)
  }

  /** So many new coins of a type have come to c and the tile together, and nothing else has changed what
      containers hold. */
  ghost predicate Came(f: Forest<Item>, g: Forest<Item>, c: Item, kind: Kind, n: int, tile0: seq<Pile>,
                       tile: seq<Pile>) {
    && f.Keys <= g.Keys
    && (forall d, k, attrs :: d in f ==> Stays(f, g, c, kind, d, k, attrs))
    && (c in f ==> Inside(g, c, kind) + OnTile(tile, kind) == Inside(f, c, kind) + OnTile(tile0, kind) + n)
    && (forall k :: k != kind ==> OnTile(tile, k) == OnTile(tile0, k))
  }

  ghost predicate Stays(f: Forest<Item>, g: Forest<Item>, c: Item, kind: Kind, d: Item, k: Kind, attrs: Attrs)
    requires d in f
  {
    d in g && (d != c || k != kind || attrs != NEW_COIN ==> Held(g, d, k, attrs) == Held(f, d, k, attrs))
  }

  lemma CameNone(f: Forest<Item>, c: Item, kind: Kind, tile: seq<Pile>)
    ensures Came(f, f, c, kind, 0, tile, tile)
  {
  }

  lemma CameOn(f: Forest<Item>, g: Forest<Item>, h: Forest<Item>, c: Item, kind: Kind, n: int, m: int,
               tile0: seq<Pile>, tile1: seq<Pile>, tile2: seq<Pile>)
    requires c in f && Came(f, g, c, kind, n, tile0, tile1) && Came(g, h, c, kind, m, tile1, tile2)
    ensures Came(f, h, c, kind, n + m, tile0, tile2)
  {
    hide Inside, OnTile, Held;
    forall d, k, attrs | d in f
      ensures Stays(f, h, c, kind, d, k, attrs)
    {
      assert Stays(f, g, c, kind, d, k, attrs);
      assert Stays(g, h, c, kind, d, k, attrs);
    }
  }

  /** A coin that was delivered has come to the container. */
  lemma DeliveredCame(f: Forest<Item>, coin: Item, k: Forest<Item>, g: Forest<Item>, c: Item, kind: Kind, n: nat,
                      tile: seq<Pile>)
    requires Orderly(f) && c in f && coin !in f
    requires k == f[coin := Cell(kind, NEW_COIN, n, None, false, 0, [], 0, 0)] && Delivered(k, g, c, coin)
    ensures Came(f, g, c, kind, n, tile, tile)
  {
    hide Held, Delivered, Gained;
    forall d, q, attrs | d in f
      ensures Stays(f, g, c, kind, d, q, attrs)
    {
      DeliveredTo(f, coin, k, g, c, kind, n, d, q, attrs);
    }
    DeliveredTo(f, coin, k, g, c, kind, n, c, kind, NEW_COIN);
    DeliveredKeys(k, g, c, coin);
  }

  lemma DeliveredKeys(k: Forest<Item>, g: Forest<Item>, c: Item, coin: Item)
    requires c in k && coin in k && Delivered(k, g, c, coin)
    ensures k.Keys <= g.Keys
  {
  }

  lemma DeliveredTo(f: Forest<Item>, coin: Item, k: Forest<Item>, g: Forest<Item>, c: Item, kind: Kind, n: nat,
                    d: Item, q: Kind, attrs: Attrs)
    requires Orderly(f) && c in f && d in f && coin !in f
    requires k == f[coin := Cell(kind, NEW_COIN, n, None, false, 0, [], 0, 0)] && Delivered(k, g, c, coin)
    ensures d in g && Held(g, d, q, attrs)
            == Held(f, d, q, attrs) + if d == c && q == kind && attrs == NEW_COIN then n else 0
  {
    assert Gained(k, g, c, coin, d, q, attrs);
    NewHolds(f, coin, k, d, q, attrs);
    hide Held;
  }

  lemma NewHolds(f: Forest<Item>, coin: Item, k: Forest<Item>, d: Item, kind: Kind, attrs: Attrs)
    requires Orderly(f) && d in f && coin !in f && k.Keys == f.Keys + {coin} && forall x :: x in f ==> k[x] == f[x]
    ensures Held(k, d, kind, attrs) == Held(f, d, kind, attrs)
  {
    assert ListHolds(f, d);
    TallyFrame(f, k, f[d].list, kind, attrs);
  }

  /** A pile that was put on the tile has come to it. */
  lemma PutCame(f: Forest<Item>, c: Item, kind: Kind, n: nat, tile: seq<Pile>)
    ensures Came(f, f, c, kind, n, tile, tile + [Pile(kind, n)])
  {
    var tile' := tile + [Pile(kind, n)];
    assert tile'[..|tile|] == tile;
  }

  /** The worth grows by what has come. */
  lemma {:induction false} CameWorth(f: Forest<Item>, g: Forest<Item>, c: Item, n: int, tile0: seq<Pile>,
                                     tile: seq<Pile>, currency: seq<Coin>, k: nat, from: nat)
    requires c in f && k < |currency| && from <= |currency|
    requires Came(f, g, c, currency[k].kind, n, tile0, tile)
    requires forall i, j :: 0 <= i < j < |currency| ==> currency[i].kind != currency[j].kind
    ensures c in g && WorthFrom(g, c, tile, currency, from)
            == WorthFrom(f, c, tile0, currency, from) + if from <= k then currency[k].worth * n else 0
    decreases |currency| - from
  {
    assert Stays(f, g, c, currency[k].kind, c, currency[k].kind, NEW_COIN);
    if from < |currency| {
      CameWorth(f, g, c, n, tile0, tile, currency, k, from + 1);
      hide OnTile;
      if from == k {
        Distributes(currency[k].worth, Inside(f, c, currency[k].kind) + OnTile(tile0, currency[k].kind), n);
      } else {
        assert Stays(f, g, c, currency[k].kind, c, currency[from].kind, NEW_COIN);
      }
    }
  }

  lemma Distributes(w: int, a: int, n: int)
    ensures w * (a + n) == w * a + w * n
  {
  }

  // ----- Delivering -------------------------------------------------------------------------

  /** One stack of new coins: into the container, or on the tile if that refuses it. */
  method GiveStack(ghost W: set<Item>, c: Item, kind: Kind, n: nat, flags: Flags, tile0: seq<Pile>)
    returns (ghost W': set<Item>, tile: seq<Pile>)
    requires c in W && c.box && Orderly(View(W)) && Plain(flags) && kind.stackable && 1 <= n <= STACK_LIMIT
    modifies W
    ensures W <= W' && fresh(W' - W) && Orderly(View(W'))
    ensures Came(old(View(W)), View(W'), c, kind, n, tile0, tile)
  {
    hide Orderly, Delivered, Came, AddVerdict;
    ghost var f := View(W);
    var coin := new Item(kind, NEW_COIN, n, false, 0);
    ghost var k := View(W + {coin});
    assert k == f[coin := Cell(kind, NEW_COIN, n, None, false, 0, [], 0, 0)];
    NewKeeps(f, coin, k[coin]);
    var ret, rest;
    ret, rest, W' := InternalAddItem(W + {coin}, c, coin, flags, false);
    if ret == NoError {
      tile := tile0;
      DeliveredCame(f, coin, k, View(W'), c, kind, n, tile0);
    } else {
      W', tile := W, tile0 + [Pile(kind, n)];
      assert View(W) == f by { SameView(W, coin, f, View(W + {coin}), k); }
      PutCame(f, c, kind, n, tile0);
    }
  }

  lemma SameView(W: set<Item>, coin: Item, f: Forest<Item>, now: Forest<Item>, k: Forest<Item>)
    requires coin !in W && f.Keys == W && now == View(W + {coin}) == k && forall x :: x in f ==> k[x] == f[x]
    ensures View(W) == f
  {
    forall x | x in W
      ensures View(W)[x] == f[x]
    {
      assert View(W + {coin})[x] == x.Look();
    }
  }

  /** The inner loop: so many coins of one type, in stacks of at most 100. */
  method GiveCoins(ghost W: set<Item>, c: Item, kind: Kind, n: nat, flags: Flags, tile0: seq<Pile>)
    returns (ghost W': set<Item>, tile: seq<Pile>)
    requires c in W && c.box && Orderly(View(W)) && Plain(flags) && kind.stackable
    modifies W
    ensures W <= W' && fresh(W' - W) && Orderly(View(W'))
    ensures Came(old(View(W)), View(W'), c, kind, n, tile0, tile)
  {
    hide Orderly, Came, View, Plain;
    ghost var f := View(W);
    W', tile := W, tile0;
    var currencyCoins := n;
    CameNone(f, c, kind, tile0);
    while currencyCoins > 0
      invariant 0 <= currencyCoins <= n && W <= W' && fresh(W' - W) && Orderly(View(W'))
      invariant Came(f, View(W'), c, kind, n - currencyCoins, tile0, tile)
    {
      var count := if currencyCoins < STACK_LIMIT then currencyCoins else STACK_LIMIT;
      ghost var g, before := View(W'), tile;
      W', tile := GiveStack(W', c, kind, count, flags, tile);
      CameOn(f, g, View(W'), c, kind, n - currencyCoins, count, tile0, before, tile);
      currencyCoins := currencyCoins - count;
    }
  }

  /** Only c has got anything, and only new coins of the currency. */
  ghost predicate OnlyCoins(f: Forest<Item>, g: Forest<Item>, c: Item, currency: seq<Coin>) {
    && f.Keys <= g.Keys
    && forall d, k, attrs :: d in f ==> Untouched(f, g, c, currency, d, k, attrs)
  }

  ghost predicate Untouched(f: Forest<Item>, g: Forest<Item>, c: Item, currency: seq<Coin>, d: Item, k: Kind,
                            attrs: Attrs)
    requires d in f
  {
    && d in g
    && (d != c || attrs != NEW_COIN || !IsCoin(currency, k) ==> Held(g, d, k, attrs) == Held(f, d, k, attrs))
  }

  ghost predicate IsCoin(currency: seq<Coin>, kind: Kind) {
    exists i :: 0 <= i < |currency| && currency[i].kind == kind
  }

  lemma OnlyCoinsCame(f: Forest<Item>, g: Forest<Item>, h: Forest<Item>, c: Item, currency: seq<Coin>, k: nat, n: int,
                      tile0: seq<Pile>, tile: seq<Pile>)
    requires OnlyCoins(f, g, c, currency) && k < |currency| && Came(g, h, c, currency[k].kind, n, tile0, tile)
    ensures OnlyCoins(f, h, c, currency)
  {
    hide Held, OnTile, Inside;
    forall d, q, attrs | d in f
      ensures Untouched(f, h, c, currency, d, q, attrs)
    {
      assert Untouched(f, g, c, currency, d, q, attrs);
      assert Stays(g, h, c, currency[k].kind, d, q, attrs);
    }
  }

  lemma Positive(currency: seq<Coin>)
    requires Minted(currency)
    ensures forall i :: 0 <= i < |currency| ==>
              currency[i].worth > 0 && Units(currency)[i] == currency[i].worth && currency[i].kind.stackable
  {
    forall i | 0 <= i < |currency|
      ensures currency[i].worth > 0 && Units(currency)[i] == currency[i].worth
    {
      assert 1 <= Units(currency)[i];
    }
  }

  /** What the loop has done when k types of coins have been given out and an amount is left. */
  ghost predicate Given(f: Forest<Item>, g: Forest<Item>, c: Item, currency: seq<Coin>, money: nat, k: nat, left: nat,
                        tile0: seq<Pile>, tile: seq<Pile>) {
    && Minted(currency) && k <= |currency| && c in f && OnlyCoins(f, g, c, currency)
    && c in g && (forall i :: 0 <= i < |currency| ==> Units(currency)[i] > 0)
    && Money.Rest(Units(currency), money) == Money.Rest(Units(currency)[k..], left)
    && WorthOf(g, c, tile, currency) + left == WorthOf(f, c, tile0, currency) + money
    && Sized(f, g, c, currency, money, k, left, tile0, tile)
  }

  /** The coins given out so far are the largest, and as many as possible of each. */
  ghost predicate Sized(f: Forest<Item>, g: Forest<Item>, c: Item, currency: seq<Coin>, money: nat, k: nat, left: nat,
                        tile0: seq<Pile>, tile: seq<Pile>)
    requires c in f && c in g && k <= |currency|
  {
    && (Money.Payable(Units(currency), money) ==>
          && Money.LeftFits(Units(currency), k, left)
          && forall j :: 0 <= j < k ==> Smaller(f, g, c, currency, j, left, tile0, tile))
    && forall j :: k <= j < |currency| ==> Grown(f, g, c, currency, j, 0, tile0, tile)
  }

  /** The coins smaller than those of the j-th type have grown in worth by so much. */
  ghost predicate Grown(f: Forest<Item>, g: Forest<Item>, c: Item, currency: seq<Coin>, j: nat, n: int,
                        tile0: seq<Pile>, tile: seq<Pile>)
    requires c in f && c in g && j < |currency|
  {
    WorthFrom(g, c, tile, currency, j + 1) == WorthFrom(f, c, tile0, currency, j + 1) + n
  }

  /** The same when n coins of the k-th type have come. */
  ghost predicate GrownByOne(f: Forest<Item>, g: Forest<Item>, c: Item, currency: seq<Coin>, j: nat, k: nat, n: nat,
                             tile0: seq<Pile>, tile: seq<Pile>)
    requires c in f && c in g && j < |currency| && k < |currency|
  {
    Grown(f, g, c, currency, j, if j < k then currency[k].worth * n else 0, tile0, tile)
  }

  /** The smaller coins that have come and what is left come to less than one coin of the j-th type. */
  ghost predicate Smaller(f: Forest<Item>, g: Forest<Item>, c: Item, currency: seq<Coin>, j: nat, left: nat,
                          tile0: seq<Pile>, tile: seq<Pile>)
    requires c in f && c in g && j < |currency|
  {
    WorthFrom(g, c, tile, currency, j + 1) + left < WorthFrom(f, c, tile0, currency, j + 1) + currency[j].worth
  }

  /** The largest coins come first: of every type so many that the smaller ones and the rest come to less. */
  ghost predicate LargestFirst(f: Forest<Item>, g: Forest<Item>, c: Item, currency: seq<Coin>, rest: nat,
                               tile0: seq<Pile>, tile: seq<Pile>)
    requires c in f && c in g
  {
    forall j :: 0 <= j < |currency| ==> Smaller(f, g, c, currency, j, rest, tile0, tile)
  }

  lemma GivenNone(f: Forest<Item>, c: Item, currency: seq<Coin>, money: nat, tile: seq<Pile>)
    requires Minted(currency) && c in f
    ensures Given(f, f, c, currency, money, 0, money, tile, tile)
  {
    Positive(currency);
    assert Units(currency)[0..] == Units(currency);
  }

  lemma GivenOn(f: Forest<Item>, g: Forest<Item>, h: Forest<Item>, c: Item, currency: seq<Coin>, money: nat, k: nat,
                left: nat, tile0: seq<Pile>, before: seq<Pile>, tile: seq<Pile>)
    requires Given(f, g, c, currency, money, k, left, tile0, before) && k < |currency| && currency[k].worth > 0
    requires Came(g, h, c, currency[k].kind, Money.CoinsFor(left, currency[k].worth), before, tile)
    ensures var n := Money.CoinsFor(left, currency[k].worth);
            && n * currency[k].worth <= left
            && Given(f, h, c, currency, money, k + 1, left - n * currency[k].worth, tile0, tile)
  {
    var n := Money.CoinsFor(left, currency[k].worth);
    Money.RestOn(Units(currency), k, left);
    OnlyCoinsCame(f, g, h, c, currency, k, n, before, tile);
    hide OnlyCoins, Came, WorthFrom, Sized, Money.Rest, Money.CoinsFor;
    CameWorth(g, h, c, n, before, tile, currency, k, 0);
    SizedOn(f, g, h, c, currency, money, k, left, tile0, before, tile);
  }

  lemma SizedOn(f: Forest<Item>, g: Forest<Item>, h: Forest<Item>, c: Item, currency: seq<Coin>, money: nat, k: nat,
                left: nat, tile0: seq<Pile>, before: seq<Pile>, tile: seq<Pile>)
    requires c in f && c in g && c in h && Minted(currency) && k < |currency| && currency[k].worth > 0
    requires Sized(f, g, c, currency, money, k, left, tile0, before)
    requires Came(g, h, c, currency[k].kind, Money.CoinsFor(left, currency[k].worth), before, tile)
    requires Money.CoinsFor(left, currency[k].worth) * currency[k].worth <= left
    ensures Sized(f, h, c, currency, money, k + 1, left - Money.CoinsFor(left, currency[k].worth) * currency[k].worth,
                  tile0, tile)
  {
    var n := Money.CoinsFor(left, currency[k].worth);
    var payable := Money.Payable(Units(currency), money);
    AllGrown(g, h, c, currency, k, n, before, tile);
    hide Came, WorthFrom, Money.CoinsFor, Money.Payable, Money.LeftFits, Smaller, Grown, GrownByOne, Minted, Units;
    GrownOn(f, g, h, c, currency, k, n, tile0, before, tile);
    if payable {
      FitsNext(currency, k, left);
      SmallerOn(f, g, h, c, currency, k, left, n, left - n * currency[k].worth, tile0, before, tile);
    }
  }

  lemma AllGrown(g: Forest<Item>, h: Forest<Item>, c: Item, currency: seq<Coin>, k: nat, n: nat, before: seq<Pile>,
                 tile: seq<Pile>)
    requires c in g && c in h && Minted(currency) && k < |currency|
    requires Came(g, h, c, currency[k].kind, n, before, tile)
    ensures forall j :: 0 <= j < |currency| ==> GrownByOne(g, h, c, currency, j, k, n, before, tile)
  {
    hide Came, WorthFrom;
    forall j | 0 <= j < |currency|
      ensures GrownByOne(g, h, c, currency, j, k, n, before, tile)
    {
      CameWorth(g, h, c, n, before, tile, currency, k, j + 1);
    }
  }

  lemma FitsNext(currency: seq<Coin>, k: nat, left: nat)
    requires Minted(currency) && k < |currency| && currency[k].worth > 0 && Money.LeftFits(Units(currency), k, left)
    ensures var rest := left - Money.CoinsFor(left, currency[k].worth) * currency[k].worth;
            0 <= rest < currency[k].worth && Money.LeftFits(Units(currency), k + 1, rest)
  {
    assert Units(currency)[k] == currency[k].worth;
    Money.NotTruncated(Units(currency), k, left);
    hide Money.CoinsFor;
  }

  lemma GrownOn(f: Forest<Item>, g: Forest<Item>, h: Forest<Item>, c: Item, currency: seq<Coin>, k: nat, n: nat,
                tile0: seq<Pile>, before: seq<Pile>, tile: seq<Pile>)
    requires c in f && c in g && c in h && k < |currency|
    requires forall j :: 0 <= j < |currency| ==> GrownByOne(g, h, c, currency, j, k, n, before, tile)
    requires forall j :: k <= j < |currency| ==> Grown(f, g, c, currency, j, 0, tile0, before)
    ensures forall j :: k <= j < |currency| ==> Grown(f, h, c, currency, j, 0, tile0, tile)
  {
    hide WorthFrom;
    forall j | k <= j < |currency|
      ensures Grown(f, h, c, currency, j, 0, tile0, tile)
    {
      assert Grown(f, g, c, currency, j, 0, tile0, before);
      assert GrownByOne(g, h, c, currency, j, k, n, before, tile);
    }
  }

  lemma SmallerOn(f: Forest<Item>, g: Forest<Item>, h: Forest<Item>, c: Item, currency: seq<Coin>, k: nat, left: nat,
                  n: nat, rest: nat, tile0: seq<Pile>, before: seq<Pile>, tile: seq<Pile>)
    requires c in f && c in g && c in h && k < |currency| && left - n * currency[k].worth == rest < currency[k].worth
    requires forall j :: 0 <= j < |currency| ==> GrownByOne(g, h, c, currency, j, k, n, before, tile)
    requires forall j :: k <= j < |currency| ==> Grown(f, g, c, currency, j, 0, tile0, before)
    requires forall j :: 0 <= j < k ==> Smaller(f, g, c, currency, j, left, tile0, before)
    ensures forall j :: 0 <= j < k + 1 ==> Smaller(f, h, c, currency, j, rest, tile0, tile)
  {
    hide WorthFrom;
    forall j | 0 <= j < k + 1
      ensures Smaller(f, h, c, currency, j, rest, tile0, tile)
    {
      assert GrownByOne(g, h, c, currency, j, k, n, before, tile);
      if j < k {
        assert Smaller(f, g, c, currency, j, left, tile0, before);
        assert currency[k].worth * n == n * currency[k].worth;
      } else {
        assert Grown(f, g, c, currency, k, 0, tile0, before);
      }
    }
  }

  lemma GivenAll(f: Forest<Item>, g: Forest<Item>, c: Item, currency: seq<Coin>, money: nat, left: nat,
                 tile0: seq<Pile>, tile: seq<Pile>)
    requires Given(f, g, c, currency, money, |currency|, left, tile0, tile)
    ensures OnlyCoins(f, g, c, currency) && c in g
    ensures WorthOf(g, c, tile, currency) + Money.Rest(Units(currency), money) == WorthOf(f, c, tile0, currency) + money
    ensures Money.Payable(Units(currency), money) ==>
              LargestFirst(f, g, c, currency, Money.Rest(Units(currency), money), tile0, tile)
  {
    hide OnlyCoins, WorthOf, WorthFrom, Smaller;
    assert Units(currency)[|currency|..] == [];
  }

  /** One round of `addMoney`: as many coins of one type as the amount that is left allows. */
  method GiveType(ghost W: set<Item>, c: Item, ghost money: nat, currency: seq<Coin>, k: nat, left0: nat, flags: Flags,
                  before: seq<Pile>, ghost f: Forest<Item>, ghost tile0: seq<Pile>)
    returns (ghost W': set<Item>, left: nat, tile: seq<Pile>)
    requires c in W && c.box && Orderly(View(W)) && Plain(flags) && k < |currency|
    requires currency[k].worth > 0 && currency[k].kind.stackable
    requires Given(f, View(W), c, currency, money, k, left0, tile0, before)
    modifies W
    ensures W <= W' && fresh(W' - W) && Orderly(View(W'))
    ensures Given(f, View(W'), c, currency, money, k + 1, left, tile0, tile)
  {
    hide Orderly, Came, View, Plain, Given, Money.CoinsFor;
    ghost var g := View(W);
    var currencyCoins := Money.CoinsFor(left0, currency[k].worth);
    W', tile := GiveCoins(W, c, currency[k].kind, currencyCoins, flags, before);
    GivenOn(f, g, View(W'), c, currency, money, k, left0, tile0, before, tile);
    left := left0 - currencyCoins * currency[k].worth;
  }

  /** `addMoney`: the worth in the container and on the tile grows by the amount, up to a rest that no coin is
      small enough for, and nothing else changes what containers hold. */
  method AddMoney(ghost W: set<Item>, c: Item, money: nat, currency: seq<Coin>, flags: Flags, tile0: seq<Pile>)
    returns (ghost W': set<Item>, tile: seq<Pile>)
    requires c in W && c.box && Orderly(View(W)) && Plain(flags) && Minted(currency)
    modifies W
    ensures W <= W' && fresh(W' - W) && Orderly(View(W')) && OnlyCoins(old(View(W)), View(W'), c, currency)
    ensures WorthOf(View(W'), c, tile, currency) + Money.Rest(Units(currency), money)
         == WorthOf(old(View(W)), c, tile0, currency) + money
    ensures Money.Payable(Units(currency), money) ==>
              LargestFirst(old(View(W)), View(W'), c, currency, Money.Rest(Units(currency), money), tile0, tile)
  {
    ghost var f := View(W);
    W', tile := W, tile0;
    var left: nat, k: nat := money, 0;
    Positive(currency);
    hide *;
    GivenNone(f, c, currency, money, tile0);
    while k < |currency|
      invariant 0 <= k <= |currency| && W <= W' && fresh(W' - W) && Orderly(View(W'))
      invariant Given(f, View(W'), c, currency, money, k, left, tile0, tile)
    {
      W', left, tile := GiveType(W', c, money, currency, k, left, flags, tile, f, tile0);
      k := k + 1;
    }
    GivenAll(f, View(W'), c, currency, money, left, tile0, tile);
  }
}
