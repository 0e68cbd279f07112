/** `generateDamageList`: the rounds of damage that a condition deals, from strong to weak. */
module DamageList {
  import opened Arithmetic

  function RealAbs(a: real): real { if a < 0.0 then -a else a }

  ghost function Sum(s: seq<int>): int {
    if s == [] then 0 else Sum(s[..|s| - 1]) + s[|s| - 1]
  }

  /** One more round of i brings the sum nearer to the target, as the relative errors say. A target
      of zero makes both errors infinite, and neither is the smaller one. */
  predicate Closer(sum: int, i: int, med: int) {
    med != 0 &&
    RealAbs(1.0 - (sum + i) as real / med as real) < RealAbs(1.0 - sum as real / med as real)
  }

  lemma SignOfProduct(a: real, m: real)
    requires m > 0.0
    ensures a > 0.0 ==> a * m > 0.0
    ensures a <= 0.0 ==> a * m <= 0.0
  {
  }

  lemma TimesDifference(a: real, b: real, m: real)
    ensures (a - b) * m == a * m - b * m
  {
  }

  lemma Quotient(s: real, m: real)
    requires m > 0.0
    ensures (s / m) * m == s
  {
  }

  /** The error of q against 1, scaled by m. */
  lemma ScaledError(q: real, m: real, s: real)
    requires m > 0.0 && q * m == s
    ensures RealAbs(1.0 - q) * m == RealAbs(m - s)
  {
    TimesDifference(1.0, q, m);
    TimesDifference(q, 1.0, m);
    SignOfProduct(1.0 - q, m);
    SignOfProduct(q - 1.0, m);
  }

  lemma ScaledOrder(a: real, b: real, m: real, c: real, d: real)
    requires m > 0.0 && a * m == c && b * m == d
    ensures a < b <==> c < d
  {
    TimesDifference(b, a, m);
    SignOfProduct(b - a, m);
  }

  lemma Midpoint(sum: int, i: int, med: int)
    requires i > 0
    ensures Abs(med - (sum + i)) < Abs(med - sum) <==> 2 * sum + i < 2 * med
  {
  }

  /** In whole numbers: the midpoint of the next round is still below the target. */
  lemma CloserMeans(sum: int, i: int, med: int)
    requires med >= 0 && i > 0 && sum >= 0
    ensures Closer(sum, i, med) <==> 2 * sum + i < 2 * med
  {
    if med > 0 {
      RoundsCompare(sum, sum + i, med);
      Midpoint(sum, i, med);
    }
  }

  lemma ErrorsCompare(p: real, q: real, m: real, t: real, s: real)
    requires m > 0.0 && p * m == t && q * m == s
    ensures RealAbs(1.0 - p) < RealAbs(1.0 - q) <==> RealAbs(m - t) < RealAbs(m - s)
  {
    ScaledError(p, m, t);
    ScaledError(q, m, s);
    ScaledOrder(RealAbs(1.0 - p), RealAbs(1.0 - q), m, RealAbs(m - t), RealAbs(m - s));
  }

  lemma RoundsCompare(s: int, t: int, med: int)
    requires med > 0
    ensures RealAbs(1.0 - t as real / med as real) < RealAbs(1.0 - s as real / med as real) <==>
            Abs(med - t) < Abs(med - s)
  {
    hide RealAbs, Abs;
    var m := med as real;
    Quotient(t as real, m);
    Quotient(s as real, m);
    ErrorsCompare(t as real / m, s as real / m, m, t as real, s as real);
    WholeError(med, t);
    WholeError(med, s);
  }

  lemma WholeError(med: int, s: int)
    ensures RealAbs(med as real - s as real) == Abs(med - s) as real
  {
  }

  /** Twice the sum of the whole numbers from 1 to n. */
  function TwiceTriangle(n: int): int { n * (n + 1) }

  lemma Monotone(k: int, a: int, b: int)
    requires k >= 0 && a <= b
    ensures k * a <= k * b
  {
  }

  lemma Cancel(k: int, a: int, b: int)
    requires k > 0 && k * a <= k * b
    ensures a <= b
  {
  }

  /** The target of round k + 1 from the top, scaled up. */
  lemma TargetBound(start: int, amount: int, k: int, med: int, most: int)
    requires 0 <= k < start && 0 <= amount <= most && med == ((start - k) * amount) / start
    ensures start * med <= start * most - k * most
  {
    var x := (start - k) * amount;
    assert start * med <= x by { assert x == start * (x / start) + x % start; }
    Monotone(start - k, amount, most);
    assert (start - k) * most == start * most - k * most;
  }

  /** What the k rounds below can sum up to, scaled up. */
  lemma RestBound(start: int, k: int, most: int)
    requires 0 <= k < start && TwiceTriangle(start) <= 2 * most
    ensures start * (k * (k + 2)) <= 2 * (k * most)
  {
    Monotone(start, k + 2, start + 1);
    Monotone(k, start * (k + 2), 2 * most);
    Swap(k, start, k + 2);
    assert k * (2 * most) == 2 * (k * most);
  }

  lemma Swap(a: int, b: int, c: int)
    ensures a * (b * c) == b * (a * c)
  {
  }

  /** A round that was repeated leaves room for the rounds below it. */
  lemma RepeatLeavesRoom(start: int, amount: int, i: int, med: int, sum: int, most: int)
    requires 1 <= i <= start && 0 <= amount <= most && TwiceTriangle(start) <= 2 * most
    requires med == ((start + 1 - i) * amount) / start
    requires 2 * sum + i < 2 * med
    ensures 2 * (sum + i) + i * (i - 1) <= 2 * most
  {
    var k := i - 1;
    assert start + 1 - i == start - k;
    TargetBound(start, amount, k, med, most);
    RestBound(start, k, most);
    var rest := k * (k + 2);
    TwiceAndMore(start, med, rest);
    TwiceAndMore(start, most, 0);
    Cancel(start, 2 * med + rest, 2 * most);
    assert rest == i * i - 1 && i * (i - 1) == i * i - i by { Squares(k); }
  }

  lemma TwiceAndMore(k: int, a: int, b: int)
    ensures k * (2 * a + b) == 2 * (k * a) + k * b
  {
  }

  lemma Squares(k: int)
    ensures k * (k + 2) == (k + 1) * (k + 1) - 1 && (k + 1) * k == (k + 1) * (k + 1) - (k + 1)
  {
  }

  /** From strong to weak, and every value from 1 to start is there. */
  ghost predicate FromStrongToWeak(list: seq<int>, low: int, start: int) {
    && (forall k :: 0 <= k < |list| ==> low <= list[k] <= start)
    && (forall k, l :: 0 <= k < l < |list| ==> list[k] >= list[l])
    && (forall v :: low <= v <= start ==> v in list)
  }

  lemma OneRound(list: seq<int>, low: int, start: int, i: int)
    requires low <= start + 1 && 1 <= i
    requires FromStrongToWeak(list, low, start) && ((i == low && low <= start) || i == low - 1)
    ensures FromStrongToWeak(list + [i], i, start)
    ensures Sum(list + [i]) == Sum(list) + i
  {
    assert (list + [i])[..|list|] == list;
    forall v | i <= v <= start ensures v in list + [i] {
      if v == i { assert (list + [i])[|list|] == i; } else { assert v in list; }
    }
  }

  /** The state before the round of i: what is there sums up to `sum`, at least to the larger values
      and at most so that the smaller ones still fit. */
  ghost predicate BeforeRound(list: seq<int>, sum: int, i: int, start: int, most: int) {
    && FromStrongToWeak(list, i + 1, start) && Sum(list) == sum >= 0
    && TwiceTriangle(start) <= 2 * sum + i * (i + 1) <= 2 * most
  }

  lemma NothingDealt(start: int, amount: int)
    requires start >= 1 && amount >= 0
    ensures BeforeRound([], 0, start, start, Max(amount, TwiceTriangle(start) / 2))
    ensures TwiceTriangle(start) <= 2 * Max(amount, TwiceTriangle(start) / 2)
  {
    TriangleIsEven(start);
  }

  /** The value i is dealt for the first time. */
  lemma FirstOfRound(list: seq<int>, sum: int, i: int, start: int, most: int)
    requires 1 <= i <= start && BeforeRound(list, sum, i, start, most)
    ensures BeforeRound(list + [i], sum + i, i - 1, start, most)
  {
    OneRound(list, i + 1, start, i);
    StepDown(i);
  }

  /** It is dealt again, as long as that comes nearer to the target. */
  lemma AgainInRound(list: seq<int>, sum: int, i: int, start: int, most: int, amount: int, med: int)
    requires 1 <= i <= start && BeforeRound(list, sum, i - 1, start, most) && 0 <= amount <= most
    requires TwiceTriangle(start) <= 2 * most && med == ((start + 1 - i) * amount) / start && 2 * sum + i < 2 * med
    ensures BeforeRound(list + [i], sum + i, i - 1, start, most)
  {
    RepeatLeavesRoom(start, amount, i, med, sum, most);
    OneRound(list, i, start, i);
  }

  /** After the round of 1 nothing is left. */
  lemma AllDealt(list: seq<int>, sum: int, start: int, amount: int)
    requires start >= 1 && amount >= 0 && sum >= amount
    requires BeforeRound(list, sum, 0, start, Max(amount, TwiceTriangle(start) / 2))
    ensures FromStrongToWeak(list, 1, start) && Sum(list) == Max(amount, TwiceTriangle(start) / 2)
  {
    TriangleIsEven(start);
  }

  // ----- How often each value is dealt ------------------------------------------------------

  /** The sum of the values of the list that are at least v. */
  ghost function SumFrom(list: seq<int>, v: int): int {
    if list == [] then 0
    else SumFrom(list[..|list| - 1], v) + if list[|list| - 1] >= v then list[|list| - 1] else 0
  }

  /** What the rounds down to i should have dealt together */
  function Target(start: int, amount: int, i: int): int
    requires start > 0
  {
    ((start + 1 - i) * amount) / start
  }

  /** One more round of i would not be nearer to the target, but the last of several was. */
  ghost predicate Meets(list: seq<int>, i: int, med: int) {
    && 2 * SumFrom(list, i) + i >= 2 * med
    && (multiset(list)[i] > 1 ==> 2 * (SumFrom(list, i) - i) + i < 2 * med)
  }

  ghost predicate AllMeet(list: seq<int>, low: int, start: int, amount: int)
    requires start > 0
  {
    forall v :: low <= v <= start ==> Meets(list, v, Target(start, amount, v))
  }

  lemma SumFromMore(list: seq<int>, i: int, v: int)
    ensures SumFrom(list + [i], v) == SumFrom(list, v) + if i >= v then i else 0
  {
    assert (list + [i])[..|list|] == list;
  }

  lemma {:induction false} SumFromAll(list: seq<int>, low: int)
    requires forall k :: 0 <= k < |list| ==> list[k] >= low
    ensures SumFrom(list, low) == Sum(list)
  {
    if list != [] { SumFromAll(list[..|list| - 1], low); }
  }

  /** A smaller value leaves the rounds before it as they are. */
  lemma SmallerKeeps(list: seq<int>, i: int, start: int, amount: int)
    requires start > 0 && AllMeet(list, i + 1, start, amount)
    ensures AllMeet(list + [i], i + 1, start, amount)
  {
    hide Target;
    forall v | i + 1 <= v <= start
      ensures Meets(list + [i], v, Target(start, amount, v))
    {
      SumFromMore(list, i, v);
    }
  }

  /** A round that is over meets its target. */
  lemma RoundOver(list: seq<int>, sum: int, i: int, start: int, amount: int, most: int)
    requires start > 0 && AllMeet(list, i + 1, start, amount) && BeforeRound(list, sum, i - 1, start, most)
    requires var med := Target(start, amount, i);
             2 * sum + i >= 2 * med && (multiset(list)[i] > 1 ==> 2 * (sum - i) + i < 2 * med)
    ensures AllMeet(list, i, start, amount)
  {
    SumFromAll(list, i);
  }

  /** The first round of a value is the only one yet. */
  lemma OnlyOne(list: seq<int>, sum: int, i: int, start: int, most: int)
    requires BeforeRound(list, sum, i, start, most)
    ensures multiset(list + [i])[i] == 1
  {
    assert i !in list;
    assert multiset(list)[i] == 0;
  }

  lemma {:induction false} SumFromCounts(list: seq<int>, v: int)
    ensures SumFrom(list, v) == SumFrom(list, v + 1) + v * multiset(list)[v]
  {
    if list != [] {
      var n := |list| - 1;
      SumFromCounts(list[..n], v);
      assert list == list[..n] + [list[n]];
      if list[n] == v { OneMore(v, multiset(list[..n])[v]); }
    }
  }

  lemma OneMore(v: int, n: int)
    ensures v * (n + 1) == v * n + v
  {
  }

  lemma {:induction false} SumFromAbove(list: seq<int>, v: int)
    requires forall k :: 0 <= k < |list| ==> list[k] < v
    ensures SumFrom(list, v) == 0
  {
    if list != [] { SumFromAbove(list[..|list| - 1], v); }
  }

  /** Two lists that meet all targets deal every value equally often. */
  lemma {:induction false} SameCounts(a: seq<int>, b: seq<int>, start: int, amount: int, v: int)
    requires start >= 1 && FromStrongToWeak(a, 1, start) && FromStrongToWeak(b, 1, start)
    requires AllMeet(a, 1, start, amount) && AllMeet(b, 1, start, amount) && 1 <= v <= start + 1
    ensures SumFrom(a, v) == SumFrom(b, v) && multiset(a)[v] == multiset(b)[v]
    decreases start - v
  {
    if v > start {
      SumFromAbove(a, v);
      SumFromAbove(b, v);
      assert v !in a && v !in b;
    } else {
      SameCounts(a, b, start, amount, v + 1);
      var med := Target(start, amount, v);
      assert v in a && v in b && Meets(a, v, med) && Meets(b, v, med);
      SumFromCounts(a, v);
      SumFromCounts(b, v);
      hide Target, AllMeet, FromStrongToWeak, SumFrom;
      NotFewer(v, multiset(a)[v], multiset(b)[v], SumFrom(a, v + 1), med);
      NotFewer(v, multiset(b)[v], multiset(a)[v], SumFrom(a, v + 1), med);
    }
  }

  lemma NotFewer(v: int, m: int, n: int, rest: int, med: int)
    requires v >= 1 && 1 <= m && 1 <= n && 2 * (rest + v * m) + v >= 2 * med
    requires n > 1 ==> 2 * (rest + v * n - v) + v < 2 * med
    ensures n <= m
  {
    if n > m {
      Monotone(v, m + 1, n);
      OneMore(v, m);
    }
  }

  ghost predicate Falls(list: seq<int>) {
    forall k, l :: 0 <= k < l < |list| ==> list[k] >= list[l]
  }

  lemma LastIsLeast(a: seq<int>, x: int)
    requires Falls(a) && x in multiset(a)
    ensures a != [] && a[|a| - 1] <= x
  {
    assert x in a;
  }

  lemma WithoutLast(a: seq<int>)
    requires a != []
    ensures multiset(a[..|a| - 1]) == multiset(a) - multiset{a[|a| - 1]} && a[|a| - 1] in multiset(a)
  {
    assert a == a[..|a| - 1] + [a[|a| - 1]];
  }

  lemma {:induction false} FallsOnce(a: seq<int>, b: seq<int>)
    requires Falls(a) && Falls(b) && multiset(a) == multiset(b)
    ensures a == b
  {
    if a == [] || b == [] {
      NoneIn(a, b);
    } else {
      SameLast(a, b);
      FallsOnce(a[..|a| - 1], b[..|b| - 1]);
      SplitLast(a);
      SplitLast(b);
    }
  }

  lemma NoneIn(a: seq<int>, b: seq<int>)
    requires multiset(a) == multiset(b) && (a == [] || b == [])
    ensures a == b
  {
  }

  lemma SplitLast(a: seq<int>)
    requires a != []
    ensures a == a[..|a| - 1] + [a[|a| - 1]]
  {
  }

  lemma SameLast(a: seq<int>, b: seq<int>)
    requires Falls(a) && Falls(b) && multiset(a) == multiset(b) && a != [] && b != []
    ensures a[|a| - 1] == b[|b| - 1] && Falls(a[..|a| - 1]) && Falls(b[..|b| - 1])
    ensures multiset(a[..|a| - 1]) == multiset(b[..|b| - 1])
  {
    WithoutLast(a);
    WithoutLast(b);
    LastIsLeast(a, b[|b| - 1]);
    LastIsLeast(b, a[|a| - 1]);
  }

  /** The targets fix the list: no other falls from start to 1 and meets them all. */
  lemma TargetsFixList(a: seq<int>, b: seq<int>, start: int, amount: int)
    requires start >= 1 && FromStrongToWeak(a, 1, start) && FromStrongToWeak(b, 1, start)
    requires AllMeet(a, 1, start, amount) && AllMeet(b, 1, start, amount)
    ensures a == b
  {
    forall v
      ensures multiset(a)[v] == multiset(b)[v]
    {
      if 1 <= v <= start {
        SameCounts(a, b, start, amount, v);
      } else {
        assert v !in a && v !in b;
      }
    }
    FallsOnce(a, b);
  }

  /** The list falls, has every value from 1 to start, each as often as brings the sum so far nearest to its
      target, and sums up to the amount, or to the least that such a list can sum up to if that is more. */
  method GenerateDamageList(amount0: int, start: int) returns (list: seq<int>)
    ensures start <= 0 ==> list == []
    ensures start >= 1 ==> FromStrongToWeak(list, 1, start) && AllMeet(list, 1, start, Abs(amount0))
    ensures start >= 1 ==> Sum(list) == Max(Abs(amount0), TwiceTriangle(start) / 2)
  {
    var amount := Abs(amount0);
    var sum := 0;
    list := [];
    ghost var most := Max(amount, TwiceTriangle(start) / 2);
    assert amount <= most;
    if start >= 1 { NothingDealt(start, amount); }
    hide Closer, BeforeRound, TwiceTriangle, FromStrongToWeak, Sum, SumFrom;
    var i := start;
    while i > 0
      invariant start < 1 ==> i == start && list == []
      invariant start >= 1 ==>
                  0 <= i <= start && sum >= 0 && BeforeRound(list, sum, i, start, most) && (i == 0 ==> sum >= amount)
      invariant start >= 1 ==> AllMeet(list, i + 1, start, amount)
      decreases i
    {
      var n := start + 1 - i;
      var med := (n * amount) / start;
      TargetIsSound(n, amount, start);
      FirstOfRound(list, sum, i, start, most);
      SmallerKeeps(list, i, start, amount);
      OnlyOne(list, sum, i, start, most);
      hide AllMeet;
      sum := sum + i;
      list := list + [i];
      CloserMeans(sum, i, med);
      while Closer(sum, i, med)
        invariant sum >= 0 && BeforeRound(list, sum, i - 1, start, most) && AllMeet(list, i + 1, start, amount)
        invariant multiset(list)[i] > 1 ==> 2 * (sum - i) + i < 2 * med
        invariant Closer(sum, i, med) <==> 2 * sum + i < 2 * med
        decreases 2 * med - 2 * sum
      {
        AgainInRound(list, sum, i, start, most, amount, med);
        SmallerKeeps(list, i, start, amount);
        sum := sum + i;
        list := list + [i];
        CloserMeans(sum, i, med);
      }
      RoundOver(list, sum, i, start, amount, most);
      i := i - 1;
    }
    if start >= 1 { AllDealt(list, sum, start, amount); }
  }

  lemma StepDown(i: int)
    ensures i * (i + 1) == (i - 1) * i + 2 * i
  {
  }

  lemma TargetIsSound(n: int, amount: int, start: int)
    requires 1 <= n <= start && amount >= 0
    ensures (n * amount) / start >= 0
    ensures n == start ==> (n * amount) / start == amount
  {
    assert n * amount >= 0;
    if n == start { assert start * amount / start == amount by { Exact(start, amount); } }
  }

  lemma Exact(start: int, amount: int)
    requires start > 0
    ensures (start * amount) / start == amount
  {
    var x := start * amount;
    assert x == start * (x / start) + x % start;
    if x / start < amount { Monotone(start, x / start + 1, amount); }
    if x / start > amount { Monotone(start, amount + 1, x / start); }
  }

  lemma {:induction false} TriangleIsEven(n: nat)
    ensures TwiceTriangle(n) % 2 == 0
  {
    if n > 0 {
      TriangleIsEven(n - 1);
      assert TwiceTriangle(n) == TwiceTriangle(n - 1) + 2 * n;
    }
  }
}
