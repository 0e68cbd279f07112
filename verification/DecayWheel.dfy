/** The wheel of four buckets that lets items decay: one bucket is looked at every 250 ms, and an
    item is looked at every fourth time until its remaining duration runs out. */
module DecayWheel {
  import opened Arithmetic
  import opened Collections

  const BUCKETS := 4
  const INTERVAL := 250
  const TURN := 1000

  type Id = nat

  datatype Wheel = Wheel(buckets: seq<seq<Id>>, lastBucket: nat, waiting: seq<Id>, duration: map<Id, int>)

  /** What a visit makes of an item: it stops, stays for another turn, moves to another bucket, or
      decays. */
  datatype Visit = Stop | Stay | MoveTo(bucket: nat) | Decay

  function DurationOf(duration: map<Id, int>, x: Id): int {
    if x in duration then duration[x] else 0
  }

  /** The duration after a visit. */
  function After(d: int): int {
    d - Min(TURN, d)
  }

  /** The verdict of `checkDecay` on an item of duration d in the bucket being visited. */
  function VisitOf(bucket: nat, d: int, canDecay: bool): Visit {
    if !canDecay then Stop
    else if After(d) <= 0 then Decay
    else if After(d) < TURN then
      var newBucket := (bucket + (After(d) + INTERVAL / 2) / 1000) % BUCKETS;
      if newBucket == bucket then Decay else MoveTo(newBucket)
    else Stay
  }

  function VisitItem(w: Wheel, bucket: nat, live: set<Id>, x: Id): Visit {
    VisitOf(bucket, DurationOf(w.duration, x), x in live)
  }

  /** The items of a bucket on which the verdict is v, in order. */
  function Those(w: Wheel, bucket: nat, live: set<Id>, list: seq<Id>, v: Visit): seq<Id> {
    if list == [] then []
    else
      var rest := |list| - 1;
      Those(w, bucket, live, list[..rest], v) + if VisitItem(w, bucket, live, list[rest]) == v then [list[rest]] else []
  }

  /** Durations once the items of a list have been visited; stopped items keep theirs. */
  function Decreased(w: Wheel, live: set<Id>, list: seq<Id>): map<Id, int> {
    map x | x in w.duration :: if x in list && x in live then After(w.duration[x]) else w.duration[x]
  }

  /** Where `cleanup` puts a waiting item. */
  function EntryBucket(lastBucket: nat, d: int): nat {
    if d >= INTERVAL * BUCKETS then lastBucket else (lastBucket + 1 + d / 1000) % BUCKETS
  }

  /** `cleanup`: the waiting items enter the wheel one after the other. */
  function Placed(buckets: seq<seq<Id>>, lastBucket: nat, waiting: seq<Id>, duration: map<Id, int>): seq<seq<Id>>
    requires |buckets| == BUCKETS && lastBucket < BUCKETS
    requires forall x :: x in waiting ==> x in duration && duration[x] >= 0
    decreases |waiting|
  {
    if waiting == [] then buckets
    else
      var b := EntryBucket(lastBucket, DurationOf(duration, waiting[0]));
      Placed(buckets[b := buckets[b] + [waiting[0]]], lastBucket, waiting[1..], duration)
  }

  predicate Sound(w: Wheel) {
    && |w.buckets| == BUCKETS && w.lastBucket < BUCKETS
    && (forall x :: x in w.waiting ==> x in w.duration && w.duration[x] >= 0)
    && (forall b, x :: 0 <= b < BUCKETS && x in w.buckets[b] ==> x in w.duration)
  }

  function CleanedUp(w: Wheel): Wheel
    requires Sound(w)
  {
    Wheel(Placed(w.buckets, w.lastBucket, w.waiting, w.duration), w.lastBucket, [], w.duration)
  }

  /** The wheel after the next bucket has been visited, before `cleanup`. */
  function Visited(w: Wheel, live: set<Id>): Wheel
    requires Sound(w)
  {
    var bucket := (w.lastBucket + 1) % BUCKETS;
    var list := w.buckets[bucket];
    Wheel(seq(BUCKETS, b requires 0 <= b < BUCKETS =>
            if b == bucket then Those(w, bucket, live, list, Stay)
            else w.buckets[b] + Those(w, bucket, live, list, MoveTo(b))),
          bucket, w.waiting, Decreased(w, live, list))
  }

  /** The items that `checkDecay` lets decay. */
  function DecayedBy(w: Wheel, live: set<Id>): seq<Id>
    requires Sound(w)
  {
    var bucket := (w.lastBucket + 1) % BUCKETS;
    Those(w, bucket, live, w.buckets[bucket], Decay)
  }

  lemma ThoseNext(w: Wheel, bucket: nat, live: set<Id>, list: seq<Id>, k: nat, v: Visit)
    requires k < |list|
    ensures Those(w, bucket, live, list[..k + 1], v)
         == Those(w, bucket, live, list[..k], v) + if VisitItem(w, bucket, live, list[k]) == v then [list[k]] else []
  {
    assert list[..k + 1][..k] == list[..k];
  }

  class Game {
    var decayItems: seq<seq<Id>>
    var lastBucket: nat
    var toDecayItems: seq<Id>
    var duration: map<Id, int>

    function State(): Wheel
      reads this
    {
      Wheel(decayItems, lastBucket, toDecayItems, duration)
    }

    constructor ()
      ensures State() == Wheel([[], [], [], []], 0, [], map[])
    {
      decayItems, lastBucket, toDecayItems, duration := [[], [], [], []], 0, [], map[];
    }

    /** `startDecay` of an item that can decay and does not yet: it waits for the next `cleanup`;
        an item without duration decays at once. */
    method StartDecay(x: Id, d: int) returns (decaysNow: bool)
      modifies this
      ensures decaysNow <==> d <= 0
      ensures State() == if d > 0
                         then old(State()).(waiting := [x] + old(toDecayItems), duration := old(duration)[x := d])
                         else old(State())
    {
      if d > 0 {
        duration := duration[x := d];
        toDecayItems := [x] + toDecayItems;
        return false;
      }
      return true;
    }

    /** The part of `cleanup` that fills the wheel. */
    method Cleanup()
      requires Sound(State())
      modifies this
      ensures State() == CleanedUp(old(State()))
    {
      ghost var w := State();
      var i := 0;
      while i < |toDecayItems|
        invariant 0 <= i <= |toDecayItems|
        invariant |decayItems| == BUCKETS && State() == w.(buckets := decayItems)
        invariant Placed(w.buckets, lastBucket, w.waiting, duration)
               == Placed(decayItems, lastBucket, w.waiting[i..], duration)
      {
        var item := toDecayItems[i];
        var dur := DurationOf(duration, item);
        assert w.waiting[i..][0] == item && w.waiting[i..][1..] == w.waiting[i + 1..];
        if dur >= INTERVAL * BUCKETS {
          decayItems := decayItems[lastBucket := decayItems[lastBucket] + [item]];
        } else {
          var b := (lastBucket + 1 + dur / 1000) % BUCKETS;
          decayItems := decayItems[b := decayItems[b] + [item]];
        }
        i := i + 1;
      }
      toDecayItems := [];
    }

    /** `checkDecay`: the items of the next bucket are visited in order and erased, kept or moved in
        place; then the wheel is filled up. */
    method CheckDecay(live: set<Id>) returns (decayed: seq<Id>)
      requires Sound(State()) && NoDup(decayItems[(lastBucket + 1) % BUCKETS])
      requires forall x :: x in toDecayItems ==> x !in decayItems[(lastBucket + 1) % BUCKETS]
      modifies this
      ensures decayed == DecayedBy(old(State()), live)
      ensures Sound(Visited(old(State()), live)) && State() == CleanedUp(Visited(old(State()), live))
    {
      hide Progress, Those, Sound, Advance, NoDup;
      ghost var w := State();
      ProgressStarts(w, live);
      var bucket := (lastBucket + 1) % BUCKETS;
      ghost var list := decayItems[bucket];
      ghost var k: nat := 0;
      decayed := [];
      var it := 0;
      while it < |decayItems[bucket]|
        invariant k <= |list| && |decayItems| == BUCKETS
        invariant Progress(w, live, bucket, k, State(), decayed)
        invariant it == |Those(w, bucket, live, list[..k], Stay)|
        decreases |list| - k
      {
        ProgressGoesOn(w, live, bucket, k, State(), decayed);
        ProgressStep(w, live, bucket, k, State(), decayed);
        it, decayed := VisitNext(live, bucket, it, decayed);
        k := k + 1;
      }
      ProgressEnds(w, live, bucket, k, State(), decayed);
      VisitedSound(w, live);
      lastBucket := bucket;
      Cleanup();
    }

    /** One round of the loop of `checkDecay`. */
    method VisitNext(live: set<Id>, bucket: nat, it: nat, decayed0: seq<Id>) returns (next: nat, decayed: seq<Id>)
      requires |decayItems| == BUCKETS && bucket < BUCKETS && it < |decayItems[bucket]|
      requires decayItems[bucket][it] in duration
      modifies this
      ensures var item := old(decayItems[bucket][it]); var v := VisitOf(bucket, old(duration)[item], item in live);
              && (v.MoveTo? ==> v.bucket < BUCKETS)
              && (State(), decayed) == Advance(old(State()), decayed0, bucket, it, item, v)
              && next == if v == Stay then it + 1 else it
    {
      var item := decayItems[bucket][it];
      next, decayed := it, decayed0;
      if item !in live {
        Erase(bucket, it);
        return;
      }
      var d := duration[item];
      var decreaseTime := Min(INTERVAL * BUCKETS, d);
      d := d - decreaseTime;
      duration := duration[item := d];
      if d <= 0 {
        Erase(bucket, it);
        decayed := decayed + [item];
      } else if d < INTERVAL * BUCKETS {
        Erase(bucket, it);
        var newBucket := (bucket + (d + INTERVAL / 2) / 1000) % BUCKETS;
        if newBucket == bucket {
          decayed := decayed + [item];
        } else {
          decayItems := decayItems[newBucket := decayItems[newBucket] + [item]];
        }
      } else {
        next := it + 1;
      }
    }

    method Erase(bucket: nat, it: nat)
      requires bucket < |decayItems| && it < |decayItems[bucket]|
      modifies `decayItems
      ensures decayItems == old(decayItems)[bucket := old(decayItems[bucket])[..it] + old(decayItems[bucket])[it + 1..]]
    {
      decayItems := decayItems[bucket := decayItems[bucket][..it] + decayItems[bucket][it + 1..]];
    }
  }

  /** The wheel w when k items of the bucket have been visited. */
  ghost predicate Progress(w: Wheel, live: set<Id>, bucket: nat, k: nat, now: Wheel, decayed: seq<Id>) {
    && Sound(w) && bucket == (w.lastBucket + 1) % BUCKETS && NoDup(w.buckets[bucket]) && k <= |w.buckets[bucket]|
    && now.lastBucket == w.lastBucket && now.waiting == w.waiting && |now.buckets| == BUCKETS
    && var list := w.buckets[bucket];
       && now.buckets[bucket] == Those(w, bucket, live, list[..k], Stay) + list[k..]
       && (forall b :: 0 <= b < BUCKETS && b != bucket ==>
             now.buckets[b] == w.buckets[b] + Those(w, bucket, live, list[..k], MoveTo(b)))
       && decayed == Those(w, bucket, live, list[..k], Decay)
       && now.duration == Decreased(w, live, list[..k])
  }

  /** What visiting one item does to the wheel and to the list of decayed items. */
  ghost function Advance(now: Wheel, decayed: seq<Id>, bucket: nat, it: nat, item: Id, v: Visit): (Wheel, seq<Id>)
    requires |now.buckets| == BUCKETS && bucket < BUCKETS && it < |now.buckets[bucket]|
    requires v.MoveTo? ==> v.bucket < BUCKETS
  {
    var erased := now.buckets[bucket := now.buckets[bucket][..it] + now.buckets[bucket][it + 1..]];
    var duration := now.duration[item := After(DurationOf(now.duration, item))];
    match v
    case Stop => (now.(buckets := erased), decayed)
    case Stay => (now.(duration := duration), decayed)
    case MoveTo(b) => (now.(buckets := erased[b := erased[b] + [item]], duration := duration), decayed)
    case Decay => (now.(buckets := erased, duration := duration), decayed + [item])
  }

  lemma SplitAt(s: seq<Id>, front: seq<Id>, list: seq<Id>, k: nat)
    requires k < |list| && s == front + list[k..]
    ensures |front| < |s| && s[|front|] == list[k] && s[..|front|] == front && s[|front| + 1..] == list[k + 1..]
    ensures s == (front + [list[k]]) + list[k + 1..]
  {
    assert list[k..] == [list[k]] + list[k + 1..];
  }

  /** The item at the cursor is the next one of the bucket. */
  lemma ProgressAt(w: Wheel, live: set<Id>, bucket: nat, k: nat, now: Wheel, decayed: seq<Id>)
    requires Progress(w, live, bucket, k, now, decayed) && k < |w.buckets[bucket]|
    ensures var list := w.buckets[bucket]; var stay := Those(w, bucket, live, list[..k], Stay); var it := |stay|;
            && it < |now.buckets[bucket]| && now.buckets[bucket][it] == list[k]
            && now.buckets[bucket][..it] == stay && now.buckets[bucket][it + 1..] == list[k + 1..]
            && now.buckets[bucket] == (stay + [list[k]]) + list[k + 1..]
  {
    SplitAt(now.buckets[bucket], Those(w, bucket, live, w.buckets[bucket][..k], Stay), w.buckets[bucket], k);
  }

  lemma DecreasedNext(w: Wheel, live: set<Id>, list: seq<Id>, k: nat)
    requires k < |list| && NoDup(list) && forall x :: x in list ==> x in w.duration
    ensures var item := list[k]; var d := Decreased(w, live, list[..k]);
            && item in d && d[item] == w.duration[item]
            && Decreased(w, live, list[..k + 1]) == if item in live then d[item := After(w.duration[item])] else d
  {
    assert list[..k + 1] == list[..k] + [list[k]];
    assert list[k] !in list[..k];
  }

  lemma VerdictFacts(w: Wheel, bucket: nat, live: set<Id>, x: Id)
    requires bucket < BUCKETS
    ensures var v := VisitItem(w, bucket, live, x);
            && (v == Stop <==> x !in live) && (v.MoveTo? ==> v.bucket < BUCKETS && v.bucket != bucket)
  {
  }

  lemma ProgressStep(w: Wheel, live: set<Id>, bucket: nat, k: nat, now: Wheel, decayed: seq<Id>)
    requires Progress(w, live, bucket, k, now, decayed) && k < |w.buckets[bucket]|
    ensures var item := w.buckets[bucket][k]; var it := |Those(w, bucket, live, w.buckets[bucket][..k], Stay)|;
            var v := VisitItem(w, bucket, live, item);
            && it < |now.buckets[bucket]| && now.buckets[bucket][it] == item
            && item in now.duration && item in w.duration && now.duration[item] == w.duration[item]
            && (v.MoveTo? ==> v.bucket < BUCKETS && v.bucket != bucket)
            && var next := Advance(now, decayed, bucket, it, item, v);
               Progress(w, live, bucket, k + 1, next.0, next.1) && |next.0.buckets| == BUCKETS
    ensures |Those(w, bucket, live, w.buckets[bucket][..k + 1], Stay)| ==
            |Those(w, bucket, live, w.buckets[bucket][..k], Stay)| +
            if VisitItem(w, bucket, live, w.buckets[bucket][k]) == Stay then 1 else 0
  {
    hide Those, VisitItem, Decreased, After, NoDup;
    var list := w.buckets[bucket];
    var item := list[k];
    ProgressAt(w, live, bucket, k, now, decayed);
    DecreasedNext(w, live, list, k);
    VerdictFacts(w, bucket, live, item);
    ThoseNext(w, bucket, live, list, k, Stay);
    ThoseNext(w, bucket, live, list, k, Decay);
    forall b ensures Those(w, bucket, live, list[..k + 1], MoveTo(b)) ==
      Those(w, bucket, live, list[..k], MoveTo(b)) +
      if VisitItem(w, bucket, live, item) == MoveTo(b) then [item] else []
    {
      ThoseNext(w, bucket, live, list, k, MoveTo(b));
    }
  }

  lemma ProgressStarts(w: Wheel, live: set<Id>)
    requires Sound(w) && NoDup(w.buckets[(w.lastBucket + 1) % BUCKETS])
    ensures |w.buckets| == BUCKETS && w.lastBucket < BUCKETS
    ensures var bucket := (w.lastBucket + 1) % BUCKETS;
            Progress(w, live, bucket, 0, w, []) && Those(w, bucket, live, w.buckets[bucket][..0], Stay) == []
  {
    var bucket := (w.lastBucket + 1) % BUCKETS;
    var list := w.buckets[bucket];
    assert list[..0] == [] && list[0..] == list;
    forall b | 0 <= b < BUCKETS ensures w.buckets[b] + Those(w, bucket, live, list[..0], MoveTo(b)) == w.buckets[b] {}
    assert Decreased(w, live, list[..0]) == w.duration;
  }

  /** While there is an item at the cursor, the bucket is not through. */
  lemma ProgressGoesOn(w: Wheel, live: set<Id>, bucket: nat, k: nat, now: Wheel, decayed: seq<Id>)
    requires Progress(w, live, bucket, k, now, decayed)
    requires |Those(w, bucket, live, w.buckets[bucket][..k], Stay)| < |now.buckets[bucket]|
    ensures k < |w.buckets[bucket]|
  {
  }

  lemma ProgressEnds(w: Wheel, live: set<Id>, bucket: nat, k: nat, now: Wheel, decayed: seq<Id>)
    requires Progress(w, live, bucket, k, now, decayed)
    requires |Those(w, bucket, live, w.buckets[bucket][..k], Stay)| >= |now.buckets[bucket]|
    ensures now.(lastBucket := bucket) == Visited(w, live) && decayed == DecayedBy(w, live)
  {
    var list := w.buckets[bucket];
    assert k == |list| && list[..k] == list && list[k..] == [];
    assert |Visited(w, live).buckets| == BUCKETS;
    forall b | 0 <= b < BUCKETS
      ensures now.buckets[b] == Visited(w, live).buckets[b]
    {
    }
  }

  lemma {:induction false} ThoseMember(w: Wheel, bucket: nat, live: set<Id>, list: seq<Id>, v: Visit, x: Id)
    ensures x in Those(w, bucket, live, list, v) <==> x in list && VisitItem(w, bucket, live, x) == v
  {
    if list != [] {
      ThoseMember(w, bucket, live, list[..|list| - 1], v, x);
      assert list == list[..|list| - 1] + [list[|list| - 1]];
    }
  }

  lemma VisitedSound(w: Wheel, live: set<Id>)
    requires Sound(w) && forall x :: x in w.waiting ==> x !in w.buckets[(w.lastBucket + 1) % BUCKETS]
    ensures Sound(Visited(w, live))
  {
    var v := Visited(w, live);
    forall b, x | 0 <= b < BUCKETS && x in v.buckets[b]
      ensures x in v.duration
    {
      var bucket := (w.lastBucket + 1) % BUCKETS;
      ThoseMember(w, bucket, live, w.buckets[bucket], Stay, x);
      ThoseMember(w, bucket, live, w.buckets[bucket], MoveTo(b), x);
    }
  }
}

/** When an item on the wheel decays, whatever else happens on it. */
module DecayTiming {
  import opened Arithmetic
  import opened Collections
  import opened DecayWheel

  // ----- One item among others --------------------------------------------------------------

  /** x is in bucket p and nowhere else. */
  ghost predicate OnlyIn(w: Wheel, x: Id, p: nat) {
    && Sound(w) && p < BUCKETS && x in w.buckets[p] && x !in w.waiting
    && forall b :: 0 <= b < BUCKETS && b != p ==> x !in w.buckets[b]
  }

  /** In how many calls of `checkDecay` bucket p is visited next. */
  ghost function Distance(w: Wheel, p: nat): nat
    requires w.lastBucket < BUCKETS && p < BUCKETS
  {
    (p + BUCKETS - w.lastBucket - 1) % BUCKETS + 1
  }

  /** In how many calls an item decays that is visited next in `off` calls and has duration d left. */
  ghost function Remaining(off: nat, d: int): nat
    decreases d
  {
    if d <= TURN then off
    else if d - TURN < TURN then off + (if d - TURN >= 875 then 1 else 0)
    else Remaining(off + BUCKETS, d - TURN)
  }

  ghost function CallsLeft(w: Wheel, x: Id, p: nat): nat
    requires OnlyIn(w, x, p) && x in w.duration
  {
    Remaining(Distance(w, p), w.duration[x])
  }

  lemma {:induction false} PlacedKeeps(buckets: seq<seq<Id>>, last: nat, waiting: seq<Id>,
                                        duration: map<Id, int>, x: Id, b: nat)
    requires |buckets| == BUCKETS && last < BUCKETS && b < BUCKETS
    requires forall y :: y in waiting ==> y in duration && duration[y] >= 0
    ensures |Placed(buckets, last, waiting, duration)| == BUCKETS
    ensures x !in waiting ==> (x in Placed(buckets, last, waiting, duration)[b] <==> x in buckets[b])
    ensures x in waiting ==>
      (x in Placed(buckets, last, waiting, duration)[b] <==> x in buckets[b] || b == EntryBucket(last, duration[x]))
    decreases |waiting|
  {
    if waiting != [] {
      var e := EntryBucket(last, DurationOf(duration, waiting[0]));
      PlacedKeeps(buckets[e := buckets[e] + [waiting[0]]], last, waiting[1..], duration, x, b);
    }
  }

  lemma PlacedMembers(buckets: seq<seq<Id>>, last: nat, waiting: seq<Id>, duration: map<Id, int>)
    requires |buckets| == BUCKETS && last < BUCKETS
    requires forall y :: y in waiting ==> y in duration && duration[y] >= 0
    requires forall b, x :: 0 <= b < BUCKETS && x in buckets[b] ==> x in duration
    ensures Sound(Wheel(Placed(buckets, last, waiting, duration), last, [], duration))
  {
    var p := Placed(buckets, last, waiting, duration);
    PlacedKeeps(buckets, last, waiting, duration, 0, 0);
    forall b, x | 0 <= b < BUCKETS && x in p[b]
      ensures x in duration
    {
      PlacedKeeps(buckets, last, waiting, duration, x, b);
    }
  }

  /** `cleanup` leaves an item that is on the wheel where it is. */
  lemma CleanKeepsPlace(w: Wheel, x: Id, p: nat)
    requires OnlyIn(w, x, p)
    ensures OnlyIn(CleanedUp(w), x, p) && CallsLeft(CleanedUp(w), x, p) == CallsLeft(w, x, p)
  {
    PlacedMembers(w.buckets, w.lastBucket, w.waiting, w.duration);
    forall b | 0 <= b < BUCKETS
      ensures x in CleanedUp(w).buckets[b] <==> x in w.buckets[b]
    {
      PlacedKeeps(w.buckets, w.lastBucket, w.waiting, w.duration, x, b);
    }
  }

  lemma RemainingLarger(off: nat, d: int)
    ensures Remaining(off, d) >= off
    ensures Remaining(off + 1, d) == Remaining(off, d) + 1
    decreases d
  {
    if d > TURN && d - TURN >= TURN { RemainingLarger(off + BUCKETS, d - TURN); }
  }

  ghost function TheVisit(w: Wheel, live: set<Id>, x: Id): Visit
    requires Sound(w)
  {
    VisitItem(w, (w.lastBucket + 1) % BUCKETS, live, x)
  }

  /** Membership after a visit, bucket by bucket. */
  lemma VisitedMember(w: Wheel, live: set<Id>, x: Id, b: nat)
    requires Sound(w) && b < BUCKETS
    ensures var bucket := (w.lastBucket + 1) % BUCKETS; var v := TheVisit(w, live, x);
            x in Visited(w, live).buckets[b] <==>
              if b == bucket then x in w.buckets[bucket] && v == Stay
              else x in w.buckets[b] || (x in w.buckets[bucket] && v == MoveTo(b))
    ensures x in DecayedBy(w, live) <==> x in w.buckets[(w.lastBucket + 1) % BUCKETS] && TheVisit(w, live, x) == Decay
  {
    hide VisitItem, Decreased, Those;
    var bucket := (w.lastBucket + 1) % BUCKETS;
    ThoseMember(w, bucket, live, w.buckets[bucket], Stay, x);
    ThoseMember(w, bucket, live, w.buckets[bucket], MoveTo(b), x);
    ThoseMember(w, bucket, live, w.buckets[bucket], Decay, x);
  }

  /** The verdict on a live item by its duration. */
  lemma VisitByDuration(bucket: nat, d: int)
    requires bucket < BUCKETS && d > 0
    ensures var v := VisitOf(bucket, d, true);
            if d <= TURN then v == Decay && Remaining(1, d) == 1
            else if d - TURN < 875 then v == Decay && Remaining(1, d) == 1
            else if d - TURN < TURN then v == MoveTo((bucket + 1) % BUCKETS) && Remaining(1, d) == 2
            else v == Stay && Remaining(1, d) == Remaining(BUCKETS, d - TURN) + 1 && Remaining(1, d) > 1
  {
    if d > TURN && d - TURN >= TURN {
      RemainingLarger(BUCKETS, d - TURN);
    }
  }

  lemma NextDistance(last: nat, p: nat)
    requires last < BUCKETS && p < BUCKETS
    ensures var bucket := (last + 1) % BUCKETS;
            (p + BUCKETS - last - 1) % BUCKETS + 1 ==
              if p == bucket then 1 else (p + BUCKETS - bucket - 1) % BUCKETS + 2
    ensures p == last ==> (p + BUCKETS - last - 1) % BUCKETS + 1 == BUCKETS
    ensures p == (last + 1) % BUCKETS ==> (p + BUCKETS - last - 1) % BUCKETS + 1 == 1
  {
  }

  /** Where x is after a call, given where it was. */
  lemma PlaceAfter(w: Wheel, live: set<Id>, x: Id, p: nat) returns (q: nat)
    requires OnlyIn(w, x, p) && x in live && Sound(Visited(w, live))
    ensures var bucket := (w.lastBucket + 1) % BUCKETS; var v := TheVisit(w, live, x); var w' := Visited(w, live);
            && (x in DecayedBy(w, live) <==> p == bucket && v == Decay)
            && (p != bucket || v == Stay ==> q == p && OnlyIn(w', x, p))
            && (p == bucket && v.MoveTo? ==> q == v.bucket && OnlyIn(w', x, v.bucket))
            && q < BUCKETS
            && x in w.duration && x in w'.duration
            && w'.duration[x] == if p == bucket then After(w.duration[x]) else w.duration[x]
  {
    hide Visited, DecayedBy, VisitItem;
    var bucket := (w.lastBucket + 1) % BUCKETS;
    var v := TheVisit(w, live, x);
    VerdictFacts(w, bucket, live, x);
    q := if p == bucket && v.MoveTo? then v.bucket else p;
    forall b | 0 <= b < BUCKETS
      ensures x in Visited(w, live).buckets[b] <==>
              if b == bucket then p == bucket && v == Stay else p == b || (p == bucket && v == MoveTo(b))
      ensures x in DecayedBy(w, live) <==> p == bucket && v == Decay
    {
      VisitedMember(w, live, x, b);
    }
    DurationAfter(w, live, x);
    assert x in w.buckets[bucket] <==> p == bucket;
    var w' := Visited(w, live);
    assert p != bucket || v == Stay ==> OnlyIn(w', x, p);
    assert p == bucket && v.MoveTo? ==> OnlyIn(w', x, v.bucket);
  }

  lemma DurationAfter(w: Wheel, live: set<Id>, x: Id)
    requires Sound(w) && x in w.duration && x in live
    ensures var bucket := (w.lastBucket + 1) % BUCKETS; var v := Visited(w, live);
            x in v.duration && v.duration[x] == (if x in w.buckets[bucket] then After(w.duration[x]) else w.duration[x])
            && v.waiting == w.waiting && v.lastBucket == bucket
  {
  }

  /** One call brings an item one call nearer to its decay, and lets it decay exactly when it was one
      call away. */
  lemma OneCall(w: Wheel, live: set<Id>, x: Id, p: nat) returns (q: nat)
    requires OnlyIn(w, x, p) && x in live && x in w.duration && w.duration[x] > 0 && Sound(Visited(w, live))
    ensures x in DecayedBy(w, live) <==> CallsLeft(w, x, p) == 1
    ensures x !in DecayedBy(w, live) ==>
      var v := Visited(w, live);
      OnlyIn(v, x, q) && x in v.duration && v.duration[x] > 0 && CallsLeft(v, x, q) == CallsLeft(w, x, p) - 1
  {
    hide OnlyIn, Visited, DecayedBy, Remaining;
    OnlyInMeans(w, x, p);
    var bucket := (w.lastBucket + 1) % BUCKETS;
    var d := w.duration[x];
    q := PlaceAfter(w, live, x, p);
    DurationAfter(w, live, x);
    VisitByDuration(bucket, d);
    NextDistance(w.lastBucket, p);
    NextDistance(bucket, q);
    if p != bucket {
      RemainingLarger(Distance(w, p) - 1, d);
    } else if x !in DecayedBy(w, live) {
      SmallRemaining(1, After(d));
    }
  }

  lemma SmallRemaining(off: nat, d: int)
    ensures d <= TURN ==> Remaining(off, d) == off
  {
  }

  lemma OnlyInMeans(w: Wheel, x: Id, p: nat)
    requires OnlyIn(w, x, p)
    ensures Sound(w) && p < BUCKETS && w.lastBucket < BUCKETS && x in w.duration
  {
  }

  // ----- A tidy wheel -----------------------------------------------------------------------

  /** No item is on the wheel or waiting twice. */
  ghost predicate Tidy(w: Wheel) {
    && Sound(w) && NoDup(w.waiting)
    && (forall b :: 0 <= b < BUCKETS ==> NoDup(w.buckets[b]))
    && (forall b, c, x :: 0 <= b < c < BUCKETS && x in w.buckets[b] ==> x !in w.buckets[c])
    && (forall b, x :: 0 <= b < BUCKETS && x in w.buckets[b] ==> x !in w.waiting)
  }

  lemma NoDupJoin(s: seq<Id>, t: seq<Id>)
    requires NoDup(s) && NoDup(t) && forall x :: x in s ==> x !in t
    ensures NoDup(s + t)
  {
    forall i, j | 0 <= i < j < |s + t|
      ensures (s + t)[i] != (s + t)[j]
    {
      if i < |s| <= j { assert t[j - |s|] in t; }
    }
  }

  lemma {:induction false} ThoseNoDup(w: Wheel, bucket: nat, live: set<Id>, list: seq<Id>, v: Visit)
    requires NoDup(list)
    ensures NoDup(Those(w, bucket, live, list, v))
  {
    if list != [] {
      var rest := list[..|list| - 1];
      ThoseNoDup(w, bucket, live, rest, v);
      ThoseMember(w, bucket, live, rest, v, list[|list| - 1]);
      NoDupJoin(Those(w, bucket, live, rest, v),
                if VisitItem(w, bucket, live, list[|list| - 1]) == v then [list[|list| - 1]] else []);
    }
  }

  /** A visit of the next bucket keeps the wheel tidy. */
  lemma VisitedTidy(w: Wheel, live: set<Id>)
    requires Tidy(w)
    ensures Tidy(Visited(w, live))
  {
    var v := Visited(w, live);
    var bucket := (w.lastBucket + 1) % BUCKETS;
    VisitedSound(w, live);
    forall b | 0 <= b < BUCKETS
      ensures NoDup(v.buckets[b])
    {
      ThoseNoDup(w, bucket, live, w.buckets[bucket], Stay);
      ThoseNoDup(w, bucket, live, w.buckets[bucket], MoveTo(b));
      forall x | x in w.buckets[b] && b != bucket
        ensures x !in Those(w, bucket, live, w.buckets[bucket], MoveTo(b))
      {
        ThoseMember(w, bucket, live, w.buckets[bucket], MoveTo(b), x);
      }
      if b != bucket { NoDupJoin(w.buckets[b], Those(w, bucket, live, w.buckets[bucket], MoveTo(b))); }
    }
    forall b, x | 0 <= b < BUCKETS && x in v.buckets[b]
      ensures x !in v.waiting
    {
      VisitedMember(w, live, x, b);
    }
    forall b, c, x | 0 <= b < c < BUCKETS && x in v.buckets[b]
      ensures x !in v.buckets[c]
    {
      VisitedMember(w, live, x, b);
      VisitedMember(w, live, x, c);
    }
  }

  /** The waiting item that enters bucket e is nowhere else. */
  lemma FirstEnters(w: Wheel, e: nat)
    requires Tidy(w) && e < BUCKETS && w.waiting != []
    ensures Tidy(w.(buckets := w.buckets[e := w.buckets[e] + [w.waiting[0]]], waiting := w.waiting[1..]))
  {
    var x := w.waiting[0];
    var w1 := w.(buckets := w.buckets[e := w.buckets[e] + [x]], waiting := w.waiting[1..]);
    assert x in w.waiting;
    NoDupTail(w.waiting);
    assert forall b :: 0 <= b < BUCKETS ==> x !in w.buckets[b];
    assert forall b, y :: 0 <= b < BUCKETS ==> (y in w1.buckets[b] <==> y in w.buckets[b] || (y == x && b == e));
    assert forall y :: y in w1.waiting ==> y in w.waiting && y != x;
    NoDupJoin(w.buckets[e], [x]);
    assert NoDup(w1.buckets[e]);
    forall b | 0 <= b < BUCKETS ensures NoDup(w1.buckets[b]) { assert b != e ==> w1.buckets[b] == w.buckets[b]; }
  }

  lemma NoDupTail(s: seq<Id>)
    requires NoDup(s) && s != []
    ensures NoDup(s[1..]) && s[0] !in s[1..]
  {
    forall i | 0 <= i < |s[1..]| ensures s[1..][i] != s[0] {
      assert s[1..][i] == s[i + 1];
    }
  }

  /** So does putting waiting items on it. */
  lemma {:induction false} PlacedTidy(w: Wheel)
    requires Tidy(w)
    ensures Tidy(CleanedUp(w))
    decreases |w.waiting|
  {
    if w.waiting == [] {
      assert CleanedUp(w) == w;
    } else {
      var x := w.waiting[0];
      var e := EntryBucket(w.lastBucket, DurationOf(w.duration, x));
      var w1 := w.(buckets := w.buckets[e := w.buckets[e] + [x]], waiting := w.waiting[1..]);
      FirstEnters(w, e);
      PlacedTidy(w1);
      assert CleanedUp(w) == CleanedUp(w1);
    }
  }

  // ----- Runs -------------------------------------------------------------------------------

  /** What can happen to the wheel: a call of `checkDecay`, the start of an item, a `cleanup`. */
  datatype Step = Check(live: set<Id>) | Start(item: Id, d: int) | Clean

  ghost predicate Present(w: Wheel, x: Id) {
    x in w.waiting || exists b :: 0 <= b < |w.buckets| && x in w.buckets[b]
  }

  /** An item that decays already is not started again. */
  ghost function Next(w: Wheel, s: Step): Wheel
    requires Tidy(w)
  {
    match s
    case Check(live) => VisitedTidy(w, live); CleanedUp(Visited(w, live))
    case Start(x, d) =>
      if Present(w, x) || d <= 0 then w else w.(waiting := [x] + w.waiting, duration := w.duration[x := d])
    case Clean => CleanedUp(w)
  }

  lemma NextTidy(w: Wheel, s: Step)
    requires Tidy(w)
    ensures Tidy(Next(w, s))
  {
    match s
    case Check(live) =>
      VisitedTidy(w, live);
      PlacedTidy(Visited(w, live));
    case Start(x, d) =>
      if !(Present(w, x) || d <= 0) {
        assert forall b :: 0 <= b < BUCKETS ==> x !in w.buckets[b];
      }
    case Clean => PlacedTidy(w);
  }

  /** Which call of `checkDecay` in the run is the first to let x decay, counting from 1; 0 if none. */
  ghost function FirstDecay(w: Wheel, steps: seq<Step>, x: Id): nat
    requires Tidy(w)
    decreases |steps|
  {
    if steps == [] then 0
    else
      NextTidy(w, steps[0]);
      if steps[0].Check? then
        if x in DecayedBy(w, steps[0].live) then 1
        else
          var later := FirstDecay(Next(w, steps[0]), steps[1..], x);
          if later == 0 then 0 else later + 1
      else FirstDecay(Next(w, steps[0]), steps[1..], x)
  }

  ghost function Calls(steps: seq<Step>): nat {
    if steps == [] then 0 else (if steps[0].Check? then 1 else 0) + Calls(steps[1..])
  }

  /** The item can decay throughout. */
  ghost predicate Undisturbed(steps: seq<Step>, x: Id) {
    forall i :: 0 <= i < |steps| && steps[i].Check? ==> x in steps[i].live
  }

  /** An item of duration D decays after this many calls, counted from the `cleanup` that puts it on
      the wheel. */
  function CallsFor(D: nat): nat {
    if D < 1000 then 1 else 4 * (D / 1000) + if D % 1000 >= 875 then 1 else 0
  }

  lemma UndisturbedRest(steps: seq<Step>, x: Id)
    requires steps != [] && Undisturbed(steps, x)
    ensures Undisturbed(steps[1..], x)
  {
    forall i | 0 <= i < |steps[1..]| && steps[1..][i].Check? ensures x in steps[1..][i].live {
      assert steps[1..][i] == steps[i + 1];
    }
  }

  /** In every run an undisturbed item decays at exactly the call that its place and duration say,
      whatever other items do. */
  lemma {:induction false} DecaysOnTime(w: Wheel, steps: seq<Step>, x: Id, p: nat)
    requires Tidy(w) && OnlyIn(w, x, p) && x in w.duration && w.duration[x] > 0 && Undisturbed(steps, x)
    ensures FirstDecay(w, steps, x) == if CallsLeft(w, x, p) <= Calls(steps) then CallsLeft(w, x, p) else 0
    ensures CallsLeft(w, x, p) >= 1
    decreases |steps|
  {
    RemainingLarger(Distance(w, p), w.duration[x]);
    if steps != [] {
      var s := steps[0];
      NextTidy(w, s);
      UndisturbedRest(steps, x);
      match s
      case Check(live) =>
        VisitedTidy(w, live);
        var q := OneCall(w, live, x, p);
        if x !in DecayedBy(w, live) {
          CleanKeepsPlace(Visited(w, live), x, q);
          DecaysOnTime(Next(w, s), steps[1..], x, q);
        }
      case Start(y, d) =>
        assert Present(w, x);
        DecaysOnTime(Next(w, s), steps[1..], x, p);
      case Clean =>
        CleanKeepsPlace(w, x, p);
        DecaysOnTime(Next(w, s), steps[1..], x, p);
    }
  }

  lemma {:induction false} RemainingFormula(off: nat, D: nat)
    requires D >= 1
    ensures Remaining(off, D) ==
            if D < 1000 then off else off - 4 + CallsFor(D)
    decreases D
  {
    if D > TURN && D - TURN >= TURN {
      RemainingFormula(off + BUCKETS, D - TURN);
    }
  }

  lemma EntryCalls(w: Wheel, D: nat)
    requires w.lastBucket < BUCKETS && D >= 1
    ensures Remaining(Distance(w, EntryBucket(w.lastBucket, D)), D) == CallsFor(D)
  {
    var p := EntryBucket(w.lastBucket, D);
    if D < INTERVAL * BUCKETS {
      assert Distance(w, p) == D / 1000 + 1;
    } else {
      assert Distance(w, p) == BUCKETS;
    }
    RemainingFormula(Distance(w, p), D);
  }

  lemma EntersOneBucket(w: Wheel, x: Id, D: nat)
    requires Tidy(w) && x in w.waiting && x in w.duration && w.duration[x] == D && D >= 1
    ensures Tidy(CleanedUp(w)) && OnlyIn(CleanedUp(w), x, EntryBucket(w.lastBucket, D))
    ensures CleanedUp(w).duration == w.duration && CleanedUp(w).lastBucket == w.lastBucket
  {
    PlacedTidy(w);
    forall b | 0 <= b < BUCKETS
      ensures x in CleanedUp(w).buckets[b] <==> b == EntryBucket(w.lastBucket, D)
    {
      PlacedKeeps(w.buckets, w.lastBucket, w.waiting, w.duration, x, b);
    }
  }

  /** An item of duration D that waits when `cleanup` runs sits in exactly one bucket from then on
      and decays at call number CallsFor(D) of every undisturbed run. */
  lemma DecaysAfterExactly(w: Wheel, steps: seq<Step>, x: Id, D: nat)
    requires Tidy(w) && x in w.waiting && x in w.duration && w.duration[x] == D && D >= 1 && Undisturbed(steps, x)
    ensures Tidy(CleanedUp(w)) && OnlyIn(CleanedUp(w), x, EntryBucket(w.lastBucket, D))
    ensures FirstDecay(CleanedUp(w), steps, x) == if CallsFor(D) <= Calls(steps) then CallsFor(D) else 0
  {
    var v := CleanedUp(w);
    var p := EntryBucket(w.lastBucket, D);
    EntersOneBucket(w, x, D);
    EntryCalls(v, D);
    hide *;
    DecaysOnTime(v, steps, x, p);
  }

  /** On the clock of the calls an item never decays 875 ms early or more, and it decays late exactly
      if its duration is shorter than the time between two calls. */
  lemma OnTheClock(D: nat)
    requires D >= 1
    ensures D < INTERVAL * CallsFor(D) + 875
    ensures INTERVAL * CallsFor(D) <= D <==> D >= INTERVAL
  {
  }
}
