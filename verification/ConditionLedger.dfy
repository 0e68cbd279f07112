/** Conditions that change the speed, skills and stats of a creature while they last, and the books
    that have to balance over every run of adding, refreshing, removing and expiring them. */
module ConditionLedger {
  import opened Collections

  /** Skills 0 to 6, special skills 7 to 12, stats 13 to 16. */
  const SLOTS := 17

  const CONDITION_HASTE := 16
  const CONDITION_PARALYZE := 32
  const CONDITION_ATTRIBUTES := 524288

  datatype Key = Key(kind: int, id: int, subId: nat)

  /** What a condition does while it is active. Attribute bonuses with a percentage are worked out
      from the base values of the player when they are applied. */
  datatype Effect =
    | Speed(delta: int)
    | Attributes(bonus: seq<int>, percent: seq<int>)
    | Plain

  datatype Condition = Condition(key: Key, ticks: int, endTime: int, effect: Effect)

  /** The class of a condition follows from its type. */
  predicate WellFormed(c: Condition) {
    && (c.effect.Speed? <==> c.key.kind == CONDITION_HASTE || c.key.kind == CONDITION_PARALYZE)
    && (c.effect.Attributes? <==> c.key.kind == CONDITION_ATTRIBUTES)
    && (c.effect.Attributes? ==> |c.effect.bonus| == SLOTS && |c.effect.percent| == SLOTS)
  }

  /** Special skills and the soul stat have no percentage. */
  predicate Scales(i: int) {
    i < 7 || i == 13 || i == 14 || i == 16
  }

  /** C++ division truncates towards zero. */
  function Trunc(a: int, b: int): int
    requires b > 0
  {
    if a >= 0 then a / b else -((-a) / b)
  }

  /** The bonus is this fraction of hundredths without what is behind the point. */
  predicate Hundredth(r: int, x: int) {
    if x >= 0 then 100 * r <= x < 100 * r + 100 else 100 * r - 100 < x <= 100 * r
  }

  predicate IsPercentage(percent: seq<int>, i: nat)
    requires i < |percent|
  {
    percent[i] != 0 && Scales(i)
  }

  /** The bonus that is applied: the fixed one, or the percentage of the base value. */
  function Resolved(bonus: seq<int>, percent: seq<int>, base: seq<int>): (r: seq<int>)
    requires |bonus| == |percent| == |base| == SLOTS
    ensures |r| == SLOTS
    ensures forall i :: 0 <= i < SLOTS ==>
              if IsPercentage(percent, i) then Hundredth(r[i], base[i] * (percent[i] - 100)) else r[i] == bonus[i]
  {
    seq(SLOTS, i requires 0 <= i < SLOTS =>
      if percent[i] == 0 || !Scales(i) then bonus[i] else Trunc(base[i] * (percent[i] - 100), 100))
  }

  /** A percentage adds what is missing to that part of the base value, up to less than one: nothing at 100,
      and never more than is missing. */
  lemma PercentMeans(bonus: seq<int>, percent: seq<int>, base: seq<int>, i: nat)
    requires |bonus| == |percent| == |base| == SLOTS && i < SLOTS && IsPercentage(percent, i)
    ensures var r := Resolved(bonus, percent, base)[i];
            && -100 < base[i] * percent[i] - 100 * (base[i] + r) < 100
            && (percent[i] == 100 ==> r == 0)
            && (percent[i] >= 100 && base[i] >= 0 ==> r >= 0 && 100 * (base[i] + r) <= base[i] * percent[i])
            && (percent[i] <= 100 && base[i] >= 0 ==> r <= 0 && base[i] * percent[i] <= 100 * (base[i] + r))
  {
    var b, d := base[i], percent[i] - 100;
    assert b * percent[i] == b * d + b * 100;
    ProductSign(b, d);
  }

  lemma ProductSign(b: int, d: int)
    ensures b >= 0 && d >= 0 ==> b * d >= 0
    ensures b >= 0 && d <= 0 ==> b * d <= 0
    ensures d == 0 ==> b * d == 0
  {
  }

  /** A greater percentage of a base value gives no smaller bonus. */
  lemma PercentMonotone(bonus: seq<int>, bonus': seq<int>, percent: seq<int>, percent': seq<int>,
                        base: seq<int>, i: nat)
    requires |bonus| == |bonus'| == |percent| == |percent'| == |base| == SLOTS && i < SLOTS
    requires IsPercentage(percent, i) && IsPercentage(percent', i) && percent[i] <= percent'[i] && base[i] >= 0
    ensures Resolved(bonus, percent, base)[i] <= Resolved(bonus', percent', base)[i]
  {
    var b, d, d' := base[i], percent[i] - 100, percent'[i] - 100;
    assert b * d' == b * d + b * (d' - d);
    ProductSign(b, d' - d);
    HundredthMonotone(Resolved(bonus, percent, base)[i], b * d, Resolved(bonus', percent', base)[i], b * d');
  }

  lemma HundredthMonotone(r: int, x: int, r': int, x': int)
    requires Hundredth(r, x) && Hundredth(r', x') && x <= x'
    ensures r <= r'
  {
  }

  function SpeedOf(c: Condition): int {
    if c.effect.Speed? then c.effect.delta else 0
  }

  function BonusOf(c: Condition, i: nat): int
    requires i < SLOTS && WellFormed(c)
  {
    if c.effect.Attributes? then c.effect.bonus[i] else 0
  }

  ghost predicate AllWell(s: seq<Condition>) {
    forall k :: 0 <= k < |s| ==> WellFormed(s[k])
  }

  ghost function SumSpeed(s: seq<Condition>): int {
    if s == [] then 0 else SumSpeed(s[..|s| - 1]) + SpeedOf(s[|s| - 1])
  }

  ghost function SumBonus(s: seq<Condition>, i: nat): int
    requires i < SLOTS && AllWell(s)
  {
    if s == [] then 0 else SumBonus(s[..|s| - 1], i) + BonusOf(s[|s| - 1], i)
  }

  lemma {:induction false} SumsSplit(s: seq<Condition>, k: nat)
    requires k < |s| && AllWell(s)
    ensures SumSpeed(s[..k] + s[k + 1..]) == SumSpeed(s) - SpeedOf(s[k])
    ensures AllWell(s[..k] + s[k + 1..])
    ensures forall i: nat :: i < SLOTS ==> SumBonus(s[..k] + s[k + 1..], i) == SumBonus(s, i) - BonusOf(s[k], i)
  {
    var n := |s| - 1;
    if k == n {
      assert s[..k] + s[k + 1..] == s[..n];
    } else {
      SumsSplit(s[..n], k);
      var t := s[..k] + s[k + 1..];
      assert t[..|t| - 1] == s[..n][..k] + s[..n][k + 1..] && t[|t| - 1] == s[n];
    }
  }

  lemma {:induction false} SumsUpdate(s: seq<Condition>, k: nat, c: Condition)
    requires k < |s| && AllWell(s) && WellFormed(c)
    ensures SumSpeed(s[k := c]) == SumSpeed(s) - SpeedOf(s[k]) + SpeedOf(c)
    ensures AllWell(s[k := c])
    ensures forall i: nat :: i < SLOTS ==> SumBonus(s[k := c], i) == SumBonus(s, i) - BonusOf(s[k], i) + BonusOf(c, i)
  {
    var n := |s| - 1;
    var t := s[k := c];
    if k == n {
      assert t[..n] == s[..n];
    } else {
      SumsUpdate(s[..n], k, c);
      assert t[..n] == s[..n][k := c];
    }
  }

  lemma SumsAppend(s: seq<Condition>, c: Condition)
    requires AllWell(s) && WellFormed(c)
    ensures SumSpeed(s + [c]) == SumSpeed(s) + SpeedOf(c)
    ensures AllWell(s + [c])
    ensures forall i: nat :: i < SLOTS ==> SumBonus(s + [c], i) == SumBonus(s, i) + BonusOf(c, i)
  {
    assert (s + [c])[..|s|] == s;
  }

  /** At most one condition per type, id and sub-id. */
  ghost predicate UniqueKeys(s: seq<Condition>) {
    forall j, k :: 0 <= j < k < |s| ==> s[j].key != s[k].key
  }

  lemma UniqueAppend(s: seq<Condition>, key: Key)
    requires UniqueKeys(s) && forall j :: 0 <= j < |s| ==> s[j].key != key
    ensures forall c: Condition :: c.key == key ==> UniqueKeys(s + [c])
  {
  }

  /** The base class's rule whether a new condition refreshes the old one. */
  predicate Refreshes(prev: Condition, c: Condition, now: int) {
    && prev.key.kind == c.key.kind
    && !(prev.ticks == -1 && c.ticks > 0)
    && !(c.ticks >= 0 && prev.endTime > now + c.ticks)
  }

  /** What happens to the condition that is there when one with the same key is added. */
  function Merged(prev: Condition, c: Condition, now: int, base: seq<int>, rolled: int, player: bool): (r: Condition)
    requires WellFormed(prev) && WellFormed(c) && prev.key == c.key && |base| == SLOTS
    ensures WellFormed(r) && r.key == prev.key
  {
    match c.effect
    case Speed(delta) =>
      if prev.ticks == -1 && c.ticks > 0 then prev
      else prev.(ticks := c.ticks, endTime := c.ticks + now, effect := Speed(if delta == 0 then rolled else delta))
    case Attributes(bonus, percent) =>
      if !Refreshes(prev, c, now) then prev
      else prev.(ticks := c.ticks, endTime := c.ticks + now,
                 effect := if player then Attributes(Resolved(bonus, percent, base), percent) else c.effect)
    case Plain =>
      if !Refreshes(prev, c, now) then prev
      else prev.(ticks := c.ticks, endTime := c.ticks + now)
  }

  /** A condition as it is once it has started. */
  function Started(c: Condition, now: int, base: seq<int>, rolled: int, player: bool): (r: Condition)
    requires WellFormed(c) && |base| == SLOTS
    ensures WellFormed(r) && r.key == c.key
  {
    var timed := if c.ticks > 0 then c.(endTime := c.ticks + now) else c;
    match c.effect
    case Speed(delta) => timed.(effect := Speed(if delta == 0 then rolled else delta))
    case Attributes(bonus, percent) =>
      if player then timed.(effect := Attributes(Resolved(bonus, percent, base), percent)) else timed
    case Plain => timed
  }

  /** The position of the first condition with this key, or the length of the list. */
  function IndexOf(s: seq<Condition>, key: Key): (k: nat)
    ensures k <= |s|
    ensures k < |s| ==> s[k].key == key
    ensures forall j :: 0 <= j < k ==> s[j].key != key
  {
    if s == [] then 0
    else if s[0].key == key then 0
    else
      var k := IndexOf(s[1..], key);
      assert forall j :: 0 < j < k + 1 ==> s[j] == s[1..][j - 1];
      k + 1
  }

  /** The list after a condition was added. */
  function Added(s: seq<Condition>, c: Condition, now: int, base: seq<int>, rolled: int, player: bool): seq<Condition>
    requires AllWell(s) && WellFormed(c) && |base| == SLOTS
  {
    var k := IndexOf(s, c.key);
    if k < |s| then s[k := Merged(s[k], c, now, base, rolled, player)]
    else s + [Started(c, now, base, rolled, player)]
  }

  /** The list with the condition at position k replaced by these. */
  function Instead(s: seq<Condition>, k: nat, those: seq<Condition>): seq<Condition>
    requires k < |s|
  {
    s[..k] + those + s[k + 1..]
  }

  /** The conditions that `removeCondition` looks for: of a type, or of a type and an id. */
  datatype Wanted = OfType(kind: int) | OfTypeAndId(kind: int, id: int) {
    predicate Matches(key: Key) {
      key.kind == kind && (OfTypeAndId? ==> key.id == id)
    }
  }

  function Without(s: seq<Condition>, w: Wanted): seq<Condition> {
    if s == [] then []
    else Without(s[..|s| - 1], w) + if w.Matches(s[|s| - 1].key) then [] else [s[|s| - 1]]
  }

  /** The list when the first `i` conditions of `s` have been looked at. */
  function Midway(s: seq<Condition>, i: nat, w: Wanted): seq<Condition>
    requires i <= |s|
  {
    Without(s[..i], w) + s[i..]
  }

  lemma MidwayEnds(s: seq<Condition>, w: Wanted)
    ensures Without(s[..0], w) == [] && Midway(s, 0, w) == s && Midway(s, |s|, w) == Without(s, w)
  {
    assert s[..|s|] == s;
  }

  lemma MidwayLength(s: seq<Condition>, i: nat, w: Wanted)
    requires i <= |s|
    ensures |Midway(s, i, w)| == |Without(s[..i], w)| + |s| - i
  {
  }

  lemma MidwayStep(s: seq<Condition>, i: nat, w: Wanted)
    requires i <= |s| && |Without(s[..i], w)| < |Midway(s, i, w)|
    ensures
      var t := Midway(s, i, w);
      var k := |Without(s[..i], w)|;
      && i < |s| && t[k] == s[i]
      && |Without(s[..i + 1], w)| == (if w.Matches(s[i].key) then k else k + 1)
      && Midway(s, i + 1, w) == if w.Matches(s[i].key) then Instead(t, k, []) else t
  {
    assert s[..i + 1][..i] == s[..i];
  }

  function Aged(c: Condition, interval: nat): Condition {
    if c.ticks == -1 then c
    else c.(ticks := if c.ticks - interval < 0 then 0 else c.ticks - interval)
  }

  predicate Survives(c: Condition, now: int) {
    c.ticks == -1 || c.endTime >= now
  }

  function Ticked(s: seq<Condition>, interval: nat, now: int): seq<Condition> {
    if s == [] then []
    else
      var last := s[|s| - 1];
      Ticked(s[..|s| - 1], interval, now) + if Survives(last, now) then [Aged(last, interval)] else []
  }

  lemma TickedStep(s: seq<Condition>, i: nat, interval: nat, now: int)
    requires i < |s|
    ensures
      var front := Ticked(s[..i], interval, now);
      var t := front + s[i..];
      && |front| < |t| && t[|front|] == s[i]
      && Instead(t, |front|, if Survives(s[i], now) then [Aged(s[i], interval)] else [])
         == Ticked(s[..i + 1], interval, now) + s[i + 1..]
  {
    assert s[..i + 1][..i] == s[..i];
  }

  /** A condition of this type and sub-id 0 that is not over */
  predicate Active(c: Condition, kind: int, now: int) {
    c.key.kind == kind && c.key.subId == 0 && (c.endTime >= now || c.ticks == -1)
  }

  /** `hasCondition(kind)` */
  ghost predicate HasKind(s: seq<Condition>, kind: int, suppressed: set<int>, now: int) {
    kind !in suppressed && exists k :: 0 <= k < |s| && Active(s[k], kind, now)
  }

  /** The type that a new condition of this type drives out */
  function Opposite(kind: int): (other: Option<int>)
    ensures other != Some(kind)
  {
    if kind == CONDITION_PARALYZE then Some(CONDITION_HASTE)
    else if kind == CONDITION_HASTE then Some(CONDITION_PARALYZE)
    else None
  }

  /** Adding the condition drives out those of the opposite type: it is new to the list, and one of them
      is active. */
  ghost predicate Ousts(s: seq<Condition>, c: Condition, suppressed: set<int>, now: int) {
    && IndexOf(s, c.key) == |s|
    && Opposite(c.key.kind).Some? && HasKind(s, Opposite(c.key.kind).value, suppressed, now)
  }

  /** How far a removal gets that a paralysis would stop at `stop` */
  function Reach(kind: int, stop: nat, length: nat): (n: nat)
    ensures n <= length
  {
    if kind == CONDITION_PARALYZE && stop < length then stop else length
  }

  /** The list when the new condition, which is in it by now, has driven out its opposites. */
  ghost function Ousted(t: seq<Condition>, c: Condition, suppressed: set<int>, now: int, stop: nat): seq<Condition> {
    var other := Opposite(c.key.kind);
    if other.Some? && HasKind(t, other.value, suppressed, now)
    then Midway(t, Reach(other.value, stop, |t|), OfType(other.value)) else t
  }

  /** The list after a condition was added to a creature that reacts to it or does not. */
  ghost function AddedTo(s: seq<Condition>, c: Condition, now: int, base: seq<int>, rolled: int, creature: Traits,
                         suppressed: set<int>, stop: nat): seq<Condition>
    requires AllWell(s) && WellFormed(c) && |base| == SLOTS
  {
    var t := Added(s, c, now, base, rolled, creature.player);
    if creature.reacts && Ousts(s, c, suppressed, now)
    then Midway(t, Reach(Opposite(c.key.kind).value, stop, |t|), OfType(Opposite(c.key.kind).value)) else t
  }

  lemma AddedToIs(s: seq<Condition>, c: Condition, now: int, base: seq<int>, rolled: int, creature: Traits,
                  suppressed: set<int>, stop: nat)
    requires AllWell(s) && WellFormed(c) && |base| == SLOTS
    ensures var t := Added(s, c, now, base, rolled, creature.player);
            AddedTo(s, c, now, base, rolled, creature, suppressed, stop) ==
            if creature.reacts && IndexOf(s, c.key) == |s| then Ousted(t, c, suppressed, now, stop) else t
  {
    hide Added, Midway, IndexOf;
    if IndexOf(s, c.key) == |s| && Opposite(c.key.kind).Some? {
      StillHasKind(s, c, now, base, rolled, creature.player, Opposite(c.key.kind).value, suppressed);
    }
  }

  /** The speeds at which the creature is still walking */
  ghost function Busy(walkDelay: int -> int): iset<int> {
    iset v: int | walkDelay(v) > 0
  }

  lemma BusyAt(walkDelay: int -> int, v: int)
    ensures v in Busy(walkDelay) <==> walkDelay(v) > 0
  {
  }

  /** Where an unforced removal of paralyses stops: at the first one that is found while the walk delay, at
      the speed of that moment, is not over. */
  ghost function Halt(s: seq<Condition>, i: nat, w: Wanted, force: bool, busy: iset<int>, freeSpeed: int): (stop: nat)
    requires i <= |s|
    ensures i <= stop <= |s|
    decreases |s| - i
  {
    if i == |s| || (w.Matches(s[i].key) && Halts(s, i, w, force, busy, freeSpeed)) then i
    else Halt(s, i + 1, w, force, busy, freeSpeed)
  }

  /** Where the removal of what a new condition drives out stops */
  ghost function HaltOf(s: seq<Condition>, c: Condition, busy: iset<int>, freeSpeed: int): (stop: nat)
    ensures stop <= |s|
  {
    if Opposite(c.key.kind).None? then 0 else Halt(s, 0, OfType(Opposite(c.key.kind).value), false, busy, freeSpeed)
  }

  lemma {:induction false} NeverHalts(s: seq<Condition>, i: nat, w: Wanted, force: bool, busy: iset<int>,
                                      freeSpeed: int)
    requires i <= |s| && (force || w.kind != CONDITION_PARALYZE)
    ensures Halt(s, i, w, force, busy, freeSpeed) == |s|
    decreases |s| - i
  {
    if i < |s| { NeverHalts(s, i + 1, w, force, busy, freeSpeed); }
  }

  /** The condition that was added is of no opposite type. */
  lemma StillHasKind(s: seq<Condition>, c: Condition, now: int, base: seq<int>, rolled: int, player: bool, kind: int,
                     suppressed: set<int>)
    requires AllWell(s) && WellFormed(c) && |base| == SLOTS && IndexOf(s, c.key) == |s| && kind != c.key.kind
    ensures HasKind(Added(s, c, now, base, rolled, player), kind, suppressed, now) == HasKind(s, kind, suppressed, now)
  {
    var t := Added(s, c, now, base, rolled, player);
    if HasKind(s, kind, suppressed, now) {
      var k :| 0 <= k < |s| && Active(s[k], kind, now);
      assert t[k] == s[k];
    }
  }

  /** What a removal knows when it has looked at the first `stop` conditions and stands at position `it`. */
  ghost predicate Upto(s: seq<Condition>, stop: nat, it: nat, now: seq<Condition>, w: Wanted, force: bool,
                       busy: iset<int>, freeSpeed: int) {
    && stop <= |s| && it == |Without(s[..stop], w)| <= |now| && now == Midway(s, stop, w)
    && Halt(s, stop, w, force, busy, freeSpeed) == Halt(s, 0, w, force, busy, freeSpeed)
  }

  lemma UptoStarts(s: seq<Condition>, w: Wanted, force: bool, busy: iset<int>, freeSpeed: int)
    ensures Upto(s, 0, 0, s, w, force, busy, freeSpeed)
  {
    MidwayEnds(s, w);
  }

  lemma UptoStep(s: seq<Condition>, stop: nat, it: nat, now: seq<Condition>, w: Wanted, force: bool,
                 busy: iset<int>, freeSpeed: int)
    requires Upto(s, stop, it, now, w, force, busy, freeSpeed) && it < |now|
    ensures stop < |s| && now == Midway(s, stop, w)
    ensures var wanted := w.Matches(now[it].key);
            if wanted && !force && w.kind == CONDITION_PARALYZE && freeSpeed + SumSpeed(now) in busy
            then Halt(s, 0, w, force, busy, freeSpeed) == stop
            else if wanted then Upto(s, stop + 1, it, Instead(now, it, []), w, force, busy, freeSpeed)
            else Upto(s, stop + 1, it + 1, now, w, force, busy, freeSpeed)
  {
    hide *;
    UptoMeans(s, stop, it, now, w, force, busy, freeSpeed);
    MidwayStep(s, stop, w);
    HaltStep(s, stop, w, force, busy, freeSpeed);
    var wanted := w.Matches(s[stop].key);
    if !(wanted && !force && w.kind == CONDITION_PARALYZE && freeSpeed + SumSpeed(now) in busy) {
      UptoIs(s, stop + 1, w, force, busy, freeSpeed);
    }
  }

  lemma UptoMeans(s: seq<Condition>, stop: nat, it: nat, now: seq<Condition>, w: Wanted, force: bool,
                  busy: iset<int>, freeSpeed: int)
    requires Upto(s, stop, it, now, w, force, busy, freeSpeed)
    ensures stop <= |s| && it == |Without(s[..stop], w)| <= |now| && now == Midway(s, stop, w)
    ensures Halt(s, stop, w, force, busy, freeSpeed) == Halt(s, 0, w, force, busy, freeSpeed)
  {
    hide Halt, Midway, Without;
  }

  lemma UptoIs(s: seq<Condition>, stop: nat, w: Wanted, force: bool, busy: iset<int>, freeSpeed: int)
    requires stop <= |s| && Halt(s, stop, w, force, busy, freeSpeed) == Halt(s, 0, w, force, busy, freeSpeed)
    ensures Upto(s, stop, |Without(s[..stop], w)|, Midway(s, stop, w), w, force, busy, freeSpeed)
  {
    MidwayLength(s, stop, w);
  }

  lemma HaltStep(s: seq<Condition>, i: nat, w: Wanted, force: bool, busy: iset<int>, freeSpeed: int)
    requires i < |s|
    ensures var halts := w.Matches(s[i].key) && !force && w.kind == CONDITION_PARALYZE
                         && freeSpeed + SumSpeed(Midway(s, i, w)) in busy;
            Halt(s, i, w, force, busy, freeSpeed) == if halts then i else Halt(s, i + 1, w, force, busy, freeSpeed)
  {
  }

  lemma UptoEnds(s: seq<Condition>, stop: nat, it: nat, now: seq<Condition>, w: Wanted, force: bool,
                 busy: iset<int>, freeSpeed: int)
    requires Upto(s, stop, it, now, w, force, busy, freeSpeed) && it >= |now|
    ensures stop == |s| == Halt(s, 0, w, force, busy, freeSpeed) && now == Without(s, w) == Midway(s, stop, w)
  {
    MidwayLength(s, stop, w);
    MidwayEnds(s, w);
  }

  ghost predicate Halts(s: seq<Condition>, i: nat, w: Wanted, force: bool, busy: iset<int>, freeSpeed: int)
    requires i <= |s|
  {
    !force && w.kind == CONDITION_PARALYZE && freeSpeed + SumSpeed(Midway(s, i, w)) in busy
  }

  /** What is fixed for a creature: players have bonuses, players and NPCs react to haste and paralysis. */
  datatype Traits = Traits(player: bool, reacts: bool)

  class Creature {
    const player: bool
    const reacts: bool
    var conditions: seq<Condition>
    var varSpeed: int
    var varBonus: seq<int>

    /** the speed and bonuses that owe nothing to conditions */
    ghost var freeSpeed: int
    ghost var freeBonus: seq<int>

    ghost predicate Valid()
      reads this
    {
      && AllWell(conditions) && UniqueKeys(conditions)
      && |varBonus| == SLOTS && |freeBonus| == SLOTS
      && varSpeed == freeSpeed + SumSpeed(conditions)
      && forall i: nat :: i < SLOTS ==>
           varBonus[i] == freeBonus[i] + if player then SumBonus(conditions, i) else 0
    }

    constructor (traits: Traits)
      ensures Valid() && conditions == [] && player == traits.player && reacts == traits.reacts
      ensures freeSpeed == 0 && varSpeed == 0
    {
      player, reacts := traits.player, traits.reacts;
      conditions, varSpeed, freeSpeed := [], 0, 0;
      varBonus := seq(SLOTS, _ => 0);
      freeBonus := seq(SLOTS, _ => 0);
    }

    /** `changeSpeed`, through the speed that the creature has now */
    method ChangeSpeed(baseSpeed: int, varSpeedDelta: int)
      modifies `varSpeed
      ensures varSpeed == old(varSpeed) + varSpeedDelta
    {
      var speed := (baseSpeed + varSpeed) - baseSpeed;
      speed := speed + varSpeedDelta;
      varSpeed := speed;
    }

    /** `setVarSkill`, `setVarSpecialSkill` and `setVarStats` over all slots, with the sign given */
    method AddBonuses(bonus: seq<int>, sign: int)
      requires |varBonus| == SLOTS && |bonus| == SLOTS && (sign == 1 || sign == -1)
      modifies `varBonus
      ensures |varBonus| == SLOTS
      ensures forall i :: 0 <= i < SLOTS ==> varBonus[i] == old(varBonus)[i] + sign * bonus[i]
    {
      var i := 0;
      while i < SLOTS
        invariant 0 <= i <= SLOTS && |varBonus| == SLOTS
        invariant forall k :: 0 <= k < i ==> varBonus[k] == old(varBonus)[k] + sign * bonus[k]
        invariant forall k :: i <= k < SLOTS ==> varBonus[k] == old(varBonus)[k]
      {
        if bonus[i] != 0 {
          varBonus := varBonus[i := varBonus[i] + sign * bonus[i]];
        }
        i := i + 1;
      }
    }

    /** What a condition that is no longer in the list still has booked is taken back. */
    method EndCondition(c: Condition, baseSpeed: int)
      requires WellFormed(c) && |varBonus| == SLOTS
      modifies `varSpeed, `varBonus
      ensures varSpeed == old(varSpeed) - SpeedOf(c) && |varBonus| == SLOTS
      ensures forall i: nat :: i < SLOTS ==> varBonus[i] == old(varBonus)[i] - if player then BonusOf(c, i) else 0
    {
      match c.effect
      case Speed(delta) => ChangeSpeed(baseSpeed, -delta);
      case Attributes(bonus, _) =>
        if player { AddBonuses(bonus, -1); }
      case Plain =>
    }

    /** `startCondition`, for conditions that do not fail to start */
    method StartCondition(c: Condition, now: int, baseSpeed: int, base: seq<int>, rolled: int)
      returns (started: Condition)
      requires WellFormed(c) && |varBonus| == SLOTS && |base| == SLOTS
      modifies `varSpeed, `varBonus
      ensures started == Started(c, now, base, rolled, player) && WellFormed(started) && |varBonus| == SLOTS
      ensures varSpeed == old(varSpeed) + SpeedOf(started)
      ensures forall i: nat :: i < SLOTS ==> varBonus[i] == old(varBonus)[i] + if player then BonusOf(started, i) else 0
    {
      started := if c.ticks > 0 then c.(endTime := c.ticks + now) else c;
      match c.effect
      case Speed(delta) =>
        var d := if delta == 0 then rolled else delta;
        started := started.(effect := Speed(d));
        ChangeSpeed(baseSpeed, d);
      case Attributes(bonus, percent) =>
        if player {
          var resolved := Resolved(bonus, percent, base);
          started := started.(effect := Attributes(resolved, percent));
          AddBonuses(resolved, 1);
        }
      case Plain =>
    }

    /** `getCondition(type, id, subId)` as a position in the list */
    method FindCondition(key: Key) returns (k: nat)
      ensures k == IndexOf(conditions, key)
    {
      k := 0;
      while k < |conditions|
        invariant 0 <= k <= |conditions|
        invariant IndexOf(conditions, key) == k + IndexOf(conditions[k..], key)
      {
        if conditions[k].key == key { return; }
        assert conditions[k..][1..] == conditions[k + 1..];
        k := k + 1;
      }
    }

    method HasCondition(kind: int, suppressed: set<int>, now: int) returns (yes: bool)
      ensures yes == HasKind(conditions, kind, suppressed, now)
    {
      if kind in suppressed { return false; }
      var k := 0;
      while k < |conditions|
        invariant 0 <= k <= |conditions|
        invariant forall j :: 0 <= j < k ==> !Active(conditions[j], kind, now)
      {
        if Active(conditions[k], kind, now) { return true; }
        k := k + 1;
      }
      return false;
    }

    /** The `addCondition` of the condition that is there. */
    method Refresh(prev: Condition, c: Condition, now: int, baseSpeed: int, base: seq<int>, rolled: int)
      returns (merged: Condition)
      requires WellFormed(prev) && WellFormed(c) && prev.key == c.key && |base| == SLOTS && |varBonus| == SLOTS
      modifies `varSpeed, `varBonus
      ensures merged == Merged(prev, c, now, base, rolled, player) && |varBonus| == SLOTS
      ensures varSpeed == old(varSpeed) + SpeedOf(merged) - SpeedOf(prev)
      ensures forall i: nat :: i < SLOTS ==>
        varBonus[i] == old(varBonus)[i] + if player then BonusOf(merged, i) - BonusOf(prev, i) else 0
    {
      merged := prev;
      match c.effect
      case Speed(delta) =>
        if !(prev.ticks == -1 && c.ticks > 0) {
          var newDelta := if delta == 0 then rolled else delta;
          merged := prev.(ticks := c.ticks, endTime := c.ticks + now, effect := Speed(newDelta));
          var change := newDelta - prev.effect.delta;
          if change != 0 {
            ChangeSpeed(baseSpeed, change);
          }
        }
      case Attributes(bonus, percent) =>
        if Refreshes(prev, c, now) {
          EndCondition(prev, baseSpeed);
          merged := prev.(ticks := c.ticks, endTime := c.ticks + now, effect := c.effect);
          if player {
            var resolved := Resolved(bonus, percent, base);
            merged := merged.(effect := Attributes(resolved, percent));
            AddBonuses(resolved, 1);
          }
        }
      case Plain =>
        if Refreshes(prev, c, now) {
          merged := prev.(ticks := c.ticks, endTime := c.ticks + now);
        }
    }

    /** `addCondition`; the walk delay depends on the speed at that moment. */
    method AddCondition(c: Condition, force: bool, suppressed: set<int>, walkDelay: int -> int, now: int,
        baseSpeed: int, base: seq<int>, rolled: int)
      returns (added: bool, ghost stop: nat)
      requires Valid() && WellFormed(c) && |base| == SLOTS
      modifies `conditions, `varSpeed, `varBonus
      ensures Valid()
      ensures !added <==> (&& !force && c.key.kind == CONDITION_HASTE && walkDelay(old(varSpeed)) > 0
                           && HasKind(old(conditions), CONDITION_PARALYZE, suppressed, now))
      ensures added ==>
        && conditions == AddedTo(old(conditions), c, now, base, rolled, Traits(player, reacts), suppressed, stop)
        && stop == HaltOf(Added(old(conditions), c, now, base, rolled, player), c, Busy(walkDelay), freeSpeed)
      ensures !added ==> conditions == old(conditions)
    {
      stop, added := 0, true;
      ghost var s := conditions;
      hide *;
      if !force && c.key.kind == CONDITION_HASTE {
        var paralyzed := HasCondition(CONDITION_PARALYZE, suppressed, now);
        if paralyzed && walkDelay(varSpeed) > 0 { return false, 0; }
      }
      var isNew := Enter(c, now, baseSpeed, base, rolled);
      stop := HaltOf(conditions, c, Busy(walkDelay), freeSpeed);
      AddedToIs(s, c, now, base, rolled, Traits(player, reacts), suppressed, stop);
      if isNew && reacts { OnAddCondition(c, suppressed, walkDelay, now, baseSpeed); }
    }

    /** `onAddCondition`: the opposite conditions go, or as many of them as may. */
    method OnAddCondition(c: Condition, suppressed: set<int>, walkDelay: int -> int, now: int, baseSpeed: int)
      requires Valid()
      modifies `conditions, `varSpeed, `varBonus
      ensures Valid()
      ensures conditions ==
              Ousted(old(conditions), c, suppressed, now, HaltOf(old(conditions), c, Busy(walkDelay), freeSpeed))
    {
      hide Valid;
      if Opposite(c.key.kind).Some? {
        var other := Opposite(c.key.kind).value;
        var present := HasCondition(other, suppressed, now);
        if present {
          ghost var s := conditions;
          var putOff, stop := RemoveCondition(OfType(other), false, walkDelay, baseSpeed);
          if other != CONDITION_PARALYZE { NeverHalts(s, 0, OfType(other), false, Busy(walkDelay), freeSpeed); }
        }
      }
    }

    /** The condition is merged with the one of the same key, or started and appended. */
    method Enter(c: Condition, now: int, baseSpeed: int, base: seq<int>, rolled: int) returns (isNew: bool)
      requires Valid() && WellFormed(c) && |base| == SLOTS
      modifies `conditions, `varSpeed, `varBonus
      ensures Valid() && conditions == Added(old(conditions), c, now, base, rolled, player)
      ensures isNew <==> IndexOf(old(conditions), c.key) == |old(conditions)|
    {
      hide Merged, Started;
      var k := FindCondition(c.key);
      isNew := k == |conditions|;
      if isNew {
        Append(c, now, baseSpeed, base, rolled);
      } else {
        MergeAt(k, c, now, baseSpeed, base, rolled);
      }
    }

    method MergeAt(k: nat, c: Condition, now: int, baseSpeed: int, base: seq<int>, rolled: int)
      requires Valid() && WellFormed(c) && |base| == SLOTS && k < |conditions| && conditions[k].key == c.key
      modifies `conditions, `varSpeed, `varBonus
      ensures Valid()
      ensures conditions == old(conditions)[k := Merged(old(conditions)[k], c, now, base, rolled, player)]
    {
      hide Merged;
      var merged := Refresh(conditions[k], c, now, baseSpeed, base, rolled);
      SumsUpdate(conditions, k, merged);
      conditions := conditions[k := merged];
    }

    method Append(c: Condition, now: int, baseSpeed: int, base: seq<int>, rolled: int)
      requires Valid() && WellFormed(c) && |base| == SLOTS
      requires forall j :: 0 <= j < |conditions| ==> conditions[j].key != c.key
      modifies `conditions, `varSpeed, `varBonus
      ensures Valid() && conditions == old(conditions) + [Started(c, now, base, rolled, player)]
    {
      UniqueAppend(conditions, c.key);
      hide Started, UniqueKeys, AllWell, WellFormed, BonusOf, SumBonus, SumSpeed;
      var started := StartCondition(c, now, baseSpeed, base, rolled);
      SumsAppend(conditions, started);
      conditions := conditions + [started];
    }

    /** Erasing the condition at a position and ending it. */
    method Erase(k: nat, baseSpeed: int)
      requires Valid() && k < |conditions|
      modifies `conditions, `varSpeed, `varBonus
      ensures Valid() && conditions == Instead(old(conditions), k, [])
    {
      var c := conditions[k];
      SumsSplit(conditions, k);
      conditions := conditions[..k] + conditions[k + 1..];
      EndCondition(c, baseSpeed);
    }

    /** `removeCondition` by type, and by type and id. The walk delay depends on the speed that is left.
        A paralysis that may not end yet stops the loop and is put off; `stop` is how far it came. */
    method RemoveCondition(w: Wanted, force: bool, walkDelay: int -> int, baseSpeed: int)
      returns (putOff: bool, ghost stop: nat)
      requires Valid()
      modifies `conditions, `varSpeed, `varBonus
      ensures Valid() && stop == Halt(old(conditions), 0, w, force, Busy(walkDelay), freeSpeed)
      ensures conditions == Midway(old(conditions), stop, w)
      ensures putOff <==> stop < |old(conditions)|
      ensures !putOff ==> conditions == Without(old(conditions), w)
    {
      ghost var s, free, busy := conditions, freeSpeed, Busy(walkDelay);
      stop, putOff := 0, false;
      var it: nat := 0;
      hide *;
      UptoStarts(s, w, force, busy, free);
      while it < |conditions|
        invariant stop <= |s| && Valid()
        invariant Upto(s, stop, it, conditions, w, force, busy, free)
        decreases |s| - stop
      {
        putOff, it := RemoveNext(it, w, force, walkDelay, baseSpeed, s, stop);
        if putOff { return; }
        stop := stop + 1;
      }
      UptoEnds(s, stop, it, conditions, w, force, busy, free);
    }

    /** One round of `removeCondition` */
    method RemoveNext(it: nat, w: Wanted, force: bool, walkDelay: int -> int, baseSpeed: int, ghost s: seq<Condition>,
        ghost stop: nat)
      returns (putOff: bool, next: nat)
      requires Valid() && it < |conditions| && Upto(s, stop, it, conditions, w, force, Busy(walkDelay), freeSpeed)
      modifies `conditions, `varSpeed, `varBonus
      ensures Valid() && stop < |s|
      ensures putOff ==> conditions == Midway(s, stop, w) && stop == Halt(s, 0, w, force, Busy(walkDelay), freeSpeed)
      ensures !putOff ==> Upto(s, stop + 1, next, conditions, w, force, Busy(walkDelay), freeSpeed)
    {
      hide *;
      ghost var busy := Busy(walkDelay);
      UptoStep(s, stop, it, conditions, w, force, busy, freeSpeed);
      SpeedNow();
      BusyAt(walkDelay, varSpeed);
      putOff, next := Consider(it, w, force, walkDelay(varSpeed), baseSpeed);
    }

    lemma SpeedNow()
      requires Valid()
      ensures varSpeed == freeSpeed + SumSpeed(conditions)
    {
    }

    /** One round of `removeCondition`: the condition at a position is passed over, put off or erased. */
    method Consider(k: nat, w: Wanted, force: bool, walkDelay: int, baseSpeed: int) returns (putOff: bool, next: nat)
      requires Valid() && k < |conditions|
      modifies `conditions, `varSpeed, `varBonus
      ensures Valid()
      ensures var wanted := w.Matches(old(conditions)[k].key);
              && (putOff <==> wanted && !force && w.kind == CONDITION_PARALYZE && walkDelay > 0)
              && next == (if wanted then k else k + 1)
              && conditions == (if wanted && !putOff then Instead(old(conditions), k, []) else old(conditions))
      ensures putOff ==> varSpeed == old(varSpeed)
    {
      if !w.Matches(conditions[k].key) { return false, k + 1; }
      if !force && w.kind == CONDITION_PARALYZE && walkDelay > 0 { return true, k; }
      Erase(k, baseSpeed);
      return false, k;
    }

    /** `removeCondition` of one condition of the list */
    method RemoveOne(k: nat, force: bool, walkDelay: int, baseSpeed: int) returns (putOff: bool)
      requires Valid() && k < |conditions|
      modifies `conditions, `varSpeed, `varBonus
      ensures Valid()
      ensures putOff <==> !force && old(conditions)[k].key.kind == CONDITION_PARALYZE && walkDelay > 0
      ensures conditions == if putOff then old(conditions) else Instead(old(conditions), k, [])
    {
      if !force && conditions[k].key.kind == CONDITION_PARALYZE && walkDelay > 0 {
        return true;
      }
      Erase(k, baseSpeed);
      return false;
    }

    /** `std::find` in the list, for a condition known to be at position `k` */
    method FindAgain(c: Condition, ghost k: nat) returns (it: nat)
      requires Valid() && k < |conditions| && conditions[k] == c
      ensures it == k
    {
      it := FindCondition(c.key);
    }

    /** A condition counts down; nothing that is booked changes. */
    method Age(k: nat, interval: nat)
      requires Valid() && k < |conditions|
      modifies `conditions
      ensures Valid() && conditions == old(conditions)[k := Aged(old(conditions)[k], interval)]
    {
      var aged := Aged(conditions[k], interval);
      SumsUpdate(conditions, k, aged);
      conditions := conditions[k := aged];
    }

    /** One round of `executeConditions`: the condition at position `k` counts down, and is ended if
        its time is over. */
    method Execute(c: Condition, ghost k: nat, interval: nat, now: int, baseSpeed: int)
      requires Valid() && k < |conditions| && conditions[k] == c
      modifies `conditions, `varSpeed, `varBonus
      ensures Valid()
      ensures conditions == Instead(old(conditions), k, if Survives(c, now) then [Aged(c, interval)] else [])
    {
      hide Valid;
      var it := FindAgain(c, k);
      Age(it, interval);
      if !Survives(conditions[it], now) {
        Erase(it, baseSpeed);
      }
    }

    method ExecuteConditions(interval: nat, now: int, baseSpeed: int)
      requires Valid()
      modifies `conditions, `varSpeed, `varBonus
      ensures Valid() && conditions == Ticked(old(conditions), interval, now)
    {
      hide *;
      var temp := conditions;
      ExecutedNone(temp, interval, now);
      var i := 0;
      while i < |temp|
        invariant i <= |temp| && Valid() && Executed(temp, i, conditions, interval, now)
      {
        ExecuteNext(temp, i, interval, now, baseSpeed);
        i := i + 1;
      }
      ExecutedAll(temp, conditions, interval, now);
    }

    /** One round for the i-th condition of the copy */
    method ExecuteNext(temp: seq<Condition>, i: nat, interval: nat, now: int, baseSpeed: int)
      requires Valid() && i < |temp| && Executed(temp, i, conditions, interval, now)
      modifies `conditions, `varSpeed, `varBonus
      ensures Valid() && Executed(temp, i + 1, conditions, interval, now)
    {
      hide *;
      ghost var k := ExecutedNext(temp, i, conditions, interval, now);
      Execute(temp[i], k, interval, now, baseSpeed);
    }
  }

  /** The first i conditions of the copy have had their round. */
  ghost predicate Executed(temp: seq<Condition>, i: nat, now0: seq<Condition>, interval: nat, now: int) {
    i <= |temp| && now0 == Ticked(temp[..i], interval, now) + temp[i..]
  }

  lemma ExecutedNone(temp: seq<Condition>, interval: nat, now: int)
    ensures Executed(temp, 0, temp, interval, now)
  {
    assert Ticked(temp[..0], interval, now) + temp[0..] == temp;
  }

  lemma ExecutedNext(temp: seq<Condition>, i: nat, s: seq<Condition>, interval: nat, now: int) returns (k: nat)
    requires i < |temp| && Executed(temp, i, s, interval, now)
    ensures k < |s| && s[k] == temp[i]
    ensures Executed(temp, i + 1, Instead(s, k, if Survives(temp[i], now) then [Aged(temp[i], interval)] else []),
                     interval, now)
  {
    k := |Ticked(temp[..i], interval, now)|;
    TickedStep(temp, i, interval, now);
    hide Ticked, Instead, Survives, Aged;
  }

  lemma ExecutedAll(temp: seq<Condition>, s: seq<Condition>, interval: nat, now: int)
    requires Executed(temp, |temp|, s, interval, now)
    ensures s == Ticked(temp, interval, now)
  {
    assert temp[..|temp|] == temp;
  }

  /** What can happen to the list in the course of a run. A paralysis that may not end yet stops a removal
      after the first `stop` conditions; so it does when an added haste drives paralyses out. */
  datatype Event =
    | Add(c: Condition, at: int, base: seq<int>, rolled: int, suppressed: set<int>, stop: nat)
    | Remove(wanted: Wanted, stop: nat)
    | RemoveOne(key: Key)
    | Tick(interval: nat, now: int)

  ghost predicate Possible(e: Event) {
    e.Add? ==> WellFormed(e.c) && |e.base| == SLOTS
  }

  ghost function After(s: seq<Condition>, e: Event, creature: Traits): seq<Condition>
    requires AllWell(s) && Possible(e)
  {
    match e
    case Add(c, at, base, rolled, suppressed, stop) => AddedTo(s, c, at, base, rolled, creature, suppressed, stop)
    case Remove(w, stop) => Midway(s, Reach(w.kind, stop, |s|), w)
    case RemoveOne(key) => if IndexOf(s, key) < |s| then Instead(s, IndexOf(s, key), []) else s
    case Tick(interval, now) => Ticked(s, interval, now)
  }

  lemma {:induction false} WithoutKeeps(s: seq<Condition>, w: Wanted)
    requires AllWell(s) && UniqueKeys(s)
    ensures AllWell(Without(s, w)) && UniqueKeys(Without(s, w))
    ensures forall c :: c in Without(s, w) <==> c in s && !w.Matches(c.key)
  {
    if s != [] {
      var n := |s| - 1;
      WithoutKeeps(s[..n], w);
      assert s == s[..n] + [s[n]];
      assert forall c :: c in s[..n] ==> c.key != s[n].key;
    }
  }

  lemma MidwayKeeps(s: seq<Condition>, i: nat, w: Wanted)
    requires AllWell(s) && UniqueKeys(s) && i <= |s|
    ensures AllWell(Midway(s, i, w)) && UniqueKeys(Midway(s, i, w))
    ensures forall c :: c in Midway(s, i, w) ==> c in s
    ensures forall c :: c in s && !w.Matches(c.key) ==> c in Midway(s, i, w)
  {
    WithoutKeeps(s[..i], w);
    var front := Without(s[..i], w);
    assert s == s[..i] + s[i..];
    forall c, d | c in front && d in s[i..]
      ensures c.key != d.key
    {
      assert c in s[..i];
    }
  }

  lemma ErasedKeeps(s: seq<Condition>, k: nat)
    requires AllWell(s) && UniqueKeys(s) && k < |s|
    ensures AllWell(Instead(s, k, [])) && UniqueKeys(Instead(s, k, []))
    ensures forall c :: c in Instead(s, k, []) <==> c in s && c.key != s[k].key
  {
    var t := Instead(s, k, []);
    assert forall j :: 0 <= j < |t| ==> t[j] == s[if j < k then j else j + 1];
    forall c | c in s && c.key != s[k].key
      ensures c in t
    {
      var j :| 0 <= j < |s| && s[j] == c;
      assert t[if j < k then j else j - 1] == c;
    }
  }

  /** Exactly the conditions that survive are left, in their order and each aged. */
  lemma {:induction false} TickedKeeps(s: seq<Condition>, interval: nat, now: int)
    requires AllWell(s) && UniqueKeys(s)
    ensures AllWell(Ticked(s, interval, now)) && UniqueKeys(Ticked(s, interval, now))
    ensures forall c :: c in s && Survives(c, now) ==> Aged(c, interval) in Ticked(s, interval, now)
    ensures forall c :: c in Ticked(s, interval, now) ==>
      exists d :: d in s && Survives(d, now) && c == Aged(d, interval)
  {
    if s != [] {
      var n := |s| - 1;
      TickedKeeps(s[..n], interval, now);
      assert s == s[..n] + [s[n]];
      assert forall c :: c in s[..n] ==> c.key != s[n].key;
      assert forall c :: c in Ticked(s[..n], interval, now) ==> c.key != s[n].key;
    }
  }

  lemma AddedKeeps(s: seq<Condition>, c: Condition, now: int, base: seq<int>, rolled: int, player: bool)
    requires AllWell(s) && UniqueKeys(s) && WellFormed(c) && |base| == SLOTS
    ensures var t := Added(s, c, now, base, rolled, player);
            && AllWell(t) && UniqueKeys(t)
            && (forall d :: d in s && d.key != c.key ==> d in t)
            && (forall d :: d in t && d.key != c.key ==> d in s)
            && (exists d :: d in t && d.key == c.key)
  {
    var t := Added(s, c, now, base, rolled, player);
    var k := IndexOf(s, c.key);
    assert t[k].key == c.key;
    forall j | 0 <= j < |s| && s[j].key != c.key
      ensures s[j] in t
    {
      assert t[j] == s[j];
    }
  }

  lemma AfterKeeps(s: seq<Condition>, e: Event, creature: Traits)
    requires AllWell(s) && UniqueKeys(s) && Possible(e)
    ensures AllWell(After(s, e, creature)) && UniqueKeys(After(s, e, creature))
  {
    match e
    case Add(c, at, base, rolled, suppressed, stop) =>
      AddedKeeps(s, c, at, base, rolled, creature.player);
      if creature.reacts && Ousts(s, c, suppressed, at) {
        var t, other := Added(s, c, at, base, rolled, creature.player), Opposite(c.key.kind).value;
        MidwayKeeps(t, Reach(other, stop, |t|), OfType(other));
      }
    case Remove(w, stop) => MidwayKeeps(s, Reach(w.kind, stop, |s|), w);
    case RemoveOne(key) => if IndexOf(s, key) < |s| { ErasedKeeps(s, IndexOf(s, key)); }
    case Tick(interval, now) => TickedKeeps(s, interval, now);
  }

  ghost predicate AllPossible(events: seq<Event>) {
    forall k :: 0 <= k < |events| ==> Possible(events[k])
  }

  /** The list after a run that starts without conditions: there never are two with the same type,
      id and sub-id. */
  ghost function Run(events: seq<Event>, creature: Traits): (s: seq<Condition>)
    requires AllPossible(events)
    ensures AllWell(s) && UniqueKeys(s)
  {
    if events == [] then []
    else
      var before := Run(events[..|events| - 1], creature);
      AfterKeeps(before, events[|events| - 1], creature);
      After(before, events[|events| - 1], creature)
  }

  ghost predicate KeyIn(s: seq<Condition>, key: Key) {
    exists c :: c in s && c.key == key
  }

  /** The event adds a condition that drives out those of this type. */
  ghost predicate DrivesOut(s: seq<Condition>, e: Event, creature: Traits, kind: int) {
    e.Add? && creature.reacts && Opposite(e.c.key.kind) == Some(kind) && Ousts(s, e.c, e.suppressed, e.at)
  }

  /** The event leaves the condition alone: it is neither added again, nor removed, nor driven out. */
  ghost predicate Undisturbed(s: seq<Condition>, e: Event, creature: Traits, key: Key) {
    match e
    case Add(c, _, _, _, _, _) => c.key != key && !DrivesOut(s, e, creature, key.kind)
    case Remove(w, _) => !w.Matches(key)
    case RemoveOne(other) => other != key
    case Tick(_, _) => true
  }

  ghost predicate InTime(e: Event, end: int) {
    e.Tick? ==> e.now <= end
  }

  ghost predicate AllInTime(events: seq<Event>, end: int) {
    forall e :: e in events ==> InTime(e, end)
  }

  ghost predicate Timed(c: Condition, key: Key, end: int) {
    c.key == key && c.endTime == end && c.ticks >= 0
  }

  ghost predicate TimedIn(s: seq<Condition>, key: Key, end: int) {
    exists c :: c in s && Timed(c, key, end)
  }

  /** An Add that leaves a key alone keeps what has that key, and brings no other. */
  lemma AddSpares(s: seq<Condition>, e: Event, creature: Traits, key: Key)
    requires AllWell(s) && UniqueKeys(s) && Possible(e) && e.Add? && Undisturbed(s, e, creature, key)
    ensures forall d: Condition :: d.key == key ==> (d in After(s, e, creature) <==> d in s)
  {
    var c := e.c;
    AddedKeeps(s, c, e.at, e.base, e.rolled, creature.player);
    if creature.reacts && Ousts(s, c, e.suppressed, e.at) {
      var t, other := Added(s, c, e.at, e.base, e.rolled, creature.player), Opposite(c.key.kind).value;
      MidwayKeeps(t, Reach(other, e.stop, |t|), OfType(other));
    }
  }

  /** A condition that is added is in the list afterwards, although it may drive out others. */
  lemma AddArrives(s: seq<Condition>, e: Event, creature: Traits)
    requires AllWell(s) && UniqueKeys(s) && Possible(e) && e.Add?
    ensures KeyIn(After(s, e, creature), e.c.key)
  {
    var c := e.c;
    AddedKeeps(s, c, e.at, e.base, e.rolled, creature.player);
    if creature.reacts && Ousts(s, c, e.suppressed, e.at) {
      var t, other := Added(s, c, e.at, e.base, e.rolled, creature.player), Opposite(c.key.kind).value;
      MidwayKeeps(t, Reach(other, e.stop, |t|), OfType(other));
    }
  }

  /** An Add drives conditions of a type out exactly if the creature reacts, the condition that is added is of
      the opposite type and has no key of the list, and one of that type with sub-id 0 is not over and not
      suppressed. */
  lemma DrivesOutMeans(s: seq<Condition>, e: Event, creature: Traits, kind: int)
    requires e.Add?
    ensures DrivesOut(s, e, creature, kind) <==>
            && creature.reacts && !KeyIn(s, e.c.key) && kind !in e.suppressed
            && ((e.c.key.kind == CONDITION_PARALYZE && kind == CONDITION_HASTE)
                || (e.c.key.kind == CONDITION_HASTE && kind == CONDITION_PARALYZE))
            && exists d :: d in s && d.key.kind == kind && d.key.subId == 0 && (d.endTime >= e.at || d.ticks == -1)
  {
    var k := IndexOf(s, e.c.key);
    assert k < |s| ==> s[k] in s;
    if d :| d in s && d.key.kind == kind && d.key.subId == 0 && (d.endTime >= e.at || d.ticks == -1) {
      var j :| 0 <= j < |s| && s[j] == d;
      assert Active(s[j], kind, e.at);
    }
    hide IndexOf;
    if DrivesOut(s, e, creature, kind) {
      var j :| 0 <= j < |s| && Active(s[j], kind, e.at);
      assert s[j] in s;
    }
  }

  /** A paralysis that is added ends a haste exactly if the creature reacts to it, the paralysis is new, and
      some haste is active and not suppressed; then no haste is left. */
  lemma ParalysisEndsHaste(s: seq<Condition>, e: Event, creature: Traits, haste: Key)
    requires AllWell(s) && UniqueKeys(s) && Possible(e) && e.Add? && e.c.key.kind == CONDITION_PARALYZE
    requires KeyIn(s, haste) && haste.kind == CONDITION_HASTE
    ensures KeyIn(After(s, e, creature), haste) <==>
            !(&& creature.reacts && !KeyIn(s, e.c.key) && CONDITION_HASTE !in e.suppressed
              && exists d :: d in s && d.key.kind == CONDITION_HASTE && d.key.subId == 0
                             && (d.endTime >= e.at || d.ticks == -1))
    ensures !KeyIn(After(s, e, creature), haste) ==>
              forall d :: d in After(s, e, creature) ==> d.key.kind != CONDITION_HASTE
  {
    DrivesOutMeans(s, e, creature, CONDITION_HASTE);
    if DrivesOut(s, e, creature, CONDITION_HASTE) {
      HastesGone(s, e, creature);
    } else {
      NotDriven(s, e, creature, haste);
    }
    hide *;
  }

  lemma HastesGone(s: seq<Condition>, e: Event, creature: Traits)
    requires AllWell(s) && UniqueKeys(s) && Possible(e) && DrivesOut(s, e, creature, CONDITION_HASTE)
    ensures forall d :: d in After(s, e, creature) ==> d.key.kind != CONDITION_HASTE
    ensures forall key: Key :: key.kind == CONDITION_HASTE ==> !KeyIn(After(s, e, creature), key)
  {
    var t := Added(s, e.c, e.at, e.base, e.rolled, creature.player);
    AddedKeeps(s, e.c, e.at, e.base, e.rolled, creature.player);
    OthersStay(s, e, creature);
    hide After, Added, Without, DrivesOut, UniqueKeys, AllWell;
    WithoutKeeps(t, OfType(CONDITION_HASTE));
  }

  lemma OthersStay(s: seq<Condition>, e: Event, creature: Traits)
    requires AllWell(s) && Possible(e) && DrivesOut(s, e, creature, CONDITION_HASTE)
    ensures After(s, e, creature)
         == Without(Added(s, e.c, e.at, e.base, e.rolled, creature.player), OfType(CONDITION_HASTE))
  {
    hide Ousts, Added, Without;
    MidwayEnds(Added(s, e.c, e.at, e.base, e.rolled, creature.player), OfType(CONDITION_HASTE));
  }

  lemma NotDriven(s: seq<Condition>, e: Event, creature: Traits, key: Key)
    requires AllWell(s) && UniqueKeys(s) && Possible(e) && e.Add? && Undisturbed(s, e, creature, key) && KeyIn(s, key)
    ensures KeyIn(After(s, e, creature), key)
  {
    AddSpares(s, e, creature, key);
  }

  /** A haste that drives out paralyses leaves none exactly if none may not end yet at its turn: a paralysis
      that is put off stays. */
  lemma HasteEndsParalysis(s: seq<Condition>, e: Event, creature: Traits, busy: iset<int>, freeSpeed: int)
    requires AllWell(s) && UniqueKeys(s) && Possible(e) && DrivesOut(s, e, creature, CONDITION_PARALYZE)
    requires e.stop == HaltOf(Added(s, e.c, e.at, e.base, e.rolled, creature.player), e.c, busy, freeSpeed)
    ensures (forall d :: d in After(s, e, creature) ==> d.key.kind != CONDITION_PARALYZE) <==>
            e.stop == |Added(s, e.c, e.at, e.base, e.rolled, creature.player)|
  {
    var t := Added(s, e.c, e.at, e.base, e.rolled, creature.player);
    var w := OfType(CONDITION_PARALYZE);
    assert After(s, e, creature) == Midway(t, Reach(w.kind, e.stop, |t|), w);
    assert Reach(w.kind, e.stop, |t|) == e.stop;
    AddedKeeps(s, e.c, e.at, e.base, e.rolled, creature.player);
    HaltsAtMatch(t, 0, w, false, busy, freeSpeed);
    hide *;
    if e.stop == |t| {
      MidwayEnds(t, w);
      WithoutKeeps(t, w);
    } else {
      MidwayHolds(t, e.stop, w);
    }
  }

  lemma MidwayHolds(s: seq<Condition>, i: nat, w: Wanted)
    requires i < |s|
    ensures s[i] in Midway(s, i, w)
  {
    assert Midway(s, i, w)[|Without(s[..i], w)|] == s[i];
  }

  /** The removal stops at the first matching condition at whose turn the creature is still walking, and
      nowhere if it is forced or removes no paralyses. */
  lemma {:induction false} HaltIsFirst(s: seq<Condition>, i: nat, w: Wanted, force: bool, busy: iset<int>,
                                       freeSpeed: int, k: nat)
    requires i <= k <= |s|
    requires forall j :: i <= j < k && w.Matches(s[j].key) && !force && w.kind == CONDITION_PARALYZE ==>
               freeSpeed + SumSpeed(Midway(s, j, w)) !in busy
    requires k < |s| ==>
               && w.Matches(s[k].key) && !force && w.kind == CONDITION_PARALYZE
               && freeSpeed + SumSpeed(Midway(s, k, w)) in busy
    ensures Halt(s, i, w, force, busy, freeSpeed) == k
    decreases k - i
  {
    hide Halt, Midway, SumSpeed;
    if i < |s| { HaltStep(s, i, w, force, busy, freeSpeed); }
    if i < k { HaltIsFirst(s, i + 1, w, force, busy, freeSpeed, k); }
    if i == |s| { HaltEnds(s, w, force, busy, freeSpeed); }
  }

  lemma HaltEnds(s: seq<Condition>, w: Wanted, force: bool, busy: iset<int>, freeSpeed: int)
    ensures Halt(s, |s|, w, force, busy, freeSpeed) == |s|
  {
  }

  lemma {:induction false} HaltsAtMatch(s: seq<Condition>, i: nat, w: Wanted, force: bool, busy: iset<int>,
                                        freeSpeed: int)
    requires i <= |s|
    ensures var k := Halt(s, i, w, force, busy, freeSpeed);
            k < |s| ==> w.Matches(s[k].key) && Halts(s, k, w, force, busy, freeSpeed)
    decreases |s| - i
  {
    if i < |s| { HaltsAtMatch(s, i + 1, w, force, busy, freeSpeed); }
  }

  lemma EventKeepsTimed(s: seq<Condition>, e: Event, creature: Traits, key: Key, end: int)
    requires AllWell(s) && UniqueKeys(s) && Possible(e) && Undisturbed(s, e, creature, key)
    requires TimedIn(s, key, end)
    ensures InTime(e, end) ==> KeyIn(After(s, e, creature), key) && TimedIn(After(s, e, creature), key, end)
    ensures !InTime(e, end) ==> !KeyIn(After(s, e, creature), key)
  {
    var c :| c in s && Timed(c, key, end);
    match e
    case Add(_, _, _, _, _, _) =>
      AddSpares(s, e, creature, key);
    case Remove(w, stop) =>
      MidwayKeeps(s, Reach(w.kind, stop, |s|), w);
    case RemoveOne(other) =>
      if IndexOf(s, other) < |s| { ErasedKeeps(s, IndexOf(s, other)); }
    case Tick(interval, now) =>
      TickedKeeps(s, interval, now);
      assert Timed(Aged(c, interval), key, end);
  }

  lemma EventAddsNoKey(s: seq<Condition>, e: Event, creature: Traits, key: Key)
    requires AllWell(s) && UniqueKeys(s) && Possible(e) && Undisturbed(s, e, creature, key) && !KeyIn(s, key)
    ensures !KeyIn(After(s, e, creature), key)
  {
    match e
    case Add(_, _, _, _, _, _) =>
      AddSpares(s, e, creature, key);
    case Remove(w, stop) =>
      MidwayKeeps(s, Reach(w.kind, stop, |s|), w);
    case RemoveOne(other) =>
      if IndexOf(s, other) < |s| { ErasedKeeps(s, IndexOf(s, other)); }
    case Tick(interval, now) =>
      TickedKeeps(s, interval, now);
  }

  lemma AllInTimeLast(events: seq<Event>, from: nat, end: int)
    requires from < |events|
    ensures AllInTime(events[from..], end) <==>
      AllInTime(events[..|events| - 1][from..], end) && InTime(events[|events| - 1], end)
  {
    var n := |events| - 1;
    assert events == events[..n] + [events[n]] && events[from..] == events[..n][from..] + [events[n]];
  }

  /** Every event of the run from a place on leaves the condition alone. */
  ghost predicate LeftAlone(events: seq<Event>, from: nat, creature: Traits, key: Key)
    requires AllPossible(events)
  {
    forall k :: from <= k < |events| ==> Undisturbed(Run(events[..k], creature), events[k], creature, key)
  }

  lemma LeftAloneBefore(events: seq<Event>, from: nat, creature: Traits, key: Key)
    requires AllPossible(events) && from < |events| && LeftAlone(events, from, creature, key)
    ensures var n := |events| - 1;
            LeftAlone(events[..n], from, creature, key)
            && Undisturbed(Run(events[..n], creature), events[n], creature, key)
  {
    hide Undisturbed, Run;
    var n := |events| - 1;
    forall k | from <= k < n
      ensures Undisturbed(Run(events[..n][..k], creature), events[..n][k], creature, key)
    {
      assert events[..n][..k] == events[..k];
    }
  }

  /** A timed condition that a run puts on and then leaves alone is there at the end exactly if no
      tick came after its end time. */
  lemma {:induction false} LastsUntilItsEnd(events: seq<Event>, from: nat, creature: Traits, key: Key, end: int)
    requires AllPossible(events) && from <= |events|
    requires TimedIn(Run(events[..from], creature), key, end)
    requires LeftAlone(events, from, creature, key)
    ensures KeyIn(Run(events, creature), key) <==> AllInTime(events[from..], end)
    ensures KeyIn(Run(events, creature), key) ==> TimedIn(Run(events, creature), key, end)
  {
    if from == |events| {
      assert events[..from] == events;
    } else {
      var n := |events| - 1;
      var before, e := events[..n], events[n];
      assert before[..from] == events[..from];
      LeftAloneBefore(events, from, creature, key);
      LastsUntilItsEnd(before, from, creature, key, end);
      AllInTimeLast(events, from, end);
      var s := Run(before, creature);
      assert Run(events, creature) == After(s, e, creature);
      hide *;
      if KeyIn(s, key) {
        EventKeepsTimed(s, e, creature, key, end);
      } else {
        EventAddsNoKey(s, e, creature, key);
      }
    }
  }

  // ----- How long a condition lasts that is added -------------------------------------------

  /** The condition with this key never ends by itself. */
  ghost predicate Permanent(s: seq<Condition>, key: Key) {
    exists c :: c in s && c.key == key && c.ticks == -1
  }

  /** The end of a condition after one of the same key was added at a time for so many ticks: a speed ends
      when the new one would, any other condition at the later of both. */
  function EndOf(was: Option<int>, c: Condition, at: int): int {
    var end := at + c.ticks;
    if was.Some? && !c.effect.Speed? && was.value > end then was.value else end
  }

  /** The condition with this key ends at that time, or there is none. */
  ghost predicate EndsAt(s: seq<Condition>, key: Key, end: Option<int>) {
    if end.Some? then TimedIn(s, key, end.value) else !KeyIn(s, key)
  }

  /** What becomes of the condition that is added and of the one with the same key. */
  lemma EntryAdded(s: seq<Condition>, e: Event, creature: Traits) returns (d: Condition)
    requires AllWell(s) && UniqueKeys(s) && Possible(e) && e.Add?
    ensures d in After(s, e, creature) && d.key == e.c.key
    ensures var k := IndexOf(s, e.c.key);
            d == if k < |s| then Merged(s[k], e.c, e.at, e.base, e.rolled, creature.player)
                 else Started(e.c, e.at, e.base, e.rolled, creature.player)
  {
    var c := e.c;
    var t := Added(s, c, e.at, e.base, e.rolled, creature.player);
    d := t[IndexOf(s, c.key)];
    AddedKeeps(s, c, e.at, e.base, e.rolled, creature.player);
    if creature.reacts && Ousts(s, c, e.suppressed, e.at) {
      var other := Opposite(c.key.kind).value;
      MidwayKeeps(t, Reach(other, e.stop, |t|), OfType(other));
    }
  }

  lemma KeyOnce(s: seq<Condition>, key: Key, d: Condition)
    requires UniqueKeys(s) && d in s && d.key == key
    ensures IndexOf(s, key) < |s| && s[IndexOf(s, key)] == d
  {
    var j :| 0 <= j < |s| && s[j] == d;
    var k := IndexOf(s, key);
    assert k <= j;
  }

  /** When a condition that is added for some time will end, and that one added without end, or to one
      without end, does not. */
  lemma AddSetsEnd(s: seq<Condition>, e: Event, creature: Traits, was: Option<int>)
    requires AllWell(s) && UniqueKeys(s) && Possible(e) && e.Add?
    ensures e.c.ticks > 0 && EndsAt(s, e.c.key, was) ==>
              TimedIn(After(s, e, creature), e.c.key, EndOf(was, e.c, e.at))
    ensures e.c.ticks == -1 || (e.c.ticks > 0 && Permanent(s, e.c.key)) ==> Permanent(After(s, e, creature), e.c.key)
  {
    var c := e.c;
    var k := IndexOf(s, c.key);
    var d := EntryAdded(s, e, creature);
    if was.Some? && TimedIn(s, c.key, was.value) {
      var prev :| prev in s && Timed(prev, c.key, was.value);
      KeyOnce(s, c.key, prev);
    }
    if Permanent(s, c.key) {
      var prev :| prev in s && prev.key == c.key && prev.ticks == -1;
      KeyOnce(s, c.key, prev);
    }
    if k < |s| { assert s[k] in s; }
    hide After, IndexOf, Resolved;
    if c.ticks > 0 && EndsAt(s, c.key, was) { assert Timed(d, c.key, EndOf(was, c, e.at)); }
  }

  /** A speed that is added changes the speed by its own amount, or the one rolled for it, unless one without
      end stays. */
  lemma AddSetsSpeed(s: seq<Condition>, e: Event, creature: Traits)
    requires AllWell(s) && UniqueKeys(s) && Possible(e) && e.Add? && e.c.effect.Speed?
    requires !(e.c.ticks > 0 && Permanent(s, e.c.key))
    ensures exists d :: d in After(s, e, creature) && d.key == e.c.key
                        && SpeedOf(d) == if SpeedOf(e.c) == 0 then e.rolled else SpeedOf(e.c)
  {
    var k := IndexOf(s, e.c.key);
    var d := EntryAdded(s, e, creature);
    if k < |s| && s[k].ticks == -1 { assert s[k] in s; }
    hide After, IndexOf, Resolved;
    assert SpeedOf(d) == if SpeedOf(e.c) == 0 then e.rolled else SpeedOf(e.c);
  }

  /** Bonuses that are added are those that their percentages amount to for a player, and the fixed ones for
      any other creature, if none of the key was there or the new end is not the earlier one. */
  lemma AddSetsBonus(s: seq<Condition>, e: Event, creature: Traits, was: Option<int>)
    requires AllWell(s) && UniqueKeys(s) && Possible(e) && e.Add? && e.c.effect.Attributes? && e.c.ticks > 0
    requires EndsAt(s, e.c.key, was) && (was.Some? ==> was.value <= e.at + e.c.ticks)
    ensures exists d :: d in After(s, e, creature) && d.key == e.c.key && d.effect.Attributes?
                        && d.effect.bonus == if creature.player
                                             then Resolved(e.c.effect.bonus, e.c.effect.percent, e.base)
                                             else e.c.effect.bonus
  {
    var k := IndexOf(s, e.c.key);
    var d := EntryAdded(s, e, creature);
    if was.Some? {
      var prev :| prev in s && Timed(prev, e.c.key, was.value);
      KeyOnce(s, e.c.key, prev);
    }
    if k < |s| { assert s[k] in s; }
    hide After, IndexOf, Resolved;
    assert d.effect.Attributes?;
  }

  /** A condition that is added for some time, new or to one that lasts for some time, and then left alone, is
      there at the end exactly if no tick came after the end that this gives it. */
  lemma LastsFromAdd(events: seq<Event>, from: nat, creature: Traits, was: Option<int>)
    requires AllPossible(events) && 1 <= from <= |events| && events[from - 1].Add? && events[from - 1].c.ticks > 0
    requires EndsAt(Run(events[..from - 1], creature), events[from - 1].c.key, was)
    requires LeftAlone(events, from, creature, events[from - 1].c.key)
    ensures var e := events[from - 1];
            KeyIn(Run(events, creature), e.c.key) <==> AllInTime(events[from..], EndOf(was, e.c, e.at))
  {
    var e, before := events[from - 1], Run(events[..from - 1], creature);
    assert events[..from][..from - 1] == events[..from - 1];
    assert Run(events[..from], creature) == After(before, e, creature);
    AddSetsEnd(before, e, creature, was);
    LastsUntilItsEnd(events, from, creature, e.c.key, EndOf(was, e.c, e.at));
  }

  lemma EventKeepsPermanent(s: seq<Condition>, e: Event, creature: Traits, key: Key)
    requires AllWell(s) && UniqueKeys(s) && Possible(e) && Undisturbed(s, e, creature, key) && Permanent(s, key)
    ensures Permanent(After(s, e, creature), key)
  {
    var c :| c in s && c.key == key && c.ticks == -1;
    match e
    case Add(_, _, _, _, _, _) => AddSpares(s, e, creature, key);
    case Remove(w, stop) => MidwayKeeps(s, Reach(w.kind, stop, |s|), w);
    case RemoveOne(other) => if IndexOf(s, other) < |s| { ErasedKeeps(s, IndexOf(s, other)); }
    case Tick(interval, now) =>
      TickedKeeps(s, interval, now);
      assert Aged(c, interval) == c;
  }

  /** A condition without end that is left alone is always there. */
  lemma {:induction false} PermanentStays(events: seq<Event>, from: nat, creature: Traits, key: Key)
    requires AllPossible(events) && from <= |events| && Permanent(Run(events[..from], creature), key)
    requires LeftAlone(events, from, creature, key)
    ensures Permanent(Run(events, creature), key)
  {
    if from == |events| {
      assert events[..from] == events;
    } else {
      var n := |events| - 1;
      var before, e := events[..n], events[n];
      assert before[..from] == events[..from];
      LeftAloneBefore(events, from, creature, key);
      PermanentStays(before, from, creature, key);
      assert Run(events, creature) == After(Run(before, creature), e, creature);
      hide *;
      EventKeepsPermanent(Run(before, creature), e, creature, key);
    }
  }

  /** The condition with this key has so many ticks left. */
  ghost predicate Left(s: seq<Condition>, key: Key, ticks: nat) {
    exists c :: c in s && c.key == key && c.ticks == ticks
  }

  ghost function Elapsed(events: seq<Event>): nat {
    if events == [] then 0
    else
      var last := events[|events| - 1];
      Elapsed(events[..|events| - 1]) + if last.Tick? then last.interval else 0
  }

  function CountedDown(ticks: nat, elapsed: nat): nat {
    if ticks < elapsed then 0 else ticks - elapsed
  }

  lemma EventCountsDown(s: seq<Condition>, e: Event, creature: Traits, key: Key, ticks: nat)
    requires AllWell(s) && UniqueKeys(s) && Possible(e) && Undisturbed(s, e, creature, key) && Left(s, key, ticks)
    requires KeyIn(After(s, e, creature), key)
    ensures Left(After(s, e, creature), key, CountedDown(ticks, if e.Tick? then e.interval else 0))
  {
    var c :| c in s && c.key == key && c.ticks == ticks;
    match e
    case Add(_, _, _, _, _, _) => AddSpares(s, e, creature, key);
    case Remove(w, stop) => MidwayKeeps(s, Reach(w.kind, stop, |s|), w);
    case RemoveOne(other) => if IndexOf(s, other) < |s| { ErasedKeeps(s, IndexOf(s, other)); }
    case Tick(interval, now) =>
      TickedKeeps(s, interval, now);
      var d :| d in Ticked(s, interval, now) && d.key == key;
      var b :| b in s && Survives(b, now) && d == Aged(b, interval);
      KeyOnce(s, key, b);
      KeyOnce(s, key, c);
  }

  /** As long as it is there and left alone, its ticks are what is left of them after the intervals. */
  lemma {:induction false} TicksCountDown(events: seq<Event>, from: nat, creature: Traits, key: Key, ticks: nat)
    requires AllPossible(events) && from <= |events| && Left(Run(events[..from], creature), key, ticks)
    requires LeftAlone(events, from, creature, key) && KeyIn(Run(events, creature), key)
    ensures Left(Run(events, creature), key, CountedDown(ticks, Elapsed(events[from..])))
  {
    if from == |events| {
      assert events[..from] == events && Elapsed(events[from..]) == 0;
    } else {
      var n := |events| - 1;
      var before, e := events[..n], events[n];
      assert before[..from] == events[..from];
      assert Run(events, creature) == After(Run(before, creature), e, creature);
      hide *;
      LeftAloneBefore(events, from, creature, key);
      ElapsedLast(events, from);
      StillThere(before, e, creature, key);
      TicksCountDown(before, from, creature, key, ticks);
      LeftLess(ticks, Elapsed(before[from..]), if e.Tick? then e.interval else 0);
      EventCountsDown(Run(before, creature), e, creature, key, CountedDown(ticks, Elapsed(before[from..])));
    }
  }

  lemma ElapsedLast(events: seq<Event>, from: nat)
    requires from < |events|
    ensures var n := |events| - 1;
            Elapsed(events[from..]) == Elapsed(events[..n][from..]) + if events[n].Tick? then events[n].interval else 0
  {
    var n := |events| - 1;
    assert events[from..][..n - from] == events[..n][from..];
  }

  lemma LeftLess(ticks: nat, a: nat, b: nat)
    ensures CountedDown(CountedDown(ticks, a), b) == CountedDown(ticks, a + b)
  {
  }

  lemma StillThere(before: seq<Event>, e: Event, creature: Traits, key: Key)
    requires AllPossible(before) && Possible(e) && Undisturbed(Run(before, creature), e, creature, key)
    requires KeyIn(After(Run(before, creature), e, creature), key)
    ensures KeyIn(Run(before, creature), key)
  {
    if !KeyIn(Run(before, creature), key) { EventAddsNoKey(Run(before, creature), e, creature, key); }
  }
}
