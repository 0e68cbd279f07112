/** The conditions of a player as bytes: a head, tagged values, an end marker for each; and the loop
    that reads them back. */
module ConditionRecords {
  import opened Arithmetic
  import opened Collections
  import opened PropStreams

  const TWO_31 := 0x8000_0000

  // ----- Tags (condition.h) -----------------------------------------------------------------

  const TYPE: Byte := 1
  const ID: Byte := 2
  const TICKS: Byte := 3
  const HEALTHTICKS: Byte := 4
  const HEALTHGAIN: Byte := 5
  const MANATICKS: Byte := 6
  const MANAGAIN: Byte := 7
  const DELAYED: Byte := 8
  const OWNER: Byte := 9
  const INTERVALDATA: Byte := 10
  const SPEEDDELTA: Byte := 11
  const FORMULA_MINA: Byte := 12
  const FORMULA_MINB: Byte := 13
  const FORMULA_MAXA: Byte := 14
  const FORMULA_MAXB: Byte := 15
  const LIGHTCOLOR: Byte := 16
  const LIGHTLEVEL: Byte := 17
  const LIGHTTICKS: Byte := 18
  const LIGHTINTERVAL: Byte := 19
  const SOULTICKS: Byte := 20
  const SOULGAIN: Byte := 21
  const SKILLS: Byte := 22
  const STATS: Byte := 23
  const PERIODDAMAGE: Byte := 25
  const ISBUFF: Byte := 26
  const SUBID: Byte := 27
  const ISAGGRESSIVE: Byte := 28
  const DISABLEDEFENSE: Byte := 29
  const SPECIALSKILLS: Byte := 30
  const END: Byte := 254

  const SKILL_COUNT := 7
  const STAT_COUNT := 4
  const SPECIAL_COUNT := 6

  const CONDITION_MUTED := 65536
  const CONDITIONID_DEFAULT := -1
  const CONDITIONID_COMBAT := 0

  // ----- Numbers ----------------------------------------------------------------------------

  predicate I32(x: int) { -TWO_31 <= x < TWO_31 }

  predicate U32(x: int) { 0 <= x < TWO_32 }

  /** A signed number as an unsigned one of 32 bits, and back. */
  function Unsigned(x: int): (r: nat) { x % TWO_32 }

  function Signed(n: int): int {
    if n % TWO_32 < TWO_31 then n % TWO_32 else n % TWO_32 - TWO_32
  }

  /** `static_cast<ConditionId_t>`, a signed byte */
  function SignedByte(n: int): int { (n + 128) % 256 - 128 }

  // ----- Conditions -------------------------------------------------------------------------

  /** A round of damage still to come */
  datatype Interval = Interval(timeLeft: int, value: int, interval: int)

  /** What the class of a condition adds; a float is its 32 bits. */
  datatype Body =
    | Generic
    | Regeneration(healthTicks: nat, healthGain: nat, manaTicks: nat, manaGain: nat)
    | Soul(soulGain: nat, soulTicks: nat)
    | Light(color: nat, level: nat, internalTicks: nat, changeInterval: nat)
    | Speed(delta: int, mina: nat, minb: nat, maxa: nat, maxb: nat)
    | Attributes(skills: seq<int>, stats: seq<int>, disableDefense: bool, specialSkills: seq<int>)
    | Damage(delayed: bool, periodDamage: int, damageList: seq<Interval>)

  datatype Condition = Condition(kind: int, id: int, ticks: int, isBuff: bool, subId: nat, aggressive: bool, body: Body)

  function Zeros(n: nat): seq<int> { seq(n, _ => 0) }

  /** `createCondition`: the class of a type with nothing set yet, for the types whose values are saved. */
  function Fresh(kind: int): Option<Body> {
    if kind in {1, 2, 4, 8, 0x8000, 0x10_0000, 0x20_0000, 0x40_0000} then Some(Damage(false, 0, []))
    else if kind in {16, 32} then Some(Speed(0, 0, 0, 0, 0))
    else if kind == 0x100 then Some(Light(0, 0, 0, 0))
    else if kind == 0x2000 then Some(Regeneration(0, 0, 0, 0))
    else if kind == 0x4000 then Some(Soul(0, 0))
    else if kind == 0x8_0000 then Some(Attributes(Zeros(SKILL_COUNT), Zeros(STAT_COUNT), false, Zeros(SPECIAL_COUNT)))
    else if kind in {0x200, 0x400, 0x1000, 0x1_0000, 0x2_0000, 0x4_0000,
                     0x80_0000, 0x100_0000, 0x200_0000, 0x400_0000} then Some(Generic)
    else None
  }

  predicate SameClass(a: Body, b: Body) {
    || (a.Generic? && b.Generic?) || (a.Regeneration? && b.Regeneration?)
    || (a.Soul? && b.Soul?) || (a.Light? && b.Light?)
    || (a.Speed? && b.Speed?) || (a.Attributes? && b.Attributes?) || (a.Damage? && b.Damage?)
  }

  /** The numbers are those that the fields can hold. */
  ghost predicate Fits(b: Body) {
    match b
    case Generic => true
    case Regeneration(ht, hg, mt, mg) => U32(ht) && U32(hg) && U32(mt) && U32(mg)
    case Soul(g, t) => U32(g) && U32(t)
    case Light(c, l, t, i) => c < 256 && l < 256 && U32(t) && U32(i)
    case Speed(d, a, b, c, e) => I32(d) && U32(a) && U32(b) && U32(c) && U32(e)
    case Attributes(sk, st, _, sp) =>
      && |sk| == SKILL_COUNT && |st| == STAT_COUNT && |sp| == SPECIAL_COUNT
      && (forall x :: x in sk ==> I32(x)) && (forall x :: x in st ==> I32(x)) && (forall x :: x in sp ==> I32(x))
    case Damage(_, p, list) =>
      I32(p) && forall k :: 0 <= k < |list| ==> I32(list[k].timeLeft) && I32(list[k].value) && I32(list[k].interval)
  }

  ghost predicate Proper(c: Condition) {
    && I32(c.kind) && -128 <= c.id < 128 && I32(c.ticks) && U32(c.subId) && Fits(c.body)
    && Fresh(c.kind).Some? && SameClass(Fresh(c.kind).value, c.body)
  }

  /** `isPersistent` */
  predicate Persistent(c: Condition) {
    c.ticks != -1 && (c.id == CONDITIONID_DEFAULT || c.id == CONDITIONID_COMBAT || c.kind == CONDITION_MUTED)
  }

  // ----- Saving -----------------------------------------------------------------------------

  /** A tag and the bytes of its value */
  datatype Entry = Entry(tag: Byte, bytes: seq<Byte>)

  function Flag(b: bool): nat { if b then 1 else 0 }

  function E4(tag: Byte, x: int): Entry { Entry(tag, Le(Unsigned(x), 4)) }

  function Head(c: Condition): seq<Entry> {
    [E4(TYPE, c.kind), E4(ID, c.id), E4(TICKS, c.ticks), Entry(ISBUFF, Le(Flag(c.isBuff), 1)), E4(SUBID, c.subId),
     Entry(ISAGGRESSIVE, Le(Flag(c.aggressive), 1))]
  }

  function Each(tag: Byte, xs: seq<int>): seq<Entry> {
    seq(|xs|, i requires 0 <= i < |xs| => E4(tag, xs[i]))
  }

  function IntervalBytes(d: Interval): seq<Byte> {
    Le(Unsigned(d.timeLeft), 4) + Le(Unsigned(d.value), 4) + Le(Unsigned(d.interval), 4)
  }

  function Intervals(list: seq<Interval>): seq<Entry> {
    seq(|list|, i requires 0 <= i < |list| => Entry(INTERVALDATA, IntervalBytes(list[i])))
  }

  function Tail(b: Body): seq<Entry> {
    match b
    case Generic => []
    case Regeneration(ht, hg, mt, mg) => [E4(HEALTHTICKS, ht), E4(HEALTHGAIN, hg), E4(MANATICKS, mt), E4(MANAGAIN, mg)]
    case Soul(g, t) => [E4(SOULGAIN, g), E4(SOULTICKS, t)]
    case Light(c, l, t, i) => [E4(LIGHTCOLOR, c), E4(LIGHTLEVEL, l), E4(LIGHTTICKS, t), E4(LIGHTINTERVAL, i)]
    case Speed(d, a, b, c, e) =>
      [E4(SPEEDDELTA, d), E4(FORMULA_MINA, a), E4(FORMULA_MINB, b), E4(FORMULA_MAXA, c), E4(FORMULA_MAXB, e)]
    case Attributes(sk, st, disable, sp) =>
      Each(SKILLS, sk) + Each(STATS, st) + [Entry(DISABLEDEFENSE, Le(Flag(disable), 1))] + Each(SPECIALSKILLS, sp)
    case Damage(delayed, p, list) =>
      [Entry(DELAYED, Le(Flag(delayed), 1)), E4(PERIODDAMAGE, p)] + Intervals(list)
  }

  function Bytes(entries: seq<Entry>): seq<Byte> {
    if entries == [] then [] else [entries[0].tag] + entries[0].bytes + Bytes(entries[1..])
  }

  /** A condition with its end marker */
  function Record(c: Condition): seq<Byte> {
    Bytes(Head(c)) + (Bytes(Tail(c.body)) + [END])
  }

  /** The loop of `savePlayer` */
  function SaveAll(cs: seq<Condition>): seq<Byte> {
    if cs == [] then []
    else SaveAll(cs[..|cs| - 1]) + if Persistent(cs[|cs| - 1]) then Record(cs[|cs| - 1]) else []
  }

  // ----- Loading ----------------------------------------------------------------------------

  /** The attribute arrays, and their parts of a condition and of one under construction */
  datatype Group = Skills | Stats | Specials

  function TagOf(g: Group): Byte {
    match g case Skills => SKILLS case Stats => STATS case Specials => SPECIALSKILLS
  }

  function GroupOf(tag: Byte): Option<Group> {
    if tag == SKILLS then Some(Skills) else if tag == STATS then Some(Stats)
    else if tag == SPECIALSKILLS then Some(Specials) else None
  }

  function Values(b: Body, g: Group): seq<int>
    requires b.Attributes?
  {
    match g case Skills => b.skills case Stats => b.stats case Specials => b.specialSkills
  }

  function WithValues(b: Body, g: Group, xs: seq<int>): Body
    requires b.Attributes?
  {
    match g case Skills => b.(skills := xs) case Stats => b.(stats := xs) case Specials => b.(specialSkills := xs)
  }

  function At(p: Partial, g: Group): nat {
    match g case Skills => p.skill case Stats => p.stat case Specials => p.special
  }

  function Advanced(p: Partial, g: Group, n: nat): Partial {
    match g
    case Skills => p.(skill := p.skill + n)
    case Stats => p.(stat := p.stat + n)
    case Specials => p.(special := p.special + n)
  }

  /** `skills[currentSkill++] = x` and the like */
  function WithValue(p: Partial, g: Group, x: int): Partial
    requires p.c.body.Attributes? && At(p, g) < |Values(p.c.body, g)|
  {
    Advanced(p.(c := p.c.(body := WithValues(p.c.body, g, Values(p.c.body, g)[At(p, g) := x]))), g, 1)
  }

  /** A condition under construction, with the counters of its attribute arrays */
  datatype Partial = Partial(c: Condition, skill: nat, stat: nat, special: nat)

  /** How many bytes the class reads for a tag; it refuses the others. */
  function SizeOf(b: Body, tag: Byte): Option<nat> {
    if b.Regeneration? && tag in {HEALTHTICKS, HEALTHGAIN, MANATICKS, MANAGAIN} then Some(4)
    else if b.Soul? && tag in {SOULGAIN, SOULTICKS} then Some(4)
    else if b.Light? && tag in {LIGHTCOLOR, LIGHTLEVEL, LIGHTTICKS, LIGHTINTERVAL} then Some(4)
    else if b.Speed? && tag in {SPEEDDELTA, FORMULA_MINA, FORMULA_MINB, FORMULA_MAXA, FORMULA_MAXB} then Some(4)
    else if b.Attributes? && tag in {SKILLS, STATS, SPECIALSKILLS} then Some(4)
    else if b.Attributes? && tag == DISABLEDEFENSE then Some(1)
    else if b.Damage? && tag == DELAYED then Some(1)
    else if b.Damage? && tag in {PERIODDAMAGE, OWNER} then Some(4)
    else if b.Damage? && tag == INTERVALDATA then Some(12)
    else if tag in {TYPE, ID, TICKS, SUBID} then Some(4)
    else if tag in {ISBUFF, ISAGGRESSIVE} then Some(1)
    else None
  }

  function Num(bytes: seq<Byte>): nat { ValueOf(bytes) }

  function PutBody(b: Body, tag: Byte, bytes: seq<Byte>): Body {
    var u, i := Num(bytes), Signed(Num(bytes));
    match b
    case Generic => b
    case Regeneration(_, _, _, _) =>
      if tag == HEALTHTICKS then b.(healthTicks := u) else if tag == HEALTHGAIN then b.(healthGain := u)
      else if tag == MANATICKS then b.(manaTicks := u) else if tag == MANAGAIN then b.(manaGain := u) else b
    case Soul(_, _) =>
      if tag == SOULGAIN then b.(soulGain := u) else if tag == SOULTICKS then b.(soulTicks := u) else b
    case Light(_, _, _, _) =>
      if tag == LIGHTCOLOR then b.(color := u % 256) else if tag == LIGHTLEVEL then b.(level := u % 256)
      else if tag == LIGHTTICKS then b.(internalTicks := u)
      else if tag == LIGHTINTERVAL then b.(changeInterval := u) else b
    case Speed(_, _, _, _, _) =>
      if tag == SPEEDDELTA then b.(delta := i) else if tag == FORMULA_MINA then b.(mina := u)
      else if tag == FORMULA_MINB then b.(minb := u) else if tag == FORMULA_MAXA then b.(maxa := u)
      else if tag == FORMULA_MAXB then b.(maxb := u) else b
    case Attributes(_, _, _, _) => if tag == DISABLEDEFENSE then b.(disableDefense := u != 0) else b
    case Damage(_, _, _) =>
      if tag == DELAYED then b.(delayed := u != 0) else if tag == PERIODDAMAGE then b.(periodDamage := i) else b
  }

  function IntervalOf(bytes: seq<Byte>): Interval
    requires |bytes| == 12
  {
    Interval(Signed(Num(bytes[..4])), Signed(Num(bytes[4..8])), Signed(Num(bytes[8..])))
  }

  /** `unserializeProp` once the value is read; writing past an attribute array is not followed further. */
  function Put(p: Partial, tag: Byte, bytes: seq<Byte>): Option<Partial>
    requires SizeOf(p.c.body, tag) == Some(|bytes|)
  {
    var c, u, i := p.c, Num(bytes), Signed(Num(bytes));
    if c.body.Attributes? && GroupOf(tag).Some? then
      var g := GroupOf(tag).value;
      if At(p, g) >= |Values(c.body, g)| then None
      else Some(WithValue(p, g, i))
    else if c.body.Damage? && tag == INTERVALDATA then
      var d := IntervalOf(bytes);
      Some(p.(c := c.(body := c.body.(damageList := c.body.damageList + [d]), ticks := Longer(c.ticks, d.interval))))
    else if tag == TYPE then Some(p.(c := c.(kind := i)))
    else if tag == ID then Some(p.(c := c.(id := SignedByte(i))))
    else if tag == TICKS then Some(p.(c := c.(ticks := i)))
    else if tag == ISBUFF then Some(p.(c := c.(isBuff := u != 0)))
    else if tag == SUBID then Some(p.(c := c.(subId := u)))
    else if tag == ISAGGRESSIVE then Some(p.(c := c.(aggressive := u != 0)))
    else Some(p.(c := c.(body := PutBody(c.body, tag, bytes))))
  }

  /** Each round of damage makes a condition last longer, unless it lasts for ever. */
  function Longer(ticks: int, interval: int): int {
    if ticks == -1 then ticks else ticks + interval
  }

  datatype PropsResult = Complete(p: Partial, rest: seq<Byte>) | Broken(rest: seq<Byte>)

  /** `unserialize`: values up to the end marker, or to the end of the bytes */
  function Props(p: Partial, s: seq<Byte>): PropsResult
    decreases |s|
  {
    if s == [] then Complete(p, s)
    else if s[0] == END then Complete(p, s[1..])
    else
      match SizeOf(p.c.body, s[0])
      case None => Broken(s[1..])
      case Some(n) =>
        if |s| < 1 + n then Broken(s[1..])
        else
          match Put(p, s[0], s[1..1 + n])
          case None => Broken(s[1 + n..])
          case Some(q) => Props(q, s[1 + n..])
  }

  /** A value of n bytes behind the tag that is expected, and what follows it */
  function Tagged(s: seq<Byte>, tag: Byte, n: nat): (r: Option<(nat, seq<Byte>)>)
    ensures r.Some? ==> |r.value.1| < |s|
  {
    if |s| < 1 + n || s[0] != tag then None else Some((Num(s[1..1 + n]), s[1 + n..]))
  }

  /** `createCondition` from the stream; damage starts without ticks. */
  function Create(s: seq<Byte>): (r: Option<(Partial, seq<Byte>)>)
    ensures r.Some? ==> |r.value.1| < |s|
  {
    match Tagged(s, TYPE, 4)
    case None => None
    case Some((kind, s1)) =>
      match Tagged(s1, ID, 4)
      case None => None
      case Some((id, s2)) =>
        match Tagged(s2, TICKS, 4)
        case None => None
        case Some((ticks, s3)) =>
          match Tagged(s3, ISBUFF, 1)
          case None => None
          case Some((buff, s4)) =>
            match Tagged(s4, SUBID, 4)
            case None => None
            case Some((subId, s5)) =>
              match Tagged(s5, ISAGGRESSIVE, 1)
              case None => None
              case Some((aggressive, s6)) =>
                match Fresh(Signed(kind))
                case None => None
                case Some(body) =>
                  Some((Partial(Condition(Signed(kind), SignedByte(id), if body.Damage? then 0 else Signed(ticks),
                                          buff != 0, subId, aggressive != 0, body), 0, 0, 0), s6))
  }

  lemma PropsShrink(p: Partial, s: seq<Byte>)
    ensures |Props(p, s).rest| <= |s|
    decreases |s|
  {
    if s != [] && s[0] != END && SizeOf(p.c.body, s[0]).Some? {
      var n := SizeOf(p.c.body, s[0]).value;
      if |s| >= 1 + n && Put(p, s[0], s[1..1 + n]).Some? {
        PropsShrink(Put(p, s[0], s[1..1 + n]).value, s[1 + n..]);
      }
    }
  }

  /** The loop of `loadPlayer`: what was read goes to the front of the list; a broken record is dropped
      and the next one is looked for where reading stopped. */
  function LoadAll(s: seq<Byte>, list: seq<Condition>): seq<Condition>
    decreases |s|
  {
    match Create(s)
    case None => list
    case Some((p, s')) =>
      PropsShrink(p, s');
      match Props(p, s')
      case Complete(q, rest) => LoadAll(rest, [q.c] + list)
      case Broken(rest) => LoadAll(rest, list)
  }

  // ----- Numbers come back ------------------------------------------------------------------

  lemma NumberBack(x: int)
    requires I32(x) || U32(x)
    ensures Num(Le(Unsigned(x), 4)) == Unsigned(x) < TWO_32
    ensures I32(x) ==> Signed(Unsigned(x)) == x
    ensures U32(x) ==> Unsigned(x) == x
    ensures -128 <= x < 128 ==> SignedByte(Unsigned(x)) == x
  {
    SmallPowers();
    ValueOfLe(Unsigned(x), 4);
  }

  lemma FlagBack(b: bool)
    ensures Num(Le(Flag(b), 1)) != 0 <==> b
  {
    SmallPowers();
    ValueOfLe(Flag(b), 1);
  }

  // ----- Values come back -------------------------------------------------------------------

  ghost predicate Accepted(b: Body, entries: seq<Entry>) {
    forall k :: 0 <= k < |entries| ==> entries[k].tag != END && SizeOf(b, entries[k].tag) == Some(|entries[k].bytes|)
  }

  lemma PutKeepsClass(p: Partial, tag: Byte, bytes: seq<Byte>)
    requires SizeOf(p.c.body, tag) == Some(|bytes|) && Put(p, tag, bytes).Some?
    ensures SameClass(p.c.body, Put(p, tag, bytes).value.c.body)
  {
  }

  lemma SameSizes(a: Body, b: Body, tag: Byte)
    requires SameClass(a, b)
    ensures SizeOf(a, tag) == SizeOf(b, tag)
  {
  }

  lemma AcceptedToo(a: Body, b: Body, entries: seq<Entry>)
    requires SameClass(a, b) && Accepted(a, entries)
    ensures Accepted(b, entries)
  {
    forall k | 0 <= k < |entries| ensures SizeOf(b, entries[k].tag) == Some(|entries[k].bytes|) {
      SameSizes(a, b, entries[k].tag);
    }
  }

  function PutAll(p: Partial, entries: seq<Entry>): Option<Partial>
    requires Accepted(p.c.body, entries)
    decreases |entries|
  {
    if entries == [] then Some(p)
    else
      match Put(p, entries[0].tag, entries[0].bytes)
      case None => None
      case Some(q) =>
        PutKeepsClass(p, entries[0].tag, entries[0].bytes);
        AcceptedToo(p.c.body, q.c.body, entries);
        PutAll(q, entries[1..])
  }

  lemma PropsStep(p: Partial, e: Entry, next: seq<Byte>)
    requires e.tag != END && SizeOf(p.c.body, e.tag) == Some(|e.bytes|) && Put(p, e.tag, e.bytes).Some?
    ensures Props(p, [e.tag] + (e.bytes + next)) == Props(Put(p, e.tag, e.bytes).value, next)
  {
    hide Put, SizeOf;
    var s := [e.tag] + (e.bytes + next);
    assert s[1..1 + |e.bytes|] == e.bytes && s[1 + |e.bytes|..] == next;
  }

  lemma PropsEnd(p: Partial, rest: seq<Byte>)
    ensures Props(p, [END] + rest) == Complete(p, rest)
  {
    assert ([END] + rest)[1..] == rest;
  }

  lemma FirstEntry(entries: seq<Entry>, tail: seq<Byte>)
    requires entries != []
    ensures Bytes(entries) + tail == [entries[0].tag] + (entries[0].bytes + (Bytes(entries[1..]) + tail))
  {
  }

  /** The values of a record are put in one by one, up to its end marker. */
  lemma {:induction false} PropsOf(p: Partial, entries: seq<Entry>, rest: seq<Byte>)
    requires Accepted(p.c.body, entries) && PutAll(p, entries).Some?
    ensures Props(p, Bytes(entries) + ([END] + rest)) == Complete(PutAll(p, entries).value, rest)
    decreases |entries|
  {
    hide Put, SizeOf, Props;
    var tail := [END] + rest;
    if entries == [] {
      assert Bytes(entries) + tail == tail;
      PropsEnd(p, rest);
    } else {
      var e := entries[0];
      var q := Put(p, e.tag, e.bytes).value;
      FirstEntry(entries, tail);
      PropsStep(p, e, Bytes(entries[1..]) + tail);
      PutKeepsClass(p, e.tag, e.bytes);
      AcceptedToo(p.c.body, q.c.body, entries);
      PropsOf(q, entries[1..], rest);
    }
  }

  /** These entries turn p into q. */
  ghost predicate Takes(p: Partial, es: seq<Entry>, q: Partial) {
    Accepted(p.c.body, es) && PutAll(p, es) == Some(q)
  }

  lemma TakesNone(p: Partial)
    ensures Takes(p, [], p)
  {
  }

  lemma TakesFirst(p: Partial, e: Entry, q: Partial, es: seq<Entry>, r: Partial)
    requires SizeOf(p.c.body, e.tag) == Some(|e.bytes|) && e.tag != END && Put(p, e.tag, e.bytes) == Some(q)
    requires Takes(q, es, r)
    ensures Takes(p, [e] + es, r)
  {
    PutKeepsClass(p, e.tag, e.bytes);
    forall k | 0 <= k < |es|
      ensures SizeOf(p.c.body, es[k].tag) == Some(|es[k].bytes|)
    {
      SameSizes(p.c.body, q.c.body, es[k].tag);
    }
    assert ([e] + es)[1..] == es;
  }

  /** A value of four bytes */
  lemma TakesNumber(p: Partial, tag: Byte, x: int, q: Partial, es: seq<Entry>, r: Partial)
    requires (I32(x) || U32(x)) && tag != END && SizeOf(p.c.body, tag) == Some(4)
    requires Put(p, tag, Le(Unsigned(x), 4)) == Some(q) && Takes(q, es, r)
    ensures Takes(p, [E4(tag, x)] + es, r)
  {
    TakesFirst(p, E4(tag, x), q, es, r);
  }

  lemma TakesBoth(p: Partial, a: seq<Entry>, q: Partial, b: seq<Entry>, r: Partial)
    requires Takes(p, a, q) && Takes(q, b, r)
    ensures Takes(p, a + b, r)
    decreases |a|
  {
    if a == [] {
      assert a + b == b;
    } else {
      var m := Put(p, a[0].tag, a[0].bytes).value;
      PutKeepsClass(p, a[0].tag, a[0].bytes);
      AcceptedToo(p.c.body, m.c.body, a);
      assert forall k :: 0 <= k < |a[1..]| ==> a[1..][k] == a[k + 1];
      TakesBoth(m, a[1..], q, b, r);
      TakesFirst(p, a[0], m, a[1..] + b, r);
      assert [a[0]] + (a[1..] + b) == a + b;
    }
  }

  /** An array filled up from where its counter stands */
  function Filled(p: Partial, g: Group, xs: seq<int>): Partial
    requires p.c.body.Attributes? && At(p, g) + |xs| <= |Values(p.c.body, g)|
  {
    var vs, k := Values(p.c.body, g), At(p, g);
    Advanced(p.(c := p.c.(body := WithValues(p.c.body, g, vs[..k] + xs + vs[k + |xs|..]))), g, |xs|)
  }

  lemma EachFirst(tag: Byte, xs: seq<int>)
    requires xs != []
    ensures Each(tag, xs) == [E4(tag, xs[0])] + Each(tag, xs[1..])
  {
  }

  lemma FilledFirst(p: Partial, g: Group, xs: seq<int>)
    requires p.c.body.Attributes? && At(p, g) + |xs| <= |Values(p.c.body, g)| && xs != []
    ensures var q := WithValue(p, g, xs[0]);
            && q.c.body.Attributes? && At(q, g) + |xs[1..]| <= |Values(q.c.body, g)|
            && Filled(q, g, xs[1..]) == Filled(p, g, xs)
  {
    var q := WithValue(p, g, xs[0]);
    var vs, k := Values(p.c.body, g), At(p, g);
    assert vs[k := xs[0]][..k + 1] + xs[1..] + vs[k := xs[0]][k + 1 + |xs[1..]|..] == vs[..k] + xs + vs[k + |xs|..];
  }

  lemma {:induction false} PutGroup(p: Partial, g: Group, xs: seq<int>)
    requires p.c.body.Attributes? && At(p, g) + |xs| <= |Values(p.c.body, g)| && forall x :: x in xs ==> I32(x)
    ensures Takes(p, Each(TagOf(g), xs), Filled(p, g, xs))
    decreases |xs|
  {
    if xs == [] {
      assert Values(p.c.body, g)[..At(p, g)] + xs + Values(p.c.body, g)[At(p, g)..] == Values(p.c.body, g);
    } else {
      NumberBack(xs[0]);
      EachFirst(TagOf(g), xs);
      FilledFirst(p, g, xs);
      var q := WithValue(p, g, xs[0]);
      assert Put(p, TagOf(g), Le(Unsigned(xs[0]), 4)) == Some(q);
      hide Filled, Each, Put, WithValue, PutAll, Accepted, Takes;
      PutGroup(q, g, xs[1..]);
      TakesNumber(p, TagOf(g), xs[0], q, Each(TagOf(g), xs[1..]), Filled(q, g, xs[1..]));
    }
  }

  /** How long the rounds of a damage condition last, as loading adds them up. */
  function Lasting(ticks: int, list: seq<Interval>): int
    decreases |list|
  {
    if list == [] then ticks else Lasting(Longer(ticks, list[0].interval), list[1..])
  }

  /** A damage condition with these rounds behind its own */
  function WithRounds(p: Partial, list: seq<Interval>): Partial
    requires p.c.body.Damage?
  {
    p.(c := p.c.(ticks := Lasting(p.c.ticks, list), body := p.c.body.(damageList := p.c.body.damageList + list)))
  }

  lemma RoundsFirst(p: Partial, list: seq<Interval>)
    requires p.c.body.Damage? && list != []
    ensures WithRounds(WithRounds(p, [list[0]]), list[1..]) == WithRounds(p, list)
    ensures Intervals(list) == [Entry(INTERVALDATA, IntervalBytes(list[0]))] + Intervals(list[1..])
  {
    var d := list[0];
    assert (p.c.body.damageList + [d]) + list[1..] == p.c.body.damageList + list;
    assert Lasting(p.c.ticks, [d]) == Lasting(Longer(p.c.ticks, d.interval), [d][1..]);
  }

  lemma {:induction false} PutIntervals(p: Partial, list: seq<Interval>)
    requires p.c.body.Damage? && Fits(Damage(false, 0, list))
    ensures Takes(p, Intervals(list), WithRounds(p, list))
    decreases |list|
  {
    if list == [] {
      assert p.c.body.damageList + list == p.c.body.damageList;
    } else {
      var d := list[0];
      IntervalBack(d);
      RoundsFirst(p, list);
      var q := WithRounds(p, [d]);
      PutRound(p, d);
      assert Fits(Damage(false, 0, list[1..]));
      hide Put, PutAll, Accepted, Takes, IntervalBytes, Intervals, WithRounds, Fits;
      PutIntervals(q, list[1..]);
      TakesFirst(p, Entry(INTERVALDATA, IntervalBytes(d)), q, Intervals(list[1..]), WithRounds(q, list[1..]));
    }
  }

  lemma PutRound(p: Partial, d: Interval)
    requires p.c.body.Damage? && I32(d.timeLeft) && I32(d.value) && I32(d.interval)
    ensures SizeOf(p.c.body, INTERVALDATA) == Some(|IntervalBytes(d)|)
    ensures Put(p, INTERVALDATA, IntervalBytes(d)) == Some(WithRounds(p, [d]))
  {
    IntervalBack(d);
    assert Lasting(p.c.ticks, [d]) == Lasting(Longer(p.c.ticks, d.interval), [d][1..]);
  }

  lemma IntervalBack(d: Interval)
    requires I32(d.timeLeft) && I32(d.value) && I32(d.interval)
    ensures |IntervalBytes(d)| == 12 && IntervalOf(IntervalBytes(d)) == d
  {
    NumberBack(d.timeLeft);
    NumberBack(d.value);
    NumberBack(d.interval);
    var a, b, c := Le(Unsigned(d.timeLeft), 4), Le(Unsigned(d.value), 4), Le(Unsigned(d.interval), 4);
    assert (a + b + c)[..4] == a && (a + b + c)[4..8] == b && (a + b + c)[8..] == c;
  }

  // ----- Conditions come back ---------------------------------------------------------------

  /** What comes back: damage lasts as long as its rounds together. */
  function Restored(c: Condition): Condition {
    if c.body.Damage? then c.(ticks := Lasting(0, c.body.damageList)) else c
  }

  /** The condition as it is created from its head */
  function Created(c: Condition): Partial
    requires Fresh(c.kind).Some?
  {
    var body := Fresh(c.kind).value;
    Partial(c.(body := body, ticks := if body.Damage? then 0 else c.ticks), 0, 0, 0)
  }

  lemma {:induction false} SumOfRounds(ticks: int, list: seq<Interval>)
    requires ticks >= 0 && forall k :: 0 <= k < |list| ==> list[k].interval >= 0
    ensures Lasting(ticks, list) == ticks + SumOf(list)
    decreases |list|
  {
    if list != [] { SumOfRounds(ticks + list[0].interval, list[1..]); }
  }

  function SumOf(list: seq<Interval>): int {
    if list == [] then 0 else list[0].interval + SumOf(list[1..])
  }

  function WithBody(p: Partial, b: Body): Partial { p.(c := p.c.(body := b)) }

  /** A tag that only the class knows, with a value of four bytes that is simply stored */
  predicate Plain(b: Body, tag: Byte) {
    !b.Attributes? && tag !in {TYPE, ID, TICKS, SUBID, END} && SizeOf(b, tag) == Some(4)
  }

  lemma TakesValue(p: Partial, tag: Byte, x: int, q: Partial, es: seq<Entry>, r: Partial)
    requires (I32(x) || U32(x)) && Plain(p.c.body, tag)
    requires q == WithBody(p, PutBody(p.c.body, tag, Le(Unsigned(x), 4))) && Takes(q, es, r)
    ensures Takes(p, [E4(tag, x)] + es, r)
  {
    PlainPut(p, tag, Le(Unsigned(x), 4));
    hide Put, PutBody, PutAll, Accepted, Takes, SizeOf;
    TakesNumber(p, tag, x, q, es, r);
  }

  lemma PlainPut(p: Partial, tag: Byte, bytes: seq<Byte>)
    requires Plain(p.c.body, tag) && |bytes| == 4
    ensures Put(p, tag, bytes) == Some(WithBody(p, PutBody(p.c.body, tag, bytes)))
  {
    hide PutBody;
  }

  function Back(c: Condition, p: Partial): Partial {
    p.(c := Restored(c))
  }

  lemma RegenerationBack(c: Condition)
    requires Proper(c) && c.body.Regeneration?
    ensures Takes(Created(c), Tail(c.body), Back(c, Created(c)))
  {
    var b, p0 := c.body, Created(c);
    NumberBack(b.healthTicks);
    NumberBack(b.healthGain);
    NumberBack(b.manaTicks);
    NumberBack(b.manaGain);
    hide Put, PutAll, Accepted, Takes, Proper, Le, Num, Signed, Unsigned, Bytes;
    var p1 := WithBody(p0, p0.c.body.(healthTicks := b.healthTicks));
    var p2 := WithBody(p1, p1.c.body.(healthGain := b.healthGain));
    var p3 := WithBody(p2, p2.c.body.(manaTicks := b.manaTicks));
    var p4 := WithBody(p3, p3.c.body.(manaGain := b.manaGain));
    var e3 := [E4(MANAGAIN, b.manaGain)] + [];
    var e2 := [E4(MANATICKS, b.manaTicks)] + e3;
    var e1 := [E4(HEALTHGAIN, b.healthGain)] + e2;
    var e0 := [E4(HEALTHTICKS, b.healthTicks)] + e1;
    TakesNone(p4);
    TakesValue(p3, MANAGAIN, b.manaGain, p4, [], p4);
    TakesValue(p2, MANATICKS, b.manaTicks, p3, e3, p4);
    TakesValue(p1, HEALTHGAIN, b.healthGain, p2, e2, p4);
    TakesValue(p0, HEALTHTICKS, b.healthTicks, p1, e1, p4);
    assert e0 == Tail(b) && p4 == Back(c, p0);
  }

  lemma SoulBack(c: Condition)
    requires Proper(c) && c.body.Soul?
    ensures Takes(Created(c), Tail(c.body), Back(c, Created(c)))
  {
    var b, p0 := c.body, Created(c);
    NumberBack(b.soulGain);
    NumberBack(b.soulTicks);
    hide Put, PutAll, Accepted, Takes, Proper, Le, Num, Signed, Unsigned, Bytes;
    var p1 := WithBody(p0, p0.c.body.(soulGain := b.soulGain));
    var p2 := WithBody(p1, p1.c.body.(soulTicks := b.soulTicks));
    var e1 := [E4(SOULTICKS, b.soulTicks)] + [];
    var e0 := [E4(SOULGAIN, b.soulGain)] + e1;
    TakesNone(p2);
    TakesValue(p1, SOULTICKS, b.soulTicks, p2, [], p2);
    TakesValue(p0, SOULGAIN, b.soulGain, p1, e1, p2);
    assert e0 == Tail(b) && p2 == Back(c, p0);
  }

  lemma LightBack(c: Condition)
    requires Proper(c) && c.body.Light?
    ensures Takes(Created(c), Tail(c.body), Back(c, Created(c)))
  {
    var b, p0 := c.body, Created(c);
    NumberBack(b.color);
    NumberBack(b.level);
    NumberBack(b.internalTicks);
    NumberBack(b.changeInterval);
    hide Put, PutAll, Accepted, Takes, Proper, Le, Num, Signed, Unsigned, Bytes;
    var p1 := WithBody(p0, p0.c.body.(color := b.color));
    var p2 := WithBody(p1, p1.c.body.(level := b.level));
    var p3 := WithBody(p2, p2.c.body.(internalTicks := b.internalTicks));
    var p4 := WithBody(p3, p3.c.body.(changeInterval := b.changeInterval));
    var e3 := [E4(LIGHTINTERVAL, b.changeInterval)] + [];
    var e2 := [E4(LIGHTTICKS, b.internalTicks)] + e3;
    var e1 := [E4(LIGHTLEVEL, b.level)] + e2;
    var e0 := [E4(LIGHTCOLOR, b.color)] + e1;
    TakesNone(p4);
    TakesValue(p3, LIGHTINTERVAL, b.changeInterval, p4, [], p4);
    TakesValue(p2, LIGHTTICKS, b.internalTicks, p3, e3, p4);
    TakesValue(p1, LIGHTLEVEL, b.level, p2, e2, p4);
    TakesValue(p0, LIGHTCOLOR, b.color, p1, e1, p4);
    assert e0 == Tail(b) && p4 == Back(c, p0);
  }

  /** The entries of the formula of a change of speed */
  function Formula(b: Body): seq<Entry>
    requires b.Speed?
  {
    [E4(FORMULA_MINA, b.mina)] + ([E4(FORMULA_MINB, b.minb)] +
    ([E4(FORMULA_MAXA, b.maxa)] + ([E4(FORMULA_MAXB, b.maxb)] + [])))
  }

  lemma FormulaBack(p0: Partial, b: Body)
    requires p0.c.body.Speed? && b.Speed? && U32(b.mina) && U32(b.minb) && U32(b.maxa) && U32(b.maxb)
    ensures Takes(p0, Formula(b), WithBody(p0, b.(delta := p0.c.body.delta)))
  {
    NumberBack(b.mina);
    NumberBack(b.minb);
    NumberBack(b.maxa);
    NumberBack(b.maxb);
    hide Put, PutAll, Accepted, Takes, Le, Num, Signed, Unsigned, Bytes;
    var p1 := WithBody(p0, p0.c.body.(mina := b.mina));
    var p2 := WithBody(p1, p1.c.body.(minb := b.minb));
    var p3 := WithBody(p2, p2.c.body.(maxa := b.maxa));
    var p4 := WithBody(p3, p3.c.body.(maxb := b.maxb));
    var e3 := [E4(FORMULA_MAXB, b.maxb)] + [];
    var e2 := [E4(FORMULA_MAXA, b.maxa)] + e3;
    var e1 := [E4(FORMULA_MINB, b.minb)] + e2;
    TakesNone(p4);
    TakesValue(p3, FORMULA_MAXB, b.maxb, p4, [], p4);
    TakesValue(p2, FORMULA_MAXA, b.maxa, p3, e3, p4);
    TakesValue(p1, FORMULA_MINB, b.minb, p2, e2, p4);
    TakesValue(p0, FORMULA_MINA, b.mina, p1, e1, p4);
  }

  lemma SpeedBack(c: Condition)
    requires Proper(c) && c.body.Speed?
    ensures Takes(Created(c), Tail(c.body), Back(c, Created(c)))
  {
    var b, p0 := c.body, Created(c);
    var p1 := WithBody(p0, p0.c.body.(delta := b.delta));
    NumberBack(b.delta);
    FormulaBack(p1, b);
    assert [E4(SPEEDDELTA, b.delta)] + Formula(b) == Tail(b);
    hide Put, PutAll, Accepted, Takes, Proper, Le, Num, Signed, Unsigned, Bytes, Formula, Tail;
    TakesValue(p0, SPEEDDELTA, b.delta, p1, Formula(b), Back(c, p0));
  }

  lemma DamageBack(c: Condition)
    requires Proper(c) && c.body.Damage?
    ensures Takes(Created(c), Tail(c.body), Back(c, Created(c)))
  {
    var b, p0 := c.body, Created(c);
    var delayed := Entry(DELAYED, Le(Flag(b.delayed), 1));
    var p1 := WithBody(p0, p0.c.body.(delayed := b.delayed));
    var p2 := WithBody(p1, p1.c.body.(periodDamage := b.periodDamage));
    var e2 := Intervals(b.damageList);
    var e1 := [E4(PERIODDAMAGE, b.periodDamage)] + e2;
    assert [delayed] + e1 == Tail(b);
    RoundsBack(c, p2);
    DelayedBack(p0, b.delayed);
    NumberBack(b.periodDamage);
    hide Put, PutAll, Accepted, Takes, Intervals, Proper, Tail, Le, Num, Signed, Unsigned, Lasting;
    TakesValue(p1, PERIODDAMAGE, b.periodDamage, p2, e2, Back(c, p0));
    TakesFirst(p0, delayed, p1, e1, Back(c, p0));
  }

  lemma DelayedBack(p: Partial, delayed: bool)
    requires p.c.body.Damage?
    ensures var e := Entry(DELAYED, Le(Flag(delayed), 1));
            && SizeOf(p.c.body, e.tag) == Some(|e.bytes|)
            && Put(p, e.tag, e.bytes) == Some(WithBody(p, p.c.body.(delayed := delayed)))
  {
    FlagBack(delayed);
  }

  lemma RoundsBack(c: Condition, p: Partial)
    requires Proper(c) && c.body.Damage?
    requires p == Created(c).(c := Created(c).c.(body := c.body.(damageList := [])))
    ensures Takes(p, Intervals(c.body.damageList), Back(c, Created(c)))
  {
    PutIntervals(p, c.body.damageList);
    assert [] + c.body.damageList == c.body.damageList;
    assert Back(c, Created(c)) == WithRounds(p, c.body.damageList);
  }

  lemma AttributesBack(c: Condition) returns (q: Partial)
    requires Proper(c) && c.body.Attributes?
    ensures Takes(Created(c), Tail(c.body), q) && q.c == Restored(c)
  {
    var b, p0 := c.body, Created(c);
    FlagBack(b.disableDefense);
    var e4 := Each(SPECIALSKILLS, b.specialSkills);
    var e3 := [Entry(DISABLEDEFENSE, Le(Flag(b.disableDefense), 1))] + e4;
    var e2 := Each(STATS, b.stats) + e3;
    var e1 := Each(SKILLS, b.skills) + e2;
    assert e1 == Tail(b);
    FilledWhole(p0, Skills, b.skills);
    var p1 := Filled(p0, Skills, b.skills);
    FilledWhole(p1, Stats, b.stats);
    var p2 := Filled(p1, Stats, b.stats);
    var p3 := WithBody(p2, p2.c.body.(disableDefense := b.disableDefense));
    FilledWhole(p3, Specials, b.specialSkills);
    q := Filled(p3, Specials, b.specialSkills);
    assert Put(p2, DISABLEDEFENSE, Le(Flag(b.disableDefense), 1)) == Some(p3);
    PutGroup(p0, Skills, b.skills);
    PutGroup(p1, Stats, b.stats);
    PutGroup(p3, Specials, b.specialSkills);
    hide Put, PutAll, Accepted, Takes, Each, Filled, Proper, Tail;
    TakesFirst(p2, Entry(DISABLEDEFENSE, Le(Flag(b.disableDefense), 1)), p3, e4, q);
    TakesBoth(p1, Each(STATS, b.stats), p2, e3, q);
    TakesBoth(p0, Each(SKILLS, b.skills), p1, e2, q);
  }

  lemma FilledWhole(p: Partial, g: Group, xs: seq<int>)
    requires p.c.body.Attributes? && At(p, g) == 0 && |Values(p.c.body, g)| == |xs|
    ensures Filled(p, g, xs) == Advanced(WithBody(p, WithValues(p.c.body, g, xs)), g, |xs|)
  {
    assert Values(p.c.body, g)[..0] + xs + Values(p.c.body, g)[|xs|..] == xs;
  }

  lemma TaggedBack(e: Entry, es: seq<Entry>, rest: seq<Byte>)
    ensures Tagged(Bytes([e] + es) + rest, e.tag, |e.bytes|) == Some((Num(e.bytes), Bytes(es) + rest))
  {
    assert ([e] + es)[1..] == es;
    var s := Bytes([e] + es) + rest;
    assert s == [e.tag] + (e.bytes + (Bytes(es) + rest));
    assert s[1..1 + |e.bytes|] == e.bytes && s[1 + |e.bytes|..] == Bytes(es) + rest;
  }

  lemma CreateOf(s: seq<Byte>, s1: seq<Byte>, s2: seq<Byte>, s3: seq<Byte>, s4: seq<Byte>, s5: seq<Byte>,
                 rest: seq<Byte>, kind: nat, id: nat, ticks: nat, buff: nat, subId: nat, aggressive: nat)
    requires Tagged(s, TYPE, 4) == Some((kind, s1)) && Tagged(s1, ID, 4) == Some((id, s2))
    requires Tagged(s2, TICKS, 4) == Some((ticks, s3)) && Tagged(s3, ISBUFF, 1) == Some((buff, s4))
    requires Tagged(s4, SUBID, 4) == Some((subId, s5)) && Tagged(s5, ISAGGRESSIVE, 1) == Some((aggressive, rest))
    requires Fresh(Signed(kind)).Some?
    ensures var body := Fresh(Signed(kind)).value;
            var lasting := if body.Damage? then 0 else Signed(ticks);
            Create(s) == Some((Partial(Condition(Signed(kind), SignedByte(id), lasting,
                                                 buff != 0, subId, aggressive != 0, body), 0, 0, 0), rest))
  {
    hide Tagged, Fresh, Signed, SignedByte;
  }

  /** A number that the head expects under this tag is read. */
  lemma NumberTagged(tag: Byte, x: int, es: seq<Entry>, rest: seq<Byte>)
    requires I32(x) || U32(x)
    ensures Tagged(Bytes([E4(tag, x)] + es) + rest, tag, 4) == Some((Unsigned(x), Bytes(es) + rest))
  {
    NumberBack(x);
    TaggedBack(E4(tag, x), es, rest);
    hide Tagged, Bytes, Num, Unsigned;
  }

  lemma FlagTagged(tag: Byte, x: bool, es: seq<Entry>, rest: seq<Byte>)
    ensures Tagged(Bytes([Entry(tag, Le(Flag(x), 1))] + es) + rest, tag, 1)
         == Some((Num(Le(Flag(x), 1)), Bytes(es) + rest))
  {
    TaggedBack(Entry(tag, Le(Flag(x), 1)), es, rest);
    assert |Le(Flag(x), 1)| == 1;
    hide Tagged, Bytes, Num, Le;
  }

  lemma HeadInOrder(c: Condition)
    ensures Head(c) == [E4(TYPE, c.kind)] + ([E4(ID, c.id)] + ([E4(TICKS, c.ticks)] +
                       ([Entry(ISBUFF, Le(Flag(c.isBuff), 1))] + ([E4(SUBID, c.subId)] +
                       ([Entry(ISAGGRESSIVE, Le(Flag(c.aggressive), 1))] + [])))))
  {
  }

  lemma HeadBack(c: Condition, rest: seq<Byte>)
    requires Proper(c)
    ensures Create(Bytes(Head(c)) + rest) == Some((Created(c), rest))
  {
    var e5: seq<Entry> := [Entry(ISAGGRESSIVE, Le(Flag(c.aggressive), 1))] + [];
    var e4 := [E4(SUBID, c.subId)] + e5;
    var e3 := [Entry(ISBUFF, Le(Flag(c.isBuff), 1))] + e4;
    var e2 := [E4(TICKS, c.ticks)] + e3;
    var e1 := [E4(ID, c.id)] + e2;
    HeadInOrder(c);
    assert Bytes([]) + rest == rest;
    HeadMeans(c);
    hide Le, Bytes, Tagged, Num, Create, Fresh, Head, Created, Unsigned, Signed, SignedByte, E4, Flag;
    NumberTagged(TYPE, c.kind, e1, rest);
    NumberTagged(ID, c.id, e2, rest);
    NumberTagged(TICKS, c.ticks, e3, rest);
    FlagTagged(ISBUFF, c.isBuff, e4, rest);
    NumberTagged(SUBID, c.subId, e5, rest);
    FlagTagged(ISAGGRESSIVE, c.aggressive, [], rest);
    CreateOf(Bytes(Head(c)) + rest, Bytes(e1) + rest, Bytes(e2) + rest, Bytes(e3) + rest, Bytes(e4) + rest,
             Bytes(e5) + rest, rest, Unsigned(c.kind), Unsigned(c.id), Unsigned(c.ticks), Num(Le(Flag(c.isBuff), 1)),
             Unsigned(c.subId), Num(Le(Flag(c.aggressive), 1)));
  }

  /** The numbers of the head give the condition as it is created. */
  lemma HeadMeans(c: Condition)
    requires Proper(c)
    ensures Signed(Unsigned(c.kind)) == c.kind && SignedByte(Unsigned(c.id)) == c.id
    ensures Signed(Unsigned(c.ticks)) == c.ticks && Unsigned(c.subId) == c.subId
    ensures (Num(Le(Flag(c.isBuff), 1)) != 0) == c.isBuff && (Num(Le(Flag(c.aggressive), 1)) != 0) == c.aggressive
    ensures Fresh(c.kind).Some?
    ensures var body := Fresh(c.kind).value;
            Created(c) == Partial(Condition(c.kind, c.id, if body.Damage? then 0 else c.ticks, c.isBuff, c.subId,
                                            c.aggressive, body), 0, 0, 0)
  {
    NumberBack(c.kind);
    NumberBack(c.id);
    NumberBack(c.ticks);
    NumberBack(c.subId);
    FlagBack(c.isBuff);
    FlagBack(c.aggressive);
    SignedSmall(c.id);
  }

  lemma SignedSmall(x: int)
    requires -128 <= x < 128
    ensures SignedByte(Unsigned(x)) == x
  {
  }

  /** The values of a record are read back as the condition, and exactly its bytes are consumed. */
  lemma RecordBack(c: Condition, rest: seq<Byte>) returns (q: Partial)
    requires Proper(c)
    ensures Create(Record(c) + rest) == Some((Created(c), Bytes(Tail(c.body)) + ([END] + rest)))
    ensures Props(Created(c), Bytes(Tail(c.body)) + ([END] + rest)) == Complete(q, rest) && q.c == Restored(c)
  {
    var tail := Bytes(Tail(c.body)) + ([END] + rest);
    assert Record(c) + rest == Bytes(Head(c)) + tail;
    HeadBack(c, tail);
    q := TailBack(c);
    PropsOf(Created(c), Tail(c.body), rest);
  }

  lemma TailBack(c: Condition) returns (q: Partial)
    requires Proper(c)
    ensures Takes(Created(c), Tail(c.body), q) && q.c == Restored(c)
  {
    q := Back(c, Created(c));
    match c.body {
      case Generic => TakesNone(q);
      case Regeneration(_, _, _, _) => RegenerationBack(c);
      case Soul(_, _) => SoulBack(c);
      case Light(_, _, _, _) => LightBack(c);
      case Speed(_, _, _, _, _) => SpeedBack(c);
      case Attributes(_, _, _, _) => q := AttributesBack(c);
      case Damage(_, _, _) => DamageBack(c);
    }
  }

  /** The persistent conditions, the last one first, as they come back */
  function Kept(cs: seq<Condition>): seq<Condition> {
    if cs == [] then []
    else (if Persistent(cs[|cs| - 1]) then [Restored(cs[|cs| - 1])] else []) + Kept(cs[..|cs| - 1])
  }

  lemma {:induction false} LoadKept(cs: seq<Condition>, rest: seq<Byte>, list: seq<Condition>)
    requires forall k :: 0 <= k < |cs| ==> Proper(cs[k])
    ensures LoadAll(SaveAll(cs) + rest, list) == LoadAll(rest, Kept(cs) + list)
    decreases |cs|
  {
    hide Proper, LoadAll, Persistent, Record, Restored;
    if cs == [] {
      assert SaveAll(cs) + rest == rest && Kept(cs) + list == list;
    } else {
      var n := |cs| - 1;
      var c := cs[n];
      if Persistent(c) {
        LoadKept(cs[..n], Record(c) + rest, list);
        assert SaveAll(cs) + rest == SaveAll(cs[..n]) + (Record(c) + rest);
        LoadOne(c, rest, Kept(cs[..n]) + list);
        assert [Restored(c)] + (Kept(cs[..n]) + list) == Kept(cs) + list;
      } else {
        LoadKept(cs[..n], rest, list);
        assert SaveAll(cs) == SaveAll(cs[..n]) && Kept(cs) == Kept(cs[..n]);
      }
    }
  }

  lemma LoadOne(c: Condition, rest: seq<Byte>, list: seq<Condition>)
    requires Proper(c)
    ensures LoadAll(Record(c) + rest, list) == LoadAll(rest, [Restored(c)] + list)
  {
    var q := RecordBack(c, rest);
    hide Create, Props, Record;
  }

  /** What is saved comes back: the persistent conditions, in reversed order, all of their bytes read. */
  lemma LoadInvertsSave(cs: seq<Condition>)
    requires forall k :: 0 <= k < |cs| ==> Proper(cs[k])
    ensures LoadAll(SaveAll(cs), []) == Kept(cs)
  {
    LoadKept(cs, [], []);
    assert SaveAll(cs) + [] == SaveAll(cs) && Kept(cs) + [] == Kept(cs);
    assert LoadAll([], Kept(cs) + []) == Kept(cs) + [];
  }

  /** A condition comes back as it was exactly if it is no damage, or lasts as long as its rounds. */
  lemma ComesBackUnchanged(c: Condition)
    requires Proper(c)
    requires c.body.Damage? ==> forall k :: 0 <= k < |c.body.damageList| ==> c.body.damageList[k].interval >= 0
    ensures Restored(c) == c <==> (c.body.Damage? ==> c.ticks == SumOf(c.body.damageList))
  {
    if c.body.Damage? { SumOfRounds(0, c.body.damageList); }
  }

  // ----- The methods on the streams ---------------------------------------------------------

  method WriteEntry(out: PropWriteStream, e: Entry)
    modifies out
    ensures out.buffer == old(out.buffer) + [e.tag] + e.bytes
  {
    assert Le(e.tag, 1) == [e.tag] by { assert Le(e.tag / 256, 0) == []; }
    out.Write(e.tag, 1);
    out.WriteBytes(e.bytes);
  }

  lemma BytesMore(es: seq<Entry>, e: Entry)
    ensures Bytes(es + [e]) == Bytes(es) + [e.tag] + e.bytes
  {
    if es == [] {
      assert es + [e] == [e] && [e][1..] == [];
    } else {
      BytesMore(es[1..], e);
      assert (es + [e])[1..] == es[1..] + [e];
      assert (es + [e])[0] == es[0];
    }
  }

  method WriteEntries(out: PropWriteStream, es: seq<Entry>)
    modifies out
    ensures out.buffer == old(out.buffer) + Bytes(es)
  {
    var k := 0;
    while k < |es|
      invariant 0 <= k <= |es| && out.buffer == old(out.buffer) + Bytes(es[..k])
    {
      BytesMore(es[..k], es[k]);
      assert es[..k + 1] == es[..k] + [es[k]];
      WriteEntry(out, es[k]);
      k := k + 1;
    }
    assert es[..k] == es;
  }

  /** The loop of `savePlayer`: `serialize` and the end marker for each persistent condition */
  method SaveConditions(conditions: seq<Condition>, out: PropWriteStream)
    modifies out
    ensures out.buffer == old(out.buffer) + SaveAll(conditions)
  {
    var k := 0;
    assert SaveAll(conditions[..0]) == [];
    hide SaveAll, Persistent, Record;
    while k < |conditions|
      invariant 0 <= k <= |conditions| && out.buffer == old(out.buffer) + SaveAll(conditions[..k])
    {
      SaveMore(conditions, k, old(out.buffer));
      if Persistent(conditions[k]) {
        Serialize(out, conditions[k]);
      }
      k := k + 1;
    }
    assert conditions[..k] == conditions;
  }

  /** `serialize` and the end marker */
  method Serialize(out: PropWriteStream, condition: Condition)
    modifies out
    ensures out.buffer == old(out.buffer) + Record(condition)
  {
    WriteEntries(out, Head(condition));
    WriteEntries(out, Tail(condition.body));
    out.WriteBytes([END]);
  }

  lemma SaveMore(cs: seq<Condition>, k: nat, before: seq<Byte>)
    requires k < |cs|
    ensures before + SaveAll(cs[..k + 1]) ==
            if Persistent(cs[k]) then (before + SaveAll(cs[..k])) + Record(cs[k]) else before + SaveAll(cs[..k])
  {
    assert cs[..k + 1][..k] == cs[..k];
  }

  method ReadTagged(stream: PropStream, tag: Byte, n: nat) returns (ok: bool, value: nat)
    requires stream.Valid()
    modifies stream
    ensures stream.Valid() && |stream.Rest()| <= |old(stream.Rest())|
    ensures ok <==> Tagged(old(stream.Rest()), tag, n).Some?
    ensures ok ==> Tagged(old(stream.Rest()), tag, n) == Some((value, stream.Rest()))
  {
    ghost var s := stream.Rest();
    FirstByte(s);
    var found, attr := stream.Read(1);
    if !found || attr != tag { return false, 0; }
    ok, value := stream.Read(n);
    if ok { assert s[1..][..n] == s[1..1 + n] && s[1..][n..] == s[1 + n..]; }
  }

  lemma FirstByte(s: seq<Byte>)
    ensures s != [] ==> ValueOf(s[..1]) == s[0]
  {
    if s != [] { assert s[..1] == [s[0]] && [s[0]][1..] == []; }
  }

  /** `Condition::createCondition` */
  method CreateCondition(stream: PropStream) returns (r: Option<Partial>)
    requires stream.Valid()
    modifies stream
    ensures stream.Valid() && (r.Some? ==> |stream.Rest()| < |old(stream.Rest())|)
    ensures r.Some? <==> Create(old(stream.Rest())).Some?
    ensures r.Some? ==> Create(old(stream.Rest())) == Some((r.value, stream.Rest()))
  {
    hide Tagged;
    ghost var s := stream.Rest();
    var ok, kind, id, ticks, buff, subId, aggressive;
    ok, kind := ReadTagged(stream, TYPE, 4);
    if !ok { return None; }
    ok, id := ReadTagged(stream, ID, 4);
    if !ok { return None; }
    ok, ticks := ReadTagged(stream, TICKS, 4);
    if !ok { return None; }
    ok, buff := ReadTagged(stream, ISBUFF, 1);
    if !ok { return None; }
    ok, subId := ReadTagged(stream, SUBID, 4);
    if !ok { return None; }
    ok, aggressive := ReadTagged(stream, ISAGGRESSIVE, 1);
    if !ok { return None; }
    var body := Fresh(Signed(kind));
    if body.None? { return None; }
    r := Some(Partial(Condition(Signed(kind), SignedByte(id), if body.value.Damage? then 0 else Signed(ticks),
                                buff != 0, subId, aggressive != 0, body.value), 0, 0, 0));
  }

  /** `unserialize` */
  method Unserialize(p: Partial, stream: PropStream) returns (ok: bool, q: Partial)
    requires stream.Valid()
    modifies stream
    ensures stream.Valid() && |stream.Rest()| <= |old(stream.Rest())|
    ensures Props(p, old(stream.Rest())) == if ok then Complete(q, stream.Rest()) else Broken(stream.Rest())
  {
    hide Put, SizeOf, PutBody;
    q := p;
    while true
      invariant stream.Valid() && |stream.Rest()| <= |old(stream.Rest())|
      invariant Props(p, old(stream.Rest())) == Props(q, stream.Rest())
      decreases |stream.Rest()|
    {
      ghost var s := stream.Rest();
      FirstByte(s);
      var more, tag := stream.Read(1);
      if !more || tag == END { return true, q; }
      var size := SizeOf(q.c.body, tag);
      if size.None? { return false, q; }
      var found, bytes := stream.ReadBytes(size.value);
      if !found { return false, q; }
      assert s[1..][..size.value] == s[1..1 + size.value] && s[1..][size.value..] == s[1 + size.value..];
      var next := Put(q, tag, bytes);
      if next.None? { return false, q; }
      q := next.value;
    }
  }

  /** The loop of `loadPlayer` */
  method LoadConditions(stream: PropStream) returns (storedConditionList: seq<Condition>)
    requires stream.Valid()
    modifies stream
    ensures stream.Valid() && storedConditionList == LoadAll(old(stream.Rest()), [])
  {
    hide Create, Props;
    storedConditionList := [];
    ghost var s := stream.Rest();
    var condition := CreateCondition(stream);
    while condition.Some?
      invariant stream.Valid() && condition.Some? == Create(s).Some?
      invariant condition.Some? ==> Create(s) == Some((condition.value, stream.Rest())) && |stream.Rest()| < |s|
      invariant LoadAll(old(stream.Rest()), []) == LoadAll(s, storedConditionList)
      decreases |s|
    {
      var ok, q := Unserialize(condition.value, stream);
      if ok {
        storedConditionList := [q.c] + storedConditionList;
      }
      s := stream.Rest();
      condition := CreateCondition(stream);
    }
  }
}
