/** The byte format of items in houses: `saveItem` writes an item with everything in it, `loadItem`
    creates it again. */
module HouseItems {
  import opened Collections
  import opened PropStreams
  import opened ItemTypes

  const ATTR_CONTAINER_ITEMS: Byte := 23

  /** One attribute entry: its tag and the bytes of its value, or a text. */
  datatype Attr =
    | Fixed(tag: Byte, value: seq<Byte>)
    | Text(tag: Byte, text: seq<Byte>)

  /** An item, or a container with the items in it. */
  datatype Tree =
    | Leaf(id: nat, attrs: seq<Attr>)
    | Box(id: nat, attrs: seq<Attr>, kids: seq<Tree>)

  /** What the table of item types says: the ids, the entries that a new item of a type has of itself (its
      duration and charges), and for the types that decay what they turn into, or a negative number. */
  datatype Kinds = Kinds(types: Types, initial: map<nat, seq<Attr>>, decayTo: map<nat, int>)

  predicate HasTag(attrs: seq<Attr>, tag: Byte) {
    exists i :: 0 <= i < |attrs| && attrs[i].tag == tag
  }

  /** The entries of a new item that are not among those that were read, and then those. */
  function Completed(initial: seq<Attr>, attrs: seq<Attr>): seq<Attr> {
    if initial == [] then attrs
    else
      var rest := Completed(initial[1..], attrs);
      if HasTag(attrs, initial[0].tag) then rest else [initial[0]] + rest
  }

  function Initial(kinds: Kinds, id: nat): seq<Attr> {
    if id in kinds.initial then kinds.initial[id] else []
  }

  /** The attributes of an item of this type once these entries have been read */
  function Whole(kinds: Kinds, id: nat, attrs: seq<Attr>): seq<Attr> {
    Completed(Initial(kinds, id), attrs)
  }

  /** The size of the value that `readAttr` takes for a tag of fixed size. */
  function FixedSize(tag: Byte): Option<nat> {
    if tag in {12, 14, 15, 17, 32, 33, 44} then Some(1)
    else if tag in {4, 5, 10, 22} then Some(2)
    else if tag in {16, 18, 20, 21, 27, 28, 29, 30, 31, 35, 38, 41, 42, 43} then Some(4)
    else if tag == 8 then Some(5)
    else None
  }

  predicate TextTag(tag: Byte) {
    tag in {6, 7, 19, 24, 25, 26}
  }

  predicate AttrOk(a: Attr) {
    match a
    case Fixed(tag, value) => FixedSize(tag) == Some(|value|)
    case Text(tag, _) => TextTag(tag)
  }

  /** Ids that are two bytes and known, with containers where the type table has containers. */
  predicate WellTyped(t: Tree, kinds: Kinds) {
    && t.id < 0x1_0000 && t.id in kinds.types.known
    && (forall i :: 0 <= i < |t.attrs| ==> AttrOk(t.attrs[i]))
    && match t
       case Leaf(_, _) => t.id !in kinds.types.containers
       case Box(_, _, kids) =>
         && t.id in kinds.types.containers && |kids| < 0x1_0000_0000
         && forall i :: 0 <= i < |kids| ==> WellTyped(kids[i], kinds)
  }

  // ----- Saving -----------------------------------------------------------------------------

  function AttrBytes(a: Attr): seq<Byte> {
    match a
    case Fixed(tag, value) => [tag] + value
    case Text(tag, text) => [tag] + StringBytes(text)
  }

  /** `serializeAttr` */
  function AttrsBytes(attrs: seq<Attr>): seq<Byte> {
    if attrs == [] then [] else AttrBytes(attrs[0]) + AttrsBytes(attrs[1..])
  }

  function Encode(t: Tree): seq<Byte>
    decreases t, 1
  {
    Le(t.id, 2) + AttrsBytes(t.attrs) + Contents(t) + [0]
  }

  function Contents(t: Tree): seq<Byte>
    decreases t, 0
  {
    match t
    case Leaf(_, _) => []
    case Box(_, _, kids) => [ATTR_CONTAINER_ITEMS] + Le(|kids|, 4) + EncodeBackward(kids)
  }

  /** The kids, the last one first. */
  function EncodeBackward(kids: seq<Tree>): seq<Byte>
    decreases kids, 2
  {
    if kids == [] then []
    else Encode(kids[|kids| - 1]) + EncodeBackward(kids[..|kids| - 1])
  }

  method WriteAttr(stream: PropWriteStream, a: Attr)
    modifies stream
    ensures stream.buffer == old(stream.buffer) + AttrBytes(a)
  {
    match a {
      case Fixed(tag, value) =>
        stream.WriteBytes([tag]);
        stream.WriteBytes(value);
      case Text(tag, text) =>
        stream.WriteBytes([tag]);
        stream.WriteString(text);
    }
  }

  /** `serializeAttr` */
  method SerializeAttr(stream: PropWriteStream, attrs: seq<Attr>)
    modifies stream
    ensures stream.buffer == old(stream.buffer) + AttrsBytes(attrs)
  {
    var i := 0;
    ghost var out: seq<Byte> := [];
    while i < |attrs|
      invariant 0 <= i <= |attrs|
      invariant stream.buffer == old(stream.buffer) + out && out + AttrsBytes(attrs[i..]) == AttrsBytes(attrs)
    {
      hide AttrBytes;
      assert attrs[i..][1..] == attrs[i + 1..];
      WriteAttr(stream, attrs[i]);
      Assoc(old(stream.buffer), out, AttrBytes(attrs[i]));
      Assoc(out, AttrBytes(attrs[i]), AttrsBytes(attrs[i + 1..]));
      out := out + AttrBytes(attrs[i]);
      i := i + 1;
    }
  }

  /** `saveItem` */
  method SaveItem(stream: PropWriteStream, item: Tree)
    modifies stream
    ensures stream.buffer == old(stream.buffer) + Encode(item)
    decreases item, 1
  {
    hide AttrsBytes, Contents, Le;
    ghost var start := stream.buffer;
    stream.Write(item.id, 2);
    SerializeAttr(stream, item.attrs);
    Assoc(start, Le(item.id, 2), AttrsBytes(item.attrs));
    if item.Box? {
      SaveContents(stream, item);
    }
    LeafContents(item);
    Assoc(start, Le(item.id, 2) + AttrsBytes(item.attrs), Contents(item));
    stream.WriteBytes([0]);
    Assoc(start, Le(item.id, 2) + AttrsBytes(item.attrs) + Contents(item), [0]);
  }

  lemma LeafContents(t: Tree)
    ensures t.Leaf? ==> Contents(t) == []
  {
  }

  /** The part of `saveItem` for containers: the items from the last to the first. */
  method SaveContents(stream: PropWriteStream, container: Tree)
    requires container.Box?
    modifies stream
    ensures stream.buffer == old(stream.buffer) + Contents(container)
    decreases container, 0
  {
    hide Encode, Le;
    ghost var before := stream.buffer;
    stream.WriteBytes([ATTR_CONTAINER_ITEMS]);
    stream.Write(|container.kids|, 4);
    Assoc(before, [ATTR_CONTAINER_ITEMS], Le(|container.kids|, 4));
    ghost var start := stream.buffer;
    ghost var out: seq<Byte> := [];
    var i := |container.kids|;
    assert container.kids[..i] == container.kids;
    while i > 0
      invariant 0 <= i <= |container.kids|
      invariant stream.buffer == start + out
      invariant out + EncodeBackward(container.kids[..i]) == EncodeBackward(container.kids)
    {
      i := i - 1;
      assert container.kids[..i + 1][..i] == container.kids[..i];
      SaveItem(stream, container.kids[i]);
      Assoc(start, out, Encode(container.kids[i]));
      Assoc(out, Encode(container.kids[i]), EncodeBackward(container.kids[..i]));
      out := out + Encode(container.kids[i]);
    }
    Assoc(before, [ATTR_CONTAINER_ITEMS] + Le(|container.kids|, 4), EncodeBackward(container.kids));
  }

  // ----- Loading ----------------------------------------------------------------------------

  /** What `unserializeAttr` finds: an error, or entries, the number of items announced for a
      container, and the bytes after the block. */
  datatype AttrResult = AttrError | Attrs(attrs: seq<Attr>, count: nat, rest: seq<Byte>)

  const ATTR_DURATION: Byte := 16
  const ATTR_DECAYING_STATE: Byte := 17

  /** What `readAttr` stores of a value: any decay becomes a pending one, and a negative duration none. */
  function Stored(tag: Byte, value: seq<Byte>): seq<Byte> {
    if tag == ATTR_DECAYING_STATE && value != [0] then [2]
    else if tag == ATTR_DURATION && |value| == 4 && value[3] >= 0x80 then [0, 0, 0, 0]
    else value
  }

  /** One entry after its tag, as `readAttr` takes it. */
  function ReadOne(tag: Byte, s: seq<Byte>): Option<(Attr, seq<Byte>)> {
    if FixedSize(tag).Some? then
      (var n := FixedSize(tag).value; if |s| < n then None else Some((Fixed(tag, Stored(tag, s[..n])), s[n..])))
    else if TextTag(tag) then
      if |s| < 2 then None
      else
        var n := ValueOf(s[..2]);
        if |s| - 2 < n then None else Some((Text(tag, s[2..2 + n]), s[2 + n..]))
    else None
  }

  /** `unserializeAttr`; the end of the bytes ends the block like a zero does. */
  function ReadAttrs(s: seq<Byte>, container: bool): AttrResult
    decreases |s|
  {
    if s == [] then Attrs([], 0, s)
    else if s[0] == 0 then Attrs([], 0, s[1..])
    else if s[0] == ATTR_CONTAINER_ITEMS && container then
      if |s| < 5 then AttrError else Attrs([], ValueOf(s[1..5]), s[5..])
    else
      match ReadOne(s[0], s[1..])
      case None => AttrError
      case Some((a, rest)) =>
        if |rest| >= |s| then AttrError
        else
          match ReadAttrs(rest, container)
          case AttrError => AttrError
          case Attrs(more, count, rest') => Attrs([a] + more, count, rest')
  }

  /** What `loadItem` yields: a failure, or the item that was added, if its type is known, and the
      bytes that are left. */
  datatype ItemResult = Failed | Loaded(item: Option<Tree>, rest: seq<Byte>)

  datatype KidsResult = KidsFailed | KidsLoaded(kids: seq<Tree>, rest: seq<Byte>)

  function LoadSpec(s: seq<Byte>, kinds: Kinds): ItemResult
    decreases |s|, 0
  {
    if |s| < 2 then Failed
    else
      var id := ValueOf(s[..2]);
      if id !in kinds.types.known then Loaded(None, s[2..])
      else
        match ReadAttrs(s[2..], id in kinds.types.containers)
        case AttrError => Failed
        case Attrs(attrs, count, rest) =>
          if id !in kinds.types.containers then Loaded(Some(Leaf(Created(id), Whole(kinds, Created(id), attrs))), rest)
          else if |rest| >= |s| then Failed
          else
            match KidsSpec(rest, count, [], kinds)
            case KidsFailed => Failed
            case KidsLoaded(kids, rest') => Loaded(Some(Box(id, Whole(kinds, id, attrs), kids)), rest')
  }

  /** `loadContainer`: the announced number of items, each put in front, then a zero. */
  function KidsSpec(s: seq<Byte>, count: nat, list: seq<Tree>, kinds: Kinds): KidsResult
    decreases |s|, 1, count
  {
    if count == 0 then
      if s == [] || s[0] != 0 then KidsFailed else KidsLoaded(list, s[1..])
    else
      match LoadSpec(s, kinds)
      case Failed => KidsFailed
      case Loaded(item, rest) =>
        if |rest| >= |s| then KidsFailed
        else KidsSpec(rest, count - 1, (if item.Some? then [item.value] else []) + list, kinds)
  }

  // ----- Loading inverts saving -------------------------------------------------------------

  /** What comes back of an entry: a text that is too long to be written is lost. */
  function Kept(a: Attr): Attr {
    match a
    case Fixed(tag, value) => Fixed(tag, Stored(tag, value))
    case Text(tag, text) => if |text| > MAX_STRING then Text(tag, []) else a
  }

  function KeptAll(attrs: seq<Attr>): (r: seq<Attr>)
    ensures |r| == |attrs| && forall i :: 0 <= i < |attrs| ==> r[i] == Kept(attrs[i])
  {
    if attrs == [] then [] else [Kept(attrs[0])] + KeptAll(attrs[1..])
  }

  /** What comes back of an item. */
  function Normal(t: Tree, kinds: Kinds): Tree {
    match t
    case Leaf(id, attrs) => Leaf(Created(id), Whole(kinds, Created(id), KeptAll(attrs)))
    case Box(id, attrs, kids) => Box(id, Whole(kinds, id, KeptAll(attrs)), NormalAll(kids, kinds))
  }

  function NormalAll(ts: seq<Tree>, kinds: Kinds): (r: seq<Tree>)
    ensures |r| == |ts| && forall i :: 0 <= i < |ts| ==> r[i] == Normal(ts[i], kinds)
  {
    if ts == [] then [] else [Normal(ts[0], kinds)] + NormalAll(ts[1..], kinds)
  }

  lemma StringComesBack(tag: Byte, text: seq<Byte>, rest: seq<Byte>)
    requires TextTag(tag)
    ensures ReadOne(tag, StringBytes(text) + rest) == Some((Kept(Text(tag, text)), rest))
  {
    SmallPowers();
    var n := if |text| > MAX_STRING then 0 else |text|;
    ValueOfLe(n, 2);
    var body := if |text| > MAX_STRING then [] else text;
    var s := StringBytes(text) + rest;
    assert s == Le(n, 2) + (body + rest);
    assert s[..2] == Le(n, 2);
    assert s[2..2 + n] == body && s[2 + n..] == rest;
  }

  lemma EntryComesBack(a: Attr, rest: seq<Byte>)
    requires AttrOk(a)
    ensures var s := AttrBytes(a) + rest; s[0] == a.tag && ReadOne(s[0], s[1..]) == Some((Kept(a), rest))
    ensures a.tag != 0 && a.tag != ATTR_CONTAINER_ITEMS
  {
    match a {
      case Fixed(tag, value) =>
        assert (AttrBytes(a) + rest)[1..] == value + rest;
        assert (value + rest)[..|value|] == value && (value + rest)[|value|..] == rest;
      case Text(tag, text) =>
        assert (AttrBytes(a) + rest)[1..] == StringBytes(text) + rest;
        StringComesBack(tag, text, rest);
    }
  }

  /** A result with entries read before it. */
  function Prepend(attrs: seq<Attr>, r: AttrResult): AttrResult {
    if r.AttrError? then r else r.(attrs := attrs + r.attrs)
  }

  lemma FirstComesBack(a: Attr, tail: seq<Byte>, container: bool)
    requires AttrOk(a)
    ensures ReadAttrs(AttrBytes(a) + tail, container) == Prepend([Kept(a)], ReadAttrs(tail, container))
  {
    EntryComesBack(a, tail);
    assert |AttrBytes(a)| > 0;
  }

  lemma PrependBoth(a: Attr, entries: seq<Attr>, r: AttrResult)
    ensures Prepend([a], Prepend(entries, r)) == Prepend([a] + entries, r)
  {
    if r.Attrs? {
      assert [a] + (entries + r.attrs) == ([a] + entries) + r.attrs;
    }
  }

  /** The entries before the end of a block are read back in order. */
  lemma {:induction false} AttrsComeBack(attrs: seq<Attr>, end: seq<Byte>, container: bool)
    requires forall i :: 0 <= i < |attrs| ==> AttrOk(attrs[i])
    ensures ReadAttrs(AttrsBytes(attrs) + end, container) == Prepend(KeptAll(attrs), ReadAttrs(end, container))
  {
    hide ReadAttrs, AttrBytes, Kept, AttrOk;
    if attrs == [] {
      assert AttrsBytes(attrs) + end == end;
      if ReadAttrs(end, container).Attrs? {
        assert KeptAll(attrs) + ReadAttrs(end, container).attrs == ReadAttrs(end, container).attrs;
      }
    } else {
      hide Prepend;
      Assoc(AttrBytes(attrs[0]), AttrsBytes(attrs[1..]), end);
      AttrsComeBack(attrs[1..], end, container);
      FirstComesBack(attrs[0], AttrsBytes(attrs[1..]) + end, container);
      PrependBoth(Kept(attrs[0]), KeptAll(attrs[1..]), ReadAttrs(end, container));
    }
  }

  /** `loadItem` after `saveItem`: the item comes back with everything in it, in order, and exactly
      its bytes are consumed. */
  lemma {:induction false} LoadInvertsSave(t: Tree, rest: seq<Byte>, kinds: Kinds)
    requires WellTyped(t, kinds)
    ensures LoadSpec(Encode(t) + rest, kinds) == Loaded(Some(Normal(t, kinds)), rest)
    decreases t, 1
  {
    hide Le, AttrsBytes, EncodeBackward, ValueOf, ReadAttrs, KidsSpec;
    SmallPowers();
    ValueOfLe(t.id, 2);
    var s := Encode(t) + rest;
    var end := Contents(t) + [0] + rest;
    EncodeParts(t, rest);
    assert s[..2] == Le(t.id, 2) && s[2..] == AttrsBytes(t.attrs) + end;
    AttrsComeBack(t.attrs, end, t.id in kinds.types.containers);
    assert KeptAll(t.attrs) + [] == KeptAll(t.attrs);
    match t
    case Leaf(_, _) =>
      assert end == [0] + rest && end[1..] == rest;
      PlainBlock(end, rest);
    case Box(_, _, kids) =>
      var tail := EncodeBackward(kids) + [0] + rest;
      ContentsParts(t, rest);
      ValueOfLe(|kids|, 4);
      assert end[1..5] == Le(|kids|, 4) && end[5..] == tail;
      CountedBlock(end);
      assert kids[..|kids|] == kids && NormalAll(kids[|kids|..], kinds) == [];
      KidsComeBack(kids, |kids|, rest, kinds);
  }

  lemma PlainBlock(s: seq<Byte>, rest: seq<Byte>)
    requires s == [0] + rest
    ensures ReadAttrs(s, false) == Attrs([], 0, rest)
  {
  }

  lemma CountedBlock(s: seq<Byte>)
    requires |s| >= 5 && s[0] == ATTR_CONTAINER_ITEMS
    ensures ReadAttrs(s, true) == Attrs([], ValueOf(s[1..5]), s[5..])
  {
  }

  lemma EncodeParts(t: Tree, rest: seq<Byte>)
    ensures Encode(t) + rest == Le(t.id, 2) + (AttrsBytes(t.attrs) + (Contents(t) + [0] + rest))
  {
    var a, b, c := Le(t.id, 2), AttrsBytes(t.attrs), Contents(t);
    assert a + b + c + [0] + rest == a + (b + (c + [0] + rest));
  }

  lemma ContentsParts(t: Tree, rest: seq<Byte>)
    requires t.Box?
    ensures Contents(t) + [0] + rest
         == [ATTR_CONTAINER_ITEMS] + (Le(|t.kids|, 4) + (EncodeBackward(t.kids) + [0] + rest))
  {
    var b, c := Le(|t.kids|, 4), EncodeBackward(t.kids);
    assert [ATTR_CONTAINER_ITEMS] + b + c + [0] + rest == [ATTR_CONTAINER_ITEMS] + (b + (c + [0] + rest));
  }

  /** The first k kids, stored last one first, come back in front of those already loaded. */
  lemma {:induction false} KidsComeBack(kids: seq<Tree>, k: nat, rest: seq<Byte>, kinds: Kinds)
    requires k <= |kids| && forall i :: 0 <= i < |kids| ==> WellTyped(kids[i], kinds)
    ensures KidsSpec(EncodeBackward(kids[..k]) + [0] + rest, k, NormalAll(kids[k..], kinds), kinds)
         == KidsLoaded(NormalAll(kids, kinds), rest)
    decreases kids, 2, k
  {
    if k == 0 {
      var s := EncodeBackward(kids[..0]) + [0] + rest;
      assert s == [0] + rest && s[1..] == rest;
      assert kids[0..] == kids;
    } else {
      var t := kids[k - 1];
      var tail := EncodeBackward(kids[..k - 1]) + [0] + rest;
      assert kids[..k][..k - 1] == kids[..k - 1];
      assert EncodeBackward(kids[..k]) + [0] + rest == Encode(t) + tail by {
        var a, b := Encode(t), EncodeBackward(kids[..k - 1]);
        assert a + b + [0] + rest == a + (b + [0] + rest);
      }
      LoadInvertsSave(t, tail, kinds);
      assert kids[k - 1..] == [t] + kids[k..];
      assert NormalAll(kids[k - 1..], kinds) == [Normal(t, kinds)] + NormalAll(kids[k..], kinds);
      KidsComeBack(kids, k - 1, rest, kinds);
    }
  }

  /** The entry is no negative duration and no text that is too long to be saved. */
  predicate Lasting(a: Attr) {
    match a
    case Fixed(tag, value) => tag == ATTR_DURATION && |value| == 4 ==> value[3] < 0x80
    case Text(_, text) => |text| <= MAX_STRING
  }

  /** The entry is no decay in progress. */
  predicate Idle(a: Attr) {
    a.Fixed? && a.tag == ATTR_DECAYING_STATE ==> a.value == [0] || a.value == [2]
  }

  /** The entries are all that a new item of the type would have of itself. */
  predicate NothingMissing(kinds: Kinds, id: nat, attrs: seq<Attr>) {
    forall j :: 0 <= j < |Initial(kinds, id)| ==> HasTag(attrs, Initial(kinds, id)[j].tag)
  }

  predicate AllLasting(attrs: seq<Attr>) {
    forall i :: 0 <= i < |attrs| ==> Lasting(attrs[i])
  }

  predicate AllIdle(attrs: seq<Attr>) {
    forall i :: 0 <= i < |attrs| ==> Idle(attrs[i])
  }

  /** Nothing in the item has an id that loading replaces, lacks an entry of a new item, or has one that
      reading changes. */
  predicate Lossless(t: Tree, kinds: Kinds) {
    && NothingMissing(kinds, t.id, t.attrs) && AllLasting(t.attrs) && AllIdle(t.attrs)
    && match t
       case Leaf(id, _) => Created(id) == id
       case Box(_, _, kids) => forall i :: 0 <= i < |kids| ==> Lossless(kids[i], kinds)
  }

  lemma LastingIsKept(a: Attr)
    ensures Kept(a) == a <==> Lasting(a) && Idle(a)
  {
    if a.Fixed? && a.tag == ATTR_DURATION && Kept(a) == a && |a.value| == 4 {
      assert a.value[3] == [0, 0, 0, 0][3] || a.value[3] < 0x80;
    }
  }

  lemma AllKeptIffLasting(attrs: seq<Attr>)
    ensures KeptAll(attrs) == attrs <==> AllLasting(attrs) && AllIdle(attrs)
  {
    assert KeptAll(attrs) == attrs <==> forall i :: 0 <= i < |attrs| ==> Kept(attrs[i]) == attrs[i];
    forall i | 0 <= i < |attrs|
      ensures Kept(attrs[i]) == attrs[i] <==> Lasting(attrs[i]) && Idle(attrs[i])
    {
      LastingIsKept(attrs[i]);
    }
  }

  lemma {:induction false} CompletedAdds(initial: seq<Attr>, attrs: seq<Attr>)
    ensures |Completed(initial, attrs)| >= |attrs|
    ensures if forall j :: 0 <= j < |initial| ==> HasTag(attrs, initial[j].tag) then Completed(initial, attrs) == attrs
            else |Completed(initial, attrs)| > |attrs|
  {
    if initial != [] {
      CompletedAdds(initial[1..], attrs);
      assert (forall j :: 0 <= j < |initial| ==> HasTag(attrs, initial[j].tag)) <==>
             HasTag(attrs, initial[0].tag)
             && forall j :: 0 <= j < |initial[1..]| ==> HasTag(attrs, initial[1..][j].tag);
    }
  }

  lemma KeptTags(attrs: seq<Attr>, tag: Byte)
    ensures HasTag(KeptAll(attrs), tag) <==> HasTag(attrs, tag)
  {
    if HasTag(attrs, tag) {
      var i :| 0 <= i < |attrs| && attrs[i].tag == tag;
      assert KeptAll(attrs)[i].tag == tag;
    }
  }

  /** The entries that come back are as many as there were exactly if none is missing. */
  lemma WholeAdds(kinds: Kinds, id: nat, attrs: seq<Attr>)
    ensures if NothingMissing(kinds, id, attrs) then Whole(kinds, id, KeptAll(attrs)) == KeptAll(attrs)
            else |Whole(kinds, id, KeptAll(attrs))| > |attrs|
  {
    var initial := Initial(kinds, id);
    forall j | 0 <= j < |initial|
      ensures HasTag(KeptAll(attrs), initial[j].tag) <==> HasTag(attrs, initial[j].tag)
    {
      KeptTags(attrs, initial[j].tag);
    }
    CompletedAdds(initial, KeptAll(attrs));
  }

  /** The item that comes back, before any decay is started, is the item that was saved exactly if nothing
      in it is replaced. */
  lemma {:induction false} NormalIffLossless(t: Tree, kinds: Kinds)
    ensures Normal(t, kinds) == t <==> Lossless(t, kinds)
    decreases t
  {
    WholeAdds(kinds, t.id, t.attrs);
    AllKeptIffLasting(t.attrs);
    hide KeptAll, Whole, NothingMissing, AllLasting, AllIdle;
    match t
    case Leaf(_, _) =>
    case Box(_, _, kids) =>
      forall i | 0 <= i < |kids|
        ensures Normal(kids[i], kinds) == kids[i] <==> Lossless(kids[i], kinds)
      {
        NormalIffLossless(kids[i], kinds);
      }
      assert NormalAll(kids, kinds) == kids <==> forall i :: 0 <= i < |kids| ==> Normal(kids[i], kinds) == kids[i];
  }

  // ----- Decay starts -----------------------------------------------------------------------

  const ATTR_UNIQUE_ID: Byte := 5
  const ATTR_DECAYTO: Byte := 35

  /** The value that was set last under a tag */
  function ValueAt(attrs: seq<Attr>, tag: Byte): Option<seq<Byte>> {
    if attrs == [] then None
    else
      var last := attrs[|attrs| - 1];
      if last.Fixed? && last.tag == tag then Some(last.value) else ValueAt(attrs[..|attrs| - 1], tag)
  }

  predicate Negative(value: seq<Byte>) {
    |value| == 4 && value[3] >= 0x80
  }

  /** `canDecay` of an item that lies somewhere: its type decays, and it neither turns into nothing that
      there is nor has a unique id. */
  predicate CanDecay(kinds: Kinds, id: nat, attrs: seq<Attr>) {
    && id in kinds.decayTo && !HasTag(attrs, ATTR_UNIQUE_ID)
    && match ValueAt(attrs, ATTR_DECAYTO)
       case Some(value) => !Negative(value)
       case None => kinds.decayTo[id] >= 0
  }

  /** `getDuration() > 0`, once negative durations have become none */
  predicate TimeLeft(attrs: seq<Attr>) {
    match ValueAt(attrs, ATTR_DURATION)
    case Some(value) => value != [0, 0, 0, 0] && !Negative(value)
    case None => false
  }

  /** `setDecaying(DECAYING_TRUE)` */
  function Decaying(attrs: seq<Attr>): seq<Attr> {
    var set1 := seq(|attrs|, i requires 0 <= i < |attrs| =>
      if attrs[i].tag == ATTR_DECAYING_STATE then Fixed(ATTR_DECAYING_STATE, [1]) else attrs[i]);
    if HasTag(attrs, ATTR_DECAYING_STATE) then set1 else set1 + [Fixed(ATTR_DECAYING_STATE, [1])]
  }

  /** What an item turns into that decays at once: nothing or another item, which is not of the type that was
      saved, unless it has got time again. */
  type Turns = (nat, seq<Attr>) -> seq<Tree>

  ghost predicate TurnsAway(turns: Turns) {
    && (forall id, attrs :: |turns(id, attrs)| <= 1)
    && (forall id, attrs, attrs' :: turns(Created(id), attrs) == [Leaf(id, attrs')] ==> TimeLeft(attrs'))
  }

  /** `startDecaying`: of an item that is no container, or of everything in a container but not of the
      container itself. */
  function Started(t: Tree, kinds: Kinds, turns: Turns): seq<Tree> {
    match t
    case Leaf(id, attrs) =>
      if !CanDecay(kinds, id, attrs) || ValueAt(attrs, ATTR_DECAYING_STATE) == Some([1]) then [t]
      else if TimeLeft(attrs) then [Leaf(id, Decaying(attrs))]
      else turns(id, attrs)
    case Box(id, attrs, kids) => [Box(id, attrs, StartedAll(kids, kinds, turns))]
  }

  function StartedAll(ts: seq<Tree>, kinds: Kinds, turns: Turns): seq<Tree> {
    if ts == [] then [] else Started(ts[0], kinds, turns) + StartedAll(ts[1..], kinds, turns)
  }
  /** An item of a type without decay, or with a unique id, or that would turn into nothing that there is, is
      left as it is. */
  lemma NothingStarts(id: nat, attrs: seq<Attr>, kinds: Kinds, turns: Turns)
    requires || id !in kinds.decayTo || (exists i :: 0 <= i < |attrs| && attrs[i].tag == ATTR_UNIQUE_ID)
             || (kinds.decayTo[id] < 0 && forall i :: 0 <= i < |attrs| ==> attrs[i].tag != ATTR_DECAYTO)
    ensures Started(Leaf(id, attrs), kinds, turns) == [Leaf(id, attrs)]
  {
    if forall i :: 0 <= i < |attrs| ==> attrs[i].tag != ATTR_DECAYTO { NoValueAt(attrs, ATTR_DECAYTO); }
  }

  lemma {:induction false} NoValueAt(attrs: seq<Attr>, tag: Byte)
    requires forall i :: 0 <= i < |attrs| ==> attrs[i].tag != tag
    ensures ValueAt(attrs, tag) == None
  {
    if attrs != [] { NoValueAt(attrs[..|attrs| - 1], tag); }
  }

  /** The item is decaying. */
  predicate Running(attrs: seq<Attr>) {
    && HasTag(attrs, ATTR_DECAYING_STATE)
    && forall i :: 0 <= i < |attrs| && attrs[i].tag == ATTR_DECAYING_STATE ==>
         attrs[i] == Fixed(ATTR_DECAYING_STATE, [1])
  }

  /** Nothing that comes back on a tile differs: besides ids, durations and texts, an item that can decay is
      doing so and has time left, and nothing else is. */
  predicate LosslessHere(t: Tree, kinds: Kinds) {
    && NothingMissing(kinds, t.id, t.attrs) && AllLasting(t.attrs)
    && match t
       case Leaf(id, attrs) =>
         && Created(id) == id
         && if CanDecay(kinds, id, attrs) then TimeLeft(attrs) && Running(attrs) else AllIdle(attrs)
       case Box(_, attrs, kids) => AllIdle(attrs) && forall i :: 0 <= i < |kids| ==> LosslessHere(kids[i], kinds)
  }

  lemma {:induction false} ValueAtKept(attrs: seq<Attr>, tag: Byte)
    ensures ValueAt(KeptAll(attrs), tag) ==
            match ValueAt(attrs, tag) case Some(value) => Some(Stored(tag, value)) case None => None
  {
    if attrs != [] {
      var n := |attrs| - 1;
      assert KeptAll(attrs)[..n] == KeptAll(attrs[..n]);
      ValueAtKept(attrs[..n], tag);
      hide Stored, KeptAll;
    }
  }

  /** Reading changes neither whether an item can decay nor whether it has time left. */
  lemma DecayKept(kinds: Kinds, id: nat, attrs: seq<Attr>)
    ensures CanDecay(kinds, id, KeptAll(attrs)) == CanDecay(kinds, id, attrs)
    ensures TimeLeft(KeptAll(attrs)) == TimeLeft(attrs)
    ensures ValueAt(KeptAll(attrs), ATTR_DECAYING_STATE) != Some([1])
  {
    KeptTags(attrs, ATTR_UNIQUE_ID);
    ValueAtKept(attrs, ATTR_DECAYTO);
    ValueAtKept(attrs, ATTR_DURATION);
    ValueAtKept(attrs, ATTR_DECAYING_STATE);
    hide KeptAll, ValueAt, HasTag;
  }

  lemma {:induction false} ValueAtBehind(initial: seq<Attr>, attrs: seq<Attr>, tag: Byte)
    requires ValueAt(attrs, tag).Some?
    ensures ValueAt(Completed(initial, attrs), tag) == ValueAt(attrs, tag)
  {
    if initial != [] {
      ValueAtBehind(initial[1..], attrs, tag);
      var rest := Completed(initial[1..], attrs);
      if !HasTag(attrs, initial[0].tag) {
        hide Completed;
        ValueAtTail(initial[0], rest, tag);
      }
    }
  }

  lemma {:induction false} ValueAtTail(a: Attr, attrs: seq<Attr>, tag: Byte)
    requires ValueAt(attrs, tag).Some?
    ensures ValueAt([a] + attrs, tag) == ValueAt(attrs, tag)
  {
    var n := |attrs| - 1;
    assert ([a] + attrs)[..n + 1] == [a] + attrs[..n];
    if !(attrs[n].Fixed? && attrs[n].tag == tag) { ValueAtTail(a, attrs[..n], tag); }
  }

  /** Starting the decay gives back the entries as they were saved exactly if they said that it runs. */
  lemma DecayingIffRunning(attrs: seq<Attr>)
    ensures |Decaying(attrs)| >= |attrs|
    ensures Decaying(KeptAll(attrs)) == attrs <==> AllLasting(attrs) && Running(attrs)
  {
    var kept := KeptAll(attrs);
    var now := Decaying(kept);
    KeptTags(attrs, ATTR_DECAYING_STATE);
    forall i | 0 <= i < |attrs|
      ensures now[i] == attrs[i] <==>
              Lasting(attrs[i]) && (attrs[i].tag == ATTR_DECAYING_STATE ==> attrs[i] == Fixed(ATTR_DECAYING_STATE, [1]))
    {
      LastingIsKept(attrs[i]);
      assert now[i] == if kept[i].tag == ATTR_DECAYING_STATE then Fixed(ATTR_DECAYING_STATE, [1]) else kept[i];
    }
    hide KeptAll, Decaying, Lasting;
    if |now| == |attrs| {
      assert now == attrs <==> forall i :: 0 <= i < |attrs| ==> now[i] == attrs[i];
    }
  }

  lemma LeafHere(id: nat, attrs: seq<Attr>, kinds: Kinds, turns: Turns)
    requires TurnsAway(turns)
    ensures var t := Leaf(id, attrs); Started(Normal(t, kinds), kinds, turns) == [t] <==> LosslessHere(t, kinds)
    ensures |Started(Normal(Leaf(id, attrs), kinds), kinds, turns)| <= 1
  {
    var whole := Whole(kinds, Created(id), KeptAll(attrs));
    var back := Started(Leaf(Created(id), whole), kinds, turns);
    WholeAdds(kinds, Created(id), attrs);
    DecayKept(kinds, Created(id), attrs);
    assert TimeLeft(attrs) ==> TimeLeft(whole) by {
      if TimeLeft(attrs) { ValueAtBehind(Initial(kinds, Created(id)), KeptAll(attrs), ATTR_DURATION); }
    }
    assert |back| <= 1 && (back == [Leaf(id, attrs)] ==> Created(id) == id && NothingMissing(kinds, id, attrs)) by {
      DecayingIffRunning(whole);
      hide KeptAll, Decaying, Running, AllLasting, AllIdle, CanDecay, NothingMissing, ValueAt, Initial, Created, Whole;
    }
    if Created(id) == id && NothingMissing(kinds, id, attrs) {
      DecayingIffRunning(attrs);
      AllKeptIffLasting(attrs);
      hide KeptAll, Decaying, Running, AllLasting, AllIdle, CanDecay, NothingMissing, ValueAt, Initial, Created, Whole;
    }
  }

  /** On a tile the item comes back as it was saved, with its decay under way, exactly if nothing in it
      differs. */
  lemma {:induction false} StartedIffLossless(t: Tree, kinds: Kinds, turns: Turns)
    requires TurnsAway(turns)
    ensures Started(Normal(t, kinds), kinds, turns) == [t] <==> LosslessHere(t, kinds)
    ensures |Started(Normal(t, kinds), kinds, turns)| <= 1
    decreases t, 1
  {
    match t
    case Leaf(id, attrs) => LeafHere(id, attrs, kinds, turns);
    case Box(id, attrs, kids) =>
      WholeAdds(kinds, id, attrs);
      AllKeptIffLasting(attrs);
      StartedAllIffLossless(kids, kinds, turns);
      hide KeptAll, Whole, NothingMissing, AllLasting, AllIdle, StartedAll;
  }

  lemma {:induction false} StartedAllIffLossless(ts: seq<Tree>, kinds: Kinds, turns: Turns)
    requires TurnsAway(turns)
    ensures |StartedAll(NormalAll(ts, kinds), kinds, turns)| <= |ts|
    ensures StartedAll(NormalAll(ts, kinds), kinds, turns) == ts <==>
            forall i :: 0 <= i < |ts| ==> LosslessHere(ts[i], kinds)
    decreases ts, 0
  {
    if ts != [] {
      var first := Started(Normal(ts[0], kinds), kinds, turns);
      var rest := StartedAll(NormalAll(ts[1..], kinds), kinds, turns);
      StartedIffLossless(ts[0], kinds, turns);
      StartedAllIffLossless(ts[1..], kinds, turns);
      StartedAllFirst(ts, kinds, turns);
      hide *;
      if first + rest == ts {
        assert |first| == 1 && (first + rest)[0] == ts[0] && (first + rest)[1..] == ts[1..];
      }
      assert (forall i :: 0 <= i < |ts| ==> LosslessHere(ts[i], kinds)) <==>
             LosslessHere(ts[0], kinds) && forall i :: 0 <= i < |ts[1..]| ==> LosslessHere(ts[1..][i], kinds);
    }
  }

  lemma StartedAllFirst(ts: seq<Tree>, kinds: Kinds, turns: Turns)
    requires ts != []
    ensures StartedAll(NormalAll(ts, kinds), kinds, turns)
         == Started(Normal(ts[0], kinds), kinds, turns) + StartedAll(NormalAll(ts[1..], kinds), kinds, turns)
  {
    assert NormalAll(ts, kinds)[1..] == NormalAll(ts[1..], kinds);
    hide Started, Normal;
  }

  /** Loading the saved bytes on a tile gives back the item exactly if nothing in it differs. */
  lemma BackOnTile(t: Tree, rest: seq<Byte>, kinds: Kinds, turns: Turns)
    requires WellTyped(t, kinds) && TurnsAway(turns)
    ensures var r := LoadSpec(Encode(t) + rest, kinds);
            && r.Loaded? && r.item.Some? && r.rest == rest
            && (Started(r.item.value, kinds, turns) == [t] <==> LosslessHere(t, kinds))
  {
    LoadInvertsSave(t, rest, kinds);
    StartedIffLossless(t, kinds, turns);
    hide *;
  }

  // ----- The loading methods ----------------------------------------------------------------

  /** `readAttr` for the entry after its tag */
  method ReadAttr(stream: PropStream, tag: Byte) returns (a: Option<Attr>)
    requires stream.Valid()
    modifies stream
    ensures stream.Valid()
    ensures var r := ReadOne(tag, old(stream.Rest()));
            a == (if r.Some? then Some(r.value.0) else None) && (r.Some? ==> stream.Rest() == r.value.1)
    ensures |stream.Rest()| <= |old(stream.Rest())|
  {
    ghost var s := stream.Rest();
    if FixedSize(tag).Some? {
      var ok, value := stream.ReadBytes(FixedSize(tag).value);
      if !ok { return None; }
      return Some(Fixed(tag, Stored(tag, value)));
    }
    if !TextTag(tag) { return None; }
    var ok, n := stream.Read(2);
    if !ok { return None; }
    var found, text := stream.ReadBytes(n);
    if !found { return None; }
    assert s[2..][..n] == s[2..2 + n] && s[2..][n..] == s[2 + n..];
    return Some(Text(tag, text));
  }

  lemma PrependOne(attrs: seq<Attr>, a: Attr, r: AttrResult)
    ensures Prepend(attrs, Prepend([a], r)) == Prepend(attrs + [a], r)
    ensures Prepend([], r) == r
    ensures r.Attrs? && r.attrs == [] ==> Prepend(attrs, r) == Attrs(attrs, r.count, r.rest)
  {
    if r.Attrs? {
      assert attrs + ([a] + r.attrs) == attrs + [a] + r.attrs;
      assert [] + r.attrs == r.attrs;
      assert r.attrs == [] ==> attrs + r.attrs == attrs;
    }
  }

  /** What the next bytes of an attribute block mean. */
  lemma BlockStep(s: seq<Byte>, container: bool)
    ensures s == [] ==> ReadAttrs(s, container) == Attrs([], 0, s)
    ensures s != [] ==> ValueOf(s[..1]) == s[0]
    ensures s != [] && s[0] == 0 ==> ReadAttrs(s, container) == Attrs([], 0, s[1..])
    ensures s != [] && s[0] == ATTR_CONTAINER_ITEMS && container ==>
      ReadAttrs(s, container) == if |s[1..]| < 4 then AttrError else Attrs([], ValueOf(s[1..][..4]), s[1..][4..])
    ensures s != [] && s[0] != 0 && !(s[0] == ATTR_CONTAINER_ITEMS && container) ==>
      var r := ReadOne(s[0], s[1..]);
      ReadAttrs(s, container) == if r.None? then AttrError else Prepend([r.value.0], ReadAttrs(r.value.1, container))
  {
    if s != [] {
      assert s[..1] == [s[0]] && s[..1][1..] == [];
      if |s| >= 5 { assert s[1..][..4] == s[1..5] && s[1..][4..] == s[5..]; }
      OneShrinks(s[0], s[1..]);
    }
  }

  lemma OneShrinks(tag: Byte, s: seq<Byte>)
    ensures ReadOne(tag, s).Some? ==> |ReadOne(tag, s).value.1| <= |s|
  {
  }

  /** `unserializeAttr` */
  method UnserializeAttr(stream: PropStream, container: bool) returns (ok: bool, attrs: seq<Attr>, count: nat)
    requires stream.Valid()
    modifies stream
    ensures stream.Valid() && |stream.Rest()| <= |old(stream.Rest())|
    ensures ok <==> ReadAttrs(old(stream.Rest()), container).Attrs?
    ensures ok ==> ReadAttrs(old(stream.Rest()), container) == Attrs(attrs, count, stream.Rest())
  {
    hide ReadAttrs, ReadOne, Prepend;
    ghost var s := stream.Rest();
    attrs, count := [], 0;
    PrependNone(ReadAttrs(s, container));
    while true
      invariant stream.Valid() && |stream.Rest()| <= |s|
      invariant ReadAttrs(s, container) == Prepend(attrs, ReadAttrs(stream.Rest(), container))
      decreases |stream.Rest()|
    {
      ghost var before := stream.Rest();
      BlockStep(before, container);
      PrependEnd(attrs, ReadAttrs(before, container));
      var more, tag := stream.Read(1);
      if !more || tag == 0 { return true, attrs, 0; }
      if tag == ATTR_CONTAINER_ITEMS && container {
        ok, count := stream.Read(4);
        return;
      }
      var a := ReadAttr(stream, tag);
      if a.None? { return false, [], 0; }
      PrependOne(attrs, a.value, ReadAttrs(stream.Rest(), container));
      attrs := attrs + [a.value];
    }
  }

  lemma PrependNone(r: AttrResult)
    ensures Prepend([], r) == r
  {
    if r.Attrs? { assert [] + r.attrs == r.attrs; }
  }

  lemma PrependEnd(attrs: seq<Attr>, r: AttrResult)
    ensures r.AttrError? ==> Prepend(attrs, r) == r
    ensures r.Attrs? && r.attrs == [] ==> Prepend(attrs, r) == Attrs(attrs, r.count, r.rest)
  {
    assert attrs + [] == attrs;
  }

  /** `loadItem` for a parent that is no tile: the list is what the parent holds. */
  method LoadItem(stream: PropStream, kinds: Kinds, list0: seq<Tree>) returns (ok: bool, list: seq<Tree>)
    requires stream.Valid()
    modifies stream
    ensures stream.Valid() && |stream.Rest()| <= |old(stream.Rest())|
    ensures ok <==> LoadSpec(old(stream.Rest()), kinds).Loaded?
    ensures ok ==> var r := LoadSpec(old(stream.Rest()), kinds);
              |r.rest| < |old(stream.Rest())| && stream.Rest() == r.rest
              && list == (if r.item.Some? then [r.item.value] else []) + list0
    decreases |stream.Rest()|, 0
  {
    hide ReadAttrs, ValueOf, KidsSpec;
    list := list0;
    ghost var s := stream.Rest();
    var found, id := stream.Read(2);
    if !found { return false, list; }
    if id !in kinds.types.known {
      assert [] + list0 == list0;
      return true, list;
    }
    var good, attrs, count := UnserializeAttr(stream, id in kinds.types.containers);
    if !good { return false, list; }
    if id !in kinds.types.containers {
      return true, [Leaf(Created(id), Whole(kinds, Created(id), attrs))] + list;
    }
    var full, kids := LoadContainer(stream, kinds, count);
    if !full { return false, list; }
    return true, [Box(id, Whole(kinds, id, attrs), kids)] + list;
  }

  /** `loadContainer` */
  method LoadContainer(stream: PropStream, kinds: Kinds, serializationCount: nat) returns (ok: bool, list: seq<Tree>)
    requires stream.Valid()
    modifies stream
    ensures stream.Valid() && |stream.Rest()| <= |old(stream.Rest())|
    ensures ok <==> KidsSpec(old(stream.Rest()), serializationCount, [], kinds).KidsLoaded?
    ensures ok ==> KidsSpec(old(stream.Rest()), serializationCount, [], kinds) == KidsLoaded(list, stream.Rest())
    decreases |stream.Rest()|, 1
  {
    hide LoadSpec, ValueOf;
    ghost var s := stream.Rest();
    var left := serializationCount;
    list := [];
    while left > 0
      invariant stream.Valid() && |stream.Rest()| <= |s|
      invariant KidsSpec(s, serializationCount, [], kinds) == KidsSpec(stream.Rest(), left, list, kinds)
    {
      ok, list := LoadItem(stream, kinds, list);
      if !ok { return; }
      left := left - 1;
    }
    ghost var end := stream.Rest();
    OneByte(end);
    var more, endAttr := stream.Read(1);
    ok := more && endAttr == 0;
  }

  /** `loadItem` for a tile, of an item that is created anew: the decay of what was loaded is started. */
  method LoadOnTile(stream: PropStream, kinds: Kinds, turns: Turns) returns (ok: bool, items: seq<Tree>)
    requires stream.Valid()
    modifies stream
    ensures stream.Valid()
    ensures ok <==> LoadSpec(old(stream.Rest()), kinds).Loaded?
    ensures ok ==> var r := LoadSpec(old(stream.Rest()), kinds);
              && stream.Rest() == r.rest
              && items == if r.item.Some? then Started(r.item.value, kinds, turns) else []
  {
    hide LoadSpec, Started;
    items := [];
    var list;
    ok, list := LoadItem(stream, kinds, []);
    if ok && list != [] {
      items := Started(list[0], kinds, turns);
    }
  }

  lemma OneByte(s: seq<Byte>)
    ensures s != [] ==> ValueOf(s[..1]) == s[0]
  {
    if s != [] { assert s[..1] == [s[0]] && s[..1][1..] == []; }
  }
}
