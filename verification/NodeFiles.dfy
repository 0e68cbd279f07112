/** The node files of the map loader: a tree of nodes in which three byte values are markers and
    property bytes equal to a marker are escaped. */
module NodeFiles {
  import opened PropStreams

  const ESCAPE: Byte := 0xFD
  const START: Byte := 0xFE
  const END: Byte := 0xFF

  const IDENTIFIER_SIZE := 4
  const MINIMAL_SIZE := 7

  datatype Result<T> = Ok(value: T) | InvalidFormat

  // ----- Trees and their encoding -----------------------------------------------------------

  datatype Tree = Tree(kind: Byte, props: seq<Byte>, children: seq<Tree>)

  predicate Marker(b: Byte) {
    b == ESCAPE || b == START || b == END
  }

  function Escape(props: seq<Byte>): seq<Byte> {
    if props == [] then []
    else (if Marker(props[0]) then [ESCAPE, props[0]] else [props[0]]) + Escape(props[1..])
  }

  function Encode(t: Tree): seq<Byte>
    decreases t, 1
  {
    [START, t.kind] + Body(t)
  }

  /** What follows the type byte of a node. */
  function Body(t: Tree): seq<Byte>
    decreases t, 0
  {
    Escape(t.props) + EncodeAll(t.children) + [END]
  }

  function EncodeAll(ts: seq<Tree>): seq<Byte>
    decreases ts, 2
  {
    if ts == [] then [] else Encode(ts[0]) + EncodeAll(ts[1..])
  }

  // ----- The parser -------------------------------------------------------------------------

  /** A parsed node: where its property bytes are, still escaped, and its children. */
  datatype Node = Node(kind: Byte, propsBegin: nat, propsEnd: nat, children: seq<Node>)

  /** Where the first child or the end of the node stops its properties. */
  function Closing(n: Node, i: nat): Node {
    if n.children == [] then n.(propsEnd := i) else n
  }

  /** What `parseTree` makes of the bytes from i on; the last node of the stack is the open one. */
  function Run(b: seq<Byte>, i: nat, stack: seq<Node>, root: Node): Result<Node>
    requires i <= |b|
    decreases |b| - i
  {
    if i == |b| then (if stack == [] then Ok(root) else InvalidFormat)
    else if b[i] == START then
      if stack == [] || i + 1 == |b| then InvalidFormat
      else
        var top := |stack| - 1;
        Run(b, i + 2, stack[top := Closing(stack[top], i)] + [Node(b[i + 1], i + 2, i + 2, [])], root)
    else if b[i] == END then
      if stack == [] then InvalidFormat
      else
        var top := |stack| - 1;
        var node := Closing(stack[top], i);
        if top == 0 then Run(b, i + 1, [], node)
        else Run(b, i + 1, stack[..top][top - 1 := stack[top - 1].(children := stack[top - 1].children + [node])], root)
    else if b[i] == ESCAPE then
      if i + 1 == |b| then InvalidFormat else Run(b, i + 2, stack, root)
    else Run(b, i + 1, stack, root)
  }

  /** `parseTree` on the contents of a file. */
  function Parse(b: seq<Byte>): Result<Node>
    requires |b| > MINIMAL_SIZE
  {
    if b[IDENTIFIER_SIZE] != START then InvalidFormat
    else
      var root := Node(b[5], 6, 6, []);
      Run(b, 6, [root], root)
  }

  /** The constructor's checks, then the parser. */
  function LoadSpec(b: seq<Byte>, accepted: seq<Byte>): Result<Node>
  {
    if |b| <= MINIMAL_SIZE then InvalidFormat
    else if b[..IDENTIFIER_SIZE] != accepted && b[..IDENTIFIER_SIZE] != [0, 0, 0, 0] then InvalidFormat
    else Parse(b)
  }

  /** `getProps` drops every escape that is not itself escaped. */
  function Unescape(s: seq<Byte>, lastEscaped: bool): seq<Byte> {
    if s == [] then []
    else
      var escape := s[0] == ESCAPE && !lastEscaped;
      (if escape then [] else [s[0]]) + Unescape(s[1..], escape)
  }

  /** The bytes from `begin` to `it` have been copied into the buffer. */
  ghost predicate Partly(b: seq<Byte>, begin: nat, it: nat, end: nat, buffer: seq<Byte>, lastEscaped: bool) {
    begin <= it <= end <= |b| && Unescape(b[begin..end], false) == buffer + Unescape(b[it..end], lastEscaped)
  }

  lemma PartlyEnds(b: seq<Byte>, begin: nat, end: nat)
    requires begin <= end <= |b|
    ensures Partly(b, begin, begin, end, [], false)
  {
  }

  lemma PartlyDone(b: seq<Byte>, begin: nat, end: nat, buffer: seq<Byte>, lastEscaped: bool)
    requires Partly(b, begin, end, end, buffer, lastEscaped)
    ensures begin <= end <= |b| && buffer == Unescape(b[begin..end], false)
  {
  }

  lemma PartlyStep(b: seq<Byte>, begin: nat, it: nat, end: nat, buffer: seq<Byte>, lastEscaped: bool)
    requires Partly(b, begin, it, end, buffer, lastEscaped) && it < end
    ensures it < |b|
    ensures
      var escape := b[it] == ESCAPE && !lastEscaped;
      Partly(b, begin, it + 1, end, if escape then buffer else buffer + [b[it]], escape)
  {
    assert b[it..end][1..] == b[it + 1..end];
  }

  class Loader {
    const fileContents: seq<Byte>
    var root: Node
    var propBuffer: seq<Byte>

    constructor (fileContents: seq<Byte>)
      ensures this.fileContents == fileContents
    {
      this.fileContents := fileContents;
      root := Node(0, 0, 0, []);
      propBuffer := [];
    }

    /** The checks of the constructor and `parseTree`. */
    method Load(accepted: seq<Byte>) returns (r: Result<Node>)
      modifies `root
      ensures r == LoadSpec(fileContents, accepted)
      ensures r.Ok? ==> root == r.value
    {
      if |fileContents| <= MINIMAL_SIZE { return InvalidFormat; }
      var identifier := fileContents[..IDENTIFIER_SIZE];
      if identifier != accepted && identifier != [0, 0, 0, 0] { return InvalidFormat; }
      r := ParseTree();
    }

    method ParseTree() returns (r: Result<Node>)
      requires |fileContents| > MINIMAL_SIZE
      modifies `root
      ensures r == Parse(fileContents)
      ensures r.Ok? ==> root == r.value
    {
      var b := fileContents;
      if b[IDENTIFIER_SIZE] != START { return InvalidFormat; }
      root := Node(b[5], 6, 6, []);
      var stack := [root];
      var it := 6;
      while it != |b|
        invariant 6 <= it <= |b|
        invariant Parse(b) == Run(b, it, stack, root)
        decreases |b| - it
      {
        if b[it] == START {
          if stack == [] { return InvalidFormat; }
          var top := |stack| - 1;
          stack := stack[top := Closing(stack[top], it)];
          it := it + 1;
          if it == |b| { return InvalidFormat; }
          stack := stack + [Node(b[it], it + 1, it + 1, [])];
        } else if b[it] == END {
          if stack == [] { return InvalidFormat; }
          var top := |stack| - 1;
          var node := Closing(stack[top], it);
          stack := stack[..top];
          if top == 0 {
            root := node;
          } else {
            stack := stack[top - 1 := stack[top - 1].(children := stack[top - 1].children + [node])];
          }
        } else if b[it] == ESCAPE {
          it := it + 1;
          if it == |b| { return InvalidFormat; }
        }
        it := it + 1;
      }
      if stack != [] { return InvalidFormat; }
      return Ok(root);
    }

    /** `getProps` */
    method GetProps(node: Node) returns (found: bool)
      requires node.propsBegin <= node.propsEnd <= |fileContents|
      modifies `propBuffer
      ensures found <==> node.propsBegin < node.propsEnd
      ensures found ==> propBuffer == Unescape(fileContents[node.propsBegin..node.propsEnd], false)
      ensures !found ==> propBuffer == old(propBuffer)
    {
      if node.propsBegin == node.propsEnd { return false; }
      propBuffer := [];
      var lastEscaped := false;
      var it := node.propsBegin;
      PartlyEnds(fileContents, node.propsBegin, node.propsEnd);
      hide Partly, Unescape;
      while it < node.propsEnd
        invariant node.propsBegin <= it <= node.propsEnd
        invariant Partly(fileContents, node.propsBegin, it, node.propsEnd, propBuffer, lastEscaped)
      {
        PartlyStep(fileContents, node.propsBegin, it, node.propsEnd, propBuffer, lastEscaped);
        var byte := fileContents[it];
        lastEscaped := byte == ESCAPE && !lastEscaped;
        if !lastEscaped {
          propBuffer := propBuffer + [byte];
        }
        it := it + 1;
      }
      PartlyDone(fileContents, node.propsBegin, node.propsEnd, propBuffer, lastEscaped);
      return true;
    }
  }

  // ----- Parsing inverts the encoding -------------------------------------------------------

  /** The bytes s stand at position i. */
  ghost predicate At(b: seq<Byte>, i: nat, s: seq<Byte>) {
    i + |s| <= |b| && b[i..i + |s|] == s
  }

  /** The node is the tree, read off the bytes. */
  ghost predicate Denotes(b: seq<Byte>, n: Node, t: Tree)
    decreases t
  {
    && n.kind == t.kind
    && n.propsBegin <= n.propsEnd <= |b|
    && b[n.propsBegin..n.propsEnd] == Escape(t.props)
    && |n.children| == |t.children|
    && forall k :: 0 <= k < |t.children| ==> Denotes(b, n.children[k], t.children[k])
  }

  ghost predicate DenotesAll(b: seq<Byte>, ns: seq<Node>, ts: seq<Tree>) {
    |ns| == |ts| && forall k :: 0 <= k < |ts| ==> Denotes(b, ns[k], ts[k])
  }

  lemma AtSplit(b: seq<Byte>, i: nat, s: seq<Byte>, t: seq<Byte>)
    requires At(b, i, s + t)
    ensures At(b, i, s) && At(b, i + |s|, t)
  {
    assert b[i..i + |s|] == (s + t)[..|s|];
    assert b[i + |s|..i + |s| + |t|] == (s + t)[|s|..];
  }

  lemma AtFirst(b: seq<Byte>, i: nat, s: seq<Byte>)
    requires At(b, i, s) && s != []
    ensures i < |b| && b[i] == s[0] && At(b, i + 1, s[1..])
  {
    assert s == [s[0]] + s[1..];
    AtSplit(b, i, [s[0]], s[1..]);
    assert b[i..i + 1][0] == b[i];
  }

  /** Property bytes, however escaped, are passed over. */
  lemma {:induction false} RunProps(b: seq<Byte>, i: nat, stack: seq<Node>, root: Node, props: seq<Byte>)
    requires At(b, i, Escape(props))
    ensures Run(b, i, stack, root) == Run(b, i + |Escape(props)|, stack, root)
    decreases |props|
  {
    if props != [] {
      var first := if Marker(props[0]) then [ESCAPE, props[0]] else [props[0]];
      AtSplit(b, i, first, Escape(props[1..]));
      AtFirst(b, i, first);
      if Marker(props[0]) { AtFirst(b, i + 1, first[1..]); }
      RunProps(b, i + |first|, stack, root, props[1..]);
    }
  }

  /** The open node once these children have been read, the first one starting at i. */
  ghost function WithKids(n: Node, i: nat, kids: seq<Node>): Node {
    if kids == [] then n else Closing(n, i).(children := n.children + kids)
  }

  lemma {:induction false} RunNode(b: seq<Byte>, i: nat, stack: seq<Node>, root: Node, t: Tree) returns (n: Node)
    requires At(b, i, Encode(t)) && stack != []
    ensures Denotes(b, n, t)
    ensures Run(b, i, stack, root)
         == Run(b, i + |Encode(t)|, stack[|stack| - 1 := WithKids(stack[|stack| - 1], i, [n])], root)
    decreases t, 1
  {
    var top := |stack| - 1;
    AtSplit(b, i, [START, t.kind], Body(t));
    AtFirst(b, i, [START, t.kind]);
    AtFirst(b, i + 1, [START, t.kind][1..]);
    var stack1 := stack[top := Closing(stack[top], i)];
    var fresh0 := Node(t.kind, i + 2, i + 2, []);
    n := RunBody(b, i + 2, stack1, root, fresh0, t);
    assert (stack1 + [fresh0])[..top + 1] == stack1;
    assert stack1[top := stack1[top].(children := stack1[top].children + [n])]
        == stack[top := WithKids(stack[top], i, [n])];
  }

  /** The rest of a node after its type byte: it is closed and handed to its parent. */
  lemma {:induction false} RunBody(b: seq<Byte>, i: nat, below: seq<Node>, root: Node, open: Node, t: Tree)
    returns (n: Node)
    requires At(b, i, Body(t))
    requires open == Node(t.kind, i, i, [])
    ensures Denotes(b, n, t)
    ensures Run(b, i, below + [open], root) ==
            if below == [] then Run(b, i + |Body(t)|, [], n)
            else
              var top := below[|below| - 1];
              Run(b, i + |Body(t)|, below[|below| - 1 := top.(children := top.children + [n])], root)
    decreases t, 0
  {
    hide Denotes, DenotesAll, Encode, EncodeAll, Escape, At, Run, Closing;
    var e := Escape(t.props);
    AtSplit(b, i, e + EncodeAll(t.children), [END]);
    AtSplit(b, i, e, EncodeAll(t.children));
    RunProps(b, i, below + [open], root, t.props);
    var j := i + |e|;
    var kids := RunKids(b, j, below + [open], root, t.children);
    var k := j + |EncodeAll(t.children)|;
    AtFirst(b, k, [END]);
    n := Node(t.kind, i, j, kids);
    ClosedNode(b, t, i, kids);
    assert (below + [open])[|below| := WithKids(open, j, kids)] == below + [WithKids(open, j, kids)];
    RunEnd(b, k, below, WithKids(open, j, kids), root);
  }

  lemma RunEnd(b: seq<Byte>, k: nat, below: seq<Node>, open: Node, root: Node)
    requires k < |b| && b[k] == END
    ensures Run(b, k, below + [open], root) ==
            if below == [] then Run(b, k + 1, [], Closing(open, k))
            else
              var top := below[|below| - 1];
              Run(b, k + 1, below[|below| - 1 := top.(children := top.children + [Closing(open, k)])], root)
  {
    assert (below + [open])[..|below|] == below;
  }

  /** The node with its properties at i and these children is the tree, and is what its END leaves. */
  lemma ClosedNode(b: seq<Byte>, t: Tree, i: nat, kids: seq<Node>)
    requires At(b, i, Escape(t.props)) && DenotesAll(b, kids, t.children)
    ensures var j := i + |Escape(t.props)|; var k := j + |EncodeAll(t.children)|; var n := Node(t.kind, i, j, kids);
            && Denotes(b, n, t)
            && Closing(WithKids(Node(t.kind, i, i, []), j, kids), k) == n
  {
    assert kids == [] ==> |EncodeAll(t.children)| == 0;
    assert [] + kids == kids;
  }

  lemma {:induction false} RunKids(b: seq<Byte>, i: nat, stack: seq<Node>, root: Node, ts: seq<Tree>)
    returns (ns: seq<Node>)
    requires At(b, i, EncodeAll(ts)) && stack != []
    ensures DenotesAll(b, ns, ts)
    ensures Run(b, i, stack, root)
         == Run(b, i + |EncodeAll(ts)|, stack[|stack| - 1 := WithKids(stack[|stack| - 1], i, ns)], root)
    decreases ts, 2
  {
    hide Denotes, Encode, Run;
    var top := |stack| - 1;
    if ts == [] {
      ns := [];
      assert stack[top := stack[top]] == stack;
    } else {
      AtSplit(b, i, Encode(ts[0]), EncodeAll(ts[1..]));
      var n := RunNode(b, i, stack, root, ts[0]);
      var stack1 := stack[top := WithKids(stack[top], i, [n])];
      var rest := RunKids(b, i + |Encode(ts[0])|, stack1, root, ts[1..]);
      ns := [n] + rest;
      var was := stack[top].children;
      assert was + [n] + rest == was + ns;
      assert WithKids(stack1[top], i + |Encode(ts[0])|, rest) == WithKids(stack[top], i, ns);
      assert stack1[top := WithKids(stack[top], i, ns)] == stack[top := WithKids(stack[top], i, ns)];
    }
  }

  /** A file that holds an encoded tree loads as that tree, unless it is the one node without
      properties and children, whose file is too short. */
  lemma LoadInvertsEncode(id: seq<Byte>, accepted: seq<Byte>, t: Tree)
    requires |id| == IDENTIFIER_SIZE && (id == accepted || id == [0, 0, 0, 0])
    ensures var b := id + Encode(t); var r := LoadSpec(b, accepted);
            if t.props == [] && t.children == [] then r == InvalidFormat
            else r.Ok? && Denotes(b, r.value, t)
  {
    var b := id + Encode(t);
    assert b[..IDENTIFIER_SIZE] == id;
    SmallestNode(t);
    if t.props != [] || t.children != [] {
      assert b[4] == START && b[5] == t.kind;
      assert b[6..6 + |Body(t)|] == Body(t);
      var root := Node(b[5], 6, 6, []);
      var n := RunBody(b, 6, [], root, root, t);
      assert [] + [root] == [root];
    }
  }

  lemma SmallestNode(t: Tree)
    ensures |Encode(t)| >= 3
    ensures |Encode(t)| == 3 <==> t.props == [] && t.children == []
  {
    if t.props != [] { assert |Escape(t.props)| >= 1; }
    if t.children != [] {
      assert EncodeAll(t.children) == Encode(t.children[0]) + EncodeAll(t.children[1..]);
      assert |Encode(t.children[0])| == 2 + |Body(t.children[0])|;
    }
    assert |Encode(t)| == 2 + |Body(t)|;
  }

  lemma UnescapeFirst(x: Byte, rest: seq<Byte>)
    ensures Unescape((if Marker(x) then [ESCAPE, x] else [x]) + rest, false) == [x] + Unescape(rest, false)
  {
    if Marker(x) {
      var s := [ESCAPE, x] + rest;
      assert s[1..] == [x] + rest;
      assert ([x] + rest)[1..] == rest;
    } else {
      assert ([x] + rest)[1..] == rest;
    }
  }

  /** Reading the properties of a node of such a tree gives them back; empty ones are refused. */
  lemma {:induction false} UnescapeInvertsEscape(props: seq<Byte>)
    ensures Unescape(Escape(props), false) == props
    ensures Escape(props) == [] <==> props == []
  {
    if props != [] {
      UnescapeInvertsEscape(props[1..]);
      UnescapeFirst(props[0], Escape(props[1..]));
    }
  }

  // ----- What every accepted file looks like ------------------------------------------------

  /** The last byte position that the properties of a node or of anything in it reach. */
  ghost function Tail(n: Node): nat {
    if n.children == [] then n.propsEnd else Tail(n.children[|n.children| - 1])
  }

  /** Where the next child of a node has to start after, given the k children before it. */
  ghost function Before(n: Node, k: nat): nat
    requires k <= |n.children|
  {
    if k == 0 then n.propsEnd else Tail(n.children[k - 1])
  }

  /** The ranges of a node and of everything in it are in bounds and in order: properties first,
      then the children one after the other, each past the markers that separate it. */
  ghost predicate Ordered(n: Node, hi: nat)
    decreases n
  {
    && n.propsBegin <= n.propsEnd <= hi && Tail(n) <= hi
    && forall k :: 0 <= k < |n.children| ==> n.children[k].propsBegin >= Before(n, k) + 2 && Ordered(n.children[k], hi)
  }

  /** An open node at position i. */
  ghost predicate OpenOk(n: Node, i: nat) {
    if n.children == [] then n.propsBegin <= i else Ordered(n, i)
  }

  /** The open nodes at position i, outermost first: each starts where its parent allows it to. */
  ghost predicate StackOk(stack: seq<Node>, i: nat) {
    && (forall j :: 0 <= j < |stack| ==> OpenOk(stack[j], i))
    && (forall j :: 0 <= j < |stack| - 1 ==> NextOk(stack[j], stack[j + 1], i))
  }

  ghost predicate NextOk(n: Node, next: Node, i: nat) {
    Ordered(n, i) && next.propsBegin >= Before(n, |n.children|) + 2
  }

  lemma {:induction false} OrderedWidens(n: Node, i: nat, j: nat)
    requires Ordered(n, i) && i <= j
    ensures Ordered(n, j)
    decreases n
  {
    forall k | 0 <= k < |n.children|
      ensures Ordered(n.children[k], j)
    {
      OrderedWidens(n.children[k], i, j);
    }
  }

  lemma StackWidens(stack: seq<Node>, i: nat, j: nat)
    requires StackOk(stack, i) && i <= j
    ensures StackOk(stack, j)
  {
    forall k | 0 <= k < |stack|
      ensures OpenOk(stack[k], j)
      ensures k < |stack| - 1 ==> NextOk(stack[k], stack[k + 1], j)
    {
      assert OpenOk(stack[k], i);
      if stack[k].children != [] { OrderedWidens(stack[k], i, j); }
      if k < |stack| - 1 {
        assert NextOk(stack[k], stack[k + 1], i);
        OrderedWidens(stack[k], i, j);
      }
    }
  }

  lemma ClosingOk(n: Node, i: nat)
    requires OpenOk(n, i)
    ensures Ordered(Closing(n, i), i)
  {
  }

  lemma OpensOk(stack: seq<Node>, i: nat, kind: Byte)
    requires StackOk(stack, i) && stack != []
    ensures StackOk(stack[|stack| - 1 := Closing(stack[|stack| - 1], i)] + [Node(kind, i + 2, i + 2, [])], i + 2)
  {
    var top := |stack| - 1;
    ClosingOk(stack[top], i);
    var s1 := stack[top := Closing(stack[top], i)];
    assert StackOk(s1, i) by {
      forall j | 0 <= j < |s1| - 1
        ensures NextOk(s1[j], s1[j + 1], i)
      {
        assert NextOk(stack[j], stack[j + 1], i);
      }
    }
    StackWidens(s1, i, i + 2);
    OrderedWidens(s1[top], i, i + 2);
  }

  lemma ChildAppended(p: Node, n: Node, i: nat)
    requires NextOk(p, n, i) && Ordered(n, i)
    ensures Ordered(p.(children := p.children + [n]), i)
  {
    var q := p.(children := p.children + [n]);
    forall k | 0 <= k < |q.children|
      ensures q.children[k].propsBegin >= Before(q, k) + 2 && Ordered(q.children[k], i)
    {
      assert Before(q, k) == Before(p, k);
    }
  }

  lemma ClosesOk(stack: seq<Node>, i: nat)
    requires StackOk(stack, i) && |stack| >= 2
    ensures var top := |stack| - 1; var p := stack[top - 1];
            StackOk(stack[..top][top - 1 := p.(children := p.children + [Closing(stack[top], i)])], i + 1)
  {
    hide Ordered;
    var top := |stack| - 1;
    var p := stack[top - 1];
    var n := Closing(stack[top], i);
    ClosingOk(stack[top], i);
    assert NextOk(p, stack[top], i);
    var q := p.(children := p.children + [n]);
    ChildAppended(p, n, i);
    var s1 := stack[..top][top - 1 := q];
    forall j | 0 <= j < |s1|
      ensures OpenOk(s1[j], i)
      ensures j < |s1| - 1 ==> NextOk(s1[j], s1[j + 1], i)
    {
      assert OpenOk(stack[j], i);
      if j < |s1| - 1 { assert NextOk(stack[j], stack[j + 1], i); }
    }
    StackWidens(s1, i, i + 1);
  }

  lemma LastCloses(stack: seq<Node>, i: nat, hi: nat)
    requires StackOk(stack, i) && |stack| == 1 && i <= hi
    ensures Ordered(Closing(stack[0], i), hi) && StackOk([], i + 1)
  {
    ClosingOk(stack[0], i);
    OrderedWidens(Closing(stack[0], i), i, hi);
  }

  lemma {:induction false} RunOrdered(b: seq<Byte>, i: nat, stack: seq<Node>, root: Node)
    requires i <= |b| && StackOk(stack, i) && (stack == [] ==> Ordered(root, |b|))
    ensures Run(b, i, stack, root).Ok? ==> Ordered(Run(b, i, stack, root).value, |b|)
    decreases |b| - i
  {
    hide StackOk, Ordered, Closing;
    if i < |b| {
      if b[i] == START {
        if stack != [] && i + 1 < |b| {
          OpensOk(stack, i, b[i + 1]);
          var inner := Node(b[i + 1], i + 2, i + 2, []);
          RunOrdered(b, i + 2, stack[|stack| - 1 := Closing(stack[|stack| - 1], i)] + [inner], root);
        }
      } else if b[i] == END {
        if stack != [] {
          var top := |stack| - 1;
          if top == 0 {
            LastCloses(stack, i, |b|);
            RunOrdered(b, i + 1, [], Closing(stack[0], i));
          } else {
            ClosesOk(stack, i);
            var p, node := stack[top - 1], Closing(stack[top], i);
            RunOrdered(b, i + 1, stack[..top][top - 1 := p.(children := p.children + [node])], root);
          }
        }
      } else if b[i] == ESCAPE {
        if i + 1 < |b| {
          StackWidens(stack, i, i + 2);
          RunOrdered(b, i + 2, stack, root);
        }
      } else {
        StackWidens(stack, i, i + 1);
        RunOrdered(b, i + 1, stack, root);
      }
    }
  }

  /** Whatever the bytes, loading either fails or yields a tree whose ranges are in bounds and in order. */
  lemma LoadedInOrder(b: seq<Byte>, accepted: seq<Byte>)
    ensures LoadSpec(b, accepted).Ok? ==> Ordered(LoadSpec(b, accepted).value, |b|)
  {
    if |b| > MINIMAL_SIZE {
      var root := Node(b[5], 6, 6, []);
      RunOrdered(b, 6, [root], root);
    }
  }
}
