/** Writing a tree call by call, and reading it back by way of nodes, subnodes and properties (lib/libfdt). */
module FdtReader {
  import opened Wrappers
  import opened Fdt
  import opened FdtTree
  import opened FdtCode

  // ----- Where a tree stands among the tokens -----

  ghost predicate Part(toks: seq<Token>, k: nat, s: seq<Token>) {
    k + |s| <= |toks| && toks[k..k + |s|] == s
  }

  lemma PartSplit(toks: seq<Token>, k: nat, s: seq<Token>, s': seq<Token>)
    requires Part(toks, k, s + s')
    ensures Part(toks, k, s) && Part(toks, k + |s|, s')
  {
    assert toks[k..k + |s|] == (s + s')[..|s|];
    assert toks[k + |s|..k + |s| + |s'|] == (s + s')[|s|..];
  }

  lemma PartFirst(toks: seq<Token>, k: nat, t: Token, s: seq<Token>)
    requires Part(toks, k, [t] + s)
    ensures k < |toks| && toks[k] == t && Part(toks, k + 1, s)
  {
    PartSplit(toks, k, [t], s);
    assert toks[k] == toks[k..k + 1][0];
  }

  /** The parts of a node */
  lemma TreeParts(toks: seq<Token>, k: nat, t: Tree)
    requires Part(toks, k, Flatten(t))
    ensures var p := |t.props|; var e := k + 1 + p + |FlattenAll(t.kids)|;
            && e + 1 == k + |Flatten(t)| <= |toks| && toks[k] == Begin(t.name) && toks[e] == End
            && Part(toks, k + 1, PropToks(t.props)) && Part(toks, k + 1 + p, FlattenAll(t.kids))
  {
    PropCount(t.props);
    FourParts(toks, k, Begin(t.name), PropToks(t.props), FlattenAll(t.kids), End);
  }

  lemma FourParts(toks: seq<Token>, k: nat, first: Token, p: seq<Token>, f: seq<Token>, last: Token)
    requires Part(toks, k, [first] + p + f + [last])
    ensures var e := k + 1 + |p| + |f|;
            e < |toks| && toks[k] == first && toks[e] == last && Part(toks, k + 1, p) && Part(toks, k + 1 + |p|, f)
  {
    PartSplit(toks, k, [first] + p + f, [last]);
    PartSplit(toks, k, [first] + p, f);
    PartFirst(toks, k, first, p);
    PartFirst(toks, k + 1 + |p| + |f|, last, []);
  }

  lemma {:induction false} PropCount(props: seq<Property>)
    ensures |PropToks(props)| == |props|
  {
    if props != [] {
      PropCount(props[1..]);
    }
  }

  lemma {:induction false} PropsAt(toks: seq<Token>, k: nat, props: seq<Property>, i: nat)
    requires Part(toks, k, PropToks(props)) && i < |props|
    ensures k + i < |toks| && toks[k + i] == Prop(props[i].name, props[i].value)
    decreases i
  {
    PartFirst(toks, k, Prop(props[0].name, props[0].value), PropToks(props[1..]));
    if i > 0 {
      PropsAt(toks, k + 1, props[1..], i - 1);
    }
  }

  // ----- How deep the nodes of a tree are -----

  lemma {:induction false} DeeperSplit(toks: seq<Token>, k: nat, i: nat, j: nat)
    requires k <= i <= j <= |toks|
    ensures Deeper(toks, k, j) == Deeper(toks, k, i) + Deeper(toks, i, j)
    decreases j
  {
    if i < j {
      DeeperSplit(toks, k, i, j - 1);
    }
  }

  lemma {:induction false} PropsLevel(toks: seq<Token>, k: nat, props: seq<Property>, n: nat)
    requires Part(toks, k, PropToks(props)) && n <= |props|
    ensures k + n <= |toks| && Deeper(toks, k, k + n) == 0
    decreases n
  {
    if n > 0 {
      PropsLevel(toks, k, props, n - 1);
      PropsAt(toks, k, props, n - 1);
    }
  }

  lemma Bracketed(toks: seq<Token>, k: nat, p: nat, e: nat, i: nat, j: nat)
    requires k < p <= e < |toks| && toks[k].Begin? && toks[e].End? && k < j <= e + 1
    requires i == if j <= e then j else e
    requires if j <= p then Deeper(toks, k + 1, j) == 0
             else Deeper(toks, k + 1, p) == 0 && Deeper(toks, p, i) >= 0 && (i == e ==> Deeper(toks, p, i) == 0)
    ensures if j == e + 1 then Deeper(toks, k, j) == 0 else Deeper(toks, k, j) >= 1
  {
    DeeperSplit(toks, k, k + 1, j);
    if p < j {
      DeeperSplit(toks, k + 1, p, i);
      DeeperSplit(toks, k + 1, i, j);
    }
  }

  /** Inside a node the depth is at least one, behind it nought. */
  lemma {:induction false} TreeLevel(toks: seq<Token>, k: nat, t: Tree, j: nat)
    requires Part(toks, k, Flatten(t)) && k < j <= k + |Flatten(t)|
    ensures if j == k + |Flatten(t)| then Deeper(toks, k, j) == 0 else Deeper(toks, k, j) >= 1
    decreases t, 0
  {
    TreeParts(toks, k, t);
    var p, e := k + 1 + |t.props|, k + |Flatten(t)| - 1;
    var i := if j <= e then j else e;
    PropsLevel(toks, k + 1, t.props, if j <= p then j - (k + 1) else |t.props|);
    if p < j {
      ForestLevel(toks, p, t.kids, i);
    }
    Bracketed(toks, k, p, e, i, j);
  }

  lemma {:induction false} ForestLevel(toks: seq<Token>, k: nat, ts: seq<Tree>, j: nat)
    requires Part(toks, k, FlattenAll(ts)) && k <= j <= k + |FlattenAll(ts)|
    ensures Deeper(toks, k, j) >= 0 && (j == k + |FlattenAll(ts)| ==> Deeper(toks, k, j) == 0)
    decreases ts
  {
    if ts != [] {
      var n := |Flatten(ts[0])|;
      PartSplit(toks, k, Flatten(ts[0]), FlattenAll(ts[1..]));
      if k < j <= k + n {
        TreeLevel(toks, k, ts[0], j);
        if j == k + n {
          ForestLevel(toks, k + n, ts[1..], j);
        }
      } else if k + n < j {
        TreeLevel(toks, k, ts[0], k + n);
        ForestLevel(toks, k + n, ts[1..], j);
        DeeperSplit(toks, k, k + n, j);
      }
    }
  }

  // ----- Which node is the next -----

  /** Tokens k on are these properties, and then comes something else. */
  ghost predicate PropsHere(toks: seq<Token>, k: nat, props: seq<Property>) {
    && k + |props| < |toks| && !toks[k + |props|].Prop?
    && forall j {:trigger toks[j]} :: k <= j < k + |props| ==> toks[j] == Prop(props[j - k].name, props[j - k].value)
  }

  /** The children that are left stand at x, and then the node ends. */
  ghost predicate Left(toks: seq<Token>, x: nat, rest: seq<Tree>) {
    Part(toks, x, FlattenAll(rest)) && x + |FlattenAll(rest)| < |toks| && toks[x + |FlattenAll(rest)|] == End
  }

  lemma LeftFirst(toks: seq<Token>, x: nat, rest: seq<Tree>)
    requires Left(toks, x, rest)
    ensures toks[x] == if rest == [] then End else Begin(rest[0].name)
  {
    if rest != [] {
      ForestFirst(toks, x, rest);
    }
  }

  lemma PropsThere(toks: seq<Token>, k: nat, props: seq<Property>)
    requires Part(toks, k, PropToks(props)) && k + |props| < |toks| && !toks[k + |props|].Prop?
    ensures PropsHere(toks, k, props) && Deeper(toks, k, k + |props|) == 0
  {
    PropsLevel(toks, k, props, |props|);
    forall j | k <= j < k + |props|
      ensures toks[j] == Prop(props[j - k].name, props[j - k].value)
    {
      PropsAt(toks, k, props, j - k);
    }
  }

  lemma TreeProps(toks: seq<Token>, k: nat, t: Tree)
    requires Part(toks, k, Flatten(t))
    ensures PropsHere(toks, k + 1, t.props) && Deeper(toks, k + 1, k + 1 + |t.props|) == 0
    ensures toks[k + 1 + |t.props|] == if t.kids == [] then End else Begin(t.kids[0].name)
  {
    TreeParts(toks, k, t);
    LeftFirst(toks, k + 1 + |t.props|, t.kids);
    PropsThere(toks, k + 1, t.props);
  }

  lemma ForestFirst(toks: seq<Token>, k: nat, ts: seq<Tree>)
    requires ts != [] && Part(toks, k, FlattenAll(ts))
    ensures k < |toks| && toks[k] == Begin(ts[0].name) && Part(toks, k, Flatten(ts[0]))
    ensures Part(toks, k + |Flatten(ts[0])|, FlattenAll(ts[1..]))
            && |FlattenAll(ts)| == |Flatten(ts[0])| + |FlattenAll(ts[1..])|
  {
    PartSplit(toks, k, Flatten(ts[0]), FlattenAll(ts[1..]));
    TreeParts(toks, k, ts[0]);
  }

  /** The walk from a node of depth nought: to its first child, or out of it. */
  lemma FirstKid(toks: seq<Token>, k: nat, props: seq<Property>, j: nat, r: int, depth: int)
    requires PropsHere(toks, k, props) && Deeper(toks, k, k + |props|) == 0 && NodeAfter(toks, k, 0, j, r, depth)
    ensures if toks[k + |props|].End? then depth != 1 else depth == 1 && r == Pos(toks, k + |props|)
  {
    var x := k + |props|;
    assert Deeper(toks, k, x + 1) == if toks[x].End? then -1 else 1;
    assert j == x;
  }

  /** A walk from inside a tree goes no further than to what follows it. */
  lemma WalkStops(toks: seq<Token>, k: nat, x: nat, j: nat, i: nat, r: int, depth: int)
    requires k <= j < x < |toks| && !toks[x].Prop? && Deeper(toks, k, x) == 0
    requires NodeAfter(toks, j + 1, Deeper(toks, k, j + 1), i, r, depth)
    ensures j < i <= x
  {
    DeeperSplit(toks, k, j + 1, x + 1);
    assert toks[x].End? ==> Deeper(toks, k, j + 1) + Deeper(toks, j + 1, x + 1) == -1;
  }

  /** Where such a walk goes. */
  lemma WalkLeads(toks: seq<Token>, k: nat, x: nat, j: nat, i: nat, r: int, depth: int)
    requires k <= j < i <= x < |toks| && !toks[x].Prop? && Deeper(toks, k, x) == 0
    requires NodeAfter(toks, j + 1, Deeper(toks, k, j + 1), i, r, depth)
    requires i < x ==> Deeper(toks, k, i) >= 1 && Deeper(toks, k, i + 1) >= 0
    ensures if i < x then depth == Deeper(toks, k, i + 1) > 1 && toks[i].Begin? && r == Pos(toks, i)
            else if toks[x].Begin? then depth == 1 && r == Pos(toks, x) else depth < 1
  {
    DeeperSplit(toks, k, j + 1, i + 1);
  }

  /** The walk from a node inside a tree: to the next node inside, and from the last one to what follows the tree. */
  lemma NextInside(toks: seq<Token>, k: nat, t: Tree, x: nat, j: nat, i: nat, r: int, depth: int)
    requires Part(toks, k, Flatten(t)) && x == k + |Flatten(t)| && k <= j < x < |toks| && toks[j].Begin?
    requires !toks[x].Prop? && NodeAfter(toks, j + 1, Deeper(toks, k, j + 1), i, r, depth)
    ensures j < i <= x
    ensures if i < x then depth == Deeper(toks, k, i + 1) > 1 && toks[i].Begin? && r == Pos(toks, i)
            else if toks[x].Begin? then depth == 1 && r == Pos(toks, x) else depth < 1
  {
    TreeLevel(toks, k, t, x);
    WalkStops(toks, k, x, j, i, r, depth);
    TreeLevel(toks, k, t, i);
    if i < x {
      TreeLevel(toks, k, t, i + 1);
    }
    WalkLeads(toks, k, x, j, i, r, depth);
  }

  // ----- Reading -----

  /** A finished blob, short of the largest */
  ghost predicate Ready(b: Blob)
    reads b, b.buf
  {
    b.Valid() && b.done && b.h.total + 3 <= INT_MAX
  }

  lemma Within(b: Blob, k: nat)
    requires Ready(b) && k <= |b.toks|
    ensures Pos(b.toks, k) < b.h.sizeStruct && b.h.offStruct + b.h.sizeStruct <= b.h.total
  {
    PosMono(b.toks, k, |b.toks|);
  }

  /** `fdt_first_subnode` */
  method FirstSubnode(b: Blob, node: nat, ghost k: nat, ghost t: Tree) returns (r: int)
    requires Ready(b) && Part(b.toks, k, Flatten(t)) && node == Pos(b.toks, k)
    ensures if t.kids == [] then r < 0
            else k + 1 + |t.props| <= |b.toks| && r == Pos(b.toks, k + 1 + |t.props|)
  {
    TreeParts(b.toks, k, t);
    TreeProps(b.toks, k, t);
    Within(b, k);
    var depth;
    ghost var j;
    r, depth, j := b.NextNode(node, 0, k + 1);
    FirstKid(b.toks, k + 1, t.props, j, r, depth);
    if r < 0 || depth != 1 {
      return -FDT_ERR_NOTFOUND;
    }
  }

  /** `fdt_next_subnode`: steps over everything inside the node. */
  method NextSubnode(b: Blob, node: nat, ghost k: nat, ghost t: Tree, ghost x: nat) returns (r: int)
    requires Ready(b) && Part(b.toks, k, Flatten(t)) && node == Pos(b.toks, k)
    requires x == k + |Flatten(t)| && x < |b.toks| && !b.toks[x].Prop?
    ensures if b.toks[x].Begin? then r == Pos(b.toks, x) else r < 0
  {
    TreeParts(b.toks, k, t);
    var depth := 1;
    r := node;
    ghost var j := k;
    while true
      invariant k <= j < x && b.toks[j].Begin? && r == Pos(b.toks, j) && depth == Deeper(b.toks, k, j + 1)
      decreases x - j
    {
      Within(b, j);
      ghost var i;
      r, depth, i := b.NextNode(r, depth, j + 1);
      NextInside(b.toks, k, t, x, j, i, r, depth);
      if r < 0 || depth < 1 {
        return -FDT_ERR_NOTFOUND;
      }
      if depth <= 1 {
        return;
      }
      j := i;
    }
  }

  /** `fdt_get_name` */
  method GetName(b: Blob, node: nat, ghost k: nat) returns (r: Option<seq<Byte>>)
    requires Ready(b) && k < |b.toks| && b.toks[k].Begin? && node == Pos(b.toks, k)
    ensures r == Some(b.toks[k].name)
  {
    Within(b, k);
    assert InRow(b.buf[..], b.h.offStruct, b.toks, b.offs, k);
    var next := b.CheckNode(node, k + 1);
    if next < 0 {
      return None;
    }
    var o := b.h.offStruct + node + 4;
    var end := b.FindNul(o, b.buf.Length - o);
    if end.None? {
      return None;
    }
    ghost var name := b.toks[k].name;
    assert NameAt(b.buf[..], o, b.buf[o..end.value], |b.buf[..]|);
    NameUnique(b.buf[..], o, name, b.buf[o..end.value], o - 4 + Size(b.toks[k]), |b.buf[..]|);
    return Some(b.buf[o..end.value]);
  }

  /** `fdt_getprop_by_offset` */
  method GetPropAt(b: Blob, offset: nat, ghost j: nat) returns (r: Option<Property>)
    requires Ready(b) && j < |b.toks| && b.toks[j].Prop? && offset == Pos(b.toks, j)
    ensures r == Some(Property(b.toks[j].name, b.toks[j].value))
  {
    PropAt(b.h, b.buf[..], b.toks, b.offs, j);
    var o := b.h.offStruct + offset;
    var nameoff := b.LoadAt(o + 8);
    var name := b.GetString(Signed(nameoff));
    NameRead(b.h, b.buf[..], b.toks[j], b.offs[j], name);
    if name.None? {
      return None;
    }
    var len := b.LoadAt(o + 4);
    assert b.buf[o + 12..o + 12 + len] == b.toks[j].value;
    return Some(Property(name.value, b.buf[o + 12..o + 12 + len]));
  }

  /** `fdt_for_each_property_offset` */
  method ReadProps(b: Blob, node: nat, ghost k: nat, ghost props: seq<Property>) returns (r: Option<seq<Property>>)
    requires Ready(b) && k < |b.toks| && b.toks[k].Begin? && node == Pos(b.toks, k) && PropsHere(b.toks, k + 1, props)
    ensures r == Some(props)
  {
    var read := [];
    var offset := b.Following(node, FDT_BEGIN_NODE, k);
    while offset >= 0
      invariant |read| <= |props| && read == props[..|read|]
      invariant if |read| < |props| then offset == Pos(b.toks, k + 1 + |read|) else offset < 0
      decreases |props| - |read|
    {
      ghost var j := k + 1 + |read|;
      var prop := GetPropAt(b, offset, j);
      if prop.None? {
        return None;
      }
      offset := b.Following(offset, FDT_PROP, j);
      read := read + [prop.value];
    }
    assert props[..|props|] == props;
    return Some(read);
  }

  /** The next child begins behind the one before, or the node ends. */
  lemma KidParts(toks: seq<Token>, k: nat, ts: seq<Tree>)
    requires ts != [] && Left(toks, k, ts)
    ensures var x := k + |Flatten(ts[0])|;
            && Part(toks, k, Flatten(ts[0])) && Left(toks, x, ts[1..]) && x < |toks|
            && toks[x] == if |ts| == 1 then End else Begin(ts[1].name)
  {
    var x, rest := k + |Flatten(ts[0])|, ts[1..];
    ForestFirst(toks, k, ts);
    LeftFirst(toks, x, rest);
  }

  /** A node with all that is below it: its name, its properties, and `fdt_for_each_subnode` its children */
  method ReadNode(b: Blob, node: nat, ghost k: nat, ghost t: Tree) returns (r: Option<Tree>)
    requires Ready(b) && Part(b.toks, k, Flatten(t)) && node == Pos(b.toks, k)
    ensures r == Some(t)
    decreases t, 1
  {
    TreeParts(b.toks, k, t);
    TreeProps(b.toks, k, t);
    var name := GetName(b, node, k);
    var props := ReadProps(b, node, k, t.props);
    if name.None? || props.None? {
      return None;
    }
    var kids := ReadKids(b, node, k, t);
    if kids.None? {
      return None;
    }
    return Some(Node(name.value, props.value, kids.value));
  }

  method ReadKids(b: Blob, node: nat, ghost k: nat, ghost t: Tree) returns (r: Option<seq<Tree>>)
    requires Ready(b) && Part(b.toks, k, Flatten(t)) && node == Pos(b.toks, k)
    ensures r == Some(t.kids)
    decreases t, 0
  {
    TreeParts(b.toks, k, t);
    var kids := [];
    var sub := FirstSubnode(b, node, k, t);
    ghost var x: nat, rest := k + 1 + |t.props|, t.kids;
    while sub >= 0
      invariant |kids| <= |t.kids| && kids == t.kids[..|kids|] && rest == t.kids[|kids|..]
      invariant Left(b.toks, x, rest) && if rest == [] then sub < 0 else sub == Pos(b.toks, x)
      decreases |rest|
    {
      var kid;
      kid, sub, x := ReadKid(b, sub, x, rest);
      if kid.None? {
        return None;
      }
      rest, kids := rest[1..], kids + [kid.value];
    }
    assert t.kids[..|t.kids|] == t.kids;
    return Some(kids);
  }

  method ReadKid(b: Blob, sub: nat, ghost x: nat, ghost rest: seq<Tree>)
    returns (kid: Option<Tree>, next: int, ghost y: nat)
    requires Ready(b) && rest != [] && Left(b.toks, x, rest) && sub == Pos(b.toks, x)
    ensures kid == Some(rest[0]) && Left(b.toks, y, rest[1..]) && if |rest| == 1 then next < 0
            else next == Pos(b.toks, y)
    decreases rest[0], 2
  {
    KidParts(b.toks, x, rest);
    y := x + |Flatten(rest[0])|;
    kid := ReadNode(b, sub, x, rest[0]);
    next := NextSubnode(b, sub, x, rest[0], y);
  }

  /** A finished blob reads as the tree that was written. */
  method ReadTree(b: Blob, ghost t: Tree) returns (r: Option<Tree>)
    requires Ready(b) && b.toks == Flatten(t)
    ensures r == Some(t)
  {
    assert b.toks[0..0 + |b.toks|] == b.toks;
    r := ReadNode(b, 0, 0, t);
  }

  // ----- Writing -----

  /** Names without NUL, and values of a length that has a number */
  ghost predicate Writable(t: Token) {
    (t.End? || Text(t.name)) && (t.Prop? ==> |t.value| <= INT_MAX)
  }

  ghost predicate AllWritable(toks: seq<Token>) {
    forall i :: 0 <= i < |toks| ==> Writable(toks[i])
  }

  /** The bytes that a call takes at most */
  function Cost(t: Token): (n: nat) {
    Size(t) + if t.Prop? then |t.name| + 1 else 0
  }

  function Room(toks: seq<Token>): (n: nat) {
    if toks == [] then 0 else Cost(toks[0]) + Room(toks[1..])
  }

  lemma {:induction false} RoomSplit(s: seq<Token>, s': seq<Token>)
    ensures Room(s + s') == Room(s) + Room(s')
  {
    if s == [] {
      assert s + s' == s';
    } else {
      assert (s + s')[1..] == s[1..] + s';
      RoomSplit(s[1..], s');
    }
  }

  /** The blob has room for these tokens, and they can be written. */
  ghost predicate Free(b: Blob, left: seq<Token>)
    reads b, b.buf
  {
    b.Valid() && !b.done && AllWritable(left)
      && b.h.offStruct + b.h.sizeStruct + b.h.sizeStrings + Room(left) <= b.h.total
  }

  lemma FreeSplit(b: Blob, s: seq<Token>, s': seq<Token>)
    requires Free(b, s + s')
    ensures Free(b, s) && AllWritable(s') && Room(s + s') == Room(s) + Room(s')
  {
    RoomSplit(s, s');
    assert forall i :: 0 <= i < |s| ==> (s + s')[i] == s[i];
    assert forall i :: 0 <= i < |s'| ==> (s + s')[|s| + i] == s'[i];
  }

  /** The call of one token */
  method WriteToken(b: Blob, t: Token, ghost rest: seq<Token>) returns (r: int)
    requires Free(b, [t] + rest)
    modifies b, b.buf
    ensures r == 0 && Free(b, rest) && b.toks == old(b.toks) + [t] && b.h.total == old(b.h.total)
  {
    FreeSplit(b, [t], rest);
    assert ([t] + rest)[0] == t && Room([t]) == Cost(t);
    match t
    case Begin(name) => r := b.BeginNode(name);
    case Prop(name, value) => r := b.Property(name, value);
    case End => r := b.EndNode();
  }

  /** A tree is written call by call, the blob is finished, and the reader has the tree back. */
  method RoundTrip(t: Tree, size: nat, offStruct: nat, dedup: bool) returns (r: Option<Tree>)
    requires AllWritable(Flatten(t)) && offStruct + Room(Flatten(t)) + 4 <= size && size + 3 <= INT_MAX
    ensures r == Some(t)
  {
    var calls := Flatten(t);
    var b := new Blob(size, offStruct, dedup);
    RoomSplit(calls, [End]);
    assert Room([End]) == 4;
    WriteAll(b, calls);
    var err := b.Finish();
    r := ReadTree(b, t);
  }

  method WriteAll(b: Blob, calls: seq<Token>)
    requires Free(b, calls + [End]) && b.toks == []
    modifies b, b.buf
    ensures Free(b, [End]) && b.toks == calls && b.h.total == old(b.h.total)
  {
    var i := 0;
    assert calls[0..] == calls;
    while i < |calls|
      invariant 0 <= i <= |calls| && Free(b, calls[i..] + [End]) && b.toks == calls[..i] && b.h.total == old(b.h.total)
    {
      assert calls[i..] + [End] == [calls[i]] + (calls[i + 1..] + [End]);
      var err := WriteToken(b, calls[i], calls[i + 1..] + [End]);
      i := i + 1;
    }
    assert calls[i..] + [End] == [End];
  }
}
