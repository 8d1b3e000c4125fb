/** Trees of nodes, and that a blob holds one tree at most. */
module FdtTree {
  import opened Wrappers
  import opened Fdt

  datatype Property = Property(name: seq<Byte>, value: seq<Byte>)

  datatype Tree = Node(name: seq<Byte>, props: seq<Property>, kids: seq<Tree>)

  function PropToks(props: seq<Property>): (toks: seq<Token>) {
    if props == [] then [] else [Prop(props[0].name, props[0].value)] + PropToks(props[1..])
  }

  /** The calls that write a tree: its node begins, has its properties, its children, and ends. */
  function Flatten(t: Tree): (toks: seq<Token>)
    decreases t, 0
  {
    [Begin(t.name)] + PropToks(t.props) + FlattenAll(t.kids) + [End]
  }

  function FlattenAll(ts: seq<Tree>): (toks: seq<Token>)
    decreases ts
  {
    if ts == [] then [] else Flatten(ts[0]) + FlattenAll(ts[1..])
  }

  ghost predicate StartsWithProp(toks: seq<Token>) {
    |toks| > 0 && toks[0].Prop?
  }

  lemma PropStart(p: seq<Property>, r: seq<Token>)
    ensures p == [] ==> PropToks(p) + r == r
    ensures p != [] ==> var s := PropToks(p) + r;
            |s| > 0 && s[0] == Prop(p[0].name, p[0].value) && s[1..] == PropToks(p[1..]) + r
  {
    if p != [] {
      var first, rest := [Prop(p[0].name, p[0].value)], PropToks(p[1..]);
      assert first + rest + r == first + (rest + r);
    }
  }

  /** Properties end where something else begins. */
  lemma {:induction false} PropsUnique(p: seq<Property>, p': seq<Property>, r: seq<Token>, r': seq<Token>)
    requires PropToks(p) + r == PropToks(p') + r' && !StartsWithProp(r) && !StartsWithProp(r')
    ensures p == p' && r == r'
    decreases |p|
  {
    PropStart(p, r);
    PropStart(p', r');
    if p != [] && p' != [] {
      PropsUnique(p[1..], p'[1..], r, r');
      assert p == [p[0]] + p[1..] && p' == [p'[0]] + p'[1..];
    }
  }

  lemma ForestStart(ts: seq<Tree>, r: seq<Token>)
    requires |r| > 0 && r[0] == End
    ensures var s := FlattenAll(ts) + r; |s| > 0 && s[0] == if ts == [] then End else Begin(ts[0].name)
  {
    if ts != [] {
      assert Flatten(ts[0])[0] == Begin(ts[0].name);
    }
  }

  /** A row of tokens is the writing of one tree at most, whatever follows. */
  lemma {:induction false} TreeUnique(t: Tree, t': Tree, r: seq<Token>, r': seq<Token>)
    requires Flatten(t) + r == Flatten(t') + r'
    ensures t == t' && r == r'
    decreases t, 0
  {
    var rest, rest' := FlattenAll(t.kids) + ([End] + r), FlattenAll(t'.kids) + ([End] + r');
    var s, s' := PropToks(t.props) + rest, PropToks(t'.props) + rest';
    assert Flatten(t) + r == [Begin(t.name)] + s;
    assert Flatten(t') + r' == [Begin(t'.name)] + s';
    assert ([Begin(t.name)] + s)[1..] == s && ([Begin(t'.name)] + s')[1..] == s';
    assert ([Begin(t.name)] + s)[0] == ([Begin(t'.name)] + s')[0];
    ForestStart(t.kids, [End] + r);
    ForestStart(t'.kids, [End] + r');
    PropsUnique(t.props, t'.props, rest, rest');
    ForestUnique(t.kids, t'.kids, r, r');
  }

  lemma {:induction false} ForestUnique(ts: seq<Tree>, ts': seq<Tree>, r: seq<Token>, r': seq<Token>)
    requires FlattenAll(ts) + ([End] + r) == FlattenAll(ts') + ([End] + r')
    ensures ts == ts' && r == r'
    decreases ts
  {
    ForestStart(ts, [End] + r);
    ForestStart(ts', [End] + r');
    if ts == [] {
      assert FlattenAll(ts) + ([End] + r) == [End] + r && FlattenAll(ts') + ([End] + r') == [End] + r';
      assert ([End] + r)[1..] == r && ([End] + r')[1..] == r';
    } else {
      var q, q' := FlattenAll(ts[1..]) + ([End] + r), FlattenAll(ts'[1..]) + ([End] + r');
      assert FlattenAll(ts) + ([End] + r) == Flatten(ts[0]) + q;
      assert FlattenAll(ts') + ([End] + r') == Flatten(ts'[0]) + q';
      TreeUnique(ts[0], ts'[0], q, q');
      ForestUnique(ts[1..], ts'[1..], r, r');
      assert ts == [ts[0]] + ts[1..] && ts' == [ts'[0]] + ts'[1..];
    }
  }

  // ----- Nesting -----

  /** How much deeper the nesting is behind tokens k to j than before. */
  ghost function Deeper(toks: seq<Token>, k: nat, j: nat): (d: int)
    requires k <= j <= |toks|
    decreases j
  {
    if k == j then 0 else Deeper(toks, k, j - 1) + if toks[j - 1].Begin? then 1 else if toks[j - 1].End? then -1 else 0
  }

  /** Tokens k to j lie inside the node that was open d levels up, and no node begins there. */
  ghost predicate Inside(toks: seq<Token>, k: nat, j: nat, d: int) {
    k <= j <= |toks| && forall i {:trigger toks[i]} :: k <= i < j ==>
      !toks[i].Begin? && (toks[i].End? ==> d + Deeper(toks, k, i + 1) >= 0)
  }

  lemma InsideMore(toks: seq<Token>, k: nat, j: nat, d: int)
    requires Inside(toks, k, j, d) && j < |toks| && !toks[j].Begin?
    ensures Deeper(toks, k, j + 1) == Deeper(toks, k, j) - if toks[j].End? then 1 else 0
    ensures toks[j].Prop? || d + Deeper(toks, k, j + 1) >= 0 ==> Inside(toks, k, j + 1, d)
  {
  }

  /** Where a walk from token k ends: at the next node, behind the node it left, or at the end. */
  ghost predicate NodeAfter(toks: seq<Token>, k: nat, d: int, j: nat, r: int, depth: int) {
    && Inside(toks, k, j, d)
    && if j == |toks| then r == -FDT_ERR_NOTFOUND
       else depth == d + Deeper(toks, k, j + 1)
            && if toks[j].Begin? then r == Pos(toks, j) else toks[j].End? && depth < 0 && r == Pos(toks, j + 1)
  }

  // ----- From the bytes -----

  lemma NameUnique(b: seq<Byte>, o: nat, s: seq<Byte>, s': seq<Byte>, end: nat, end': nat)
    requires NameAt(b, o, s, end) && NameAt(b, o, s', end')
    ensures s == s'
  {
    assert forall i {:trigger b[o + i]} :: 0 <= i < |s| ==> b[o + i] == s[i] != 0;
    assert forall i {:trigger b[o + i]} :: 0 <= i < |s'| ==> b[o + i] == s'[i] != 0;
    assert forall i :: 0 <= i < |s| == |s'| ==> b[o + i] == s[i] && b[o + i] == s'[i];
  }

  lemma BytesUnique(b: seq<Byte>, o: nat, s: seq<Byte>, s': seq<Byte>)
    requires BytesAt(b, o, s) && BytesAt(b, o, s') && |s| == |s'|
    ensures s == s'
  {
    assert forall i :: 0 <= i < |s| ==> b[o + i] == s[i] && b[o + i] == s'[i];
  }

  /** A place in a finished blob holds one token at most. */
  lemma TokUnique(h: Header, b: seq<Byte>, o: nat, t: Token, t': Token, off: nat, off': nat)
    requires TokAt(b, o, t, off) && TokAt(b, o, t', off') && NameOk(h, b, t, off) && NameOk(h, b, t', off')
    ensures t == t'
  {
    match t
    case Begin(name) => NameUnique(b, o + 4, name, t'.name, o + Size(t), o + Size(t'));
    case Prop(name, value) =>
      BytesUnique(b, o + 12, value, t'.value);
      NameUnique(b, h.offStrings + off, name, t'.name, h.offStrings + h.sizeStrings, h.offStrings + h.sizeStrings);
    case End =>
  }

  lemma {:induction false} PosSame(toks: seq<Token>, toks': seq<Token>, k: nat)
    requires k <= |toks| && k <= |toks'| && forall j :: 0 <= j < k ==> toks[j] == toks'[j]
    ensures Pos(toks, k) == Pos(toks', k)
  {
    if k > 0 {
      PosSame(toks, toks', k - 1);
    }
  }

  lemma {:induction false} RowsAgree(h: Header, b: seq<Byte>, toks: seq<Token>, offs: seq<nat>, toks': seq<Token>,
                                     offs': seq<nat>, k: nat)
    requires Complete(h, b, toks, offs) && Complete(h, b, toks', offs') && k <= |toks|
    ensures k <= |toks'| && forall j :: 0 <= j < k ==> toks[j] == toks'[j]
    decreases k
  {
    if k > 0 {
      var j := k - 1;
      RowsAgree(h, b, toks, offs, toks', offs', j);
      PosSame(toks, toks', j);
      assert InRow(b, h.offStruct, toks, offs, j);
      assert NameOk(h, b, toks[j], offs[j]);
      if j < |toks'| {
        assert InRow(b, h.offStruct, toks', offs', j);
        assert NameOk(h, b, toks'[j], offs'[j]);
        TokUnique(h, b, h.offStruct + Pos(toks, j), toks[j], toks'[j], offs[j], offs'[j]);
      }
    }
  }

  /** A finished blob reads as one tree at most: the one that was written. */
  lemma BlobIsOneTree(h: Header, b: seq<Byte>, t: Tree, offs: seq<nat>, t': Tree, offs': seq<nat>)
    requires Complete(h, b, Flatten(t), offs) && Complete(h, b, Flatten(t'), offs')
    ensures t == t'
  {
    var toks, toks' := Flatten(t), Flatten(t');
    RowsAgree(h, b, toks, offs, toks', offs', |toks|);
    RowsAgree(h, b, toks', offs', toks, offs, |toks'|);
    assert toks == toks';
    assert toks + [] == toks' + [];
    TreeUnique(t, t', [], []);
  }
}
