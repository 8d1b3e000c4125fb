/**
 The flattened device tree (lib/libfdt): what a structure block and a strings block say.

 Sections 5.4 and 5.5 of the Devicetree Specification v0.4: a structure block is a row of
 tagged tokens, each padded to four bytes; a property names a string in the strings block.
 */
module Fdt {
  import opened Wrappers

  type Byte = x: int | 0 <= x < 256

  const FDT_BEGIN_NODE: nat := 1
  const FDT_END_NODE: nat := 2
  const FDT_PROP: nat := 3
  const FDT_NOP: nat := 4
  const FDT_END: nat := 9
  const FDT_ERR_NOTFOUND: int := 1
  const FDT_ERR_BADOFFSET: int := 4
  const FDT_ERR_TRUNCATED: int := 8
  const FDT_ERR_BADSTRUCTURE: int := 11
  const U32: nat := 0x1_0000_0000
  const INT_MAX: int := 0x7FFF_FFFF

  /** The header fields that locate the blocks. */
  datatype Header = Header(total: nat, offStruct: nat, sizeStruct: nat, offStrings: nat, sizeStrings: nat)

  datatype Token = Begin(name: seq<Byte>) | Prop(name: seq<Byte>, value: seq<Byte>) | End

  /** `FDT_TAGALIGN` */
  function Align4(n: int): (r: int)
    ensures n <= r < n + 4
  {
    (n + 3) / 4 * 4
  }

  function Size(t: Token): (n: nat)
    ensures n >= 4
  {
    match t
    case Begin(name) => 4 + Align4(|name| + 1)
    case Prop(_, value) => 12 + Align4(|value|)
    case End => 4
  }

  function Tag(t: Token): (n: nat) {
    match t
    case Begin(_) => FDT_BEGIN_NODE
    case Prop(_, _) => FDT_PROP
    case End => FDT_END_NODE
  }

  // ----- Words -----

  /** `fdt32_to_cpu` of the word at o */
  function Load(b: seq<Byte>, o: nat): (n: nat)
    requires o + 4 <= |b|
    ensures n < U32
  {
    (b[o] as int) * 0x100_0000 + (b[o + 1] as int) * 0x1_0000 + (b[o + 2] as int) * 0x100 + b[o + 3] as int
  }

  /** `cpu_to_fdt32` */
  function Word(n: nat): (w: seq<Byte>)
    requires n < U32
    ensures |w| == 4
  {
    [n / 0x100_0000, n / 0x1_0000 % 0x100, n / 0x100 % 0x100, n % 0x100]
  }

  lemma LoadWord(b: seq<Byte>, o: nat, n: nat)
    requires o + 4 <= |b| && n < U32 && b[o..o + 4] == Word(n)
    ensures Load(b, o) == n
  {
    var w := b[o..o + 4];
    assert w[0] == b[o] && w[1] == b[o + 1] && w[2] == b[o + 2] && w[3] == b[o + 3];
    Digits(n);
  }

  lemma Digits(n: nat)
    requires n < U32
    ensures n / 0x100_0000 * 0x100_0000 + n / 0x1_0000 % 0x100 * 0x1_0000 + n / 0x100 % 0x100 * 0x100 + n % 0x100 == n
  {
    var m := n / 0x100;
    var l := m / 0x100;
    assert n == m * 0x100 + n % 0x100;
    assert m == l * 0x100 + m % 0x100;
    assert l == n / 0x1_0000;
    assert l == l / 0x100 * 0x100 + l % 0x100;
    assert l / 0x100 == n / 0x100_0000;
  }

  /** Two buffers agree from lo to hi. */
  ghost predicate Agree(b: seq<Byte>, b': seq<Byte>, lo: nat, hi: nat) {
    |b'| == |b| && forall i {:trigger b'[i]} :: lo <= i < hi && i < |b| ==> b'[i] == b[i]
  }

  // ----- Tokens in a buffer -----

  ghost predicate Text(s: seq<Byte>) {
    forall i :: 0 <= i < |s| ==> s[i] != 0
  }

  /** A string without NUL stands at o, and NUL behind it, short of end. */
  ghost predicate NameAt(b: seq<Byte>, o: nat, s: seq<Byte>, end: nat) {
    && Text(s) && o + |s| + 1 <= end <= |b|
    && (forall i {:trigger s[i]} {:trigger b[o + i]} :: 0 <= i < |s| ==> b[o + i] == s[i])
    && b[o + |s|] == 0
  }

  ghost predicate BytesAt(b: seq<Byte>, o: nat, s: seq<Byte>) {
    o + |s| <= |b| && forall i {:trigger s[i]} {:trigger b[o + i]} :: 0 <= i < |s| ==> b[o + i] == s[i]
  }

  /** A token stands at o; what its padding holds does not matter. */
  ghost predicate TokAt(b: seq<Byte>, o: nat, t: Token, nameoff: nat) {
    && o + Size(t) <= |b| && Load(b, o) == Tag(t)
    && match t
       case Begin(name) => NameAt(b, o + 4, name, o + Size(t))
       case Prop(_, value) => Load(b, o + 4) == |value| && Load(b, o + 8) == nameoff && BytesAt(b, o + 12, value)
       case End => true
  }

  lemma TokFrame(b: seq<Byte>, b': seq<Byte>, o: nat, t: Token, nameoff: nat)
    requires TokAt(b, o, t, nameoff) && Agree(b, b', o, o + Size(t))
    ensures TokAt(b', o, t, nameoff)
  {
  }

  /** Where token k begins. */
  ghost function Pos(toks: seq<Token>, k: nat): (n: nat)
    requires k <= |toks|
  {
    if k == 0 then 0 else Pos(toks, k - 1) + Size(toks[k - 1])
  }

  lemma {:induction false} PosMono(toks: seq<Token>, i: nat, j: nat)
    requires i <= j <= |toks|
    ensures Pos(toks, i) <= Pos(toks, j)
    ensures i < j ==> Pos(toks, i) + Size(toks[i]) <= Pos(toks, j)
    decreases j
  {
    if i < j {
      PosMono(toks, i, j - 1);
    }
  }

  lemma {:induction false} PosSnoc(toks: seq<Token>, t: Token, k: nat)
    requires k <= |toks|
    ensures Pos(toks + [t], k) == Pos(toks, k)
  {
    if k > 0 {
      PosSnoc(toks, t, k - 1);
    }
  }

  lemma {:induction false} PosAligned(toks: seq<Token>, k: nat)
    requires k <= |toks|
    ensures Pos(toks, k) % 4 == 0
  {
    if k > 0 {
      PosAligned(toks, k - 1);
    }
  }

  ghost predicate InRow(b: seq<Byte>, base: nat, toks: seq<Token>, offs: seq<nat>, k: nat)
    requires k < |toks| == |offs|
  {
    TokAt(b, base + Pos(toks, k), toks[k], offs[k])
  }

  /** The tokens stand in a row from base on. */
  ghost predicate Row(b: seq<Byte>, base: nat, toks: seq<Token>, offs: seq<nat>) {
    |offs| == |toks| && forall k :: 0 <= k < |toks| ==> InRow(b, base, toks, offs, k)
  }

  lemma RowFrame(b: seq<Byte>, b': seq<Byte>, base: nat, toks: seq<Token>, offs: seq<nat>)
    requires Row(b, base, toks, offs) && Agree(b, b', base, base + Pos(toks, |toks|))
    ensures Row(b', base, toks, offs)
  {
    forall k | 0 <= k < |toks|
      ensures InRow(b', base, toks, offs, k)
    {
      assert InRow(b, base, toks, offs, k);
      PosMono(toks, k, |toks|);
      TokFrame(b, b', base + Pos(toks, k), toks[k], offs[k]);
    }
  }

  lemma RowSnoc(b: seq<Byte>, base: nat, toks: seq<Token>, offs: seq<nat>, t: Token, nameoff: nat)
    requires Row(b, base, toks, offs) && TokAt(b, base + Pos(toks, |toks|), t, nameoff)
    ensures Row(b, base, toks + [t], offs + [nameoff]) && Pos(toks + [t], |toks| + 1) == Pos(toks, |toks|) + Size(t)
  {
    var toks', offs' := toks + [t], offs + [nameoff];
    PosSnoc(toks, t, |toks|);
    forall k | 0 <= k < |toks'|
      ensures InRow(b, base, toks', offs', k)
    {
      if k < |toks| {
        assert InRow(b, base, toks, offs, k);
        PosSnoc(toks, t, k);
      }
    }
  }

  // ----- The strings of the properties -----

  /** The name of a property while the tree is written: below `end`, as far as the offset says. */
  ghost predicate NameBelow(b: seq<Byte>, end: nat, size: nat, t: Token, off: nat) {
    t.Prop? ==> U32 - size <= off < U32 && U32 - off <= end && NameAt(b, end - (U32 - off), t.name, end)
  }

  ghost predicate Below(b: seq<Byte>, end: nat, size: nat, toks: seq<Token>, offs: seq<nat>) {
    |offs| == |toks| && size <= U32 && forall k {:trigger toks[k]} :: 0 <= k < |toks| ==>
      NameBelow(b, end, size, toks[k], offs[k])
  }

  lemma BelowFrame(b: seq<Byte>, b': seq<Byte>, end: nat, size: nat, size': nat, toks: seq<Token>, offs: seq<nat>)
    requires Below(b, end, size, toks, offs) && size <= size' <= U32 && size <= end <= |b|
             && Agree(b, b', end - size, end)
    ensures Below(b', end, size', toks, offs)
  {
    forall k | 0 <= k < |toks|
      ensures NameBelow(b', end, size', toks[k], offs[k])
    {
      assert NameBelow(b, end, size, toks[k], offs[k]);
    }
  }

  lemma BelowSnoc(b: seq<Byte>, end: nat, size: nat, toks: seq<Token>, offs: seq<nat>, t: Token, off: nat)
    requires Below(b, end, size, toks, offs) && NameBelow(b, end, size, t, off)
    ensures Below(b, end, size, toks + [t], offs + [off])
  {
    forall k | 0 <= k < |toks| + 1
      ensures NameBelow(b, end, size, (toks + [t])[k], (offs + [off])[k])
    {
    }
  }

  // ----- Walking a structure block -----

  /** A blob of which the header tells the truth about its length alone. */
  ghost predicate Sane(h: Header, b: seq<Byte>) {
    h.total <= |b| && h.total <= INT_MAX && h.offStruct < U32 && h.sizeStruct < U32 && h.offStrings < U32
      && h.sizeStrings < U32
  }

  /** Unsigned and signed 32-bit arithmetic */
  function Wrap(x: int): (n: nat)
    ensures n < U32 && (0 <= x < U32 ==> n == x)
  {
    x % U32
  }

  function Signed(x: int): (n: int)
    ensures -INT_MAX - 1 <= n <= INT_MAX && (-INT_MAX - 1 <= x <= INT_MAX ==> n == x)
  {
    var w: int := Wrap(x);
    if w <= INT_MAX then w else w - U32
  }

  /** `fdt_offset_ptr`: where len bytes at an offset of the structure block are, if they are inside. */
  function OffsetPtr(h: Header, offset: int, len: nat): (r: Option<nat>)
    requires h.offStruct < U32 && h.total <= INT_MAX && offset <= INT_MAX && len < U32
    ensures r.Some? <==> 0 <= offset && h.offStruct + offset + len <= h.total && offset + len <= h.sizeStruct
    ensures r.Some? ==> r.value == h.offStruct + offset
  {
    var at := Wrap(offset + h.offStruct);
    if offset < 0 then None
    else if at < offset || Wrap(at + len) < at || Wrap(at + len) > h.total then None
    else if Wrap(offset + len) < offset || Wrap(offset + len) > h.sizeStruct then None
    else Some(h.offStruct + offset)
  }

  /** The offset behind the NUL that ends a name. */
  ghost function NameEnd(h: Header, b: seq<Byte>, o: nat): (r: Option<nat>)
    requires Sane(h, b) && o <= INT_MAX
    ensures r.Some? ==> o < r.value && h.offStruct + r.value <= h.total
    decreases INT_MAX - o
  {
    if OffsetPtr(h, o, 1).None? then None
    else if b[h.offStruct + o] == 0 then Some(o + 1)
    else NameEnd(h, b, o + 1)
  }

  /** The offset behind a property's value. */
  ghost function PropEnd(h: Header, b: seq<Byte>, o: nat): (r: Option<int>)
    requires Sane(h, b) && o <= INT_MAX
    ensures r.Some? ==> r.value <= INT_MAX
  {
    if OffsetPtr(h, o, 4).None? then None
    else
      var len := Load(b, h.offStruct + o);
      if INT_MAX <= Wrap(len + o) || Wrap(len + o) < o then None else Some(Signed(o + 8 + len))
  }

  ghost function Checked(h: Header, start: nat, o: int, tag: nat): (r: (nat, int))
    requires h.offStruct < U32 && h.total <= INT_MAX && start <= INT_MAX && o <= INT_MAX
  {
    if OffsetPtr(h, start, Wrap(o - start)).None? then (FDT_END, -FDT_ERR_BADSTRUCTURE) else (tag, Align4(o))
  }

  /** `fdt_next_tag` */
  ghost function Next(h: Header, b: seq<Byte>, start: nat): (r: (nat, int))
    requires Sane(h, b) && start <= INT_MAX
  {
    var bad := (FDT_END, -FDT_ERR_BADSTRUCTURE);
    if OffsetPtr(h, start, 4).None? then (FDT_END, -FDT_ERR_TRUNCATED)
    else
      var tag, o := Load(b, h.offStruct + start), start + 4;
      if tag == FDT_BEGIN_NODE then
        var e := NameEnd(h, b, o);
        if e.None? then bad else Checked(h, start, e.value, tag)
      else if tag == FDT_PROP then
        var e := PropEnd(h, b, o);
        if e.None? then bad else Checked(h, start, e.value, tag)
      else if tag == FDT_END || tag == FDT_END_NODE || tag == FDT_NOP then Checked(h, start, o, tag)
      else bad
  }

  lemma {:induction false} NameEnds(h: Header, b: seq<Byte>, o: nat, s: seq<Byte>, i: nat)
    requires Sane(h, b) && o + |s| < INT_MAX && i <= |s| && o + |s| + 1 <= h.sizeStruct
             && h.offStruct + o + |s| + 1 <= h.total
    requires NameAt(b, h.offStruct + o, s, h.total)
    ensures NameEnd(h, b, o + i) == Some(o + |s| + 1)
    decreases |s| - i
  {
    if i < |s| {
      assert b[h.offStruct + o + i] == s[i];
      NameEnds(h, b, o, s, i + 1);
    }
  }

  /** A step over a token. */
  lemma NextTok(h: Header, b: seq<Byte>, start: nat, t: Token, nameoff: nat)
    requires Sane(h, b) && start % 4 == 0 && start + Size(t) <= h.sizeStruct && h.offStruct + h.sizeStruct <= h.total
    requires TokAt(b, h.offStruct + start, t, nameoff)
    ensures Next(h, b, start) == (Tag(t), start + Size(t))
  {
    match t
    case Begin(name) => NextBegin(h, b, start, name, nameoff);
    case Prop(name, value) => NextProp(h, b, start, name, value, nameoff);
    case End => AlignPlus(start, 4);
  }

  lemma NextBegin(h: Header, b: seq<Byte>, start: nat, name: seq<Byte>, nameoff: nat)
    requires Sane(h, b) && start % 4 == 0 && start + Size(Begin(name)) <= h.sizeStruct
             && h.offStruct + h.sizeStruct <= h.total
    requires TokAt(b, h.offStruct + start, Begin(name), nameoff)
    ensures Next(h, b, start) == (FDT_BEGIN_NODE, start + Size(Begin(name)))
  {
    NameEnds(h, b, start + 4, name, 0);
    AlignPlus(start + 4, |name| + 1);
    Fits(h, start, start + 4 + |name| + 1, FDT_BEGIN_NODE);
  }

  lemma NextProp(h: Header, b: seq<Byte>, start: nat, name: seq<Byte>, value: seq<Byte>, nameoff: nat)
    requires Sane(h, b) && start % 4 == 0 && start + Size(Prop(name, value)) <= h.sizeStruct
             && h.offStruct + h.sizeStruct <= h.total
    requires TokAt(b, h.offStruct + start, Prop(name, value), nameoff)
    ensures Next(h, b, start) == (FDT_PROP, start + Size(Prop(name, value)))
  {
    PropEnds(h, b, start + 4, |value|);
    AlignPlus(start + 12, |value|);
    Fits(h, start, start + 12 + |value|, FDT_PROP);
  }

  lemma PropEnds(h: Header, b: seq<Byte>, o: nat, len: nat)
    requires Sane(h, b) && o + 8 + len <= h.sizeStruct && h.offStruct + h.sizeStruct <= h.total
             && Load(b, h.offStruct + o) == len
    ensures PropEnd(h, b, o) == Some(o + 8 + len)
  {
  }

  lemma AlignPlus(start: nat, n: nat)
    requires start % 4 == 0
    ensures Align4(start + n) == start + Align4(n)
  {
    var k := start / 4;
    assert start + n + 3 == 4 * k + (n + 3);
  }

  lemma Fits(h: Header, start: nat, o: nat, tag: nat)
    requires h.offStruct < U32 && h.total <= INT_MAX && start <= o <= h.sizeStruct
             && h.offStruct + h.sizeStruct <= h.total
    ensures Checked(h, start, o, tag) == (tag, Align4(o))
  {
  }

  /** A step over the terminator. */
  lemma NextEnd(h: Header, b: seq<Byte>, start: nat)
    requires Sane(h, b) && start % 4 == 0 && start + 4 <= h.sizeStruct && h.offStruct + h.sizeStruct <= h.total
    requires Load(b, h.offStruct + start) == FDT_END
    ensures Next(h, b, start) == (FDT_END, start + 4)
  {
    AlignPlus(start, 4);
    Fits(h, start, start + 4, FDT_END);
  }

  // ----- Unfinished and finished blobs -----

  /** Tokens from below, strings from above, and neither runs into the other. */
  ghost predicate Writing(h: Header, b: seq<Byte>, toks: seq<Token>, offs: seq<nat>) {
    && Sane(h, b) && h.offStrings == h.total
    && h.offStruct + h.sizeStruct + h.sizeStrings <= h.total && h.sizeStruct == Pos(toks, |toks|)
    && Row(b, h.offStruct, toks, offs) && Below(b, h.total, h.sizeStrings, toks, offs)
  }

  /** The name of a property in the strings block. */
  ghost predicate NameOk(h: Header, b: seq<Byte>, t: Token, off: nat) {
    t.Prop? ==> off < h.sizeStrings && NameAt(b, h.offStrings + off, t.name, h.offStrings + h.sizeStrings)
  }

  ghost predicate Named(h: Header, b: seq<Byte>, toks: seq<Token>, offs: seq<nat>) {
    |offs| == |toks| && forall k {:trigger NameOk(h, b, toks[k], offs[k])} :: 0 <= k < |toks| ==>
      NameOk(h, b, toks[k], offs[k])
  }

  /** The blob that `fdt_finish` leaves: the tokens, the terminator, the strings. */
  ghost predicate Complete(h: Header, b: seq<Byte>, toks: seq<Token>, offs: seq<nat>) {
    && Sane(h, b) && h.sizeStruct == Pos(toks, |toks|) + 4 && h.offStrings == h.offStruct + h.sizeStruct
    && h.total == h.offStrings + h.sizeStrings
    && Row(b, h.offStruct, toks, offs) && Load(b, h.offStruct + Pos(toks, |toks|)) == FDT_END
    && Named(h, b, toks, offs)
  }

  /** Walking over token k of a row. */
  lemma NextInRow(h: Header, b: seq<Byte>, toks: seq<Token>, offs: seq<nat>, k: nat)
    requires Sane(h, b) && Row(b, h.offStruct, toks, offs) && k < |toks|
    requires Pos(toks, |toks|) <= h.sizeStruct && h.offStruct + h.sizeStruct <= h.total
    ensures Pos(toks, k) + Size(toks[k]) <= h.sizeStruct && Next(h, b, Pos(toks, k)) == (Tag(toks[k]), Pos(toks, k + 1))
  {
    assert InRow(b, h.offStruct, toks, offs, k);
    PosMono(toks, k, |toks|);
    PosAligned(toks, k);
    NextTok(h, b, Pos(toks, k), toks[k], offs[k]);
  }

  // ----- Properties of a node -----

  /** A walk goes forward. */
  lemma NextGrows(h: Header, b: seq<Byte>, start: nat)
    requires Sane(h, b) && start <= INT_MAX
    ensures var (tag, next) := Next(h, b, start); tag != FDT_END ==> start < next < h.total + 4
  {
  }

  /** `nextprop_` */
  ghost function PropFrom(h: Header, b: seq<Byte>, start: nat): (r: int)
    requires Sane(h, b) && start <= INT_MAX && h.total + 3 <= INT_MAX
    decreases INT_MAX - start
  {
    NextGrows(h, b, start);
    var (tag, next) := Next(h, b, start);
    if tag == FDT_END then (if next >= 0 then -FDT_ERR_BADSTRUCTURE else next)
    else if tag == FDT_PROP then start
    else if tag == FDT_NOP then PropFrom(h, b, next)
    else -FDT_ERR_NOTFOUND
  }

  /** The first property of that name, if no other token comes before it. */
  ghost function FirstProp(toks: seq<Token>, k: nat, name: seq<Byte>): (r: Option<nat>)
    requires k <= |toks|
    ensures r.Some? ==> k <= r.value < |toks| && toks[r.value].Prop? && toks[r.value].name == name
    decreases |toks| - k
  {
    if k == |toks| || !toks[k].Prop? then None
    else if toks[k].name == name then Some(k)
    else FirstProp(toks, k + 1, name)
  }
}
