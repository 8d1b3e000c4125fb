/** The sequential writer and the reader of device tree blobs (lib/libfdt). */
module FdtCode {
  import opened Wrappers
  import opened Fdt
  import opened FdtTree

  const FDT_ERR_NOSPACE: int := 3
  const FDT_ERR_BADSTATE: int := 7

  /** Nothing but lo to hi changed. */
  ghost predicate Outside(b: seq<Byte>, b': seq<Byte>, lo: nat, hi: nat) {
    |b'| == |b| && forall i {:trigger b'[i]} :: 0 <= i < |b| && !(lo <= i < hi) ==> b'[i] == b[i]
  }

  /** What becomes of a string: its offset, no room for it, or a place in front of the blob. */
  datatype Added = Placed(off: nat) | NoRoom | Astray

  /** No answer of the code: it has written in front of the blob. */
  const ASTRAY: int := 1

  /** The blocks have grown, the strings by that much at most. */
  ghost predicate Grew(h: Header, h': Header, strings: nat, size: nat) {
    h'.total == h.total && h'.offStruct == h.offStruct && h'.sizeStruct == h.sizeStruct + size
    && h.sizeStrings <= h'.sizeStrings <= h.sizeStrings + strings
  }

  /** `done` says which magic number the header has; `dedup` is the flag of `fdt_create_with_flags`. */
  /** An offset of the strings block; while the blob is being written they count backwards from its end. */
  predicate InStrings(h: Header, done: bool, so: int) {
    && h.total < INT_MAX && Wrap(so + h.offStrings) < h.total
    && if done then 0 <= so < h.sizeStrings else so < 0 && Wrap(-so) <= h.sizeStrings
  }

  /** Where a text at such an offset must have ended. */
  function TextEnd(h: Header, done: bool, so: int): (end: nat)
    requires InStrings(h, done, so)
    ensures end <= h.total
  {
    var at, left: nat := Wrap(so + h.offStrings), if done then h.sizeStrings - so else Wrap(-so);
    if left < h.total - at then at + left else h.total
  }

  class Blob {
    const buf: array<Byte>
    const dedup: bool
    var h: Header
    var done: bool
    ghost var toks: seq<Token>
    ghost var offs: seq<nat>

    ghost predicate Valid()
      reads this, buf
    {
      if done then Complete(h, buf[..], toks, offs) else Writing(h, buf[..], toks, offs)
    }

    /** After `fdt_create` and `fdt_finish_reservemap`; the structure block begins at offStruct. */
    constructor (size: nat, offStruct: nat, dedup: bool)
      requires offStruct <= size <= INT_MAX
      ensures Valid() && !done && toks == [] && fresh(buf) && this.dedup == dedup
              && h == Header(size, offStruct, 0, size, 0)
    {
      buf := new Byte[size](i => 0);
      this.dedup := dedup;
      h := Header(size, offStruct, 0, size, 0);
      done := false;
      toks, offs := [], [];
    }

    /** memcpy */
    method Store(o: nat, data: seq<Byte>)
      requires o + |data| <= buf.Length
      modifies buf
      ensures BytesAt(buf[..], o, data) && Outside(old(buf[..]), buf[..], o, o + |data|)
    {
      var i := 0;
      while i < |data|
        invariant 0 <= i <= |data|
        invariant forall k :: 0 <= k < i ==> buf[o + k] == data[k]
        invariant forall k :: 0 <= k < buf.Length && !(o <= k < o + i) ==> buf[k] == old(buf[k])
      {
        buf[o + i] := data[i];
        i := i + 1;
      }
    }

    method StoreWord(o: nat, n: nat)
      requires o + 4 <= buf.Length && n < U32
      modifies buf
      ensures Load(buf[..], o) == n && Outside(old(buf[..]), buf[..], o, o + 4)
    {
      Store(o, Word(n));
      assert buf[..][o..o + 4] == Word(n);
      LoadWord(buf[..], o, n);
    }

    /** `fdt_grab_space_`: room for len bytes more of structure. */
    method Grab(len: nat) returns (r: Option<nat>)
      requires h.offStruct + h.sizeStruct + h.sizeStrings <= h.total
      modifies this`h
      ensures r.Some? <==> old(h.offStruct + h.sizeStruct + h.sizeStrings) + len <= h.total
      ensures r.Some? ==>
              r.value == old(h.offStruct + h.sizeStruct) && h == old(h).(sizeStruct := old(h.sizeStruct) + len)
      ensures r.None? ==> h == old(h)
    {
      var offset := h.sizeStruct;
      var spaceleft := h.total - h.offStruct - h.sizeStrings;
      if offset + len > spaceleft {
        return None;
      }
      h := h.(sizeStruct := offset + len);
      return Some(h.offStruct + offset);
    }

    /** `fdt_begin_node` */
    method BeginNode(name: seq<Byte>) returns (r: int)
      requires Valid() && Text(name)
      modifies this`h, this`toks, this`offs, buf
      ensures Valid() && (r == 0 || r == -FDT_ERR_NOSPACE || r == -FDT_ERR_BADSTATE)
      ensures r == -FDT_ERR_BADSTATE <==> done
      ensures !done ==> (r == 0 <==> old(h.offStruct + h.sizeStruct + h.sizeStrings) + Size(Begin(name)) <= h.total)
      ensures r == 0 ==> toks == old(toks) + [Begin(name)] && Grew(old(h), h, 0, Size(Begin(name)))
      ensures r != 0 ==> toks == old(toks) && h == old(h) && buf[..] == old(buf[..])
    {
      if done {
        return -FDT_ERR_BADSTATE;
      }
      var nh := Grab(4 + Align4(|name| + 1));
      if nh.None? {
        return -FDT_ERR_NOSPACE;
      }
      StoreWord(nh.value, FDT_BEGIN_NODE);
      ghost var b := buf[..];
      Store(nh.value + 4, name + [0]);
      StoredName(buf[..], nh.value + 4, name);
      LoadSame(b, buf[..], nh.value);
      Wrote(old(h), old(buf[..]), buf[..], toks, offs, Begin(name), 0);
      toks, offs := toks + [Begin(name)], offs + [0];
      return 0;
    }

    /** `fdt_end_node` */
    method EndNode() returns (r: int)
      requires Valid()
      modifies this`h, this`toks, this`offs, buf
      ensures Valid() && (r == 0 || r == -FDT_ERR_NOSPACE || r == -FDT_ERR_BADSTATE)
      ensures r == -FDT_ERR_BADSTATE <==> done
      ensures !done ==> (r == 0 <==> old(h.offStruct + h.sizeStruct + h.sizeStrings) + 4 <= h.total)
      ensures r == 0 ==> toks == old(toks) + [End] && Grew(old(h), h, 0, 4)
      ensures r != 0 ==> toks == old(toks) && h == old(h) && buf[..] == old(buf[..])
    {
      if done {
        return -FDT_ERR_BADSTATE;
      }
      var en := Grab(4);
      if en.None? {
        return -FDT_ERR_NOSPACE;
      }
      StoreWord(en.value, FDT_END_NODE);
      Wrote(old(h), old(buf[..]), buf[..], toks, offs, End, 0);
      toks, offs := toks + [End], offs + [0];
      return 0;
    }

    /** `fdt_find_string_`: the first place in the table where the string stands. */
    method FindString(s: seq<Byte>) returns (r: Option<nat>)
      requires h.sizeStrings <= h.total <= buf.Length && Text(s)
      ensures r.Some? ==> h.total - h.sizeStrings <= r.value && NameAt(buf[..], r.value, s, h.total)
      ensures r.None? ==> forall q: nat :: h.total - h.sizeStrings <= q ==> !NameAt(buf[..], q, s, h.total)
    {
      var p := h.total - h.sizeStrings;
      while p + |s| + 1 <= h.total
        invariant h.total - h.sizeStrings <= p
        invariant forall q: nat :: h.total - h.sizeStrings <= q < p ==> !NameAt(buf[..], q, s, h.total)
      {
        var same := Matches(p, s);
        if same && buf[p + |s|] == 0 {
          return Some(p);
        }
        p := p + 1;
      }
      return None;
    }

    /** memcmp */
    method Matches(p: nat, s: seq<Byte>) returns (r: bool)
      requires p + |s| <= buf.Length
      ensures r <==> BytesAt(buf[..], p, s)
    {
      var i := 0;
      while i < |s|
        invariant 0 <= i <= |s| && forall k :: 0 <= k < i ==> buf[p + k] == s[k]
      {
        if buf[p + i] != s[i] {
          return false;
        }
        i := i + 1;
      }
      return true;
    }

    /**
     `fdt_add_string_`: a string below the others, if the structure leaves room. The test for room
     wraps around: a string that is longer than all of the blob passes, and is stored in front of it.
     */
    method AddString(s: seq<Byte>) returns (r: Added)
      requires !done && Writing(h, buf[..], toks, offs) && Text(s) && h.sizeStrings + |s| + 1 <= INT_MAX
      modifies this`h, buf
      ensures Writing(h, buf[..], toks, offs) && Writing(old(h), buf[..], toks, offs)
      ensures r.Astray? <==> old(h.sizeStrings) + |s| + 1 > h.total
      ensures r.Placed? <==> old(h.offStruct + h.sizeStruct + h.sizeStrings) + |s| + 1 <= h.total
      ensures r.Placed? ==> h == old(h).(sizeStrings := old(h.sizeStrings) + |s| + 1) && r.off == U32 - h.sizeStrings
                            && NameAt(buf[..], h.total - h.sizeStrings, s, h.total)
      ensures !r.Placed? ==> h == old(h) && buf[..] == old(buf[..])
    {
      var offset := h.sizeStrings + |s| + 1;
      var structTop := h.offStruct + h.sizeStruct;
      if Wrap(h.total - offset) < structTop {
        return NoRoom;
      }
      if offset > h.total {
        return Astray;
      }
      Store(h.total - offset, s + [0]);
      StoredName(buf[..], h.total - offset, s);
      StringAdded(h, old(buf[..]), buf[..], toks, offs, offset);
      h := h.(sizeStrings := offset);
      return Placed(U32 - offset);
    }

    /** The names are shared, and this one is in the table. */
    ghost predicate Known(name: seq<Byte>)
      reads this, buf
    {
      dedup && exists q: nat :: h.total - h.sizeStrings <= q && NameAt(buf[..], q, name, h.total)
    }

    /** `fdt_find_add_string_`, or without it when names are not shared. */
    method NameOffset(name: seq<Byte>) returns (r: Added, added: bool)
      requires !done && Writing(h, buf[..], toks, offs) && Text(name) && h.sizeStrings + |name| + 1 <= INT_MAX
      modifies this`h, buf
      ensures Writing(h, buf[..], toks, offs) && Writing(old(h), buf[..], toks, offs)
              && h == old(h).(sizeStrings := h.sizeStrings)
      ensures r.Placed? ==> NameBelow(buf[..], h.total, h.sizeStrings, Prop(name, []), r.off)
      ensures h.sizeStrings == old(h.sizeStrings) + if r.Placed? && added then |name| + 1 else 0
      ensures r.Placed? <==> old(Known(name)) || old(h.offStruct + h.sizeStruct + h.sizeStrings) + |name| + 1 <= h.total
      ensures r.Astray? <==> !old(Known(name)) && old(h.sizeStrings) + |name| + 1 > h.total
    {
      if dedup {
        var p := FindString(name);
        if p.Some? {
          return Placed(U32 - (h.total - p.value)), false;
        }
      }
      added := true;
      r := AddString(name);
    }

    /** `fdt_property` */
    method Property(name: seq<Byte>, value: seq<Byte>) returns (r: int)
      requires Valid() && Text(name) && |value| <= INT_MAX && h.sizeStrings + |name| + 1 <= INT_MAX
      modifies this`h, this`toks, this`offs, buf
      ensures Valid() && (r == 0 || r == -FDT_ERR_NOSPACE || r == -FDT_ERR_BADSTATE || r == ASTRAY)
      ensures r == -FDT_ERR_BADSTATE <==> done
      ensures r == ASTRAY <==> !done && !old(Known(name)) && old(h.sizeStrings) + |name| + 1 > h.total
      ensures r == -FDT_ERR_NOSPACE ==>
                old(h.offStruct + h.sizeStruct + h.sizeStrings) + |name| + 1 + Size(Prop(name, value)) > h.total
      ensures r == 0 ==> toks == old(toks) + [Prop(name, value)] && Grew(old(h), h, |name| + 1, Size(Prop(name, value)))
      ensures r != 0 ==> toks == old(toks) && h == old(h)
    {
      if done {
        return -FDT_ERR_BADSTATE;
      }
      var nameoff, added := NameOffset(name);
      if nameoff == Astray {
        return ASTRAY;
      }
      if nameoff == NoRoom {
        return -FDT_ERR_NOSPACE;
      }
      var ok := PutProp(name, value, nameoff.off);
      if !ok {
        if added {
          h := h.(sizeStrings := h.sizeStrings - (|name| + 1));
        }
        return -FDT_ERR_NOSPACE;
      }
      return 0;
    }

    method PutProp(ghost name: seq<Byte>, value: seq<Byte>, nameoff: nat) returns (ok: bool)
      requires !done && Writing(h, buf[..], toks, offs) && |value| <= INT_MAX
      requires NameBelow(buf[..], h.total, h.sizeStrings, Prop(name, value), nameoff)
      modifies this`h, this`toks, this`offs, buf
      ensures ok <==> old(h.offStruct + h.sizeStruct + h.sizeStrings) + Size(Prop(name, value)) <= h.total
      ensures ok ==> Writing(h, buf[..], toks, offs) && toks == old(toks) + [Prop(name, value)]
                     && h == old(h).(sizeStruct := old(h.sizeStruct) + Size(Prop(name, value)))
      ensures !ok ==> h == old(h) && buf[..] == old(buf[..]) && toks == old(toks) && offs == old(offs)
    {
      var prop := Grab(12 + Align4(|value|));
      if prop.None? {
        return false;
      }
      StoreProp(prop.value, name, value, nameoff);
      Wrote(old(h), old(buf[..]), buf[..], toks, offs, Prop(name, value), nameoff);
      toks, offs := toks + [Prop(name, value)], offs + [nameoff];
      return true;
    }

    method StoreProp(o: nat, ghost name: seq<Byte>, value: seq<Byte>, nameoff: nat)
      requires o + Size(Prop(name, value)) <= buf.Length && nameoff < U32 && |value| <= INT_MAX
      modifies buf
      ensures TokAt(buf[..], o, Prop(name, value), nameoff)
              && Outside(old(buf[..]), buf[..], o, o + Size(Prop(name, value)))
    {
      StoreWord(o, FDT_PROP);
      StoreWord(o + 8, nameoff);
      StoreWord(o + 4, |value|);
      Store(o + 12, value);
    }

    /** `fdt_next_tag` */
    method NextTag(start: nat) returns (tag: nat, next: int)
      requires Sane(h, buf[..]) && start <= INT_MAX
      ensures (tag, next) == Next(h, buf[..], start)
    {
      var bad := -FDT_ERR_BADSTRUCTURE;
      var tagp := OffsetPtr(h, start, 4);
      if tagp.None? {
        return FDT_END, -FDT_ERR_TRUNCATED;
      }
      tag := LoadAt(tagp.value);
      var o := start + 4;
      if tag == FDT_BEGIN_NODE {
        var end := SkipName(o);
        if end.None? {
          return FDT_END, bad;
        }
        tag, next := Check(start, end.value, tag);
      } else if tag == FDT_PROP {
        var end := SkipProp(o);
        if end.None? {
          return FDT_END, bad;
        }
        tag, next := Check(start, end.value, tag);
      } else if tag != FDT_END && tag != FDT_END_NODE && tag != FDT_NOP {
        return FDT_END, bad;
      } else {
        tag, next := Check(start, o, tag);
      }
    }

    method Check(start: nat, o: int, tag: nat) returns (t: nat, next: int)
      requires h.offStruct < U32 && h.total <= INT_MAX && start <= INT_MAX && o <= INT_MAX
      ensures (t, next) == Checked(h, start, o, tag)
    {
      if OffsetPtr(h, start, Wrap(o - start)).None? {
        return FDT_END, -FDT_ERR_BADSTRUCTURE;
      }
      return tag, Align4(o);
    }

    /** `fdt_next_tag` over a property's header and value */
    method SkipProp(o: nat) returns (r: Option<int>)
      requires Sane(h, buf[..]) && o <= INT_MAX
      ensures r == PropEnd(h, buf[..], o)
    {
      var lenp := OffsetPtr(h, o, 4);
      if lenp.None? {
        return None;
      }
      var len := LoadAt(lenp.value);
      var sum := Wrap(len + o);
      if INT_MAX <= sum || sum < o {
        return None;
      }
      return Some(Signed(o + 8 + len));
    }

    method LoadAt(o: nat) returns (n: nat)
      requires o + 4 <= buf.Length
      ensures n == Load(buf[..], o)
    {
      n := (buf[o] as int) * 0x100_0000 + (buf[o + 1] as int) * 0x1_0000 + (buf[o + 2] as int) * 0x100 +
        buf[o + 3] as int;
    }

    /** The loop of `fdt_next_tag` over a node's name. */
    method SkipName(start: nat) returns (r: Option<nat>)
      requires Sane(h, buf[..]) && start <= INT_MAX
      ensures r == NameEnd(h, buf[..], start)
    {
      var o := start;
      while true
        invariant start <= o <= INT_MAX && NameEnd(h, buf[..], start) == NameEnd(h, buf[..], o)
        decreases INT_MAX - o
      {
        var p := OffsetPtr(h, o, 1);
        if p.None? {
          return None;
        }
        o := o + 1;
        if buf[p.value] == 0 {
          return Some(o);
        }
      }
    }

    /** `fdt_finish`: terminator, strings moved down, offsets counted from the other end. */
    method Finish() returns (r: int)
      requires Valid()
      modifies this, buf
      ensures Valid() && toks == old(toks) && h.total <= old(h.total)
      ensures old(done) ==> r == -FDT_ERR_BADSTATE && done
      ensures !old(done) ==>
              (r == 0 <==> old(h.offStruct + h.sizeStruct + h.sizeStrings) + 4 <= old(h.total)) && done == (r == 0)
      ensures r != 0 ==> h == old(h) && buf[..] == old(buf[..])
    {
      if done {
        return -FDT_ERR_BADSTATE;
      }
      var end := Grab(4);
      if end.None? {
        return -FDT_ERR_NOSPACE;
      }
      Relocate(end.value, old(h));
      Settle();
      return 0;
    }

    method Settle()
      requires Fixing(h, buf[..], toks, offs, offs, 0)
      modifies this`h, this`done, this`offs, buf
      ensures Valid() && done && h.total <= old(h.total)
    {
      ghost var was := FixOffsets();
      AllFixed(h, buf[..], toks, offs, was);
      h := h.(total := h.offStrings + h.sizeStrings);
      done := true;
    }

    /** The terminator, and the strings behind it. */
    method Relocate(end: nat, ghost was: Header)
      requires Writing(was, buf[..], toks, offs) && h == was.(sizeStruct := was.sizeStruct + 4)
      requires end == was.offStruct + was.sizeStruct && end + 4 + h.sizeStrings <= h.total
      modifies this`h, buf
      ensures h == old(h).(offStrings := end + 4) && Fixing(h, buf[..], toks, offs, offs, 0)
    {
      StoreWord(end, FDT_END);
      var from, to := h.total - h.sizeStrings, h.offStruct + h.sizeStruct;
      ghost var b := buf[..];
      Store(to, buf[from..from + h.sizeStrings]);
      assert b[from..h.total] == b[from..from + h.sizeStrings];
      Relocated(was, old(buf[..]), b, buf[..], toks, offs);
      h := h.(offStrings := to);
    }

    /** The loop of `fdt_finish` */
    method FixOffsets() returns (ghost was: seq<nat>)
      requires Fixing(h, buf[..], toks, offs, offs, 0)
      modifies this`offs, buf
      ensures Fixing(h, buf[..], toks, offs, was, |toks|)
    {
      ghost var k := 0;
      was := offs;
      var offset := 0;
      var tag, next := TagOf(offset, 0, was);
      while tag != FDT_END
        invariant k <= |toks| && offset == Pos(toks, k) && Fixing(h, buf[..], toks, offs, was, k)
        invariant if k == |toks| then tag == FDT_END else tag == Tag(toks[k]) && next == Pos(toks, k + 1)
        decreases |toks| - k
      {
        FixTok(offset, tag, k, was);
        k := k + 1;
        offset := next;
        tag, next := TagOf(offset, k, was);
      }
    }

    method FixTok(offset: nat, tag: nat, ghost k: nat, ghost was: seq<nat>)
      requires Fixing(h, buf[..], toks, offs, was, k) && k < |toks| && offset == Pos(toks, k) && tag == Tag(toks[k])
      modifies this`offs, buf
      ensures Fixing(h, buf[..], toks, offs, was, k + 1)
    {
      if tag == FDT_PROP {
        FixOne(offset, k, was);
      } else {
        NothingToFix(h, buf[..], toks, offs, was, k);
      }
    }

    /** The tag of a token while offsets are being rewritten */
    method TagOf(offset: nat, ghost k: nat, ghost was: seq<nat>) returns (tag: nat, next: int)
      requires Fixing(h, buf[..], toks, offs, was, k) && offset == Pos(toks, k)
      ensures if k == |toks| then tag == FDT_END else tag == Tag(toks[k]) && next == Pos(toks, k + 1)
    {
      TagAt(h, buf[..], toks, offs, k);
      tag, next := NextTag(offset);
    }

    method FixOne(offset: nat, ghost k: nat, ghost was: seq<nat>)
      requires Fixing(h, buf[..], toks, offs, was, k) && k < |toks| && toks[k].Prop? && offset == Pos(toks, k)
      modifies this`offs, buf
      ensures Fixing(h, buf[..], toks, offs, was, k + 1)
    {
      ghost var b := buf[..];
      assert InRow(b, h.offStruct, toks, offs, k);
      PosMono(toks, k, |toks|);
      var o := h.offStruct + offset + 8;
      var nameoff := LoadAt(o);
      nameoff := Wrap(nameoff + h.sizeStrings);
      StoreWord(o, nameoff);
      FixedOne(h, b, buf[..], toks, offs, was, k, nameoff);
      offs := offs[k := nameoff];
    }

    /** `fdt_get_string`: the text at an offset of the strings block, up to its NUL. */
    method GetString(so: int) returns (r: Option<seq<Byte>>)
      requires Sane(h, buf[..]) && -INT_MAX <= so <= INT_MAX
      ensures r.Some? ==> NameAt(buf[..], Wrap(so + h.offStrings), r.value, h.total)
      ensures r.Some? <==>
                InStrings(h, done, so)
                && exists i: nat :: Wrap(so + h.offStrings) <= i < TextEnd(h, done, so) && buf[i] == 0
    {
      if h.total >= INT_MAX {
        return None;
      }
      var at := Wrap(so + h.offStrings);
      if at >= h.total {
        return None;
      }
      var len := h.total - at;
      if done {
        if so < 0 || so >= h.sizeStrings {
          return None;
        }
        len := if h.sizeStrings - so < len then h.sizeStrings - so else len;
      } else {
        var back := Wrap(-so);
        if so >= 0 || back > h.sizeStrings {
          return None;
        }
        len := if back < len then back else len;
      }
      var n := FindNul(at, len);
      if n.None? {
        return None;
      }
      return Some(buf[at..n.value]);
    }

    /** memchr */
    method FindNul(at: nat, len: nat) returns (r: Option<nat>)
      requires at + len <= buf.Length
      ensures r.None? ==> forall i :: at <= i < at + len ==> buf[i] != 0
      ensures r.Some? ==> at <= r.value < at + len && buf[r.value] == 0 && forall i :: at <= i < r.value ==> buf[i] != 0
    {
      var i := at;
      while i < at + len
        invariant at <= i <= at + len && forall j :: at <= j < i ==> buf[j] != 0
      {
        if buf[i] == 0 {
          return Some(i);
        }
        i := i + 1;
      }
      return None;
    }

    /** `nextprop_` */
    method NextProp(start: nat) returns (r: int)
      requires Sane(h, buf[..]) && start <= INT_MAX && h.total + 3 <= INT_MAX
      ensures r == PropFrom(h, buf[..], start)
    {
      var offset := start;
      while true
        invariant offset <= INT_MAX && PropFrom(h, buf[..], start) == PropFrom(h, buf[..], offset)
        decreases INT_MAX - offset
      {
        NextGrows(h, buf[..], offset);
        var tag, next := NextTag(offset);
        if tag == FDT_END {
          return if next >= 0 then -FDT_ERR_BADSTRUCTURE else next;
        }
        if tag == FDT_PROP {
          return offset;
        }
        if tag != FDT_NOP {
          return -FDT_ERR_NOTFOUND;
        }
        offset := next;
      }
    }

    /** `fdt_check_node_offset_` and `fdt_check_prop_offset_`, then `nextprop_` */
    method PropAfter(offset: nat, kind: nat) returns (r: int)
      requires Sane(h, buf[..]) && offset <= INT_MAX && h.total + 3 <= INT_MAX && kind != FDT_END
      ensures offset % 4 == 0 && Next(h, buf[..], offset).0 == kind ==>
                0 <= Next(h, buf[..], offset).1 <= INT_MAX && r == PropFrom(h, buf[..], Next(h, buf[..], offset).1)
      ensures offset % 4 != 0 || Next(h, buf[..], offset).0 != kind ==> r == -FDT_ERR_BADOFFSET
    {
      if offset % 4 != 0 {
        return -FDT_ERR_BADOFFSET;
      }
      NextGrows(h, buf[..], offset);
      var tag, next := NextTag(offset);
      if tag != kind {
        return -FDT_ERR_BADOFFSET;
      }
      r := NextProp(next);
    }

    /** `fdt_get_property_namelen_` at the node of token k: its first property of that name. */
    method FindProp(node: nat, name: seq<Byte>, ghost k: nat) returns (r: int)
      requires Valid() && done && k < |toks| && toks[k].Begin? && node == Pos(toks, k) && h.total + 3 <= INT_MAX
      ensures match FirstProp(toks, k + 1, name)
              case Some(j) => r == Pos(toks, j)
              case None => r < 0
    {
      r := Following(node, FDT_BEGIN_NODE, k);
      ghost var j := k + 1;
      while r >= 0
        invariant k < j <= |toks| && FirstProp(toks, k + 1, name) == FirstProp(toks, j, name)
        invariant if j < |toks| && toks[j].Prop? then r == Pos(toks, j) else r < 0
        decreases |toks| - j
      {
        var same := NameIs(r, name, j);
        if same {
          return;
        }
        r := Following(r, FDT_PROP, j);
        j := j + 1;
      }
    }

    /** `fdt_first_property_offset` and `fdt_next_property_offset` behind token k */
    method Following(offset: nat, kind: nat, ghost k: nat) returns (r: int)
      requires Valid() && done && k < |toks| && offset == Pos(toks, k) && kind == Tag(toks[k]) && h.total + 3 <= INT_MAX
      ensures if k + 1 < |toks| && toks[k + 1].Prop? then r == Pos(toks, k + 1) else r < 0
    {
      PropsFrom(h, buf[..], toks, offs, k);
      r := PropAfter(offset, kind);
    }

    /** `fdt_string_eq_` on the name of a property */
    method NameIs(offset: nat, name: seq<Byte>, ghost j: nat) returns (same: bool)
      requires Valid() && done && j < |toks| && toks[j].Prop? && offset == Pos(toks, j) && h.total + 3 <= INT_MAX
      ensures same <==> toks[j].name == name
    {
      PropAt(h, buf[..], toks, offs, j);
      var nameoff := LoadAt(h.offStruct + offset + 8);
      var s := GetString(Signed(nameoff));
      NameRead(h, buf[..], toks[j], offs[j], s);
      same := s == Some(name);
    }

    /** `fdt_getprop_namelen` */
    method GetProp(node: nat, name: seq<Byte>, ghost k: nat) returns (r: Option<seq<Byte>>)
      requires Valid() && done && k < |toks| && toks[k].Begin? && node == Pos(toks, k) && h.total + 3 <= INT_MAX
      ensures match FirstProp(toks, k + 1, name)
              case Some(j) => r == Some(toks[j].value)
              case None => r == None
    {
      var offset := FindProp(node, name, k);
      if offset < 0 {
        return None;
      }
      ghost var j := FirstProp(toks, k + 1, name).value;
      PropAt(h, buf[..], toks, offs, j);
      var o := h.offStruct + offset;
      var len := LoadAt(o + 4);
      assert buf[o + 12..o + 12 + len] == toks[j].value;
      return Some(buf[o + 12..o + 12 + len]);
    }

    /** `fdt_next_node`, from the node before token k or, with a negative offset, from the start. */
    method NextNode(offset: int, d: int, ghost k: nat) returns (r: int, depth: int, ghost j: nat)
      requires Valid() && done && offset <= INT_MAX && h.total + 3 <= INT_MAX && k <= |toks|
      ensures Before(toks, offset, k) ==> NodeAfter(toks, k, d, j, r, depth)
    {
      var o: int := 0;
      j, depth := k, d;
      if offset >= 0 {
        o := CheckNode(offset, k);
        if o < 0 {
          return o, depth, j;
        }
      }
      while true
        invariant 0 <= o <= INT_MAX
        invariant Before(toks, offset, k) ==>
                  Inside(toks, k, j, d) && o == Pos(toks, j) && depth == d + Deeper(toks, k, j)
        decreases INT_MAX - o
      {
        var tag, next := Look(o, j, Before(toks, offset, k));
        if tag == FDT_END {
          return if next >= 0 then -FDT_ERR_NOTFOUND else next, depth, j;
        }
        if tag == FDT_BEGIN_NODE {
          return o, depth + 1, j;
        }
        if Before(toks, offset, k) {
          InsideMore(toks, k, j, d);
        }
        if tag == FDT_END_NODE {
          depth := depth - 1;
          if depth < 0 {
            return next, depth, j;
          }
        }
        o, j := next, j + 1;
      }
    }

    /** The tag at an offset, which is token j if `known` */
    method Look(o: nat, ghost j: nat, ghost known: bool) returns (tag: nat, next: int)
      requires Valid() && done && o <= INT_MAX && h.total + 3 <= INT_MAX && (known ==> j <= |toks| && o == Pos(toks, j))
      ensures tag != FDT_END ==> o < next <= INT_MAX
      ensures known && j < |toks| ==> tag == Tag(toks[j]) && next == Pos(toks, j + 1)
      ensures known && j == |toks| ==> tag == FDT_END && next >= 0
    {
      if known {
        TagAt(h, buf[..], toks, offs, j);
      }
      NextGrows(h, buf[..], o);
      tag, next := NextTag(o);
    }

    /** `fdt_check_node_offset_` */
    method CheckNode(offset: nat, ghost k: nat) returns (r: int)
      requires Valid() && done && offset <= INT_MAX && h.total + 3 <= INT_MAX && k <= |toks|
      ensures r <= INT_MAX && (Before(toks, offset, k) ==> r == Pos(toks, k))
    {
      ghost var known := Before(toks, offset, k);
      if known {
        PosAligned(toks, k - 1);
      }
      var tag, next := Look(offset, if known then k - 1 else 0, known);
      return if offset % 4 != 0 || tag != FDT_BEGIN_NODE then -FDT_ERR_BADOFFSET else next;
    }
  }

  lemma StoredName(b: seq<Byte>, o: nat, name: seq<Byte>)
    requires BytesAt(b, o, name + [0]) && Text(name)
    ensures forall end :: o + |name| + 1 <= end <= |b| ==> NameAt(b, o, name, end)
  {
    assert (name + [0])[|name|] == 0;
    assert forall i :: 0 <= i < |name| ==> (name + [0])[i] == name[i];
  }

  lemma StringAdded(h: Header, b: seq<Byte>, b': seq<Byte>, toks: seq<Token>, offs: seq<nat>, size: nat)
    requires Writing(h, b, toks, offs) && h.sizeStrings <= size && h.offStruct + h.sizeStruct + size <= h.total
    requires Outside(b, b', h.total - size, h.total - h.sizeStrings)
    ensures Writing(h, b', toks, offs) && Writing(h.(sizeStrings := size), b', toks, offs)
  {
    RowFrame(b, b', h.offStruct, toks, offs);
    BelowFrame(b, b', h.total, h.sizeStrings, h.sizeStrings, toks, offs);
    BelowFrame(b, b', h.total, h.sizeStrings, size, toks, offs);
  }

  /** A name of 200 bytes in a blob of 100: it is not refused, and stored in front of the blob. */
  method LongNameAstray(dedup: bool) returns (b: Blob, r: int)
    ensures b.h.total == 100 && r == ASTRAY
  {
    b := new Blob(100, 64, dedup);
    var name: seq<Byte> := seq(200, i => 97);
    r := b.Property(name, []);
  }

  /** A name's offset from the start of the table, made from the one from its end. */
  ghost function Fixed(h: Header, t: Token, off: nat): (r: nat) {
    if t.Prop? then Wrap(off + h.sizeStrings) else off
  }

  ghost function FixedAll(h: Header, toks: seq<Token>, offs: seq<nat>): (r: seq<nat>)
    requires |offs| == |toks|
  {
    seq(|toks|, k requires 0 <= k < |toks| => Fixed(h, toks[k], offs[k]))
  }

  /** The structure block with its terminator, and the strings block behind it. */
  ghost predicate Laid(h: Header, b: seq<Byte>, toks: seq<Token>) {
    && Sane(h, b) && h.sizeStruct == Pos(toks, |toks|) + 4 && h.offStrings == h.offStruct + h.sizeStruct
    && h.offStrings + h.sizeStrings <= h.total && Load(b, h.offStruct + Pos(toks, |toks|)) == FDT_END
  }

  ghost predicate FixedTo(h: Header, toks: seq<Token>, offs: seq<nat>, was: seq<nat>, k: nat) {
    && |was| == |offs| == |toks| && k <= |toks|
    && forall j :: 0 <= j < |toks| ==> offs[j] == if j < k then Fixed(h, toks[j], was[j]) else was[j]
  }

  /** The strings are in place, and the offsets of the first k tokens are; `was` are the old ones. */
  ghost predicate Fixing(h: Header, b: seq<Byte>, toks: seq<Token>, offs: seq<nat>, was: seq<nat>, k: nat) {
    && Laid(h, b, toks) && Row(b, h.offStruct, toks, offs) && FixedTo(h, toks, offs, was, k)
    && Named(h, b, toks, FixedAll(h, toks, was))
  }

  lemma NothingToFix(h: Header, b: seq<Byte>, toks: seq<Token>, offs: seq<nat>, was: seq<nat>, k: nat)
    requires Fixing(h, b, toks, offs, was, k) && k < |toks| && !toks[k].Prop?
    ensures Fixing(h, b, toks, offs, was, k + 1)
  {
  }

  lemma TagAt(h: Header, b: seq<Byte>, toks: seq<Token>, offs: seq<nat>, k: nat)
    requires Laid(h, b, toks) && Row(b, h.offStruct, toks, offs) && k <= |toks|
    ensures Pos(toks, k) <= INT_MAX
    ensures if k == |toks| then Next(h, b, Pos(toks, k)) == (FDT_END, Pos(toks, k) + 4)
            else Next(h, b, Pos(toks, k)) == (Tag(toks[k]), Pos(toks, k + 1)) && Tag(toks[k]) != FDT_END
  {
    PosMono(toks, k, |toks|);
    if k < |toks| {
      NextInRow(h, b, toks, offs, k);
    } else {
      PosAligned(toks, k);
      NextEnd(h, b, Pos(toks, k));
    }
  }

  /** Behind the structure nothing changes. */
  lemma NamedFrame(h: Header, b: seq<Byte>, b': seq<Byte>, toks: seq<Token>, offs: seq<nat>)
    requires Named(h, b, toks, offs) && Agree(b, b', h.offStrings, h.offStrings + h.sizeStrings)
    ensures Named(h, b', toks, offs)
  {
    forall k | 0 <= k < |toks|
      ensures NameOk(h, b', toks[k], offs[k])
    {
      assert NameOk(h, b, toks[k], offs[k]);
    }
  }

  /** One offset is rewritten in place. */
  lemma RowSet(b: seq<Byte>, b': seq<Byte>, base: nat, toks: seq<Token>, offs: seq<nat>, k: nat, off: nat)
    requires Row(b, base, toks, offs) && k < |toks| && toks[k].Prop?
    requires var o := base + Pos(toks, k) + 8; o + 4 <= |b| && Outside(b, b', o, o + 4) && Load(b', o) == off
    ensures Row(b', base, toks, offs[k := off])
  {
    var offs' := offs[k := off];
    forall j | 0 <= j < |toks|
      ensures InRow(b', base, toks, offs', j)
    {
      assert InRow(b, base, toks, offs, j);
      if j != k {
        if j < k {
          PosMono(toks, j, k);
        } else {
          PosMono(toks, k, j);
        }
        TokFrame(b, b', base + Pos(toks, j), toks[j], offs[j]);
      }
    }
  }

  lemma FixedOne(h: Header, b: seq<Byte>, b': seq<Byte>, toks: seq<Token>, offs: seq<nat>, was: seq<nat>, k: nat,
                 off: nat)
    requires Fixing(h, b, toks, offs, was, k) && k < |toks| && toks[k].Prop? && off == Fixed(h, toks[k], offs[k])
    requires var o := h.offStruct + Pos(toks, k) + 8;
             o + 4 <= h.offStruct + Pos(toks, |toks|) && Outside(b, b', o, o + 4) && Load(b', o) == off
    ensures Fixing(h, b', toks, offs[k := off], was, k + 1)
  {
    RowSet(b, b', h.offStruct, toks, offs, k, off);
    NamedFrame(h, b, b', toks, FixedAll(h, toks, was));
    LoadSame(b, b', h.offStruct + Pos(toks, |toks|));
    FixedMore(h, toks, offs, was, k, off);
  }

  lemma FixedMore(h: Header, toks: seq<Token>, offs: seq<nat>, was: seq<nat>, k: nat, off: nat)
    requires FixedTo(h, toks, offs, was, k) && k < |toks| && off == Fixed(h, toks[k], offs[k])
    ensures FixedTo(h, toks, offs[k := off], was, k + 1)
  {
  }

  lemma AllFixed(h: Header, b: seq<Byte>, toks: seq<Token>, offs: seq<nat>, was: seq<nat>)
    requires Fixing(h, b, toks, offs, was, |toks|)
    ensures Complete(h.(total := h.offStrings + h.sizeStrings), b, toks, offs)
  {
    var h' := h.(total := h.offStrings + h.sizeStrings);
    assert offs == FixedAll(h, toks, was);
    forall k | 0 <= k < |toks|
      ensures NameOk(h', b, toks[k], offs[k])
    {
      assert NameOk(h, b, toks[k], FixedAll(h, toks, was)[k]);
    }
  }

  /** After the terminator is written and the strings are moved. */
  lemma Relocated(h: Header, b: seq<Byte>, b1: seq<Byte>, b2: seq<Byte>, toks: seq<Token>, offs: seq<nat>)
    requires Writing(h, b, toks, offs) && h.offStruct + h.sizeStruct + h.sizeStrings + 4 <= h.total
    requires var top := h.offStruct + h.sizeStruct;
             && Outside(b, b1, top, top + 4) && Load(b1, top) == FDT_END
             && Outside(b1, b2, top + 4, top + 4 + h.sizeStrings)
             && BytesAt(b2, top + 4, b1[h.total - h.sizeStrings..h.total])
    ensures var top := h.offStruct + h.sizeStruct;
            Fixing(h.(sizeStruct := h.sizeStruct + 4, offStrings := top + 4), b2, toks, offs, offs, 0)
  {
    var h' := h.(sizeStruct := h.sizeStruct + 4, offStrings := h.offStruct + h.sizeStruct + 4);
    RowFrame(b, b2, h.offStruct, toks, offs);
    LoadSame(b1, b2, h.offStruct + h.sizeStruct);
    BelowFrame(b, b1, h.total, h.sizeStrings, h.sizeStrings, toks, offs);
    forall k | 0 <= k < |toks|
      ensures NameOk(h', b2, toks[k], FixedAll(h', toks, offs)[k])
    {
      NameMoved(h, h', b1, b2, toks[k], offs[k]);
    }
  }

  lemma NameMoved(h: Header, h': Header, b: seq<Byte>, b': seq<Byte>, t: Token, off: nat)
    requires NameBelow(b, h.total, h.sizeStrings, t, off) && h.sizeStrings <= h.total <= INT_MAX
             && h'.sizeStrings == h.sizeStrings
    requires h.total <= |b| && h'.offStrings + h.sizeStrings <= |b'|
             && BytesAt(b', h'.offStrings, b[h.total - h.sizeStrings..h.total])
    ensures NameOk(h', b', t, Fixed(h', t, off))
  {
    if t.Prop? {
      var from, at := h.total - (U32 - off), off + h.sizeStrings - U32;
      var table := b[h.total - h.sizeStrings..h.total];
      assert Fixed(h', t, off) == at;
      forall i | 0 <= i < |t.name|
        ensures b'[h'.offStrings + at + i] == t.name[i]
      {
        assert table[at + i] == b[from + i];
        assert b'[h'.offStrings + (at + i)] == table[at + i];
      }
      assert b'[h'.offStrings + (at + |t.name|)] == table[at + |t.name|];
    }
  }

  /** The walk behind token k of a finished blob. */
  lemma PropsFrom(h: Header, b: seq<Byte>, toks: seq<Token>, offs: seq<nat>, k: nat)
    requires Complete(h, b, toks, offs) && k < |toks| && h.total + 3 <= INT_MAX
    ensures Pos(toks, k) % 4 == 0 && Pos(toks, k) <= INT_MAX && Pos(toks, k + 1) <= INT_MAX
    ensures Next(h, b, Pos(toks, k)) == (Tag(toks[k]), Pos(toks, k + 1))
    ensures var r := PropFrom(h, b, Pos(toks, k + 1));
            if k + 1 < |toks| && toks[k + 1].Prop? then r == Pos(toks, k + 1) else r < 0
  {
    PosAligned(toks, k);
    TagAt(h, b, toks, offs, k);
    TagAt(h, b, toks, offs, k + 1);
  }

  lemma PropAt(h: Header, b: seq<Byte>, toks: seq<Token>, offs: seq<nat>, j: nat)
    requires Complete(h, b, toks, offs) && j < |toks| && toks[j].Prop?
    ensures var o := h.offStruct + Pos(toks, j);
            && o + 12 + |toks[j].value| <= |b| && Load(b, o + 4) == |toks[j].value| && Load(b, o + 8) == offs[j]
            && BytesAt(b, o + 12, toks[j].value) && NameOk(h, b, toks[j], offs[j])
  {
    assert InRow(b, h.offStruct, toks, offs, j);
    assert NameOk(h, b, toks[j], offs[j]);
  }

  /** What is read at a name's offset is the name. */
  lemma NameRead(h: Header, b: seq<Byte>, t: Token, off: nat, s: Option<seq<Byte>>)
    requires Sane(h, b) && t.Prop? && NameOk(h, b, t, off) && h.offStrings + h.sizeStrings == h.total
    requires s.Some? ==> NameAt(b, Wrap(Signed(off) + h.offStrings), s.value, h.total)
    requires s.None? <==> forall i :: h.offStrings + off <= i < h.offStrings + h.sizeStrings ==> b[i] != 0
    ensures s == Some(t.name)
  {
    assert b[h.offStrings + off + |t.name|] == 0;
    NameUnique(b, h.offStrings + off, s.value, t.name, h.total, h.total);
  }

  /** An offset of the node that token k comes behind. */
  ghost predicate Before(toks: seq<Token>, offset: int, k: nat) {
    if offset < 0 then k == 0 else 1 <= k <= |toks| && toks[k - 1].Begin? && offset == Pos(toks, k - 1)
  }

  lemma LoadSame(b: seq<Byte>, b': seq<Byte>, o: nat)
    requires o + 4 <= |b| && Agree(b, b', o, o + 4)
    ensures Load(b', o) == Load(b, o)
  {
  }

  /** One more token stands behind the others. */
  lemma Wrote(h: Header, b: seq<Byte>, b': seq<Byte>, toks: seq<Token>, offs: seq<nat>, t: Token, off: nat)
    requires Writing(h, b, toks, offs) && h.offStruct + h.sizeStruct + h.sizeStrings + Size(t) <= h.total
    requires Outside(b, b', h.offStruct + h.sizeStruct, h.offStruct + h.sizeStruct + Size(t))
    requires TokAt(b', h.offStruct + h.sizeStruct, t, off) && NameBelow(b, h.total, h.sizeStrings, t, off)
    ensures Writing(h.(sizeStruct := h.sizeStruct + Size(t)), b', toks + [t], offs + [off])
  {
    RowFrame(b, b', h.offStruct, toks, offs);
    RowSnoc(b', h.offStruct, toks, offs, t, off);
    BelowSnoc(b, h.total, h.sizeStrings, toks, offs, t, off);
    BelowFrame(b, b', h.total, h.sizeStrings, h.sizeStrings, toks + [t], offs + [off]);
  }
}
