/**
 Printing numbers (common/src/vsprintf.c) and reading them back (common/src/strtox.c).

 Digit sequences are numbers below the base; strings are characters, with the terminating NUL
 read behind their end.
 */
module Text {
  import opened Basics

  const FULL: nat := 0x1_0000_0000_0000_0000
  const E8: nat := 100_000_000

  // What digits mean.

  predicate Digits(ds: seq<nat>, base: nat) {
    forall i :: 0 <= i < |ds| ==> ds[i] < base
  }

  /** The lowest digit first, as the buffers hold them. */
  function LowFirst(ds: seq<nat>, base: nat): (v: nat) {
    if ds == [] then 0 else ds[0] + base * LowFirst(ds[1..], base)
  }

  /** The highest digit first, as they are read. */
  function HighFirst(ds: seq<nat>, base: nat): (v: nat) {
    if ds == [] then 0 else HighFirst(ds[..|ds| - 1], base) * base + ds[|ds| - 1]
  }

  function Pow(base: nat, k: nat): (r: nat) {
    if k == 0 then 1 else base * Pow(base, k - 1)
  }

  function Reverse(ds: seq<nat>): (r: seq<nat>)
    ensures |r| == |ds|
    ensures forall i :: 0 <= i < |ds| ==> r[i] == ds[|ds| - 1 - i]
  {
    if ds == [] then [] else Reverse(ds[1..]) + [ds[0]]
  }

  lemma {:induction false} ReverseValue(ds: seq<nat>, base: nat)
    ensures HighFirst(Reverse(ds), base) == LowFirst(ds, base)
  {
    if ds != [] {
      ReverseValue(ds[1..], base);
      var r := Reverse(ds);
      assert r[..|r| - 1] == Reverse(ds[1..]);
    }
  }

  lemma {:induction false} Concat(a: seq<nat>, b: seq<nat>, base: nat)
    ensures LowFirst(a + b, base) == LowFirst(a, base) + Pow(base, |a|) * LowFirst(b, base)
  {
    if a == [] {
      assert a + b == b;
    } else {
      Concat(a[1..], b, base);
      assert (a + b)[1..] == a[1..] + b;
      Spread(base, LowFirst(a[1..], base), Pow(base, |a| - 1), LowFirst(b, base));
    }
  }

  lemma Spread(base: nat, x: nat, p: nat, y: nat)
    ensures base * (x + p * y) == base * x + base * p * y
  {
  }

  // Decimal digits, two at a time.

  /** `decpair`: the digits of a number below 100, the lower one first. */
  function Pair(x: nat): (ds: seq<nat>)
    requires x < 100
    ensures Digits(ds, 10) && |ds| == 2 && LowFirst(ds, 10) == x
  {
    assert [x % 10, x / 10][1..] == [x / 10];
    assert [x / 10][1..] == [];
    assert LowFirst([x / 10], 10) == x / 10;
    [x % 10, x / 10]
  }

  /** The multiplications and shifts that stand for a division by 100. */
  lemma ShiftIsDivision(x: nat)
    ensures x < E8 ==> x * 0x28f5c29 / 0x1_0000_0000 == x / 100
    ensures x < 10_000 ==> x * 0x147b / 0x8_0000 == x / 100
  {
  }

  lemma PairThen(x: nat, rest: seq<nat>)
    requires x % 100 + 100 * (x / 100) == x && LowFirst(rest, 10) == x / 100 && Digits(rest, 10)
    ensures LowFirst(Pair(x % 100) + rest, 10) == x && Digits(Pair(x % 100) + rest, 10)
  {
    Concat(Pair(x % 100), rest, 10);
    assert Pow(10, 2) == 100 by { assert Pow(10, 1) == 10; }
  }

  /** `put_dec_full8`: exactly eight digits. */
  method PutFull8(r0: nat) returns (buf: seq<nat>)
    requires r0 < E8
    ensures Digits(buf, 10) && |buf| == 8 && LowFirst(buf, 10) == r0
  {
    ShiftIsDivision(r0);
    var q := r0 * 0x28f5c29 / 0x1_0000_0000;
    assert q == r0 / 100 < 1_000_000 && r0 - 100 * q == r0 % 100;
    var a := Pair(r0 - 100 * q);
    ShiftIsDivision(q);
    var r := q * 0x28f5c29 / 0x1_0000_0000;
    assert r == q / 100 < 10_000 && q - 100 * r == q % 100;
    var b := Pair(q - 100 * r);
    ShiftIsDivision(r);
    var s := r * 0x147b / 0x8_0000;
    assert s == r / 100 < 100 && r - 100 * s == r % 100;
    var c := Pair(r - 100 * s);
    var d := Pair(s);
    PairThen(r, d);
    PairThen(q, c + d);
    PairThen(r0, b + (c + d));
    buf := a + (b + (c + d));
  }

  /** The digits of a number below 100, without a leading zero. */
  function Short(r: nat): (ds: seq<nat>)
    requires r < 100
    ensures Digits(ds, 10) && LowFirst(ds, 10) == r && 1 <= |ds| <= 2 && (r > 0 ==> ds[|ds| - 1] > 0)
  {
    assert [r][1..] == [];
    if r < 10 then [r] else Pair(r)
  }

  /** As many digits as a number below 10^4 has. */
  method PutTrunc4(r: nat) returns (buf: seq<nat>)
    requires r < 10_000
    ensures Digits(buf, 10) && LowFirst(buf, 10) == r && 1 <= |buf| <= 4 && (r > 0 ==> buf[|buf| - 1] > 0)
  {
    if r < 100 {
      return Short(r);
    }
    ShiftIsDivision(r);
    var q := r * 0x147b / 0x8_0000;
    PairThen(r, Short(q));
    buf := Pair(r - 100 * q) + Short(q);
  }

  method PutTrunc6(q: nat) returns (buf: seq<nat>)
    requires q < 1_000_000
    ensures Digits(buf, 10) && LowFirst(buf, 10) == q && 1 <= |buf| <= 6 && (q > 0 ==> buf[|buf| - 1] > 0)
  {
    if q < 100 {
      return Short(q);
    }
    ShiftIsDivision(q);
    var r := q * 0x28f5c29 / 0x1_0000_0000;
    var rest := PutTrunc4(r);
    PairThen(q, rest);
    buf := Pair(q - 100 * r) + rest;
  }

  /** `put_dec_trunc8`: as many digits as the number has. */
  method PutTrunc8(r: nat) returns (buf: seq<nat>)
    requires r < E8
    ensures Digits(buf, 10) && LowFirst(buf, 10) == r && 1 <= |buf| <= 8 && (r > 0 ==> buf[|buf| - 1] > 0)
  {
    if r < 100 {
      return Short(r);
    }
    ShiftIsDivision(r);
    var q := r * 0x28f5c29 / 0x1_0000_0000;
    var rest := PutTrunc6(q);
    PairThen(r, rest);
    buf := Pair(r - 100 * q) + rest;
  }

  lemma EightThen(n: nat, a: seq<nat>, b: seq<nat>)
    requires |a| == 8 && LowFirst(a, 10) == n % E8 && LowFirst(b, 10) == n / E8 && Digits(a, 10) && Digits(b, 10)
    ensures LowFirst(a + b, 10) == n && Digits(a + b, 10)
  {
    Concat(a, b, 10);
    assert Pow(10, 8) == E8 by { assert Pow(10, 4) == 10_000; }
  }

  /** `put_dec`: the decimal digits of a 64-bit number. */
  method PutDec(n0: nat) returns (buf: seq<nat>)
    requires n0 < FULL
    ensures Digits(buf, 10) && LowFirst(buf, 10) == n0 && 1 <= |buf| <= 24 && (n0 > 0 ==> buf[|buf| - 1] > 0)
  {
    if n0 < E8 {
      buf := PutTrunc8(n0);
      return;
    }
    var a := PutFull8(n0 % E8);
    var n := n0 / E8;
    if n < E8 {
      var b := PutTrunc8(n);
      EightThen(n0, a, b);
      return a + b;
    }
    var b := PutFull8(n % E8);
    var c := PutTrunc8(n / E8);
    EightThen(n, b, c);
    EightThen(n0, a, b + c);
    buf := a + (b + c);
  }

  /** The digits in base 8 or 16, by masking and shifting. */
  method PutPow2(n0: nat, base: nat) returns (buf: seq<nat>)
    requires (base == 8 || base == 16) && n0 > 0
    ensures Digits(buf, base) && LowFirst(buf, base) == n0 && |buf| >= 1 && buf[|buf| - 1] > 0
  {
    var num := n0;
    buf := [];
    while num > 0
      invariant Digits(buf, base) && 0 <= num && n0 == LowFirst(buf, base) + Pow(base, |buf|) * num
      invariant num == 0 ==> |buf| >= 1 && buf[|buf| - 1] > 0
      decreases num
    {
      OneMore(buf, num, base);
      buf := buf + [num % base];
      num := num / base;
    }
  }

  lemma OneMore(buf: seq<nat>, num: nat, base: nat)
    requires base == 8 || base == 16
    ensures LowFirst(buf + [num % base], base) + Pow(base, |buf| + 1) * (num / base) ==
            LowFirst(buf, base) + Pow(base, |buf|) * num
  {
    Concat(buf, [num % base], base);
    assert [num % base][1..] == [];
    assert LowFirst([num % base], base) == num % base;
    Shift(Pow(base, |buf|), num, base);
  }

  lemma Shift(p: nat, num: nat, base: nat)
    requires base == 8 || base == 16
    ensures p * num == p * (num % base) + base * p * (num / base)
  {
    assert num == num % base + base * (num / base);
    Spread(p, num % base, base, num / base);
  }

  // Laying a number out.

  /** The flags of `struct printf_spec` that matter to an unsigned number. */
  datatype Sign = NoSign | Minus | Plus | Blank

  datatype Spec =
    Spec(base: nat, special: bool, small: bool, zeropad: bool, left: bool, width: int, precision: int, sign: Sign)

  function SignText(sign: Sign): (s: string) {
    match sign
    case NoSign => ""
    case Minus => "-"
    case Plus => "+"
    case Blank => " "
  }

  const TOP: nat := 0x8000_0000_0000_0000

  /** Which sign a number gets, and what is printed behind it: together the number in two's complement */
  function Signed(raw: nat, signed: bool, plus: bool, blank: bool): (r: (Sign, nat))
    requires raw < FULL
    ensures r.1 < FULL && (r.0 == Minus <==> signed && raw >= TOP)
    ensures signed ==> var v: int := r.1; (if r.0 == Minus then -v else v) == if raw < TOP then raw else raw - FULL
    ensures !signed ==> r == (NoSign, raw)
  {
    if !signed then (NoSign, raw)
    else if raw >= TOP then (Minus, FULL - raw)
    else (if plus then Plus else if blank then Blank else NoSign, raw)
  }

  /** `hex_asc_upper[d] | locase` */
  function DigitChar(d: nat, small: bool): (c: char)
    requires d < 16
  {
    if d < 10 then '0' + d as char else if small then 'a' + (d - 10) as char else 'A' + (d - 10) as char
  }

  function Spell(ds: seq<nat>, small: bool): (s: string)
    requires Digits(ds, 16)
    ensures |s| == |ds| && forall i :: 0 <= i < |ds| ==> s[i] == DigitChar(ds[i], small)
  {
    seq(|ds|, i requires 0 <= i < |ds| => DigitChar(ds[i], small))
  }

  function Repeat(c: char, n: int): (s: string)
    ensures |s| == (if n < 0 then 0 else n) && forall i :: 0 <= i < |s| ==> s[i] == c
  {
    if n <= 0 then "" else seq(n, i => c)
  }

  function Prefix(num: nat, spec: Spec): (s: string) {
    if !spec.special || spec.base == 10 then ""
    else if spec.base == 16 then if spec.small then "0x" else "0X"
    else if num == 0 then "" else "0"
  }

  function Max(a: int, b: int): (r: int) {
    if a >= b then a else b
  }

  /** The columns left over for padding. */
  function Slack(num: nat, i: nat, spec: Spec): (w: int) {
    spec.width - |SignText(spec.sign)| - |Prefix(num, spec)| - Max(i, spec.precision)
  }

  /** Spaces, sign, prefix, zeros, digits, spaces. */
  function Arranged(num: nat, text: string, spec: Spec): (s: string) {
    var w := Slack(num, |text|, spec);
    Repeat(' ', if spec.left || spec.zeropad then 0 else w) + SignText(spec.sign) + Prefix(num, spec) +
    Repeat('0', if spec.zeropad && !spec.left then w else 0) + Repeat('0', spec.precision - |text|) + text +
    Repeat(' ', if spec.left then w else 0)
  }

  function Layout(num: nat, ds: seq<nat>, spec: Spec): (s: string)
    requires Digits(ds, 16)
  {
    Arranged(num, Spell(ds, spec.small), spec)
  }

  /** The digits of a number, highest first, without leading zeros. */
  ghost predicate Represents(ds: seq<nat>, num: nat, base: nat) {
    Digits(ds, base) && |ds| >= 1 && HighFirst(ds, base) == num && (num > 0 ==> ds[0] > 0) && (num == 0 ==> ds == [0])
  }

  /** What fits of a text. */
  function Cut(s: string, room: nat): (r: string) {
    if |s| <= room then s else s[..room]
  }

  /** Appends n copies of a character, storing only what fits. */
  method PutMany(out: string, pos: nat, room: nat, c: char, n: int, ghost full: string)
    returns (out': string, pos': nat)
    requires out == Cut(full, room) && pos == |full|
    ensures out' == Cut(full + Repeat(c, n), room) && pos' == |full + Repeat(c, n)|
  {
    out', pos' := out, pos;
    var k := n;
    while k > 0
      invariant k <= n || n < 0
      invariant k >= 0 || k == n
      invariant out' == Cut(full + Repeat(c, n - k), room) && pos' == |full + Repeat(c, n - k)|
    {
      k := k - 1;
      assert Repeat(c, n - k) == Repeat(c, n - k - 1) + [c];
      assert full + Repeat(c, n - k) == full + Repeat(c, n - k - 1) + [c];
      if pos' < room {
        out' := out' + [c];
      }
      pos' := pos' + 1;
    }
    assert n <= 0 ==> full + Repeat(c, n) == full && full + Repeat(c, n - k) == full;
  }

  /** Appends a text, storing only what fits. */
  method PutText(out: string, pos: nat, room: nat, t: string, ghost full: string) returns (out': string, pos': nat)
    requires out == Cut(full, room) && pos == |full|
    ensures out' == Cut(full + t, room) && pos' == |full + t|
  {
    out', pos' := out, pos;
    var k := 0;
    assert full + t[..0] == full;
    while k < |t|
      invariant 0 <= k <= |t| && out' == Cut(full + t[..k], room) && pos' == |full + t[..k]|
    {
      assert full + t[..k + 1] == full + t[..k] + [t[k]];
      if pos' < room {
        out' := out' + [t[k]];
      }
      pos' := pos' + 1;
      k := k + 1;
    }
    assert t[..k] == t;
  }

  /** The digits of a number in one of the three bases. */
  method ToDigits(num: nat, base: nat) returns (ds: seq<nat>)
    requires num < FULL && base in {8, 10, 16}
    ensures Represents(ds, num, base)
  {
    var tmp;
    if num < base {
      tmp := [num];
      assert [num][1..] == [];
      assert LowFirst([num], base) == num;
    } else if base != 10 {
      tmp := PutPow2(num, base);
    } else {
      tmp := PutDec(num);
    }
    ReverseValue(tmp, base);
    ds := Reverse(tmp);
  }

  /** `number`: writes what fits of sign, padding and digits, and returns the whole length. */
  method Number(raw: nat, spec: Spec, signed: bool, plus: bool, blank: bool, room: nat)
    returns (out: string, len: nat, ghost ds: seq<nat>)
    requires raw < FULL && spec.base in {8, 10, 16}
    ensures var (sign, num) := Signed(raw, signed, plus, blank);
            && Represents(ds, num, spec.base)
            && var s := Layout(num, ds, spec.(sign := sign)); out == Cut(s, room) && len == |s|
  {
    var (sign, num) := Signed(raw, signed, plus, blank);
    var digits := ToDigits(num, spec.base);
    ds := digits;
    out, len := Arrange(num, Spell(digits, spec.small), spec.(sign := sign), room);
  }

  /** The padding around the digits. */
  method Arrange(num: nat, text: string, spec: Spec, room: nat) returns (out: string, len: nat)
    ensures var s := Arranged(num, text, spec); out == Cut(s, room) && len == |s|
  {
    var left, zero := spec.left, spec.zeropad && !spec.left;
    var width := spec.width - |SignText(spec.sign)| - |Prefix(num, spec)| - Max(|text|, spec.precision);
    ghost var full := "";
    var lead := if !zero && !left then width else 0;
    out, len := PutMany("", 0, room, ' ', lead, full);
    full := Repeat(' ', lead);
    assert "" + full == full;
    out, len := PutText(out, len, room, SignText(spec.sign), full);
    full := full + SignText(spec.sign);
    out, len := PutText(out, len, room, Prefix(num, spec), full);
    full := full + Prefix(num, spec);
    var zeros := if zero then width else 0;
    out, len := PutMany(out, len, room, '0', zeros, full);
    full := full + Repeat('0', zeros);
    out, len := PutMany(out, len, room, '0', spec.precision - |text|, full);
    full := full + Repeat('0', spec.precision - |text|);
    out, len := PutText(out, len, room, text, full);
    full := full + text;
    var trail := if left then width else 0;
    out, len := PutMany(out, len, room, ' ', trail, full);
  }

  // Reading.

  /** The value of a digit in some base, or -1. */
  function CharVal(c: char): (v: int) {
    if '0' <= c <= '9' then c as int - '0' as int
    else if 'a' <= c <= 'f' then c as int - 'a' as int + 10
    else if 'A' <= c <= 'F' then c as int - 'A' as int + 10
    else -1
  }

  predicate IsDigit(s: string, i: nat, base: nat) {
    i < |s| && 0 <= CharVal(s[i]) < base
  }

  /** How many digits follow, at most max. */
  function Run(s: string, i: nat, base: nat, max: nat): (n: nat)
    ensures n <= max && (n > 0 ==> i + n <= |s|) && forall k :: i <= k < i + n ==> 0 <= CharVal(s[k]) < base
    ensures n < max ==> !IsDigit(s, i + n, base)
    decreases max
  {
    if max == 0 || !IsDigit(s, i, base) then 0 else 1 + Run(s, i + 1, base, max - 1)
  }

  /** The values of the characters [i, i + n). */
  function Vals(s: string, i: nat, n: nat): (ds: seq<nat>)
    requires i + n <= |s| && forall k :: i <= k < i + n ==> CharVal(s[k]) >= 0
  {
    seq(n, k requires 0 <= k < n => CharVal(s[i + k]))
  }

  function CharAt(s: string, i: nat): (c: char) {
    if i < |s| then s[i] else '\0'
  }

  predicate IsX(c: char) {
    c == 'x' || c == 'X'
  }

  /** `_parse_integer_fixup_radix`: the base to use and the characters to skip. */
  function Radix(s: string, base: nat): (r: (nat, nat)) {
    var b := if base != 0 then base
             else if CharAt(s, 0) != '0' then 10
             else if IsX(CharAt(s, 1)) && CharVal(CharAt(s, 2)) >= 0 then 16 else 8;
    (b, if b == 16 && CharAt(s, 0) == '0' && IsX(CharAt(s, 1)) then 2 else 0)
  }

  /** The number that a text stands for, as `strntoull` reads it. */
  function Read(s: string, max: nat, base: nat): (v: nat) {
    var (b, skip) := Radix(s, base);
    if skip >= max || skip > |s| then 0
    else
      var n := Run(s, skip, b, max - skip);
      if n == 0 then 0 else HighFirst(Vals(s, skip, n), b) % FULL
  }

  lemma ReadIs(s: string, max: nat, base: nat, b: nat, skip: nat)
    requires Radix(s, base) == (b, skip) && skip < max && skip <= |s|
    ensures Read(s, max, base) == HighFirst(Vals(s, skip, Run(s, skip, b, max - skip)), b) % FULL
  {
    assert Vals(s, skip, 0) == [];
  }

  /** The overflow test by division agrees with the product. */
  lemma OverflowTest(res: nat, val: nat, base: nat)
    requires 2 <= base <= 16 && val < base && res < FULL
    ensures res > (FULL - 1 - val) / base <==> res * base + val >= FULL
    ensures res < 0x1000_0000_0000_0000 ==> res * base + val < FULL
  {
    var q := (FULL - 1 - val) / base;
    assert q * base <= FULL - 1 - val < (q + 1) * base;
    if res > q {
      TimesUp(base, q + 1, res);
    } else {
      TimesUp(base, res, q);
    }
    TimesUp(res, base, 16);
  }

  /** `_parse_integer_limit`: the digits that follow, their value, and whether it overflowed. */
  method ParseInteger(s: string, from: nat, base: nat, max: nat) returns (res: nat, count: nat, overflow: bool)
    requires from <= |s| && 2 <= base <= 16
    ensures count == Run(s, from, base, max)
    ensures var v := HighFirst(Vals(s, from, count), base); res == v % FULL && (overflow <==> v >= FULL)
  {
    res, count, overflow := 0, 0, false;
    ghost var v := 0;
    assert Vals(s, from, 0) == [];
    while count < max && IsDigit(s, from + count, base)
      invariant count <= max && from + count <= |s| && forall k :: from <= k < from + count ==> CharVal(s[k]) >= 0
      invariant Run(s, from, base, max) == count + Run(s, from + count, base, max - count)
      invariant v == HighFirst(Vals(s, from, count), base) && v >= 0 && res == v % FULL && (overflow <==> v >= FULL)
      decreases max - count
    {
      ValsMore(s, from, count, base);
      RunMore(s, from + count, base, max - count);
      ghost var next := HighFirst(Vals(s, from, count + 1), base);
      res, overflow := AddDigit(res, CharVal(s[from + count]), base, overflow, v, next);
      count, v := count + 1, next;
    }
  }

  /** One more digit, in 64 bits, with the overflow test by division. */
  method AddDigit(res: nat, val: nat, base: nat, overflow: bool, ghost v: nat, ghost next: nat)
    returns (r: nat, o: bool)
    requires 2 <= base <= 16 && val < base && res == v % FULL && (overflow <==> v >= FULL) && next == v * base + val
    ensures r == next % FULL && (o <==> next >= FULL)
  {
    NextDigit(v, res, val, base, overflow);
    o := overflow;
    if res >= 0x1000_0000_0000_0000 && res > (FULL - 1 - val) / base {
      o := true;
    }
    r := (res * base + val) % FULL;
  }

  lemma RunMore(s: string, i: nat, base: nat, max: nat)
    requires max > 0 && IsDigit(s, i, base)
    ensures Run(s, i, base, max) == 1 + Run(s, i + 1, base, max - 1)
  {
  }

  lemma ValsMore(s: string, from: nat, n: nat, base: nat)
    requires from + n < |s| && forall k :: from <= k <= from + n ==> CharVal(s[k]) >= 0
    ensures HighFirst(Vals(s, from, n + 1), base) == HighFirst(Vals(s, from, n), base) * base + CharVal(s[from + n])
  {
    assert Vals(s, from, n + 1)[..n] == Vals(s, from, n);
  }

  lemma NextDigit(v: nat, res: nat, val: nat, base: nat, overflow: bool)
    requires 2 <= base <= 16 && val < base && res == v % FULL && (overflow <==> v >= FULL)
    ensures (res * base + val) % FULL == (v * base + val) % FULL
    ensures v * base + val >= FULL <==> overflow || (res >= 0x1000_0000_0000_0000 && res > (FULL - 1 - val) / base)
  {
    OverflowTest(res, val, base);
    WrapStep(v, base, val);
  }

  lemma WrapStep(v: nat, base: nat, val: nat)
    requires base >= 2
    ensures (v % FULL * base + val) % FULL == (v * base + val) % FULL && v * base + val >= v
  {
    var q, r := v / FULL, v % FULL;
    assert v == q * FULL + r;
    assert v * base + val == q * base * FULL + (r * base + val);
    AddMultiple(r * base + val, q * base);
    assert v * (base - 1) >= 0;
  }

  lemma AddMultiple(x: nat, k: nat)
    ensures (k * FULL + x) % FULL == x % FULL
  {
  }

  /** `strntoull` */
  method Strntoull(s: string, max: nat, base: nat) returns (result: nat)
    requires base == 0 || 2 <= base <= 16
    ensures result == Read(s, max, base)
  {
    var (b, skip) := Radix(s, base);
    if skip < max {
      var count, overflow;
      result, count, overflow := ParseInteger(s, skip, b, max - skip);
      ReadIs(s, max, base, b, skip);
    } else {
      result := 0;
    }
  }

  // Reading back what was printed.

  function Zeros(k: nat): (ds: seq<nat>) {
    seq(k, i => 0)
  }

  lemma {:induction false} ZerosValue(k: nat, base: nat)
    ensures HighFirst(Zeros(k), base) == 0
  {
    if k > 0 {
      ZerosValue(k - 1, base);
      assert Zeros(k)[..k - 1] == Zeros(k - 1);
    }
  }

  lemma {:induction false} LeadingZeros(k: nat, ds: seq<nat>, base: nat)
    ensures HighFirst(Zeros(k) + ds, base) == HighFirst(ds, base)
  {
    var z := Zeros(k);
    if ds == [] {
      assert z + ds == z;
      ZerosValue(k, base);
    } else {
      LeadingZeros(k, ds[..|ds| - 1], base);
      assert (z + ds)[..|z + ds| - 1] == z + ds[..|ds| - 1];
    }
  }

  lemma {:induction false} RunIs(s: string, i: nat, n: nat, base: nat, max: nat)
    requires n < max && (forall k :: i <= k < i + n ==> IsDigit(s, k, base)) && !IsDigit(s, i + n, base)
    ensures Run(s, i, base, max) == n
    decreases n
  {
    if n > 0 {
      assert IsDigit(s, i, base);
      RunIs(s, i + 1, n - 1, base, max - 1);
    }
  }

  lemma DigitReads(d: nat, small: bool)
    requires d < 16
    ensures CharVal(DigitChar(d, small)) == d && !IsX(DigitChar(d, small)) && DigitChar(d, small) != ' '
            && (DigitChar(d, small) == '0' <==> d == 0)
  {
  }

  /** A text made of something to skip, zeros, digits and spaces. */
  ghost predicate Body(s: string, skip: nat, zeros: nat, ds: seq<nat>, small: bool) {
    && Digits(ds, 16) && skip + zeros + |ds| <= |s|
    && (forall i :: skip <= i < skip + zeros ==> s[i] == '0')
    && (forall i :: 0 <= i < |ds| ==> s[skip + zeros + i] == DigitChar(ds[i], small))
    && (forall i :: skip + zeros + |ds| <= i < |s| ==> s[i] == ' ')
  }

  /** How many of the digits come before one that the base does not have. */
  function Lead(ds: seq<nat>, base: nat): (j: nat)
    ensures j <= |ds| && Digits(ds[..j], base) && (j < |ds| ==> ds[j] >= base)
  {
    if ds == [] || ds[0] >= base then 0
    else
      var j := 1 + Lead(ds[1..], base);
      assert ds[..j] == [ds[0]] + ds[1..][..j - 1];
      j
  }

  lemma LeadAll(ds: seq<nat>, base: nat)
    requires Digits(ds, base)
    ensures ds[..Lead(ds, base)] == ds
  {
  }

  /** Reading such a text in some base stops at the first digit that the base does not have. */
  lemma ReadBody(s: string, skip: nat, zeros: nat, ds: seq<nat>, small: bool, base: nat, max: nat)
    requires Body(s, skip, zeros, ds, small) && 2 <= base <= 16 && |s| < max
    ensures var n, j := Run(s, skip, base, max - skip), Lead(ds, base);
            n == zeros + j && HighFirst(Vals(s, skip, n), base) == HighFirst(ds[..j], base)
  {
    var j := Lead(ds, base);
    var n := zeros + j;
    forall k | skip <= k < skip + zeros + |ds|
      ensures CharVal(s[k]) == if k < skip + zeros then 0 else ds[k - skip - zeros]
    {
      if k >= skip + zeros {
        DigitReads(ds[k - skip - zeros], small);
        assert s[skip + zeros + (k - skip - zeros)] == DigitChar(ds[k - skip - zeros], small);
      }
    }
    assert forall i :: 0 <= i < j ==> ds[..j][i] == ds[i];
    RunIs(s, skip, n, base, max - skip);
    assert Vals(s, skip, n) == Zeros(zeros) + ds[..j];
    LeadingZeros(zeros, ds[..j], base);
  }

  /** Nothing but a prefix puts an x in second place. */
  lemma NoX(s: string, zeros: nat, ds: seq<nat>, small: bool)
    requires Body(s, 0, zeros, ds, small)
    ensures !IsX(CharAt(s, 1))
  {
    if 1 < |s| && zeros <= 1 < zeros + |ds| {
      DigitReads(ds[1 - zeros], small);
      assert s[0 + zeros + (1 - zeros)] == DigitChar(ds[1 - zeros], small);
    }
  }

  /** No sign and no spaces come first. */
  predicate Flush(num: nat, i: nat, spec: Spec) {
    spec.sign == NoSign && (spec.left || spec.zeropad || Slack(num, i, spec) <= 0)
  }

  function Skipped(spec: Spec): (n: nat) {
    if spec.special && spec.base == 16 then 2 else 0
  }

  lemma MakeBody(pre: string, z: string, ds: seq<nat>, small: bool, t: string)
    requires Digits(ds, 16) && (forall i :: 0 <= i < |z| ==> z[i] == '0') && (forall i :: 0 <= i < |t| ==> t[i] == ' ')
    ensures Body(pre + z + Spell(ds, small) + t, |pre|, |z|, ds, small)
  {
  }

  function PadText(num: nat, i: nat, spec: Spec): (z: string)
    ensures forall k :: 0 <= k < |z| ==> z[k] == '0'
  {
    Repeat('0', if spec.zeropad && !spec.left then Slack(num, i, spec) else 0) + Repeat('0', spec.precision - i)
  }

  /** The number of zeros before the digits, other than those of a prefix that is skipped. */
  function Padding(num: nat, i: nat, spec: Spec): (z: nat) {
    (if spec.base == 16 then 0 else |Prefix(num, spec)|) + |PadText(num, i, spec)|
  }

  function Tail(num: nat, i: nat, spec: Spec): (t: string)
    ensures forall k :: 0 <= k < |t| ==> t[k] == ' '
  {
    Repeat(' ', if spec.left then Slack(num, i, spec) else 0)
  }

  lemma LayoutIs(num: nat, ds: seq<nat>, spec: Spec)
    requires Digits(ds, 16) && Flush(num, |ds|, spec)
    ensures Layout(num, ds, spec) ==
            Prefix(num, spec) + PadText(num, |ds|, spec) + Spell(ds, spec.small) + Tail(num, |ds|, spec)
  {
    var w := Slack(num, |ds|, spec);
    assert Repeat(' ', if spec.left || spec.zeropad then 0 else w) + SignText(spec.sign) == "";
    Flatten(Prefix(num, spec), Repeat('0', if spec.zeropad && !spec.left then w else 0),
            Repeat('0', spec.precision - |ds|),
            Spell(ds, spec.small), Tail(num, |ds|, spec));
  }

  /** What a printed number looks like when no spaces come first. */
  lemma LayoutBody(num: nat, ds: seq<nat>, spec: Spec)
    requires Digits(ds, 16) && spec.base in {8, 10, 16} && Flush(num, |ds|, spec)
    ensures var s := Layout(num, ds, spec);
            && Body(s, Skipped(spec), Padding(num, |ds|, spec), ds, spec.small)
            && (Skipped(spec) == 2 ==> s[0] == '0' && IsX(s[1]))
  {
    LayoutIs(num, ds, spec);
    PrefixFacts(num, spec);
    BodyFrom(Layout(num, ds, spec), Prefix(num, spec), PadText(num, |ds|, spec), ds, spec.small, Tail(num, |ds|, spec),
             spec.base == 16,
             Skipped(spec), Padding(num, |ds|, spec));
  }

  lemma BodyFrom(s: string, pre: string, z: string, ds: seq<nat>, small: bool, t: string, hex: bool, skip: nat,
                 pad: nat)
    requires Digits(ds, 16) && (forall i :: 0 <= i < |z| ==> z[i] == '0') && (forall i :: 0 <= i < |t| ==> t[i] == ' ')
    requires !hex ==> forall i :: 0 <= i < |pre| ==> pre[i] == '0'
    requires s == pre + z + Spell(ds, small) + t && skip == (if hex then |pre| else 0)
             && pad == (if hex then |z| else |pre| + |z|)
    requires skip == 2 ==> pre[0] == '0' && IsX(pre[1])
    ensures Body(s, skip, pad, ds, small) && (skip == 2 ==> s[0] == '0' && IsX(s[1]))
  {
    BodyOf(pre, z, ds, small, t, hex);
  }

  lemma PrefixFacts(num: nat, spec: Spec)
    requires spec.base in {8, 10, 16}
    ensures var pre := Prefix(num, spec);
            && (spec.base == 16 ==> |pre| == Skipped(spec)) && (spec.base != 16 ==> Skipped(spec) == 0)
            && (spec.base != 16 ==> forall i :: 0 <= i < |pre| ==> pre[i] == '0')
            && (Skipped(spec) == 2 ==> pre[0] == '0' && IsX(pre[1]))
  {
  }

  lemma BodyOf(pre: string, z: string, ds: seq<nat>, small: bool, t: string, hex: bool)
    requires Digits(ds, 16) && (forall i :: 0 <= i < |z| ==> z[i] == '0') && (forall i :: 0 <= i < |t| ==> t[i] == ' ')
    requires !hex ==> forall i :: 0 <= i < |pre| ==> pre[i] == '0'
    ensures Body(pre + z + Spell(ds, small) + t, if hex then |pre| else 0, if hex then |z| else |pre| + |z|, ds, small)
    ensures forall i :: 0 <= i < |pre| ==> (pre + z + Spell(ds, small) + t)[i] == pre[i]
  {
    if hex {
      MakeBody(pre, z, ds, small, t);
    } else {
      MakeBody("", pre + z, ds, small, t);
      assert "" + (pre + z) == pre + z;
    }
  }

  lemma Flatten(pre: string, a: string, b: string, text: string, c: string)
    ensures "" + pre + a + b + text + c == pre + (a + b) + text + c
  {
    assert pre + a + b == pre + (a + b);
  }

  lemma ReadWith(s: string, skip: nat, zeros: nat, ds: seq<nat>, small: bool, base: nat, radix: nat, max: nat)
    requires Body(s, skip, zeros, ds, small) && 2 <= base <= 16 && |s| < max
    requires Radix(s, radix) == (base, skip)
    ensures Read(s, max, radix) == HighFirst(ds[..Lead(ds, base)], base) % FULL
  {
    ReadBody(s, skip, zeros, ds, small, base, max);
    var j := Lead(ds, base);
    assert j == 0 ==> HighFirst(ds[..j], base) == 0;
  }

  /** A text that begins with a space or a sign reads as nought. */
  lemma ReadSpace(num: nat, ds: seq<nat>, spec: Spec, max: nat, base: nat)
    requires Digits(ds, 16) && !Flush(num, |ds|, spec)
    ensures Read(Layout(num, ds, spec), max, base) == 0
  {
    var w := Slack(num, |ds|, spec);
    var s, first := Layout(num, ds, spec),
      Repeat(' ', if spec.left || spec.zeropad then 0 else w) + SignText(spec.sign);
    assert first <= s && s[0] == first[0];
    assert !IsDigit(s, 0, Radix(s, base).0);
  }

  /**
   In its own base, a printed number reads back as itself exactly if no sign or space comes first,
   or if it is nought.
   */
  lemma RoundTrip(num: nat, ds: seq<nat>, spec: Spec, max: nat)
    requires Represents(ds, num, spec.base) && spec.base in {8, 10, 16} && num < FULL && |Layout(num, ds, spec)| < max
    ensures Read(Layout(num, ds, spec), max, spec.base) == num <==> Flush(num, |ds|, spec) || num == 0
  {
    if Flush(num, |ds|, spec) {
      ReadOwn(num, ds, spec, max);
    } else {
      ReadSpace(num, ds, spec, max, spec.base);
    }
  }

  lemma ReadOwn(num: nat, ds: seq<nat>, spec: Spec, max: nat)
    requires Represents(ds, num, spec.base) && spec.base in {8, 10, 16} && num < FULL && |Layout(num, ds, spec)| < max
    requires Flush(num, |ds|, spec)
    ensures Read(Layout(num, ds, spec), max, spec.base) == num
  {
    LayoutBody(num, ds, spec);
    RadixOwn(Layout(num, ds, spec), Skipped(spec), Padding(num, |ds|, spec), ds, spec.small, spec.base);
    ReadAll(Layout(num, ds, spec), Skipped(spec), Padding(num, |ds|, spec), ds, spec.small, num, spec.base, max);
  }

  lemma ReadAll(s: string, skip: nat, zeros: nat, ds: seq<nat>, small: bool, num: nat, base: nat, max: nat)
    requires Body(s, skip, zeros, ds, small) && 2 <= base <= 16 && Represents(ds, num, base) && num < FULL && |s| < max
    requires Radix(s, base) == (base, skip)
    ensures Read(s, max, base) == num
  {
    ReadWith(s, skip, zeros, ds, small, base, base, max);
    LeadAll(ds, base);
  }

  lemma RadixOwn(s: string, skip: nat, zeros: nat, ds: seq<nat>, small: bool, base: nat)
    requires Body(s, skip, zeros, ds, small) && base > 0 && |ds| > 0
    requires skip == 0 || (skip == 2 && base == 16 && s[0] == '0' && IsX(s[1]))
    ensures Radix(s, base) == (base, skip)
  {
    if skip == 0 {
      NoX(s, zeros, ds, small);
    }
  }

  /** The base that the reader takes, if it is left to it. */
  function Guess(num: nat, i: nat, spec: Spec): (base: nat) {
    if spec.base == 16 && spec.special then 16 else if Padding(num, i, spec) == 0 && num > 0 then 10 else 8
  }

  /** With the base left to the reader: what is read. */
  lemma ReadAuto(num: nat, ds: seq<nat>, spec: Spec, max: nat)
    requires Represents(ds, num, spec.base) && spec.base in {8, 10, 16} && |Layout(num, ds, spec)| < max
    ensures var base := Guess(num, |ds|, spec);
            Read(Layout(num, ds, spec), max, 0) ==
            if Flush(num, |ds|, spec) then HighFirst(ds[..Lead(ds, base)], base) % FULL else 0
  {
    if Flush(num, |ds|, spec) {
      LayoutBody(num, ds, spec);
      var zeros, base := Padding(num, |ds|, spec), Guess(num, |ds|, spec);
      if base == 16 {
        RadixHex(Layout(num, ds, spec), zeros, ds, spec.small);
        ReadWith(Layout(num, ds, spec), 2, zeros, ds, spec.small, 16, 0, max);
      } else {
        RadixPlain(Layout(num, ds, spec), zeros, ds, spec.small, base);
        ReadWith(Layout(num, ds, spec), 0, zeros, ds, spec.small, base, 0, max);
      }
    } else {
      ReadSpace(num, ds, spec, max, 0);
    }
  }

  /** The number reads back: no sign or space comes first, and the reader takes its base or it has one digit in both. */
  predicate ReadsBack(num: nat, i: nat, spec: Spec) {
    var base := Guess(num, i, spec);
    num == 0 || (Flush(num, i, spec) && (base == spec.base || (num < base && num < spec.base)))
  }

  /**
   With the base left to the reader, a printed number reads back exactly in those cases; the one
   exception may be an octal number whose digits, read as decimal ones, exceed 64 bits.
   */
  lemma RoundTripAuto(num: nat, ds: seq<nat>, spec: Spec, max: nat)
    requires Represents(ds, num, spec.base) && spec.base in {8, 10, 16} && num < FULL && |Layout(num, ds, spec)| < max
    ensures ReadsBack(num, |ds|, spec) ==> Read(Layout(num, ds, spec), max, 0) == num
    ensures !ReadsBack(num, |ds|, spec) && (spec.base != 8 || HighFirst(ds, 10) < FULL) ==>
            Read(Layout(num, ds, spec), max, 0) != num
  {
    ReadAuto(num, ds, spec, max);
    Compare(num, ds, spec.base, Guess(num, |ds|, spec), Flush(num, |ds|, spec), Read(Layout(num, ds, spec), max, 0));
  }

  lemma Compare(num: nat, ds: seq<nat>, own: nat, base: nat, flush: bool, v: nat)
    requires Represents(ds, num, own) && own in {8, 10, 16} && base in {8, 10, 16} && (base == 16 ==> own == 16)
             && num < FULL
    requires v == if flush then HighFirst(ds[..Lead(ds, base)], base) % FULL else 0
    ensures var back := num == 0 || (flush && (base == own || (num < base && num < own)));
            (back ==> v == num) && (!back && (own != 8 || HighFirst(ds, 10) < FULL) ==> v != num)
  {
    var w := HighFirst(ds[..Lead(ds, base)], base);
    if base == own {
      LeadAll(ds, base);
      assert w == num;
    } else {
      OtherBase(num, ds, own, base);
    }
    assert w < FULL ==> w % FULL == w;
  }

  /** Digits read in another base give the same number only if there is one digit. */
  lemma OtherBase(num: nat, ds: seq<nat>, base: nat, other: nat)
    requires Represents(ds, num, base) && 2 <= base && 2 <= other && base != other && num < FULL
    ensures var v := HighFirst(ds[..Lead(ds, other)], other);
            && (num < base && num < other ==> v == num)
            && (!(num < base && num < other) ==> if other < base then v < num else v > num && v == HighFirst(ds, other))
  {
    var j := Lead(ds, other);
    assert ds[..|ds|] == ds;
    if |ds| == 1 {
      assert ds[..0] == [];
    } else {
      AtLeast(ds, base);
      if other < base {
        BaseMono(ds[..j], other, base);
        if j < |ds| {
          PartLess(ds, j, base);
        }
      } else {
        assert forall i :: 0 <= i < j ==> ds[..j][i] == ds[i];
        BaseMono(ds, base, other);
      }
    }
  }

  /** A number of several digits is not less than the base. */
  lemma {:induction false} AtLeast(ds: seq<nat>, base: nat)
    requires |ds| > 0 && ds[0] > 0 && base > 0
    ensures HighFirst(ds, base) >= if |ds| == 1 then 1 else base
  {
    if |ds| > 1 {
      AtLeast(ds[..|ds| - 1], base);
      TimesUp(base, 1, HighFirst(ds[..|ds| - 1], base));
    }
  }

  lemma LargerBase(x: nat, y: nat, a: nat, b: nat)
    requires x <= y && 0 < a < b
    ensures x * a <= y * b && (y > 0 ==> x * a < y * b)
  {
    TimesUp(a, x, y);
    assert y * b == y * a + (b - a) * y;
    TimesUp(y, 1, b - a);
  }

  /** The same digits are worth no less in a larger base, and more if there are several. */
  lemma {:induction false} BaseMono(ds: seq<nat>, a: nat, b: nat)
    requires 0 < a < b
    ensures HighFirst(ds, a) <= HighFirst(ds, b)
    ensures |ds| > 1 && ds[0] > 0 ==> HighFirst(ds, a) < HighFirst(ds, b)
  {
    if |ds| > 0 {
      var rest := ds[..|ds| - 1];
      BaseMono(rest, a, b);
      LargerBase(HighFirst(rest, a), HighFirst(rest, b), a, b);
      if |ds| > 1 && ds[0] > 0 {
        AtLeast(rest, b);
      }
    }
  }

  /** The first digits alone are worth less than all. */
  lemma {:induction false} PartLess(ds: seq<nat>, j: nat, base: nat)
    requires j < |ds| && ds[0] > 0 && base >= 2
    ensures HighFirst(ds[..j], base) < HighFirst(ds, base)
    decreases |ds|
  {
    var rest := ds[..|ds| - 1];
    if |ds| > 1 {
      AtLeast(rest, base);
      TimesUp(HighFirst(rest, base), 2, base);
      if j < |ds| - 1 {
        PartLess(rest, j, base);
        assert rest[..j] == ds[..j];
      }
    }
  }

  /** The digits of 16454510724414655648 in octal */
  const OCTAL: seq<nat> := [1, 6] + [2, 1, 3, 2] + [1, 2, 4, 5] + [1, 3, 7, 1] + [4, 5, 6, 4] + [6, 2, 4, 0]

  lemma FourMore(ds: seq<nat>, v: nat, a: nat, b: nat, c: nat, d: nat, base: nat, w: nat)
    requires HighFirst(ds, base) == v && w == (((v * base + a) * base + b) * base + c) * base + d
    ensures HighFirst(ds + [a, b, c, d], base) == w
  {
    DigitMore(ds, a, base);
    DigitMore(ds + [a], b, base);
    DigitMore(ds + [a] + [b], c, base);
    DigitMore(ds + [a] + [b] + [c], d, base);
    assert ds + [a, b, c, d] == ds + [a] + [b] + [c] + [d];
  }

  lemma DigitMore(ds: seq<nat>, d: nat, base: nat)
    ensures HighFirst(ds + [d], base) == HighFirst(ds, base) * base + d
  {
    assert (ds + [d])[..|ds|] == ds;
  }

  lemma OctalValue()
    ensures HighFirst(OCTAL, 8) == 16454510724414655648
  {
    assert HighFirst([1, 6], 8) == 14 by { assert [1, 6][..1] == [1]; }
    FourMore([1, 6], 14, 2, 1, 3, 2, 8, 58458);
    FourMore([1, 6] + [2, 1, 3, 2], 58458, 1, 2, 4, 5, 8, 239444645);
    FourMore([1, 6] + [2, 1, 3, 2] + [1, 2, 4, 5], 239444645, 1, 3, 7, 1, 8, 980765266681);
    FourMore([1, 6] + [2, 1, 3, 2] + [1, 2, 4, 5] + [1, 3, 7, 1], 980765266681, 4, 5, 6, 4, 8, 4017214532327796);
    FourMore([1, 6] + [2, 1, 3, 2] + [1, 2, 4, 5] + [1, 3, 7, 1] + [4, 5, 6, 4], 4017214532327796, 6, 2, 4, 0, 8,
             16454510724414655648);
  }

  lemma OctalAsDecimal()
    ensures HighFirst(OCTAL, 10) == 1621321245137145646240
  {
    assert HighFirst([1, 6], 10) == 16 by { assert [1, 6][..1] == [1]; }
    FourMore([1, 6], 16, 2, 1, 3, 2, 10, 162132);
    FourMore([1, 6] + [2, 1, 3, 2], 162132, 1, 2, 4, 5, 10, 1621321245);
    FourMore([1, 6] + [2, 1, 3, 2] + [1, 2, 4, 5], 1621321245, 1, 3, 7, 1, 10, 16213212451371);
    FourMore([1, 6] + [2, 1, 3, 2] + [1, 2, 4, 5] + [1, 3, 7, 1], 16213212451371, 4, 5, 6, 4, 10, 162132124513714564);
    FourMore([1, 6] + [2, 1, 3, 2] + [1, 2, 4, 5] + [1, 3, 7, 1] + [4, 5, 6, 4], 162132124513714564, 6, 2, 4, 0, 10,
             1621321245137145646240);
  }

  lemma OctalDigits()
    ensures |OCTAL| == 22 && OCTAL[0] == 1 && Digits(OCTAL, 8)
  {
  }

  const PLAIN_OCTAL := Spec(8, false, false, false, false, 0, 0, NoSign)

  lemma Coincides(num: nat, ds: seq<nat>, max: nat)
    requires Represents(ds, num, 8) && 8 <= num < FULL && HighFirst(ds, 10) % FULL == num && |ds| < max
    ensures !ReadsBack(num, |ds|, PLAIN_OCTAL) && |Layout(num, ds, PLAIN_OCTAL)| == |ds|
    ensures Read(Layout(num, ds, PLAIN_OCTAL), max, 0) == num
  {
    assert Guess(num, |ds|, PLAIN_OCTAL) == 10 && Flush(num, |ds|, PLAIN_OCTAL);
    LeadAll(ds, 10);
    ReadAuto(num, ds, PLAIN_OCTAL, max);
  }

  /** That octal number is an exception: read as a decimal one it wraps around to itself. */
  lemma OctalCoincides(max: nat)
    requires max > 22
    ensures var num := 16454510724414655648;
            && Represents(OCTAL, num, 8) && !ReadsBack(num, |OCTAL|, PLAIN_OCTAL)
            && |Layout(num, OCTAL, PLAIN_OCTAL)| < max && Read(Layout(num, OCTAL, PLAIN_OCTAL), max, 0) == num
  {
    OctalDigits();
    OctalValue();
    OctalAsDecimal();
    Coincides(16454510724414655648, OCTAL, max);
  }

  lemma RadixHex(s: string, zeros: nat, ds: seq<nat>, small: bool)
    requires Body(s, 2, zeros, ds, small) && |ds| > 0 && s[0] == '0' && IsX(s[1])
    ensures Radix(s, 0) == (16, 2)
  {
    DigitReads(ds[0], small);
    assert s[2 + zeros + 0] == DigitChar(ds[0], small);
  }

  lemma RadixPlain(s: string, zeros: nat, ds: seq<nat>, small: bool, base: nat)
    requires Body(s, 0, zeros, ds, small) && |ds| > 0
    requires base == if zeros == 0 && ds[0] > 0 then 10 else 8
    ensures Radix(s, 0) == (base, 0)
  {
    NoX(s, zeros, ds, small);
    DigitReads(ds[0], small);
    assert s[0 + zeros + 0] == DigitChar(ds[0], small);
  }
}
