/** lib/stdio.c and atoi of lib/stdlib.c: formatting an integer never overruns the
    digit buffer, and reading a formatted decimal integer back gives the integer.
    The output callback appends to a sequence of characters. */
module Stdio {
  import opened Bits
  import opened Wrappers

  /** struct integer_base; `x` is the character after the 0 of a prefix, or none. */
  datatype Base = Base(base: nat, digits: string, x: string, group: nat)

  const BASE_D := Base(10, "0123456789", "", 3)
  const BASE_O := Base(8, "01234567", "", 3)
  const BASE_LOWER := Base(16, "0123456789abcdef", "x", 4)
  const BASE_UPPER := Base(16, "0123456789ABCDEF", "X", 4)

  /** What the digit loop needs of a base. */
  predicate Sound(b: Base) {
    b.base >= 8 && b.base == |b.digits| && b.group >= 3 && ',' !in b.digits
  }

  lemma BasesSound()
    ensures Sound(BASE_D) && Sound(BASE_O) && Sound(BASE_LOWER) && Sound(BASE_UPPER)
  {
  }

  /** struct printf_conversion, flags and numbers; precision -1 is none. */
  datatype Conversion = Conversion(minus: bool, plus: bool, space: bool, pound: bool, zero: bool, group: bool,
                                   width: int, precision: int)

  const BUF: nat := 64
  const UINTMAX_MAX: nat := 0xFFFF_FFFF_FFFF_FFFF

  // ----------------------------------------------------------------- sequences

  /** The digits of a number, most significant first; none for 0. */
  function Digits(v: nat, b: Base): string
    requires Sound(b)
  {
    if v == 0 then [] else Digits(v / b.base, b) + [b.digits[v % b.base]]
  }

  function Reversed(s: string): string {
    if s == [] then [] else [s[|s| - 1]] + Reversed(s[..|s| - 1])
  }

  /** The text from the high end, group separators left out. */
  function Text(s: string): string {
    if s == [] then [] else
    if s[|s| - 1] == ',' then Text(s[..|s| - 1]) else [s[|s| - 1]] + Text(s[..|s| - 1])
  }

  lemma {:induction false} TextIs(s: string)
    requires ',' !in s
    ensures Text(s) == Reversed(s)
  {
    if s != [] { TextIs(s[..|s| - 1]); }
  }

  lemma TextGrows(s: string, ch: char)
    ensures Text(s + [ch]) == if ch == ',' then Text(s) else [ch] + Text(s)
  {
    assert (s + [ch])[..|s|] == s;
  }

  function Dup(ch: char, n: int): string {
    if n <= 0 then [] else [ch] + Dup(ch, n - 1)
  }

  lemma {:induction false} DupBack(ch: char, n: nat)
    ensures Dup(ch, n + 1) == Dup(ch, n) + [ch]
  {
    if n > 0 { DupBack(ch, n - 1); }
  }

  // -------------------------------------------------------------------- widths

  lemma Width64(v: nat)
    requires v <= UINTMAX_MAX
    ensures v < Pow2(64) <= Pow2(66)
  {
    assert Pow2(4) == 0x10;
    Squared(4, 0x10);
    Squared(8, 0x100);
    Squared(16, 0x1_0000);
    Squared(32, 0x1_0000_0000);
  }

  lemma Squared(k: nat, p: nat)
    requires Pow2(k) == p
    ensures Pow2(2 * k) == p * p
  {
    Pow2Add(k, k);
  }

  lemma Quotient(v: nat, base: nat, p: nat)
    requires base >= 8 && v < 8 * p
    ensures v / base < p
  {
    var q := v / base;
    assert q * base <= v;
    assert q >= p ==> q * base >= p * base >= p * 8;
  }

  lemma Shrinks(v: nat, base: nat)
    requires v > 0 && base >= 8
    ensures 0 <= v / base < v
  {
    Quotient(v, base, v);
  }

  /** A number that is not 0 after n digits has at most 22 of them. */
  lemma MoreDigits(value: nat, n: nat, base: nat)
    requires n <= 22 && 0 < value < Pow2(66 - 3 * n) && base >= 8
    ensures n < 22 && value / base < Pow2(63 - 3 * n)
  {
    assert Pow2(0) == 1;
    var k: nat := 63 - 3 * n;
    assert Pow2(k + 3) == 2 * Pow2(k + 2) && Pow2(k + 2) == 2 * Pow2(k + 1) && Pow2(k + 1) == 2 * Pow2(k);
    Quotient(value, base, Pow2(k));
  }

  /** Where the digit loop is: `full` complete groups and `part` digits of the next one. */
  ghost predicate Phase(cp: nat, n: nat, group: bool, every: nat, full: nat, part: nat) {
    if group then part <= every && cp == full * (every + 1) + part && n == full * every + part && (n > 0 ==> part > 0)
    else cp == n && full == 0
  }

  lemma PhaseFits(cp: nat, n: nat, group: bool, every: nat, full: nat, part: nat)
    requires Phase(cp, n, group, every, full, part) && n <= 22 && every >= 3
    ensures cp <= 29
  {
    assert full >= 8 ==> full * every >= 8 * every;
    assert full * (every + 1) == full * every + full;
  }

  /** k modulo every + 1: the place within a group and its separator. */
  function Column(k: nat, every: nat): nat {
    if k <= every then k else Column(k - every - 1, every)
  }

  lemma {:induction false} ColumnIs(every: nat, full: nat, part: nat)
    requires part <= every
    ensures Column(full * (every + 1) + part, every) == part
  {
    if full > 0 {
      assert full * (every + 1) == (full - 1) * (every + 1) + every + 1;
      ColumnIs(every, full - 1, part);
    }
  }

  /** A separator goes in exactly when the group is complete, and starts the next one. */
  lemma PhaseSeparator(cp: nat, n: nat, every: nat, full: nat, part: nat)
    requires Phase(cp, n, true, every, full, part) && every >= 3
    ensures n > 0 && n % every == 0 <==> part == every
    ensures Column(cp, every) == part
    ensures part == every ==> cp + 1 == (full + 1) * (every + 1) && n == (full + 1) * every
  {
    ColumnIs(every, full, part);
    if part == every {
      NextGroup(full, every);
      ModIs(n, every, full + 1, 0);
    } else {
      ModIs(n, every, full, part);
    }
  }

  lemma NextGroup(full: nat, every: nat)
    ensures full * every + every == (full + 1) * every
    ensures full * (every + 1) + every + 1 == (full + 1) * (every + 1)
  {
  }

  // ----------------------------------------------------------- format_integer

  /** Separators stand after every `every` characters from the low end, and nowhere else. */
  predicate Separated(s: string, group: bool, every: nat) {
    forall k :: 0 <= k < |s| ==> (s[k] == ',' <==> group && Column(k, every) == every)
  }

  lemma SeparatedGrows(s: string, ch: char, group: bool, every: nat)
    requires Separated(s, group, every)
    requires ch == ',' <==> group && Column(|s|, every) == every
    ensures Separated(s + [ch], group, every)
  {
  }

  /** How far the loop is: at most 22 digits, and a separator due exactly at a full group. */
  ghost predicate Counted(s: string, value: nat, n: nat, group: bool, every: nat) {
    n <= 22 && value < Pow2(66 - 3 * n) && exists full: nat, part: nat :: Phase(|s|, n, group, every, full, part)
  }

  predicate SeparatorDue(n: nat, group: bool, every: nat)
    requires every > 0
  {
    group && n > 0 && n % every == 0
  }

  /** The text after one round of the loop. */
  function Extended(s: string, value: nat, n: nat, b: Base, group: bool): string
    requires Sound(b)
  {
    (if SeparatorDue(n, group, b.group) then s + [','] else s) + [b.digits[value % b.base]]
  }

  lemma ExtendedCounted(s: string, value: nat, n: nat, b: Base, group: bool)
    requires Sound(b) && value > 0 && Counted(s, value, n, group, b.group)
    ensures Counted(Extended(s, value, n, b, group), value / b.base, n + 1, group, b.group)
    ensures |Extended(s, value, n, b, group)| <= 29
  {
    MoreDigits(value, n, b.base);
    var t := Extended(s, value, n, b, group);
    var full: nat, part: nat :| Phase(|s|, n, group, b.group, full, part);
    if group { PhaseSeparator(|s|, n, b.group, full, part); }
    if SeparatorDue(n, group, b.group) {
      full, part := full + 1, 0;
    }
    assert Phase(|t|, n + 1, group, b.group, full, part + 1);
    PhaseFits(|t|, n + 1, group, b.group, full, part + 1);
  }

  lemma ExtendedSeparated(s: string, value: nat, n: nat, b: Base, group: bool)
    requires Sound(b) && value > 0 && Counted(s, value, n, group, b.group) && Separated(s, group, b.group)
    ensures Separated(Extended(s, value, n, b, group), group, b.group)
  {
    var full: nat, part: nat :| Phase(|s|, n, group, b.group, full, part);
    var due := SeparatorDue(n, group, b.group);
    var middle := if due then s + [','] else s;
    if group { PhaseSeparator(|s|, n, b.group, full, part); }
    if due {
      SeparatedGrows(s, ',', group, b.group);
      ColumnIs(b.group, full + 1, 0);
    }
    SeparatedGrows(middle, b.digits[value % b.base], group, b.group);
  }

  lemma Shift(high: string, ch: char, low: string)
    ensures (high + [ch]) + low == high + ([ch] + low)
  {
  }

  lemma ShiftFront(ch: char, high: string, low: string)
    ensures [ch] + (high + low) == ([ch] + high) + low
  {
  }

  lemma ExtendedDigits(s: string, value: nat, n: nat, b: Base, group: bool)
    requires Sound(b) && value > 0
    ensures Digits(value, b) + Text(s)
         == Digits(value / b.base, b) + Text(Extended(s, value, n, b, group))
  {
    var high: nat, ch := value / b.base, b.digits[value % b.base];
    var middle := if SeparatorDue(n, group, b.group) then s + [','] else s;
    TextGrows(s, ',');
    TextGrows(middle, ch);
    Shift(Digits(high, b), ch, Text(middle));
  }

  /** The digit loop after `n` digits, with `value` left of `v`. */
  ghost predicate Filling(s: string, value: nat, n: nat, v: nat, b: Base, group: bool)
    requires Sound(b)
  {
    && |s| <= 29
    && forall k: nat {:trigger Look(OfStdio, k)} :: Look(OfStdio, k) ==>
         && Counted(s, value, n, group, b.group) && Separated(s, group, b.group)
         && Digits(value, b) + Text(s) == Digits(v, b)
  }

  lemma FillingStarts(v: nat, b: Base, group: bool)
    requires Sound(b) && v <= UINTMAX_MAX
    ensures Filling([], v, 0, v, b, group)
  {
    Width64(v);
    assert Phase(0, 0, group, b.group, 0, 0);
  }

  lemma FillingGoesOn(s: string, value: nat, n: nat, v: nat, b: Base, group: bool)
    requires Sound(b) && value > 0 && Filling(s, value, n, v, b, group)
    ensures 0 <= value / b.base < value
    ensures Filling(Extended(s, value, n, b, group), value / b.base, n + 1, v, b, group)
  {
    assert Look(OfStdio, 0);
    ExtendedCounted(s, value, n, b, group);
    ExtendedSeparated(s, value, n, b, group);
    ExtendedDigits(s, value, n, b, group);
    Shrinks(value, b.base);
  }

  lemma FillingEnds(s: string, n: nat, v: nat, b: Base, group: bool)
    requires Sound(b) && Filling(s, 0, n, v, b, group)
    ensures Text(s) == Digits(v, b) && Separated(s, group, b.group)
  {
    assert Look(OfStdio, 0);
  }

  /** `*cp++ = ch` */
  method Put(buf: array<char>, cp: nat, ch: char) returns (next: nat)
    requires cp < buf.Length
    modifies buf
    ensures next == cp + 1 && buf[..next] == old(buf[..cp]) + [ch]
  {
    buf[cp] := ch;
    next := cp + 1;
  }

  /** One round of the digit loop. */
  method Round(value: nat, n: nat, b: Base, group: bool, buf: array<char>, cp: nat) returns (next: nat)
    requires Sound(b) && cp + 1 < buf.Length
    modifies buf
    ensures next <= buf.Length && buf[..next] == Extended(old(buf[..cp]), value, n, b, group)
  {
    next := cp;
    if SeparatorDue(n, group, b.group) {
      next := Put(buf, next, ',');
    }
    next := Put(buf, next, b.digits[value % b.base]);
  }

  /** Digits, lowest first, with separators, into the buffer: at most 29 characters. */
  method Accumulate(v: nat, b: Base, group: bool, buf: array<char>) returns (cp: nat)
    requires Sound(b) && v <= UINTMAX_MAX && buf.Length == BUF
    modifies buf
    ensures cp <= 29 && Text(buf[..cp]) == Digits(v, b) && Separated(buf[..cp], group, b.group)
  {
    var value: nat, n: nat := v, 0;
    cp := 0;
    FillingStarts(v, b, group);
    while value > 0
      invariant cp <= buf.Length && Filling(buf[..cp], value, n, v, b, group)
      decreases value
    {
      FillingGoesOn(buf[..cp], value, n, v, b, group);
      cp := Round(value, n, b, group, buf, cp);
      value := value / b.base;
      n := n + 1;
    }
    FillingEnds(buf[..cp], n, v, b, group);
  }

  /** The precision that applies: a number without one shows at least one digit. */
  function Least(c: Conversion): nat {
    if c.precision < 0 then 1 else c.precision
  }

  /** `low`, lowest character first, is `z` zeros above the digits of `v`. */
  ghost predicate Shows(low: string, z: nat, v: nat, b: Base, group: bool)
    requires Sound(b)
  {
    && z <= |low|
    && forall k: nat {:trigger Look(OfStdio, k)} :: Look(OfStdio, k) ==>
         && Separated(low[..|low| - z], group, b.group) && low[|low| - z..] == Dup('0', z)
         && Text(low) == Dup('0', z) + Digits(v, b)
  }

  lemma ShowsDigits(low: string, v: nat, b: Base, group: bool)
    requires Sound(b) && Separated(low, group, b.group) && Text(low) == Digits(v, b)
    ensures Shows(low, 0, v, b, group)
  {
    assert low[..|low|] == low && low[|low|..] == [] && [] + Digits(v, b) == Digits(v, b);
  }

  /** The zeros are those that the precision and the # flag ask for, and no more; a
      precision above 63 is not met. */
  ghost predicate Tight(low: string, z: nat, b: Base, c: Conversion) {
    var octal := c.pound && b.base == 8;
    && (|low| >= Least(c) <==> Least(c) <= BUF - 1)
    && (octal ==> low != [] && low[|low| - 1] == '0')
    && (z > 0 ==> |low| <= Least(c) || (octal && z == 1))
  }

  lemma ZeroText(low: string, z: nat, digits: string)
    requires Text(low) == Dup('0', z) + digits
    ensures Text(low + ['0']) == Dup('0', z + 1) + digits
  {
    TextGrows(low, '0');
    ShiftFront('0', Dup('0', z), digits);
  }

  lemma ZeroTop(low: string, z: nat)
    requires z <= |low| && low[|low| - z..] == Dup('0', z)
    ensures (low + ['0'])[..|low| - z] == low[..|low| - z] && (low + ['0'])[|low| - z..] == Dup('0', z + 1)
  {
    DupBack('0', z);
  }

  lemma ShowsZero(low: string, z: nat, v: nat, b: Base, group: bool)
    requires Sound(b) && Shows(low, z, v, b, group)
    ensures Shows(low + ['0'], z + 1, v, b, group)
  {
    assert Look(OfStdio, 0);
    ZeroTop(low, z);
    ZeroText(low, z, Digits(v, b));
  }

  /** One zero more above the digits. */
  method PutZero(v: nat, b: Base, group: bool, buf: array<char>, cp: nat, ghost z: nat) returns (next: nat)
    requires Sound(b) && cp < buf.Length && Shows(buf[..cp], z, v, b, group)
    modifies buf
    ensures next == cp + 1 && next <= buf.Length && Shows(buf[..next], z + 1, v, b, group) && buf[cp] == '0'
  {
    ShowsZero(buf[..cp], z, v, b, group);
    next := Put(buf, cp, '0');
    assert buf[..next][cp] == '0';
  }

  method Zeros(v: nat, b: Base, c: Conversion, buf: array<char>, from: nat) returns (cp: nat, ghost z: nat)
    requires Sound(b) && buf.Length == BUF && from <= 29 && Shows(buf[..from], 0, v, b, c.group)
    modifies buf
    ensures cp < BUF && Shows(buf[..cp], z, v, b, c.group)
    ensures (cp >= Least(c) <==> Least(c) <= BUF - 1)
            && (if z > 0 then cp <= Least(c) && buf[cp - 1] == '0' else cp <= 29)
  {
    var least := Least(c);
    cp, z := from, 0;
    while cp < least && cp < BUF - 1
      invariant cp == from + z && cp < BUF && Shows(buf[..cp], z, v, b, c.group)
      invariant z > 0 ==> cp <= least && buf[cp - 1] == '0'
    {
      cp := PutZero(v, b, c.group, buf, cp, z);
      z := z + 1;
    }
  }

  /** Digits and zeros into the 64-character buffer, which they never overrun. */
  method Render(v: nat, b: Base, c: Conversion, buf: array<char>) returns (cp: nat, ghost z: nat)
    requires Sound(b) && v <= UINTMAX_MAX && buf.Length == BUF
    modifies buf
    ensures cp <= BUF && Shows(buf[..cp], z, v, b, c.group) && Tight(buf[..cp], z, b, c)
  {
    cp := Accumulate(v, b, c.group, buf);
    ShowsDigits(buf[..cp], v, b, c.group);
    cp, z := Zeros(v, b, c, buf, cp);
    if c.pound && b.base == 8 && (cp == 0 || buf[cp - 1] != '0') {
      cp := PutZero(v, b, c.group, buf, cp, z);
      z := z + 1;
    }
  }

  /** The character of the sign, if there is one. */
  function SignOf(isSigned: bool, negative: bool, c: Conversion): string {
    if !isSigned then "" else
    if negative then "-" else
    if c.plus then "+" else
    if c.space then " " else ""
  }

  function PrefixOf(v: nat, b: Base, c: Conversion): string {
    if c.pound && v != 0 && b.x != "" then "0" + b.x else ""
  }

  function Padding(body: string, sign: string, prefix: string, c: Conversion): nat {
    var pad := Wrap(c.width - |body| - |prefix| - |sign|);
    if pad < 0 then 0 else pad
  }

  /** The whole field: blanks, sign, prefix, zeros, digits, blanks. */
  function Field(body: string, sign: string, prefix: string, c: Conversion): string {
    var pad := Padding(body, sign, prefix, c);
    Dup(' ', if c.minus || c.zero then 0 else pad) + sign + prefix + Dup('0', if c.zero then pad else 0) + body
      + Dup(' ', if c.minus then pad else 0)
  }

  /** How long the field is. */
  lemma FieldLength(body: string, sign: string, prefix: string, c: Conversion)
    ensures var pad := Padding(body, sign, prefix, c);
            |Field(body, sign, prefix, c)| == |sign| + |prefix| + |body| + if c.minus && c.zero then 2 * pad else pad
  {
    var pad := Padding(body, sign, prefix, c);
    DupLength(' ', pad);
    DupLength('0', pad);
  }

  lemma {:induction false} DupLength(ch: char, n: nat)
    ensures |Dup(ch, n)| == n
  {
    if n > 0 { DupLength(ch, n - 1); }
  }

  method OutputDup(ch: char, n: nat, out: string) returns (r: string)
    ensures r == out + Dup(ch, n)
  {
    r := out;
    var k: nat := 0;
    while k < n
      invariant k <= n && r == out + Dup(ch, k)
    {
      DupBack(ch, k);
      r := r + [ch];
      k := k + 1;
    }
  }

  method OutputReversed(buf: array<char>, cp: nat, out: string) returns (r: string)
    requires cp <= buf.Length
    ensures r == out + Reversed(buf[..cp])
  {
    r := out;
    var k: nat := cp;
    while k > 0
      invariant k <= cp && r + Reversed(buf[..k]) == out + Reversed(buf[..cp])
    {
      assert buf[..k][..k - 1] == buf[..k - 1];
      Shift(r, buf[k - 1], Reversed(buf[..k - 1]));
      k := k - 1;
      r := r + [buf[k]];
    }
    assert r + [] == r;
  }

  method FormatInteger(v: nat, isSigned: bool, negative: bool, b: Base, c: Conversion)
      returns (out: string, ghost low: string, ghost z: nat)
    requires Sound(b) && v <= UINTMAX_MAX
    ensures Shows(low, z, v, b, c.group) && Tight(low, z, b, c)
    ensures out == Field(Reversed(low), SignOf(isSigned, negative, c), PrefixOf(v, b, c), c)
  {
    var sign := "";
    if isSigned {
      if c.plus {
        sign := if negative then "-" else "+";
      } else if c.space {
        sign := if negative then "-" else " ";
      } else if negative {
        sign := "-";
      }
    }
    var prefix := if c.pound && v != 0 && b.x != "" then "0" + b.x else "";
    var buf := new char[BUF];
    var cp;
    cp, z := Render(v, b, c, buf);
    low := buf[..cp];
    ReversedLength(low);
    out := Write(buf, cp, sign, prefix, c);
  }

  lemma {:induction false} ReversedLength(s: string)
    ensures |Reversed(s)| == |s|
  {
    if s != [] { ReversedLength(s[..|s| - 1]); }
  }

  /** The output part. */
  method Write(buf: array<char>, cp: nat, sign: string, prefix: string, c: Conversion) returns (out: string)
    requires cp <= buf.Length && |Reversed(buf[..cp])| == cp
    ensures out == Field(Reversed(buf[..cp]), sign, prefix, c)
  {
    var pad := Wrap(c.width - cp - |prefix| - |sign|);
    if pad < 0 {
      pad := 0;
    }
    out := OutputDup(' ', if c.minus || c.zero then 0 else pad, "");
    out := out + sign + prefix;
    out := OutputDup('0', if c.zero then pad else 0, out);
    out := OutputReversed(buf, cp, out);
    out := OutputDup(' ', if c.minus then pad else 0, out);
  }

  // --------------------------------------------------------------------- atoi

  const INT_MIN: int := -0x8000_0000

  predicate IsInt(v: int) {
    INT_MIN <= v < -INT_MIN
  }

  /** A result as a 32-bit int holds it. */
  function Wrap(v: int): int {
    (v - INT_MIN) % 0x1_0000_0000 + INT_MIN
  }

  lemma WrapIs(v: int)
    ensures IsInt(Wrap(v)) && (IsInt(v) ==> Wrap(v) == v)
  {
  }

  predicate IsSpace(ch: char) {
    ch == ' ' || ch == '\n' || ch == '\r' || ch == '\t' || ch == '\U{0C}' || ch == '\U{0B}'
  }

  predicate IsDigit(ch: char) {
    '0' <= ch <= '9'
  }

  /** The value, negated, of the digits that a string starts with; `acc` is what came before. */
  function Negated(s: string, acc: int): int {
    if s == [] || !IsDigit(s[0]) then acc else Negated(s[1..], Wrap(acc * 10 - (s[0] - '0') as int))
  }

  function Blanks(s: string): nat
    ensures Blanks(s) <= |s|
  {
    if s == [] || !IsSpace(s[0]) then 0 else 1 + Blanks(s[1..])
  }

  /** The integer that a string reads as. */
  function Parsed(s: string): int {
    var t := s[Blanks(s)..];
    if t != [] && t[0] == '-' then Negated(t[1..], 0)
    else if t != [] && t[0] == '+' then Wrap(-Negated(t[1..], 0))
    else Wrap(-Negated(t, 0))
  }

  method Atoi(s: string) returns (value: int)
    ensures value == Parsed(s)
  {
    var i: nat := 0;
    while i < |s| && IsSpace(s[i])
      invariant i <= |s| && Blanks(s) == i + Blanks(s[i..])
    {
      i := i + 1;
    }
    ghost var t := s[i..];
    var negative := false;
    if i < |s| && s[i] == '+' {
      i := i + 1;
    } else if i < |s| && s[i] == '-' {
      negative := true;
      i := i + 1;
    }
    value := ReadDigits(s, i);
    if !negative {
      value := Wrap(-value);
    }
  }

  method ReadDigits(s: string, start: nat) returns (value: int)
    requires start <= |s|
    ensures value == Negated(s[start..], 0)
  {
    value := 0;
    var i := start;
    while i < |s| && IsDigit(s[i])
      invariant start <= i <= |s| && Negated(s[i..], value) == Negated(s[start..], 0)
    {
      assert s[i..][1..] == s[i + 1..];
      value := Wrap(value * 10 - (s[i] - '0') as int);
      i := i + 1;
    }
  }

  predicate AllDigits(s: string) {
    forall k :: 0 <= k < |s| ==> IsDigit(s[k])
  }

  lemma {:induction false} NegatedThrough(s: string, t: string, acc: int)
    requires AllDigits(s)
    ensures Negated(s + t, acc) == Negated(t, Negated(s, acc))
  {
    if s == [] {
      assert s + t == t;
    } else {
      assert (s + t)[1..] == s[1..] + t;
      NegatedThrough(s[1..], t, Wrap(acc * 10 - (s[0] - '0') as int));
    }
  }

  lemma {:induction false} NegatedZeros(n: nat)
    ensures AllDigits(Dup('0', n)) && Negated(Dup('0', n), 0) == 0
  {
    if n > 0 {
      NegatedZeros(n - 1);
      assert Dup('0', n)[1..] == Dup('0', n - 1);
    }
  }

  lemma DecimalDigit(d: nat)
    requires d < 10
    ensures IsDigit(BASE_D.digits[d]) && (BASE_D.digits[d] - '0') as int == d
  {
  }

  lemma OneDigitMore(high: string, q: nat, ch: char, d: nat)
    requires AllDigits(high) && Negated(high, 0) == 0 - q && IsDigit(ch) && (ch - '0') as int == d
    requires 10 * q + d <= -INT_MIN
    ensures AllDigits(high + [ch]) && Negated(high + [ch], 0) == 0 - (10 * q + d)
  {
    NegatedThrough(high, [ch], 0);
    assert [ch][1..] == [];
    WrapIs(0 - (10 * q + d));
  }

  /** No step of reading the digits of at most 2^31 leaves the range of an int. */
  lemma {:induction false} NegatedDigits(v: nat)
    requires v <= -INT_MIN && Sound(BASE_D)
    ensures AllDigits(Digits(v, BASE_D)) && Negated(Digits(v, BASE_D), 0) == 0 - v
  {
    if v > 0 {
      NegatedDigits(v / 10);
      DecimalDigit(v % 10);
      OneDigitMore(Digits(v / 10, BASE_D), v / 10, BASE_D.digits[v % 10], v % 10);
    }
  }

  lemma {:induction false} BlanksThrough(n: nat, t: string)
    ensures Blanks(Dup(' ', n) + t) == n + Blanks(t)
    ensures (Dup(' ', n) + t)[n..] == t
  {
    if n > 0 {
      BlanksThrough(n - 1, t);
      assert (Dup(' ', n) + t)[1..] == Dup(' ', n - 1) + t;
    } else {
      assert Dup(' ', n) + t == t;
    }
  }

  /** Zeros, the digits of v, blanks: reads as v. */
  lemma NegatedField(zeros: nat, z: nat, v: nat, after: nat)
    requires v <= -INT_MIN && Sound(BASE_D)
    ensures Negated(Dup('0', zeros) + (Dup('0', z) + Digits(v, BASE_D)) + Dup(' ', after), 0) == 0 - v
  {
    var d, t := Digits(v, BASE_D), Dup(' ', after);
    NegatedZeros(zeros);
    NegatedZeros(z);
    NegatedDigits(v);
    NegatedThrough(Dup('0', z), d, 0);
    NegatedThrough(Dup('0', zeros), Dup('0', z) + d, 0);
    NegatedThrough(Dup('0', zeros) + (Dup('0', z) + d), t, 0);
  }

  lemma DropTwice(s: string, i: nat, j: nat)
    requires i + j <= |s|
    ensures s[i..][j..] == s[i + j..]
  {
  }

  lemma SkipLead(n: nat, u: string)
    ensures Parsed(Dup(' ', n) + u) == Parsed(u)
  {
    BlanksThrough(n, u);
    DropTwice(Dup(' ', n) + u, n, Blanks(u));
  }

  lemma ParsedSigned(sign: char, rest: string)
    requires sign == '-' || sign == '+'
    ensures Parsed([sign] + rest) == if sign == '-' then Negated(rest, 0) else Wrap(-Negated(rest, 0))
  {
    assert ([sign] + rest)[1..] == rest && ([sign] + rest)[0..] == [sign] + rest;
  }

  lemma ParsedDigits(rest: string)
    requires rest != [] && IsDigit(rest[0])
    ensures Parsed(rest) == Wrap(-Negated(rest, 0))
  {
    assert rest[0..] == rest;
  }

  lemma ParsedBlanks(after: nat)
    ensures Parsed(Dup(' ', after)) == 0 && Wrap(-Negated(Dup(' ', after), 0)) == 0
  {
    SkipLead(after, []);
    assert Dup(' ', after) + [] == Dup(' ', after);
  }

  /** No sign: digits at once, or nothing but blanks. */
  lemma ParsedUnsigned(rest: string, after: nat)
    requires (rest != [] && IsDigit(rest[0])) || rest == Dup(' ', after)
    ensures Parsed(rest) == Wrap(-Negated(rest, 0))
  {
    if rest == Dup(' ', after) { ParsedBlanks(after); } else { ParsedDigits(rest); }
  }

  /** What sign and digits read as, whatever blanks come before. */
  lemma ParsedField(lead: nat, sign: string, rest: string, after: nat)
    requires sign in {"", "+", " ", "-"}
    requires (rest != [] && IsDigit(rest[0])) || rest == Dup(' ', after)
    ensures Parsed(Dup(' ', lead) + (sign + rest)) == if sign == "-" then Negated(rest, 0) else Wrap(-Negated(rest, 0))
  {
    SkipLead(lead, sign + rest);
    if sign == "" {
      assert sign + rest == rest;
      ParsedUnsigned(rest, after);
    } else if sign == " " {
      assert Dup(' ', 1) == " ";
      SkipLead(1, rest);
      ParsedUnsigned(rest, after);
    } else {
      ParsedSigned(sign[0], rest);
    }
  }

  /** Without grouping the text is the zeros and the digits. */
  lemma ShowsDecimal(low: string, z: nat, v: nat)
    requires Sound(BASE_D) && Shows(low, z, v, BASE_D, false)
    ensures Reversed(low) == Dup('0', z) + Digits(v, BASE_D)
  {
    assert Look(OfStdio, 0);
    NegatedZeros(z);
    var n := |low| - z;
    forall k | 0 <= k < |low|
      ensures low[k] != ','
    {
      if k < n {
        assert low[..n][k] == low[k];
      } else {
        assert low[n..][k - n] == low[k];
      }
    }
    TextIs(low);
  }

  lemma FirstDigit(zeros: nat, z: nat, v: nat, after: nat)
    requires v <= -INT_MIN && Sound(BASE_D)
    ensures var rest := Dup('0', zeros) + (Dup('0', z) + Digits(v, BASE_D)) + Dup(' ', after);
            (rest != [] && IsDigit(rest[0])) || rest == Dup(' ', after)
  {
    NegatedZeros(zeros);
    NegatedZeros(z);
    NegatedDigits(v);
    var body := Dup('0', zeros) + (Dup('0', z) + Digits(v, BASE_D));
    assert AllDigits(body);
    assert body == [] ==> body + Dup(' ', after) == Dup(' ', after);
  }

  function Magnitude(value: int): nat {
    if value < 0 then -value else value
  }

  lemma Regrouped(a: string, b: string, p: string, c: string, d: string, e: string)
    requires p == ""
    ensures a + b + p + c + d + e == a + (b + (c + d + e))
  {
  }

  lemma NumberRead(value: int, lead: nat, sign: string, rest: string, after: nat)
    requires IsInt(value) && Negated(rest, 0) == 0 - Magnitude(value)
    requires sign in {"", "+", " ", "-"} && (sign == "-" <==> value < 0)
    requires (rest != [] && IsDigit(rest[0])) || rest == Dup(' ', after)
    ensures Parsed(Dup(' ', lead) + (sign + rest)) == value
  {
    ParsedField(lead, sign, rest, after);
    WrapIs(value);
  }

  lemma PartsRead(value: int, lead: nat, sign: string, zeros: nat, z: nat, after: nat)
    requires IsInt(value) && Sound(BASE_D) && sign in {"", "+", " ", "-"} && (sign == "-" <==> value < 0)
    ensures Parsed(Dup(' ', lead)
              + (sign + (Dup('0', zeros) + (Dup('0', z) + Digits(Magnitude(value), BASE_D))
                           + Dup(' ', after)))) == value
  {
    var v := Magnitude(value);
    NegatedField(zeros, z, v, after);
    FirstDigit(zeros, z, v, after);
    NumberRead(value, lead, sign, Dup('0', zeros) + (Dup('0', z) + Digits(v, BASE_D)) + Dup(' ', after), after);
  }

  /** Reading a decimal conversion without grouping gives back its argument, for every int,
      every width, every precision and every other flag. */
  lemma ReadBack(value: int, low: string, z: nat, c: Conversion)
    requires IsInt(value) && !c.group && Sound(BASE_D) && Shows(low, z, Magnitude(value), BASE_D, false)
    ensures Parsed(Field(Reversed(low), SignOf(true, value < 0, c), PrefixOf(Magnitude(value), BASE_D, c), c)) == value
  {
    var v, sign, prefix := Magnitude(value), SignOf(true, value < 0, c), PrefixOf(Magnitude(value), BASE_D, c);
    ShowsDecimal(low, z, v);
    var body := Dup('0', z) + Digits(v, BASE_D);
    var pad := Padding(body, sign, prefix, c);
    var lead, zeros := if c.minus || c.zero then 0 else pad, if c.zero then pad else 0;
    var after := if c.minus then pad else 0;
    Regrouped(Dup(' ', lead), sign, prefix, Dup('0', zeros), body, Dup(' ', after));
    PartsRead(value, lead, sign, zeros, z, after);
  }

  /** The d and i conversions of an int, read with atoi. */
  method PrintThenRead(value: int, c: Conversion) returns (r: int)
    requires IsInt(value) && !c.group
    ensures r == value
  {
    BasesSound();
    var out, low, z := FormatInteger(Magnitude(value), true, value < 0, BASE_D, c);
    ReadBack(value, low, z, c);
    r := Atoi(out);
  }

  // ---------------------------------------------------------- parse_conversion

  predicate IsFlag(ch: char) {
    ch == '-' || ch == '+' || ch == ' ' || ch == '#' || ch == '0' || ch == '\''
  }

  /** The number of flag characters a conversion starts with. */
  function FlagPart(s: string): (n: nat)
    ensures n <= |s|
  {
    if s == [] || !IsFlag(s[0]) then 0 else 1 + FlagPart(s[1..])
  }

  predicate Given(s: string, flag: char) {
    flag in s[..FlagPart(s)]
  }

  function DigitPart(s: string): (n: nat)
    ensures n <= |s|
  {
    if s == [] || !IsDigit(s[0]) then 0 else 1 + DigitPart(s[1..])
  }

  /** The value of the digits a string starts with; `acc` is what came before. */
  function Decimal(s: string, acc: int): int {
    if s == [] || !IsDigit(s[0]) then acc else Decimal(s[1..], Wrap(acc * 10 + (s[0] - '0') as int))
  }

  /** A field width or precision, and the format and the arguments that are left.  A `*`
      takes an argument; where the caller gave none this reads a 0. */
  datatype Number = Number(value: int, rest: string, args: seq<int>)

  function NumberAt(s: string, args: seq<int>): Number {
    if s != [] && s[0] == '*' then
      if args == [] then Number(0, s[1..], args) else Number(args[0], s[1..], args[1..])
    else Number(Decimal(s, 0), s[DigitPart(s)..], args)
  }

  function WidthAt(s: string, args: seq<int>): Number {
    NumberAt(s[FlagPart(s)..], args)
  }

  function PrecisionAt(s: string, args: seq<int>): Number {
    if s != [] && s[0] == '.' then
      var n := NumberAt(s[1..], args);
      n.(value := if n.value < 0 then -1 else n.value)
    else Number(-1, s, args)
  }

  /** What a conversion asks for: a negative width asks for the - flag, and the 0 flag is
      ignored next to a - flag and next to a precision, but not next to a negative width. */
  function ConversionOf(s: string, args: seq<int>): Conversion {
    var w := WidthAt(s, args);
    var p := PrecisionAt(w.rest, w.args);
    Conversion(Given(s, '-') || w.value < 0, Given(s, '+'), Given(s, ' ') && !Given(s, '+'), Given(s, '#'),
               Given(s, '0') && !Given(s, '-') && p.value < 0, Given(s, '\''),
               if w.value < 0 then Wrap(-w.value) else w.value, p.value)
  }

  /** parse_conversion's loop over flags, and what they exclude. */
  method ParseFlags(s: string) returns (c: Conversion, i: nat)
    ensures i == FlagPart(s)
    ensures c == Conversion(Given(s, '-'), Given(s, '+'), Given(s, ' ') && !Given(s, '+'), Given(s, '#'),
                            Given(s, '0') && !Given(s, '-'), Given(s, '\''), 0, -1)
  {
    c, i := Conversion(false, false, false, false, false, false, 0, -1), 0;
    while i < |s| && IsFlag(s[i])
      invariant i <= |s| && FlagPart(s) == i + FlagPart(s[i..])
      invariant c == Conversion('-' in s[..i], '+' in s[..i], ' ' in s[..i], '#' in s[..i], '0' in s[..i],
                                '\'' in s[..i], 0, -1)
    {
      assert s[..i + 1] == s[..i] + [s[i]] && s[i..][1..] == s[i + 1..];
      match s[i] {
        case '-' => c := c.(minus := true);
        case '+' => c := c.(plus := true);
        case ' ' => c := c.(space := true);
        case '#' => c := c.(pound := true);
        case '0' => c := c.(zero := true);
        case _ => c := c.(group := true);
      }
      i := i + 1;
    }
    if c.minus { c := c.(zero := false); }
    if c.plus { c := c.(space := false); }
  }

  /** A `*` or digits. */
  method ParseNumber(s: string, start: nat, args: seq<int>) returns (value: int, i: nat, left: seq<int>)
    requires start <= |s|
    ensures i <= |s| && NumberAt(s[start..], args) == Number(value, s[i..], left)
  {
    if start < |s| && s[start] == '*' {
      assert s[start..][1..] == s[start + 1..];
      if args == [] { return 0, start + 1, args; }
      return args[0], start + 1, args[1..];
    }
    value, i, left := 0, start, args;
    while i < |s| && IsDigit(s[i])
      invariant start <= i <= |s| && Decimal(s[i..], value) == Decimal(s[start..], 0)
      invariant DigitPart(s[start..]) == i - start + DigitPart(s[i..])
    {
      assert s[i..][1..] == s[i + 1..];
      value := Wrap(value * 10 + (s[i] - '0') as int);
      i := i + 1;
    }
    assert s[start..][i - start..] == s[i..];
  }

  /** A `.` and the number after it, or a precision of -1. */
  method ParsePrecision(s: string, start: nat, args: seq<int>) returns (value: int, i: nat, left: seq<int>)
    requires start <= |s|
    ensures i <= |s| && PrecisionAt(s[start..], args) == Number(value, s[i..], left)
  {
    if start == |s| || s[start] != '.' { return -1, start, args; }
    assert s[start..][1..] == s[start + 1..];
    value, i, left := ParseNumber(s, start + 1, args);
    if value < 0 { value := -1; }
  }

  /** parse_conversion up to the argument's type. */
  method ParseConversion(s: string, args: seq<int>) returns (c: Conversion, i: nat, left: seq<int>)
    ensures i <= |s| && c == ConversionOf(s, args)
    ensures var w := WidthAt(s, args); var p := PrecisionAt(w.rest, w.args); s[i..] == p.rest && left == p.args
  {
    c, i := ParseFlags(s);
    var value;
    value, i, left := ParseNumber(s, i, args);
    c := c.(width := value);
    if c.width < 0 { c := c.(width := Wrap(-c.width), minus := true); }
    value, i, left := ParsePrecision(s, i, left);
    c := c.(precision := value);
    if c.precision >= 0 { c := c.(zero := false); }
  }

  /** The - and 0 flags can only both be left standing by a negative width. */
  lemma BothExactly(s: string, args: seq<int>)
    ensures var c, w := ConversionOf(s, args), WidthAt(s, args);
            c.minus && c.zero <==>
              Given(s, '0') && !Given(s, '-') && w.value < 0 && PrecisionAt(w.rest, w.args).value < 0
  {
  }

  /** The most that `n` more digits can make of `acc`. */
  function Nines(acc: nat, n: nat): nat
    decreases n
  {
    if n == 0 then acc else Nines(acc * 10 + 9, n - 1)
  }

  lemma {:induction false} NinesMost(a: nat, b: nat, n: nat)
    requires a <= b
    ensures a <= Nines(a, n) <= Nines(b, n)
    decreases n
  {
    if n > 0 { NinesMost(a * 10 + 9, b * 10 + 9, n - 1); }
  }

  lemma {:induction false} DecimalMost(s: string, acc: nat, n: nat)
    requires n == DigitPart(s) && Nines(acc, n) < -INT_MIN
    ensures 0 <= Decimal(s, acc) <= Nines(acc, n)
  {
    if n > 0 {
      var next := acc * 10 + (s[0] - '0') as int;
      NinesMost(next, acc * 10 + 9, n - 1);
      WrapIs(next);
      DecimalMost(s[1..], next, n - 1);
    }
  }

  /** Digits make a width negative only by overflowing an int: nine cannot. */
  lemma NineDigits(s: string, args: seq<int>)
    requires var t := s[FlagPart(s)..]; !(t != [] && t[0] == '*') && DigitPart(t) <= 9
    ensures WidthAt(s, args).value >= 0
  {
    var t := s[FlagPart(s)..];
    FewNines(DigitPart(t));
    DecimalMost(t, 0, DigitPart(t));
  }

  lemma FewNines(n: nat)
    requires n <= 9
    ensures Nines(0, n) < -INT_MIN
  {
    NinesLonger(0, n, 9);
    assert Nines(0, 9) == Nines(9999, 5) == Nines(9_9999_9999, 0);
  }

  lemma {:induction false} NinesLonger(acc: nat, n: nat, m: nat)
    requires n <= m
    ensures Nines(acc, n) <= Nines(acc, m)
    decreases n
  {
    if n == 0 {
      NinesMost(acc, acc, m);
    } else {
      NinesLonger(acc * 10 + 9, n - 1, m - 1);
    }
  }

  /** The width a conversion asks for. */
  function Asked(s: string, args: seq<int>): nat {
    var w := WidthAt(s, args).value;
    if w < 0 then -w else w
  }

  /** The field is as wide as asked, and no wider than it must be, unless a negative width
      stands next to a 0 flag, with no - flag and no precision, and the text is narrower: then
      it is padded on both sides.  The least int asks an empty text for nothing. */
  lemma FieldWidth(body: string, sign: string, prefix: string, s: string, args: seq<int>)
    requires (forall k :: 0 <= k < |args| ==> IsInt(args[k])) && |sign| + |prefix| + |body| < -INT_MIN
    ensures var n, asked, w := |sign| + |prefix| + |body|, Asked(s, args), WidthAt(s, args);
            var both := Given(s, '0') && !Given(s, '-') && w.value < 0 && PrecisionAt(w.rest, w.args).value < 0;
            |Field(body, sign, prefix, ConversionOf(s, args))| == (if n < asked then asked else n) <==>
              !(both && n < asked) && !(w.value == INT_MIN && n == 0)
  {
    WidthIsInt(s, args);
    FieldLength(body, sign, prefix, ConversionOf(s, args));
    BothExactly(s, args);
    PaddingIs(body, sign, prefix, s, args);
  }

  lemma WidthIsInt(s: string, args: seq<int>)
    requires forall k :: 0 <= k < |args| ==> IsInt(args[k])
    ensures IsInt(WidthAt(s, args).value)
  {
    DecimalIsInt(s[FlagPart(s)..], 0);
  }

  lemma {:induction false} DecimalIsInt(s: string, acc: int)
    requires IsInt(acc)
    ensures IsInt(Decimal(s, acc))
  {
    if s != [] && IsDigit(s[0]) {
      WrapIs(acc * 10 + (s[0] - '0') as int);
      DecimalIsInt(s[1..], Wrap(acc * 10 + (s[0] - '0') as int));
    }
  }

  lemma PaddingIs(body: string, sign: string, prefix: string, s: string, args: seq<int>)
    requires |sign| + |prefix| + |body| < -INT_MIN && IsInt(WidthAt(s, args).value)
    ensures var n, asked := |sign| + |prefix| + |body|, Asked(s, args);
            Padding(body, sign, prefix, ConversionOf(s, args)) ==
              if n < asked && !(WidthAt(s, args).value == INT_MIN && n == 0) then asked - n else 0
  {
    var w := WidthAt(s, args).value;
    WrapIs(-w);
  }

  /** `%0*d` with width -3. */
  lemma NegativeWidth()
    ensures ConversionOf("0*d", [-3]) == Conversion(true, false, false, false, true, false, 3, -1)
  {
    var s: string := "0*d";
    assert s[1..] == "*d" && FlagPart("*d") == 0 && FlagPart(s) == 1;
    assert s[..1] == ['0'];
    assert WidthAt(s, [-3]).value == -3 && WidthAt(s, [-3]).rest == "d";
  }

  /** It prints 7 with zeros before and blanks after, five characters in all. */
  lemma BothSides()
    ensures Field("7", "", "", ConversionOf("0*d", [-3])) == "007  "
  {
    NegativeWidth();
    var c := Conversion(true, false, false, false, true, false, 3, -1);
    assert Padding("7", "", "", c) == 2;
    assert Dup('0', 2) == "00" && Dup(' ', 2) == "  " && Dup(' ', 0) == "";
  }

  // ---------------------------------------------------------------- vsnprintf

  /** What aux.max_length, an int, allows to be stored in a buffer of `size` characters. */
  function Room(size: nat): nat {
    var max := if size > 0 then Wrap(size - 1) else 0;
    if max < 0 then 0 else max
  }

  function Least2(a: nat, b: nat): nat {
    if a < b then a else b
  }

  /** The prefix that fits is stored exactly when the size is at most 2^31, or the text is
      no longer than what is left of the size in an int. */
  lemma StoredExactly(text: string, size: nat)
    requires 0 < size <= UINTMAX_MAX && |text| < -INT_MIN
    ensures Least2(|text|, Room(size)) == Least2(|text|, size - 1) <==> size <= -INT_MIN || |text| <= Room(size)
  {
    WrapIs(size - 1);
  }

  /** A buffer of 2^31 + 1 characters keeps nothing of any text. */
  lemma StoresNothing()
    ensures Room(-INT_MIN + 1) == 0
  {
  }

  /** vsnprintf: the text that the conversions produce, cut to the room there is, and ended
      by a null character; `text` is what __vprintf passes to the helper, one character at a
      time. */
  method Vsnprintf(text: string, buffer: array<char>, size: nat) returns (length: nat)
    requires size <= buffer.Length && size <= UINTMAX_MAX && |text| < -INT_MIN
    modifies buffer
    ensures length == |text|
    ensures size == 0 ==> buffer[..] == old(buffer[..])
    ensures var kept := Least2(|text|, Room(size));
            size > 0 ==> kept < size && buffer[..kept] == text[..kept] && buffer[kept] == '\0'
                         && forall k :: kept < k < buffer.Length ==> buffer[k] == old(buffer[k])
  {
    var p: nat := 0;
    length := 0;
    var maxLength := if size > 0 then Wrap(size - 1) else 0;
    RoomFits(size);
    while length < |text|
      invariant length <= |text| && p == Least2(length, Room(size))
      invariant forall k :: 0 <= k < p ==> buffer[k] == text[k]
      invariant forall k :: p <= k < buffer.Length ==> buffer[k] == old(buffer[k])
    {
      if length < maxLength {
        buffer[p] := text[length];
        p := p + 1;
      }
      length := length + 1;
    }
    if size > 0 {
      buffer[p] := '\0';
    }
  }

  lemma RoomFits(size: nat)
    ensures size > 0 ==> Room(size) < size
    ensures size == 0 ==> Room(size) == 0
  {
  }
}
