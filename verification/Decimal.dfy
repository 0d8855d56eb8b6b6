/** Printing integers and reading them back. */
module Decimal {

  type Int32 = x: int | -0x8000_0000 <= x < 0x8000_0000
  type UInt32 = x: int | 0 <= x < 0x1_0000_0000

  const REV_SIZE := 11

  // ---------------------------------------------------------------- numbers as text

  /** A digit, with small or capital letters above 9. */
  function Digit(d: nat, smalls: bool): (c: char)
    requires d < 16
    ensures d < 10 ==> '0' <= c <= '9'
    ensures d >= 10 ==> if smalls then 'a' <= c <= 'f' else 'A' <= c <= 'F'
  {
    if d < 10 then '0' + d as char else if smalls then 'a' + (d - 10) as char else 'A' + (d - 10) as char
  }

  function Quot(n: nat, base: nat): nat
    requires base > 0
  {
    n / base
  }

  function Rem(n: nat, base: nat): (r: nat)
    requires base > 0
    ensures r < base
  {
    n % base
  }

  lemma DivideOut(n: nat, base: nat)
    requires base >= 2
    ensures n < base ==> Quot(n, base) == 0 && Rem(n, base) == n
    ensures n >= base ==> 0 < Quot(n, base) < n
    ensures n == Quot(n, base) * base + Rem(n, base)
  {
    var q := n / base;
    assert q * base <= n < q * base + base;
    if q > 0 {
      assert q * base >= q * 2;
    }
  }

  /** n written in a base, most significant digit first, without leading zeros. */
  function Digits(n: nat, base: nat, smalls: bool): (t: seq<char>)
    requires 2 <= base <= 16
    ensures |t| >= 1
  {
    DivideOut(n, base);
    if n < base then [Digit(n, smalls)] else Digits(Quot(n, base), base, smalls) + [Digit(Rem(n, base), smalls)]
  }

  /** The value of a digit in either case. */
  function DigitNumber(c: char): nat {
    if '0' <= c <= '9' then (c - '0') as int
    else if 'a' <= c <= 'f' then 10 + (c - 'a') as int
    else if 'A' <= c <= 'F' then 10 + (c - 'A') as int
    else 0
  }

  /** The number a text stands for in a base. */
  function NumberIn(t: seq<char>, base: nat): nat {
    if t == [] then 0 else NumberIn(t[..|t| - 1], base) * base + DigitNumber(t[|t| - 1])
  }

  /** The digits of n stand for n, and the first is not 0 unless it is the only one. */
  lemma {:induction false} DigitsMean(n: nat, base: nat, smalls: bool)
    requires 2 <= base <= 16
    ensures NumberIn(Digits(n, base, smalls), base) == n
    ensures n > 0 ==> Digits(n, base, smalls)[0] != '0'
  {
    hide Quot; hide Rem;
    DivideOut(n, base);
    if n < base {
      assert Digits(n, base, smalls)[..0] == [];
    } else {
      var p := Digits(Quot(n, base), base, smalls);
      DigitsMean(Quot(n, base), base, smalls);
      assert (p + [Digit(Rem(n, base), smalls)])[..|p|] == p;
    }
  }

  function Power(b: nat, e: nat): nat {
    if e == 0 then 1 else b * Power(b, e - 1)
  }

  lemma {:induction false} DigitsLength(n: nat, base: nat, smalls: bool, k: nat)
    requires 8 <= base <= 16 && k >= 1 && n < Power(8, k)
    ensures |Digits(n, base, smalls)| <= k
  {
    hide Digit;
    if n >= base {
      assert k > 1;
      Quotients(n, base);
      assert n / 8 < Power(8, k - 1);
      DigitsLength(n / base, base, smalls, k - 1);
    }
  }

  lemma Quotients(n: nat, base: nat)
    requires base >= 8
    ensures n / base <= n / 8
  {
    var q := n / base;
    assert q * base <= n;
    assert q * 8 <= q * base;
  }

  /** In any base from 8 up, a 32-bit number has at most 11 digits. */
  lemma FitsScratch(n: UInt32, base: nat, smalls: bool)
    requires 8 <= base <= 16
    ensures |Digits(n, base, smalls)| <= REV_SIZE
  {
    assert Power(8, 2) == 64 && Power(8, 4) == 0x1000 && Power(8, 6) == 0x4_0000 by {
      assert Power(8, 1) == 8 && Power(8, 3) == 512 && Power(8, 5) == 0x8000;
    }
    assert Power(8, 7) == 0x20_0000 && Power(8, 8) == 0x100_0000 && Power(8, 9) == 0x800_0000;
    assert Power(8, 10) == 0x4000_0000 && Power(8, 11) == 0x2_0000_0000;
    DigitsLength(n, base, smalls, 11);
  }

  function Repeat(c: char, n: int): (t: seq<char>) {
    if n <= 0 then [] else seq(n, i => c)
  }

  function AtMost11(x: int): int {
    if x < REV_SIZE then x else REV_SIZE
  }

  /** The digits, padded with zeros to the precision and then with blanks to the field width. */
  function Field(t: seq<char>, prec: int, width: int): seq<char> {
    var z := Repeat('0', AtMost11(prec) - |t|) + t;
    Repeat(' ', AtMost11(width) - |z|) + z
  }

  function Min(a: int, b: int): int {
    if a <= b then a else b
  }

  /** What is left of a text in size characters. */
  function Cut(t: seq<char>, size: int): seq<char> {
    t[..if size <= 0 then 0 else Min(size, |t|)]
  }

  /** Character by character: blanks up to the width, zeros up to the precision, at most 11 of all, and the digits. */
  lemma FieldExactly(t: seq<char>, prec: int, width: int)
    ensures var f, p, w := Field(t, prec, width), (if prec < 11 then prec else 11), (if width < 11 then width else 11);
            && |f| >= |t| && |f| >= p && |f| >= w && (|f| == |t| || |f| == p || |f| == w)
            && f[|f| - |t|..] == t
            && (forall k :: 0 <= k < |f| - |t| ==> f[k] == if |f| - k <= p then '0' else ' ')
  {
    var z := Repeat('0', AtMost11(prec) - |t|) + t;
    assert Field(t, prec, width) == Repeat(' ', AtMost11(width) - |z|) + z;
  }

  // ---------------------------------------------------------------- print_uint

  lemma DigitsSplit(n: nat, base: nat, smalls: bool)
    requires 8 <= base <= 16
    ensures Quot(n, base) == 0 ==> |Digits(n, base, smalls)| == 1
    ensures Quot(n, base) != 0 ==>
              Digits(n, base, smalls) == Digits(Quot(n, base), base, smalls) + [Digit(Rem(n, base), smalls)]
    ensures Quot(n, base) != 0 ==> Quot(n, base) < n
    ensures Digits(n, base, smalls)[|Digits(n, base, smalls)| - 1] == Digit(Rem(n, base), smalls)
  {
    hide Quot; hide Rem;
    DivideOut(n, base);
  }

  /** One step up from the end of t. */
  lemma PrefixStep(t: seq<char>, i: nat, d: seq<char>, u: seq<char>, c: char)
    requires 1 <= i <= |t| && t[..|t| - i + 1] == d && d == u + [c] && |u| >= 1
    ensures i < |t| && t[..|t| - i] == u && t[|t| - 1 - i] == u[|u| - 1]
  {
    assert |u| == |t| - i;
    assert forall k :: 0 <= k < |u| ==> t[k] == d[k] == u[k];
  }

  /** The digits of n, the least significant first, into a scratch array. */
  method Reverse(rev: array<char>, n0: UInt32, base: nat, smalls: bool) returns (i: nat)
    requires rev.Length == REV_SIZE && 8 <= base <= 16
    modifies rev
    ensures i == |Digits(n0, base, smalls)| && i <= REV_SIZE
    ensures forall k :: 0 <= k < i ==> rev[k] == Digits(n0, base, smalls)[i - 1 - k]
  {
    hide Digits; hide Digit; hide Quot; hide Rem;
    FitsScratch(n0, base, smalls);
    ghost var t := Digits(n0, base, smalls);
    var n: nat := n0;
    i := 0;
    rev[0] := Digit(Rem(n, base), smalls);
    i := 1;
    ghost var m := n;
    DigitsSplit(m, base, smalls);
    n := Quot(n, base);
    while n != 0
      invariant 1 <= i <= |t| && n == Quot(m, base)
      invariant t[..|t| - i + 1] == Digits(m, base, smalls)
      invariant forall k :: 0 <= k < i ==> rev[k] == t[|t| - 1 - k]
      decreases n
    {
      DigitsSplit(m, base, smalls);
      DigitsSplit(n, base, smalls);
      PrefixStep(t, i, Digits(m, base, smalls), Digits(n, base, smalls), Digit(Rem(m, base), smalls));
      rev[i] := Digit(Rem(n, base), smalls);
      i := i + 1;
      m := n;
      n := Quot(n, base);
    }
    DigitsSplit(m, base, smalls);
  }

  /** Pads the scratch array with c up to a length. */
  method Pad(rev: array<char>, c: char, i0: nat, target: int) returns (i: nat)
    requires i0 <= REV_SIZE == rev.Length && target <= REV_SIZE
    modifies rev
    ensures i == if target > i0 then target else i0
    ensures forall k :: 0 <= k < i0 ==> rev[k] == old(rev[k])
    ensures forall k :: i0 <= k < i ==> rev[k] == c
  {
    i := i0;
    while i < target
      invariant i0 <= i && (i <= target || i == i0) && i <= REV_SIZE
      invariant forall k :: 0 <= k < i0 ==> rev[k] == old(rev[k])
      invariant forall k :: i0 <= k < i ==> rev[k] == c
    {
      rev[i] := c;
      i := i + 1;
    }
  }

  /** The first n scratch characters are text t backwards. */
  ghost predicate Backwards(r: seq<char>, n: nat, t: seq<char>) {
    n <= |r| && n == |t| && forall k :: 0 <= k < n ==> r[k] == t[n - 1 - k]
  }

  /** Padding the scratch array puts the padding in front of the text. */
  lemma Padded(r: seq<char>, r': seq<char>, n: nat, n': nat, t: seq<char>, c: char, target: int)
    requires Backwards(r, n, t) && |r'| == |r| && n' == (if target > n then target else n) && n' <= |r|
    requires forall k :: 0 <= k < n ==> r'[k] == r[k]
    requires forall k :: n <= k < n' ==> r'[k] == c
    ensures Backwards(r', n', Repeat(c, target - |t|) + t)
  {
    var z := Repeat(c, target - |t|);
    forall k | 0 <= k < n'
      ensures r'[k] == (z + t)[n' - 1 - k]
    {
      if k < n {
        assert (z + t)[n' - 1 - k] == t[n - 1 - k];
      }
    }
  }

  /**
   Writes n to buf from at on, padded to precision and field width (11 at most), as far as size
   characters go. No write is outside the scratch array.
  */
  method PrintUint(buf: array<char>, at: nat, size: int, n: UInt32, base: nat, smalls: bool, prec: int, width: int)
    returns (written: nat)
    requires 8 <= base <= 16 && (size > 0 ==> at + size <= buf.Length)
    modifies buf
    ensures var t := Cut(Field(Digits(n, base, smalls), prec, width), size);
            && written == |t| && (written > 0 ==> at + written <= buf.Length)
            && (forall k :: at <= k < at + written ==> buf[k] == t[k - at])
    ensures forall k :: 0 <= k < buf.Length && !(at <= k < at + written) ==> buf[k] == old(buf[k])
  {
    hide Digits; hide Repeat;
    if size <= 0 {
      return 0;
    }
    var rev := new char[REV_SIZE];
    var i := Reverse(rev, n, base, smalls);
    ghost var t := Digits(n, base, smalls);
    ghost var r1 := rev[..];
    i := Pad(rev, '0', i, AtMost11(prec));
    ghost var r2 := rev[..];
    Padded(r1, r2, |t|, i, t, '0', AtMost11(prec));
    ghost var z := Repeat('0', AtMost11(prec) - |t|) + t;
    i := Pad(rev, ' ', i, AtMost11(width));
    Padded(r2, rev[..], |z|, i, z, ' ', AtMost11(width));
    written := Output(buf, at, size, rev, i, Field(t, prec, width));
  }

  /** Copies i scratch characters to buf in reverse, as far as size goes. */
  method Output(buf: array<char>, at: nat, size: int, rev: array<char>, i: nat, ghost t: seq<char>)
    returns (written: nat)
    requires size > 0 && at + size <= buf.Length && buf != rev && Backwards(rev[..], i, t)
    modifies buf
    ensures written == |Cut(t, size)| && at + written <= buf.Length
    ensures forall k :: at <= k < at + written ==> buf[k] == t[k - at]
    ensures forall k :: 0 <= k < buf.Length && !(at <= k < at + written) ==> buf[k] == old(buf[k])
  {
    var j: int := i - 1;
    written := 0;
    while j >= 0 && written < size
      invariant j == i - 1 - written && written <= size && -1 <= j
      invariant forall k :: at <= k < at + written ==> buf[k] == t[k - at]
      invariant forall k :: 0 <= k < buf.Length && !(at <= k < at + written) ==> buf[k] == old(buf[k])
    {
      buf[at + written] := rev[j];
      written := written + 1;
      j := j - 1;
    }
  }

  // ---------------------------------------------------------------- the %d directive

  /** An integer as text. */
  function Text(arg: Int32): seq<char> {
    var a: int := arg;
    if a < 0 then ['-'] + Digits(-a, 10, false) else Digits(a, 10, false)
  }

  /** Negation in 32-bit arithmetic, read as unsigned: the least integer is its own negation. */
  function Magnitude(arg: Int32): UInt32 {
    var a: int := arg;
    if a >= 0 then a else if a == -0x8000_0000 then 0x8000_0000 else -a
  }

  lemma FieldPlain(t: seq<char>)
    requires |t| >= 1
    ensures Field(t, 0, 0) == t
  {
  }

  /** snprintf(buf, size, "%d", arg): the number of characters before the final zero, -1 if they were cut. */
  method PrintInt(buf: array<char>, size: int, arg: Int32) returns (written: int)
    requires size <= buf.Length
    modifies buf
    ensures size <= 0 ==> written == 0 && forall k :: 0 <= k < buf.Length ==> buf[k] == old(buf[k])
    ensures size > 0 ==> written == if |Text(arg)| < size then |Text(arg)| else -1
    ensures size > 0 ==> var n := Min(|Text(arg)|, size - 1);
              && buf[n] == '\0' && (forall k :: 0 <= k < n ==> buf[k] == Text(arg)[k])
              && forall k :: n < k < buf.Length ==> buf[k] == old(buf[k])
  {
    hide Digits; hide Text; hide Magnitude; hide Field; hide Cut;
    if size <= 0 {
      return 0;
    }
    var at := 0;
    if arg < 0 {
      buf[0] := '-';
      at := 1;
    }
    ghost var t := Digits(Magnitude(arg), 10, false);
    TextParts(arg);
    PlainCut(t, size - at);
    var w := PrintUint(buf, at, size - at, Magnitude(arg), 10, false, 0, 0);
    assert forall k :: at <= k < at + w ==> buf[k] == t[k - at];
    assert at == 1 ==> buf[0] == '-';
    at := at + w;
    written := at;
    if written == size {
      at := at - 1;
      written := -1;
    }
    buf[at] := '\0';
  }

  /** The text is the sign and the digits of the magnitude. */
  lemma TextParts(arg: Int32)
    ensures var t := Digits(Magnitude(arg), 10, false);
            |t| >= 1 && Text(arg) == if arg < 0 then ['-'] + t else t
  {
  }

  lemma PlainCut(t: seq<char>, size: int)
    requires |t| >= 1
    ensures Cut(Field(t, 0, 0), size) == t[..if size <= 0 then 0 else Min(|t|, size)]
  {
    FieldPlain(t);
  }

  // ---------------------------------------------------------------- atoi

  predicate IsBlank(c: char) {
    c == ' ' || c == '\t' || c == '\r' || c == '\n'
  }

  predicate IsDigit(c: char) {
    '0' <= c <= '9'
  }

  function DigitValue(c: char): (d: nat)
    requires IsDigit(c)
    ensures d <= 9
  {
    (c - '0') as int
  }

  /** The digits from position i on, as a number continuing v. */
  function Accumulate(s: seq<char>, i: nat, v: nat): nat
    decreases |s| - i
  {
    if i < |s| && IsDigit(s[i]) then Accumulate(s, i + 1, 10 * v + DigitValue(s[i])) else v
  }

  function SkipBlanks(s: seq<char>, i: nat): (j: nat)
    requires i <= |s|
    ensures i <= j <= |s|
    decreases |s| - i
  {
    if i < |s| && IsBlank(s[i]) then SkipBlanks(s, i + 1) else i
  }

  /** The integer a text starts with: blanks, a sign, digits; 0 if there are no digits. */
  function Value(s: seq<char>): int {
    var i := SkipBlanks(s, 0);
    if i < |s| && s[i] == '-' then 0 - Accumulate(s, i + 1, 0)
    else if i < |s| && s[i] == '+' then Accumulate(s, i + 1, 0)
    else Accumulate(s, i, 0)
  }

  lemma {:induction false} AccumulateGrows(s: seq<char>, i: nat, v: nat)
    ensures Accumulate(s, i, v) >= v
    decreases |s| - i
  {
    if i < |s| && IsDigit(s[i]) {
      AccumulateGrows(s, i + 1, 10 * v + DigitValue(s[i]));
    }
  }

  /** The text up to the terminating zero. */
  ghost predicate Terminated(s: seq<char>, n: nat) {
    n < |s| && s[n] == '\0' && forall k :: 0 <= k < n ==> s[k] != '\0'
  }

  /**
   atoi of the string in s, which ends at its first zero, n. If the number fits 32 bits, so does
   every intermediate value: the assertion in the loop is the absence of overflow.
  */
  method Atoi(s: array<char>, ghost n: nat) returns (value: Int32)
    requires Terminated(s[..], n) && -0x8000_0000 <= Value(s[..n]) < 0x8000_0000
    ensures value == Value(s[..n])
  {
    ghost var t := s[..n];
    var sign := 1;
    var i := 0;
    while s[i] != '\0' && IsBlank(s[i])
      invariant 0 <= i <= n && SkipBlanks(t, i) == SkipBlanks(t, 0)
      decreases n - i
    {
      i := i + 1;
    }
    if s[i] == '\0' {
      return 0;
    }
    if s[i] == '-' {
      sign := -1;
      i := i + 1;
    } else if s[i] == '+' {
      i := i + 1;
    }
    ghost var v: nat := 0;
    value := 0;
    while '0' <= s[i] <= '9'
      invariant 0 <= i <= n && value == sign * v && (sign == 1 || sign == -1)
      invariant sign * Accumulate(t, i, v) == Value(t)
      decreases n - i
    {
      ghost var next := 10 * v + DigitValue(t[i]);
      AccumulateGrows(t, i + 1, next);
      NoOverflow(sign, v, DigitValue(t[i]), Accumulate(t, i + 1, next), Value(t));
      assert -0x8000_0000 <= 10 * value < 0x8000_0000;
      var d: int := (s[i] - '0') as int;
      value := 10 * value + sign * d;
      v := next;
      i := i + 1;
    }
  }

  lemma NoOverflow(sign: int, v: nat, d: nat, all: nat, total: int)
    requires (sign == 1 || sign == -1) && 10 * v + d <= all && sign * all == total
             && -0x8000_0000 <= total < 0x8000_0000
    ensures -0x8000_0000 <= 10 * (sign * v) < 0x8000_0000 && -0x8000_0000 <= 10 * (sign * v) + sign * d < 0x8000_0000
    ensures 10 * (sign * v) + sign * d == sign * (10 * v + d)
  {
  }

  // ---------------------------------------------------------------- the round trip

  lemma {:induction false} AccumulateSplit(p: seq<char>, c: char, i: nat, v: nat)
    requires i <= |p| && IsDigit(c) && forall k :: i <= k < |p| ==> IsDigit(p[k])
    ensures Accumulate(p + [c], i, v) == 10 * Accumulate(p, i, v) + DigitValue(c)
    decreases |p| - i
  {
    if i < |p| {
      assert (p + [c])[i] == p[i];
      AccumulateSplit(p, c, i + 1, 10 * v + DigitValue(p[i]));
    } else {
      assert (p + [c])[i] == c;
    }
  }

  lemma DecimalDigit(d: nat)
    requires d < 10
    ensures IsDigit(Digit(d, false)) && DigitValue(Digit(d, false)) == d && !IsBlank(Digit(d, false))
    ensures Digit(d, false) != '-' && Digit(d, false) != '+' && Digit(d, false) != '\0'
  {
  }

  /** Reading the digits of n, wherever they stand at the end of a text, gives n. */
  lemma {:induction false} ReadDigits(pre: seq<char>, n: nat)
    ensures forall k :: 0 <= k < |Digits(n, 10, false)| ==> IsDigit(Digits(n, 10, false)[k])
    ensures Accumulate(pre + Digits(n, 10, false), |pre|, 0) == n
  {
    hide Quot; hide Rem; hide Digit; hide IsDigit; hide DigitValue;
    DivideOut(n, 10);
    if n < 10 {
      DecimalDigit(n);
      var s := pre + [Digit(n, false)];
      assert s[|pre|] == Digit(n, false);
      AccumulateSplit(pre, Digit(n, false), |pre|, 0);
    } else {
      var p := Digits(Quot(n, 10), 10, false);
      ReadDigits(pre, Quot(n, 10));
      DecimalDigit(Rem(n, 10));
      assert pre + (p + [Digit(Rem(n, 10), false)]) == (pre + p) + [Digit(Rem(n, 10), false)];
      AccumulateSplit(pre + p, Digit(Rem(n, 10), false), |pre|, 0);
    }
  }

  lemma {:induction false} AccumulateRest(p: seq<char>, rest: seq<char>, i: nat, v: nat)
    requires i <= |p| && (forall k :: i <= k < |p| ==> IsDigit(p[k])) && (rest == [] || !IsDigit(rest[0]))
    ensures Accumulate(p + rest, i, v) == Accumulate(p, i, v)
    decreases |p| - i
  {
    if i < |p| {
      AccumulateRest(p, rest, i + 1, 10 * v + DigitValue(p[i]));
    }
  }

  /** One of the characters that are skipped. */
  predicate Blanks(s: seq<char>) {
    forall k :: 0 <= k < |s| ==> s[k] in {' ', '\t', '\r', '\n'}
  }

  lemma {:induction false} SkipAll(s: seq<char>, n: nat, i: nat)
    requires i <= n <= |s| && Blanks(s[..n]) && (n == |s| || s[n] !in {' ', '\t', '\r', '\n'})
    ensures SkipBlanks(s, i) == n
    decreases n - i
  {
    if i < n {
      assert s[..n][i] == s[i];
      SkipAll(s, n, i + 1);
    }
  }

  /** Blanks, a sign or none, the digits of n and then anything but a digit: the number. */
  lemma ValueReads(blanks: seq<char>, sign: seq<char>, n: nat, rest: seq<char>)
    requires Blanks(blanks) && sign in {[], ['+'], ['-']} && (rest == [] || !('0' <= rest[0] <= '9'))
    ensures var v: int := n;
            Value(blanks + sign + Digits(n, 10, false) + rest) == if sign == ['-'] then -v else v
  {
    hide Digits; hide Accumulate; hide SkipBlanks;
    var d, pre := Digits(n, 10, false), blanks + sign;
    var s := pre + d + rest;
    ReadDigits(pre, n);
    AccumulateRest(pre + d, rest, |pre|, 0);
    assert d[0] == s[|pre|] && IsDigit(d[0]);
    assert sign != [] ==> s[|blanks|] == sign[0];
    assert s[..|blanks|] == blanks;
    SkipAll(s, |blanks|, 0);
  }

  /** Blanks, a sign or none, and then no digit: 0. */
  lemma ValueOfNone(blanks: seq<char>, sign: seq<char>, rest: seq<char>)
    requires Blanks(blanks) && sign in {[], ['+'], ['-']} && (rest == [] || !('0' <= rest[0] <= '9'))
    requires sign == [] && rest != [] ==> rest[0] !in {' ', '\t', '\r', '\n', '+', '-'}
    ensures Value(blanks + sign + rest) == 0
  {
    hide SkipBlanks;
    var s := blanks + sign + rest;
    assert s[..|blanks|] == blanks;
    assert sign != [] ==> s[|blanks|] == sign[0];
    assert sign == [] && rest != [] ==> s[|blanks|] == rest[0];
    SkipAll(s, |blanks|, 0);
  }

  /** Formatting and reading back gives the number, for all 32-bit integers. */
  lemma TextValue(arg: Int32)
    ensures Value(Text(arg)) == arg
    ensures |Text(arg)| <= 11 && forall k :: 0 <= k < |Text(arg)| ==> Text(arg)[k] != '\0'
  {
    hide Digits; hide Accumulate;
    var a: int := arg;
    var n: nat := if a < 0 then -a else a;
    var t := Digits(n, 10, false);
    ShortDecimal(n);
    if arg < 0 {
      ReadDigits(['-'], n);
      assert SkipBlanks(Text(arg), 0) == 0;
    } else {
      ReadDigits([], n);
      assert [] + t == t;
      assert IsDigit(t[0]);
      assert SkipBlanks(t, 0) == 0;
    }
  }

  /** A magnitude of a 32-bit integer has at most 10 decimal digits. */
  lemma ShortDecimal(n: nat)
    requires n <= 0x8000_0000
    ensures |Digits(n, 10, false)| <= 10
  {
    TenfoldLength(n, 10);
    assert Power(10, 1) == 10 && Power(10, 2) == 100 && Power(10, 3) == 1000 && Power(10, 4) == 1_0000
           && Power(10, 5) == 10_0000;
    assert Power(10, 6) == 100_0000 && Power(10, 7) == 1000_0000 && Power(10, 8) == 1_0000_0000
           && Power(10, 9) == 10_0000_0000;
    assert Power(10, 10) == 100_0000_0000;
  }

  lemma {:induction false} TenfoldLength(n: nat, k: nat)
    requires k >= 1
    ensures n < Power(10, k) ==> |Digits(n, 10, false)| <= k
  {
    hide Digit;
    if n >= 10 && k > 1 {
      TenfoldLength(n / 10, k - 1);
    }
  }

  /** The kernel's own round trip: print into a buffer of 12 or more characters, then read. */
  method PrintThenRead(buf: array<char>, arg: Int32) returns (value: Int32)
    requires buf.Length >= 12
    modifies buf
    ensures value == arg
  {
    hide Text; hide Value;
    TextValue(arg);
    var n := PrintInt(buf, buf.Length, arg);
    assert buf[..n] == Text(arg);
    value := Atoi(buf, n);
  }
}
