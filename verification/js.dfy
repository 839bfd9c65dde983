/**
  The slice of JavaScript's built-in behaviour that the store's code leans on:
  `null` and `undefined` results, `Array.prototype.find` and `filter`,
  `String.prototype.split` on one separator followed by `pop`, the decimal
  rendering of an integer-valued number, and `parseInt` with no radix.
 */
module Js {

  datatype Option<+T> = None | Some(value: T)

  /** What a JavaScript function may hand back: a value, `null` or `undefined`. */
  datatype Nullish<+T> = Has(value: T) | Null | Undefined

  // ---------------------------------------------------------------------------
  // Array.prototype.find / Array.prototype.filter
  // ---------------------------------------------------------------------------

  /** The index at which `find` stops: the first element satisfying `p`, or `|s|`. */
  function FindIndex<T>(s: seq<T>, p: T -> bool): (i: nat)
    ensures i <= |s|
    ensures forall j :: 0 <= j < i ==> !p(s[j])
    ensures i < |s| ==> p(s[i])
  {
    if s == [] then 0
    else if p(s[0]) then 0
    else 1 + FindIndex(s[1..], p)
  }

  /** `s.find(p)`: the first element satisfying `p`, or `undefined`. */
  function Find<T>(s: seq<T>, p: T -> bool): (r: Nullish<T>)
    ensures !r.Null?
    ensures r.Undefined? <==> forall j :: 0 <= j < |s| ==> !p(s[j])
    ensures r.Has? ==> exists i :: 0 <= i < |s| && s[i] == r.value && p(s[i]) &&
                                   forall j :: 0 <= j < i ==> !p(s[j])
  {
    var i := FindIndex(s, p);
    if i < |s| then Has(s[i]) else Undefined
  }

  /** `s.filter(p)`: the elements of `s` that satisfy `p`. */
  function Filter<T>(s: seq<T>, p: T -> bool): (r: seq<T>)
    ensures |r| <= |s|
    ensures forall j :: 0 <= j < |r| ==> p(r[j])
  {
    if s == [] then [] else (if p(s[0]) then [s[0]] else []) + Filter(s[1..], p)
  }

  /** `filter` keeps each passing element exactly as often as it occurs, and no other. */
  lemma {:induction false} FilterCounts<T>(s: seq<T>, p: T -> bool, x: T)
    ensures multiset(Filter(s, p))[x] == if p(x) then multiset(s)[x] else 0
    ensures x in Filter(s, p) <==> x in s && p(x)
  {
    if s != [] {
      assert s == [s[0]] + s[1..];
      FilterCounts(s[1..], p, x);
    }
  }

  /** Filtering a concatenation filters each part: relative order is kept. */
  lemma {:induction false} FilterConcat<T>(a: seq<T>, b: seq<T>, p: T -> bool)
    ensures Filter(a + b, p) == Filter(a, p) + Filter(b, p)
  {
    if a == [] {
      assert a + b == b;
    } else {
      assert (a + b)[1..] == a[1..] + b;
      FilterConcat(a[1..], b, p);
    }
  }

  /** When every element passes, `filter` is the identity. */
  lemma {:induction false} FilterKeepsAll<T>(s: seq<T>, p: T -> bool)
    requires forall j :: 0 <= j < |s| ==> p(s[j])
    ensures Filter(s, p) == s
  {
    if s != [] {
      FilterKeepsAll(s[1..], p);
    }
  }

  /** When no element passes, `filter` returns the empty list. */
  lemma {:induction false} FilterDropsAll<T>(s: seq<T>, p: T -> bool)
    requires forall j :: 0 <= j < |s| ==> !p(s[j])
    ensures Filter(s, p) == []
  {
    if s != [] {
      FilterDropsAll(s[1..], p);
    }
  }

  /** Filtering a list whose head fails and whose tail all passes yields the tail. */
  lemma {:induction false} FilterSplit<T>(s: seq<T>, k: nat, p: T -> bool)
    requires k <= |s|
    requires forall j :: 0 <= j < k ==> !p(s[j])
    requires forall j :: k <= j < |s| ==> p(s[j])
    ensures Filter(s, p) == s[k..]
  {
    if k == 0 {
      FilterKeepsAll(s, p);
    } else {
      assert !p(s[0]);
      assert Filter(s, p) == Filter(s[1..], p);
      FilterSplit(s[1..], k - 1, p);
      assert s[1..][k - 1..] == s[k..];
    }
  }

  /** Filtering twice by the same test is filtering once. */
  lemma FilterIdempotent<T>(s: seq<T>, p: T -> bool)
    ensures Filter(Filter(s, p), p) == Filter(s, p)
  {
    var r := Filter(s, p);
    forall j | 0 <= j < |r| ensures p(r[j]) {
      assert r[j] in r;
    }
    FilterKeepsAll(r, p);
  }

  // ---------------------------------------------------------------------------
  // String.prototype.split(sep) and Array.prototype.pop
  // ---------------------------------------------------------------------------

  /** The index of the first `c` in `s`, or `|s|` when there is none. */
  function IndexOf(s: string, c: char): (i: nat)
    ensures i <= |s|
    ensures c !in s[..i]
    ensures i < |s| ==> s[i] == c
  {
    if s == [] then 0
    else if s[0] == c then 0
    else
      var k := IndexOf(s[1..], c);
      assert s[..k + 1] == [s[0]] + s[1..][..k];
      1 + k
  }

  /** Joins pieces with `sep` between neighbours (`Array.prototype.join`). */
  function Join(parts: seq<string>, sep: char): string
    requires |parts| >= 1
  {
    if |parts| == 1 then parts[0] else parts[0] + [sep] + Join(parts[1..], sep)
  }

  /** `s.split(sep)` for a one-character separator. */
  function Split(s: string, sep: char): (parts: seq<string>)
    ensures |parts| >= 1
    ensures forall j :: 0 <= j < |parts| ==> sep !in parts[j]
    ensures Join(parts, sep) == s
    decreases |s|
  {
    var i := IndexOf(s, sep);
    if i == |s| then
      assert s[..i] == s;
      [s]
    else
      var rest := Split(s[i + 1..], sep);
      assert s == s[..i] + [sep] + s[i + 1..];
      [s[..i]] + rest
  }

  /** `parts.pop()` on a non-empty array: its last element. */
  function Last<T>(parts: seq<T>): (x: T)
    requires |parts| >= 1
    ensures x == parts[|parts| - 1]
  {
    parts[|parts| - 1]
  }

  /** `l` is the separator-free tail of `s`: all of `s`, or what follows its last separator. */
  predicate IsTailAfterSeparator(s: string, l: string, sep: char) {
    && sep !in l
    && |l| <= |s|
    && s[|s| - |l|..] == l
    && (|l| < |s| ==> s[|s| - |l| - 1] == sep)
  }

  /** A separator-free tail of what follows a separator is a separator-free tail of the whole. */
  lemma TailExtends(s: string, i: nat, l: string, sep: char)
    requires i < |s| && s[i] == sep
    requires IsTailAfterSeparator(s[i + 1..], l, sep)
    ensures IsTailAfterSeparator(s, l, sep)
  {
    var t := s[i + 1..];
    assert s[|s| - |l|..] == t[|t| - |l|..];
    if |l| == |t| {
      assert s[|s| - |l| - 1] == s[i];
    } else {
      assert s[|s| - |l| - 1] == t[|t| - |l| - 1];
    }
  }

  /** The last piece of `s.split(sep)` is the separator-free tail of `s`. */
  lemma {:induction false} LastPieceIsTail(s: string, sep: char)
    ensures IsTailAfterSeparator(s, Last(Split(s, sep)), sep)
    decreases |s|
  {
    var i := IndexOf(s, sep);
    if i == |s| {
      assert Split(s, sep) == [s];
    } else {
      var t := s[i + 1..];
      var rest := Split(t, sep);
      assert Split(s, sep) == [s[..i]] + rest;
      assert Last(Split(s, sep)) == Last(rest);
      LastPieceIsTail(t, sep);
      TailExtends(s, i, Last(rest), sep);
    }
  }

  /** Whatever precedes it, a separator-free tail after a separator is what `pop` returns. */
  lemma TailAfterLastSeparator(base: string, sep: char, tail: string)
    requires sep !in tail
    ensures Last(Split(base + [sep] + tail, sep)) == tail
  {
    var s := base + [sep] + tail;
    LastPieceIsTail(s, sep);
    var l := Last(Split(s, sep));
    assert s[|s| - |tail| - 1] == sep;
    if |l| > |tail| {
      assert false;
    } else if |l| < |tail| {
      assert false;
    }
    assert s[|s| - |tail|..] == tail;
  }

  // ---------------------------------------------------------------------------
  // Number to string (integer-valued numbers) and parseInt
  // ---------------------------------------------------------------------------

  predicate IsDecimalDigit(c: char) {
    '0' <= c <= '9'
  }

  function DigitChar(d: nat): (c: char)
    requires d < 10
    ensures IsDecimalDigit(c)
  {
    "0123456789"[d]
  }

  /** The decimal numeral of `n`, without leading zeros (`String(n)` for a small integer). */
  function NatToDecimal(n: nat): (s: string)
    ensures |s| >= 1
    ensures forall j :: 0 <= j < |s| ==> IsDecimalDigit(s[j])
    ensures |s| > 1 ==> s[0] != '0'
  {
    if n < 10 then [DigitChar(n)] else NatToDecimal(n / 10) + [DigitChar(n % 10)]
  }

  /** `String(n)` for an integer-valued number, with a leading `-` when negative. */
  function IntToDecimal(n: int): (s: string)
    ensures |s| >= 1
    ensures s[0] == '-' || IsDecimalDigit(s[0])
    ensures n < 0 <==> s[0] == '-'
    ensures s[if n < 0 then 1 else 0..] == NatToDecimal(if n < 0 then -n else n)
  {
    if n < 0 then "-" + NatToDecimal(-n) else NatToDecimal(n)
  }

  /** The characters ECMAScript's StrWhiteSpaceChar admits: white space and line terminators. */
  predicate IsJsWhitespace(c: char) {
    var k := c as int;
    k == 0x09 || k == 0x0A || k == 0x0B || k == 0x0C || k == 0x0D || k == 0x20 ||
    k == 0xA0 || k == 0x1680 || (0x2000 <= k <= 0x200A) || k == 0x2028 || k == 0x2029 ||
    k == 0x202F || k == 0x205F || k == 0x3000 || k == 0xFEFF
  }

  /** Drops the leading white space `parseInt` skips. */
  function TrimStart(s: string): (t: string)
    ensures |t| <= |s| && t == s[|s| - |t|..]
    ensures forall j :: 0 <= j < |s| - |t| ==> IsJsWhitespace(s[j])
    ensures t == [] || !IsJsWhitespace(t[0])
  {
    if s != [] && IsJsWhitespace(s[0]) then TrimStart(s[1..]) else s
  }

  /** The value of a digit character in radix 36, or 36 when it is not one. */
  function DigitValue(c: char): (d: nat)
    ensures d <= 36
  {
    if '0' <= c <= '9' then c as int - '0' as int
    else if 'a' <= c <= 'z' then c as int - 'a' as int + 10
    else if 'A' <= c <= 'Z' then c as int - 'A' as int + 10
    else 36
  }

  predicate IsRadixDigit(c: char, radix: nat) {
    DigitValue(c) < radix
  }

  /** The length of the longest prefix of `s` made of radix digits. */
  function DigitPrefix(s: string, radix: nat): (k: nat)
    ensures k <= |s|
    ensures forall j :: 0 <= j < k ==> IsRadixDigit(s[j], radix)
    ensures k < |s| ==> !IsRadixDigit(s[k], radix)
  {
    if s == [] || !IsRadixDigit(s[0], radix) then 0 else 1 + DigitPrefix(s[1..], radix)
  }

  /** The number a string of radix digits denotes, most significant digit first. */
  function DigitsValue(ds: string, radix: nat): (v: nat)
  {
    if ds == [] then 0
    else DigitsValue(ds[..|ds| - 1], radix) * radix + DigitValue(ds[|ds| - 1])
  }

  /** Whether `u` opens with the `0x`/`0X` prefix that switches `parseInt` to radix 16. */
  predicate HexPrefixed(u: string) {
    |u| >= 2 && u[0] == '0' && (u[1] == 'x' || u[1] == 'X')
  }

  /**
    The unsigned part of `parseInt`: after an optional hex prefix, the
    longest run of digits in the selected radix; `None` when that run is empty.
   */
  function ParseMagnitude(u: string): (r: Option<nat>)
    ensures r.None? <==>
      var v := if HexPrefixed(u) then u[2..] else u;
      v == [] || !IsRadixDigit(v[0], if HexPrefixed(u) then 16 else 10)
  {
    var radix := if HexPrefixed(u) then 16 else 10;
    var v := if HexPrefixed(u) then u[2..] else u;
    var k := DigitPrefix(v, radix);
    if k == 0 then None else Some(DigitsValue(v[..k], radix))
  }

  /**
    `parseInt(s)` with no radix argument. `None` stands for `NaN`. Leading
    white space is skipped and one sign is taken before the magnitude is
    read; whatever follows the digits is ignored.
   */
  function ParseInt(s: string): (r: Option<int>)
    ensures r.None? <==>
      var t := TrimStart(s);
      ParseMagnitude(if t != [] && (t[0] == '-' || t[0] == '+') then t[1..] else t).None?
  {
    var t := TrimStart(s);
    var negative := t != [] && t[0] == '-';
    var u := if t != [] && (t[0] == '-' || t[0] == '+') then t[1..] else t;
    match ParseMagnitude(u)
    case None => None
    case Some(m) =>
      var v: int := m;
      Some(if negative then -v else v)
  }

  lemma {:induction false} DecimalValue(n: nat)
    ensures DigitsValue(NatToDecimal(n), 10) == n
  {
    if n >= 10 {
      var s := NatToDecimal(n);
      assert s[..|s| - 1] == NatToDecimal(n / 10);
      DecimalValue(n / 10);
    }
  }

  lemma {:induction false} AllDigitsPrefix(s: string, radix: nat)
    requires forall j :: 0 <= j < |s| ==> IsRadixDigit(s[j], radix)
    ensures DigitPrefix(s, radix) == |s|
  {
    if s != [] {
      AllDigitsPrefix(s[1..], radix);
    }
  }

  /** The decimal numeral of `m` reads back as `m`. */
  lemma MagnitudeOfDecimal(m: nat)
    ensures ParseMagnitude(NatToDecimal(m)) == Some(m)
  {
    var u := NatToDecimal(m);
    assert !HexPrefixed(u);
    AllDigitsPrefix(u, 10);
    assert u[..|u|] == u;
    DecimalValue(m);
  }

  /** Reading back the decimal numeral of any integer gives that integer. */
  /** A numeral starting with a digit is read by `parseInt` as its magnitude. */
  lemma ParseUnsigned(u: string, m: nat)
    requires u != [] && IsDecimalDigit(u[0])
    requires ParseMagnitude(u) == Some(m)
    ensures ParseInt(u) == Some(m)
  {
    assert !IsJsWhitespace(u[0]);
    assert TrimStart(u) == u;
    assert u[0] != '-' && u[0] != '+';
  }

  /** A `-` before a numeral starting with a digit negates what `parseInt` reads. */
  lemma ParseNegated(u: string, m: nat)
    requires u != [] && IsDecimalDigit(u[0])
    requires ParseMagnitude(u) == Some(m)
    ensures ParseInt("-" + u) == Some(-(m as int))
  {
    var s := "-" + u;
    assert !IsJsWhitespace(s[0]);
    assert TrimStart(s) == s;
    assert s[1..] == u;
  }

  lemma ParseDecimal(n: int)
    ensures ParseInt(IntToDecimal(n)) == Some(n)
  {
    if n < 0 {
      MagnitudeOfDecimal(-n);
      ParseNegated(NatToDecimal(-n), -n);
      assert IntToDecimal(n) == "-" + NatToDecimal(-n);
    } else {
      MagnitudeOfDecimal(n);
      ParseUnsigned(NatToDecimal(n), n);
      assert IntToDecimal(n) == NatToDecimal(n);
    }
  }


  /** Distinct integers have distinct decimal numerals. */
  lemma DecimalInjective(a: nat, b: nat)
    requires NatToDecimal(a) == NatToDecimal(b)
    ensures a == b
  {
    DecimalValue(a);
    DecimalValue(b);
  }
}
