/**
 * The PHP value semantics the adapter leans on: boolean conversion of a
 * value, string conversion and interpolation of integers, the `(int)`
 * cast of a string, `explode`/`implode`, ASCII case folding and the set
 * of characters PCRE's `\s` matches.
 */
module Php {

  datatype Option<T> = None | Some(value: T)

  /** A scalar PHP value (floats, arrays and objects are not modelled). */
  datatype Value = Null | Bool(b: bool) | Int(i: int) | Str(s: string)

  /** PHP's boolean conversion, as used by `if ($v)`, `!$v` and `empty($v)`. */
  predicate Truthy(v: Value) {
    match v
    case Null => false
    case Bool(b) => b
    case Int(i) => i != 0
    case Str(s) => s != "" && s != "0"
  }

  /** PHP's string conversion, as used by `.` and `"{$v}"`. */
  function ToStr(v: Value): string {
    match v
    case Null => ""
    case Bool(b) => if b then "1" else ""
    case Int(i) => IntToString(i)
    case Str(s) => s
  }

  // ---------------------------------------------------------------------
  // Decimal digits

  predicate IsDigit(c: char) {
    '0' <= c <= '9'
  }

  function DigitChar(d: nat): (c: char)
    requires d < 10
    ensures IsDigit(c) && DigitValue(c) == d
  {
    (('0' as int) + d) as char
  }

  function DigitValue(c: char): nat
    requires IsDigit(c)
  {
    (c as int) - ('0' as int)
  }

  /** The decimal text of a natural number, without leading zeros. */
  function NatToString(n: nat): (s: string)
    ensures |s| >= 1
    ensures forall k :: 0 <= k < |s| ==> IsDigit(s[k])
    ensures s[0] == '0' ==> n == 0
  {
    if n < 10 then [DigitChar(n)] else NatToString(n / 10) + [DigitChar(n % 10)]
  }

  /** How PHP renders an integer in a string. */
  function IntToString(i: int): string {
    if i < 0 then "-" + NatToString(-i) else NatToString(i)
  }

  /** The number a string of decimal digits denotes. */
  function DigitsValue(s: string): nat
    requires forall k :: 0 <= k < |s| ==> IsDigit(s[k])
  {
    if s == [] then 0 else DigitsValue(s[..|s| - 1]) * 10 + DigitValue(s[|s| - 1])
  }

  /** The length of the longest run of digits that starts the string. */
  function DigitRun(s: string): (n: nat)
    ensures n <= |s|
    ensures forall k :: 0 <= k < n ==> IsDigit(s[k])
    ensures n < |s| ==> !IsDigit(s[n])
  {
    if s == [] || !IsDigit(s[0]) then 0 else 1 + DigitRun(s[1..])
  }

  /** The characters PCRE's `\s` and PHP's numeric-string rules treat as white space. */
  predicate IsSpace(c: char) {
    c == ' ' || c == '\t' || c == '\n' || c == '\r' || c == 11 as char || c == 12 as char
  }

  function TrimLeadingSpace(s: string): (t: string)
    ensures |t| <= |s| && t == s[|s| - |t|..]
    ensures t != [] ==> !IsSpace(t[0])
  {
    if s != [] && IsSpace(s[0]) then TrimLeadingSpace(s[1..]) else s
  }

  /** The value of the leading decimal digits of a string (0 when there are none). */
  function LeadingValue(s: string): nat {
    var n := DigitRun(s);
    DigitsValue(s[..n])
  }

  /**
   * PHP's `(int)` cast of a string: leading white space is skipped, an
   * optional sign is read, then the longest run of digits, and a string
   * with no digits gives 0.  Only integer texts are read: a fraction or an
   * exponent after the digits is ignored here, whereas PHP reads
   * `(int)"2E001"` as 20, and PHP's saturation at PHP_INT_MAX and
   * PHP_INT_MIN is not modelled (integers are unbounded).
   */
  function IntCast(s: string): int {
    var t := TrimLeadingSpace(s);
    if t != [] && t[0] == '-' then 0 - LeadingValue(t[1..]) as int
    else if t != [] && t[0] == '+' then LeadingValue(t[1..])
    else LeadingValue(t)
  }

  lemma {:induction false} DigitsValueOfNat(n: nat)
    ensures DigitsValue(NatToString(n)) == n
  {
    var s := NatToString(n);
    if n >= 10 {
      DigitsValueOfNat(n / 10);
      assert s[..|s| - 1] == NatToString(n / 10);
    }
  }

  lemma {:induction false} DigitRunOfDigits(s: string)
    requires forall k :: 0 <= k < |s| ==> IsDigit(s[k])
    ensures DigitRun(s) == |s|
  {
    if s != [] {
      DigitRunOfDigits(s[1..]);
    }
  }

  lemma LeadingValueOfNat(n: nat)
    ensures LeadingValue(NatToString(n)) == n
  {
    var s := NatToString(n);
    DigitRunOfDigits(s);
    assert s[..|s|] == s;
    DigitsValueOfNat(n);
  }

  /** The `(int)` cast reads back every integer PHP writes out. */
  lemma IntCastOfIntToString(i: int)
    ensures IntCast(IntToString(i)) == i
  {
    var s := IntToString(i);
    assert TrimLeadingSpace(s) == s;
    if i < 0 {
      assert s[1..] == NatToString(-i);
      LeadingValueOfNat(-i);
    } else {
      LeadingValueOfNat(i);
    }
  }

  /** A run of digits followed by a non-digit is read up to its end. */
  lemma {:induction false} DigitRunAppend(d: string, rest: string)
    requires forall k :: 0 <= k < |d| ==> IsDigit(d[k])
    requires rest == [] || !IsDigit(rest[0])
    ensures DigitRun(d + rest) == |d|
  {
    if d != [] {
      assert (d + rest)[1..] == d[1..] + rest;
      DigitRunAppend(d[1..], rest);
    } else {
      assert d + rest == rest;
    }
  }

  lemma LeadingValueAppend(n: nat, rest: string)
    requires rest == [] || !IsDigit(rest[0])
    ensures LeadingValue(NatToString(n) + rest) == n
  {
    var digits := NatToString(n);
    DigitRunAppend(digits, rest);
    assert (digits + rest)[..|digits|] == digits;
    DigitsValueOfNat(n);
  }

  lemma IntCastMinus(t: string)
    ensures IntCast("-" + t) == 0 - LeadingValue(t) as int
  {
    var s := "-" + t;
    assert s[0] == '-' && !IsSpace(s[0]);
    assert TrimLeadingSpace(s) == s;
    assert s[1..] == t;
  }

  lemma IntCastDigit(t: string)
    requires t != [] && IsDigit(t[0])
    ensures IntCast(t) == LeadingValue(t)
  {
    assert !IsSpace(t[0]);
    assert TrimLeadingSpace(t) == t;
  }

  lemma IntCastPrefixNegative(n: nat, rest: string)
    requires rest == [] || !IsDigit(rest[0])
    ensures IntCast("-" + (NatToString(n) + rest)) == -(n as int)
  {
    IntCastMinus(NatToString(n) + rest);
    LeadingValueAppend(n, rest);
  }

  lemma IntCastPrefixNatural(n: nat, rest: string)
    requires rest == [] || !IsDigit(rest[0])
    ensures IntCast(NatToString(n) + rest) == n
  {
    IntCastDigit(NatToString(n) + rest);
    LeadingValueAppend(n, rest);
  }

  /** The cast reads back an integer that a non-digit follows, as in "5 and 10". */
  lemma IntCastPrefix(i: int, rest: string)
    requires rest == [] || !IsDigit(rest[0])
    ensures IntCast(IntToString(i) + rest) == i
  {
    if i < 0 {
      assert IntToString(i) + rest == "-" + (NatToString(-i) + rest);
      IntCastPrefixNegative(-i, rest);
    } else {
      IntCastPrefixNatural(i, rest);
    }
  }

  /** Distinct integers are written out as distinct strings. */
  lemma IntToStringInjective(i: int, j: int)
    requires IntToString(i) == IntToString(j)
    ensures i == j
  {
    IntCastOfIntToString(i);
    IntCastOfIntToString(j);
  }

  // ---------------------------------------------------------------------
  // explode / implode

  /** PHP's `implode($glue, $parts)`. */
  function Implode(glue: string, parts: seq<string>): string {
    if |parts| == 0 then ""
    else if |parts| == 1 then parts[0]
    else parts[0] + glue + Implode(glue, parts[1..])
  }

  /**
   * PHP's `explode($sep, $s)` for a one-character separator: the pieces
   * between separators, in order, empty pieces included; never empty.
   */
  function Explode(sep: char, s: string): (parts: seq<string>)
    ensures |parts| >= 1
    ensures forall k :: 0 <= k < |parts| ==> sep !in parts[k]
  {
    if s == [] then [""]
    else
      var rest := Explode(sep, s[1..]);
      if s[0] == sep then [""] + rest else [[s[0]] + rest[0]] + rest[1..]
  }

  /** Gluing the pieces back with the separator gives the original text. */
  lemma {:induction false} ImplodeExplode(sep: char, s: string)
    ensures Implode([sep], Explode(sep, s)) == s
  {
    if s != [] {
      var rest := Explode(sep, s[1..]);
      ImplodeExplode(sep, s[1..]);
      if s[0] == sep {
        assert Explode(sep, s) == [""] + rest;
        assert ([""] + rest)[1..] == rest;
      } else {
        var parts := Explode(sep, s);
        assert parts == [[s[0]] + rest[0]] + rest[1..];
        if |rest| == 1 {
          assert parts == [[s[0]] + rest[0]];
        } else {
          assert parts[1..] == rest[1..];
          assert Implode([sep], rest) == rest[0] + [sep] + Implode([sep], rest[1..]);
        }
      }
    }
  }

  /** A text without the separator is a single piece. */
  lemma {:induction false} ExplodeNoSep(sep: char, a: string)
    requires sep !in a
    ensures Explode(sep, a) == [a]
  {
    if a != [] {
      ExplodeNoSep(sep, a[1..]);
      assert [a[0]] + a[1..] == a;
    }
  }

  /** Exploding "a<sep>b" with a separator-free a yields a, then the pieces of b. */
  lemma {:induction false} ExplodeCons(sep: char, a: string, b: string)
    requires sep !in a
    ensures Explode(sep, a + [sep] + b) == [a] + Explode(sep, b)
  {
    if a == [] {
      assert a + [sep] + b == [sep] + b;
      assert ([sep] + b)[1..] == b;
    } else {
      ExplodeCons(sep, a[1..], b);
      assert (a + [sep] + b)[1..] == a[1..] + [sep] + b;
      assert [a[0]] + a[1..] == a;
    }
  }

  // ---------------------------------------------------------------------
  // ASCII case folding

  /** The lowercase of an ASCII letter; every other character is kept. */
  function LowerChar(c: char): char {
    if 'A' <= c <= 'Z' then ((c as int) + 32) as char else c
  }

  predicate IsUpperChar(c: char) {
    'A' <= c <= 'Z'
  }

  /** PHP's locale-independent `strtolower`. */
  function Lower(s: string): (t: string)
    ensures |t| == |s|
    ensures forall k :: 0 <= k < |s| ==> t[k] == LowerChar(s[k])
  {
    seq(|s|, k requires 0 <= k < |s| => LowerChar(s[k]))
  }

  predicate IsLower(s: string) {
    forall k :: 0 <= k < |s| ==> !IsUpperChar(s[k])
  }

  lemma LowerIsLower(s: string)
    ensures IsLower(Lower(s))
  {
  }

  lemma LowerOfLower(s: string)
    requires IsLower(s)
    ensures Lower(s) == s
  {
  }
}
