/** JavaScript values as the route handlers see them, and the few built-in
    operations the handlers apply to them: truthiness, `||`, `??`,
    `String(v)`, `parseInt(s, 10)`, `startsWith` and substring search.

    JavaScript strings are sequences of UTF-16 code units, while a Dafny
    `char` is a Unicode scalar value: a character outside the Basic
    Multilingual Plane is one `char` here and two code units there, and a
    lone surrogate has no `char` at all. The handlers only compare, search
    and measure ASCII text, where the two agree. */
module Js {
  import opened Rows

  /** A request-body field, a query parameter or a table cell. Booleans,
      arrays, objects and non-integral numbers are not modelled. */
  datatype Value = Undefined | Null | Text(s: string) | Int(i: int)

  /** JavaScript truthiness: '' , 0, null and undefined are falsy. */
  predicate Truthy(v: Value)
  {
    match v
    case Text(s) => s != ""
    case Int(i) => i != 0
    case _ => false
  }

  predicate Nullish(v: Value)
  {
    v == Undefined || v == Null
  }

  /** `a || b` */
  function Or(a: Value, b: Value): Value
  {
    if Truthy(a) then a else b
  }

  /** `a ?? b` */
  function Coalesce(a: Value, b: Value): Value
  {
    if Nullish(a) then b else a
  }

  predicate IsDigit(c: char)
  {
    '0' <= c <= '9'
  }

  predicate AllDigits(s: string)
  {
    forall k :: 0 <= k < |s| ==> IsDigit(s[k])
  }

  function DigitChar(d: nat): (c: char)
    requires d < 10
    ensures IsDigit(c) && DigitValue(c) == d
  {
    "0123456789"[d]
  }

  function DigitValue(c: char): nat
    requires IsDigit(c)
  {
    (c as int) - ('0' as int)
  }

  /** The decimal numeral of `n`, without leading zeros. */
  function NatToString(n: nat): (r: string)
    ensures |r| >= 1 && AllDigits(r)
    ensures r[0] == '0' ==> n == 0
    decreases n
  {
    if n < 10 then [DigitChar(n)] else NatToString(n / 10) + [DigitChar(n % 10)]
  }

  /** `String(i)` for an integer `i`. */
  function IntToString(i: int): string
  {
    if i < 0 then "-" + NatToString(-i) else NatToString(i)
  }

  /** `String(v)`. */
  function ToJsString(v: Value): string
  {
    match v
    case Undefined => "undefined"
    case Null => "null"
    case Text(s) => s
    case Int(i) => IntToString(i)
  }

  /** The number denoted by a string of decimal digits. */
  function DigitsValue(ds: string): nat
    requires AllDigits(ds)
    decreases |ds|
  {
    if ds == [] then 0 else DigitsValue(ds[..|ds| - 1]) * 10 + DigitValue(ds[|ds| - 1])
  }

  /** The longest prefix of `s` made of decimal digits. */
  function DigitPrefix(s: string): (r: string)
    ensures r <= s && AllDigits(r)
    ensures |r| < |s| ==> !IsDigit(s[|r|])
    decreases |s|
  {
    if s == [] || !IsDigit(s[0]) then [] else [s[0]] + DigitPrefix(s[1..])
  }

  /** ECMAScript WhiteSpace and LineTerminator code units, which `parseInt` skips. */
  predicate IsJsSpace(c: char)
  {
    c == ' ' || c == '\t' || c == '\n' || c == '\r' || c == '\U{000B}' || c == '\U{000C}'
    || c == '\U{00A0}' || c == '\U{1680}' || ('\U{2000}' <= c <= '\U{200A}')
    || c == '\U{2028}' || c == '\U{2029}' || c == '\U{202F}' || c == '\U{205F}'
    || c == '\U{3000}' || c == '\U{FEFF}'
  }

  function TrimStart(s: string): (r: string)
    ensures |r| <= |s| && r == s[|s| - |r|..]
    ensures r != [] ==> !IsJsSpace(r[0])
    decreases |s|
  {
    if s != [] && IsJsSpace(s[0]) then TrimStart(s[1..]) else s
  }

  /** `parseInt(s, 10)`: skip leading white space, read an optional sign and
      the longest run of digits after it; `None` is NaN (no digits). */
  function ParseInt(s: string): Option<int>
  {
    var t := TrimStart(s);
    var negative := t != [] && t[0] == '-';
    var unsigned := if t != [] && (t[0] == '-' || t[0] == '+') then t[1..] else t;
    var ds := DigitPrefix(unsigned);
    var magnitude: int := if ds == [] then 0 else DigitsValue(ds);
    if ds == [] then None else Some(if negative then -magnitude else magnitude)
  }

  lemma {:induction false} DigitsValueOfNatToString(n: nat)
    ensures DigitsValue(NatToString(n)) == n
    decreases n
  {
    var r := NatToString(n);
    if n >= 10 {
      DigitsValueOfNatToString(n / 10);
      assert r[..|r| - 1] == NatToString(n / 10);
    }
  }

  lemma DigitPrefixOfDigits(s: string)
    requires AllDigits(s)
    ensures DigitPrefix(s) == s
  {
  }

  lemma TrimStartUnspaced(s: string)
    requires s != [] && !IsJsSpace(s[0])
    ensures TrimStart(s) == s
  {
  }

  /** A run of digits parses to its value. */
  lemma ParseIntOfDigits(digits: string)
    requires digits != [] && AllDigits(digits)
    ensures ParseInt(digits) == Some(DigitsValue(digits))
  {
    assert IsDigit(digits[0]);
    TrimStartUnspaced(digits);
    DigitPrefixOfDigits(digits);
  }

  /** A minus sign and a run of digits parse to the negated value. */
  lemma ParseIntOfNegated(digits: string)
    requires digits != [] && AllDigits(digits)
    ensures ParseInt("-" + digits) == Some(-(DigitsValue(digits) as int))
  {
    var printed := "-" + digits;
    assert printed[0] == '-' && printed[1..] == digits;
    TrimStartUnspaced(printed);
    DigitPrefixOfDigits(digits);
  }

  /** `parseInt(String(i), 10) == i`: reading back a printed integer gives it back. */
  lemma ParseIntOfIntToString(i: int)
    ensures ParseInt(IntToString(i)) == Some(i)
  {
    var n: nat := if i < 0 then -i else i;
    DigitsValueOfNatToString(n);
    if i < 0 {
      ParseIntOfNegated(NatToString(n));
    } else {
      ParseIntOfDigits(NatToString(n));
    }
  }

  /** `parseInt(undefined, 10)` reads the text "undefined": NaN. */
  lemma ParseIntOfUndefined()
    ensures ParseInt(ToJsString(Undefined)) == None
  {
    var s := ToJsString(Undefined);
    assert s == "undefined";
    assert !IsJsSpace(s[0]);
    assert TrimStart(s) == s;
    assert DigitPrefix(s) == [];
  }

  /** The printed form of an integer never starts with '0' unless it is "0". */
  lemma IntToStringLeadingZero(i: int)
    ensures IntToString(i)[0] == '0' ==> IntToString(i) == "0"
  {
    if i >= 0 && NatToString(i)[0] == '0' {
      assert i == 0;
    }
  }

  /** ASCII letters folded to lower case: how the databases' case-insensitive
      comparisons treat letters. */
  function AsciiLower(s: string): (r: string)
    ensures |r| == |s|
  {
    seq(|s|, k requires 0 <= k < |s| => if 'A' <= s[k] <= 'Z' then (s[k] as int + 32) as char else s[k])
  }

  /** `s.startsWith(prefix)` */
  predicate StartsWith(s: string, prefix: string)
  {
    prefix <= s
  }

  /** `needle` occurs somewhere in `s` (SQL `LIKE '%needle%'` without wildcards in `needle`). */
  predicate Contains(s: string, needle: string)
    decreases |s|
  {
    needle <= s || (s != [] && Contains(s[1..], needle))
  }

  lemma {:induction false} ContainsAt(s: string, needle: string, k: nat)
    requires k + |needle| <= |s| && s[k..k + |needle|] == needle
    ensures Contains(s, needle)
    decreases k
  {
    if k > 0 {
      assert s[1..][k - 1..k - 1 + |needle|] == needle;
      ContainsAt(s[1..], needle, k - 1);
    }
  }
}
