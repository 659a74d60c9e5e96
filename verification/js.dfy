/**
 JavaScript values as they reach the plugin from a parsed service
 configuration, and the handful of language operations the plugin applies
 to them: truthiness, property reads, `||`, object spread / `Object.keys`,
 and template-literal string conversion.
 */
module Js {

  /** A JavaScript value. Numbers are integral (plus the falsy `NaN`);
      objects are string-keyed maps of their own enumerable properties. */
  datatype JsValue =
    | Undefined
    | Null
    | Bool(b: bool)
    | Num(n: int)
    | NaN
    | Str(s: string)
    | Arr(elems: seq<JsValue>)
    | Obj(props: map<string, JsValue>)

  /** `v == null` under loose equality: only `null` and `undefined`, both
      of them falsy. */
  predicate IsNullish(v: JsValue): (r: bool)
    ensures r <==> v == Null || v == Undefined
    ensures r ==> !Truthy(v)
  {
    v.Undefined? || v.Null?
  }

  /** ToBoolean: true exactly when `!v` is false. The falsy values are those
      of section 7.1.2 of ECMA-262, without the negative zero and the `0n`
      this value model does not represent. */
  predicate Truthy(v: JsValue): (r: bool)
    ensures !r <==> v in [Undefined, Null, Bool(false), Num(0), NaN, Str("")]
  {
    match v
    case Undefined => false
    case Null => false
    case Bool(b) => b
    case Num(n) => n != 0
    case NaN => false
    case Str(s) => s != ""
    case Arr(_) => true
    case Obj(_) => true
  }

  /** `a || b`: the first operand when it is truthy, else the second. */
  function Or(a: JsValue, b: JsValue): (r: JsValue)
    ensures Truthy(a) ==> r == a
    ensures !Truthy(a) ==> r == b
    ensures Truthy(r) <==> Truthy(a) || Truthy(b)
  {
    if Truthy(a) then a else b
  }

  /** `v.key` for a value that is not `null`/`undefined` (reading a property of
      those throws, which callers model separately). Only object properties are
      visible: the names the plugin reads are never `length`, an array index or
      a member of `Object.prototype`. */
  function Prop(v: JsValue, key: string): (r: JsValue)
    requires !IsNullish(v)
    ensures !v.Obj? ==> r == Undefined
    ensures v.Obj? && key !in v.props ==> r == Undefined
    ensures v.Obj? && key in v.props ==> r == v.props[key]
  {
    if v.Obj? && key in v.props then v.props[key] else Undefined
  }

  /* ---------------- decimal numerals ---------------- */

  predicate IsDigit(c: char) {
    '0' <= c <= '9'
  }

  function DigitChar(d: nat): (c: char)
    requires d < 10
    ensures IsDigit(c) && DigitValue(c) == d
  {
    "0123456789"[d]
  }

  /** The decimal numeral of `n`: what `String(n)` writes for an integer
      below 10^21 that a double holds exactly. */
  function NatToString(n: nat): (r: string)
    ensures |r| > 0
    ensures forall i :: 0 <= i < |r| ==> IsDigit(r[i])
    ensures |r| > 1 ==> r[0] != '0'
    decreases n
  {
    if n < 10 then [DigitChar(n)] else NatToString(n / 10) + [DigitChar(n % 10)]
  }

  /** Reads a string of digits back as a number. */
  function DigitsValue(s: string): nat
    requires forall i :: 0 <= i < |s| ==> IsDigit(s[i])
  {
    if |s| == 0 then 0
    else DigitsValue(s[..|s| - 1]) * 10 + DigitValue(s[|s| - 1])
  }

  function DigitValue(c: char): nat
    requires IsDigit(c)
  {
    assert c as int >= '0' as int;
    c as int - '0' as int
  }

  /** Reading a numeral back gives the number it was written from. */
  lemma {:induction false} DigitsValueOfNatToString(n: nat)
    ensures DigitsValue(NatToString(n)) == n
    decreases n
  {
    var r := NatToString(n);
    if n >= 10 {
      var p := NatToString(n / 10);
      assert r == p + [DigitChar(n % 10)];
      assert r[..|r| - 1] == p;
      DigitsValueOfNatToString(n / 10);
    }
  }

  /** Distinct numbers have distinct numerals, so index keys never collide. */
  lemma NatToStringInjective(m: nat, n: nat)
    requires NatToString(m) == NatToString(n)
    ensures m == n
  {
    DigitsValueOfNatToString(m);
    DigitsValueOfNatToString(n);
  }

  /** The numeral of an integer, with a leading `-` when it is negative. */
  function IntToString(i: int): (r: string)
    ensures i >= 0 ==> r == NatToString(i)
    ensures i >= 0 ==> DigitsValue(r) == i
    ensures i < 0 ==> |r| > 1 && r[0] == '-' && r[1..] == NatToString(-i)
  {
    if i < 0 then "-" + NatToString(-i)
    else
      DigitsValueOfNatToString(i);
      NatToString(i)
  }

  /* ---------------- string conversion ---------------- */

  /** `parts.join(sep)` */
  function Join(parts: seq<string>, sep: string): string {
    if |parts| == 0 then ""
    else if |parts| == 1 then parts[0]
    else parts[0] + sep + Join(parts[1..], sep)
  }

  /** `String(v)`, the conversion a template literal `${v}` applies.
      Arrays convert through `join(',')`, where `null` and `undefined`
      elements become the empty string; plain objects print as
      `[object Object]`. */
  function ToString(v: JsValue): (r: string)
    ensures v.Str? ==> r == v.s
    ensures v.Num? && v.n >= 0 ==> (forall i :: 0 <= i < |r| ==> IsDigit(r[i])) && DigitsValue(r) == v.n
    ensures v.Arr? && |v.elems| == 0 ==> r == ""
    ensures v.Arr? && |v.elems| == 1 && IsNullish(v.elems[0]) ==> r == ""
    ensures v.Arr? && |v.elems| == 1 && v.elems[0].Str? ==> r == v.elems[0].s
    decreases v
  {
    match v
    case Undefined => "undefined"
    case Null => "null"
    case Bool(b) => if b then "true" else "false"
    case Num(n) => IntToString(n)
    case NaN => "NaN"
    case Str(s) => s
    case Arr(a) =>
      Join(seq(|a|, i requires 0 <= i < |a| => if IsNullish(a[i]) then "" else ToString(a[i])), ",")
    case Obj(_) => "[object Object]"
  }

  /** Template conversion of a string spec is the string itself, and of an
      array of strings is the strings joined with commas. */
  lemma ToStringOfStrings(a: seq<string>)
    ensures ToString(Arr(seq(|a|, i requires 0 <= i < |a| => Str(a[i])))) == Join(a, ",")
  {
    var v := seq(|a|, i requires 0 <= i < |a| => Str(a[i]));
    var parts := seq(|v|, i requires 0 <= i < |v| => if IsNullish(v[i]) then "" else ToString(v[i]));
    assert parts == a;
  }

  /* ---------------- own enumerable properties ---------------- */

  /** The property names `"0"`, ..., the numeral of `n - 1`. */
  function IndexKeys(n: nat): set<string> {
    set i | 0 <= i < n :: NatToString(i)
  }

  /** The index-keyed properties of an array-like: `"0" -> a[0]`, `"1" -> a[1]`, ... */
  function IndexEntries(a: seq<JsValue>): (m: map<string, JsValue>)
    ensures m.Keys == IndexKeys(|a|)
    ensures forall i :: 0 <= i < |a| ==> m[NatToString(i)] == a[i]
  {
    if |a| == 0 then map[]
    else
      var prev := IndexEntries(a[..|a| - 1]);
      var m := prev[NatToString(|a| - 1) := a[|a| - 1]];
      var all := IndexKeys(|a|);
      var init := IndexKeys(|a| - 1);
      assert prev.Keys == init;
      assert all == init + {NatToString(|a| - 1)} by {
        forall k | k in all ensures k in init + {NatToString(|a| - 1)} {
          var i :| 0 <= i < |a| && k == NatToString(i);
          if i < |a| - 1 { assert k in init; }
        }
      }
      assert m.Keys == all;
      assert forall i :: 0 <= i < |a| - 1 ==> NatToString(i) != NatToString(|a| - 1) by {
        forall i | 0 <= i < |a| - 1
          ensures NatToString(i) != NatToString(|a| - 1)
        {
          if NatToString(i) == NatToString(|a| - 1) {
            NatToStringInjective(i, |a| - 1);
          }
        }
      }
      m
  }

  /** The own enumerable properties of `v`, as object spread `{...v}` and
      `Object.keys(v)` see them: an object's properties, an array's or a
      string's indices, and nothing for `null`, `undefined`, booleans and
      numbers. */
  function OwnEntries(v: JsValue): (m: map<string, JsValue>)
    ensures v.Obj? ==> m == v.props
    ensures v.Arr? ==> m.Keys == IndexKeys(|v.elems|) && forall i :: 0 <= i < |v.elems| ==> m[NatToString(i)] == v.elems[i]
    ensures v.Str? ==> m.Keys == IndexKeys(|v.s|) && forall i :: 0 <= i < |v.s| ==> m[NatToString(i)] == Str([v.s[i]])
    ensures !v.Obj? && !v.Arr? && !v.Str? ==> m == map[]
  {
    match v
    case Obj(props) => props
    case Arr(a) => IndexEntries(a)
    case Str(s) => IndexEntries(seq(|s|, i requires 0 <= i < |s| => Str([s[i]])))
    case _ => map[]
  }
}
