/** JavaScript values as the utilities see them, and the coercions they rely on:
    truthiness, `typeof`-style tag checks, `String(v)` and property lookup. */
module JsValue {
  import opened Wrappers
  import opened Ascii

  /** A JavaScript value. Numbers are integers, with NaN as a tag of its own.
      `Obj` is an object whose prototype is Object.prototype and which has no
      `toString` or `valueOf` of its own, such as an object literal: its
      tag is "Object", `String(v)` is "[object Object]", and the names it
      inherits are exactly InheritedNames. `Other` is every other non-array
      object tagged otherwise (functions, Date, RegExp, Map, ...), with its own
      enumerable properties and the string `String(v)` gives for it. Strings
      are sequences of code points, so `length` counts code points. */
  datatype Value =
    | Undefined
    | Null
    | Bool(b: bool)
    | Num(n: int)
    | NaN
    | Str(s: string)
    | Arr(items: seq<Value>)
    | Obj(fields: map<string, Value>)
    | Other(callable: bool, props: map<string, Value>, text: string)

  /** The exception the modelled code can raise. */
  datatype JsError = TypeError

  /** Boolean(v). */
  function Truthy(v: Value): (r: bool)
    ensures v.Undefined? || v.Null? || v.NaN? ==> !r
    ensures v.Str? ==> (r <==> v.s != [])
    ensures v.Num? ==> (r <==> v.n != 0)
    ensures v.Bool? ==> r == v.b
    ensures v.Arr? || v.Obj? || v.Other? ==> r
  {
    match v
    case Undefined => false
    case Null => false
    case NaN => false
    case Bool(b) => b
    case Num(n) => n != 0
    case Str(s) => s != ""
    case _ => true
  }

  /** `value == null` */
  function IsNullish(v: Value): (r: bool)
    ensures r ==> !Truthy(v)
    ensures v.Bool? || v.Num? || v.NaN? || v.Str? || v.Arr? || v.Obj? || v.Other? ==> !r
  {
    v.Undefined? || v.Null?
  }

  /** isPlainObject: Object.prototype.toString gives "[object Object]". */
  function IsPlainObject(v: Value): (r: bool)
    ensures r ==> Truthy(v) && !IsNullish(v) && !v.Arr?
    ensures v.Obj? ==> r
    ensures v.Bool? || v.Num? || v.NaN? || v.Str? || v.Other? ==> !r
  {
    v.Obj?
  }

  /** isEmpty: nullish, a string or array of length 0, or an object without own keys. */
  function IsEmpty(v: Value): (r: bool)
    ensures IsNullish(v) ==> r
    ensures v.Str? ==> (r <==> !Truthy(v))
    ensures v.Bool? || v.Num? || v.NaN? ==> !r
    ensures v.Arr? ==> (r <==> v.items == [])
    ensures v.Obj? ==> (r <==> v.fields == map[])
    ensures v.Other? && v.callable ==> !r
    ensures v.Other? && !v.callable ==> (r <==> v.props == map[])
    ensures r && !IsNullish(v) && !v.Str? ==> Truthy(v)
  {
    match v
    case Undefined => true
    case Null => true
    case Str(s) => |s| == 0
    case Arr(items) => |items| == 0
    case Obj(fields) => |fields| == 0
    case Other(callable, props, _) => !callable && |props| == 0
    case _ => false
  }

  /** null and undefined are the only values that are empty, falsy and not a string. */
  lemma NullishIffEmptyFalsy(v: Value)
    ensures IsNullish(v) <==> IsEmpty(v) && !Truthy(v) && !v.Str?
  {
  }

  lemma IsEmptyExamples()
    ensures IsEmpty(Str("")) && IsEmpty(Arr([])) && IsEmpty(Obj(map[])) && !IsEmpty(Str("test"))
  {
  }

  lemma IsPlainObjectExamples()
    ensures IsPlainObject(Obj(map[])) && !IsPlainObject(Arr([]))
  {
  }

  /** The decimal digit for 0 <= d < 10. */
  function DigitChar(d: nat): (c: char)
    requires d < 10
    ensures IsDigit(c) && c as int - '0' as int == d
  {
    ('0' as int + d) as char
  }

  /** Number.prototype.toString for a non-negative integer below 10^21; from
      10^21 on, JavaScript prints exponent form instead. */
  function NatToString(n: nat): (r: string)
    ensures r != [] && (forall i :: 0 <= i < |r| ==> IsDigit(r[i]))
    ensures r[0] == '0' ==> n == 0
  {
    if n < 10 then [DigitChar(n)] else NatToString(n / 10) + [DigitChar(n % 10)]
  }

  /** Number.prototype.toString for an integer of magnitude below 10^21. */
  function IntToString(n: int): string {
    if n < 0 then "-" + NatToString(-n) else NatToString(n)
  }

  /** The value of a string of decimal digits. */
  function DigitsValue(s: string): nat
    requires forall i :: 0 <= i < |s| ==> IsDigit(s[i])
  {
    if s == [] then 0
    else
      var last := s[|s| - 1];
      assert IsDigit(last);
      DigitsValue(s[..|s| - 1]) * 10 + (last as int - '0' as int)
  }

  /** The index a property name denotes when it is a canonical array index. */
  function ParseIndex(key: string): (r: Option<nat>)
    ensures r.Some? ==> key != [] && (forall i :: 0 <= i < |key| ==> IsDigit(key[i]))
  {
    if key != [] && (forall i :: 0 <= i < |key| ==> IsDigit(key[i])) && (key[0] != '0' || |key| == 1)
    then Some(DigitsValue(key))
    else None
  }

  lemma {:induction false} DigitsOfNat(n: nat)
    ensures DigitsValue(NatToString(n)) == n
  {
    if n >= 10 {
      var s := NatToString(n);
      assert s[..|s| - 1] == NatToString(n / 10);
      DigitsOfNat(n / 10);
    }
  }

  /** Printing an index and reading it back as a property name gives the index. */
  lemma ParseIndexOfNat(n: nat)
    ensures ParseIndex(NatToString(n)) == Some(n)
  {
    DigitsOfNat(n);
  }

  /** Array.prototype.join(","): undefined and null elements become "". */
  function JoinElements(parts: seq<string>): (r: string)
    ensures parts == [] ==> r == ""
  {
    if parts == [] then ""
    else if |parts| == 1 then parts[0]
    else parts[0] + "," + JoinElements(parts[1..])
  }

  /** String(v), which is also the property key `obj[v]` uses. */
  function ToJsString(v: Value): (r: string)
    ensures v.Str? ==> r == v.s
  {
    match v
    case Undefined => "undefined"
    case Null => "null"
    case Bool(b) => if b then "true" else "false"
    case Num(n) => IntToString(n)
    case NaN => "NaN"
    case Str(s) => s
    case Arr(items) =>
      JoinElements(seq(|items|, i requires 0 <= i < |items| =>
        if IsNullish(items[i]) then "" else ToJsString(items[i])))
    case Obj(_) => "[object Object]"
    case Other(_, _, text) => text
  }

  /** The names every object created by `{}` inherits from Object.prototype;
      reading one of them from such an object finds the inherited member, which
      is truthy; only `__proto__` (Object.prototype itself) is a plain object. */
  const InheritedNames: set<string> := {
    "constructor", "__defineGetter__", "__defineSetter__", "hasOwnProperty",
    "__lookupGetter__", "__lookupSetter__", "isPrototypeOf", "propertyIsEnumerable",
    "toString", "valueOf", "__proto__", "toLocaleString"
  }

  /** A character of a string or an element of an array read through a property name. */
  function Indexed<T>(elements: seq<T>, key: string): Option<T> {
    match ParseIndex(key)
    case Some(i) => if i < |elements| then Some(elements[i]) else None
    case None => None
  }

  /** Reading `item[key]`: TypeError on null and undefined; own properties of
      objects; `length` and the index properties of strings and arrays. */
  function Get(item: Value, key: string): (r: Result<Value, JsError>)
    ensures r.Err? <==> IsNullish(item)
    ensures item.Obj? && key in item.fields ==> r == Ok(item.fields[key])
    ensures item.Obj? && key !in item.fields ==> r == Ok(Undefined)
  {
    match item
    case Undefined => Err(TypeError)
    case Null => Err(TypeError)
    case Obj(fields) => Ok(if key in fields then fields[key] else Undefined)
    case Other(_, props, _) => Ok(if key in props then props[key] else Undefined)
    case Str(s) =>
      if key == "length" then Ok(Num(|s|))
      else Ok(match Indexed(s, key) case Some(c) => Str([c]) case None => Undefined)
    case Arr(items) =>
      if key == "length" then Ok(Num(|items|))
      else Ok(match Indexed(items, key) case Some(x) => x case None => Undefined)
    case _ => Ok(Undefined)
  }

  /** An array element can be read back through the name of its index. */
  lemma GetArrayIndex(items: seq<Value>, i: nat)
    requires i < |items|
    ensures Get(Arr(items), NatToString(i)) == Ok(items[i])
  {
    ParseIndexOfNat(i);
    assert NatToString(i) != "length";
  }
}
