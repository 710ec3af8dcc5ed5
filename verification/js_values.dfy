/** The small fragment of JavaScript values the content renderers inspect:
    the `typeof` classes, truthiness, property lookup, `Object.entries`,
    `String(v)` and `Array.prototype.slice`. Numbers are integers. */
module JsValues {

  datatype Option<+T> = None | Some(value: T)

  /** A JavaScript value. An object is its list of own enumerable fields in
      `Object.entries` order; a function is represented by its source text. */
  datatype JsValue =
    | Null
    | Undef
    | Bool(b: bool)
    | Num(n: int)
    | Str(s: string)
    | Arr(elems: seq<JsValue>)
    | Obj(fields: seq<Field>)
    | Func(source: string)

  datatype Field = Field(key: string, value: JsValue)

  /** `!!v`: the six falsy values are null, undefined, false, 0, "" (and NaN, not modelled). */
  predicate Truthy(v: JsValue) {
    match v
    case Null => false
    case Undef => false
    case Bool(b) => b
    case Num(n) => n != 0
    case Str(s) => s != ""
    case _ => true
  }

  /** `typeof v === "object"`: true of null, arrays and plain objects. */
  predicate IsObjectType(v: JsValue) {
    v.Null? || v.Arr? || v.Obj?
  }

  /** `typeof v === "object" && v !== null`. */
  predicate IsNonNullObject(v: JsValue) {
    v.Arr? || v.Obj?
  }

  /** Index of the last field named `key`, or -1. */
  function FindField(fields: seq<Field>, key: string): (i: int)
    ensures -1 <= i < |fields|
  {
    if |fields| == 0 then -1
    else if fields[|fields| - 1].key == key then |fields| - 1
    else FindField(fields[..|fields| - 1], key)
  }

  /** A duplicated key reads as its last binding: the index found names `key`
      and no later field does; -1 means no field does. */
  lemma {:induction false} FindFieldLast(fields: seq<Field>, key: string)
    ensures var i := FindField(fields, key);
            && (0 <= i ==> fields[i].key == key)
            && (forall j :: i < j < |fields| ==> fields[j].key != key)
    decreases |fields|
  {
    if |fields| > 0 && fields[|fields| - 1].key != key {
      var init := fields[..|fields| - 1];
      FindFieldLast(init, key);
      assert forall j :: 0 <= j < |init| ==> init[j] == fields[j];
    }
  }

  /** `v?.[key]` for the string keys the renderers read: only plain objects
      carry such fields; every other value yields undefined. */
  function Get(v: JsValue, key: string): JsValue
  {
    if v.Obj? then
      var i := FindField(v.fields, key);
      if i < 0 then Undef else v.fields[i].value
    else Undef
  }

  /** `a || b`. */
  function Or(a: JsValue, b: JsValue): (r: JsValue)
    ensures Truthy(a) ==> r == a
    ensures !Truthy(a) ==> r == b
  {
    if Truthy(a) then a else b
  }

  /** Decimal text of a natural number. */
  function NatToString(n: nat): (r: string)
    ensures |r| >= 1
    ensures forall i :: 0 <= i < |r| ==> '0' <= r[i] <= '9'
    decreases n
  {
    var d := [(('0' as int) + n % 10) as char];
    if n < 10 then d else NatToString(n / 10) + d
  }

  function IntToString(n: int): (r: string)
    ensures |r| >= 1
    ensures n < 0 <==> r[0] == '-'
  {
    if n < 0 then "-" + NatToString(-n) else NatToString(n)
  }

  /** The number a run of decimal digits spells, read most significant digit
      first; the reference the decimal texts are checked against. */
  function DigitsValue(s: string): nat
  {
    if s == [] then 0
    else
      var c := s[|s| - 1];
      DigitsValue(s[..|s| - 1]) * 10 + (if '0' <= c <= '9' then c as int - '0' as int else 0)
  }

  /** The decimal text of `n` spells `n`, with no leading zero except for 0 itself. */
  lemma {:induction false} NatToStringValue(n: nat)
    ensures DigitsValue(NatToString(n)) == n
    ensures NatToString(n)[0] == '0' <==> n == 0
    decreases n
  {
    var d := [(('0' as int) + n % 10) as char];
    if n >= 10 {
      NatToStringValue(n / 10);
      var r := NatToString(n / 10) + d;
      assert r[..|r| - 1] == NatToString(n / 10);
      assert r[0] == NatToString(n / 10)[0];
    }
  }

  /** Distinct numbers have distinct decimal texts. */
  lemma NatToStringInjective(a: nat, b: nat)
    requires NatToString(a) == NatToString(b)
    ensures a == b
  {
    NatToStringValue(a);
    NatToStringValue(b);
  }

  /** `String(n)` for an integer: a minus sign exactly for a negative number,
      followed by the digits of its magnitude. */
  lemma IntToStringValue(n: int)
    ensures var r := IntToString(n);
            && (n < 0 ==> r[0] == '-' && DigitsValue(r[1..]) == -n)
            && (n >= 0 ==> DigitsValue(r) == n)
  {
    if n < 0 {
      NatToStringValue(-n);
      assert IntToString(n)[1..] == NatToString(-n);
    } else {
      NatToStringValue(n);
    }
  }

  /** `String(v)`. Arrays join their elements' strings with ","; null and
      undefined elements contribute the empty string. */
  function ToJsString(v: JsValue): string
  {
    match v
    case Null => "null"
    case Undef => "undefined"
    case Bool(b) => if b then "true" else "false"
    case Num(n) => IntToString(n)
    case Str(s) => s
    case Arr(elems) => JoinElements(elems)
    case Obj(_) => "[object Object]"
    case Func(source) => source
  }

  function JoinElements(elems: seq<JsValue>): string
  {
    if |elems| == 0 then ""
    else
      var head := if elems[0].Null? || elems[0].Undef? then "" else ToJsString(elems[0]);
      if |elems| == 1 then head else head + "," + JoinElements(elems[1..])
  }

  /** `Object.entries(v)`: None models the TypeError thrown for null and
      undefined; strings and arrays list their indices; other primitives and
      functions have no own enumerable fields. */
  function Entries(v: JsValue): (r: Option<seq<Field>>)
    ensures r.None? <==> v.Null? || v.Undef?
    ensures v.Obj? ==> r == Some(v.fields)
  {
    match v
    case Null => None
    case Undef => None
    case Obj(fields) => Some(fields)
    case Arr(elems) => Some(seq(|elems|, i requires 0 <= i < |elems| => Field(NatToString(i), elems[i])))
    case Str(s) => Some(seq(|s|, i requires 0 <= i < |s| => Field(NatToString(i), Str([s[i]]))))
    case _ => Some([])
  }

  /** A relative index of `Array.prototype.slice`, resolved against the length. */
  function SliceIndex(len: nat, i: int): (r: nat)
    ensures r <= len
    ensures 0 <= i ==> r == if i < len then i else len
  {
    if i < 0 then (if len + i < 0 then 0 else len + i)
    else if i < len then i else len
  }

  /** `s.slice(start, end)`. */
  function JsSlice<T>(s: seq<T>, start: int, end: int): (r: seq<T>)
    ensures |r| <= |s|
    ensures 0 <= start <= end ==>
      r == s[SliceIndex(|s|, start)..SliceIndex(|s|, end)]
  {
    var a := SliceIndex(|s|, start);
    var b := SliceIndex(|s|, end);
    if a <= b then s[a..b] else []
  }

  /** `[...s].reverse()` (or an in-place `reverse`, read as a value). */
  function Reverse<T>(s: seq<T>): (r: seq<T>)
    ensures |r| == |s|
    ensures forall i :: 0 <= i < |s| ==> r[i] == s[|s| - 1 - i]
  {
    if |s| == 0 then [] else Reverse(s[1..]) + [s[0]]
  }

  lemma {:induction false} ReverseReverse<T>(s: seq<T>)
    ensures Reverse(Reverse(s)) == s
  {
    var r := Reverse(s);
    var rr := Reverse(r);
    assert |rr| == |s|;
    forall i | 0 <= i < |s| ensures rr[i] == s[i] {
      assert rr[i] == r[|s| - 1 - i];
    }
  }
}
