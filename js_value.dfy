/**
 * The JavaScript values a recipe payload can hold once it has gone through
 * `JSON.parse`, plus `undefined`, with the three operations the front-end
 * performs on them: truthiness, property access, conversion to a string and
 * comparison with 0.
 */
module JsValue {
  import opened Wrappers
  import JsString

  /**
   * A JavaScript value. Numbers are integers here (the model does not give
   * fractional JSON numbers a string form); objects map their own keys to
   * their values.
   */
  datatype Value =
    | Undefined
    | Null
    | Bool(b: bool)
    | Num(n: int)
    | Str(s: string)
    | Arr(elems: seq<Value>)
    | Obj(props: map<string, Value>)

  /** `null` and `undefined`: reading a property of either throws a TypeError. */
  predicate Nullish(v: Value) {
    v.Undefined? || v.Null?
  }

  /** JavaScript's ToBoolean: `undefined`, `null`, `false`, `0` and `""` are falsy, everything else truthy. */
  predicate Truthy(v: Value) {
    match v
    case Undefined => false
    case Null => false
    case Bool(b) => b
    case Num(n) => n != 0
    case Str(s) => s != ""
    case Arr(_) => true
    case Obj(_) => true
  }

  /** Whether `typeof` reports "object": the case for objects, arrays and `null`. */
  predicate IsObjectType(v: Value) {
    v.Arr? || v.Obj? || v.Null?
  }

  /** The `or` operator: the first operand when it is truthy, the second otherwise. */
  function Or(a: Value, b: Value): (r: Value)
    ensures Truthy(a) ==> r == a
    ensures !Truthy(a) ==> r == b
  {
    if Truthy(a) then a else b
  }

  /**
   * Reading property `key` of a value that is not `null` or `undefined`. An object gives
   * its own property or `undefined`; strings and arrays have a `length`;
   * every other property read here (`name`, `recipes`, `instructions`, ...)
   * is `undefined` on a non-object.
   */
  function Prop(v: Value, key: string): (r: Value)
    requires !Nullish(v)
    ensures v.Obj? && key !in v.props ==> r == Undefined
    ensures v.Arr? && key == "length" ==> r == Num(|v.elems|)
    ensures (v.Bool? || v.Num?) ==> r == Undefined
  {
    match v
    case Obj(props) => if key in props then props[key] else Undefined
    case Arr(elems) => if key == "length" then Num(|elems|) else Undefined
    case Str(s) => if key == "length" then Num(|s|) else Undefined
    case _ => Undefined
  }

  /**
   * Whether `String(v)` succeeds. An object parsed from JSON that has its
   * own `toString` key cannot be converted: that key's value is not
   * callable, and `valueOf` then yields the object itself, so a TypeError is
   * thrown. An array converts by joining its elements, so it fails exactly
   * when one of them does.
   */
  predicate Stringifiable(v: Value) {
    match v
    case Obj(props) => "toString" !in props
    case Arr(elems) => forall i :: 0 <= i < |elems| ==> Stringifiable(elems[i])
    case _ => true
  }

  /** `String(v)`, or `None` when the conversion throws. */
  function ToStr(v: Value): (r: Option<string>)
    ensures r.Some? <==> Stringifiable(v)
    decreases v, 1
  {
    match v
    case Undefined => Some("undefined")
    case Null => Some("null")
    case Bool(b) => Some(if b then "true" else "false")
    case Num(n) => Some(JsString.IntToString(n))
    case Str(s) => Some(s)
    case Arr(elems) => JoinValues(elems, ",")
    case Obj(props) => if "toString" in props then None else Some("[object Object]")
  }

  /**
   * Joining `elems` with `sep`, as arrays do: `null` and `undefined`
   * elements become empty strings, the others are converted with `String`,
   * and the join throws when one of those conversions throws.
   */
  function JoinValues(elems: seq<Value>, sep: string): (r: Option<string>)
    ensures r.Some? <==> forall i :: 0 <= i < |elems| ==> Stringifiable(elems[i])
    decreases elems, 0
  {
    if |elems| == 0 then Some("")
    else
      var first := if Nullish(elems[0]) then Some("") else ToStr(elems[0]);
      if first.None? then None
      else if |elems| == 1 then first
      else
        var rest := JoinValues(elems[1..], sep);
        assert forall i :: 1 <= i < |elems| ==> elems[1..][i - 1] == elems[i];
        if rest.None? then None else Some(first.value + sep + rest.value)
  }

  /** Joining string values is joining their texts. */
  lemma {:induction false} JoinStrings(elems: seq<Value>, sep: string)
    requires forall i :: 0 <= i < |elems| ==> elems[i].Str?
    ensures JoinValues(elems, sep) == Some(JsString.Join(seq(|elems|, i requires 0 <= i < |elems| => elems[i].s), sep))
  {
    if |elems| > 1 {
      JoinStrings(elems[1..], sep);
      assert seq(|elems| - 1, i requires 0 <= i < |elems| - 1 => elems[1..][i].s)
          == seq(|elems|, i requires 0 <= i < |elems| => elems[i].s)[1..];
    }
  }

  /**
   * The comparison `v > 0`, which first converts `v` to a number; `None`
   * when that conversion throws. `undefined` is NaN, `null` is 0 and a
   * boolean is 0 or 1. An object or array converts through its string form,
   * because a JSON value has no callable `valueOf` of its own, so the
   * conversion throws exactly where `String(v)` does.
   */
  function GreaterThanZero(v: Value): (r: Option<bool>)
    ensures r.None? <==> !Stringifiable(v)
    ensures v.Bool? ==> r == Some(v.b)
    ensures v.Num? ==> r == Some(v.n > 0)
    ensures !v.Bool? && r.Some? ==> r.value == JsString.NumericPositive(ToStr(v).value)
  {
    match v
    case Undefined =>
      JsString.LeadingNonNumeric("undefined");
      Some(false)
    case Null =>
      JsString.LeadingNonNumeric("null");
      Some(false)
    case Bool(b) => Some(b)
    case Num(n) =>
      JsString.IntToStringPositive(n);
      Some(n > 0)
    case Str(s) => Some(JsString.NumericPositive(s))
    case Arr(_) =>
      (match ToStr(v)
       case None => None
       case Some(s) => Some(JsString.NumericPositive(s)))
    case Obj(props) =>
      if "toString" in props then None
      else
        JsString.LeadingNonNumeric("[object Object]");
        Some(false)
  }

  /** A one-element array compares with 0 as its number does, through its string form. */
  lemma SingletonArrayComparesAsNumber(n: int)
    ensures GreaterThanZero(Arr([Num(n)])) == Some(n > 0)
  {
    assert JoinValues([Num(n)], ",") == Some(JsString.IntToString(n));
    JsString.IntToStringPositive(n);
  }

  /** A string of decimal digits compares with 0 as the number it denotes. */
  lemma DigitStringComparesAsNumber(n: nat)
    ensures GreaterThanZero(Str(JsString.NatToString(n))) == Some(n > 0)
  {
    JsString.IntToStringPositive(n);
  }
}
