/**
 * The JavaScript values a parsed request body is made of, JavaScript's
 * truthiness, property access and string conversion, and the completion of an
 * evaluation that may throw.
 */
module JsValue {
  import opened JsStrings

  datatype Option<T> = None | Some(value: T)

  /** How a JavaScript evaluation ends: with a value, or by throwing (a TypeError). */
  datatype Completion<T> = Normal(value: T) | Thrown

  /** A JavaScript value as produced by `JSON.parse` or by a property access. */
  datatype Node =
    | Undefined
    | Null
    | Bool(b: bool)
    | Num(n: int)
    | Str(s: string)
    | Arr(items: seq<Node>)
    | Obj(fields: map<string, Node>)

  /** JavaScript truthiness: `undefined`, `null`, `false`, `0` and `""` are falsy. */
  predicate Truthy(v: Node) {
    match v
    case Undefined => false
    case Null => false
    case Bool(b) => b
    case Num(n) => n != 0
    case Str(s) => s != ""
    case Arr(_) => true
    case Obj(_) => true
  }

  /** The array index a property key denotes: a decimal numeral without leading zeros. */
  function CanonicalIndex(key: string): Option<nat> {
    if |key| >= 1 && (forall i :: 0 <= i < |key| ==> IsDigit(key[i])) && (key[0] != '0' || key == "0")
    then Some(DigitsValue(key))
    else None
  }

  /** The canonical index keys are exactly the renderings of natural numbers. */
  lemma CanonicalIndexRoundTrip(n: nat, key: string)
    ensures CanonicalIndex(NatToString(n)) == Some(n)
    ensures CanonicalIndex(key) == Some(n) ==> key == NatToString(n)
  {
    DigitsValueOfNatToString(n);
    if CanonicalIndex(key) == Some(n) {
      NatToStringOfDigits(key);
    }
  }

  /**
   * `obj[key]`: reading a property of `undefined` or `null` throws; an object
   * yields its own entry, an array or a string its element at a canonical index
   * or its `length` (for a string, in UTF-16 code units); anything else has no
   * such property.
   */
  function Lookup(obj: Node, key: string): (r: Completion<Node>)
    ensures r.Thrown? <==> (obj.Undefined? || obj.Null?)
    ensures obj.Obj? ==> r == Normal(if key in obj.fields then obj.fields[key] else Undefined)
    ensures (obj.Num? || obj.Bool?) ==> r == Normal(Undefined)
    ensures obj.Arr? && key == "length" ==> r == Normal(Num(|obj.items|))
    ensures obj.Str? && key == "length" ==> r == Normal(Num(Utf16Length(obj.s)))
  {
    match obj
    case Undefined => Thrown
    case Null => Thrown
    case Obj(m) => Normal(if key in m then m[key] else Undefined)
    case Arr(xs) =>
      if key == "length" then Normal(Num(|xs|))
      else (match CanonicalIndex(key)
            case Some(i) => Normal(if i < |xs| then xs[i] else Undefined)
            case None => Normal(Undefined))
    case Str(s) =>
      if key == "length" then Normal(Num(Utf16Length(s)))
      else (match CanonicalIndex(key)
            case Some(i) => Normal(if i < |s| then Str([s[i]]) else Undefined)
            case None => Normal(Undefined))
    case _ => Normal(Undefined)
  }

  /**
   * Whether `String(v)` (and `Number(v)`, which goes through the same
   * conversion) throws a TypeError. A parsed object whose own `toString` key
   * shadows the inherited method has no callable conversion left: the key's
   * value is plain data and the inherited `valueOf` returns the object itself.
   * An array converts by joining its elements, so it throws when one of them does.
   */
  predicate ToStringThrows(v: Node)
    decreases v
  {
    match v
    case Obj(m) => "toString" in m
    case Arr(items) => exists i :: 0 <= i < |items| && ToStringThrows(items[i])
    case _ => false
  }

  /**
   * `String(v)`: an array joins its elements with commas, `null` and
   * `undefined` ones as ""; an object is "[object Object]" unless its own
   * `toString` key makes the conversion throw.
   */
  function ToJsString(v: Node): (r: Completion<string>)
    ensures r.Thrown? <==> ToStringThrows(v)
    ensures v.Str? ==> r == Normal(v.s)
    ensures v.Obj? && r.Normal? ==> r.value == "[object Object]"
    decreases v
  {
    match v
    case Undefined => Normal("undefined")
    case Null => Normal("null")
    case Bool(b) => Normal(if b then "true" else "false")
    case Num(n) => Normal(IntToString(n))
    case Str(s) => Normal(s)
    case Arr(items) =>
      var parts := seq(|items|, i requires 0 <= i < |items| => ToJsString(items[i]));
      if exists i :: 0 <= i < |items| && parts[i].Thrown? then Thrown
      else
        assert forall i :: 0 <= i < |items| ==> !ToStringThrows(items[i]) by {
          forall i | 0 <= i < |items| ensures !ToStringThrows(items[i]) {
            assert !parts[i].Thrown?;
          }
        }
        Normal(Join(seq(|items|, i requires 0 <= i < |items| =>
             if items[i].Undefined? || items[i].Null? then "" else parts[i].value), ","))
    case Obj(m) => if "toString" in m then Thrown else Normal("[object Object]")
  }

  /** A `toString` key in a parsed body makes `String` throw, even nested inside an array. */
  lemma OwnToStringThrows(m: map<string, Node>)
    requires "toString" in m
    ensures ToJsString(Obj(m)).Thrown?
    ensures ToJsString(Arr([Str("a"), Obj(m)])).Thrown?
  {
    assert ToStringThrows(Arr([Str("a"), Obj(m)]).items[1]);
  }
}
