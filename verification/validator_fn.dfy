/**
 * The leaf predicates a rule runs on a value (`ValidatorFn`). Each one takes
 * the value, the rule's key and the rule's message, and answers with a
 * response record: `{result: true, message: 'valid'}` on success, otherwise
 * `{result: false, message}` where the message is the rule's own one when it
 * is non-empty and a default `Invalid <key> input. Cause: ...` text otherwise.
 *
 * The value is whatever the pipeline located: a query or header string, or any
 * node of a parsed body, so each predicate is defined on every `Node`, with
 * JavaScript's coercions and its TypeErrors written out.
 */
module ValidatorFn {
  import opened JsStrings
  import opened JsValue

  /** `{min?, max?}`: a bound that is absent or 0 is falsy and imposes nothing. */
  datatype SizeValidation = SizeValidation(min: Option<int>, max: Option<int>)

  /** `{result, message}` as returned by every predicate. */
  datatype Response = Response(result: bool, message: string)

  /**
   * The predicates a rule can carry. The regular-expression ones and the
   * number parser are oracles over the value they test; `Custom` is a
   * user-supplied validator function.
   */
  datatype Predicate =
    | HasLenght(size: SizeValidation)
    | HasAllowedCharacters(allowed: string, test: string -> bool)
    | IsIn(values: seq<string>)
    | IsUrl
    | IsNumeric(isNumber: Node -> bool)
    | IsBoolean
    | IsArray(bounds: Option<SizeValidation>)
    | IsObject
    | IsString
    | Contains(search: string, caseSensitive: bool)
    | Matches(test: string -> bool)
    | Custom(validate: (Node, string, Option<string>) -> Response)

  const Success := Response(true, "valid")

  /** `failed(message)`: a negative response carrying the message. */
  function Failed(message: string): Response {
    Response(false, message)
  }

  /** `message || fallback`: an absent or empty message falls back. */
  function MessageOr(message: Option<string>, fallback: string): (m: string)
    ensures message.Some? && message.value != "" ==> m == message.value
    ensures message.None? || message.value == "" ==> m == fallback
  {
    if message.Some? && message.value != "" then message.value else fallback
  }

  /** The default failure text of a predicate. */
  function DefaultMessage(key: string, cause: string): string {
    "Invalid " + key + " input. Cause: " + cause
  }

  /** The failure a predicate reports for `cause`. */
  function Fail(key: string, message: Option<string>, cause: string): Response {
    Failed(MessageOr(message, DefaultMessage(key, cause)))
  }

  /** A bound in effect: present and truthy (non-zero). */
  predicate Active(bound: Option<int>) {
    bound.Some? && bound.value != 0
  }

  /** Independent statement of the size rule: within every bound in effect. */
  predicate WithinBounds(size: SizeValidation, n: int) {
    (Active(size.max) ==> n <= size.max.value) && (Active(size.min) ==> n >= size.min.value)
  }

  /**
   * The shared bounds check of `hasLenght` and `isArray`: the maximum is tested
   * before the minimum; `noun` is "length" or "size" and `short` the verb of the
   * minimum's cause.
   */
  function CheckBounds(size: SizeValidation, n: int, key: string, message: Option<string>,
                       noun: string, short: string): (r: Response)
    ensures r.result <==> WithinBounds(size, n)
    ensures r.result ==> r == Success
    ensures Active(size.max) && n > size.max.value ==>
      r == Fail(key, message, "it exceeds the maximum " + noun + " of " + IntToString(size.max.value) + ".")
    ensures !(Active(size.max) && n > size.max.value) && Active(size.min) && n < size.min.value ==>
      r == Fail(key, message, "it is " + short + " for the minimum " + noun + " of " + IntToString(size.min.value) + ".")
  {
    if Active(size.max) && n > size.max.value then
      Fail(key, message, "it exceeds the maximum " + noun + " of " + IntToString(size.max.value) + ".")
    else if Active(size.min) && n < size.min.value then
      Fail(key, message, "it is " + short + " for the minimum " + noun + " of " + IntToString(size.min.value) + ".")
    else Success
  }

  /**
   * `hasLenght(size)`: each bound is tested only when it is truthy, and only
   * then is `value.length` read (a TypeError on `null` or `undefined`); a
   * string's length counts UTF-16 code units. A length that is not a number
   * is converted for the comparison, which throws when its conversion does
   * (`ToStringThrows`); otherwise it is taken to compare false with every
   * bound, so it passes.
   */
  function CheckLength(size: SizeValidation, value: Node, key: string, message: Option<string>): (r: Completion<Response>)
    ensures r.Thrown? <==>
      ((Active(size.max) || Active(size.min)) &&
       (value.Undefined? || value.Null? || ToStringThrows(Lookup(value, "length").value)))
    ensures !Active(size.max) && !Active(size.min) ==> r == Normal(Success)
    ensures value.Str? ==> r == Normal(CheckBounds(size, Utf16Length(value.s), key, message, "length", "too short"))
    ensures value.Arr? ==> r == Normal(CheckBounds(size, |value.items|, key, message, "length", "too short"))
    ensures r.Normal? && Lookup(value, "length").Normal? ==>
      (r.value.result <==> (Lookup(value, "length").value.Num? ==> WithinBounds(size, Lookup(value, "length").value.n)))
  {
    if !Active(size.max) && !Active(size.min) then Normal(Success)
    else match Lookup(value, "length")
      case Thrown => Thrown
      case Normal(len) =>
        if len.Num? then Normal(CheckBounds(size, len.n, key, message, "length", "too short"))
        else if ToStringThrows(len) then Thrown
        else Normal(Success)
  }

  /** `hasLenght({max: 1})` rejects a single emoji: its length is two code units. */
  lemma EmojiExceedsLengthOne(key: string)
    ensures CheckLength(SizeValidation(None, Some(1)), Str("\U{1F600}"), key, None)
         == Normal(Fail(key, None, "it exceeds the maximum length of 1."))
  {
    EmojiLengthIsTwo();
    assert IntToString(1) == "1";
    assert "it exceeds the maximum " + "length" + " of " + IntToString(1) + "." == "it exceeds the maximum length of 1.";
  }

  /** A `length` entry holding an object with its own `toString` makes the comparison throw. */
  lemma ShadowedLengthThrows(inner: map<string, Node>, key: string, message: Option<string>)
    requires "toString" in inner
    ensures CheckLength(SizeValidation(None, Some(5)), Obj(map["length" := Obj(inner)]), key, message).Thrown?
  {
    assert Lookup(Obj(map["length" := Obj(inner)]), "length") == Normal(Obj(inner));
  }

  /** Every element of `items` is one of the allowed strings. */
  function AllAllowed(items: seq<Node>, values: seq<string>): (ok: bool)
    ensures ok <==> forall i :: 0 <= i < |items| ==> items[i].Str? && items[i].s in values
    decreases |items|
  {
    if items == [] then true
    else if !(items[0].Str? && items[0].s in values) then false
    else AllAllowed(items[1..], values)
  }

  /**
   * `isIn(values)`: an array passes when each of its elements is allowed (so
   * the empty array passes), any other value when it is itself allowed.
   */
  function CheckIsIn(values: seq<string>, value: Node, key: string, message: Option<string>): (r: Response)
    ensures r.result <==>
      if value.Arr? then forall i :: 0 <= i < |value.items| ==> value.items[i].Str? && value.items[i].s in values
      else value.Str? && value.s in values
    ensures !r.result ==> r == Fail(key, message, "it is not in the allowed values.")
  {
    if value.Arr? then
      if AllAllowed(value.items, values) then Success else Fail(key, message, "it is not in the allowed values.")
    else if value.Str? && value.s in values then Success
    else Fail(key, message, "it is not in the allowed values.")
  }

  /** `s` starts with `pattern` when ASCII letters are compared without case. */
  predicate StartsWithFolded(s: string, pattern: string)
    decreases |pattern|
  {
    if pattern == [] then true
    else s != [] && LowerChar(s[0]) == LowerChar(pattern[0]) && StartsWithFolded(s[1..], pattern[1..])
  }

  /** The case-insensitive match is a prefix test of the lower-cased text. */
  lemma {:induction false} StartsWithFoldedIsPrefix(s: string, pattern: string)
    requires LowerCase(pattern) == pattern
    ensures StartsWithFolded(s, pattern) <==> IsPrefix(pattern, LowerCase(s))
    decreases |pattern|
  {
    if pattern != [] && s != [] {
      assert LowerCase(pattern[1..]) == pattern[1..] by {
        assert forall i :: 0 <= i < |pattern| - 1 ==> LowerCase(pattern[1..])[i] == LowerCase(pattern)[i + 1];
      }
      assert LowerChar(pattern[0]) == pattern[0] by { assert LowerCase(pattern)[0] == pattern[0]; }
      StartsWithFoldedIsPrefix(s[1..], pattern[1..]);
      var l := LowerCase(s);
      assert l[0] == LowerChar(s[0]);
      assert l[1..] == LowerCase(s[1..]);
      if IsPrefix(pattern, l) {
        assert pattern[1..] == l[1..][..|pattern| - 1];
      }
      if IsPrefix(pattern[1..], l[1..]) && LowerChar(s[0]) == pattern[0] {
        assert pattern == [pattern[0]] + pattern[1..];
        assert l[..|pattern|] == [l[0]] + l[1..][..|pattern| - 1];
      }
    }
  }

  /** The scheme test `/^(http|https|file):/i` on the value's string form. */
  predicate HasUrlScheme(s: string) {
    StartsWithFolded(s, "http:") || StartsWithFolded(s, "https:") || StartsWithFolded(s, "file:")
  }

  /**
   * `isUrl()`: `exec` converts the value to a string, which throws when
   * `String(value)` does; the value passes iff that string begins with
   * `http:`, `https:` or `file:` in any case.
   */
  function CheckUrl(value: Node, key: string, message: Option<string>): (r: Completion<Response>)
    ensures r.Thrown? <==> ToStringThrows(value)
    ensures r.Normal? ==> (r.value.result <==> HasUrlScheme(ToJsString(value).value))
    ensures r.Normal? && !r.value.result ==> r.value == Fail(key, message, "it is not a valid URL.")
  {
    match ToJsString(value)
    case Thrown => Thrown
    case Normal(s) => Normal(if HasUrlScheme(s) then Success else Fail(key, message, "it is not a valid URL."))
  }

  /** The scheme test reads the lower-cased text: `HTTPS://x` and `https://x` both pass. */
  lemma UrlSchemeIsLowerCasePrefix(s: string)
    ensures HasUrlScheme(s) <==>
      IsPrefix("http:", LowerCase(s)) || IsPrefix("https:", LowerCase(s)) || IsPrefix("file:", LowerCase(s))
  {
    LowerCaseWord("http:");
    LowerCaseWord("https:");
    LowerCaseWord("file:");
    StartsWithFoldedIsPrefix(s, "http:");
    StartsWithFoldedIsPrefix(s, "https:");
    StartsWithFoldedIsPrefix(s, "file:");
  }

  lemma LowerCaseWord(w: string)
    requires forall i :: 0 <= i < |w| ==> !('A' <= w[i] <= 'Z')
    ensures LowerCase(w) == w
  {
  }

  /** `contains(search, caseSensitive)`: a substring test, folded to lower case unless case-sensitive. */
  function CheckContains(search: string, caseSensitive: bool, value: Node, key: string, message: Option<string>): (r: Completion<Response>)
    ensures r.Thrown? <==> !value.Str? && (!caseSensitive || !value.Arr?)
    ensures r.Normal? ==> (r.value.result <==>
      if caseSensitive && value.Arr? then Str(search) in value.items
      else if caseSensitive then Includes(value.s, search)
      else Includes(LowerCase(value.s), LowerCase(search)))
    ensures r.Normal? && !r.value.result ==> r.value == Fail(key, message, "it does not contain \"" + search + "\".")
  {
    var failure := Fail(key, message, "it does not contain \"" + search + "\".");
    if caseSensitive then
      match value
      case Str(s) => Normal(if Includes(s, search) then Success else failure)
      case Arr(items) => Normal(if Str(search) in items then Success else failure)
      case _ => Thrown
    else if value.Str? then
      Normal(if Includes(LowerCase(value.s), LowerCase(search)) then Success else failure)
    else Thrown
  }

  /** The response of a predicate whose test came out `ok`. */
  function Verdict(ok: bool, key: string, message: Option<string>, cause: string): (r: Response)
    ensures r.result == ok
  {
    if ok then Success else Fail(key, message, cause)
  }

  /**
   * The predicates that convert the value before testing it: the regular
   * expressions' `test`/`exec` apply `String`, `isNumeric` applies `Number`.
   */
  predicate ConvertsValue(p: Predicate) {
    p.HasAllowedCharacters? || p.IsUrl? || p.IsNumeric? || p.Matches?
  }

  /**
   * When a predicate can raise a TypeError on `value`: `hasLenght` and
   * `contains` on a value of the wrong kind, the converting predicates on a
   * value whose conversion throws.
   */
  predicate MayThrow(p: Predicate, value: Node) {
    p.HasLenght? || p.Contains? || (ConvertsValue(p) && ToStringThrows(value))
  }

  /** Runs one predicate on a value, as the closure it builds would. */
  function Evaluate(p: Predicate, value: Node, key: string, message: Option<string>): (r: Completion<Response>)
    ensures r.Thrown? ==> MayThrow(p, value)
    ensures ConvertsValue(p) ==> (r.Thrown? <==> ToStringThrows(value))
    ensures !p.Custom? && r.Normal? ==> r.value == Success || !r.value.result
  {
    match p
    case HasLenght(size) => CheckLength(size, value, key, message)
    case HasAllowedCharacters(allowed, test) =>
      (match ToJsString(value)
       case Thrown => Thrown
       case Normal(s) => Normal(Verdict(test(s), key, message,
         "it contains invalid characters. Allowed characters: " + allowed + ".")))
    case IsIn(values) => Normal(CheckIsIn(values, value, key, message))
    case IsUrl => CheckUrl(value, key, message)
    case IsNumeric(isNumber) =>
      if ToStringThrows(value) then Thrown
      else Normal(Verdict(isNumber(value), key, message, "it is not a valid number."))
    case IsBoolean => Normal(Verdict(value == Str("true") || value == Str("false"), key, message, "it is not a valid boolean."))
    case IsArray(bounds) =>
      Normal(if !value.Arr? then Fail(key, message, "it is not a valid array.")
             else if bounds.None? then Success
             else CheckBounds(bounds.value, |value.items|, key, message, "size", "too small"))
    case IsObject => Normal(Verdict(value.Obj?, key, message, "it is not a valid object."))
    case IsString => Normal(Verdict(value.Str?, key, message, "it is not a valid string."))
    case Contains(search, caseSensitive) => CheckContains(search, caseSensitive, value, key, message)
    case Matches(test) =>
      (match ToJsString(value)
       case Thrown => Thrown
       case Normal(s) => Normal(Verdict(test(s), key, message, "it does not match the pattern.")))
    case Custom(validate) => Normal(validate(value, key, message))
  }

  /** `isUrl()` on a body object with its own `toString` key throws instead of failing. */
  lemma UrlOfShadowedToStringThrows(m: map<string, Node>, key: string, message: Option<string>)
    requires "toString" in m
    ensures Evaluate(IsUrl, Obj(m), key, message).Thrown?
    ensures Evaluate(IsUrl, Obj(map[]), key, message) == Normal(Fail(key, message, "it is not a valid URL."))
  {
    assert ToJsString(Obj(map[])) == Normal("[object Object]");
    assert !StartsWithFolded("[object Object]", "http:");
    assert !StartsWithFolded("[object Object]", "https:");
    assert !StartsWithFolded("[object Object]", "file:");
  }

  /** `isString()` accepts exactly the strings, and never throws. */
  lemma IsStringAccepts(value: Node, key: string, message: Option<string>)
    ensures Evaluate(IsString, value, key, message).Normal?
    ensures Evaluate(IsString, value, key, message).value.result <==> value.Str?
    ensures !value.Str? ==> Evaluate(IsString, value, key, message).value == Fail(key, message, "it is not a valid string.")
  {
  }

  /** The cause a built-in predicate gives when it rejects `value`. */
  function Cause(p: Predicate, value: Node): string
    requires !p.Custom?
  {
    match p
    case HasLenght(size) =>
      var len := Lookup(value, "length");
      if len.Normal? && len.value.Num? then BoundsCause(size, len.value.n, "length", "too short") else ""
    case HasAllowedCharacters(allowed, _) => "it contains invalid characters. Allowed characters: " + allowed + "."
    case IsIn(_) => "it is not in the allowed values."
    case IsUrl => "it is not a valid URL."
    case IsNumeric(_) => "it is not a valid number."
    case IsBoolean => "it is not a valid boolean."
    case IsArray(bounds) =>
      if value.Arr? && bounds.Some? then BoundsCause(bounds.value, |value.items|, "size", "too small")
      else "it is not a valid array."
    case IsObject => "it is not a valid object."
    case IsString => "it is not a valid string."
    case Contains(search, _) => "it does not contain \"" + search + "\"."
    case Matches(_) => "it does not match the pattern."
  }

  /** Which bound a count violates, the maximum being looked at first. */
  function BoundsCause(size: SizeValidation, n: int, noun: string, short: string): string {
    if Active(size.max) && n > size.max.value then
      "it exceeds the maximum " + noun + " of " + IntToString(size.max.value) + "."
    else if Active(size.min) then
      "it is " + short + " for the minimum " + noun + " of " + IntToString(size.min.value) + "."
    else ""
  }

  /**
   * The message convention of every built-in predicate: success is
   * `{result: true, message: 'valid'}`; a failure carries the rule's message
   * when it is non-empty, and otherwise `Invalid <key> input. Cause: <cause>`.
   */
  lemma FailureMessage(p: Predicate, value: Node, key: string, message: Option<string>)
    requires !p.Custom?
    requires Evaluate(p, value, key, message).Normal?
    ensures var r := Evaluate(p, value, key, message).value;
      r == Success || r == Response(false, MessageOr(message, DefaultMessage(key, Cause(p, value))))
  {
    match p
    case HasLenght(size) =>
    case IsArray(bounds) =>
    case _ =>
  }

  /** `isBoolean()` accepts exactly the two strings "true" and "false". */
  lemma IsBooleanAccepts(value: Node, key: string, message: Option<string>)
    ensures Evaluate(IsBoolean, value, key, message).Normal?
    ensures Evaluate(IsBoolean, value, key, message).value.result <==> value == Str("true") || value == Str("false")
  {
  }

  /** `isObject()` accepts objects only: not `null`, not arrays, not primitives. */
  lemma IsObjectAccepts(value: Node, key: string, message: Option<string>)
    ensures Evaluate(IsObject, value, key, message).value.result <==> value.Obj?
  {
  }

  /**
   * `isArray(bounds)`: a non-array fails with "not a valid array" before any
   * bound is looked at; an array passes iff its element count is within the
   * bounds in effect.
   */
  lemma IsArrayAccepts(bounds: Option<SizeValidation>, value: Node, key: string, message: Option<string>)
    ensures var r := Evaluate(IsArray(bounds), value, key, message);
      r.Normal? && (r.value.result <==> value.Arr? && (bounds.Some? ==> WithinBounds(bounds.value, |value.items|)))
    ensures !value.Arr? ==> Evaluate(IsArray(bounds), value, key, message).value == Fail(key, message, "it is not a valid array.")
  {
  }

  /** A bound of 0, like an absent one, never makes a value fail. */
  lemma ZeroBoundImposesNothing(n: int, key: string, message: Option<string>)
    ensures CheckBounds(SizeValidation(Some(0), Some(0)), n, key, message, "length", "too short") == Success
    ensures CheckBounds(SizeValidation(None, None), n, key, message, "length", "too short") == Success
  {
  }

  /** `contains` without `caseSensitive` ignores case: "HELLO world" contains "hello". */
  lemma ContainsIgnoresCase(search: string, s: string, key: string, message: Option<string>)
    ensures Evaluate(Contains(search, false), Str(s), key, message).value.result
        <==> Evaluate(Contains(search, false), Str(LowerCase(s)), key, message).value.result
  {
    LowerCaseIdempotent(s);
  }

  lemma LowerCaseIdempotent(s: string)
    ensures LowerCase(LowerCase(s)) == LowerCase(s)
  {
  }
}
