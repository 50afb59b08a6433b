/**
 * Locating the values a body rule checks (`getValues`, `getBodyValues` of the
 * middleware) and writing a sanitized value back into the body.
 *
 * A rule key is a dotted path. A key that contains `*` is resolved by
 * `GetValues`, which fans out over every array it meets, depth first and left
 * to right; any other key is resolved by a left fold over its segments to
 * exactly one value.
 */
module PathResolver {
  import opened JsStrings
  import opened JsValue

  /**
   * `getValues(obj, keys)`: no segment left yields the node itself; a `*`
   * segment is consumed without descending; a falsy property yields `""` and
   * ends the branch; an array property fans out over its elements with the
   * remaining segments; any other property is descended into. Reading a
   * property of `null` or `undefined` throws.
   */
  function GetValues(obj: Node, keys: seq<string>): (r: Completion<seq<Node>>)
    ensures AllStars(keys) ==> r == Normal([obj])
    decreases |keys|, 0
  {
    if keys == [] then Normal([obj])
    else if keys[0] == "*" then GetValues(obj, keys[1..])
    else match Lookup(obj, keys[0])
      case Thrown => Thrown
      case Normal(v) =>
        if !Truthy(v) then Normal([Str("")])
        else if v.Arr? then FanOut(v.items, keys[1..])
        else GetValues(v, keys[1..])
  }

  /**
   * `items.flatMap((v) => getValues(v, keys))`, the first throwing element
   * ending it; with only `*` segments left it lists the elements themselves.
   */
  function FanOut(items: seq<Node>, keys: seq<string>): (r: Completion<seq<Node>>)
    ensures AllStars(keys) ==> r == Normal(items)
    decreases |keys|, 1, |items|
  {
    if items == [] then Normal([])
    else
      assert items == [items[0]] + items[1..];
      match GetValues(items[0], keys)
      case Thrown => Thrown
      case Normal(head) =>
        match FanOut(items[1..], keys)
        case Thrown => Thrown
        case Normal(tail) => Normal(head + tail)
  }

  /** Every segment left is `*`. */
  predicate AllStars(keys: seq<string>) {
    forall i :: 0 <= i < |keys| ==> keys[i] == "*"
  }

  /** Concatenation of two completed lists; a throw in either throws. */
  function Concat(a: Completion<seq<Node>>, b: Completion<seq<Node>>): Completion<seq<Node>> {
    match a
    case Thrown => Thrown
    case Normal(x) =>
      match b
      case Thrown => Thrown
      case Normal(y) => Normal(x + y)
  }

  /**
   * `keys.reduce((o, i) => { if (o) return o[i]; }, root)`: once a level is
   * falsy, the fold yields `undefined` whatever the remaining segments.
   */
  function FoldPath(o: Node, keys: seq<string>): (r: Node)
    ensures keys != [] && !Truthy(o) ==> r == Undefined
    decreases |keys|
  {
    if keys == [] then o
    else FoldPath(if Truthy(o) then Lookup(o, keys[0]).value else Undefined, keys[1..])
  }

  /**
   * `getBodyValues(arg, icontext)`: the key is split at dots; a key containing
   * `*` anywhere goes through `GetValues`, any other resolves to the single
   * value of the fold.
   */
  function GetBodyValues(key: string, body: Node): (r: Completion<seq<Node>>)
    ensures !Includes(key, "*") ==> r == Normal([FoldPath(body, SplitOn(key, "."))])
  {
    var keys := SplitOn(key, ".");
    if Includes(key, "*") then GetValues(body, keys)
    else Normal([FoldPath(body, keys)])
  }

  /**
   * `request_body[key] = v`: an object gets the entry, an array the element at
   * a canonical index inside it or just past its end; writing a property of a
   * primitive, `null` or `undefined` throws (the code runs in strict mode).
   */
  function WriteBack(root: Node, key: string, v: Node): (r: Completion<Node>)
    ensures r.Thrown? <==> !(root.Obj? || root.Arr?)
    ensures root.Obj? ==> r == Normal(Obj(root.fields[key := v]))
  {
    match root
    case Obj(m) => Normal(Obj(m[key := v]))
    case Arr(xs) =>
      (match CanonicalIndex(key)
       case Some(i) =>
         if i < |xs| then Normal(Arr(xs[i := v]))
         else if i == |xs| then Normal(Arr(xs + [v]))
         else Normal(root)
       case None => Normal(root))
    case _ => Thrown
  }

  /** Reading back what was written gives the written value; other entries keep theirs. */
  lemma WriteBackThenLookup(root: Node, key: string, v: Node, other: string)
    requires root.Obj? || (root.Arr? && CanonicalIndex(key).Some? && CanonicalIndex(key).value <= |root.items|)
    ensures WriteBack(root, key, v).Normal?
    ensures Lookup(WriteBack(root, key, v).value, key) == Normal(v)
    ensures root.Obj? && other != key ==> Lookup(WriteBack(root, key, v).value, other) == Lookup(root, other)
  {
    if root.Arr? {
      assert key != "length" by {
        var i := CanonicalIndex(key).value;
        CanonicalIndexRoundTrip(i, key);
        assert key[0] != 'l';
      }
    }
  }

  // ---------------------------------------------------------------------------
  // Properties of the resolver

  /** A `*` segment anywhere in the path is skipped: it never descends on its own. */
  lemma {:induction false} StarSegmentIsSkipped(obj: Node, p: seq<string>, q: seq<string>)
    ensures GetValues(obj, p + ["*"] + q) == GetValues(obj, p + q)
    decreases |p|, 0
  {
    var keys := p + ["*"] + q;
    if p == [] {
      assert keys[1..] == q && keys[0] == "*";
      assert p + q == q;
    } else {
      assert keys[0] == p[0] && keys[1..] == p[1..] + ["*"] + q;
      assert (p + q)[0] == p[0] && (p + q)[1..] == p[1..] + q;
      if p[0] == "*" {
        StarSegmentIsSkipped(obj, p[1..], q);
      } else {
        match Lookup(obj, p[0])
        case Thrown =>
        case Normal(v) =>
          if Truthy(v) {
            if v.Arr? {
              StarSegmentIsSkippedInFanOut(v.items, p[1..], q);
            } else {
              StarSegmentIsSkipped(v, p[1..], q);
            }
          }
      }
    }
  }

  lemma {:induction false} StarSegmentIsSkippedInFanOut(items: seq<Node>, p: seq<string>, q: seq<string>)
    ensures FanOut(items, p + ["*"] + q) == FanOut(items, p + q)
    decreases |p|, 1, |items|
  {
    if items != [] {
      StarSegmentIsSkipped(items[0], p, q);
      StarSegmentIsSkippedInFanOut(items[1..], p, q);
    }
  }

  /** Fanning out over `a + b` lists the values of `a`'s elements, then those of `b`'s, in order. */
  lemma {:induction false} FanOutAppend(a: seq<Node>, b: seq<Node>, keys: seq<string>)
    ensures FanOut(a + b, keys) == Concat(FanOut(a, keys), FanOut(b, keys))
    decreases |a|
  {
    if a == [] {
      assert a + b == b;
      match FanOut(b, keys)
      case Thrown =>
      case Normal(y) => assert [] + y == y;
    } else {
      assert (a + b)[0] == a[0] && (a + b)[1..] == a[1..] + b;
      FanOutAppend(a[1..], b, keys);
      match GetValues(a[0], keys)
      case Thrown =>
      case Normal(x) =>
        match FanOut(a[1..], keys)
        case Thrown =>
        case Normal(y) =>
          match FanOut(b, keys)
          case Thrown =>
          case Normal(z) => assert x + (y + z) == (x + y) + z;
    }
  }

  /**
   * A wildcard after an array property lists its elements in order; an empty
   * array lists nothing, so a rule on it checks nothing.
   */
  lemma WildcardListsElements(m: map<string, Node>, k: string, items: seq<Node>)
    requires k != "*" && k in m && m[k] == Arr(items)
    ensures GetValues(Obj(m), [k, "*"]) == Normal(items)
    ensures items == [] ==> GetValues(Obj(m), [k, "*"]) == Normal([])
  {
    assert [k, "*"][1..] == ["*"];
    assert AllStars(["*"]);
  }

  /** Every element is an object holding a truthy, non-array `field`. */
  predicate HasPlainField(items: seq<Node>, field: string) {
    forall i :: 0 <= i < |items| ==>
      items[i].Obj? && field in items[i].fields
      && Truthy(items[i].fields[field]) && !items[i].fields[field].Arr?
  }

  /** `k.*.field` over an array of objects lists each element's `field`, in element order. */
  lemma {:induction false} WildcardProjectsField(items: seq<Node>, field: string)
    requires field != "*" && HasPlainField(items, field)
    ensures FanOut(items, ["*", field]).Normal?
    ensures var vs := FanOut(items, ["*", field]).value;
      |vs| == |items| && forall i :: 0 <= i < |items| ==> vs[i] == items[i].fields[field]
    decreases |items|
  {
    if items != [] {
      var x := items[0];
      assert ["*", field][1..] == [field] && [field][1..] == [];
      assert 0 <= 0 < |items|;
      var fv := x.fields[field];
      assert Lookup(x, field) == Normal(fv) && Truthy(fv) && !fv.Arr?;
      assert GetValues(x, [field]) == GetValues(fv, []);
      assert GetValues(x, ["*", field]) == Normal([fv]);
      WildcardProjectsField(items[1..], field);
      var rest := FanOut(items[1..], ["*", field]).value;
      assert FanOut(items, ["*", field]) == Normal([fv] + rest);
      forall i | 1 <= i < |items| ensures ([fv] + rest)[i] == items[i].fields[field] {
        assert items[1..][i - 1] == items[i];
      }
    }
  }

  /** The fold over `a + b` is the fold over `b` from where the fold over `a` ends. */
  lemma {:induction false} FoldPathAppend(o: Node, a: seq<string>, b: seq<string>)
    ensures FoldPath(o, a + b) == FoldPath(FoldPath(o, a), b)
    decreases |a|
  {
    if a == [] {
      assert a + b == b;
    } else {
      assert (a + b)[0] == a[0] && (a + b)[1..] == a[1..] + b;
      FoldPathAppend(if Truthy(o) then Lookup(o, a[0]).value else Undefined, a[1..], b);
    }
  }

  /**
   * Along `keys`, no property read throws and no truthy property read is an
   * array: the path never fans out.
   */
  predicate PlainPath(o: Node, keys: seq<string>)
    decreases |keys|
  {
    keys == [] ||
    (Lookup(o, keys[0]).Normal? &&
     (!Truthy(Lookup(o, keys[0]).value) ||
      (!Lookup(o, keys[0]).value.Arr? && PlainPath(Lookup(o, keys[0]).value, keys[1..]))))
  }

  /**
   * On a path without `*` that never fans out, `getValues` finds the single
   * value the fold finds, except that an absent (falsy) value comes back as `""`
   * rather than as the fold's falsy value.
   */
  lemma {:induction false} GetValuesAgreesWithFold(o: Node, keys: seq<string>)
    requires forall i :: 0 <= i < |keys| ==> keys[i] != "*"
    requires PlainPath(o, keys)
    ensures GetValues(o, keys) ==
      Normal([if keys == [] || Truthy(FoldPath(o, keys)) then FoldPath(o, keys) else Str("")])
    decreases |keys|
  {
    if keys != [] {
      var v := Lookup(o, keys[0]).value;
      if !Truthy(o) {
        assert !Truthy(v);
      } else if Truthy(v) {
        GetValuesAgreesWithFold(v, keys[1..]);
      }
    }
  }

  /**
   * A plain segment whose property is falsy (missing, `null`, `0`, `""`,
   * `false`) ends its branch with the single fallback value `""`, whatever
   * segments follow.
   */
  lemma FalsyPropertyYieldsEmptyString(obj: Node, keys: seq<string>)
    requires keys != [] && keys[0] != "*"
    requires Lookup(obj, keys[0]).Normal? && !Truthy(Lookup(obj, keys[0]).value)
    ensures GetValues(obj, keys) == Normal([Str("")])
  {
  }
}
