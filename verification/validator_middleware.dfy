/**
 * The enforcement pipeline of `ValidatorMiddleware`: for each rule, locate the
 * value(s), decide optional/required, run the predicates in order until the
 * first failure, report a failure through the error handler and stop, or fold
 * the sanitizers and write the result back; `next` is called only when every
 * rule passes.
 *
 * The pure functions below state what one request does to the request state
 * (query parameters, headers, parsed body, response); the class
 * `ValidatorMiddleware` performs the same steps on a mutable `Context` and is
 * proved to end in exactly the state and outcome the functions give.
 */
module Middleware {
  import opened JsStrings
  import opened JsValue
  import opened ValidatorFn
  import opened ValidatorSanitizer
  import opened RuleBuilder
  import opened PathResolver

  /** The response fields an error handler writes. */
  datatype Reply = Reply(status: int, body: Node)

  /** The default handler, or one installed with `useErrorHandler`. */
  datatype ErrorHandler =
    | DefaultHandler
    | CustomHandler(handle: (Reply, string) -> Reply)

  /** What the handler leaves in the response: by default status 422 and body `{ error }`. */
  function Report(h: ErrorHandler, reply: Reply, error: string): (r: Reply)
    ensures h.DefaultHandler? ==> r.status == 422 && r.body == Obj(map["error" := Str(error)])
  {
    match h
    case DefaultHandler => Reply(422, Obj(map["error" := Str(error)]))
    case CustomHandler(handle) => handle(reply, error)
  }

  /** The parts of the request context the pipeline reads and writes. */
  datatype State = State(query: map<string, string>, headers: map<string, string>, body: Node, reply: Reply)

  /** How a middleware run ends: `next()` called, stopped after reporting, or a thrown TypeError. */
  datatype Outcome = Next | Halted | Threw

  datatype Run = Run(outcome: Outcome, state: State)

  // ---------------------------------------------------------------------------
  // runValidators

  /** `arg.validators ?? []` */
  function Predicates(rule: Params): seq<Predicate> {
    if rule.validators.Some? then rule.validators.value else []
  }

  /** The message of a required rule whose value is missing. */
  function RequiredMessage(rule: Params): string {
    MessageOr(rule.message, DefaultMessage(rule.key, "it is required."))
  }

  /**
   * The predicates in order: the first negative response's message, `None` if
   * all pass; only a predicate that may throw on the value can make the scan throw.
   */
  function FirstFailure(ps: seq<Predicate>, value: Node, key: string, message: Option<string>): (r: Completion<Option<string>>)
    ensures (forall i :: 0 <= i < |ps| ==> !MayThrow(ps[i], value)) ==> r.Normal?
    decreases |ps|
  {
    if ps == [] then Normal(None)
    else match Evaluate(ps[0], value, key, message)
      case Thrown => Thrown
      case Normal(r) => if !r.result then Normal(Some(r.message)) else FirstFailure(ps[1..], value, key, message)
  }

  /** The scan from position `i` looks at `ps[i]` first. */
  lemma FirstFailureAt(ps: seq<Predicate>, value: Node, key: string, message: Option<string>, i: nat)
    requires i < |ps|
    ensures FirstFailure(ps[i..], value, key, message) ==
      match Evaluate(ps[i], value, key, message)
      case Thrown => Thrown
      case Normal(r) => if !r.result then Normal(Some(r.message)) else FirstFailure(ps[i + 1..], value, key, message)
  {
    assert ps[i..][0] == ps[i] && ps[i..][1..] == ps[i + 1..];
  }

  /** The first `n` predicates complete and accept the value. */
  predicate PassesFirst(ps: seq<Predicate>, value: Node, key: string, message: Option<string>, n: int)
    requires 0 <= n <= |ps|
  {
    forall j :: 0 <= j < n ==> Evaluate(ps[j], value, key, message).Normal? && Evaluate(ps[j], value, key, message).value.result
  }

  /** No failure is reported exactly when every predicate completes and accepts the value. */
  lemma {:induction false} FirstFailureNoneIff(ps: seq<Predicate>, value: Node, key: string, message: Option<string>)
    ensures FirstFailure(ps, value, key, message) == Normal(None) <==> PassesFirst(ps, value, key, message, |ps|)
    decreases |ps|
  {
    if ps != [] {
      var tail := ps[1..];
      FirstFailureNoneIff(tail, value, key, message);
      var e := Evaluate(ps[0], value, key, message);
      if e.Normal? && e.value.result {
        assert PassesFirst(ps, value, key, message, |ps|) <==> PassesFirst(tail, value, key, message, |tail|) by {
          assert forall j :: 0 <= j < |tail| ==> tail[j] == ps[j + 1];
          if PassesFirst(tail, value, key, message, |tail|) {
            forall j | 0 <= j < |ps|
              ensures Evaluate(ps[j], value, key, message).Normal? && Evaluate(ps[j], value, key, message).value.result
            {
              if j > 0 { assert ps[j] == tail[j - 1]; }
            }
          }
        }
      } else {
        assert !PassesFirst(ps, value, key, message, |ps|) by { assert 0 < |ps|; }
      }
    }
  }

  /**
   * The first failure wins: the reported message is that of a predicate all of
   * whose predecessors accepted the value.
   */
  lemma {:induction false} FirstFailureWins(ps: seq<Predicate>, value: Node, key: string, message: Option<string>, m: string)
    ensures FirstFailure(ps, value, key, message) == Normal(Some(m)) <==>
      exists i :: 0 <= i < |ps| && PassesFirst(ps, value, key, message, i)
                  && Evaluate(ps[i], value, key, message) == Normal(Response(false, m))
    decreases |ps|
  {
    if ps != [] {
      var tail := ps[1..];
      var e := Evaluate(ps[0], value, key, message);
      if e.Normal? && e.value.result {
        FirstFailureWins(tail, value, key, message, m);
        if FirstFailure(tail, value, key, message) == Normal(Some(m)) {
          var i :| 0 <= i < |tail| && PassesFirst(tail, value, key, message, i)
                   && Evaluate(tail[i], value, key, message) == Normal(Response(false, m));
          PassesFirstCons(ps, value, key, message, i);
        }
        if exists i :: 0 <= i < |ps| && PassesFirst(ps, value, key, message, i)
                       && Evaluate(ps[i], value, key, message) == Normal(Response(false, m)) {
          var i :| 0 <= i < |ps| && PassesFirst(ps, value, key, message, i)
                   && Evaluate(ps[i], value, key, message) == Normal(Response(false, m));
          assert i != 0;
          PassesFirstCons(ps, value, key, message, i - 1);
          assert tail[i - 1] == ps[i];
        }
      } else {
        if FirstFailure(ps, value, key, message) == Normal(Some(m)) {
          assert PassesFirst(ps, value, key, message, 0);
        }
      }
    }
  }

  /** Passing the first `i + 1` predicates is passing the first one and then `i` of the rest. */
  lemma PassesFirstCons(ps: seq<Predicate>, value: Node, key: string, message: Option<string>, i: nat)
    requires i < |ps|
    requires Evaluate(ps[0], value, key, message).Normal? && Evaluate(ps[0], value, key, message).value.result
    ensures PassesFirst(ps, value, key, message, i + 1) <==> PassesFirst(ps[1..], value, key, message, i)
  {
    var tail := ps[1..];
    if PassesFirst(tail, value, key, message, i) {
      forall j | 0 <= j < i + 1
        ensures Evaluate(ps[j], value, key, message).Normal? && Evaluate(ps[j], value, key, message).value.result
      {
        if j > 0 { assert ps[j] == tail[j - 1]; }
      }
    }
    if PassesFirst(ps, value, key, message, i + 1) {
      forall j | 0 <= j < i
        ensures Evaluate(tail[j], value, key, message).Normal? && Evaluate(tail[j], value, key, message).value.result
      {
        assert tail[j] == ps[j + 1];
      }
    }
  }

  /**
   * `runValidators(arg, value)`: a falsy value passes an optional rule and fails
   * a required one with its required message, without any predicate being
   * called; otherwise the predicates run in order with `(value, key, message)`.
   */
  function Judge(rule: Params, value: Node): (r: Completion<Option<string>>)
    ensures r.Thrown? ==> Truthy(value)
    ensures !rule.optional && r == Normal(None) ==> Truthy(value)
  {
    if !Truthy(value) then Normal(if rule.optional then None else Some(RequiredMessage(rule)))
    else FirstFailure(Predicates(rule), value, rule.key, rule.message)
  }

  /** A missing value never reaches the predicates: the verdict is the same whatever they are. */
  lemma MissingValueSkipsPredicates(rule: Params, value: Node, ps: Option<seq<Predicate>>)
    requires !Truthy(value)
    ensures Judge(rule, value) == Judge(rule.(validators := ps), value)
    ensures rule.optional ==> Judge(rule, value) == Normal(None)
    ensures !rule.optional ==>
      Judge(rule, value) == Normal(Some(if rule.message.Some? && rule.message.value != "" then rule.message.value
                                        else "Invalid " + rule.key + " input. Cause: it is required."))
  {
    assert DefaultMessage(rule.key, "it is required.") == "Invalid " + rule.key + " input. Cause: it is required.";
  }

  /** A verdict acted on: a failure is reported through the handler. */
  function Judged(h: ErrorHandler, verdict: Completion<Option<string>>, st: State): (r: Run)
    ensures r.outcome.Next? <==> verdict == Normal(None)
  {
    match verdict
    case Thrown => Run(Threw, st)
    case Normal(None) => Run(Next, st)
    case Normal(Some(m)) => Run(Halted, st.(reply := Report(h, st.reply, m)))
  }

  // ---------------------------------------------------------------------------
  // queryHandler, bodyHandler and the adapters

  /** `searchParams.get(key) || ''` and `headers.get(key) || ''`: an absent entry reads as "". */
  function ValueOrEmpty(entries: map<string, string>, key: string): (v: string)
    ensures key in entries ==> v == entries[key]
    ensures key !in entries ==> v == ""
  {
    if key in entries then entries[key] else ""
  }

  /**
   * `queryHandler(arg, value)`: after the rule passes, a rule with sanitizers
   * sets the query parameter `key` to the folded value, which `set` converts
   * to a string (a conversion that can throw for a custom sanitizer's result).
   */
  function HandleQuery(h: ErrorHandler, rule: Params, value: string, st: State): (r: Run)
    ensures r.state.headers == st.headers && r.state.body == st.body
    ensures r.outcome.Next? ==> r.state.reply == st.reply
    ensures !r.outcome.Next? ==> r.state.query == st.query
    ensures r.outcome.Next? ==> Judge(rule, Str(value)) == Normal(None)
    ensures rule.sanitizer.None? ==> r.state.query == st.query
    ensures r.outcome.Next? && rule.sanitizer.Some? ==>
      var folded := Sanitize(rule.sanitizer.value, Str(value));
      folded.Normal? && ToJsString(folded.value).Normal? &&
      r.state.query == st.query[rule.key := ToJsString(folded.value).value]
    ensures (Judge(rule, Str(value)) == Normal(None) &&
             (rule.sanitizer.Some? ==> (var folded := Sanitize(rule.sanitizer.value, Str(value));
                                        folded.Normal? && ToJsString(folded.value).Normal?))) ==> r.outcome.Next?
  {
    var r := Judged(h, Judge(rule, Str(value)), st);
    if !r.outcome.Next? || rule.sanitizer.None? then r
    else match Sanitize(rule.sanitizer.value, Str(value))
      case Thrown => Run(Threw, st)
      case Normal(v) =>
        match ToJsString(v)
        case Thrown => Run(Threw, st)
        case Normal(s) => Run(Next, st.(query := st.query[rule.key := s]))
  }

  /**
   * `bodyHandler(arg, value)`: after the rule passes, a rule with sanitizers
   * stores the folded value in the body under the whole key, dots included.
   */
  function HandleBody(h: ErrorHandler, rule: Params, value: Node, st: State): (r: Run)
    ensures r.state.query == st.query && r.state.headers == st.headers
    ensures r.outcome.Next? ==> r.state.reply == st.reply
    ensures !r.outcome.Next? ==> r.state.body == st.body
    ensures r.outcome.Next? ==> Judge(rule, value) == Normal(None)
    ensures rule.sanitizer.None? ==> r.state.body == st.body
    ensures r.outcome.Next? && rule.sanitizer.Some? ==>
      var folded := Sanitize(rule.sanitizer.value, value);
      folded.Normal? && WriteBack(st.body, rule.key, folded.value) == Normal(r.state.body)
    ensures r.outcome.Next? && rule.sanitizer.Some? && st.body.Obj? ==>
      r.state.body == Obj(st.body.fields[rule.key := Sanitize(rule.sanitizer.value, value).value])
    ensures (Judge(rule, value) == Normal(None) &&
             (rule.sanitizer.Some? ==> (var folded := Sanitize(rule.sanitizer.value, value);
                                        folded.Normal? && WriteBack(st.body, rule.key, folded.value).Normal?))) ==> r.outcome.Next?
  {
    var r := Judged(h, Judge(rule, value), st);
    if !r.outcome.Next? || rule.sanitizer.None? then r
    else match Sanitize(rule.sanitizer.value, value)
      case Thrown => Run(Threw, st)
      case Normal(v) =>
        match WriteBack(st.body, rule.key, v)
        case Thrown => Run(Threw, st)
        case Normal(b) => Run(Next, st.(body := b))
  }

  /** The `query` middleware: each rule against `get(key) || ''`, stopping at the first that does not pass. */
  function QueryRules(h: ErrorHandler, rules: seq<Params>, st: State): (r: Run)
    ensures r.outcome.Next? ==> r.state.reply == st.reply
    decreases |rules|
  {
    if rules == [] then Run(Next, st)
    else
      var r := HandleQuery(h, rules[0], ValueOrEmpty(st.query, rules[0].key), st);
      if r.outcome.Next? then QueryRules(h, rules[1..], r.state) else r
  }

  /** The `header` middleware: like `query`, but nothing is ever written. */
  function HeaderRules(h: ErrorHandler, rules: seq<Params>, st: State): (r: Run)
    ensures r.outcome.Next? ==> r.state.reply == st.reply
    decreases |rules|
  {
    if rules == [] then Run(Next, st)
    else
      var r := Judged(h, Judge(rules[0], Str(ValueOrEmpty(st.headers, rules[0].key))), st);
      if r.outcome.Next? then HeaderRules(h, rules[1..], r.state) else r
  }

  /** One rule over the values it resolved to, stopping at the first that does not pass. */
  function BodyValues(h: ErrorHandler, rule: Params, values: seq<Node>, st: State): (r: Run)
    ensures r.outcome.Next? ==> r.state.reply == st.reply
    decreases |values|
  {
    if values == [] then Run(Next, st)
    else
      var r := HandleBody(h, rule, values[0], st);
      if r.outcome.Next? then BodyValues(h, rule, values[1..], r.state) else r
  }

  /**
   * `iterateValidators`: each rule's values are resolved against the body as
   * it stands when the rule's turn comes, then checked one by one.
   */
  function BodyRules(h: ErrorHandler, rules: seq<Params>, st: State): (r: Run)
    ensures r.outcome.Next? ==> r.state.reply == st.reply
    decreases |rules|
  {
    if rules == [] then Run(Next, st)
    else
      var r := BodyRule(h, rules[0], st);
      if r.outcome.Next? then BodyRules(h, rules[1..], r.state) else r
  }

  /** One body rule: its values are resolved against the body as it stands, then checked. */
  function BodyRule(h: ErrorHandler, rule: Params, st: State): (r: Run)
    ensures r.outcome.Next? ==> r.state.reply == st.reply
  {
    match GetBodyValues(rule.key, st.body)
    case Thrown => Run(Threw, st)
    case Normal(values) => BodyValues(h, rule, values, st)
  }

  /** The `body` middleware: an empty body text is reported before any rule runs. */
  function BodyMiddleware(h: ErrorHandler, rules: seq<Params>, text: string, parsed: Node, st: State): (r: Run)
    ensures r.outcome.Next? ==> text != "" && r.state.reply == st.reply
    ensures text == "" ==> r.outcome.Halted? && r.state.body == st.body
  {
    if text == "" then Run(Halted, st.(reply := Report(h, st.reply, "Invalid request body")))
    else BodyRules(h, rules, st.(body := parsed))
  }

  /** `Object.fromEntries(formData)` over text fields. */
  function FormBody(entries: map<string, string>): Node {
    Obj(map k | k in entries :: Str(entries[k]))
  }

  /** The `form` middleware: a form without entries is reported before any rule runs. */
  function FormMiddleware(h: ErrorHandler, rules: seq<Params>, entries: map<string, string>, st: State): (r: Run)
    ensures r.outcome.Next? ==> |entries| > 0 && r.state.reply == st.reply
    ensures |entries| == 0 ==> r.outcome.Halted? && r.state.body == st.body
  {
    if |entries| == 0 then Run(Halted, st.(reply := Report(h, st.reply, "Invalid form data")))
    else BodyRules(h, rules, st.(body := FormBody(entries)))
  }

  // ---------------------------------------------------------------------------
  // Properties of the pipeline

  /** Running `a + b` is running `a`, then `b` only if every rule of `a` passed. */
  lemma {:induction false} QueryRulesAppend(h: ErrorHandler, a: seq<Params>, b: seq<Params>, st: State)
    ensures QueryRules(h, a + b, st) ==
      (var r := QueryRules(h, a, st); if r.outcome.Next? then QueryRules(h, b, r.state) else r)
    decreases |a|
  {
    if a == [] {
      assert a + b == b;
    } else {
      assert (a + b)[0] == a[0] && (a + b)[1..] == a[1..] + b;
      var r := HandleQuery(h, a[0], ValueOrEmpty(st.query, a[0].key), st);
      if r.outcome.Next? {
        QueryRulesAppend(h, a[1..], b, r.state);
      }
    }
  }

  /** The same fail-fast composition for body rules. */
  lemma {:induction false} BodyRulesAppend(h: ErrorHandler, a: seq<Params>, b: seq<Params>, st: State)
    ensures BodyRules(h, a + b, st) ==
      (var r := BodyRules(h, a, st); if r.outcome.Next? then BodyRules(h, b, r.state) else r)
    decreases |a|
  {
    if a == [] {
      assert a + b == b;
    } else {
      assert (a + b)[0] == a[0] && (a + b)[1..] == a[1..] + b;
      match GetBodyValues(a[0].key, st.body)
      case Thrown =>
      case Normal(values) =>
        var r := BodyValues(h, a[0], values, st);
        if r.outcome.Next? {
          BodyRulesAppend(h, a[1..], b, r.state);
        }
    }
  }

  /** The error handler is called at most once, and exactly when the run halts. */
  ghost predicate ReportsOnlyOnHalt(h: ErrorHandler, st: State, r: Run) {
    (r.outcome.Halted? ==> exists m :: r.state.reply == Report(h, st.reply, m))
    && (!r.outcome.Halted? ==> r.state.reply == st.reply)
  }

  lemma {:induction false} QueryReportsOnlyOnHalt(h: ErrorHandler, rules: seq<Params>, st: State)
    ensures ReportsOnlyOnHalt(h, st, QueryRules(h, rules, st))
    decreases |rules|
  {
    if rules != [] {
      var r := HandleQuery(h, rules[0], ValueOrEmpty(st.query, rules[0].key), st);
      if r.outcome.Next? {
        QueryReportsOnlyOnHalt(h, rules[1..], r.state);
      } else if r.outcome.Halted? {
        var m := Judge(rules[0], Str(ValueOrEmpty(st.query, rules[0].key))).value.value;
        assert r.state.reply == Report(h, st.reply, m);
      }
    }
  }

  lemma {:induction false} HeaderReportsOnlyOnHalt(h: ErrorHandler, rules: seq<Params>, st: State)
    ensures ReportsOnlyOnHalt(h, st, HeaderRules(h, rules, st))
    decreases |rules|
  {
    if rules != [] {
      var j := Judge(rules[0], Str(ValueOrEmpty(st.headers, rules[0].key)));
      var r := Judged(h, j, st);
      if r.outcome.Next? {
        HeaderReportsOnlyOnHalt(h, rules[1..], r.state);
      } else if r.outcome.Halted? {
        assert r.state.reply == Report(h, st.reply, j.value.value);
      }
    }
  }

  lemma {:induction false} BodyValuesReportOnlyOnHalt(h: ErrorHandler, rule: Params, values: seq<Node>, st: State)
    ensures ReportsOnlyOnHalt(h, st, BodyValues(h, rule, values, st))
    decreases |values|
  {
    if values != [] {
      var r := HandleBody(h, rule, values[0], st);
      if r.outcome.Next? {
        BodyValuesReportOnlyOnHalt(h, rule, values[1..], r.state);
      } else if r.outcome.Halted? {
        assert r.state.reply == Report(h, st.reply, Judge(rule, values[0]).value.value);
      }
    }
  }

  lemma {:induction false} BodyReportsOnlyOnHalt(h: ErrorHandler, rules: seq<Params>, st: State)
    ensures ReportsOnlyOnHalt(h, st, BodyRules(h, rules, st))
    decreases |rules|
  {
    if rules != [] {
      match GetBodyValues(rules[0].key, st.body)
      case Thrown =>
      case Normal(values) =>
        var r := BodyValues(h, rules[0], values, st);
        BodyValuesReportOnlyOnHalt(h, rules[0], values, st);
        if r.outcome.Next? {
          BodyReportsOnlyOnHalt(h, rules[1..], r.state);
        }
    }
  }

  /** The run of the `i`-th query rule on the state the rules before it left. */
  function QueryStep(h: ErrorHandler, rules: seq<Params>, st: State, i: nat): Run
    requires i < |rules|
  {
    var s := QueryRules(h, rules[..i], st).state;
    HandleQuery(h, rules[i], ValueOrEmpty(s.query, rules[i].key), s)
  }

  /**
   * `query` calls `next` exactly when every rule passes (and folds) on the
   * state the rules before it left.
   */
  lemma {:induction false} QueryRulesNextIff(h: ErrorHandler, rules: seq<Params>, st: State)
    ensures QueryRules(h, rules, st).outcome.Next? <==>
      forall i :: 0 <= i < |rules| ==> QueryStep(h, rules, st, i).outcome.Next?
    decreases |rules|
  {
    if rules != [] {
      var r := HandleQuery(h, rules[0], ValueOrEmpty(st.query, rules[0].key), st);
      var tail := rules[1..];
      assert rules[..0] == [];
      assert QueryStep(h, rules, st, 0) == r;
      if r.outcome.Next? {
        QueryRulesNextIff(h, tail, r.state);
        forall j | 0 <= j < |tail|
          ensures QueryStep(h, rules, st, j + 1) == QueryStep(h, tail, r.state, j)
        {
          assert rules[..j + 1][0] == rules[0] && rules[..j + 1][1..] == tail[..j];
        }
        if forall j :: 0 <= j < |tail| ==> QueryStep(h, tail, r.state, j).outcome.Next? {
          forall i | 0 < i < |rules| ensures QueryStep(h, rules, st, i).outcome.Next? {
            assert QueryStep(h, rules, st, (i - 1) + 1) == QueryStep(h, tail, r.state, i - 1);
          }
        }
      }
    }
  }

  /**
   * `header` writes nothing, so it calls `next` exactly when every rule
   * passes on its header value, and then leaves the state as it was.
   */
  lemma {:induction false} HeaderRulesNextIff(h: ErrorHandler, rules: seq<Params>, st: State)
    ensures (forall i :: 0 <= i < |rules| ==> Judge(rules[i], Str(ValueOrEmpty(st.headers, rules[i].key))) == Normal(None))
      <==> HeaderRules(h, rules, st) == Run(Next, st)
    decreases |rules|
  {
    if rules != [] {
      var tail := rules[1..];
      var r := Judged(h, Judge(rules[0], Str(ValueOrEmpty(st.headers, rules[0].key))), st);
      if r.outcome.Next? {
        assert r == Run(Next, st);
        HeaderRulesNextIff(h, tail, st);
        if forall j :: 0 <= j < |tail| ==> Judge(tail[j], Str(ValueOrEmpty(st.headers, tail[j].key))) == Normal(None) {
          forall i | 0 < i < |rules| ensures Judge(rules[i], Str(ValueOrEmpty(st.headers, rules[i].key))) == Normal(None) {
            assert rules[i] == tail[i - 1];
          }
        }
      }
    }
  }

  /** The run of the `i`-th value of a rule on the state the values before it left. */
  function ValueStep(h: ErrorHandler, rule: Params, values: seq<Node>, st: State, i: nat): Run
    requires i < |values|
  {
    HandleBody(h, rule, values[i], BodyValues(h, rule, values[..i], st).state)
  }

  /** A rule's values reach `next` exactly when each passes (and folds) on the state the earlier ones left. */
  lemma {:induction false} BodyValuesNextIff(h: ErrorHandler, rule: Params, values: seq<Node>, st: State)
    ensures BodyValues(h, rule, values, st).outcome.Next? <==>
      forall i :: 0 <= i < |values| ==> ValueStep(h, rule, values, st, i).outcome.Next?
    decreases |values|
  {
    if values != [] {
      var r := HandleBody(h, rule, values[0], st);
      var tail := values[1..];
      assert values[..0] == [];
      assert ValueStep(h, rule, values, st, 0) == r;
      if r.outcome.Next? {
        BodyValuesNextIff(h, rule, tail, r.state);
        forall j | 0 <= j < |tail|
          ensures ValueStep(h, rule, values, st, j + 1) == ValueStep(h, rule, tail, r.state, j)
        {
          assert values[..j + 1][0] == values[0] && values[..j + 1][1..] == tail[..j];
        }
        if forall j :: 0 <= j < |tail| ==> ValueStep(h, rule, tail, r.state, j).outcome.Next? {
          forall i | 0 < i < |values| ensures ValueStep(h, rule, values, st, i).outcome.Next? {
            assert ValueStep(h, rule, values, st, (i - 1) + 1) == ValueStep(h, rule, tail, r.state, i - 1);
          }
        }
      }
    }
  }

  /** The run of the `i`-th body rule on the state the rules before it left. */
  function RuleStep(h: ErrorHandler, rules: seq<Params>, st: State, i: nat): Run
    requires i < |rules|
  {
    BodyRule(h, rules[i], BodyRules(h, rules[..i], st).state)
  }

  /**
   * `iterateValidators` lets the request through exactly when every rule
   * resolves its values and passes them on the body the rules before it left.
   */
  lemma {:induction false} BodyRulesNextIff(h: ErrorHandler, rules: seq<Params>, st: State)
    ensures BodyRules(h, rules, st).outcome.Next? <==>
      forall i :: 0 <= i < |rules| ==> RuleStep(h, rules, st, i).outcome.Next?
    decreases |rules|
  {
    if rules != [] {
      var r := BodyRule(h, rules[0], st);
      var tail := rules[1..];
      assert rules[..0] == [];
      assert RuleStep(h, rules, st, 0) == r;
      if r.outcome.Next? {
        BodyRulesNextIff(h, tail, r.state);
        forall j | 0 <= j < |tail|
          ensures RuleStep(h, rules, st, j + 1) == RuleStep(h, tail, r.state, j)
        {
          assert rules[..j + 1][0] == rules[0] && rules[..j + 1][1..] == tail[..j];
        }
        if forall j :: 0 <= j < |tail| ==> RuleStep(h, tail, r.state, j).outcome.Next? {
          forall i | 0 < i < |rules| ensures RuleStep(h, rules, st, i).outcome.Next? {
            assert RuleStep(h, rules, st, (i - 1) + 1) == RuleStep(h, tail, r.state, i - 1);
          }
        }
      }
    }
  }

  /**
   * A wildcard rule with sanitizers writes every value it resolved to under
   * the same whole key, so when they all pass and fold the last one is what
   * remains; the rest of the state is as it was.
   */
  lemma {:induction false} LastValueWins(h: ErrorHandler, rule: Params, values: seq<Node>, st: State)
    requires st.body.Obj? && rule.sanitizer.Some? && values != []
    requires forall i :: 0 <= i < |values| ==>
      Judge(rule, values[i]) == Normal(None) && Sanitize(rule.sanitizer.value, values[i]).Normal?
    ensures BodyValues(h, rule, values, st) ==
      Run(Next, st.(body := Obj(st.body.fields[rule.key := Sanitize(rule.sanitizer.value, values[|values| - 1]).value])))
    decreases |values|
  {
    var f0 := Sanitize(rule.sanitizer.value, values[0]).value;
    var r := HandleBody(h, rule, values[0], st);
    assert r == Run(Next, st.(body := Obj(st.body.fields[rule.key := f0])));
    if |values| == 1 {
      assert values[1..] == [];
    } else {
      var tail := values[1..];
      LastValueWins(h, rule, tail, r.state);
      assert tail[|tail| - 1] == values[|values| - 1];
      var last := Sanitize(rule.sanitizer.value, values[|values| - 1]).value;
      assert st.body.fields[rule.key := f0][rule.key := last] == st.body.fields[rule.key := last];
    }
  }

  /** `k` is not the key of any rule. */
  predicate NotARuleKey(rules: seq<Params>, k: string) {
    forall i :: 0 <= i < |rules| ==> rules[i].key != k
  }

  /**
   * The `query` middleware writes only the parameters its rules name; headers
   * and body are left alone.
   */
  lemma {:induction false} QueryTouchesOnlyRuleKeys(h: ErrorHandler, rules: seq<Params>, st: State, k: string)
    requires NotARuleKey(rules, k)
    ensures var s := QueryRules(h, rules, st).state;
      s.headers == st.headers && s.body == st.body
      && (k in s.query <==> k in st.query) && (k in st.query ==> s.query[k] == st.query[k])
    decreases |rules|
  {
    if rules != [] {
      var r := HandleQuery(h, rules[0], ValueOrEmpty(st.query, rules[0].key), st);
      assert rules[0].key != k;
      assert r.state.headers == st.headers && r.state.body == st.body;
      assert (k in r.state.query <==> k in st.query) && (k in st.query ==> r.state.query[k] == st.query[k]);
      if r.outcome.Next? {
        assert NotARuleKey(rules[1..], k) by {
          forall i | 0 <= i < |rules| - 1 ensures rules[1..][i].key != k {
            assert rules[1..][i] == rules[i + 1];
          }
        }
        QueryTouchesOnlyRuleKeys(h, rules[1..], r.state, k);
      }
    }
  }

  /** The `header` middleware changes nothing but the response, and that only when it halts. */
  lemma {:induction false} HeaderNeverWrites(h: ErrorHandler, rules: seq<Params>, st: State)
    ensures var r := HeaderRules(h, rules, st);
      r.state == st.(reply := r.state.reply) && (!r.outcome.Halted? ==> r.state == st)
    decreases |rules|
  {
    HeaderReportsOnlyOnHalt(h, rules, st);
    if rules != [] {
      var r := Judged(h, Judge(rules[0], Str(ValueOrEmpty(st.headers, rules[0].key))), st);
      if r.outcome.Next? {
        HeaderNeverWrites(h, rules[1..], r.state);
      }
    }
  }

  /** The body adapters never touch the query or the headers. */
  lemma {:induction false} BodyKeepsQueryAndHeaders(h: ErrorHandler, rules: seq<Params>, st: State)
    ensures var s := BodyRules(h, rules, st).state; s.query == st.query && s.headers == st.headers
    decreases |rules|
  {
    if rules != [] {
      match GetBodyValues(rules[0].key, st.body)
      case Thrown =>
      case Normal(values) =>
        BodyValuesKeepQueryAndHeaders(h, rules[0], values, st);
        var r := BodyValues(h, rules[0], values, st);
        if r.outcome.Next? {
          BodyKeepsQueryAndHeaders(h, rules[1..], r.state);
        }
    }
  }

  lemma {:induction false} BodyValuesKeepQueryAndHeaders(h: ErrorHandler, rule: Params, values: seq<Node>, st: State)
    ensures var s := BodyValues(h, rule, values, st).state; s.query == st.query && s.headers == st.headers
    decreases |values|
  {
    if values != [] {
      var r := HandleBody(h, rule, values[0], st);
      if r.outcome.Next? {
        BodyValuesKeepQueryAndHeaders(h, rule, values[1..], r.state);
      }
    }
  }

  /** A required rule whose query parameter is missing or empty halts with its required message. */
  lemma RequiredMissingQueryHalts(h: ErrorHandler, rule: Params, rest: seq<Params>, st: State)
    requires !rule.optional && ValueOrEmpty(st.query, rule.key) == ""
    ensures QueryRules(h, [rule] + rest, st) == Run(Halted, st.(reply := Report(h, st.reply, RequiredMessage(rule))))
  {
    assert ([rule] + rest)[0] == rule;
  }

  /**
   * An optional rule whose parameter is missing still runs its built-in
   * sanitizers, on `""`, and so writes the parameter as `""`.
   */
  lemma OptionalAbsentQueryWritesEmpty(h: ErrorHandler, rule: Params, st: State)
    requires rule.optional && rule.key !in st.query && rule.sanitizer.Some?
    requires forall i :: 0 <= i < |rule.sanitizer.value| ==> IsBuiltIn(rule.sanitizer.value[i])
    ensures QueryRules(h, [rule], st) == Run(Next, st.(query := st.query[rule.key := ""]))
  {
    BuiltInsKeepEmpty(rule.sanitizer.value);
    assert [rule][1..] == [];
  }

  /**
   * In a body, an optional plain key that is missing resolves to `undefined`,
   * and a built-in sanitizer applied to it throws: the request ends without
   * `next` and without a report.
   */
  lemma OptionalAbsentBodyFieldThrows(h: ErrorHandler, rule: Params, st: State)
    requires st.body.Obj? && rule.key !in st.body.fields
    requires '.' !in rule.key && '*' !in rule.key
    requires rule.optional && rule.sanitizer.Some? && rule.sanitizer.value != [] && IsBuiltIn(rule.sanitizer.value[0])
    ensures BodyRules(h, [rule], st) == Run(Threw, st)
  {
    SplitWithoutSeparator(rule.key, '.');
    IncludesChar(rule.key, '*');
    assert "." == ['.'] && "*" == ['*'];
    assert !Includes(rule.key, "*");
    assert Lookup(st.body, rule.key) == Normal(Undefined);
    assert FoldPath(st.body, [rule.key]) == FoldPath(Undefined, []);
    assert GetBodyValues(rule.key, st.body) == Normal([Undefined]);
    assert [Undefined][1..] == [];
  }

  /** A wildcard rule over an empty array resolves to no value, checks nothing and passes. */
  lemma EmptyArrayWildcardPasses(h: ErrorHandler, rule: Params, k: string, st: State)
    requires st.body.Obj? && k in st.body.fields && st.body.fields[k] == Arr([])
    requires '.' !in k && k != "*" && rule.key == k + ".*"
    ensures BodyRules(h, [rule], st) == Run(Next, st)
  {
    WildcardKeyValues(st.body, k);
    assert [rule][1..] == [];
  }

  /** `k.*` splits into `k` and `*`, so it resolves through the wildcard walk. */
  lemma WildcardKeyValues(body: Node, k: string)
    requires body.Obj? && '.' !in k && k != "*"
    ensures GetBodyValues(k + ".*", body) == GetValues(body, [k, "*"])
  {
    SplitAtFirstSeparator(k, '.', "*");
    SplitWithoutSeparator("*", '.');
    assert k + ".*" == k + ['.'] + "*";
    IncludesChar(k + ".*", '*');
    assert (k + ".*")[|k| + 1] == '*';
  }

  /**
   * A required `k.*` rule over a body without `k` does not pass silently: the
   * walk falls back to `""`, and the rule halts with its required message.
   */
  lemma RequiredWildcardOnMissingKeyHalts(h: ErrorHandler, rule: Params, k: string, st: State)
    requires st.body.Obj? && k !in st.body.fields
    requires '.' !in k && k != "*" && rule.key == k + ".*" && !rule.optional
    ensures BodyRules(h, [rule], st) == Run(Halted, st.(reply := Report(h, st.reply, RequiredMessage(rule))))
  {
    WildcardKeyValues(st.body, k);
    FalsyPropertyYieldsEmptyString(st.body, [k, "*"]);
    assert [rule][1..] == [];
  }

  /**
   * Values after the first rejected one are never looked at: the rejection is
   * reported on the state the earlier values left, whatever their sanitizers
   * wrote.
   */
  lemma {:induction false} FirstRejectedValueWins(h: ErrorHandler, rule: Params, values: seq<Node>, st: State, i: nat, m: string)
    requires i < |values|
    requires BodyValues(h, rule, values[..i], st).outcome.Next?
    requires Judge(rule, values[i]) == Normal(Some(m))
    ensures var s := BodyValues(h, rule, values[..i], st).state;
      BodyValues(h, rule, values, st) == Run(Halted, s.(reply := Report(h, s.reply, m)))
    decreases i
  {
    if i > 0 {
      assert values[..i][0] == values[0] && values[..i][1..] == values[1..][..i - 1];
      var r := HandleBody(h, rule, values[0], st);
      FirstRejectedValueWins(h, rule, values[1..], r.state, i - 1, m);
    }
  }

  /** Values that a rule without sanitizers accepts leave the state as it was. */
  lemma {:induction false} AcceptedValuesChangeNothing(h: ErrorHandler, rule: Params, values: seq<Node>, st: State)
    requires rule.sanitizer.None?
    requires forall j :: 0 <= j < |values| ==> Judge(rule, values[j]) == Normal(None)
    ensures BodyValues(h, rule, values, st) == Run(Next, st)
    decreases |values|
  {
    if values != [] {
      assert Judge(rule, values[0]) == Normal(None);
      AcceptedValuesChangeNothing(h, rule, values[1..], st);
    }
  }

  /**
   * `check("k.*.f").ifValue(p)` against `{k: [{f: ...}, ...]}`: the values are
   * the elements' `f` in order, and the first element `p` rejects is reported,
   * with `p`'s own message.
   */
  lemma WildcardFirstOffenderWins(h: ErrorHandler, p: Predicate, k: string, f: string, items: seq<Node>,
                                  st: State, i: nat, m: string)
    requires '.' !in k && '*' !in k && '.' !in f && '*' !in f && k != "" && f != ""
    requires st.body.Obj? && k in st.body.fields && st.body.fields[k] == Arr(items)
    requires HasPlainField(items, f) && i < |items|
    requires forall j :: 0 <= j < i ==> Evaluate(p, items[j].fields[f], k + ".*." + f, None) == Normal(Success)
    requires Evaluate(p, items[i].fields[f], k + ".*." + f, None) == Normal(Response(false, m))
    ensures BodyRules(h, [Params(k + ".*." + f, Some([p]), None, false, None)], st)
         == Run(Halted, st.(reply := Report(h, st.reply, m)))
  {
    var key := k + ".*." + f;
    var rule := Params(key, Some([p]), None, false, None);
    WildcardKeyResolves(k, f, items, st.body);
    var values := FanOut(items, ["*", f]).value;
    assert [p][1..] == [];
    forall j | 0 <= j < i ensures Judge(rule, values[j]) == Normal(None) {
      assert values[j] == items[j].fields[f] && Truthy(values[j]);
      JudgeOnePredicate(p, key, values[j]);
    }
    assert values[i] == items[i].fields[f] && Truthy(values[i]);
    JudgeOnePredicate(p, key, values[i]);
    AcceptedValuesChangeNothing(h, rule, values[..i], st);
    FirstRejectedValueWins(h, rule, values, st, i, m);
    assert [rule][1..] == [];
  }

  /** A required rule with one predicate and no message, on a present value, answers with that predicate. */
  lemma JudgeOnePredicate(p: Predicate, key: string, v: Node)
    requires Truthy(v)
    ensures Judge(Params(key, Some([p]), None, false, None), v) ==
      match Evaluate(p, v, key, None)
      case Thrown => Thrown
      case Normal(r) => Normal(if r.result then None else Some(r.message))
  {
    var rule := Params(key, Some([p]), None, false, None);
    assert Predicates(rule) == [p] && [p][0] == p && [p][1..] == [];
    assert Judge(rule, v) == FirstFailure([p], v, key, None);
  }

  /** The key `k.*.f` splits into three segments and resolves to the elements' `f`, in order. */
  lemma WildcardKeyResolves(k: string, f: string, items: seq<Node>, body: Node)
    requires '.' !in k && '*' !in k && '.' !in f && '*' !in f && k != "" && f != ""
    requires body.Obj? && k in body.fields && body.fields[k] == Arr(items)
    requires HasPlainField(items, f)
    ensures FanOut(items, ["*", f]).Normal?
    ensures GetBodyValues(k + ".*." + f, body) == FanOut(items, ["*", f])
    ensures var vs := FanOut(items, ["*", f]).value;
      |vs| == |items| && forall j :: 0 <= j < |items| ==> vs[j] == items[j].fields[f]
  {
    var key := k + ".*." + f;
    KeySegments(k, f);
    WildcardProjectsField(items, f);
    assert [k, "*", f][1..] == ["*", f];
    assert GetValues(body, [k, "*", f]) == FanOut(items, ["*", f]);
  }

  lemma KeySegments(k: string, f: string)
    requires '.' !in k && '*' !in k && '.' !in f && '*' !in f
    ensures SplitOn(k + ".*." + f, ".") == [k, "*", f]
    ensures Includes(k + ".*." + f, "*")
  {
    var key := k + ".*." + f;
    assert key == k + ['.'] + ("*" + ['.'] + f);
    assert "*" + ['.'] + f == "*" + ['.'] + f;
    SplitAtFirstSeparator(k, '.', "*" + ['.'] + f);
    SplitAtFirstSeparator("*", '.', f);
    SplitWithoutSeparator(f, '.');
    assert "." == ['.'];
    IncludesChar(key, '*');
    assert key[|k| + 1] == '*';
  }

  /** An empty body text is reported as `Invalid request body` before any rule is looked at. */
  lemma EmptyBodyIsReported(h: ErrorHandler, rules: seq<Params>, parsed: Node, st: State)
    ensures BodyMiddleware(h, rules, "", parsed, st) == Run(Halted, st.(reply := Report(h, st.reply, "Invalid request body")))
  {
  }

  /** A form without entries is reported as `Invalid form data` before any rule is looked at. */
  lemma EmptyFormIsReported(h: ErrorHandler, rules: seq<Params>, st: State)
    ensures FormMiddleware(h, rules, map[], st) == Run(Halted, st.(reply := Report(h, st.reply, "Invalid form data")))
  {
  }

  // ---------------------------------------------------------------------------
  // The mutable request context and the middleware object

  /** The request context: query parameters, headers, parsed body (`state.request_body`), response. */
  class Context {
    var query: map<string, string>
    var headers: map<string, string>
    var requestBody: Node
    var reply: Reply

    constructor (query: map<string, string>, headers: map<string, string>, reply: Reply)
      ensures Snapshot() == State(query, headers, Undefined, reply)
    {
      this.query := query;
      this.headers := headers;
      this.requestBody := Undefined;
      this.reply := reply;
    }

    function Snapshot(): State
      reads this
    {
      State(query, headers, requestBody, reply)
    }
  }

  class ValidatorMiddleware {
    var errorHandler: ErrorHandler

    constructor ()
      ensures errorHandler == DefaultHandler
    {
      errorHandler := DefaultHandler;
    }

    /** `useErrorHandler(handler)`: every later report goes to `handler`. */
    method UseErrorHandler(handler: ErrorHandler)
      modifies this
      ensures errorHandler == handler
    {
      errorHandler := handler;
    }

    /** `this.errorHandler(context, error)` */
    method ReportError(ctx: Context, error: string)
      modifies ctx
      ensures ctx.Snapshot() == old(ctx.Snapshot()).(reply := Report(errorHandler, old(ctx.reply), error))
    {
      match errorHandler
      case DefaultHandler =>
        ctx.reply := ctx.reply.(status := 422);
        ctx.reply := ctx.reply.(body := Obj(map["error" := Str(error)]));
      case CustomHandler(handle) =>
        ctx.reply := handle(ctx.reply, error);
    }

    /** `runValidators(arg, value, context)`: `Next` for true, `Halted` for false. */
    method RunValidators(rule: Params, value: Node, ctx: Context) returns (outcome: Outcome)
      modifies ctx
      ensures Run(outcome, ctx.Snapshot()) == Judged(errorHandler, Judge(rule, value), old(ctx.Snapshot()))
    {
      if !Truthy(value) {
        if rule.optional {
          return Next;
        }
        ReportError(ctx, MessageOr(rule.message, DefaultMessage(rule.key, "it is required.")));
        return Halted;
      }
      var ps := Predicates(rule);
      var i := 0;
      while i < |ps|
        invariant 0 <= i <= |ps|
        invariant FirstFailure(ps, value, rule.key, rule.message) == FirstFailure(ps[i..], value, rule.key, rule.message)
        invariant ctx.Snapshot() == old(ctx.Snapshot())
      {
        FirstFailureAt(ps, value, rule.key, rule.message, i);
        var response := Evaluate(ps[i], value, rule.key, rule.message);
        if response.Thrown? {
          return Threw;
        }
        if !response.value.result {
          ReportError(ctx, response.value.message);
          return Halted;
        }
        i := i + 1;
      }
      return Next;
    }

    /** `queryHandler(arg, value, context)` */
    method QueryHandler(rule: Params, value: string, ctx: Context) returns (outcome: Outcome)
      modifies ctx
      ensures Run(outcome, ctx.Snapshot()) == HandleQuery(errorHandler, rule, value, old(ctx.Snapshot()))
    {
      outcome := RunValidators(rule, Str(value), ctx);
      if outcome != Next {
        return;
      }
      if rule.sanitizer.Some? {
        var sanitized := Sanitize(rule.sanitizer.value, Str(value));
        if sanitized.Thrown? {
          return Threw;
        }
        var text := ToJsString(sanitized.value);
        if text.Thrown? {
          return Threw;
        }
        ctx.query := ctx.query[rule.key := text.value];
      }
    }

    /** `bodyHandler(arg, value, context)` */
    method BodyHandler(rule: Params, value: Node, ctx: Context) returns (outcome: Outcome)
      modifies ctx
      ensures Run(outcome, ctx.Snapshot()) == HandleBody(errorHandler, rule, value, old(ctx.Snapshot()))
    {
      outcome := RunValidators(rule, value, ctx);
      if outcome != Next {
        return;
      }
      if rule.sanitizer.Some? {
        var sanitized := Sanitize(rule.sanitizer.value, value);
        if sanitized.Thrown? {
          return Threw;
        }
        var written := WriteBack(ctx.requestBody, rule.key, sanitized.value);
        if written.Thrown? {
          return Threw;
        }
        ctx.requestBody := written.value;
      }
    }

    /** The `query` middleware; `Next` means `next()` is called, exactly once. */
    method Query(rules: seq<Params>, ctx: Context) returns (outcome: Outcome)
      modifies ctx
      ensures Run(outcome, ctx.Snapshot()) == QueryRules(errorHandler, rules, old(ctx.Snapshot()))
    {
      var i := 0;
      while i < |rules|
        invariant 0 <= i <= |rules|
        invariant QueryRules(errorHandler, rules, old(ctx.Snapshot())) == QueryRules(errorHandler, rules[i..], ctx.Snapshot())
      {
        assert rules[i..][0] == rules[i] && rules[i..][1..] == rules[i + 1..];
        var value := if rules[i].key in ctx.query then ctx.query[rules[i].key] else "";
        var o := QueryHandler(rules[i], value, ctx);
        if o != Next {
          return o;
        }
        i := i + 1;
      }
      return Next;
    }

    /** The `header` middleware. */
    method Header(rules: seq<Params>, ctx: Context) returns (outcome: Outcome)
      modifies ctx
      ensures Run(outcome, ctx.Snapshot()) == HeaderRules(errorHandler, rules, old(ctx.Snapshot()))
    {
      var i := 0;
      while i < |rules|
        invariant 0 <= i <= |rules|
        invariant HeaderRules(errorHandler, rules, old(ctx.Snapshot())) == HeaderRules(errorHandler, rules[i..], ctx.Snapshot())
      {
        assert rules[i..][0] == rules[i] && rules[i..][1..] == rules[i + 1..];
        var value := if rules[i].key in ctx.headers then ctx.headers[rules[i].key] else "";
        var o := RunValidators(rules[i], Str(value), ctx);
        if o != Next {
          return o;
        }
        i := i + 1;
      }
      return Next;
    }

    /** `iterateValidators(args, ...)` over the parsed body in the context. */
    method IterateValidators(rules: seq<Params>, ctx: Context) returns (outcome: Outcome)
      modifies ctx
      ensures Run(outcome, ctx.Snapshot()) == BodyRules(errorHandler, rules, old(ctx.Snapshot()))
    {
      var i := 0;
      while i < |rules|
        invariant 0 <= i <= |rules|
        invariant BodyRules(errorHandler, rules, old(ctx.Snapshot())) == BodyRules(errorHandler, rules[i..], ctx.Snapshot())
      {
        assert rules[i..][0] == rules[i] && rules[i..][1..] == rules[i + 1..];
        var values := GetBodyValues(rules[i].key, ctx.requestBody);
        if values.Thrown? {
          return Threw;
        }
        ghost var start := ctx.Snapshot();
        var j := 0;
        while j < |values.value|
          invariant 0 <= j <= |values.value|
          invariant BodyValues(errorHandler, rules[i], values.value, start)
                 == BodyValues(errorHandler, rules[i], values.value[j..], ctx.Snapshot())
        {
          var vs := values.value;
          assert vs[j..][0] == vs[j] && vs[j..][1..] == vs[j + 1..];
          var o := BodyHandler(rules[i], vs[j], ctx);
          if o != Next {
            return o;
          }
          j := j + 1;
        }
        i := i + 1;
      }
      return Next;
    }

    /** The `body` middleware, given the body text and what `JSON.parse` makes of it. */
    method Body(rules: seq<Params>, text: string, parsed: Node, ctx: Context) returns (outcome: Outcome)
      modifies ctx
      ensures Run(outcome, ctx.Snapshot()) == BodyMiddleware(errorHandler, rules, text, parsed, old(ctx.Snapshot()))
    {
      if text == "" {
        ReportError(ctx, "Invalid request body");
        return Halted;
      }
      ctx.requestBody := parsed;
      outcome := IterateValidators(rules, ctx);
    }

    /** The `form` middleware, given the form's text entries. */
    method Form(rules: seq<Params>, entries: map<string, string>, ctx: Context) returns (outcome: Outcome)
      modifies ctx
      ensures Run(outcome, ctx.Snapshot()) == FormMiddleware(errorHandler, rules, entries, old(ctx.Snapshot()))
    {
      if |entries| == 0 {
        ReportError(ctx, "Invalid form data");
        return Halted;
      }
      ctx.requestBody := FormBody(entries);
      outcome := IterateValidators(rules, ctx);
    }
  }
}
