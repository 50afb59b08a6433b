# validator4oak in Dafny

This project models the core of validator4oak, a request validator for the Oak web framework:

- the rule builder (`check(...).maybe().sanitizeWith(...).ifValue(...)`);
- the leaf predicates (`hasLenght`, `isIn`, `contains`, ...) and sanitizers (`escape`, `trim`, ...);
- the path resolver, which finds the value or values a dotted key such as `colors.*.name` names in a parsed body;
- the enforcement pipeline of the `query`, `header`, `body` and `form` middlewares.

Each rule runs in the same order:

1. The pipeline locates the rule's value or values.
2. A falsy value passes an optional rule. It fails a required one with `Invalid <key> input. Cause: it is required.`.
3. Otherwise the predicates run in declared order. The first failure is reported through the error handler, and the request stops there. The default handler sets status 422 and body `{error}`.
4. If the rule passed, its sanitizers are folded left over the value and the result is written back. Query rules write to the query parameter. Body rules write to the top-level body entry named by the whole dotted key.
5. `next()` is called only when every rule passes.

## Modules

| file | module | models |
|---|---|---|
| `js_strings.dfy` | `JsStrings` | The JavaScript string operations the code relies on: `includes`, `split`/`join`, `trim` (full JavaScript whitespace set), ASCII `toLowerCase`/`toUpperCase`, and the integer rendering of template literals. |
| `js_value.dfy` | `JsValue` | A parsed JSON value (`Node`) and JavaScript truthiness. Also property access `obj[key]`, which throws on `null`/`undefined`, `String(v)`, which throws on an object with its own `toString` key, and `Completion`, the outcome of an evaluation that may throw a TypeError. |
| `validator_fn.dfy` | `ValidatorFn` | The predicates of src/validator-fn.ts, one function each, with their exact message texts. |
| `validator_sanitizer.dfy` | `ValidatorSanitizer` | The sanitizers of src/validator-sanitizer.ts and the fold that applies them. |
| `validator_builder.dfy` | `RuleBuilder` | The builder of src/validator-builder.ts. It is a class whose cursor record (`Rule`) is mutated in place and handed out by reference. |
| `path_resolver.dfy` | `PathResolver` | `getValues` and `getBodyValues` of src/validator-middleware.ts, and the body write-back. |
| `validator_middleware.dfy` | `Middleware` | `runValidators`, the handlers, the four middlewares, `iterateValidators` and the error handler. This is done twice: once as pure functions over a request `State`, and once as the class `ValidatorMiddleware`. The class's methods mutate a `Context` and are proved to reach exactly the state and outcome the functions give. |

Values are checked on every `Node`, not only on strings, because the body values the pipeline locates can be anything. The TypeErrors listed below are modelled outcomes (`Thrown`, `Threw`), not preconditions. The cases where the model's JavaScript values differ from the real ones (prototype members, `__proto__`, numeric coercion) are listed under "## Left out". The modelled TypeErrors are:

- reading a property of `null` or `undefined`;
- `hasLenght` comparing a `length` entry whose number conversion throws, such as `{"length": {"toString": 1}}`;
- `contains` on a value that is not a string, unless it is an array searched case-sensitively;
- converting an object with its own `toString` key, or an array holding one, to a string or a number: in `isUrl`, `hasAllowedCharacters`, `matches` and `isNumeric`, and when a query parameter is set;
- a built-in sanitizer on a non-string;
- writing into a primitive body.

Two consequences are proved:

- An optional **query** rule with built-in sanitizers whose parameter is missing still runs them on `""` and writes `""` (`OptionalAbsentQueryWritesEmpty`).
- An optional **body** rule on a missing plain key receives `undefined`, so a built-in sanitizer throws (`OptionalAbsentBodyFieldThrows`).

## Model

| member | source | states |
|---|---|---|
| `JsStrings.IncludesIffOccurs` | src/validator-fn.ts:184 | `includes` finds the needle exactly when it occurs at some offset. |
| `JsStrings.JoinSplit` | src/validator-sanitizer.ts:57 | Joining the parts of `split(sep)` with `sep` gives the string back, for every separator. |
| `JsStrings.SplitPartsAvoidSeparator` | src/validator-sanitizer.ts:57 | No part of a split by a non-empty separator contains the separator. |
| `JsStrings.SplitAtFirstSeparator` | src/validator-middleware.ts:205 | `key.split('.')` ends the first segment at the first dot. |
| `JsStrings.SplitOn` | src/validator-sanitizer.ts:57 | `split` with a non-empty separator yields at least one part, and the first part is a prefix of the string. |
| `JsStrings.TrimIsMaximalSlice` | src/validator-sanitizer.ts:28-32 | `trim` keeps a contiguous slice. Everything it drops is whitespace, and the kept text neither starts nor ends with whitespace. |
| `JsStrings.TrimIdempotent` | src/validator-sanitizer.ts:28-32 | Trimming twice equals trimming once. |
| `JsStrings.Trim` | src/validator-sanitizer.ts:28-32 | `trim` never lengthens a string, and its result neither starts nor ends with whitespace. |
| `JsStrings.LowerCase` | src/validator-sanitizer.ts:37-41 | `toLowerCase` keeps the length and maps each character to its lower-case form. |
| `JsStrings.UpperCase` | src/validator-sanitizer.ts:46-50 | `toUpperCase` keeps the length and maps each character to its upper-case form. |
| `JsStrings.Utf16Length` | src/validator-fn.ts:21 | `length` counts UTF-16 code units: at least the character count, and equal to it exactly when no character lies outside the Basic Multilingual Plane. |
| `JsStrings.EmojiLengthIsTwo` | src/validator-fn.ts:21 | A one-emoji string has length 2. |
| `JsStrings.NatToStringOfDigits` | src/validator-fn.ts:23 | Every canonical numeral (digits without a leading zero) is the rendering of its value. |
| `JsStrings.DigitsValueOfNatToString` | src/validator-fn.ts:23 | Reading back the rendering of a natural gives that natural, so the rendering used in messages is injective. |
| `JsValue.CanonicalIndexRoundTrip` | src/validator-middleware.ts:228 | An array is indexed by exactly the canonical renderings of naturals. |
| `JsValue.Lookup` | src/validator-middleware.ts:228 | `obj[key]` throws iff `obj` is `null` or `undefined`. An object yields its entry or `undefined`; numbers and booleans yield `undefined`. An array's `length` is its element count, a string's its UTF-16 length. |
| `JsValue.ToJsString` | src/validator-fn.ts:85 | `String(v)` throws exactly when `ToStringThrows(v)`: an object with its own `toString` key, or an array holding such a value. A string converts to itself and any other object to `[object Object]`. |
| `JsValue.OwnToStringThrows` | src/validator-fn.ts:85 | A `toString` key makes the conversion throw, also when the object sits inside an array. |
| `ValidatorFn.MessageOr` | src/validator-fn.ts:23 | `message \|\| default`: a non-empty message wins, and an absent or empty one falls back. |
| `ValidatorFn.CheckBounds` | src/validator-fn.ts:21-35 | Passes iff the count is within every truthy bound. A failure of the truthy maximum reports the maximum text before the minimum is looked at. |
| `ValidatorFn.CheckLength` | src/validator-fn.ts:19-36 | `hasLenght` reads `length` only for a truthy bound, and with no truthy bound it always passes. With one, it throws iff the value is `null`/`undefined` or its `length` fails to convert for the comparison. On strings (UTF-16 length) and arrays it is `CheckBounds` over the length. |
| `ValidatorFn.EmojiExceedsLengthOne` | src/validator-fn.ts:21-25 | `hasLenght({max: 1})` rejects a single emoji with the maximum-length text. |
| `ValidatorFn.ShadowedLengthThrows` | src/validator-fn.ts:21 | `hasLenght({max: 5})` throws on `{"length": {"toString": …}}`: the comparison cannot convert the length. |
| `ValidatorFn.ZeroBoundImposesNothing` | src/validator-fn.ts:21-27 | A bound of 0, like an absent one, never makes a value fail. |
| `ValidatorFn.AllAllowed` | src/validator-fn.ts:66-71 | The early-return loop over an array accepts iff every element is an allowed string. |
| `ValidatorFn.CheckIsIn` | src/validator-fn.ts:60-78 | An array passes iff all its elements are allowed, so `[]` passes. Any other value passes iff it is an allowed string. The failure text is fixed. |
| `ValidatorFn.StartsWithFoldedIsPrefix` | src/validator-fn.ts:85 | Case-insensitive prefix matching equals a prefix test on the lower-cased text. |
| `ValidatorFn.UrlSchemeIsLowerCasePrefix` | src/validator-fn.ts:83-91 | `isUrl`'s `/^(http\|https\|file):/i` passes iff the lower-cased text starts with `http:`, `https:` or `file:`. |
| `ValidatorFn.CheckUrl` | src/validator-fn.ts:83-91 | `isUrl` throws exactly when converting the value to a string throws. Otherwise it passes iff that string has a URL scheme, and fails with the URL text. |
| `ValidatorFn.CheckContains` | src/validator-fn.ts:176-190 | Throws exactly on the values without `includes`/`toLowerCase`. Passes iff the search occurs: case-folded unless case-sensitive, and by element for arrays. |
| `ValidatorFn.ContainsIgnoresCase` | src/validator-fn.ts:181-184 | Without `caseSensitive`, the verdict is the same for a value and its lower-cased form. |
| `ValidatorFn.IsBooleanAccepts` | src/validator-fn.ts:109-117 | `isBoolean` accepts exactly `"true"` and `"false"`. |
| `ValidatorFn.IsObjectAccepts` | src/validator-fn.ts:150-158 | `isObject` accepts only objects: not `null`, not arrays. |
| `ValidatorFn.IsStringAccepts` | src/validator-fn.ts:163-171 | `isString` never throws and accepts exactly the strings. Anything else fails with the string text. |
| `ValidatorFn.UrlOfShadowedToStringThrows` | src/validator-fn.ts:83-91 | `isUrl` throws on an object with its own `toString` key. An object without one converts to `[object Object]` and fails with the URL text. |
| `ValidatorFn.IsArrayAccepts` | src/validator-fn.ts:122-145 | Non-arrays fail with the array text before any bound is looked at. An array passes iff its count is within the bounds. |
| `ValidatorFn.Evaluate` | src/validator-fn.ts:19-205 | A predicate throws only if it is `hasLenght` or `contains`, or if it converts the value and the conversion throws. A converting predicate (`hasAllowedCharacters`, `isUrl`, `isNumeric`, `matches`) throws exactly then. Every built-in response is either `{true, 'valid'}` or a failure. |
| `ValidatorFn.FailureMessage` | src/validator-fn.ts:207-212 | A built-in predicate answers `{true, 'valid'}` or `{false, message \|\| 'Invalid <key> input. Cause: <cause>'}`. |
| `ValidatorSanitizer.EscapeIsPerCharacter` | src/validator-sanitizer.ts:15-23 | The five-stage replace chain (`EscapeText`), `&` first, equals replacing each character by its entity in one pass (`EscapeEach`). |
| `ValidatorSanitizer.EscapeRemovesMarkup` | src/validator-sanitizer.ts:15-23 | Escaped output contains none of `<`, `>`, `"` and `'`. |
| `ValidatorSanitizer.EscapeKeepsPlainText` | src/validator-sanitizer.ts:17-21 | A string without the five special characters is unchanged. |
| `ValidatorSanitizer.EscapeTwiceDiffers` | src/validator-sanitizer.ts:17 | Escaping is not idempotent: `&` escapes again. |
| `ValidatorSanitizer.ReplaceIsLeftToRightScan` | src/validator-sanitizer.ts:55-59 | With a non-empty search, `split/join` replaces every non-overlapping occurrence, left to right. |
| `ValidatorSanitizer.ReplaceAbsent` | src/validator-sanitizer.ts:55-59 | A value in which the search does not occur is unchanged. |
| `ValidatorSanitizer.ReplaceText` | src/validator-sanitizer.ts:55-59 | `split(search).join(replacement)`: replacing a string by itself changes nothing, for every search, the empty one included. |
| `ValidatorSanitizer.ReplaceEmptySearch` | src/validator-sanitizer.ts:57 | An empty search inserts the replacement between every two adjacent characters. |
| `ValidatorSanitizer.Apply` | src/validator-sanitizer.ts:15-59 | A built-in sanitizer completes iff the value is a string, and then yields a string. |
| `ValidatorSanitizer.SanitizeAppend` | src/validator-middleware.ts:186 | The `reduce` applies sanitizers in declared order, and a throw ends it. |
| `ValidatorSanitizer.Sanitize` | src/validator-middleware.ts:186 | A chain of built-in sanitizers turns a string into a string without throwing, and throws on any other value. |
| `ValidatorSanitizer.BuiltInsKeepEmpty` | src/validator-middleware.ts:198 | Built-in sanitizers map `""` to `""`. |
| `ValidatorSanitizer.TrimAndCaseIdempotent` | src/validator-sanitizer.ts:28-50 | `trim`, `lowerCase` and `upperCase` are idempotent. |
| `ValidatorSanitizer.TrimThenLowerCase` | src/validator-middleware.ts:198 | Folding `trim` then `lowerCase` over a word padded with two spaces gives the lower-cased word, e.g. `"  HELLOWORLD  "`. |
| `ValidatorSanitizer.HelloWorldFolds` | src/validator-middleware.ts:198 | `sanitizeWith(trim(), lowerCase())` folds `"  HELLOWORLD  "` to `"helloworld"`. |
| `RuleBuilder.Rule.constructor` | src/validator-builder.ts:17 | A new record holds only `key` and `message`. |
| `RuleBuilder.ValidatorBuilder.constructor` | src/validator-builder.ts:7 | The builder starts from `{ key: '' }`. |
| `RuleBuilder.ValidatorBuilder.Check` | src/validator-builder.ts:16-19 | Returns the builder. The cursor is a fresh record with only key and message. A record handed out earlier keeps its contents. |
| `RuleBuilder.ValidatorBuilder.Maybe` | src/validator-builder.ts:26-29 | Sets `optional` on the same record and changes nothing else. Returns the builder. |
| `RuleBuilder.ValidatorBuilder.SanitizeWith` | src/validator-builder.ts:37-40 | Replaces the sanitizer list wholesale. Returns the builder. |
| `RuleBuilder.ValidatorBuilder.IfValue` | src/validator-builder.ts:48-51 | Sets `validators`, keeps `message` and `optional`, and returns the cursor record itself. |
| `RuleBuilder.ValidatorBuilder.Exists` | src/validator-builder.ts:59-62 | Overwrites `message`, also with `None`, and returns the cursor record itself. |
| `RuleBuilder.ValidatorBuilder.IsOptional` | src/validator-builder.ts:70-74 | Sets `optional` and overwrites `message`. Returns the cursor record. |
| `RuleBuilder.ExistsThenMaybe` | src/validator-builder.ts:16-62 | `check(k, m).exists()` loses `m`. A later `maybe()` changes the record already handed out. The next `check` leaves it alone. |
| `RuleBuilder.ChainedRule` | src/validator-builder.ts:16-51 | A chain with two `sanitizeWith` calls keeps only the last list. |
| `PathResolver.GetBodyValues` | src/validator-middleware.ts:204-216 | A key without `*` resolves by the left fold to exactly one value. |
| `PathResolver.GetValues` | src/validator-middleware.ts:218-238 | `getValues` with only `*` segments left returns the object itself as the single value. |
| `PathResolver.FanOut` | src/validator-middleware.ts:233-234 | The `flatMap` over an array with only `*` segments left lists the elements themselves, in order. |
| `PathResolver.StarSegmentIsSkipped` | src/validator-middleware.ts:223-226 | A `*` segment anywhere in a path is consumed without descending. |
| `PathResolver.FanOutAppend` | src/validator-middleware.ts:233-234 | Fanning out over `a + b` lists `a`'s values and then `b`'s, in order. |
| `PathResolver.WildcardListsElements` | src/validator-middleware.ts:233-234 | `k.*` over an array lists its elements in order. An empty array lists nothing. |
| `PathResolver.WildcardProjectsField` | src/validator-middleware.ts:218-238 | `*.f` over an array of objects lists each element's `f` in element order. |
| `PathResolver.FoldPath` | src/validator-middleware.ts:211-215 | The `reduce` over the segments: once a level is falsy, it yields `undefined` whatever segments remain. |
| `PathResolver.FalsyPropertyYieldsEmptyString` | src/validator-middleware.ts:228-231 | A plain segment whose property is falsy ends its branch with the single value `""`, whatever segments follow. |
| `PathResolver.FoldPathAppend` | src/validator-middleware.ts:212-214 | The fold over `a + b` continues the fold over `a`. |
| `PathResolver.GetValuesAgreesWithFold` | src/validator-middleware.ts:204-238 | On a path without `*` that meets no array, `getValues` finds the fold's value, with a falsy value returned as `""`. |
| `PathResolver.WriteBack` | src/validator-middleware.ts:198 | Writing into a primitive, `null` or `undefined` body throws. An object gets the entry under the whole key. |
| `PathResolver.WriteBackThenLookup` | src/validator-middleware.ts:198 | Reading back a written key gives the written value. Other object entries are unchanged. |
| `Middleware.Report` | src/validator-middleware.ts:134-138 | The default handler sets status 422 and body `{error}`. |
| `Middleware.FirstFailure` | src/validator-middleware.ts:169-177 | The loop over the predicates completes when no predicate may throw on the value. |
| `Middleware.FirstFailureNoneIff` | src/validator-middleware.ts:169-177 | No failure is reported iff every predicate completes and accepts. |
| `Middleware.FirstFailureWins` | src/validator-middleware.ts:169-177 | The reported message is that of a rejecting predicate all of whose predecessors accepted. |
| `Middleware.MissingValueSkipsPredicates` | src/validator-middleware.ts:159-167 | A falsy value passes an optional rule and fails a required one with `message \|\| 'Invalid <key> input. Cause: it is required.'`. No predicate is consulted. |
| `Middleware.Judge` | src/validator-middleware.ts:159-178 | A missing value never throws, and a required rule passes only a present value. |
| `Middleware.Judged` | src/validator-middleware.ts:159-178 | The rule passes iff the verdict is "no failure". |
| `Middleware.HandleQuery` | src/validator-middleware.ts:180-190 | `queryHandler` touches neither headers nor body. It reaches `next` exactly when the rule passes and, with sanitizers, the fold and its string conversion complete. Without sanitizers the query is unchanged; with them, on `next` the parameter `key` holds the string form of the folded value and nothing else changed. It reports only when the rule fails. |
| `Middleware.HandleBody` | src/validator-middleware.ts:192-202 | `bodyHandler` touches neither query nor headers. It reaches `next` exactly when the rule passes and, with sanitizers, the fold and the write-back complete. Without sanitizers the body is unchanged; with them, on `next` the body is the write-back of the folded value under the whole key, and for an object body exactly that entry changed. It reports only when the rule fails. |
| `Middleware.QueryRules` | src/validator-middleware.ts:45-54 | When the `query` loop reaches `next()`, no report was made. |
| `Middleware.HeaderRules` | src/validator-middleware.ts:122-131 | When the `header` loop reaches `next()`, no report was made. |
| `Middleware.BodyValues` | src/validator-middleware.ts:149-153 | When every value of a rule passes, no report was made. |
| `Middleware.BodyRules` | src/validator-middleware.ts:140-157 | When `iterateValidators` reaches `next()`, no report was made. |
| `Middleware.QueryRulesNextIff` | src/validator-middleware.ts:45-53 | `query` reaches `next()` exactly when every rule's handler reaches it on the state the earlier rules left. |
| `Middleware.HeaderRulesNextIff` | src/validator-middleware.ts:122-130 | `header` reaches `next()`, with the state unchanged, exactly when every rule passes on its header value. |
| `Middleware.BodyValuesNextIff` | src/validator-middleware.ts:149-153 | A rule's values reach `next()` exactly when each value's handler reaches it on the state the earlier values left. |
| `Middleware.BodyRulesNextIff` | src/validator-middleware.ts:146-156 | `iterateValidators` reaches `next()` exactly when every rule resolves its values and passes them on the body the earlier rules left. |
| `Middleware.LastValueWins` | src/validator-middleware.ts:198 | When every value of a wildcard rule with sanitizers passes and folds, the key holds the last value's fold. The rest of the state is unchanged. |
| `Middleware.BodyMiddleware` | src/validator-middleware.ts:66-80 | `body` reaches `next()` only for a non-empty text and without a report. An empty text halts before the body is touched. |
| `Middleware.FormMiddleware` | src/validator-middleware.ts:91-106 | `form` reaches `next()` only for a form with entries and without a report. An empty form halts before the body is touched. |
| `Middleware.QueryRulesAppend` | src/validator-middleware.ts:45-53 | The `query` loop is fail-fast: later rules run only if all earlier ones passed. |
| `Middleware.BodyRulesAppend` | src/validator-middleware.ts:146-156 | `iterateValidators` is fail-fast in the same way. |
| `Middleware.QueryReportsOnlyOnHalt` | src/validator-middleware.ts:45-53 | The handler's effect is present exactly when `query` halts: one report, and none otherwise. |
| `Middleware.HeaderReportsOnlyOnHalt` | src/validator-middleware.ts:122-130 | The same for `header`. |
| `Middleware.BodyReportsOnlyOnHalt` | src/validator-middleware.ts:146-156 | The same for `iterateValidators`. |
| `Middleware.QueryTouchesOnlyRuleKeys` | src/validator-middleware.ts:186 | `query` writes only the parameters its rules name. Headers and body stay unchanged. |
| `Middleware.HeaderNeverWrites` | src/validator-middleware.ts:117-132 | `header` changes only the response, and only when it halts. |
| `Middleware.BodyKeepsQueryAndHeaders` | src/validator-middleware.ts:192-202 | Body rules never touch query or headers. |
| `Middleware.RequiredMissingQueryHalts` | src/validator-middleware.ts:159-167 | A required rule with a missing parameter halts with its required message, before later rules. |
| `Middleware.OptionalAbsentQueryWritesEmpty` | src/validator-middleware.ts:180-190 | An optional missing parameter with built-in sanitizers passes and is written as `""`. |
| `Middleware.OptionalAbsentBodyFieldThrows` | src/validator-middleware.ts:197-215 | An optional missing plain body key is `undefined`, and a built-in sanitizer on it throws. |
| `Middleware.EmptyArrayWildcardPasses` | src/validator-middleware.ts:146-156 | A rule `k.*` over an empty array checks nothing and passes. |
| `Middleware.RequiredWildcardOnMissingKeyHalts` | src/validator-middleware.ts:228-231 | A required rule `k.*` over a body without `k` halts with the required message. |
| `Middleware.FirstRejectedValueWins` | src/validator-middleware.ts:149-153 | For any rule, sanitizers included: values after the first rejected one are never looked at. The rejection is reported on the state the earlier values left. |
| `Middleware.AcceptedValuesChangeNothing` | src/validator-middleware.ts:192-202 | Values that a rule without sanitizers accepts leave the request state as it was. |
| `Middleware.WildcardFirstOffenderWins` | src/validator-middleware.ts:146-177 | `check('k.*.f').ifValue(p)` reports `p`'s message for the first element whose `f` it rejects. |
| `Middleware.EmptyBodyIsReported` | src/validator-middleware.ts:73-75 | An empty body text reports `Invalid request body` and halts. |
| `Middleware.EmptyFormIsReported` | src/validator-middleware.ts:99-101 | A form without entries reports `Invalid form data` and halts. |
| `Middleware.ValidatorMiddleware.constructor` | src/validator-middleware.ts:134 | The handler starts as the default. |
| `Middleware.ValidatorMiddleware.UseErrorHandler` | src/validator-middleware.ts:27-29 | Replaces the handler. |
| `Middleware.ValidatorMiddleware.ReportError` | src/validator-middleware.ts:134-138 | Changes only the response, as `Report` says. |
| `Middleware.ValidatorMiddleware.RunValidators` | src/validator-middleware.ts:159-178 | The loop with early returns ends in the outcome and state of `Judged(Judge(rule, value))`. |
| `Middleware.ValidatorMiddleware.QueryHandler` | src/validator-middleware.ts:180-190 | Ends as `HandleQuery`: judge, then sanitize and set the parameter. |
| `Middleware.ValidatorMiddleware.BodyHandler` | src/validator-middleware.ts:192-202 | Ends as `HandleBody`: judge, then sanitize and write under the whole key. |
| `Middleware.ValidatorMiddleware.Query` | src/validator-middleware.ts:40-55 | The loop ends as `QueryRules`. `Next` means `next()` is called, once. |
| `Middleware.ValidatorMiddleware.Header` | src/validator-middleware.ts:117-132 | The loop ends as `HeaderRules`. |
| `Middleware.ValidatorMiddleware.IterateValidators` | src/validator-middleware.ts:140-157 | The nested loops end as `BodyRules`. |
| `Middleware.ValidatorMiddleware.Body` | src/validator-middleware.ts:66-80 | Ends as `BodyMiddleware`: an empty text is reported, otherwise the parsed body is installed and the rules run. |
| `Middleware.ValidatorMiddleware.Form` | src/validator-middleware.ts:91-106 | Ends as `FormMiddleware`: a form without entries reports `Invalid form data`. |

## Left out

- Asynchrony and the framework are not modelled: `await request.body.text()`, `formData()`, the Oak context, the `bind` calls of `createMiddleware` and the factories `createValidator`/`createSanitizer`. `next()` is the `Next` outcome.
- `JSON.parse` and its SyntaxError are not modelled. `Body` receives the body text and the parsed value.
- Form entries are text only. File entries are not modelled.
- `URLSearchParams` and `Headers` are maps. Repeated parameters and case-insensitive header names are not modelled.
- The single-descriptor form of `args` is not modelled. Rules are always a sequence.
- `ValidatorSanitizer.ReplaceEmptySearch`: `split('')` is modelled as one part per character. JavaScript splits into UTF-16 code units, so it cuts a character outside the Basic Multilingual Plane between its surrogates and puts the replacement there. Dafny characters cannot hold a lone surrogate, so strings with such characters are not covered.
- `JsValue.Lookup`: a string's `length` counts UTF-16 code units, but a numeric index into a string counts characters. For a string with a character outside the Basic Multilingual Plane, indices past that character differ from JavaScript.
- Numbers are integers. `NaN`, fractions and float bounds are not modelled.
- `JsValue.Lookup`: prototype members such as `constructor`, `toString` or `__proto__` are not modelled. An object without such an own key reads them as `undefined`.
- `ValidatorFn.CheckLength`: a non-number `length` property that converts without throwing is treated as comparing false with every bound. JavaScript compares the converted number, so `{"length": "10"}` fails `max: 5` in JavaScript but passes in the model. A conversion that throws is modelled.
- `PathResolver.WriteBack`: an array body written under a non-index key, or under an index past its end, is left unchanged. In JavaScript such a write adds a named property or leaves holes, neither of which `Node` can represent. On an object body without an own `__proto__` entry, the key `"__proto__"` reaches the prototype setter: a primitive is ignored, and an object or `null` replaces the prototype. The model adds an ordinary entry instead. The key `"length"` is a special case: JavaScript truncates or extends the array, or throws a RangeError for an invalid length. That is not modelled either.
- Regular expressions and number parsing are oracles on the tested value: `hasAllowedCharacters`, `matches` and `isNumeric`. The RegExp built from `allowedChars` may throw when it is compiled, and a `g`-flagged pattern carries `lastIndex` state. Neither is modelled.
- Custom predicates, sanitizers and error handlers are total functions. Their side effects and exceptions are not modelled.
- `toLowerCase`/`toUpperCase`: ASCII letters only. The `i` flag of `isUrl`'s pattern folds only ASCII for these schemes.
- `Middleware.ValidatorMiddleware.Header`: rules are full descriptors. A sanitizer on a header rule is ignored, as in the source.
- `ValidatorMiddleware extends ValidatorBuilder` (src/validator-middleware.ts:7) is modelled as two classes, `RuleBuilder.ValidatorBuilder` and `Middleware.ValidatorMiddleware`, with no inheritance between them. The middleware does not inherit the builder's methods in the model.
