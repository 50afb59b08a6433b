/**
 * The sanitizers of `ValidatorSn`: string rewrites a rule applies, in declared
 * order, to a value that passed its predicates.
 */
module ValidatorSanitizer {
  import JsStrings
  import opened JsValue

  /** A sanitizer as returned by `escape()`, `trim()`, `lowerCase()`, `upperCase()`, `replace(search, replacement)`, or a user function. */
  datatype Sanitizer =
    | Escape
    | Trim
    | LowerCase
    | UpperCase
    | Replace(search: string, replacement: string)
    | Custom(apply: Node -> Node)

  predicate IsBuiltIn(s: Sanitizer) {
    !s.Custom?
  }

  // ---------------------------------------------------------------------------
  // escape

  /** `value.replace(/c/g, rep)` for a pattern that is one literal character */
  function ReplaceGlobal(s: string, c: char, rep: string): string
    decreases |s|
  {
    if s == [] then [] else (if s[0] == c then rep else [s[0]]) + ReplaceGlobal(s[1..], c, rep)
  }

  lemma {:induction false} ReplaceGlobalAppend(a: string, b: string, c: char, rep: string)
    ensures ReplaceGlobal(a + b, c, rep) == ReplaceGlobal(a, c, rep) + ReplaceGlobal(b, c, rep)
    decreases |a|
  {
    if a != [] {
      assert (a + b)[0] == a[0] && (a + b)[1..] == a[1..] + b;
      var head := if a[0] == c then rep else [a[0]];
      assert ReplaceGlobal(a + b, c, rep) == head + ReplaceGlobal(a[1..] + b, c, rep);
      ReplaceGlobalAppend(a[1..], b, c, rep);
    } else {
      assert a + b == b;
    }
  }

  lemma {:induction false} ReplaceGlobalAbsent(s: string, c: char, rep: string)
    requires c !in s
    ensures ReplaceGlobal(s, c, rep) == s
    decreases |s|
  {
    if s != [] {
      ReplaceGlobalAbsent(s[1..], c, rep);
      assert s == [s[0]] + s[1..];
    }
  }

  /** The five-stage chain of `escape()`: `&` first, then `<`, `>`, `"` and `'`. */
  function EscapeText(value: string): string {
    var amp := ReplaceGlobal(value, '&', "&amp;");
    var lt := ReplaceGlobal(amp, '<', "&lt;");
    var gt := ReplaceGlobal(lt, '>', "&gt;");
    var quot := ReplaceGlobal(gt, '"', "&quot;");
    ReplaceGlobal(quot, '\'', "&#x27;")
  }

  /** The entity a single character escapes to. */
  function Entity(c: char): string {
    if c == '&' then "&amp;"
    else if c == '<' then "&lt;"
    else if c == '>' then "&gt;"
    else if c == '"' then "&quot;"
    else if c == '\'' then "&#x27;"
    else [c]
  }

  /** Reference definition: every character replaced by its entity in one pass. */
  function EscapeEach(s: string): string
    decreases |s|
  {
    if s == [] then [] else Entity(s[0]) + EscapeEach(s[1..])
  }

  lemma EscapeTextAppend(a: string, b: string)
    ensures EscapeText(a + b) == EscapeText(a) + EscapeText(b)
  {
    ReplaceGlobalAppend(a, b, '&', "&amp;");
    var a1, b1 := ReplaceGlobal(a, '&', "&amp;"), ReplaceGlobal(b, '&', "&amp;");
    ReplaceGlobalAppend(a1, b1, '<', "&lt;");
    var a2, b2 := ReplaceGlobal(a1, '<', "&lt;"), ReplaceGlobal(b1, '<', "&lt;");
    ReplaceGlobalAppend(a2, b2, '>', "&gt;");
    var a3, b3 := ReplaceGlobal(a2, '>', "&gt;"), ReplaceGlobal(b2, '>', "&gt;");
    ReplaceGlobalAppend(a3, b3, '"', "&quot;");
    var a4, b4 := ReplaceGlobal(a3, '"', "&quot;"), ReplaceGlobal(b3, '"', "&quot;");
    ReplaceGlobalAppend(a4, b4, '\'', "&#x27;");
  }

  lemma ReplaceGlobalOne(c: char, d: char, rep: string)
    ensures ReplaceGlobal([c], d, rep) == if c == d then rep else [c]
  {
    assert [c][1..] == [];
  }

  /** Replacing `&` first means no later stage's entity is escaped again. */
  lemma EscapeTextChar(c: char)
    ensures EscapeText([c]) == Entity(c)
  {
    if c == '&' {
      EscapeAmpersand();
    } else {
      ReplaceGlobalOne(c, '&', "&amp;");
      if c == '<' {
        ReplaceGlobalOne(c, '<', "&lt;");
        LaterStagesKeep("&lt;", 3);
      } else {
        ReplaceGlobalOne(c, '<', "&lt;");
        if c == '>' {
          ReplaceGlobalOne(c, '>', "&gt;");
          LaterStagesKeep("&gt;", 4);
        } else {
          ReplaceGlobalOne(c, '>', "&gt;");
          ReplaceGlobalOne(c, '"', "&quot;");
          ReplaceGlobalOne(c, '\'', "&#x27;");
        }
      }
    }
  }

  lemma EscapeAmpersand()
    ensures EscapeText("&") == "&amp;"
  {
    ReplaceGlobalOne('&', '&', "&amp;");
    LaterStagesKeep("&amp;", 2);
  }

  /** An entity contains none of the characters the stages after its own replace. */
  lemma LaterStagesKeep(e: string, stage: nat)
    requires 2 <= stage <= 4
    requires forall i :: 0 <= i < |e| ==> e[i] !in "<>\"'"
    ensures stage <= 2 ==> ReplaceGlobal(e, '<', "&lt;") == e
    ensures stage <= 3 ==> ReplaceGlobal(e, '>', "&gt;") == e
    ensures ReplaceGlobal(e, '"', "&quot;") == e
    ensures ReplaceGlobal(e, '\'', "&#x27;") == e
  {
    ReplaceGlobalAbsent(e, '<', "&lt;");
    ReplaceGlobalAbsent(e, '>', "&gt;");
    ReplaceGlobalAbsent(e, '"', "&quot;");
    ReplaceGlobalAbsent(e, '\'', "&#x27;");
  }

  /** The chain of five global replacements escapes each character independently. */
  lemma {:induction false} EscapeIsPerCharacter(s: string)
    ensures EscapeText(s) == EscapeEach(s)
    decreases |s|
  {
    if s != [] {
      assert s == [s[0]] + s[1..];
      EscapeTextAppend([s[0]], s[1..]);
      EscapeTextChar(s[0]);
      EscapeIsPerCharacter(s[1..]);
    }
  }

  /** Escaped text contains none of `<`, `>`, `"` and `'`. */
  lemma EscapeRemovesMarkup(s: string)
    ensures forall i :: 0 <= i < |EscapeText(s)| ==> EscapeText(s)[i] !in "<>\"'"
  {
    EscapeIsPerCharacter(s);
    EscapeEachRemovesMarkup(s);
  }

  lemma {:induction false} EscapeEachRemovesMarkup(s: string)
    ensures forall i :: 0 <= i < |EscapeEach(s)| ==> EscapeEach(s)[i] !in "<>\"'"
    decreases |s|
  {
    if s != [] {
      EscapeEachRemovesMarkup(s[1..]);
      var e := Entity(s[0]);
      assert forall i :: 0 <= i < |e| ==> e[i] !in "<>\"'";
      var r := EscapeEach(s);
      assert forall i :: |e| <= i < |r| ==> r[i] == EscapeEach(s[1..])[i - |e|];
    }
  }

  /** Text without any of the five special characters is left unchanged. */
  lemma EscapeKeepsPlainText(s: string)
    requires forall i :: 0 <= i < |s| ==> s[i] !in "&<>\"'"
    ensures EscapeText(s) == s
  {
    EscapeIsPerCharacter(s);
    EscapeEachPlain(s);
  }

  lemma {:induction false} EscapeEachPlain(s: string)
    requires forall i :: 0 <= i < |s| ==> s[i] !in "&<>\"'"
    ensures EscapeEach(s) == s
    decreases |s|
  {
    if s != [] {
      EscapeEachPlain(s[1..]);
      assert s == [s[0]] + s[1..];
    }
  }

  /** Escaping is not idempotent: an already escaped `&` is escaped again. */
  lemma EscapeTwiceDiffers()
    ensures EscapeText(EscapeText("&")) != EscapeText("&")
  {
    EscapeTextChar('&');
    EscapeIsPerCharacter("&amp;");
    assert "&amp;"[1..] == "amp;";
    assert EscapeEach("&amp;") == Entity('&') + EscapeEach("amp;");
    EscapeEachLength("amp;");
  }

  lemma {:induction false} EscapeEachLength(s: string)
    ensures |EscapeEach(s)| >= |s|
    decreases |s|
  {
    if s != [] {
      EscapeEachLength(s[1..]);
    }
  }

  // ---------------------------------------------------------------------------
  // replace

  /** `value.split(search).join(replacement)`; replacing a string by itself changes nothing. */
  function ReplaceText(value: string, search: string, replacement: string): (r: string)
    ensures search == replacement ==> r == value
  {
    JsStrings.JoinSplit(value, search);
    JsStrings.Join(JsStrings.SplitOn(value, search), replacement)
  }

  /** Reference definition: scan left to right, replacing each occurrence and resuming after it. */
  function ReplaceScan(s: string, search: string, rep: string): string
    requires search != []
    decreases |s|
  {
    if s == [] then ""
    else if JsStrings.IsPrefix(search, s) then rep + ReplaceScan(s[|search|..], search, rep)
    else [s[0]] + ReplaceScan(s[1..], search, rep)
  }

  /** With a non-empty search, split/join replaces every non-overlapping occurrence, left to right. */
  lemma {:induction false} ReplaceIsLeftToRightScan(s: string, search: string, rep: string)
    requires search != []
    ensures ReplaceText(s, search, rep) == ReplaceScan(s, search, rep)
    decreases |s|
  {
    if JsStrings.IsPrefix(search, s) {
      var rest := JsStrings.SplitOn(s[|search|..], search);
      ReplaceIsLeftToRightScan(s[|search|..], search, rep);
      assert ([""] + rest)[1..] == rest;
    } else if s != [] {
      var rest := JsStrings.SplitOn(s[1..], search);
      ReplaceIsLeftToRightScan(s[1..], search, rep);
      JsStrings.JoinConsFirst(s[0], rest, rep);
    }
  }

  /** A value in which `search` does not occur is left unchanged. */
  lemma ReplaceAbsent(s: string, search: string, rep: string)
    requires search != [] && !JsStrings.Includes(s, search)
    ensures ReplaceText(s, search, rep) == s
  {
    ReplaceIsLeftToRightScan(s, search, rep);
    ScanAbsent(s, search, rep);
  }

  lemma {:induction false} ScanAbsent(s: string, search: string, rep: string)
    requires search != [] && !JsStrings.Includes(s, search)
    ensures ReplaceScan(s, search, rep) == s
    decreases |s|
  {
    if s != [] {
      ScanAbsent(s[1..], search, rep);
      assert s == [s[0]] + s[1..];
    }
  }

  /** An empty search inserts the replacement between every two adjacent characters. */
  lemma ReplaceEmptySearch(s: string, rep: string)
    ensures ReplaceText(s, "", rep) ==
      if |s| <= 1 then s else [s[0]] + rep + ReplaceText(s[1..], "", rep)
  {
    if |s| > 1 {
      assert JsStrings.Chars(s)[1..] == JsStrings.Chars(s[1..]);
    } else if |s| == 1 {
      assert JsStrings.Chars(s)[0] == [s[0]] && s == [s[0]];
      assert JsStrings.Chars(s) == [s];
    }
  }

  // ---------------------------------------------------------------------------
  // applying sanitizers

  /**
   * Calls one sanitizer on a value. The built-in ones call string methods, so
   * any value that is not a string makes them throw.
   */
  function Apply(s: Sanitizer, v: Node): (r: Completion<Node>)
    ensures IsBuiltIn(s) ==> (r.Normal? <==> v.Str?)
    ensures IsBuiltIn(s) && r.Normal? ==> r.value.Str?
  {
    if s.Custom? then Normal(s.apply(v))
    else if !v.Str? then Thrown
    else Normal(Str(Rewrite(s, v.s)))
  }

  /** The string method a built-in sanitizer calls. */
  function Rewrite(s: Sanitizer, x: string): string
    requires IsBuiltIn(s)
  {
    match s
    case Escape => EscapeText(x)
    case Trim => JsStrings.Trim(x)
    case LowerCase => JsStrings.LowerCase(x)
    case UpperCase => JsStrings.UpperCase(x)
    case Replace(search, rep) => ReplaceText(x, search, rep)
  }

  /**
   * `sanitizers.reduce((v, s) => s(v), value)`; a throwing sanitizer ends the
   * fold. Built-in sanitizers turn a string into a string and never throw on
   * one, and throw on anything else.
   */
  function Sanitize(ss: seq<Sanitizer>, v: Node): (r: Completion<Node>)
    ensures (forall i :: 0 <= i < |ss| ==> IsBuiltIn(ss[i])) && v.Str? ==> r.Normal? && r.value.Str?
    ensures (forall i :: 0 <= i < |ss| ==> IsBuiltIn(ss[i])) && ss != [] && !v.Str? ==> r.Thrown?
    decreases |ss|
  {
    if ss == [] then Normal(v)
    else match Apply(ss[0], v)
      case Thrown => Thrown
      case Normal(w) => Sanitize(ss[1..], w)
  }

  /** The fold applies the sanitizers in declared order: first `a`, then `b` on its result. */
  lemma {:induction false} SanitizeAppend(a: seq<Sanitizer>, b: seq<Sanitizer>, v: Node)
    ensures Sanitize(a + b, v) ==
      match Sanitize(a, v)
      case Thrown => Thrown
      case Normal(w) => Sanitize(b, w)
    decreases |a|
  {
    if a != [] {
      assert (a + b)[0] == a[0] && (a + b)[1..] == a[1..] + b;
      match Apply(a[0], v)
      case Thrown =>
        assert Sanitize(a + b, v) == Thrown;
      case Normal(w) =>
        assert Sanitize(a + b, v) == Sanitize(a[1..] + b, w);
        SanitizeAppend(a[1..], b, w);
    } else {
      assert a + b == b;
    }
  }

  /** Built-in sanitizers map the empty string to the empty string. */
  lemma {:induction false} BuiltInsKeepEmpty(ss: seq<Sanitizer>)
    requires forall i :: 0 <= i < |ss| ==> IsBuiltIn(ss[i])
    ensures Sanitize(ss, Str("")) == Normal(Str(""))
    decreases |ss|
  {
    if ss != [] {
      assert Apply(ss[0], Str("")) == Normal(Str(""));
      BuiltInsKeepEmpty(ss[1..]);
    }
  }

  /** `trim`, `lowerCase` and `upperCase` are idempotent. */
  lemma TrimAndCaseIdempotent(s: Sanitizer, x: string)
    requires s == Trim || s == LowerCase || s == UpperCase
    ensures Apply(s, Str(x)).Normal?
    ensures Sanitize([s, s], Str(x)) == Apply(s, Str(x))
  {
    var y := Apply(s, Str(x)).value;
    assert [s, s][1..] == [s] && [s][1..] == [];
    assert Sanitize([s, s], Str(x)) == Sanitize([s], y);
    assert Sanitize([s], y) == Apply(s, y);
    if s == Trim {
      JsStrings.TrimIdempotent(x);
    } else if s == LowerCase {
      assert JsStrings.LowerCase(y.s) == y.s;
    } else {
      assert JsStrings.UpperCase(y.s) == y.s;
    }
  }

  /**
   * `sanitizeWith(trim(), lowerCase())` on a word padded with two spaces on
   * each side (such as "  HELLOWORLD  ") gives the word in lower case.
   */
  lemma TrimThenLowerCase(h: string)
    requires h != [] && !JsStrings.IsSpace(h[0]) && !JsStrings.IsSpace(h[|h| - 1])
    ensures Sanitize([Trim, LowerCase], Str("  " + h + "  ")) == Normal(Str(JsStrings.LowerCase(h)))
  {
    var x := "  " + h + "  ";
    TrimPadded(h);
    assert Apply(Trim, Str(x)) == Normal(Str(h));
    SanitizeTwo(Trim, LowerCase, Str(x));
  }

  /** The instance itself: "  HELLOWORLD  " folds to "helloworld". */
  lemma HelloWorldFolds()
    ensures Sanitize([Trim, LowerCase], Str("  HELLOWORLD  ")) == Normal(Str("helloworld"))
  {
    var h := "HELLOWORLD";
    PaddedHelloWorld();
    assert !JsStrings.IsSpace(h[0]) && !JsStrings.IsSpace(h[|h| - 1]);
    TrimThenLowerCase(h);
    LowerHelloWorld();
  }

  lemma PaddedHelloWorld()
    ensures "  HELLOWORLD  " == "  " + "HELLOWORLD" + "  "
  {
  }

  lemma LowerHelloWorld()
    ensures JsStrings.LowerCase("HELLOWORLD") == "helloworld"
  {
  }

  lemma SanitizeTwo(a: Sanitizer, b: Sanitizer, v: Node)
    ensures Sanitize([a, b], v) == match Apply(a, v) case Thrown => Thrown case Normal(w) => Apply(b, w)
  {
    assert [a, b][1..] == [b] && [b][1..] == [];
    match Apply(a, v)
    case Thrown =>
    case Normal(w) =>
      match Apply(b, w)
      case Thrown =>
      case Normal(u) => assert Sanitize([b], w) == Sanitize([], u);
  }

  /** Two spaces on either side of a word without whitespace are trimmed away. */
  lemma TrimPadded(h: string)
    requires h != [] && !JsStrings.IsSpace(h[0]) && !JsStrings.IsSpace(h[|h| - 1])
    ensures JsStrings.Trim("  " + h + "  ") == h
  {
    var x := "  " + h + "  ";
    var t := h + "  ";
    assert x[1..] == " " + t && (" " + t)[1..] == t;
    assert x[0] == ' ';
    TrimStartStep(x);
    assert JsStrings.TrimStart(x) == JsStrings.TrimStart(" " + t);
    TrimStartStep(" " + t);
    assert JsStrings.TrimStart(x) == JsStrings.TrimStart(t);
    assert t[0] == h[0];
    TrimStartStep(t);
    assert JsStrings.TrimStart(x) == t;
    assert t[..|t| - 1] == h + " " && (h + " ")[..|h|] == h;
    TrimEndStep(t);
    TrimEndStep(h + " ");
    TrimEndStep(h);
    assert JsStrings.TrimEnd(t) == h;
    assert JsStrings.Trim(x) == JsStrings.TrimEnd(JsStrings.TrimStart(x));
  }

  lemma TrimStartStep(s: string)
    requires s != []
    ensures JsStrings.TrimStart(s) == if JsStrings.IsSpace(s[0]) then JsStrings.TrimStart(s[1..]) else s
  {
  }

  lemma TrimEndStep(s: string)
    requires s != []
    ensures JsStrings.TrimEnd(s) == if JsStrings.IsSpace(s[|s| - 1]) then JsStrings.TrimEnd(s[..|s| - 1]) else s
  {
  }
}
