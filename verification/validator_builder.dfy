/**
 * The fluent rule builder (`ValidatorBuilder`). The builder keeps one mutable
 * rule record, the cursor: `check` replaces it with a fresh record, the chained
 * calls set its fields one by one, and the terminal calls hand the record itself
 * out, so a later chained call still changes a record handed out earlier.
 */
module RuleBuilder {
  import opened JsValue
  import opened ValidatorFn
  import opened ValidatorSanitizer

  /**
   * A rule descriptor as a value: the key (a dotted path for bodies), the
   * predicates and sanitizers when set, whether an empty value is allowed, and
   * the message that replaces every default text.
   */
  datatype Params = Params(
    key: string,
    validators: Option<seq<Predicate>>,
    sanitizer: Option<seq<Sanitizer>>,
    optional: bool,
    message: Option<string>)

  /** The rule record the builder hands out; its fields can change after it is handed out. */
  class Rule {
    var key: string
    var validators: Option<seq<Predicate>>
    var sanitizer: Option<seq<Sanitizer>>
    var optional: bool
    var message: Option<string>

    /** `{ key, message }`: every other field unset. */
    constructor (key: string, message: Option<string>)
      ensures Snapshot() == Params(key, None, None, false, message)
    {
      this.key := key;
      this.validators := None;
      this.sanitizer := None;
      this.optional := false;
      this.message := message;
    }

    /** The record's current contents. */
    function Snapshot(): Params
      reads this
    {
      Params(key, validators, sanitizer, optional, message)
    }
  }

  class ValidatorBuilder {
    /** The record being built (`_validator`). */
    var cursor: Rule

    /** A new builder starts from the record `{ key: '' }`. */
    constructor ()
      ensures fresh(cursor)
      ensures cursor.Snapshot() == Params("", None, None, false, None)
    {
      cursor := new Rule("", None);
    }

    /**
     * `check(key, message)`: starts a new rule. The cursor becomes a fresh
     * record holding only the key and the message; the record it replaces, which
     * may have been handed out, keeps its contents.
     */
    method Check(key: string, message: Option<string>) returns (self: ValidatorBuilder)
      modifies this
      ensures self == this
      ensures fresh(cursor)
      ensures cursor.Snapshot() == Params(key, None, None, false, message)
      ensures old(cursor).Snapshot() == old(cursor.Snapshot())
    {
      cursor := new Rule(key, message);
      self := this;
    }

    /** `maybe()`: marks the current rule optional and continues the chain. */
    method Maybe() returns (self: ValidatorBuilder)
      modifies cursor
      ensures self == this && cursor == old(cursor)
      ensures cursor.Snapshot() == old(cursor.Snapshot()).(optional := true)
    {
      cursor.optional := true;
      self := this;
    }

    /** `sanitizeWith(...sanitizers)`: replaces the sanitizer list wholesale and continues the chain. */
    method SanitizeWith(sanitizers: seq<Sanitizer>) returns (self: ValidatorBuilder)
      modifies cursor
      ensures self == this && cursor == old(cursor)
      ensures cursor.Snapshot() == old(cursor.Snapshot()).(sanitizer := Some(sanitizers))
    {
      cursor.sanitizer := Some(sanitizers);
      self := this;
    }

    /** `ifValue(...validators)`: sets the predicates and hands out the current record itself. */
    method IfValue(validators: seq<Predicate>) returns (rule: Rule)
      modifies cursor
      ensures rule == cursor && cursor == old(cursor)
      ensures rule.Snapshot() == old(cursor.Snapshot()).(validators := Some(validators))
    {
      cursor.validators := Some(validators);
      rule := cursor;
    }

    /**
     * `exists(message)`: overwrites the message, with `None` too, so the message
     * given to `check` is lost; hands out the current record itself.
     */
    method Exists(message: Option<string>) returns (rule: Rule)
      modifies cursor
      ensures rule == cursor && cursor == old(cursor)
      ensures rule.Snapshot() == old(cursor.Snapshot()).(message := message)
    {
      cursor.message := message;
      rule := cursor;
    }

    /** `isOptional(message)`: marks the rule optional, overwrites the message, hands out the record. */
    method IsOptional(message: Option<string>) returns (rule: Rule)
      modifies cursor
      ensures rule == cursor && cursor == old(cursor)
      ensures rule.Snapshot() == old(cursor.Snapshot()).(optional := true, message := message)
    {
      cursor.optional := true;
      cursor.message := message;
      rule := cursor;
    }
  }

  /**
   * `check(key, m).exists()` loses `m`, and a `maybe()` issued afterwards, before
   * the next `check`, makes the rule already handed out optional; a following
   * `check` leaves that rule alone.
   */
  method ExistsThenMaybe(key: string, m: string) returns (issued: Params, later: Params, final: Params)
    ensures issued == Params(key, None, None, false, None)
    ensures later == issued.(optional := true)
    ensures final == later
  {
    var b := new ValidatorBuilder();
    var _ := b.Check(key, Some(m));
    var rule := b.Exists(None);
    issued := rule.Snapshot();
    var _ := b.Maybe();
    later := rule.Snapshot();
    var _ := b.Check("other", None);
    var _ := b.Maybe();
    final := rule.Snapshot();
  }

  /**
   * A chain `check(key).maybe().sanitizeWith(a).sanitizeWith(b).ifValue(ps)`
   * yields a rule with only the last sanitizer list, the predicates and the
   * optional flag, and no message.
   */
  method ChainedRule(key: string, a: seq<Sanitizer>, b: seq<Sanitizer>, ps: seq<Predicate>) returns (rule: Params)
    ensures rule == Params(key, Some(ps), Some(b), true, None)
  {
    var builder := new ValidatorBuilder();
    var s := builder.Check(key, None);
    s := s.Maybe();
    s := s.SanitizeWith(a);
    s := s.SanitizeWith(b);
    var r := s.IfValue(ps);
    rule := r.Snapshot();
  }
}
