/** Condition evaluation: each condition whose field is mapped is evaluated
    through the predicate registry, and the booleans are combined with
    `all` or `any`. Only ValueError is caught; any other exception from a
    predicate ends the evaluation and reaches the caller. */
module Conditions {
  import opened Wrappers
  import Text
  import DateTime
  import opened Values
  import opened Records
  import Registries
  import PredicateFactory
  import StringPredicates

  type Predicates = Registries.Registry<PredicateFactory.PredicateClass>

  /** What one condition adds to `results`. */
  datatype Step = Skip | Value(b: bool) | Escape(error: Exception)

  /** One iteration of the condition loop: a condition on an unmapped
      field is skipped; otherwise the predicate named by the condition
      decides (`EvalConditionDecides`), an unknown name counts as false, and
      an exception other than ValueError escapes. */
  function EvalCondition(predicates: Predicates, c: Condition, email: Email, now: DateTime.Instant): (r: Step)
    ensures r.Skip? <==> Resolve(email, c).None?
    ensures r.Escape? ==> !r.error.ValueError?
    ensures Resolve(email, c).Some? && PredicateFactory.Lookup(predicates, PredicateOf(c)).Raise? ==> r == Value(false)
  {
    match Resolve(email, c)
    case None => Skip
    case Some(field) =>
      var evaluated :=
        match PredicateFactory.Lookup(predicates, PredicateOf(c))
        case Raise(e) => Raise(e)
        case Ok(p) => p.Evaluate(field, ConditionValue(c), now);
      match evaluated
      case Ok(b) => Value(b)
      case Raise(e) => if e.ValueError? then Value(false) else Escape(e)
  }

  /** A condition on a mapped field naming a registered predicate gets
      that predicate's verdict; a ValueError from it counts as false, and
      any other exception escapes. */
  lemma EvalConditionDecides(predicates: Predicates, c: Condition, email: Email, now: DateTime.Instant)
    ensures Resolve(email, c).Some? && PredicateFactory.Lookup(predicates, PredicateOf(c)).Ok? ==>
              var e := PredicateFactory.Lookup(predicates, PredicateOf(c)).value.Evaluate(Resolve(email, c).value, ConditionValue(c), now);
              EvalCondition(predicates, c, email, now)
              == if e.Ok? then Value(e.value) else if e.error.ValueError? then Value(false) else Escape(e.error)
  {
  }

  /** The number of conditions whose field is mapped. */
  function MappedCount(email: Email, cs: seq<Condition>): nat {
    if cs == [] then 0
    else MappedCount(email, cs[..|cs| - 1]) + (if Resolve(email, cs[|cs| - 1]).Some? then 1 else 0)
  }

  /** The `results` list the loop builds, or the exception that escaped
      it. Without an escape there is one result per mapped condition. */
  function Results(predicates: Predicates, cs: seq<Condition>, email: Email, now: DateTime.Instant): (r: Result<seq<bool>>)
    ensures r.Ok? ==> |r.value| == MappedCount(email, cs)
    ensures r.Raise? ==> !r.error.ValueError?
  {
    if cs == [] then Ok([])
    else
      match Results(predicates, cs[..|cs| - 1], email, now)
      case Raise(e) => Raise(e)
      case Ok(rs) =>
        match EvalCondition(predicates, cs[|cs| - 1], email, now)
        case Skip => Ok(rs)
        case Value(b) => Ok(rs + [b])
        case Escape(e) => Raise(e)
  }

  /** Python's `all(results)` */
  function All(rs: seq<bool>): (r: bool)
    ensures r <==> forall i :: 0 <= i < |rs| ==> rs[i]
  {
    rs == [] || (rs[0] && All(rs[1..]))
  }

  /** Python's `any(results)` */
  function Any(rs: seq<bool>): (r: bool)
    ensures r <==> exists i :: 0 <= i < |rs| && rs[i]
  {
    rs != [] && (rs[0] || Any(rs[1..]))
  }

  /** The final combination: `all` needs a non-empty list of true results,
      `any` one true result, and any other combinator never matches. */
  function Combine(kind: string, rs: seq<bool>): (r: bool)
    ensures r <==> || (kind == "all" && rs != [] && forall i :: 0 <= i < |rs| ==> rs[i])
                   || (kind == "any" && exists i :: 0 <= i < |rs| && rs[i])
  {
    if kind == "all" then (if rs != [] then All(rs) else false)
    else if kind == "any" then (if rs != [] then Any(rs) else false)
    else false
  }

  /** `_evaluate_conditions(conditions, predicate_type, email)`. An empty
      list never matches; otherwise every condition is evaluated before the
      combination, so an escaping exception wins even under an unknown
      combinator, and without one the rule matches exactly when `Combine`
      says so. */
  function Match(predicates: Predicates, cs: seq<Condition>, kind: string, email: Email, now: DateTime.Instant): (r: Result<bool>)
    ensures cs == [] ==> r == Ok(false)
    ensures r.Raise? ==> !r.error.ValueError? && Results(predicates, cs, email, now) == Raise(r.error)
    ensures r == Ok(true) ==> (kind == "all" || kind == "any") && MappedCount(email, cs) > 0
    ensures cs != [] && Results(predicates, cs, email, now).Ok? ==>
              r == Ok(Combine(kind, Results(predicates, cs, email, now).value))
    ensures cs != [] && Results(predicates, cs, email, now).Raise? ==>
              r == Raise(Results(predicates, cs, email, now).error)
  {
    if cs == [] then Ok(false)
    else
      match Results(predicates, cs, email, now)
      case Raise(e) => Raise(e)
      case Ok(rs) => Ok(Combine(kind, rs))
  }

  /** Evaluating a list in two parts: the results of the whole are the
      results of the first part followed by those of the second, and an
      exception in the first part ends the evaluation. */
  lemma {:induction false} ResultsAppend(predicates: Predicates, a: seq<Condition>, b: seq<Condition>, email: Email, now: DateTime.Instant)
    ensures Results(predicates, a, email, now).Raise? ==> Results(predicates, a + b, email, now) == Results(predicates, a, email, now)
    ensures Results(predicates, a, email, now).Ok? && Results(predicates, b, email, now).Ok? ==>
              Results(predicates, a + b, email, now)
              == Ok(Results(predicates, a, email, now).value + Results(predicates, b, email, now).value)
    ensures Results(predicates, a, email, now).Ok? && Results(predicates, b, email, now).Raise? ==>
              Results(predicates, a + b, email, now) == Results(predicates, b, email, now)
    decreases |b|
  {
    if b == [] {
      assert a + b == a;
      if Results(predicates, a, email, now).Ok? {
        assert Results(predicates, a, email, now).value + [] == Results(predicates, a, email, now).value;
      }
    } else {
      var b' := b[..|b| - 1];
      assert (a + b)[..|a + b| - 1] == a + b';
      assert (a + b)[|a + b| - 1] == b[|b| - 1];
      ResultsAppend(predicates, a, b', email, now);
      var step := EvalCondition(predicates, b[|b| - 1], email, now);
      if Results(predicates, a, email, now).Ok? && Results(predicates, b', email, now).Ok? && step.Value? {
        var ra := Results(predicates, a, email, now).value;
        var rb := Results(predicates, b', email, now).value;
        assert ra + (rb + [step.b]) == ra + rb + [step.b];
      }
    }
  }

  /** The loop over a prefix one condition longer. */
  lemma ResultsPrefix(predicates: Predicates, cs: seq<Condition>, i: nat, email: Email, now: DateTime.Instant)
    requires i < |cs|
    ensures Results(predicates, cs[..i + 1], email, now)
         == match Results(predicates, cs[..i], email, now)
            case Raise(e) => Raise(e)
            case Ok(rs) =>
              match EvalCondition(predicates, cs[i], email, now)
              case Skip => Ok(rs)
              case Value(b) => Ok(rs + [b])
              case Escape(e) => Raise(e)
  {
    assert cs[..i + 1][..i] == cs[..i];
    assert cs[..i + 1][i] == cs[i];
  }

  /** An exception in a prefix of the list is the outcome of the whole. */
  lemma EscapeEnds(predicates: Predicates, cs: seq<Condition>, i: nat, email: Email, now: DateTime.Instant)
    requires i <= |cs|
    requires Results(predicates, cs[..i], email, now).Raise?
    ensures Results(predicates, cs, email, now) == Results(predicates, cs[..i], email, now)
  {
    assert cs[..i] + cs[i..] == cs;
    ResultsAppend(predicates, cs[..i], cs[i..], email, now);
  }

  /** A condition on an unknown predicate name adds exactly one `False` and
      evaluation goes on with the next condition. */
  lemma UnknownPredicateIsFalse(predicates: Predicates, before: seq<Condition>, c: Condition, after: seq<Condition>, email: Email, now: DateTime.Instant)
    requires Resolve(email, c).Some?
    requires PredicateFactory.Lookup(predicates, PredicateOf(c)).Raise?
    requires Results(predicates, before, email, now).Ok? && Results(predicates, after, email, now).Ok?
    ensures Results(predicates, before + [c] + after, email, now)
         == Ok(Results(predicates, before, email, now).value + [false] + Results(predicates, after, email, now).value)
  {
    ResultsSingle(predicates, c, email, now);
    ResultsAppend(predicates, before, [c], email, now);
    ResultsAppend(predicates, before + [c], after, email, now);
  }

  /** Conditions whose fields are all unmapped leave `results` empty, so
      the rule does not match under any combinator. */
  lemma {:induction false} AllSkippedNeverMatches(predicates: Predicates, cs: seq<Condition>, kind: string, email: Email, now: DateTime.Instant)
    requires forall i :: 0 <= i < |cs| ==> Resolve(email, cs[i]).None?
    ensures Results(predicates, cs, email, now) == Ok([])
    ensures Match(predicates, cs, kind, email, now) == Ok(false)
    decreases |cs|
  {
    if cs != [] {
      assert forall i :: 0 <= i < |cs| - 1 ==> cs[..|cs| - 1][i] == cs[i];
      AllSkippedNeverMatches(predicates, cs[..|cs| - 1], kind, email, now);
    }
  }

  /** With the registry module load builds, a condition on a mapped field
      that names a built-in predicate is decided by that predicate: its
      verdict is the condition's result, and its exception escapes. */
  lemma BuiltinDecides(c: Condition, p: PredicateFactory.PredicateClass, email: Email, now: DateTime.Instant)
    requires Resolve(email, c).Some? && PredicateOf(c) == p.GetName()
    ensures var e := p.Evaluate(Resolve(email, c).value, ConditionValue(c), now);
            EvalCondition(PredicateFactory.LoadedRegistry(), c, email, now)
            == if e.Ok? then Value(e.value) else Escape(e.error)
  {
    PredicateFactory.LoadedLookups();
    EvalConditionDecides(PredicateFactory.LoadedRegistry(), c, email, now);
  }

  /** A single condition contributes exactly its own step. */
  lemma ResultsSingle(predicates: Predicates, c: Condition, email: Email, now: DateTime.Instant)
    ensures Results(predicates, [c], email, now)
         == match EvalCondition(predicates, c, email, now)
            case Skip => Ok([])
            case Value(b) => Ok([b])
            case Escape(e) => Raise(e)
  {
    var single := [c];
    assert single[..|single| - 1] == [] && single[|single| - 1] == c;
    assert Results(predicates, single[..|single| - 1], email, now) == Ok([]);
    assert forall b: bool :: [] + [b] == [b];
  }

  /** A rule of one condition that yields `b` matches, under either
      combinator, exactly when `b` holds. */
  lemma SingleConditionMatches(predicates: Predicates, c: Condition, b: bool, kind: string, email: Email, now: DateTime.Instant)
    requires EvalCondition(predicates, c, email, now) == Value(b)
    requires kind == "all" || kind == "any"
    ensures Match(predicates, [c], kind, email, now) == Ok(b)
  {
    ResultsSingle(predicates, c, email, now);
  }

  /** A rule whose only condition is a `contains` on a mapped field
      matches, under either combinator, exactly when the field contains the
      value. */
  lemma SingleContainsMatches(c: Condition, kind: string, email: Email, now: DateTime.Instant)
    requires Resolve(email, c).Some? && PredicateOf(c) == "contains"
    requires kind == "all" || kind == "any"
    ensures Match(PredicateFactory.LoadedRegistry(), [c], kind, email, now)
         == Ok(StringPredicates.Contains(Resolve(email, c).value, ConditionValue(c)))
  {
    BuiltinDecides(c, PredicateFactory.ContainsPredicate, email, now);
    SingleConditionMatches(PredicateFactory.LoadedRegistry(), c, StringPredicates.Contains(Resolve(email, c).value, ConditionValue(c)), kind, email, now);
  }

  /** The two combinators on the same results: `all` implies `any`, and
      both agree on a single result. */
  lemma AllImpliesAny(rs: seq<bool>)
    ensures Combine("all", rs) ==> Combine("any", rs)
    ensures |rs| == 1 ==> Combine("all", rs) == Combine("any", rs) == rs[0]
  {
    if Combine("all", rs) {
      assert rs[0];
    }
  }
}
