/** The name-keyed registry of predicate classes. The registry is a dict
    from name to class that module initialisation fills with the eight
    built-in predicates; `names` keeps the dict's key order. */
module PredicateFactory {
  import opened Wrappers
  import opened Values
  import DateTime
  import opened Registries
  import StringPredicates
  import DatePredicates

  /** The built-in predicate classes. */
  datatype PredicateClass =
    | ContainsPredicate
    | DoesNotContainPredicate
    | EqualsPredicate
    | DoesNotEqualPredicate
    | LessThanDaysPredicate
    | GreaterThanDaysPredicate
    | LessThanMonthsPredicate
    | GreaterThanMonthsPredicate
  {
    /** `get_name()` of an instance: the key the class is registered under,
        one of the eight names module load registers. */
    function GetName(): (r: string)
      ensures r == "contains" || r == "does_not_contain" || r == "equals" || r == "does_not_equal"
           || r == "less_than_days" || r == "greater_than_days" || r == "less_than_months" || r == "greater_than_months"
    {
      match this
      case ContainsPredicate => StringPredicates.ContainsName
      case DoesNotContainPredicate => StringPredicates.DoesNotContainName
      case EqualsPredicate => StringPredicates.EqualsName
      case DoesNotEqualPredicate => StringPredicates.DoesNotEqualName
      case LessThanDaysPredicate => DatePredicates.LessThanDaysName
      case GreaterThanDaysPredicate => DatePredicates.GreaterThanDaysName
      case LessThanMonthsPredicate => DatePredicates.LessThanMonthsName
      case GreaterThanMonthsPredicate => DatePredicates.GreaterThanMonthsName
    }

    /** `evaluate(field_value, rule_value)` of an instance, with the clock
        value `now`: each class decides by its own predicate, and only
        OverflowError, from a date class, can escape it. */
    function Evaluate(field: FieldValue, value: RuleValue, now: DateTime.Instant): (r: Result<bool>)
      ensures r.Raise? ==> r.error.OverflowError? && (this.LessThanDaysPredicate? || this.GreaterThanDaysPredicate?
                                                        || this.LessThanMonthsPredicate? || this.GreaterThanMonthsPredicate?)
      ensures this.ContainsPredicate? ==> r == Ok(StringPredicates.Contains(field, value))
      ensures this.DoesNotContainPredicate? ==> r == Ok(StringPredicates.DoesNotContain(field, value))
      ensures this.EqualsPredicate? ==> r == Ok(StringPredicates.Equals(field, value))
      ensures this.DoesNotEqualPredicate? ==> r == Ok(StringPredicates.DoesNotEqual(field, value))
      ensures this.LessThanDaysPredicate? ==> r == DatePredicates.LessThanDays(field, value, now)
      ensures this.GreaterThanDaysPredicate? ==> r == DatePredicates.GreaterThanDays(field, value, now)
      ensures this.LessThanMonthsPredicate? ==> r == DatePredicates.LessThanMonths(field, value, now)
      ensures this.GreaterThanMonthsPredicate? ==> r == DatePredicates.GreaterThanMonths(field, value, now)
    {
      match this
      case ContainsPredicate => Ok(StringPredicates.Contains(field, value))
      case DoesNotContainPredicate => Ok(StringPredicates.DoesNotContain(field, value))
      case EqualsPredicate => Ok(StringPredicates.Equals(field, value))
      case DoesNotEqualPredicate => Ok(StringPredicates.DoesNotEqual(field, value))
      case LessThanDaysPredicate => DatePredicates.LessThanDays(field, value, now)
      case GreaterThanDaysPredicate => DatePredicates.GreaterThanDays(field, value, now)
      case LessThanMonthsPredicate => DatePredicates.LessThanMonths(field, value, now)
      case GreaterThanMonthsPredicate => DatePredicates.GreaterThanMonths(field, value, now)
    }
  }

  /** The names module load registers, in order. */
  const BuiltinNames: seq<string> := [
    "contains", "does_not_contain", "equals", "does_not_equal",
    "less_than_days", "greater_than_days", "less_than_months", "greater_than_months"
  ]

  /** The registry after the module-level registrations. */
  function LoadedRegistry(): Registry<PredicateClass> {
    Registries.Empty()
      .Assign(ContainsPredicate.GetName(), ContainsPredicate)
      .Assign(DoesNotContainPredicate.GetName(), DoesNotContainPredicate)
      .Assign(EqualsPredicate.GetName(), EqualsPredicate)
      .Assign(DoesNotEqualPredicate.GetName(), DoesNotEqualPredicate)
      .Assign(LessThanDaysPredicate.GetName(), LessThanDaysPredicate)
      .Assign(GreaterThanDaysPredicate.GetName(), GreaterThanDaysPredicate)
      .Assign(LessThanMonthsPredicate.GetName(), LessThanMonthsPredicate)
      .Assign(GreaterThanMonthsPredicate.GetName(), GreaterThanMonthsPredicate)
  }

  /** `get_predicate(name)` against a registry: an instance of the class
      registered under `name`, or ValueError. The action factory has the
      same shape, as the two factories do in the program. */
  function Lookup(registry: Registry<PredicateClass>, name: string): (r: Result<PredicateClass>)
    ensures r.Ok? <==> name in registry.entries
    ensures r.Ok? ==> r.value == registry.entries[name]
    ensures r.Raise? ==> r.error == ValueError("Unknown predicate: " + name)
  {
    match registry.Get(name)
    case Some(c) => Ok(c)
    case None => Raise(ValueError("Unknown predicate: " + name))
  }

  /** No two predicate classes share a name, so registering them all keeps
      every one. */
  lemma NamesIdentify(c1: PredicateClass, c2: PredicateClass)
    ensures c1.GetName() == c2.GetName() <==> c1 == c2
  {
  }

  /** The registry after module load, written out. */
  lemma LoadedRegistryIs()
    ensures LoadedRegistry() == Registry(
      map[
        "contains" := ContainsPredicate, "does_not_contain" := DoesNotContainPredicate,
        "equals" := EqualsPredicate, "does_not_equal" := DoesNotEqualPredicate,
        "less_than_days" := LessThanDaysPredicate, "greater_than_days" := GreaterThanDaysPredicate,
        "less_than_months" := LessThanMonthsPredicate, "greater_than_months" := GreaterThanMonthsPredicate
      ],
      BuiltinNames)
  {
  }

  /** Every registration keeps each name listed once. */
  lemma LoadedValid()
    ensures LoadedRegistry().Valid()
  {
    var r := Registries.Empty<PredicateClass>();
    Registries.AssignPreservesValid(r, ContainsPredicate.GetName(), ContainsPredicate);
    r := r.Assign(ContainsPredicate.GetName(), ContainsPredicate);
    Registries.AssignPreservesValid(r, DoesNotContainPredicate.GetName(), DoesNotContainPredicate);
    r := r.Assign(DoesNotContainPredicate.GetName(), DoesNotContainPredicate);
    Registries.AssignPreservesValid(r, EqualsPredicate.GetName(), EqualsPredicate);
    r := r.Assign(EqualsPredicate.GetName(), EqualsPredicate);
    Registries.AssignPreservesValid(r, DoesNotEqualPredicate.GetName(), DoesNotEqualPredicate);
    r := r.Assign(DoesNotEqualPredicate.GetName(), DoesNotEqualPredicate);
    Registries.AssignPreservesValid(r, LessThanDaysPredicate.GetName(), LessThanDaysPredicate);
    r := r.Assign(LessThanDaysPredicate.GetName(), LessThanDaysPredicate);
    Registries.AssignPreservesValid(r, GreaterThanDaysPredicate.GetName(), GreaterThanDaysPredicate);
    r := r.Assign(GreaterThanDaysPredicate.GetName(), GreaterThanDaysPredicate);
    Registries.AssignPreservesValid(r, LessThanMonthsPredicate.GetName(), LessThanMonthsPredicate);
    r := r.Assign(LessThanMonthsPredicate.GetName(), LessThanMonthsPredicate);
    Registries.AssignPreservesValid(r, GreaterThanMonthsPredicate.GetName(), GreaterThanMonthsPredicate);
  }

  /** Each built-in class is found under its own name. */
  lemma LoadedLookups()
    ensures forall c: PredicateClass :: Lookup(LoadedRegistry(), c.GetName()) == Ok(c)
  {
    LoadedRegistryIs();
    forall c: PredicateClass ensures Lookup(LoadedRegistry(), c.GetName()) == Ok(c) {
      match c
      case ContainsPredicate =>
      case DoesNotContainPredicate =>
      case EqualsPredicate =>
      case DoesNotEqualPredicate =>
      case LessThanDaysPredicate =>
      case GreaterThanDaysPredicate =>
      case LessThanMonthsPredicate =>
      case GreaterThanMonthsPredicate =>
    }
  }

  /** After module load exactly the eight built-in names are registered, in
      source order, each once and each to the class whose `get_name()` it
      is; any other name is unknown. */
  lemma BuiltinsRegistered()
    ensures LoadedRegistry().Valid()
    ensures LoadedRegistry().order == BuiltinNames
    ensures forall c: PredicateClass :: Lookup(LoadedRegistry(), c.GetName()) == Ok(c)
    ensures forall n :: n !in BuiltinNames ==> Lookup(LoadedRegistry(), n) == Raise(ValueError("Unknown predicate: " + n))
  {
    LoadedRegistryIs();
    LoadedValid();
    LoadedLookups();
  }

  /** The predicate class registry; class-level state in the source, so one
      per process. */
  class Factory {
    var registry: Registry<PredicateClass>

    ghost predicate Valid()
      reads this
    {
      registry.Valid()
    }

    constructor ()
      ensures Valid() && registry == Registries.Empty()
    {
      registry := Registries.Empty();
    }

    /** `register(predicate_class)`: store the class under its instance's
        name, replacing any earlier entry of that name, and return it. */
    method Register(predicateClass: PredicateClass) returns (r: PredicateClass)
      requires Valid()
      modifies this
      ensures Valid()
      ensures r == predicateClass
      ensures registry == old(registry).Assign(predicateClass.GetName(), predicateClass)
    {
      Registries.AssignPreservesValid(registry, predicateClass.GetName(), predicateClass);
      registry := registry.Assign(predicateClass.GetName(), predicateClass);
      r := predicateClass;
    }

    /** `get_predicate(name)` */
    method GetPredicate(name: string) returns (r: Result<PredicateClass>)
      ensures r == Lookup(registry, name)
    {
      if name in registry.entries {
        r := Ok(registry.entries[name]);
      } else {
        r := Raise(ValueError("Unknown predicate: " + name));
      }
    }

    /** `get_available_predicates()`: the registered names, each once, in
        registration order. */
    method GetAvailablePredicates() returns (r: seq<string>)
      requires Valid()
      ensures forall n :: n in r <==> n in registry.entries
      ensures Registries.Distinct(r)
      ensures r == registry.order
    {
      r := registry.order;
    }
  }

  /** The module-level registrations. */
  method Load() returns (f: Factory)
    ensures fresh(f) && f.Valid()
    ensures f.registry == LoadedRegistry()
  {
    f := new Factory();
    var registered := f.Register(ContainsPredicate);
    registered := f.Register(DoesNotContainPredicate);
    registered := f.Register(EqualsPredicate);
    registered := f.Register(DoesNotEqualPredicate);
    registered := f.Register(LessThanDaysPredicate);
    registered := f.Register(GreaterThanDaysPredicate);
    registered := f.Register(LessThanMonthsPredicate);
    registered := f.Register(GreaterThanMonthsPredicate);
  }
}
