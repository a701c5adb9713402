/** The values a predicate compares: what an email attribute holds, and
    what a rule's JSON condition supplies, with Python's `str()` and
    `int()` conversions of each. */
module Values {
  import opened Wrappers
  import Text
  import DateTime

  /** An email attribute read with `getattr`: a nullable text column or a
      nullable `DateTime` column. */
  datatype FieldValue = FNull | FText(text: string) | FTime(instant: DateTime.Instant)

  /** A JSON scalar from the rules file (`null`, a boolean, an integer or a
      string). */
  datatype RuleValue = RNull | RBool(flag: bool) | RInt(number: int) | RText(text: string)

  /** `str(field_value)` for a non-`None` field: a text column is its own
      rendering, and a datetime renders as `str(datetime)`. */
  function FieldText(v: FieldValue): (r: string)
    requires !v.FNull?
    ensures v.FText? ==> r == v.text
    ensures v.FTime? ==> r == DateTime.DateText(v.instant)
  {
    match v
    case FText(s) => s
    case FTime(t) => DateTime.DateText(t)
  }

  /** `str(rule_value)`; note that `str(None)` is `"None"` and a boolean
      renders as `"True"` or `"False"`. A string is its own rendering, and
      the rendering of an integer reads back as that integer. */
  function RuleText(v: RuleValue): (r: string)
    ensures v.RNull? ==> r == "None"
    ensures v.RBool? ==> r == if v.flag then "True" else "False"
    ensures v.RText? ==> r == v.text
    ensures v.RInt? ==> Text.ParseInt(r) == Some(v.number)
  {
    match v
    case RNull => "None"
    case RBool(b) => if b then "True" else "False"
    case RInt(n) => Text.IntRoundTrip(n); Text.IntToString(n)
    case RText(s) => s
  }

  /** `int(rule_value)`: `None` where Python raises ValueError (a string
      that is not an integer literal) or TypeError (`None`). For a number or
      a string it agrees with `int(str(rule_value))`; a boolean converts to
      0 or 1. */
  function RuleInt(v: RuleValue): (r: Option<int>)
    ensures v.RNull? ==> r.None?
    ensures v.RInt? || v.RText? ==> r == Text.ParseInt(RuleText(v))
    ensures v.RBool? ==> r == Some(if v.flag then 1 else 0)
  {
    match v
    case RNull => None
    case RBool(b) => Some(if b then 1 else 0)
    case RInt(n) => Some(n)
    case RText(s) => Text.ParseInt(s)
  }

  /** An integer rendered as a JSON string converts back to that integer. */
  lemma RuleIntOfText(n: int)
    ensures RuleInt(RText(Text.IntToString(n))) == Some(n)
  {
    Text.IntRoundTrip(n);
  }
}
