/** The four age predicates. Each ignores a field that is not a datetime,
    converts the rule value with `int()` (a failed conversion gives false),
    subtracts that many days (months count as 30 days) from the clock value
    `now`, and compares strictly. The predicates catch ValueError and
    TypeError only: the OverflowError that the subtraction raises for a day
    count out of range escapes to the caller. */
module DatePredicates {
  import opened Wrappers
  import opened Values
  import DateTime

  const LessThanDaysName: string := "less_than_days"
  const GreaterThanDaysName: string := "greater_than_days"
  const LessThanMonthsName: string := "less_than_months"
  const GreaterThanMonthsName: string := "greater_than_months"

  /** The threshold `now - timedelta(days=days)` is well defined and the
      field lies after (`newer`) or before it. */
  predicate Beyond(field: FieldValue, days: int, now: DateTime.Instant, newer: bool) {
    && field.FTime?
    && -DateTime.MaxDeltaDays <= days <= DateTime.MaxDeltaDays
    && 0 <= now - days * DateTime.DayMicros <= DateTime.MaxMicros
    && (if newer then field.instant > now - days * DateTime.DayMicros
        else field.instant < now - days * DateTime.DayMicros)
  }

  /** Received within the last `value` days. */
  function LessThanDays(field: FieldValue, value: RuleValue, now: DateTime.Instant): (r: Result<bool>)
    ensures r == Ok(true) <==> RuleInt(value).Some? && Beyond(field, RuleInt(value).value, now, true)
    ensures r.Raise? ==> r.error.OverflowError?
    ensures r.Raise? <==> field.FTime? && RuleInt(value).Some? && DateTime.MinusDays(now, RuleInt(value).value).Raise?
  {
    if !field.FTime? then Ok(false)
    else
      match RuleInt(value)
      case None => Ok(false)
      case Some(days) =>
        match DateTime.MinusDays(now, days)
        case Raise(e) => Raise(e)
        case Ok(threshold) => Ok(field.instant > threshold)
  }

  /** Received more than `value` days ago. */
  function GreaterThanDays(field: FieldValue, value: RuleValue, now: DateTime.Instant): (r: Result<bool>)
    ensures r == Ok(true) <==> RuleInt(value).Some? && Beyond(field, RuleInt(value).value, now, false)
    ensures r.Raise? ==> r.error.OverflowError?
    ensures r.Raise? <==> field.FTime? && RuleInt(value).Some? && DateTime.MinusDays(now, RuleInt(value).value).Raise?
  {
    if !field.FTime? then Ok(false)
    else
      match RuleInt(value)
      case None => Ok(false)
      case Some(days) =>
        match DateTime.MinusDays(now, days)
        case Raise(e) => Raise(e)
        case Ok(threshold) => Ok(field.instant < threshold)
  }

  /** Received within the last `value` months of 30 days. */
  function LessThanMonths(field: FieldValue, value: RuleValue, now: DateTime.Instant): (r: Result<bool>)
    ensures r == Ok(true) <==> RuleInt(value).Some? && Beyond(field, RuleInt(value).value * 30, now, true)
    ensures r.Raise? ==> r.error.OverflowError?
    ensures r.Raise? <==> field.FTime? && RuleInt(value).Some? && DateTime.MinusDays(now, RuleInt(value).value * 30).Raise?
  {
    if !field.FTime? then Ok(false)
    else
      match RuleInt(value)
      case None => Ok(false)
      case Some(months) =>
        match DateTime.MinusDays(now, months * 30)
        case Raise(e) => Raise(e)
        case Ok(threshold) => Ok(field.instant > threshold)
  }

  /** Received more than `value` months of 30 days ago. */
  function GreaterThanMonths(field: FieldValue, value: RuleValue, now: DateTime.Instant): (r: Result<bool>)
    ensures r == Ok(true) <==> RuleInt(value).Some? && Beyond(field, RuleInt(value).value * 30, now, false)
    ensures r.Raise? ==> r.error.OverflowError?
    ensures r.Raise? <==> field.FTime? && RuleInt(value).Some? && DateTime.MinusDays(now, RuleInt(value).value * 30).Raise?
  {
    if !field.FTime? then Ok(false)
    else
      match RuleInt(value)
      case None => Ok(false)
      case Some(months) =>
        match DateTime.MinusDays(now, months * 30)
        case Raise(e) => Raise(e)
        case Ok(threshold) => Ok(field.instant < threshold)
  }

  /** A field that is not a datetime, or a value that `int()` rejects,
      makes all four predicates false without raising. */
  lemma MalformedIsFalse(field: FieldValue, value: RuleValue, now: DateTime.Instant)
    requires !field.FTime? || RuleInt(value).None?
    ensures LessThanDays(field, value, now) == Ok(false)
    ensures GreaterThanDays(field, value, now) == Ok(false)
    ensures LessThanMonths(field, value, now) == Ok(false)
    ensures GreaterThanMonths(field, value, now) == Ok(false)
  {
  }

  /** For one clock value, "newer than N days" and "older than N days" never
      both hold; for a datetime, an integer N and a defined threshold, one of
      them holds exactly when the field is not at the threshold itself. */
  lemma DaysExclusive(field: FieldValue, value: RuleValue, now: DateTime.Instant)
    ensures !(LessThanDays(field, value, now) == Ok(true) && GreaterThanDays(field, value, now) == Ok(true))
    ensures field.FTime? && RuleInt(value).Some?
            && field.instant == now - RuleInt(value).value * DateTime.DayMicros
            ==> LessThanDays(field, value, now) == GreaterThanDays(field, value, now) == Ok(false)
    ensures field.FTime? && RuleInt(value).Some? && DateTime.MinusDays(now, RuleInt(value).value).Ok?
            && field.instant != now - RuleInt(value).value * DateTime.DayMicros
            ==> LessThanDays(field, value, now) == Ok(true) || GreaterThanDays(field, value, now) == Ok(true)
  {
  }

  /** `N` months behave exactly as `30 * N` days. */
  lemma MonthsAreThirtyDays(field: FieldValue, value: RuleValue, now: DateTime.Instant)
    ensures RuleInt(value).Some? ==>
      && LessThanMonths(field, value, now) == LessThanDays(field, RInt(30 * RuleInt(value).value), now)
      && GreaterThanMonths(field, value, now) == GreaterThanDays(field, RInt(30 * RuleInt(value).value), now)
  {
  }

  /** Widening the window keeps a recent email recent, and narrowing it
      keeps an old email old, as long as the new threshold is defined. */
  lemma DaysMonotone(field: FieldValue, days: int, wider: int, now: DateTime.Instant)
    requires days <= wider
    ensures LessThanDays(field, RInt(days), now) == Ok(true) && DateTime.MinusDays(now, wider).Ok?
            ==> LessThanDays(field, RInt(wider), now) == Ok(true)
    ensures GreaterThanDays(field, RInt(wider), now) == Ok(true) && DateTime.MinusDays(now, days).Ok?
            ==> GreaterThanDays(field, RInt(days), now) == Ok(true)
  {
  }

  /** A day or month count beyond `timedelta`'s limit makes the predicates
      raise OverflowError rather than return false. */
  lemma HugeCountRaises(instant: DateTime.Instant, n: int, now: DateTime.Instant)
    requires n < -DateTime.MaxDeltaDays || DateTime.MaxDeltaDays < n
    ensures LessThanDays(FTime(instant), RInt(n), now).Raise?
    ensures GreaterThanDays(FTime(instant), RInt(n), now).Raise?
    ensures LessThanMonths(FTime(instant), RInt(n), now).Raise?
    ensures GreaterThanMonths(FTime(instant), RInt(n), now).Raise?
  {
  }
}
