# Gmail rule engine, modelled in Dafny

The program applies rules to the emails stored in its database. A rule has:

- a name;
- a combinator, `all` or `any`;
- a list of conditions;
- a list of actions.

**Conditions.** Each condition names an email field (`from`, `to`, `subject`, `message`, `date_received` or `snippet`), a predicate and a value. There are eight predicates:

- text: `contains`, `does_not_contain`, `equals`, `does_not_equal`;
- date: `less_than_days`, `greater_than_days`, `less_than_months`, `greater_than_months`.

The engine sees predicates and actions only through two registries keyed by name: a predicate factory and an action factory.

**Evaluation.** The engine runs every email against every rule, emails in the outer loop. For each pair it:

1. evaluates the conditions: unmapped fields are skipped, an unknown predicate counts as false, and the results are combined;
2. if the rule matches, runs its actions (`mark_as_read`, `mark_as_unread`, `move_message`), each through the mail client;
3. after each action that ran, updates the stored record;
4. writes one audit-log row when the rule matched (`success` with the action outcomes, or `error` with the message of an exception that escaped from the actions), or when an exception escaped from the conditions (`error`). A rule that does not match writes no row.

**How it is modelled.**

- The predicates, the date arithmetic, `str()`/`lower()`/`int()` and the three actions are pure functions.
- The two registries are classes with a `Registry` field that `Register` updates.
- The engine is a class:
  - it holds the email table as a map and the audit log as a sequence;
  - each loop, and each loop body that does real work, is a method whose new state or result is proved equal to a function in `Conditions`, `Dispatch` or `Runner`;
  - `LogExecution` is proved to append exactly the given row, and the constructor to start from the given table with an empty log;
  - the properties of that behaviour are proved as lemmas about those functions.
- The mail client is an oracle: a function from the call made to the boolean it returns.
- The clock value `now` is a parameter of the run.

Files and modules:

- `wrappers.dfy` (`Wrappers`): `Option`, `Result` and Python's exceptions as data.
- `text.dfy` (`Text`): ASCII `lower()`, substring search, decimal rendering and `int()` parsing of strings.
- `datetime.dfy` (`DateTime`):
  - instants as microseconds since 0001-01-01;
  - `datetime - timedelta(days=N)` with CPython's overflow errors;
  - `str(datetime)`.
- `values.dfy` (`Values`): field values and JSON rule values, with their `str()` and `int()` conversions.
- `string_predicates.dfy`, `date_predicates.dfy`: the eight predicates.
- `registry.dfy` (`Registries`): a dict with its key order.
- `predicate_factory.dfy`, `action_factory.dfy`: the two factories.
- `email_actions.dfy` (`EmailActions`): the three actions and the `**params` call.
- `records.dfy` (`Records`):
  - emails, rules, conditions, action configs and log rows;
  - the defaults the engine applies;
  - `field_mapping`.
- `conditions.dfy` (`Conditions`): `_evaluate_conditions` as functions.
- `dispatch.dfy` (`Dispatch`): `_execute_actions` and `_update_email_state` as functions.
- `runner.dfy` (`Runner`): `_process_single_rule` and `process_rules` as functions.
- `rule_engine.dfy` (`RuleEngine`): the `Engine` class with its loops.

Three behaviours of the code are not what its interfaces suggest, and the model follows the code:

- **Date predicates can raise.** `Predicate.evaluate` is declared to return `bool` (`src/predicates/base.py:7`), and each date predicate wraps its work in a `try`. But the `except` in `src/predicates/date_predicates.py` (lines 15, 31, 47, 63) names only ValueError and TypeError. On lines 13, 29, 45 and 61, building `timedelta(days=N)` raises OverflowError when N is too large for a C int or beyond ±999999999 days, and the subtraction itself raises OverflowError when the result falls outside the `datetime` range. That exception is not caught by the ValueError handler of `_evaluate_conditions` (`src/rule_engine.py:90`), so it reaches line 58 and produces an `error` log row.
- **Action parameters can raise.** The action loop guards each action with its own `try` (`src/rule_engine.py:108-120`), yet `execute(email_id, self.gmail_client, **action_params)` (`src/rule_engine.py:110`) raises TypeError when a parameter is named `self`, `email_id` or `gmail_client`. Only ValueError is caught on line 114, so the TypeError ends `_execute_actions` after the earlier actions have run and updated the record.
- **Labels are not stored locally.** `move_message` moves the message on the mail service, but `_update_email_state` (`src/rule_engine.py:124-135`) writes only `is_read` and `updated_at`, so `move_message` changes no local state.

## Model

| member | source | states |
|---|---|---|
| `Text.LowerForgetsCase` | src/predicates/string_predicates.py:9 | lower-casing is idempotent and forgets any upper-casing, so the predicates ignore letter case |
| `Text.Lower` | src/predicates/string_predicates.py:9 | `lower()` keeps the length, leaves no upper-case ASCII letter, maps each one to its lower-case partner and keeps every other character |
| `Text.IsSubstringIff` | src/predicates/string_predicates.py:9 | the substring test behind Python's `in` holds iff the pattern occurs at some index of the text |
| `Text.IntRoundTrip` | src/predicates/date_predicates.py:12 | `int()` of the decimal rendering of any integer gives that integer back |
| `Text.IntToString` | src/predicates/string_predicates.py:9 | `str(n)` of an int is non-empty, starts with a minus sign exactly when `n` is negative and with a digit otherwise, and is digits after the first character |
| `Text.ParseInt` | src/predicates/date_predicates.py:12 | `int(s)` succeeds only on text that has something besides whitespace, and a negative result comes from a leading minus sign |
| `Text.BlankIsNotInt` | src/predicates/date_predicates.py:12 | `int()` rejects an empty or all-whitespace string |
| `Text.SeparatorIsNotSpace` | src/predicates/date_predicates.py:12 | `int()` does not skip the information separators U+001C and U+001F: a digit preceded by one is rejected |
| `DateTime.DateText` | src/predicates/string_predicates.py:9 | `str()` of a datetime is `YYYY-MM-DD HH:MM:SS`: 19 characters when the microsecond is zero and 26 with `.ffffff` otherwise, with `-`, ` `, `:` and `.` at their places and digits everywhere else; `int()` of the fields gives a valid date and time of day that name the instant (`ReadsBack`) |
| `DateTime.StampReadsBack` | src/predicates/string_predicates.py:9 | the date, clock and fraction texts of an instant, joined, read back as that instant |
| `DateTime.YearOf` | src/predicates/string_predicates.py:9 | the year of a day count and the index within that year: the days of the whole years before it plus the index give the count back |
| `DateTime.MonthOf` | src/predicates/string_predicates.py:9 | the month and day of month of a day of the year: the days of the months before it plus the day of month give the day of the year back, and the day lies within its month |
| `DateTime.MonthsFillYear` | src/predicates/string_predicates.py:9 | the twelve months of a year hold exactly its 365 or 366 days |
| `DateTime.DaysBetweenIsDaysBefore` | src/predicates/string_predicates.py:9 | the days of the years before a given year match the Gregorian closed form `365y + y/4 - y/100 + y/400` |
| `DateTime.YearInRange` | src/predicates/string_predicates.py:9 | every day of the `datetime` range falls in a year of at most four digits |
| `DateTime.Calendar` | src/predicates/string_predicates.py:9 | the year, month and day of a datetime: a valid date from year 1 to 9999 whose day number (`toordinal() - 1`) is the datetime's day |
| `DateTime.CalendarText` | src/predicates/string_predicates.py:9 | the `YYYY-MM-DD` part: ten characters, dashes at 4 and 7, and fields that `int()` reads back as the `Calendar` year, month and day |
| `DateTime.DateFields` | src/predicates/string_predicates.py:9 | a year, month and day written as `YYYY-MM-DD`, each field reading back as its number |
| `DateTime.ClockText` | src/predicates/string_predicates.py:9 | the `HH:MM:SS` part: eight characters, colons at 2 and 5, and fields that `int()` reads back as an hour below 24, a minute and a second below 60 that make up the given second of the day |
| `DateTime.FractionText` | src/predicates/string_predicates.py:9 | the `.ffffff` part: nothing for a zero microsecond, otherwise a dot and six digits that `int()` reads back as the microsecond |
| `Text.ZeroPad` | src/predicates/string_predicates.py:9 | zero-padding gives only digits, exactly `width` of them for a number below `10^width`, and `int()` reads them back as the number |
| `Text.DigitsParseInt` | src/predicates/string_predicates.py:9 | `int()` reads a run of digits, leading zeros included, as the number it denotes |
| `Values.FieldText` | src/predicates/string_predicates.py:9 | `str()` of a text attribute is the text itself, and of a datetime attribute is `DateText` |
| `Values.RuleText` | src/predicates/string_predicates.py:9 | `str()` of a JSON rule value: `None` for null, `True` or `False` for a boolean, the text for a string, and for a number a rendering that `int()` reads back as that number |
| `Values.RuleInt` | src/predicates/date_predicates.py:12 | `int()` of a rule value: fails for null, is `int()` of the rendering for a number or a string, and 1 or 0 for a boolean |
| `Values.RuleIntOfText` | src/predicates/date_predicates.py:12 | a rule value given as the decimal string of a number converts to that number |
| `DateTime.MinusDays` | src/predicates/date_predicates.py:13 | `now - timedelta(days=N)` succeeds iff \|N\| <= 999999999 and the result is within the datetime range, and is then `now` minus N days; every failure is an OverflowError |
| `StringPredicates.Contains` | src/predicates/string_predicates.py:6-9 | false for a `None` field; otherwise true iff the lower-cased `str()` of the value occurs in the lower-cased `str()` of the field |
| `StringPredicates.DoesNotContain` | src/predicates/string_predicates.py:16-19 | true for a `None` field; otherwise exactly the negation of `contains` |
| `StringPredicates.Equals` | src/predicates/string_predicates.py:26-29 | with a `None` field it holds iff the value is `None`; otherwise it holds iff the two `str()` renderings have the same length and agree at every position up to letter case |
| `StringPredicates.EqualsSymmetric` | src/predicates/string_predicates.py:26-29 | for two texts, `equals` does not depend on which one is the field |
| `StringPredicates.EqualsAnyCase` | src/predicates/string_predicates.py:26-29 | a text equals its upper-cased spelling, and its upper-cased spelling equals its lower-cased one |
| `StringPredicates.DoesNotEqual` | src/predicates/string_predicates.py:36-39 | with a `None` field it holds iff the value is not `None`; on every input it is the negation of `equals`, so two texts differ exactly when they disagree somewhere up to case or in length |
| `StringPredicates.EqualsImpliesContains` | src/predicates/string_predicates.py:5-32 | for a non-`None` field, `equals` implies `contains` |
| `StringPredicates.IgnoresCase` | src/predicates/string_predicates.py:5-42 | two fields that agree after lower-casing, compared with two values that agree after lower-casing, give the same result under each of the four predicates |
| `DatePredicates.LessThanDays` | src/predicates/date_predicates.py:6-16 | true iff the value converts to an integer N, the threshold `now - N days` exists and the field is a datetime strictly after it; raises iff the field is a datetime, the value converts and the threshold overflows, and then only OverflowError |
| `DatePredicates.GreaterThanDays` | src/predicates/date_predicates.py:22-32 | true iff the value converts to an integer N, the threshold exists and the field is a datetime strictly before it; raises iff the field is a datetime, the value converts and the threshold overflows, and then only OverflowError |
| `DatePredicates.LessThanMonths` | src/predicates/date_predicates.py:38-48 | as `less_than_days` with the threshold `now - 30*N days`, true and raising under the same conditions |
| `DatePredicates.GreaterThanMonths` | src/predicates/date_predicates.py:54-64 | as `greater_than_days` with the threshold `now - 30*N days`, true and raising under the same conditions |
| `DatePredicates.MalformedIsFalse` | src/predicates/date_predicates.py:6-16 | a field that is not a datetime, or a value `int()` rejects, makes all four predicates false without raising |
| `DatePredicates.DaysExclusive` | src/predicates/date_predicates.py:6-32 | for one `now`, `less_than_days(N)` and `greater_than_days(N)` are never both true; both are false at the threshold itself; and for a datetime away from a defined threshold one of them is true |
| `DatePredicates.MonthsAreThirtyDays` | src/predicates/date_predicates.py:38-64 | `less_than_months(M)` equals `less_than_days(30*M)`, and `greater_than_months(M)` equals `greater_than_days(30*M)` |
| `DatePredicates.DaysMonotone` | src/predicates/date_predicates.py:6-32 | `less_than_days` stays true for a wider window, and `greater_than_days` for a narrower one, whenever `now - N days` is defined for the new N |
| `DatePredicates.HugeCountRaises` | src/predicates/date_predicates.py:11-16 | a day count beyond `timedelta`'s limit of 999999999 days makes all four predicates raise instead of returning false |
| `PredicateFactory.PredicateClass.Evaluate` | src/rule_engine.py:87-88 | an instance's `evaluate` is the predicate of its class: each of the eight classes gives exactly the verdict of `contains`, `does_not_contain`, `equals`, `does_not_equal` or its date predicate; only the date classes can raise, and only OverflowError |
| `PredicateFactory.PredicateClass.GetName` | src/predicates/string_predicates.py:11-12 | each predicate class answers `get_name()` with one of the eight registered names |
| `PredicateFactory.NamesIdentify` | src/predicates/factory.py:38-45 | two predicate classes have the same `get_name()` only if they are the same class, so no registration overwrites another |
| `Registries.Assign` | src/predicates/factory.py:23 | after `d[name] = c` the name maps to `c`, the old key order is a prefix of the new one, and at most one key is added |
| `Registries.Get` | src/predicates/factory.py:28 | `d.get(name)` is absent exactly when the name is not a key, and otherwise the class stored under it |
| `PredicateFactory.Lookup` | src/predicates/factory.py:27-31 | `get_predicate` succeeds exactly for a registered name, with the class registered under it, and otherwise raises ValueError("Unknown predicate: " + name) |
| `Registries.AssignPreservesValid` | src/predicates/factory.py:23 | assigning a name in the registry dict keeps every key listed exactly once in key order |
| `Registries.GetAfterAssign` | src/predicates/factory.py:23 | after an assignment the name finds the new class, other names find what they found before, and re-assigning a name keeps its place in key order |
| `PredicateFactory.LoadedRegistryIs` | src/predicates/factory.py:38-45 | module load leaves exactly the eight names, in registration order, each mapped to its class |
| `PredicateFactory.LoadedValid` | src/predicates/factory.py:38-45 | after module load every registered name is listed once |
| `PredicateFactory.LoadedLookups` | src/predicates/factory.py:38-45 | after module load each built-in class is found under its own `get_name()` |
| `PredicateFactory.BuiltinsRegistered` | src/predicates/factory.py:26-45 | after module load: the names in order, each class under its own name, and ValueError("Unknown predicate: ...") for any other name |
| `PredicateFactory.Factory.constructor` | src/predicates/factory.py:18 | the class-level dict starts empty |
| `PredicateFactory.Factory.Register` | src/predicates/factory.py:21-24 | stores the class under its `get_name()`, overwriting an earlier entry of that name, and returns its argument |
| `PredicateFactory.Factory.GetPredicate` | src/predicates/factory.py:27-31 | the class registered under the name, or ValueError("Unknown predicate: " + name) |
| `PredicateFactory.Factory.GetAvailablePredicates` | src/predicates/factory.py:34-35 | the registered names, each once, in registration order, and no other |
| `PredicateFactory.Load` | src/predicates/factory.py:38-45 | the eight module-level registrations give the loaded registry |
| `EmailActions.Param` | src/actions/email_actions.py:33 | `kwargs.get(key)` is some value iff the key is present, and then it is the value of the key's last occurrence |
| `EmailActions.Execute` | src/actions/email_actions.py:5-43 | one client call on the input id, of the kind the action names; the outcome names the action's `get_name()`, repeats the id, reports the client's answer as `success`, and for `move_message` carries the label sent (default `INBOX`) |
| `EmailActions.ActionClass.GetName` | src/actions/email_actions.py:14-15 | each action class answers `get_name()` with one of the three registered names |
| `EmailActions.NamesIdentify` | src/actions/factory.py:31-33 | two action classes have the same `get_name()` only if they are the same class |
| `EmailActions.FirstReserved` | src/rule_engine.py:110 | finds the first parameter key that names a positional parameter of `execute`, if there is one |
| `EmailActions.Invoke` | src/rule_engine.py:110 | `execute(email_id, client, **params)` raises TypeError iff a parameter key is `self`, `email_id` or `gmail_client`, and otherwise runs the action |
| `EmailActions.MarkIgnoresParams` | src/actions/email_actions.py:6-25 | `mark_as_read` and `mark_as_unread` give the same call and outcome whatever the parameters |
| `EmailActions.ClientOnlyDecidesSuccess` | src/actions/email_actions.py:5-43 | two clients yield the same call, and outcomes that differ at most in `success` |
| `EmailActions.MoveLabel` | src/actions/email_actions.py:33-34 | `move_message` moves to `INBOX` without a `label` parameter, and to the given label with one |
| `ActionFactory.LoadedRegistryIs` | src/actions/factory.py:31-33 | module load leaves exactly `mark_as_read`, `mark_as_unread`, `move_message`, in that order, each mapped to its class |
| `ActionFactory.BuiltinsRegistered` | src/actions/factory.py:19-33 | after module load: the names in order, each listed once, each class under its own name, and ValueError("Unknown action: ...") for any other name |
| `ActionFactory.Lookup` | src/actions/factory.py:20-24 | `get_action` succeeds exactly for a registered name, with the class registered under it, and otherwise raises ValueError("Unknown action: " + name) |
| `ActionFactory.Factory.constructor` | src/actions/factory.py:11 | the class-level dict starts empty |
| `ActionFactory.Factory.Register` | src/actions/factory.py:14-17 | stores the class under its `get_name()`, overwriting an earlier entry of that name, and returns its argument |
| `ActionFactory.Factory.GetAction` | src/actions/factory.py:20-24 | the class registered under the name, or ValueError("Unknown action: " + name) |
| `ActionFactory.Factory.GetAvailableActions` | src/actions/factory.py:27-28 | the registered names, each once, in registration order, and no other |
| `ActionFactory.Load` | src/actions/factory.py:31-33 | the three module-level registrations give the loaded registry |
| `Records.Resolve` | src/rule_engine.py:76-84 | a condition is resolved iff its lower-cased field name is one of the six mapped names, and then it reads the attribute `field_mapping` names: `from` reads `from_address`, `to` reads `to_addresses`, `message` reads `message_body`, and `subject`, `snippet` and `date_received` read their own columns; only `date_received` yields a datetime |
| `Records.ResolveIgnoresCase` | src/rule_engine.py:76-82 | the field name is matched without regard to letter case |
| `Records.MissingFieldSkipped` | src/rule_engine.py:76-82 | a condition without a `field` is skipped |
| `Records.ResolveReadsMappedOnly` | src/rule_engine.py:15-22 | conditions read only the six mapped attributes, never `is_read` or `updated_at` |
| `Records.Attribute` | src/rule_engine.py:84 | `getattr(email, name, None)`: each of the five text columns reads as its own stored text, which may be empty, or as `None` when the column is NULL; `date_received` reads as its datetime, or `None` when NULL; only `date_received` gives a datetime |
| `Records.RuleDefaults` | src/rule_engine.py:42-45 | a missing rule name is "Unnamed Rule", a missing combinator is "all" and a given one is lower-cased, missing condition and action lists are empty, and given ones are used as they are |
| `Records.ConditionDefaults` | src/rule_engine.py:77-78 | a missing predicate name is "" and a missing value is "" |
| `Records.ActionDefaults` | src/rule_engine.py:105-106 | a missing action name is "" and missing parameters are empty |
| `Conditions.EvalCondition` | src/rule_engine.py:74-92 | skips exactly the unmapped conditions; an unknown predicate gives false; only a non-ValueError exception escapes |
| `Conditions.EvalConditionDecides` | src/rule_engine.py:86-92 | a condition on a mapped field naming a registered predicate gets that predicate's `evaluate` verdict; a ValueError from it gives false, and any other exception escapes |
| `Conditions.BuiltinDecides` | src/rule_engine.py:86-89 | with the registry built at module load, a condition naming a built-in predicate is decided by that predicate's class, and its OverflowError escapes |
| `Conditions.ResultsSingle` | src/rule_engine.py:74-92 | a list of one condition yields exactly that condition's step |
| `Conditions.SingleConditionMatches` | src/rule_engine.py:68-97 | a one-condition rule with result `b` matches under `all` or `any` exactly when `b` holds |
| `Conditions.SingleContainsMatches` | src/rule_engine.py:68-97 | with the loaded registry, a rule whose only condition is `contains` on a mapped field matches exactly when the field contains the value |
| `Conditions.Results` | src/rule_engine.py:72-92 | without an escape, one result per mapped condition; an escaping exception is never a ValueError |
| `Conditions.All` | src/rule_engine.py:95 | Python's `all`: true iff every element is true |
| `Conditions.Any` | src/rule_engine.py:97 | Python's `any`: true iff some element is true |
| `Conditions.Combine` | src/rule_engine.py:94-99 | matches iff the combinator is `all` and the results are non-empty and all true, or the combinator is `any` and some result is true; any other combinator never matches |
| `Conditions.Match` | src/rule_engine.py:68-99 | an empty condition list never matches; an exception from a condition escapes as itself and is never a ValueError; otherwise the rule matches exactly when `Combine` accepts the results under the combinator; a match needs `all` or `any` and at least one mapped condition |
| `Conditions.ResultsAppend` | src/rule_engine.py:74-92 | evaluating a list in two parts concatenates their results, and an exception in either part ends the evaluation |
| `Conditions.EscapeEnds` | src/rule_engine.py:74-92 | an exception in the first conditions is the outcome of the whole list |
| `Conditions.UnknownPredicateIsFalse` | src/rule_engine.py:86-92 | an unknown predicate contributes exactly one false, and the conditions after it are still evaluated |
| `Conditions.AllSkippedNeverMatches` | src/rule_engine.py:80-99 | if every field is unmapped, the results are empty and the rule does not match under any combinator |
| `Conditions.AllImpliesAny` | src/rule_engine.py:94-99 | `all` implies `any` on the same results, and the two agree on a single result |
| `Dispatch.UpdateState` | src/rule_engine.py:124-135 | a missing record changes nothing; otherwise `mark_as_read` sets `is_read`, `mark_as_unread` clears it, other names keep it, `updated_at` becomes `now`, and nothing else changes |
| `Dispatch.PerformAction` | src/rule_engine.py:105-120 | an unknown action gives `{action, success: False, error: "Unknown action: ..."}` with no client call; a registered action without a reserved parameter key runs and gives `execute`'s outcome and client call; a reserved key aborts with TypeError |
| `Dispatch.Next` | src/rule_engine.py:104-122 | one iteration appends exactly the outcome of `PerformAction`, or records the exception that aborted it; the outcome is named after the configured action, and only the one record changes and only calls for that email are sent; an action that ran adds its client call and updates the record as `_update_email_state` does, and any other iteration leaves the store and the calls alone; once an exception has escaped, nothing more happens |
| `Dispatch.Run` | src/rule_engine.py:101-122 | one outcome per action config, in order and named after it, unless a TypeError ends the loop; only the dispatched record changes |
| `Dispatch.UnknownActionFails` | src/rule_engine.py:108-120 | an unknown action yields the failed outcome, makes no call, leaves the store unchanged, and the loop goes on |
| `Dispatch.RaisedStops` | src/rule_engine.py:108-122 | after an escaping exception the remaining actions produce no outcome, no call and no update |
| `Dispatch.NoClashRunsAll` | src/rule_engine.py:104-122 | without a clashing parameter key, no exception escapes and every action has its outcome |
| `Dispatch.PerformIgnoresClient` | src/rule_engine.py:109-112 | one action under two clients: the same call or the same exception, and outcomes alike but for `success` |
| `Dispatch.StoreIgnoresClient` | src/rule_engine.py:110-112 | the store, the calls made and where the loop stops do not depend on the client's answers, so the update follows the action name rather than `success` |
| `Dispatch.SingleMarkSetsFlag` | src/rule_engine.py:129-134 | a single `mark_as_read` or `mark_as_unread` on a stored email sets or clears `is_read` and stamps `updated_at`, whatever the client answered |
| `Runner.ApplyRule` | src/rule_engine.py:41-66 | at most one new log row, none exactly when the rule does not match (and then nothing changes); `success` exactly when it matched and no exception escaped, then with one outcome per action; otherwise `error` with no actions and a message; an exception from the conditions logs its message and changes nothing else; on a match the store and calls are those of the action loop, and the row holds its outcomes or the message of the exception that ended it |
| `Runner.ErrorEntry` | src/rule_engine.py:58-66 | the error row of a rule on an email: status `error`, no actions, the exception's message, and the email id, rule name and conditions |
| `Runner.Matches` | src/rule_engine.py:48 | a rule with no conditions never matches; an exception from its conditions escapes as itself and is never a ValueError; otherwise the rule matches exactly when its combinator accepts the condition results |
| `Runner.Actions` | src/rule_engine.py:49 | without an escape, one outcome per configured action; an escaping exception is a TypeError; only the matched email's record can change |
| `Runner.Pairs` | src/rule_engine.py:37-39 | the nested loops visit `\|emails\| * \|rules\|` pairs |
| `Runner.Row` | src/rule_engine.py:38-39 | the inner loop pairs the email with each rule in order |
| `Runner.PairsOrder` | src/rule_engine.py:37-39 | pair number `i * \|rules\| + j` is email `i` with rule `j`, so every pair is visited exactly once, emails outermost |
| `Runner.ApplyAllAppend` | src/rule_engine.py:37-39 | running two batches of pairs one after the other is the same as running them together |
| `Runner.ApplyAll` | src/rule_engine.py:33-39 | a run over a list of pairs only appends to the log, at most one row per pair, only extends the calls made, and keeps the set of stored ids |
| `Runner.NoMatchNoEffect` | src/rule_engine.py:37-66 | if no pair matches, the run changes nothing |
| `RuleEngine.Engine.constructor` | src/rule_engine.py:12-22 | the engine starts with the given table and client, an empty log and no calls made |
| `RuleEngine.Engine.EvaluateCondition` | src/rule_engine.py:76-92 | one iteration of the condition loop gives `Conditions.EvalCondition` |
| `RuleEngine.Engine.EvaluateConditions` | src/rule_engine.py:68-99 | the loop computes `Conditions.Match` |
| `RuleEngine.Engine.UpdateEmailState` | src/rule_engine.py:124-135 | the table becomes `Dispatch.UpdateState` of the old one; the log is unchanged |
| `RuleEngine.Engine.ExecuteAction` | src/rule_engine.py:108-120 | one iteration gives `Dispatch.PerformAction`, and leaves the table, the calls and the outcomes as `Dispatch.Next` of the loop's progress |
| `RuleEngine.Engine.ExecuteActions` | src/rule_engine.py:101-122 | the loop gives the outcomes, table and calls of `Dispatch.Run`, or the exception that ended it |
| `RuleEngine.Engine.LogExecution` | src/rule_engine.py:137-148 | appends exactly one log row with the given fields and changes nothing else |
| `RuleEngine.Engine.ProcessSingleRule` | src/rule_engine.py:41-66 | the engine state becomes `Runner.ApplyRule` of the old one |
| `RuleEngine.Engine.ProcessEmail` | src/rule_engine.py:38-39 | the inner loop gives `Runner.ApplyAll` over the email paired with each rule |
| `RuleEngine.Engine.ProcessRules` | src/rule_engine.py:33-39 | the nested loops give `Runner.ApplyAll` over `Runner.Pairs(emails, rules)` |

## Left out

- `src/gmail_client.py`: the mail service client (OAuth, network, MIME decoding). It is an oracle from the call made to the boolean answer. A client that raises is not modelled.
- The database (`src/db/database.py`, `src/email_repository.py`):
  - it is an in-memory map from id to record;
  - `commit` does nothing;
  - a failing commit is not modelled.
- Columns the engine neither reads nor writes: `thread_id`, `cc`, `bcc`, `labels`, `is_starred`, `has_attachments`, `raw_headers`, `created_at`. Log rows have no generated id and no `executed_at`.
- `process_rules(rules, emails=None)`: the default that queries every stored email is left out; the emails are always given.
- `load_rules_from_file`: file I/O. The model takes rules already parsed.
- The command-line entry points `src/process_rules.py` and `src/fetch_emails.py` are not part of this model. Their `--dry-run` flag never reached the engine.
- The wall clock. One value `now` stands for every `datetime.now()` call of a run, both in the date predicates and in `updated_at`. Time zones are not modelled.
- Text and numbers:
  - `lower()` is ASCII-only;
  - `int()` skips only the six ASCII whitespace characters (space, tab, line feed, vertical tab, form feed, carriage return) and reads ASCII digits only; Python's non-ASCII whitespace (such as U+00A0) and non-ASCII digits are not modelled;
  - Python's 4300-digit limit on integer strings is not modelled;
  - JSON floats and nested JSON values as rule values are not modelled.
- Inputs the model cannot express:
  - action parameter values are strings;
  - a rule field that is not a string (which would make `.lower()` raise outside the `try`) cannot be written;
  - a condition `predicate` or an action `action` that is not a string cannot be written: an unhashable value (a list or an object) would make the factory's `dict.get` raise TypeError inside the `try`, and the engine would log an `error` row;
  - a rule whose `predicate` is `null` or not a string: `.lower()` on `src/rule_engine.py:44` runs before the `try` on line 47, so the AttributeError ends the whole `process_rules` call; the model reads a `null` combinator as a missing one (`all`);
  - a condition whose `field` is `null`: `.lower()` on `src/rule_engine.py:76` raises AttributeError inside the `try` of `_process_single_rule`, which logs an `error` row; the model reads a `null` field as a missing one and skips the condition;
  - an explicit `null` for a rule's `name`, `conditions` or `actions`, or for an action's `params`, cannot be told apart from a missing key, so the model uses the default. The program does not always do so:
    - a `null` `conditions` behaves like a missing one, because `if not conditions` on `src/rule_engine.py:69` returns False;
    - a `null` `name` is logged as `rule_name` None, not "Unnamed Rule" (line 42);
    - on a matching rule, a `null` `actions` (iterated on line 104) raises TypeError, and so does a `params` that is `null` or not an object (`**action_params` on line 110); the TypeError escapes the `except ValueError` and the handler on line 58 logs an `error` row; a `params` that is not an object cannot be written in the model.
- Printing of errors (`print(...)` in the `except` blocks) is left out.
- The local copy of a record is not re-read between rules. This makes no difference: conditions read only the six mapped columns, and the engine writes only `is_read` and `updated_at` (`Records.ResolveReadsMappedOnly`).
