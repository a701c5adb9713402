/** The stored records the engine reads and writes, and the rules it
    applies, as the rules file's JSON objects after parsing. A key missing
    from a JSON object is `None` here; the engine supplies its defaults. */
module Records {
  import opened Wrappers
  import Text
  import DateTime
  import opened Values
  import EmailActions

  /** A row of the `emails` table, reduced to the columns the engine reads
      or writes. */
  datatype Email = Email(
    id: string,
    fromAddress: Option<string>,
    toAddresses: Option<string>,
    subject: Option<string>,
    messageBody: Option<string>,
    snippet: Option<string>,
    dateReceived: Option<DateTime.Instant>,
    isRead: bool,
    updatedAt: DateTime.Instant)

  /** One condition object: `{field, predicate, value}`; `predicate` names
      the predicate. */
  datatype Condition = Condition(field: Option<string>, predicateName: Option<string>, value: Option<RuleValue>)

  /** One action object: `{action, params}`. */
  datatype ActionConfig = ActionConfig(action: Option<string>, params: Option<EmailActions.Params>)

  /** One rule object: `{name, predicate, conditions, actions}`; `predicate`
      names the combinator, `all` or `any`. */
  datatype Rule = Rule(
    name: Option<string>,
    combinator: Option<string>,
    conditions: Option<seq<Condition>>,
    actions: Option<seq<ActionConfig>>)

  /** `rule.get('name', 'Unnamed Rule')` */
  function RuleName(rule: Rule): string {
    rule.name.GetOr("Unnamed Rule")
  }

  /** `rule.get('predicate', 'all').lower()` */
  function Combinator(rule: Rule): string {
    Text.Lower(rule.combinator.GetOr("all"))
  }

  /** `rule.get('conditions', [])` */
  function RuleConditions(rule: Rule): seq<Condition> {
    rule.conditions.GetOr([])
  }

  /** `rule.get('actions', [])` */
  function RuleActions(rule: Rule): seq<ActionConfig> {
    rule.actions.GetOr([])
  }

  /** `condition.get('predicate', '')` */
  function PredicateOf(c: Condition): string {
    c.predicateName.GetOr("")
  }

  /** `condition.get('value', '')` */
  function ConditionValue(c: Condition): RuleValue {
    c.value.GetOr(RText(""))
  }

  /** `action_config.get('action', '')` */
  function ActionName(a: ActionConfig): string {
    a.action.GetOr("")
  }

  /** `action_config.get('params', {})` */
  function ActionParams(a: ActionConfig): EmailActions.Params {
    a.params.GetOr([])
  }

  /** The defaults of a rule object: a missing `name` is "Unnamed Rule", a
      missing `predicate` is "all", and missing lists are empty; a present
      key gives its value, the combinator lower-cased. */
  lemma RuleDefaults(rule: Rule)
    ensures RuleName(rule) == if rule.name.Some? then rule.name.value else "Unnamed Rule"
    ensures rule.combinator.None? ==> Combinator(rule) == "all"
    ensures rule.combinator.Some? ==> Combinator(rule) == Text.Lower(rule.combinator.value)
    ensures rule.conditions.None? ==> RuleConditions(rule) == []
    ensures rule.actions.None? ==> RuleActions(rule) == []
    ensures rule.conditions.Some? ==> RuleConditions(rule) == rule.conditions.value
    ensures rule.actions.Some? ==> RuleActions(rule) == rule.actions.value
  {
    if rule.combinator.None? {
      assert Text.Lower("all") == "all";
    }
  }

  /** The defaults of a condition object: a missing `predicate` names no
      predicate (""), and a missing `value` is "". */
  lemma ConditionDefaults(c: Condition)
    ensures PredicateOf(c) == if c.predicateName.Some? then c.predicateName.value else ""
    ensures ConditionValue(c) == if c.value.Some? then c.value.value else RText("")
  {
  }

  /** The defaults of an action object: a missing `action` names no action
      (""), and missing `params` are empty. */
  lemma ActionDefaults(a: ActionConfig)
    ensures ActionName(a) == if a.action.Some? then a.action.value else ""
    ensures ActionParams(a) == if a.params.Some? then a.params.value else []
  {
  }

  /** The engine's `field_mapping`: rule field name to record attribute. */
  const FieldMapping: map<string, string> := map[
    "from" := "from_address",
    "to" := "to_addresses",
    "subject" := "subject",
    "message" := "message_body",
    "date_received" := "date_received",
    "snippet" := "snippet"
  ]

  function TextField(s: Option<string>): FieldValue {
    match s
    case None => FNull
    case Some(t) => FText(t)
  }

  /** `v` is what a text column holding `column` reads as: `None` for a
      NULL column, and otherwise its text. */
  predicate ReadsAs(v: FieldValue, column: Option<string>) {
    && (v.FNull? <==> column.None?)
    && (column.Some? ==> v == FText(column.value))
  }

  /** `getattr(email, attr, None)` for a mapped attribute: each text column
      reads as its own text, a NULL column as `None`, and only
      `date_received` reads as a datetime. */
  function Attribute(email: Email, attr: string): (r: FieldValue)
    ensures r.FTime? ==> attr == "date_received" && email.dateReceived == Some(r.instant)
    ensures attr == "date_received" ==> (r.FNull? <==> email.dateReceived.None?)
    ensures r.FText? ==> attr in {"from_address", "to_addresses", "subject", "message_body", "snippet"}
    ensures attr == "from_address" ==> ReadsAs(r, email.fromAddress)
    ensures attr == "to_addresses" ==> ReadsAs(r, email.toAddresses)
    ensures attr == "subject" ==> ReadsAs(r, email.subject)
    ensures attr == "message_body" ==> ReadsAs(r, email.messageBody)
    ensures attr == "snippet" ==> ReadsAs(r, email.snippet)
  {
    match attr
    case "from_address" => TextField(email.fromAddress)
    case "to_addresses" => TextField(email.toAddresses)
    case "subject" => TextField(email.subject)
    case "message_body" => TextField(email.messageBody)
    case "snippet" => TextField(email.snippet)
    case "date_received" => if email.dateReceived.Some? then FTime(email.dateReceived.value) else FNull
    case _ => FNull
  }

  /** The value a condition tests: the attribute its lower-cased field name
      maps to through `field_mapping` (`from` reads `from_address`, `to`
      reads `to_addresses`, `message` reads `message_body`, and the others
      read the column of their own name), or `None` when the name is not
      mapped (the condition is then skipped). Only the six mapped names, in
      any letter case, are resolved, and a date is only ever read from
      `date_received`. */
  function Resolve(email: Email, c: Condition): (r: Option<FieldValue>)
    ensures r.Some? <==> Text.Lower(c.field.GetOr("")) in FieldMapping
    ensures r.Some? && r.value.FTime? ==> Text.Lower(c.field.GetOr("")) == "date_received"
    ensures r.Some? ==> r.value == Attribute(email, FieldMapping[Text.Lower(c.field.GetOr(""))])
    ensures Text.Lower(c.field.GetOr("")) == "from" ==> r.Some? && ReadsAs(r.value, email.fromAddress)
    ensures Text.Lower(c.field.GetOr("")) == "to" ==> r.Some? && ReadsAs(r.value, email.toAddresses)
    ensures Text.Lower(c.field.GetOr("")) == "subject" ==> r.Some? && ReadsAs(r.value, email.subject)
    ensures Text.Lower(c.field.GetOr("")) == "message" ==> r.Some? && ReadsAs(r.value, email.messageBody)
    ensures Text.Lower(c.field.GetOr("")) == "snippet" ==> r.Some? && ReadsAs(r.value, email.snippet)
    ensures Text.Lower(c.field.GetOr("")) == "date_received" ==>
              r == Some(if email.dateReceived.Some? then FTime(email.dateReceived.value) else FNull)
  {
    var name := Text.Lower(c.field.GetOr(""));
    if name in FieldMapping then Some(Attribute(email, FieldMapping[name])) else None
  }

  /** The field name is matched without regard to letter case. */
  lemma ResolveIgnoresCase(email: Email, c: Condition)
    ensures c.field.Some? ==> Resolve(email, c.(field := Some(Text.Upper(c.field.value)))) == Resolve(email, c)
  {
    if c.field.Some? {
      Text.LowerForgetsCase(c.field.value);
    }
  }

  /** A condition without a field is always skipped. */
  lemma MissingFieldSkipped(email: Email, c: Condition)
    requires c.field.None?
    ensures Resolve(email, c).None?
  {
    assert Text.Lower("") == "";
  }

  /** Two records that agree on the six mapped attributes resolve every
      condition alike; `is_read` and `updated_at`, the columns the engine
      writes, are never read. */
  lemma ResolveReadsMappedOnly(e1: Email, e2: Email, c: Condition)
    requires e1.fromAddress == e2.fromAddress && e1.toAddresses == e2.toAddresses
    requires e1.subject == e2.subject && e1.messageBody == e2.messageBody
    requires e1.snippet == e2.snippet && e1.dateReceived == e2.dateReceived
    ensures Resolve(e1, c) == Resolve(e2, c)
  {
  }

  /** `execution_status` */
  datatype Status = Success | Error

  /** A row of `rule_execution_logs`, without its generated id and
      `executed_at`. */
  datatype LogEntry = LogEntry(
    emailId: string,
    ruleName: string,
    conditions: seq<Condition>,
    actions: seq<EmailActions.Outcome>,
    status: Status,
    errorMessage: Option<string>)
}
