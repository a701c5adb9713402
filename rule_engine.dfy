/** The rule engine: applies rules to stored emails, runs the actions of the
    rules that match, updates the stored records and writes the audit log.
    Each method is proved against the function of the `Runner`,
    `Conditions` or `Dispatch` module that states what it computes. */
module RuleEngine {
  import opened Wrappers
  import Text
  import DateTime
  import opened Records
  import opened EmailActions
  import PredicateFactory
  import ActionFactory
  import Conditions
  import Dispatch
  import Runner

  class Engine {
    /** The two class-level registries the engine consults. */
    const predicateFactory: PredicateFactory.Factory
    const actionFactory: ActionFactory.Factory
    /** `self.gmail_client` */
    const client: Client
    /** The clock value of the run, read by the date predicates and written
        as `updated_at`. */
    const now: DateTime.Instant
    /** The `emails` table, by id. */
    var store: Dispatch.Store
    /** The `rule_execution_logs` table, in insertion order. */
    var log: seq<LogEntry>
    /** The mail client calls made so far. */
    ghost var sent: seq<ClientCall>

    function Env(): Runner.Env
      reads predicateFactory, actionFactory
    {
      Runner.Env(predicateFactory.registry, actionFactory.registry, client, now)
    }

    ghost function World(): Runner.World
      reads this
    {
      Runner.World(store, log, sent)
    }

    /** `RuleEngine(gmail_client, db_session)` over a table and an empty
        log. */
    constructor (predicateFactory: PredicateFactory.Factory, actionFactory: ActionFactory.Factory,
                 client: Client, now: DateTime.Instant, store: Dispatch.Store)
      ensures this.predicateFactory == predicateFactory && this.actionFactory == actionFactory
      ensures this.client == client && this.now == now
      ensures World() == Runner.World(store, [], [])
    {
      this.predicateFactory := predicateFactory;
      this.actionFactory := actionFactory;
      this.client := client;
      this.now := now;
      this.store := store;
      this.log := [];
      this.sent := [];
    }

    /** The `try` block of one iteration of `_evaluate_conditions`: resolve
        the field, look the predicate up and evaluate it; a ValueError
        counts as `False`. */
    method EvaluateCondition(condition: Condition, email: Email) returns (r: Conditions.Step)
      ensures r == Conditions.EvalCondition(predicateFactory.registry, condition, email, now)
    {
      var fieldName := Text.Lower(condition.field.GetOr(""));
      if fieldName !in FieldMapping {
        return Conditions.Skip;
      }
      var fieldValue := Attribute(email, FieldMapping[fieldName]);
      assert Resolve(email, condition) == Some(fieldValue);
      var found := predicateFactory.GetPredicate(PredicateOf(condition));
      var result: Result<bool>;
      match found {
        case Raise(e) => result := Raise(e);
        case Ok(p) => result := p.Evaluate(fieldValue, ConditionValue(condition), now);
      }
      match result {
        case Ok(b) => r := Conditions.Value(b);
        case Raise(e) => r := if e.ValueError? then Conditions.Value(false) else Conditions.Escape(e);
      }
    }

    /** `_evaluate_conditions(conditions, predicate_type, email)` */
    method EvaluateConditions(conditions: seq<Condition>, kind: string, email: Email) returns (r: Result<bool>)
      ensures r == Conditions.Match(predicateFactory.registry, conditions, kind, email, now)
    {
      if |conditions| == 0 {
        return Ok(false);
      }
      var results: seq<bool> := [];
      var i := 0;
      while i < |conditions|
        invariant 0 <= i <= |conditions|
        invariant Conditions.Results(predicateFactory.registry, conditions[..i], email, now) == Ok(results)
      {
        Conditions.ResultsPrefix(predicateFactory.registry, conditions, i, email, now);
        var step := EvaluateCondition(conditions[i], email);
        match step {
          case Skip =>
          case Value(b) =>
            results := results + [b];
          case Escape(e) =>
            Conditions.EscapeEnds(predicateFactory.registry, conditions, i + 1, email, now);
            return Raise(e);
        }
        i := i + 1;
      }
      assert conditions[..|conditions|] == conditions;
      assert Conditions.Results(predicateFactory.registry, conditions, email, now) == Ok(results);
      r := Ok(Conditions.Combine(kind, results));
    }

    /** `_update_email_state(email_id, action_name, params)` */
    method UpdateEmailState(emailId: string, actionName: string, params: Params)
      modifies this
      ensures store == Dispatch.UpdateState(old(store), emailId, actionName, now)
      ensures log == old(log) && sent == old(sent)
    {
      if emailId !in store {
        return;
      }
      var email := store[emailId];
      if actionName == "mark_as_read" {
        email := email.(isRead := true);
      } else if actionName == "mark_as_unread" {
        email := email.(isRead := false);
      }
      email := email.(updatedAt := now);
      store := store[emailId := email];
    }

    /** The `try` block of one iteration of `_execute_actions`: look the
        action up, invoke it, and update the stored record after an action
        that ran; a ValueError becomes a failed outcome. `p` is the loop's
        progress so far, and `sent0` the calls made before the loop: the new
        state is the progress after one more iteration. */
    method ExecuteAction(config: ActionConfig, emailId: string, ghost p: Dispatch.Progress, ghost sent0: seq<ClientCall>)
      returns (r: Dispatch.ActionStep)
      requires p.raised.None? && p.store == store && sent == sent0 + p.sent
      modifies this
      ensures r == Dispatch.PerformAction(actionFactory.registry, config, emailId, client)
      ensures var q := Dispatch.Next(p, actionFactory.registry, config, emailId, client, now);
        && store == q.store && sent == sent0 + q.sent && log == old(log)
        && (r.Aborted? <==> q.raised.Some?)
        && (r.Aborted? ==> q.raised == Some(r.error))
        && (r.Performed? ==> q.outcomes == p.outcomes + [r.outcome])
    {
      var actionName := ActionName(config);
      var actionParams := ActionParams(config);
      var action := actionFactory.GetAction(actionName);
      var invoked: Result<Execution>;
      match action {
        case Raise(e) => invoked := Raise(e);
        case Ok(a) => invoked := Invoke(a, emailId, actionParams, client);
      }
      match invoked {
        case Ok(x) =>
          sent := sent + [x.call];
          assert sent == sent0 + (p.sent + [x.call]);
          UpdateEmailState(emailId, actionName, actionParams);
          r := Dispatch.Performed(x.outcome, Some(x.call));
        case Raise(e) =>
          if e.ValueError? {
            r := Dispatch.Performed(Failed(actionName, e.message), None);
          } else {
            r := Dispatch.Aborted(e);
          }
      }
    }

    /** `_execute_actions(actions, email_id)`: the outcomes, or the
        exception that escaped; the store and the client calls as the
        actions that ran left them. */
    method ExecuteActions(configs: seq<ActionConfig>, emailId: string) returns (r: Result<seq<Outcome>>)
      modifies this
      ensures var p := Dispatch.Run(actionFactory.registry, configs, emailId, old(store), client, now);
        && store == p.store && sent == old(sent) + p.sent && log == old(log)
        && r == (if p.raised.Some? then Raise(p.raised.value) else Ok(p.outcomes))
    {
      ghost var store0 := store;
      ghost var sent0 := sent;
      ghost var p := Dispatch.Run(actionFactory.registry, configs[..0], emailId, store0, client, now);
      var results: seq<Outcome> := [];
      var i := 0;
      while i < |configs|
        invariant 0 <= i <= |configs|
        invariant p == Dispatch.Run(actionFactory.registry, configs[..i], emailId, store0, client, now)
        invariant p.raised.None? && p.outcomes == results && p.store == store
        invariant sent0 + p.sent == sent
        invariant log == old(log)
      {
        Dispatch.RunPrefix(actionFactory.registry, configs, i, emailId, store0, client, now);
        var step := ExecuteAction(configs[i], emailId, p, sent0);
        match step {
          case Aborted(e) =>
            Dispatch.RaisedStops(actionFactory.registry, configs, i + 1, emailId, store0, client, now);
            return Raise(e);
          case Performed(outcome, call) =>
            results := results + [outcome];
        }
        p := Dispatch.Next(p, actionFactory.registry, configs[i], emailId, client, now);
        i := i + 1;
      }
      assert configs[..|configs|] == configs;
      r := Ok(results);
    }

    /** `_log_execution(...)`: one row appended to the log. */
    method LogExecution(emailId: string, ruleName: string, conditions: seq<Condition>,
                        actions: seq<Outcome>, status: Status, errorMessage: Option<string>)
      modifies this
      ensures log == old(log) + [LogEntry(emailId, ruleName, conditions, actions, status, errorMessage)]
      ensures store == old(store) && sent == old(sent)
    {
      log := log + [LogEntry(emailId, ruleName, conditions, actions, status, errorMessage)];
    }

    /** `_process_single_rule(rule, email)` */
    method ProcessSingleRule(rule: Rule, email: Email)
      modifies this
      ensures World() == Runner.ApplyRule(Env(), old(World()), rule, email)
    {
      var ruleName := RuleName(rule);
      var conditions := RuleConditions(rule);
      var predicateType := Combinator(rule);
      var actions := RuleActions(rule);
      var matched := EvaluateConditions(conditions, predicateType, email);
      match matched
      case Raise(e) =>
        LogExecution(email.id, ruleName, conditions, [], Error, Some(e.message));
      case Ok(b) =>
        if b {
          var actionResults := ExecuteActions(actions, email.id);
          match actionResults
          case Ok(outcomes) =>
            LogExecution(email.id, ruleName, conditions, outcomes, Success, None);
          case Raise(e) =>
            LogExecution(email.id, ruleName, conditions, [], Error, Some(e.message));
        }
    }

    /** The inner loop of `process_rules`: one email with every rule, in
        order. */
    method ProcessEmail(rules: seq<Rule>, email: Email)
      modifies this
      ensures World() == Runner.ApplyAll(Env(), old(World()), Runner.Row(email, rules))
    {
      ghost var w0 := World();
      var j := 0;
      while j < |rules|
        invariant 0 <= j <= |rules|
        invariant World() == Runner.ApplyAll(Env(), w0, Runner.Row(email, rules[..j]))
      {
        assert Runner.Row(email, rules[..j + 1]) == Runner.Row(email, rules[..j]) + [(email, rules[j])];
        Runner.ApplyAllStep(Env(), w0, Runner.Row(email, rules[..j]), email, rules[j]);
        ProcessSingleRule(rules[j], email);
        j := j + 1;
      }
      assert rules[..|rules|] == rules;
    }

    /** `process_rules(rules, emails)`: every email with every rule, emails
        in the outer loop. */
    method ProcessRules(rules: seq<Rule>, emails: seq<Email>)
      modifies this
      ensures World() == Runner.ApplyAll(Env(), old(World()), Runner.Pairs(emails, rules))
    {
      ghost var w0 := World();
      var i := 0;
      while i < |emails|
        invariant 0 <= i <= |emails|
        invariant World() == Runner.ApplyAll(Env(), w0, Runner.Pairs(emails[..i], rules))
      {
        Runner.PairsStep(emails, rules, i);
        Runner.ApplyAllAppend(Env(), w0, Runner.Pairs(emails[..i], rules), Runner.Row(emails[i], rules));
        ProcessEmail(rules, emails[i]);
        i := i + 1;
      }
      assert emails[..|emails|] == emails;
    }
  }
}
