/** What a run of the engine does, as functions on values: the rule step
    for one (email, rule) pair, with its audit-log entry, and the run over
    every pair, emails in the outer loop and rules in the inner one. */
module Runner {
  import opened Wrappers
  import DateTime
  import opened Records
  import opened EmailActions
  import Conditions
  import Dispatch

  /** What the engine consults but never changes: the two registries, the
      mail client, and the clock value of the run. */
  datatype Env = Env(predicates: Conditions.Predicates, actions: Dispatch.Actions, client: Client, now: DateTime.Instant)

  /** What the engine changes: the email table, the audit log, and (as a
      record of the run) the mail client calls made. */
  datatype World = World(store: Dispatch.Store, log: seq<LogEntry>, sent: seq<ClientCall>)

  /** The `error` entry for an exception that escaped a rule: no actions,
      and `str(e)` as the message. */
  function ErrorEntry(email: Email, rule: Rule, e: Exception): (r: LogEntry)
    ensures r.status == Error && r.actions == [] && r.errorMessage == Some(e.message)
    ensures r.emailId == email.id && r.ruleName == RuleName(rule) && r.conditions == RuleConditions(rule)
  {
    LogEntry(email.id, RuleName(rule), RuleConditions(rule), [], Error, Some(e.message))
  }

  /** `_evaluate_conditions` for one rule and email: a rule without
      conditions never matches, an exception from a condition escapes and
      is never a ValueError, and otherwise the rule matches exactly when
      its combinator accepts the condition results. */
  function Matches(env: Env, rule: Rule, email: Email): (r: Result<bool>)
    ensures rule.conditions.None? || rule.conditions == Some([]) ==> r == Ok(false)
    ensures r.Raise? ==> !r.error.ValueError?
    ensures RuleConditions(rule) != [] && Conditions.Results(env.predicates, RuleConditions(rule), email, env.now).Ok? ==>
              r == Ok(Conditions.Combine(Combinator(rule), Conditions.Results(env.predicates, RuleConditions(rule), email, env.now).value))
    ensures RuleConditions(rule) != [] && Conditions.Results(env.predicates, RuleConditions(rule), email, env.now).Raise? ==>
              r == Raise(Conditions.Results(env.predicates, RuleConditions(rule), email, env.now).error)
  {
    Conditions.Match(env.predicates, RuleConditions(rule), Combinator(rule), email, env.now)
  }

  /** `_execute_actions` for one rule and email, on a store: one outcome
      per action unless a TypeError ends it, and only the email's own
      record changes. */
  function Actions(env: Env, rule: Rule, email: Email, store: Dispatch.Store): (r: Dispatch.Progress)
    ensures r.raised.None? ==> |r.outcomes| == |RuleActions(rule)|
    ensures r.raised.Some? ==> r.raised.value.TypeError?
    ensures r.store.Keys == store.Keys
    ensures forall k :: k in store && k != email.id ==> r.store[k] == store[k]
  {
    Dispatch.Run(env.actions, RuleActions(rule), email.id, store, env.client, env.now)
  }

  /** `_process_single_rule(rule, email)`. The step writes at most one log
      entry and keeps the earlier ones. It writes none exactly when the rule
      does not match, and then changes nothing at all. An entry names the
      email, the rule and its conditions. It is a `success` entry exactly
      when the rule matched and no exception escaped the actions, and it
      then lists one outcome per configured action; otherwise it is an
      `error` entry with no actions and the exception's message. When the
      conditions raise, no action runs. */
  function ApplyRule(env: Env, w: World, rule: Rule, email: Email): (r: World)
    ensures w.log <= r.log && |r.log| <= |w.log| + 1
    ensures r.log == w.log <==> Matches(env, rule, email) == Ok(false)
    ensures r.log == w.log ==> r == w
    ensures Matches(env, rule, email).Raise? ==> r.store == w.store && r.sent == w.sent
    ensures w.sent <= r.sent && r.store.Keys == w.store.Keys
    ensures |r.log| == |w.log| + 1 ==>
      var entry := r.log[|w.log|];
      && entry.emailId == email.id && entry.ruleName == RuleName(rule)
      && entry.conditions == RuleConditions(rule)
      && (entry.status == Success <==>
            Matches(env, rule, email) == Ok(true) && Actions(env, rule, email, w.store).raised.None?)
      && (entry.status == Success ==> |entry.actions| == |RuleActions(rule)| && entry.errorMessage.None?)
      && (entry.status == Error ==> entry.actions == [] && entry.errorMessage.Some?)
    ensures Matches(env, rule, email).Raise? ==>
      |r.log| == |w.log| + 1 && r.log[|w.log|].errorMessage == Some(Matches(env, rule, email).error.message)
    ensures Matches(env, rule, email) == Ok(true) ==>
      var p := Actions(env, rule, email, w.store);
      && r.store == p.store && r.sent == w.sent + p.sent && |r.log| == |w.log| + 1
      && (p.raised.None? ==> r.log[|w.log|].actions == p.outcomes)
      && (p.raised.Some? ==> r.log[|w.log|].errorMessage == Some(p.raised.value.message))
  {
    match Matches(env, rule, email)
    case Raise(e) => w.(log := w.log + [ErrorEntry(email, rule, e)])
    case Ok(matched) =>
      if !matched then w
      else
        var p := Actions(env, rule, email, w.store);
        var entry :=
          match p.raised
          case None => LogEntry(email.id, RuleName(rule), RuleConditions(rule), p.outcomes, Success, None)
          case Some(e) => ErrorEntry(email, rule, e);
        World(p.store, w.log + [entry], w.sent + p.sent)
  }

  /** Every (email, rule) pair, emails in the outer loop and rules in the
      inner one. */
  function Pairs(emails: seq<Email>, rules: seq<Rule>): (r: seq<(Email, Rule)>)
    ensures |r| == |emails| * |rules|
  {
    if emails == [] then []
    else Pairs(emails[..|emails| - 1], rules) + Row(emails[|emails| - 1], rules)
  }

  /** One email with every rule, in order. */
  function Row(email: Email, rules: seq<Rule>): (r: seq<(Email, Rule)>)
    ensures |r| == |rules|
    ensures forall j :: 0 <= j < |rules| ==> r[j] == (email, rules[j])
  {
    seq(|rules|, j requires 0 <= j < |rules| => (email, rules[j]))
  }

  /** `process_rules(rules, emails)`: the rule step for every pair in
      turn. A run only appends to the log, at most one entry per pair,
      only appends client calls, and keeps the set of stored ids. */
  function ApplyAll(env: Env, w: World, pairs: seq<(Email, Rule)>): (r: World)
    ensures w.log <= r.log && |r.log| <= |w.log| + |pairs|
    ensures w.sent <= r.sent
    ensures r.store.Keys == w.store.Keys
    decreases |pairs|
  {
    if pairs == [] then w
    else
      var last := pairs[|pairs| - 1];
      ApplyRule(env, ApplyAll(env, w, pairs[..|pairs| - 1]), last.1, last.0)
  }

  /** One more pair is one more rule step. */
  lemma ApplyAllStep(env: Env, w: World, pairs: seq<(Email, Rule)>, email: Email, rule: Rule)
    ensures ApplyAll(env, w, pairs + [(email, rule)]) == ApplyRule(env, ApplyAll(env, w, pairs), rule, email)
  {
    assert (pairs + [(email, rule)])[..|pairs|] == pairs;
  }

  /** One more email adds its row of pairs. */
  lemma PairsStep(emails: seq<Email>, rules: seq<Rule>, i: nat)
    requires i < |emails|
    ensures Pairs(emails[..i + 1], rules) == Pairs(emails[..i], rules) + Row(emails[i], rules)
  {
    assert emails[..i + 1][..i] == emails[..i];
  }

  /** Pair number `i * |rules| + j` is email `i` with rule `j`: every pair
      is visited exactly once, in that order. */
  lemma {:induction false} PairsOrder(emails: seq<Email>, rules: seq<Rule>, i: nat, j: nat)
    requires i < |emails| && j < |rules|
    ensures i * |rules| + j < |Pairs(emails, rules)|
    ensures Pairs(emails, rules)[i * |rules| + j] == (emails[i], rules[j])
    decreases |emails|
  {
    var init := emails[..|emails| - 1];
    var n := |emails| - 1;
    var m := |rules|;
    assert |Pairs(init, rules)| == n * m;
    assert (n + 1) * m == n * m + m;
    if i < n {
      PairsOrder(init, rules, i, j);
      assert i * m + j < n * m;
      assert init[i] == emails[i];
    } else {
      assert i * m + j == n * m + j;
    }
  }

  /** Running two batches of pairs one after the other is running them
      together. */
  lemma {:induction false} ApplyAllAppend(env: Env, w: World, a: seq<(Email, Rule)>, b: seq<(Email, Rule)>)
    ensures ApplyAll(env, w, a + b) == ApplyAll(env, ApplyAll(env, w, a), b)
    decreases |b|
  {
    if b == [] {
      assert a + b == a;
    } else {
      assert (a + b)[..|a + b| - 1] == a + b[..|b| - 1];
      assert (a + b)[|a + b| - 1] == b[|b| - 1];
      ApplyAllAppend(env, w, a, b[..|b| - 1]);
    }
  }

  /** A rule that matches no email leaves the whole run without effect. */
  lemma {:induction false} NoMatchNoEffect(env: Env, w: World, pairs: seq<(Email, Rule)>)
    requires forall k :: 0 <= k < |pairs| ==> Matches(env, pairs[k].1, pairs[k].0) == Ok(false)
    ensures ApplyAll(env, w, pairs) == w
    decreases |pairs|
  {
    if pairs != [] {
      var init := pairs[..|pairs| - 1];
      assert forall k :: 0 <= k < |init| ==> init[k] == pairs[k];
      NoMatchNoEffect(env, w, init);
    }
  }
}
