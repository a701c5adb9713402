/** Action dispatch for one matched email: the configured actions run in
    order, each through the action registry, and each one that ran updates
    the stored record. Only ValueError is caught; the TypeError of a
    parameter that clashes with `execute`'s own arguments ends the dispatch,
    after the earlier actions have had their effects. */
module Dispatch {
  import opened Wrappers
  import DateTime
  import opened Records
  import Registries
  import opened EmailActions
  import ActionFactory

  type Actions = Registries.Registry<ActionClass>
  type Store = map<string, Email>

  /** `_update_email_state(email_id, action_name, params)`: a missing record
      is left alone; otherwise `mark_as_read` sets `is_read`,
      `mark_as_unread` clears it, any other name keeps it, and `updated_at`
      becomes `now` in every case. Nothing else in the store changes. */
  function UpdateState(store: Store, id: string, actionName: string, now: DateTime.Instant): (r: Store)
    ensures id !in store ==> r == store
    ensures r.Keys == store.Keys
    ensures forall k :: k in store && k != id ==> r[k] == store[k]
    ensures id in store ==>
      && r[id].isRead == (if actionName == "mark_as_read" then true
                          else if actionName == "mark_as_unread" then false
                          else store[id].isRead)
      && r[id].updatedAt == now
      && r[id].(isRead := store[id].isRead, updatedAt := store[id].updatedAt) == store[id]
  {
    if id !in store then store
    else
      var email := store[id];
      var isRead :=
        if actionName == "mark_as_read" then true
        else if actionName == "mark_as_unread" then false
        else email.isRead;
      store[id := email.(isRead := isRead, updatedAt := now)]
  }

  /** What one iteration of the action loop produced: an outcome, with the
      client call when the action ran, or the exception that escaped. */
  datatype ActionStep = Performed(outcome: Outcome, call: Option<ClientCall>) | Aborted(error: Exception)

  /** The `try` body of one iteration: look the action up and invoke it,
      turning a ValueError into a failed outcome. An unknown name gives the
      failed outcome, a registered action without a reserved parameter key
      runs and reports `execute`'s outcome and call, and a reserved key
      aborts the dispatch. */
  function PerformAction(actions: Actions, config: ActionConfig, id: string, client: Client): (r: ActionStep)
    ensures r.Aborted? ==> r.error.TypeError?
    ensures r.Performed? && r.outcome.Failed? ==> r.call.None?
    ensures r.Performed? && r.call.Some? ==> r.outcome.Executed? && r.outcome.success == client(r.call.value)
                                             && r.call.value.emailId == id
    ensures ActionFactory.Keyed(actions) && r.Performed? ==> r.outcome.action == ActionName(config)
    ensures ActionFactory.Lookup(actions, ActionName(config)).Raise? ==>
              r == Performed(Failed(ActionName(config), "Unknown action: " + ActionName(config)), None)
    ensures ActionFactory.Lookup(actions, ActionName(config)).Ok?
            && (forall i :: 0 <= i < |ActionParams(config)| ==> ActionParams(config)[i].0 !in Reserved) ==>
              var x := Execute(ActionFactory.Lookup(actions, ActionName(config)).value, id, ActionParams(config), client);
              r == Performed(x.outcome, Some(x.call))
    ensures ActionFactory.Lookup(actions, ActionName(config)).Ok?
            && (exists i :: 0 <= i < |ActionParams(config)| && ActionParams(config)[i].0 in Reserved) ==>
              r.Aborted?
  {
    var name := ActionName(config);
    var invoked :=
      match ActionFactory.Lookup(actions, name)
      case Raise(e) => Raise(e)
      case Ok(a) => Invoke(a, id, ActionParams(config), client);
    match invoked
    case Ok(x) => Performed(x.outcome, Some(x.call))
    case Raise(e) => if e.ValueError? then Performed(Failed(name, e.message), None) else Aborted(e)
  }

  /** The loop's state after some actions: outcomes so far, the store, the
      client calls made, and the exception that ended the loop, if any. */
  datatype Progress = Progress(outcomes: seq<Outcome>, store: Store, sent: seq<ClientCall>, raised: Option<Exception>)

  /** One more iteration, unless an exception has ended the loop. A record
      update follows exactly the actions that ran. */
  function Next(p: Progress, actions: Actions, config: ActionConfig, id: string, client: Client, now: DateTime.Instant): (r: Progress)
    ensures p.raised.Some? ==> r == p
    ensures p.outcomes <= r.outcomes && |r.outcomes| <= |p.outcomes| + 1
    ensures r.raised.None? ==> p.raised.None? && |r.outcomes| == |p.outcomes| + 1
    ensures p.raised.None? && r.raised.Some? ==> r.raised.value.TypeError?
    ensures ActionFactory.Keyed(actions) && |r.outcomes| > |p.outcomes| ==> r.outcomes[|p.outcomes|].action == ActionName(config)
    ensures r.store.Keys == p.store.Keys
    ensures forall k :: k in p.store && k != id ==> r.store[k] == p.store[k]
    ensures p.sent <= r.sent && forall j :: |p.sent| <= j < |r.sent| ==> r.sent[j].emailId == id
    ensures p.raised.None? ==>
      var step := PerformAction(actions, config, id, client);
      && (step.Performed? ==> r.outcomes == p.outcomes + [step.outcome] && r.raised.None?)
      && (step.Aborted? ==> r.outcomes == p.outcomes && r.raised == Some(step.error))
    ensures p.raised.None? ==>
      var step := PerformAction(actions, config, id, client);
      if step.Performed? && step.call.Some? then
        r.store == UpdateState(p.store, id, ActionName(config), now) && r.sent == p.sent + [step.call.value]
      else r.store == p.store && r.sent == p.sent
  {
    if p.raised.Some? then p
    else
      match PerformAction(actions, config, id, client)
      case Aborted(e) => p.(raised := Some(e))
      case Performed(o, None) => p.(outcomes := p.outcomes + [o])
      case Performed(o, Some(call)) =>
        Progress(p.outcomes + [o], UpdateState(p.store, id, ActionName(config), now), p.sent + [call], None)
  }

  /** `_execute_actions(actions, email_id)` on a store: one outcome per
      action, in order, until an exception escapes. */
  function Run(actions: Actions, configs: seq<ActionConfig>, id: string, store: Store, client: Client, now: DateTime.Instant): (r: Progress)
    ensures |r.outcomes| <= |configs|
    ensures r.raised.None? ==> |r.outcomes| == |configs|
    ensures r.raised.Some? ==> r.raised.value.TypeError?
    ensures ActionFactory.Keyed(actions) ==> forall i :: 0 <= i < |r.outcomes| ==> r.outcomes[i].action == ActionName(configs[i])
    ensures r.store.Keys == store.Keys
    ensures forall k :: k in store && k != id ==> r.store[k] == store[k]
    ensures forall j :: 0 <= j < |r.sent| ==> r.sent[j].emailId == id
  {
    if configs == [] then Progress([], store, [], None)
    else
      var init := configs[..|configs| - 1];
      var p := Run(actions, init, id, store, client, now);
      var r := Next(p, actions, configs[|configs| - 1], id, client, now);
      assert forall i :: 0 <= i < |init| ==> init[i] == configs[i];
      assert forall i :: 0 <= i < |p.outcomes| ==> r.outcomes[i] == p.outcomes[i];
      assert forall j :: 0 <= j < |p.sent| ==> r.sent[j] == p.sent[j];
      r
  }

  /** An unknown action gives the failed outcome `{action, success: False,
      error: "Unknown action: ..."}` and the loop goes on. */
  lemma {:induction false} UnknownActionFails(actions: Actions, configs: seq<ActionConfig>, i: nat, id: string, store: Store, client: Client, now: DateTime.Instant)
    requires i < |configs|
    requires ActionFactory.Lookup(actions, ActionName(configs[i])).Raise?
    requires Run(actions, configs[..i], id, store, client, now).raised.None?
    ensures Run(actions, configs[..i + 1], id, store, client, now).raised.None?
    ensures Run(actions, configs[..i + 1], id, store, client, now).outcomes[i]
         == Failed(ActionName(configs[i]), "Unknown action: " + ActionName(configs[i]))
    ensures Run(actions, configs[..i + 1], id, store, client, now).store == Run(actions, configs[..i], id, store, client, now).store
    ensures Run(actions, configs[..i + 1], id, store, client, now).sent == Run(actions, configs[..i], id, store, client, now).sent
  {
    assert configs[..i + 1][..i] == configs[..i];
    assert configs[..i + 1][i] == configs[i];
  }

  /** The loop over a prefix one action longer. */
  lemma RunPrefix(actions: Actions, configs: seq<ActionConfig>, i: nat, id: string, store: Store, client: Client, now: DateTime.Instant)
    requires i < |configs|
    ensures Run(actions, configs[..i + 1], id, store, client, now)
         == Next(Run(actions, configs[..i], id, store, client, now), actions, configs[i], id, client, now)
  {
    assert configs[..i + 1][..i] == configs[..i];
    assert configs[..i + 1][i] == configs[i];
  }

  /** Once an exception has ended the loop, the remaining actions do
      nothing: no outcome, no client call and no record update. */
  lemma {:induction false} RaisedStops(actions: Actions, configs: seq<ActionConfig>, k: nat, id: string, store: Store, client: Client, now: DateTime.Instant)
    requires k <= |configs|
    requires Run(actions, configs[..k], id, store, client, now).raised.Some?
    ensures Run(actions, configs, id, store, client, now) == Run(actions, configs[..k], id, store, client, now)
    decreases |configs| - k
  {
    if k < |configs| {
      var init := configs[..|configs| - 1];
      assert init[..k] == configs[..k];
      RaisedStops(actions, init, k, id, store, client, now);
    } else {
      assert configs[..k] == configs;
    }
  }

  /** Without a parameter key that clashes with `execute`'s arguments, no
      exception ends the loop and every action has its outcome. */
  lemma {:induction false} NoClashRunsAll(actions: Actions, configs: seq<ActionConfig>, id: string, store: Store, client: Client, now: DateTime.Instant)
    requires forall i, j :: 0 <= i < |configs| && 0 <= j < |ActionParams(configs[i])| ==> ActionParams(configs[i])[j].0 !in Reserved
    ensures Run(actions, configs, id, store, client, now).raised.None?
    ensures |Run(actions, configs, id, store, client, now).outcomes| == |configs|
    decreases |configs|
  {
    if configs != [] {
      var init := configs[..|configs| - 1];
      var last := configs[|configs| - 1];
      assert forall i :: 0 <= i < |init| ==> init[i] == configs[i];
      NoClashRunsAll(actions, init, id, store, client, now);
      assert forall j :: 0 <= j < |ActionParams(last)| ==> ActionParams(last)[j].0 !in Reserved;
      assert !PerformAction(actions, last, id, client).Aborted?;
    }
  }

  /** Two loop states that differ at most in the reported `success`
      values. */
  predicate Alike(p: Progress, q: Progress) {
    && p.store == q.store && p.sent == q.sent && p.raised == q.raised
    && |p.outcomes| == |q.outcomes|
    && forall i :: 0 <= i < |p.outcomes| ==> SameBut(p.outcomes[i], q.outcomes[i])
  }

  /** One action under two clients: the same call, or the same exception,
      and outcomes alike but for `success`. */
  lemma PerformIgnoresClient(actions: Actions, config: ActionConfig, id: string, c1: Client, c2: Client)
    ensures PerformAction(actions, config, id, c1).Aborted? == PerformAction(actions, config, id, c2).Aborted?
    ensures PerformAction(actions, config, id, c1).Aborted? ==>
              PerformAction(actions, config, id, c1) == PerformAction(actions, config, id, c2)
    ensures PerformAction(actions, config, id, c1).Performed? ==>
              && PerformAction(actions, config, id, c1).call == PerformAction(actions, config, id, c2).call
              && SameBut(PerformAction(actions, config, id, c1).outcome, PerformAction(actions, config, id, c2).outcome)
  {
    match ActionFactory.Lookup(actions, ActionName(config))
    case Raise(_) =>
    case Ok(a) =>
      ClientOnlyDecidesSuccess(a, id, ActionParams(config), c1, c2);
  }

  /** The client's answers decide only the reported `success` values: the
      store, the calls made, where the loop stops and every outcome's other
      entries are the same under any client. In particular a record's
      `is_read` follows the action names, not the client. */
  lemma {:induction false} StoreIgnoresClient(actions: Actions, configs: seq<ActionConfig>, id: string, store: Store, c1: Client, c2: Client, now: DateTime.Instant)
    ensures Alike(Run(actions, configs, id, store, c1, now), Run(actions, configs, id, store, c2, now))
    decreases |configs|
  {
    if configs != [] {
      var init := configs[..|configs| - 1];
      var last := configs[|configs| - 1];
      StoreIgnoresClient(actions, init, id, store, c1, c2, now);
      PerformIgnoresClient(actions, last, id, c1, c2);
      var p := Run(actions, init, id, store, c1, now);
      var q := Run(actions, init, id, store, c2, now);
      assert Run(actions, configs, id, store, c1, now) == Next(p, actions, last, id, c1, now);
      assert Run(actions, configs, id, store, c2, now) == Next(q, actions, last, id, c2, now);
      NextAlike(p, q, actions, last, id, c1, c2, now);
    }
  }

  /** One more iteration keeps two alike loop states alike. */
  lemma NextAlike(p: Progress, q: Progress, actions: Actions, config: ActionConfig, id: string, c1: Client, c2: Client, now: DateTime.Instant)
    requires Alike(p, q)
    requires PerformAction(actions, config, id, c1).Aborted? == PerformAction(actions, config, id, c2).Aborted?
    requires PerformAction(actions, config, id, c1).Aborted? ==>
               PerformAction(actions, config, id, c1) == PerformAction(actions, config, id, c2)
    requires PerformAction(actions, config, id, c1).Performed? ==>
               && PerformAction(actions, config, id, c1).call == PerformAction(actions, config, id, c2).call
               && SameBut(PerformAction(actions, config, id, c1).outcome, PerformAction(actions, config, id, c2).outcome)
    ensures Alike(Next(p, actions, config, id, c1, now), Next(q, actions, config, id, c2, now))
  {
    if p.raised.None? && PerformAction(actions, config, id, c1).Performed? {
      var o1 := PerformAction(actions, config, id, c1).outcome;
      var o2 := PerformAction(actions, config, id, c2).outcome;
      var n1 := Next(p, actions, config, id, c1, now);
      var n2 := Next(q, actions, config, id, c2, now);
      assert n1.outcomes == p.outcomes + [o1] && n2.outcomes == q.outcomes + [o2];
      forall i | 0 <= i < |n1.outcomes| ensures SameBut(n1.outcomes[i], n2.outcomes[i]) {
        if i < |p.outcomes| {
          assert n1.outcomes[i] == p.outcomes[i] && n2.outcomes[i] == q.outcomes[i];
        }
      }
    }
  }

  /** Two outcomes equal up to their `success` entry. */
  predicate SameBut(o1: Outcome, o2: Outcome) {
    o1.Executed? == o2.Executed? && (o1.Executed? ==> o1.(success := o2.success) == o2) && (o1.Failed? ==> o1 == o2)
  }

  /** The read flag after a dispatch of a single action on an existing
      record: set by `mark_as_read`, cleared by `mark_as_unread`, whatever
      the client answered. */
  lemma SingleMarkSetsFlag(actions: Actions, config: ActionConfig, id: string, store: Store, client: Client, now: DateTime.Instant)
    requires id in store
    requires ActionName(config) == "mark_as_read" || ActionName(config) == "mark_as_unread"
    requires ActionFactory.Lookup(actions, ActionName(config)).Ok?
    requires FirstReserved(ActionParams(config)).None?
    ensures Run(actions, [config], id, store, client, now).store[id].isRead == (ActionName(config) == "mark_as_read")
    ensures Run(actions, [config], id, store, client, now).store[id].updatedAt == now
  {
    var single := [config];
    assert single[..|single| - 1] == [] && single[|single| - 1] == config;
  }
}
