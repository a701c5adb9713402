/** The three mailbox actions. Each `execute(email_id, gmail_client,
    **kwargs)` makes exactly one call on the mail client and reports the
    client's boolean answer in a result dict. The client is an oracle: a
    function from the call made to the answer it gives. */
module EmailActions {
  import opened Wrappers

  /** A request sent to the mail client. */
  datatype ClientCall =
    | MarkAsRead(emailId: string)
    | MarkAsUnread(emailId: string)
    | MoveToLabel(emailId: string, labelName: string)

  /** The mail client's answers. */
  type Client = ClientCall -> bool

  /** The result dict of one action: `{action, success, email_id[, label]}`
      for an action that ran, `{action, success: False, error}` for one that
      could not be created. */
  datatype Outcome =
    | Executed(action: string, success: bool, emailId: string, labelName: Option<string>)
    | Failed(action: string, error: string)
  {
    /** The dict's `success` entry. */
    function Success(): bool {
      match this
      case Executed(_, success, _, _) => success
      case Failed(_, _) => false
    }
  }

  /** The members of a JSON `params` object in the file's order. A key that
      repeats keeps the place of its first occurrence and the value of its
      last, as `json.load` builds the dict. */
  type Params = seq<(string, string)>

  /** `kwargs.get(key)`: the value of the last member with that key. */
  function Param(params: Params, key: string): (r: Option<string>)
    ensures LastValue(params, key, r)
  {
    if params == [] then None
    else if params[|params| - 1].0 == key then
      assert params[|params| - 1] == (key, params[|params| - 1].1);
      Some(params[|params| - 1].1)
    else
      var r := Param(params[..|params| - 1], key);
      LastValueExtends(params, key, r);
      r
  }

  /** `r` is what a lookup of `key` in `params` should give: present exactly
      when some member has that key, and then the value of the last such
      member. */
  ghost predicate LastValue(params: Params, key: string, r: Option<string>) {
    && (r.Some? <==> exists i :: 0 <= i < |params| && params[i].0 == key)
    && (r.Some? ==> exists i :: 0 <= i < |params| && params[i] == (key, r.value)
                               && forall j :: i < j < |params| ==> params[j].0 != key)
  }

  /** A member with another key does not change the lookup. */
  lemma LastValueExtends(params: Params, key: string, r: Option<string>)
    requires |params| > 0 && params[|params| - 1].0 != key
    requires LastValue(params[..|params| - 1], key, r)
    ensures LastValue(params, key, r)
  {
    var init := params[..|params| - 1];
    assert forall i :: 0 <= i < |init| ==> init[i] == params[i];
    if r.Some? {
      var i :| 0 <= i < |init| && init[i] == (key, r.value) && forall j :: i < j < |init| ==> init[j].0 != key;
      assert params[i] == (key, r.value);
      assert forall j :: i < j < |params| ==> params[j].0 != key;
    }
  }

  /** The action classes. */
  datatype ActionClass = MarkAsReadAction | MarkAsUnreadAction | MoveMessageAction {
    /** `get_name()` of an instance: the key the class is registered under,
        and the `action` entry of its result dict. */
    function GetName(): (r: string)
      ensures r == "mark_as_read" || r == "mark_as_unread" || r == "move_message"
    {
      match this
      case MarkAsReadAction => "mark_as_read"
      case MarkAsUnreadAction => "mark_as_unread"
      case MoveMessageAction => "move_message"
    }

    /** The class's `__name__`, which Python's argument errors quote. */
    function ClassName(): string {
      match this
      case MarkAsReadAction => "MarkAsReadAction"
      case MarkAsUnreadAction => "MarkAsUnreadAction"
      case MoveMessageAction => "MoveMessageAction"
    }
  }

  /** The label `move_message` uses. */
  const DefaultLabel: string := "INBOX"

  /** What one `execute` did: the client call it made, and the dict it
      returned. */
  datatype Execution = Execution(call: ClientCall, outcome: Outcome)

  /** The body of `execute`: one client call on the given id, and an outcome
      that names the action, repeats the id and reports the client's answer.
      Only `move_message` reads the parameters, for `label`. */
  function Execute(action: ActionClass, emailId: string, params: Params, client: Client): (r: Execution)
    ensures r.call.emailId == emailId
    ensures r.call.MarkAsRead? <==> action.MarkAsReadAction?
    ensures r.call.MarkAsUnread? <==> action.MarkAsUnreadAction?
    ensures r.call.MoveToLabel? <==> action.MoveMessageAction?
    ensures r.call.MoveToLabel? ==> r.call.labelName == Param(params, "label").GetOr(DefaultLabel)
    ensures r.outcome.Executed?
    ensures r.outcome.action == action.GetName()
    ensures r.outcome.success == client(r.call)
    ensures r.outcome.emailId == emailId
    ensures r.outcome.labelName == if r.call.MoveToLabel? then Some(r.call.labelName) else None
  {
    match action
    case MarkAsReadAction =>
      var call := MarkAsRead(emailId);
      Execution(call, Executed("mark_as_read", client(call), emailId, None))
    case MarkAsUnreadAction =>
      var call := MarkAsUnread(emailId);
      Execution(call, Executed("mark_as_unread", client(call), emailId, None))
    case MoveMessageAction =>
      var labelName := Param(params, "label").GetOr(DefaultLabel);
      var call := MoveToLabel(emailId, labelName);
      Execution(call, Executed("move_message", client(call), emailId, Some(labelName)))
  }

  /** The positional parameters of the bound `execute`, which a keyword
      argument may not name again. */
  const Reserved: set<string> := {"self", "email_id", "gmail_client"}

  /** The first key of `params` that clashes with a positional parameter. */
  function FirstReserved(params: Params): (r: Option<string>)
    ensures r.None? <==> forall i :: 0 <= i < |params| ==> params[i].0 !in Reserved
    ensures r.Some? ==> exists i :: 0 <= i < |params| && params[i].0 == r.value && r.value in Reserved
                                   && forall j :: 0 <= j < i ==> params[j].0 !in Reserved
  {
    if params == [] then None
    else if params[0].0 in Reserved then Some(params[0].0)
    else
      var r := FirstReserved(params[1..]);
      assert forall i :: 1 <= i < |params| ==> params[1..][i - 1] == params[i];
      r
  }

  /** `action.execute(email_id, gmail_client, **params)`: binding the
      keyword arguments fails with TypeError, before the body runs, when a
      key names a positional parameter; otherwise the body runs. */
  function Invoke(action: ActionClass, emailId: string, params: Params, client: Client): (r: Result<Execution>)
    ensures r.Raise? <==> exists i :: 0 <= i < |params| && params[i].0 in Reserved
    ensures r.Raise? ==> r.error.TypeError?
    ensures r.Ok? ==> r.value == Execute(action, emailId, params, client)
  {
    match FirstReserved(params)
    case Some(key) =>
      Raise(TypeError(action.ClassName() + ".execute() got multiple values for argument '" + key + "'"))
    case None => Ok(Execute(action, emailId, params, client))
  }

  /** No two action classes share a name. */
  lemma NamesIdentify(c1: ActionClass, c2: ActionClass)
    ensures c1.GetName() == c2.GetName() <==> c1 == c2
  {
  }

  /** `mark_as_read` and `mark_as_unread` ignore their parameters: any two
      parameter objects give the same call and the same outcome. */
  lemma MarkIgnoresParams(action: ActionClass, emailId: string, p: Params, q: Params, client: Client)
    requires !action.MoveMessageAction?
    ensures Execute(action, emailId, p, client) == Execute(action, emailId, q, client)
  {
  }

  /** Two clients that answer differently change only the reported
      `success`: the call made, the action name, the id and the label stay
      the same. */
  lemma ClientOnlyDecidesSuccess(action: ActionClass, emailId: string, params: Params, c1: Client, c2: Client)
    ensures Execute(action, emailId, params, c1).call == Execute(action, emailId, params, c2).call
    ensures Execute(action, emailId, params, c1).outcome
         == Execute(action, emailId, params, c2).outcome.(success := Execute(action, emailId, params, c1).outcome.success)
  {
  }

  /** `move_message` without a `label` parameter moves to `INBOX`, and with
      one moves to the last value given for it. */
  lemma MoveLabel(emailId: string, params: Params, name: string, client: Client)
    ensures Param(params, "label").None?
            ==> Execute(MoveMessageAction, emailId, params, client).call == MoveToLabel(emailId, DefaultLabel)
    ensures Execute(MoveMessageAction, emailId, params + [("label", name)], client).call == MoveToLabel(emailId, name)
  {
  }
}
