/** The name-keyed registry of action classes, filled at module load with
    the three mailbox actions. */
module ActionFactory {
  import opened Wrappers
  import opened Registries
  import opened EmailActions

  /** The names module load registers, in order. */
  const BuiltinNames: seq<string> := ["mark_as_read", "mark_as_unread", "move_message"]

  /** The registry after the module-level registrations. */
  function LoadedRegistry(): Registry<ActionClass> {
    Registries.Empty()
      .Assign(MarkAsReadAction.GetName(), MarkAsReadAction)
      .Assign(MarkAsUnreadAction.GetName(), MarkAsUnreadAction)
      .Assign(MoveMessageAction.GetName(), MoveMessageAction)
  }

  /** `get_action(name)` against a registry: an instance of the class
      registered under `name`, or ValueError. It mirrors
      `PredicateFactory.Lookup`, as the two factories mirror each other in
      the program. */
  function Lookup(registry: Registry<ActionClass>, name: string): (r: Result<ActionClass>)
    ensures r.Ok? <==> name in registry.entries
    ensures r.Ok? ==> r.value == registry.entries[name]
    ensures r.Raise? ==> r.error == ValueError("Unknown action: " + name)
  {
    match registry.Get(name)
    case Some(c) => Ok(c)
    case None => Raise(ValueError("Unknown action: " + name))
  }

  /** Every class is stored under its own `get_name()`, as `register`
      stores it. */
  predicate Keyed(registry: Registry<ActionClass>) {
    forall n :: n in registry.entries ==> registry.entries[n].GetName() == n
  }

  /** The registry after module load, written out. */
  lemma LoadedRegistryIs()
    ensures LoadedRegistry() == Registry(
      map["mark_as_read" := MarkAsReadAction, "mark_as_unread" := MarkAsUnreadAction, "move_message" := MoveMessageAction],
      BuiltinNames)
  {
  }

  /** After module load exactly the three built-in names are registered, in
      source order, each once and each to the class whose `get_name()` it
      is; any other name is unknown. */
  lemma BuiltinsRegistered()
    ensures LoadedRegistry().Valid() && Keyed(LoadedRegistry())
    ensures LoadedRegistry().order == BuiltinNames
    ensures forall c: ActionClass :: Lookup(LoadedRegistry(), c.GetName()) == Ok(c)
    ensures forall n :: n !in BuiltinNames ==> Lookup(LoadedRegistry(), n) == Raise(ValueError("Unknown action: " + n))
  {
    LoadedRegistryIs();
    var r := Registries.Empty<ActionClass>();
    Registries.AssignPreservesValid(r, MarkAsReadAction.GetName(), MarkAsReadAction);
    r := r.Assign(MarkAsReadAction.GetName(), MarkAsReadAction);
    Registries.AssignPreservesValid(r, MarkAsUnreadAction.GetName(), MarkAsUnreadAction);
    r := r.Assign(MarkAsUnreadAction.GetName(), MarkAsUnreadAction);
    Registries.AssignPreservesValid(r, MoveMessageAction.GetName(), MoveMessageAction);
    forall c: ActionClass ensures Lookup(LoadedRegistry(), c.GetName()) == Ok(c) {
      match c
      case MarkAsReadAction =>
      case MarkAsUnreadAction =>
      case MoveMessageAction =>
    }
  }

  /** The action class registry; class-level state in the source, so one
      per process. */
  class Factory {
    var registry: Registry<ActionClass>

    ghost predicate Valid()
      reads this
    {
      registry.Valid() && Keyed(registry)
    }

    constructor ()
      ensures Valid() && registry == Registries.Empty<ActionClass>()
    {
      registry := Registries.Empty();
    }

    /** `register(action_class)`: store the class under its instance's
        name, replacing any earlier entry of that name, and return it. */
    method Register(actionClass: ActionClass) returns (r: ActionClass)
      requires Valid()
      modifies this
      ensures Valid()
      ensures r == actionClass
      ensures registry == old(registry).Assign(actionClass.GetName(), actionClass)
    {
      Registries.AssignPreservesValid(registry, actionClass.GetName(), actionClass);
      registry := registry.Assign(actionClass.GetName(), actionClass);
      r := actionClass;
    }

    /** `get_action(name)` */
    method GetAction(name: string) returns (r: Result<ActionClass>)
      ensures r == Lookup(registry, name)
    {
      if name in registry.entries {
        r := Ok(registry.entries[name]);
      } else {
        r := Raise(ValueError("Unknown action: " + name));
      }
    }

    /** `get_available_actions()`: the registered names, each once, in
        registration order. */
    method GetAvailableActions() returns (r: seq<string>)
      requires Valid()
      ensures forall n :: n in r <==> n in registry.entries
      ensures Registries.Distinct(r)
      ensures r == registry.order
    {
      r := registry.order;
    }
  }

  /** The module-level registrations. */
  method Load() returns (f: Factory)
    ensures fresh(f) && f.Valid()
    ensures f.registry == LoadedRegistry()
  {
    f := new Factory();
    var registered := f.Register(MarkAsReadAction);
    registered := f.Register(MarkAsUnreadAction);
    registered := f.Register(MoveMessageAction);
  }
}
