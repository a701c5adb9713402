/** The class-level dict both factories keep: registered classes by name,
    with the dict's key order (`list(d.keys())` lists keys in first
    insertion order; re-assigning a key keeps its place). */
module Registries {
  import opened Wrappers

  /** No name occurs twice. */
  ghost predicate Distinct(names: seq<string>) {
    forall i, j :: 0 <= i < j < |names| ==> names[i] != names[j]
  }

  datatype Registry<C> = Registry(entries: map<string, C>, order: seq<string>) {

    /** `order` lists every key exactly once. */
    ghost predicate Valid() {
      Distinct(order) && entries.Keys == set n | n in order
    }

    /** `d[name] = c`: the key set gains `name`, and the key order only
        grows at its end. */
    function Assign(name: string, c: C): (r: Registry<C>)
      ensures name in r.entries && r.entries[name] == c
      ensures order <= r.order && |r.order| <= |order| + 1
    {
      Registry(entries[name := c], if name in entries then order else order + [name])
    }

    /** `d.get(name)`: `None` exactly for a name that is not a key. */
    function Get(name: string): (r: Option<C>)
      ensures r.None? <==> name !in entries
      ensures r.Some? ==> r.value == entries[name]
    {
      if name in entries then Some(entries[name]) else None
    }
  }

  function Empty<C>(): (r: Registry<C>)
    ensures r.Valid()
  {
    Registry(map[], [])
  }

  /** Assigning keeps every key listed once. */
  lemma AssignPreservesValid<C>(r: Registry<C>, name: string, c: C)
    requires r.Valid()
    ensures r.Assign(name, c).Valid()
  {
    var r' := r.Assign(name, c);
    if name !in r.entries {
      forall i, j | 0 <= i < j < |r'.order|
        ensures r'.order[i] != r'.order[j]
      {
        if j == |r.order| {
          assert r.order[i] in r.entries;
        }
      }
    }
  }

  /** After an assignment the name finds the new class, an earlier entry of
      that name is replaced, and every other name finds what it found
      before. */
  lemma GetAfterAssign<C>(r: Registry<C>, name: string, c: C, other: string)
    ensures r.Assign(name, c).Get(name) == Some(c)
    ensures other != name ==> r.Assign(name, c).Get(other) == r.Get(other)
    ensures name in r.entries ==> r.Assign(name, c).order == r.order
  {
  }
}
