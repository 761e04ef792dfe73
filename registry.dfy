/**
 * `AdapterRegistry`: adapters keyed by name in a JavaScript `Map`, which remembers the order
 * in which names were first set. The map is modelled as the list of names in that order and a
 * finite map from name to adapter.
 */
module Registry {
  import opened Wrappers
  import opened Seqs
  import opened Errors

  /** The names without `name`, in their order (`Map.delete` keeps the order of the rest). */
  function Without(keys: seq<string>, name: string): (r: seq<string>)
    ensures forall x :: x in r <==> x in keys && x != name
    ensures |r| <= |keys|
  {
    if |keys| == 0 then []
    else Without(keys[..|keys| - 1], name) + (if keys[|keys| - 1] == name then [] else [keys[|keys| - 1]])
  }

  /** The adapters of the names, in that order (`Array.from(map.values())`). */
  function ValuesOf<A>(keys: seq<string>, adapters: map<string, A>): (r: seq<A>)
    requires forall x :: x in keys ==> x in adapters
    ensures |r| == |keys| && forall i :: 0 <= i < |keys| ==> r[i] == adapters[keys[i]]
  {
    seq(|keys|, i requires 0 <= i < |keys| => adapters[keys[i]])
  }

  function AlreadyRegistered(name: string): OrchestratorError {
    OrchestratorError(SysInternalError, "Adapter \"" + name + "\" is already registered")
  }

  function NotRegistered(name: string): OrchestratorError {
    OrchestratorError(LlmModelUnavailable, "Adapter \"" + name + "\" is not registered")
  }

  class AdapterRegistry<A> {
    /** `adapter.getName()` for the adapters this registry holds. */
    const nameOf: A -> string
    var keys: seq<string>
    var adapters: map<string, A>

    /** Each name is listed once, and the listed names are exactly the keys of the map. */
    ghost predicate Valid()
      reads this
    {
      Distinct(keys) && forall x :: x in keys <==> x in adapters
    }

    constructor(nameOf: A -> string)
      ensures this.nameOf == nameOf && keys == [] && adapters == map[] && Valid()
    {
      this.nameOf := nameOf;
      keys := [];
      adapters := map[];
    }

    /** Adds the adapter under its name; a name already present is refused and nothing changes. */
    method Register(adapter: A) returns (error: Option<OrchestratorError>)
      requires Valid()
      modifies this
      ensures Valid()
      ensures var name := nameOf(adapter);
              if name in old(adapters)
              then error == Some(AlreadyRegistered(name)) && keys == old(keys) && adapters == old(adapters)
              else error == None && keys == old(keys) + [name] && adapters == old(adapters)[name := adapter]
    {
      var name := nameOf(adapter);
      if name in adapters {
        return Some(AlreadyRegistered(name));
      }
      keys := keys + [name];
      adapters := adapters[name := adapter];
      return None;
    }

    function Get(name: string): (r: Result<A, OrchestratorError>)
      reads this
      ensures r.Ok? <==> name in adapters
      ensures r.Ok? ==> r.value == adapters[name]
      ensures r.Err? ==> r.error == NotRegistered(name)
    {
      if name in adapters then Ok(adapters[name]) else Err(NotRegistered(name))
    }

    /** `has`: exactly the names `get` finds. */
    predicate Has(name: string)
      reads this
      ensures Has(name) <==> Get(name).Ok?
      ensures !Has(name) ==> Get(name) == Err(NotRegistered(name))
    {
      name in adapters
    }

    /** `list`: every registered name once, in registration order, beside `getAll`'s adapters. */
    function List(): (r: seq<string>)
      requires Valid()
      reads this
      ensures Distinct(r) && forall x :: x in r <==> Has(x)
      ensures |r| == |GetAll()| && forall i :: 0 <= i < |r| ==> r[i] in adapters && GetAll()[i] == adapters[r[i]]
    {
      keys
    }

    function GetAll(): (r: seq<A>)
      requires Valid()
      reads this
      ensures |r| == |keys| && forall i :: 0 <= i < |keys| ==> r[i] == adapters[keys[i]]
    {
      ValuesOf(keys, adapters)
    }

    method Unregister(name: string) returns (removed: bool)
      requires Valid()
      modifies this
      ensures Valid()
      ensures removed <==> name in old(adapters)
      ensures keys == Without(old(keys), name) && adapters == old(adapters) - {name}
    {
      removed := name in adapters;
      WithoutDistinct(keys, name);
      keys := Without(keys, name);
      adapters := adapters - {name};
    }

    method Clear()
      requires Valid()
      modifies this
      ensures Valid() && keys == [] && adapters == map[]
    {
      keys := [];
      adapters := map[];
    }
  }

  // ----- Properties -----

  /** Removing a name keeps the rest distinct and drops exactly one position when it was listed. */
  lemma {:induction false} WithoutDistinct(keys: seq<string>, name: string)
    requires Distinct(keys)
    ensures Distinct(Without(keys, name))
    ensures |Without(keys, name)| == if name in keys then |keys| - 1 else |keys|
  {
    if |keys| > 0 {
      var front := keys[..|keys| - 1];
      assert Distinct(front);
      WithoutDistinct(front, name);
      assert keys[|keys| - 1] !in front;
      assert name in keys <==> name in front || name == keys[|keys| - 1];
    }
  }

  /** Removing a name keeps the other names in their relative order. */
  lemma WithoutKeepsOrder(keys: seq<string>, name: string, i: nat, j: nat)
    requires i < j < |keys| && keys[i] != name && keys[j] != name
    ensures exists i', j' :: 0 <= i' < j' < |Without(keys, name)|
              && Without(keys, name)[i'] == keys[i] && Without(keys, name)[j'] == keys[j]
  {
    WithoutSplit(keys, name, j);
    var w, front := Without(keys, name), Without(keys[..j], name);
    assert keys[..j][i] == keys[i];
    assert keys[i] in front;
    var i' :| 0 <= i' < |front| && front[i'] == keys[i];
    assert w[i'] == keys[i] && w[|front|] == keys[j];
  }

  /** The names before position `j` come through in `Without` before the name at `j`. */
  lemma WithoutSplit(keys: seq<string>, name: string, j: nat)
    requires j < |keys| && keys[j] != name
    ensures Without(keys, name) == Without(keys[..j], name) + [keys[j]] + Without(keys[j + 1..], name)
  {
    assert keys == keys[..j] + [keys[j]] + keys[j + 1..];
    WithoutAppend(keys[..j] + [keys[j]], keys[j + 1..], name);
    WithoutAppend(keys[..j], [keys[j]], name);
    assert Without([keys[j]], name) == [keys[j]] by {
      assert [keys[j]][..0] == [];
    }
  }

  lemma {:induction false} WithoutAppend(a: seq<string>, b: seq<string>, name: string)
    ensures Without(a + b, name) == Without(a, name) + Without(b, name)
  {
    if |b| == 0 {
      assert a + b == a;
    } else {
      WithoutAppend(a, b[..|b| - 1], name);
      assert (a + b)[..|a + b| - 1] == a + b[..|b| - 1];
    }
  }
}
