/**
 * The feature and class registries (`IdSet`): an append-only map from names
 * to integers in which a name seen for the first time gets the next free
 * integer and a name seen before keeps the one it got.
 */
module IdRegistry {

  /** The value of a registry: the names registered so far and the next free id. */
  datatype Registry = Registry(ids: map<string, nat>, next: nat)

  /** Every id in `a` is still there, with the same name, in `b`. */
  ghost predicate Extends(a: map<string, nat>, b: map<string, nat>)
  {
    forall n :: n in a ==> n in b && b[n] == a[n]
  }

  ghost predicate Injective(ids: map<string, nat>)
  {
    forall m, n :: m in ids && n in ids && m != n ==> ids[m] != ids[n]
  }

  /** The ids handed out so far lie in [first, next) and no two names share one. */
  ghost predicate WellFormed(r: Registry, first: nat)
  {
    && first <= r.next
    && (forall n :: n in r.ids ==> first <= r.ids[n] < r.next)
    && Injective(r.ids)
  }

  /** `getId(name)` on the registry value. */
  function Register(r: Registry, name: string): (r': Registry)
    ensures r'.ids.Keys == r.ids.Keys + {name}
    ensures Extends(r.ids, r'.ids)
    ensures name !in r.ids ==> r'.ids[name] == r.next && r'.next == r.next + 1
    ensures name in r.ids ==> r' == r
  {
    if name in r.ids then r else Registry(r.ids[name := r.next], r.next + 1)
  }

  /** Registering several names, one after the other. */
  function RegisterAll(r: Registry, names: seq<string>): (r': Registry)
    ensures r'.ids.Keys == r.ids.Keys + set n | n in names
    ensures Extends(r.ids, r'.ids)
  {
    if |names| == 0 then r
    else
      var init, last := names[..|names| - 1], names[|names| - 1];
      assert names == init + [last];
      assert (set n | n in names) == (set n | n in init) + {last};
      Register(RegisterAll(r, init), last)
  }

  /** A registration keeps ids unique and never changes an id already handed out. */
  lemma RegisterSpec(r: Registry, first: nat, name: string)
    requires WellFormed(r, first)
    ensures WellFormed(Register(r, name), first)
    ensures r.next <= Register(r, name).next
  {
  }

  lemma {:induction false} RegisterAllSpec(r: Registry, first: nat, names: seq<string>)
    requires WellFormed(r, first)
    ensures WellFormed(RegisterAll(r, names), first)
    ensures r.next <= RegisterAll(r, names).next
  {
    if |names| > 0 {
      var init := names[..|names| - 1];
      RegisterAllSpec(r, first, init);
      RegisterSpec(RegisterAll(r, init), first, names[|names| - 1]);
    }
  }

  lemma {:induction false} RegisterAllConcat(r: Registry, a: seq<string>, b: seq<string>)
    ensures RegisterAll(r, a + b) == RegisterAll(RegisterAll(r, a), b)
  {
    if |b| > 0 {
      var init := b[..|b| - 1];
      assert (a + b)[..|a + b| - 1] == a + init;
      RegisterAllConcat(r, a, init);
    } else {
      assert a + b == a;
    }
  }

  lemma ExtendsTransitive(a: map<string, nat>, b: map<string, nat>, c: map<string, nat>)
    requires Extends(a, b) && Extends(b, c)
    ensures Extends(a, c)
  {
  }

  /** A registry object; several builders may hold and grow the same one. */
  class IdSet {
    const firstId: nat
    var ids: map<string, nat>
    var nextFree: nat

    function State(): Registry
      reads this
    {
      Registry(ids, nextFree)
    }

    ghost predicate Valid()
      reads this
    {
      WellFormed(State(), firstId)
    }

    /** `IdSet(firstNum)`: an empty registry whose first id is `firstNum`. */
    constructor (firstId: nat)
      ensures Valid()
      ensures this.firstId == firstId && State() == Registry(map[], firstId)
    {
      this.firstId := firstId;
      ids := map[];
      nextFree := firstId;
    }

    /** `getId(name)`: the id of `name`, allocating the next free one for a new name. */
    method GetId(name: string) returns (id: nat)
      requires Valid()
      modifies this
      ensures Valid()
      ensures State() == Register(old(State()), name)
      ensures name in ids && id == ids[name]
    {
      if name !in ids {
        ids := ids[name := nextFree];
        nextFree := nextFree + 1;
      }
      id := ids[name];
    }
  }
}
