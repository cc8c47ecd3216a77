/**
 * The nested-scope symbol table of typemap.py.
 *
 * A `Typemap` keeps, for every registered scope id, a map from names to
 * declared types, and for every registered scope its parent scope.  File
 * scope has id -1 and is its own parent.  `Lookup` walks the parent chain
 * outward from a scope and returns the nearest binding.
 *
 * The walk is specified by `Walk`, a function over the two maps that takes
 * at most `fuel` parent steps; the lemmas below characterise its result
 * (nearest binding, unbound, missing scope), show that scopes off the
 * chain are never consulted, and show that a parent cycle the walk reaches
 * without finding the name makes it run forever.
 */
module Typemap {
  import opened Wrappers

  /** Scope id of file scope. */
  const Root: int := -1

  type Name = string

  /**
   * What `lookup` gives: the nearest binding, Python's None when no scope
   * on the chain binds the name, or the KeyError raised when the walk
   * reaches a scope id that was never registered.
   */
  datatype LookupResult<T> = Found(t: T) | NotFound | KeyError(scope: int)

  /**
   * The outcome of `lookup(name, s)` if the walk takes at most `fuel` parent
   * steps; None when it needs more.
   */
  function Walk<T>(scopes: map<int, map<Name, T>>, parents: map<int, int>, name: Name, s: int, fuel: nat): Option<LookupResult<T>>
    decreases fuel
  {
    if s == Root then
      if Root !in scopes then Some(KeyError(Root))
      else if name in scopes[Root] then Some(Found(scopes[Root][name]))
      else Some(NotFound)
    else if s !in scopes then Some(KeyError(s))
    else if name in scopes[s] then Some(Found(scopes[s][name]))
    else if s !in parents then Some(KeyError(s))
    else if fuel == 0 then None
    else Walk(scopes, parents, name, parents[s], fuel - 1)
  }

  /** `lookup(name, s)` stops after finitely many parent steps. */
  ghost predicate LookupTerminates<T>(scopes: map<int, map<Name, T>>, parents: map<int, int>, name: Name, s: int)
  {
    exists fuel: nat :: Walk(scopes, parents, name, s, fuel).Some?
  }

  /** Once the walk has stopped, more fuel does not change its outcome. */
  lemma {:induction false} WalkAgrees<T>(scopes: map<int, map<Name, T>>, parents: map<int, int>, name: Name, s: int, fuel: nat)
    requires Walk(scopes, parents, name, s, fuel).Some?
    ensures forall more: nat :: Walk(scopes, parents, name, s, more).Some? ==> Walk(scopes, parents, name, s, more) == Walk(scopes, parents, name, s, fuel)
    decreases fuel
  {
    forall more: nat | Walk(scopes, parents, name, s, more).Some?
      ensures Walk(scopes, parents, name, s, more) == Walk(scopes, parents, name, s, fuel)
    {
      if s != Root && s in scopes && name !in scopes[s] && s in parents {
        WalkAgrees(scopes, parents, name, parents[s], fuel - 1);
      }
    }
  }

  /** parent^k(s): the scope k links up the parent chain from `s`, if every link on the way exists. */
  function Ancestor(parents: map<int, int>, s: int, k: nat): Option<int>
    decreases k
  {
    if k == 0 then Some(s)
    else if s in parents then Ancestor(parents, parents[s], k - 1)
    else None
  }

  /** Scope number `j` of the chain from `s` is one the walk passes: registered, not file scope, not binding `name`. */
  ghost predicate PassedAt<T>(scopes: map<int, map<Name, T>>, parents: map<int, int>, name: Name, s: int, j: nat)
  {
    var a := Ancestor(parents, s, j);
    a.Some? && a.value != Root && a.value in scopes && a.value in parents && name !in scopes[a.value]
  }

  /** The walk passes the first `k` scopes of the chain from `s`. */
  ghost predicate PassesFirst<T>(scopes: map<int, map<Name, T>>, parents: map<int, int>, name: Name, s: int, k: nat)
  {
    forall j: nat :: j < k ==> PassedAt(scopes, parents, name, s, j)
  }

  /** Scope number `k` of the chain binds `name` to `t`, and the walk passes every scope before it. */
  ghost predicate NearestBindingAt<T>(scopes: map<int, map<Name, T>>, parents: map<int, int>, name: Name, s: int, k: nat, t: T)
  {
    && PassesFirst(scopes, parents, name, s, k)
    && var a := Ancestor(parents, s, k);
       a.Some? && a.value in scopes && name in scopes[a.value] && scopes[a.value][name] == t
  }

  /** The walk passes `k` scopes and then reaches file scope, which does not bind `name` either. */
  ghost predicate UnboundUpTo<T>(scopes: map<int, map<Name, T>>, parents: map<int, int>, name: Name, s: int, k: nat)
  {
    && PassesFirst(scopes, parents, name, s, k)
    && Ancestor(parents, s, k) == Some(Root)
    && Root in scopes && name !in scopes[Root]
  }

  lemma PassesFirstStep<T>(scopes: map<int, map<Name, T>>, parents: map<int, int>, name: Name, s: int, k: nat)
    requires s in parents
    ensures PassesFirst(scopes, parents, name, s, k + 1)
        <==> PassedAt(scopes, parents, name, s, 0) && PassesFirst(scopes, parents, name, parents[s], k)
  {
    if PassesFirst(scopes, parents, name, s, k + 1) {
      forall j: nat | j < k ensures PassedAt(scopes, parents, name, parents[s], j) {
        assert PassedAt(scopes, parents, name, s, j + 1);
      }
    }
    if PassedAt(scopes, parents, name, s, 0) && PassesFirst(scopes, parents, name, parents[s], k) {
      forall j: nat | j < k + 1 ensures PassedAt(scopes, parents, name, s, j) {
        if j > 0 { assert PassedAt(scopes, parents, name, parents[s], j - 1); }
      }
    }
  }

  /**
   * `lookup` returns a binding exactly when some scope on the chain s,
   * parent(s), ... binds the name and the walk reaches it, and then it is
   * the binding of the nearest such scope: inner bindings shadow outer ones.
   */
  lemma {:induction false} FoundIsNearestBinding<T>(scopes: map<int, map<Name, T>>, parents: map<int, int>, name: Name, s: int, fuel: nat, t: T)
    ensures Walk(scopes, parents, name, s, fuel) == Some(Found(t))
        <==> exists k: nat :: k <= fuel && NearestBindingAt(scopes, parents, name, s, k, t)
    decreases fuel
  {
    var here := s != Root && s in scopes && name !in scopes[s] && s in parents;
    if Walk(scopes, parents, name, s, fuel) == Some(Found(t)) {
      if here {
        FoundIsNearestBinding(scopes, parents, name, parents[s], fuel - 1, t);
        var k: nat :| k <= fuel - 1 && NearestBindingAt(scopes, parents, name, parents[s], k, t);
        PassesFirstStep(scopes, parents, name, s, k);
        assert NearestBindingAt(scopes, parents, name, s, k + 1, t);
      } else {
        assert NearestBindingAt(scopes, parents, name, s, 0, t);
      }
    }
    if exists k: nat :: k <= fuel && NearestBindingAt(scopes, parents, name, s, k, t) {
      var k: nat :| k <= fuel && NearestBindingAt(scopes, parents, name, s, k, t);
      if k == 0 {
        assert Ancestor(parents, s, 0) == Some(s);
      } else {
        assert PassedAt(scopes, parents, name, s, 0);
        PassesFirstStep(scopes, parents, name, s, k - 1);
        assert NearestBindingAt(scopes, parents, name, parents[s], k - 1, t);
        FoundIsNearestBinding(scopes, parents, name, parents[s], fuel - 1, t);
      }
    }
  }

  /**
   * `lookup` returns None exactly when the walk passes every scope of the
   * chain up to file scope and file scope does not bind the name either.
   */
  lemma {:induction false} NotFoundIsUnboundToRoot<T>(scopes: map<int, map<Name, T>>, parents: map<int, int>, name: Name, s: int, fuel: nat)
    ensures Walk(scopes, parents, name, s, fuel) == Some(NotFound)
        <==> exists k: nat :: k <= fuel && UnboundUpTo(scopes, parents, name, s, k)
    decreases fuel
  {
    var here := s != Root && s in scopes && name !in scopes[s] && s in parents;
    if Walk(scopes, parents, name, s, fuel) == Some(NotFound) {
      if here {
        NotFoundIsUnboundToRoot(scopes, parents, name, parents[s], fuel - 1);
        var k: nat :| k <= fuel - 1 && UnboundUpTo(scopes, parents, name, parents[s], k);
        PassesFirstStep(scopes, parents, name, s, k);
        assert UnboundUpTo(scopes, parents, name, s, k + 1);
      } else {
        assert UnboundUpTo(scopes, parents, name, s, 0);
      }
    }
    if exists k: nat :: k <= fuel && UnboundUpTo(scopes, parents, name, s, k) {
      var k: nat :| k <= fuel && UnboundUpTo(scopes, parents, name, s, k);
      if k == 0 {
        assert Ancestor(parents, s, 0) == Some(s);
      } else {
        assert PassedAt(scopes, parents, name, s, 0);
        PassesFirstStep(scopes, parents, name, s, k - 1);
        assert UnboundUpTo(scopes, parents, name, parents[s], k - 1);
        NotFoundIsUnboundToRoot(scopes, parents, name, parents[s], fuel - 1);
      }
    }
  }

  /** `a` is `s` itself or one of its ancestors. */
  ghost predicate OnChain(parents: map<int, int>, a: int, s: int)
  {
    exists k: nat :: Ancestor(parents, s, k) == Some(a)
  }

  /**
   * Replacing the bindings of a scope that is neither `s` nor one of its
   * ancestors (a sibling, a descendant, an unrelated scope) does not change
   * any lookup from `s`.
   */
  lemma {:induction false} OffChainScopesInvisible<T>(scopes: map<int, map<Name, T>>, parents: map<int, int>, name: Name, s: int, fuel: nat, x: int, m: map<Name, T>)
    requires x in scopes
    requires !OnChain(parents, x, s)
    ensures Walk(scopes[x := m], parents, name, s, fuel) == Walk(scopes, parents, name, s, fuel)
    decreases fuel
  {
    assert Ancestor(parents, s, 0) == Some(s);
    if s != Root && s in scopes && name !in scopes[s] && s in parents && fuel > 0 {
      forall k: nat ensures Ancestor(parents, parents[s], k) != Some(x) {
        assert Ancestor(parents, s, k + 1) == Ancestor(parents, parents[s], k);
      }
      OffChainScopesInvisible(scopes, parents, name, parents[s], fuel - 1, x, m);
    }
  }

  /** Immediately after `add_type(name, t, s)`, `lookup(name, s)` returns `t`, whatever lies above `s`. */
  lemma LookupAfterAddType<T>(scopes: map<int, map<Name, T>>, parents: map<int, int>, name: Name, t: T, s: int, fuel: nat)
    requires s in scopes
    ensures Walk(scopes[s := scopes[s][name := t]], parents, name, s, fuel) == Some(Found(t))
  {
  }

  /** `add_type(name, t, s)` changes no lookup of any other name, from any scope. */
  lemma {:induction false} AddTypeKeepsOtherNames<T>(scopes: map<int, map<Name, T>>, parents: map<int, int>, name: Name, t: T, s: int, other: Name, d: int, fuel: nat)
    requires s in scopes
    requires other != name
    ensures Walk(scopes[s := scopes[s][name := t]], parents, other, d, fuel) == Walk(scopes, parents, other, d, fuel)
    decreases fuel
  {
    if d != Root && d in scopes && other !in scopes[d] && d in parents && fuel > 0 {
      AddTypeKeepsOtherNames(scopes, parents, name, t, s, other, parents[d], fuel - 1);
    }
  }

  /**
   * When the parent chain from `s` reaches file scope through `k` registered
   * scopes, every lookup from `s` terminates within `k` steps.
   */
  lemma {:induction false} ChainToRootTerminates<T>(scopes: map<int, map<Name, T>>, parents: map<int, int>, name: Name, s: int, k: nat)
    requires Ancestor(parents, s, k) == Some(Root)
    requires forall j: nat :: j < k ==> var a := Ancestor(parents, s, j); a.Some? && a.value in scopes
    ensures Walk(scopes, parents, name, s, k).Some?
    ensures LookupTerminates(scopes, parents, name, s)
    decreases k
  {
    assert Ancestor(parents, s, 0) == Some(s);
    if s != Root && s in scopes && name !in scopes[s] && s in parents {
      forall j: nat | j < k - 1 ensures var a := Ancestor(parents, parents[s], j); a.Some? && a.value in scopes {
        assert Ancestor(parents, s, j + 1) == Ancestor(parents, parents[s], j);
      }
      ChainToRootTerminates(scopes, parents, name, parents[s], k - 1);
    }
  }

  /** parent^(i+k)(s) is parent^k of parent^i(s). */
  lemma {:induction false} AncestorSplit(parents: map<int, int>, s: int, i: nat, k: nat)
    ensures Ancestor(parents, s, i + k)
         == if Ancestor(parents, s, i).Some? then Ancestor(parents, Ancestor(parents, s, i).value, k) else None
    decreases i
  {
    if i > 0 && s in parents {
      AncestorSplit(parents, parents[s], i - 1, k);
    }
  }

  /** On a cycle of length `p` that the walk passes once, it passes every scope forever. */
  lemma {:induction false} CyclePassedAt<T>(scopes: map<int, map<Name, T>>, parents: map<int, int>, name: Name, s: int, p: nat, j: nat)
    requires p > 0 && Ancestor(parents, s, p) == Some(s)
    requires PassesFirst(scopes, parents, name, s, p)
    ensures PassedAt(scopes, parents, name, s, j)
    decreases j
  {
    if j >= p {
      AncestorSplit(parents, s, p, j - p);
      CyclePassedAt(scopes, parents, name, s, p, j - p);
    }
  }

  /** A walk that passes every scope of its chain never stops. */
  lemma {:induction false} PassingForeverNeverStops<T>(scopes: map<int, map<Name, T>>, parents: map<int, int>, name: Name, s: int, fuel: nat)
    requires forall j: nat :: PassedAt(scopes, parents, name, s, j)
    ensures Walk(scopes, parents, name, s, fuel) == None
    decreases fuel
  {
    assert PassedAt(scopes, parents, name, s, 0);
    if fuel > 0 {
      forall j: nat ensures PassedAt(scopes, parents, name, parents[s], j) {
        assert PassedAt(scopes, parents, name, s, j + 1);
      }
      PassingForeverNeverStops(scopes, parents, name, parents[s], fuel - 1);
    }
  }

  /**
   * `add_nest` does not check its parent argument, so the parent chain can
   * run in a cycle. If the chain from `s` comes back to `s` after `p` links
   * and no scope on the way is file scope or binds `name`, a lookup from `s`
   * never stops.
   */
  lemma CycleNeverTerminates<T>(scopes: map<int, map<Name, T>>, parents: map<int, int>, name: Name, s: int, p: nat)
    requires p > 0 && Ancestor(parents, s, p) == Some(s)
    requires PassesFirst(scopes, parents, name, s, p)
    ensures forall fuel: nat :: Walk(scopes, parents, name, s, fuel) == None
    ensures !LookupTerminates(scopes, parents, name, s)
  {
    forall j: nat ensures PassedAt(scopes, parents, name, s, j) {
      CyclePassedAt(scopes, parents, name, s, p, j);
    }
    forall fuel: nat ensures Walk(scopes, parents, name, s, fuel) == None {
      PassingForeverNeverStops(scopes, parents, name, s, fuel);
    }
  }

  /** The symbol table of typemap.py, with its two dictionaries updated in place. */
  class Typemap<T> {
    var typemapMap: map<int, map<Name, T>>
    var parentMap: map<int, int>

    /** File scope is always registered, and every registered scope has a parent entry. */
    ghost predicate Valid()
      reads this
    {
      Root in typemapMap && typemapMap.Keys == parentMap.Keys
    }

    /** A fresh table holds only file scope: no bindings, and its own parent. */
    constructor ()
      ensures Valid()
      ensures typemapMap == map[Root := map[]]
      ensures parentMap == map[Root := Root]
    {
      typemapMap := map[Root := map[]];
      parentMap := map[Root := Root];
    }

    /**
     * Registers scope `id` under `parentId` with no bindings, wiping any
     * bindings `id` had; the parent is not checked.
     */
    method AddNest(id: int, parentId: int := Root)
      requires Valid()
      modifies this
      ensures Valid()
      ensures typemapMap == old(typemapMap)[id := map[]]
      ensures parentMap == old(parentMap)[id := parentId]
    {
      typemapMap := typemapMap[id := map[]];
      parentMap := parentMap[id := parentId];
    }

    /**
     * Binds `name` to `t` in scope `nestId` only, replacing an earlier
     * binding there; `ok` is false, and nothing changes, when `nestId` is
     * not registered (the source raises KeyError).
     */
    method AddType(name: Name, t: T, nestId: int) returns (ok: bool)
      requires Valid()
      modifies this
      ensures Valid()
      ensures ok <==> nestId in old(typemapMap)
      ensures ok ==> typemapMap == old(typemapMap)[nestId := old(typemapMap)[nestId][name := t]]
      ensures !ok ==> typemapMap == old(typemapMap)
      ensures parentMap == old(parentMap)
    {
      ok := nestId in typemapMap;
      if ok {
        typemapMap := typemapMap[nestId := typemapMap[nestId][name := t]];
      }
    }

    /**
     * Walks the parent chain outward from `nest` and returns what the walk
     * finds; the table is left unchanged.  The source loops forever when the
     * walk never stops, so that is excluded.
     */
    method Lookup(name: Name, nest: int) returns (r: LookupResult<T>)
      requires Valid()
      requires LookupTerminates(typemapMap, parentMap, name, nest)
      ensures forall fuel: nat :: Walk(typemapMap, parentMap, name, nest, fuel).Some? ==> Walk(typemapMap, parentMap, name, nest, fuel) == Some(r)
    {
      ghost var fuel: nat :| Walk(typemapMap, parentMap, name, nest, fuel).Some?;
      WalkAgrees(typemapMap, parentMap, name, nest, fuel);
      ghost var left := fuel;
      var nestId := nest;
      while nestId != Root
        invariant Walk(typemapMap, parentMap, name, nestId, left) == Walk(typemapMap, parentMap, name, nest, fuel)
        decreases left
      {
        if nestId !in typemapMap {
          return KeyError(nestId);
        }
        if name in typemapMap[nestId] {
          return Found(typemapMap[nestId][name]);
        }
        nestId := parentMap[nestId];
        left := left - 1;
      }
      if name in typemapMap[Root] {
        r := Found(typemapMap[Root][name]);
      } else {
        r := NotFound;
      }
    }
  }
  /**
   * File scope binds x to int; function scope 1 rebinds it to char; blocks
   * 2 and 3 are siblings inside scope 1, and only block 3 binds y.  From
   * block 2, x is the char of scope 1 and y is unbound; from file scope,
   * x is int; scope 4 was never registered.
   */
  lemma ShadowingExample()
    ensures var scopes := map[Root := map["x" := "int"], 1 := map["x" := "char"], 2 := map[], 3 := map["y" := "long"]];
            var parents := map[Root := Root, 1 := Root, 2 := 1, 3 := 1];
            && Walk(scopes, parents, "x", 2, 2) == Some(Found("char"))
            && Walk(scopes, parents, "y", 2, 2) == Some(NotFound)
            && Walk(scopes, parents, "x", Root, 0) == Some(Found("int"))
            && Walk(scopes, parents, "x", 4, 0) == Some(KeyError(4))
  {
    var scopes := map[Root := map["x" := "int"], 1 := map["x" := "char"], 2 := map[], 3 := map["y" := "long"]];
    var parents := map[Root := Root, 1 := Root, 2 := 1, 3 := 1];
    assert Walk(scopes, parents, "x", 1, 1) == Some(Found("char"));
    assert Walk(scopes, parents, "y", Root, 0) == Some(NotFound);
    assert Walk(scopes, parents, "y", 1, 1) == Some(NotFound);
  }
}
