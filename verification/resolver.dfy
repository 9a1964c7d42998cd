/** Service resolution: the closure of the enabled services over a possibly cyclic catalog. */
module Resolving {
  import opened Names
  import opened TopologicalSorting

  datatype Conditional = Conditional(name: string, holds: bool)

  /** A catalog entry under one configuration: whether its activation conditions hold, whether it validates,
      and its dependencies with their conditions evaluated. */
  datatype Definition = Definition(active: bool, valid: bool, required: seq<string>, conditional: seq<Conditional>)

  type Catalog = map<string, Definition>

  datatype Failure =
    | Unresolved(service: string)                   // "failed to resolve"
    | DependencyFailed(service: string, dependency: string)
    | DependencyDisabled(service: string, dependency: string)
    | CircularDependency

  ghost function Needed(def: Definition): set<string> {
    (set d | d in def.required) + (set c | c in def.conditional && c.holds :: c.name)
  }

  /** collectDependencies: required and applicable conditional dependencies, each once, sorted. */
  method CollectDependencies(def: Definition) returns (deps: seq<string>)
    ensures Ascending(deps) && forall d :: d in deps <==> d in Needed(def)
  {
    var found: set<string> := {};
    for i := 0 to |def.required|
      invariant found == set d | d in def.required[..i]
    {
      assert def.required[..i + 1] == def.required[..i] + [def.required[i]];
      found := found + {def.required[i]};
    }
    assert def.required[..|def.required|] == def.required;
    for i := 0 to |def.conditional|
      invariant found == (set d | d in def.required) + (set c | c in def.conditional[..i] && c.holds :: c.name)
    {
      var c := def.conditional[i];
      assert def.conditional[..i + 1] == def.conditional[..i] + [c];
      if c.holds {
        found := found + {c.name};
      }
    }
    assert def.conditional[..|def.conditional|] == def.conditional;
    deps := SortedSet(found);
  }

  /** What resolveService can put into the graph. */
  predicate Resolvable(catalog: Catalog, name: string) {
    name in catalog && catalog[name].active && catalog[name].valid
  }

  /** What resolveService returns an error for. */
  predicate Broken(catalog: Catalog, name: string) {
    name !in catalog || (catalog[name].active && !catalog[name].valid)
  }

  /** The recorded dependencies are the collected ones. */
  ghost predicate Faithful(catalog: Catalog, services: Graph) {
    forall x {:trigger FaithfulAt(catalog, services, x)} :: x in services ==> FaithfulAt(catalog, services, x)
  }

  ghost predicate FaithfulAt(catalog: Catalog, services: Graph, x: string)
    requires x in services
  {
    Resolvable(catalog, x) && Ascending(services[x]) && forall d :: d in services[x] <==> d in Needed(catalog[x])
  }

  /** Every resolvable dependency of x is in the graph. */
  ghost predicate Supplied(catalog: Catalog, services: Graph, x: string) {
    x in catalog && forall d :: d in Needed(catalog[x]) && Resolvable(catalog, d) ==> d in services
  }

  ghost predicate Satisfied(catalog: Catalog, x: string) {
    x in catalog && forall d :: d in Needed(catalog[x]) ==> Resolvable(catalog, d)
  }

  /** u contains the resolvable dependencies of its members. */
  ghost predicate ClosedUnder(catalog: Catalog, u: set<string>) {
    forall x, d :: x in u && Resolvable(catalog, x) && d in Needed(catalog[x]) && Resolvable(catalog, d) ==> d in u
  }

  /** s is exactly what the enabled services pull in: the least set with the resolvable ones among them that is
      closed under resolvable dependencies. */
  ghost predicate IsClosure(catalog: Catalog, enabled: set<string>, s: set<string>) {
    && (forall x :: x in s ==> Resolvable(catalog, x))
    && (forall x :: x in enabled && Resolvable(catalog, x) ==> x in s)
    && ClosedUnder(catalog, s)
    && (forall u :: enabled <= u && ClosedUnder(catalog, u) ==> s <= u)
  }

  /** Nothing to report: no broken service is enabled, no dependency is unresolvable, no cycle. */
  ghost predicate Consistent(catalog: Catalog, enabled: set<string>, services: Graph) {
    && (forall e :: e in enabled ==> !Broken(catalog, e))
    && (forall x :: x in services ==> Satisfied(catalog, x))
    && !HasCycle(services)
  }

  lemma FaithfulIsGood(catalog: Catalog, services: Graph)
    requires Faithful(catalog, services)
    ensures GoodGraph(services)
  {
    forall x | x in services
      ensures NoDuplicates(services[x])
    {
      assert FaithfulAt(catalog, services, x);
      AscendingDistinct(services[x]);
    }
  }

  /** Without errors the order puts every collected dependency, not only the in-graph ones, before its dependent. */
  lemma ConsistentOrder(catalog: Catalog, enabled: set<string>, services: Graph, order: seq<string>, i: nat, d: string)
    requires Faithful(catalog, services) && IsClosure(catalog, enabled, services.Keys)
    requires Consistent(catalog, enabled, services) && ValidOrder(services, order)
    requires i < |order| && order[i] in catalog && d in Needed(catalog[order[i]])
    ensures d in services && d in order[..i]
  {
    var x := order[i];
    assert x in order && Satisfied(catalog, x) && FaithfulAt(catalog, services, x);
    assert x in services.Keys && d in services.Keys;
    assert DependsOn(services, x, d);
  }

  /** What visiting roots added to base: all of it supplied, fully satisfied exactly when clean, and nothing that
      roots do not pull in. */
  ghost predicate Visited(catalog: Catalog, base: set<string>, services: Graph, clean: bool, roots: set<string>) {
    && base <= services.Keys
    && (forall x {:trigger Supplied(catalog, services, x)} :: x in services && x !in base ==>
         Supplied(catalog, services, x))
    && (clean <==> forall x {:trigger Satisfied(catalog, x)} :: x in services && x !in base ==> Satisfied(catalog, x))
    && (forall u :: roots <= u && ClosedUnder(catalog, u) ==> services.Keys - base <= u)
  }

  ghost predicate Grown(was: Graph, now: Graph) {
    forall x :: x in was ==> x in now && now[x] == was[x]
  }

  /** One visit after another. */
  lemma VisitMore(catalog: Catalog, base: set<string>, s0: Graph, clean0: bool, roots0: set<string>, s1: Graph,
      clean1: bool, roots1: set<string>)
    requires Visited(catalog, base, s0, clean0, roots0) && Visited(catalog, s0.Keys, s1, clean1, roots1)
    requires Grown(s0, s1)
    ensures Visited(catalog, base, s1, clean0 && clean1, roots0 + roots1)
  {
    forall x | x in s1 && x !in base
      ensures Supplied(catalog, s1, x)
    {
      if x in s0 { assert Supplied(catalog, s0, x); }
    }
    if clean0 && clean1 {
      forall x | x in s1 && x !in base
        ensures Satisfied(catalog, x)
      {
        assert x in s0 || x !in s0;
      }
    } else if !clean0 {
      var x :| x in s0 && x !in base && !Satisfied(catalog, x);
      assert x in s1;
    }
    forall u | roots0 + roots1 <= u && ClosedUnder(catalog, u)
      ensures s1.Keys - base <= u
    {
      assert roots0 <= u && roots1 <= u;
      assert s1.Keys - base <= (s0.Keys - base) + (s1.Keys - s0.Keys);
    }
  }

  /** Visiting the resolvable dependencies of name completes the visit of name. */
  lemma VisitDone(catalog: Catalog, base: set<string>, s: Graph, clean: bool, name: string, roots: set<string>)
    requires Visited(catalog, base + {name}, s, clean, roots) && Resolvable(catalog, name) && name !in base
    requires forall d :: d in Needed(catalog[name]) && Resolvable(catalog, d) ==> d in s
    requires forall d :: d in roots ==> d in Needed(catalog[name]) && Resolvable(catalog, d)
    ensures Visited(catalog, base, s, clean && Satisfied(catalog, name), {name})
  {
    forall u | {name} <= u && ClosedUnder(catalog, u)
      ensures s.Keys - base <= u
    {
      assert roots <= u by {
        forall d | d in roots
          ensures d in u
        {
          assert name in u && d in Needed(catalog[name]);
        }
      }
      assert s.Keys - base <= (s.Keys - (base + {name})) + {name};
    }
  }

  lemma FaithfulPut(catalog: Catalog, services: Graph, name: string, deps: seq<string>)
    requires Faithful(catalog, services) && name !in services && Resolvable(catalog, name) && Ascending(deps)
    requires forall d :: d in deps <==> d in Needed(catalog[name])
    ensures Faithful(catalog, services[name := deps])
  {
    var s := services[name := deps];
    forall x | x in s
      ensures FaithfulAt(catalog, s, x)
    {
      if x != name { assert FaithfulAt(catalog, services, x); }
    }
  }

  /** A faithful graph visited from nothing, with the resolvable enabled services in it, is the closure. */
  lemma VisitedIsClosure(catalog: Catalog, enabled: set<string>, services: Graph, clean: bool, roots: set<string>)
    requires Faithful(catalog, services) && Visited(catalog, {}, services, clean, roots) && roots <= enabled
    requires forall e :: e in enabled && Resolvable(catalog, e) ==> e in services
    ensures IsClosure(catalog, enabled, services.Keys)
  {
    forall x | x in services
      ensures Resolvable(catalog, x) && Supplied(catalog, services, x)
    {
      assert FaithfulAt(catalog, services, x);
    }
  }

  class ResolutionGraph {
    var services: Graph
    var errors: seq<Failure>
    var order: seq<string>

    constructor ()
      ensures services == map[] && errors == [] && order == []
    {
      services, errors, order := map[], [], [];
    }

    /** resolveService: terminates on cycles because a service is in the graph before its dependencies are
        visited. It adds the resolvable services reachable from name, and reports an error exactly when one of
        them has an unresolvable dependency. */
    method ResolveService(catalog: Catalog, name: string) returns (failed: bool)
      requires Faithful(catalog, services)
      modifies this
      ensures order == old(order) && Faithful(catalog, services) && Grown(old(services), services)
      ensures failed <==> name !in old(services) && Broken(catalog, name)
      ensures Resolvable(catalog, name) <==> name in services
      ensures !Resolvable(catalog, name) ==> services == old(services) && errors == old(errors)
      ensures old(errors) <= errors && Visited(catalog, old(services).Keys, services, errors == old(errors), {name})
      decreases catalog.Keys - services.Keys, 0
    {
      if name in services {
        assert FaithfulAt(catalog, services, name);
        return false;
      }
      if name !in catalog {
        return true;
      }
      var def := catalog[name];
      if !def.active {
        return false;
      }
      if !def.valid {
        return true;
      }
      var deps := CollectDependencies(def);
      services := services[name := deps];
      FaithfulPut(catalog, old(services), name, deps);
      assert name in catalog.Keys - old(services).Keys;
      assert catalog.Keys - services.Keys == catalog.Keys - old(services).Keys - {name};
      ResolveDependencies(catalog, name, deps, old(services).Keys);
      failed := false;
    }

    /** One dependency of a service already in the graph: an error exactly when it, or something it pulls in,
        has no resolvable definition. */
    method ResolveDependency(catalog: Catalog, name: string, dep: string)
      requires Faithful(catalog, services)
      modifies this
      ensures order == old(order) && Faithful(catalog, services) && Grown(old(services), services)
      ensures Resolvable(catalog, dep) <==> dep in services
      ensures old(errors) <= errors
      ensures if Resolvable(catalog, dep)
        then Visited(catalog, old(services).Keys, services, errors == old(errors), {dep})
        else services == old(services) && errors != old(errors)
      decreases catalog.Keys - services.Keys, 1
    {
      var failed := ResolveService(catalog, dep);
      if failed {
        errors := errors + [DependencyFailed(name, dep)];
      } else if dep !in services {
        errors := errors + [DependencyDisabled(name, dep)];
      }
    }

    /** The loop over the dependencies of a service already in the graph. */
    method ResolveDependencies(catalog: Catalog, name: string, deps: seq<string>, ghost outer: set<string>)
      requires Faithful(catalog, services) && name in services && name !in outer && services[name] == deps
      requires services.Keys == outer + {name}
      modifies this
      ensures order == old(order) && Faithful(catalog, services) && Grown(old(services), services)
      ensures old(errors) <= errors && Visited(catalog, outer, services, errors == old(errors), {name})
      decreases catalog.Keys - services.Keys, 2
    {
      ghost var clean, roots: set<string> := true, {};
      assert FaithfulAt(catalog, services, name);
      for i := 0 to |deps|
        invariant order == old(order) && Faithful(catalog, services) && Grown(old(services), services)
        invariant old(errors) <= errors
        invariant errors == old(errors) <==> clean && forall d :: d in deps[..i] ==> Resolvable(catalog, d)
        invariant roots == set d | d in deps[..i] && Resolvable(catalog, d)
        invariant roots <= services.Keys
        invariant Visited(catalog, outer + {name}, services, clean, roots)
      {
        var dep := deps[i];
        assert deps[..i + 1] == deps[..i] + [dep];
        ghost var s0, e0 := services, errors;
        ResolveDependency(catalog, name, dep);
        if Resolvable(catalog, dep) {
          VisitMore(catalog, outer + {name}, s0, clean, roots, services, errors == e0, {dep});
          clean, roots := clean && errors == e0, roots + {dep};
        }
      }
      assert deps[..|deps|] == deps;
      assert FaithfulAt(catalog, services, name);
      VisitDone(catalog, outer, services, clean, name, roots);
    }

    /** Resolve on a fresh graph: the enabled services in sorted order, then the dependency order. */
    method Resolve(catalog: Catalog, enabled: set<string>)
      requires services == map[] && errors == [] && order == []
      modifies this
      ensures Faithful(catalog, services) && IsClosure(catalog, enabled, services.Keys)
      ensures errors == [] <==> Consistent(catalog, enabled, services)
      ensures !HasCycle(services) ==> ValidOrder(services, order) && Greedy(services, order)
      ensures HasCycle(services) ==> order == []
    {
      var names := SortedSet(enabled);
      ghost var clean, roots: set<string> := true, {};
      for i := 0 to |names|
        invariant order == [] && Faithful(catalog, services)
        invariant forall e :: e in names[..i] && Resolvable(catalog, e) ==> e in services
        invariant errors == [] <==> clean && forall e :: e in names[..i] ==> !Broken(catalog, e)
        invariant roots <= enabled && Visited(catalog, {}, services, clean, roots)
      {
        var name := names[i];
        assert names[..i + 1] == names[..i] + [name];
        assert name in names;
        ghost var s0, e0 := services, errors;
        var failed := ResolveService(catalog, name);
        VisitMore(catalog, {}, s0, clean, roots, services, errors == e0, {name});
        clean, roots := clean && errors == e0, roots + {name};
        if failed {
          errors := errors + [Unresolved(name)];
        }
      }
      assert names[..|names|] == names;
      FaithfulIsGood(catalog, services);
      VisitedIsClosure(catalog, enabled, services, clean, roots);
      var sorted := TopologicalSort(services);
      if sorted.None? {
        errors := errors + [CircularDependency];
      } else {
        order := sorted.value;
      }
    }
  }
}
