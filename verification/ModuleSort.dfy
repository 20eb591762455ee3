/** The module loader of app/platform/module/discovery.py: it rejects duplicate names, drops
    disabled modules and sorts the rest so that every module follows its dependencies. */
module ModuleSort {
  import opened Graphs
  import opened Sequences

  datatype ModuleSpec = ModuleSpec(
    name: string,
    enabled: bool,
    dependsOn: seq<string>,
    order: int,
    startupHooks: seq<string>,
    shutdownHooks: seq<string>)

  datatype Loaded = Specs(specs: seq<ModuleSpec>) | DuplicateName(name: string) | CircularDependency

  ghost predicate UniqueNames(specs: seq<ModuleSpec>) {
    forall i, j :: 0 <= i < j < |specs| ==> specs[i].name != specs[j].name
  }

  /** The last spec of a name wins, as in the source's dictionary comprehension. */
  function ByName(specs: seq<ModuleSpec>): map<string, ModuleSpec> {
    if specs == [] then map[] else ByName(specs[..|specs| - 1])[specs[|specs| - 1].name := specs[|specs| - 1]]
  }

  lemma {:induction false} ByNameFinds(specs: seq<ModuleSpec>)
    requires UniqueNames(specs)
    ensures forall i :: 0 <= i < |specs| ==> specs[i].name in ByName(specs) && ByName(specs)[specs[i].name] == specs[i]
    ensures forall n :: n in ByName(specs) ==> ByName(specs)[n] in specs && ByName(specs)[n].name == n
  {
    if specs != [] {
      ByNameFinds(specs[..|specs| - 1]);
    }
  }

  /** The dependency graph restricted to the modules that are present. */
  ghost function DependencyGraph(byName: map<string, ModuleSpec>): Graph<string> {
    map n | n in byName :: set d | d in byName[n].dependsOn
  }

  /** Every dependency on a present module stands before the module that declares it. */
  ghost predicate DependenciesFirst(order: seq<ModuleSpec>, byName: map<string, ModuleSpec>) {
    forall i, d :: 0 <= i < |order| && d in order[i].dependsOn && d in byName ==>
      exists j :: 0 <= j < i && order[j].name == d
  }

  /** What the search has emitted so far: each visited module that is present, once, as
      declared, and behind its dependencies. */
  ghost predicate Emitted(byName: map<string, ModuleSpec>, visited: set<string>, result: seq<ModuleSpec>) {
    && UniqueNames(result)
    && (forall i :: 0 <= i < |result| ==>
          result[i].name in byName && result[i].name in visited && byName[result[i].name] == result[i])
    && (forall n :: n in visited && n in byName ==> exists i :: 0 <= i < |result| && result[i].name == n)
    && DependenciesFirst(result, byName)
  }

  lemma {:induction false} EmittedNext(byName: map<string, ModuleSpec>, visited: set<string>,
                                       result: seq<ModuleSpec>, name: string)
    requires Emitted(byName, visited, result)
    requires name in byName && byName[name].name == name && name !in visited
    requires forall d :: d in byName[name].dependsOn ==> d in visited
    ensures Emitted(byName, visited + {name}, result + [byName[name]])
  {
    var after := result + [byName[name]];
    assert forall i :: 0 <= i < |result| ==> after[i] == result[i];
    assert after[|result|] == byName[name];
    forall n | n in visited + {name} && n in byName
      ensures exists i :: 0 <= i < |after| && after[i].name == n
    {
      if n in visited {
        var i :| 0 <= i < |result| && result[i].name == n;
        assert after[i].name == n;
      }
    }
    DependenciesStayFirst(byName, visited, result, name);
  }

  lemma {:induction false} DependenciesStayFirst(byName: map<string, ModuleSpec>, visited: set<string>,
                                                 result: seq<ModuleSpec>, name: string)
    requires Emitted(byName, visited, result) && name in byName
    requires forall d :: d in byName[name].dependsOn ==> d in visited
    ensures DependenciesFirst(result + [byName[name]], byName)
  {
    var after := result + [byName[name]];
    forall i, d | 0 <= i < |after| && d in after[i].dependsOn && d in byName
      ensures exists j :: 0 <= j < i && after[j].name == d
    {
      if i < |result| {
        assert d in result[i].dependsOn;
      }
      var j :| 0 <= j < |result| && j < i && result[j].name == d;
      assert after[j].name == d;
    }
  }

  /** The mutable state that the nested function `visit` closes over. */
  class Search {
    const byName: map<string, ModuleSpec>
    var visited: set<string>
    var path: set<string>
    var result: seq<ModuleSpec>

    constructor (byName: map<string, ModuleSpec>)
      ensures this.byName == byName && visited == {} && path == {} && result == []
    {
      this.byName := byName;
      visited, path, result := {}, {}, [];
    }

    /** `trail` lists the modules being visited, each depending on the next one. */
    ghost predicate Valid(trail: seq<string>)
      reads this
    {
      && (forall n :: n in byName ==> byName[n].name == n)
      && path == (set n | n in trail) && path <= byName.Keys && path !! visited
      && Walk(DependencyGraph(byName), trail)
      && Emitted(byName, visited, result)
    }

    /** Depth-first visit of `name`; a true result stands for the ValueError it raises. */
    method Visit(name: string, ghost trail: seq<string>) returns (circular: bool)
      requires Valid(trail)
      requires |trail| > 0 ==> name in byName[trail[|trail| - 1]].dependsOn
      modifies this
      ensures circular ==> !Acyclic(DependencyGraph(byName))
      ensures !circular ==> Valid(trail) && path == old(path)
      ensures !circular ==> name in visited && old(visited) <= visited && old(result) <= result
      decreases byName.Keys - path
    {
      if name in visited {
        return false;
      }
      if name in path {
        ClosesCycle(trail, name);
        return true;
      }
      if name !in byName {
        visited := visited + {name};
        return false;
      }
      var spec := byName[name];
      path := path + {name};
      ghost var longer := trail + [name];
      assert byName.Keys - path < old(byName.Keys - path) by {
        assert name in old(byName.Keys - path);
      }
      ghost var onPath := path;
      var k := 0;
      while k < |spec.dependsOn|
        invariant k <= |spec.dependsOn|
        invariant Valid(longer) && path == onPath
        invariant forall i :: 0 <= i < k ==> spec.dependsOn[i] in visited
        invariant old(visited) <= visited && old(result) <= result
      {
        var failed := Visit(spec.dependsOn[k], longer);
        if failed {
          return true;
        }
        k := k + 1;
      }
      Leave(name, trail);
      return false;
    }

    /** Emits a module whose dependencies have all been visited. */
    method Leave(name: string, ghost trail: seq<string>)
      requires Valid(trail + [name]) && name !in trail && name in byName
      requires forall d :: d in byName[name].dependsOn ==> d in visited
      modifies this
      ensures Valid(trail) && path == old(path) - {name}
      ensures visited == old(visited) + {name} && result == old(result) + [byName[name]]
    {
      EmittedNext(byName, visited, result, name);
      assert (trail + [name])[..|trail|] == trail;
      path := path - {name};
      visited := visited + {name};
      result := result + [byName[name]];
    }

    /** Meeting a module that is on the path closes a cycle. */
    lemma {:induction false} ClosesCycle(trail: seq<string>, name: string)
      requires Valid(trail) && name in path && name in byName[trail[|trail| - 1]].dependsOn
      ensures !Acyclic(DependencyGraph(byName))
    {
      var g := DependencyGraph(byName);
      var i :| 0 <= i < |trail| && trail[i] == name;
      var w := trail[i..] + [name];
      forall k | 0 <= k < |w| - 1
        ensures Edge(g, w[k], w[k + 1])
      {
        if i + k + 1 < |trail| {
          assert Edge(g, trail[i + k], trail[i + k + 1]);
        }
      }
      assert Cycle(g, w);
    }
  }

  /** An order with dependencies first numbers the graph, so there is no cycle. */
  lemma {:induction false} OrderedIsAcyclic(byName: map<string, ModuleSpec>, visited: set<string>,
          result: seq<ModuleSpec>)
    requires Emitted(byName, visited, result) && byName.Keys <= visited
    ensures Acyclic(DependencyGraph(byName))
  {
    var g := DependencyGraph(byName);
    var rank := map n | n in byName :: Position(result, n);
    forall a, b | a in g && b in g && Edge(g, a, b)
      ensures rank[b] < rank[a]
    {
      var i :| 0 <= i < |result| && result[i].name == a;
      assert b in result[i].dependsOn;
      var j :| 0 <= j < i && result[j].name == b;
      PositionIs(result, i);
      PositionIs(result, j);
    }
    RankedIsAcyclic(g, rank);
  }

  function Position(specs: seq<ModuleSpec>, name: string): int {
    if specs == [] then 0 else if specs[0].name == name then 0 else 1 + Position(specs[1..], name)
  }

  lemma {:induction false} PositionIs(specs: seq<ModuleSpec>, i: nat)
    requires UniqueNames(specs) && i < |specs|
    ensures Position(specs, specs[i].name) == i
  {
    if i > 0 {
      PositionIs(specs[1..], i - 1);
    }
  }

  /** Once every input name is visited the output is the input, reordered. */
  lemma {:induction false} AllEmitted(specs: seq<ModuleSpec>, visited: set<string>, result: seq<ModuleSpec>)
    requires UniqueNames(specs) && Emitted(ByName(specs), visited, result)
    requires forall s :: s in specs ==> s.name in visited
    ensures multiset(result) == multiset(specs)
    ensures Acyclic(DependencyGraph(ByName(specs)))
  {
    ByNameFinds(specs);
    forall s
      ensures s in result <==> s in specs
    {
      if s in specs {
        var i :| 0 <= i < |result| && result[i].name == s.name;
        assert result[i] == s;
      }
    }
    SameElements(result, specs);
    OrderedIsAcyclic(ByName(specs), visited, result);
  }

  /** The specs whose names the search did not resolve. */
  method Unresolved(specs: seq<ModuleSpec>, result: seq<ModuleSpec>) returns (remaining: seq<ModuleSpec>)
    ensures forall s :: s in remaining <==> s in specs && forall r :: r in result ==> r.name != s.name
  {
    var resolvedNames := set s | s in result :: s.name;
    remaining := [];
    for k := 0 to |specs|
      invariant forall s :: s in remaining <==> s in specs[..k] && s.name !in resolvedNames
    {
      assert specs[..k + 1] == specs[..k] + [specs[k]];
      if specs[k].name !in resolvedNames {
        remaining := remaining + [specs[k]];
      }
    }
    assert specs[..|specs|] == specs;
  }

  /** The loop over the modules: visits each one that no earlier visit has reached. */
  method VisitAll(specs: seq<ModuleSpec>, search: Search)
    returns (circular: bool)
    requires search.byName == ByName(specs) && search.Valid([])
    modifies search
    ensures circular ==> !Acyclic(DependencyGraph(ByName(specs)))
    ensures !circular ==> search.Valid([])
    ensures !circular ==> forall s :: s in specs ==> s.name in search.visited
  {
    var k := 0;
    while k < |specs|
      invariant k <= |specs| && search.Valid([])
      invariant forall i :: 0 <= i < k ==> specs[i].name in search.visited
    {
      if specs[k].name !in search.visited {
        circular := search.Visit(specs[k].name, []);
        if circular {
          return;
        }
      }
      k := k + 1;
    }
    circular := false;
  }

  /** Sorts by dependency: it fails exactly when the graph of the present modules has a cycle,
      and otherwise returns a permutation of the input with dependencies first.  `remaining`
      is what the source would sort by (order, name): nothing is ever left for that. */
  method TopologicalSort(specs: seq<ModuleSpec>) returns (out: Loaded, remaining: seq<ModuleSpec>)
    requires UniqueNames(specs)
    ensures out.Specs? || out.CircularDependency?
    ensures out.CircularDependency? <==> !Acyclic(DependencyGraph(ByName(specs)))
    ensures out.Specs? ==> multiset(out.specs) == multiset(specs) && UniqueNames(out.specs)
    ensures out.Specs? ==> DependenciesFirst(out.specs, ByName(specs))
    ensures remaining == []
  {
    ByNameFinds(specs);
    var search := new Search(ByName(specs));
    var circular := VisitAll(specs, search);
    if circular {
      return CircularDependency, [];
    }
    var result := search.result;
    AllEmitted(specs, search.visited, result);
    remaining := Unresolved(specs, result);
    NothingLeft(specs, result, remaining);
    return Specs(result + remaining), remaining;
  }

  lemma {:induction false} NothingLeft(specs: seq<ModuleSpec>, result: seq<ModuleSpec>, remaining: seq<ModuleSpec>)
    requires multiset(result) == multiset(specs)
    requires forall s :: s in remaining ==> s in specs && forall r :: r in result ==> r.name != s.name
    ensures remaining == [] && result + remaining == result
  {
    assert remaining == [] || remaining[0] in remaining;
    forall s | s in specs
      ensures s in result
    {
      assert s in multiset(specs);
      assert s in multiset(result);
    }
  }

  // ---- Collecting the specs ----

  predicate IsEnabled(spec: ModuleSpec, enabled: set<string>, disabled: set<string>) {
    if spec.name in disabled then false else if spec.name in enabled then true else spec.enabled
  }

  function EnabledOnly(manifests: seq<ModuleSpec>, enabled: set<string>, disabled: set<string>): seq<ModuleSpec> {
    if manifests == [] then []
    else
      var last := manifests[|manifests| - 1];
      EnabledOnly(manifests[..|manifests| - 1], enabled, disabled)
      + (if IsEnabled(last, enabled, disabled) then [last] else [])
  }

  /** Being disabled wins over being enabled, and both over the flag of the manifest. */
  ghost predicate TakesEnabled(manifests: seq<ModuleSpec>, enabled: set<string>, disabled: set<string>,
          specs: seq<ModuleSpec>) {
    forall s :: s in specs <==> s in manifests && s.name !in disabled && (s.name in enabled || s.enabled)
  }

  lemma {:induction false} EnabledAre(manifests: seq<ModuleSpec>, enabled: set<string>, disabled: set<string>,
          specs: seq<ModuleSpec>)
    requires multiset(specs) == multiset(EnabledOnly(manifests, enabled, disabled))
    ensures TakesEnabled(manifests, enabled, disabled, specs)
  {
    EnabledOnlyTakes(manifests, enabled, disabled);
    SameMembers(specs, EnabledOnly(manifests, enabled, disabled));
  }

  lemma {:induction false} EnabledOnlyTakes(manifests: seq<ModuleSpec>, enabled: set<string>, disabled: set<string>)
    ensures TakesEnabled(manifests, enabled, disabled, EnabledOnly(manifests, enabled, disabled))
  {
    if manifests != [] {
      var init, last := manifests[..|manifests| - 1], manifests[|manifests| - 1];
      EnabledOnlyTakes(init, enabled, disabled);
      assert manifests == init + [last];
    }
  }

  lemma {:induction false} SameMembers(a: seq<ModuleSpec>, b: seq<ModuleSpec>)
    requires multiset(a) == multiset(b)
    ensures forall s :: s in a <==> s in b
  {
    forall s
      ensures s in a <==> s in b
    {
      assert s in a <==> s in multiset(a);
      assert s in b <==> s in multiset(b);
    }
  }

  /** An earlier enabled manifest has taken the name of number j, whether or not that is enabled. */
  ghost predicate Clashes(manifests: seq<ModuleSpec>, enabled: set<string>, disabled: set<string>, j: int)
    requires 0 <= j < |manifests|
  {
    exists i :: 0 <= i < j && manifests[i].name == manifests[j].name && IsEnabled(manifests[i], enabled, disabled)
  }

  /** The first manifest that clashes has this name. */
  ghost predicate FirstClash(manifests: seq<ModuleSpec>, enabled: set<string>, disabled: set<string>, name: string) {
    exists j :: 0 <= j < |manifests| && Clashes(manifests, enabled, disabled, j) && manifests[j].name == name
      && forall k :: 0 <= k < j ==> !Clashes(manifests, enabled, disabled, k)
  }

  /** The loader: duplicates are checked before the enabled flag, then the survivors are sorted. */
  method LoadModuleSpecs(manifests: seq<ModuleSpec>, enabled: set<string>, disabled: set<string>)
    returns (out: Loaded)
    ensures out.DuplicateName? <==> exists j :: 0 <= j < |manifests| && Clashes(manifests, enabled, disabled, j)
    ensures out.DuplicateName? ==> FirstClash(manifests, enabled, disabled, out.name)
    ensures out.Specs? ==> TakesEnabled(manifests, enabled, disabled, out.specs)
    ensures var kept := EnabledOnly(manifests, enabled, disabled);
            !out.DuplicateName? ==>
              && (out.CircularDependency? <==> !Acyclic(DependencyGraph(ByName(kept))))
              && (out.Specs? ==> multiset(out.specs) == multiset(kept) && UniqueNames(out.specs)
                                 && DependenciesFirst(out.specs, ByName(kept)))
  {
    var specs: seq<ModuleSpec> := [];
    var seen: set<string> := {};
    var k := 0;
    while k < |manifests|
      invariant k <= |manifests|
      invariant specs == EnabledOnly(manifests[..k], enabled, disabled)
      invariant seen == (set i | 0 <= i < k && IsEnabled(manifests[i], enabled, disabled) :: manifests[i].name)
      invariant UniqueNames(specs) && forall s :: s in specs ==> s.name in seen
      invariant forall j :: 0 <= j < k ==> !Clashes(manifests, enabled, disabled, j)
    {
      var spec := manifests[k];
      assert spec.name in seen <==> Clashes(manifests, enabled, disabled, k);
      if spec.name in seen {
        return DuplicateName(spec.name);
      }
      assert manifests[..k + 1][..k] == manifests[..k];
      if IsEnabled(spec, enabled, disabled) {
        seen := seen + {spec.name};
        specs := specs + [spec];
      }
      k := k + 1;
    }
    assert manifests[..k] == manifests;
    var remaining;
    out, remaining := TopologicalSort(specs);
    if out.Specs? {
      EnabledAre(manifests, enabled, disabled, out.specs);
    }
  }
}
