/** Startup and shutdown hooks of app/platform/module/hooks.py over a sorted module list.

    A hook call is recorded with the module it belongs to.  A call that raises stops the run:
    `raises` says which calls do. */
module Hooks {
  import opened ModuleSort

  datatype Call = Call(mod: string, hook: string)

  function CallsOf(spec: ModuleSpec, shutdown: bool): seq<Call> {
    var hooks := if shutdown then spec.shutdownHooks else spec.startupHooks;
    seq(|hooks|, i requires 0 <= i < |hooks| => Call(spec.name, hooks[i]))
  }

  /** All calls, module by module in list order. */
  function Trace(specs: seq<ModuleSpec>, shutdown: bool): seq<Call> {
    if specs == [] then [] else CallsOf(specs[0], shutdown) + Trace(specs[1..], shutdown)
  }

  function Reversed(specs: seq<ModuleSpec>): seq<ModuleSpec> {
    seq(|specs|, i requires 0 <= i < |specs| => specs[|specs| - 1 - i])
  }

  /** `made` is the part of `all` up to the first call that raises. */
  ghost predicate StopsAtFirstError(all: seq<Call>, made: seq<Call>, ok: bool, raises: Call -> bool) {
    && |made| <= |all| && made == all[..|made|]
    && (forall i :: 0 <= i < |made| ==> !raises(made[i]))
    && (if ok then |made| == |all| else |made| < |all| && raises(all[|made|]))
  }

  /** Calls the hooks of one module in the order listed, up to the first that raises. */
  method RunHooks(spec: ModuleSpec, shutdown: bool, raises: Call -> bool) returns (made: seq<Call>, ok: bool)
    ensures StopsAtFirstError(CallsOf(spec, shutdown), made, ok, raises)
    ensures var hooks := if shutdown then spec.shutdownHooks else spec.startupHooks;
            && |made| <= |hooks|
            && (forall i :: 0 <= i < |made| ==> made[i] == Call(spec.name, hooks[i]) && !raises(made[i]))
            && (if ok then |made| == |hooks| else |made| < |hooks| && raises(Call(spec.name, hooks[|made|])))
  {
    var hooks := if shutdown then spec.shutdownHooks else spec.startupHooks;
    made := [];
    for k := 0 to |hooks|
      invariant made == CallsOf(spec, shutdown)[..k]
      invariant forall i :: 0 <= i < k ==> !raises(made[i])
    {
      var call := Call(spec.name, hooks[k]);
      if raises(call) {
        return made, false;
      }
      made := made + [call];
    }
    return made, true;
  }

  /** The calls of one module, placed in the whole trace. */
  lemma {:induction false} Placed(all: seq<Call>, before: seq<Call>, mine: seq<Call>, rest: seq<Call>,
          made: seq<Call>, ok: bool, raises: Call -> bool)
    requires all == before + mine + rest
    requires forall i :: 0 <= i < |before| ==> !raises(before[i])
    requires StopsAtFirstError(mine, made, ok, raises)
    ensures forall i :: 0 <= i < |before + made| ==> !raises((before + made)[i])
    ensures if ok then (before + made) + rest == all else StopsAtFirstError(all, before + made, false, raises)
  {
  }

  method RunAll(specs: seq<ModuleSpec>, shutdown: bool, raises: Call -> bool) returns (made: seq<Call>, ok: bool)
    ensures StopsAtFirstError(Trace(specs, shutdown), made, ok, raises)
  {
    made := [];
    assert specs[0..] == specs;
    for k := 0 to |specs|
      invariant made + Trace(specs[k..], shutdown) == Trace(specs, shutdown)
      invariant forall i :: 0 <= i < |made| ==> !raises(made[i])
    {
      var part;
      part, ok := RunHooks(specs[k], shutdown, raises);
      ghost var mine, rest := CallsOf(specs[k], shutdown), Trace(specs[k + 1..], shutdown);
      assert specs[k..][1..] == specs[k + 1..];
      assert Trace(specs, shutdown) == made + mine + rest;
      Placed(Trace(specs, shutdown), made, mine, rest, part, ok, raises);
      made := made + part;
      if !ok {
        return;
      }
    }
    ok := true;
  }

  /** How many startup hooks the first `n` modules have. */
  ghost function StartupBefore(specs: seq<ModuleSpec>, n: nat): nat
    requires n <= |specs|
  {
    if n == 0 then 0 else |specs[0].startupHooks| + StartupBefore(specs[1..], n - 1)
  }

  /** How many shutdown hooks the modules from position `n` on have. */
  ghost function ShutdownFrom(specs: seq<ModuleSpec>, n: nat): nat
    requires n <= |specs|
  {
    if n == |specs| then 0 else |specs[|specs| - 1].shutdownHooks| + ShutdownFrom(specs[..|specs| - 1], n)
  }

  /** Position `p` of a startup is for hook `k` of module `i`: modules in list order, the hooks of one
      module in theirs. */
  ghost predicate StartupAt(specs: seq<ModuleSpec>, i: nat, k: nat, p: nat) {
    i < |specs| && k < |specs[i].startupHooks| && p == StartupBefore(specs, i) + k
  }

  /** The same for shutdown: the last module first. */
  ghost predicate ShutdownAt(specs: seq<ModuleSpec>, i: nat, k: nat, p: nat) {
    i < |specs| && k < |specs[i].shutdownHooks| && p == ShutdownFrom(specs, i + 1) + k
  }

  /** Calls every startup hook, module by module in list order, up to the first that raises. */
  method RunStartupHooks(specs: seq<ModuleSpec>, raises: Call -> bool) returns (made: seq<Call>, ok: bool)
    ensures StopsAtFirstError(Trace(specs, false), made, ok, raises)
    ensures forall p :: 0 <= p < |made| ==> !raises(made[p])
    ensures forall i: nat, k: nat, p: nat :: StartupAt(specs, i, k, p) && p < |made| ==>
              made[p] == Call(specs[i].name, specs[i].startupHooks[k])
    ensures |made| <= StartupBefore(specs, |specs|) && (ok <==> |made| == StartupBefore(specs, |specs|))
    ensures !ok ==> exists i: nat, k: nat ::
              StartupAt(specs, i, k, |made|) && raises(Call(specs[i].name, specs[i].startupHooks[k]))
  {
    made, ok := RunAll(specs, false, raises);
    StartupLength(specs);
    forall i: nat, k: nat, p: nat | StartupAt(specs, i, k, p)
      ensures p < |Trace(specs, false)| && Trace(specs, false)[p] == Call(specs[i].name, specs[i].startupHooks[k])
    {
      StartupTrace(specs, i, k);
    }
    if !ok {
      ghost var i, k := StartupPlace(specs, |made|);
      assert StartupAt(specs, i, k, |made|);
    }
  }

  /** Calls every shutdown hook, the last module first, up to the first that raises. */
  method RunShutdownHooks(specs: seq<ModuleSpec>, raises: Call -> bool) returns (made: seq<Call>, ok: bool)
    ensures StopsAtFirstError(Trace(Reversed(specs), true), made, ok, raises)
    ensures forall p :: 0 <= p < |made| ==> !raises(made[p])
    ensures forall i: nat, k: nat, p: nat :: ShutdownAt(specs, i, k, p) && p < |made| ==>
              made[p] == Call(specs[i].name, specs[i].shutdownHooks[k])
    ensures |made| <= ShutdownFrom(specs, 0) && (ok <==> |made| == ShutdownFrom(specs, 0))
    ensures !ok ==> exists i: nat, k: nat ::
              ShutdownAt(specs, i, k, |made|) && raises(Call(specs[i].name, specs[i].shutdownHooks[k]))
  {
    made, ok := RunAll(Reversed(specs), true, raises);
    ShutdownLength(specs);
    forall i: nat, k: nat, p: nat | ShutdownAt(specs, i, k, p)
      ensures p < |Trace(Reversed(specs), true)|
      ensures Trace(Reversed(specs), true)[p] == Call(specs[i].name, specs[i].shutdownHooks[k])
    {
      ShutdownTrace(specs, i, k);
    }
    if !ok {
      ghost var i, k := ShutdownPlace(specs, |made|);
      assert ShutdownAt(specs, i, k, |made|);
    }
  }

  lemma {:induction false} StartupLength(specs: seq<ModuleSpec>)
    ensures |Trace(specs, false)| == StartupBefore(specs, |specs|)
  {
    if specs != [] {
      StartupLength(specs[1..]);
    }
  }

  lemma {:induction false} StartupTrace(specs: seq<ModuleSpec>, i: nat, k: nat)
    requires i < |specs| && k < |specs[i].startupHooks|
    ensures StartupBefore(specs, i) + k < |Trace(specs, false)|
    ensures Trace(specs, false)[StartupBefore(specs, i) + k] == Call(specs[i].name, specs[i].startupHooks[k])
  {
    if i > 0 {
      StartupTrace(specs[1..], i - 1, k);
    }
  }

  /** Every position of the trace is some hook's. */
  lemma {:induction false} StartupPlace(specs: seq<ModuleSpec>, p: nat) returns (i: nat, k: nat)
    requires p < |Trace(specs, false)|
    ensures StartupAt(specs, i, k, p)
  {
    var n := |specs[0].startupHooks|;
    if p < n {
      i, k := 0, p;
    } else {
      i, k := StartupPlace(specs[1..], p - n);
      i := i + 1;
    }
  }

  lemma {:induction false} ReversedTail(specs: seq<ModuleSpec>)
    requires specs != []
    ensures var last := |specs| - 1;
            Trace(Reversed(specs), true) == CallsOf(specs[last], true) + Trace(Reversed(specs[..last]), true)
  {
    assert Reversed(specs)[1..] == Reversed(specs[..|specs| - 1]);
  }

  lemma {:induction false} ShutdownLength(specs: seq<ModuleSpec>)
    ensures |Trace(Reversed(specs), true)| == ShutdownFrom(specs, 0)
  {
    if specs != [] {
      ReversedTail(specs);
      ShutdownLength(specs[..|specs| - 1]);
    }
  }

  lemma {:induction false} ShutdownTrace(specs: seq<ModuleSpec>, i: nat, k: nat)
    requires i < |specs| && k < |specs[i].shutdownHooks|
    ensures ShutdownFrom(specs, i + 1) + k < |Trace(Reversed(specs), true)|
    ensures Trace(Reversed(specs), true)[ShutdownFrom(specs, i + 1) + k] ==
            Call(specs[i].name, specs[i].shutdownHooks[k])
  {
    ReversedTail(specs);
    if i < |specs| - 1 {
      ShutdownTrace(specs[..|specs| - 1], i, k);
    }
  }

  lemma {:induction false} ShutdownPlace(specs: seq<ModuleSpec>, p: nat) returns (i: nat, k: nat)
    requires p < |Trace(Reversed(specs), true)|
    ensures ShutdownAt(specs, i, k, p)
  {
    ReversedTail(specs);
    var n := |specs[|specs| - 1].shutdownHooks|;
    if p < n {
      i, k := |specs| - 1, p;
    } else {
      i, k := ShutdownPlace(specs[..|specs| - 1], p - n);
    }
  }

  /** Two calls of a trace come from modules in the same order. */
  lemma {:induction false} TraceFollowsList(specs: seq<ModuleSpec>, shutdown: bool, p: nat, q: nat)
    returns (i: nat, j: nat)
    requires p <= q < |Trace(specs, shutdown)|
    ensures i <= j < |specs|
    ensures Trace(specs, shutdown)[p].mod == specs[i].name && Trace(specs, shutdown)[q].mod == specs[j].name
  {
    var n := |CallsOf(specs[0], shutdown)|;
    if p < n {
      i := 0;
      if q < n {
        j := 0;
      } else {
        var a, b := TraceFollowsList(specs[1..], shutdown, q - n, q - n);
        j := b + 1;
      }
    } else {
      var a, b := TraceFollowsList(specs[1..], shutdown, p - n, q - n);
      i, j := a + 1, b + 1;
    }
  }

  /** `user` depends on `used`, and both are in the sorted list. */
  ghost predicate DependsOn(order: seq<ModuleSpec>, user: string, used: string) {
    exists i :: 0 <= i < |order| && order[i].name == user && used in order[i].dependsOn
  }

  lemma {:induction false} DependencyIsEarlier(order: seq<ModuleSpec>, byName: map<string, ModuleSpec>, i: nat,
          j: nat)
    requires UniqueNames(order) && DependenciesFirst(order, byName)
    requires i < |order| && j < |order|
    requires order[j].name in byName && DependsOn(order, order[i].name, order[j].name)
    ensures j < i
  {
  }

  /** Shutdown makes every call of a module before any call of a module it depends on; startup
      the other way round.  A run that stops at an error has made a prefix of these calls. */
  lemma {:induction false} HooksRespectDependencies(order: seq<ModuleSpec>, byName: map<string, ModuleSpec>,
          user: string, used: string)
    requires UniqueNames(order) && DependenciesFirst(order, byName)
    requires used in byName && DependsOn(order, user, used)
    ensures var t := Trace(Reversed(order), true);
            forall p, q :: 0 <= p < |t| && 0 <= q < |t| && t[p].mod == user && t[q].mod == used ==> p < q
    ensures var t := Trace(order, false);
            forall p, q :: 0 <= p < |t| && 0 <= q < |t| && t[p].mod == user && t[q].mod == used ==> q < p
  {
    var t := Trace(Reversed(order), true);
    forall p, q | 0 <= p < |t| && 0 <= q < |t| && t[p].mod == user && t[q].mod == used
      ensures p < q
    {
      if q <= p {
        var j, i := TraceFollowsList(Reversed(order), true, q, p);
        DependencyIsEarlier(order, byName, |order| - 1 - i, |order| - 1 - j);
      }
    }
    t := Trace(order, false);
    forall p, q | 0 <= p < |t| && 0 <= q < |t| && t[p].mod == user && t[q].mod == used
      ensures q < p
    {
      if p <= q {
        var i, j := TraceFollowsList(order, false, p, q);
        DependencyIsEarlier(order, byName, i, j);
      }
    }
  }
}
