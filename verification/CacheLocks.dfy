/** The cache protocol runs on the lock table: whatever CacheProtocol lets a thread do with the key
    locks, the locks of KeyLocks can do, by the calls the code makes and under the discipline that
    their freedom from deadlock rests on.  ProtocolUsesLocks and LocksRefineStacks are the other half. */
module CacheLocks {
  import opened CacheProtocol
  import KeyLocks
  import opened Wrappers

  type KeyTable = KeyLocks.Locks<Key>

  /** The lock machine is at rest, and every thread holds what its program point says. */
  ghost predicate Holds(locks: KeyTable, s: State) {
    KeyLocks.Quiet(locks) && forall t: Tid :: locks.At(t).stack == Stack(s.At(t))
  }

  lemma {:induction false} FollowStep(env: Env, s: State, s': State, t: Tid, eff: Effect, locks: KeyTable)
    returns (run: seq<KeyTable>)
    requires StepBy(env, s, s', t, eff) && KeyLocks.Inv(locks) && Holds(locks, s)
    ensures KeyLocks.Steps(run) && run[0] == locks && Holds(run[|run| - 1], s')
  {
    var blocking := StepShape(env, s, s', t, eff);
    run := FollowStack(locks, t, Stack(s.At(t)), Stack(s'.At(t)), blocking);
    forall u: Tid
      ensures run[|run| - 1].At(u).stack == Stack(s'.At(u))
    {
      assert u != t ==> s'.At(u) == s.At(u);
    }
  }

  /** What a step asks of the locks. */
  ghost predicate Allowed(locks: KeyTable, t: Tid, stack: seq<Key>, stack': seq<Key>, blocking: bool) {
    || stack' == stack
    || (|stack'| == |stack| + 1 && stack'[..|stack|] == stack
        && (blocking ==> forall j :: j in stack ==> j == stack'[|stack|])
        && (stack'[|stack|] in stack || forall u: Tid :: u != t ==> stack'[|stack|] !in locks.At(u).stack))
    || (stack != [] && stack' == stack[..|stack| - 1])
  }

  lemma {:induction false} FollowStack(locks: KeyTable, t: Tid, stack: seq<Key>, stack': seq<Key>, blocking: bool)
    returns (run: seq<KeyTable>)
    requires KeyLocks.Inv(locks) && KeyLocks.Quiet(locks) && locks.At(t).stack == stack
    requires Allowed(locks, t, stack, stack', blocking)
    ensures KeyLocks.Steps(run) && run[0] == locks && KeyLocks.Quiet(run[|run| - 1])
    ensures run[|run| - 1].At(t).stack == stack' && KeyLocks.OnlyMoved(locks, run[|run| - 1], t)
  {
    if stack' == stack {
      run := [locks];
    } else if |stack'| > |stack| {
      assert stack' == stack + [stack'[|stack|]];
      run := KeyLocks.CanEnter(locks, t, stack'[|stack|], blocking);
    } else {
      run := KeyLocks.CanLeave(locks, t);
    }
  }

  lemma {:induction false} StepShape(env: Env, s: State, s': State, t: Tid, eff: Effect) returns (blocking: bool)
    requires StepBy(env, s, s', t, eff)
    ensures blocking <==> BlockingOn(s.At(t)).Some?
    ensures forall locks: KeyTable :: Holds(locks, s) ==> Allowed(locks, t, Stack(s.At(t)), Stack(s'.At(t)), blocking)
  {
    blocking := BlockingOn(s.At(t)).Some?;
    LocalMovesStack(env, s.now, s.data, s.meta, s.At(t), s'.At(t), eff);
    if |Stack(s'.At(t))| > |Stack(s.At(t))| {
      BlockingDiscipline(env, s.now, s.data, s.meta, s.At(t), s'.At(t), eff);
      assert Stack(s'.At(t))[|Stack(s.At(t))|] in Stack(s'.At(t));
    }
  }

  /** In every state of every run of the cache there is a run of the lock machine, since the last
      crash, that ends with exactly these locks held. */
  lemma {:induction false} LocksFollow(env: Env, run: seq<State>, i: nat) returns (locks: seq<KeyTable>)
    requires Run(env, run) && i < |run|
    ensures KeyLocks.Run(locks) && Holds(locks[|locks| - 1], run[i])
  {
    var start: KeyTable := KeyLocks.Locks(None, map[], 0, map[], map[]);
    if i == 0 || run[i].threads == map[] {
      locks := [start];
    } else {
      var before := LocksFollow(env, run, i - 1);
      locks := FollowNext(env, run[i - 1], run[i - 1 + 1], before);
    }
  }

  lemma {:induction false} FollowNext(env: Env, s: State, s': State, before: seq<KeyTable>)
    returns (locks: seq<KeyTable>)
    requires Next(env, s, s') && s'.threads != map[]
    requires KeyLocks.Run(before) && Holds(before[|before| - 1], s)
    ensures KeyLocks.Run(locks) && Holds(locks[|locks| - 1], s')
  {
    if t, eff :| StepBy(env, s, s', t, eff) {
      KeyLocks.RunKeepsInv(before, |before| - 1);
      var more := FollowStep(env, s, s', t, eff, before[|before| - 1]);
      locks := KeyLocks.Join(before, more);
    } else {
      locks := before;
      assert forall t: Tid :: s'.At(t) == s.At(t);
    }
  }
}
