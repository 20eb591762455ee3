/** The per-key reentrant locks of app/modules/judge/file_cache.py: a table from keys to lock
    objects, guarded by one plain lock, and blocking or non-blocking acquisition of what the
    table holds.  Every access to the table and to a lock object is a step of its own.

    The locks a thread holds are its `stack`, outermost first.  Callers follow the cache's
    discipline (CacheProtocol.BlockingDiscipline): a thread that holds a key lock acquires
    another key only without blocking. */
module KeyLocks {
  import opened Wrappers

  type Tid = nat
  type LockId = nat

  /** Where a thread is in `_key_lock` or in the acquire that follows. */
  datatype Call<K> =
    | NoCall
    | WaitMap(key: K, blocking: bool)
    | Looking(key: K, blocking: bool)
    | Missing(key: K, blocking: bool)
    | Made(key: K, blocking: bool, lock: LockId)
    | Found(key: K, blocking: bool, lock: LockId)
    | Acquiring(key: K, blocking: bool, lock: LockId)

  datatype Thread<K> = Thread(call: Call<K>, stack: seq<K>)

  datatype Hold = Hold(owner: Tid, depth: nat)

  datatype Locks<K(==)> = Locks(
    mapOwner: Option<Tid>,
    table: map<K, LockId>,
    made: nat,
    held: map<LockId, Hold>,
    threads: map<Tid, Thread<K>>)
  {
    function At(t: Tid): Thread<K> {
      if t in threads then threads[t] else Thread(NoCall, [])
    }

    function With(t: Tid, call: Call<K>): Locks<K> {
      this.(threads := threads[t := At(t).(call := call)])
    }
  }

  ghost predicate Init<K>(s: Locks<K>) {
    s.mapOwner == None && s.table == map[] && s.held == map[] && s.threads == map[]
  }

  // ---- Steps ----

  /** Entering `_key_lock`. */
  ghost predicate Start<K>(s: Locks<K>, s': Locks<K>, t: Tid, key: K, blocking: bool) {
    && s.At(t).call == NoCall && (blocking ==> forall k :: k in s.At(t).stack ==> k == key)
    && s' == s.With(t, WaitMap(key, blocking))
  }

  /** Acquiring the lock object: RLock semantics.  None while the thread is blocked. */
  function Acquired<K>(s: Locks<K>, t: Tid, key: K, blocking: bool, lock: LockId): Option<Locks<K>> {
    if lock !in s.held || s.held[lock].owner == t then
      var depth := if lock in s.held then s.held[lock].depth + 1 else 1;
      Some(s.(held := s.held[lock := Hold(t, depth)],
              threads := s.threads[t := Thread(NoCall, s.At(t).stack + [key])]))
    else if blocking then None
    else Some(s.With(t, NoCall))
  }

  /** Leaving the innermost `with`.  None, in place of the error RLock raises, if the thread does
      not own that lock: NoDeadlock shows that this does not happen. */
  function Released<K>(s: Locks<K>, t: Tid): Option<Locks<K>> {
    var stack := s.At(t).stack;
    if stack == [] then None
    else
      var key := stack[|stack| - 1];
      if key !in s.table || s.table[key] !in s.held || s.held[s.table[key]].owner != t then None
      else
        var lock, hold := s.table[key], s.held[s.table[key]];
        Some(s.(held := if hold.depth <= 1 then s.held - {lock} else s.held[lock := Hold(t, hold.depth - 1)],
                threads := s.threads[t := Thread(NoCall, stack[..|stack| - 1])]))
  }

  /** Carrying on a started operation: through `_key_lock`, the acquire, and at last the release. */
  function Advance<K>(s: Locks<K>, t: Tid): Option<Locks<K>> {
    match s.At(t).call
    case NoCall => Released(s, t)
    case WaitMap(key, b) => if s.mapOwner == None then Some(s.(mapOwner := Some(t)).With(t, Looking(key, b))) else None
    case Looking(key, b) => Some(s.With(t, if key in s.table then Found(key, b, s.table[key]) else Missing(key, b)))
    case Missing(key, b) => Some(s.(made := s.made + 1).With(t, Made(key, b, s.made)))
    case Made(key, b, l) => Some(s.(table := s.table[key := l]).With(t, Found(key, b, l)))
    case Found(key, b, l) => Some(s.(mapOwner := None).With(t, Acquiring(key, b, l)))
    case Acquiring(key, b, l) => Acquired(s, t, key, b, l)
  }

  ghost predicate StepBy<K(!new)>(s: Locks<K>, s': Locks<K>, t: Tid) {
    Advance(s, t) == Some(s') || exists key, blocking :: Start(s, s', t, key, blocking)
  }

  ghost predicate Next<K(!new)>(s: Locks<K>, s': Locks<K>) {
    exists t: Tid :: StepBy(s, s', t)
  }

  ghost predicate Run<K(!new)>(run: seq<Locks<K>>) {
    && |run| > 0 && Init(run[0])
    && forall i :: 0 <= i < |run| - 1 ==> Next(run[i], run[i + 1])
  }

  // ---- The invariant ----

  predicate InLookup<K>(c: Call<K>) {
    !c.NoCall? && !c.Acquiring?
  }

  ghost predicate InsideMap<K>(c: Call<K>) {
    c.Looking? || c.Missing? || c.Made? || c.Found?
  }

  ghost predicate MapLockOk<K>(s: Locks<K>) {
    forall t: Tid :: InsideMap(s.At(t).call) <==> s.mapOwner == Some(t)
  }

  /** Different keys have different lock objects. */
  ghost predicate TableOk<K(!new)>(s: Locks<K>) {
    && (forall k :: k in s.table ==> s.table[k] < s.made)
    && (forall j, k :: j in s.table && k in s.table && s.table[j] == s.table[k] ==> j == k)
  }

  ghost predicate CallOk<K>(s: Locks<K>, t: Tid) {
    var c := s.At(t).call;
    && (c.Missing? || c.Made? ==> c.key !in s.table)
    && (c.Made? ==> c.lock < s.made && forall k :: k in s.table ==> s.table[k] != c.lock)
    && (c.Found? || c.Acquiring? ==> c.key in s.table && s.table[c.key] == c.lock)
    && (!c.NoCall? && c.blocking ==> forall k :: k in s.At(t).stack ==> k == c.key)
  }

  ghost predicate Owns<K>(s: Locks<K>, t: Tid, k: K) {
    k in s.table && s.table[k] in s.held && s.held[s.table[k]].owner == t
  }

  /** A held lock is on its owner's stack as often as its depth says. */
  ghost predicate DepthOk<K>(s: Locks<K>, k: K) {
    k in s.table && s.table[k] in s.held ==>
      var h := s.held[s.table[k]];
      h.depth > 0 && multiset(s.At(h.owner).stack)[k] == h.depth
  }

  ghost predicate HoldsOk<K(!new)>(s: Locks<K>) {
    && (forall t: Tid, k :: k in s.At(t).stack ==> Owns(s, t, k))
    && s.held.Keys <= s.table.Values
    && (forall k :: DepthOk(s, k))
  }

  ghost predicate CallsOk<K(!new)>(s: Locks<K>) {
    MapLockOk(s) && TableOk(s) && forall t: Tid :: CallOk(s, t)
  }

  ghost predicate Inv<K(!new)>(s: Locks<K>) {
    CallsOk(s) && HoldsOk(s)
  }

  /** A step inside `_key_lock` changes nothing about the other threads. */
  lemma {:induction false} LookupIsOwn<K(!new)>(s: Locks<K>, s': Locks<K>, t: Tid)
    requires InLookup(s.At(t).call) && Advance(s, t) == Some(s')
    ensures forall u: Tid :: s'.At(u).stack == s.At(u).stack
    ensures forall u: Tid :: u != t ==> s'.At(u) == s.At(u)
    ensures s'.held == s.held
    ensures s'.table == if s.At(t).call.Made? then s.table[s.At(t).call.key := s.At(t).call.lock] else s.table
    ensures s.made <= s'.made
  {
  }

  lemma {:induction false} LookupKeepsMapLock<K(!new)>(s: Locks<K>, s': Locks<K>, t: Tid)
    requires MapLockOk(s) && InLookup(s.At(t).call) && Advance(s, t) == Some(s')
    ensures MapLockOk(s')
  {
    forall u: Tid
      ensures InsideMap(s'.At(u).call) <==> s'.mapOwner == Some(u)
    {
      assert InsideMap(s.At(u).call) <==> s.mapOwner == Some(u);
      assert InsideMap(s.At(t).call) <==> s.mapOwner == Some(t);
    }
  }

  lemma {:induction false} LookupKeepsCalls<K(!new)>(s: Locks<K>, s': Locks<K>, t: Tid)
    requires CallsOk(s) && InLookup(s.At(t).call) && Advance(s, t) == Some(s')
    ensures CallsOk(s')
  {
    LookupIsOwn(s, s', t);
    LookupKeepsMapLock(s, s', t);
    assert CallOk(s, t);
    forall u: Tid
      ensures CallOk(s', u)
    {
      LookupKeepsCall(s, s', t, u);
    }
  }

  lemma {:induction false} LookupKeepsCall<K(!new)>(s: Locks<K>, s': Locks<K>, t: Tid, u: Tid)
    requires MapLockOk(s) && TableOk(s) && CallOk(s, t) && CallOk(s, u)
    requires InLookup(s.At(t).call) && Advance(s, t) == Some(s')
    ensures CallOk(s', u)
  {
    LookupIsOwn(s, s', t);
    if s.At(t).call.Made? {
      assert InsideMap(s.At(t).call);
      assert u != t ==> !InsideMap(s.At(u).call);
    }
  }

  lemma {:induction false} LookupKeepsHolds<K(!new)>(s: Locks<K>, s': Locks<K>, t: Tid)
    requires CallsOk(s) && HoldsOk(s) && InLookup(s.At(t).call) && Advance(s, t) == Some(s')
    ensures HoldsOk(s')
  {
    LookupIsOwn(s, s', t);
    assert CallOk(s, t);
    if s.At(t).call.Made? {
      NewEntryKeepsHolds(s, s', s.At(t).call.key, s.At(t).call.lock);
    } else {
      SameStacks(s, s');
    }
  }

  /** A new entry for a lock that nobody holds changes nothing about the others. */
  lemma {:induction false} NewEntryKeepsHolds<K(!new)>(s: Locks<K>, s': Locks<K>, key: K, lock: LockId)
    requires HoldsOk(s) && key !in s.table && forall k :: k in s.table ==> s.table[k] != lock
    requires s'.table == s.table[key := lock] && s'.held == s.held
    requires forall u: Tid :: s'.At(u).stack == s.At(u).stack
    ensures HoldsOk(s')
  {
    forall u: Tid, k | k in s'.At(u).stack
      ensures Owns(s', u, k)
    {
      assert Owns(s, u, k);
    }
    forall l | l in s'.held
      ensures l in s'.table.Values && l != lock
    {
      var k :| k in s.table && s.table[k] == l;
      assert k in s'.table && s'.table[k] == l;
    }
    forall k
      ensures DepthOk(s', k)
    {
      assert DepthOk(s, k);
    }
  }

  lemma {:induction false} OtherStepKeepsCalls<K(!new)>(s: Locks<K>, s': Locks<K>, t: Tid)
    requires CallsOk(s)
    requires (!InLookup(s.At(t).call) && Advance(s, t) == Some(s')) || exists key, b :: Start(s, s', t, key, b)
    ensures CallsOk(s')
  {
    assert s'.table == s.table && s'.made == s.made && s'.mapOwner == s.mapOwner;
    assert forall u: Tid :: u != t ==> s'.At(u) == s.At(u);
    assert !InsideMap(s.At(t).call) && !InsideMap(s'.At(t).call);
    assert CallOk(s', t);
    forall u: Tid
      ensures CallOk(s', u)
    {
      assert CallOk(s, u);
    }
    forall u: Tid
      ensures InsideMap(s'.At(u).call) <==> s'.mapOwner == Some(u)
    {
      assert InsideMap(s.At(u).call) <==> s.mapOwner == Some(u);
    }
  }

  /** Pushing or popping one key of one thread, with the depth of its lock kept in step. */
  lemma {:induction false} HoldsMoved<K(!new)>(s: Locks<K>, s': Locks<K>, t: Tid, key: K)
    requires CallsOk(s) && HoldsOk(s) && key in s.table
    requires s'.table == s.table && s'.held.Keys <= s.held.Keys + {s.table[key]}
    requires forall u: Tid :: u != t ==> s'.At(u) == s.At(u)
    requires forall l :: l != s.table[key] ==>
               (l in s'.held <==> l in s.held) && (l in s.held ==> s'.held[l] == s.held[l])
    requires forall k :: k != key ==> multiset(s'.At(t).stack)[k] == multiset(s.At(t).stack)[k]
    requires s.table[key] in s.held ==> s.held[s.table[key]].owner == t
    requires if s.table[key] in s'.held then s'.held[s.table[key]] == Hold(t, multiset(s'.At(t).stack)[key])
                                        else multiset(s'.At(t).stack)[key] == 0
    requires s.table[key] in s'.held ==> multiset(s'.At(t).stack)[key] > 0
    ensures HoldsOk(s')
  {
    forall u: Tid, k | k in s'.At(u).stack
      ensures Owns(s', u, k)
    {
      assert multiset(s'.At(u).stack)[k] > 0;
      assert k in s.At(u).stack ==> Owns(s, u, k);
      if k != key {
        assert multiset(s.At(u).stack)[k] > 0;
        assert s.table[k] != s.table[key];
      }
    }
    forall k
      ensures DepthOk(s', k)
    {
      assert DepthOk(s, k);
    }
  }

  lemma {:induction false} AcquireKeepsHolds<K(!new)>(s: Locks<K>, s': Locks<K>, t: Tid)
    requires CallsOk(s) && HoldsOk(s) && s.At(t).call.Acquiring? && Advance(s, t) == Some(s')
    ensures HoldsOk(s')
  {
    var c := s.At(t).call;
    assert CallOk(s, t) && DepthOk(s, c.key);
    assert forall u: Tid :: u != t ==> s'.At(u) == s.At(u);
    if c.lock !in s.held || s.held[c.lock].owner == t {
      assert c.key in s.At(t).stack ==> Owns(s, t, c.key);
      assert s'.At(t).stack == s.At(t).stack + [c.key];
      HoldsMoved(s, s', t, c.key);
    } else {
      SameStacks(s, s');
    }
  }

  lemma {:induction false} SameStacks<K(!new)>(s: Locks<K>, s': Locks<K>)
    requires HoldsOk(s) && s'.table == s.table && s'.held == s.held
    requires forall u: Tid :: s'.At(u).stack == s.At(u).stack
    ensures HoldsOk(s')
  {
    forall u: Tid, k | k in s'.At(u).stack
      ensures Owns(s', u, k)
    {
      assert Owns(s, u, k);
    }
    forall k
      ensures DepthOk(s', k)
    {
      assert DepthOk(s, k);
    }
  }

  lemma {:induction false} ReleaseKeepsHolds<K(!new)>(s: Locks<K>, s': Locks<K>, t: Tid)
    requires CallsOk(s) && HoldsOk(s) && s.At(t).call.NoCall? && Released(s, t) == Some(s')
    ensures HoldsOk(s')
  {
    var stack := s.At(t).stack;
    var key := stack[|stack| - 1];
    assert DepthOk(s, key);
    assert stack == s'.At(t).stack + [key];
    assert forall u: Tid :: u != t ==> s'.At(u) == s.At(u);
    HoldsMoved(s, s', t, key);
  }

  lemma {:induction false} NextKeepsInv<K(!new)>(s: Locks<K>, s': Locks<K>)
    requires Inv(s) && Next(s, s')
    ensures Inv(s')
  {
    var t: Tid :| StepBy(s, s', t);
    if Advance(s, t) != Some(s') {
      OtherStepKeepsCalls(s, s', t);
      SameStacks(s, s');
    } else if InLookup(s.At(t).call) {
      LookupKeepsCalls(s, s', t);
      LookupKeepsHolds(s, s', t);
    } else {
      OtherStepKeepsCalls(s, s', t);
      if s.At(t).call.NoCall? {
        ReleaseKeepsHolds(s, s', t);
      } else {
        AcquireKeepsHolds(s, s', t);
      }
    }
  }

  lemma {:induction false} RunKeepsInv<K(!new)>(run: seq<Locks<K>>, i: nat)
    requires Run(run) && i < |run|
    ensures Inv(run[i])
  {
    if i > 0 {
      RunKeepsInv(run, i - 1);
      NextKeepsInv(run[i - 1], run[i - 1 + 1]);
    }
  }

  // ---- The theorems ----

  /** Each key gets at most one lock object ever: once in the table, an entry never changes. */
  lemma {:induction false} OneLockPerKey<K(!new)>(run: seq<Locks<K>>, i: nat, j: nat, k: K)
    requires Run(run) && i <= j < |run| && k in run[i].table
    ensures k in run[j].table && run[j].table[k] == run[i].table[k]
  {
    if i < j {
      OneLockPerKey(run, i, j - 1, k);
      TableStays(run, j - 1);
    }
  }

  lemma {:induction false} TableStays<K(!new)>(run: seq<Locks<K>>, i: nat)
    requires Run(run) && i + 1 < |run|
    ensures forall k :: k in run[i].table ==> k in run[i + 1].table && run[i + 1].table[k] == run[i].table[k]
  {
    RunKeepsInv(run, i);
    assert Next(run[i], run[i + 1]);
    var t: Tid :| StepBy(run[i], run[i + 1], t);
    assert CallOk(run[i], t);
    TableGrows(run[i], run[i + 1], t);
  }

  lemma {:induction false} TableGrows<K(!new)>(s: Locks<K>, s': Locks<K>, t: Tid)
    requires StepBy(s, s', t) && CallOk(s, t)
    ensures forall k :: k in s.table ==> k in s'.table && s'.table[k] == s.table[k]
  {
  }

  /** At most one thread holds the lock of a key. */
  lemma {:induction false} MutualExclusion<K(!new)>(run: seq<Locks<K>>, i: nat, t: Tid, u: Tid, k: K)
    requires Run(run) && i < |run|
    requires k in run[i].At(t).stack && k in run[i].At(u).stack
    ensures t == u
  {
    RunKeepsInv(run, i);
    assert Owns(run[i], t, k) && Owns(run[i], u, k);
  }

  /** `t` cannot go on before `u` gives something up. */
  ghost predicate WaitsFor<K>(s: Locks<K>, t: Tid, u: Tid) {
    var c := s.At(t).call;
    || (c.WaitMap? && s.mapOwner == Some(u))
    || (c.Acquiring? && c.blocking && c.lock in s.held && s.held[c.lock].owner == u && u != t)
  }

  /** No thread that is blocked on a key lock holds a key lock. */
  lemma {:induction false} BlockedHoldsNothing<K(!new)>(s: Locks<K>, t: Tid, u: Tid)
    requires Inv(s) && WaitsFor(s, t, u) && s.At(t).call.Acquiring?
    ensures forall k :: k !in s.At(t).stack
  {
    assert CallOk(s, t);
    forall k
      ensures k !in s.At(t).stack
    {
      assert k in s.At(t).stack ==> Owns(s, t, k);
    }
  }

  lemma {:induction false} UnblockedAdvances<K(!new)>(s: Locks<K>, t: Tid)
    requires Inv(s) && (s.At(t).call != NoCall || s.At(t).stack != [])
    requires s.At(t).call.WaitMap? ==> s.mapOwner == None
    requires s.At(t).call.Acquiring? ==> forall u: Tid :: !WaitsFor(s, t, u)
    ensures Advance(s, t).Some?
  {
    var thread := s.At(t);
    if thread.call.NoCall? {
      var key := thread.stack[|thread.stack| - 1];
      assert key in thread.stack && Owns(s, t, key);
    } else if thread.call.Acquiring? && thread.call.lock in s.held {
      assert !WaitsFor(s, t, s.held[thread.call.lock].owner);
    }
  }

  /** Deadlock freedom: whatever a thread in the middle of an operation waits for, a thread that
      can advance is at most two waits away, so no set of threads waits in a circle. */
  lemma {:induction false} NoDeadlock<K(!new)>(run: seq<Locks<K>>, i: nat, t: Tid) returns (u: Tid, v: Tid)
    requires Run(run) && i < |run|
    requires run[i].At(t).call != NoCall || run[i].At(t).stack != []
    ensures u == t || WaitsFor(run[i], t, u)
    ensures v == u || WaitsFor(run[i], u, v)
    ensures Advance(run[i], v).Some?
  {
    var s := run[i];
    RunKeepsInv(run, i);
    u := t;
    if s.At(t).call.Acquiring? && exists w: Tid :: WaitsFor(s, t, w) {
      u :| WaitsFor(s, t, u);
      OwnerIsNotBlocked(s, t, u);
    }
    v := u;
    if s.At(u).call.WaitMap? && s.mapOwner.Some? {
      v := s.mapOwner.value;
      assert InsideMap(s.At(v).call);
    }
    UnblockedAdvances(s, v);
  }

  /** The owner of a key lock that another thread waits for is not itself waiting for one. */
  lemma {:induction false} OwnerIsNotBlocked<K(!new)>(s: Locks<K>, t: Tid, u: Tid)
    requires Inv(s) && s.At(t).call.Acquiring? && WaitsFor(s, t, u)
    ensures s.At(u).stack != []
    ensures s.At(u).call.Acquiring? ==> forall w: Tid :: !WaitsFor(s, u, w)
  {
    var key := s.At(t).call.key;
    assert CallOk(s, t) && DepthOk(s, key);
    assert key in s.At(u).stack by {
      assert multiset(s.At(u).stack)[key] > 0;
    }
    forall w: Tid | s.At(u).call.Acquiring?
      ensures !WaitsFor(s, u, w)
    {
      if WaitsFor(s, u, w) {
        BlockedHoldsNothing(s, u, w);
      }
    }
  }

  // ---- What the protocol sees ----

  /** One thread takes a lock that no other thread holds, drops its innermost lock, or does
      neither; nobody else's locks change.  This is how CacheProtocol moves. */
  ghost predicate StackStep<K(!new)>(before: Tid -> seq<K>, after: Tid -> seq<K>) {
    exists t: Tid ::
      && (forall u: Tid :: u != t ==> after(u) == before(u))
      && StackMove(before, t, after(t))
  }

  ghost predicate StackMove<K(!new)>(before: Tid -> seq<K>, t: Tid, after: seq<K>) {
    var stack := before(t);
    || after == stack
    || (|after| == |stack| + 1 && after[..|stack|] == stack
        && (after[|stack|] in stack || forall u: Tid :: u != t ==> after[|stack|] !in before(u)))
    || (stack != [] && after == stack[..|stack| - 1])
  }

  ghost function StacksOf<K>(s: Locks<K>): Tid -> seq<K> {
    (t: Tid) => s.At(t).stack
  }

  /** How a step changes the stacks. */
  lemma {:induction false} StepShape<K(!new)>(s: Locks<K>, s': Locks<K>, t: Tid)
    requires StepBy(s, s', t)
    ensures forall u: Tid :: u != t ==> s'.At(u) == s.At(u)
    ensures var stack := s.At(t).stack;
            || s'.At(t).stack == stack
            || (s.At(t).call.Acquiring? && Advance(s, t) == Some(s') && s'.At(t).stack == stack + [s.At(t).call.key])
            || (stack != [] && s'.At(t).stack == stack[..|stack| - 1])
  {
  }

  /** The lock table and the locks implement exclusive stacks: every step of theirs is a
      StackStep, so a key is only ever taken while no other thread holds it. */
  lemma {:induction false} LocksRefineStacks<K(!new)>(run: seq<Locks<K>>, i: nat)
    requires Run(run) && i + 1 < |run|
    ensures StackStep(StacksOf(run[i]), StacksOf(run[i + 1]))
  {
    var s, s' := run[i], run[i + 1];
    RunKeepsInv(run, i);
    assert Next(s, s');
    var t: Tid :| StepBy(s, s', t);
    StepShape(s, s', t);
    if s'.At(t).stack != s.At(t).stack && s.At(t).call.Acquiring? && Advance(s, t) == Some(s') {
      TakenIsFree(s, s', t);
    }
    assert StackMove(StacksOf(s), t, StacksOf(s')(t));
  }

  lemma {:induction false} TakenIsFree<K(!new)>(s: Locks<K>, s': Locks<K>, t: Tid)
    requires Inv(s) && s.At(t).call.Acquiring? && Advance(s, t) == Some(s')
    requires s'.At(t).stack != s.At(t).stack
    ensures forall u: Tid :: u != t ==> s.At(t).call.key !in s.At(u).stack
  {
    var key := s.At(t).call.key;
    assert CallOk(s, t);
    forall u: Tid | u != t
      ensures key !in s.At(u).stack
    {
      assert key in s.At(u).stack ==> Owns(s, u, key);
    }
  }

  // ---- What the locks can do ----

  /** No thread is inside `_key_lock` or an acquire. */
  ghost predicate Quiet<K>(s: Locks<K>) {
    s.mapOwner == None && forall t: Tid :: s.At(t).call == NoCall
  }

  ghost predicate Steps<K(!new)>(run: seq<Locks<K>>) {
    |run| > 0 && forall i :: 0 <= i < |run| - 1 ==> Next(run[i], run[i + 1])
  }

  ghost predicate OnlyMoved<K>(s: Locks<K>, s': Locks<K>, t: Tid) {
    forall u: Tid :: u != t ==> s'.At(u) == s.At(u)
  }

  lemma {:induction false} AddStep<K(!new)>(run: seq<Locks<K>>, t: Tid) returns (run': seq<Locks<K>>)
    requires Steps(run) && Advance(run[|run| - 1], t).Some?
    ensures Steps(run') && run'[0] == run[0] && run'[|run'| - 1] == Advance(run[|run| - 1], t).value
  {
    var last := run[|run| - 1];
    run' := run + [Advance(last, t).value];
    assert StepBy(last, Advance(last, t).value, t);
    assert Next(last, Advance(last, t).value);
    assert forall i :: 0 <= i < |run| - 1 ==> Next(run'[i], run'[i + 1]);
  }

  /** Thread `t` at one point of `_key_lock`, with nothing else changed. */
  ghost function InCall<K>(s: Locks<K>, t: Tid, call: Call<K>): Locks<K> {
    s.With(t, call).(mapOwner := if InsideMap(call) then Some(t) else s.mapOwner)
  }

  ghost function LockFor<K>(s: Locks<K>, key: K): LockId {
    if key in s.table then s.table[key] else s.made
  }

  /** The state in which `t` is about to acquire the lock that `_key_lock` has returned. */
  ghost function AtAcquire<K>(s: Locks<K>, t: Tid, key: K, blocking: bool): Locks<K> {
    var known, lock := key in s.table, LockFor(s, key);
    InCall(s, t, Acquiring(key, blocking, lock)).(
      table := if known then s.table else s.table[key := lock],
      made := if known then s.made else s.made + 1)
  }

  lemma {:induction false} Entered<K(!new)>(s: Locks<K>, t: Tid, key: K, blocking: bool) returns (run: seq<Locks<K>>)
    requires Quiet(s) && (blocking ==> forall k :: k in s.At(t).stack ==> k == key)
    ensures Steps(run) && run[0] == s && run[|run| - 1] == InCall(s, t, Looking(key, blocking))
  {
    var s' := s.With(t, WaitMap(key, blocking));
    assert Start(s, s', t, key, blocking);
    assert StepBy(s, s', t);
    assert Next(s, s');
    run := AddStep([s, s'], t);
  }

  /** The state in which `t` has found the lock, in the table or by making it. */
  ghost function AtFound<K>(s: Locks<K>, t: Tid, key: K, blocking: bool): Locks<K> {
    var known, lock := key in s.table, LockFor(s, key);
    InCall(s, t, Found(key, blocking, lock)).(
      table := if known then s.table else s.table[key := lock],
      made := if known then s.made else s.made + 1)
  }

  lemma {:induction false} FindsLock<K(!new)>(s: Locks<K>, t: Tid, key: K, blocking: bool, run: seq<Locks<K>>)
    returns (run': seq<Locks<K>>)
    requires Steps(run) && run[|run| - 1] == InCall(s, t, Looking(key, blocking))
    ensures Steps(run') && run'[0] == run[0] && run'[|run'| - 1] == AtFound(s, t, key, blocking)
  {
    run' := AddStep(run, t);
    if key in s.table {
      assert run'[|run'| - 1].threads == AtFound(s, t, key, blocking).threads;
    } else {
      assert run'[|run'| - 1].threads == InCall(s, t, Missing(key, blocking)).threads;
      run' := MakesLock(s, t, key, blocking, run');
    }
  }

  lemma {:induction false} MakesLock<K(!new)>(s: Locks<K>, t: Tid, key: K, blocking: bool, run: seq<Locks<K>>)
    returns (run': seq<Locks<K>>)
    requires key !in s.table && Steps(run) && run[|run| - 1] == InCall(s, t, Missing(key, blocking))
    ensures Steps(run') && run'[0] == run[0] && run'[|run'| - 1] == AtFound(s, t, key, blocking)
  {
    MissingMakes(s, t, key, blocking);
    run' := AddStep(run, t);
    MadeIsFound(s, t, key, blocking);
    run' := AddStep(run', t);
  }

  ghost function AtMade<K>(s: Locks<K>, t: Tid, key: K, blocking: bool): Locks<K> {
    InCall(s, t, Made(key, blocking, s.made)).(made := s.made + 1)
  }

  lemma {:induction false} MissingMakes<K(!new)>(s: Locks<K>, t: Tid, key: K, blocking: bool)
    ensures Advance(InCall(s, t, Missing(key, blocking)), t) == Some(AtMade(s, t, key, blocking))
  {
    var mid := InCall(s, t, Missing(key, blocking));
    assert Advance(mid, t).value.threads == AtMade(s, t, key, blocking).threads;
  }

  lemma {:induction false} MadeIsFound<K(!new)>(s: Locks<K>, t: Tid, key: K, blocking: bool)
    requires key !in s.table
    ensures Advance(AtMade(s, t, key, blocking), t) == Some(AtFound(s, t, key, blocking))
  {
    var mid := AtMade(s, t, key, blocking);
    assert Advance(mid, t).value.threads == AtFound(s, t, key, blocking).threads;
  }

  lemma {:induction false} LookedUp<K(!new)>(s: Locks<K>, t: Tid, key: K, blocking: bool, run: seq<Locks<K>>)
    returns (run': seq<Locks<K>>)
    requires Quiet(s) && Steps(run) && run[|run| - 1] == InCall(s, t, Looking(key, blocking))
    ensures Steps(run') && run'[0] == run[0] && run'[|run'| - 1] == AtAcquire(s, t, key, blocking)
  {
    run' := FindsLock(s, t, key, blocking, run);
    run' := AddStep(run', t);
    assert run'[|run'| - 1].threads == AtAcquire(s, t, key, blocking).threads;
  }

  /** A thread can take any key that no other thread holds, by exactly the calls the code makes. */
  lemma {:induction false} CanEnter<K(!new)>(s: Locks<K>, t: Tid, key: K, blocking: bool) returns (run: seq<Locks<K>>)
    requires Inv(s) && Quiet(s) && (blocking ==> forall k :: k in s.At(t).stack ==> k == key)
    requires key in s.At(t).stack || forall u: Tid :: u != t ==> key !in s.At(u).stack
    ensures Steps(run) && run[0] == s && Quiet(run[|run| - 1]) && OnlyMoved(s, run[|run| - 1], t)
    ensures run[|run| - 1].At(t).stack == s.At(t).stack + [key]
  {
    run := Entered(s, t, key, blocking);
    run := LookedUp(s, t, key, blocking, run);
    LockIsFree(s, t, key);
    Acquires(s, t, key, blocking);
    run := AddStep(run, t);
  }

  lemma {:induction false} Acquires<K(!new)>(s: Locks<K>, t: Tid, key: K, blocking: bool)
    requires Quiet(s) && (LockFor(s, key) in s.held ==> s.held[LockFor(s, key)].owner == t)
    ensures Advance(AtAcquire(s, t, key, blocking), t).Some?
    ensures var s' := Advance(AtAcquire(s, t, key, blocking), t).value;
            Quiet(s') && OnlyMoved(s, s', t) && s'.At(t).stack == s.At(t).stack + [key]
  {
    var mid := AtAcquire(s, t, key, blocking);
    var s' := Advance(mid, t).value;
    forall u: Tid
      ensures u != t ==> s'.At(u) == s.At(u)
      ensures s'.At(u).call == NoCall
    {
      assert s.At(u).call == NoCall;
    }
  }

  lemma {:induction false} LockIsFree<K(!new)>(s: Locks<K>, t: Tid, key: K)
    requires Inv(s) && (key in s.At(t).stack || forall u: Tid :: u != t ==> key !in s.At(u).stack)
    ensures LockFor(s, key) in s.held ==> s.held[LockFor(s, key)].owner == t
  {
    if key in s.table && s.table[key] in s.held {
      var owner := s.held[s.table[key]].owner;
      assert DepthOk(s, key);
      assert multiset(s.At(owner).stack)[key] > 0;
      assert key in s.At(t).stack ==> Owns(s, t, key);
    }
  }

  /** A thread can leave its innermost lock. */
  lemma {:induction false} CanLeave<K(!new)>(s: Locks<K>, t: Tid) returns (run: seq<Locks<K>>)
    requires Inv(s) && Quiet(s) && s.At(t).stack != []
    ensures Steps(run) && run[0] == s && Quiet(run[|run| - 1]) && OnlyMoved(s, run[|run| - 1], t)
    ensures run[|run| - 1].At(t).stack == s.At(t).stack[..|s.At(t).stack| - 1]
  {
    UnblockedAdvances(s, t);
    run := AddStep([s], t);
    var s' := run[|run| - 1];
    forall u: Tid
      ensures u != t ==> s'.At(u) == s.At(u)
      ensures s'.At(u).call == NoCall
    {
      assert s.At(u).call == NoCall;
    }
  }

  lemma {:induction false} Join<K(!new)>(run: seq<Locks<K>>, more: seq<Locks<K>>) returns (all: seq<Locks<K>>)
    requires Run(run) && Steps(more) && more[0] == run[|run| - 1]
    ensures Run(all) && all[|all| - 1] == more[|more| - 1]
  {
    all := run + more[1..];
    var n := |run| - 1;
    forall i | 0 <= i < |all| - 1
      ensures Next(all[i], all[i + 1])
    {
      if i < n {
        assert Next(run[i], run[i + 1]);
      } else {
        assert Next(more[i - n], more[i - n + 1]);
        assert all[i] == more[i - n] && all[i + 1] == more[i - n + 1];
      }
    }
  }
}
