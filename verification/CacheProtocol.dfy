/** The judge file cache (app/modules/judge/file_cache.py) as a concurrent protocol.

    Any number of threads of one process resolve, invalidate, purge and evict entries.  Each
    file operation, each call to the remote store and each clock reading that matters is one
    step, steps of different threads interleave freely, the clock advances at any moment, and
    the process may crash between any two steps: locks and threads are lost, files stay.

    The remote store is a fixed but arbitrary function of object name and time.  A key lock is
    represented by the locks a program point holds (`Stack`): taking one requires that no other
    thread holds it, which KeyLocks derives from the lock table and the locks themselves. */
module CacheProtocol {
  import KeyLocks
  import opened Wrappers

  type Content = seq<int>
  type Hash = string
  type ETag = string
  type Name = string
  type Tid = nat

  datatype Object = Object(content: Content, etag: ETag)

  /** `delay` bounds the time from a remote read to the clock reading that stamps its outcome
      as valid (`_store` and the ETag-match branch take that reading after the remote call). */
  datatype Env = Env(remote: (Name, real) -> Option<Object>, sha: Content -> Hash, delay: real)

  const REVALIDATE_INTERVAL := 60.0
  const TOUCH_COOLDOWN := 60.0

  datatype Key = ShaKey(hash: Hash) | NameKey(name: Name)

  datatype Request = Request(name: Name, sha: Option<Hash>) {
    function Key(): Key {
      if sha.Some? then ShaKey(sha.value) else NameKey(name)
    }
  }

  /** A data file.  `readAt` is history: when its content was read from the remote store. */
  datatype Blob = Blob(content: Content, readAt: real)

  /** A meta file.  `headAt` and `confirmedAt` are history: when the remote store reported this
      ETag first, and when it last gave the content or the ETag that `lastValidated` stamps. */
  datatype Meta = Meta(etag: ETag, size: nat, lastAccessed: real, lastValidated: real, headAt: real, confirmedAt: real)

  type Data = map<Key, Blob>
  type Metas = map<Key, Meta>

  // ---- Program points ----

  /** `asOf` is the moment at which a request was decided; `confirmed` says that the remote store
      gave the content, or its ETag, at that very moment. */
  datatype Pc =
    | Idle
    // resolve_or_download
    | Locking(req: Request)
    | Checking(req: Request)
    | Touching(req: Request, asOf: real)
    | Heading(req: Request)
    | Headed(req: Request, head: Option<ETag>, headAt: real)
    | Updating(req: Request, headAt: real)
    | GoneUnlinkData(req: Request) | GoneUnlinkMeta(req: Request)
    | StaleUnlinkData(req: Request, etag: ETag, headAt: real) | StaleUnlinkMeta(req: Request, etag: ETag, headAt: real)
    | Downloading(req: Request, etag: ETag, headAt: real)
    | Downloaded(req: Request, etag: ETag, headAt: real, blob: Blob)
    | StoreLocking(req: Request, etag: ETag, headAt: real, blob: Blob)
    | StoringData(req: Request, etag: ETag, headAt: real, blob: Blob, stamp: real)
    | StoringMeta(req: Request, etag: ETag, headAt: real, blob: Blob, stamp: real)
    | Evicting(req: Request, asOf: real)
    | EvictUnlinkData(req: Request, asOf: real, victim: Key) | EvictUnlinkMeta(req: Request, asOf: real, victim: Key)
    | Returning(req: Request, asOf: real, confirmed: bool)
    | Leaving(req: Request)
    // invalidate
    | InvalidateLocking(key: Key) | InvalidateUnlinkData(key: Key) | InvalidateUnlinkMeta(key: Key)
    // purge_expired
    | Purging | PurgeUnlinkData(key: Key) | PurgeUnlinkMeta(key: Key)

  /** The key locks held at a program point, outermost first. */
  function Stack(pc: Pc): seq<Key> {
    match pc
    case Idle | Locking(_) | InvalidateLocking(_) | Purging => []
    case StoringData(req, _, _, _, _) => [req.Key(), req.Key()]
    case StoringMeta(req, _, _, _, _) => [req.Key(), req.Key()]
    case EvictUnlinkData(req, _, victim) => [req.Key(), victim]
    case EvictUnlinkMeta(req, _, victim) => [req.Key(), victim]
    case InvalidateUnlinkData(key) => [key]
    case InvalidateUnlinkMeta(key) => [key]
    case PurgeUnlinkData(key) => [key]
    case PurgeUnlinkMeta(key) => [key]
    case _ => [pc.req.Key()]
  }

  /** The lock a program point is waiting for with a blocking acquire. */
  function BlockingOn(pc: Pc): Option<Key> {
    match pc
    case Locking(req) => Some(req.Key())
    case StoreLocking(req, _, _, _) => Some(req.Key())
    case InvalidateLocking(key) => Some(key)
    case _ => None
  }

  // ---- Steps of one thread ----

  /** What a step does to the files. */
  datatype Effect = Nothing | PutData(key: Key, blob: Blob) | PutMeta(key: Key, meta: Meta)
                  | DropData(key: Key) | DropMeta(key: Key)

  function ApplyData(eff: Effect, data: Data): Data {
    match eff
    case PutData(k, b) => data[k := b]
    case DropData(k) => data - {k}
    case _ => data
  }

  function ApplyMeta(eff: Effect, meta: Metas): Metas {
    match eff
    case PutMeta(k, m) => meta[k := m]
    case DropMeta(k) => meta - {k}
    case _ => meta
  }

  /** An unlink that fails is swallowed. */
  ghost predicate Unlinks(eff: Effect, drop: Effect) {
    eff == drop || eff == Nothing
  }

  ghost predicate LookupStep(now: real, data: Data, meta: Metas, req: Request, pc': Pc, eff: Effect) {
    var k := req.Key();
    && eff == Nothing
    && pc' == if req.sha.Some? && k in data then Touching(req, now)
              else if req.sha.None? && k in data && k in meta && now - meta[k].lastValidated < REVALIDATE_INTERVAL
                   then Touching(req, now)
              else Heading(req)
  }

  /** Skipped within the cooldown, without meta, and when writing fails. */
  ghost predicate TouchStep(now: real, meta: Metas, req: Request, asOf: real, pc': Pc, eff: Effect) {
    var k := req.Key();
    && pc' == Returning(req, asOf, false)
    && (eff == Nothing
        || (k in meta && now - meta[k].lastAccessed >= TOUCH_COOLDOWN
            && eff == PutMeta(k, meta[k].(lastAccessed := now))))
  }

  /** A failing HeadObject call is treated like a missing object. */
  ghost predicate HeadStep(env: Env, now: real, req: Request, pc': Pc, eff: Effect) {
    var found := env.remote(req.name, now);
    && eff == Nothing
    && (pc' == Headed(req, None, now) || (found.Some? && pc' == Headed(req, Some(found.value.etag), now)))
  }

  ghost predicate HeadedStep(data: Data, meta: Metas, req: Request, head: Option<ETag>, h: real, pc': Pc,
          eff: Effect) {
    var k := req.Key();
    && eff == Nothing
    && match head
       case None =>
         pc' == if k !in data then Leaving(req)
                else if req.sha.Some? then Touching(req, h)
                else GoneUnlinkData(req)
       case Some(etag) =>
         pc' == if k !in data then Downloading(req, etag, h)
                else if k in meta && meta[k].etag == etag then Updating(req, h)
                else StaleUnlinkData(req, etag, h)
  }

  ghost predicate UpdateStep(env: Env, now: real, meta: Metas, req: Request, h: real, pc': Pc, eff: Effect) {
    var k := req.Key();
    && pc' == Returning(req, h, true)
    && (eff == Nothing
        || (k in meta && now - h <= env.delay
            && eff == PutMeta(k, meta[k].(lastValidated := now, lastAccessed := now, confirmedAt := h))))
  }

  ghost predicate DownloadStep(env: Env, now: real, req: Request, etag: ETag, h: real, pc': Pc, eff: Effect) {
    var found := env.remote(req.name, now);
    && eff == Nothing
    && (pc' == Leaving(req)
        || (found.Some? && pc' == Downloaded(req, etag, h, Blob(found.value.content, now))))
  }

  ghost predicate Local(env: Env, now: real, data: Data, meta: Metas, pc: Pc, pc': Pc, eff: Effect) {
    match pc
    case Idle =>
      eff == Nothing && (pc'.Locking? || pc'.InvalidateLocking? || pc'.Purging?)
    case Locking(req) => eff == Nothing && pc' == Checking(req)
    case Checking(req) => LookupStep(now, data, meta, req, pc', eff)
    case Touching(req, asOf) => TouchStep(now, meta, req, asOf, pc', eff)
    case Heading(req) => HeadStep(env, now, req, pc', eff)
    case Headed(req, head, h) => HeadedStep(data, meta, req, head, h, pc', eff)
    case Updating(req, h) => UpdateStep(env, now, meta, req, h, pc', eff)
    case GoneUnlinkData(req) => Unlinks(eff, DropData(req.Key())) && pc' == GoneUnlinkMeta(req)
    case GoneUnlinkMeta(req) => Unlinks(eff, DropMeta(req.Key())) && pc' == Leaving(req)
    case StaleUnlinkData(req, etag, h) => Unlinks(eff, DropData(req.Key())) && pc' == StaleUnlinkMeta(req, etag, h)
    case StaleUnlinkMeta(req, etag, h) => Unlinks(eff, DropMeta(req.Key())) && pc' == Downloading(req, etag, h)
    case Downloading(req, etag, h) => DownloadStep(env, now, req, etag, h, pc', eff)
    case Downloaded(req, etag, h, b) =>
      && eff == Nothing
      && pc' == if req.sha.Some? && env.sha(b.content) != req.sha.value then Leaving(req)
                else StoreLocking(req, etag, h, b)
    case StoreLocking(req, etag, h, b) =>
      // the second alternative is an exception from creating the directory
      && eff == Nothing
      && ((now - b.readAt <= env.delay && pc' == StoringData(req, etag, h, b, now)) || pc' == Leaving(req))
    case StoringData(req, etag, h, b, v) =>
      // the second alternative is an exception from writing the file
      || (eff == PutData(req.Key(), b) && pc' == StoringMeta(req, etag, h, b, v))
      || (eff == Nothing && pc' == Leaving(req))
    case StoringMeta(req, etag, h, b, v) =>
      || (eff == PutMeta(req.Key(), Meta(etag, |b.content|, v, v, h, b.readAt)) && pc' == Evicting(req, b.readAt))
      || (eff == Nothing && pc' == Leaving(req))
    case Evicting(req, asOf) =>
      && eff == Nothing
      && (pc' == Returning(req, asOf, true) || (pc'.EvictUnlinkData? && pc'.req == req && pc'.asOf == asOf))
    case EvictUnlinkData(req, asOf, victim) =>
      Unlinks(eff, DropData(victim)) && pc' == EvictUnlinkMeta(req, asOf, victim)
    case EvictUnlinkMeta(req, asOf, victim) => Unlinks(eff, DropMeta(victim)) && pc' == Evicting(req, asOf)
    case Returning(_, _, _) => eff == Nothing && pc' == Idle
    case Leaving(_) => eff == Nothing && pc' == Idle
    case InvalidateLocking(key) => eff == Nothing && pc' == InvalidateUnlinkData(key)
    case InvalidateUnlinkData(key) => Unlinks(eff, DropData(key)) && pc' == InvalidateUnlinkMeta(key)
    case InvalidateUnlinkMeta(key) => Unlinks(eff, DropMeta(key)) && pc' == Idle
    case Purging => eff == Nothing && (pc' == Idle || pc'.PurgeUnlinkData?)
    case PurgeUnlinkData(key) => Unlinks(eff, DropData(key)) && pc' == PurgeUnlinkMeta(key)
    case PurgeUnlinkMeta(key) => Unlinks(eff, DropMeta(key)) && pc' == Purging
  }

  // ---- The whole system ----

  datatype State = State(now: real, data: Data, meta: Metas, threads: map<Tid, Pc>) {
    function At(t: Tid): Pc {
      if t in threads then threads[t] else Idle
    }
  }

  /** A lock can be taken when no other thread holds it; holding it already is no obstacle. */
  ghost predicate LockFree(s: State, t: Tid, pc': Pc) {
    forall k :: k in Stack(pc') && k !in Stack(s.At(t)) ==> forall u: Tid :: u != t ==> k !in Stack(s.At(u))
  }

  ghost predicate StepBy(env: Env, s: State, s': State, t: Tid, eff: Effect) {
    && Local(env, s.now, s.data, s.meta, s.At(t), s'.At(t), eff)
    && LockFree(s, t, s'.At(t))
    && s' == State(s.now, ApplyData(eff, s.data), ApplyMeta(eff, s.meta), s.threads[t := s'.At(t)])
  }

  ghost predicate Next(env: Env, s: State, s': State) {
    || (s'.now >= s.now && s' == s.(now := s'.now))
    || s' == s.(threads := map[])
    || exists t, eff :: StepBy(env, s, s', t, eff)
  }

  ghost predicate Init(s: State) {
    s.data == map[] && s.meta == map[] && s.threads == map[]
  }

  ghost predicate Run(env: Env, run: seq<State>) {
    && |run| > 0 && Init(run[0])
    && forall i :: 0 <= i < |run| - 1 ==> Next(env, run[i], run[i + 1])
  }

  /** Nothing is ruled out: in every state any time may pass, the process may crash, and a thread that
      is at rest may begin any operation, whatever other threads are doing; and a store may fail before
      it has written anything. */
  lemma {:induction false} AnythingMayHappen(env: Env, s: State, t: Tid, req: Request, k: Key, passed: real)
    ensures passed >= 0.0 ==> Next(env, s, s.(now := s.now + passed))
    ensures Next(env, s, s.(threads := map[]))
    ensures s.At(t) == Idle ==>
              && Next(env, s, s.(threads := s.threads[t := Locking(req)]))
              && Next(env, s, s.(threads := s.threads[t := InvalidateLocking(k)]))
              && Next(env, s, s.(threads := s.threads[t := Purging]))
    ensures s.At(t).StoreLocking? ==> Next(env, s, s.(threads := s.threads[t := Leaving(s.At(t).req)]))
  {
    if s.At(t) == Idle {
      MayGo(env, s, t, Locking(req));
      MayGo(env, s, t, InvalidateLocking(k));
      MayGo(env, s, t, Purging);
    }
    if s.At(t).StoreLocking? {
      MayGo(env, s, t, Leaving(s.At(t).req));
    }
  }

  lemma {:induction false} MayGo(env: Env, s: State, t: Tid, pc': Pc)
    requires Local(env, s.now, s.data, s.meta, s.At(t), pc', Nothing) && LockFree(s, t, pc')
    ensures Next(env, s, s.(threads := s.threads[t := pc']))
  {
    assert StepBy(env, s, s.(threads := s.threads[t := pc']), t, Nothing);
  }

  // ---- What is kept ----

  ghost predicate ContentAt(env: Env, n: Name, at: real, c: Content) {
    env.remote(n, at).Some? && env.remote(n, at).value.content == c
  }

  ghost predicate EtagAt(env: Env, n: Name, at: real, e: ETag) {
    env.remote(n, at).Some? && env.remote(n, at).value.etag == e
  }

  /** An ETag seen at two times stands for one object, present throughout. */
  ghost predicate EtagsNeverRecur(env: Env) {
    forall n, a, b, c :: a <= b <= c && SameEtag(env, n, a, c) ==>
      env.remote(n, b) == env.remote(n, a) && env.remote(n, c) == env.remote(n, a)
  }

  ghost predicate SameEtag(env: Env, n: Name, a: real, c: real) {
    env.remote(n, a).Some? && EtagAt(env, n, c, env.remote(n, a).value.etag)
  }

  ghost predicate BlobOk(env: Env, now: real, k: Key, b: Blob) {
    && b.readAt <= now
    && (k.NameKey? ==> ContentAt(env, k.name, b.readAt, b.content))
  }

  ghost predicate MetaOk(env: Env, now: real, k: Key, m: Meta) {
    && m.headAt <= now && m.confirmedAt <= m.lastValidated <= now && m.lastValidated - m.confirmedAt <= env.delay
    && (k.NameKey? ==> EtagAt(env, k.name, m.headAt, m.etag))
  }

  /** The data file is never older than the meta file beside it: its content was read after the
      ETag, and if the meta file was confirmed since, the remote then still held that content. */
  ghost predicate PairOk(env: Env, k: Key, b: Blob, m: Meta) {
    k.NameKey? ==>
      m.headAt <= b.readAt && (m.confirmedAt <= b.readAt || ContentAt(env, k.name, m.confirmedAt, b.content))
  }

  ghost predicate EntryOk(env: Env, now: real, data: Data, meta: Metas, k: Key) {
    && (k in data ==> BlobOk(env, now, k, data[k]))
    && (k in meta ==> MetaOk(env, now, k, meta[k]))
    && (k in data && k in meta ==> PairOk(env, k, data[k], meta[k]))
  }

  ghost predicate DiskOk(env: Env, now: real, data: Data, meta: Metas) {
    forall k :: EntryOk(env, now, data, meta, k)
  }

  /** The remote held `c` at a moment less than `age` before `asOf`. */
  ghost predicate HeldWithin(env: Env, n: Name, c: Content, asOf: real, age: real) {
    exists u :: u <= asOf && asOf - u < age && ContentAt(env, n, u, c)
  }

  /** Everything on disk for `k` was read or stamped at time `at` or before. */
  ghost predicate NotAfter(data: Data, meta: Metas, k: Key, at: real) {
    (k in data ==> data[k].readAt <= at) && (k in meta ==> meta[k].headAt <= at && meta[k].confirmedAt <= at)
  }

  /** The claim a thread about to hand out the path of `req` relies on. */
  ghost predicate Servable(env: Env, now: real, data: Data, req: Request, asOf: real, confirmed: bool) {
    && asOf <= now
    && (req.sha.None? && req.Key() in data ==> Fresh(env, req.name, data[req.Key()].content, asOf, confirmed))
  }

  /** How fresh content handed out for a name is. */
  ghost predicate Fresh(env: Env, n: Name, c: Content, asOf: real, confirmed: bool) {
    if confirmed then ContentAt(env, n, asOf, c) else HeldWithin(env, n, c, asOf, REVALIDATE_INTERVAL + env.delay)
  }

  ghost predicate FromHead(env: Env, now: real, req: Request, etag: ETag, h: real) {
    h <= now && EtagAt(env, req.name, h, etag)
  }

  /** What a thread knows at its program point.  It mentions only files whose lock it holds. */
  ghost predicate ThreadOk(env: Env, now: real, data: Data, meta: Metas, pc: Pc) {
    match pc
    case Touching(req, asOf) => Servable(env, now, data, req, asOf, false)
    case Headed(req, head, h) =>
      && h <= now && NotAfter(data, meta, req.Key(), h)
      && (head.Some? ==> FromHead(env, now, req, head.value, h))
    case Updating(req, h) =>
      && h <= now && NotAfter(data, meta, req.Key(), h) && req.Key() in data && req.Key() in meta
      && (req.sha.None? ==> ContentAt(env, req.name, h, data[req.Key()].content))
    case StaleUnlinkData(req, etag, h) => FromHead(env, now, req, etag, h)
    case StaleUnlinkMeta(req, etag, h) => FromHead(env, now, req, etag, h)
    case Downloading(req, etag, h) => FromHead(env, now, req, etag, h)
    case Downloaded(req, etag, h, b) => Fetched(env, now, data, meta, req, etag, h, b)
    case StoreLocking(req, etag, h, b) => Fetched(env, now, data, meta, req, etag, h, b)
    case StoringData(req, etag, h, b, v) =>
      && Fetched(env, now, data, meta, req, etag, h, b)
      && b.readAt <= v <= now && v - b.readAt <= env.delay
    case StoringMeta(req, etag, h, b, v) =>
      && Fetched(env, now, data, meta, req, etag, h, b)
      && b.readAt <= v <= now && v - b.readAt <= env.delay
      && req.Key() in data && data[req.Key()] == b
    case Evicting(req, asOf) => Servable(env, now, data, req, asOf, true)
    case EvictUnlinkData(req, asOf, _) => Servable(env, now, data, req, asOf, true)
    case EvictUnlinkMeta(req, asOf, _) => Servable(env, now, data, req, asOf, true)
    case Returning(req, asOf, confirmed) => Servable(env, now, data, req, asOf, confirmed)
    case _ => true
  }

  ghost predicate Fetched(env: Env, now: real, data: Data, meta: Metas, req: Request, etag: ETag, h: real, b: Blob) {
    && FromHead(env, now, req, etag, h) && h <= b.readAt <= now
    && ContentAt(env, req.name, b.readAt, b.content)
    && NotAfter(data, meta, req.Key(), b.readAt)
  }

  ghost predicate Exclusive(s: State) {
    forall t: Tid, u: Tid, k :: k in Stack(s.At(t)) && k in Stack(s.At(u)) ==> t == u
  }

  ghost predicate HashesMatch(env: Env, data: Data) {
    forall h: Hash :: ShaKey(h) in data ==> env.sha(data[ShaKey(h)].content) == h
  }

  /** Between the comparison of hashes and the end of the store the content has its hash. */
  ghost predicate Verified(env: Env, pc: Pc) {
    (pc.StoreLocking? || pc.StoringData? || pc.StoringMeta?) && pc.req.sha.Some? ==>
      env.sha(pc.blob.content) == pc.req.sha.value
  }

  /** What holds whatever the remote store does and however it names its versions. */
  ghost predicate Sound(env: Env, s: State) {
    && Exclusive(s) && HashesMatch(env, s.data)
    && forall t: Tid :: Verified(env, s.At(t))
  }

  ghost predicate Inv(env: Env, s: State) {
    && Sound(env, s)
    && DiskOk(env, s.now, s.data, s.meta)
    && forall t: Tid :: ThreadOk(env, s.now, s.data, s.meta, s.At(t))
  }

  // ---- Proof: one thread's own step ----

  lemma {:induction false} LookupKeeps(env: Env, now: real, data: Data, meta: Metas, req: Request, pc': Pc,
          eff: Effect)
    requires DiskOk(env, now, data, meta) && LookupStep(now, data, meta, req, pc', eff)
    ensures ThreadOk(env, now, data, meta, pc')
  {
    var k := req.Key();
    if pc'.Touching? && req.sha.None? {
      assert EntryOk(env, now, data, meta, k);
      var u := if meta[k].confirmedAt <= data[k].readAt then data[k].readAt else meta[k].confirmedAt;
      assert u <= now && now - u < REVALIDATE_INTERVAL + env.delay && ContentAt(env, req.name, u, data[k].content);
    }
  }

  /** A matching ETag proves that the remote has held the cached content all along. */
  lemma {:induction false} HeadedKeeps(env: Env, now: real, data: Data, meta: Metas, req: Request,
                                       head: Option<ETag>, h: real, pc': Pc, eff: Effect)
    requires EtagsNeverRecur(env) && DiskOk(env, now, data, meta)
    requires ThreadOk(env, now, data, meta, Headed(req, head, h))
    requires HeadedStep(data, meta, req, head, h, pc', eff)
    ensures ThreadOk(env, now, data, meta, pc')
  {
    var k := req.Key();
    assert EntryOk(env, now, data, meta, k);
    if pc'.Updating? && req.sha.None? {
      assert SameEtag(env, req.name, meta[k].headAt, h);
    }
  }

  lemma {:induction false} StoreKeeps(env: Env, now: real, data: Data, meta: Metas, pc: Pc, pc': Pc, eff: Effect)
    requires env.delay >= 0.0 && (pc.StoringData? || pc.StoringMeta?)
    requires ThreadOk(env, now, data, meta, pc) && Local(env, now, data, meta, pc, pc', eff)
    ensures ThreadOk(env, now, ApplyData(eff, data), ApplyMeta(eff, meta), pc')
  {
  }

  lemma {:induction false} FetchKeeps(env: Env, now: real, data: Data, meta: Metas, pc: Pc, pc': Pc, eff: Effect)
    requires pc.Downloading? || pc.Downloaded? || pc.StoreLocking?
    requires DiskOk(env, now, data, meta)
    requires ThreadOk(env, now, data, meta, pc) && Local(env, now, data, meta, pc, pc', eff)
    ensures ThreadOk(env, now, ApplyData(eff, data), ApplyMeta(eff, meta), pc')
  {
    assert EntryOk(env, now, data, meta, pc.req.Key());
  }

  lemma {:induction false} EvictKeeps(env: Env, now: real, data: Data, meta: Metas, pc: Pc, pc': Pc, eff: Effect)
    requires pc.Evicting? || pc.EvictUnlinkData? || pc.EvictUnlinkMeta?
    requires ThreadOk(env, now, data, meta, pc) && Local(env, now, data, meta, pc, pc', eff)
    ensures ThreadOk(env, now, ApplyData(eff, data), ApplyMeta(eff, meta), pc')
  {
  }

  lemma {:induction false} UpdateKeeps(env: Env, now: real, data: Data, meta: Metas, req: Request, h: real,
          pc': Pc, eff: Effect)
    requires env.delay >= 0.0 && ThreadOk(env, now, data, meta, Updating(req, h))
    requires UpdateStep(env, now, meta, req, h, pc', eff)
    ensures ThreadOk(env, now, ApplyData(eff, data), ApplyMeta(eff, meta), pc')
  {
  }

  lemma {:induction false} OwnStepKeepsDisk(env: Env, now: real, data: Data, meta: Metas, pc: Pc, pc': Pc, eff: Effect)
    requires DiskOk(env, now, data, meta) && ThreadOk(env, now, data, meta, pc)
    requires Local(env, now, data, meta, pc, pc', eff)
    ensures DiskOk(env, now, ApplyData(eff, data), ApplyMeta(eff, meta))
  {
    forall k
      ensures EntryOk(env, now, ApplyData(eff, data), ApplyMeta(eff, meta), k)
    {
      assert EntryOk(env, now, data, meta, k);
      if eff.PutData? || eff.PutMeta? {
        WriteKeepsEntry(env, now, data, meta, pc, pc', eff, k);
      }
    }
  }

  lemma {:induction false} WriteKeepsEntry(env: Env, now: real, data: Data, meta: Metas, pc: Pc, pc': Pc, eff: Effect,
                                           k: Key)
    requires EntryOk(env, now, data, meta, k) && ThreadOk(env, now, data, meta, pc)
    requires Local(env, now, data, meta, pc, pc', eff) && (eff.PutData? || eff.PutMeta?)
    ensures EntryOk(env, now, ApplyData(eff, data), ApplyMeta(eff, meta), k)
  {
    if k != eff.key {
    } else if pc.StoringData? || pc.StoringMeta? {
      assert Fetched(env, now, data, meta, pc.req, pc.etag, pc.headAt, pc.blob);
    }
  }

  lemma {:induction false} OwnStepKeepsThread(env: Env, now: real, data: Data, meta: Metas, pc: Pc, pc': Pc,
          eff: Effect)
    requires EtagsNeverRecur(env) && env.delay >= 0.0
    requires DiskOk(env, now, data, meta) && ThreadOk(env, now, data, meta, pc)
    requires Local(env, now, data, meta, pc, pc', eff)
    ensures ThreadOk(env, now, ApplyData(eff, data), ApplyMeta(eff, meta), pc')
  {
    if pc.Headed? {
      HeadedKeeps(env, now, data, meta, pc.req, pc.head, pc.headAt, pc', eff);
    } else if pc.Updating? {
      UpdateKeeps(env, now, data, meta, pc.req, pc.headAt, pc', eff);
    } else if pc.Downloading? || pc.Downloaded? || pc.StoreLocking? {
      FetchKeeps(env, now, data, meta, pc, pc', eff);
    } else if pc.StoringData? || pc.StoringMeta? {
      StoreKeeps(env, now, data, meta, pc, pc', eff);
    } else if pc.Evicting? || pc.EvictUnlinkData? || pc.EvictUnlinkMeta? {
      EvictKeeps(env, now, data, meta, pc, pc', eff);
    } else {
      OtherKeeps(env, now, data, meta, pc, pc', eff);
    }
  }

  lemma {:induction false} OtherKeeps(env: Env, now: real, data: Data, meta: Metas, pc: Pc, pc': Pc, eff: Effect)
    requires !pc.Headed? && !pc.Updating? && !pc.Downloading? && !pc.Downloaded? && !pc.StoreLocking?
    requires !pc.StoringData? && !pc.StoringMeta? && !pc.Evicting? && !pc.EvictUnlinkData? && !pc.EvictUnlinkMeta?
    requires DiskOk(env, now, data, meta)
    requires ThreadOk(env, now, data, meta, pc) && Local(env, now, data, meta, pc, pc', eff)
    ensures ThreadOk(env, now, ApplyData(eff, data), ApplyMeta(eff, meta), pc')
  {
    if pc.Checking? {
      LookupKeeps(env, now, data, meta, pc.req, pc', eff);
    } else if pc.Heading? {
      assert EntryOk(env, now, data, meta, pc.req.Key());
    }
  }

  // ---- Proof: the other threads ----

  /** A step touches only files whose lock its thread holds. */
  lemma {:induction false} EffectIsLocked(env: Env, now: real, data: Data, meta: Metas, pc: Pc, pc': Pc, eff: Effect)
    requires Local(env, now, data, meta, pc, pc', eff)
    ensures eff.Nothing? || eff.key in Stack(pc)
  {
  }

  /** What a thread knows survives the passing of time and changes to files it has not locked. */
  lemma {:induction false} ThreadFrame(env: Env, now: real, data: Data, meta: Metas, now': real, data': Data,
          meta': Metas, pc: Pc)
    requires ThreadOk(env, now, data, meta, pc) && now <= now'
    requires forall k :: k in Stack(pc) ==>
               && (k in data <==> k in data') && (k in data ==> data[k] == data'[k])
               && (k in meta <==> k in meta') && (k in meta ==> meta[k] == meta'[k])
    ensures ThreadOk(env, now', data', meta', pc)
  {
    if pc != Idle && !pc.Locking? && !pc.InvalidateLocking? && pc != Purging {
      assert Stack(pc)[0] in Stack(pc);
    }
  }

  lemma {:induction false} DiskFrame(env: Env, now: real, data: Data, meta: Metas, now': real)
    requires DiskOk(env, now, data, meta) && now <= now'
    ensures DiskOk(env, now', data, meta)
  {
    forall k
      ensures EntryOk(env, now', data, meta, k)
    {
      assert EntryOk(env, now, data, meta, k);
    }
  }

  lemma {:induction false} LockingIsExclusive(s: State, s': State, t: Tid)
    requires Exclusive(s) && LockFree(s, t, s'.At(t))
    requires s'.threads == s.threads[t := s'.At(t)]
    ensures Exclusive(s')
  {
    assert forall u: Tid :: u != t ==> s'.At(u) == s.At(u);
    forall w: Tid, k | w != t && k in Stack(s'.At(t))
      ensures k !in Stack(s'.At(w))
    {
      if k in Stack(s.At(t)) {
        assert !(k in Stack(s.At(t)) && k in Stack(s.At(w)));
      }
    }
  }

  lemma {:induction false} StepKeepsSound(env: Env, s: State, s': State, t: Tid, eff: Effect)
    requires Sound(env, s) && StepBy(env, s, s', t, eff)
    ensures Sound(env, s')
  {
    LockingIsExclusive(s, s', t);
    assert Verified(env, s.At(t));
    forall u: Tid
      ensures Verified(env, s'.At(u))
    {
      assert u != t ==> s'.At(u) == s.At(u) && Verified(env, s.At(u));
    }
  }

  lemma {:induction false} NextKeepsSound(env: Env, s: State, s': State)
    requires Sound(env, s) && Next(env, s, s')
    ensures Sound(env, s')
  {
    if t, eff :| StepBy(env, s, s', t, eff) {
      StepKeepsSound(env, s, s', t, eff);
    } else {
      assert forall u: Tid :: s'.At(u) == s.At(u) || s'.At(u) == Idle;
      assert s'.data == s.data;
    }
  }

  /** Without any hypothesis on the remote store, in every state of every run. */
  lemma {:induction false} RunIsSound(env: Env, run: seq<State>, i: nat)
    requires Run(env, run) && i < |run|
    ensures Sound(env, run[i])
  {
    if i > 0 {
      RunIsSound(env, run, i - 1);
      NextKeepsSound(env, run[i - 1], run[i - 1 + 1]);
    }
  }

  lemma {:induction false} StepKeepsInv(env: Env, s: State, s': State, t: Tid, eff: Effect)
    requires EtagsNeverRecur(env) && env.delay >= 0.0
    requires Inv(env, s) && StepBy(env, s, s', t, eff)
    ensures Inv(env, s')
  {
    StepKeepsSound(env, s, s', t, eff);
    assert ThreadOk(env, s.now, s.data, s.meta, s.At(t));
    OwnStepKeepsDisk(env, s.now, s.data, s.meta, s.At(t), s'.At(t), eff);
    OwnStepKeepsThread(env, s.now, s.data, s.meta, s.At(t), s'.At(t), eff);
    EffectIsLocked(env, s.now, s.data, s.meta, s.At(t), s'.At(t), eff);
    forall u: Tid
      ensures ThreadOk(env, s'.now, s'.data, s'.meta, s'.At(u))
    {
      if u != t {
        assert s'.At(u) == s.At(u) && ThreadOk(env, s.now, s.data, s.meta, s.At(u));
        ThreadFrame(env, s.now, s.data, s.meta, s'.now, s'.data, s'.meta, s.At(u));
      }
    }
  }

  lemma {:induction false} NextKeepsInv(env: Env, s: State, s': State)
    requires EtagsNeverRecur(env) && env.delay >= 0.0
    requires Inv(env, s) && Next(env, s, s')
    ensures Inv(env, s')
  {
    NextKeepsSound(env, s, s');
    if t, eff :| StepBy(env, s, s', t, eff) {
      StepKeepsInv(env, s, s', t, eff);
    } else if s' == s.(threads := map[]) {
    } else {
      DiskFrame(env, s.now, s.data, s.meta, s'.now);
      forall u: Tid
        ensures ThreadOk(env, s'.now, s'.data, s'.meta, s'.At(u))
      {
        ThreadFrame(env, s.now, s.data, s.meta, s'.now, s'.data, s'.meta, s.At(u));
      }
    }
  }

  /** The invariant holds in every state of every run. */
  lemma {:induction false} RunKeepsInv(env: Env, run: seq<State>, i: nat)
    requires EtagsNeverRecur(env) && env.delay >= 0.0
    requires Run(env, run) && i < |run|
    ensures Inv(env, run[i])
  {
    if i > 0 {
      RunKeepsInv(env, run, i - 1);
      NextKeepsInv(env, run[i - 1], run[i - 1 + 1]);
    }
  }

  // ---- When a request was decided ----

  /** The moment that a program point carries as that of the decision. */
  function DecidedAt(pc: Pc): Option<real> {
    match pc
    case Touching(_, asOf) => Some(asOf)
    case Headed(_, _, h) => Some(h)
    case Updating(_, h) => Some(h)
    case Downloaded(_, _, _, b) => Some(b.readAt)
    case StoreLocking(_, _, _, b) => Some(b.readAt)
    case StoringData(_, _, _, b, _) => Some(b.readAt)
    case StoringMeta(_, _, _, b, _) => Some(b.readAt)
    case Evicting(_, asOf) => Some(asOf)
    case EvictUnlinkData(_, asOf, _) => Some(asOf)
    case EvictUnlinkMeta(_, asOf, _) => Some(asOf)
    case Returning(_, asOf, _) => Some(asOf)
    case _ => None
  }

  /** The thread is somewhere in `resolve_or_download` for `req`. */
  ghost predicate Serving(pc: Pc, req: Request) {
    && pc != Idle && pc != Purging && !pc.InvalidateLocking? && !pc.InvalidateUnlinkData? && !pc.InvalidateUnlinkMeta?
    && !pc.PurgeUnlinkData? && !pc.PurgeUnlinkMeta? && pc.req == req
  }

  ghost predicate Decided(pc: Pc, req: Request, at: real) {
    Serving(pc, req) && DecidedAt(pc) == Some(at)
  }

  /** A step decides a request now, or keeps what was decided earlier. */
  lemma {:induction false} StepDecides(env: Env, now: real, data: Data, meta: Metas, pc: Pc, pc': Pc, eff: Effect,
          req: Request, at: real)
    requires Local(env, now, data, meta, pc, pc', eff) && Decided(pc', req, at)
    ensures Serving(pc, req) && (at == now || Decided(pc, req, at))
  {
    if pc'.Touching? || pc'.Headed? || pc'.Updating? || pc'.Downloaded? {
      EarlyStepDecides(env, now, data, meta, pc, pc', eff, req, at);
    }
  }

  lemma {:induction false} EarlyStepDecides(env: Env, now: real, data: Data, meta: Metas, pc: Pc, pc': Pc,
          eff: Effect, req: Request, at: real)
    requires Local(env, now, data, meta, pc, pc', eff) && Decided(pc', req, at)
    requires pc'.Touching? || pc'.Headed? || pc'.Updating? || pc'.Downloaded?
    ensures Serving(pc, req) && (at == now || Decided(pc, req, at))
  {
  }

  /** The thread has been serving `req` from state j, at whose time it decided, up to state i. */
  ghost predicate DecidedInside(run: seq<State>, j: nat, i: nat, t: Tid, req: Request, at: real)
    requires i < |run|
  {
    j <= i && run[j].now == at && forall m :: j <= m <= i ==> Serving(run[m].At(t), req)
  }

  lemma {:induction false} DecisionStep(env: Env, s: State, s': State, t: Tid, req: Request, at: real)
    requires Next(env, s, s') && Decided(s'.At(t), req, at)
    ensures Serving(s.At(t), req) && (at == s.now || Decided(s.At(t), req, at))
  {
    if s'.At(t) != s.At(t) {
      var u: Tid, eff :| StepBy(env, s, s', u, eff);
      assert u == t;
      StepDecides(env, s.now, s.data, s.meta, s.At(t), s'.At(t), eff, req, at);
    }
  }

  /** A decision in state i was taken in state i - 1 or stood there already. */
  ghost predicate Linked(run: seq<State>, i: nat, t: Tid, req: Request, at: real)
    requires 0 < i < |run|
  {
    Decided(run[i].At(t), req, at) ==>
      Serving(run[i - 1].At(t), req) && (at == run[i - 1].now || Decided(run[i - 1].At(t), req, at))
  }

  lemma {:induction false} FollowBack(run: seq<State>, i: nat, t: Tid, req: Request, at: real) returns (j: nat)
    requires 0 < i < |run| && Decided(run[i].At(t), req, at) && !Decided(run[0].At(t), req, at)
    requires forall m: nat :: 0 < m <= i ==> Linked(run, m, t, req, at)
    ensures DecidedInside(run, j, i, t, req, at)
  {
    assert Linked(run, i, t, req, at);
    if run[i - 1].now == at {
      j := i - 1;
    } else {
      j := FollowBack(run, i - 1, t, req, at);
    }
  }

  lemma {:induction false} DecisionIsInside(env: Env, run: seq<State>, i: nat, t: Tid, req: Request, at: real)
    returns (j: nat)
    requires Run(env, run) && i < |run| && Decided(run[i].At(t), req, at)
    ensures DecidedInside(run, j, i, t, req, at)
  {
    forall m: nat | 0 < m <= i
      ensures Linked(run, m, t, req, at)
    {
      assert Next(env, run[m - 1], run[m - 1 + 1]);
      if Decided(run[m].At(t), req, at) {
        DecisionStep(env, run[m - 1], run[m], t, req, at);
      }
    }
    assert run[0].At(t) == Idle;
    j := FollowBack(run, i, t, req, at);
  }

  /** The answer for a name was taken from the freshness window, without asking the remote store. */
  ghost predicate FromWindow(pc: Pc, req: Request, at: real) {
    req.sha.None? && (pc == Touching(req, at) || pc == Returning(req, at, false))
  }

  lemma {:induction false} LocalFromWindow(env: Env, now: real, data: Data, meta: Metas, pc: Pc, pc': Pc,
          eff: Effect, req: Request, at: real)
    requires Local(env, now, data, meta, pc, pc', eff) && FromWindow(pc', req, at)
    ensures FromWindow(pc, req, at) || (pc == Checking(req) && now == at)
  {
  }

  lemma {:induction false} WindowStep(env: Env, s: State, s': State, t: Tid, req: Request, at: real)
    requires Next(env, s, s') && FromWindow(s'.At(t), req, at)
    ensures FromWindow(s.At(t), req, at) || (s.At(t) == Checking(req) && s.now == at)
  {
    if s'.At(t) != s.At(t) {
      var u: Tid, eff :| StepBy(env, s, s', u, eff);
      assert u == t;
      LocalFromWindow(env, s.now, s.data, s.meta, s.At(t), s'.At(t), eff, req, at);
    }
  }

  ghost predicate WindowLinked(run: seq<State>, i: nat, t: Tid, req: Request, at: real)
    requires 0 < i < |run|
  {
    FromWindow(run[i].At(t), req, at) ==>
      FromWindow(run[i - 1].At(t), req, at) || (run[i - 1].At(t) == Checking(req) && run[i - 1].now == at)
  }

  lemma {:induction false} FollowWindowBack(run: seq<State>, i: nat, t: Tid, req: Request, at: real) returns (j: nat)
    requires 0 < i < |run| && FromWindow(run[i].At(t), req, at) && !FromWindow(run[0].At(t), req, at)
    requires forall m: nat :: 0 < m <= i ==> WindowLinked(run, m, t, req, at)
    ensures DecidedInside(run, j, i, t, req, at) && run[j].At(t) == Checking(req)
  {
    assert WindowLinked(run, i, t, req, at);
    if FromWindow(run[i - 1].At(t), req, at) {
      j := FollowWindowBack(run, i - 1, t, req, at);
    } else {
      j := i - 1;
    }
  }

  /** Such an answer was decided by the lookup. */
  lemma {:induction false} WindowIsInside(env: Env, run: seq<State>, i: nat, t: Tid, req: Request, at: real)
    returns (j: nat)
    requires Run(env, run) && i < |run| && FromWindow(run[i].At(t), req, at)
    ensures DecidedInside(run, j, i, t, req, at) && run[j].At(t) == Checking(req)
  {
    forall m: nat | 0 < m <= i
      ensures WindowLinked(run, m, t, req, at)
    {
      assert Next(env, run[m - 1], run[m - 1 + 1]);
      if FromWindow(run[m].At(t), req, at) {
        WindowStep(env, run[m - 1], run[m], t, req, at);
      }
    }
    assert run[0].At(t) == Idle;
    j := FollowWindowBack(run, i, t, req, at);
  }

  // ---- The theorems ----

  /** At most one thread is between taking and releasing the lock of a key. */
  lemma {:induction false} MutualExclusion(env: Env, run: seq<State>, i: nat, t: Tid, u: Tid, k: Key)
    requires Run(env, run) && i < |run|
    requires k in Stack(run[i].At(t)) && k in Stack(run[i].At(u))
    ensures t == u
  {
    RunIsSound(env, run, i);
  }

  /** Content-addressed entries: whatever crashed, raced or changed remotely, a data file under
      a hash has content with that hash. */
  lemma {:induction false} ContentAddressSafety(env: Env, run: seq<State>, i: nat, h: Hash)
    requires Run(env, run) && i < |run|
    requires ShaKey(h) in run[i].data
    ensures env.sha(run[i].data[ShaKey(h)].content) == h
  {
    RunIsSound(env, run, i);
  }

  /** Name-addressed entries.  When a thread returns a path, the moment `asOf` at which it decided
      lies inside its request.  Either that was the lookup, which found an entry within the
      freshness window, and the content is what the remote held less than 60 seconds, plus the
      stamping delay, before; or the content is what the remote held at that very moment. */
  lemma {:induction false} BoundedStaleness(env: Env, run: seq<State>, i: nat, t: Tid) returns (j: nat)
    requires EtagsNeverRecur(env) && env.delay >= 0.0 && Run(env, run) && i < |run|
    requires run[i].At(t).Returning? && run[i].At(t).req.sha.None?
    requires run[i].At(t).req.Key() in run[i].data
    ensures var s, pc := run[i], run[i].At(t);
            && DecidedInside(run, j, i, t, pc.req, pc.asOf)
            && Fresh(env, pc.req.name, s.data[pc.req.Key()].content, pc.asOf, pc.confirmed)
            && HeldWithin(env, pc.req.name, s.data[pc.req.Key()].content, pc.asOf, REVALIDATE_INTERVAL + env.delay)
            && (pc.confirmed || run[j].At(t) == Checking(pc.req))
  {
    RunKeepsInv(env, run, i);
    assert ThreadOk(env, run[i].now, run[i].data, run[i].meta, run[i].At(t));
    var pc := run[i].At(t);
    if pc.confirmed {
      j := DecisionIsInside(env, run, i, t, pc.req, pc.asOf);
    } else {
      j := WindowIsInside(env, run, i, t, pc.req, pc.asOf);
    }
  }

  // ---- Progress ----

  /** `t` waits for a key lock that `u` holds. */
  ghost predicate WaitsFor(s: State, t: Tid, u: Tid) {
    u != t && BlockingOn(s.At(t)).Some? && BlockingOn(s.At(t)).value in Stack(s.At(u))
  }

  ghost predicate CanStep(env: Env, s: State, t: Tid) {
    exists s', eff :: StepBy(env, s, s', t, eff)
  }

  /** A next program point that takes at most the lock waited for. */
  ghost predicate Onward(env: Env, now: real, data: Data, meta: Metas, pc: Pc, pc': Pc) {
    && Local(env, now, data, meta, pc, pc', Nothing)
    && forall k :: k in Stack(pc') ==> k in Stack(pc) || BlockingOn(pc) == Some(k)
  }

  /** Every program point inside an operation has one. */
  lemma {:induction false} OnwardStep(env: Env, now: real, data: Data, meta: Metas, pc: Pc) returns (pc': Pc)
    requires pc != Idle
    ensures Onward(env, now, data, meta, pc, pc')
  {
    if pc.Locking? || pc.Checking? || pc.Heading? || pc.Headed? {
      pc' := OnwardFromLookup(env, now, data, meta, pc);
    } else if pc.Downloading? || pc.Downloaded? || pc.StoreLocking? || pc.StoringData? || pc.StoringMeta? {
      pc' := OnwardFromFetch(env, now, data, meta, pc);
    } else {
      pc' := OnwardFromOther(env, now, data, meta, pc);
    }
  }

  lemma {:induction false} OnwardFromLookup(env: Env, now: real, data: Data, meta: Metas, pc: Pc) returns (pc': Pc)
    requires pc.Locking? || pc.Checking? || pc.Heading? || pc.Headed?
    ensures Onward(env, now, data, meta, pc, pc')
  {
    var req, k := pc.req, pc.req.Key();
    match pc
    case Locking(_) => pc' := Checking(req);
    case Checking(_) =>
      pc' := if k in data && (req.sha.Some? || (k in meta && now - meta[k].lastValidated < REVALIDATE_INTERVAL))
             then Touching(req, now) else Heading(req);
    case Heading(_) => pc' := Headed(req, None, now);
    case Headed(_, None, h) =>
      pc' := if k !in data then Leaving(req) else if req.sha.Some? then Touching(req, h) else GoneUnlinkData(req);
    case Headed(_, Some(etag), h) =>
      pc' := if k !in data then Downloading(req, etag, h)
             else if k in meta && meta[k].etag == etag then Updating(req, h)
             else StaleUnlinkData(req, etag, h);
  }

  lemma {:induction false} OnwardFromFetch(env: Env, now: real, data: Data, meta: Metas, pc: Pc) returns (pc': Pc)
    requires pc.Downloading? || pc.Downloaded? || pc.StoreLocking? || pc.StoringData? || pc.StoringMeta?
    ensures Onward(env, now, data, meta, pc, pc')
  {
    pc' := Leaving(pc.req);
    if pc.Downloaded? && (pc.req.sha.Some? ==> env.sha(pc.blob.content) == pc.req.sha.value) {
      pc' := StoreLocking(pc.req, pc.etag, pc.headAt, pc.blob);
    } else if pc.StoreLocking? && now - pc.blob.readAt <= env.delay {
      pc' := StoringData(pc.req, pc.etag, pc.headAt, pc.blob, now);
    }
  }

  lemma {:induction false} OnwardFromOther(env: Env, now: real, data: Data, meta: Metas, pc: Pc) returns (pc': Pc)
    requires pc != Idle && !pc.Locking? && !pc.Checking? && !pc.Heading? && !pc.Headed?
    requires !pc.Downloading? && !pc.Downloaded? && !pc.StoreLocking? && !pc.StoringData? && !pc.StoringMeta?
    ensures Onward(env, now, data, meta, pc, pc')
  {
    match pc
    case Touching(req, asOf) => pc' := Returning(req, asOf, false);
    case Updating(req, h) => pc' := Returning(req, h, true);
    case GoneUnlinkData(req) => pc' := GoneUnlinkMeta(req);
    case GoneUnlinkMeta(req) => pc' := Leaving(req);
    case StaleUnlinkData(req, etag, h) => pc' := StaleUnlinkMeta(req, etag, h);
    case StaleUnlinkMeta(req, etag, h) => pc' := Downloading(req, etag, h);
    case Evicting(req, asOf) => pc' := Returning(req, asOf, true);
    case EvictUnlinkData(req, asOf, victim) => pc' := EvictUnlinkMeta(req, asOf, victim);
    case EvictUnlinkMeta(req, asOf, _) => pc' := Evicting(req, asOf);
    case InvalidateLocking(key) => pc' := InvalidateUnlinkData(key);
    case InvalidateUnlinkData(key) => pc' := InvalidateUnlinkMeta(key);
    case PurgeUnlinkData(key) => pc' := PurgeUnlinkMeta(key);
    case PurgeUnlinkMeta(_) => pc' := Purging;
    case _ => pc' := Idle;
  }

  lemma {:induction false} UnblockedCanStep(env: Env, s: State, t: Tid)
    requires s.At(t) != Idle && forall u: Tid :: !WaitsFor(s, t, u)
    ensures CanStep(env, s, t)
  {
    var pc' := OnwardStep(env, s.now, s.data, s.meta, s.At(t));
    var s' := s.(threads := s.threads[t := pc']);
    forall k, u: Tid | k in Stack(pc') && k !in Stack(s.At(t)) && u != t
      ensures k !in Stack(s.At(u))
    {
      assert !WaitsFor(s, t, u);
    }
    assert StepBy(env, s, s', t, Nothing);
  }

  /** A thread that holds a key lock waits for nobody: reentering its own lock never blocks. */
  lemma {:induction false} HolderDoesNotWait(env: Env, s: State, t: Tid, u: Tid)
    requires Sound(env, s) && Stack(s.At(t)) != []
    ensures !WaitsFor(s, t, u)
  {
    assert Stack(s.At(t))[0] in Stack(s.At(t));
  }

  /** Deadlock freedom of the cache: whatever a thread inside an operation waits for, at most one
      wait leads to a thread that waits for nobody and has a step to take. */
  lemma {:induction false} NoDeadlock(env: Env, run: seq<State>, i: nat, t: Tid) returns (u: Tid)
    requires Run(env, run) && i < |run| && run[i].At(t) != Idle
    ensures u == t || WaitsFor(run[i], t, u)
    ensures forall v: Tid :: !WaitsFor(run[i], u, v)
    ensures CanStep(env, run[i], u)
  {
    var s := run[i];
    RunIsSound(env, run, i);
    u := t;
    if w: Tid :| WaitsFor(s, t, w) {
      u := w;
      forall v: Tid
        ensures !WaitsFor(s, u, v)
      {
        HolderDoesNotWait(env, s, u, v);
      }
    }
    UnblockedCanStep(env, s, u);
  }

  // ---- Runs of one thread ----

  ghost function Last(run: seq<State>): State
    requires |run| > 0
  {
    run[|run| - 1]
  }

  /** A run of one thread, extended by a step of that thread. */
  lemma {:induction false} Extend(env: Env, run: seq<State>, pc: Pc, pc': Pc, eff: Effect) returns (run': seq<State>)
    requires Run(env, run) && Last(run).threads.Keys <= {0} && Last(run).At(0) == pc
    requires Local(env, Last(run).now, Last(run).data, Last(run).meta, pc, pc', eff)
    ensures Run(env, run')
    ensures var s := Last(run);
            Last(run') == State(s.now, ApplyData(eff, s.data), ApplyMeta(eff, s.meta), map[0 := pc'])
  {
    var s := Last(run);
    var s' := State(s.now, ApplyData(eff, s.data), ApplyMeta(eff, s.meta), map[0 := pc']);
    assert s.threads[0 := pc'] == map[0 := pc'];
    assert StepBy(env, s, s', 0, eff);
    run' := Append(env, run, s');
  }

  lemma {:induction false} Append(env: Env, run: seq<State>, s': State) returns (run': seq<State>)
    requires Run(env, run) && Next(env, Last(run), s')
    ensures Run(env, run') && Last(run') == s'
  {
    run' := run + [s'];
    forall i | 0 <= i < |run'| - 1
      ensures Next(env, run'[i], run'[i + 1])
    {
      if i < |run| - 1 {
        assert Next(env, run[i], run[i + 1]);
      }
    }
  }

  // ---- How the protocol uses the locks ----

  ghost function StacksOf(s: State): Tid -> seq<Key> {
    (t: Tid) => Stack(s.At(t))
  }

  lemma {:induction false} DoubleHolderMoves(env: Env, now: real, data: Data, meta: Metas, pc: Pc, pc': Pc,
          eff: Effect)
    requires Local(env, now, data, meta, pc, pc', eff) && |Stack(pc)| == 2
    ensures Stack(pc') == Stack(pc) || Stack(pc') == Stack(pc)[..1]
  {
    assert Stack(pc)[..1] == [pc.req.Key()];
  }

  ghost predicate MovesStack(stack: seq<Key>, stack': seq<Key>) {
    || stack' == stack
    || (|stack'| == |stack| + 1 && stack'[..|stack|] == stack)
    || (stack != [] && stack' == stack[..|stack| - 1])
  }

  lemma {:induction false} LocalMovesStack(env: Env, now: real, data: Data, meta: Metas, pc: Pc, pc': Pc, eff: Effect)
    requires Local(env, now, data, meta, pc, pc', eff)
    ensures MovesStack(Stack(pc), Stack(pc'))
  {
    if |Stack(pc)| == 2 {
      DoubleHolderMoves(env, now, data, meta, pc, pc', eff);
    } else if |Stack(pc)| == 1 {
      SingleHolderMoves(env, now, data, meta, pc, pc', eff);
    }
  }

  lemma {:induction false} SingleHolderMoves(env: Env, now: real, data: Data, meta: Metas, pc: Pc, pc': Pc, eff: Effect)
    requires Local(env, now, data, meta, pc, pc', eff) && |Stack(pc)| == 1
    ensures Stack(pc') == [] || (|Stack(pc')| <= 2 && Stack(pc')[0] == Stack(pc)[0])
  {
  }

  /** Every step short of a crash is one that KeyLocks.LocksRefineStacks allows: the protocol's
      view of the locks is exactly what the lock table provides. */
  lemma {:induction false} ProtocolUsesLocks(env: Env, run: seq<State>, i: nat)
    requires Run(env, run) && i + 1 < |run|
    ensures run[i + 1].threads == map[] || KeyLocks.StackStep(StacksOf(run[i]), StacksOf(run[i + 1]))
  {
    var s, s' := run[i], run[i + 1];
    assert Next(env, s, s');
    if t: Tid, eff :| StepBy(env, s, s', t, eff) {
      LocalMovesStack(env, s.now, s.data, s.meta, s.At(t), s'.At(t), eff);
      assert forall u: Tid :: u != t ==> s'.At(u) == s.At(u);
      var stack, stack' := Stack(s.At(t)), Stack(s'.At(t));
      if |stack'| == |stack| + 1 {
        assert stack'[|stack|] in stack';
      }
      assert KeyLocks.StackMove(StacksOf(s), t, StacksOf(s')(t));
    } else if s'.threads != map[] {
      assert KeyLocks.StackMove(StacksOf(s), 0, StacksOf(s')(0));
    }
  }

  /** The discipline KeyLocks.NoDeadlock asks of its callers: a lock is taken either with a
      blocking acquire by a thread that holds no other key, or, while evicting and purging,
      without blocking. */
  lemma {:induction false} BlockingDiscipline(env: Env, now: real, data: Data, meta: Metas, pc: Pc, pc': Pc,
          eff: Effect)
    requires Local(env, now, data, meta, pc, pc', eff) && |Stack(pc')| > |Stack(pc)|
    ensures match BlockingOn(pc)
            case Some(k) => Stack(pc') == Stack(pc) + [k] && forall j :: j in Stack(pc) ==> j == k
            case None => pc.Evicting? || pc.Purging?
  {
  }
}
