/** The judge file cache as the source writes it: methods that read and replace files.

    Every file operation, remote call and clock reading goes through a primitive that also moves
    a program point of CacheProtocol, so each execution of this class is a run of the protocol
    (`Valid` says so) and inherits its theorems.  On top of that come the properties of one
    undisturbed call: what eviction and purging remove, and what they spare. */
module FileCache {
  import opened CacheProtocol
  import opened CacheSpec
  import opened Sequences
  import opened Wrappers

  /** The program points at which a data file is unlinked, and where they lead. */
  ghost predicate DropsData(pc: Pc, k: Key, pc': Pc) {
    || (pc.GoneUnlinkData? && k == pc.req.Key() && pc' == GoneUnlinkMeta(pc.req))
    || (pc.StaleUnlinkData? && k == pc.req.Key() && pc' == StaleUnlinkMeta(pc.req, pc.etag, pc.headAt))
    || (pc.EvictUnlinkData? && k == pc.victim && pc' == EvictUnlinkMeta(pc.req, pc.asOf, k))
    || (pc == InvalidateUnlinkData(k) && pc' == InvalidateUnlinkMeta(k))
    || (pc == PurgeUnlinkData(k) && pc' == PurgeUnlinkMeta(k))
  }

  ghost predicate DropsMeta(pc: Pc, k: Key, pc': Pc) {
    || (pc.GoneUnlinkMeta? && k == pc.req.Key() && pc' == Leaving(pc.req))
    || (pc.StaleUnlinkMeta? && k == pc.req.Key() && pc' == Downloading(pc.req, pc.etag, pc.headAt))
    || (pc.EvictUnlinkMeta? && k == pc.victim && pc' == Evicting(pc.req, pc.asOf))
    || (pc == InvalidateUnlinkMeta(k) && pc' == Idle)
    || (pc == PurgeUnlinkMeta(k) && pc' == Purging)
  }

  // ---- The cache object ----

  class FileCache {
    const env: Env
    const maxBytes: int
    const ttl: real
    /** No unlink fails: the setting of the eviction guarantees. */
    const reliable: bool
    var now: real
    var data: Data
    var meta: Metas
    ghost var pc: Pc
    ghost var trace: seq<State>

    ghost function Disk(): Files
      reads this`data, this`meta
    {
      Files(data, meta)
    }

    ghost function Config(): Setup {
      Setup(env, maxBytes, reliable)
    }

    /** Everything this object has done is a run of the protocol, by a single thread. */
    ghost predicate Valid()
      reads this
    {
      && env.delay >= 0.0 && maxBytes >= 0
      && Run(env, trace) && Mirrors(Last(trace))
    }

    ghost predicate Mirrors(s: State)
      reads this
    {
      s.now == now && s.data == data && s.meta == meta && s.threads.Keys <= {0} && s.At(0) == pc
    }

    constructor (env: Env, maxBytes: int, ttl: real, reliable: bool, start: real)
      requires env.delay >= 0.0 && maxBytes >= 0
      ensures Valid() && pc == Idle && data == map[] && meta == map[] && now == start
      ensures this.env == env && this.maxBytes == maxBytes && this.ttl == ttl && this.reliable == reliable
    {
      this.env, this.maxBytes, this.ttl, this.reliable := env, maxBytes, ttl, reliable;
      now, data, meta := start, map[], map[];
      pc := Idle;
      trace := [State(start, map[], map[], map[])];
    }

    ghost predicate Tidy()
      reads this`data, this`meta
    {
      reliable ==> Paired(data, meta)
    }

    // ---- Primitives ----

    /** The history, extended by a step that is about to be carried out. */
    ghost method Record(pc': Pc, eff: Effect) returns (trace': seq<State>)
      requires Valid() && Local(env, now, data, meta, pc, pc', eff)
      ensures Run(env, trace')
      ensures Last(trace') == State(now, ApplyData(eff, data), ApplyMeta(eff, meta), map[0 := pc'])
    {
      trace' := Extend(env, trace, pc, pc', eff);
    }

    ghost method Go(pc': Pc)
      requires Valid() && Local(env, now, data, meta, pc, pc', Nothing)
      modifies this`pc, this`trace
      ensures Valid() && pc == pc'
    {
      var trace' := Record(pc', Nothing);
      pc, trace := pc', trace';
    }

    method WriteData(req: Request, etag: ETag, headAt: real, b: Blob, stamp: real)
      requires Valid() && pc == StoringData(req, etag, headAt, b, stamp)
      modifies this`data, this`pc, this`trace
      ensures Valid() && pc == StoringMeta(req, etag, headAt, b, stamp) && data == old(data)[req.Key() := b]
    {
      ghost var pc' := StoringMeta(req, etag, headAt, b, stamp);
      ghost var trace' := Record(pc', PutData(req.Key(), b));
      data := data[req.Key() := b];
      pc, trace := pc', trace';
    }

    method WriteMeta(k: Key, m: Meta, ghost pc': Pc)
      requires Valid() && Local(env, now, data, meta, pc, pc', PutMeta(k, m))
      modifies this`meta, this`pc, this`trace
      ensures Valid() && pc == pc' && meta == old(meta)[k := m]
    {
      ghost var trace' := Record(pc', PutMeta(k, m));
      meta := meta[k := m];
      pc, trace := pc', trace';
    }

    method UnlinkData(k: Key, ghost pc': Pc)
      requires Valid() && DropsData(pc, k, pc')
      modifies this`data, this`pc, this`trace
      ensures Valid() && pc == pc' && (data == old(data) - {k} || (!reliable && data == old(data)))
    {
      var fails: bool := *;
      if reliable || !fails {
        ghost var trace' := Record(pc', DropData(k));
        data := data - {k};
        pc, trace := pc', trace';
      } else {
        Go(pc');
      }
    }

    method UnlinkMeta(k: Key, ghost pc': Pc)
      requires Valid() && DropsMeta(pc, k, pc')
      modifies this`meta, this`pc, this`trace
      ensures Valid() && pc == pc' && (meta == old(meta) - {k} || (!reliable && meta == old(meta)))
    {
      var fails: bool := *;
      if reliable || !fails {
        ghost var trace' := Record(pc', DropMeta(k));
        meta := meta - {k};
        pc, trace := pc', trace';
      } else {
        Go(pc');
      }
    }

    /** Time passes. */
    method Clock()
      requires Valid()
      modifies this`now, this`trace
      ensures Valid() && now >= old(now)
    {
      var passed: real := *;
      if passed > 0.0 {
        now := now + passed;
        var s := Last(trace);
        trace := Append(env, trace, s.(now := now));
      }
    }

    /** Time passes, but not beyond the promptness that `env.delay` stands for. */
    method PromptClock(since: real)
      requires Valid() && now - since <= env.delay
      modifies this`now, this`trace
      ensures Valid() && now >= old(now) && now - since <= env.delay
    {
      var passed: real := *;
      if passed > 0.0 && now + passed - since <= env.delay {
        now := now + passed;
        var s := Last(trace);
        trace := Append(env, trace, s.(now := now));
      }
    }

    /** None for a missing object and for a call that fails. */
    method HeadOrNone(req: Request, io: Io) returns (head: Option<ETag>)
      requires Valid() && pc == Heading(req)
      modifies this`pc, this`trace
      ensures Valid() && pc == Headed(req, head, now) && head.Some? == Found(Config(), req, io, now)
      ensures head.Some? ==> head.value == env.remote(req.name, now).value.etag
    {
      var found := env.remote(req.name, now);
      head := if io.headOk && found.Some? then Some(found.value.etag) else None;
      Go(Headed(req, head, now));
    }

    /** None for a download that raises. */
    method Download(name: Name, io: Io) returns (content: Option<Content>)
      ensures content.Some? <==> io.downloadOk && env.remote(name, now).Some?
      ensures content.Some? ==> content.value == env.remote(name, now).value.content
    {
      var found := env.remote(name, now);
      content := if io.downloadOk && found.Some? then Some(found.value.content) else None;
    }

    // ---- Entries ----

    /** `_touch_meta`: refreshes the access time unless it is recent. */
    method TouchMeta(req: Request, io: Io, ghost asOf: real)
      requires Valid() && pc == Touching(req, asOf)
      modifies this`meta, this`pc, this`trace
      ensures Valid() && pc == Returning(req, asOf, false)
      ensures Disk() == Touched(old(Disk()), req.Key(), io, now)
      ensures var k, m := req.Key(), old(meta);
              meta == if io.metaOk && k in m && now - m[k].lastAccessed >= 60.0 then m[k := m[k].(lastAccessed := now)]
                      else m
    {
      var k := req.Key();
      if k !in meta || now - meta[k].lastAccessed < TOUCH_COOLDOWN || !io.metaOk {
        Go(Returning(req, asOf, false));
        return;
      }
      WriteMeta(k, meta[k].(lastAccessed := now), Returning(req, asOf, false));
    }

    /** `_update_meta` after a matching ETag. */
    method ConfirmMeta(req: Request, io: Io, headAt: real)
      requires Valid() && pc == Updating(req, headAt) && now - headAt <= env.delay
      modifies this`now, this`meta, this`pc, this`trace
      ensures Valid() && pc == Returning(req, headAt, true) && now >= old(now)
      ensures Disk() == Confirmed(old(Disk()), req.Key(), io, now, headAt)
      ensures var k, m := req.Key(), old(meta);
              meta == if io.metaOk && k in m
                      then m[k := m[k].(lastValidated := now, lastAccessed := now, confirmedAt := headAt)] else m
    {
      var k := req.Key();
      PromptClock(headAt);
      if k in meta && io.metaOk {
        WriteMeta(k, meta[k].(lastValidated := now, lastAccessed := now, confirmedAt := headAt),
                  Returning(req, headAt, true));
      } else {
        Go(Returning(req, headAt, true));
      }
    }

    ghost predicate Removed(k: Key, before: Data, metaBefore: Metas)
      reads this
    {
      Unlinked(reliable, k, data, meta, before, metaBefore)
    }

    /** `_remove_entry` when the remote object is gone. */
    method RemoveGone(req: Request, ghost headAt: real)
      requires Valid() && pc == Headed(req, None, headAt) && req.Key() in data && req.sha.None?
      modifies this`data, this`meta, this`pc, this`trace
      ensures Valid() && pc == Leaving(req) && Removed(req.Key(), old(data), old(meta))
    {
      Go(GoneUnlinkData(req));
      UnlinkGone(req);
    }

    method UnlinkGone(req: Request)
      requires Valid() && pc == GoneUnlinkData(req)
      modifies this`data, this`meta, this`pc, this`trace
      ensures Valid() && pc == Leaving(req) && Removed(req.Key(), old(data), old(meta))
    {
      UnlinkData(req.Key(), GoneUnlinkMeta(req));
      UnlinkMeta(req.Key(), Leaving(req));
    }

    /** `_remove_entry` when the cached version is outdated. */
    method RemoveStale(req: Request, etag: ETag, headAt: real)
      requires Valid() && pc == StaleUnlinkData(req, etag, headAt)
      modifies this`data, this`meta, this`pc, this`trace
      ensures Valid() && pc == Downloading(req, etag, headAt) && Removed(req.Key(), old(data), old(meta))
    {
      UnlinkData(req.Key(), StaleUnlinkMeta(req, etag, headAt));
      UnlinkMeta(req.Key(), Downloading(req, etag, headAt));
    }

    /** `_store` up to the eviction: replaces the data file, then the meta file.  A write that fails
        raises and leaves what has been written by then. */
    method WriteEntry(req: Request, etag: ETag, headAt: real, blob: Blob, io: Io) returns (stamp: real, ok: bool)
      requires Valid() && pc == StoreLocking(req, etag, headAt, blob) && now == blob.readAt
      modifies this
      ensures Valid() && now == stamp && blob.readAt <= stamp <= blob.readAt + env.delay
      ensures ok <==> io.dataOk && io.metaOk
      ensures pc == if ok then Evicting(req, blob.readAt) else Leaving(req)
      ensures Disk() == if ok then Stored(old(Disk()), req.Key(), blob, etag, headAt, stamp)
                        else if io.dataOk then WithData(old(Disk()), req.Key(), blob) else old(Disk())
    {
      stamp := Stamp(req, etag, headAt, blob);
      ok := WriteFiles(req, etag, headAt, blob, stamp, io);
    }

    method WriteFiles(req: Request, etag: ETag, headAt: real, blob: Blob, stamp: real, io: Io) returns (ok: bool)
      requires Valid() && pc == StoringData(req, etag, headAt, blob, stamp)
      modifies this`data, this`meta, this`pc, this`trace
      ensures Valid() && ok == (io.dataOk && io.metaOk)
      ensures pc == if ok then Evicting(req, blob.readAt) else Leaving(req)
      ensures Disk() == if ok then Stored(old(Disk()), req.Key(), blob, etag, headAt, stamp)
                        else if io.dataOk then WithData(old(Disk()), req.Key(), blob) else old(Disk())
    {
      if !io.dataOk {
        Go(Leaving(req));
        return false;
      }
      WriteData(req, etag, headAt, blob, stamp);
      ok := FinishEntry(req, etag, headAt, blob, stamp, io);
    }

    method FinishEntry(req: Request, etag: ETag, headAt: real, blob: Blob, stamp: real, io: Io) returns (ok: bool)
      requires Valid() && pc == StoringMeta(req, etag, headAt, blob, stamp)
      modifies this`meta, this`pc, this`trace
      ensures Valid() && ok == io.metaOk && pc == if ok then Evicting(req, blob.readAt) else Leaving(req)
      ensures meta == if ok then old(meta)[req.Key() := Meta(etag, |blob.content|, stamp, stamp, headAt, blob.readAt)]
                      else old(meta)
    {
      ok := io.metaOk;
      if ok {
        var m := Meta(etag, |blob.content|, stamp, stamp, headAt, blob.readAt);
        WriteMeta(req.Key(), m, Evicting(req, blob.readAt));
      } else {
        Go(Leaving(req));
      }
    }

    /** Reenters the key lock and reads the clock. */
    method Stamp(req: Request, etag: ETag, headAt: real, blob: Blob) returns (stamp: real)
      requires Valid() && pc == StoreLocking(req, etag, headAt, blob) && now == blob.readAt
      modifies this`now, this`pc, this`trace
      ensures Valid() && pc == StoringData(req, etag, headAt, blob, stamp)
      ensures now == stamp && blob.readAt <= stamp <= blob.readAt + env.delay
    {
      PromptClock(blob.readAt);
      stamp := now;
      Go(StoringData(req, etag, headAt, blob, stamp));
    }

    /** `invalidate`. */
    method Invalidate(k: Key)
      requires Valid() && pc == Idle
      modifies this`data, this`meta, this`pc, this`trace
      ensures Valid() && pc == Idle && Removed(k, old(data), old(meta))
      ensures reliable ==> data == old(data) - {k} && meta == old(meta) - {k}
      ensures old(Tidy()) ==> Tidy()
    {
      BeginInvalidate(k);
      UnlinkData(k, InvalidateUnlinkMeta(k));
      UnlinkMeta(k, Idle);
    }

    ghost method BeginInvalidate(k: Key)
      requires Valid() && pc == Idle
      modifies this`pc, this`trace
      ensures Valid() && pc == InvalidateUnlinkData(k)
    {
      Go(InvalidateLocking(k));
      Go(InvalidateUnlinkData(k));
    }

    // ---- Eviction ----

    /** `_collect_stats`: one record per meta file, in the order the directory scan yields. */
    method CollectStats() returns (stats: seq<Stat>)
      ensures Distinct(stats) && forall s :: s in stats <==> s.key in meta && s == StatOf(s.key, meta[s.key])
    {
      stats := [];
      var rest := meta.Keys;
      while rest != {}
        invariant rest <= meta.Keys && Distinct(stats)
        invariant forall s :: s in stats <==> s.key in meta && s.key !in rest && s == StatOf(s.key, meta[s.key])
        decreases |rest|
      {
        var k :| k in rest;
        rest := rest - {k};
        stats := stats + [StatOf(k, meta[k])];
      }
    }

    /** `_calculate_total_size`. */
    method CalculateTotalSize() returns (total: nat)
      ensures total == MetaBytes(meta)
    {
      total := 0;
      var rest := meta;
      while rest != map[]
        invariant total + MetaBytes(rest) == MetaBytes(meta)
        decreases |rest|
      {
        var k :| k in rest;
        MetaBytesWithout(rest, k);
        total := total + rest[k].size;
        rest := rest - {k};
      }
    }

    /** One victim: both files, under its lock. */
    method EvictOne(req: Request, asOf: real, victim: Key)
      requires Valid() && pc == Evicting(req, asOf)
      modifies this`data, this`meta, this`pc, this`trace
      ensures Valid() && pc == Evicting(req, asOf) && Removed(victim, old(data), old(meta))
    {
      Go(EvictUnlinkData(req, asOf, victim));
      UnlinkData(victim, EvictUnlinkMeta(req, asOf, victim));
      UnlinkMeta(victim, Evicting(req, asOf));
    }

    /** `_evict_lru`: removes candidates, least recently used first, until `needBytes` are freed.
        A candidate whose lock another thread holds (`busy`) is skipped. */
    method EvictLru(req: Request, asOf: real, needBytes: int, busy: set<Key>) returns (ghost victims: seq<Stat>)
      requires Valid() && pc == Evicting(req, asOf)
      modifies this
      ensures Valid() && pc == Evicting(req, asOf) && now >= old(now)
      ensures reliable ==> data == old(data) - KeysOf(victims) && meta == old(meta) - KeysOf(victims)
      ensures Within(data, meta, old(data), old(meta), KeysOf(victims))
      ensures Evicts(old(meta), now, busy, needBytes, victims)
    {
      var stats := CollectStats();
      Clock();
      var candidates := SortBy(Idlers(stats, now), ByAccess());
      CandidatesSorted(meta, stats, now);
      ghost var i;
      victims, i := EvictSome(req, asOf, candidates, needBytes, busy);
      EvictionMeetsSpec(old(meta), now, busy, needBytes, candidates, i, victims);
    }

    /** The loop over the sorted candidates; `i` of them were looked at. */
    method EvictSome(req: Request, asOf: real, candidates: seq<Stat>, needBytes: int, busy: set<Key>)
      returns (ghost victims: seq<Stat>, ghost i: nat)
      requires Valid() && pc == Evicting(req, asOf) && Distinct(candidates)
      modifies this`data, this`meta, this`pc, this`trace
      ensures Valid() && pc == Evicting(req, asOf)
      ensures i <= |candidates| && (Sizes(victims) >= needBytes || i == |candidates|)
      ensures Progress(reliable, candidates, i, busy, needBytes, victims, data, meta, old(data), old(meta))
    {
      var freed := 0;
      i, victims := 0, [];
      var n := 0;
      while n < |candidates| && freed < needBytes
        invariant n == i <= |candidates| && freed == Sizes(victims)
        invariant Valid() && pc == Evicting(req, asOf)
        invariant Progress(reliable, candidates, i, busy, needBytes, victims, data, meta, old(data), old(meta))
      {
        var entry := candidates[n];
        ghost var d, m := data, meta;
        if entry.key !in busy {
          EvictOne(req, asOf, entry.key);
          freed := freed + entry.size;
        }
        ProgressNext(reliable, candidates, i, busy, needBytes, victims, d, m, data, meta, old(data), old(meta));
        victims := if entry.key in busy then victims else victims + [entry];
        i := i + 1;
        n := n + 1;
      }
    }

    /** `_evict_lru_if_needed`: above the limit, frees down to 80 percent of it. */
    method EvictLruIfNeeded(req: Request, asOf: real, newSize: nat, busy: set<Key>) returns (ghost victims: seq<Stat>)
      requires Valid() && pc == Evicting(req, asOf)
      modifies this
      ensures Valid() && pc == Evicting(req, asOf) && now >= old(now)
      ensures Within(data, meta, old(data), old(meta), KeysOf(victims))
      ensures reliable ==> data == old(data) - KeysOf(victims) && meta == old(meta) - KeysOf(victims)
      ensures if MetaBytes(old(meta)) + newSize <= maxBytes then victims == []
              else EvictsToTarget(old(meta), newSize, now, busy, maxBytes, victims)
      ensures victims != [] ==> (MetaBytes(old(meta)) + newSize - Sizes(victims[..|victims| - 1])) as real
                                >= maxBytes as real * 0.8 + 1.0
      ensures old(Tidy()) ==> Tidy()
    {
      var total := CalculateTotalSize();
      if total + newSize <= maxBytes {
        victims := [];
        return;
      }
      victims := EvictLru(req, asOf, NeedBytes(total, newSize, maxBytes), busy);
      NeedMeetsTarget(old(meta), newSize, now, busy, maxBytes, victims);
    }

    // ---- Purging ----

    method PurgeOne(k: Key)
      requires Valid() && pc == Purging
      modifies this`data, this`meta, this`pc, this`trace
      ensures Valid() && pc == Purging && Removed(k, old(data), old(meta))
    {
      BeginPurge(k);
      UnlinkData(k, PurgeUnlinkMeta(k));
      UnlinkMeta(k, Purging);
    }

    ghost method BeginPurge(k: Key)
      requires Valid() && pc == Purging
      modifies this`pc, this`trace
      ensures Valid() && pc == PurgeUnlinkData(k)
    {
      Go(PurgeUnlinkData(k));
    }

    /** `purge_expired`: removes every entry not accessed within the TTL, except those whose lock
        another thread holds. */
    method PurgeExpired(busy: set<Key>) returns (ghost victims: seq<Stat>)
      requires Valid() && pc == Idle
      modifies this
      ensures Valid() && pc == Idle && now >= old(now)
      ensures Within(data, meta, old(data), old(meta), KeysOf(victims))
      ensures reliable ==> data == old(data) - KeysOf(victims) && meta == old(meta) - KeysOf(victims)
      ensures forall s :: s in victims <==>
                && s.key in old(meta) && s.key !in busy && s == StatOf(s.key, old(meta)[s.key])
                && now - s.lastAccessed > ttl
      ensures old(Tidy()) ==> Tidy()
    {
      Go(Purging);
      Clock();
      var stats := CollectStats();
      victims := PurgeScanned(stats, busy);
      Go(Idle);
    }

    /** The loop over the scan, with the clock read before it. */
    method PurgeScanned(stats: seq<Stat>, busy: set<Key>) returns (ghost victims: seq<Stat>)
      requires Valid() && pc == Purging
      modifies this`data, this`meta, this`pc, this`trace
      ensures Valid() && pc == Purging
      ensures Purged(victims, old(Disk()))
      ensures forall s :: s in victims <==> s in stats && s.key !in busy && now - s.lastAccessed > ttl
    {
      victims := [];
      for n := 0 to |stats|
        invariant Valid() && pc == Purging
        invariant Purged(victims, old(Disk()))
        invariant forall s :: s in victims <==> s in stats[..n] && s.key !in busy && now - s.lastAccessed > ttl
      {
        assert stats[..n + 1] == stats[..n] + [stats[n]];
        if now - stats[n].lastAccessed > ttl && stats[n].key !in busy {
          ghost var f := Disk();
          PurgeOne(stats[n].key);
          GoneNext(reliable, stats[n], victims, f.data, f.meta, data, meta, old(data), old(meta));
          victims := victims + [stats[n]];
        }
      }
      assert stats[..|stats|] == stats;
    }

    ghost predicate Purged(victims: seq<Stat>, before: Files)
      reads this
    {
      && Within(data, meta, before.data, before.meta, KeysOf(victims))
      && (reliable ==> data == before.data - KeysOf(victims) && meta == before.meta - KeysOf(victims))
    }

    // ---- Resolving ----

    /** What a caller that gets the path of `req` can rely on. */
    ghost predicate Served(req: Request, asOf: real, confirmed: bool)
      reads this
    {
      req.Key() in data ==>
        && (req.sha.Some? ==> env.sha(data[req.Key()].content) == req.sha.value)
        && (req.sha.None? && EtagsNeverRecur(env) ==> Fresh(env, req.name, data[req.Key()].content, asOf, confirmed))
    }

    /** The protocol's theorems, for the state this object is in. */
    lemma {:induction false} TraceServes(req: Request, asOf: real, confirmed: bool)
      requires Valid() && pc == Returning(req, asOf, confirmed)
      ensures Served(req, asOf, confirmed)
    {
      if req.Key() in data {
        if req.sha.Some? {
          ContentAddressSafety(env, trace, |trace| - 1, req.sha.value);
        } else if EtagsNeverRecur(env) {
          var j := BoundedStaleness(env, trace, |trace| - 1, 0);
        }
      }
    }

    /** Downloads, verifies, stores and evicts. */
    method FetchAndStore(req: Request, etag: ETag, headAt: real, io: Io, busy: set<Key>, ghost c: Course)
      returns (path: Option<Key>, ghost c': Course)
      requires Valid() && pc == Downloading(req, etag, headAt) && headAt == c.headAt
      modifies this
      ensures Valid() && old(now) <= c'.asOf <= now
      ensures c' == c.(asOf := c'.asOf, stamp := c'.stamp, victims := c'.victims)
      ensures pc == if path.Some? then Returning(req, c'.asOf, true) else Leaving(req)
      ensures Fetches(Config(), req, etag, io, busy, c', now, old(Disk()), Disk(), path)
    {
      Clock();
      c' := c.(asOf := now);
      var content := Download(req.name, io);
      if content.None? {
        Go(Leaving(req));
        return None, c';
      }
      var blob := Blob(content.value, now);
      Go(Downloaded(req, etag, c.headAt, blob));
      if req.sha.Some? && env.sha(content.value) != req.sha.value {
        Go(Leaving(req));
        return None, c';
      }
      Go(StoreLocking(req, etag, headAt, blob));
      path, c' := StoreAndEvict(req, etag, headAt, blob, io, busy, c');
    }

    method StoreAndEvict(req: Request, etag: ETag, headAt: real, blob: Blob, io: Io, busy: set<Key>, ghost c: Course)
      returns (path: Option<Key>, ghost c': Course)
      requires Valid() && pc == StoreLocking(req, etag, headAt, blob)
      requires now == blob.readAt == c.asOf && headAt == c.headAt
      requires Delivers(Config(), req, io, c.asOf) && blob.content == env.remote(req.name, c.asOf).value.content
      modifies this
      ensures Valid() && now >= old(now) && c' == c.(stamp := c'.stamp, victims := c'.victims)
      ensures pc == if path.Some? then Returning(req, c.asOf, true) else Leaving(req)
      ensures Fetches(Config(), req, etag, io, busy, c', now, old(Disk()), Disk(), path)
    {
      var stamp, ok := WriteEntry(req, etag, headAt, blob, io);
      c', path := c.(stamp := stamp), None;
      if ok {
        ghost var victims := EvictAround(req, blob.readAt, busy);
        c' := c'.(victims := victims);
        path := Some(req.Key());
      }
    }

    /** The eviction that follows a store. */
    method EvictAround(req: Request, asOf: real, busy: set<Key>) returns (ghost victims: seq<Stat>)
      requires Valid() && pc == Evicting(req, asOf)
      modifies this
      ensures Valid() && pc == Returning(req, asOf, true) && now >= old(now)
      ensures EvictedFrom(Config(), now, busy, old(Disk()), Disk(), victims)
    {
      victims := EvictLruIfNeeded(req, asOf, 0, busy);
      Go(Returning(req, asOf, true));
    }

    /** HeadObject found nothing: a hash still vouches for its entry, a name does not. */
    method HandleGone(req: Request, io: Io, headAt: real) returns (path: Option<Key>)
      requires Valid() && pc == Headed(req, None, headAt) && now == headAt
      modifies this`data, this`meta, this`pc, this`trace
      ensures Valid() && pc == if path.Some? then Returning(req, headAt, false) else Leaving(req)
      ensures WhenGone(Config(), req, io, headAt, old(Disk()), Disk(), path)
    {
      path := None;
      if req.Key() !in data {
        Go(Leaving(req));
      } else if req.sha.Some? {
        KeepHashed(req, io, headAt);
        path := Some(req.Key());
      } else {
        RemoveGone(req, headAt);
      }
    }

    method KeepHashed(req: Request, io: Io, headAt: real)
      requires Valid() && pc == Headed(req, None, headAt) && now == headAt && req.Key() in data && req.sha.Some?
      modifies this`meta, this`pc, this`trace
      ensures Valid() && pc == Returning(req, headAt, false)
      ensures Disk() == Touched(old(Disk()), req.Key(), io, headAt)
    {
      Go(Touching(req, headAt));
      TouchMeta(req, io, headAt);
    }

    /** Everything from HeadObject on, at time `c'.headAt`. */
    method Revalidate(req: Request, io: Io, busy: set<Key>, ghost c: Course)
      returns (path: Option<Key>, raised: bool, ghost c': Course)
      requires Valid() && pc == Heading(req)
      modifies this
      ensures Valid() && old(now) <= c'.headAt <= c'.asOf <= now && c'.checkedAt == c.checkedAt
      ensures pc == if path.Some? then Returning(req, c'.asOf, Found(Config(), req, io, c'.headAt))
                    else Leaving(req)
      ensures Revalidates(Config(), req, io, busy, c', now, old(Disk()), Disk(), path, raised)
    {
      Clock();
      var at := now;
      c' := c.(headAt := at, asOf := at);
      var head := HeadOrNone(req, io);
      if head.None? {
        path := HandleGone(req, io, at);
        raised := false;
      } else {
        path, raised, c' := HandleFound(req, head.value, io, busy, at, c');
      }
    }

    /** HeadObject found the object: a matching ETag confirms the entry, any other replaces it. */
    method HandleFound(req: Request, etag: ETag, io: Io, busy: set<Key>, headAt: real, ghost c: Course)
      returns (path: Option<Key>, raised: bool, ghost c': Course)
      requires Valid() && pc == Headed(req, Some(etag), headAt) && now == headAt == c.headAt == c.asOf
      modifies this
      ensures Valid() && old(now) <= c'.asOf <= now && c'.headAt == headAt && c'.checkedAt == c.checkedAt
      ensures pc == if path.Some? then Returning(req, c'.asOf, true) else Leaving(req)
      ensures WhenFound(Config(), req, etag, io, busy, c', now, old(Disk()), Disk(), path, raised)
    {
      var k := req.Key();
      if k in data && k in meta && meta[k].etag == etag {
        Go(Updating(req, headAt));
        ConfirmMeta(req, io, headAt);
        return Some(k), false, c;
      }
      DropOutdated(req, etag, headAt);
      c' := c.(dropped := Disk());
      path, c' := FetchAndStore(req, etag, headAt, io, busy, c');
      raised := path.None?;
    }

    method DropOutdated(req: Request, etag: ETag, headAt: real)
      requires Valid() && pc == Headed(req, Some(etag), headAt) && !Current(Disk(), req.Key(), etag)
      modifies this`data, this`meta, this`pc, this`trace
      ensures Valid() && pc == Downloading(req, etag, headAt)
      ensures Dropped(Config(), req.Key(), old(Disk()), Disk())
    {
      if req.Key() in data {
        Go(StaleUnlinkData(req, etag, headAt));
        RemoveStale(req, etag, headAt);
      } else {
        Go(Downloading(req, etag, headAt));
      }
    }

    /** `resolve_or_download` with the cache enabled.  `Resolves` says what becomes of the files and
        when there is a path; CacheSpec derives from it what a caller can rely on.  Whatever is handed
        out satisfies `Served`. */
    method ResolveOrDownload(req: Request, io: Io, busy: set<Key>)
      returns (path: Option<Key>, raised: bool, ghost c: Course)
      requires Valid() && pc == Idle
      modifies this
      ensures Valid() && pc == Idle && old(now) <= c.checkedAt
      ensures Resolves(Config(), req, io, busy, c, now, old(Disk()), Disk(), path, raised)
      ensures var head, found := env.remote(req.name, c.headAt), env.remote(req.name, c.asOf);
              (&& io == Io(true, true, true, true) && head.Some? && found.Some?
               && (req.sha.Some? ==> env.sha(found.value.content) == req.sha.value))
              ==> path == Some(req.Key()) && !raised
      ensures path.Some? ==> Served(req, c.asOf, !Trusted(old(Disk()), req, c.checkedAt))
      ensures path.Some? && now - c.asOf <= 60.0 ==> req.Key() in data
      ensures old(Tidy()) && io.metaOk ==> Tidy()
    {
      path, raised, c := Resolve(req, io, busy);
      PathIff(Config(), req, io, busy, c, now, old(Disk()), Disk(), path, raised);
      if path.Some? && now - c.asOf <= LRU_GRACE_PERIOD {
        PathExists(Config(), req, io, busy, c, now, old(Disk()), Disk(), path, raised);
      }
      if reliable && io.metaOk && Paired(old(data), old(meta)) {
        ResolveKeepsPaired(Config(), req, io, busy, c, now, old(Disk()), Disk(), path, raised);
      }
    }

    method Resolve(req: Request, io: Io, busy: set<Key>) returns (path: Option<Key>, raised: bool, ghost c: Course)
      requires Valid() && pc == Idle
      modifies this
      ensures Valid() && pc == Idle && old(now) <= c.checkedAt
      ensures Resolves(Config(), req, io, busy, c, now, old(Disk()), Disk(), path, raised)
      ensures path.Some? ==> Served(req, c.asOf, !Trusted(old(Disk()), req, c.checkedAt))
    {
      c := Begin(req);
      ghost var confirmed;
      if Trusted(Files(data, meta), req, now) {
        c, confirmed := c.(headAt := now, asOf := now), false;
        HandOut(req, io);
        path, raised := Some(req.Key()), false;
      } else {
        Go(Heading(req));
        path, raised, c := Revalidate(req, io, busy, c);
        confirmed := Found(Config(), req, io, c.headAt);
      }
      Finish(req, path, c.asOf, confirmed);
    }

    method HandOut(req: Request, io: Io)
      requires Valid() && pc == Checking(req) && Trusted(Disk(), req, now)
      modifies this`meta, this`pc, this`trace
      ensures Valid() && pc == Returning(req, now, false)
      ensures Disk() == Touched(old(Disk()), req.Key(), io, now)
    {
      Go(Touching(req, now));
      TouchMeta(req, io, now);
    }

    /** Releases the key lock. */
    ghost method Finish(req: Request, path: Option<Key>, asOf: real, confirmed: bool)
      requires Valid() && pc == if path.Some? then Returning(req, asOf, confirmed) else Leaving(req)
      modifies this`pc, this`trace
      ensures Valid() && pc == Idle
      ensures path.Some? ==> Served(req, asOf, confirmed)
    {
      if path.Some? {
        TraceServes(req, asOf, confirmed);
      }
      Go(Idle);
    }

    /** Takes the key lock and looks at the clock. */
    method Begin(req: Request) returns (ghost c: Course)
      requires Valid() && pc == Idle
      modifies this`now, this`pc, this`trace
      ensures Valid() && pc == Checking(req) && now >= old(now) && c.checkedAt == now
    {
      Go(Locking(req));
      Go(Checking(req));
      Clock();
      c := Course(now, now, now, now, Disk(), []);
    }
  }

  /** A failing HeadObject makes the cache forget: for a name whose freshness has run out the answer is
      None and the entry is gone, although the object was there all the time and the entry may have
      been of its current version. */
  method FailedHeadForgets(cache: FileCache, name: Name, io: Io, busy: set<Key>)
    returns (path: Option<Key>, raised: bool)
    requires cache.Valid() && cache.pc == Idle && cache.reliable && !io.headOk
    requires NameKey(name) in cache.data && NameKey(name) in cache.meta
    requires cache.now - cache.meta[NameKey(name)].lastValidated >= REVALIDATE_INTERVAL
    requires forall at :: cache.env.remote(name, at).Some?
    modifies cache
    ensures path == None && !raised && NameKey(name) !in cache.data
  {
    ghost var before := cache.Disk();
    var req := Request(name, None);
    ghost var c;
    path, raised, c := cache.ResolveOrDownload(req, io, busy);
    NoneIff(cache.Config(), req, io, busy, c, cache.now, before, cache.Disk(), path, raised);
  }
}
