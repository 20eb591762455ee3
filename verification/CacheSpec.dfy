/** What the operations of the judge file cache (app/modules/judge/file_cache.py) do to the files, as
    relations between values: the files before, the answers of the remote store, the files after.
    FileCache has the methods; the theorems here are about the relations their contracts state. */
module CacheSpec {
  import opened CacheProtocol
  import opened Sequences
  import opened Wrappers

  const LRU_GRACE_PERIOD := 60.0
  const EVICT_TARGET_RATIO := 0.8

  datatype Files = Files(data: Data, meta: Metas)

  /** `reliable`: no unlink fails. */
  datatype Setup = Setup(env: Env, maxBytes: int, reliable: bool)

  /** Which remote calls and which file writes succeed during an operation. */
  datatype Io = Io(headOk: bool, downloadOk: bool, dataOk: bool, metaOk: bool)

  datatype Stat = Stat(key: Key, size: nat, lastAccessed: real)

  // ---- Sizes ----

  ghost function PickKey<V>(m: map<Key, V>): Key
    requires m != map[]
  {
    var k :| k in m; k
  }

  ghost function MetaBytes(m: Metas): nat
    decreases |m|
  {
    if m == map[] then 0 else var k := PickKey(m); m[k].size + MetaBytes(m - {k})
  }

  ghost function DataBytes(d: Data): nat
    decreases |d|
  {
    if d == map[] then 0 else var k := PickKey(d); |d[k].content| + DataBytes(d - {k})
  }

  lemma {:induction false} MetaBytesWithout(m: Metas, k: Key)
    requires k in m
    ensures MetaBytes(m) == m[k].size + MetaBytes(m - {k})
    decreases |m|
  {
    var j := PickKey(m);
    if j != k {
      MetaBytesWithout(m - {j}, k);
      MetaBytesWithout(m - {k}, j);
      assert m - {j} - {k} == m - {k} - {j};
    }
  }

  lemma {:induction false} DataBytesWithout(d: Data, k: Key)
    requires k in d
    ensures DataBytes(d) == |d[k].content| + DataBytes(d - {k})
    decreases |d|
  {
    var j := PickKey(d);
    if j != k {
      DataBytesWithout(d - {j}, k);
      DataBytesWithout(d - {k}, j);
      assert d - {j} - {k} == d - {k} - {j};
    }
  }

  /** Every entry has both files and its recorded size is that of its content: every operation
      keeps it so as long as no unlink fails (`Tidy`). */
  ghost predicate Paired(d: Data, m: Metas) {
    d.Keys == m.Keys && forall k :: k in d ==> m[k].size == |d[k].content|
  }

  /** The scan over meta files measures the bytes really held. */
  lemma {:induction false} ScanMeasuresBytes(d: Data, m: Metas)
    requires Paired(d, m)
    ensures MetaBytes(m) == DataBytes(d)
    decreases |m|
  {
    if m != map[] {
      var k := PickKey(m);
      assert k in d;
      DataBytesWithout(d, k);
      ScanMeasuresBytes(d - {k}, m - {k});
    } else {
      assert d == map[];
    }
  }

  // ---- Eviction ----

  /** `int(total + new_size - limit * 0.8)`, for an argument that is positive there. */
  function NeedBytes(total: nat, newSize: nat, maxBytes: int): int {
    ((total + newSize) as real - maxBytes as real * EVICT_TARGET_RATIO).Floor
  }

  /** The guarantee of an undisturbed eviction: at most 80 percent of the limit, rounded up, is
      left, or everything left is locked elsewhere or was accessed within the grace period. */
  lemma {:induction false} EvictionGuarantee(m: Metas, now: real, busy: set<Key>, maxBytes: int, victims: seq<Stat>)
    requires EvictsToTarget(m, 0, now, busy, maxBytes, victims)
    ensures var left := m - KeysOf(victims);
            || MetaBytes(left) as real < maxBytes as real * 0.8 + 1.0
            || forall k :: k in left ==> k in busy || now - left[k].lastAccessed <= 60.0
  {
    BytesAfterEviction(m, victims);
    var left := m - KeysOf(victims);
    if MetaBytes(left) as real >= maxBytes as real * 0.8 + 1.0 {
      forall k | k in left && k !in busy
        ensures now - left[k].lastAccessed <= 60.0
      {
        var s := StatOf(k, m[k]);
        assert Candidate(m, now, busy, s) ==> s in victims;
        assert s in victims ==> s.key in KeysOf(victims);
      }
    }
  }

  /** And it takes no more than that: before its last victim went, more than the target was left. */
  lemma {:induction false} EvictionTakesNoMore(m: Metas, now: real, busy: set<Key>, maxBytes: int, victims: seq<Stat>)
    requires EvictsToTarget(m, 0, now, busy, maxBytes, victims) && victims != []
    ensures MetaBytes(m - KeysOf(victims[..|victims| - 1])) as real >= maxBytes as real * 0.8 + 1.0
  {
    BytesAfterEviction(m, victims[..|victims| - 1]);
  }

  /** The same guarantee about the bytes of the data files themselves. */
  lemma {:induction false} EvictionShrinksData(d: Data, m: Metas, now: real, busy: set<Key>, maxBytes: int,
          victims: seq<Stat>)
    requires Paired(d, m) && EvictsToTarget(m, 0, now, busy, maxBytes, victims)
    ensures var left := d - KeysOf(victims);
            || DataBytes(left) as real < maxBytes as real * 0.8 + 1.0
            || forall k :: k in left ==> k in busy || now - m[k].lastAccessed <= 60.0
    ensures victims != [] ==>
              DataBytes(d - KeysOf(victims[..|victims| - 1])) as real >= maxBytes as real * 0.8 + 1.0
  {
    EvictionGuarantee(m, now, busy, maxBytes, victims);
    PairedLeft(d, m, KeysOf(victims));
    if victims != [] {
      EvictionTakesNoMore(m, now, busy, maxBytes, victims);
      PairedLeft(d, m, KeysOf(victims[..|victims| - 1]));
    }
  }

  lemma {:induction false} PairedLeft(d: Data, m: Metas, gone: set<Key>)
    requires Paired(d, m)
    ensures MetaBytes(m - gone) == DataBytes(d - gone) && (m - gone).Keys == (d - gone).Keys
  {
    assert (d - gone).Keys == (m - gone).Keys;
    ScanMeasuresBytes(d - gone, m - gone);
  }

  /** An entry accessed within the grace period survives, so the entry just stored does even
      though its own thread could take its lock again. */
  lemma {:induction false} GraceProtects(m: Metas, now: real, busy: set<Key>, needBytes: int, victims: seq<Stat>,
          k: Key)
    requires Evicts(m, now, busy, needBytes, victims)
    requires k in m && now - m[k].lastAccessed <= 60.0
    ensures k !in KeysOf(victims)
  {
  }

  lemma {:induction false} StoredSurvives(m: Metas, now: real, busy: set<Key>, maxBytes: int, victims: seq<Stat>,
          k: Key)
    requires if MetaBytes(m) <= maxBytes then victims == []
             else EvictsToTarget(m, 0, now, busy, maxBytes, victims)
    requires k in m
    ensures now - m[k].lastAccessed <= 60.0 ==> k !in KeysOf(victims)
  {
  }

  /** The state of the eviction loop: what was taken from the first `i` candidates is gone. */
  ghost predicate Progress(reliable: bool, candidates: seq<Stat>, i: nat, busy: set<Key>, needBytes: int,
          victims: seq<Stat>,
                           d: Data, m: Metas, before: Data, metaBefore: Metas)
    requires i <= |candidates|
  {
    && (reliable ==> d == before - KeysOf(victims) && m == metaBefore - KeysOf(victims))
    && Within(d, m, before, metaBefore, KeysOf(victims))
    && TakenFrom(candidates, i, busy, victims)
    && (victims == [] || Sizes(victims[..|victims| - 1]) < needBytes)
  }

  ghost predicate Unlinked(reliable: bool, k: Key, d: Data, m: Metas, before: Data, metaBefore: Metas) {
    && (d == before - {k} || (!reliable && d == before))
    && (m == metaBefore - {k} || (!reliable && m == metaBefore))
  }

  lemma {:induction false} ProgressNext(reliable: bool, candidates: seq<Stat>, i: nat, busy: set<Key>,
          needBytes: int, victims: seq<Stat>,
                     d: Data, m: Metas, d': Data, m': Metas, before: Data, metaBefore: Metas)
    requires i < |candidates| && Distinct(candidates)
    requires Progress(reliable, candidates, i, busy, needBytes, victims, d, m, before, metaBefore)
    requires Sizes(victims) < needBytes
    requires if candidates[i].key in busy then d' == d && m' == m
             else Unlinked(reliable, candidates[i].key, d', m', d, m)
    ensures var victims' := if candidates[i].key in busy then victims else victims + [candidates[i]];
            && Progress(reliable, candidates, i + 1, busy, needBytes, victims', d', m', before, metaBefore)
            && Sizes(victims') == Sizes(victims) + if candidates[i].key in busy then 0 else candidates[i].size
  {
    TakeNext(candidates, i, busy, victims);
    if candidates[i].key !in busy {
      GoneNext(reliable, candidates[i], victims, d, m, d', m', before, metaBefore);
      assert (victims + [candidates[i]])[..|victims|] == victims;
    }
  }

  lemma {:induction false} GoneNext(reliable: bool, victim: Stat, victims: seq<Stat>,
                                    d: Data, m: Metas, d': Data, m': Metas, before: Data, metaBefore: Metas)
    requires Within(d, m, before, metaBefore, KeysOf(victims)) && Unlinked(reliable, victim.key, d', m', d, m)
    requires reliable ==> d == before - KeysOf(victims) && m == metaBefore - KeysOf(victims)
    ensures Within(d', m', before, metaBefore, KeysOf(victims + [victim]))
    ensures reliable ==> d' == before - KeysOf(victims + [victim]) && m' == metaBefore - KeysOf(victims + [victim])
  {
    assert KeysOf(victims + [victim]) == KeysOf(victims) + {victim.key};
  }

  function StatOf(k: Key, m: Meta): Stat {
    Stat(k, m.size, m.lastAccessed)
  }

  function Sizes(stats: seq<Stat>): nat {
    if stats == [] then 0 else Sizes(stats[..|stats| - 1]) + stats[|stats| - 1].size
  }

  function ByAccess(): Stat -> real {
    (s: Stat) => s.lastAccessed
  }

  function KeysOf(stats: seq<Stat>): set<Key> {
    set s | s in stats :: s.key
  }

  /** The entries not accessed within the grace period. */
  function Idlers(stats: seq<Stat>, now: real): seq<Stat> {
    if stats == [] then []
    else Idlers(stats[..|stats| - 1], now)
         + (if now - stats[|stats| - 1].lastAccessed > LRU_GRACE_PERIOD then [stats[|stats| - 1]] else [])
  }

  /** Nothing is added or altered, and nothing but files of `gone` is missing. */
  ghost predicate Within(d: Data, m: Metas, before: Data, metaBefore: Metas, gone: set<Key>) {
    && (forall k :: k in d ==> k in before && d[k] == before[k])
    && (forall k :: k in m ==> k in metaBefore && m[k] == metaBefore[k])
    && (forall k :: k in before && k !in gone ==> k in d)
    && (forall k :: k in metaBefore && k !in gone ==> k in m)
  }

  ghost predicate Candidate(m: Metas, now: real, busy: set<Key>, s: Stat) {
    s.key in m && s.key !in busy && s == StatOf(s.key, m[s.key]) && now - s.lastAccessed > LRU_GRACE_PERIOD
  }

  /** Idle entries only, none accessed later than one that is spared. */
  ghost predicate OldestIdle(m: Metas, now: real, busy: set<Key>, victims: seq<Stat>) {
    && Distinct(victims) && (forall v :: v in victims ==> Candidate(m, now, busy, v))
    && forall v, s :: v in victims && s !in victims && Candidate(m, now, busy, s) ==> v.lastAccessed <= s.lastAccessed
  }

  /** What an eviction of `needBytes` may take: the oldest idle entries, no more of them than needed,
      and enough unless no candidate is left. */
  ghost predicate Evicts(m: Metas, now: real, busy: set<Key>, needBytes: int, victims: seq<Stat>) {
    && OldestIdle(m, now, busy, victims)
    && (victims == [] || Sizes(victims[..|victims| - 1]) < needBytes)
    && (Sizes(victims) >= needBytes || forall s :: Candidate(m, now, busy, s) ==> s in victims)
  }

  /** The same by what is left: more than 80 percent of the limit before the last victim, and no more
      than that after it, unless no candidate is left. */
  ghost predicate EvictsToTarget(m: Metas, newSize: nat, now: real, busy: set<Key>, maxBytes: int, victims: seq<Stat>) {
    && OldestIdle(m, now, busy, victims)
    && (victims != [] ==>
          (MetaBytes(m) + newSize - Sizes(victims[..|victims| - 1])) as real >= maxBytes as real * 0.8 + 1.0)
    && (|| (MetaBytes(m) + newSize - Sizes(victims)) as real < maxBytes as real * 0.8 + 1.0
        || forall s :: Candidate(m, now, busy, s) ==> s in victims)
  }

  /** Freeing `NeedBytes` is what leaves the target. */
  lemma {:induction false} NeedMeetsTarget(m: Metas, newSize: nat, now: real, busy: set<Key>, maxBytes: int,
          victims: seq<Stat>)
    ensures Evicts(m, now, busy, NeedBytes(MetaBytes(m), newSize, maxBytes), victims) <==>
            EvictsToTarget(m, newSize, now, busy, maxBytes, victims)
  {
    FreedIffLeft(MetaBytes(m), newSize, maxBytes, Sizes(victims));
    if victims != [] {
      FreedIffLeft(MetaBytes(m), newSize, maxBytes, Sizes(victims[..|victims| - 1]));
    }
  }

  lemma {:induction false} FreedIffLeft(total: nat, newSize: nat, maxBytes: int, freed: nat)
    ensures freed >= NeedBytes(total, newSize, maxBytes) <==>
            (total + newSize - freed) as real < maxBytes as real * 0.8 + 1.0
  {
    var x := (total + newSize) as real - maxBytes as real * 0.8;
    assert x.Floor as real <= x < x.Floor as real + 1.0;
  }

  lemma {:induction false} IdlersAre(stats: seq<Stat>, now: real)
    requires Distinct(stats)
    ensures Distinct(Idlers(stats, now))
    ensures forall s :: s in Idlers(stats, now) <==> s in stats && now - s.lastAccessed > LRU_GRACE_PERIOD
  {
    if stats != [] {
      IdlersAre(stats[..|stats| - 1], now);
      assert stats == stats[..|stats| - 1] + [stats[|stats| - 1]];
    }
  }

  /** The sorted candidate list of a scan. */
  ghost predicate CandidateList(m: Metas, now: real, candidates: seq<Stat>) {
    && Distinct(candidates) && SortedBy(candidates, ByAccess())
    && forall s :: s in candidates <==> Candidate(m, now, {}, s)
  }

  lemma {:induction false} CandidatesSorted(m: Metas, stats: seq<Stat>, now: real)
    requires Distinct(stats) && forall s :: s in stats <==> s.key in m && s == StatOf(s.key, m[s.key])
    ensures CandidateList(m, now, SortBy(Idlers(stats, now), ByAccess()))
  {
    var idle := Idlers(stats, now);
    IdlersAre(stats, now);
    SortBySorts(idle, ByAccess());
    SortByCounts(idle, ByAccess());
    SameMultiset(SortBy(idle, ByAccess()), idle);
    PermutedDistinct(idle, SortBy(idle, ByAccess()));
  }

  /** `victims` are the candidates before position `i` whose locks were free. */
  ghost predicate TakenFrom(candidates: seq<Stat>, i: nat, busy: set<Key>, victims: seq<Stat>)
    requires i <= |candidates|
  {
    Distinct(victims) && forall s :: s in victims <==> s in candidates[..i] && s.key !in busy
  }

  lemma {:induction false} TakeNext(candidates: seq<Stat>, i: nat, busy: set<Key>, victims: seq<Stat>)
    requires i < |candidates| && TakenFrom(candidates, i, busy, victims) && Distinct(candidates)
    ensures if candidates[i].key in busy then TakenFrom(candidates, i + 1, busy, victims)
            else TakenFrom(candidates, i + 1, busy, victims + [candidates[i]])
  {
  }

  lemma {:induction false} EvictionMeetsSpec(m: Metas, now: real, busy: set<Key>, needBytes: int,
          candidates: seq<Stat>, i: nat, victims: seq<Stat>)
    requires CandidateList(m, now, candidates) && i <= |candidates| && TakenFrom(candidates, i, busy, victims)
    requires victims == [] || Sizes(victims[..|victims| - 1]) < needBytes
    requires Sizes(victims) >= needBytes || i == |candidates|
    ensures Evicts(m, now, busy, needBytes, victims)
  {
    forall v | v in victims
      ensures Candidate(m, now, busy, v)
    {
      assert v in candidates;
    }
    forall v, s | v in victims && s !in victims && Candidate(m, now, busy, s)
      ensures v.lastAccessed <= s.lastAccessed
    {
      assert Candidate(m, now, {}, s) && s in candidates && v in candidates[..i];
      var a :| 0 <= a < i && candidates[a] == v;
      assert candidates == candidates[..i] + candidates[i..] && s in candidates[i..];
      var b :| 0 <= b < |candidates[i..]| && candidates[i..][b] == s;
      assert ByAccess()(candidates[a]) <= ByAccess()(candidates[i + b]);
    }
    forall s | i == |candidates| && Candidate(m, now, busy, s)
      ensures s in victims
    {
      assert Candidate(m, now, {}, s) && s in candidates && candidates[..i] == candidates;
    }
  }

  /** Removing the victims removes exactly the bytes counted for them. */
  lemma {:induction false} BytesAfterEviction(m: Metas, victims: seq<Stat>)
    requires Distinct(victims) && forall v :: v in victims ==> v.key in m && v == StatOf(v.key, m[v.key])
    ensures MetaBytes(m - KeysOf(victims)) == MetaBytes(m) - Sizes(victims)
  {
    if victims == [] {
      assert m - KeysOf(victims) == m;
    } else {
      var init, v := victims[..|victims| - 1], victims[|victims| - 1];
      BytesAfterEviction(m, init);
      assert victims == init + [v];
      assert v.key !in KeysOf(init);
      MetaBytesWithout(m - KeysOf(init), v.key);
      assert m - KeysOf(init) - {v.key} == m - KeysOf(victims);
    }
  }

  /** The eviction that runs when `stored` is over the limit: its victims, and the files it leaves. */
  ghost predicate EvictedFrom(s: Setup, now: real, busy: set<Key>, stored: Files, f: Files, victims: seq<Stat>) {
    && (if MetaBytes(stored.meta) <= s.maxBytes then victims == []
        else EvictsToTarget(stored.meta, 0, now, busy, s.maxBytes, victims))
    && Within(f.data, f.meta, stored.data, stored.meta, KeysOf(victims))
    && (s.reliable ==> f == Files(stored.data - KeysOf(victims), stored.meta - KeysOf(victims)))
  }

  // ---- Resolving ----

  /** When a resolve looked, asked, read and stamped; the files after an outdated entry was dropped;
      and what was evicted. */
  datatype Course = Course(checkedAt: real, headAt: real, asOf: real, stamp: real, dropped: Files, victims: seq<Stat>)

  /** A hash vouches for the entry, or it was validated within the last 60 seconds. */
  predicate Trusted(f: Files, req: Request, at: real) {
    var k := req.Key();
    k in f.data && (req.sha.Some? || (k in f.meta && at - f.meta[k].lastValidated < REVALIDATE_INTERVAL))
  }

  /** HeadObject works and finds the object. */
  ghost predicate Found(s: Setup, req: Request, io: Io, headAt: real) {
    io.headOk && s.env.remote(req.name, headAt).Some?
  }

  /** The download works and has the hash asked for. */
  ghost predicate Delivers(s: Setup, req: Request, io: Io, asOf: real) {
    var found := s.env.remote(req.name, asOf);
    io.downloadOk && found.Some? && (req.sha.Some? ==> s.env.sha(found.value.content) == req.sha.value)
  }

  /** The entry is of the version that the remote store reports. */
  predicate Current(f: Files, k: Key, etag: ETag) {
    k in f.data && k in f.meta && f.meta[k].etag == etag
  }

  /** The access time moves unless it is recent; a failing write of the meta file is swallowed. */
  function Touched(f: Files, k: Key, io: Io, now: real): Files {
    if io.metaOk && k in f.meta && now - f.meta[k].lastAccessed >= TOUCH_COOLDOWN
    then f.(meta := f.meta[k := f.meta[k].(lastAccessed := now)]) else f
  }

  function Confirmed(f: Files, k: Key, io: Io, now: real, headAt: real): Files {
    if io.metaOk && k in f.meta
    then f.(meta := f.meta[k := f.meta[k].(lastValidated := now, lastAccessed := now, confirmedAt := headAt)]) else f
  }

  function WithData(f: Files, k: Key, blob: Blob): Files {
    f.(data := f.data[k := blob])
  }

  function Stored(f: Files, k: Key, blob: Blob, etag: ETag, headAt: real, stamp: real): Files {
    WithData(f, k, blob).(meta := f.meta[k := Meta(etag, |blob.content|, stamp, stamp, headAt, blob.readAt)])
  }

  /** Both files of the entry are unlinked, if it has a data file. */
  ghost predicate Dropped(s: Setup, k: Key, before: Files, f: Files) {
    if k in before.data then Unlinked(s.reliable, k, f.data, f.meta, before.data, before.meta) else f == before
  }

  /** Download at `c.asOf`, store, evict.  A failing download or a wrong hash changes nothing, and
      nor does a failing write of the data file; a failing write of the meta file leaves the new data
      file behind. */
  ghost predicate Fetches(s: Setup, req: Request, etag: ETag, io: Io, busy: set<Key>, c: Course, now: real,
                          before: Files, f: Files, path: Option<Key>)
  {
    var k := req.Key();
    if !Delivers(s, req, io, c.asOf) || !io.dataOk then path == None && f == before
    else
      var blob := Blob(s.env.remote(req.name, c.asOf).value.content, c.asOf);
      if !io.metaOk then path == None && f == WithData(before, k, blob)
      else
        && path == Some(k) && c.asOf <= c.stamp <= now && c.stamp <= c.asOf + s.env.delay
        && EvictedFrom(s, now, busy, Stored(before, k, blob, etag, c.headAt, c.stamp), f, c.victims)
  }

  /** Without the object a hash still vouches for its entry, a name does not. */
  ghost predicate WhenGone(s: Setup, req: Request, io: Io, headAt: real, before: Files, f: Files, path: Option<Key>) {
    if req.Key() in before.data && req.sha.Some?
    then path == Some(req.Key()) && f == Touched(before, req.Key(), io, headAt)
    else path == None && Dropped(s, req.Key(), before, f)
  }

  ghost predicate WhenFound(s: Setup, req: Request, etag: ETag, io: Io, busy: set<Key>, c: Course, now: real,
                            before: Files, f: Files, path: Option<Key>, raised: bool)
  {
    var k := req.Key();
    if Current(before, k, etag)
    then !raised && c.asOf == c.headAt && path == Some(k) && f == Confirmed(before, k, io, now, c.headAt)
    else
      && raised == path.None? && Dropped(s, k, before, c.dropped)
      && Fetches(s, req, etag, io, busy, c, now, c.dropped, f, path)
  }

  /** What asking the remote store at `c.headAt` comes to.  An object that is not there leaves at most
      an entry that a hash vouches for; a matching ETag confirms the entry; any other version is
      downloaded, and only that raises. */
  ghost predicate Revalidates(s: Setup, req: Request, io: Io, busy: set<Key>, c: Course, now: real,
                              before: Files, f: Files, path: Option<Key>, raised: bool)
  {
    if Found(s, req, io, c.headAt)
    then
      var etag := s.env.remote(req.name, c.headAt).value.etag;
      WhenFound(s, req, etag, io, busy, c, now, before, f, path, raised)
    else !raised && c.asOf == c.headAt && WhenGone(s, req, io, c.headAt, before, f, path)
  }

  /** A whole resolve: a trusted entry is handed out as it is, otherwise the remote store decides. */
  ghost predicate Resolves(s: Setup, req: Request, io: Io, busy: set<Key>, c: Course, now: real,
                           before: Files, f: Files, path: Option<Key>, raised: bool)
  {
    && c.checkedAt <= c.headAt <= c.asOf <= now
    && if Trusted(before, req, c.checkedAt)
       then path == Some(req.Key()) && !raised && c.asOf == c.checkedAt
            && f == Touched(before, req.Key(), io, c.checkedAt)
       else Revalidates(s, req, io, busy, c, now, before, f, path, raised)
  }

  // ---- What follows for a caller ----

  /** The remote store reports a version other than the cached one. */
  ghost predicate Replaces(s: Setup, req: Request, io: Io, c: Course, before: Files) {
    && !Trusted(before, req, c.checkedAt) && Found(s, req, io, c.headAt)
    && !Current(before, req.Key(), s.env.remote(req.name, c.headAt).value.etag)
  }

  /** When there is a path: a hash or the freshness window vouches for the entry, or the remote store
      reports its ETag, or everything works and the download has the hash asked for.  Without a path
      the call raises exactly when HeadObject found something. */
  lemma {:induction false} PathIff(s: Setup, req: Request, io: Io, busy: set<Key>, c: Course, now: real,
          before: Files, f: Files, path: Option<Key>, raised: bool)
    requires Resolves(s, req, io, busy, c, now, before, f, path, raised)
    ensures var k, head, found := req.Key(), s.env.remote(req.name, c.headAt), s.env.remote(req.name, c.asOf);
            path.Some? <==>
            || (k in before.data
                && (req.sha.Some? || (k in before.meta && c.checkedAt - before.meta[k].lastValidated < 60.0)))
            || (io.headOk && head.Some? && k in before.data && k in before.meta
                && before.meta[k].etag == head.value.etag)
            || (io.headOk && head.Some? && io.downloadOk && found.Some? && io.dataOk && io.metaOk
                && (req.sha.Some? ==> s.env.sha(found.value.content) == req.sha.value))
    ensures path.Some? ==> path.value == req.Key()
    ensures raised <==> path.None? && io.headOk && s.env.remote(req.name, c.headAt).Some?
  {
  }

  /** When nothing fails and the object stays available, with the hash asked for, there is a path,
      whatever the cache held. */
  lemma {:induction false} HealthyCallServes(s: Setup, req: Request, io: Io, busy: set<Key>, c: Course, now: real,
          before: Files, f: Files, path: Option<Key>, raised: bool)
    requires Resolves(s, req, io, busy, c, now, before, f, path, raised)
    requires io == Io(true, true, true, true)
    requires forall at :: c.headAt <= at <= c.asOf ==> s.env.remote(req.name, at).Some?
    requires req.sha.Some? ==> s.env.sha(s.env.remote(req.name, c.asOf).value.content) == req.sha.value
    ensures path == Some(req.Key()) && !raised
  {
    assert s.env.remote(req.name, c.headAt).Some? && s.env.remote(req.name, c.asOf).Some?;
  }

  /** An entry that a hash or the freshness window vouches for is handed out as it is.  Its access time
      moves once a minute, unless the write fails. */
  lemma {:induction false} TrustedEntry(s: Setup, req: Request, io: Io, busy: set<Key>, c: Course, now: real,
          before: Files, f: Files, path: Option<Key>, raised: bool)
    requires Resolves(s, req, io, busy, c, now, before, f, path, raised)
    requires req.Key() in before.data
    requires || req.sha.Some?
             || (req.Key() in before.meta && c.checkedAt - before.meta[req.Key()].lastValidated < 60.0)
    ensures path == Some(req.Key()) && c.asOf == c.checkedAt && f.data == before.data
    ensures var k, m := req.Key(), before.meta;
            f.meta == if io.metaOk && k in m && c.checkedAt - m[k].lastAccessed >= 60.0
                      then m[k := m[k].(lastAccessed := c.checkedAt)] else m
  {
  }

  /** A matching ETag hands the entry out as it is and makes it fresh again, unless the write fails. */
  lemma {:induction false} CurrentEntry(s: Setup, req: Request, io: Io, busy: set<Key>, c: Course, now: real,
          before: Files, f: Files, path: Option<Key>, raised: bool)
    requires Resolves(s, req, io, busy, c, now, before, f, path, raised)
    requires !Trusted(before, req, c.checkedAt) && io.headOk && s.env.remote(req.name, c.headAt).Some?
    requires req.Key() in before.data && req.Key() in before.meta
    requires before.meta[req.Key()].etag == s.env.remote(req.name, c.headAt).value.etag
    ensures path == Some(req.Key()) && c.asOf == c.headAt && f.data == before.data
    ensures var k, m := req.Key(), before.meta;
            f.meta == if io.metaOk
                      then m[k := m[k].(lastValidated := now, lastAccessed := now, confirmedAt := c.headAt)] else m
  {
  }

  /** A replaced entry holds exactly what was downloaded, under the ETag that HeadObject reported, and
      is there unless more than the grace period has passed since it was stamped. */
  lemma {:induction false} ReplacedEntry(s: Setup, req: Request, io: Io, busy: set<Key>, c: Course, now: real,
          before: Files, f: Files, path: Option<Key>, raised: bool)
    requires Resolves(s, req, io, busy, c, now, before, f, path, raised)
    requires path.Some? && Replaces(s, req, io, c, before)
    ensures s.env.remote(req.name, c.headAt).Some? && s.env.remote(req.name, c.asOf).Some?
    ensures c.asOf <= c.stamp <= c.asOf + s.env.delay
    ensures var k, content := req.Key(), s.env.remote(req.name, c.asOf).value.content;
            && (k in f.data ==> f.data[k] == Blob(content, c.asOf))
            && (k in f.meta ==> f.meta[k] == Meta(s.env.remote(req.name, c.headAt).value.etag, |content|,
                                                  c.stamp, c.stamp, c.headAt, c.asOf))
    ensures now - c.stamp <= 60.0 ==> req.Key() in f.data && req.Key() in f.meta
  {
    var stored := NewFiles(s, req, c);
    StoredSurvives(stored.meta, now, busy, s.maxBytes, c.victims, req.Key());
  }

  /** When the answer is None: exactly when HeadObject found nothing or failed, and neither a hash nor
      the freshness window vouches for an entry.  It means that the object is missing, as documented,
      whenever HeadObject works.  An entry that was there is gone then. */
  lemma {:induction false} NoneIff(s: Setup, req: Request, io: Io, busy: set<Key>, c: Course, now: real,
          before: Files, f: Files, path: Option<Key>, raised: bool)
    requires Resolves(s, req, io, busy, c, now, before, f, path, raised)
    ensures var k := req.Key();
            path == None && !raised <==>
            && (!io.headOk || s.env.remote(req.name, c.headAt).None?)
            && !(k in before.data
                 && (req.sha.Some? || (k in before.meta && c.checkedAt - before.meta[k].lastValidated < 60.0)))
    ensures path == None && !raised && io.headOk ==> s.env.remote(req.name, c.headAt).None?
    ensures path == None && !raised && s.reliable ==>
              f == if req.Key() in before.data then Files(before.data - {req.Key()}, before.meta - {req.Key()})
                   else before
  {
  }

  /** A path that is handed out exists, unless more than the grace period has passed since the
      content was decided on. */
  lemma {:induction false} PathExists(s: Setup, req: Request, io: Io, busy: set<Key>, c: Course, now: real,
          before: Files, f: Files, path: Option<Key>, raised: bool)
    requires Resolves(s, req, io, busy, c, now, before, f, path, raised)
    requires path.Some? && now - c.asOf <= 60.0
    ensures path.value in f.data
  {
    if Replaces(s, req, io, c, before) {
      ReplacedEntry(s, req, io, busy, c, now, before, f, path, raised);
    }
  }

  /** Nothing of an entry is left after a failure, except a new data file whose meta file could not
      be written. */
  lemma {:induction false} FailureLeaves(s: Setup, req: Request, io: Io, busy: set<Key>, c: Course, now: real,
          before: Files, f: Files, path: Option<Key>, raised: bool)
    requires Resolves(s, req, io, busy, c, now, before, f, path, raised)
    requires path.None? && s.reliable
    ensures var found := s.env.remote(req.name, c.asOf);
            && (req.Key() in f.data <==>
                raised && io.downloadOk && found.Some? && io.dataOk
                && (req.sha.Some? ==> s.env.sha(found.value.content) == req.sha.value))
            && (req.Key() in f.data ==> !io.metaOk && f.data[req.Key()] == Blob(found.value.content, c.asOf))
    ensures req.Key() in before.data ==> req.Key() !in f.meta
  {
  }

  /** Other entries stay as they are, or go.  None goes unless something was stored and the cache is
      over its limit then. */
  lemma {:induction false} OthersStay(s: Setup, req: Request, io: Io, busy: set<Key>, c: Course, now: real,
          before: Files, f: Files, path: Option<Key>, raised: bool, j: Key)
    requires Resolves(s, req, io, busy, c, now, before, f, path, raised) && j != req.Key()
    ensures j in f.data ==> j in before.data && f.data[j] == before.data[j]
    ensures j in f.meta ==> j in before.meta && f.meta[j] == before.meta[j]
    ensures (j in before.data && j !in f.data) || (j in before.meta && j !in f.meta) ==>
              && path.Some? && Replaces(s, req, io, c, before)
              && MetaBytes(NewFiles(s, req, c).meta) > s.maxBytes
  {
    if Replaces(s, req, io, c, before) {
      DropKeepsOthers(s, req.Key(), before, c.dropped, j);
      FetchKeepsOthers(s, req, io, busy, c, now, c.dropped, f, path, j);
    }
  }

  ghost predicate SameAt(f: Files, f': Files, j: Key) {
    && (j in f.data <==> j in f'.data) && (j in f.data ==> f'.data[j] == f.data[j])
    && (j in f.meta <==> j in f'.meta) && (j in f.meta ==> f'.meta[j] == f.meta[j])
  }

  lemma {:induction false} DropKeepsOthers(s: Setup, k: Key, before: Files, f: Files, j: Key)
    requires Dropped(s, k, before, f) && j != k
    ensures SameAt(before, f, j)
  {
  }

  lemma {:induction false} FetchKeepsOthers(s: Setup, req: Request, io: Io, busy: set<Key>, c: Course,
          now: real, before: Files, f: Files, path: Option<Key>, j: Key)
    requires s.env.remote(req.name, c.headAt).Some? && before == c.dropped && j != req.Key()
    requires Fetches(s, req, s.env.remote(req.name, c.headAt).value.etag, io, busy, c, now, before, f, path)
    ensures j in f.data ==> j in before.data && f.data[j] == before.data[j]
    ensures j in f.meta ==> j in before.meta && f.meta[j] == before.meta[j]
    ensures SameAt(before, f, j) || (path.Some? && MetaBytes(NewFiles(s, req, c).meta) > s.maxBytes)
  {
  }

  /** The files just after a store, before anything is evicted. */
  ghost function NewFiles(s: Setup, req: Request, c: Course): Files
    requires s.env.remote(req.name, c.headAt).Some? && s.env.remote(req.name, c.asOf).Some?
  {
    var k, content := req.Key(), s.env.remote(req.name, c.asOf).value.content;
    var m := Meta(s.env.remote(req.name, c.headAt).value.etag, |content|, c.stamp, c.stamp, c.headAt, c.asOf);
    Files(c.dropped.data[k := Blob(content, c.asOf)], c.dropped.meta[k := m])
  }

  /** What a store leaves: the outdated entry is dropped, the new one written, and then only the
      victims go, none unless the limit is exceeded. */
  lemma {:induction false} StoreLeaves(s: Setup, req: Request, io: Io, busy: set<Key>, c: Course, now: real,
          before: Files, f: Files, path: Option<Key>, raised: bool)
    requires Resolves(s, req, io, busy, c, now, before, f, path, raised)
    requires s.reliable && path.Some? && Replaces(s, req, io, c, before)
    ensures s.env.remote(req.name, c.headAt).Some? && s.env.remote(req.name, c.asOf).Some?
    ensures c.dropped == if req.Key() in before.data
                         then Files(before.data - {req.Key()}, before.meta - {req.Key()}) else before
    ensures var stored := NewFiles(s, req, c);
            && f == Files(stored.data - KeysOf(c.victims), stored.meta - KeysOf(c.victims))
            && (MetaBytes(stored.meta) <= s.maxBytes ==> c.victims == [])
  {
  }

  /** After a store the cache is within its limit, at 80 percent of it if something had to go, or
      everything left is locked by another thread or was accessed within the grace period. */
  lemma {:induction false} StoreKeepsLimit(s: Setup, req: Request, io: Io, busy: set<Key>, c: Course, now: real,
          before: Files, f: Files, path: Option<Key>, raised: bool)
    requires Resolves(s, req, io, busy, c, now, before, f, path, raised)
    requires s.reliable && s.maxBytes >= 0 && path.Some? && Replaces(s, req, io, c, before)
    ensures || MetaBytes(f.meta) <= s.maxBytes
            || forall k :: k in f.meta ==> k in busy || now - f.meta[k].lastAccessed <= 60.0
    ensures c.victims != [] ==>
              || MetaBytes(f.meta) as real < s.maxBytes as real * 0.8 + 1.0
              || forall k :: k in f.meta ==> k in busy || now - f.meta[k].lastAccessed <= 60.0
  {
    StoreLeaves(s, req, io, busy, c, now, before, f, path, raised);
    var stored := NewFiles(s, req, c);
    if MetaBytes(stored.meta) <= s.maxBytes {
      assert stored.meta - KeysOf(c.victims) == stored.meta;
    } else {
      EvictionGuarantee(stored.meta, now, busy, s.maxBytes, c.victims);
      EightyPercent(MetaBytes(f.meta), s.maxBytes);
    }
  }

  /** And a store evicts no more than that takes: before the last victim went, more than 80 percent of
      the limit was left. */
  lemma {:induction false} StoreTakesNoMore(s: Setup, req: Request, io: Io, busy: set<Key>, c: Course, now: real,
          before: Files, f: Files, path: Option<Key>, raised: bool)
    requires Resolves(s, req, io, busy, c, now, before, f, path, raised)
    requires path.Some? && Replaces(s, req, io, c, before) && c.victims != []
    ensures s.env.remote(req.name, c.headAt).Some? && s.env.remote(req.name, c.asOf).Some?
    ensures MetaBytes(NewFiles(s, req, c).meta - KeysOf(c.victims[..|c.victims| - 1])) as real
            >= s.maxBytes as real * 0.8 + 1.0
  {
    EvictionTakesNoMore(NewFiles(s, req, c).meta, now, busy, s.maxBytes, c.victims);
  }

  lemma {:induction false} EightyPercent(total: nat, maxBytes: int)
    requires maxBytes >= 0
    ensures total as real < maxBytes as real * 0.8 + 1.0 ==> total <= maxBytes
  {
    if total > maxBytes {
      assert total as real >= maxBytes as real + 1.0;
    }
  }

  /** Without failing unlinks and meta writes the recorded sizes stay those of the data files. */
  lemma {:induction false} ResolveKeepsPaired(s: Setup, req: Request, io: Io, busy: set<Key>, c: Course, now: real,
          before: Files, f: Files, path: Option<Key>, raised: bool)
    requires Resolves(s, req, io, busy, c, now, before, f, path, raised)
    requires s.reliable && io.metaOk && Paired(before.data, before.meta)
    ensures Paired(f.data, f.meta)
  {
  }
}
