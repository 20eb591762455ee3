# A verified model of the judge worker's core

This project models the parts of the online-judge backend whose correctness is hard to see from the
code, and proves what they promise. `dafny verify dfyconfig.toml` checks everything.

| part of the system | modules |
|---|---|
| judge file cache (`app/modules/judge/file_cache.py`) | `CacheKeys`, `KeyLocks`, `CacheProtocol`, `CacheLocks`, `CacheStaleness`, `CacheSpec`, `FileCache` |
| captcha rasteriser and PNG writer (`app/core/security/transport.py`) | `Raster`, `Png` |
| module loader and lifecycle hooks (`app/platform/module/`) | `Graphs`, `ModuleSort`, `Hooks` |
| scoring (`scoring.py`, `result_mapper.py`, `modes/standard.py` under `app/modules/judge/`) | `Scoring`, `BatchAggregation`, `StandardMode` |
| login sessions (`app/core/security/session.py`) | `Sessions`, `SessionStore` |
| rate limiter (`app/middleware/rate_limit.py`) | `RateLimit` |
| output comparison (`app/modules/judge/checker.py`) | `Utf8`, `Checker` |
| rotating log (`app/core/logger/file_handler.py`) | `LogRotation` |

`Wrappers`, `Bytes` and `Sequences` hold shared definitions and facts.

How the pieces fit:

- **The file cache** is modelled three times, and the three are tied together. `KeyLocks` is the lock
  table and its reentrant locks, one step per access. `CacheProtocol` is the cache on exclusive stacks
  of held keys: any number of threads, one step per file operation, remote call or decisive clock
  reading, a crash between any two steps, a remote store that is an arbitrary function of name and
  time. The two match in both directions: `LocksRefineStacks` shows that the lock table implements
  exclusive stacks, and `CacheLocks` that it can make every step the protocol makes, by the calls the
  code makes. `FileCache` is the code as written, with fields and loops, for calls that no other thread
  and no crash disturbs, except that other threads may hold locks. Every method also extends a ghost
  history, and `Valid` says that this history is a run of `CacheProtocol` by a single thread, so what
  holds of all runs holds of such calls; interleavings and crashes are covered by `CacheProtocol`
  alone. What a call does to the files is a relation between values in `CacheSpec` (`Resolves` for a
  whole resolve, with every remote answer and file write allowed to fail), and what a caller can rely
  on is proved of these relations there.
- **Scoring** separates the rules on values (`Scoring`: what a case contributes, what order results
  are listed in) from the four phases on mutable case results (`BatchAggregation`), whose `ensures`
  equate them with those rules.
- **Sessions** separates the store operations on values and the theorems over all runs (`Sessions`)
  from the class whose methods each perform one of them (`SessionStore`).
- **Raster, RateLimit, LogRotation, ModuleSort, Hooks and Checker** keep the source's loops and
  mutable state and specify them by an independent description: sets of recoloured pixels, the full
  request log, the concatenated log of a day, the dependency graph, the trace of calls, equality of
  stripped texts.

## Hypotheses

- One process uses a cache directory. The process may crash at any step; the machine does not lose
  power, so a completed rename stays done.
- The clock does not go backwards.
- For the staleness of name-addressed entries only: ETags of one object name never recur
  (`EtagsNeverRecur`); a store that reports no ETag at all breaks this. Mutual exclusion, freedom from
  deadlock and the safety of hash-addressed entries do not depend on it.
- `Env.delay` bounds the time between a remote call and the clock reading that stamps its outcome as
  valid. It may be any non-negative number.
- Cache entries are named by request in `CacheProtocol` and `FileCache`. Object names without slashes
  meet this; `ScanRecoversKey` and `EntriesShareFiles` say exactly what goes wrong with others.
- Sessions: the idle timeout is off (its default), payload factories keep the token they are given,
  each store operation is one step, and expiry is a step of its own that may come at any time.
- Rate limiter: request times on one key strictly increase, which the use of the time as member name
  requires.
- Points are real numbers; a missing case number is written 0, which the code treats alike.

## Where the code and its descriptions differ

- `REVALIDATE_INTERVAL` is described as a 60 second freshness window. Content handed out for a name
  may be older, because `_store` and the ETag-match branch read the clock after the remote call:
  the exact bound is 60 seconds plus that delay (`BoundedStaleness`, `StalenessBoundIsAttained`), and
  the 60 second claim holds for every remote history if and only if the delay is 0
  (`SixtySecondsIffNoDelay`).
- Scans over meta files take the last path component for the key, which is right if and only if the
  key has no slash (`ScanRecoversKey`); object names with slashes make purge and eviction act on
  another entry. Names that differ in a doubled slash share their files but not their lock
  (`DoubledSlashAliases`).
- `resolve_or_download` documents None for a missing remote file without a usable entry. It also
  answers None when the HeadObject call fails, and then deletes an entry that may well have been
  current (`FailedHeadForgets`). `NoneIff` says exactly when the answer is None, and that it means what
  is documented whenever HeadObject works.
- The cache's module comment says that a missing remote object falls back to inline input; the
  caller in `data_loader.py` raises instead. The model returns no path and leaves the rest to it.
- `_topological_sort` comments that modules without dependencies keep their `order`. Nothing is ever
  left for that sort (`NothingLeft`).
- The batch rules say that a batch is skipped when a batch it depends on fails. A skipped batch does
  not skip the batches that depend on it in turn: only first-phase failures count (`SkipChainInput`,
  and `SkipsDoNotSpread` for when it makes a difference). With cyclic
  dependencies every failure can be hidden (`CyclicFailureIsHidden`, `CyclicInput`); `OverallAfterAggregation` gives
  the exact condition and `FailureSurvives` the acyclic case.
- Batch number 0 does not switch batch scoring on but is a batch once it is on (`BatchZeroInput`);
  `BatchZeroAgreesIff` says for which test cases that makes no difference.
- A submission with failed cases is reported as AC when its score reaches the problem's points
  (`AcmVerdict`, `OiVerdict`, `IoiFailureIsReported`, `FullPointsInput`), and with a compile error
  batch scoring keeps its score.
- The limiter's window is half-open: a closed interval of the same length may hold one request too
  many (`ClosedWindowInput`), and `ClosedWindowHoldsOneMore` says exactly when. Rejected requests
  count (`RejectedRequestsCount`), and `LockedOutIffInsisting` says whom that locks out.
- Output comparison depends on where the data lies. A file compared with anything but another file is
  read with newline translation, so a file with CR LF inside may fail to match its own bytes and match
  other ones (`CarriageReturnInput`). It makes no difference if and only if no CR is left in the file
  after stripping (`LocationMatters`, `LocationDoesNotMatter`).
- After a failed open the log handler drops all further records of that day without an exception
  (`LoseDay`); `Emit` says exactly when a record is lost like that. A rotated file
  removed from outside makes later rotations reorder the log (`GapInput`), unless nothing lies above
  the gap or nothing is moved (`GapReorders`).

## Model

| member | source | states |
|---|---|---|
| CacheKeys.CacheKeyInjective | app/modules/judge/file_cache.py:99-102 | two requests share an entry iff they give the same hash, or no hash and the same name |
| CacheKeys.ScanRecoversKey | app/modules/judge/file_cache.py:350-358 | a scan recovers the key of a meta file iff the key has no slash |
| CacheKeys.EntriesShareFiles | app/modules/judge/file_cache.py:105-114 | two keys share data or meta files iff they have the same path components; slash-free keys never do |
| CacheKeys.DataMeetsMeta | app/modules/judge/file_cache.py:105-114 | the data file of one key is the meta file of another iff the first has the components of the second with the meta suffix |
| CacheKeys.DoubledSlashAliases | app/modules/judge/file_cache.py:99-114 | any two object names that differ in a doubled slash have different keys, and so different locks, but the same files |
| KeyLocks.NextKeepsInv | app/modules/judge/file_cache.py:71-88 | every step of the lock table, an acquire or a release keeps: one owner of the table lock, distinct lock objects per key, depth of each lock equal to its owner's nesting |
| KeyLocks.OneLockPerKey | app/modules/judge/file_cache.py:71-77 | over any run a key gets at most one lock object |
| KeyLocks.MutualExclusion | app/modules/judge/file_cache.py:71-88 | in every state of every run at most one thread holds the lock of a key |
| KeyLocks.BlockedHoldsNothing | app/modules/judge/file_cache.py:131-132 | a thread blocked on a key lock holds no key lock |
| KeyLocks.OwnerIsNotBlocked | app/modules/judge/file_cache.py:71-88 | the owner of a lock someone waits for is not itself blocked on a key lock |
| KeyLocks.UnblockedAdvances | app/modules/judge/file_cache.py:71-88 | a thread that waits for nobody can take its next step, including the release without an ownership error |
| KeyLocks.NoDeadlock | app/modules/judge/file_cache.py:71-88 | from any thread inside an operation at most two waits lead to a thread that can advance |
| KeyLocks.TakenIsFree | app/modules/judge/file_cache.py:80-88 | an acquire succeeds only while no other thread holds the key |
| KeyLocks.CanEnter | app/modules/judge/file_cache.py:71-88 | a thread can take any key that no other thread holds, a new one or its own again, by the steps of `_key_lock` and an acquire |
| KeyLocks.LocksRefineStacks | app/modules/judge/file_cache.py:71-88 | every step of the lock machine is a step of the exclusive stacks that the cache protocol is built on |
| CacheProtocol.LookupKeeps | app/modules/judge/file_cache.py:139-151 | a hit by hash or within the freshness window only hands out what the remote held within the bound |
| CacheProtocol.HeadedKeeps | app/modules/judge/file_cache.py:159-188 | a matching ETag shows that the remote still holds the cached content, although the data and meta files are replaced separately |
| CacheProtocol.OwnStepKeepsDisk | app/modules/judge/file_cache.py:244-347 | no single write or unlink, in any order of failures, makes a data file older than its meta file or breaks a hash |
| CacheProtocol.OwnStepKeepsThread | app/modules/judge/file_cache.py:135-272 | each step establishes what the next program point of the same thread relies on |
| CacheProtocol.ThreadFrame | app/modules/judge/file_cache.py:131-132 | what a thread relies on survives time and every change to entries it has not locked |
| CacheProtocol.EffectIsLocked | app/modules/judge/file_cache.py:204-272 | every write and unlink happens under the lock of its key |
| CacheProtocol.NextKeepsSound | app/modules/judge/file_cache.py:120-393 | whatever the remote store does, every step, the passing of time and a crash keep exclusive locks, matching hashes on disk and verified content in the hands of storing threads |
| CacheProtocol.RunIsSound | app/modules/judge/file_cache.py:120-393 | so it is in every state of every run, without any hypothesis |
| CacheProtocol.NextKeepsInv | app/modules/judge/file_cache.py:120-393 | a step of any thread, the passing of time and a crash all keep the invariant |
| CacheProtocol.RunKeepsInv | app/modules/judge/file_cache.py:120-393 | the invariant holds in every state of every run |
| CacheProtocol.MutualExclusion | app/modules/judge/file_cache.py:131-132 | at most one thread is inside the locked section of a key |
| CacheProtocol.ContentAddressSafety | app/modules/judge/file_cache.py:139-201 | in every reachable state a data file under a hash has content with that hash, however the remote store names its versions |
| CacheProtocol.DecisionIsInside | app/modules/judge/file_cache.py:135-201 | the moment at which a request was decided lies inside the request: its thread has served it ever since |
| CacheProtocol.AnythingMayHappen | app/modules/judge/file_cache.py:120-238 | in every state time may pass, the process may crash, a thread at rest may begin any operation, and a store may fail before writing |
| CacheProtocol.WindowIsInside | app/modules/judge/file_cache.py:145-151 | an answer taken from the freshness window was decided by the lookup of the same request |
| CacheProtocol.BoundedStaleness | app/modules/judge/file_cache.py:145-201 | a name-addressed answer is decided inside its request; it is content the remote held at that very moment, or, if the lookup found it within the window, less than 60 seconds plus the stamping delay before |
| CacheProtocol.ProtocolUsesLocks | app/modules/judge/file_cache.py:71-88 | every protocol step short of a crash is a step of exclusive stacks, as the lock machine's steps are |
| CacheLocks.FollowStep | app/modules/judge/file_cache.py:71-88 | from rest the lock machine can make every step the protocol makes, by the calls of `_key_lock`, acquire and release in order |
| CacheLocks.LocksFollow | app/modules/judge/file_cache.py:71-393 | for every state of every run of the cache some run of the lock machine since the last crash ends with exactly these locks held |
| CacheProtocol.BlockingDiscipline | app/modules/judge/file_cache.py:131-393 | a key lock is awaited only by a thread that holds no other key; eviction and purge only try locks |
| CacheProtocol.OnwardStep | app/modules/judge/file_cache.py:120-393 | from every point inside an operation there is a step that takes at most the lock awaited |
| CacheProtocol.HolderDoesNotWait | app/modules/judge/file_cache.py:131-132 | a thread that holds a key lock waits for nobody, though it enters its own lock again to store |
| CacheProtocol.NoDeadlock | app/modules/judge/file_cache.py:71-393 | in every state of every run, from any thread inside an operation at most one wait leads to a thread that waits for nobody and has a step |
| CacheStaleness.StalenessBoundIsAttained | app/modules/judge/file_cache.py:145-151 | for every delay and every wait below 60 seconds some run serves content last held delay plus wait earlier |
| CacheStaleness.SixtySecondsIffNoDelay | app/modules/judge/file_cache.py:145-182 | the plain 60 second claim holds for all remote histories iff the stamping delay is 0 |
| CacheSpec.ScanMeasuresBytes | app/modules/judge/file_cache.py:418-430 | when every entry has both files with matching size, the meta scan measures the bytes of the data files |
| CacheSpec.EvictionGuarantee | app/modules/judge/file_cache.py:364-393 | an eviction to the target leaves less than 0.8 of the limit plus one byte, or only entries that are locked elsewhere or were accessed within 60 seconds |
| CacheSpec.EvictionTakesNoMore | app/modules/judge/file_cache.py:371-385 | and it takes no more than that needs: before its last victim went, at least 0.8 of the limit plus one byte was left |
| CacheSpec.NeedMeetsTarget | app/modules/judge/file_cache.py:371 | evicting until the computed number of bytes is freed is the same as evicting down to 0.8 of the limit and no further |
| CacheSpec.EvictionShrinksData | app/modules/judge/file_cache.py:364-430 | both bounds for the bytes of the data files themselves |
| CacheSpec.GraceProtects | app/modules/judge/file_cache.py:374-379 | an entry accessed within the grace period is never evicted |
| CacheSpec.StoredSurvives | app/modules/judge/file_cache.py:244-272 | the entry just stored survives the eviction that follows, although its thread could take its lock again |
| CacheSpec.EvictionMeetsSpec | app/modules/judge/file_cache.py:376-390 | taking sorted candidates until enough is freed evicts no entry accessed later than a spared candidate and stops as soon as the target is met |
| CacheSpec.BytesAfterEviction | app/modules/judge/file_cache.py:388-389 | removing the victims removes exactly the bytes counted as freed |
| FileCache.FileCache.TouchMeta | app/modules/judge/file_cache.py:319-328 | the access time moves to now unless it is less than a minute old or the write fails; nothing else changes |
| FileCache.FileCache.ConfirmMeta | app/modules/judge/file_cache.py:300-315 | both times of the meta file move to now; without a meta file, or when the write fails, nothing happens |
| FileCache.FileCache.WriteEntry | app/modules/judge/file_cache.py:244-269 | data and meta of the entry are replaced with one stamp, all other entries stay; a failing write raises and leaves exactly what was written before it |
| FileCache.FileCache.RemoveGone | app/modules/judge/file_cache.py:331-347 | exactly the two files of the key go; a failing unlink leaves its file |
| FileCache.FileCache.RemoveStale | app/modules/judge/file_cache.py:331-347 | the same when the cached version is outdated |
| FileCache.FileCache.Invalidate | app/modules/judge/file_cache.py:204-211 | exactly the two files of the key go, and both do unless an unlink fails |
| FileCache.FileCache.CollectStats | app/modules/judge/file_cache.py:396-415 | one record per meta file, none missing and none twice |
| FileCache.FileCache.CalculateTotalSize | app/modules/judge/file_cache.py:418-430 | the sum of all recorded sizes |
| FileCache.FileCache.EvictSome | app/modules/judge/file_cache.py:381-390 | the loop removes the unlocked candidates it passes, in order, until enough bytes are freed or none is left |
| FileCache.FileCache.EvictLru | app/modules/judge/file_cache.py:374-393 | removes exactly the victims, which meet the eviction specification; changes no survivor |
| FileCache.FileCache.EvictLruIfNeeded | app/modules/judge/file_cache.py:364-371 | does nothing within the limit; otherwise evicts down to 80 percent of it, and before the last victim more than that was left |
| FileCache.FileCache.PurgeExpired | app/modules/judge/file_cache.py:214-238 | removes exactly the unlocked entries not accessed within the TTL |
| FileCache.FileCache.FetchAndStore | app/modules/judge/file_cache.py:187-201 | a path exactly if the download succeeds, has the hash asked for and both writes succeed; then the files are the old ones with what was downloaded, less the victims of the eviction |
| FileCache.FileCache.HandleGone | app/modules/judge/file_cache.py:159-170 | without the remote object a hash keeps its entry and a name loses it |
| FileCache.FileCache.HandleFound | app/modules/judge/file_cache.py:172-201 | a matching ETag keeps the data and moves both times of the meta file; any other entry is replaced by a fresh download or removed |
| FileCache.FileCache.Revalidate | app/modules/judge/file_cache.py:153-201 | the answer as a function of what the remote store says at the time of the call: gone, current, or fetched; an exception iff the object was found but not fetched or verified |
| FileCache.FileCache.ResolveOrDownload | app/modules/judge/file_cache.py:120-201 | the whole new state: a trusted entry is handed out as it is, otherwise the remote decides; if nothing fails and the object stays available with the hash asked for, there is a path; a path satisfies the hash or the staleness bound and exists unless a grace period has passed |
| CacheSpec.PathIff | app/modules/judge/file_cache.py:120-201 | by remote store, hash and failures alone: there is a path iff a hash or the 60 second window vouches for the entry, or its ETag is the reported one, or HeadObject, download, hash check and both writes succeed; without one it raises iff HeadObject found something |
| CacheSpec.HealthyCallServes | app/modules/judge/file_cache.py:120-201 | when nothing fails and the object stays available with the hash asked for, there is a path, whatever the cache held |
| CacheSpec.TrustedEntry | app/modules/judge/file_cache.py:139-151 | an entry that a hash or the window vouches for is handed out unaltered; its access time moves iff it is 60 seconds old and the write succeeds |
| CacheSpec.CurrentEntry | app/modules/judge/file_cache.py:172-182 | a matching ETag leaves the data alone and moves both times of the meta file |
| CacheSpec.ReplacedEntry | app/modules/judge/file_cache.py:187-272 | a replaced entry holds exactly what was downloaded, under the ETag that HeadObject reported, with one stamp, and is there unless a grace period has passed |
| CacheSpec.NoneIff | app/modules/judge/file_cache.py:159-170 | the answer is None iff HeadObject found nothing or failed and no hash or freshness window vouches for the entry; with a working HeadObject it means the object is missing; both files of an entry are gone then |
| CacheSpec.PathExists | app/modules/judge/file_cache.py:244-272 | the file of a path exists unless the call ends more than the grace period after its content was decided on |
| CacheSpec.FailureLeaves | app/modules/judge/file_cache.py:244-269 | a failed resolve leaves nothing of the entry except, iff only its meta file could not be written, the new data file with the downloaded content |
| CacheSpec.OthersStay | app/modules/judge/file_cache.py:244-393 | other entries are never altered, and none goes unless a version is stored, handed out, and puts the cache over its limit |
| CacheSpec.StoreLeaves | app/modules/judge/file_cache.py:187-272 | after a store the files are the old ones with the entry replaced, less the victims, of which there are none within the limit |
| CacheSpec.StoreKeepsLimit | app/modules/judge/file_cache.py:272-393 | after a store the cache is within its limit, at 80 percent if anything was evicted, or all entries left are locked elsewhere or recently accessed |
| CacheSpec.StoreTakesNoMore | app/modules/judge/file_cache.py:272-385 | a store evicts no more than that needs: before its last victim went, more than 80 percent of the limit was left |
| CacheSpec.ResolveKeepsPaired | app/modules/judge/file_cache.py:120-430 | without failing unlinks and meta writes the recorded sizes stay those of the data files |
| FileCache.FailedHeadForgets | app/modules/judge/file_cache.py:157-170 | when HeadObject fails, a name whose freshness has run out gets None and loses its entry, although the object was there all the time |
| FileCache.FileCache.TraceServes | app/modules/judge/file_cache.py:135-201 | what the code hands out has its hash, for every remote store, and the freshness the protocol proves |
| Raster.SetPixel | app/core/security/transport.py:298-309 | recolours exactly the bytes of the pixel, and nothing for a point outside the image |
| Raster.PixelBytes | app/core/security/transport.py:308-309 | the byte range written is exactly the pixel's |
| Raster.RecolouredPixel | app/core/security/transport.py:308-309 | the three bytes of a recoloured pixel are its red, green and blue value, in this order |
| Raster.RecolouredThen | app/core/security/transport.py:270-309 | successive recolourings amount to recolouring the union |
| Raster.RoundingError | app/core/security/transport.py:286-295 | the plotted minor coordinate is within half a pixel of the ideal one |
| Raster.ErrorTermDecides | app/core/security/transport.py:289-295 | with the closed-form error term the major step is always taken and the minor one exactly when the rounded position moves |
| Raster.LineTurn | app/core/security/transport.py:289-295 | one loop turn moves position and error term from the k-th to the next ideal point |
| Raster.LinePointGeometry | app/core/security/transport.py:270-295 | every plotted point is in the box of the ends and within half a pixel of the segment; first and last are the ends |
| Raster.LineConnected | app/core/security/transport.py:270-295 | consecutive points touch and no point is plotted twice |
| Raster.LineDone | app/core/security/transport.py:287-288 | the loop stops at the last point and at no earlier one |
| Raster.DrawLine | app/core/security/transport.py:270-295 | for all integer ends the loop ends after max(abs(dx), abs(dy)) steps, having recoloured exactly the points of the rounded segment |
| Raster.CoveredCell | app/core/security/transport.py:254-267 | an enabled cell adds exactly its scale by scale square to what the glyph covers |
| Raster.FillCell | app/core/security/transport.py:258-267 | the two inner loops recolour exactly the square |
| Raster.DrawGlyphRow | app/core/security/transport.py:255-267 | one row recolours exactly its enabled cells |
| Raster.DrawGlyph | app/core/security/transport.py:241-267 | exactly the in-image pixels whose scaled cell is "1" are recoloured; an unknown character draws nothing |
| Png.WordRoundTrip | app/core/security/transport.py:312-318 | a 32-bit word is packed with the most significant byte first, and reads back |
| Png.ChunkRoundTrip | app/core/security/transport.py:312-318 | length, type, data and checksum of a chunk read back and the rest of the stream is untouched |
| Png.ChunksRoundTrip | app/core/security/transport.py:232-237 | a chunk stream reads back chunk by chunk (section 3.2 of RFC 2083) |
| Png.LinesAreScanlines | app/core/security/transport.py:228-231 | cutting rows out by row number gives the scanline stream of the buffer, with every byte in exactly one row |
| Png.ScanlinesRoundTrip | app/core/security/transport.py:228-231 | splitting off filter bytes and joining the rows recovers the pixels (section 6.2 of RFC 2083) |
| Png.ScanlineAt | app/core/security/transport.py:228-231 | row by row, the stream has a filter byte 0 and then exactly the bytes of that row |
| Png.JoinRows | app/core/security/transport.py:228-231 | the join over the rows builds the specified scanline stream |
| Png.StreamLayout | app/core/security/transport.py:232-237 | the whole stream byte for byte: signature, then header, compressed scanlines and end marker as length, type, data and checksum of type and data (sections 3.1, 3.2 and 4.1 of RFC 2083) |
| Png.ImageRoundTrip | app/core/security/transport.py:228-237 | a reader that checks every length, checksum, header and filter byte recovers width, height and the exact buffer |
| ModuleSort.ByNameFinds | app/platform/module/discovery.py:116 | with unique names the dictionary finds every spec |
| ModuleSort.EmittedNext | app/platform/module/discovery.py:130-135 | emitting a module after its dependencies keeps the output unique and ordered |
| ModuleSort.Search.Visit | app/platform/module/discovery.py:120-135 | terminates; raises only on a cycle; otherwise visits the module, keeps the path and extends the output in dependency order |
| ModuleSort.Search.Leave | app/platform/module/discovery.py:133-135 | a module whose dependencies are visited is emitted behind them and leaves the path |
| ModuleSort.Search.ClosesCycle | app/platform/module/discovery.py:123-124 | meeting a module on the path exhibits a cycle |
| ModuleSort.OrderedIsAcyclic | app/platform/module/discovery.py:137-139 | a complete output proves the graph acyclic |
| ModuleSort.AllEmitted | app/platform/module/discovery.py:137-139 | once all names are visited the output is a permutation of the input |
| ModuleSort.VisitAll | app/platform/module/discovery.py:137-139 | either a cycle is found or every module is visited |
| ModuleSort.Unresolved | app/platform/module/discovery.py:142-143 | the specs whose names were not resolved |
| ModuleSort.NothingLeft | app/platform/module/discovery.py:141-145 | nothing is ever left for the sort by order |
| ModuleSort.TopologicalSort | app/platform/module/discovery.py:114-147 | raises iff the graph of the present modules has a cycle; otherwise a permutation of the input with dependencies first |
| ModuleSort.LoadModuleSpecs | app/platform/module/discovery.py:56-84 | a duplicate error iff a name is taken by an earlier enabled module, reporting the first one that is; otherwise the sort of the enabled ones: disabled wins over enabled, and both over the flag |
| Hooks.RunHooks | app/platform/module/hooks.py:26-31 | the calls made are those of the hooks listed for that phase, in order, up to the first that raises |
| Hooks.RunStartupHooks | app/platform/module/hooks.py:11-13 | position by position the calls are the startup hooks, modules in list order and hooks in theirs; all of them, or up to the one that raises |
| Hooks.RunShutdownHooks | app/platform/module/hooks.py:16-18 | position by position the calls are the shutdown hooks, the last module first and the hooks of one in their order; all of them, or up to the one that raises |
| Hooks.TraceFollowsList | app/platform/module/hooks.py:11-18 | calls of a trace come from modules in list order |
| Hooks.HooksRespectDependencies | app/platform/module/hooks.py:11-18 | shutdown stops a module before every module it depends on, startup the other way round |
| Scoring.ComputeScore | app/modules/judge/result_mapper.py:31-38 | the points of the AC cases, 0 with a compile error |
| Scoring.ComputeOverallResult | app/modules/judge/result_mapper.py:22-28 | the first failing verdict |
| Scoring.OverallIsAc | app/modules/judge/result_mapper.py:22-28 | AC iff no case fails, and never SKIPPED |
| Scoring.FinalContribution | app/modules/judge/scoring.py:52-94 | after all phases a case is worth what the documented rules give it: in a batch, its points iff all raw cases of the batch were AC and none lists a batch that failed in the first phase |
| Scoring.RegroupingPermutes | app/modules/judge/scoring.py:62-70 | the output order lists every input position once |
| Scoring.ScoreIsContributions | app/modules/judge/scoring.py:43-94 | the total is the sum of these contributions |
| Scoring.ScoreIgnoresInputOrder | app/modules/judge/scoring.py:43-94 | reordering the (result, test case) pairs leaves the total unchanged |
| Scoring.ImprovedContribution | app/modules/judge/scoring.py:43-94 | turning cases into AC never lowers the contribution of any case |
| Scoring.ScoreIsMonotone | app/modules/judge/scoring.py:43-94 | with non-negative points, turning cases into AC never lowers the total |
| Scoring.OverallAfterAggregation | app/modules/judge/scoring.py:27-40 | the aggregated verdict is not AC iff some failing case lists no failed batch |
| Scoring.UnblockedFailure | app/modules/judge/scoring.py:27-40 | with acyclic dependencies some failed batch has no failed dependency |
| Scoring.FailureSurvives | app/modules/judge/scoring.py:13-94 | with acyclic dependencies a raw failure is never hidden by SKIPPED |
| Scoring.CyclicFailureIsHidden | app/modules/judge/scoring.py:27-40 | whenever all failing cases lie in two failed batches and list the other one, they aggregate to AC |
| Scoring.SkipsDoNotSpread | app/modules/judge/scoring.py:27-40 | skipping once more would change nothing iff every case that lists a batch with a skipped case is itself skipped |
| BatchAggregation.ComputeBatchAcStatus | app/modules/judge/scoring.py:13-24 | maps each batch that occurs to whether all its cases are AC |
| BatchAggregation.SkipIfBlocked | app/modules/judge/scoring.py:36-40 | rewrites one case to SKIPPED with 0 points iff it lists a failed batch |
| BatchAggregation.ApplyBatchDependencies | app/modules/judge/scoring.py:27-40 | rewrites exactly the blocked cases in place, by first-phase statuses only |
| BatchAggregation.GroupCases | app/modules/judge/scoring.py:62-70 | builds the batch order and the objects of each batch |
| BatchAggregation.OrderIsFirsts | app/modules/judge/scoring.py:64-69 | the batches are in order of first appearance |
| BatchAggregation.BatchHolds | app/modules/judge/scoring.py:70 | a batch holds the objects of exactly its positions, in input order |
| BatchAggregation.GroupListed | app/modules/judge/scoring.py:75-92 | the objects of a batch list as the rules give them, and a batch that is paid for is all AC |
| BatchAggregation.GroupsRegroup | app/modules/judge/scoring.py:62-75 | laying out the groups is a stable regrouping of all positions |
| BatchAggregation.ListBatch | app/modules/judge/scoring.py:75-92 | what one batch lists and adds; batched cases are copies, a failed batch's copies carry 0 points |
| BatchAggregation.EmitAll | app/modules/judge/scoring.py:72-92 | the batches are listed in order and the total is the score of the list |
| BatchAggregation.AggregateBatches | app/modules/judge/scoring.py:43-94 | the output is the stable regrouping with final verdicts and points, its total equals its recomputed score, and the caller's objects are left as after the dependency phase |
| StandardMode.FirstFailureIsFirst | app/modules/judge/modes/standard.py:99-100 | everything before the first failure is AC |
| StandardMode.CollectResults | app/modules/judge/modes/standard.py:76-119 | the loop and its padding build the specified list, position by position |
| StandardMode.Judge | app/modules/judge/modes/standard.py:52-134 | without a batch but number 0, an ACM run reports every case up to the first failure as it ran and skips everything behind it, one entry per test case, and an OI run skips nothing; with batches exactly the cases that list the batch of a failing case are skipped and a batch pays only if all its cases pass; each status has its verdict; compile errors, full points and otherwise the first failure decide the verdict |
| StandardMode.AcmShape | app/modules/judge/modes/standard.py:76-119 | an ACM run with a failure lists AC up to it, the failure, then SKIPPED, one entry per test case |
| StandardMode.AcmIgnoresLaterCases | app/modules/judge/modes/standard.py:76-134 | what the sandbox did after the first failure changes nothing in the list, and so in score and verdict |
| StandardMode.AcmVerdict | app/modules/judge/modes/standard.py:125-134 | score and verdict of such a run by its first failure; AC iff the points before it reach the problem's |
| StandardMode.OiVerdict | app/modules/judge/modes/standard.py:79-134 | in an OI run every case is reported by itself; AC iff nothing failed or the score reaches the problem's points, otherwise the first failure |
| StandardMode.BatchZeroAgreesIff | app/modules/judge/modes/standard.py:52-127 | with only batch number 0, scoring case by case agrees with batch scoring for all sandbox results iff batch 0 has no two cases or its cases are worth nothing |
| StandardMode.IoiFailureIsReported | app/modules/judge/modes/standard.py:121-134 | with acyclic batches a failed case keeps the submission from AC exactly unless the score reaches the problem's points |
| Sessions.ApplyKeepsCovered | app/core/security/session.py:54-285 | every operation and every expiry keeps each live session in both indexes |
| Sessions.IndexesCover | app/core/security/session.py:54-285 | so it is after any run from the empty store |
| Sessions.RefreshRewrites | app/core/security/session.py:213-244 | after a refresh each updated token holds the session of an update for it, all others are as they were, and both indexes gain exactly what was updated |
| Sessions.ListedShows | app/core/security/session.py:98-107 | a listing shows each live indexed session once, oldest login first, a missing login time being the earliest |
| Sessions.LiveInOrder | app/core/security/session.py:161-175 | reading sessions keeps the order of their tokens |
| Sessions.ListingCounts | app/core/security/session.py:161-175 | a listing has one session per live token of the index |
| Sessions.PrunedSessions | app/core/security/session.py:109-124 | pruning removes exactly the listing's head beyond the limit |
| Sessions.PruneBounds | app/core/security/session.py:109-124 | pruning leaves min(live, limit) sessions behind the index, at most the limit of the account, and removes none with a later login than one it leaves |
| SessionStore.UniqueElements | app/core/security/session.py:163 | removing duplicates keeps every element once |
| SessionStore.UniqueInOrder | app/core/security/session.py:163 | removing duplicates keeps the order of the first occurrences |
| SessionStore.SessionStore.Set | app/core/security/session.py:54-63 | the session is stored under its token, both indexes gain exactly that token, and every other session and index is as it was |
| SessionStore.SessionStore.Touch | app/core/security/session.py:78-96 | exactly the activity time of a live session changes |
| SessionStore.SessionStore.Delete | app/core/security/session.py:246-255 | the session and its index entries go; for a dead token only the global one |
| SessionStore.SessionStore.GetAccountTokens | app/core/security/session.py:147-150 | the members of the account's index, each once, in any order |
| SessionStore.SessionStore.ListSessionsByTokens | app/core/security/session.py:161-175 | the live sessions in order; exactly the dead tokens leave the global index |
| SessionStore.SessionStore.ListAccountSessions | app/core/security/session.py:98-107 | the account's live sessions, oldest login first |
| SessionStore.SessionStore.PruneExcessSessions | app/core/security/session.py:109-124 | removes what the pruning theorem is about; at most the limit of live sessions is left |
| SessionStore.SessionStore.RefreshAccountsSessions | app/core/security/session.py:213-244 | exactly the live sessions of the targets with a factory are rewritten, each by an update for its token; all others are as they were |
| SessionStore.SessionStore.SetKeys | app/core/security/session.py:319-355 | a session is written under the token and both indexes gain exactly that token |
| SessionStore.SessionStore.DeleteAccountsSessions | app/core/security/session.py:261-285 | exactly the sessions and tokens indexed for a target go, so no live session of the targets is left, whatever tokens had expired |
| RateLimit.Limiter.IncrementAndCheck | app/middleware/rate_limit.py:68-80 | the count is that of the full request log filtered to the window, for the pruned and expiring set |
| RateLimit.Limiter.Admit | app/middleware/rate_limit.py:53-64 | admits iff at most limit requests, rejected ones included, fall in the window that ends now |
| RateLimit.PrunedIsFiltered | app/middleware/rate_limit.py:73-78 | pruning and expiry lose nothing that still counts |
| RateLimit.WindowSafety | app/middleware/rate_limit.py:53-80 | over any run, no interval of the window's length contains more than limit admitted requests |
| RateLimit.LastWindowHoldsAll | app/middleware/rate_limit.py:53-80 | the window of the last admitted request holds all others of such an interval |
| RateLimit.ClosedWindowHoldsOneMore | app/middleware/rate_limit.py:53-80 | a closed interval of the window's length holds at most limit + 1 admitted requests, and more than limit iff one was admitted at its very start and the rest is full |
| RateLimit.AdmittedIffSpaced | app/middleware/rate_limit.py:53-80 | a request is admitted iff it is among the first limit or a full window has passed since the request limit places before it |
| RateLimit.LockedOutIffInsisting | app/middleware/rate_limit.py:53-80 | of all requests only the first limit get through iff each later one comes less than a window after the one limit places before it |
| Utf8.RoundTrip | app/modules/judge/checker.py:45-50 | decoding undoes encoding for every text of scalar values (section 3 of RFC 3629) |
| Utf8.DecodesOrReplaces | app/modules/judge/checker.py:45-50 | the decoder takes the character that the bytes start with; where there is none it replaces exactly the maximal ill-formed subpart: the longest beginning of an encoding, at least one byte |
| Utf8.EncodingInjective | app/modules/judge/checker.py:49-56 | equal encodings iff equal texts |
| Checker.StripIsInner | app/modules/judge/checker.py:14 | stripping removes exactly the surrounding whitespace |
| Checker.PaddingIgnored | app/modules/judge/checker.py:10-14 | whitespace added around a text changes no comparison |
| Checker.SameChunks | app/modules/judge/checker.py:53-56 | the chunk loop decides equality, for every positive chunk size |
| Checker.PathsMatchStripped | app/modules/judge/checker.py:41-56 | files match iff their decoded texts are equal after stripping |
| Checker.OutputsMatch | app/modules/judge/checker.py:26-75 | accepts iff nothing is expected or the stripped texts are equal, two files as they were written, anything else with the newlines of a file translated |
| Checker.UniversalOfConcat | app/modules/judge/checker.py:32 | newline translation works piece by piece unless a CR LF is cut in two |
| Checker.UniversalOfPiece | app/modules/judge/checker.py:32 | the pieces are CR LF and lone CR, which become LF, and any other character, which stays |
| Checker.StripOfUniversal | app/modules/judge/checker.py:32 | translating newlines and stripping commute |
| Checker.LocationDoesNotMatter | app/modules/judge/checker.py:59-75 | for two files, and for all outputs without inner CR in a file, the verdict is that of the texts as written |
| Checker.LocationMatters | app/modules/judge/checker.py:26-75 | a file is compared as written with every text in memory, in either role, iff no CR is left in it after stripping |
| Checker.FileAgainstItsBytes | app/modules/judge/checker.py:26-75 | a file matches its own bytes in memory iff no CR is left in it after stripping |
| LogRotation.RotationConserves | app/core/logger/file_handler.py:73-81 | moving the current file to the next index keeps the concatenated log of the day |
| LogRotation.AppendExtends | app/core/logger/file_handler.py:38-42 | a written record is appended to the concatenated log |
| LogRotation.RotationIntoGap | app/core/logger/file_handler.py:73-81 | whatever rotated files are left, moving the current one to a free index keeps the day's log iff its records commute with those above |
| LogRotation.GapReorders | app/core/logger/file_handler.py:73-81 | for records that differ: iff nothing lies above the index or nothing is moved |
| LogRotation.DailyFileHandler.FreeIndex | app/core/logger/file_handler.py:75-77 | the counter search terminates at the first free index |
| LogRotation.DailyFileHandler.Rotate | app/core/logger/file_handler.py:73-81 | no rotated file is overwritten; a failing rename changes nothing |
| LogRotation.DailyFileHandler.RollOver | app/core/logger/file_handler.py:32-36 | rotates at the size limit, and goes on in the same file when the rename fails |
| LogRotation.DailyFileHandler.Emit | app/core/logger/file_handler.py:23-44 | the log of every day is exactly what was written to it, in order, whatever fails; exactly when it raises, writes, loses a record silently, and has the file open afterwards |
| LogRotation.DailyFileHandler.EmitRun | app/core/logger/file_handler.py:23-81 | over any run of successful opens and writes the rotated files followed by the current one grow by exactly the emitted records, even when renames fail |
| LogRotation.DailyFileHandler.LoseDay | app/core/logger/file_handler.py:26-38 | after a failed open every later record of the day is lost without an exception |

## Left out

- CacheProtocol.BoundedStaleness: bounds the age at the moment the request is decided, as the code does; the time until the caller opens the path is not bounded by anything in the code.
- FileCache.FileCache.WriteEntry: a failing creation of the directory before the writes is a step of CacheProtocol but not of this class.
- FileCache.FileCache.ResolveOrDownload: the entry is promised to be there only if the call ends at most the grace period after its content was read; later, the eviction it triggers may take it.
- CacheSpec.EvictionGuarantee: for one undisturbed call; other threads may store and touch entries meanwhile.
- FileCache.FileCache.PurgeExpired: the directory scan is one snapshot; other threads changing files during it are covered by CacheProtocol, not by this contract.
- BatchAggregation.AggregateBatches: takes case results to be distinct objects, which the judge creates one by one.
- CacheKeys.EntriesShareFiles: ".." components, which the operating system resolves, are not modelled.
- StandardMode.Judge: the sandbox run and the building of cases are inputs; an empty case list, which is answered with an error verdict before any of this, is not modelled.
- LogRotation.DailyFileHandler.Emit: partial writes, a failing size query and files left by an earlier process with the same process id are not modelled.
- RateLimit.Limiter.Admit: one key; matching paths to rules and admitting everything when Redis fails are left out.
- SessionStore.SessionStore.Touch: the lengths of TTLs are not modelled, so neither is their renewal; exceptions from Redis are not either.
- Interactive and special-judge modes, whose behaviour lies in the sandbox and operating system pipes.
- Time, memory and output previews of case results, which no rule looks at.
- Compression, CRC-32, SHA-256 and base64: parameters, or left out.
- The path with the cache disabled, temporary files, directory creation, log messages.
- Idle-timeout deletion of sessions, whose Redis calls are not awaited, and races inside one session operation.
- Finding and importing module manifests, and import errors of hooks.
- Rounding of floating-point points.
- Task queue, web framework, configuration sync, storage clients and other wiring.
