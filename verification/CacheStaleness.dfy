/** How stale a name-addressed answer of the cache can be, exactly.

    `REVALIDATE_INTERVAL` reads as a 60 second bound.  It is one only if no time passes between
    a remote read and the clock reading that stamps it: the bound proved in CacheProtocol, 60
    seconds plus that delay, is attained. */
module CacheStaleness {
  import opened CacheProtocol
  import opened Wrappers

  /** The 60 second claim as it reads: every path handed out has content that the remote held
      less than 60 seconds before the request was decided. */
  ghost predicate SixtySecondClaim(env: Env) {
    forall run: seq<State>, i: nat, t: Tid :: Run(env, run) && i < |run| ==>
      ServesFresh(env, run[i], t, REVALIDATE_INTERVAL)
  }

  ghost predicate ServesFresh(env: Env, s: State, t: Tid, age: real) {
    var pc := s.At(t);
    pc.Returning? && pc.req.sha.None? && pc.req.Key() in s.data ==>
      HeldWithin(env, pc.req.name, s.data[pc.req.Key()].content, pc.asOf, age)
  }

  /** A remote store whose one object is replaced right after time 0. */
  ghost function ReplacedAtZero(delay: real): Env {
    Env((n: Name, at: real) => Some(if at <= 0.0 then Object([0], "a") else Object([1], "b")),
        (c: Content) => "", delay)
  }

  lemma {:induction false} ReplacedNeverRecurs(delay: real)
    ensures EtagsNeverRecur(ReplacedAtZero(delay))
  {
  }

  ghost function Before(now: real, pc: Pc): State {
    State(now, map[], map[], map[0 := pc])
  }

  ghost function After(now: real, blob: Blob, meta: Metas, pc: Pc): State {
    State(now, map[NameKey("x") := blob], meta, map[0 := pc])
  }

  /** Looks the object up and finds nothing cached. */
  lemma {:induction false} Miss(env: Env, req: Request) returns (run: seq<State>)
    requires env == ReplacedAtZero(env.delay) && req == Request("x", None)
    ensures Run(env, run) && Last(run) == Before(0.0, Headed(req, Some("a"), 0.0))
  {
    run := [State(0.0, map[], map[], map[])];
    run := Extend(env, run, Idle, Locking(req), Nothing);
    run := Extend(env, run, Locking(req), Checking(req), Nothing);
    run := Extend(env, run, Checking(req), Heading(req), Nothing);
    run := Extend(env, run, Heading(req), Headed(req, Some("a"), 0.0), Nothing);
  }

  /** Downloads the old content at time 0 and stamps it `delay` later. */
  lemma {:induction false} Fetch(env: Env, req: Request, blob: Blob, delay: real) returns (run: seq<State>)
    requires env == ReplacedAtZero(delay) && delay >= 0.0 && req == Request("x", None) && blob == Blob([0], 0.0)
    ensures Run(env, run) && Last(run) == Before(delay, StoringData(req, "a", 0.0, blob, delay))
  {
    run := Miss(env, req);
    run := Extend(env, run, Headed(req, Some("a"), 0.0), Downloading(req, "a", 0.0), Nothing);
    run := Extend(env, run, Downloading(req, "a", 0.0), Downloaded(req, "a", 0.0, blob), Nothing);
    run := Extend(env, run, Downloaded(req, "a", 0.0, blob), StoreLocking(req, "a", 0.0, blob), Nothing);
    run := Append(env, run, Before(delay, StoreLocking(req, "a", 0.0, blob)));
    run := Extend(env, run, StoreLocking(req, "a", 0.0, blob), StoringData(req, "a", 0.0, blob, delay), Nothing);
  }

  lemma {:induction false} StoreFiles(env: Env, req: Request, blob: Blob, meta: Meta, delay: real, run: seq<State>)
    returns (run': seq<State>)
    requires env == ReplacedAtZero(delay) && req == Request("x", None) && blob == Blob([0], 0.0)
    requires meta == Meta("a", 1, delay, delay, 0.0, 0.0)
    requires Run(env, run) && Last(run) == Before(delay, StoringData(req, "a", 0.0, blob, delay))
    ensures Run(env, run') && Last(run') == After(delay, blob, map[NameKey("x") := meta], Evicting(req, 0.0))
  {
    var written := StoringMeta(req, "a", 0.0, blob, delay);
    run' := Extend(env, run, StoringData(req, "a", 0.0, blob, delay), written, PutData(NameKey("x"), blob));
    run' := Extend(env, run', written, Evicting(req, 0.0), PutMeta(NameKey("x"), meta));
  }

  lemma {:induction false} Store(env: Env, req: Request, blob: Blob, meta: Meta, delay: real)
    returns (run: seq<State>)
    requires env == ReplacedAtZero(delay) && delay >= 0.0 && req == Request("x", None) && blob == Blob([0], 0.0)
    requires meta == Meta("a", 1, delay, delay, 0.0, 0.0)
    ensures Run(env, run) && Last(run) == After(delay, blob, map[NameKey("x") := meta], Idle)
  {
    run := Fetch(env, req, blob, delay);
    run := StoreFiles(env, req, blob, meta, delay, run);
    run := Extend(env, run, Evicting(req, 0.0), Returning(req, 0.0, true), Nothing);
    run := Extend(env, run, Returning(req, 0.0, true), Idle, Nothing);
  }

  /** For every delay and every wait below 60 seconds some run hands out content that the remote
      last held `delay + wait` earlier: it asks again `wait` after the stamp. */
  lemma {:induction false} StalenessBoundIsAttained(delay: real, wait: real) returns (run: seq<State>)
    requires delay >= 0.0 && 0.0 <= wait < REVALIDATE_INTERVAL
    ensures EtagsNeverRecur(ReplacedAtZero(delay)) && Run(ReplacedAtZero(delay), run)
    ensures !ServesFresh(ReplacedAtZero(delay), Last(run), 0, delay + wait)
  {
    ReplacedNeverRecurs(delay);
    var env, req, blob := ReplacedAtZero(delay), Request("x", None), Blob([0], 0.0);
    var meta := Meta("a", 1, delay, delay, 0.0, 0.0);
    var later := delay + wait;
    run := Store(env, req, blob, meta, delay);
    run := Append(env, run, After(later, blob, map[NameKey("x") := meta], Idle));
    run := Extend(env, run, Idle, Locking(req), Nothing);
    run := Extend(env, run, Locking(req), Checking(req), Nothing);
    run := Extend(env, run, Checking(req), Touching(req, later), Nothing);
    run := Extend(env, run, Touching(req, later), Returning(req, later, false), Nothing);
  }

  /** The 60 second claim holds for every remote history exactly when stamping is immediate. */
  lemma {:induction false} SixtySecondsIffNoDelay(delay: real)
    requires delay >= 0.0
    ensures (forall env: Env :: env.delay == delay && EtagsNeverRecur(env) ==> SixtySecondClaim(env)) <==> delay == 0.0
  {
    if delay == 0.0 {
      forall env: Env | env.delay == delay && EtagsNeverRecur(env)
        ensures SixtySecondClaim(env)
      {
        forall run: seq<State>, i: nat, t: Tid | Run(env, run) && i < |run|
          ensures ServesFresh(env, run[i], t, REVALIDATE_INTERVAL)
        {
          var pc := run[i].At(t);
          if pc.Returning? && pc.req.sha.None? && pc.req.Key() in run[i].data {
            var j := BoundedStaleness(env, run, i, t);
          }
        }
      }
    } else {
      var wait := if delay < REVALIDATE_INTERVAL then REVALIDATE_INTERVAL - delay else 0.0;
      var run := StalenessBoundIsAttained(delay, wait);
      assert !ServesFresh(ReplacedAtZero(delay), run[|run| - 1], 0, REVALIDATE_INTERVAL) by {
        LongerIsStaler(ReplacedAtZero(delay), Last(run), 0, REVALIDATE_INTERVAL, delay + wait);
      }
      assert !SixtySecondClaim(ReplacedAtZero(delay));
    }
  }

  lemma {:induction false} LongerIsStaler(env: Env, s: State, t: Tid, age: real, longer: real)
    requires age <= longer && !ServesFresh(env, s, t, longer)
    ensures !ServesFresh(env, s, t, age)
  {
  }
}
