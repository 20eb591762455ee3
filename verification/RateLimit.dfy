/** The sliding-window limiter of app/middleware/rate_limit.py, for one key.

    Redis holds a sorted set of request times that each request prunes and that expires as a
    whole; the specification is the full log of requests, never pruned. */
module RateLimit {
  import opened Sequences

  /** Request times strictly increase, as their use as member names requires. */
  ghost predicate Increasing(times: seq<real>) {
    && (forall i :: 0 <= i < |times| ==> times[i] > 0.0)
    && (forall i, j :: 0 <= i < j < |times| ==> times[i] < times[j])
  }

  /** The requests of the last `window` seconds at time `now`, by the full log. */
  ghost function InWindow(times: seq<real>, now: real, window: real): set<real> {
    set t | t in times && now - window < t <= now
  }

  /** A request is admitted when at most `limit` requests, itself included and rejected ones too,
      fall in the window that ends with it. */
  ghost predicate AdmitsBy(times: seq<real>, admitted: seq<bool>, limit: int, window: real) {
    |admitted| == |times| && forall i :: 0 <= i < |times| ==> (admitted[i] <==> WithinLimit(times, i, limit, window))
  }

  ghost predicate WithinLimit(times: seq<real>, i: int, limit: int, window: real)
    requires 0 <= i < |times|
  {
    |InWindow(times[..i + 1], times[i], window)| <= limit
  }

  class Limiter {
    const limit: int
    const window: real
    /** The sorted set: members and scores are the request times. */
    var entries: set<real>
    var expiresAt: real
    ghost var times: seq<real>
    ghost var admitted: seq<bool>

    ghost predicate Valid()
      reads this
    {
      && window > 0.0 && Increasing(times) && AdmitsBy(times, admitted, limit, window)
      && Tracks(entries, expiresAt, times, window)
    }

    constructor (limit: int, window: real)
      requires window > 0.0
      ensures Valid() && times == [] && this.limit == limit && this.window == window
    {
      this.limit, this.window := limit, window;
      entries, expiresAt := {}, 0.0;
      times, admitted := [], [];
    }

    /** The pipeline: ZADD, ZREMRANGEBYSCORE, ZCARD, EXPIRE.  `lapsed` says whether Redis has
        dropped the key: certainly after its expiry, certainly not before, and either way at that
        very instant. */
    method IncrementAndCheck(now: real, lapsed: bool) returns (count: nat)
      requires window > 0.0 && Increasing(times + [now]) && Tracks(entries, expiresAt, times, window)
      requires (now > expiresAt ==> lapsed) && (lapsed && times != [] ==> now >= expiresAt)
      modifies this`entries, this`expiresAt
      ensures Tracks(entries, expiresAt, times + [now], window)
      ensures count == |InWindow(times + [now], now, window)|
    {
      var windowStart := now - window;
      ghost var before := if lapsed then {} else entries;
      if lapsed {
        entries := {};
      }
      entries := entries + {now};
      entries := set t | t in entries && !(0.0 <= t <= windowStart);
      count := |entries|;
      expiresAt := now + window;
      PrunedIsFiltered(times, now, window, before, entries);
    }

    /** One request, admitted or answered with status 429. */
    method Admit(now: real, lapsed: bool) returns (ok: bool)
      requires Valid() && Increasing(times + [now])
      requires (now > expiresAt ==> lapsed) && (lapsed && times != [] ==> now >= expiresAt)
      modifies this
      ensures Valid() && times == old(times) + [now] && admitted == old(admitted) + [ok]
      ensures ok <==> |InWindow(times, now, window)| <= limit
    {
      var count := IncrementAndCheck(now, lapsed);
      ok := count <= limit;
      Extended(times, admitted, limit, window, now, ok);
      times, admitted := times + [now], admitted + [ok];
    }
  }

  /** The stored set is the recent part of the full log, as of the last request. */
  ghost predicate Tracks(entries: set<real>, expiresAt: real, times: seq<real>, window: real) {
    if times == [] then entries == {}
    else
      var last := times[|times| - 1];
      entries == InWindow(times, last, window) && expiresAt == last + window
  }

  /** The pruned and expiring set holds exactly the recent part of the full log. */
  lemma {:induction false} PrunedIsFiltered(times: seq<real>, now: real, window: real, before: set<real>,
          after: set<real>)
    requires window > 0.0 && Increasing(times + [now])
    requires after == set t | t in before + {now} && !(0.0 <= t <= now - window)
    requires times == [] ==> before == {}
    requires times != [] ==> var last := times[|times| - 1];
               before == InWindow(times, last, window) || (before == {} && now >= last + window)
    ensures after == InWindow(times + [now], now, window)
  {
    var log := times + [now];
    assert forall i :: 0 <= i < |times| ==> log[i] == times[i];
    assert log[|times|] == now;
    forall t
      ensures t in after <==> t in InWindow(log, now, window)
    {
      if t in times {
        var i :| 0 <= i < |times| && times[i] == t;
        assert log[i] > 0.0 && log[i] < now;
        assert t <= times[|times| - 1] by {
          assert i < |times| - 1 ==> log[i] < log[|times| - 1];
        }
      }
    }
  }

  lemma {:induction false} Extended(times: seq<real>, admitted: seq<bool>, limit: int, window: real, now: real,
          ok: bool)
    requires Increasing(times) && AdmitsBy(times, admitted, limit, window)
    requires Increasing(times + [now])
    requires ok <==> |InWindow(times + [now], now, window)| <= limit
    ensures AdmitsBy(times + [now], admitted + [ok], limit, window)
  {
    var log := times + [now];
    assert log[..|times| + 1] == log;
    forall i | 0 <= i < |times|
      ensures WithinLimit(log, i, limit, window) <==> WithinLimit(times, i, limit, window)
    {
      assert log[..i + 1] == times[..i + 1];
    }
  }

  // ---- What the window admits ----

  ghost predicate AdmittedAt(times: seq<real>, admitted: seq<bool>, t: real)
    requires |admitted| == |times|
  {
    exists i :: 0 <= i < |times| && admitted[i] && times[i] == t
  }

  /** The admitted requests in the half-open interval (start, start + window]. */
  ghost function AdmittedIn(times: seq<real>, admitted: seq<bool>, start: real, window: real): set<real>
    requires |admitted| == |times|
  {
    set t | t in times && AdmittedAt(times, admitted, t) && start < t <= start + window
  }

  /** The admitted requests in the closed interval [start, start + window]. */
  ghost function AdmittedInClosed(times: seq<real>, admitted: seq<bool>, start: real, window: real): set<real>
    requires |admitted| == |times|
  {
    set t | t in times && AdmittedAt(times, admitted, t) && start <= t <= start + window
  }

  /** A last request that is rejected, or outside the interval, adds nothing. */
  lemma {:induction false} LastAddsNothing(times: seq<real>, admitted: seq<bool>, start: real, window: real)
    requires times != [] && |admitted| == |times|
    requires var n := |times| - 1; !(admitted[n] && start < times[n] <= start + window)
    ensures var n := |times| - 1;
            AdmittedIn(times, admitted, start, window) <= AdmittedIn(times[..n], admitted[..n], start, window)
  {
  }

  /** Safety over whole runs: no interval of the window's length, wherever it starts, contains
      more than `limit` admitted requests. */
  lemma {:induction false} WindowSafety(times: seq<real>, admitted: seq<bool>, limit: int, window: real, start: real)
    requires Increasing(times) && AdmitsBy(times, admitted, limit, window)
    requires window > 0.0 && limit >= 0
    ensures |AdmittedIn(times, admitted, start, window)| <= limit
  {
    if times == [] {
      assert AdmittedIn(times, admitted, start, window) == {};
    } else {
      var n := |times| - 1;
      DropLast(times, admitted, limit, window);
      if admitted[n] && start < times[n] <= start + window {
        assert WithinLimit(times, n, limit, window) && times[..n + 1] == times;
        LastWindowHoldsAll(times, admitted, start, window);
      } else {
        WindowSafety(times[..n], admitted[..n], limit, window, start);
        LastAddsNothing(times, admitted, start, window);
        SubsetSize(AdmittedIn(times, admitted, start, window), AdmittedIn(times[..n], admitted[..n], start, window));
      }
    }
  }

  /** The window of the last admitted request in the interval holds all the others. */
  lemma {:induction false} LastWindowHoldsAll(times: seq<real>, admitted: seq<bool>, start: real, window: real)
    requires times != [] && |admitted| == |times| && Increasing(times)
    requires times[|times| - 1] <= start + window
    ensures |AdmittedIn(times, admitted, start, window)| <= |InWindow(times, times[|times| - 1], window)|
  {
    var last := times[|times| - 1];
    forall t | t in AdmittedIn(times, admitted, start, window)
      ensures t in InWindow(times, last, window)
    {
      var i :| 0 <= i < |times| && times[i] == t;
      assert i < |times| - 1 ==> times[i] < times[|times| - 1];
    }
    SubsetSize(AdmittedIn(times, admitted, start, window), InWindow(times, last, window));
  }

  lemma {:induction false} DropLast(times: seq<real>, admitted: seq<bool>, limit: int, window: real)
    requires times != [] && Increasing(times) && AdmitsBy(times, admitted, limit, window)
    ensures var n := |times| - 1;
            Increasing(times[..n]) && AdmitsBy(times[..n], admitted[..n], limit, window)
  {
    var n := |times| - 1;
    forall i | 0 <= i < n
      ensures WithinLimit(times[..n], i, limit, window) <==> WithinLimit(times, i, limit, window)
    {
      assert times[..n][..i + 1] == times[..i + 1];
    }
  }

  /** Of the interval with both ends: one request more may be admitted, and is exactly when one was
      admitted at its very start and the rest is full. */
  lemma {:induction false} ClosedWindowHoldsOneMore(times: seq<real>, admitted: seq<bool>, limit: int,
          window: real, start: real)
    requires Increasing(times) && AdmitsBy(times, admitted, limit, window)
    requires window > 0.0 && limit >= 0
    ensures |AdmittedInClosed(times, admitted, start, window)| <= limit + 1
    ensures |AdmittedInClosed(times, admitted, start, window)| > limit <==>
            && AdmittedAt(times, admitted, start)
            && |AdmittedIn(times, admitted, start, window)| == limit
  {
    WindowSafety(times, admitted, limit, window, start);
    ClosedIsOpenAndStart(times, admitted, start, window);
    AddedSize(AdmittedIn(times, admitted, start, window), start);
  }

  lemma {:induction false} ClosedIsOpenAndStart(times: seq<real>, admitted: seq<bool>, start: real, window: real)
    requires |admitted| == |times| && window > 0.0
    ensures start !in AdmittedIn(times, admitted, start, window)
    ensures AdmittedInClosed(times, admitted, start, window)
            == AdmittedIn(times, admitted, start, window) + if AdmittedAt(times, admitted, start) then {start} else {}
  {
    if AdmittedAt(times, admitted, start) {
      var i :| 0 <= i < |times| && admitted[i] && times[i] == start;
      assert start in times;
    }
  }

  lemma {:induction false} AddedSize<T>(x: set<T>, e: T)
    requires e !in x
    ensures |x + {e}| == |x| + 1 && x + {} == x
  {
  }

  /** It does happen: two requests exactly one window apart under a limit of one. */
  lemma {:induction false} ClosedWindowInput(admitted: seq<bool>)
    requires AdmitsBy([1.0, 61.0], admitted, 1, 60.0)
    ensures admitted == [true, true] && AdmittedInClosed([1.0, 61.0], admitted, 1.0, 60.0) == {1.0, 61.0}
  {
    var times := [1.0, 61.0];
    AdmittedIffSpaced(times, admitted, 1, 60.0, 0);
    AdmittedIffSpaced(times, admitted, 1, 60.0, 1);
    assert times[0] == 1.0 && times[1] == 61.0 && AdmittedAt(times, admitted, 1.0) && AdmittedAt(times, admitted, 61.0);
  }

  // ---- Who gets through ----

  /** A full window has passed since the request `limit` places before, admitted or not. */
  ghost predicate Spaced(times: seq<real>, i: int, limit: int, window: real)
    requires 0 <= limit <= i < |times|
  {
    times[i - limit] <= times[i] - window
  }

  /** A request is admitted exactly when it is among the first `limit` or spaced. */
  lemma {:induction false} AdmittedIffSpaced(times: seq<real>, admitted: seq<bool>, limit: int, window: real, i: nat)
    requires Increasing(times) && AdmitsBy(times, admitted, limit, window)
    requires window > 0.0 && limit >= 0 && i < |times|
    ensures admitted[i] <==> i < limit || Spaced(times, i, limit, window)
  {
    var seen := InWindow(times[..i + 1], times[i], window);
    assert admitted[i] <==> WithinLimit(times, i, limit, window);
    if i < limit || Spaced(times, i, limit, window) {
      var from := if i < limit then 0 else i - limit + 1;
      var recent := times[from..i + 1];
      assert forall j :: 0 <= j < from ==> times[j] <= times[i - limit];
      forall t | t in seen
        ensures t in recent
      {
        var j :| 0 <= j < i + 1 && times[..i + 1][j] == t;
        assert t == times[j] && j >= from;
        assert recent[j - from] == t;
      }
      CoverFits(recent, seen);
    } else {
      var recent := times[i - limit..i + 1];
      forall j | 0 <= j < |recent|
        ensures recent[j] in seen
      {
        var k := i - limit + j;
        assert recent[j] == times[k] == times[..i + 1][k];
        assert k > i - limit ==> times[i - limit] < times[k];
        assert k < i ==> times[k] < times[i];
      }
      DistinctFits(recent, seen);
    }
  }

  /** Rejected requests count.  A client whose requests keep coming faster than `limit` per window is
      locked out for as long as it does: of all its requests only the first `limit` get through, and
      only such a client's. */
  lemma {:induction false} LockedOutIffInsisting(times: seq<real>, admitted: seq<bool>, limit: int, window: real)
    requires Increasing(times) && AdmitsBy(times, admitted, limit, window)
    requires window > 0.0 && limit >= 0
    ensures (forall i :: 0 <= i < |times| ==> (admitted[i] <==> i < limit)) <==>
            (forall i :: limit <= i < |times| ==> !Spaced(times, i, limit, window))
  {
    forall i | 0 <= i < |times|
      ensures admitted[i] <==> i < limit || Spaced(times, i, limit, window)
    {
      AdmittedIffSpaced(times, admitted, limit, window, i);
    }
  }

  /** In particular a client may be rejected although its last admitted request is long past. */
  lemma {:induction false} RejectedRequestsCount(admitted: seq<bool>)
    requires AdmitsBy([1.0, 41.0, 81.0], admitted, 1, 60.0)
    ensures admitted == [true, false, false]
  {
    LockedOutIffInsisting([1.0, 41.0, 81.0], admitted, 1, 60.0);
  }
}
