/** The sliding-window rate limiter: per user, the times of accepted requests, pruned on every
    check. Times are real numbers passed in by the caller. */
module RateLimiter {

  /** The times that are still inside the window at `now`. */
  function Recent(ts: seq<real>, now: real, window: real): seq<real> {
    if ts == [] then []
    else Recent(ts[..|ts| - 1], now, window) + if now - ts[|ts| - 1] < window then [ts[|ts| - 1]] else []
  }

  /** How many of the times are inside the window that ends now. */
  function InWindow(ts: seq<real>, now: real, window: real): nat {
    |set i | 0 <= i < |ts| && now - ts[i] < window|
  }

  lemma {:induction false} RecentCounts(ts: seq<real>, now: real, window: real)
    ensures |Recent(ts, now, window)| == InWindow(ts, now, window)
    ensures forall t :: t in Recent(ts, now, window) ==> t in ts && now - t < window
  {
    if ts != [] {
      var n := |ts| - 1;
      RecentCounts(ts[..n], now, window);
      var here := set i | 0 <= i < |ts| && now - ts[i] < window;
      var before := set i | 0 <= i < n && now - ts[..n][i] < window;
      assert here == before + if now - ts[n] < window then {n} else {};
    }
  }

  predicate Accepts(ts: seq<real>, now: real, max: int, window: real) {
    |Recent(ts, now, window)| < max
  }

  /** The stored times after a check. */
  function Stored(ts: seq<real>, now: real, max: int, window: real): seq<real> {
    Recent(ts, now, window) + if Accepts(ts, now, max, window) then [now] else []
  }

  class Limiter {
    const maxRequests: int
    const windowSeconds: real
    var userRequests: Table

    constructor (maxRequests: int, windowSeconds: real)
      ensures this.maxRequests == maxRequests && this.windowSeconds == windowSeconds && userRequests == map[]
    {
      this.maxRequests, this.windowSeconds, userRequests := maxRequests, windowSeconds, map[];
    }

    function TimesOf(user: string): seq<real>
      reads this
    {
      TimesIn(userRequests, user)
    }

    method Check(user: string, now: real) returns (allowed: bool, remaining: int)
      modifies this
      ensures allowed == Accepts(old(TimesOf(user)), now, maxRequests, windowSeconds)
      ensures allowed <==> InWindow(old(TimesOf(user)), now, windowSeconds) < maxRequests
      ensures userRequests == old(userRequests)[user := Stored(old(TimesOf(user)), now, maxRequests, windowSeconds)]
      ensures remaining == if allowed then maxRequests - |TimesOf(user)| else 0
    {
      if user !in userRequests {
        userRequests := userRequests[user := []];
      }
      var kept: seq<real> := [];
      var ts := userRequests[user];
      var i := 0;
      while i < |ts|
        invariant 0 <= i <= |ts| && kept == Recent(ts[..i], now, windowSeconds)
      {
        assert ts[..i + 1][..i] == ts[..i];
        if now - ts[i] < windowSeconds { kept := kept + [ts[i]]; }
        i := i + 1;
      }
      assert ts[..i] == ts;
      RecentCounts(ts, now, windowSeconds);
      userRequests := userRequests[user := kept];
      remaining := maxRequests - |kept|;
      if remaining <= 0 {
        assert kept + [] == kept;
        return false, 0;
      }
      userRequests := userRequests[user := kept + [now]];
      return true, remaining - 1;
    }
  }

  // ---- every run of one user ----

  /** The stored times after checks at the given moments. */
  function StoredAfter(ts: seq<real>, times: seq<real>, max: int, window: real): seq<real> {
    if times == [] then ts
    else
      var n := |times| - 1;
      Stored(StoredAfter(ts, times[..n], max, window), times[n], max, window)
  }

  /** The reference: every accepted time is remembered for ever. */
  function Accepted(times: seq<real>, max: int, window: real): seq<real> {
    if times == [] then []
    else
      var n := |times| - 1;
      var acc := Accepted(times[..n], max, window);
      if Accepts(acc, times[n], max, window) then acc + [times[n]] else acc
  }

  predicate Ascends(ts: seq<real>) {
    forall i, j :: 0 <= i <= j < |ts| ==> ts[i] <= ts[j]
  }

  /** What left the window earlier is outside it later. */
  lemma {:induction false} RecentTwice(ts: seq<real>, t: real, t': real, window: real)
    requires t <= t'
    ensures Recent(Recent(ts, t, window), t', window) == Recent(ts, t', window)
  {
    if ts != [] {
      var init, last := ts[..|ts| - 1], ts[|ts| - 1];
      RecentTwice(init, t, t', window);
      if t - last < window {
        assert (Recent(init, t, window) + [last])[..|Recent(init, t, window)|] == Recent(init, t, window);
      } else {
        assert Recent(ts, t, window) == Recent(init, t, window);
        assert Recent(ts, t', window) == Recent(init, t', window);
      }
    }
  }

  lemma RecentSnoc(ts: seq<real>, x: real, t: real, window: real)
    ensures Recent(ts + [x], t, window) == Recent(ts, t, window) + if t - x < window then [x] else []
  {
    assert (ts + [x])[..|ts|] == ts;
  }

  /** Pruning is invisible: at every later moment the stored times and the full list of accepted
      times have the same ones inside the window. */
  lemma {:induction false} PruningIsInvisible(times: seq<real>, max: int, window: real, t: real)
    requires Ascends(times) && (times != [] ==> times[|times| - 1] <= t)
    ensures Recent(StoredAfter([], times, max, window), t, window) == Recent(Accepted(times, max, window), t, window)
    decreases |times|
  {
    if times != [] {
      var n := |times| - 1;
      var init, now := times[..n], times[n];
      PruningIsInvisible(init, max, window, now);
      PruningIsInvisible(init, max, window, t);
      var st, acc := StoredAfter([], init, max, window), Accepted(init, max, window);
      RecentTwice(st, now, t, window);
      if Accepts(st, now, max, window) {
        RecentSnoc(Recent(st, now, window), now, t, window);
        RecentSnoc(acc, now, t, window);
      } else {
        assert Stored(st, now, max, window) == Recent(st, now, window);
      }
    }
  }

  /** Every decision of the limiter is the decision of the reference: a request is refused exactly
      when `max` requests were accepted inside the window that ends now. */
  lemma DecisionsAgree(times: seq<real>, now: real, max: int, window: real)
    requires Ascends(times) && (times != [] ==> times[|times| - 1] <= now)
    ensures Accepts(StoredAfter([], times, max, window), now, max, window)
        <==> InWindow(Accepted(times, max, window), now, window) < max
  {
    PruningIsInvisible(times, max, window, now);
    RecentCounts(Accepted(times, max, window), now, window);
  }

  predicate AllOld(ts: seq<real>, now: real, window: real) {
    forall i :: 0 <= i < |ts| ==> now - ts[i] >= window
  }

  lemma SliceOfInit(ts: seq<real>, k: nat)
    requires k < |ts|
    ensures var init := ts[..|ts| - 1]; init[k..] + [ts[|ts| - 1]] == ts[k..] && init[..k] == ts[..k]
  {
  }

  /** In an ascending list the recent times are a suffix. */
  lemma {:induction false} RecentIsSuffix(ts: seq<real>, now: real, window: real) returns (k: nat)
    requires Ascends(ts)
    ensures k <= |ts| && Recent(ts, now, window) == ts[k..] && AllOld(ts[..k], now, window)
  {
    if ts == [] {
      k := 0;
    } else {
      var n := |ts| - 1;
      var init, last := ts[..n], ts[n];
      if now - last < window {
        k := RecentIsSuffix(init, now, window);
        SliceOfInit(ts, k);
      } else {
        forall i | 0 <= i < |ts| ensures now - ts[i] >= window { assert ts[i] <= ts[n]; }
        RecentIsEmpty(ts, now, window);
        k := |ts|;
        assert ts[..k] == ts;
      }
    }
  }

  lemma {:induction false} RecentIsEmpty(ts: seq<real>, now: real, window: real)
    requires AllOld(ts, now, window)
    ensures Recent(ts, now, window) == []
  {
    if ts != [] { RecentIsEmpty(ts[..|ts| - 1], now, window); }
  }

  /** Any max + 1 successive times span at least the window. */
  predicate Spaced(ts: seq<real>, max: nat, window: real) {
    forall i :: 0 <= i < |ts| - max ==> ts[i + max] - ts[i] >= window
  }

  lemma AcceptKeepsSpacing(acc: seq<real>, now: real, max: nat, window: real)
    requires max >= 1 && Ascends(acc) && Spaced(acc, max, window) && Accepts(acc, now, max, window)
    ensures Spaced(acc + [now], max, window)
  {
    var k := RecentIsSuffix(acc, now, window);
    var ts, j := acc + [now], |acc| - max;
    assert j < k;
    if j >= 0 { assert acc[..k][j] == acc[j]; }
    forall i | 0 <= i < |ts| - max ensures ts[i + max] - ts[i] >= window {
      if i < j { assert acc[i + max] - acc[i] >= window; }
    }
  }

  lemma {:induction false} AcceptedAscends(times: seq<real>, max: int, window: real)
    requires Ascends(times)
    ensures Ascends(Accepted(times, max, window))
    ensures forall i :: 0 <= i < |Accepted(times, max, window)| ==>
      times != [] && Accepted(times, max, window)[i] <= times[|times| - 1]
  {
    if times != [] { AcceptedAscends(times[..|times| - 1], max, window); }
  }

  lemma {:induction false} ReferenceIsSpaced(times: seq<real>, max: nat, window: real)
    requires Ascends(times) && max >= 1
    ensures Spaced(Accepted(times, max, window), max, window)
    decreases |times|
  {
    if times != [] {
      var init, now := times[..|times| - 1], times[|times| - 1];
      var acc := Accepted(init, max, window);
      ReferenceIsSpaced(init, max, window);
      AcceptedAscends(init, max, window);
      if Accepts(acc, now, max, window) { AcceptKeepsSpacing(acc, now, max, window); }
    }
  }

  // ---- every run of every user ----

  type Table = map<string, seq<real>>

  function TimesIn(t: Table, user: string): seq<real> {
    if user in t then t[user] else []
  }

  datatype Request = Request(user: string, at: real)

  /** The limiter's table after the requests of all users. */
  function TableAfter(rs: seq<Request>, max: int, window: real): Table {
    if rs == [] then map[]
    else
      var t, r := TableAfter(rs[..|rs| - 1], max, window), rs[|rs| - 1];
      t[r.user := Stored(TimesIn(t, r.user), r.at, max, window)]
  }

  /** The times at which the limiter accepted a request of the user, as its pruned table decides. */
  function AcceptedFor(rs: seq<Request>, user: string, max: int, window: real): seq<real> {
    if rs == [] then []
    else
      var init, r := rs[..|rs| - 1], rs[|rs| - 1];
      var accepted := r.user == user && Accepts(TimesIn(TableAfter(init, max, window), user), r.at, max, window);
      AcceptedFor(init, user, max, window) + if accepted then [r.at] else []
  }

  /** The times of the user's own requests. */
  function AskedBy(rs: seq<Request>, user: string): seq<real> {
    if rs == [] then []
    else AskedBy(rs[..|rs| - 1], user) + if rs[|rs| - 1].user == user then [rs[|rs| - 1].at] else []
  }

  predicate InOrder(rs: seq<Request>) {
    forall i, j :: 0 <= i <= j < |rs| ==> rs[i].at <= rs[j].at
  }

  lemma {:induction false} AskedAscends(rs: seq<Request>, user: string)
    requires InOrder(rs)
    ensures Ascends(AskedBy(rs, user))
    ensures forall i :: 0 <= i < |AskedBy(rs, user)| ==> rs != [] && AskedBy(rs, user)[i] <= rs[|rs| - 1].at
    decreases |rs|
  {
    if rs != [] { AskedAscends(rs[..|rs| - 1], user); }
  }

  /** What the table stores for a user depends on that user's requests alone. */
  lemma {:induction false} UsersAreApart(rs: seq<Request>, user: string, max: int, window: real)
    ensures TimesIn(TableAfter(rs, max, window), user) == StoredAfter([], AskedBy(rs, user), max, window)
    decreases |rs|
  {
    if rs != [] {
      var init, r := rs[..|rs| - 1], rs[|rs| - 1];
      UsersAreApart(init, user, max, window);
      var asked := AskedBy(init, user);
      assert (asked + [r.at])[..|asked|] == asked && asked + [] == asked;
    }
  }

  lemma AcceptedSnoc(times: seq<real>, t: real, max: int, window: real)
    ensures var acc := Accepted(times, max, window);
      Accepted(times + [t], max, window) == acc + if Accepts(acc, t, max, window) then [t] else []
  {
    assert (times + [t])[..|times|] == times;
  }

  /** The limiter accepts exactly what the reference accepts of the user's requests. */
  lemma {:induction false} AcceptsAsReference(rs: seq<Request>, user: string, max: int, window: real)
    requires InOrder(rs)
    ensures AcceptedFor(rs, user, max, window) == Accepted(AskedBy(rs, user), max, window)
    decreases |rs|
  {
    if rs != [] {
      var init, r := rs[..|rs| - 1], rs[|rs| - 1];
      var asked := AskedBy(init, user);
      AcceptsAsReference(init, user, max, window);
      if r.user == user {
        AskedAscends(init, user);
        UsersAreApart(init, user, max, window);
        PruningIsInvisible(asked, max, window, r.at);
        AcceptedSnoc(asked, r.at, max, window);
      } else {
        assert AskedBy(rs, user) == asked;
      }
    }
  }

  /** The window bound over every run of all users: with a clock that does not go back, any max + 1
      successive requests that the limiter accepts from a user span at least the window. */
  lemma WindowBound(rs: seq<Request>, user: string, max: nat, window: real)
    requires InOrder(rs) && max >= 1
    ensures Spaced(AcceptedFor(rs, user, max, window), max, window)
  {
    AcceptsAsReference(rs, user, max, window);
    AskedAscends(rs, user);
    ReferenceIsSpaced(AskedBy(rs, user), max, window);
  }
}
