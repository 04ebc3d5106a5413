/**
 The bounded pre-authentication cache (src/auth/cache.rs) and the WebID issuer check on top
 of it (src/auth/webid_issuer.rs). Instants are nanoseconds of one monotone clock; what the
 network answers is a parameter.
 */
module Cache {
  import opened Collections
  import opened Wrappers

  const MAX_CACHE_ENTRIES := 1024
  const SECOND := 1_000_000_000
  const CACHE_TTL := 120 * SECOND
  const NEGATIVE_CACHE_TTL := 30 * SECOND

  // ----- insert_bounded -----

  predicate Expired(at: nat, now: nat, ttl: nat) { now - at >= ttl }

  /** What the sweep keeps. */
  function Unexpired<V>(m: map<string, V>, stamp: V -> nat, ttl: nat, now: nat): map<string, V> {
    map k | k in m && !Expired(stamp(m[k]), now, ttl) :: m[k]
  }

  predicate Oldest<V>(m: map<string, V>, stamp: V -> nat, k: string) {
    k in m && forall x :: x in m ==> stamp(m[k]) <= stamp(m[x])
  }

  /** The promise: nothing goes while there is room or the key is held already; the expired go first;
      a live entry goes only when nothing had expired, and then it is one entry, an oldest one. */
  ghost predicate Inserted<V>(was: map<string, V>, next: map<string, V>, key: string, value: V, stamp: V -> nat,
                              ttl: nat, now: nat) {
    if |was| < MAX_CACHE_ENTRIES || key in was then next == was[key := value]
    else if exists k :: k in was && Expired(stamp(was[k]), now, ttl) then
      next == Unexpired(was, stamp, ttl, now)[key := value]
    else exists victim :: Oldest(was, stamp, victim) && next == (was - {victim})[key := value]
  }

  /** `min_by_key` over the map's entries, in whatever order they come. */
  method FindOldest<V>(m: map<string, V>, stamp: V -> nat) returns (oldest: Option<string>)
    ensures oldest.None? <==> m == map[]
    ensures oldest.Some? ==> Oldest(m, stamp, oldest.value)
  {
    oldest := None;
    var rest := m.Keys;
    while rest != {}
      invariant rest <= m.Keys
      invariant oldest.None? <==> rest == m.Keys
      invariant oldest.Some? ==>
          oldest.value in m && forall x :: x in m && x !in rest ==> stamp(m[oldest.value]) <= stamp(m[x])
      decreases rest
    {
      var k :| k in rest;
      if oldest.None? || stamp(m[k]) < stamp(m[oldest.value]) { oldest := Some(k); }
      rest := rest - {k};
    }
    if oldest.None? { assert m == map[]; }
  }

  lemma SweepShrinks<V>(m: map<string, V>, stamp: V -> nat, ttl: nat, now: nat)
    ensures |Unexpired(m, stamp, ttl, now)| <= |m|
    ensures |Unexpired(m, stamp, ttl, now)| == |m| <==> forall k :: k in m ==> !Expired(stamp(m[k]), now, ttl)
  {
    var kept := Unexpired(m, stamp, ttl, now);
    assert kept.Keys <= m.Keys;
    SubsetIsNoLarger(kept.Keys, m.Keys);
    assert |kept| == |kept.Keys| && |m| == |m.Keys|;
    if kept.Keys == m.Keys {
      assert forall k :: k in m ==> k in kept;
    }
  }

  method InsertBounded<V>(m: map<string, V>, key: string, value: V, ttl: nat, stamp: V -> nat, now: nat)
    returns (r: map<string, V>)
    requires |m| <= MAX_CACHE_ENTRIES
    ensures |r| <= MAX_CACHE_ENTRIES
    ensures Inserted(m, r, key, value, stamp, ttl, now)
    ensures key in r && r[key] == value
    ensures forall k :: k in r && k != key ==> k in m && r[k] == m[k]
  {
    r := m;
    if |r| >= MAX_CACHE_ENTRIES && key !in r {
      SweepShrinks(m, stamp, ttl, now);
      r := Unexpired(r, stamp, ttl, now);
      if |r| >= MAX_CACHE_ENTRIES {
        assert r == m;
        var oldest := FindOldest(r, stamp);
        if oldest.Some? { r := r - {oldest.value}; }
        assert r.Keys == m.Keys - {oldest.value} && |r.Keys| == |m.Keys| - 1;
      }
    }
    assert r[key := value].Keys == r.Keys + {key};
    r := r[key := value];
  }

  /** However many keys arrive, in whatever order and at whatever times, the cap holds. */
  lemma {:induction false} CapHoldsForEverySequence<V>(states: seq<map<string, V>>, keys: seq<string>, values: seq<V>,
                                                       stamp: V -> nat, ttl: nat, times: seq<nat>)
    requires |states| == |keys| + 1 == |values| + 1 == |times| + 1
    requires states[0] == map[]
    requires forall i :: 0 <= i < |keys| ==>
        Inserted(states[i], states[i + 1], keys[i], values[i], stamp, ttl, times[i])
    ensures forall i :: 0 <= i < |states| ==> |states[i]| <= MAX_CACHE_ENTRIES
  {
    forall i | 0 <= i < |states| ensures |states[i]| <= MAX_CACHE_ENTRIES {
      CapHoldsAt(states, keys, values, stamp, ttl, times, i);
    }
  }

  lemma {:induction false} CapHoldsAt<V>(states: seq<map<string, V>>, keys: seq<string>, values: seq<V>,
                                         stamp: V -> nat, ttl: nat, times: seq<nat>, i: nat)
    requires |states| == |keys| + 1 == |values| + 1 == |times| + 1 && i < |states|
    requires states[0] == map[]
    requires forall i :: 0 <= i < |keys| ==>
        Inserted(states[i], states[i + 1], keys[i], values[i], stamp, ttl, times[i])
    ensures |states[i]| <= MAX_CACHE_ENTRIES
    decreases i
  {
    if i > 0 {
      CapHoldsAt(states, keys, values, stamp, ttl, times, i - 1);
      assert Inserted(states[i - 1], states[i], keys[i - 1], values[i - 1], stamp, ttl, times[i - 1]);
      InsertedKeepsCap(states[i - 1], states[i], keys[i - 1], values[i - 1], stamp, ttl, times[i - 1]);
    }
  }

  lemma InsertedKeepsCap<V>(was: map<string, V>, next: map<string, V>, key: string, value: V, stamp: V -> nat, ttl: nat,
                            now: nat)
    requires |was| <= MAX_CACHE_ENTRIES && Inserted(was, next, key, value, stamp, ttl, now)
    ensures |next| <= MAX_CACHE_ENTRIES
  {
    if |was| < MAX_CACHE_ENTRIES || key in was {
      AddedSize(was, key, value);
    } else if exists k :: k in was && Expired(stamp(was[k]), now, ttl) {
      SweepShrinks(was, stamp, ttl, now);
      AddedSize(Unexpired(was, stamp, ttl, now), key, value);
    } else {
      var victim :| Oldest(was, stamp, victim) && next == (was - {victim})[key := value];
      assert (was - {victim}).Keys == was.Keys - {victim};
      AddedSize(was - {victim}, key, value);
    }
  }

  lemma AddedSize<V>(m: map<string, V>, key: string, value: V)
    ensures |m[key := value]| == |m| + (if key in m then 0 else 1)
  {
    assert m[key := value].Keys == m.Keys + {key};
    assert |m[key := value]| == |m[key := value].Keys| && |m| == |m.Keys|;
  }

  // ----- issuer_matches -----

  function TrimSlashes(s: string): (r: string)
    ensures r == "" || r[|r| - 1] != '/'
  {
    if s != "" && s[|s| - 1] == '/' then TrimSlashes(s[..|s| - 1]) else s
  }

  predicate IssuerMatches(a: string, b: string) { TrimSlashes(a) == TrimSlashes(b) }

  function Slashes(n: nat): string { if n == 0 then "" else Slashes(n - 1) + "/" }

  lemma {:induction false} TrimLeavesSlashes(s: string) returns (n: nat)
    ensures s == TrimSlashes(s) + Slashes(n)
  {
    if s != "" && s[|s| - 1] == '/' {
      var m := TrimLeavesSlashes(s[..|s| - 1]);
      n := m + 1;
      assert s == s[..|s| - 1] + "/";
      assert TrimSlashes(s) + Slashes(n) == TrimSlashes(s) + Slashes(m) + "/";
    } else {
      n := 0;
    }
  }

  lemma {:induction false} TrimUndoesSlashes(base: string, n: nat)
    requires base == "" || base[|base| - 1] != '/'
    ensures TrimSlashes(base + Slashes(n)) == base
  {
    if n == 0 {
      assert base + Slashes(0) == base;
    } else {
      TrimUndoesSlashes(base, n - 1);
      var s := base + Slashes(n);
      assert Slashes(n) == Slashes(n - 1) + "/";
      assert s == base + Slashes(n - 1) + "/";
      assert s[|s| - 1] == '/' && s[..|s| - 1] == base + Slashes(n - 1);
      assert TrimSlashes(s) == TrimSlashes(base + Slashes(n - 1));
    }
  }

  /** Two issuers match exactly when some spelling without a trailing slash underlies both. */
  lemma IssuersMatchUpToSlashes(a: string, b: string)
    ensures IssuerMatches(a, b) <==>
      exists base: string, m: nat, n: nat ::
        (base == "" || base[|base| - 1] != '/') && a == base + Slashes(m) && b == base + Slashes(n)
  {
    var m := TrimLeavesSlashes(a);
    var n := TrimLeavesSlashes(b);
    if IssuerMatches(a, b) {
      assert a == TrimSlashes(a) + Slashes(m) && b == TrimSlashes(a) + Slashes(n);
    }
    if base: string, k: nat, l: nat :|
      (base == "" || base[|base| - 1] != '/') && a == base + Slashes(k) && b == base + Slashes(l)
    {
      TrimUndoesSlashes(base, k);
      TrimUndoesSlashes(base, l);
    }
  }

  // ----- HttpWebIdIssuers -----

  predicate Declares(issuers: seq<string>, issuer: string) {
    exists i :: i in issuers && IssuerMatches(i, issuer)
  }

  datatype FetchError = FetchBlocked
  datatype Profile = Profile(issuers: seq<string>, at: nat)
  datatype Fetch = Fetch(webid: string, answer: Result<seq<string>, FetchError>, at: nat)

  ghost predicate Fetched(log: seq<Fetch>, webid: string, issuers: seq<string>, at: nat) {
    Fetch(webid, Ok(issuers), at) in log
  }

  ghost predicate Failed(log: seq<Fetch>, webid: string, at: nat) {
    exists f :: f in log && f.webid == webid && f.answer.Err? && f.at == at
  }

  ghost predicate AllFetched(log: seq<Fetch>, cache: map<string, Profile>) {
    forall w :: w in cache ==> Fetched(log, w, cache[w].issuers, cache[w].at)
  }

  ghost predicate AllFailed(log: seq<Fetch>, negative: map<string, nat>) {
    forall w :: w in negative ==> Failed(log, w, negative[w])
  }

  /** Entries were there before or are the fetch just made. */
  lemma StillFetched(log: seq<Fetch>, f: Fetch, cache: map<string, Profile>, next: map<string, Profile>)
    requires AllFetched(log, cache)
    requires forall w :: w in next ==>
        (w in cache && next[w] == cache[w]) || f == Fetch(w, Ok(next[w].issuers), next[w].at)
    ensures AllFetched(log + [f], next)
  {
    forall w | w in next ensures Fetch(w, Ok(next[w].issuers), next[w].at) in log + [f] {
      if w in cache && next[w] == cache[w] { assert Fetched(log, w, cache[w].issuers, cache[w].at); }
    }
  }

  lemma StillFailed(log: seq<Fetch>, f: Fetch, negative: map<string, nat>, next: map<string, nat>)
    requires AllFailed(log, negative)
    requires forall w :: w in next ==>
        (w in negative && next[w] == negative[w]) || (f.webid == w && f.answer.Err? && f.at == next[w])
    ensures AllFailed(log + [f], next)
  {
    forall w | w in next ensures Failed(log + [f], w, next[w]) {
      if w in negative && next[w] == negative[w] {
        assert Failed(log, w, negative[w]);
        var x :| x in log && x.webid == w && x.answer.Err? && x.at == next[w];
        assert x in log + [f];
      } else {
        assert f in log + [f];
      }
    }
  }

  lemma Forgotten(log: seq<Fetch>, f: Fetch, negative: map<string, nat>, webid: string)
    requires AllFailed(log, negative)
    ensures AllFailed(log + [f], negative - {webid}) && |negative - {webid}| <= |negative|
  {
    StillFailed(log, f, negative, negative - {webid});
    SubsetIsNoLarger((negative - {webid}).Keys, negative.Keys);
  }

  class HttpWebIdIssuers {
    var cache: map<string, Profile>
    var negative: map<string, nat>
    /** Every profile fetch made, whatever became of its cache entry. */
    ghost var log: seq<Fetch>

    ghost predicate Valid()
      reads this
    {
      |cache| <= MAX_CACHE_ENTRIES && |negative| <= MAX_CACHE_ENTRIES
      && AllFetched(log, cache) && AllFailed(log, negative)
    }

    constructor ()
      ensures Valid() && log == []
    {
      cache, negative, log := map[], map[], [];
    }

    // The parts of one call. How they interleave with other calls' parts is `IssuerCalls`.

    method CachedAnswer(webid: string, issuer: string, now: nat) returns (answer: Option<bool>)
      requires Valid()
      ensures answer.Some? <==> webid in cache && now - cache[webid].at < CACHE_TTL
      ensures answer.Some? ==> answer.value == Declares(cache[webid].issuers, issuer)
      ensures answer.Some? ==> exists issuers, at ::
                Fetched(log, webid, issuers, at) && now - at < CACHE_TTL && answer.value == Declares(issuers, issuer)
    {
      answer := None;
      if webid in cache && now - cache[webid].at < CACHE_TTL {
        assert Fetched(log, webid, cache[webid].issuers, cache[webid].at);
        var found := AnyMatches(cache[webid].issuers, issuer);
        answer := Some(found);
      }
    }

    method RecentlyFailed(webid: string, now: nat) returns (failed: bool)
      requires Valid()
      ensures failed <==> webid in negative && now - negative[webid] < NEGATIVE_CACHE_TTL
      ensures failed ==> exists at :: Failed(log, webid, at) && now - at < NEGATIVE_CACHE_TTL
    {
      failed := webid in negative && now - negative[webid] < NEGATIVE_CACHE_TTL;
    }

    method RememberProfile(webid: string, issuers: seq<string>, at: nat)
      requires Valid()
      modifies this
      ensures Valid() && log == old(log) + [Fetch(webid, Ok(issuers), at)]
      ensures Inserted(old(cache), cache, webid, Profile(issuers, at), (p: Profile) => p.at, CACHE_TTL, at)
      ensures negative == old(negative) - {webid}
    {
      ghost var f := Fetch(webid, Ok(issuers), at);
      var next := InsertBounded(cache, webid, Profile(issuers, at), CACHE_TTL, (p: Profile) => p.at, at);
      StillFetched(log, f, cache, next);
      Forgotten(log, f, negative, webid);
      log := log + [f];
      cache := next;
      negative := negative - {webid};
    }

    method RememberFailure(webid: string, error: FetchError, at: nat)
      requires Valid()
      modifies this
      ensures Valid() && log == old(log) + [Fetch(webid, Err(error), at)]
      ensures Inserted(old(negative), negative, webid, at, (t: nat) => t, NEGATIVE_CACHE_TTL, at)
      ensures cache == old(cache)
    {
      ghost var f := Fetch(webid, Err(error), at);
      var next := InsertBounded(negative, webid, at, NEGATIVE_CACHE_TTL, (t: nat) => t, at);
      StillFailed(log, f, negative, next);
      StillFetched(log, f, cache, cache);
      log := log + [f];
      negative := next;
    }

    /** `authorizes`, the profile document answering `profile` if it is asked, at `fetchedAt`. */
    method Authorizes(webid: string, issuer: string, now: nat, profile: Result<seq<string>, FetchError>, fetchedAt: nat)
      returns (answer: Result<bool, FetchError>, asked: bool)
      requires Valid() && now <= fetchedAt
      modifies this
      ensures Valid()
      ensures log == if asked then old(log) + [Fetch(webid, profile, fetchedAt)] else old(log)
      ensures answer.Ok? ==> exists issuers, at ::
                Fetched(log, webid, issuers, at) && (if asked then fetchedAt else now) - at < CACHE_TTL
                && answer.value == Declares(issuers, issuer)
      ensures answer.Err? ==>
          exists at :: Failed(log, webid, at) && (if asked then fetchedAt else now) - at < NEGATIVE_CACHE_TTL
      ensures !asked ==> cache == old(cache) && negative == old(negative)
      ensures var known := webid in old(cache) && now - old(cache)[webid].at < CACHE_TTL;
              var failing := webid in old(negative) && now - old(negative)[webid] < NEGATIVE_CACHE_TTL;
              (asked <==> !known && !failing)
              && (known ==> answer == Ok(Declares(old(cache)[webid].issuers, issuer)))
              && (!known && failing ==> answer == Err(FetchBlocked))
              && (asked ==>
                    answer == match profile case Ok(issuers) => Ok(Declares(issuers, issuer)) case Err(e) => Err(e))
    {
      asked := false;
      var cached := CachedAnswer(webid, issuer, now);
      if cached.Some? { return Ok(cached.value), false; }
      var failed := RecentlyFailed(webid, now);
      if failed { return Err(FetchBlocked), false; }
      asked := true;
      match profile {
        case Ok(issuers) =>
          var authorized := AnyMatches(issuers, issuer);
          RememberProfile(webid, issuers, fetchedAt);
          assert Fetched(log, webid, issuers, fetchedAt);
          answer := Ok(authorized);
        case Err(e) =>
          RememberFailure(webid, e, fetchedAt);
          assert Fetch(webid, Err(e), fetchedAt) in log;
          assert Failed(log, webid, fetchedAt);
          answer := Err(e);
      }
    }
  }

  method AnyMatches(issuers: seq<string>, issuer: string) returns (found: bool)
    ensures found == Declares(issuers, issuer)
  {
    for i := 0 to |issuers|
      invariant forall j :: 0 <= j < i ==> !IssuerMatches(issuers[j], issuer)
    {
      if IssuerMatches(issuers[i], issuer) { return true; }
    }
    return false;
  }
}
