/**
 DPoP proof acceptance (src/auth/dpop.rs): the freshness window, the binding, and the replay
 set whose eviction sweeps run at most once a minute. Time is the source's 64-bit seconds with
 its saturating arithmetic. A `jti` stands for its SHA-256 digest, taken as injective.
 */
module Dpop {
  import opened Wrappers
  import opened Paths

  const I64_MAX := 0x7FFF_FFFF_FFFF_FFFF
  const I64_MIN := -0x8000_0000_0000_0000

  type I64 = x: int | I64_MIN <= x <= I64_MAX

  function Saturate(x: int): I64 {
    if x > I64_MAX then I64_MAX else if x < I64_MIN then I64_MIN else x
  }

  function SaturatingSub(a: I64, b: I64): I64 { Saturate(a - b) }
  function SaturatingAbs(a: I64): I64 { if a < 0 then Saturate(0 - a) else a }

  const MAX_AGE_SECONDS: I64 := 300
  const FUTURE_SKEW_SECONDS: I64 := 5
  const EVICTION_INTERVAL_SECONDS: I64 := 60

  /** How long a sweep keeps an entry: the whole freshness window and not a second more. */
  const RETENTION_SECONDS: I64 := MAX_AGE_SECONDS + FUTURE_SKEW_SECONDS

  // ----- the replay set -----

  datatype ReplaySet = ReplaySet(jtis: map<string, I64>, lastEviction: I64)

  const NEW_SET := ReplaySet(map[], 0)

  function Sweep(s: ReplaySet, now: I64, retention: I64): ReplaySet {
    if SaturatingAbs(SaturatingSub(now, s.lastEviction)) >= EVICTION_INTERVAL_SECONDS then
      var cutoff := SaturatingSub(now, retention);
      ReplaySet(map j | j in s.jtis && s.jtis[j] >= cutoff :: s.jtis[j], now)
    else s
  }

  /** Record `jti`, or refuse it because it is held already. */
  function Record(s: ReplaySet, jti: string, now: I64, retention: I64): (ReplaySet, bool) {
    var swept := Sweep(s, now, retention);
    if jti in swept.jtis then (swept, false) else (swept.(jtis := swept.jtis[jti := now]), true)
  }

  class InMemoryJtiReplayStore {
    var jtis: map<string, I64>
    var lastEviction: I64

    constructor ()
      ensures Held() == NEW_SET
    {
      jtis, lastEviction := map[], 0;
    }

    function Held(): ReplaySet
      reads this
    {
      ReplaySet(jtis, lastEviction)
    }

    /** `record_or_reject`, the one critical section. */
    method RecordOrReject(jti: string, now: I64) returns (ok: bool)
      modifies this
      ensures (Held(), ok) == Record(old(Held()), jti, now, RETENTION_SECONDS)
    {
      if SaturatingAbs(SaturatingSub(now, lastEviction)) >= EVICTION_INTERVAL_SECONDS {
        var cutoff := SaturatingSub(now, MAX_AGE_SECONDS + FUTURE_SKEW_SECONDS);
        jtis := map j | j in jtis && jtis[j] >= cutoff :: jtis[j];
        lastEviction := now;
      }
      ok := jti !in jtis;
      if ok { jtis := jtis[jti := now]; }
    }
  }

  // ----- verify_dpop -----

  /** The path of a parsed hierarchical URL. */
  type UrlPath = p: string | p != "" && p[0] == '/' witness "/"

  /** A proof after parsing. `authentic` is the crate's verdict on signature, algorithm and method;
      `htuPath` is the signed `htu`'s path, if it parses as a URL at all. */
  datatype Proof = Proof(jti: string, iat: I64, jkt: string, authentic: bool, htuPath: Option<UrlPath>)
  datatype Request = Request(proof: Proof, path: UrlPath, expectedJkt: string, now: I64)
  datatype Verdict = Accepted | NotAuthentic | WrongUrl | FromTheFuture | Stale | NotBound | Replayed

  /** The crate's own comparison, which drops a trailing slash. */
  predicate CrateAccepts(req: Request) {
    req.proof.authentic && req.proof.htuPath.Some? && NormalizeHtu(req.proof.htuPath.value) == NormalizeHtu(req.path)
  }

  function Verify(s: ReplaySet, req: Request, retention: I64): (ReplaySet, Verdict) {
    var proof := req.proof;
    if !CrateAccepts(req) then (s, NotAuthentic)
    else if proof.htuPath != Some(req.path) then (s, WrongUrl)
    else if SaturatingSub(proof.iat, req.now) > FUTURE_SKEW_SECONDS then (s, FromTheFuture)
    else if SaturatingSub(req.now, proof.iat) > MAX_AGE_SECONDS then (s, Stale)
    else if proof.jkt != req.expectedJkt then (s, NotBound)
    else
      var (next, ok) := Record(s, proof.jti, req.now, retention);
      (next, if ok then Accepted else Replayed)
  }

  /** Inside the freshness window, in exact arithmetic. */
  predicate InWindow(req: Request) { req.proof.iat - 5 <= req.now <= req.proof.iat + 300 }

  /** A sweep is due and takes the entry along, in exact arithmetic. */
  predicate SweptNow(s: ReplaySet, now: I64, at: I64) {
    (now - s.lastEviction >= 60 || s.lastEviction - now >= 60) && at < now - 305
  }

  /** Each verdict in its case and in no other, under the server's own retention. */
  lemma VerdictsAreExact(s: ReplaySet, req: Request)
    ensures var p, v := req.proof, Verify(s, req, RETENTION_SECONDS).1;
            var exactly := p.authentic && p.htuPath == Some(req.path);
            var held := p.jti in s.jtis && !SweptNow(s, req.now, s.jtis[p.jti]);
            (v == NotAuthentic <==>
               !p.authentic || p.htuPath.None? || NormalizeHtu(p.htuPath.value) != NormalizeHtu(req.path))
            && (v == WrongUrl <==>
                  p.authentic && p.htuPath.Some? && NormalizeHtu(p.htuPath.value) == NormalizeHtu(req.path)
                  && p.htuPath.value != req.path)
            && (v == FromTheFuture <==> exactly && req.now < p.iat - 5)
            && (v == Stale <==> exactly && req.now > p.iat + 300)
            && (v == NotBound <==> exactly && InWindow(req) && p.jkt != req.expectedJkt)
            && (v == Replayed <==> exactly && InWindow(req) && p.jkt == req.expectedJkt && held)
            && (v == Accepted <==> exactly && InWindow(req) && p.jkt == req.expectedJkt && !held)
  {
  }

  /** What the set holds after a proof that reached it: what no sweep took, and the jti if it was accepted. */
  lemma HeldAfterwards(s: ReplaySet, req: Request, jti: string)
    requires ReachesSet(Verify(s, req, RETENTION_SECONDS).1)
    ensures var (next, v) := Verify(s, req, RETENTION_SECONDS);
            var accepted := v == Accepted && jti == req.proof.jti;
            (jti in next.jtis <==> accepted || (jti in s.jtis && !SweptNow(s, req.now, s.jtis[jti])))
            && (jti in next.jtis ==> next.jtis[jti] == if accepted then req.now else s.jtis[jti])
            && next.lastEviction ==
               (if req.now - s.lastEviction >= 60 || s.lastEviction - req.now >= 60 then req.now else s.lastEviction)
  {
  }

  /** The replay set when request `k` arrives. */
  ghost function StateAt(s: ReplaySet, reqs: seq<Request>, retention: I64, k: nat): ReplaySet
    requires k <= |reqs|
  {
    if k == 0 then s else Verify(StateAt(s, reqs, retention, k - 1), reqs[k - 1], retention).0
  }

  ghost function VerdictAt(s: ReplaySet, reqs: seq<Request>, retention: I64, k: nat): Verdict
    requires k < |reqs|
  {
    Verify(StateAt(s, reqs, retention, k), reqs[k], retention).1
  }

  ghost predicate ClockNeverGoesBack(reqs: seq<Request>) {
    forall i, j :: 0 <= i < j < |reqs| ==> reqs[i].now <= reqs[j].now
  }

  // ----- when a jti is accepted again -----

  /** The call gets past every check and reaches the replay set. */
  predicate ReachesSet(verdict: Verdict) { verdict == Accepted || verdict == Replayed }

  /** The call sweeps, and its cutoff is past an entry recorded at `at`. */
  predicate SweepsPast(s: ReplaySet, req: Request, retention: I64, at: I64) {
    ReachesSet(Verify(s, req, retention).1)
    && SaturatingAbs(SaturatingSub(req.now, s.lastEviction)) >= EVICTION_INTERVAL_SECONDS
    && SaturatingSub(req.now, retention) > at
  }

  ghost predicate SweptPast(s: ReplaySet, reqs: seq<Request>, retention: I64, k: nat, at: I64)
    requires k < |reqs|
  {
    SweepsPast(StateAt(s, reqs, retention, k), reqs[k], retention, at)
  }

  ghost predicate AcceptsJti(s: ReplaySet, reqs: seq<Request>, retention: I64, k: nat, jti: string)
    requires k < |reqs|
  {
    VerdictAt(s, reqs, retention, k) == Accepted && reqs[k].proof.jti == jti
  }

  /** One call drops an entry exactly if it sweeps past it, unless it records the jti anew. */
  lemma EntryAfterCall(s: ReplaySet, req: Request, retention: I64, jti: string, at: I64)
    requires jti in s.jtis ==> s.jtis[jti] == at
    requires !(Verify(s, req, retention).1 == Accepted && req.proof.jti == jti)
    ensures var next := Verify(s, req, retention).0;
            (jti in next.jtis <==> jti in s.jtis && !SweepsPast(s, req, retention, at))
            && (jti in next.jtis ==> next.jtis[jti] == at)
  {
  }

  ghost predicate NoSweepPast(s: ReplaySet, reqs: seq<Request>, retention: I64, i: nat, n: nat, at: I64)
    requires n <= |reqs|
  {
    forall k :: i < k < n ==> !SweptPast(s, reqs, retention, k, at)
  }

  ghost predicate NotAcceptedBetween(s: ReplaySet, reqs: seq<Request>, retention: I64, i: nat, n: nat, jti: string)
    requires n <= |reqs|
  {
    forall k :: i < k < n ==> !AcceptsJti(s, reqs, retention, k, jti)
  }

  /** The entry of a jti recorded at `at` is held exactly if `held` says so. */
  ghost predicate HeldIff(s: ReplaySet, jti: string, at: I64, held: bool) {
    (jti in s.jtis <==> held) && (jti in s.jtis ==> s.jtis[jti] == at)
  }

  /** Between acceptances of a jti, its entry is held until the first sweep past it. */
  lemma {:induction false} EntryHeldUntilSwept(s: ReplaySet, reqs: seq<Request>, retention: I64, i: nat, n: nat)
    requires i < n <= |reqs| && VerdictAt(s, reqs, retention, i) == Accepted
    requires NotAcceptedBetween(s, reqs, retention, i, n, reqs[i].proof.jti)
    ensures HeldIff(StateAt(s, reqs, retention, n), reqs[i].proof.jti, reqs[i].now,
                    NoSweepPast(s, reqs, retention, i, n, reqs[i].now))
    decreases n
  {
    var jti, at := reqs[i].proof.jti, reqs[i].now;
    if i == n - 1 {
      JustAccepted(StateAt(s, reqs, retention, i), reqs[i], retention);
    } else {
      EntryHeldUntilSwept(s, reqs, retention, i, n - 1);
      assert !AcceptsJti(s, reqs, retention, n - 1, jti);
      EntryAfterCall(StateAt(s, reqs, retention, n - 1), reqs[n - 1], retention, jti, at);
      assert NoSweepPast(s, reqs, retention, i, n, at) <==>
        NoSweepPast(s, reqs, retention, i, n - 1, at) && !SweptPast(s, reqs, retention, n - 1, at);
    }
  }

  lemma JustAccepted(s: ReplaySet, req: Request, retention: I64)
    requires Verify(s, req, retention).1 == Accepted
    ensures HeldIff(Verify(s, req, retention).0, req.proof.jti, req.now, true)
  {
  }

  /** On any clock whatever: a proof that passes the other checks is accepted again after the last
      acceptance of its jti if and only if some sweep in between, its own included, ran past the entry. */
  lemma AcceptedAgainIffSweptPast(s: ReplaySet, reqs: seq<Request>, retention: I64, i: nat, j: nat)
    requires i < j < |reqs| && VerdictAt(s, reqs, retention, i) == Accepted
    requires reqs[j].proof.jti == reqs[i].proof.jti && ReachesSet(VerdictAt(s, reqs, retention, j))
    requires NotAcceptedBetween(s, reqs, retention, i, j, reqs[i].proof.jti)
    ensures VerdictAt(s, reqs, retention, j) == Accepted <==>
              exists k :: i < k <= j && SweptPast(s, reqs, retention, k, reqs[i].now)
  {
    EntryHeldUntilSwept(s, reqs, retention, i, j);
    AcceptedIffNotHeld(StateAt(s, reqs, retention, j), reqs[j], retention, reqs[i].now);
    if NoSweepPast(s, reqs, retention, i, j, reqs[i].now) {
      assert VerdictAt(s, reqs, retention, j) == Accepted <==> SweptPast(s, reqs, retention, j, reqs[i].now);
    }
  }

  lemma AcceptedIffNotHeld(s: ReplaySet, req: Request, retention: I64, at: I64)
    requires ReachesSet(Verify(s, req, retention).1)
    requires req.proof.jti in s.jtis ==> s.jtis[req.proof.jti] == at
    ensures Verify(s, req, retention).1 == Accepted <==>
              req.proof.jti !in s.jtis || SweepsPast(s, req, retention, at)
  {
  }

  lemma {:induction false} FirstAfter(p: nat -> bool, i: nat, j: nat) returns (n: nat)
    requires i < j && p(j)
    ensures i < n <= j && p(n)
    ensures forall k: nat :: i < k < n ==> !p(k)
    decreases j - i
  {
    if i + 1 == j || p(i + 1) {
      n := i + 1;
    } else {
      n := FirstAfter(p, i + 1, j);
    }
  }

  /** The first acceptance of `jti` after `i`. */
  lemma FirstAcceptance(s: ReplaySet, reqs: seq<Request>, retention: I64, i: nat, j: nat, jti: string) returns (n: nat)
    requires i < j < |reqs| && AcceptsJti(s, reqs, retention, j, jti)
    ensures i < n <= j && AcceptsJti(s, reqs, retention, n, jti)
    ensures NotAcceptedBetween(s, reqs, retention, i, n, jti)
  {
    var p: nat -> bool := (k: nat) => k < |reqs| && AcceptsJti(s, reqs, retention, k, jti);
    n := FirstAfter(p, i, j);
    forall k: nat | i < k < n ensures !AcceptsJti(s, reqs, retention, k, jti) { assert !p(k); }
  }

  /** So a jti gets in twice only if some clock reading in between was later than the first acceptance by
      more than the retention; clocks that step back are safe until then. */
  lemma TwiceNeedsALateReading(s: ReplaySet, reqs: seq<Request>, retention: I64, i: nat, j: nat) returns (k: nat)
    requires i < j < |reqs|
    requires VerdictAt(s, reqs, retention, i) == Accepted && VerdictAt(s, reqs, retention, j) == Accepted
    requires reqs[i].proof.jti == reqs[j].proof.jti
    ensures i < k <= j && reqs[k].now > reqs[i].now + retention
  {
    var n := FirstAcceptance(s, reqs, retention, i, j, reqs[i].proof.jti);
    AcceptedAgainIffSweptPast(s, reqs, retention, i, n);
    k :| i < k <= n && SweptPast(s, reqs, retention, k, reqs[i].now);
  }

  // ----- no proof is accepted twice -----

  /** On a clock that never goes back, the retention has wholly passed between the two. */
  lemma TwiceMeansRetentionPassed(s: ReplaySet, reqs: seq<Request>, retention: I64, i: nat, j: nat)
    requires ClockNeverGoesBack(reqs) && i < j < |reqs|
    requires VerdictAt(s, reqs, retention, i) == Accepted && VerdictAt(s, reqs, retention, j) == Accepted
    requires reqs[i].proof.jti == reqs[j].proof.jti
    ensures reqs[j].now > reqs[i].now + retention
  {
    var k := TwiceNeedsALateReading(s, reqs, retention, i, j);
  }

  /** Saturation or not, an accepted proof is inside the window. */
  lemma AcceptedIsFresh(s: ReplaySet, req: Request, retention: I64)
    ensures Verify(s, req, retention).1 == Accepted ==>
      req.now - MAX_AGE_SECONDS <= req.proof.iat <= req.now + FUTURE_SKEW_SECONDS
      && req.proof.jkt == req.expectedJkt && req.proof.htuPath == Some(req.path)
  {
  }

  predicate SameProof(a: Request, b: Request) { a.proof.jti == b.proof.jti && a.proof.iat == b.proof.iat }

  ghost predicate NeverTwice(retention: I64) {
    forall s, reqs: seq<Request>, i: nat, j: nat | ClockNeverGoesBack(reqs) && i < j < |reqs|
      && VerdictAt(s, reqs, retention, i) == Accepted && VerdictAt(s, reqs, retention, j) == Accepted ::
      !SameProof(reqs[i], reqs[j])
  }

  lemma NoProofAcceptedTwice(s: ReplaySet, reqs: seq<Request>, retention: I64, i: nat, j: nat)
    requires retention >= MAX_AGE_SECONDS + FUTURE_SKEW_SECONDS
    requires ClockNeverGoesBack(reqs) && i < j < |reqs|
    requires VerdictAt(s, reqs, retention, i) == Accepted && VerdictAt(s, reqs, retention, j) == Accepted
    ensures !SameProof(reqs[i], reqs[j])
  {
    AcceptedIsFresh(StateAt(s, reqs, retention, i), reqs[i], retention);
    AcceptedIsFresh(StateAt(s, reqs, retention, j), reqs[j], retention);
    if SameProof(reqs[i], reqs[j]) {
      TwiceMeansRetentionPassed(s, reqs, retention, i, j);
    }
  }

  /** A proof stamped five seconds ahead, presented at once and again when it is exactly 300 seconds old. */
  function EdgeRun(): seq<Request> {
    var proof := Proof("jti", 1005, "jkt", true, Some("/"));
    [Request(proof, "/", "jkt", 1000), Request(proof, "/", "jkt", 1305)]
  }

  lemma ShorterRetentionAdmitsAReplay(retention: I64)
    requires retention < MAX_AGE_SECONDS + FUTURE_SKEW_SECONDS
    ensures !NeverTwice(retention)
  {
    var reqs := EdgeRun();
    var first := Verify(NEW_SET, reqs[0], retention).0;
    assert first == ReplaySet(map["jti" := 1000], 1000);
    assert StateAt(NEW_SET, reqs, retention, 1) == first;
    assert Sweep(first, 1305, retention).jtis == map[];
    assert VerdictAt(NEW_SET, reqs, retention, 0) == Accepted;
    assert VerdictAt(NEW_SET, reqs, retention, 1) == Accepted;
  }

  /** The retention matches the freshness window with no slack in either direction. */
  lemma RetentionIsExact(retention: I64)
    ensures NeverTwice(retention) <==> retention >= MAX_AGE_SECONDS + FUTURE_SKEW_SECONDS
  {
    if retention >= MAX_AGE_SECONDS + FUTURE_SKEW_SECONDS {
      forall s, reqs: seq<Request>, i: nat, j: nat | ClockNeverGoesBack(reqs) && i < j < |reqs|
        && VerdictAt(s, reqs, retention, i) == Accepted && VerdictAt(s, reqs, retention, j) == Accepted
        ensures !SameProof(reqs[i], reqs[j])
      {
        NoProofAcceptedTwice(s, reqs, retention, i, j);
      }
    } else {
      ShorterRetentionAdmitsAReplay(retention);
    }
  }

  /** The exact condition can be met with a proof that is still fresh: a clock stepped back after such a sweep. */
  lemma ASteppedClockAdmitsAReplay() returns (reqs: seq<Request>)
    ensures |reqs| == 3 && reqs[0] == reqs[2]
    ensures VerdictAt(NEW_SET, reqs, RETENTION_SECONDS, 0) == Accepted
    ensures VerdictAt(NEW_SET, reqs, RETENTION_SECONDS, 2) == Accepted
  {
    var first := Request(Proof("a", 1000, "jkt", true, Some("/")), "/", "jkt", 1000);
    var later := Request(Proof("b", 2000, "jkt", true, Some("/")), "/", "jkt", 2000);
    reqs := [first, later, first];
    assert StateAt(NEW_SET, reqs, RETENTION_SECONDS, 0) == NEW_SET;
    var s1 := StateAt(NEW_SET, reqs, RETENTION_SECONDS, 1);
    assert s1 == Verify(NEW_SET, first, RETENTION_SECONDS).0;
    assert s1 == ReplaySet(map["a" := 1000], 1000);
    assert Verify(NEW_SET, first, RETENTION_SECONDS) == (s1, Accepted);
    var s2 := StateAt(NEW_SET, reqs, RETENTION_SECONDS, 2);
    assert s2 == Verify(s1, reqs[1], RETENTION_SECONDS).0;
    assert Sweep(s1, 2000, RETENTION_SECONDS) == ReplaySet(map[], 2000);
    assert Record(s1, "b", 2000, RETENTION_SECONDS) == (ReplaySet(map["b" := 2000], 2000), true);
    assert s2 == Verify(s1, later, RETENTION_SECONDS).0 == ReplaySet(map["b" := 2000], 2000);
  }

  // ----- the set stays bounded, whatever the clock does -----

  ghost predicate EntriesRecent(s: ReplaySet) {
    forall j :: j in s.jtis ==> s.jtis[j] >= s.lastEviction - RETENTION_SECONDS
  }

  /** After any call at any clock reading, everything held was recorded less than 365 seconds before it. */
  lemma HeldEntriesAreRecent(s: ReplaySet, jti: string, now: I64)
    requires EntriesRecent(s)
    ensures var next := Record(s, jti, now, RETENTION_SECONDS).0;
            EntriesRecent(next)
            && forall j :: j in next.jtis ==> now - next.jtis[j] < RETENTION_SECONDS + EVICTION_INTERVAL_SECONDS
  {
    var swept := Sweep(s, now, RETENTION_SECONDS);
    assert EntriesRecent(swept) && now - swept.lastEviction < EVICTION_INTERVAL_SECONDS;
  }

  lemma {:induction false} EveryRunKeepsEntriesRecent(s: ReplaySet, reqs: seq<Request>, k: nat)
    requires EntriesRecent(s) && k <= |reqs|
    ensures EntriesRecent(StateAt(s, reqs, RETENTION_SECONDS, k))
  {
    if k > 0 {
      EveryRunKeepsEntriesRecent(s, reqs, k - 1);
      HeldEntriesAreRecent(StateAt(s, reqs, RETENTION_SECONDS, k - 1), reqs[k - 1].proof.jti, reqs[k - 1].now);
    }
  }

  // ----- a rejection is earned, and consumes nothing -----

  ghost predicate AcceptedAt(reqs: seq<Request>, i: nat, jti: string, at: I64) {
    i < |reqs| && AcceptsJti(NEW_SET, reqs, RETENTION_SECONDS, i, jti) && reqs[i].now == at
  }

  lemma EntryOrigin(s: ReplaySet, req: Request, jti: string)
    requires jti in Verify(s, req, RETENTION_SECONDS).0.jtis
    ensures var (next, verdict) := Verify(s, req, RETENTION_SECONDS);
            (jti in s.jtis && next.jtis[jti] == s.jtis[jti])
            || (verdict == Accepted && jti == req.proof.jti && next.jtis[jti] == req.now)
  {
  }

  /** Every entry of a run's set was put there by an accepted proof of that run, at that proof's time. */
  lemma {:induction false} EntriesComeFromAcceptedProofs(reqs: seq<Request>, n: nat, jti: string) returns (i: nat)
    requires n <= |reqs| && jti in StateAt(NEW_SET, reqs, RETENTION_SECONDS, n).jtis
    ensures i < n && AcceptedAt(reqs, i, jti, StateAt(NEW_SET, reqs, RETENTION_SECONDS, n).jtis[jti])
  {
    if n == 0 {
      assert false;
    } else {
      var before := StateAt(NEW_SET, reqs, RETENTION_SECONDS, n - 1);
      var after := StateAt(NEW_SET, reqs, RETENTION_SECONDS, n);
      EntryOrigin(before, reqs[n - 1], jti);
      if jti in before.jtis && after.jtis[jti] == before.jtis[jti] {
        i := EntriesComeFromAcceptedProofs(reqs, n - 1, jti);
      } else {
        i := n - 1;
      }
    }
  }

  /** Only a `jti` that was accepted less than 365 seconds earlier is ever called a replay. */
  lemma ReplayVerdictIsEarned(reqs: seq<Request>, j: nat) returns (i: nat)
    requires j < |reqs| && VerdictAt(NEW_SET, reqs, RETENTION_SECONDS, j) == Replayed
    ensures i < j && AcceptedAt(reqs, i, reqs[j].proof.jti, reqs[i].now) && reqs[j].now - reqs[i].now < 365
  {
    i := EntriesComeFromAcceptedProofs(reqs, j, reqs[j].proof.jti);
    EveryRunKeepsEntriesRecent(NEW_SET, reqs, j);
    HeldEntriesAreRecent(StateAt(NEW_SET, reqs, RETENTION_SECONDS, j), reqs[j].proof.jti, reqs[j].now);
  }

  /** A proof refused on any other ground leaves the replay set untouched, its `jti` still usable. */
  lemma RefusedProofConsumesNothing(s: ReplaySet, req: Request)
    ensures var (next, verdict) := Verify(s, req, RETENTION_SECONDS);
            next != s ==> verdict == Accepted || verdict == Replayed
  {
  }

  /** Between stable request paths, the exact comparison refuses just what the crate's would have let
      through wrongly: the same path with and without its trailing slash. */
  lemma ExactComparisonClosesTheSlashGap(s: ReplaySet, req: Request)
    requires Stable(req.path) && req.proof.htuPath.Some? && Stable(req.proof.htuPath.value)
    ensures Verify(s, req, RETENTION_SECONDS).1 == WrongUrl <==>
      req.proof.authentic && SlashCounterpart(req.path) == req.proof.htuPath
  {
    SameHtuIffSlashPair(req.path, req.proof.htuPath.value);
    if SlashCounterpart(req.path) == req.proof.htuPath {
      TrimmedFacts(req.path);
    }
  }
}
