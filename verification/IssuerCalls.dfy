/**
 `HttpWebIdIssuers::authorizes` as calls that interleave (src/auth/webid_issuer.rs). A step is what
 one hold of one of the two cache locks does, or the fetch, which holds neither; any number of
 calls, for the same WebID or others, run between two steps of one.
 */
module IssuerCalls {
  import opened Collections
  import opened Wrappers
  import opened Cache

  /** The two caches, and every fetch put on record, with the instant it was stamped. */
  datatype Memory = Memory(cache: map<string, Profile>, negative: map<string, nat>, log: seq<Fetch>)

  datatype Stage =
    | Asking                                              // nothing read yet
    | Missed                                              // no fresh issuer list
    | Fetching                                            // no recent failure either
    | Got(profile: Result<seq<string>, FetchError>)       // the document, or the failure, in hand
    | Stored(authorized: bool, at: nat)                   // the list is cached, the old failure still noted
    | Done(answer: Result<bool, FetchError>, at: nat)     // answered, on what was known at `at`

  datatype Call = Call(webid: string, issuer: string, stage: Stage)
  datatype World = World(memory: Memory, calls: map<nat, Call>)

  /** One step of one call at clock reading `now`; which entry makes room is the cache's choice. */
  ghost predicate CallStep(m: Memory, c: Call, now: nat, m': Memory, stage: Stage) {
    match c.stage
    case Asking =>
      m' == m
      && stage == if c.webid in m.cache && now - m.cache[c.webid].at < CACHE_TTL
                  then Done(Ok(Declares(m.cache[c.webid].issuers, c.issuer)), now) else Missed
    case Missed =>
      m' == m
      && stage == if c.webid in m.negative && now - m.negative[c.webid] < NEGATIVE_CACHE_TTL
                  then Done(Err(FetchBlocked), now) else Fetching
    case Fetching => m' == m && stage.Got?
    case Got(Ok(issuers)) =>
      Inserted(m.cache, m'.cache, c.webid, Profile(issuers, now), (p: Profile) => p.at, CACHE_TTL, now)
      && m'.negative == m.negative && m'.log == m.log + [Fetch(c.webid, Ok(issuers), now)]
      && stage == Stored(Declares(issuers, c.issuer), now)
    case Got(Err(e)) =>
      Inserted(m.negative, m'.negative, c.webid, now, (t: nat) => t, NEGATIVE_CACHE_TTL, now)
      && m'.cache == m.cache && m'.log == m.log + [Fetch(c.webid, Err(e), now)]
      && stage == Done(Err(e), now)
    case Stored(authorized, at) => m' == m.(negative := m.negative - {c.webid}) && stage == Done(Ok(authorized), at)
    case Done(_, _) => m' == m && stage == c.stage
  }

  /** A new call, a step of a call, or a call that is abandoned. */
  ghost predicate Next(w: World, w': World) {
    (exists id: nat, webid, issuer :: id !in w.calls && w' == w.(calls := w.calls[id := Call(webid, issuer, Asking)]))
    || (exists id: nat, now: nat, stage :: Advances(w, w', id, now, stage))
    || (exists id: nat :: w' == w.(calls := w.calls - {id}))
  }

  ghost predicate Advances(w: World, w': World, id: nat, now: nat, stage: Stage) {
    id in w.calls && CallStep(w.memory, w.calls[id], now, w'.memory, stage)
    && w'.calls == w.calls[id := w.calls[id].(stage := stage)]
  }

  /** A call's steps with no other call's between them, the fetch stamped at `fetchedAt`. */
  ghost predicate Alone(ms: seq<Memory>, stages: seq<Stage>, webid: string, issuer: string, now: nat, fetchedAt: nat) {
    |ms| == |stages| == 6 && stages[0] == Asking
    && forall i :: 0 <= i < 5 ==>
      CallStep(ms[i], Call(webid, issuer, stages[i]), if i < 3 then now else fetchedAt, ms[i + 1], stages[i + 1])
  }

  /** Left alone a call answers in five steps, as the method does: from a fresh list, else from a recent
      failure, both leaving all as it was, else from the fetch, which it puts on record once and caches. */
  lemma LeftAloneItAnswers(ms: seq<Memory>, stages: seq<Stage>, webid: string, issuer: string, now: nat,
                           fetchedAt: nat)
    requires Alone(ms, stages, webid, issuer, now, fetchedAt)
    ensures stages[5].Done?
    ensures var m, end, answer := ms[0], ms[5], stages[5].answer;
            var young := webid in m.cache && now - m.cache[webid].at < CACHE_TTL;
            var failing := webid in m.negative && now - m.negative[webid] < NEGATIVE_CACHE_TTL;
            if young then end == m && answer == Ok(Declares(m.cache[webid].issuers, issuer))
            else if failing then end == m && answer == Err(FetchBlocked)
            else stages[3].Got? && end.log == m.log + [Fetch(webid, stages[3].profile, fetchedAt)]
                 && match stages[3].profile
                    case Ok(issuers) =>
                      answer == Ok(Declares(issuers, issuer)) && end.negative == m.negative - {webid}
                      && Inserted(m.cache, end.cache, webid, Profile(issuers, fetchedAt), (p: Profile) => p.at,
                                  CACHE_TTL, fetchedAt)
                    case Err(e) =>
                      answer == Err(e) && end.cache == m.cache
                      && Inserted(m.negative, end.negative, webid, fetchedAt, (t: nat) => t, NEGATIVE_CACHE_TTL,
                                  fetchedAt)
  {
    assert CallStep(ms[0], Call(webid, issuer, stages[0]), now, ms[1], stages[1]);
    assert CallStep(ms[1], Call(webid, issuer, stages[1]), now, ms[2], stages[2]);
    assert CallStep(ms[2], Call(webid, issuer, stages[2]), now, ms[3], stages[3]);
    assert CallStep(ms[3], Call(webid, issuer, stages[3]), fetchedAt, ms[4], stages[4]);
    assert CallStep(ms[4], Call(webid, issuer, stages[4]), fetchedAt, ms[5], stages[5]);
  }

  // ----- what every interleaving keeps -----

  ghost predicate Known(log: seq<Fetch>, c: Call, answer: bool, at: nat) {
    exists issuers, stamped ::
      Fetched(log, c.webid, issuers, stamped) && at - stamped < CACHE_TTL && answer == Declares(issuers, c.issuer)
  }

  ghost predicate KnownFailure(log: seq<Fetch>, c: Call, at: nat) {
    exists stamped :: Failed(log, c.webid, stamped) && at - stamped < NEGATIVE_CACHE_TTL
  }

  /** The call's answer rests on a fetch on record: a successful one no older than 120 seconds when it was
      read for `Ok`, a failed one no older than 30 for `Err`. */
  ghost predicate Justified(log: seq<Fetch>, c: Call) {
    match c.stage
    case Stored(b, at) => Known(log, c, b, at)
    case Done(Ok(b), at) => Known(log, c, b, at)
    case Done(Err(_), at) => KnownFailure(log, c, at)
    case _ => true
  }

  ghost predicate MemoryOk(m: Memory) {
    |m.cache| <= MAX_CACHE_ENTRIES && |m.negative| <= MAX_CACHE_ENTRIES && AllFetched(m.log, m.cache)
    && AllFailed(m.log, m.negative)
  }

  ghost predicate Inv(w: World) {
    MemoryOk(w.memory) && forall id :: id in w.calls ==> Justified(w.memory.log, w.calls[id])
  }

  lemma StillJustified(log: seq<Fetch>, longer: seq<Fetch>, c: Call)
    requires log <= longer && Justified(log, c)
    ensures Justified(longer, c)
  {
    assert forall f :: f in log ==> f in longer;
    assert forall issuers, at :: Fetched(log, c.webid, issuers, at) ==> Fetched(longer, c.webid, issuers, at);
    assert forall at :: Failed(log, c.webid, at) ==> Failed(longer, c.webid, at);
  }

  lemma ProfileKept(m: Memory, c: Call, now: nat, m': Memory, stage: Stage)
    requires MemoryOk(m) && c.stage.Got? && c.stage.profile.Ok? && CallStep(m, c, now, m', stage)
    ensures MemoryOk(m') && Justified(m'.log, c.(stage := stage)) && m.log <= m'.log
  {
    var f := Fetch(c.webid, c.stage.profile, now);
    InsertedKeepsCap(m.cache, m'.cache, c.webid, Profile(c.stage.profile.value, now), (p: Profile) => p.at, CACHE_TTL,
                     now);
    StillFetched(m.log, f, m.cache, m'.cache);
    StillFailed(m.log, f, m.negative, m.negative);
    assert Fetched(m'.log, c.webid, c.stage.profile.value, now);
  }

  lemma FailureKept(m: Memory, c: Call, now: nat, m': Memory, stage: Stage)
    requires MemoryOk(m) && c.stage.Got? && c.stage.profile.Err? && CallStep(m, c, now, m', stage)
    ensures MemoryOk(m') && Justified(m'.log, c.(stage := stage)) && m.log <= m'.log
  {
    var f := Fetch(c.webid, c.stage.profile, now);
    InsertedKeepsCap(m.negative, m'.negative, c.webid, now, (t: nat) => t, NEGATIVE_CACHE_TTL, now);
    StillFailed(m.log, f, m.negative, m'.negative);
    StillFetched(m.log, f, m.cache, m.cache);
    assert f in m'.log;
    assert Failed(m'.log, c.webid, now);
  }

  lemma CallStepKeeps(m: Memory, c: Call, now: nat, m': Memory, stage: Stage)
    requires MemoryOk(m) && Justified(m.log, c) && CallStep(m, c, now, m', stage)
    ensures MemoryOk(m') && Justified(m'.log, c.(stage := stage)) && m.log <= m'.log
  {
    match c.stage {
      case Asking =>
        if stage.Done? { assert Fetched(m.log, c.webid, m.cache[c.webid].issuers, m.cache[c.webid].at); }
      case Missed =>
        if stage.Done? { assert Failed(m.log, c.webid, m.negative[c.webid]); }
      case Got(profile) =>
        if profile.Ok? { ProfileKept(m, c, now, m', stage); } else { FailureKept(m, c, now, m', stage); }
      case Stored(_, _) =>
        SubsetIsNoLarger((m.negative - {c.webid}).Keys, m.negative.Keys);
      case _ =>
    }
  }

  lemma NextKeeps(w: World, w': World)
    requires Inv(w) && Next(w, w')
    ensures Inv(w')
  {
    if id: nat, now: nat, stage :| Advances(w, w', id, now, stage) {
      CallStepKeeps(w.memory, w.calls[id], now, w'.memory, stage);
      forall x | x in w'.calls ensures Justified(w'.memory.log, w'.calls[x]) {
        if x != id { StillJustified(w.memory.log, w'.memory.log, w.calls[x]); }
      }
    }
  }

  const EMPTY := World(Memory(map[], map[], []), map[])

  ghost predicate IsRun(ws: seq<World>) {
    |ws| > 0 && ws[0] == EMPTY && forall i :: 0 <= i < |ws| - 1 ==> Next(ws[i], ws[i + 1])
  }

  lemma {:induction false} EveryInterleavingKeeps(ws: seq<World>)
    requires IsRun(ws)
    ensures Inv(ws[|ws| - 1])
  {
    if |ws| > 1 {
      var init := ws[..|ws| - 1];
      EveryInterleavingKeeps(init);
      assert Next(init[|init| - 1], ws[|ws| - 1]);
      NextKeeps(init[|init| - 1], ws[|ws| - 1]);
    }
  }

  /** However calls interleave, an answered call was answered on a fetch on record: `Ok` on a successful
      one stamped less than 120 seconds before the answer was read, `Err` on a failed one less than 30;
      and neither cache ever holds more than 1024 entries. */
  lemma EveryAnswerIsTimely(ws: seq<World>, id: nat)
    requires IsRun(ws) && id in ws[|ws| - 1].calls && ws[|ws| - 1].calls[id].stage.Done?
    ensures var w, c := ws[|ws| - 1], ws[|ws| - 1].calls[id];
            (match c.stage.answer
             case Ok(b) => Known(w.memory.log, c, b, c.stage.at)
             case Err(_) => KnownFailure(w.memory.log, c, c.stage.at))
            && |w.memory.cache| <= MAX_CACHE_ENTRIES && |w.memory.negative| <= MAX_CACHE_ENTRIES
  {
    EveryInterleavingKeeps(ws);
  }
}
