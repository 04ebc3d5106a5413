/**
 The notification bus (src/notify.rs) under every interleaving of its users. A step is what
 one hold of the registry lock does, or the release of a reader, which happens outside it:
 `Drop` is two steps and `live` is two phases, and anything may run in between. Topics,
 readers, pending drops and concurrent calls are unbounded.
 */
module Bus {
  import opened Collections
  import opened Wrappers
  import opened Terms

  type Topic = Iri

  datatype Activity = Create | Update | Delete | Add | Remove
  datatype Event = Event(topic: Topic, activity: Activity, about: string, target: Option<string>, state: Option<string>)

  /** Events a channel keeps for readers that have yet to take them. */
  const CAPACITY := 64

  /** A live receiver: the sender it was taken from, what has been sent since, the position of the next
      event to take, and the positions of those taken. The channel holds the last `CAPACITY` of `sent`. */
  datatype Reader = Reader(topic: Topic, sender: nat, sent: seq<Event>, next: nat, received: seq<nat>)

  function NewReader(topic: Topic, sender: nat): Reader { Reader(topic, sender, [], 0, []) }

  predicate Lagging(r: Reader) { r.next + CAPACITY < |r.sent| }

  /** `recv`: a reader that was overtaken is told so and moved up to the oldest event kept; otherwise it
      takes one event, or waits. */
  function Taken(r: Reader): Reader {
    if Lagging(r) then r.(next := |r.sent| - CAPACITY)
    else if r.next < |r.sent| then r.(next := r.next + 1, received := r.received + [r.next])
    else r
  }

  datatype State = State(
    channels: map<Topic, nat>,        // the registry: topic to sender
    nextSender: nat,                  // senders are new objects each time
    readers: map<nat, Reader>,        // receivers still holding their end
    dropping: map<nat, Topic>,        // receivers released, their registry step still to come
    scans: map<nat, seq<Topic>>)      // calls of `live` between their phases, with what they found dead

  const EMPTY := State(map[], 0, map[], map[], map[])

  /** `receiver_count` as the set it counts. */
  function ReadersOf(s: State, sender: nat): set<nat> {
    set r | r in s.readers && s.readers[r].sender == sender
  }

  predicate Watched(s: State, t: Topic) { t in s.channels && ReadersOf(s, s.channels[t]) != {} }
  predicate Unwatched(s: State, t: Topic) { t in s.channels && ReadersOf(s, s.channels[t]) == {} }

  function Filter(s: State, topics: seq<Topic>, watched: bool): seq<Topic> {
    if topics == [] then []
    else
      var t := topics[|topics| - 1];
      Filter(s, topics[..|topics| - 1], watched)
      + (if (if watched then Watched(s, t) else Unwatched(s, t)) then [t] else [])
  }

  /** The registry without the unwatched among `dead`, counted now. */
  function Evicted(s: State, dead: set<Topic>): map<Topic, nat> {
    map t | t in s.channels && !(t in dead && Unwatched(s, t)) :: s.channels[t]
  }

  datatype Step =
    | Subscribe(reader: nat, topic: Topic)
    | Release(reader: nat)
    | FinishDrop(reader: nat)
    | ScanLive(call: nat, topics: seq<Topic>)
    | EvictDead(call: nat)
    | Publish(event: Event)
    | Receive(reader: nat)

  function Topics(dead: seq<Topic>): set<Topic> { set t | t in dead }

  function Do(s: State, a: Step): State {
    match a
    case Subscribe(r, t) =>
      if r in s.readers || r in s.dropping then s
      else if t in s.channels then s.(readers := s.readers[r := NewReader(t, s.channels[t])])
      else s.(channels := s.channels[t := s.nextSender], nextSender := s.nextSender + 1,
              readers := s.readers[r := NewReader(t, s.nextSender)])
    case Release(r) =>
      if r in s.readers then s.(readers := s.readers - {r}, dropping := s.dropping[r := s.readers[r].topic]) else s
    case FinishDrop(r) =>
      if r in s.dropping then s.(channels := Evicted(s, {s.dropping[r]}), dropping := s.dropping - {r}) else s
    case ScanLive(c, topics) =>
      s.(scans := s.scans[c := Filter(s, topics, false)])
    case EvictDead(c) =>
      if c in s.scans then s.(channels := Evicted(s, Topics(s.scans[c])), scans := s.scans - {c}) else s
    case Publish(e) =>
      if e.topic in s.channels then s.(readers := Deliver(s, s.channels[e.topic], e)) else s
    case Receive(r) =>
      if r in s.readers then s.(readers := s.readers[r := Taken(s.readers[r])]) else s
  }

  function Deliver(s: State, sender: nat, e: Event): map<nat, Reader> {
    map r | r in s.readers ::
      if s.readers[r].sender == sender then s.readers[r].(sent := s.readers[r].sent + [e]) else s.readers[r]
  }

  function Run(s: State, steps: seq<Step>): State {
    if steps == [] then s else Do(Run(s, steps[..|steps| - 1]), steps[|steps| - 1])
  }

  // ----- what every interleaving keeps -----

  /** Every live reader holds the very sender its topic is registered under. */
  ghost predicate ReadersRegistered(s: State) {
    forall r :: r in s.readers ==>
      s.readers[r].topic in s.channels && s.channels[s.readers[r].topic] == s.readers[r].sender
  }

  /** A registered topic nobody reads has a drop on its way that will find it. */
  ghost predicate UnwatchedAwaitDrop(s: State) {
    forall t :: Unwatched(s, t) ==> exists r :: r in s.dropping && s.dropping[r] == t
  }

  ghost predicate SendersDistinct(s: State) {
    (forall t :: t in s.channels ==> s.channels[t] < s.nextSender)
    && (forall t, u :: t in s.channels && u in s.channels && s.channels[t] == s.channels[u] ==> t == u)
  }

  ghost predicate Inv(s: State) {
    s.readers.Keys !! s.dropping.Keys && ReadersRegistered(s) && UnwatchedAwaitDrop(s) && SendersDistinct(s)
  }

  lemma ReaderWatches(s: State, r: nat)
    requires ReadersRegistered(s) && r in s.readers
    ensures Watched(s, s.readers[r].topic)
  {
    assert r in ReadersOf(s, s.readers[r].sender);
  }

  /** Evicting what is unwatched now never cuts a reader off. */
  lemma EvictKeeps(s: State, dead: set<Topic>, dropping: map<nat, Topic>)
    requires Inv(s)
    requires dropping.Keys <= s.dropping.Keys
    requires forall r :: r in s.dropping && s.dropping[r] !in dead ==> r in dropping && dropping[r] == s.dropping[r]
    ensures forall scans :: Inv(s.(channels := Evicted(s, dead), dropping := dropping, scans := scans))
  {
    forall scans
      ensures Inv(s.(channels := Evicted(s, dead), dropping := dropping, scans := scans))
    {
      var next := s.(channels := Evicted(s, dead), dropping := dropping, scans := scans);
      forall r | r in next.readers
        ensures next.readers[r].topic in next.channels
      {
        ReaderWatches(s, r);
      }
      forall t | Unwatched(next, t)
        ensures exists r :: r in next.dropping && next.dropping[r] == t
      {
        assert ReadersOf(next, next.channels[t]) == ReadersOf(s, s.channels[t]);
        assert t !in dead && Unwatched(s, t);
        var r :| r in s.dropping && s.dropping[r] == t;
        assert r in next.dropping && next.dropping[r] == t;
      }
    }
  }

  lemma SubscribeKeeps(s: State, r: nat, t: Topic)
    requires Inv(s) && r !in s.readers && r !in s.dropping
    ensures Inv(Do(s, Subscribe(r, t)))
  {
    if t in s.channels { SubscribeToKnown(s, r, t); } else { SubscribeToNew(s, r, t); }
  }

  lemma SubscribeToKnown(s: State, r: nat, t: Topic)
    requires Inv(s) && r !in s.readers && r !in s.dropping && t in s.channels
    ensures Inv(Do(s, Subscribe(r, t)))
  {
    var next := s.(readers := s.readers[r := NewReader(t, s.channels[t])]);
    assert next == Do(s, Subscribe(r, t));
    SubscribedReaders(s, next, r);
    assert UnwatchedAwaitDrop(next) by { assert forall u :: Unwatched(next, u) ==> Unwatched(s, u); }
  }

  lemma SubscribeToNew(s: State, r: nat, t: Topic)
    requires Inv(s) && r !in s.readers && r !in s.dropping && t !in s.channels
    ensures Inv(Do(s, Subscribe(r, t)))
  {
    var next := s.(channels := s.channels[t := s.nextSender], nextSender := s.nextSender + 1,
                   readers := s.readers[r := NewReader(t, s.nextSender)]);
    assert next == Do(s, Subscribe(r, t));
    SubscribedReaders(s, next, r);
    assert UnwatchedAwaitDrop(next) by { assert forall u :: Unwatched(next, u) ==> Unwatched(s, u); }
  }

  lemma SubscribedReaders(s: State, next: State, r: nat)
    requires r in next.readers && forall x :: x in s.readers ==> x in next.readers && next.readers[x] == s.readers[x]
    ensures forall sender: nat :: ReadersOf(s, sender) <= ReadersOf(next, sender)
    ensures r in ReadersOf(next, next.readers[r].sender)
  {
  }

  lemma ReleaseKeeps(s: State, r: nat)
    requires Inv(s) && r in s.readers
    ensures Inv(Do(s, Release(r)))
  {
    var next := Do(s, Release(r));
    var t := s.readers[r].topic;
    forall u | Unwatched(next, u)
      ensures exists x :: x in next.dropping && next.dropping[x] == u
    {
      if u == t {
        assert r in next.dropping && next.dropping[r] == u;
      } else {
        assert ReadersOf(s, s.channels[u]) <= ReadersOf(next, next.channels[u]) + {r};
        assert r !in ReadersOf(s, s.channels[u]);
        assert Unwatched(s, u);
        var x :| x in s.dropping && s.dropping[x] == u;
        assert next.dropping[x] == u;
      }
    }
  }

  lemma PublishKeeps(s: State, e: Event)
    requires Inv(s) && e.topic in s.channels
    ensures Inv(Do(s, Publish(e)))
  {
    var next := Do(s, Publish(e));
    forall u | Unwatched(next, u)
      ensures exists x :: x in next.dropping && next.dropping[x] == u
    {
      assert ReadersOf(s, s.channels[u]) == ReadersOf(next, next.channels[u]);
      assert Unwatched(s, u);
    }
  }

  lemma ReceiveKeeps(s: State, r: nat)
    requires Inv(s) && r in s.readers
    ensures Inv(Do(s, Receive(r)))
  {
    var next := Do(s, Receive(r));
    forall u | Unwatched(next, u)
      ensures exists x :: x in next.dropping && next.dropping[x] == u
    {
      assert ReadersOf(s, s.channels[u]) == ReadersOf(next, next.channels[u]);
      assert Unwatched(s, u);
    }
  }

  lemma StepKeeps(s: State, a: Step)
    requires Inv(s)
    ensures Inv(Do(s, a))
  {
    match a {
      case Subscribe(r, t) => if r !in s.readers && r !in s.dropping { SubscribeKeeps(s, r, t); }
      case Release(r) => if r in s.readers { ReleaseKeeps(s, r); }
      case FinishDrop(r) =>
        if r in s.dropping {
          EvictKeeps(s, {s.dropping[r]}, s.dropping - {r});
          assert Do(s, a) ==
            s.(channels := Evicted(s, {s.dropping[r]}), dropping := s.dropping - {r}, scans := s.scans);
        }
      case EvictDead(c) =>
        if c in s.scans {
          EvictKeeps(s, Topics(s.scans[c]), s.dropping);
          assert Do(s, a) ==
            s.(channels := Evicted(s, Topics(s.scans[c])), dropping := s.dropping, scans := s.scans - {c});
        }
      case Publish(e) => if e.topic in s.channels { PublishKeeps(s, e); }
      case Receive(r) => if r in s.readers { ReceiveKeeps(s, r); }
      case ScanLive(c, topics) =>
        forall t | Unwatched(Do(s, a), t) ensures Unwatched(s, t) {
          assert ReadersOf(Do(s, a), s.channels[t]) == ReadersOf(s, s.channels[t]);
        }
    }
  }

  lemma {:induction false} EveryInterleavingKeeps(steps: seq<Step>)
    ensures Inv(Run(EMPTY, steps))
  {
    if steps != [] {
      EveryInterleavingKeeps(steps[..|steps| - 1]);
      StepKeeps(Run(EMPTY, steps[..|steps| - 1]), steps[|steps| - 1]);
    }
  }

  // ----- delivery -----

  /** One publish is sent to every live reader of the topic, and to no reader of any other. */
  lemma PublishReachesExactlyTheTopic(s: State, e: Event, r: nat)
    requires Inv(s) && r in s.readers
    ensures var next := Do(s, Publish(e));
            r in next.readers
            && next.readers[r] ==
              s.readers[r].(sent := s.readers[r].sent + (if s.readers[r].topic == e.topic then [e] else []))
  {
    assert s.readers[r].sent + [] == s.readers[r].sent;
  }

  function PublishedBy(a: Step, t: Topic): seq<Event> {
    if a.Publish? && a.event.topic == t then [a.event] else []
  }

  function PublishedOn(steps: seq<Step>, t: Topic): seq<Event> {
    if steps == [] then [] else PublishedOn(steps[..|steps| - 1], t) + PublishedBy(steps[|steps| - 1], t)
  }

  lemma StepDelivers(s: State, a: Step, r: nat)
    requires Inv(s) && r in s.readers && a != Release(r)
    ensures r in Do(s, a).readers
    ensures var sent := s.readers[r].sent + PublishedBy(a, s.readers[r].topic);
            Do(s, a).readers[r] == if a == Receive(r) then Taken(s.readers[r]) else s.readers[r].(sent := sent)
  {
    assert s.readers[r].sent + [] == s.readers[r].sent;
    if a.Publish? { PublishReachesExactlyTheTopic(s, a.event, r); }
  }

  /** For as long as a reader is not released, it is sent every event published on its topic, in order,
      whatever subscribers, drops and evictions run in between. */
  lemma {:induction false} ReaderIsSentEveryEvent(s: State, steps: seq<Step>, r: nat)
    requires Inv(s) && r in s.readers && Release(r) !in steps
    ensures Inv(Run(s, steps)) && r in Run(s, steps).readers
    ensures var after := Run(s, steps).readers[r];
            after.topic == s.readers[r].topic
            && after.sent == s.readers[r].sent + PublishedOn(steps, s.readers[r].topic)
  {
    if steps == [] {
      assert s.readers[r].sent + [] == s.readers[r].sent;
    } else {
      var init, last := steps[..|steps| - 1], steps[|steps| - 1];
      ReaderIsSentEveryEvent(s, init, r);
      StepKeeps(Run(s, init), last);
      StepDelivers(Run(s, init), last, r);
      var t := s.readers[r].topic;
      assert s.readers[r].sent + (PublishedOn(init, t) + PublishedBy(last, t))
          == s.readers[r].sent + PublishedOn(init, t) + PublishedBy(last, t);
    }
  }

  lemma RunOneMore(s: State, steps: seq<Step>, a: Step)
    ensures Run(s, steps + [a]) == Do(Run(s, steps), a)
  {
    assert (steps + [a])[..|steps|] == steps;
  }

  lemma {:induction false} RunSplits(s: State, before: seq<Step>, after: seq<Step>)
    ensures Run(s, before + after) == Run(Run(s, before), after)
  {
    if after == [] {
      assert before + [] == before;
    } else {
      var init, last := after[..|after| - 1], after[|after| - 1];
      assert before + after == (before + init) + [last] && after == init + [last];
      RunSplits(s, before, init);
      RunOneMore(s, before + init, last);
      RunOneMore(Run(s, before), init, last);
    }
  }

  lemma {:induction false} SubscribedState(before: seq<Step>, r: nat, t: Topic)
    requires r !in Run(EMPTY, before).readers && r !in Run(EMPTY, before).dropping
    ensures var s := Run(EMPTY, before + [Subscribe(r, t)]);
            Inv(s) && r in s.readers && s.readers[r].topic == t && s.readers[r] == NewReader(t, s.readers[r].sender)
  {
    RunOneMore(EMPTY, before, Subscribe(r, t));
    EveryInterleavingKeeps(before + [Subscribe(r, t)]);
  }

  /** The same from the subscription on, in any run of the bus. */
  lemma SubscriptionIsSentEverything(before: seq<Step>, r: nat, t: Topic, after: seq<Step>)
    requires r !in Run(EMPTY, before).readers && r !in Run(EMPTY, before).dropping && Release(r) !in after
    ensures var final := Run(EMPTY, before + [Subscribe(r, t)] + after);
            r in final.readers && final.readers[r].topic == t && final.readers[r].sent == PublishedOn(after, t)
  {
    SubscribedState(before, r, t);
    RunSplits(EMPTY, before + [Subscribe(r, t)], after);
    ReaderIsSentEveryEvent(Run(EMPTY, before + [Subscribe(r, t)]), after, r);
  }

  // ----- what a slow reader loses -----

  /** The reader came to take an event when `n` had been sent, was not taken, and was no longer kept. */
  predicate OverrunBy(s: State, a: Step, r: nat, n: nat) {
    a == Receive(r) && r in s.readers && Overwritten(s.readers[r], n)
  }

  /** Not taken, and at least 64 events newer. */
  predicate Overwritten(r: Reader, n: nat) { r.next <= n && n + CAPACITY < |r.sent| }

  ghost predicate Overrun(s: State, steps: seq<Step>, r: nat, n: nat) {
    exists k :: 0 <= k < |steps| && OverrunBy(Run(s, steps[..k]), steps[k], r, n)
  }

  lemma OverrunOneMore(s: State, steps: seq<Step>, a: Step, r: nat, n: nat)
    ensures Overrun(s, steps + [a], r, n) <==> Overrun(s, steps, r, n) || OverrunBy(Run(s, steps), a, r, n)
  {
    var all := steps + [a];
    assert all[..|steps|] == steps;
    if k :| 0 <= k < |steps| && OverrunBy(Run(s, steps[..k]), steps[k], r, n) {
      assert all[..k] == steps[..k] && all[k] == steps[k];
    }
    if k :| 0 <= k < |all| && OverrunBy(Run(s, all[..k]), all[k], r, n) {
      if k < |steps| { assert all[..k] == steps[..k] && all[k] == steps[k]; }
    }
  }

  /** Positions are taken in order, and behind the reader exactly those in `lost` were not. */
  ghost predicate Accounted(r: Reader, lost: iset<nat>) {
    r.next <= |r.sent|
    && (forall i, j :: 0 <= i < j < |r.received| ==> r.received[i] < r.received[j])
    && (forall n :: n in r.received ==> n < r.next)
    && (forall n: nat :: n < r.next ==> (n in r.received <==> n !in lost))
    && (forall n: nat :: n in lost ==> n < r.next)
  }

  lemma TakenAccounts(r: Reader, lost: iset<nat>)
    requires Accounted(r, lost)
    ensures Accounted(Taken(r), lost + (iset n: nat | Overwritten(r, n)))
  {
    var next := Taken(r);
    if !Lagging(r) && r.next < |r.sent| {
      assert next.received == r.received + [r.next];
      assert forall i :: 0 <= i < |r.received| ==> r.received[i] in r.received;
    }
  }

  ghost function LostIn(s: State, steps: seq<Step>, r: nat): iset<nat> { iset n: nat | Overrun(s, steps, r, n) }

  /** A subscription receives the events published on its topic in order, each of them except exactly
      those it was overrun by: 64 more were published before it came to take them. */
  lemma {:induction false} LossIsExactlyOverrun(s: State, steps: seq<Step>, r: nat)
    requires Inv(s) && r in s.readers && Release(r) !in steps
    requires s.readers[r] == NewReader(s.readers[r].topic, s.readers[r].sender)
    ensures r in Run(s, steps).readers && Accounted(Run(s, steps).readers[r], LostIn(s, steps, r))
  {
    if steps == [] {
      assert LostIn(s, [], r) == iset{};
    } else {
      var init, last := steps[..|steps| - 1], steps[|steps| - 1];
      assert steps == init + [last];
      LossIsExactlyOverrun(s, init, r);
      ReaderIsSentEveryEvent(s, init, r);
      var v := Run(s, init);
      StepDelivers(v, last, r);
      forall n: nat { OverrunOneMore(s, init, last, r, n); }
      if last == Receive(r) {
        TakenAccounts(v.readers[r], LostIn(s, init, r));
        var behind := iset n: nat | Overwritten(v.readers[r], n);
        assert LostIn(s, steps, r) == LostIn(s, init, r) + behind;
      } else {
        assert LostIn(s, steps, r) == LostIn(s, init, r);
      }
    }
  }

  /** A reader that never has more than 64 events unread when it comes to take one loses nothing: it has
      received the first `next` events published on its topic, each once, in order. */
  lemma NothingLostWhileKeepingUp(before: seq<Step>, r: nat, t: Topic, after: seq<Step>)
    requires r !in Run(EMPTY, before).readers && r !in Run(EMPTY, before).dropping && Release(r) !in after
    requires var s := Run(EMPTY, before + [Subscribe(r, t)]);
             forall k :: 0 <= k < |after| && after[k] == Receive(r) && r in Run(s, after[..k]).readers ==>
               !Lagging(Run(s, after[..k]).readers[r])
    ensures var final := Run(EMPTY, before + [Subscribe(r, t)] + after);
            r in final.readers
            && final.readers[r].sent == PublishedOn(after, t)
            && final.readers[r].next <= |final.readers[r].sent|
            && forall n: nat :: n in final.readers[r].received <==> n < final.readers[r].next
  {
    var s := Run(EMPTY, before + [Subscribe(r, t)]);
    SubscribedState(before, r, t);
    SubscriptionIsSentEverything(before, r, t, after);
    RunSplits(EMPTY, before + [Subscribe(r, t)], after);
    LossIsExactlyOverrun(s, after, r);
    assert forall k, n: nat :: 0 <= k < |after| ==> !OverrunBy(Run(s, after[..k]), after[k], r, n);
    var final := Run(s, after).readers[r];
    assert LostIn(s, after, r) == iset{};
  }

  function Takes(steps: seq<Step>, r: nat): nat {
    if steps == [] then 0
    else Takes(steps[..|steps| - 1], r) + if steps[|steps| - 1] == Receive(r) then 1 else 0
  }

  /** The oldest event a reader can still be given. */
  function Oldest(r: Reader): nat { if Lagging(r) then |r.sent| - CAPACITY else r.next }

  function Positions(from: nat, count: nat): seq<nat> { seq(count, i => from + i) }

  /** The reader has come `k` times while nothing was sent: it was given what it could still be given, in
      order, one a time, the first time having gone into being told it lagged. */
  ghost predicate CaughtUp(was: Reader, now: Reader, k: nat)
    requires was.next <= |was.sent|
  {
    var turns := if Lagging(was) then k - 1 else k;
    var given := if turns < |was.sent| - Oldest(was) then turns else |was.sent| - Oldest(was);
    now.sent == was.sent
    && if k == 0 then now == was
       else now.next == Oldest(was) + given && now.received == was.received + Positions(Oldest(was), given)
  }

  /** Between publications coming to take always makes progress, whoever else comes and goes: after one
      turn for each event a reader has everything it could still be given. */
  lemma {:induction false} TakingCatchesUp(s: State, steps: seq<Step>, r: nat)
    requires Inv(s) && r in s.readers && Release(r) !in steps
    requires s.readers[r].next <= |s.readers[r].sent| && PublishedOn(steps, s.readers[r].topic) == []
    ensures r in Run(s, steps).readers && Run(s, steps).readers[r].topic == s.readers[r].topic
    ensures CaughtUp(s.readers[r], Run(s, steps).readers[r], Takes(steps, r))
  {
    if steps != [] {
      var init, last, t := steps[..|steps| - 1], steps[|steps| - 1], s.readers[r].topic;
      assert PublishedOn(steps, t) == PublishedOn(init, t) + PublishedBy(last, t);
      TakingCatchesUp(s, init, r);
      ReaderIsSentEveryEvent(s, init, r);
      var now := Run(s, init).readers[r];
      StepDelivers(Run(s, init), last, r);
      if last == Receive(r) {
        OneMoreTurn(s.readers[r], now, Takes(init, r));
      } else {
        assert now.sent + [] == now.sent;
      }
    }
  }

  lemma OneMoreTurn(was: Reader, now: Reader, k: nat)
    requires was.next <= |was.sent| && CaughtUp(was, now, k)
    ensures CaughtUp(was, Taken(now), k + 1)
  {
    var turns := if Lagging(was) then k - 1 else k;
    assert was.received + Positions(Oldest(was), 0) == was.received;
    if 0 <= turns {
      assert Positions(Oldest(was), turns) + [Oldest(was) + turns] == Positions(Oldest(was), turns + 1);
    }
  }

  // ----- the registry does not grow with the topics clients choose -----

  lemma NoDropPendingNoDeadEntry(steps: seq<Step>)
    requires Run(EMPTY, steps).dropping == map[]
    ensures forall t :: t in Run(EMPTY, steps).channels ==> Watched(Run(EMPTY, steps), t)
  {
    EveryInterleavingKeeps(steps);
    var s := Run(EMPTY, steps);
    forall t | t in s.channels ensures Watched(s, t) {
      assert !Unwatched(s, t);
    }
  }

  function Image(f: map<nat, Topic>): set<Topic> { set r | r in f :: f[r] }
  function ReadTopics(s: State): map<nat, Topic> { map r | r in s.readers :: s.readers[r].topic }
  function TopicsRead(s: State): set<Topic> { Image(ReadTopics(s)) }
  function TopicsDropping(s: State): set<Topic> { Image(s.dropping) }

  lemma {:induction false} ImageIsNoLarger(f: map<nat, Topic>)
    ensures |Image(f)| <= |f|
    decreases |f|
  {
    if r :| r in f {
      var rest := f - {r};
      assert rest.Keys == f.Keys - {r} && |rest| == |rest.Keys| && |f| == |f.Keys|;
      ImageIsNoLarger(rest);
      assert Image(f) == Image(rest) + {f[r]};
    }
  }

  lemma EntriesAreReadOrDropping(s: State)
    requires Inv(s)
    ensures s.channels.Keys <= TopicsRead(s) + TopicsDropping(s)
  {
    forall t | t in s.channels ensures t in TopicsRead(s) + TopicsDropping(s) {
      if Unwatched(s, t) {
        var r :| r in s.dropping && s.dropping[r] == t;
      } else {
        var r :| r in ReadersOf(s, s.channels[t]);
        assert r in ReadTopics(s) && ReadTopics(s)[r] == t;
      }
    }
  }

  /** At every moment there are at most as many entries as readers alive or on their way out. */
  lemma RegistryIsBounded(steps: seq<Step>)
    ensures |Run(EMPTY, steps).channels| <= |Run(EMPTY, steps).readers| + |Run(EMPTY, steps).dropping|
  {
    EveryInterleavingKeeps(steps);
    EntriesAreReadOrDropping(Run(EMPTY, steps));
    CountEntries(Run(EMPTY, steps));
  }

  lemma CountEntries(s: State)
    requires s.channels.Keys <= TopicsRead(s) + TopicsDropping(s)
    ensures |s.channels| <= |s.readers| + |s.dropping|
  {
    ImageIsNoLarger(ReadTopics(s));
    ImageIsNoLarger(s.dropping);
    SameKeysSameSize(ReadTopics(s), s.readers);
    EntriesBounded(s.channels, TopicsRead(s), TopicsDropping(s));
  }

  lemma SameKeysSameSize<K, V, W>(f: map<K, V>, g: map<K, W>)
    requires f.Keys == g.Keys
    ensures |f| == |g|
  {
    assert |f| == |f.Keys| && |g| == |g.Keys|;
  }

  lemma EntriesBounded<K, V>(f: map<K, V>, a: set<K>, b: set<K>)
    requires f.Keys <= a + b
    ensures |f| <= |a| + |b|
  {
    SubsetIsNoLarger(f.Keys, a + b);
    assert |f| == |f.Keys|;
  }

  // ----- why `live` counts again -----

  lemma FilterHas(s: State, topics: seq<Topic>, watched: bool)
    ensures forall t :: t in Filter(s, topics, watched) <==>
        t in topics && (if watched then Watched(s, t) else Unwatched(s, t))
  {
    if topics != [] {
      FilterHas(s, topics[..|topics| - 1], watched);
      assert topics == topics[..|topics| - 1] + [topics[|topics| - 1]];
    }
  }

  predicate LeavesCall(steps: seq<Step>, c: nat) {
    forall a :: a in steps ==> a != EvictDead(c) && !(a.ScanLive? && a.call == c)
  }

  lemma {:induction false} ScanIsKept(s: State, steps: seq<Step>, c: nat)
    requires c in s.scans && LeavesCall(steps, c)
    ensures c in Run(s, steps).scans && Run(s, steps).scans[c] == s.scans[c]
  {
    if steps != [] {
      var init, last := steps[..|steps| - 1], steps[|steps| - 1];
      assert steps == init + [last];
      ScanIsKept(s, init, c);
    }
  }

  /** `live` from its first phase to its second, whatever runs in between: it removes exactly the topics it was
      asked about that were unread at both counts, and touches nothing else of the registry. */
  lemma EvictionNeedsBothCounts(s: State, c: nat, topics: seq<Topic>, meanwhile: seq<Step>, t: Topic)
    requires LeavesCall(meanwhile, c)
    ensures var v := Run(Do(s, ScanLive(c, topics)), meanwhile);
            var after := Do(v, EvictDead(c));
            (t in v.channels && t !in after.channels <==> t in topics && Unwatched(s, t) && Unwatched(v, t))
            && (t in after.channels ==> t in v.channels && after.channels[t] == v.channels[t])
            && after.readers == v.readers && after.dropping == v.dropping
  {
    ScanIsKept(Do(s, ScanLive(c, topics)), meanwhile, c);
    FilterHas(s, topics, false);
  }

  /** Between its phases a topic `live` found dead can come back to life under the same sender, so
      the first phase's verdict alone would cut a reader off. */
  lemma AScannedTopicCanRevive(t: Topic) returns (steps: seq<Step>)
    ensures var s := Run(EMPTY, steps);
            0 in s.scans && t in s.scans[0] && Watched(s, t) && Watched(Do(s, EvictDead(0)), t)
  {
    var a, b, c, d := Subscribe(0, t), Release(0), ScanLive(0, [t]), Subscribe(1, t);
    steps := [a, b, c, d];
    RunSplits(EMPTY, [a, b, c], [d]);
    RunSplits(EMPTY, [a, b], [c]);
    RunSplits(EMPTY, [a], [b]);
    assert [a, b, c, d] == [a, b, c] + [d] && [a, b, c] == [a, b] + [c] && [a, b] == [a] + [b];
    var s3 := Run(EMPTY, [a, b]);
    assert Unwatched(s3, t);
    FilterHas(s3, [t], false);
    var s := Run(EMPTY, steps);
    assert 1 in ReadersOf(s, s.channels[t]);
    assert 1 in ReadersOf(Do(s, EvictDead(0)), s.channels[t]);
  }

  // ----- the registry as the object it is -----

  class Registry {
    var channels: map<Topic, nat>
    var nextSender: nat
    var readers: map<nat, Reader>
    var dropping: map<nat, Topic>

    constructor ()
      ensures Now(map[]) == EMPTY
    {
      channels, nextSender, readers, dropping := map[], 0, map[], map[];
    }

    ghost function Now(scans: map<nat, seq<Topic>>): State
      reads this
    {
      State(channels, nextSender, readers, dropping, scans)
    }

    predicate NoReader(t: Topic)
      reads this
    {
      t in channels && forall r :: r in readers ==> readers[r].sender != channels[t]
    }

    /** The first phase of `live`, under the read lock. */
    method Scan(topics: seq<Topic>) returns (live: seq<Topic>, dead: seq<Topic>)
      ensures live == Filter(Now(map[]), topics, true)
      ensures dead == Filter(Now(map[]), topics, false)
    {
      live, dead := [], [];
      for i := 0 to |topics|
        invariant live == Filter(Now(map[]), topics[..i], true)
        invariant dead == Filter(Now(map[]), topics[..i], false)
      {
        var t := topics[i];
        assert topics[..i + 1][..i] == topics[..i];
        assert t in channels ==> (NoReader(t) <==> ReadersOf(Now(map[]), channels[t]) == {}) by {
          if t in channels && !NoReader(t) {
            var r :| r in readers && readers[r].sender == channels[t];
            assert r in ReadersOf(Now(map[]), channels[t]);
          }
        }
        if t in channels {
          if NoReader(t) { dead := dead + [t]; } else { live := live + [t]; }
        }
      }
      assert topics[..|topics|] == topics;
    }

    /** The second phase, under the write lock, counting again. */
    method Evict(dead: seq<Topic>)
      modifies this`channels
      ensures channels == Evicted(old(Now(map[])), Topics(dead))
    {
      ghost var was := Now(map[]);
      for i := 0 to |dead|
        invariant channels == Evicted(was, Topics(dead[..i])) && readers == was.readers
      {
        var t := dead[i];
        assert Topics(dead[..i + 1]) == Topics(dead[..i]) + {t};
        if t in channels {
          assert channels[t] == was.channels[t];
          if !NoReader(t) {
            var r :| r in readers && readers[r].sender == channels[t];
            assert r in ReadersOf(was, was.channels[t]);
          } else {
            assert ReadersOf(was, was.channels[t]) == {};
          }
        }
        if NoReader(t) { channels := channels - {t}; }
      }
      assert dead[..|dead|] == dead;
    }

    /** `live` with nothing in between. */
    method Live(topics: seq<Topic>) returns (live: seq<Topic>)
      modifies this`channels
      ensures forall t :: t in live <==> t in topics && Watched(old(Now(map[])), t)
      ensures forall t :: t in channels <==> t in old(channels) && !(t in topics && Unwatched(old(Now(map[])), t))
      ensures forall t :: t in channels ==> channels[t] == old(channels)[t]
    {
      var dead;
      live, dead := Scan(topics);
      FilterHas(Now(map[]), topics, true);
      FilterHas(Now(map[]), topics, false);
      if dead != [] { Evict(dead); }
    }

    method Subscribe(r: nat, t: Topic)
      requires r !in readers && r !in dropping
      modifies this
      ensures forall scans :: Now(scans) == Do(old(Now(scans)), Step.Subscribe(r, t))
    {
      if t !in channels {
        channels := channels[t := nextSender];
        nextSender := nextSender + 1;
      }
      readers := readers[r := NewReader(t, channels[t])];
    }

    method Publish(e: Event)
      modifies this`readers
      ensures forall scans :: Now(scans) == Do(old(Now(scans)), Step.Publish(e))
    {
      if e.topic in channels {
        readers := map r | r in readers ::
          if readers[r].sender == channels[e.topic] then readers[r].(sent := readers[r].sent + [e]) else readers[r];
      }
    }

    /** `recv` without waiting: an event, or how many were lost, or nothing yet. */
    method Receive(r: nat) returns (event: Option<Event>, lagged: nat)
      requires r in readers && readers[r].next <= |readers[r].sent|
      modifies this`readers
      ensures forall scans :: Now(scans) == Do(old(Now(scans)), Step.Receive(r))
      ensures lagged == if Lagging(old(readers)[r]) then |old(readers)[r].sent| - CAPACITY - old(readers)[r].next else 0
      ensures event ==
          (var was := old(readers)[r]; if lagged == 0 && was.next < |was.sent| then Some(was.sent[was.next]) else None)
    {
      var was := readers[r];
      event, lagged := None, 0;
      if Lagging(was) {
        lagged := |was.sent| - CAPACITY - was.next;
      } else if was.next < |was.sent| {
        event := Some(was.sent[was.next]);
      }
      readers := readers[r := Taken(was)];
    }

    /** `Drop` up to the lock: the inner receiver goes first, so what is counted later is who remains. */
    method Release(r: nat)
      requires r in readers
      modifies this
      ensures forall scans :: Now(scans) == Do(old(Now(scans)), Step.Release(r))
    {
      dropping := dropping[r := readers[r].topic];
      readers := readers - {r};
    }

    /** `Drop` under the lock. */
    method FinishDrop(r: nat)
      requires r in dropping
      modifies this
      ensures forall scans :: Now(scans) == Do(old(Now(scans)), Step.FinishDrop(r))
    {
      ghost var was := Now(map[]);
      var t := dropping[r];
      assert t in channels ==> (NoReader(t) <==> Unwatched(was, t)) by {
        if t in channels && !NoReader(t) {
          var x :| x in readers && readers[x].sender == channels[t];
          assert x in ReadersOf(was, was.channels[t]);
        }
      }
      if NoReader(t) { channels := channels - {t}; }
      dropping := dropping - {r};
      assert channels == Evicted(was, {t});
      assert forall scans :: Evicted(was.(scans := scans), {t}) == Evicted(was, {t});
    }
  }
}
