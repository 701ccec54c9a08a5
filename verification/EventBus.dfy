// The event bus: a bounded ring of the latest events and one cursor per subscriber.
module EventBus {
  import opened Prelude

  datatype Event = Event(id: nat, kind: string, ts: int, data: string)

  datatype Ring = Ring(events: seq<Event>, nextId: nat)

  const CAPACITY := 1000

  function EmptyRing(): Ring {
    Ring([], 1)
  }

  function PublishTo(r: Ring, kind: string, ts: int, data: string): Ring {
    Ring(LastN(r.events + [Event(r.nextId, kind, ts, data)], CAPACITY), r.nextId + 1)
  }

  // The first event whose id is at least `cursor`.
  function FirstFrom(events: seq<Event>, cursor: nat): Option<Event> {
    if events == [] then None
    else if events[0].id >= cursor then Some(events[0])
    else FirstFrom(events[1..], cursor)
  }

  // What a subscriber gets once it stops waiting, and where its cursor stands then.
  function Take(r: Ring, cursor: nat): (Option<Event>, nat) {
    if r.events == [] then (None, cursor)
    else
      var from := if cursor < r.events[0].id then r.events[0].id else cursor;
      match FirstFrom(r.events, from)
      case Some(e) => (Some(e), e.id + 1)
      case None => (None, from)
  }

  // ------------------------------------------------------------------
  // Any number of subscribers, in any interleaving

  // What became of one published event, from the point of view of one subscriber.
  datatype Fate = Delivered(event: Event) | Lost(event: Event)

  // `log` is everything ever published; `start` and `fates` observe each subscriber.
  datatype Sys = Sys(
    ring: Ring,
    cursors: map<nat, nat>,
    log: seq<Event>,
    start: map<nat, nat>,
    fates: map<nat, seq<Fate>>)

  datatype Step = Publish(kind: string, ts: int, data: string) | Subscribe(who: nat) | Wait(who: nat)

  function Initial(): Sys {
    Sys(EmptyRing(), map[], [], map[], map[])
  }

  function AllLost(events: seq<Event>): seq<Fate> {
    seq(|events|, i requires 0 <= i < |events| => Lost(events[i]))
  }

  // The published events in [cursor, oldest): gone from the ring before they were asked for.
  function Evicted(log: seq<Event>, ring: Ring, cursor: nat): seq<Event> {
    if ring.events != [] && 1 <= cursor < ring.events[0].id <= |log| then log[cursor - 1..ring.events[0].id - 1] else []
  }

  function Apply(s: Sys, step: Step): Sys {
    match step
    case Publish(kind, ts, data) =>
      s.(ring := PublishTo(s.ring, kind, ts, data), log := s.log + [Event(s.ring.nextId, kind, ts, data)])
    case Subscribe(who) =>
      if who in s.cursors then s
      else
        s.(cursors := s.cursors[who := s.ring.nextId], start := s.start[who := s.ring.nextId],
           fates := s.fates[who := []])
    case Wait(who) =>
      if who !in s.cursors then s
      else
        var (got, cursor) := Take(s.ring, s.cursors[who]);
        var lost := AllLost(Evicted(s.log, s.ring, s.cursors[who]));
        s.(cursors := s.cursors[who := cursor],
           fates := s.fates[who := GetOr(s.fates, who, []) + (lost + if got.Some? then [Delivered(got.value)] else [])])
  }

  function Run(steps: seq<Step>): Sys {
    if steps == [] then Initial()
    else Apply(Run(steps[..|steps| - 1]), steps[|steps| - 1])
  }

  // ------------------------------------------------------------------
  // The invariant

  // The ring is the tail of the log, and event number i carries id i + 1.
  ghost predicate RingOk(s: Sys) {
    && s.ring.nextId == |s.log| + 1
    && (forall i :: 0 <= i < |s.log| ==> s.log[i].id == i + 1)
    && s.ring.events == LastN(s.log, 1000)
  }

  function EventOf(f: Fate): Event {
    f.event
  }

  function EventsOf(fates: seq<Fate>): seq<Event> {
    seq(|fates|, i requires 0 <= i < |fates| => EventOf(fates[i]))
  }

  // Delivered and lost together are exactly the events since the subscription, in order.
  ghost predicate SubscriberOk(s: Sys, who: nat)
    requires who in s.cursors
  {
    && who in s.start && who in s.fates
    && 1 <= s.start[who] <= s.cursors[who] <= s.ring.nextId == |s.log| + 1
    && EventsOf(s.fates[who]) == s.log[s.start[who] - 1..s.cursors[who] - 1]
  }

  ghost predicate Inv(s: Sys) {
    RingOk(s) && forall who :: who in s.cursors ==> SubscriberOk(s, who)
  }

  // ------------------------------------------------------------------
  // One wait

  lemma {:induction false} FirstFromTail(log: seq<Event>, from: nat, cursor: nat)
    requires forall i :: 0 <= i < |log| ==> log[i].id == i + 1
    requires from <= |log| && from + 1 <= cursor
    ensures FirstFrom(log[from..], cursor) == if cursor <= |log| then Some(log[cursor - 1]) else None
    decreases |log| - from
  {
    if from < |log| {
      var tail := log[from..];
      assert tail[0] == log[from];
      if from + 1 < cursor {
        assert tail[1..] == log[from + 1..];
        FirstFromTail(log, from + 1, cursor);
      }
    }
  }

  function Oldest(log: seq<Event>): nat {
    if |log| <= 1000 then 1 else |log| - 999
  }

  // Where a wait looks: the cursor, or the oldest event still in the ring.
  function LookFrom(log: seq<Event>, cursor: nat): nat {
    if cursor < Oldest(log) then Oldest(log) else cursor
  }

  lemma RingFront(s: Sys)
    requires RingOk(s) && s.log != []
    ensures s.ring.events == s.log[Oldest(s.log) - 1..]
    ensures s.ring.events != [] && s.ring.events[0].id == Oldest(s.log)
  {
    assert s.ring.events[0] == s.log[Oldest(s.log) - 1];
  }

  // A wait hands over the oldest event that is neither consumed nor evicted; it comes
  // back with nothing only when the subscriber has caught up.
  lemma TakeMeaning(s: Sys, cursor: nat)
    requires RingOk(s) && 1 <= cursor <= s.ring.nextId
    ensures
      var from := LookFrom(s.log, cursor);
      && Take(s.ring, cursor) == (if from <= |s.log| then (Some(s.log[from - 1]), from + 1) else (None, cursor))
      && (from <= |s.log| || cursor == s.ring.nextId)
  {
    if s.log != [] {
      RingFront(s);
      FirstFromTail(s.log, Oldest(s.log) - 1, LookFrom(s.log, cursor));
      TakeIs(s.ring, cursor, LookFrom(s.log, cursor), FirstFrom(s.ring.events, LookFrom(s.log, cursor)));
    }
  }

  lemma TakeIs(r: Ring, cursor: nat, from: nat, found: Option<Event>)
    requires r.events != [] && from == if cursor < r.events[0].id then r.events[0].id else cursor
    requires found == FirstFrom(r.events, from)
    ensures Take(r, cursor) == if found.Some? then (found, found.value.id + 1) else (None, from)
  {
  }

  lemma EvictedMeaning(s: Sys, cursor: nat)
    requires RingOk(s) && 1 <= cursor <= s.ring.nextId
    ensures Evicted(s.log, s.ring, cursor) == s.log[cursor - 1..LookFrom(s.log, cursor) - 1]
  {
    RingStart(s);
    EvictedBefore(s.log, s.ring, cursor);
  }

  // The front of the ring, without its contents.
  ghost predicate StartsAtOldest(log: seq<Event>, ring: Ring) {
    if log == [] then ring.events == [] else ring.events != [] && ring.events[0].id == Oldest(log) <= |log|
  }

  lemma RingStart(s: Sys)
    requires RingOk(s)
    ensures StartsAtOldest(s.log, s.ring)
  {
    if s.log != [] {
      RingFront(s);
    }
  }

  lemma EvictedBefore(log: seq<Event>, ring: Ring, cursor: nat)
    requires StartsAtOldest(log, ring) && 1 <= cursor <= |log| + 1
    ensures Evicted(log, ring, cursor) == log[cursor - 1..LookFrom(log, cursor) - 1]
  {
    if log == [] || Oldest(log) <= cursor {
      EmptySlice(log, cursor - 1);
    }
  }

  lemma EmptySlice(log: seq<Event>, k: nat)
    requires k <= |log|
    ensures log[k..k] == []
  {
  }

  // What one wait adds to the fates of its subscriber.
  function NewFates(log: seq<Event>, cursor: nat): seq<Fate>
    requires 1 <= cursor <= |log| + 1
  {
    var from := LookFrom(log, cursor);
    AllLost(log[cursor - 1..from - 1]) + if from <= |log| then [Delivered(log[from - 1])] else []
  }

  function NewCursor(log: seq<Event>, cursor: nat): nat {
    if LookFrom(log, cursor) <= |log| then LookFrom(log, cursor) + 1 else cursor
  }

  // The state after `who` waited, told by the log alone.
  function Waited(s: Sys, who: nat): Sys
    requires who in s.cursors && 1 <= s.cursors[who] <= |s.log| + 1
  {
    s.(cursors := s.cursors[who := NewCursor(s.log, s.cursors[who])],
       fates := s.fates[who := GetOr(s.fates, who, []) + NewFates(s.log, s.cursors[who])])
  }

  lemma WaitMeaning(s: Sys, who: nat)
    requires RingOk(s) && who in s.cursors && 1 <= s.cursors[who] <= s.ring.nextId
    ensures Apply(s, Wait(who)) == Waited(s, who)
  {
    TakeMeaning(s, s.cursors[who]);
    EvictedMeaning(s, s.cursors[who]);
  }

  lemma NewFatesCover(log: seq<Event>, cursor: nat)
    requires 1 <= cursor <= |log| + 1
    ensures cursor <= NewCursor(log, cursor) <= |log| + 1
    ensures EventsOf(NewFates(log, cursor)) == log[cursor - 1..NewCursor(log, cursor) - 1]
  {
  }

  lemma EventsOfConcat(a: seq<Fate>, b: seq<Fate>)
    ensures EventsOf(a + b) == EventsOf(a) + EventsOf(b)
  {
  }

  lemma WaitKeepsInv(s: Sys, who: nat)
    requires Inv(s) && who in s.cursors
    ensures Inv(Apply(s, Wait(who)))
  {
    assert SubscriberOk(s, who);
    WaitMeaning(s, who);
    WaitedKeepsInv(s, who);
  }

  lemma WaitedKeepsInv(s: Sys, who: nat)
    requires Inv(s) && who in s.cursors && SubscriberOk(s, who)
    ensures Inv(Waited(s, who))
  {
    WaitExtends(s.log, s.start[who], s.cursors[who], s.fates[who]);
    forall k | k in s.cursors
      ensures SubscriberOk(Waited(s, who), k)
    {
      assert SubscriberOk(s, k);
    }
  }

  // The fates of one subscriber after a wait cover the log up to its new cursor.
  lemma WaitExtends(log: seq<Event>, start: nat, cursor: nat, fates: seq<Fate>)
    requires 1 <= start <= cursor <= |log| + 1
    requires EventsOf(fates) == log[start - 1..cursor - 1]
    ensures start <= NewCursor(log, cursor) <= |log| + 1
    ensures EventsOf(fates + NewFates(log, cursor)) == log[start - 1..NewCursor(log, cursor) - 1]
  {
    NewFatesCover(log, cursor);
    EventsOfConcat(fates, NewFates(log, cursor));
    SlicesMeet(log, start - 1, cursor - 1, NewCursor(log, cursor) - 1);
  }

  lemma SlicesMeet(log: seq<Event>, a: nat, b: nat, c: nat)
    requires a <= b <= c <= |log|
    ensures log[a..b] + log[b..c] == log[a..c]
  {
  }

  lemma PublishKeepsInv(s: Sys, kind: string, ts: int, data: string)
    requires Inv(s)
    ensures Inv(Apply(s, Publish(kind, ts, data)))
  {
    var s' := Apply(s, Publish(kind, ts, data));
    assert s'.ring.events == LastN(s'.log, 1000);
    forall k | k in s'.cursors
      ensures SubscriberOk(s', k)
    {
      assert SubscriberOk(s, k);
      assert s'.log[s.start[k] - 1..s.cursors[k] - 1] == s.log[s.start[k] - 1..s.cursors[k] - 1];
    }
  }

  // Main result 1. Over any interleaving of publishers and subscribers, what each
  // subscriber has received or lost so far is exactly the stretch of the log from its
  // subscription to its cursor, every event once and in id order.
  lemma {:induction false} EveryRunKeepsInv(steps: seq<Step>)
    ensures Inv(Run(steps))
  {
    if steps != [] {
      var before, step := Run(steps[..|steps| - 1]), steps[|steps| - 1];
      EveryRunKeepsInv(steps[..|steps| - 1]);
      match step
      case Publish(kind, ts, data) => PublishKeepsInv(before, kind, ts, data);
      case Wait(who) => if who in before.cursors { WaitKeepsInv(before, who); }
      case Subscribe(who) =>
        if who !in before.cursors {
          var after := Apply(before, step);
          forall k | k in after.cursors
            ensures SubscriberOk(after, k)
          {
            if k != who {
              assert SubscriberOk(before, k);
            }
          }
        }
    }
  }

  // The same, event by event: entry number i of a subscriber's fates is the event with id
  // start + i, so ids strictly increase, none is skipped, none comes twice; and nothing
  // published since the subscription is pending once the cursor has reached the end.
  ghost predicate Exact(log: seq<Event>, fates: seq<Fate>, start: nat, cursor: nat) {
    && 1 <= start <= |log| + 1 && start + |fates| == cursor
    && (forall i :: 0 <= i < |fates| ==>
          start - 1 + i < |log| && EventOf(fates[i]) == log[start - 1 + i] && EventOf(fates[i]).id == start + i)
    && (cursor == |log| + 1 ==> EventsOf(fates) == log[start - 1..])
  }

  lemma DeliveryIsExact(steps: seq<Step>, who: nat)
    requires who in Run(steps).cursors
    ensures
      var s := Run(steps);
      who in s.start && who in s.fates && s.ring.nextId == |s.log| + 1 &&
          Exact(s.log, s.fates[who], s.start[who], s.cursors[who])
  {
    EveryRunKeepsInv(steps);
    SubscriberIsExact(Run(steps), who);
  }

  lemma SubscriberIsExact(s: Sys, who: nat)
    requires Inv(s) && who in s.cursors
    ensures who in s.start && who in s.fates && s.ring.nextId == |s.log| + 1
    ensures Exact(s.log, s.fates[who], s.start[who], s.cursors[who])
  {
    assert SubscriberOk(s, who);
    FatesAreSlice(s.log, s.fates[who], s.start[who], s.cursors[who]);
  }

  lemma FatesAreSlice(log: seq<Event>, fates: seq<Fate>, start: nat, cursor: nat)
    requires 1 <= start <= cursor <= |log| + 1
    requires EventsOf(fates) == log[start - 1..cursor - 1]
    requires forall i :: 0 <= i < |log| ==> log[i].id == i + 1
    ensures Exact(log, fates, start, cursor)
  {
    assert |EventsOf(fates)| == |fates|;
    forall i | 0 <= i < |fates|
      ensures EventOf(fates[i]) == log[start - 1 + i] && EventOf(fates[i]).id == start + i
    {
      assert EventsOf(fates)[i] == EventOf(fates[i]);
    }
  }

  // Main result 2. A wait loses only events the ring no longer holds, keeps what was
  // recorded before, and delivers at most one event, which the ring does hold.
  lemma WaitLosesOnlyEvicted(steps: seq<Step>, who: nat)
    requires who in Run(steps).cursors
    ensures
      var s, s' := Run(steps), Run(steps + [Wait(who)]);
      && who in s.fates && who in s'.fates && s.fates[who] <= s'.fates[who]
      && forall i :: |s.fates[who]| <= i < |s'.fates[who]| ==>
        if s'.fates[who][i].Lost? then EventOf(s'.fates[who][i]) !in s.ring.events
        else i == |s'.fates[who]| - 1 && EventOf(s'.fates[who][i]) in s.ring.events
  {
    var s := Run(steps);
    assert (steps + [Wait(who)])[..|steps|] == steps;
    EveryRunKeepsInv(steps);
    assert SubscriberOk(s, who);
    WaitMeaning(s, who);
    var cursor := s.cursors[who];
    var added := NewFates(s.log, cursor);
    forall i | 0 <= i < |added|
      ensures added[i].Lost? ==> added[i].event !in s.ring.events
      ensures added[i].Delivered? ==> i == |added| - 1 && added[i].event in s.ring.events
    {
      NewFateInRing(s, cursor, i);
    }
  }

  lemma NewFateInRing(s: Sys, cursor: nat, i: nat)
    requires RingOk(s) && 1 <= cursor <= s.ring.nextId
    requires i < |NewFates(s.log, cursor)|
    ensures var f := NewFates(s.log, cursor)[i];
      if f.Lost? then f.event !in s.ring.events else i == |NewFates(s.log, cursor)| - 1 && f.event in s.ring.events
  {
    var f := NewFates(s.log, cursor)[i];
    if s.log != [] {
      RingFront(s);
      var from := LookFrom(s.log, cursor);
      if i < from - cursor {
        assert f == Lost(s.log[cursor - 1..from - 1][i]);
        assert f.event.id == cursor + i;
      } else {
        assert s.ring.events[from - Oldest(s.log)] == s.log[from - 1];
      }
    }
  }

  // ------------------------------------------------------------------
  // A subscriber that keeps up

  // Whenever `who` waits, it is at most as many events behind as the ring holds.
  ghost predicate KeepsUp(steps: seq<Step>, who: nat) {
    forall i :: 0 <= i < |steps| && steps[i] == Wait(who) && who in Run(steps[..i]).cursors ==>
      Run(steps[..i]).ring.nextId - Run(steps[..i]).cursors[who] <= 1000
  }

  ghost predicate NoneLost(fates: seq<Fate>) {
    forall i :: 0 <= i < |fates| ==> fates[i].Delivered?
  }

  // Main result 3. A subscriber that never lags by more than the ring's 1000 events loses nothing.
  lemma {:induction false} KeepingUpLosesNothing(steps: seq<Step>, who: nat)
    requires KeepsUp(steps, who)
    requires who in Run(steps).cursors
    ensures who in Run(steps).fates && NoneLost(Run(steps).fates[who])
  {
    var n := |steps| - 1;
    EveryRunKeepsInv(steps[..n]);
    KeepsUpSoFar(steps, who);
    if who in Run(steps[..n]).cursors {
      KeepingUpLosesNothing(steps[..n], who);
    }
    StepLosesNothing(Run(steps[..n]), steps[n], who);
  }

  lemma StepLosesNothing(s: Sys, step: Step, who: nat)
    requires Inv(s) && who in Apply(s, step).cursors
    requires who in s.cursors ==> who in s.fates && NoneLost(s.fates[who])
    requires step == Wait(who) && who in s.cursors ==> s.ring.nextId - s.cursors[who] <= 1000
    ensures who in Apply(s, step).fates && NoneLost(Apply(s, step).fates[who])
  {
    if step == Wait(who) {
      assert SubscriberOk(s, who);
      WaitInTimeLosesNothing(s, who);
    }
  }

  lemma KeepsUpSoFar(steps: seq<Step>, who: nat)
    requires KeepsUp(steps, who) && steps != []
    ensures KeepsUp(steps[..|steps| - 1], who)
    ensures
      var before := Run(steps[..|steps| - 1]);
      steps[|steps| - 1] == Wait(who) && who in before.cursors ==> before.ring.nextId - before.cursors[who] <= 1000
  {
    assert forall i :: 0 <= i < |steps| - 1 ==> steps[..|steps| - 1][..i] == steps[..i];
  }

  lemma WaitInTimeLosesNothing(s: Sys, who: nat)
    requires RingOk(s) && who in s.cursors && SubscriberOk(s, who)
    requires s.ring.nextId - s.cursors[who] <= 1000
    requires NoneLost(s.fates[who])
    ensures who in Apply(s, Wait(who)).fates && NoneLost(Apply(s, Wait(who)).fates[who])
  {
    WaitMeaning(s, who);
    assert LookFrom(s.log, s.cursors[who]) == s.cursors[who];
  }

  // A subscriber that lags by even one event more when it waits does lose one.
  lemma LaggingLoses(s: Sys, who: nat)
    requires Inv(s) && who in s.cursors
    requires s.ring.nextId - s.cursors[who] > 1000
    ensures who in Apply(s, Wait(who)).fates && !NoneLost(Apply(s, Wait(who)).fates[who])
  {
    assert SubscriberOk(s, who);
    WaitMeaning(s, who);
    assert Apply(s, Wait(who)).fates[who][|s.fates[who]|] == NewFates(s.log, s.cursors[who])[0];
  }

  // ------------------------------------------------------------------
  // The objects

  // Where the first event stands that is neither older than the cursor nor than the ring.
  ghost predicate FirstAt(events: seq<Event>, cursor: nat, i: int) {
    && 0 <= i < |events| && events[i].id >= cursor && events[i].id >= events[0].id
    && forall k :: 0 <= k < i ==> events[k].id < cursor || events[k].id < events[0].id
  }

  class Bus {
    var events: seq<Event>
    var nextId: nat

    function View(): Ring
      reads this
    {
      Ring(events, nextId)
    }

    constructor ()
      ensures View() == EmptyRing()
    {
      events := [];
      nextId := 1;
    }

    method Publish(kind: string, ts: int, data: string)
      modifies this
      ensures View() == PublishTo(old(View()), kind, ts, data)
      // the new event comes last under the next number, and the newest thousand stay
      ensures nextId == old(nextId) + 1
      ensures events != [] && events[|events| - 1] == Event(old(nextId), kind, ts, data)
      ensures |events| == if |old(events)| < 1000 then |old(events)| + 1 else 1000
      ensures events[..|events| - 1] == old(events)[|old(events)| - (|events| - 1)..]
    {
      var event := Event(nextId, kind, ts, data);
      nextId := nextId + 1;
      events := events + [event];
      if |events| > CAPACITY {
        events := events[|events| - CAPACITY..];
      }
    }

    // The locked part of waitNext after the condition variable let go.
    method WaitNext(cursor: nat) returns (event: Option<Event>, next: nat)
      ensures (event, next) == Take(View(), cursor)
      // the first event from the cursor on, and the number after it; otherwise all events
      // are older, and the cursor skips what the ring no longer holds
      ensures event.Some? ==> (exists i :: FirstAt(events, cursor, i) && event.value == events[i])
      ensures event.Some? ==> next == event.value.id + 1
      ensures event.None? ==> forall i :: 0 <= i < |events| ==> events[i].id < next
      ensures event.None? ==> next == if events != [] && cursor < events[0].id then events[0].id else cursor
    {
      next := cursor;
      if events == [] {
        return None, next;
      }
      if next < events[0].id {
        next := events[0].id;
      }
      for i := 0 to |events|
        invariant FirstFrom(events, next) == FirstFrom(events[i..], next)
        invariant forall k :: 0 <= k < i ==> events[k].id < next
      {
        if events[i].id >= next {
          assert FirstAt(events, cursor, i);
          return Some(events[i]), events[i].id + 1;
        }
        assert events[i..][1..] == events[i + 1..];
      }
      return None, next;
    }
  }

  class Subscriber {
    const bus: Bus
    var cursor: nat

    // subscribe()
    constructor (bus: Bus)
      ensures this.bus == bus && cursor == bus.nextId
    {
      this.bus := bus;
      cursor := bus.nextId;
    }

    method WaitNext() returns (event: Option<Event>)
      modifies this
      ensures (event, cursor) == Take(bus.View(), old(cursor))
    {
      event, cursor := bus.WaitNext(cursor);
    }
  }
}
