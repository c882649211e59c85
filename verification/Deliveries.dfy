/** The queue of notifications over whole runs (src/notify.rs): a step relation in which events are raised,
    batches are taken, messages are sent and then recorded, destinations are deleted, old events are
    thinned out, and the process is started again, in any order and with any answers. */
module Deliveries {
  import opened Notify
  import opened Options

  // ------------------------------------------------------------------ the queue

  datatype Stored = Stored(event: Event, historic: bool, createdAt: int)

  /** `sending` is the answer to the last message of the log, until it has been recorded. `raised`,
      `restarts`, `cut` and `begun` are histories: every row there ever was with the event and destination it
      was for, every start of a new process, which messages were never recorded because of one, and how many
      were sent before the last. */
  datatype State = State(
    events: map<int, Stored>,
    nextEvent: int,
    deliveries: map<Key, Delivery>,
    used: map<int, Slot>,
    inFlight: seq<Key>,
    sending: Option<Outcome>,
    clock: int,
    log: seq<Message>,
    raised: map<Key, Raised>,
    restarts: seq<int>,
    cut: set<nat>,
    begun: nat)

  const EMPTY: State := State(map[], 1, map[], map[], [], None, 0, [], map[], [], {}, 0)

  datatype Step =
    | Raise(e: Event, targets: seq<Target>, perms: map<string, Perms>, now: int)
    | Fetch(batch: seq<Key>, now: int)                     // the due rows of one pass
    | Send(alive: bool, outcome: Outcome, now: int)        // the next message of the pass
    | Record(now: int)                                     // and what came of it
    | DeleteTarget(target: int)
    | Thin(before: int)                                    // old events go, and their rows with them
    | Restart(now: int)

  function OwnerOf(t: Target, perms: map<string, Perms>): Option<Perms> {
    if t.owner.Some? && t.owner.value in perms then Some(perms[t.owner.value]) else None
  }

  /** How a row came to be: the event, the destination, its owner's permissions, and when. */
  datatype Raised = Raised(event: Event, target: Target, owner: Option<Perms>, now: int)

  /** The rows one event calls for, the first of any that share a key (`INSERT OR IGNORE`). */
  function Raisings(id: int, e: Event, targets: seq<Target>, perms: map<string, Perms>, now: int): map<Key, Raised> {
    if targets == [] then map[]
    else
      var t, before := targets[|targets| - 1], Raisings(id, e, targets[..|targets| - 1], perms, now);
      if WantedBy(t, e, OwnerOf(t, perms)) && Key(id, t.id) !in before
      then before[Key(id, t.id) := Raised(e, t, OwnerOf(t, perms), now)]
      else before
  }

  function QueuedFor(rows: map<Key, Delivery>, called: map<Key, Raised>, now: int): map<Key, Delivery> {
    (map key | key in called :: Delivery(Queued, 0, now, [])) + rows
  }

  predicate AnyoneWants(targets: seq<Target>, kind: Kind) {
    exists t :: t in targets && t.enabled && kind in t.wants
  }

  predicate IsKnown(events: map<int, Stored>, dedupe: string) {
    exists id :: id in events && events[id].event.dedupe == dedupe
  }

  predicate Historic(e: Event, now: int) {
    now - e.at > HISTORIC_S
  }

  function DoRaise(s: State, e: Event, targets: seq<Target>, perms: map<string, Perms>, now: int): State {
    if !AnyoneWants(targets, e.kind) || IsKnown(s.events, e.dedupe) then s.(clock := now)
    else
      var id := s.nextEvent;
      var called := if Historic(e, now) then map[] else Raisings(id, e, targets, perms, now);
      s.(events := s.events[id := Stored(e, Historic(e, now), now)],
         nextEvent := id + 1,
         deliveries := QueuedFor(s.deliveries, called, now),
         raised := called + s.raised,
         clock := now)
  }

  function WithoutTarget(rows: map<Key, Delivery>, target: int): map<Key, Delivery> {
    map key | key in rows && key.target != target :: rows[key]
  }

  function DoSend(s: State, alive: bool, outcome: Outcome, now: int): State
    requires s.inFlight != []
  {
    var key, rest := s.inFlight[0], s.inFlight[1..];
    if !alive then
      s.(deliveries := WithoutTarget(s.deliveries, key.target), inFlight := rest, clock := now)
    else if OverTheMinute(s.used, key.target, now) then
      s.(deliveries := if key in s.deliveries then s.deliveries[key := Deferred(s.deliveries[key], now)]
                       else s.deliveries,
         used := Charged(s.used, key.target, now), inFlight := rest, clock := now)
    else
      s.(used := Charged(s.used, key.target, now), inFlight := rest, sending := Some(outcome),
         log := s.log + [Message(key, now, outcome.Accepted?)], clock := now)
  }

  function DoRecord(s: State, now: int): State
    requires s.sending.Some? && s.log != []
  {
    var key := s.log[|s.log| - 1].key;
    s.(deliveries := if key in s.deliveries then s.deliveries[key := Recorded(s.deliveries[key], s.sending.value, now)]
                     else s.deliveries,
       sending := None, clock := now)
  }

  function DoRestart(s: State, now: int): State {
    s.(used := map[], inFlight := [], sending := None, restarts := s.restarts + [now], clock := now, begun := |s.log|,
       cut := if s.sending.Some? && s.log != [] then s.cut + {|s.log| - 1} else s.cut)
  }

  ghost predicate Distinct(keys: seq<Key>) {
    forall i, j :: 0 <= i < j < |keys| ==> keys[i] != keys[j]
  }

  ghost predicate Enabled(s: State, step: Step) {
    match step
    case Raise(_, _, _, now) => s.clock <= now
    case Fetch(batch, now) =>
      && s.inFlight == [] && s.sending.None? && s.clock <= now && Distinct(batch)
      && forall i :: 0 <= i < |batch| ==>
           batch[i] in s.deliveries && s.deliveries[batch[i]].phase == Queued && s.deliveries[batch[i]].nextAt <= now
    case Send(_, _, now) => s.inFlight != [] && s.sending.None? && s.clock <= now
    case Record(now) => s.sending.Some? && s.log != [] && s.clock <= now
    case DeleteTarget(_) => true
    case Thin(_) => s.inFlight == [] && s.sending.None?
    case Restart(now) => s.clock <= now
  }

  function Do(s: State, step: Step): State
    requires Enabled(s, step)
  {
    match step
    case Raise(e, targets, perms, now) => DoRaise(s, e, targets, perms, now)
    case Fetch(batch, now) => s.(inFlight := batch, clock := now)
    case Send(alive, outcome, now) => DoSend(s, alive, outcome, now)
    case Record(now) => DoRecord(s, now)
    case DeleteTarget(target) => s.(deliveries := WithoutTarget(s.deliveries, target))
    case Thin(before) =>
      s.(events := map id | id in s.events && s.events[id].createdAt >= before :: s.events[id],
         deliveries := map key |
                         key in s.deliveries && key.event in s.events && s.events[key.event].createdAt >= before ::
                         s.deliveries[key])
    case Restart(now) => DoRestart(s, now)
  }

  ghost function RunFrom(s: State, steps: seq<Step>): State {
    if steps == [] then s
    else
      var before := RunFrom(s, steps[..|steps| - 1]);
      if Enabled(before, steps[|steps| - 1]) then Do(before, steps[|steps| - 1]) else before
  }

  // ------------------------------------------------------------------ what every step keeps

  /** A row was called for: its destination wanted the event, which was news. */
  ghost predicate CalledFor(key: Key, r: Raised) {
    key.target == r.target.id && WantedBy(r.target, r.event, r.owner) && !Historic(r.event, r.now)
  }

  ghost predicate RaisedHold(raised: map<Key, Raised>, nextEvent: int, clock: int) {
    forall key :: key in raised ==> key.event < nextEvent && raised[key].now <= clock && CalledFor(key, raised[key])
  }

  /** A row there is was called for by the event it names. */
  ghost predicate RowHolds(s: State, key: Key)
    requires key in s.deliveries
  {
    && key in s.raised && key.event in s.events
    && s.events[key.event].event == s.raised[key].event && !s.events[key.event].historic
    && LadderHolds(s.deliveries[key])
  }

  ghost predicate EventsHold(s: State) {
    && (forall id :: id in s.events ==> id < s.nextEvent)
    && (forall a, b :: a in s.events && b in s.events && a != b ==>
         s.events[a].event.dedupe != s.events[b].event.dedupe)
  }

  ghost predicate IsQueued(rows: map<Key, Delivery>, key: Key) {
    key in rows ==> rows[key].phase == Queued
  }

  ghost predicate FlightHolds(s: State) {
    && Distinct(s.inFlight)
    && (forall i :: 0 <= i < |s.inFlight| ==> s.inFlight[i] in s.raised && IsQueued(s.deliveries, s.inFlight[i]))
  }

  /** The message being sent is the last of the log, and its row is still as it was fetched. */
  ghost predicate SendingHolds(s: State) {
    s.sending.Some? ==>
      && s.log != [] && s.log[|s.log| - 1].accepted == s.sending.value.Accepted?
      && s.log[|s.log| - 1].key !in s.inFlight && IsQueued(s.deliveries, s.log[|s.log| - 1].key)
      && |s.log| - 1 !in s.cut
  }

  predicate BeingSent(s: State, i: nat) {
    s.sending.Some? && i == |s.log| - 1
  }

  ghost predicate IsOver(s: State, key: Key) {
    key !in s.inFlight && (key in s.deliveries ==> s.deliveries[key].phase != Queued)
  }

  /** What was accepted is over, unless it is still being recorded or a restart came before it was. */
  ghost predicate AcceptedIsOver(s: State) {
    && (forall i :: i in s.cut ==> i < |s.log|)
    && (forall i :: 0 <= i < |s.log| ==> s.log[i].key in s.raised)
    && (forall i :: 0 <= i < |s.log| && s.log[i].accepted && i !in s.cut ==> BeingSent(s, i) || IsOver(s, s.log[i].key))
    && (forall i, j :: 0 <= i < j < |s.log| && s.log[i].accepted && i !in s.cut ==> s.log[j].key != s.log[i].key)
  }

  ghost predicate SentIsCounted(s: State) {
    s.begun <= |s.log| && SlotsCount(s.used, s.log[s.begun..], s.clock)
  }

  ghost predicate Inv(s: State) {
    && EventsHold(s)
    && RaisedHold(s.raised, s.nextEvent, s.clock)
    && (forall key :: key in s.deliveries ==> RowHolds(s, key))
    && FlightHolds(s)
    && SendingHolds(s)
    && MinuteHolds(s.used, s.log, s.restarts, s.clock)
    && SentIsCounted(s)
    && AcceptedIsOver(s)
  }

  lemma StartHolds()
    ensures Inv(EMPTY)
  {
  }

  lemma {:induction false} RaisingsMean(id: int, e: Event, targets: seq<Target>, perms: map<string, Perms>, now: int)
    ensures forall key :: key in Raisings(id, e, targets, perms, now) ==>
              var r := Raisings(id, e, targets, perms, now)[key];
              && key == Key(id, r.target.id) && r.target in targets
              && r == Raised(e, r.target, OwnerOf(r.target, perms), now)
              && WantedBy(r.target, e, r.owner)
  {
    hide WantedBy, OwnerOf;
    if targets != [] {
      RaisingsMean(id, e, targets[..|targets| - 1], perms, now);
    }
  }

  /** And everybody who wants it is called for. */
  lemma {:induction false} EverybodyWhoWantsItGetsIt(id: int, e: Event, targets: seq<Target>, perms: map<string, Perms>,
      now: int)
    ensures forall t :: t in targets && WantedBy(t, e, OwnerOf(t, perms)) ==>
              Key(id, t.id) in Raisings(id, e, targets, perms, now)
  {
    hide WantedBy, OwnerOf;
    if targets != [] {
      var front := targets[..|targets| - 1];
      EverybodyWhoWantsItGetsIt(id, e, front, perms, now);
      assert targets == front + [targets[|targets| - 1]];
    }
  }

  /** Of destinations that share a number the first that wants it is the one it is called for. */
  lemma {:induction false} TheFirstIsCalled(id: int, e: Event, targets: seq<Target>, perms: map<string, Perms>,
      now: int, i: nat)
    requires i < |targets| && WantedBy(targets[i], e, OwnerOf(targets[i], perms))
    requires forall j :: 0 <= j < i && targets[j].id == targets[i].id ==>
               !WantedBy(targets[j], e, OwnerOf(targets[j], perms))
    ensures var called, t := Raisings(id, e, targets, perms, now), targets[i];
            Key(id, t.id) in called && called[Key(id, t.id)] == Raised(e, t, OwnerOf(t, perms), now)
  {
    hide WantedBy, OwnerOf;
    var n := |targets| - 1;
    if i < n {
      TheFirstIsCalled(id, e, targets[..n], perms, now, i);
    } else {
      NobodyIsCalled(id, e, targets[..n], perms, now, targets[n].id);
    }
  }

  lemma {:induction false} NobodyIsCalled(id: int, e: Event, targets: seq<Target>, perms: map<string, Perms>, now: int,
      target: int)
    requires forall j :: 0 <= j < |targets| && targets[j].id == target ==>
               !WantedBy(targets[j], e, OwnerOf(targets[j], perms))
    ensures Key(id, target) !in Raisings(id, e, targets, perms, now)
  {
    hide WantedBy, OwnerOf;
    if targets != [] {
      NobodyIsCalled(id, e, targets[..|targets| - 1], perms, now, target);
    }
  }

  lemma QueuedForMeans(rows: map<Key, Delivery>, called: map<Key, Raised>, now: int)
    ensures var rows' := QueuedFor(rows, called, now);
            && (forall key :: key in rows ==> key in rows' && rows'[key] == rows[key])
            && (forall key :: key in rows' && key !in rows ==>
                 key in called && rows'[key] == Delivery(Queued, 0, now, []))
  {
  }

  lemma CalledAlso(raised: map<Key, Raised>, called: map<Key, Raised>)
    ensures forall key :: key in raised ==> key in called + raised && (called + raised)[key] == raised[key]
    ensures forall key :: key in called + raised && key !in raised ==>
              key in called && (called + raised)[key] == called[key]
  {
  }

  /** An event changes no row and no history there is; what it adds is its own, queued, and called for. */
  lemma RaiseOnlyAdds(s: State, e: Event, targets: seq<Target>, perms: map<string, Perms>, now: int)
    ensures var s' := DoRaise(s, e, targets, perms, now);
            && (forall key :: key in s.deliveries ==> key in s'.deliveries && s'.deliveries[key] == s.deliveries[key])
            && (forall key :: key in s'.deliveries && key !in s.deliveries ==>
                  key.event == s.nextEvent && key in s'.raised && s'.deliveries[key] == Delivery(Queued, 0, now, []))
            && (forall key :: key in s.raised ==> key in s'.raised && s'.raised[key] == s.raised[key])
            && (forall key :: key in s'.raised && key !in s.raised ==>
                  && key.event == s.nextEvent < s'.nextEvent && s'.raised[key].event == e && s'.raised[key].now == now
                  && CalledFor(key, s'.raised[key])
                  && key.event in s'.events && s'.events[key.event] == Stored(e, false, now))
  {
    hide WantedBy, OwnerOf, AnyoneWants, IsKnown, Raisings, QueuedFor, Historic;
    if AnyoneWants(targets, e.kind) && !IsKnown(s.events, e.dedupe) {
      var called := if Historic(e, now) then map[] else Raisings(s.nextEvent, e, targets, perms, now);
      RaisingsMean(s.nextEvent, e, targets, perms, now);
      QueuedForMeans(s.deliveries, called, now);
      CalledAlso(s.raised, called);
    }
  }

  lemma RaiseNumbersEvents(s: State, e: Event, targets: seq<Target>, perms: map<string, Perms>, now: int)
    requires EventsHold(s)
    ensures var s' := DoRaise(s, e, targets, perms, now);
            && EventsHold(s') && s'.nextEvent >= s.nextEvent
            && (forall id :: id in s.events ==> id in s'.events && s'.events[id] == s.events[id])
            && s' == s.(events := s'.events, nextEvent := s'.nextEvent, deliveries := s'.deliveries,
                        raised := s'.raised, clock := now)
  {
    hide Historic, AnyoneWants, Raisings, QueuedFor;
  }

  lemma NewLadder(now: int)
    ensures LadderHolds(Delivery(Queued, 0, now, []))
  {
  }

  lemma RaisedRowsHold(s: State, e: Event, targets: seq<Target>, perms: map<string, Perms>, now: int)
    requires EventsHold(s) && RaisedHold(s.raised, s.nextEvent, s.clock) && s.clock <= now
    requires forall key :: key in s.deliveries ==> RowHolds(s, key)
    ensures var s' := DoRaise(s, e, targets, perms, now);
            && RaisedHold(s'.raised, s'.nextEvent, now)
            && forall key :: key in s'.deliveries ==> RowHolds(s', key)
  {
    hide LadderHolds, CalledFor, DoRaise, EventsHold;
    var s' := DoRaise(s, e, targets, perms, now);
    RaiseNumbersEvents(s, e, targets, perms, now);
    RaiseOnlyAdds(s, e, targets, perms, now);
    NewLadder(now);
    forall key | key in s'.deliveries ensures RowHolds(s', key) {
      if key in s.deliveries {
        assert RowHolds(s, key) && key.event in s'.events;
      } else {
        assert key.event == s.nextEvent && key !in s.raised;
      }
    }
  }

  /** Rows of a new event are none of those that were ever sent or fetched. */
  lemma OnlyNewRows(s: State, s': State)
    requires RaisedHold(s.raised, s.nextEvent, s.clock) && FlightHolds(s) && SendingHolds(s) && AcceptedIsOver(s)
    requires forall key :: key in s.deliveries ==> key in s'.deliveries && s'.deliveries[key] == s.deliveries[key]
    requires forall key :: key in s'.deliveries && key !in s.deliveries ==> key.event == s.nextEvent
    requires forall key :: key in s.raised ==> key in s'.raised
    requires s'.inFlight == s.inFlight && s'.sending == s.sending && s'.log == s.log && s'.cut == s.cut
    ensures FlightHolds(s') && SendingHolds(s') && AcceptedIsOver(s')
  {
    hide CalledFor, Distinct;
    forall key | key in s.raised
      ensures IsQueued(s'.deliveries, key) == IsQueued(s.deliveries, key) && IsOver(s', key) == IsOver(s, key)
    {
      assert key.event < s.nextEvent;
    }
    hide IsQueued, IsOver;
    if s.sending.Some? {
      assert s.log[|s.log| - 1].key in s.raised;
    }
  }

  lemma RaiseKeeps(s: State, e: Event, targets: seq<Target>, perms: map<string, Perms>, now: int)
    requires Inv(s) && s.clock <= now
    ensures Inv(DoRaise(s, e, targets, perms, now))
  {
    hide MinuteHolds, SentIsCounted, RaisedHold, RowHolds, FlightHolds, SendingHolds, AcceptedIsOver;
    hide DoRaise, EventsHold, CalledFor;
    RaiseNumbersEvents(s, e, targets, perms, now);
    RaiseOnlyAdds(s, e, targets, perms, now);
    RaisedRowsHold(s, e, targets, perms, now);
    MinuteWaits(s.used, s.log, s.restarts, s.clock, now);
    CountedWaits(s, DoRaise(s, e, targets, perms, now));
    OnlyNewRows(s, DoRaise(s, e, targets, perms, now));
  }

  lemma FetchKeeps(s: State, batch: seq<Key>, now: int)
    requires Inv(s) && Enabled(s, Fetch(batch, now))
    ensures Inv(Do(s, Fetch(batch, now)))
  {
    var s' := Do(s, Fetch(batch, now));
    MinuteWaits(s.used, s.log, s.restarts, s.clock, now);
    CountedWaits(s, s');
    hide SentIsCounted, MinuteHolds, LadderHolds, CalledFor, Distinct;
    forall key | key in s'.deliveries ensures RowHolds(s', key) {
      assert RowHolds(s, key);
    }
    forall i | 0 <= i < |batch| ensures batch[i] in s.raised {
      assert RowHolds(s, batch[i]);
    }
    hide RowHolds;
    assert forall key :: key in batch ==> key in s.deliveries && s.deliveries[key].phase == Queued;
  }

  lemma RowsOnlyGoKeeps(s: State, s': State)
    requires Inv(s)
    requires forall key :: key in s'.deliveries ==>
               key in s.deliveries && s'.deliveries[key] == s.deliveries[key] && key.event in s'.events
    requires forall id :: id in s'.events ==> id in s.events && s'.events[id] == s.events[id]
    requires s' == s.(deliveries := s'.deliveries, events := s'.events)
    ensures Inv(s')
  {
    hide SlotsCount, MinuteHolds, LadderHolds, CalledFor, Distinct;
    forall key | key in s'.deliveries ensures RowHolds(s', key) {
      assert RowHolds(s, key);
    }
    hide RowHolds;
    forall key
      ensures IsQueued(s.deliveries, key) ==> IsQueued(s'.deliveries, key)
      ensures IsOver(s, key) ==> IsOver(s', key)
    {
    }
    hide IsQueued, IsOver;
  }

  lemma GoneTargetKeeps(s: State, target: int)
    requires Inv(s)
    ensures Inv(Do(s, DeleteTarget(target)))
  {
    hide SentIsCounted, MinuteHolds, LadderHolds, CalledFor, Distinct, AcceptedIsOver, SendingHolds;
    assert forall key :: key in s.deliveries ==> RowHolds(s, key);
    RowsOnlyGoKeeps(s, Do(s, DeleteTarget(target)));
  }

  lemma ThinKeeps(s: State, before: int)
    requires Inv(s) && Enabled(s, Thin(before))
    ensures Inv(Do(s, Thin(before)))
  {
    hide SentIsCounted, MinuteHolds, LadderHolds, CalledFor, Distinct, AcceptedIsOver, SendingHolds;
    RowsOnlyGoKeeps(s, Do(s, Thin(before)));
  }

  /** Sending leaves every row that stays as it is, or puts off the one at the head. */
  lemma SendTouches(s: State, alive: bool, outcome: Outcome, now: int)
    requires s.inFlight != []
    ensures var key, s' := s.inFlight[0], DoSend(s, alive, outcome, now);
            && s' == s.(deliveries := s'.deliveries, used := s'.used, inFlight := s.inFlight[1..],
                        sending := s'.sending, log := s'.log, clock := now)
            && (forall k :: k in s'.deliveries ==> k in s.deliveries)
            && (forall k :: k in s'.deliveries && s'.deliveries[k] != s.deliveries[k] ==>
                  k == key && s'.deliveries[k] == Deferred(s.deliveries[k], now))
            && ((s'.log == s.log && s'.sending == s.sending)
                || (s'.log == s.log + [Message(key, now, outcome.Accepted?)] && s'.sending == Some(outcome)))
  {
    hide OverTheMinute, Charged, Deferred;
  }

  lemma SendKeepsTheMinute(s: State, alive: bool, outcome: Outcome, now: int)
    requires s.inFlight != [] && s.clock <= now && MinuteHolds(s.used, s.log, s.restarts, s.clock)
    ensures var s' := DoSend(s, alive, outcome, now); MinuteHolds(s'.used, s'.log, s'.restarts, s'.clock)
  {
    hide MinuteHolds, Charged;
    var key := s.inFlight[0];
    if !alive {
      MinuteWaits(s.used, s.log, s.restarts, s.clock, now);
    } else if OverTheMinute(s.used, key.target, now) {
      FullKeepsTheMinute(s.used, s.log, s.restarts, s.clock, key.target, now);
    } else {
      ChargeKeepsTheMinute(s.used, s.log, s.restarts, s.clock, Message(key, now, outcome.Accepted?));
    }
  }

  lemma CountedWaits(s: State, s': State)
    requires SentIsCounted(s) && s.clock <= s'.clock
    requires s'.used == s.used && s'.log == s.log && s'.begun == s.begun
    ensures SentIsCounted(s')
  {
    SlotsWait(s.used, s.log[s.begun..], s.clock, s'.clock);
    hide SlotsCount;
  }

  lemma SendIsCounted(s: State, alive: bool, outcome: Outcome, now: int)
    requires s.inFlight != [] && s.clock <= now && SentIsCounted(s)
    ensures SentIsCounted(DoSend(s, alive, outcome, now))
  {
    hide SlotsCount, Charged, OverTheMinute, Deferred;
    var key, sent := s.inFlight[0], s.log[s.begun..];
    if !alive {
      SlotsWait(s.used, sent, s.clock, now);
    } else if OverTheMinute(s.used, key.target, now) {
      FullCounts(s.used, sent, s.clock, key.target, now);
    } else {
      var m := Message(key, now, outcome.Accepted?);
      ChargeCounts(s.used, sent, s.clock, m);
      assert (s.log + [m])[s.begun..] == sent + [m];
    }
  }

  lemma SendKeepsTheFlight(s: State, s': State, now: int, outcome: Outcome)
    requires s.inFlight != [] && s.sending.None? && FlightHolds(s) && AcceptedIsOver(s)
    requires forall k :: k in s'.deliveries ==> k in s.deliveries && s'.deliveries[k].phase == s.deliveries[k].phase
    requires s'.inFlight == s.inFlight[1..] && s'.raised == s.raised && s'.cut == s.cut
    requires (s'.log == s.log && s'.sending == s.sending)
             || (s'.log == s.log + [Message(s.inFlight[0], now, outcome.Accepted?)] && s'.sending == Some(outcome))
    ensures FlightHolds(s') && SendingHolds(s') && AcceptedIsOver(s')
  {
    var key := s.inFlight[0];
    assert key in s.inFlight && key in s.raised && IsQueued(s.deliveries, key);
    assert key !in s'.inFlight;
    forall k ensures IsQueued(s.deliveries, k) ==> IsQueued(s'.deliveries, k) {
    }
    forall k ensures IsOver(s, k) ==> IsOver(s', k) {
      assert k in s'.inFlight ==> k in s.inFlight;
    }
    assert !IsOver(s, key);
    hide IsQueued, IsOver, Distinct;
    assert forall i :: 0 <= i < |s.log| ==> s'.log[i] == s.log[i];
  }

  lemma PutOffKeepsTheLadder(d: Delivery, now: int)
    requires LadderHolds(d)
    ensures LadderHolds(Deferred(d, now))
  {
  }

  lemma SameEvents(s: State, s': State)
    requires EventsHold(s) && s'.events == s.events && s'.nextEvent == s.nextEvent
    ensures EventsHold(s')
  {
  }

  lemma SendKeeps(s: State, alive: bool, outcome: Outcome, now: int)
    requires Inv(s) && Enabled(s, Send(alive, outcome, now))
    ensures Inv(DoSend(s, alive, outcome, now))
  {
    hide DoSend, MinuteHolds, SentIsCounted, CalledFor, FlightHolds, SendingHolds, AcceptedIsOver;
    hide LadderHolds, EventsHold;
    var s' := DoSend(s, alive, outcome, now);
    SendTouches(s, alive, outcome, now);
    SendKeepsTheMinute(s, alive, outcome, now);
    SendIsCounted(s, alive, outcome, now);
    SendKeepsTheFlight(s, s', now, outcome);
    SameEvents(s, s');
    forall key | key in s'.deliveries ensures RowHolds(s', key) {
      assert RowHolds(s, key);
      PutOffKeepsTheLadder(s.deliveries[key], now);
    }
    hide RowHolds;
  }

  lemma RecordTouches(s: State, now: int)
    requires s.sending.Some? && s.log != []
    ensures var key, s' := s.log[|s.log| - 1].key, DoRecord(s, now);
            && s' == s.(deliveries := s'.deliveries, sending := None, clock := now)
            && s'.deliveries.Keys == s.deliveries.Keys
            && (forall k :: k in s.deliveries && k != key ==> s'.deliveries[k] == s.deliveries[k])
            && (key in s.deliveries ==> s'.deliveries[key] == Recorded(s.deliveries[key], s.sending.value, now))
  {
    hide Recorded;
  }

  lemma RecordKeepsTheFlight(s: State, s': State, now: int)
    requires s.sending.Some? && FlightHolds(s) && SendingHolds(s) && AcceptedIsOver(s)
    requires var key := s.log[|s.log| - 1].key;
             && s'.deliveries.Keys == s.deliveries.Keys
             && (forall k :: k in s.deliveries && k != key ==> s'.deliveries[k] == s.deliveries[k])
             && (key in s.deliveries ==> s'.deliveries[key] == Recorded(s.deliveries[key], s.sending.value, now))
    requires s'.inFlight == s.inFlight && s'.sending.None? && s'.log == s.log && s'.raised == s.raised
    requires s'.cut == s.cut
    ensures FlightHolds(s') && SendingHolds(s') && AcceptedIsOver(s')
  {
    var key := s.log[|s.log| - 1].key;
    forall k | k != key
      ensures IsQueued(s'.deliveries, k) == IsQueued(s.deliveries, k) && IsOver(s', k) == IsOver(s, k)
    {
    }
    assert s.log[|s.log| - 1].accepted ==> IsOver(s', key);
    assert IsOver(s, key) ==> IsOver(s', key) by {
      assert key in s.deliveries ==> s.deliveries[key].phase == Queued;
    }
    hide IsQueued, IsOver, Distinct, Recorded;
  }

  lemma RecordKeeps(s: State, now: int)
    requires Inv(s) && Enabled(s, Record(now))
    ensures Inv(DoRecord(s, now))
  {
    var s', key := DoRecord(s, now), s.log[|s.log| - 1].key;
    RecordTouches(s, now);
    MinuteWaits(s.used, s.log, s.restarts, s.clock, now);
    hide DoRecord, MinuteHolds, SentIsCounted, CalledFor;
    CountedWaits(s, s');
    RecordKeepsTheFlight(s, s', now);
    assert IsQueued(s.deliveries, key);
    hide FlightHolds, SendingHolds, AcceptedIsOver;
    forall k | k in s'.deliveries ensures RowHolds(s', k) {
      assert RowHolds(s, k);
      if k == key {
        RecordKeepsTheLadder(s.deliveries[k], s.sending.value, now);
      }
      hide LadderHolds, Recorded;
    }
    hide RowHolds;
  }

  lemma RestartLeavesWhatIsOver(s: State, now: int)
    requires FlightHolds(s) && SendingHolds(s) && AcceptedIsOver(s)
    ensures var s' := DoRestart(s, now); FlightHolds(s') && SendingHolds(s') && AcceptedIsOver(s')
  {
    var s' := DoRestart(s, now);
    hide IsQueued;
    forall key ensures IsOver(s, key) ==> IsOver(s', key) {
    }
    hide IsOver;
  }

  lemma RestartKeeps(s: State, now: int)
    requires Inv(s) && Enabled(s, Restart(now))
    ensures Inv(DoRestart(s, now))
  {
    NothingSentYet(now);
    assert s.log[|s.log|..] == [];
    hide SlotsCount, MinuteHolds, CalledFor, LadderHolds, FlightHolds, SendingHolds, AcceptedIsOver;
    RestartKeepsTheMinute(s.used, s.log, s.restarts, s.clock, now);
    RestartLeavesWhatIsOver(s, now);
    assert forall key :: key in s.deliveries ==> RowHolds(s, key);
  }

  lemma StepKeeps(s: State, step: Step)
    requires Inv(s) && Enabled(s, step)
    ensures Inv(Do(s, step))
  {
    hide Inv;
    match step
    case Raise(e, targets, perms, now) => RaiseKeeps(s, e, targets, perms, now);
    case Fetch(batch, now) => FetchKeeps(s, batch, now);
    case Send(alive, outcome, now) => SendKeeps(s, alive, outcome, now);
    case Record(now) => RecordKeeps(s, now);
    case DeleteTarget(target) => GoneTargetKeeps(s, target);
    case Thin(before) => ThinKeeps(s, before);
    case Restart(now) => RestartKeeps(s, now);
  }

  lemma {:induction false} RunKeeps(s: State, steps: seq<Step>)
    requires Inv(s)
    ensures Inv(RunFrom(s, steps))
  {
    hide Inv, Enabled, Do;
    if steps != [] {
      RunKeeps(s, steps[..|steps| - 1]);
      var before := RunFrom(s, steps[..|steps| - 1]);
      if Enabled(before, steps[|steps| - 1]) {
        StepKeeps(before, steps[|steps| - 1]);
      }
    }
  }

  lemma RunExtends(s: State, steps: seq<Step>, step: Step)
    requires Enabled(RunFrom(s, steps), step)
    ensures RunFrom(s, steps + [step]) == Do(RunFrom(s, steps), step)
  {
    assert (steps + [step])[..|steps|] == steps;
  }

  // ------------------------------------------------------------------ whole runs

  /** In every run: each row is there because its destination wanted its event and the event was news;
      one event stands for each thing that happened; and a row is given up exactly when a failure that
      asks for no time is its fifth or a later one. */
  lemma RowsAreWanted(steps: seq<Step>, key: Key)
    requires key in RunFrom(EMPTY, steps).deliveries
    ensures var s := RunFrom(EMPTY, steps);
            RowHolds(s, key) && CalledFor(key, s.raised[key]) && EventsHold(s)
  {
    StartHolds();
    RunKeeps(EMPTY, steps);
    hide RunFrom, RowHolds, EventsHold, CalledFor;
  }

  /** What an event brings into the queue, exactly. If it happened within the last six hours and is not known
      yet, a row for every destination entitled to it, due at once; and nothing else. */
  lemma ARaiseReachesExactly(s: State, e: Event, targets: seq<Target>, perms: map<string, Perms>, now: int, key: Key)
    requires Inv(s) && key !in s.deliveries
    ensures var rows := DoRaise(s, e, targets, perms, now).deliveries;
            && (key in rows <==>
                  && now - e.at <= 6 * 3_600
                  && (forall id :: id in s.events ==> s.events[id].event.dedupe != e.dedupe)
                  && key.event == s.nextEvent
                  && exists t :: t in targets && t.id == key.target && Entitled(t, e, PermsOf(t, perms)))
            && (key in rows ==> rows[key] == Delivery(Queued, 0, now, []))
  {
    RaiseOnlyAdds(s, e, targets, perms, now);
    var rows := DoRaise(s, e, targets, perms, now).deliveries;
    hide Inv, Raisings, WantedBy, Entitled, OwnerOf, QueuedFor;
    if key in rows {
      var called := Raisings(s.nextEvent, e, targets, perms, now);
      RaisingsMean(s.nextEvent, e, targets, perms, now);
      QueuedForMeans(s.deliveries, if Historic(e, now) then map[] else called, now);
      var t := called[key].target;
      SameOwner(t, perms);
      WantedExactly(t, e, OwnerOf(t, perms));
    }
    if t: Target :| t in targets && t.id == key.target && Entitled(t, e, PermsOf(t, perms)) {
      SameOwner(t, perms);
      WantedExactly(t, e, OwnerOf(t, perms));
      EntitledWants(t, e, PermsOf(t, perms));
      EverybodyWhoWantsItGetsIt(s.nextEvent, e, targets, perms, now);
      QueuedHolds(s.deliveries, Raisings(s.nextEvent, e, targets, perms, now), now);
    }
  }

  /** What the owner of a destination may see, if it has one who may sign in. */
  ghost function PermsOf(t: Target, perms: map<string, Perms>): Option<Perms> {
    match t.owner
    case None => None
    case Some(owner) => if owner in perms then Some(perms[owner]) else None
  }

  lemma SameOwner(t: Target, perms: map<string, Perms>)
    ensures OwnerOf(t, perms) == PermsOf(t, perms)
  {
  }

  lemma EntitledWants(t: Target, e: Event, owner: Option<Perms>)
    requires Entitled(t, e, owner)
    ensures t.enabled && e.kind in t.wants
  {
  }

  lemma QueuedHolds(rows: map<Key, Delivery>, called: map<Key, Raised>, now: int)
    ensures forall key :: key in called ==> key in QueuedFor(rows, called, now)
  {
  }

  /** An event is written down, history or not, exactly when some destination in use asks for its kind and it is
      not known yet; and then under the next number. */
  lemma WrittenDownExactly(s: State, e: Event, targets: seq<Target>, perms: map<string, Perms>, now: int)
    ensures var s' := DoRaise(s, e, targets, perms, now);
            if (exists t :: t in targets && t.enabled && e.kind in t.wants)
               && forall id :: id in s.events ==> s.events[id].event.dedupe != e.dedupe
            then
              && s'.events == s.events[s.nextEvent := Stored(e, now - e.at > 6 * 3_600, now)]
              && s'.nextEvent == s.nextEvent + 1
            else s' == s.(clock := now)
  {
    hide Raisings, QueuedFor;
  }

  /** The step that called for a row, and the destination it was called for. */
  ghost predicate Asked(steps: seq<Step>, n: nat, t: Target, key: Key) {
    && n < |steps| && steps[n].Raise? && t in steps[n].targets && t.id == key.target
    && WantedBy(t, steps[n].e, OwnerOf(t, steps[n].perms)) && !Historic(steps[n].e, steps[n].now)
  }

  lemma RaisedStays(s: State, step: Step, key: Key)
    requires Enabled(s, step) && key in s.raised
    ensures key in Do(s, step).raised && Do(s, step).raised[key] == s.raised[key]
  {
    hide Enabled, AnyoneWants, IsKnown, Raisings, QueuedFor, Historic, WithoutTarget, OverTheMinute, Charged;
    hide Deferred, Recorded;
  }

  lemma RaisedByTheStep(s: State, step: Step, key: Key) returns (t: Target)
    requires Enabled(s, step) && key in Do(s, step).raised && key !in s.raised
    ensures step.Raise? && t in step.targets && t.id == key.target && !Historic(step.e, step.now)
    ensures WantedBy(t, step.e, OwnerOf(t, step.perms))
    ensures Do(s, step).raised[key] == Raised(step.e, t, OwnerOf(t, step.perms), step.now)
  {
    hide WantedBy, OwnerOf, Historic, AnyoneWants, IsKnown, Raisings, QueuedFor;
    RaisingsMean(s.nextEvent, step.e, step.targets, step.perms, step.now);
    t := Do(s, step).raised[key].target;
  }

  /** Whatever the history says was called for, a step of the run called for. */
  lemma {:induction false} RaisedByAStep(steps: seq<Step>, key: Key) returns (n: nat, t: Target)
    requires key in RunFrom(EMPTY, steps).raised
    ensures Asked(steps, n, t, key)
    ensures var r := RunFrom(EMPTY, steps).raised[key];
            r == Raised(steps[n].e, t, OwnerOf(t, steps[n].perms), steps[n].now)
  {
    hide Enabled, Do, WantedBy, OwnerOf, Historic;
    var front, last := steps[..|steps| - 1], steps[|steps| - 1];
    var before := RunFrom(EMPTY, front);
    if key in before.raised {
      n, t := RaisedByAStep(front, key);
      assert front[n] == steps[n];
      if Enabled(before, last) {
        RaisedStays(before, last, key);
      }
    } else {
      n := |steps| - 1;
      t := RaisedByTheStep(before, last, key);
    }
  }

  /** In every run, each message sent is for an event that was raised as news, and for a destination that
      wanted it then. */
  lemma NothingLeavesUnasked(steps: seq<Step>, i: nat) returns (n: nat, t: Target)
    requires i < |RunFrom(EMPTY, steps).log|
    ensures Asked(steps, n, t, RunFrom(EMPTY, steps).log[i].key)
  {
    StartHolds();
    RunKeeps(EMPTY, steps);
    var s := RunFrom(EMPTY, steps);
    assert s.log[i].key in s.raised;
    hide RunFrom, Inv, Asked;
    n, t := RaisedByAStep(steps, s.log[i].key);
  }

  /** So in every run each message that leaves is of a kind its destination asks for, severe enough, and
      about something that happened since the destination has existed; and on a personal destination it
      is about the owner, or about what the owner was allowed to see when it was raised. */
  lemma NothingTheOwnerMayNotSee(steps: seq<Step>, i: nat) returns (n: nat, t: Target)
    requires i < |RunFrom(EMPTY, steps).log|
    ensures Asked(steps, n, t, RunFrom(EMPTY, steps).log[i].key)
    ensures var e := steps[n].e;
            && t.enabled && e.kind in t.wants && Rank(e.severity) >= Rank(t.minSeverity) && e.at >= t.createdAt
            && (t.owner.Some? ==>
                  && t.owner.value in steps[n].perms
                  && var perms := steps[n].perms[t.owner.value];
                  && (NeedOf(e.kind) == Server ==> perms.seeServer)
                  && (NeedOf(e.kind) == Person && e.about != t.owner ==> perms.seeEveryone)
                  && (NeedOf(e.kind) == Place && e.about != t.owner ==> perms.seeEveryone && perms.seeNetwork))
  {
    n, t := NothingLeavesUnasked(steps, i);
    hide RunFrom;
  }

  /** In every run no destination is sent more than twenty messages of the queue in any minute of the clock
      for each process that ran in it: the count does not outlive the process. */
  lemma NeverMoreThanTwentyAMinute(steps: seq<Step>, target: int, minute: int)
    ensures var s := RunFrom(EMPTY, steps);
            CountSent(s.log, target, minute) <= 20 * (1 + CountRestarts(s.restarts, minute))
  {
    hide RunFrom, CountSent, CountRestarts;
    StartHolds();
    RunKeeps(EMPTY, steps);
    MinuteIsBounded(RunFrom(EMPTY, steps), target, minute);
    hide Inv;
  }

  lemma MinuteIsBounded(s: State, target: int, minute: int)
    requires MinuteHolds(s.used, s.log, s.restarts, s.clock)
    ensures CountSent(s.log, target, minute) <= 20 * (1 + CountRestarts(s.restarts, minute))
  {
    hide CountSent, CountRestarts, LastRestart;
  }

  /** The row of a message is put off to the beginning of the next minute, and no other is touched. */
  ghost predicate OnlyPutOff(rows: map<Key, Delivery>, rows': map<Key, Delivery>, key: Key, now: int) {
    rows'.Keys == rows.Keys
    && forall k :: k in rows ==>
         var d, d' := rows[k], rows'[k];
         if k == key then d' == d.(nextAt := d'.nextAt) && now < d'.nextAt <= now + 60 && d'.nextAt % 60 == 0
         else d' == d
  }

  lemma TurnOfAMessage(s: State, outcome: Outcome, now: int)
    requires SentIsCounted(s) && s.inFlight != [] && s.clock <= now
    ensures var key, s' := s.inFlight[0], DoSend(s, true, outcome, now);
            if CountSent(s.log[s.begun..], key.target, now / 60) < 20
            then s'.log == s.log + [Message(key, now, outcome == Accepted)] && s'.deliveries == s.deliveries
            else s'.log == s.log && OnlyPutOff(s.deliveries, s'.deliveries, key, now)
  {
    var key := s.inFlight[0];
    SlotIsTheCount(s.used, s.log[s.begun..], s.clock, key.target, now);
    hide SlotsCount, OverTheMinute, Charged, CountSent, Deferred;
    if key in s.deliveries {
      PutOffToTheNextMinute(s.deliveries[key], now);
    }
  }

  /** In every run a message whose turn it is goes out exactly when this process has sent its destination fewer
      than twenty in this minute of the clock; otherwise its row, and no other, is put off to the beginning of
      the next minute. */
  lemma PutOffExactlyWhenFull(steps: seq<Step>, outcome: Outcome, now: int)
    requires Enabled(RunFrom(EMPTY, steps), Send(true, outcome, now))
    ensures var s := RunFrom(EMPTY, steps);
            var key, s' := s.inFlight[0], DoSend(s, true, outcome, now);
            && s.begun <= |s.log|
            && if CountSent(s.log[s.begun..], key.target, now / 60) < 20
               then s'.log == s.log + [Message(key, now, outcome == Accepted)] && s'.deliveries == s.deliveries
               else s'.log == s.log && OnlyPutOff(s.deliveries, s'.deliveries, key, now)
  {
    hide RunFrom, DoSend, CountSent, OnlyPutOff;
    StartHolds();
    RunKeeps(EMPTY, steps);
    IsCounted(RunFrom(EMPTY, steps));
    TurnOfAMessage(RunFrom(EMPTY, steps), outcome, now);
    hide Inv;
  }

  lemma IsCounted(s: State)
    requires Inv(s)
    ensures SentIsCounted(s) && s.begun <= |s.log|
  {
  }

  /** And it does go past twenty: however many a destination was sent in this minute, after a restart in it
      the next row that is due goes out in it as well. */
  lemma ARestartLetsOneMoreOut(s: State, key: Key, outcome: Outcome, now: int)
    requires Inv(s) && s.clock <= now
    requires key in s.deliveries && s.deliveries[key].phase == Queued && s.deliveries[key].nextAt <= now
    ensures var s1 := DoRestart(s, now);
            && Enabled(s, Restart(now)) && Enabled(s1, Fetch([key], now))
            && var s2 := Do(s1, Fetch([key], now));
            && Enabled(s2, Send(true, outcome, now))
            && var s3 := Do(s2, Send(true, outcome, now));
            CountSent(s3.log, key.target, now / 60) == CountSent(s.log, key.target, now / 60) + 1
  {
    hide Inv, CountSent;
    OneMoreSent(s.log, Message(key, now, outcome.Accepted?), key.target, now / 60);
  }

  /** In every run nothing is sent again after it was accepted, unless a restart came between sending it
      and recording that. */
  lemma ToldAtMostOnce(steps: seq<Step>, i: nat, j: nat)
    requires i < j < |RunFrom(EMPTY, steps).log| && RunFrom(EMPTY, steps).log[i].accepted
    requires i !in RunFrom(EMPTY, steps).cut
    ensures RunFrom(EMPTY, steps).log[j].key != RunFrom(EMPTY, steps).log[i].key
  {
    StartHolds();
    RunKeeps(EMPTY, steps);
    hide RunFrom;
  }

  /** And then it is: a message whose record a restart cut short goes out once more, whatever was answered
      the first time, if its row and its destination are still there. */
  lemma CutShortIsSentAgain(s: State, now: int, again: Outcome)
    requires Inv(s) && s.sending.Some? && s.clock <= now && s.log[|s.log| - 1].key in s.deliveries
    ensures var key, s1 := s.log[|s.log| - 1].key, Do(s, Restart(now));
            var later := if s.deliveries[key].nextAt > now then s.deliveries[key].nextAt else now;
            && |s.log| - 1 in s1.cut
            && Enabled(s1, Fetch([key], later))
            && var s2 := Do(s1, Fetch([key], later));
            && Enabled(s2, Send(true, again, later))
            && Do(s2, Send(true, again, later)).log == s.log + [Message(key, later, again.Accepted?)]
  {
    hide MinuteHolds, AcceptedIsOver, RaisedHold, EventsHold, FlightHolds;
  }

  /** A destination that is deleted takes its rows with it, and nothing else. */
  lemma DeletingExactly(s: State, target: int)
    ensures var s' := Do(s, DeleteTarget(target));
            && s' == s.(deliveries := s'.deliveries)
            && forall key :: (key in s'.deliveries <==> key in s.deliveries && key.target != target)
                             && (key in s'.deliveries ==> s'.deliveries[key] == s.deliveries[key])
  {
  }

  /** Thinning out takes the events written down before a moment, and their rows, and nothing else. */
  lemma ThinningExactly(s: State, before: int)
    requires Inv(s) && Enabled(s, Thin(before))
    ensures var s' := Do(s, Thin(before));
            && s' == s.(events := s'.events, deliveries := s'.deliveries)
            && (forall id :: (id in s'.events <==> id in s.events && s.events[id].createdAt >= before)
                             && (id in s'.events ==> s'.events[id] == s.events[id]))
            && (forall key :: (key in s'.deliveries <==> key in s.deliveries && key.event in s'.events)
                              && (key in s'.deliveries ==> s'.deliveries[key] == s.deliveries[key]))
  {
    hide Inv;
  }

  /** What is fetched or being sent is still queued. */
  lemma InHandIsQueued(s: State)
    requires Inv(s)
    ensures s.inFlight != [] ==> IsQueued(s.deliveries, s.inFlight[0])
    ensures s.sending.Some? ==> s.log != [] && IsQueued(s.deliveries, s.log[|s.log| - 1].key)
  {
    hide MinuteHolds, AcceptedIsOver, LadderHolds, CalledFor, EventsHold, RaisedHold, RowHolds, Distinct;
  }

  /** What is over stays as it is, and only a recorded attempt counts. */
  ghost predicate Onward(d: Delivery, d': Delivery, counted: bool) {
    (d.phase != Queued ==> d' == d) && d'.attempts == d.attempts + if counted then 1 else 0
  }

  lemma RaiseGoesOn(s: State, e: Event, targets: seq<Target>, perms: map<string, Perms>, now: int, key: Key)
    requires key in s.deliveries
    ensures key in DoRaise(s, e, targets, perms, now).deliveries
    ensures Onward(s.deliveries[key], DoRaise(s, e, targets, perms, now).deliveries[key], false)
  {
    hide DoRaise, CalledFor;
    RaiseOnlyAdds(s, e, targets, perms, now);
  }

  lemma SendGoesOn(s: State, alive: bool, outcome: Outcome, now: int, key: Key)
    requires Inv(s) && s.inFlight != []
    requires key in s.deliveries && key in DoSend(s, alive, outcome, now).deliveries
    ensures Onward(s.deliveries[key], DoSend(s, alive, outcome, now).deliveries[key], false)
  {
    hide Inv, DoSend;
    InHandIsQueued(s);
    SendTouches(s, alive, outcome, now);
  }

  lemma RecordGoesOn(s: State, now: int, key: Key)
    requires Inv(s) && s.sending.Some? && s.log != []
    requires key in s.deliveries && key in DoRecord(s, now).deliveries
    ensures Onward(s.deliveries[key], DoRecord(s, now).deliveries[key], s.log[|s.log| - 1].key == key)
  {
    hide Inv, DoRecord;
    InHandIsQueued(s);
    RecordTouches(s, now);
  }

  /** A row only moves from queued to sent or failed, never back; being put off or cut short costs no
      attempt. */
  lemma NeverBack(s: State, step: Step, key: Key)
    requires Inv(s) && Enabled(s, step) && key in s.deliveries && key in Do(s, step).deliveries
    ensures var d, d' := s.deliveries[key], Do(s, step).deliveries[key];
            && (d.phase != Queued ==> d' == d)
            && d.attempts <= d'.attempts <= d.attempts + 1
            && (d'.attempts == d.attempts + 1 <==> step.Record? && s.log[|s.log| - 1].key == key)
  {
    hide Inv, DoRaise, DoSend, DoRecord;
    match step
    case Raise(e, targets, perms, now) => RaiseGoesOn(s, e, targets, perms, now, key);
    case Send(alive, outcome, now) => SendGoesOn(s, alive, outcome, now, key);
    case Record(now) => RecordGoesOn(s, now, key);
    case _ =>
  }

  /** Event numbers are never used again, so a row that is gone never comes back. */
  lemma GoneForGood(s: State, step: Step, key: Key)
    requires Inv(s) && Enabled(s, step) && key.event < s.nextEvent && key !in s.deliveries
    ensures key !in Do(s, step).deliveries && key.event < Do(s, step).nextEvent
  {
    hide MinuteHolds, AcceptedIsOver;
    match step
    case Raise(e, targets, perms, now) =>
      RaiseOnlyAdds(s, e, targets, perms, now);
    case Send(alive, outcome, now) =>
      SendTouches(s, alive, outcome, now);
      hide DoSend;
    case _ =>
  }

  /** However a run goes on, a row that was sent or given up stays exactly as it was for as long as it
      is there. */
  lemma {:induction false} ClosedForGood(s: State, steps: seq<Step>, key: Key)
    requires Inv(s) && key in s.deliveries && s.deliveries[key].phase != Queued
    ensures key in RunFrom(s, steps).deliveries ==> RunFrom(s, steps).deliveries[key] == s.deliveries[key]
    ensures key.event < RunFrom(s, steps).nextEvent
  {
    hide Inv, Enabled, Do;
    if steps == [] {
      RowsAreNumbered(s, key);
    } else {
      var front, last := steps[..|steps| - 1], steps[|steps| - 1];
      ClosedForGood(s, front, key);
      RunKeeps(s, front);
      var before := RunFrom(s, front);
      if Enabled(before, last) {
        NumbersGrow(before, last);
        if key !in before.deliveries {
          GoneForGood(before, last, key);
        } else if key in Do(before, last).deliveries {
          NeverBack(before, last, key);
        }
      }
    }
  }

  lemma RowsAreNumbered(s: State, key: Key)
    requires Inv(s) && key in s.deliveries
    ensures key.event < s.nextEvent
  {
    assert RowHolds(s, key);
  }

  lemma NumbersGrow(s: State, step: Step)
    requires Enabled(s, step)
    ensures Do(s, step).nextEvent >= s.nextEvent
  {
  }
}
