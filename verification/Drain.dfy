/** The loop that empties the notification queue (`due` and `drain` in src/notify.rs), at one moment of
    the clock.

    The queue is read twenty rows at a time, and rows of a kind this version does not know are set
    aside only after that: they are left where they are, and twenty of them at the head of the queue
    keep everything behind them from ever being read. */
module Drain {
  import opened Deliveries
  import opened Notify
  import opened Options
  import opened Sets

  const BATCH: nat := 20

  predicate IsDue(d: Delivery, now: int) {
    d.phase == Queued && d.nextAt <= now
  }

  predicate DueKey(rows: map<Key, Delivery>, now: int, key: Key) {
    key in rows && IsDue(rows[key], now)
  }

  /** The order of the queue: by due time, then by event, then by destination. */
  predicate Before(rows: map<Key, Delivery>, a: Key, b: Key)
    requires a in rows && b in rows
  {
    rows[a].nextAt < rows[b].nextAt
    || (rows[a].nextAt == rows[b].nextAt && (a.event < b.event || (a.event == b.event && a.target < b.target)))
  }

  /** The first `BATCH` due rows, in order. */
  ghost predicate IsBatch(rows: map<Key, Delivery>, now: int, batch: seq<Key>) {
    && Distinct(batch) && |batch| <= BATCH
    && (forall i :: 0 <= i < |batch| ==> DueKey(rows, now, batch[i]))
    && (forall i, j :: 0 <= i < j < |batch| ==> Before(rows, batch[i], batch[j]))
    && (forall key :: DueKey(rows, now, key) && key !in batch ==>
          |batch| == BATCH && forall i :: 0 <= i < |batch| ==> Before(rows, batch[i], key))
  }

  /** What is read: at most twenty rows, each queued and due, the longest due first and of those the one of the
      oldest event; and what is due and not among them, if anything, comes after a full twenty. */
  lemma TheLongestDueAreTaken(rows: map<Key, Delivery>, now: int, batch: seq<Key>)
    requires IsBatch(rows, now, batch)
    ensures |batch| <= 20
    ensures forall i :: 0 <= i < |batch| ==>
              batch[i] in rows && rows[batch[i]].phase == Queued && rows[batch[i]].nextAt <= now
    ensures forall i, j :: 0 <= i < j < |batch| ==>
              && rows[batch[i]].nextAt <= rows[batch[j]].nextAt
              && (rows[batch[i]].nextAt == rows[batch[j]].nextAt ==> batch[i].event <= batch[j].event)
    ensures forall key :: key in rows && rows[key].phase == Queued && rows[key].nextAt <= now && key !in batch ==>
              |batch| == 20 && forall i :: 0 <= i < |batch| ==>
                && rows[batch[i]].nextAt <= rows[key].nextAt
                && (rows[batch[i]].nextAt == rows[key].nextAt ==> batch[i].event <= key.event)
  {
    forall key | key in rows && rows[key].phase == Queued && rows[key].nextAt <= now ensures DueKey(rows, now, key) {
    }
  }

  /** Twenty due rows of unknown kinds come before this one. */
  ghost predicate Starved(rows: map<Key, Delivery>, now: int, known: set<int>, key: Key) {
    exists front: seq<Key> :: StarvedBy(rows, now, known, key, front)
  }

  ghost predicate StarvedBy(rows: map<Key, Delivery>, now: int, known: set<int>, key: Key, front: seq<Key>) {
    && key in rows && |front| == BATCH && Distinct(front)
    && forall i :: 0 <= i < |front| ==>
         DueKey(rows, now, front[i]) && front[i].event !in known && Before(rows, front[i], key)
  }

  method First(rows: map<Key, Delivery>, among: set<Key>) returns (first: Key)
    requires among <= rows.Keys && among != {}
    ensures first in among && forall key :: key in among && key != first ==> Before(rows, first, key)
    decreases |among|
  {
    var some :| some in among;
    var rest := among - {some};
    assert forall key :: key in among ==> key == some || key in rest;
    if rest == {} {
      return some;
    }
    first := First(rows, rest);
    if Before(rows, some, first) {
      first := some;
    }
  }

  method TakeDue(rows: map<Key, Delivery>, now: int) returns (batch: seq<Key>)
    ensures IsBatch(rows, now, batch)
  {
    batch := [];
    var left := set key | key in rows && IsDue(rows[key], now);
    while left != {} && |batch| < BATCH
      invariant left <= rows.Keys
      invariant forall key :: DueKey(rows, now, key) <==> key in left || key in batch
      invariant forall i :: 0 <= i < |batch| ==> batch[i] !in left
      invariant Distinct(batch) && |batch| <= BATCH
      invariant forall i :: 0 <= i < |batch| ==> DueKey(rows, now, batch[i])
      invariant forall i, j :: 0 <= i < j < |batch| ==> Before(rows, batch[i], batch[j])
      invariant forall key, i :: key in left && 0 <= i < |batch| ==> Before(rows, batch[i], key)
      decreases |left|
    {
      var first := First(rows, left);
      batch, left := batch + [first], left - {first};
    }
  }

  function Known(batch: seq<Key>, known: set<int>): seq<Key> {
    if batch == [] then []
    else Known(batch[..|batch| - 1], known) + if batch[|batch| - 1].event in known then [batch[|batch| - 1]] else []
  }

  lemma {:induction false} KnownMeans(batch: seq<Key>, known: set<int>)
    ensures forall key :: key in Known(batch, known) <==> key in batch && key.event in known
    ensures Distinct(batch) ==> Distinct(Known(batch, known))
  {
    if batch != [] {
      KnownMeans(batch[..|batch| - 1], known);
      assert batch == batch[..|batch| - 1] + [batch[|batch| - 1]];
    }
  }

  /** When nothing in the batch is known, whatever known rows are due are starved. */
  lemma NothingKnownInTheBatch(rows: map<Key, Delivery>, now: int, known: set<int>, batch: seq<Key>, key: Key)
    requires IsBatch(rows, now, batch) && Known(batch, known) == []
    requires DueKey(rows, now, key) && key.event in known
    ensures Starved(rows, now, known, key)
  {
    KnownMeans(batch, known);
    assert key !in Known(batch, known);
    assert forall i :: 0 <= i < |batch| ==> batch[i].event !in known by {
      forall i | 0 <= i < |batch| ensures batch[i].event !in known {
        assert batch[i] in batch;
        assert batch[i] !in Known(batch, known);
      }
    }
    assert StarvedBy(rows, now, known, key, batch);
  }

  lemma {:induction false} TooManyToFit(front: seq<Key>, batch: seq<Key>)
    requires Distinct(front) && forall i :: 0 <= i < |front| ==> front[i] in batch
    ensures |front| <= |batch|
  {
    var f, b := (set k | k in front), (set k | k in batch);
    SetOfDistinct(front);
    SetIsNoLarger(batch);
    assert f <= b;
    SubsetIsNoLarger(f, b);
  }

  lemma {:induction false} SetOfDistinct(s: seq<Key>)
    requires Distinct(s)
    ensures |set k | k in s| == |s|
  {
    if s != [] {
      var front, last := s[..|s| - 1], s[|s| - 1];
      SetOfDistinct(front);
      assert s == front + [last];
      assert (set k | k in s) == (set k | k in front) + {last};
      assert last !in front;
    }
  }

  lemma {:induction false} SetIsNoLarger(s: seq<Key>)
    ensures |set k | k in s| <= |s|
  {
    if s != [] {
      var front, last := s[..|s| - 1], s[|s| - 1];
      SetIsNoLarger(front);
      assert s == front + [last];
      assert (set k | k in s) == (set k | k in front) + {last};
    }
  }

  /** A starved row is never in a batch. */
  lemma StarvedIsNeverTaken(rows: map<Key, Delivery>, now: int, known: set<int>, key: Key, front: seq<Key>,
      batch: seq<Key>)
    requires StarvedBy(rows, now, known, key, front) && IsBatch(rows, now, batch) && key.event in known
    ensures key !in batch
  {
    if key in batch {
      var all := front + [key];
      forall i | 0 <= i < |all| ensures all[i] in batch {
        assert i < |front| ==> Before(rows, front[i], key);
      }
      TooManyToFit(all, batch);
    }
  }

  /** What a pass may do to the rows: what is due was due and is untouched, what is left alone is as it
      was, and nothing is new. */
  ghost predicate Follows(was: map<Key, Delivery>, rows: map<Key, Delivery>, now: int, known: set<int>,
      alive: set<int>)
  {
    && rows.Keys <= was.Keys
    && (forall key :: DueKey(rows, now, key) ==> rows[key] == was[key])
    && (forall key :: key in was && key.event !in known && key.target in alive ==> key in rows && rows[key] == was[key])
  }

  /** A pass takes nothing out of the way of a starved row. */
  lemma StillStarved(was: map<Key, Delivery>, rows: map<Key, Delivery>, now: int, known: set<int>, alive: set<int>,
      key: Key, front: seq<Key>)
    requires Follows(was, rows, now, known, alive) && (forall k :: k in was ==> k.target in alive)
    requires StarvedBy(was, now, known, key, front) && key in rows && rows[key] == was[key]
    ensures StarvedBy(rows, now, known, key, front)
  {
  }

  /** And what is starved after a pass was starved before it. */
  lemma WasStarved(was: map<Key, Delivery>, rows: map<Key, Delivery>, now: int, known: set<int>, alive: set<int>,
      key: Key)
    requires Follows(was, rows, now, known, alive) && DueKey(rows, now, key)
    requires Starved(rows, now, known, key)
    ensures Starved(was, now, known, key)
  {
    var front :| StarvedBy(rows, now, known, key, front);
    assert StarvedBy(was, now, known, key, front);
  }

  ghost function DueKnown(rows: map<Key, Delivery>, now: int, known: set<int>): set<Key> {
    set key | key in rows && IsDue(rows[key], now) && key.event in known
  }

  /** One message of a pass, sent and recorded with nothing in between. */
  function Handled(s: State, alive: bool, outcome: Outcome, now: int): State
    requires s.inFlight != []
  {
    var s' := DoSend(s, alive, outcome, now);
    if s'.sending.Some? && s'.log != [] then DoRecord(s', now) else s'
  }

  lemma HandledKeeps(s: State, alive: bool, outcome: Outcome, now: int)
    requires Inv(s) && s.inFlight != [] && s.sending.None? && s.clock <= now
    ensures Inv(Handled(s, alive, outcome, now))
  {
    hide Inv, DoSend, DoRecord;
    var s' := DoSend(s, alive, outcome, now);
    SendTouches(s, alive, outcome, now);
    StepKeeps(s, Send(alive, outcome, now));
    if s'.sending.Some? && s'.log != [] {
      StepKeeps(s', Record(now));
    }
  }

  /** What one message of a pass may do to the rows: its own is no longer due, every other is as it was,
      and only the rows of a destination that is gone go. */
  ghost predicate TookOne(rows: map<Key, Delivery>, rows': map<Key, Delivery>, now: int, alive: set<int>, key: Key) {
    && !DueKey(rows', now, key)
    && rows'.Keys <= rows.Keys
    && (forall k :: k in rows' && k != key ==> rows'[k] == rows[k])
    && (forall k :: k in rows && k !in rows' ==> k.target !in alive)
  }

  lemma NotDueAfter(d: Delivery, outcome: Outcome, now: int)
    ensures !IsDue(Deferred(d, now), now) && !IsDue(Recorded(d, outcome, now), now)
  {
    assert (now / 60 + 1) * 60 > now;
  }

  lemma TookInPlace(rows: map<Key, Delivery>, now: int, alive: set<int>, key: Key, d: Delivery)
    requires !IsDue(d, now)
    ensures TookOne(rows, if key in rows then rows[key := d] else rows, now, alive, key)
  {
    hide IsDue;
  }

  lemma TookWithItsTarget(rows: map<Key, Delivery>, now: int, alive: set<int>, key: Key)
    requires key.target !in alive
    ensures TookOne(rows, WithoutTarget(rows, key.target), now, alive, key)
  {
    hide IsDue;
  }

  /** Handling a row takes it out of what is due, and disturbs no other row of a living destination. */
  lemma HandledIsNotDue(s: State, alive: set<int>, outcome: Outcome, now: int)
    requires s.inFlight != [] && s.sending.None?
    ensures var key := s.inFlight[0];
            TookOne(s.deliveries, Handled(s, key.target in alive, outcome, now).deliveries, now, alive, key)
  {
    hide OverTheMinute, Charged, TookOne, IsDue, Deferred, Recorded, WithoutTarget;
    var key := s.inFlight[0];
    if key.target !in alive {
      TookWithItsTarget(s.deliveries, now, alive, key);
    } else {
      var d := if key in s.deliveries then s.deliveries[key] else Delivery(Queued, 0, now, []);
      NotDueAfter(d, outcome, now);
      TookInPlace(s.deliveries, now, alive, key, Deferred(d, now));
      TookInPlace(s.deliveries, now, alive, key, Recorded(d, outcome, now));
    }
  }

  ghost predicate OthersUntouched(was: map<Key, Delivery>, rows: map<Key, Delivery>, alive: set<int>, mine: seq<Key>) {
    forall key :: key in was && key !in mine && key.target in alive ==> key in rows && rows[key] == was[key]
  }

  ghost predicate NoLongerDue(rows: map<Key, Delivery>, now: int, handled: seq<Key>) {
    forall j :: 0 <= j < |handled| ==> !DueKey(rows, now, handled[j])
  }

  /** Part of a pass: the first `i` rows of the batch are no longer due, and what is not in the batch
      is as it was. */
  ghost predicate Passed(was: map<Key, Delivery>, rows: map<Key, Delivery>, now: int, known: set<int>, alive: set<int>,
      mine: seq<Key>, i: nat)
    requires i <= |mine|
  {
    && Follows(was, rows, now, known, alive)
    && OthersUntouched(was, rows, alive, mine)
    && NoLongerDue(rows, now, mine[..i])
  }

  lemma FollowsOne(was: map<Key, Delivery>, rows: map<Key, Delivery>, rows': map<Key, Delivery>, now: int,
      known: set<int>, alive: set<int>, key: Key)
    requires Follows(was, rows, now, known, alive) && TookOne(rows, rows', now, alive, key) && key.event in known
    ensures Follows(was, rows', now, known, alive)
  {
    hide IsDue;
    forall k | DueKey(rows', now, k) ensures rows'[k] == was[k] {
      assert k != key && DueKey(rows, now, k);
    }
  }

  lemma OthersStayUntouched(was: map<Key, Delivery>, rows: map<Key, Delivery>, rows': map<Key, Delivery>, now: int,
      alive: set<int>, mine: seq<Key>, key: Key)
    requires OthersUntouched(was, rows, alive, mine) && TookOne(rows, rows', now, alive, key) && key in mine
    ensures OthersUntouched(was, rows', alive, mine)
  {
    hide DueKey;
  }

  lemma OneMoreNotDue(rows: map<Key, Delivery>, rows': map<Key, Delivery>, now: int, alive: set<int>, handled: seq<Key>,
      key: Key)
    requires NoLongerDue(rows, now, handled) && TookOne(rows, rows', now, alive, key)
    ensures NoLongerDue(rows', now, handled + [key])
  {
    hide IsDue;
    forall j | 0 <= j < |handled + [key]| ensures !DueKey(rows', now, (handled + [key])[j]) {
      assert j < |handled| ==> !DueKey(rows, now, handled[j]);
    }
  }

  lemma NothingPassed(rows: map<Key, Delivery>, now: int, known: set<int>, alive: set<int>, mine: seq<Key>)
    ensures Passed(rows, rows, now, known, alive, mine, 0)
  {
    hide DueKey;
  }

  lemma PassedOne(was: map<Key, Delivery>, s: State, now: int, known: set<int>, alive: set<int>, mine: seq<Key>, i: nat,
      outcome: Outcome)
    requires i < |mine| && Passed(was, s.deliveries, now, known, alive, mine, i)
    requires mine[i].event in known && s.inFlight == mine[i..] && s.sending.None?
    ensures Passed(was, Handled(s, mine[i].target in alive, outcome, now).deliveries, now, known, alive, mine, i + 1)
  {
    hide Follows, OthersUntouched, NoLongerDue, TookOne, Handled;
    var rows' := Handled(s, mine[i].target in alive, outcome, now).deliveries;
    HandledIsNotDue(s, alive, outcome, now);
    FollowsOne(was, s.deliveries, rows', now, known, alive, mine[i]);
    OthersStayUntouched(was, s.deliveries, rows', now, alive, mine, mine[i]);
    OneMoreNotDue(s.deliveries, rows', now, alive, mine[..i], mine[i]);
    assert mine[..i] + [mine[i]] == mine[..i + 1];
  }

  /** Taking a batch that is due keeps the queue's invariant. */
  lemma TakenHolds(s: State, mine: seq<Key>)
    requires Inv(s) && s.inFlight == [] && s.sending.None? && Distinct(mine)
    requires forall i :: 0 <= i < |mine| ==> DueKey(s.deliveries, s.clock, mine[i])
    ensures Inv(s.(inFlight := mine))
  {
    hide Inv;
    StepKeeps(s, Fetch(mine, s.clock));
  }

  lemma FollowsOn(was: map<Key, Delivery>, rows: map<Key, Delivery>, rows': map<Key, Delivery>, now: int,
      known: set<int>, alive: set<int>)
    requires Follows(was, rows, now, known, alive) && Follows(rows, rows', now, known, alive)
    ensures Follows(was, rows', now, known, alive)
  {
    hide IsDue;
  }

  /** The starved rows of the start are untouched, when no destination was deleted. */
  ghost predicate StarvedAreUntouched(was: map<Key, Delivery>, rows: map<Key, Delivery>, now: int, known: set<int>,
      alive: set<int>)
  {
    (forall key :: key in was ==> key.target in alive) ==>
      forall key :: key in was && key.event in known && Starved(was, now, known, key) ==>
        key in rows && rows[key] == was[key]
  }

  lemma PassLeavesTheStarved(was: map<Key, Delivery>, rows: map<Key, Delivery>, rows': map<Key, Delivery>, now: int,
      known: set<int>, alive: set<int>, batch: seq<Key>, mine: seq<Key>)
    requires Follows(was, rows, now, known, alive) && StarvedAreUntouched(was, rows, now, known, alive)
    requires IsBatch(rows, now, batch) && forall key :: key in mine ==> key in batch
    requires Passed(rows, rows', now, known, alive, mine, |mine|)
    ensures StarvedAreUntouched(was, rows', now, known, alive)
  {
    if forall key :: key in was ==> key.target in alive {
      forall key | key in was && key.event in known && Starved(was, now, known, key)
        ensures key in rows' && rows'[key] == was[key]
      {
        var front :| StarvedBy(was, now, known, key, front);
        StillStarved(was, rows, now, known, alive, key, front);
        StarvedIsNeverTaken(rows, now, known, key, front, batch);
      }
    }
  }

  /** What the loop does to the rows. Whatever known kind is still due at the end has twenty due rows of
      unknown kinds before it, and had them at the start; and when no destination was deleted, exactly
      those that had them are left. */
  ghost predicate Drained(was: map<Key, Delivery>, rows: map<Key, Delivery>, now: int, known: set<int>,
      alive: set<int>)
  {
    && Follows(was, rows, now, known, alive)
    && (forall key :: DueKey(rows, now, key) && key.event in known ==>
          Starved(rows, now, known, key) && Starved(was, now, known, key))
    && ((forall key :: key in was ==> key.target in alive) ==>
          forall key :: DueKey(was, now, key) && key.event in known ==>
            (DueKey(rows, now, key) <==> Starved(was, now, known, key)))
  }

  /** The queue, and the loop that empties it. `log`, `raised`, `restarts`, `cut` and `begun` are histories. */
  class Queue {
    var events: map<int, Stored>
    var nextEvent: int
    var rows: map<Key, Delivery>
    var used: map<int, Slot>
    ghost var log: seq<Message>
    ghost var raised: map<Key, Raised>
    ghost var restarts: seq<int>
    ghost var cut: set<nat>
    ghost var begun: nat

    ghost function View(flight: seq<Key>, clock: int): State
      reads this
    {
      State(events, nextEvent, rows, used, flight, None, clock, log, raised, restarts, cut, begun)
    }

    /** One message of a pass. */
    method Send(key: Key, alive: set<int>, outcome: Outcome, now: int, ghost flight: seq<Key>)
      requires flight != [] && flight[0] == key
      modifies this
      ensures View(flight[1..], now) == Handled(old(View(flight, now)), key.target in alive, outcome, now)
    {
      if key.target !in alive {
        rows := WithoutTarget(rows, key.target);
        return;
      }
      var over := OverTheMinute(used, key.target, now);
      used := Charged(used, key.target, now);
      if over {
        if key in rows {
          rows := rows[key := Deferred(rows[key], now)];
        }
        return;
      }
      log := log + [Message(key, now, outcome.Accepted?)];
      if key in rows {
        rows := rows[key := Recorded(rows[key], outcome, now)];
      }
    }

    /** One pass over a batch. */
    method Pass(mine: seq<Key>, now: int, alive: set<int>, ghost known: set<int>, answers: Key -> Outcome)
      requires Distinct(mine)
      requires forall i :: 0 <= i < |mine| ==> DueKey(rows, now, mine[i]) && mine[i].event in known
      requires Inv(View([], now))
      modifies this
      ensures Inv(View([], now))
      ensures Passed(old(rows), rows, now, known, alive, mine, |mine|)
    {
      hide Inv, Handled, Passed, DueKey, Distinct;
      TakenHolds(View([], now), mine);
      NothingPassed(rows, now, known, alive, mine);
      assert mine[0..] == mine;
      var i := 0;
      while i < |mine|
        invariant 0 <= i <= |mine|
        invariant Inv(View(mine[i..], now))
        invariant Passed(old(rows), rows, now, known, alive, mine, i)
      {
        ghost var before := View(mine[i..], now);
        HandledKeeps(before, mine[i].target in alive, answers(mine[i]), now);
        PassedOne(old(rows), before, now, known, alive, mine, i, answers(mine[i]));
        Send(mine[i], alive, answers(mine[i]), now, mine[i..]);
        assert mine[i..][1..] == mine[i + 1..];
        i := i + 1;
      }
      assert mine[i..] == [];
    }

    /** Everything that is due is handled once, but for what rows of unknown kinds starve. */
    method Drain(now: int, alive: set<int>, known: set<int>, answers: Key -> Outcome)
      requires Inv(View([], now))
      modifies this
      ensures Inv(View([], now))
      ensures Drained(old(rows), rows, now, known, alive)
    {
      hide Inv, Follows, Passed, IsBatch, Starved, StarvedAreUntouched, Drained, DueKnown, IsDue, Known;
      NothingYet(rows, now, known, alive);
      while true
        invariant Inv(View([], now))
        invariant Follows(old(rows), rows, now, known, alive)
        invariant StarvedAreUntouched(old(rows), rows, now, known, alive)
        decreases DueKnown(rows, now, known)
      {
        ghost var was := rows;
        var batch := TakeDue(rows, now);
        KnownMeans(batch, known);
        var mine := Known(batch, known);
        if mine == [] {
          NothingLeftToTake(old(rows), rows, now, known, alive, batch);
          return;
        }
        MineAreDue(rows, now, known, batch, mine);
        Pass(mine, now, alive, known, answers);
        PassLeavesTheStarved(old(rows), was, rows, now, known, alive, batch, mine);
        PassTakesAway(was, rows, now, known, alive, mine);
        FollowsOn(old(rows), was, rows, now, known, alive);
      }
    }
  }

  lemma NothingYet(rows: map<Key, Delivery>, now: int, known: set<int>, alive: set<int>)
    ensures StarvedAreUntouched(rows, rows, now, known, alive) && Follows(rows, rows, now, known, alive)
  {
    hide Starved;
  }

  lemma NothingLeftToTake(was: map<Key, Delivery>, rows: map<Key, Delivery>, now: int, known: set<int>, alive: set<int>,
      batch: seq<Key>)
    requires Follows(was, rows, now, known, alive) && StarvedAreUntouched(was, rows, now, known, alive)
    requires IsBatch(rows, now, batch) && Known(batch, known) == []
    ensures Drained(was, rows, now, known, alive)
  {
    hide IsBatch, Follows, Starved, StarvedAreUntouched, IsDue;
    LeftIsStarved(was, rows, now, known, alive, batch);
    StarvedAreLeft(was, rows, now, known, alive);
  }

  lemma StarvedAreLeft(was: map<Key, Delivery>, rows: map<Key, Delivery>, now: int, known: set<int>, alive: set<int>)
    requires StarvedAreUntouched(was, rows, now, known, alive)
    ensures (forall key :: key in was ==> key.target in alive) ==>
              forall key :: DueKey(was, now, key) && key.event in known && Starved(was, now, known, key) ==>
                DueKey(rows, now, key)
  {
    hide Starved, IsDue;
  }

  lemma MineAreDue(rows: map<Key, Delivery>, now: int, known: set<int>, batch: seq<Key>, mine: seq<Key>)
    requires IsBatch(rows, now, batch) && forall key :: key in mine <==> key in batch && key.event in known
    requires Distinct(batch) ==> Distinct(mine)
    ensures Distinct(mine)
    ensures forall i :: 0 <= i < |mine| ==> DueKey(rows, now, mine[i]) && mine[i].event in known
  {
    forall i | 0 <= i < |mine| ensures DueKey(rows, now, mine[i]) && mine[i].event in known {
      assert mine[i] in mine;
    }
  }

  lemma PassTakesAway(was: map<Key, Delivery>, rows: map<Key, Delivery>, now: int, known: set<int>, alive: set<int>,
      mine: seq<Key>)
    requires mine != [] && Passed(was, rows, now, known, alive, mine, |mine|)
    requires DueKey(was, now, mine[0]) && mine[0].event in known
    ensures Follows(was, rows, now, known, alive)
    ensures DueKnown(rows, now, known) < DueKnown(was, now, known)
  {
    forall key | key in DueKnown(rows, now, known) ensures key in DueKnown(was, now, known) {
      assert DueKey(rows, now, key);
    }
    assert mine[..|mine|][0] == mine[0];
    assert !DueKey(rows, now, mine[0]);
    assert mine[0] in DueKnown(was, now, known) && mine[0] !in DueKnown(rows, now, known);
  }

  lemma LeftIsStarved(was: map<Key, Delivery>, rows: map<Key, Delivery>, now: int, known: set<int>, alive: set<int>,
      batch: seq<Key>)
    requires Follows(was, rows, now, known, alive) && IsBatch(rows, now, batch) && Known(batch, known) == []
    ensures forall key :: DueKey(rows, now, key) && key.event in known ==>
              Starved(rows, now, known, key) && Starved(was, now, known, key)
  {
    forall key | DueKey(rows, now, key) && key.event in known
      ensures Starved(rows, now, known, key) && Starved(was, now, known, key)
    {
      NothingKnownInTheBatch(rows, now, known, batch, key);
      WasStarved(was, rows, now, known, alive, key);
    }
  }

  // ------------------------------------------------------------------ a queue that starves a row

  const WATCHER: Target := Target(1, None, {NewItems}, Info, true, 0)

  function Happening(n: nat): Event {
    Event(NewItems, 0, seq(n, i => 'x'), Info, None)
  }

  /** One event after another, all for one destination, all at one moment. */
  function Raises(n: nat): seq<Step> {
    if n == 0 then [] else Raises(n - 1) + [Raise(Happening(n), [WATCHER], map[], 0)]
  }

  ghost predicate Jammed(s: State, n: nat) {
    && s.nextEvent == n + 1 && s.inFlight == [] && s.sending.None? && s.clock == 0
    && s.log == [] && s.used == map[] && s.restarts == []
    && (forall id :: id in s.events <==> 1 <= id <= n)
    && (forall id :: 1 <= id <= n ==> |s.events[id].event.dedupe| == id)
    && (forall key :: key in s.deliveries <==> key.target == 1 && 1 <= key.event <= n)
    && (forall key :: key in s.deliveries ==> s.deliveries[key] == Delivery(Queued, 0, 0, []))
  }

  lemma WatcherIsCalled(n: nat)
    ensures AnyoneWants([WATCHER], Happening(n).kind) && |Happening(n).dedupe| == n && !Historic(Happening(n), 0)
    ensures Raisings(n, Happening(n), [WATCHER], map[], 0) == map[Key(n, 1) := Raised(Happening(n), WATCHER, None, 0)]
  {
    assert WATCHER in [WATCHER];
    assert [WATCHER][..0] == [];
    assert Raisings(n, Happening(n), [], map[], 0) == map[];
  }

  lemma OneMoreQueued(rows: map<Key, Delivery>, r: Raised, n: nat)
    requires forall key :: key in rows <==> key.target == 1 && 1 <= key.event <= n
    requires forall key :: key in rows ==> rows[key] == Delivery(Queued, 0, 0, [])
    ensures var rows' := QueuedFor(rows, map[Key(n + 1, 1) := r], 0);
            && (forall key :: key in rows' <==> key.target == 1 && 1 <= key.event <= n + 1)
            && (forall key :: key in rows' ==> rows'[key] == Delivery(Queued, 0, 0, []))
  {
  }

  lemma OneMoreRaise(s: State, n: nat)
    requires Jammed(s, n)
    ensures Jammed(DoRaise(s, Happening(n + 1), [WATCHER], map[], 0), n + 1)
  {
    hide Raisings, WantedBy, AnyoneWants, Historic, Happening, QueuedFor;
    WatcherIsCalled(n + 1);
    assert !IsKnown(s.events, Happening(n + 1).dedupe);
    hide IsKnown;
    OneMoreQueued(s.deliveries, Raised(Happening(n + 1), WATCHER, None, 0), n);
  }

  lemma RaisesNext(n: nat)
    requires n > 0
    ensures Raises(n) == Raises(n - 1) + [Raise(Happening(n), [WATCHER], map[], 0)]
  {
  }

  lemma {:induction false} ManyRaises(n: nat)
    ensures Jammed(RunFrom(EMPTY, Raises(n)), n) && Inv(RunFrom(EMPTY, Raises(n)))
  {
    hide Jammed, Inv, DoRaise, RunFrom, Raises, Happening;
    StartHolds();
    RunKeeps(EMPTY, Raises(n));
    if n == 0 {
      NothingJammed();
    } else {
      ManyRaises(n - 1);
      RaisesNext(n);
      var s, step := RunFrom(EMPTY, Raises(n - 1)), Raise(Happening(n), [WATCHER], map[], 0);
      ClockIsZero(s, n - 1);
      RunExtends(EMPTY, Raises(n - 1), step);
      OneMoreRaise(s, n - 1);
    }
  }

  lemma ClockIsZero(s: State, n: nat)
    requires Jammed(s, n)
    ensures s.clock == 0 && s.inFlight == [] && s.sending.None?
  {
  }

  lemma NothingJammed()
    ensures Raises(0) == [] && RunFrom(EMPTY, []) == EMPTY && Jammed(EMPTY, 0)
  {
  }

  lemma JamStarves(s: State)
    requires Jammed(s, BATCH + 1)
    ensures Starved(s.deliveries, 0, {BATCH + 1}, Key(BATCH + 1, 1))
  {
    var front := seq(BATCH, i => Key(i + 1, 1));
    assert StarvedBy(s.deliveries, 0, {BATCH + 1}, Key(BATCH + 1, 1), front);
  }

  lemma StarvedIsLeft(was: map<Key, Delivery>, rows: map<Key, Delivery>, now: int, known: set<int>, alive: set<int>,
      key: Key)
    requires Drained(was, rows, now, known, alive) && forall k :: k in was ==> k.target in alive
    requires DueKey(was, now, key) && key.event in known && Starved(was, now, known, key)
    ensures DueKey(rows, now, key)
  {
  }

  lemma JamIsLeft(s: State, rows: map<Key, Delivery>)
    requires Jammed(s, BATCH + 1)
    ensures DueKey(s.deliveries, 0, Key(BATCH + 1, 1))
    ensures Drained(s.deliveries, rows, 0, {BATCH + 1}, {1}) ==> DueKey(rows, 0, Key(BATCH + 1, 1))
  {
    hide Drained, Starved;
    JamStarves(s);
    if Drained(s.deliveries, rows, 0, {BATCH + 1}, {1}) {
      StarvedIsLeft(s.deliveries, rows, 0, {BATCH + 1}, {1}, Key(BATCH + 1, 1));
    }
  }

  /** So the loop does not always return with nothing due. After a run of twenty-one events, of which only
      the last is of a known kind, its row is due before the loop and after it. */
  lemma ARowCanStarve(rows: map<Key, Delivery>)
    ensures var s := RunFrom(EMPTY, Raises(BATCH + 1));
            var last := Key(BATCH + 1, 1);
            && Inv(s) && s.inFlight == [] && s.sending.None? && s.clock == 0 && DueKey(s.deliveries, 0, last)
            && (Drained(s.deliveries, rows, 0, {BATCH + 1}, {1}) ==> DueKey(rows, 0, last))
  {
    hide RunFrom, Raises, Inv, Jammed, Drained, DueKey;
    ManyRaises(BATCH + 1);
    var s := RunFrom(EMPTY, Raises(BATCH + 1));
    JamIsLeft(s, rows);
    ClockIsZero(s, BATCH + 1);
  }

  /** With fewer than twenty rows of unknown kinds due, nothing is starved. */
  lemma FewUnknownStarveNothing(rows: map<Key, Delivery>, now: int, known: set<int>, key: Key)
    requires |set k | k in rows && IsDue(rows[k], now) && k.event !in known| < BATCH
    ensures !Starved(rows, now, known, key)
  {
    if Starved(rows, now, known, key) {
      var front :| StarvedBy(rows, now, known, key, front);
      SetOfDistinct(front);
      SubsetIsNoLarger(set k | k in front, set k | k in rows && IsDue(rows[k], now) && k.event !in known);
    }
  }
}
