/** The collector's loop as a step relation: whatever the socket, the server and the clock do, in any
    order. The gate appears here as the history of what it granted, which is what `Gate.Reads` is
    proved to answer from; the clocks and the debounce as the values `Transport.Pass` is proved to
    hold. Ghost histories (`attempts`, `readings`) record every read attempt and every list. */
module Loop {
  import opened Clock
  import opened Numbers
  import opened Options
  import opened Sets
  import opened Transport
  import G = Gate

  /** One attempt to read `/Sessions`, granted or refused. `oneShot` is the net's; `active` is how
      many sessions had something loaded at the time. */
  datatype Attempt = Attempt(at: nat, oneShot: bool, active: nat)

  datatype State = State(
    clock: nat,
    pass: PassState,
    granted: seq<G.Read>,
    socketLive: bool,
    mode: Mode,
    active: nat,
    playing: nat,
    attempts: seq<Attempt>,
    readings: seq<Reading>)

  datatype Event =
    | Wait(dt: nat)          // the clock moves on
    | Push                   // a pushed list is heard
    | Wire(on: bool)         // the subscription as the wire has it
    | Socket(live: bool)     // the socket starts or stops carrying
    | Saw(list: Reading)     // a session list is acted on, pushed or asked for
    | Beat                   // a read on the polling timer
    | Net                    // a one-shot read
    | SocketCheck            // the socket's own consistency read, which bypasses `Pass`

  function Start(now: nat): State {
    State(now, PassState(0, Clocks(now, now), false), [], false, Poll, 0, 0, [], [])
  }

  predicate OnSocket(s: State) {
    s.socketLive && s.mode == Listen
  }

  /** What the loop will do. Everything else is the environment's to decide. */
  predicate Enabled(s: State, e: Event) {
    match e
    case Beat => !OnSocket(s)
    case Net => OnSocket(s) && Due(s.pass.net, s.clock, s.active) == 0
    case _ => true
  }

  /** `take_read`: the gate is asked, and both clocks are re-armed whatever it answers. */
  function TakeRead(s: State, oneShot: bool): State {
    var listening := ListeningMode(SessionModeOf(s.socketLive, s.mode, s.active));
    s.(pass := s.pass.(net := Clocks(s.clock, s.clock)),
       granted := G.Asked(s.granted, s.clock, listening),
       attempts := s.attempts + [Attempt(s.clock, oneShot, s.active)])
  }

  function Apply(s: State, e: Event): State {
    match e
    case Wait(dt) => s.(clock := s.clock + dt)
    case Push => s.(pass := s.pass.(net := s.pass.net.(activity := s.clock)))
    case Wire(on) => s.(pass := Wired(s.pass, s.clock, on))
    case Socket(live) => s.(socketLive := live)
    case Saw(r) =>
      s.(pass := s.pass.(pausedFor := Debounced(s.pass.pausedFor, r)),
         mode := Decided(s.pass.pausedFor, r, s.socketLive),
         active := r.active, playing := r.playing,
         readings := s.readings + [r])
    case Beat => TakeRead(s, false)
    case Net => TakeRead(s, true)
    case SocketCheck => s.(granted := G.Asked(s.granted, s.clock, false))
  }

  /** The state after a whole run. An event the loop would not perform at its moment does nothing. */
  function Run(start: nat, events: seq<Event>): State {
    if events == [] then Start(start)
    else
      var s := Run(start, events[..|events| - 1]);
      var e := events[|events| - 1];
      if Enabled(s, e) then Apply(s, e) else s
  }

  lemma RunExtends(start: nat, events: seq<Event>, e: Event)
    requires Enabled(Run(start, events), e)
    ensures Run(start, events + [e]) == Apply(Run(start, events), e)
  {
    assert (events + [e])[..|events + [e]| - 1] == events;
  }

  // ------------------------------------------------------------------ what every step keeps

  /** `activity` is never older than `read`, and `read` is when the last attempt was made. */
  ghost predicate ClocksHold(s: State) {
    && s.pass.net.read <= s.pass.net.activity <= s.clock
    && forall i :: 0 <= i < |s.attempts| ==> s.attempts[i].at <= s.pass.net.read
  }

  /** A one-shot read never comes sooner than its least gap after any earlier attempt. */
  ghost predicate Apart(attempts: seq<Attempt>) {
    forall i, j :: 0 <= i < j < |attempts| && attempts[j].oneShot ==>
      attempts[j].at - attempts[i].at >= LeastGap(attempts[j].active)
  }

  /** Reads granted while listening are the one-shot reads, so they are a minute apart as well. */
  ghost predicate ListeningReadsApart(granted: seq<G.Read>) {
    forall i, j :: 0 <= i < j < |granted| && granted[i].listening && granted[j].listening ==>
      granted[j].at - granted[i].at >= MINUTE
  }

  ghost predicate Inv(s: State) {
    && ClocksHold(s)
    && Apart(s.attempts)
    && G.Lawful(s.granted, s.clock)
    && Heard(s.granted, s.pass.net.read)
    && s.pass.pausedFor == DebouncedOver(s.readings)
  }

  lemma AttemptKeepsApart(attempts: seq<Attempt>, last: nat, a: Attempt)
    requires Apart(attempts)
    requires forall i :: 0 <= i < |attempts| ==> attempts[i].at <= last
    requires last <= a.at && (a.oneShot ==> a.at - last >= LeastGap(a.active))
    ensures Apart(attempts + [a])
    ensures forall i :: 0 <= i < |attempts + [a]| ==> (attempts + [a])[i].at <= a.at
  {
  }

  /** `last` is when the loop last attempted a read. */
  ghost predicate Heard(granted: seq<G.Read>, last: nat) {
    ListeningReadsApart(granted) && forall i :: 0 <= i < |granted| && granted[i].listening ==> granted[i].at <= last
  }

  lemma GrantKeepsHeard(granted: seq<G.Read>, last: nat, r: G.Read, last': nat)
    requires Heard(granted, last) && last <= last'
    requires r.listening ==> r.at - last >= MINUTE && last' >= r.at
    ensures Heard(granted + [r], last')
  {
  }

  lemma ReadKeeps(s: State, oneShot: bool)
    requires Inv(s)
    requires if oneShot then Enabled(s, Net) else Enabled(s, Beat)
    ensures Inv(TakeRead(s, oneShot))
  {
    var last := s.pass.net.read;
    if oneShot {
      DueMeansLongAgo(s.pass.net, s.clock, s.active);
    }
    var listening := ListeningMode(SessionModeOf(s.socketLive, s.mode, s.active));
    assert listening <==> oneShot;
    AttemptKeepsApart(s.attempts, last, Attempt(s.clock, oneShot, s.active));
    GrantKeepsHeard(s.granted, last, G.Read(s.clock, listening), s.clock);
    AskKeepsGateLawful(s.granted, s.clock, listening);
  }

  lemma AskKeepsGateLawful(granted: seq<G.Read>, now: nat, listening: bool)
    requires G.Lawful(granted, now)
    ensures G.Lawful(G.Asked(granted, now, listening), now)
  {
    assert granted[0..] == granted;
    G.AskingKeepsTheLaw(granted, granted, 0, now, listening);
  }

  lemma SawKeeps(s: State, r: Reading)
    requires Inv(s)
    ensures Inv(Apply(s, Saw(r)))
  {
    assert (s.readings + [r])[..|s.readings|] == s.readings;
  }

  lemma CheckKeeps(s: State)
    requires Inv(s)
    ensures Inv(Apply(s, SocketCheck))
  {
    GrantKeepsHeard(s.granted, s.pass.net.read, G.Read(s.clock, false), s.pass.net.read);
    AskKeepsGateLawful(s.granted, s.clock, false);
  }

  lemma StepKeeps(s: State, e: Event)
    requires Inv(s) && Enabled(s, e)
    ensures Inv(Apply(s, e))
  {
    match e
    case Beat => ReadKeeps(s, false);
    case Net => ReadKeeps(s, true);
    case SocketCheck => CheckKeeps(s);
    case Saw(r) => SawKeeps(s, r);
    case _ =>
  }

  lemma {:induction false} RunKeeps(start: nat, events: seq<Event>)
    ensures Inv(Run(start, events))
  {
    if events != [] {
      RunKeeps(start, events[..|events| - 1]);
      var s, e := Run(start, events[..|events| - 1]), events[|events| - 1];
      if Enabled(s, e) {
        StepKeeps(s, e);
      }
    }
  }

  // ------------------------------------------------------------------ whole runs

  /** In every interleaving of pushes, subscription changes, poll reads and one-shot reads, refused
      attempts included, a one-shot read is never attempted less than a minute after any earlier
      attempt of the loop, nor less than five minutes when nothing is loaded. */
  lemma OneShotReadsAreFarApart(start: nat, events: seq<Event>, i: nat, j: nat)
    requires i < j < |Run(start, events).attempts|
    requires Run(start, events).attempts[j].oneShot
    ensures var a := Run(start, events).attempts;
            a[j].at - a[i].at >= if a[j].active > 0 then 60 * SECOND else 300 * SECOND
  {
    RunKeeps(start, events);
  }

  function OneShots(attempts: seq<Attempt>, from: nat, to: nat): nat {
    if attempts == [] then 0
    else
      var a := attempts[|attempts| - 1];
      OneShots(attempts[..|attempts| - 1], from, to) + (if a.oneShot && from <= a.at <= to then 1 else 0)
  }

  /** What is counted are the one-shot reads on record that were made in that time. */
  lemma {:induction false} OneShotsAreCounted(attempts: seq<Attempt>, from: nat, to: nat)
    ensures OneShots(attempts, from, to) == |Where(attempts, (a: Attempt) => a.oneShot && from <= a.at <= to)|
  {
    var counts := (a: Attempt) => a.oneShot && from <= a.at <= to;
    if attempts == [] {
      assert Where(attempts, counts) == {};
    } else {
      OneShotsAreCounted(attempts[..|attempts| - 1], from, to);
      assert attempts == attempts[..|attempts| - 1] + [attempts[|attempts| - 1]];
      OneMoreWhere(attempts[..|attempts| - 1], attempts[|attempts| - 1], counts);
      hide Where;
    }
  }

  /** The last one-shot read counted in a window is as many minutes into it as were counted before. */
  lemma {:induction false} EachTakesAMinute(attempts: seq<Attempt>, from: nat, to: nat) returns (last: nat)
    requires Apart(attempts)
    requires OneShots(attempts, from, to) > 0
    ensures last < |attempts| && attempts[last].oneShot
    ensures from + (OneShots(attempts, from, to) - 1) * MINUTE <= attempts[last].at <= to
  {
    var n := |attempts| - 1;
    var front := attempts[..n];
    if attempts[n].oneShot && from <= attempts[n].at <= to {
      last := n;
      if OneShots(front, from, to) > 0 {
        var before := EachTakesAMinute(front, from, to);
        assert attempts[n].at - attempts[before].at >= LeastGap(attempts[n].active);
      }
    } else {
      last := EachTakesAMinute(front, from, to);
    }
  }

  /** The read storm is impossible: any span of time, in any run, holds at most one one-shot read per
      whole minute of it, and one more. */
  lemma NeverAStorm(start: nat, events: seq<Event>, from: nat, span: nat)
    ensures OneShots(Run(start, events).attempts, from, from + span) <= span / (60 * SECOND) + 1
  {
    RunKeeps(start, events);
    var attempts := Run(start, events).attempts;
    var n := OneShots(attempts, from, from + span);
    if n > 0 {
      var last := EachTakesAMinute(attempts, from, from + span);
      assert (n - 1) * MINUTE <= span;
    }
  }

  /** And whatever the state machine believes, the gate holds: at most two reads of any kind in any
      half-open second, seventy in any half-open minute. */
  lemma GateHoldsInEveryRun(start: nat, events: seq<Event>, from: nat)
    ensures G.Count(Run(start, events).granted, from, from + SECOND) <= 2
    ensures G.Count(Run(start, events).granted, from, from + 60 * SECOND) <= 70
  {
    RunKeeps(start, events);
    G.SpacedBoundsEveryWindow(Run(start, events).granted, SECOND, 2, from);
    G.SpacedBoundsEveryWindow(Run(start, events).granted, MINUTE, 70, from);
  }

  /** In every run a read of any kind goes out exactly when fewer than two did in the last second and fewer
      than seventy in the last minute; the one-shot reads, and no others, count as made while listening. */
  lemma AReadGoesOutExactlyWhenFew(start: nat, events: seq<Event>, e: Event)
    requires e == Beat || e == Net || e == SocketCheck
    requires Enabled(Run(start, events), e)
    ensures var s := Run(start, events);
            Run(start, events + [e]).granted ==
            if |G.Within(s.granted, s.clock, SECOND)| < 2 && |G.Within(s.granted, s.clock, 60 * SECOND)| < 70
            then s.granted + [G.Read(s.clock, e == Net)] else s.granted
  {
    RunKeeps(start, events);
    RunExtends(start, events, e);
    var s := Run(start, events);
    G.GrantedExactlyWhenFew(s.granted, s.clock);
    hide Run, G.Answer, Due;
  }

  // ------------------------------------------------------------------ a run told from its events

  function Elapsed(events: seq<Event>): nat {
    if events == [] then 0
    else Elapsed(events[..|events| - 1]) + match events[|events| - 1] case Wait(dt) => dt case _ => 0
  }

  /** When event `k` of a run happens. */
  function At(start: nat, events: seq<Event>, k: nat): nat
    requires k <= |events|
  {
    start + Elapsed(events[..k])
  }

  /** Event `k` is a push, a read of the loop itself, or a subscription that the wire did not have before. */
  ghost predicate BreaksTheSilence(start: nat, events: seq<Event>, k: nat)
    requires k < |events|
  {
    events[k] == Push || IsRead(start, events, k) || (events[k] == Wire(true) && !HasSubscription(events[..k]))
  }

  ghost predicate IsRead(start: nat, events: seq<Event>, k: nat)
    requires k < |events|
  {
    (events[k] == Beat || events[k] == Net) && Enabled(Run(start, events[..k]), events[k])
  }

  /** `on` was said, and `off` was not said since. */
  ghost predicate Stands(events: seq<Event>, on: Event, off: Event) {
    exists j :: 0 <= j < |events| && events[j] == on && off !in events[j..]
  }

  /** The wire was last told on. */
  ghost predicate HasSubscription(events: seq<Event>) {
    Stands(events, Wire(true), Wire(false))
  }

  ghost predicate LastSocketIsLive(events: seq<Event>) {
    Stands(events, Socket(true), Socket(false))
  }

  function ReadingsOf(events: seq<Event>): seq<Reading> {
    if events == [] then []
    else ReadingsOf(events[..|events| - 1]) + match events[|events| - 1] case Saw(r) => [r] case _ => []
  }

  function LastOf(readings: seq<Reading>): Reading {
    if readings == [] then Reading(0, 0) else readings[|readings| - 1]
  }

  /** Nothing has broken the silence for this long, and there has been no read. */
  ghost predicate SilentFor(start: nat, events: seq<Event>, span: nat) {
    && Elapsed(events) >= span
    && forall k :: 0 <= k < |events| && BreaksTheSilence(start, events, k) ==>
         At(start, events, k) + span <= start + Elapsed(events)
  }

  ghost predicate UnreadFor(start: nat, events: seq<Event>, span: nat) {
    && Elapsed(events) >= span
    && forall k :: 0 <= k < |events| && IsRead(start, events, k) ==>
         At(start, events, k) + span <= start + Elapsed(events)
  }

  lemma StandsOrFalls(events: seq<Event>, e: Event, on: Event, off: Event)
    requires on != off
    ensures Stands(events + [e], on, off) <==> e == on || (e != off && Stands(events, on, off))
  {
    var all := events + [e];
    if Stands(events, on, off) {
      var j :| 0 <= j < |events| && events[j] == on && off !in events[j..];
      assert all[j] == on && all[j..] == events[j..] + [e];
    }
    if j :| 0 <= j < |all| && all[j] == on && off !in all[j..] {
      if j < |events| {
        assert all[j..] == events[j..] + [e] && events[j] == on;
      }
    }
    assert all[|events|] == e && all[|events|..] == [e];
  }

  lemma SubscriptionGrows(events: seq<Event>, e: Event)
    ensures HasSubscription(events + [e]) <==> e == Wire(true) || (e != Wire(false) && HasSubscription(events))
    ensures LastSocketIsLive(events + [e]) <==> e == Socket(true) || (e != Socket(false) && LastSocketIsLive(events))
  {
    hide Stands;
    StandsOrFalls(events, e, Wire(true), Wire(false));
    StandsOrFalls(events, e, Socket(true), Socket(false));
  }

  /** The last list was seen over a live socket, nothing was running in it, and either nothing was loaded or
      this list and the two before it were all loaded and paused. */
  ghost predicate Listens(events: seq<Event>) {
    if events == [] then false
    else
      var front := events[..|events| - 1];
      match events[|events| - 1]
      case Saw(r) => LastSocketIsLive(front) && r.playing == 0 && (r.active == 0 || LastThreePaused(ReadingsOf(events)))
      case _ => Listens(front)
  }

  /** What the loop knows at the end of a run is what the events say: the time, whether the socket is live,
      whether the wire has the subscription, what was listed last, and whether to listen. */
  ghost predicate Told(s: State, start: nat, events: seq<Event>) {
    && s.clock == start + Elapsed(events)
    && (s.socketLive <==> LastSocketIsLive(events))
    && (s.pass.subscribed <==> HasSubscription(events))
    && s.readings == ReadingsOf(events)
    && Reading(s.active, s.playing) == LastOf(ReadingsOf(events))
    && (s.mode == Listen <==> Listens(events))
  }

  lemma {:induction false} RunIsTold(start: nat, events: seq<Event>)
    ensures Told(Run(start, events), start, events)
  {
    hide Told, Enabled, Apply;
    if events == [] {
      NothingTold(start);
    } else {
      var front, e := events[..|events| - 1], events[|events| - 1];
      assert events == front + [e];
      RunIsTold(start, front);
      RunKeeps(start, front);
      StepIsTold(Run(start, front), start, front, e);
    }
  }

  lemma NothingTold(start: nat)
    ensures Told(Start(start), start, [])
  {
  }

  lemma StepShows(s: State, e: Event)
    ensures var s' := if Enabled(s, e) then Apply(s, e) else s;
            && s'.clock == s.clock + (if e.Wait? then e.dt else 0)
            && s'.socketLive == (if e.Socket? then e.live else s.socketLive)
            && s'.pass.subscribed == (if e.Wire? then e.on else s.pass.subscribed)
            && s'.readings == (if e.Saw? then s.readings + [e.list] else s.readings)
            && Reading(s'.active, s'.playing) == (if e.Saw? then e.list else Reading(s.active, s.playing))
            && s'.mode == if e.Saw? then Decided(s.pass.pausedFor, e.list, s.socketLive) else s.mode
  {
    hide Due, Decided, Debounced, G.Asked, SessionModeOf;
  }

  lemma EventsGrow(front: seq<Event>, e: Event)
    ensures Elapsed(front + [e]) == Elapsed(front) + if e.Wait? then e.dt else 0
    ensures ReadingsOf(front + [e]) == ReadingsOf(front) + if e.Saw? then [e.list] else []
    ensures Listens(front + [e]) <==>
              if e.Saw?
              then LastSocketIsLive(front) && e.list.playing == 0
                   && (e.list.active == 0 || LastThreePaused(ReadingsOf(front + [e])))
              else Listens(front)
  {
    hide LastSocketIsLive, LastThreePaused;
    var all := front + [e];
    assert all[..|all| - 1] == front && all[|all| - 1] == e;
  }

  lemma StepIsTold(s: State, start: nat, front: seq<Event>, e: Event)
    requires Told(s, start, front) && Inv(s)
    ensures Told(if Enabled(s, e) then Apply(s, e) else s, start, front + [e])
  {
    hide HasSubscription, LastSocketIsLive, Elapsed, ReadingsOf, Listens, Decided, LastThreePaused, Enabled, Apply;
    EventsGrow(front, e);
    assert s.pass.pausedFor == DebouncedOver(s.readings);
    hide Inv, DebouncedOver;
    StepShows(s, e);
    SubscriptionGrows(front, e);
    if e.Saw? {
      ModeOverReadings(s, e.list);
    }
  }

  lemma ModeOverReadings(s: State, r: Reading)
    requires s.pass.pausedFor == DebouncedOver(s.readings)
    ensures Decided(s.pass.pausedFor, r, s.socketLive) == Listen <==>
              s.socketLive && r.playing == 0 && (r.active == 0 || LastThreePaused(s.readings + [r]))
  {
    ModeAfterAReading(s.readings, r);
    hide DebouncedOver, LastThreePaused;
  }

  /** In every run each read of the loop, granted or refused, is on record with its moment and what was
      loaded then. */
  lemma {:induction false} EveryReadIsOnRecord(start: nat, events: seq<Event>, k: nat)
    requires k < |events| && IsRead(start, events, k)
    ensures Attempt(At(start, events, k), events[k] == Net, LastOf(ReadingsOf(events[..k])).active)
         in Run(start, events).attempts
  {
    hide Due, IsRead, Apply, Told;
    var n := |events| - 1;
    var front, e := events[..n], events[n];
    if k < n {
      assert front[..k] == events[..k];
      assert IsRead(start, front, k) by {
        ReadsAreTheSame(start, front, events, k);
      }
      EveryReadIsOnRecord(start, front, k);
      AttemptsStay(Run(start, front), e);
    } else {
      RunIsTold(start, front);
      ReadsAreTheSame(start, events, events, k);
      ReadIsRecorded(start, front, e);
    }
  }

  lemma ReadsAreTheSame(start: nat, a: seq<Event>, b: seq<Event>, k: nat)
    requires k < |a| && k < |b| && a[..k] == b[..k] && a[k] == b[k]
    ensures IsRead(start, a, k) <==> IsRead(start, b, k)
    ensures IsRead(start, a, k) ==> (a[k] == Beat || a[k] == Net) && Enabled(Run(start, a[..k]), a[k])
  {
    hide Enabled, Run;
  }

  lemma ReadIsRecorded(start: nat, front: seq<Event>, e: Event)
    requires e == Beat || e == Net
    requires Told(Run(start, front), start, front)
    ensures Attempt(start + Elapsed(front), e == Net, LastOf(ReadingsOf(front)).active)
         in Apply(Run(start, front), e).attempts
  {
    hide Run, HasSubscription, LastSocketIsLive, Listens, Elapsed, ReadingsOf, G.Asked, SessionModeOf;
  }

  lemma AttemptsStay(s: State, e: Event)
    ensures s.attempts <= Apply(s, e).attempts
  {
  }

  /** `t` is when the silence was last broken, or the start; `r` when there was last a read. */
  ghost predicate LastBroken(start: nat, events: seq<Event>, t: nat) {
    && start <= t
    && (t == start || exists k :: 0 <= k < |events| && BreaksTheSilence(start, events, k) && At(start, events, k) == t)
    && forall k :: 0 <= k < |events| && BreaksTheSilence(start, events, k) ==> At(start, events, k) <= t
  }

  ghost predicate LastRead(start: nat, events: seq<Event>, t: nat) {
    && start <= t
    && (t == start || exists k :: 0 <= k < |events| && IsRead(start, events, k) && At(start, events, k) == t)
    && forall k :: 0 <= k < |events| && IsRead(start, events, k) ==> At(start, events, k) <= t
  }

  lemma SameBefore(start: nat, front: seq<Event>, e: Event)
    ensures forall k :: 0 <= k < |front| ==>
              && (BreaksTheSilence(start, front + [e], k) <==> BreaksTheSilence(start, front, k))
              && (IsRead(start, front + [e], k) <==> IsRead(start, front, k))
              && At(start, front + [e], k) == At(start, front, k)
    ensures At(start, front + [e], |front|) == start + Elapsed(front)
    ensures IsRead(start, front + [e], |front|) <==> (e == Beat || e == Net) && Enabled(Run(start, front), e)
    ensures BreaksTheSilence(start, front + [e], |front|) <==>
              || e == Push
              || ((e == Beat || e == Net) && Enabled(Run(start, front), e))
              || (e == Wire(true) && !HasSubscription(front))
  {
    hide Enabled, Run, HasSubscription, Elapsed;
    var all := front + [e];
    assert all[..|front|] == front && all[|front|] == e;
    forall k | 0 <= k < |front| ensures all[..k] == front[..k] && all[k] == front[k] {
    }
  }

  lemma {:induction false} ClocksAreTold(start: nat, events: seq<Event>)
    ensures LastBroken(start, events, Run(start, events).pass.net.activity)
    ensures LastRead(start, events, Run(start, events).pass.net.read)
  {
    if events != [] {
      var n := |events| - 1;
      var front, e := events[..n], events[n];
      assert events == front + [e];
      ClocksAreTold(start, front);
      RunIsTold(start, front);
      RunKeeps(start, front);
      SameBefore(start, front, e);
      var s, s' := Run(start, front), Run(start, events);
      assert s' == if Enabled(s, e) then Apply(s, e) else s;
      hide Run, HasSubscription, LastSocketIsLive, Listens, BreaksTheSilence, IsRead, At, Elapsed, ReadingsOf;
      assert s.pass.net.read <= s.pass.net.activity <= s.clock == start + Elapsed(front);
      hide Inv;
      NextBroken(start, front, e, s.pass.net.activity, s'.pass.net.activity);
      NextRead(start, front, e, s.pass.net.read, s'.pass.net.read);
    }
  }

  lemma NextBroken(start: nat, front: seq<Event>, e: Event, t: nat, t': nat)
    requires LastBroken(start, front, t) && t <= start + Elapsed(front)
    requires t' == if BreaksTheSilence(start, front + [e], |front|) then start + Elapsed(front) else t
    ensures LastBroken(start, front + [e], t')
  {
    SameBefore(start, front, e);
    hide BreaksTheSilence, IsRead, At, Elapsed;
    if t' != start && !BreaksTheSilence(start, front + [e], |front|) {
      var k :| 0 <= k < |front| && BreaksTheSilence(start, front, k) && At(start, front, k) == t;
      assert BreaksTheSilence(start, front + [e], k);
    }
  }

  lemma NextRead(start: nat, front: seq<Event>, e: Event, t: nat, t': nat)
    requires LastRead(start, front, t) && t <= start + Elapsed(front)
    requires t' == if IsRead(start, front + [e], |front|) then start + Elapsed(front) else t
    ensures LastRead(start, front + [e], t')
  {
    SameBefore(start, front, e);
    hide BreaksTheSilence, IsRead, At, Elapsed;
    if t' != start && !IsRead(start, front + [e], |front|) {
      var k :| 0 <= k < |front| && IsRead(start, front, k) && At(start, front, k) == t;
      assert IsRead(start, front + [e], k);
    }
  }

  /** In every run the beat runs unless the loop is listening, and a one-shot read is due exactly when it
      is, and either no read of any kind was made for five minutes, or something is loaded and for a minute
      nothing broke the silence: no push, no read, no fresh subscription. */
  lemma TheNetFallsExactly(start: nat, events: seq<Event>)
    ensures var s, listening := Run(start, events), LastSocketIsLive(events) && Listens(events);
            && (Enabled(s, Beat) <==> !listening)
            && (Enabled(s, Net) <==>
                  && listening
                  && (UnreadFor(start, events, 300 * SECOND)
                      || (LastOf(ReadingsOf(events)).active > 0 && SilentFor(start, events, 60 * SECOND))))
  {
    RunIsTold(start, events);
    ClocksAreTold(start, events);
    RunKeeps(start, events);
    var s := Run(start, events);
    hide Run, BreaksTheSilence, IsRead, At, Elapsed, HasSubscription, LastSocketIsLive, Listens, ReadingsOf;
    assert ClocksHold(s);
    hide Inv;
    DueExactly(s.pass.net, s.clock, s.active);
    LastMeansFor(start, events, s.pass.net, s.clock);
    hide Due;
  }

  lemma LastMeansFor(start: nat, events: seq<Event>, net: Clocks, now: nat)
    requires LastBroken(start, events, net.activity) && LastRead(start, events, net.read)
    requires net.read <= net.activity <= now == start + Elapsed(events)
    ensures UnreadFor(start, events, 300 * SECOND) <==> now - net.read >= 300 * SECOND
    ensures SilentFor(start, events, 60 * SECOND) <==> now - net.activity >= 60 * SECOND
  {
    hide BreaksTheSilence, IsRead, At, Elapsed;
  }

  // ------------------------------------------------------------------ the machine marking its own work

  /** `reads_in_mode`: the listening reads of this mode, looking back a minute at most. */
  function ReadsInMode(s: State, modeAt: nat): nat {
    var since := if s.clock >= MINUTE then Max(modeAt, s.clock - MINUTE) else modeAt;
    G.Listening(s.granted, s.clock, since)
  }

  lemma {:induction false} AtMostOneListening(h: seq<G.Read>, now: nat, since: nat) returns (first: nat)
    requires G.NoLaterThan(h, now) && ListeningReadsApart(h)
    ensures G.Listening(h, now, since) <= 1
    ensures G.Listening(h, now, since) == 1 ==> first < |h| && h[first].listening && now - h[first].at < MINUTE
  {
    first := 0;
    if h != [] {
      first := AtMostOneListening(h[..|h| - 1], now, since);
      if G.Listening(h[..|h| - 1], now, since) == 0 {
        first := |h| - 1;
      }
    }
  }

  lemma ListeningAsksAtMostOnce(s: State, modeAt: nat)
    requires Inv(s)
    ensures ReadsInMode(s, modeAt) <= 1
  {
    var since := if s.clock >= MINUTE then Max(modeAt, s.clock - MINUTE) else modeAt;
    var first := AtMostOneListening(s.granted, s.clock, since);
  }

  /** At every moment of every run the loop's own reads are too few for the picture to complain of
      listening and asking anyway. */
  lemma NeverListeningAndAsking(start: nat, events: seq<Event>, modeAt: nat, connected: bool, subscribed: bool,
      beat: int)
    ensures var s := Run(start, events);
            var picture := Seen(s.socketLive, s.mode, s.active, connected, subscribed, beat, ReadsInMode(s, modeAt));
            !(Disagrees(picture).Some? && Disagrees(picture).value.ListeningAndAsking?)
  {
    RunKeeps(start, events);
    ListeningAsksAtMostOnce(Run(start, events), modeAt);
  }

  /** After a reading taken with a live socket, in any run: the collector listens exactly when nothing
      plays and either nothing is loaded or the last three lists were all loaded and paused, and the
      picture it publishes is in order exactly when the wire has the subscription as asked. */
  lemma PictureAfterAnyRun(start: nat, events: seq<Event>, r: Reading, modeAt: nat, subscribed: bool, beat: int)
    requires Run(start, events).socketLive
    ensures var s := Run(start, events + [Saw(r)]);
            && s.readings == Run(start, events).readings + [r]
            && (s.mode == Listen <==> r.playing == 0 && (r.active == 0 || LastThreePaused(s.readings)))
            && (ShouldSubscribe(s.playing, SettlingAt(s.pass.pausedFor)) <==> s.mode == Listen)
            && (Disagrees(Seen(true, s.mode, s.active, true, subscribed, beat, ReadsInMode(s, modeAt))) == None
                <==> subscribed == ShouldSubscribe(s.playing, SettlingAt(s.pass.pausedFor)))
  {
    var before, all := Run(start, events), events + [Saw(r)];
    assert all[..|all| - 1] == events;
    RunKeeps(start, events);
    RunKeeps(start, all);
    ListeningAsksAtMostOnce(Run(start, all), modeAt);
    ModeAfterAReading(before.readings, r);
    PictureAfterAReading(before.readings, r, subscribed, beat, ReadsInMode(Run(start, all), modeAt));
  }

  /** And what the picture says of itself, at every moment of every run, is so: it has fallen back exactly while
      the socket is not live, it listens exactly when the loop does, paused when something is loaded, and a
      beat shows exactly when it does not listen. */
  lemma ThePictureSaysWhatIs(start: nat, events: seq<Event>, connected: bool, subscribed: bool, beat: int, asked: nat)
    ensures var s := Run(start, events);
            var p := Seen(s.socketLive, s.mode, s.active, connected, subscribed, beat, asked);
            var live, loaded := LastSocketIsLive(events), LastOf(ReadingsOf(events)).active > 0;
            && (p.sessionMode == Fallback <==> !live)
            && (p.sessionMode == PausedSocket <==> live && Listens(events) && loaded)
            && (p.sessionMode == IdleSocket <==> live && Listens(events) && !loaded)
            && p.pollInterval == (if live && Listens(events) then None else Some(beat))
            && p.connected == connected && p.subscribed == subscribed && p.readsInMode == asked
  {
    RunIsTold(start, events);
    hide Run, LastSocketIsLive, Listens, ReadingsOf;
  }

  // ------------------------------------------------------------------ the objects the loop owns

  /** The loop's own variables, with the objects it drives. Every run of it is a run of the step
      relation, so everything above holds of it. */
  class Collector {
    const pass: Pass
    const gate: G.Reads
    var clock: nat
    var socketLive: bool
    var mode: Mode
    var active: nat
    var playing: nat
    ghost var attempts: seq<Attempt>
    ghost var readings: seq<Reading>
    ghost var start: nat
    ghost var events: seq<Event>

    ghost function View(): State
      reads this, pass, pass.decide, pass.net, gate
    {
      State(clock, pass.Value(), gate.history, socketLive, mode, active, playing, attempts, readings)
    }

    ghost predicate Valid()
      reads this, pass, pass.decide, pass.net, gate
    {
      && gate.Valid() && gate.clock <= clock
      && pass.decide.allPausedFor <= U32_MAX
      && View() == Run(start, events)
    }

    constructor (now: nat)
      ensures Valid() && events == [] && start == now
    {
      pass := new Pass(now);
      gate := new G.Reads();
      clock, socketLive, mode, active, playing := now, false, Poll, 0, 0;
      attempts, readings, start, events := [], [], now, [];
    }

    /** Asks only when the loop would; `slot` is the gate's answer. */
    method Read(oneShot: bool) returns (slot: G.Slot)
      requires Valid() && Enabled(View(), if oneShot then Net else Beat)
      modifies this, pass.net, gate
      ensures Valid() && events == old(events) + [if oneShot then Net else Beat] && start == old(start)
      ensures View() == TakeRead(old(View()), oneShot)
      ensures slot == G.Answer(old(gate.history), clock)
    {
      RunExtends(start, events, if oneShot then Net else Beat);
      slot := pass.TakeRead(gate, clock, ListeningMode(SessionModeOf(socketLive, mode, active)));
      attempts := attempts + [Attempt(clock, oneShot, active)];
      events := events + [if oneShot then Net else Beat];
    }

    method Saw(list: seq<Session>) returns (r: Reading)
      requires Valid()
      modifies this, pass.decide
      ensures Valid() && events == old(events) + [Event.Saw(r)] && start == old(start)
      ensures r == Reading(CountLoaded(list), CountRunning(list))
      ensures View() == Apply(old(View()), Event.Saw(r))
    {
      hide Run, CountLoaded, CountRunning, G.Reads.Valid;
      r := Activity(list);
      RunExtends(start, events, Event.Saw(r));
      active, playing := r.active, r.playing;
      mode := pass.Saw(active, playing, socketLive);
      readings, events := readings + [r], events + [Event.Saw(r)];
    }

    // What happens to the loop rather than by it:

    method Waits(dt: nat)
      requires Valid()
      modifies this
      ensures Valid() && events == old(events) + [Wait(dt)] && start == old(start)
      ensures View() == Apply(old(View()), Wait(dt))
    {
      RunExtends(start, events, Wait(dt));
      clock := clock + dt;
      events := events + [Wait(dt)];
    }

    method Hears()
      requires Valid()
      modifies this, pass.net
      ensures Valid() && events == old(events) + [Push] && start == old(start)
      ensures View() == Apply(old(View()), Push)
    {
      RunExtends(start, events, Push);
      pass.Pushed(clock);
      events := events + [Push];
    }

    method Wired(on: bool)
      requires Valid()
      modifies this, pass, pass.net
      ensures Valid() && events == old(events) + [Wire(on)] && start == old(start)
      ensures View() == Apply(old(View()), Wire(on))
    {
      RunExtends(start, events, Wire(on));
      pass.Subscription(clock, on);
      events := events + [Wire(on)];
    }

    method SocketTurns(live: bool)
      requires Valid()
      modifies this
      ensures Valid() && events == old(events) + [Socket(live)] && start == old(start)
      ensures View() == Apply(old(View()), Socket(live))
    {
      RunExtends(start, events, Socket(live));
      socketLive := live;
      events := events + [Socket(live)];
    }
  }
}
