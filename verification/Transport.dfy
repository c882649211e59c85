/** The collector's timing, apart from all input and output: the clocks of a one-shot read (`Net`), the pause
    debounce (`Decide`), the object that owns both (`Pass`), and the picture that is published.

    Each class is proved against functions on plain values, so that whole runs can be reasoned
    about as values (module Loop). */
module Transport {
  import opened Clock
  import opened Numbers
  import opened Options
  import opened Sets
  import G = Gate

  const PAUSED_SAFETY_SILENCE: nat := 60 * SECOND
  const SAFETY_EVERY: nat := 300 * SECOND
  const SAFETY_MIN_GAP: nat := 5 * SECOND
  const PAUSE_DEBOUNCE: nat := 3
  const READS_WHILE_LISTENING: nat := 2
  const U32_MAX: nat := 0xFFFF_FFFF

  // ------------------------------------------------------------------ when the net falls

  datatype Clocks = Clocks(activity: nat, read: nat)

  /** How long until a one-shot read is due; 0 when it already is. */
  function SafetyDue(active: nat, sinceActivity: nat, sinceRead: nat): nat {
    var net := Minus(SAFETY_EVERY, sinceRead);
    var due := if active > 0 then Min(net, Minus(PAUSED_SAFETY_SILENCE, sinceActivity)) else net;
    Max(due, Minus(SAFETY_MIN_GAP, sinceRead))
  }

  function Due(c: Clocks, now: nat, active: nat): nat {
    SafetyDue(active, Minus(now, c.activity), Minus(now, c.read))
  }

  /** The shortest time there can be between a read attempt and a one-shot read that follows it. */
  function LeastGap(active: nat): nat {
    if active > 0 then PAUSED_SAFETY_SILENCE else SAFETY_EVERY
  }

  /** The heart of the matter: while `activity` is never older than `read`, a due time of zero means
      that the last read attempt, by any route, is at least the least gap ago. */
  lemma DueMeansLongAgo(c: Clocks, now: nat, active: nat)
    requires c.read <= c.activity <= now
    requires Due(c, now, active) == 0
    ensures now - c.read >= LeastGap(active)
  {
  }

  /** And it is exactly this: the five-minute net, or a minute of silence with something loaded. */
  lemma DueExactly(c: Clocks, now: nat, active: nat)
    requires c.read <= c.activity <= now
    ensures Due(c, now, active) == 0 <==>
              now - c.read >= SAFETY_EVERY || (active > 0 && now - c.activity >= PAUSED_SAFETY_SILENCE)
  {
  }

  /** And the time it is said to be due in is exact: with nothing read or heard meanwhile it is due from then on,
      and not before. */
  lemma DueInExactly(c: Clocks, now: nat, active: nat, later: nat)
    requires c.read <= c.activity <= now <= later
    ensures Due(c, later, active) == 0 <==> later >= now + Due(c, now, active)
  {
  }

  class Net {
    var activity: nat
    var read: nat

    function Value(): Clocks
      reads this
    {
      Clocks(activity, read)
    }

    constructor (now: nat)
      ensures Value() == Clocks(now, now)
    {
      activity, read := now, now;
    }

    method Subscribed(now: nat)
      modifies this
      ensures Value() == old(Value()).(activity := now)
    {
      activity := now;
    }

    method Pushed(now: nat)
      modifies this
      ensures Value() == old(Value()).(activity := now)
    {
      activity := now;
    }

    /** A read re-arms both clocks before the gate is asked, so a refusal re-arms them as well. */
    method TakeRead(gate: G.Reads, now: nat, listening: bool) returns (slot: G.Slot)
      requires gate.Valid() && gate.clock <= now
      modifies this, gate
      ensures Value() == Clocks(now, now)
      ensures gate.Valid() && gate.clock == now
      ensures slot == G.Answer(old(gate.history), now)
      ensures gate.history == G.Asked(old(gate.history), now, listening)
    {
      activity, read := now, now;
      var say;
      slot, say := G.SessionsSlot(gate, now, listening);
    }
  }

  // ------------------------------------------------------------------ the pause debounce

  datatype Mode = Poll | Listen

  /** All that timing needs of one session list: the sessions loaded, and the running ones among them. */
  datatype Reading = Reading(active: nat, playing: nat)

  /** A session, as far as `Activity` cares. `paused` is `None` when the list does not say. */
  datatype Session = Session(loaded: bool, paused: Option<bool>)

  predicate Running(s: Session) {
    s.loaded && !(s.paused.Some? && s.paused.value)
  }

  method Activity(sessions: seq<Session>) returns (r: Reading)
    ensures r == Reading(CountLoaded(sessions), CountRunning(sessions))
    ensures r.playing <= r.active
  {
    r := Reading(0, 0);
    for i := 0 to |sessions|
      invariant r == Reading(CountLoaded(sessions[..i]), CountRunning(sessions[..i]))
      invariant r.playing <= r.active
    {
      assert sessions[..i + 1][..i] == sessions[..i];
      if sessions[i].loaded {
        r := r.(active := r.active + 1);
        if Running(sessions[i]) {
          r := r.(playing := r.playing + 1);
        }
      }
    }
    assert sessions[..|sessions|] == sessions;
  }

  function CountLoaded(sessions: seq<Session>): nat {
    if sessions == [] then 0
    else CountLoaded(sessions[..|sessions| - 1]) + (if sessions[|sessions| - 1].loaded then 1 else 0)
  }

  function CountRunning(sessions: seq<Session>): nat {
    if sessions == [] then 0
    else CountRunning(sessions[..|sessions| - 1]) + (if Running(sessions[|sessions| - 1]) then 1 else 0)
  }

  /** What is counted: the sessions with something loaded, and those of them that are not said to be paused. */
  lemma {:induction false} ActivityCounts(sessions: seq<Session>)
    ensures CountLoaded(sessions) == |Where(sessions, (s: Session) => s.loaded)|
    ensures CountRunning(sessions) == |Where(sessions, (s: Session) => s.loaded && s.paused != Some(true))|
  {
    if sessions == [] {
      assert Where(sessions, (s: Session) => s.loaded) == {};
      assert Where(sessions, (s: Session) => s.loaded && s.paused != Some(true)) == {};
    } else {
      var front, last := sessions[..|sessions| - 1], sessions[|sessions| - 1];
      ActivityCounts(front);
      assert sessions == front + [last];
      OneMoreWhere(front, last, (s: Session) => s.loaded);
      OneMoreWhere(front, last, (s: Session) => s.loaded && s.paused != Some(true));
      hide Where;
    }
  }

  predicate AllPaused(r: Reading) {
    r.playing == 0 && r.active > 0
  }

  function Debounced(pausedFor: nat, r: Reading): nat {
    if AllPaused(r) then Min(pausedFor + 1, U32_MAX) else 0
  }

  predicate SettlingAt(pausedFor: nat) {
    1 <= pausedFor < PAUSE_DEBOUNCE
  }

  function Decided(pausedFor: nat, r: Reading, socketLive: bool): Mode {
    if r.playing > 0 || !socketLive then Poll
    else if r.active == 0 || Debounced(pausedFor, r) >= PAUSE_DEBOUNCE then Listen
    else Poll
  }

  class Decide {
    var allPausedFor: nat

    constructor ()
      ensures allPausedFor == 0
    {
      allPausedFor := 0;
    }

    /** The mode after one more reading. */
    method See(active: nat, playing: nat, socketLive: bool) returns (mode: Mode)
      requires allPausedFor <= U32_MAX
      modifies this
      ensures allPausedFor == Debounced(old(allPausedFor), Reading(active, playing)) <= U32_MAX
      ensures mode == Decided(old(allPausedFor), Reading(active, playing), socketLive)
    {
      if playing > 0 {
        allPausedFor := 0;
        return Poll;
      }
      if active == 0 {
        allPausedFor := 0;
        return if socketLive then Listen else Poll;
      }
      if allPausedFor < U32_MAX {
        allPausedFor := allPausedFor + 1;
      }
      return if socketLive && allPausedFor >= PAUSE_DEBOUNCE then Listen else Poll;
    }
  }

  /** How many readings at the end of the history were all loaded and paused. */
  function PausedRun(readings: seq<Reading>): nat {
    if readings == [] || !AllPaused(readings[|readings| - 1]) then 0
    else 1 + PausedRun(readings[..|readings| - 1])
  }

  /** The debounce count after a whole history of readings. */
  function DebouncedOver(readings: seq<Reading>): (n: nat) {
    if readings == [] then 0
    else Debounced(DebouncedOver(readings[..|readings| - 1]), readings[|readings| - 1])
  }

  /** The counter is the length of the paused run, saturating where a `u32` does. */
  lemma {:induction false} CounterIsTheRun(readings: seq<Reading>)
    ensures DebouncedOver(readings) == Min(PausedRun(readings), U32_MAX)
  {
    if readings != [] {
      CounterIsTheRun(readings[..|readings| - 1]);
    }
  }

  ghost predicate LastThreePaused(readings: seq<Reading>) {
    && |readings| >= 3
    && forall i :: |readings| - 3 <= i < |readings| ==> readings[i].active > 0 && readings[i].playing == 0
  }

  lemma {:induction false} RunReaches(readings: seq<Reading>, k: nat)
    ensures PausedRun(readings) >= k <==>
              |readings| >= k && forall i :: |readings| - k <= i < |readings| ==> AllPaused(readings[i])
  {
    if readings != [] && k > 0 {
      RunReaches(readings[..|readings| - 1], k - 1);
    }
  }

  // ------------------------------------------------------------------ one pass

  datatype PassState = PassState(pausedFor: nat, net: Clocks, subscribed: bool)

  predicate ShouldSubscribe(playing: nat, settling: bool) {
    playing == 0 && !settling
  }

  function Wired(p: PassState, now: nat, on: bool): PassState {
    p.(net := if on && !p.subscribed then p.net.(activity := now) else p.net, subscribed := on)
  }

  class Pass {
    const decide: Decide
    const net: Net
    var subscribed: bool

    function Value(): PassState
      reads this, decide, net
    {
      PassState(decide.allPausedFor, net.Value(), subscribed)
    }

    constructor (now: nat)
      ensures fresh(decide) && fresh(net)
      ensures Value() == PassState(0, Clocks(now, now), false)
    {
      decide := new Decide();
      net := new Net(now);
      subscribed := false;
    }

    method Saw(active: nat, playing: nat, socketLive: bool) returns (mode: Mode)
      requires decide.allPausedFor <= U32_MAX
      modifies decide
      ensures Value() == old(Value()).(pausedFor := Debounced(old(Value()).pausedFor, Reading(active, playing)))
      ensures mode == Decided(old(Value()).pausedFor, Reading(active, playing), socketLive)
      ensures decide.allPausedFor <= U32_MAX
    {
      mode := decide.See(active, playing, socketLive);
    }

    /** Only a subscription that was off and is now on counts as activity. */
    method Subscription(now: nat, on: bool)
      modifies this, net
      ensures Value() == Wired(old(Value()), now, on)
    {
      if on && !subscribed {
        net.Subscribed(now);
      }
      subscribed := on;
    }

    method Pushed(now: nat)
      modifies net
      ensures Value() == old(Value()).(net := old(Value()).net.(activity := now))
    {
      net.Pushed(now);
    }

    /** A read by the loop itself. */
    method TakeRead(gate: G.Reads, now: nat, listening: bool) returns (slot: G.Slot)
      requires gate.Valid() && gate.clock <= now
      modifies net, gate
      ensures Value() == old(Value()).(net := Clocks(now, now))
      ensures gate.Valid() && gate.clock == now
      ensures slot == G.Answer(old(gate.history), now)
      ensures gate.history == G.Asked(old(gate.history), now, listening)
    {
      slot := net.TakeRead(gate, now, listening);
    }
  }

  // ------------------------------------------------------------------ the published picture

  datatype SessionMode = Fallback | PausedSocket | IdleSocket | PlayingPoll

  function SessionModeOf(socketLive: bool, mode: Mode, active: nat): SessionMode {
    if !socketLive then Fallback
    else if mode == Listen then (if active > 0 then PausedSocket else IdleSocket)
    else PlayingPoll
  }

  predicate ListeningMode(m: SessionMode) {
    m == IdleSocket || m == PausedSocket
  }

  datatype Published = Published(sessionMode: SessionMode, connected: bool, subscribed: bool, pollInterval: Option<int>,
      readsInMode: nat)

  datatype Complaint =
    | ListeningWithoutConnection
    | ListeningWithoutSubscription
    | ListeningAndPolling
    | ListeningAndAsking(made: nat)
    | PollingWhileSubscribed
    | SubscribedAndPolling
    | PlayingAndNotAsking
    | FallenBackAndNotPolling

  /** What must be true of the picture, checked against itself, first rule first. */
  function Disagrees(p: Published): Option<Complaint> {
    var listening := ListeningMode(p.sessionMode);
    if listening && !p.connected then Some(ListeningWithoutConnection)
    else if listening && !p.subscribed then Some(ListeningWithoutSubscription)
    else if listening && p.pollInterval.Some? then Some(ListeningAndPolling)
    else if listening && p.readsInMode > READS_WHILE_LISTENING then Some(ListeningAndAsking(p.readsInMode))
    else if p.sessionMode == PlayingPoll && p.subscribed then Some(PollingWhileSubscribed)
    else if p.subscribed && p.pollInterval.Some? && p.sessionMode != Fallback then Some(SubscribedAndPolling)
    else if p.sessionMode == PlayingPoll && p.pollInterval.None? then Some(PlayingAndNotAsking)
    else if p.sessionMode == Fallback && p.pollInterval.None? then Some(FallenBackAndNotPolling)
    else None
  }

  /** The picture `run` publishes (its `seen`): the beat shows unless the collector is listening. */
  function Seen(socketLive: bool, mode: Mode, active: nat, connected: bool, subscribed: bool, beat: int,
      asked: nat): Published
  {
    Published(SessionModeOf(socketLive, mode, active), connected, subscribed,
              if socketLive && mode == Listen then None else Some(beat), asked)
  }

  /** A picture is in order exactly when it keeps three promises: listening has a connection and a subscription,
      no beat, and at most two reads; polling a play has a beat and no subscription; and falling back has a
      beat. Whatever is complained of is so. */
  lemma InOrderExactly(p: Published)
    ensures Disagrees(p) == None <==>
              && (p.sessionMode == PausedSocket || p.sessionMode == IdleSocket ==>
                    p.connected && p.subscribed && p.pollInterval == None && p.readsInMode <= 2)
              && (p.sessionMode == PlayingPoll ==> !p.subscribed && p.pollInterval != None)
              && (p.sessionMode == Fallback ==> p.pollInterval != None)
    ensures Disagrees(p).Some? ==>
              var listening := p.sessionMode == PausedSocket || p.sessionMode == IdleSocket;
              match Disagrees(p).value
              case ListeningWithoutConnection => listening && !p.connected
              case ListeningWithoutSubscription => listening && !p.subscribed
              case ListeningAndPolling => listening && p.pollInterval != None
              case ListeningAndAsking(made) => listening && made == p.readsInMode > 2
              case PollingWhileSubscribed => p.sessionMode == PlayingPoll && p.subscribed
              case SubscribedAndPolling => p.subscribed && p.pollInterval != None && p.sessionMode != Fallback
              case PlayingAndNotAsking => p.sessionMode == PlayingPoll && p.pollInterval == None
              case FallenBackAndNotPolling => p.sessionMode == Fallback && p.pollInterval == None
  {
  }

  /** After a reading taken with a live socket: listening means nothing plays, and either nothing is
      loaded or the last three readings were all loaded and paused; and the subscription is wanted
      exactly then. */
  lemma ModeAfterAReading(before: seq<Reading>, r: Reading)
    ensures var readings := before + [r];
            var mode := Decided(DebouncedOver(before), r, true);
            && (mode == Listen <==> r.playing == 0 && (r.active == 0 || LastThreePaused(readings)))
            && (ShouldSubscribe(r.playing, SettlingAt(DebouncedOver(readings))) <==> mode == Listen)
  {
    var readings := before + [r];
    assert readings[..|readings| - 1] == before;
    CounterIsTheRun(readings);
    RunReaches(readings, PAUSE_DEBOUNCE);
  }

  /** So a picture published after a reading, over an open connection, is in order exactly when the
      wire carries the subscription that was asked for and, while listening, the reads are few. */
  lemma PictureAfterAReading(before: seq<Reading>, r: Reading, subscribed: bool, beat: int, asked: nat)
    ensures var mode := Decided(DebouncedOver(before), r, true);
            var wanted := ShouldSubscribe(r.playing, SettlingAt(DebouncedOver(before + [r])));
            Disagrees(Seen(true, mode, r.active, true, subscribed, beat, asked)) == None <==>
              subscribed == wanted && (mode == Listen ==> asked <= READS_WHILE_LISTENING)
  {
    ModeAfterAReading(before, r);
  }

  /** Without a socket there is nothing to hand over to, and the fallback never disagrees. */
  lemma FallbackIsAlwaysInOrder(pausedFor: nat, r: Reading, connected: bool, subscribed: bool, beat: int, asked: nat)
    ensures Decided(pausedFor, r, false) == Poll
    ensures Disagrees(Seen(false, Poll, r.active, connected, subscribed, beat, asked)) == None
  {
  }
}
