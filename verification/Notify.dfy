/** Who is told what, and how often it is tried (src/notify.rs): one row to an event and a destination,
    a ladder of retries, and a cap on messages a minute.

    The queue itself, and whole runs of it, are in module Deliveries. */
module Notify {
  import opened Options

  const HISTORIC_S: int := 6 * 3_600
  const PER_MINUTE: nat := 20

  datatype Kind =
    | Travel | NewCountry | FailedSignIns | TaskFailed | BackupFailed | ServiceDown | ServiceBack
    | NewItems | RequestAvailable | PlayStarted | PlayStopped | Test

  datatype Need = Anyone | Person | Place | Server

  function NeedOf(kind: Kind): Need {
    match kind
    case Travel | NewCountry | FailedSignIns => Place
    case TaskFailed | BackupFailed | ServiceDown | ServiceBack => Server
    case RequestAvailable | PlayStarted | PlayStopped => Person
    case NewItems | Test => Anyone
  }

  datatype Severity = Info | Warn | Alert

  function Rank(s: Severity): nat {
    match s case Info => 0 case Warn => 1 case Alert => 2
  }

  datatype Perms = Perms(seeEveryone: bool, seeNetwork: bool, seeServer: bool)

  /** A destination; `owner` is `None` for the server's own. */
  datatype Target = Target(id: int, owner: Option<string>, wants: set<Kind>, minSeverity: Severity, enabled: bool,
      createdAt: int)

  datatype Event = Event(kind: Kind, at: int, dedupe: string, severity: Severity, about: Option<string>)

  /** The whole rule of who hears of what. */
  predicate WantedBy(t: Target, e: Event, owner: Option<Perms>) {
    if !t.enabled || e.kind !in t.wants || Rank(e.severity) < Rank(t.minSeverity) then false
    else if e.at < t.createdAt then false
    else
      match t.owner
      case None => true
      case Some(ownerId) =>
        match owner
        case None => false
        case Some(perms) =>
          var own := e.about == Some(ownerId);
          match NeedOf(e.kind)
          case Anyone => true
          case Person => own || perms.seeEveryone
          case Place => own || (perms.seeEveryone && perms.seeNetwork)
          case Server => perms.seeServer
  }

  /** Who is told what, kind by kind: the destination asks for the kind, the event is severe enough and not
      older than the destination; and a personal destination is told of what somebody does if it is its owner
      or the owner may see everyone, of where somebody is if the owner may see the network as well, and of the
      server if the owner may see that. */
  ghost predicate Entitled(t: Target, e: Event, owner: Option<Perms>) {
    && t.enabled && e.kind in t.wants && e.at >= t.createdAt
    && (t.minSeverity == Info || e.severity == Alert || e.severity == t.minSeverity)
    && (t.owner.Some? ==>
          && owner.Some?
          && var own, may := e.about == t.owner, owner.value;
             && (e.kind in {PlayStarted, PlayStopped, RequestAvailable} ==> own || may.seeEveryone)
             && (e.kind in {Travel, NewCountry, FailedSignIns} ==> own || (may.seeEveryone && may.seeNetwork))
             && (e.kind in {TaskFailed, BackupFailed, ServiceDown, ServiceBack} ==> may.seeServer))
  }

  lemma WantedExactly(t: Target, e: Event, owner: Option<Perms>)
    ensures WantedBy(t, e, owner) <==> Entitled(t, e, owner)
  {
  }

  // ------------------------------------------------------------------ rows

  datatype Key = Key(event: int, target: int)

  datatype Phase = Queued | Sent | Failed

  /** `refusals` is the history of what every failed attempt said of when to come back. */
  datatype Delivery = Delivery(phase: Phase, attempts: nat, nextAt: int, refusals: seq<Option<int>>)

  datatype Outcome = Accepted | Refused(retryAfter: Option<int>)

  /** How long to wait by how many attempts have failed; `None` gives up. */
  function Backoff(attempts: nat): Option<int> {
    match attempts
    case 1 => Some(30)
    case 2 => Some(120)
    case 3 => Some(600)
    case 4 => Some(3_600)
    case _ => None
  }

  /** A positive Retry-After overrides the ladder, up to an hour. */
  function WaitAfter(retryAfter: Option<int>, attempts: nat): Option<int> {
    if retryAfter.Some? && retryAfter.value > 0 then Some(if retryAfter.value < 3_600 then retryAfter.value else 3_600)
    else Backoff(attempts)
  }

  function Recorded(d: Delivery, outcome: Outcome, now: int): Delivery {
    var attempts := d.attempts + 1;
    match outcome
    case Accepted => d.(phase := Sent, attempts := attempts)
    case Refused(retryAfter) =>
      var d' := d.(attempts := attempts, refusals := d.refusals + [retryAfter]);
      match WaitAfter(retryAfter, attempts)
      case Some(wait) => d'.(nextAt := now + wait)
      case None => d'.(phase := Failed)
  }

  /** The rest wait for the next minute. */
  function Deferred(d: Delivery, now: int): Delivery {
    d.(nextAt := (now / 60 + 1) * 60)
  }

  predicate AsksForTime(retryAfter: Option<int>) {
    retryAfter.Some? && retryAfter.value > 0
  }

  /** A row is given up exactly when a failure that asks for no time is its fifth or a later one. */
  ghost predicate LadderHolds(d: Delivery) {
    && |d.refusals| == (if d.phase == Sent then d.attempts - 1 else d.attempts)
    && (d.phase == Queued && d.attempts >= 5 ==> AsksForTime(d.refusals[|d.refusals| - 1]))
    && (d.phase == Failed ==> d.attempts >= 5 && !AsksForTime(d.refusals[|d.refusals| - 1]))
    && (forall i :: 4 <= i < |d.refusals| - 1 ==> AsksForTime(d.refusals[i]))
    && (d.phase == Sent ==> d.attempts >= 1 && forall i :: 4 <= i < |d.refusals| ==> AsksForTime(d.refusals[i]))
  }

  /** So failures that never ask for time end it on the fifth, and until then it is tried again. */
  lemma FiveFailuresEndIt(d: Delivery)
    requires LadderHolds(d) && forall i :: 0 <= i < |d.refusals| ==> !AsksForTime(d.refusals[i])
    ensures d.phase == Queued ==> d.attempts <= 4
    ensures d.phase == Failed <==> |d.refusals| == 5
    ensures |d.refusals| <= 5
  {
    assert |d.refusals| > 4 ==> !AsksForTime(d.refusals[4]);
  }

  lemma RecordKeepsTheLadder(d: Delivery, outcome: Outcome, now: int)
    requires LadderHolds(d) && d.phase == Queued
    ensures LadderHolds(Recorded(d, outcome, now))
    ensures Recorded(d, outcome, now).attempts == d.attempts + 1
    ensures Recorded(d, outcome, now).phase == Queued ==> Recorded(d, outcome, now).nextAt > now
  {
  }

  function FailedAt(d: Delivery, now: int): Delivery {
    Recorded(d, Refused(None), now)
  }

  /** Failures that ask for no time, each tried again the moment it is due, are 30 s, 2 min, 10 min and an hour
      apart, and end a row an hour and a quarter after the first. */
  lemma TheLadderTakes(d: Delivery, now: int)
    requires d.phase == Queued && d.attempts == 0
    ensures var one := FailedAt(d, now);
            var two := FailedAt(one, one.nextAt);
            var three := FailedAt(two, two.nextAt);
            var four := FailedAt(three, three.nextAt);
            && one.nextAt == now + 30 && two.nextAt == one.nextAt + 120
            && three.nextAt == two.nextAt + 600 && four.nextAt == three.nextAt + 3_600 == now + 4_350
            && four.phase == Queued && FailedAt(four, four.nextAt).phase == Failed
  {
  }

  /** A destination that asks for a delay is left alone for exactly that long, up to an hour. */
  lemma AskedForIsGiven(d: Delivery, seconds: int, now: int)
    requires seconds > 0 && d.phase == Queued
    ensures var d' := Recorded(d, Refused(Some(seconds)), now);
            d'.phase == Queued && d'.nextAt - now <= 3_600 && (seconds <= 3_600 ==> d'.nextAt - now == seconds)
  {
  }

  /** Any other answer than a time to wait is no answer to that, and what was accepted is over. */
  lemma NotAskedFor(d: Delivery, seconds: int, now: int)
    requires seconds <= 0
    ensures Recorded(d, Refused(Some(seconds)), now) == FailedAt(d, now).(refusals := d.refusals + [Some(seconds)])
    ensures Recorded(d, Accepted, now) == d.(phase := Sent, attempts := d.attempts + 1)
  {
  }

  /** What is put off is put off to the beginning of the next minute. */
  lemma PutOffToTheNextMinute(d: Delivery, now: int)
    ensures var d' := Deferred(d, now);
            d' == d.(nextAt := d'.nextAt) && now < d'.nextAt <= now + 60 && d'.nextAt % 60 == 0
  {
  }

  // ------------------------------------------------------------------ the minute

  /** How many of one minute a destination has used. */
  datatype Slot = Slot(minute: int, count: nat)

  function SlotNow(used: map<int, Slot>, target: int, now: int): Slot {
    if target in used && used[target].minute == now / 60 then used[target] else Slot(now / 60, 0)
  }

  predicate OverTheMinute(used: map<int, Slot>, target: int, now: int) {
    SlotNow(used, target, now).count >= PER_MINUTE
  }

  function Charged(used: map<int, Slot>, target: int, now: int): map<int, Slot> {
    var slot := SlotNow(used, target, now);
    used[target := if slot.count >= PER_MINUTE then slot else slot.(count := slot.count + 1)]
  }

  /** One message that went out. */
  datatype Message = Message(key: Key, at: int, accepted: bool)

  function CountSent(log: seq<Message>, target: int, minute: int): nat {
    if log == [] then 0
    else
      var m := log[|log| - 1];
      CountSent(log[..|log| - 1], target, minute) + if m.key.target == target && m.at / 60 == minute then 1 else 0
  }

  /** How many times the process was started again in one minute. */
  function CountRestarts(restarts: seq<int>, minute: int): nat {
    if restarts == [] then 0
    else CountRestarts(restarts[..|restarts| - 1], minute) + if restarts[|restarts| - 1] / 60 == minute then 1 else 0
  }

  function LastRestart(restarts: seq<int>): int {
    if restarts == [] then -1 else restarts[|restarts| - 1] / 60
  }

  /** What the counters of this process can have let through in one minute: the count of the slot in its
      own minute, nothing later, and up to the cap before. */
  function LetThrough(used: map<int, Slot>, since: int, target: int, minute: int): nat {
    if target in used then
      if minute == used[target].minute then used[target].count
      else if minute > used[target].minute then 0
      else PER_MINUTE
    else if minute >= since then 0
    else PER_MINUTE
  }

  /** The slots belong to this process and to minutes that have begun; and no destination was sent more in
      a minute than the cap for each process that ended in it and what this one let through. */
  ghost predicate MinuteHolds(used: map<int, Slot>, log: seq<Message>, restarts: seq<int>, clock: int) {
    && 0 <= clock && LastRestart(restarts) <= clock / 60
    && (forall t :: t in used ==> LastRestart(restarts) <= used[t].minute <= clock / 60 && used[t].count <= PER_MINUTE)
    && (forall m :: m > clock / 60 ==> CountRestarts(restarts, m) == 0)
    && (forall t, m ::
          CountSent(log, t, m)
          <= PER_MINUTE * CountRestarts(restarts, m) + LetThrough(used, LastRestart(restarts), t, m))
  }

  lemma OneMoreSent(log: seq<Message>, m: Message, target: int, minute: int)
    ensures CountSent(log + [m], target, minute)
         == CountSent(log, target, minute) + if m.key.target == target && m.at / 60 == minute then 1 else 0
  {
    assert (log + [m])[..|log|] == log;
  }

  /** The slots count what this process sent: in the minute of the slot as many as it says, in no later one any,
      and nothing for a destination that has no slot. */
  ghost predicate SlotsCount(used: map<int, Slot>, sent: seq<Message>, clock: int) {
    && (forall t :: t in used ==> used[t].minute <= clock / 60 && used[t].count == CountSent(sent, t, used[t].minute))
    && (forall t, m :: (t in used ==> m > used[t].minute) ==> CountSent(sent, t, m) == 0)
  }

  lemma SlotIsTheCount(used: map<int, Slot>, sent: seq<Message>, clock: int, target: int, now: int)
    requires SlotsCount(used, sent, clock) && clock <= now
    ensures SlotNow(used, target, now).count == CountSent(sent, target, now / 60)
    ensures OverTheMinute(used, target, now) <==> CountSent(sent, target, now / 60) >= 20
  {
    assert clock / 60 <= now / 60;
    hide CountSent;
  }

  lemma SlotsWait(used: map<int, Slot>, sent: seq<Message>, clock: int, later: int)
    requires SlotsCount(used, sent, clock) && clock <= later
    ensures SlotsCount(used, sent, later)
  {
    hide CountSent;
    assert clock / 60 <= later / 60;
  }

  lemma ChargeCounts(used: map<int, Slot>, sent: seq<Message>, clock: int, m: Message)
    requires SlotsCount(used, sent, clock) && clock <= m.at && !OverTheMinute(used, m.key.target, m.at)
    ensures SlotsCount(Charged(used, m.key.target, m.at), sent + [m], m.at)
  {
    var used' := Charged(used, m.key.target, m.at);
    assert clock / 60 <= m.at / 60;
    SlotIsTheCount(used, sent, clock, m.key.target, m.at);
    forall t, minute
      ensures CountSent(sent + [m], t, minute)
           == CountSent(sent, t, minute) + if m.key.target == t && m.at / 60 == minute then 1 else 0
    {
      OneMoreSent(sent, m, t, minute);
    }
    hide CountSent;
  }

  lemma FullCounts(used: map<int, Slot>, sent: seq<Message>, clock: int, target: int, now: int)
    requires SlotsCount(used, sent, clock) && clock <= now && OverTheMinute(used, target, now)
    ensures SlotsCount(Charged(used, target, now), sent, now)
  {
    assert Charged(used, target, now) == used;
    SlotsWait(used, sent, clock, now);
  }

  lemma NothingSentYet(now: int)
    ensures SlotsCount(map[], [], now)
  {
  }

  lemma ChargeKeepsTheMinute(used: map<int, Slot>, log: seq<Message>, restarts: seq<int>, clock: int, m: Message)
    requires MinuteHolds(used, log, restarts, clock) && clock <= m.at
    requires !OverTheMinute(used, m.key.target, m.at)
    ensures MinuteHolds(Charged(used, m.key.target, m.at), log + [m], restarts, m.at)
  {
    var used', log', since := Charged(used, m.key.target, m.at), log + [m], LastRestart(restarts);
    forall t, minute
      ensures CountSent(log', t, minute)
           <= PER_MINUTE * CountRestarts(restarts, minute) + LetThrough(used', since, t, minute)
    {
      OneMoreSent(log, m, t, minute);
      hide CountSent, CountRestarts;
      assert CountSent(log, t, minute)
          <= PER_MINUTE * CountRestarts(restarts, minute) + LetThrough(used, since, t, minute);
    }
  }

  lemma FullKeepsTheMinute(used: map<int, Slot>, log: seq<Message>, restarts: seq<int>, clock: int, target: int,
      now: int)
    requires MinuteHolds(used, log, restarts, clock) && clock <= now
    requires OverTheMinute(used, target, now)
    ensures MinuteHolds(Charged(used, target, now), log, restarts, now)
  {
    assert Charged(used, target, now) == used;
    MinuteWaits(used, log, restarts, clock, now);
  }

  lemma MinuteWaits(used: map<int, Slot>, log: seq<Message>, restarts: seq<int>, clock: int, later: int)
    requires MinuteHolds(used, log, restarts, clock) && clock <= later
    ensures MinuteHolds(used, log, restarts, later)
  {
    hide CountSent, CountRestarts, LastRestart, LetThrough;
    assert clock / 60 <= later / 60;
  }

  /** A new process knows nothing of what the last one sent, and may send as much again. */
  lemma RestartKeepsTheMinute(used: map<int, Slot>, log: seq<Message>, restarts: seq<int>, clock: int, now: int)
    requires MinuteHolds(used, log, restarts, clock) && clock <= now
    ensures MinuteHolds(map[], log, restarts + [now], now)
    ensures forall target :: !OverTheMinute(map[], target, now)
  {
    var restarts' := restarts + [now];
    assert restarts'[..|restarts|] == restarts;
    assert clock / 60 <= now / 60;
    forall m ensures CountRestarts(restarts', m) == CountRestarts(restarts, m) + if now / 60 == m then 1 else 0 {
    }
    forall t, m
      ensures CountSent(log, t, m)
           <= PER_MINUTE * CountRestarts(restarts', m) + LetThrough(map[], LastRestart(restarts'), t, m)
    {
      hide CountSent;
      assert CountSent(log, t, m)
          <= PER_MINUTE * CountRestarts(restarts, m) + LetThrough(used, LastRestart(restarts), t, m);
    }
  }
}
