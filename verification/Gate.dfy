/** The rate limiter in front of `/Sessions` (`Reads` in src/collector.rs): two sliding windows over one
    list that is pruned to the last minute. */
module Gate {
  import opened Clock
  import opened Options
  import opened Sets

  const READS_PER_S: nat := 2
  const READS_PER_MIN: nat := 70
  const SUPPRESSED_EVERY: nat := MINUTE

  /** A granted read: its time, and whether it was made while listening. */
  datatype Read = Read(at: nat, listening: bool)

  datatype Slot = Granted | Refused(wait: nat)

  // ------------------------------------------------------------------ windows over a history

  ghost predicate InOrder(h: seq<Read>) {
    forall i, j :: 0 <= i < j < |h| ==> h[i].at <= h[j].at
  }

  ghost predicate NoLaterThan(h: seq<Read>, now: nat) {
    forall i :: 0 <= i < |h| ==> h[i].at <= now
  }

  function Times(h: seq<Read>): seq<nat> {
    seq(|h|, i requires 0 <= i < |h| => h[i].at)
  }

  /** The times of the reads less than `window` old. */
  function Within(h: seq<Read>, now: nat, window: nat): seq<nat> {
    if h == [] then []
    else (if Minus(now, h[0].at) < window then [h[0].at] else []) + Within(h[1..], now, window)
  }

  /** How many reads fall in the half-open window [from, to). */
  function Count(h: seq<Read>, from: nat, to: nat): nat {
    if h == [] then 0
    else Count(h[..|h| - 1], from, to) + (if from <= h[|h| - 1].at < to then 1 else 0)
  }

  function Pruned(h: seq<Read>, now: nat): seq<Read> {
    if h == [] then []
    else if Minus(now, h[0].at) < MINUTE then [h[0]] + Pruned(h[1..], now)
    else Pruned(h[1..], now)
  }

  /** How many reads of the last minute were made while listening, and no earlier than `since`. */
  function Listening(h: seq<Read>, now: nat, since: nat): nat {
    if h == [] then 0
    else
      var r := h[|h| - 1];
      Listening(h[..|h| - 1], now, since) + (if r.listening && r.at >= since && Minus(now, r.at) < MINUTE then 1 else 0)
  }

  /** `limit + 1` reads in a row always span at least `window`. */
  ghost predicate Spaced(h: seq<Read>, window: nat, limit: nat) {
    forall i, j :: 0 <= i && i + limit <= j < |h| ==> h[j].at - h[i].at >= window
  }

  // ------------------------------------------------------------------ sorting the times

  function InsertTime(t: nat, s: seq<nat>): seq<nat> {
    if s == [] || t <= s[0] then [t] + s else [s[0]] + InsertTime(t, s[1..])
  }

  function SortTimes(s: seq<nat>): seq<nat> {
    if s == [] then [] else InsertTime(s[0], SortTimes(s[1..]))
  }

  lemma {:induction false} SortKeepsOrder(s: seq<nat>)
    requires forall i, j :: 0 <= i < j < |s| ==> s[i] <= s[j]
    ensures SortTimes(s) == s
  {
    if s != [] {
      SortKeepsOrder(s[1..]);
    }
  }

  /** One window's verdict: `None` when it has room, otherwise the time to wait. */
  function FreeIn(h: seq<Read>, now: nat, window: nat, limit: nat): Option<nat>
    requires limit > 0
  {
    var within := SortTimes(Within(h, now, window));
    if |within| < limit then None
    else Some(Minus(within[|within| - limit] + window, now) + MILLI)
  }

  /** Of reads made in order, the ones still inside a window are the newest ones. */
  lemma {:induction false} WithinIsASuffix(h: seq<Read>, now: nat, window: nat) returns (k: nat)
    requires InOrder(h) && NoLaterThan(h, now)
    ensures k <= |h|
    ensures Within(h, now, window) == Times(h[k..])
    ensures forall i :: 0 <= i < k ==> now - h[i].at >= window
    ensures forall i :: k <= i < |h| ==> now - h[i].at < window
  {
    k := 0;
    while k < |h| && now - h[k].at >= window
      invariant k <= |h|
      invariant forall i :: 0 <= i < k ==> now - h[i].at >= window
      invariant Within(h, now, window) == Within(h[k..], now, window)
    {
      assert h[k..][1..] == h[k + 1..];
      k := k + 1;
    }
    AllWithin(h[k..], now, window);
  }

  lemma {:induction false} AllWithin(h: seq<Read>, now: nat, window: nat)
    requires NoLaterThan(h, now)
    requires forall i :: 0 <= i < |h| ==> now - h[i].at < window
    ensures Within(h, now, window) == Times(h)
  {
    if h != [] {
      AllWithin(h[1..], now, window);
    }
  }

  /** What `FreeIn` decides, and the moment it names: the read `limit` places from the end has to be
      at least `window` old. */
  lemma FreeInMeans(h: seq<Read>, now: nat, window: nat, limit: nat)
    requires limit > 0
    requires InOrder(h) && NoLaterThan(h, now)
    ensures FreeIn(h, now, window, limit).Some? <==> |h| >= limit && now < h[|h| - limit].at + window
    ensures FreeIn(h, now, window, limit).Some? ==>
              FreeIn(h, now, window, limit).value == h[|h| - limit].at + window - now + MILLI
  {
    var k := WithinIsASuffix(h, now, window);
    SortKeepsOrder(Within(h, now, window));
  }

  /** The wait a window answers with is exact: with no read accepted meanwhile it refuses at every
      moment up to a millisecond short of the wait, and at no moment after. */
  lemma WaitIsExact(h: seq<Read>, now: nat, window: nat, limit: nat, later: nat)
    requires limit > 0
    requires InOrder(h) && NoLaterThan(h, now)
    requires FreeIn(h, now, window, limit).Some?
    requires now <= later
    ensures FreeIn(h, later, window, limit).Some? <==> later + MILLI < now + FreeIn(h, now, window, limit).value
  {
    FreeInMeans(h, now, window, limit);
    FreeInMeans(h, later, window, limit);
  }

  // ------------------------------------------------------------------ counting in any window

  lemma {:induction false} CountTail(h: seq<Read>, from: nat, to: nat, m: nat)
    requires InOrder(h)
    requires forall i :: 0 <= i < |h| ==> h[i].at < to
    requires 0 < m <= Count(h, from, to)
    ensures |h| >= m && h[|h| - m].at >= from
  {
    if h[|h| - 1].at < from {
      CountNone(h, from, to);
      assert false;
    } else if m > 1 {
      CountTail(h[..|h| - 1], from, to, m - 1);
    }
  }

  lemma {:induction false} CountNone(h: seq<Read>, from: nat, to: nat)
    requires forall i :: 0 <= i < |h| ==> h[i].at < from
    ensures Count(h, from, to) == 0
  {
    if h != [] {
      CountNone(h[..|h| - 1], from, to);
    }
  }

  /** Spacing bounds every half-open window, wherever it begins. */
  lemma {:induction false} SpacedBoundsEveryWindow(h: seq<Read>, window: nat, limit: nat, from: nat)
    requires limit > 0
    requires InOrder(h) && Spaced(h, window, limit)
    ensures Count(h, from, from + window) <= limit
  {
    if h != [] {
      var front, last := h[..|h| - 1], h[|h| - 1];
      assert Spaced(front, window, limit);
      SpacedBoundsEveryWindow(front, window, limit, from);
      assert |h| > limit ==> h[|h| - 1].at - h[|h| - 1 - limit].at >= window;
      if from <= last.at < from + window && Count(front, from, from + window) == limit {
        CountTail(front, from, from + window, limit);
        assert false;
      }
    }
  }

  /** A window holds as many reads as are timed in it. */
  lemma {:induction false} CountIsTheNumber(h: seq<Read>, from: nat, to: nat)
    ensures Count(h, from, to) == |Where(h, (r: Read) => from <= r.at < to)|
  {
    var inside := (r: Read) => from <= r.at < to;
    if h == [] {
      assert Where(h, inside) == {};
    } else {
      CountIsTheNumber(h[..|h| - 1], from, to);
      assert h == h[..|h| - 1] + [h[|h| - 1]];
      OneMoreWhere(h[..|h| - 1], h[|h| - 1], inside);
      hide Where;
    }
  }

  /** Pruning drops exactly what is a minute old. */
  lemma {:induction false} PrunedFrom(h: seq<Read>, now: nat, k: nat)
    requires NoLaterThan(h, now) && k <= |h|
    requires forall i :: 0 <= i < k ==> now - h[i].at >= MINUTE
    requires forall i :: k <= i < |h| ==> now - h[i].at < MINUTE
    ensures Pruned(h, now) == h[k..]
  {
    if h != [] {
      PrunedFrom(h[1..], now, if k == 0 then 0 else k - 1);
    }
  }

  /** A window over the history gives the same verdict as one over the pruned list, for any window no
      longer than the minute that is kept. */
  lemma PruningChangesNoVerdict(h: seq<Read>, k: nat, now: nat, window: nat, limit: nat)
    requires limit > 0 && window <= MINUTE && k <= |h|
    requires InOrder(h) && NoLaterThan(h, now)
    requires forall i :: 0 <= i < k ==> now - h[i].at >= MINUTE
    ensures FreeIn(h[k..], now, window, limit) == FreeIn(h, now, window, limit)
  {
    FreeInMeans(h, now, window, limit);
    FreeInMeans(h[k..], now, window, limit);
  }

  // ------------------------------------------------------------------ the gate itself

  /** The list kept is the history without its first `gone` reads, each of them a minute old. */
  ghost predicate Tail(at: seq<Read>, history: seq<Read>, gone: nat, clock: nat) {
    && gone <= |history|
    && at == history[gone..]
    && forall i :: 0 <= i < gone ==> clock - history[i].at >= MINUTE
  }

  ghost predicate Lawful(history: seq<Read>, clock: nat) {
    && InOrder(history) && NoLaterThan(history, clock)
    && Spaced(history, SECOND, READS_PER_S)
    && Spaced(history, MINUTE, READS_PER_MIN)
  }

  lemma PruneKeepsTheTail(at: seq<Read>, history: seq<Read>, gone: nat, clock: nat, now: nat) returns (gone': nat)
    requires InOrder(history) && NoLaterThan(history, clock) && Tail(at, history, gone, clock) && clock <= now
    ensures Tail(Pruned(at, now), history, gone', now)
    ensures forall i :: 0 <= i < |Pruned(at, now)| ==> now - Pruned(at, now)[i].at < MINUTE
  {
    gone' := WithinIsASuffix(history, now, MINUTE);
    assert gone' < |history| ==> now - history[gone'].at < MINUTE;
    PrunedFrom(at, now, gone' - gone);
    assert at[gone' - gone..] == history[gone'..];
  }

  /** What the gate answers, as a function of every read it has ever granted. */
  function Answer(history: seq<Read>, now: nat): Slot {
    match FreeIn(history, now, SECOND, READS_PER_S)
    case Some(wait) => Refused(wait)
    case None =>
      match FreeIn(history, now, MINUTE, READS_PER_MIN)
      case Some(wait) => Refused(wait)
      case None => Granted
  }

  /** The history once a read has been asked for: a refusal leaves no trace in it. */
  function Asked(history: seq<Read>, now: nat, listening: bool): seq<Read> {
    if Answer(history, now).Granted? then history + [Read(now, listening)] else history
  }

  /** What a granted read needs, said about the history itself. */
  ghost predicate Roomy(history: seq<Read>, now: nat) {
    && (|history| >= READS_PER_S ==> now - history[|history| - READS_PER_S].at >= SECOND)
    && (|history| >= READS_PER_MIN ==> now - history[|history| - READS_PER_MIN].at >= MINUTE)
  }

  lemma AnswerMeans(history: seq<Read>, now: nat)
    requires InOrder(history) && NoLaterThan(history, now)
    ensures Answer(history, now).Granted? <==> Roomy(history, now)
  {
    FreeInMeans(history, now, SECOND, READS_PER_S);
    FreeInMeans(history, now, MINUTE, READS_PER_MIN);
  }

  /** What is answered, told from the times alone: wait until the last read but one is a second old, or else
      until the seventieth from the end is a minute old, each with a millisecond on top; or go ahead. */
  lemma AnswerIsTold(history: seq<Read>, now: nat)
    requires InOrder(history) && NoLaterThan(history, now)
    ensures var n := |history|;
            Answer(history, now) ==
            if n >= 2 && now < history[n - 2].at + SECOND
            then Refused(history[n - 2].at + SECOND + MILLI - now)
            else if n >= 70 && now < history[n - 70].at + 60 * SECOND
            then Refused(history[n - 70].at + 60 * SECOND + MILLI - now)
            else Granted
  {
    FreeInMeans(history, now, SECOND, READS_PER_S);
    FreeInMeans(history, now, MINUTE, READS_PER_MIN);
  }

  /** The wait is never too long: with no read accepted meanwhile the gate still refuses at any moment up to
      a millisecond short of it. */
  lemma RefusedMeanwhile(history: seq<Read>, now: nat, later: nat)
    requires InOrder(history) && NoLaterThan(history, now) && Answer(history, now).Refused?
    requires now <= later && later + MILLI < now + Answer(history, now).wait
    ensures Answer(history, later).Refused?
  {
    AnswerIsTold(history, now);
    AnswerIsTold(history, later);
    hide Answer;
  }

  lemma GrantKeepsTheLaw(history: seq<Read>, now: nat, read: Read)
    requires Lawful(history, now) && read.at == now && Roomy(history, now)
    ensures Lawful(history + [read], now)
  {
  }

  lemma AnswerFromTheTail(at: seq<Read>, history: seq<Read>, gone: nat, now: nat)
    requires Lawful(history, now) && Tail(at, history, gone, now)
    ensures Answer(at, now) == Answer(history, now)
  {
    PruningChangesNoVerdict(history, gone, now, SECOND, READS_PER_S);
    PruningChangesNoVerdict(history, gone, now, MINUTE, READS_PER_MIN);
  }

  /** A read is granted exactly when fewer than two were granted in the last second and fewer than
      seventy in the last minute. */
  lemma GrantedExactlyWhenFew(history: seq<Read>, now: nat)
    requires InOrder(history) && NoLaterThan(history, now)
    ensures Answer(history, now).Granted? <==>
              |Within(history, now, SECOND)| < 2 && |Within(history, now, 60 * SECOND)| < 70
  {
    FreeMeansFew(history, now, SECOND, READS_PER_S);
    FreeMeansFew(history, now, MINUTE, READS_PER_MIN);
  }

  lemma FreeMeansFew(history: seq<Read>, now: nat, window: nat, limit: nat)
    requires limit > 0 && InOrder(history) && NoLaterThan(history, now)
    ensures FreeIn(history, now, window, limit).None? <==> |Within(history, now, window)| < limit
  {
    var k := WithinIsASuffix(history, now, window);
    SortKeepsOrder(Within(history, now, window));
  }

  lemma AMinuteIsNeverOverfull(history: seq<Read>, now: nat)
    requires Lawful(history, now)
    ensures |Within(history, now, MINUTE)| <= READS_PER_MIN
  {
    var k := WithinIsASuffix(history, now, MINUTE);
    if |history| > READS_PER_MIN {
      assert history[|history| - 1].at - history[|history| - 1 - READS_PER_MIN].at >= MINUTE;
    }
  }

  /** One question put to the gate, whole: the answer from the kept tail is the answer from the full
      history, and the law and the tail are kept. */
  lemma AskingKeepsTheLaw(at: seq<Read>, history: seq<Read>, gone: nat, now: nat, listening: bool)
    requires Lawful(history, now) && Tail(at, history, gone, now)
    ensures Answer(at, now) == Answer(history, now)
    ensures Lawful(Asked(history, now, listening), now)
    ensures Tail(Asked(at, now, listening), Asked(history, now, listening), gone, now)
  {
    hide Answer;
    AnswerFromTheTail(at, history, gone, now);
    AnswerMeans(history, now);
    if Roomy(history, now) {
      GrantKeepsTheLaw(history, now, Read(now, listening));
    }
  }

  lemma KeptIsTheMinute(at: seq<Read>, history: seq<Read>, gone: nat, now: nat)
    requires InOrder(history) && NoLaterThan(history, now) && Tail(at, history, gone, now)
    requires forall i :: 0 <= i < |at| ==> now - at[i].at < MINUTE
    ensures |at| == |Within(history, now, MINUTE)|
  {
    var k := WithinIsASuffix(history, now, MINUTE);
    assert k < |history| ==> now - history[k].at < MINUTE;
    assert gone < |history| ==> history[gone] == at[0];
  }

  method Retain(at: seq<Read>, now: nat) returns (kept: seq<Read>)
    ensures kept == Pruned(at, now)
  {
    kept := [];
    for i := 0 to |at|
      invariant kept + Pruned(at[i..], now) == Pruned(at, now)
    {
      ghost var rest := Pruned(at[i + 1..], now);
      assert at[i..][1..] == at[i + 1..];
      if Minus(now, at[i].at) < MINUTE {
        assert kept + ([at[i]] + rest) == (kept + [at[i]]) + rest;
        kept := kept + [at[i]];
      }
    }
    assert at[|at|..] == [];
  }

  method HowManyListening(at: seq<Read>, ghost history: seq<Read>, ghost gone: nat, now: nat, since: nat)
      returns (n: nat)
    requires NoLaterThan(history, now) && Tail(at, history, gone, now)
    requires forall i :: 0 <= i < |at| ==> now - at[i].at < MINUTE
    ensures n == Listening(history, now, since)
  {
    n := 0;
    NoneListening(history[..gone], now, since);
    for i := 0 to |at|
      invariant n == Listening(history[..gone + i], now, since)
    {
      assert history[..gone + i + 1][..gone + i] == history[..gone + i];
      assert history[gone + i] == at[i];
      if at[i].listening && at[i].at >= since {
        n := n + 1;
      }
    }
    assert history[..gone + |at|] == history;
  }

  lemma {:induction false} NoneListening(h: seq<Read>, now: nat, since: nat)
    requires forall i :: 0 <= i < |h| ==> Minus(now, h[i].at) >= MINUTE
    ensures Listening(h, now, since) == 0
  {
    if h != [] {
      NoneListening(h[..|h| - 1], now, since);
    }
  }

  /** What is counted is exactly the reads that were made while listening, no earlier than `since` and less
      than a minute ago. */
  lemma {:induction false} ListeningCounts(h: seq<Read>, now: nat, since: nat)
    requires NoLaterThan(h, now)
    ensures Listening(h, now, since)
         == |Where(h, (r: Read) => r.listening && since <= r.at && now < r.at + 60 * SECOND)|
  {
    var counts := (r: Read) => r.listening && since <= r.at && now < r.at + 60 * SECOND;
    if h == [] {
      assert Where(h, counts) == {};
    } else {
      var front, r := h[..|h| - 1], h[|h| - 1];
      assert h == front + [r];
      ListeningCounts(front, now, since);
      OneMoreWhere(front, r, counts);
      hide Where;
    }
  }

  method Ask(at: seq<Read>, ghost history: seq<Read>, ghost gone: nat, now: nat, listening: bool)
      returns (slot: Slot, at': seq<Read>, ghost history': seq<Read>)
    requires Lawful(history, now) && Tail(at, history, gone, now)
    ensures slot == Answer(history, now)
    ensures history' == Asked(history, now, listening)
    ensures Lawful(history', now) && Tail(at', history', gone, now)
  {
    AskingKeepsTheLaw(at, history, gone, now, listening);
    slot, at', history' := Answer(at, now), at, Asked(history, now, listening);
    if slot.Granted? {
      at' := at + [Read(now, listening)];
    }
  }

  class Reads {
    var at: seq<Read>
    var suppressed: nat
    var reported: Option<nat>

    /** Every read ever granted and how many of them are no longer kept, every refusal ever given, every
        refusal ever reported, and the latest time the gate has been told. */
    ghost var history: seq<Read>
    ghost var gone: nat
    ghost var refusals: nat
    ghost var told: nat
    ghost var clock: nat

    ghost predicate Valid()
      reads this
    {
      Lawful(history, clock) && Tail(at, history, gone, clock) && refusals == told + suppressed
    }

    constructor ()
      ensures Valid() && history == [] && refusals == 0 && told == 0 && clock == 0
    {
      at, suppressed, reported := [], 0, None;
      history, gone, refusals, told, clock := [], 0, 0, 0, 0;
    }

    method Prune(now: nat)
      requires Valid() && clock <= now
      modifies this`at, this`gone, this`clock
      ensures Valid() && clock == now
      ensures forall i :: 0 <= i < |at| ==> now - at[i].at < MINUTE
    {
      var kept := Retain(at, now);
      gone := PruneKeepsTheTail(at, history, gone, clock, now);
      at, clock := kept, now;
    }

    /** The gate's answer to one read. The verdict is about the full history, not about the list that
        happens to be kept. */
    method Take(now: nat, listening: bool) returns (slot: Slot)
      requires Valid() && clock <= now
      modifies this`at, this`gone, this`suppressed, this`history, this`refusals, this`clock
      ensures Valid() && clock == now && told == old(told)
      ensures slot == Answer(old(history), now)
      ensures history == Asked(old(history), now, listening)
      ensures suppressed == old(suppressed) + (if slot.Refused? then 1 else 0)
      ensures refusals == old(refusals) + (if slot.Refused? then 1 else 0)
    {
      hide Lawful, Tail, Answer, Asked;
      Prune(now);
      slot, at, history := Ask(at, history, gone, now, listening);
      if slot.Refused? {
        suppressed, refusals := suppressed + 1, refusals + 1;
      }
    }

    /** The reads of the last minute, counted from the kept list. */
    method LastMin(now: nat) returns (n: nat)
      requires Valid() && clock <= now
      modifies this`at, this`gone, this`clock
      ensures Valid() && clock == now
      ensures n == |Within(history, now, MINUTE)| <= READS_PER_MIN
    {
      Prune(now);
      AMinuteIsNeverOverfull(history, now);
      KeptIsTheMinute(at, history, gone, now);
      n := |at|;
    }

    method ListeningSince(now: nat, since: nat) returns (n: nat)
      requires Valid() && clock <= now
      modifies this`at, this`gone, this`clock
      ensures Valid() && clock == now
      ensures n == Listening(history, now, since)
    {
      Prune(now);
      n := HowManyListening(at, history, gone, now, since);
    }

    /** Refusals are reported together, and never twice within a minute. */
    method Report(now: nat) returns (n: Option<nat>)
      requires Valid()
      modifies this`suppressed, this`reported, this`told
      ensures Valid()
      ensures n.Some? <==>
                old(suppressed) > 0 && !(old(reported).Some? && now < old(reported).value + 60 * SECOND)
      ensures n.Some? ==>
                n.value == old(suppressed) && told == old(told) + n.value && suppressed == 0 && reported == Some(now)
      ensures n.None? ==> told == old(told) && suppressed == old(suppressed) && reported == old(reported)
    {
      if suppressed == 0 || (reported.Some? && Minus(now, reported.value) < SUPPRESSED_EVERY) {
        return None;
      }
      reported := Some(now);
      n := Some(suppressed);
      told, suppressed := told + suppressed, 0;
    }

    /** Whatever has happened to a gate, no half-open second anywhere in its history holds more than
        two reads and no half-open minute more than seventy, and no refusal is lost or told twice. */
    lemma EveryWindowHolds(from: nat)
      requires Valid()
      ensures Count(history, from, from + SECOND) <= 2
      ensures Count(history, from, from + 60 * SECOND) <= 70
      ensures refusals == told + suppressed
    {
      SpacedBoundsEveryWindow(history, SECOND, READS_PER_S, from);
      SpacedBoundsEveryWindow(history, MINUTE, READS_PER_MIN, from);
    }
  }

  /** Ask the gate once, and report refusals when a report is due. */
  method SessionsSlot(gate: Reads, now: nat, listening: bool) returns (slot: Slot, say: Option<nat>)
    requires gate.Valid() && gate.clock <= now
    modifies gate
    ensures gate.Valid() && gate.clock == now
    ensures slot == Answer(old(gate.history), now)
    ensures gate.history == Asked(old(gate.history), now, listening)
    ensures gate.refusals == old(gate.refusals) + (if slot.Refused? then 1 else 0)
    ensures gate.told == old(gate.told) + (if say.Some? then say.value else 0)
  {
    slot := gate.Take(now, listening);
    say := gate.Report(now);
  }

  /** Waking up frees the window that refused, and never refills the other. */
  lemma FreeOnceWoken(h: seq<Read>, now: nat, woken: nat)
    requires InOrder(h) && NoLaterThan(h, now)
    requires Answer(h, now).Refused? && now + Answer(h, now).wait <= woken
    ensures FreeIn(h, woken, SECOND, READS_PER_S).None?
    ensures FreeIn(h, now, SECOND, READS_PER_S).None? || FreeIn(h, now, MINUTE, READS_PER_MIN).None? ==>
              FreeIn(h, woken, MINUTE, READS_PER_MIN).None?
  {
    FreeInMeans(h, now, SECOND, READS_PER_S);
    FreeInMeans(h, now, MINUTE, READS_PER_MIN);
    FreeInMeans(h, woken, SECOND, READS_PER_S);
    FreeInMeans(h, woken, MINUTE, READS_PER_MIN);
  }

  /** A wait is for one window, and no longer than that window and a millisecond. */
  lemma WaitIsForOneWindow(h: seq<Read>, now: nat)
    requires InOrder(h) && NoLaterThan(h, now) && Answer(h, now).Refused?
    ensures FreeIn(h, now, SECOND, READS_PER_S).Some? ==> Answer(h, now).wait <= SECOND + MILLI
    ensures FreeIn(h, now, SECOND, READS_PER_S).None? ==>
              FreeIn(h, now, MINUTE, READS_PER_MIN).Some? && Answer(h, now).wait <= MINUTE + MILLI
  {
    FreeInMeans(h, now, SECOND, READS_PER_S);
    FreeInMeans(h, now, MINUTE, READS_PER_MIN);
  }

  /** Ask until granted, four times at the most. A sleep may run over by any amount (`overrun`), and
      nobody else uses the gate meanwhile: then it never gives up, and the third try is the last it can
      need. Nor is it kept waiting for longer than each window and its sleeps. */
  method SessionsWaiting(gate: Reads, now: nat, overrun: nat -> nat) returns (ok: bool, tries: nat)
    requires gate.Valid() && gate.clock <= now
    modifies gate
    ensures gate.Valid()
    ensures ok && 1 <= tries <= 3
    ensures exists at :: now <= at <= now + SECOND + 60 * SECOND + 2 * MILLI + overrun(1) + overrun(2)
                         && gate.history == old(gate.history) + [Read(at, false)]
  {
    hide FreeIn, Answer, Spaced;
    var clock := now;
    ghost var h := gate.history;
    ok, tries := false, 0;
    while tries < 4
      invariant gate.Valid() && gate.clock <= clock && now <= clock
      invariant gate.history == h && NoLaterThan(h, clock)
      invariant tries <= 2
      invariant tries == 0 ==> clock == now
      invariant tries == 1 && FreeIn(h, clock, MINUTE, READS_PER_MIN).Some? ==>
                  clock <= now + SECOND + MILLI + overrun(1)
      invariant tries == 1 ==> clock <= now + MINUTE + MILLI + overrun(1)
      invariant tries == 2 ==> clock <= now + SECOND + MINUTE + 2 * MILLI + overrun(1) + overrun(2)
      invariant tries >= 1 ==> FreeIn(h, clock, SECOND, READS_PER_S).None?
      invariant tries >= 2 ==> FreeIn(h, clock, MINUTE, READS_PER_MIN).None?
      decreases 4 - tries
    {
      var slot, say := SessionsSlot(gate, clock, false);
      tries := tries + 1;
      if slot.Granted? {
        return true, tries;
      }
      var woken := clock + slot.wait + overrun(tries);
      FreeOnceWoken(h, clock, woken);
      WaitIsForOneWindow(h, clock);
      clock := woken;
    }
  }
}
