/** What the collector does with a session list (`tick` in src/collector.rs, with the play rows of
    src/playback.rs): plays are told apart, timed, continued after a short break, and closed.

    Every database write of `tick` is one step here, so a run is any sequence of sightings, endings,
    restarts of the process, and plays deleted by their owner. */
module Tracking {
  import opened Options

  const MIN_KEEP_S: int := 2
  const PERSIST_EVERY: real := 30.0
  const STEP_CAP: real := 90.0

  /** What two sightings must share to be of one viewing. */
  datatype Who = Who(user: string, item: string, device: Option<string>)

  datatype RowId = RowId(n: int)

  datatype Row = Row(live: bool, who: Who, active: bool, startedAt: int, endedAt: int, durationS: int, pausedS: int)

  /** One session with something loaded. `changed` says that something other than the pause differs
      from the last sighting (a seek, a track, the play method). */
  datatype Sighting = Sighting(key: string, who: Who, isPaused: bool, changed: bool)

  /** When a play was seen, by the clock of the process and by the calendar, whether it was paused then, and
      whether something else had changed. */
  datatype Seen = Seen(at: real, now: int, isPaused: bool, changed: bool)

  /** A play being followed. `seen`, `who`, `from`, `watched0` and `paused0` are its history: every sighting,
      whose play it is, the row it continued if it did, and the time it started from. */
  datatype Tracked = Tracked(
    rowId: RowId, watched: real, paused: real, isPaused: bool, lastTick: real, lastPersist: real, endedAt: int,
    seen: seq<Seen>, who: Who, from: Option<Row>, watched0: real, paused0: real)

  datatype State = State(rows: map<RowId, Row>, tracked: map<string, Tracked>)

  /** `f64::round` on what is never negative. */
  function Round(x: real): int {
    (x + 0.5).Floor
  }

  /** The step between two sightings, capped so that a stalled loop is not counted as viewing. */
  function Gap(from: real, to: real): (dt: real)
    ensures 0.0 <= dt <= STEP_CAP
  {
    if to <= from then 0.0 else if to - from < STEP_CAP then to - from else STEP_CAP
  }

  /** (watched, paused): a gap counts for the state at its start, not for the one at its end. */
  function Attribute(dt: real, wasPaused: bool): (real, real) {
    if wasPaused then (0.0, dt) else (dt, 0.0)
  }

  // ------------------------------------------------------------------ the steps

  /** Where a play first seen goes: the row it continues, or a new one. */
  datatype Place = Continued(id: RowId) | Inserted(id: RowId)

  predicate Resumable(rows: map<RowId, Row>, id: RowId, who: Who, since: int) {
    id in rows && rows[id].live && !rows[id].active && rows[id].who == who && rows[id].endedAt >= since
  }

  ghost predicate LatestResumable(rows: map<RowId, Row>, id: RowId, who: Who, since: int) {
    && Resumable(rows, id, who, since)
    && forall other :: Resumable(rows, other, who, since) ==> rows[other].endedAt <= rows[id].endedAt
  }

  ghost predicate NoneResumable(rows: map<RowId, Row>, who: Who, since: int) {
    forall other :: !Resumable(rows, other, who, since)
  }

  /** The query's answer, whichever it gives among rows that ended at the same moment. */
  ghost predicate Fits(rows: map<RowId, Row>, place: Place, who: Who, now: int, mergeWindow: int) {
    match place
    case Continued(id) => mergeWindow > 0 && LatestResumable(rows, id, who, now - mergeWindow)
    case Inserted(id) => id !in rows && (mergeWindow <= 0 || NoneResumable(rows, who, now - mergeWindow))
  }

  function SeenAgain(s: State, v: Sighting, now: int, tickAt: real): State
    requires v.key in s.tracked && s.tracked[v.key].rowId in s.rows
  {
    var t := s.tracked[v.key];
    var (watched, paused) := Attribute(Gap(t.lastTick, tickAt), t.isPaused);
    var t' := t.(watched := t.watched + watched, paused := t.paused + paused, lastTick := tickAt,
                 isPaused := v.isPaused, endedAt := now, seen := t.seen + [Seen(tickAt, now, v.isPaused, v.changed)]);
    if t.isPaused != v.isPaused || v.changed || tickAt - t.lastPersist >= PERSIST_EVERY then
      var row := s.rows[t.rowId].(active := true, endedAt := now, durationS := Round(t'.watched),
                                        pausedS := Round(t'.paused));
      State(s.rows[t.rowId := row], s.tracked[v.key := t'.(lastPersist := tickAt)])
    else
      s.(tracked := s.tracked[v.key := t'])
  }

  function FirstSeen(s: State, v: Sighting, now: int, tickAt: real, place: Place): State
    requires place.Continued? ==> place.id in s.rows
  {
    var (watched, paused) :=
      if place.Continued? then (s.rows[place.id].durationS as real, s.rows[place.id].pausedS as real) else (0.0, 0.0);
    var row := if place.Continued? then s.rows[place.id].(active := true) else Row(true, v.who, true, now, now, 0, 0);
    State(s.rows[place.id := row],
          s.tracked[v.key := Tracked(place.id, watched, paused, v.isPaused, tickAt, tickAt, now,
                                     [Seen(tickAt, now, v.isPaused, v.changed)], v.who,
                                     if place.Continued? then Some(s.rows[place.id]) else None, watched, paused)])
  }

  function Ended(s: State, key: string): State
    requires key in s.tracked && s.tracked[key].rowId in s.rows
  {
    var t := s.tracked[key];
    var duration := Round(t.watched);
    if duration < MIN_KEEP_S then State(s.rows - {t.rowId}, s.tracked - {key})
    else
      var row := s.rows[t.rowId].(active := false, endedAt := t.endedAt, durationS := duration,
                                        pausedS := Round(t.paused));
      State(s.rows[t.rowId := row], s.tracked - {key})
  }

  /** What a new process does first with the rows an old one left active. */
  function Restarted(s: State): State {
    State(map id | id in s.rows && !(s.rows[id].active && s.rows[id].durationS < MIN_KEEP_S) ::
            s.rows[id].(active := false),
          map[])
  }

  datatype Step =
    | See(v: Sighting, now: int, tickAt: real, mergeWindow: int, place: Place)
    | End(key: string)
    | Restart
    | Forget(id: RowId)        // its owner deletes a play, which only works once it has ended

  ghost predicate Possible(s: State, step: Step) {
    match step
    case See(v, now, tickAt, mergeWindow, place) =>
      if v.key in s.tracked then s.tracked[v.key].rowId in s.rows
      else Fits(s.rows, place, v.who, now, mergeWindow)
    case End(key) => key in s.tracked && s.tracked[key].rowId in s.rows
    case Restart => true
    case Forget(id) => id in s.rows && !s.rows[id].active
  }

  function Do(s: State, step: Step): State
    requires Possible(s, step)
  {
    match step
    case See(v, now, tickAt, _, place) =>
      if v.key in s.tracked then SeenAgain(s, v, now, tickAt) else FirstSeen(s, v, now, tickAt, place)
    case End(key) => Ended(s, key)
    case Restart => Restarted(s)
    case Forget(id) => s.(rows := s.rows - {id})
  }

  ghost function RunFrom(s: State, steps: seq<Step>): State {
    if steps == [] then s
    else
      var before := RunFrom(s, steps[..|steps| - 1]);
      if Possible(before, steps[|steps| - 1]) then Do(before, steps[|steps| - 1]) else before
  }

  // ------------------------------------------------------------------ time, told from the sightings

  /** The watch time a history of sightings stands for: each gap counts if the play was not paused
      when the gap began. */
  function WatchedIn(seen: seq<Seen>): real {
    if |seen| < 2 then 0.0
    else
      var from, to := seen[|seen| - 2], seen[|seen| - 1];
      WatchedIn(seen[..|seen| - 1]) + if from.isPaused then 0.0 else Gap(from.at, to.at)
  }

  function PausedIn(seen: seq<Seen>): real {
    if |seen| < 2 then 0.0
    else
      var from, to := seen[|seen| - 2], seen[|seen| - 1];
      PausedIn(seen[..|seen| - 1]) + if from.isPaused then Gap(from.at, to.at) else 0.0
  }

  function GapsIn(seen: seq<Seen>): real {
    if |seen| < 2 then 0.0
    else GapsIn(seen[..|seen| - 1]) + Gap(seen[|seen| - 2].at, seen[|seen| - 1].at)
  }

  lemma {:induction false} EveryGapIsCreditedOnce(seen: seq<Seen>)
    ensures WatchedIn(seen) + PausedIn(seen) == GapsIn(seen)
    ensures WatchedIn(seen) >= 0.0 && PausedIn(seen) >= 0.0
  {
    if |seen| >= 2 {
      EveryGapIsCreditedOnce(seen[..|seen| - 1]);
    }
  }

  /** Sightings that follow one another within a minute and a half lose nothing: together the gaps are the time
      from the first to the last. */
  lemma {:induction false} NothingIsLost(seen: seq<Seen>)
    requires seen != []
    requires forall i :: 0 < i < |seen| ==> seen[i - 1].at <= seen[i].at <= seen[i - 1].at + 90.0
    ensures GapsIn(seen) == seen[|seen| - 1].at - seen[0].at
  {
    if |seen| >= 2 {
      NothingIsLost(seen[..|seen| - 1]);
    }
  }

  /** And of longer gaps, however long, each counts for a minute and a half. */
  lemma {:induction false} LongGapsAreCapped(seen: seq<Seen>)
    requires seen != []
    requires forall i :: 0 < i < |seen| ==> seen[i].at >= seen[i - 1].at + 90.0
    ensures GapsIn(seen) == 90.0 * (|seen| - 1) as real
  {
    if |seen| >= 2 {
      LongGapsAreCapped(seen[..|seen| - 1]);
    }
  }

  /** However long the gaps, a play paused at every sighting but the last gains no watch time. */
  lemma {:induction false} PausedIsNeverWatched(seen: seq<Seen>)
    requires forall i :: 0 <= i < |seen| - 1 ==> seen[i].isPaused
    ensures WatchedIn(seen) == 0.0
  {
    if |seen| >= 2 {
      PausedIsNeverWatched(seen[..|seen| - 1]);
    }
  }

  // ------------------------------------------------------------------ what every step keeps

  /** A row was written at sighting `p` of its play, and nothing has called for another write since: neither the
      pause nor anything else has changed, and less than half a minute has passed. */
  ghost predicate WrittenAt(row: Row, t: Tracked, p: nat) {
    && p < |t.seen| && t.lastPersist == t.seen[p].at
    && row.durationS == Round(t.watched0 + WatchedIn(t.seen[..p + 1]))
    && row.pausedS == Round(t.paused0 + PausedIn(t.seen[..p + 1]))
    && row.endedAt == (if p == 0 && t.from.Some? then t.from.value.endedAt else t.seen[p].now)
    && forall i :: p < i < |t.seen| ==>
         t.seen[i].isPaused == t.seen[p].isPaused && !t.seen[i].changed && t.seen[i].at - t.seen[p].at < 30.0
  }

  ghost predicate Written(row: Row, t: Tracked) {
    exists p: nat :: WrittenAt(row, t, p)
  }

  /** The row is of the play: whose it is, and when it began. */
  ghost predicate Identified(row: Row, t: Tracked) {
    && row.live && row.active && row.who == t.who && |t.seen| > 0
    && row.startedAt == (if t.from.Some? then t.from.value.startedAt else t.seen[0].now)
    && t.watched0 == (if t.from.Some? then t.from.value.durationS as real else 0.0)
    && t.paused0 == (if t.from.Some? then t.from.value.pausedS as real else 0.0)
  }

  /** A followed play agrees with its history, and with its row. */
  ghost predicate Sound(rows: map<RowId, Row>, t: Tracked) {
    && t.rowId in rows && Identified(rows[t.rowId], t) && Written(rows[t.rowId], t)
    && t.seen[|t.seen| - 1] == Seen(t.lastTick, t.endedAt, t.isPaused, t.seen[|t.seen| - 1].changed)
    && t.watched == t.watched0 + WatchedIn(t.seen) && t.paused == t.paused0 + PausedIn(t.seen)
    && 0.0 <= t.watched0 <= t.watched && 0.0 <= t.paused0 <= t.paused
    && rows[t.rowId].durationS <= Round(t.watched)
  }

  /** Plays followed and rows marked active, one to one. */
  ghost predicate OneToOne(rows: map<RowId, Row>, tracked: map<string, Tracked>) {
    && (forall key :: key in tracked ==> tracked[key].rowId in rows && rows[tracked[key].rowId].active)
    && (forall a, b :: a in tracked && b in tracked && a != b ==> tracked[a].rowId != tracked[b].rowId)
    && (forall id :: id in rows && rows[id].active ==> exists key :: key in tracked && tracked[key].rowId == id)
  }

  ghost predicate RowHolds(row: Row) {
    row.durationS >= 0 && row.pausedS >= 0 && (row.live && !row.active ==> row.durationS >= MIN_KEEP_S)
  }

  ghost predicate Inv(s: State) {
    && OneToOne(s.rows, s.tracked)
    && (forall key :: key in s.tracked ==> Sound(s.rows, s.tracked[key]))
    && (forall id :: id in s.rows ==> RowHolds(s.rows[id]))
  }

  /** The nearest whole number, and the greater of two. */
  lemma RoundIsNearest(x: real)
    ensures x - 0.5 < Round(x) as real <= x + 0.5
  {
  }

  lemma RoundGrows(x: real, y: real)
    requires 0.0 <= x <= y
    ensures 0 <= Round(x) <= Round(y)
  {
  }

  lemma RoundOfWhole(n: int)
    ensures Round(n as real) == n
  {
  }

  lemma SoundElsewhere(rows: map<RowId, Row>, rows': map<RowId, Row>, t: Tracked)
    requires Sound(rows, t) && t.rowId in rows' && rows'[t.rowId] == rows[t.rowId]
    ensures Sound(rows', t)
  {
  }

  lemma WrittenNow(row: Row, t: Tracked)
    requires t.seen != [] && t.lastPersist == t.seen[|t.seen| - 1].at
    requires row.durationS == Round(t.watched0 + WatchedIn(t.seen))
    requires row.pausedS == Round(t.paused0 + PausedIn(t.seen))
    requires row.endedAt
          == if |t.seen| == 1 && t.from.Some? then t.from.value.endedAt else t.seen[|t.seen| - 1].now
    ensures Written(row, t)
  {
    hide Round, WatchedIn, PausedIn;
    assert t.seen[..|t.seen|] == t.seen;
    assert WrittenAt(row, t, |t.seen| - 1);
  }

  lemma StillWritten(row: Row, t: Tracked, t': Tracked, x: Seen)
    requires Written(row, t) && t.seen != []
    requires t'.seen == t.seen + [x] && t' == t.(watched := t'.watched, paused := t'.paused, lastTick := t'.lastTick,
                                                 isPaused := t'.isPaused, endedAt := t'.endedAt, seen := t'.seen)
    requires x.isPaused == t.seen[|t.seen| - 1].isPaused && !x.changed && x.at - t.lastPersist < 30.0
    ensures Written(row, t')
  {
    hide Round, WatchedIn, PausedIn;
    var p: nat :| WrittenAt(row, t, p);
    assert t'.seen[..p + 1] == t.seen[..p + 1];
    assert WrittenAt(row, t', p);
  }

  /** One more sighting: the gap since the last one is credited to the state it began in, and the row is written
      when the pause changed, something else did, or half a minute has passed. */
  ghost predicate Again(t: Tracked, row: Row, t': Tracked, row': Row, x: Seen) {
    && t'.seen == t.seen + [x]
    && t'.watched == t.watched + (if t.isPaused then 0.0 else Gap(t.lastTick, x.at))
    && t'.paused == t.paused + (if t.isPaused then Gap(t.lastTick, x.at) else 0.0)
    && t' == t.(watched := t'.watched, paused := t'.paused, lastTick := x.at, isPaused := x.isPaused, endedAt := x.now,
                lastPersist := t'.lastPersist, seen := t'.seen)
    && (Unwritten(t, row, t', row', x)
        || (t'.lastPersist == x.at
            && row' == row.(active := true, endedAt := x.now, durationS := Round(t'.watched),
                             pausedS := Round(t'.paused))))
  }

  ghost predicate Unwritten(t: Tracked, row: Row, t': Tracked, row': Row, x: Seen) {
    row' == row && t'.lastPersist == t.lastPersist && x.isPaused == t.isPaused && !x.changed
    && x.at - t.lastPersist < 30.0
  }

  lemma AgainMeans(s: State, v: Sighting, now: int, tickAt: real)
    requires v.key in s.tracked && s.tracked[v.key].rowId in s.rows
    ensures var t, s' := s.tracked[v.key], SeenAgain(s, v, now, tickAt);
            Again(t, s.rows[t.rowId], s'.tracked[v.key], s'.rows[t.rowId], Seen(tickAt, now, v.isPaused, v.changed))
  {
    hide Round, Gap;
  }

  lemma AgainIsWritten(t: Tracked, row: Row, t': Tracked, row': Row, x: Seen)
    requires Again(t, row, t', row', x) && Written(row, t) && t.seen != []
    requires t.seen[|t.seen| - 1].isPaused == t.isPaused
    requires t'.watched == t'.watched0 + WatchedIn(t'.seen) && t'.paused == t'.paused0 + PausedIn(t'.seen)
    ensures Written(row', t')
  {
    hide Round, Gap, Written, WatchedIn, PausedIn;
    if Unwritten(t, row, t', row', x) {
      StillWritten(row, t, t', x);
    } else {
      WrittenNow(row', t');
    }
  }

  lemma AgainIsTimed(t: Tracked, row: Row, t': Tracked, row': Row, x: Seen)
    requires Again(t, row, t', row', x) && t.seen != []
    requires t.seen[|t.seen| - 1] == Seen(t.lastTick, t.endedAt, t.isPaused, t.seen[|t.seen| - 1].changed)
    requires t.watched == t.watched0 + WatchedIn(t.seen) && t.paused == t.paused0 + PausedIn(t.seen)
    ensures t'.watched == t'.watched0 + WatchedIn(t'.seen) && t'.paused == t'.paused0 + PausedIn(t'.seen)
  {
    assert t'.seen[..|t'.seen| - 1] == t.seen;
    hide Round, Gap;
  }

  lemma SightingKeepsSound(s: State, v: Sighting, now: int, tickAt: real)
    requires v.key in s.tracked && Sound(s.rows, s.tracked[v.key]) && RowHolds(s.rows[s.tracked[v.key].rowId])
    ensures var s' := SeenAgain(s, v, now, tickAt);
            && s'.tracked[v.key].rowId == s.tracked[v.key].rowId && s.tracked[v.key].rowId in s'.rows
            && Sound(s'.rows, s'.tracked[v.key]) && RowHolds(s'.rows[s'.tracked[v.key].rowId])
  {
    AgainMeans(s, v, now, tickAt);
    var t, s', x := s.tracked[v.key], SeenAgain(s, v, now, tickAt), Seen(tickAt, now, v.isPaused, v.changed);
    var t', row, row' := s'.tracked[v.key], s.rows[t.rowId], s'.rows[t.rowId];
    hide SeenAgain, Round, Gap, Written, WatchedIn, PausedIn, Identified, RowHolds;
    HistoryGrows(t, row, t', row', x);
    AgainIsTimed(t, row, t', row', x);
    AgainIsWritten(t, row, t', row', x);
    AgainIsIdentified(t, row, t', row', x);
    hide Again;
  }

  lemma HistoryGrows(t: Tracked, row: Row, t': Tracked, row': Row, x: Seen)
    requires Again(t, row, t', row', x)
    ensures t'.seen == t.seen + [x] && t'.rowId == t.rowId && t'.watched0 == t.watched0 && t'.paused0 == t.paused0
    ensures x == Seen(t'.lastTick, t'.endedAt, t'.isPaused, x.changed)
    ensures t'.watched >= t.watched && t'.paused >= t.paused
  {
    hide Round, Unwritten;
  }

  lemma AgainIsIdentified(t: Tracked, row: Row, t': Tracked, row': Row, x: Seen)
    requires Again(t, row, t', row', x) && Identified(row, t) && RowHolds(row)
    requires row.durationS <= Round(t.watched) && t.watched >= 0.0 && t.paused >= 0.0
    ensures Identified(row', t') && RowHolds(row') && row'.durationS <= Round(t'.watched)
  {
    hide Gap;
    RoundGrows(t.watched, t'.watched);
    RoundGrows(t.paused, t'.paused);
    hide Round;
  }

  /** Seeing a play again changes what is known of it and perhaps its row, and nothing else. */
  lemma SeenAgainTouches(s: State, v: Sighting, now: int, tickAt: real) returns (t: Tracked, row: Row)
    requires v.key in s.tracked && OneToOne(s.rows, s.tracked)
    ensures row.active && t.rowId == s.tracked[v.key].rowId && t.rowId in s.rows
    ensures SeenAgain(s, v, now, tickAt) == State(s.rows[t.rowId := row], s.tracked[v.key := t])
  {
    hide Round, Gap, Attribute;
    var s' := SeenAgain(s, v, now, tickAt);
    t := s'.tracked[v.key];
    row := s'.rows[t.rowId];
    assert s'.rows == s.rows[t.rowId := row];
  }

  lemma OneToOneStays(rows: map<RowId, Row>, tracked: map<string, Tracked>, key: string, t: Tracked, row: Row)
    requires OneToOne(rows, tracked) && key in tracked && t.rowId == tracked[key].rowId && row.active
    ensures OneToOne(rows[t.rowId := row], tracked[key := t])
  {
    var rows', tracked' := rows[t.rowId := row], tracked[key := t];
    forall i | i in rows' && rows'[i].active ensures exists k :: k in tracked' && tracked'[k].rowId == i {
      if i == t.rowId {
        assert key in tracked';
      } else {
        var k :| k in tracked && tracked[k].rowId == i;
        assert k in tracked' && tracked'[k].rowId == i;
      }
    }
  }

  lemma SightingKeepsOneToOne(s: State, v: Sighting, now: int, tickAt: real)
    requires v.key in s.tracked && OneToOne(s.rows, s.tracked)
    ensures var s' := SeenAgain(s, v, now, tickAt);
            && OneToOne(s'.rows, s'.tracked)
            && s'.tracked.Keys == s.tracked.Keys && s'.rows.Keys == s.rows.Keys
            && s'.tracked[v.key].rowId == s.tracked[v.key].rowId
            && (forall key :: key in s.tracked && key != v.key ==> s'.tracked[key] == s.tracked[key])
            && (forall id :: id in s.rows && id != s.tracked[v.key].rowId ==> s'.rows[id] == s.rows[id])
  {
    hide SeenAgain, OneToOne;
    var t, row := SeenAgainTouches(s, v, now, tickAt);
    OneToOneStays(s.rows, s.tracked, v.key, t, row);
  }

  lemma SeenAgainKeeps(s: State, v: Sighting, now: int, tickAt: real)
    requires Inv(s) && v.key in s.tracked
    ensures Inv(SeenAgain(s, v, now, tickAt))
  {
    var s' := SeenAgain(s, v, now, tickAt);
    SightingKeepsOneToOne(s, v, now, tickAt);
    SightingKeepsSound(s, v, now, tickAt);
    hide SeenAgain;
    RestKeeps(s, s', v.key, s'.tracked[v.key].rowId);
  }

  /** A step that touches one play and its row leaves everything else as it was. */
  lemma RestKeeps(s: State, s': State, key: string, id: RowId)
    requires Inv(s) && OneToOne(s'.rows, s'.tracked)
    requires key in s.tracked ==> s.tracked[key].rowId == id
    requires id in s.rows ==> !s.rows[id].active || key in s.tracked
    requires forall k :: k in s'.tracked && k != key ==> k in s.tracked && s'.tracked[k] == s.tracked[k]
    requires forall i :: i in s'.rows && i != id ==> i in s.rows && s'.rows[i] == s.rows[i]
    requires key in s'.tracked ==> Sound(s'.rows, s'.tracked[key])
    requires id in s'.rows ==> RowHolds(s'.rows[id])
    ensures Inv(s')
  {
    forall k | k in s'.tracked ensures Sound(s'.rows, s'.tracked[k]) {
      if k != key {
        SoundElsewhere(s.rows, s'.rows, s.tracked[k]);
      }
    }
    hide Sound;
  }

  lemma FirstSightingIsSound(s: State, v: Sighting, now: int, tickAt: real, mergeWindow: int, place: Place)
    requires Fits(s.rows, place, v.who, now, mergeWindow)
    requires place.id in s.rows ==> RowHolds(s.rows[place.id])
    ensures var s' := FirstSeen(s, v, now, tickAt, place);
            Sound(s'.rows, s'.tracked[v.key]) && RowHolds(s'.rows[place.id])
  {
    var s' := FirstSeen(s, v, now, tickAt, place);
    RoundOfWhole(s'.rows[place.id].durationS);
    RoundOfWhole(s'.rows[place.id].pausedS);
    hide Written, Round;
    WrittenNow(s'.rows[place.id], s'.tracked[v.key]);
  }

  lemma FirstSeenKeeps(s: State, v: Sighting, now: int, tickAt: real, mergeWindow: int, place: Place)
    requires Inv(s) && v.key !in s.tracked && Fits(s.rows, place, v.who, now, mergeWindow)
    ensures Inv(FirstSeen(s, v, now, tickAt, place))
  {
    var s' := FirstSeen(s, v, now, tickAt, place);
    FirstSightingIsSound(s, v, now, tickAt, mergeWindow, place);
    var t, row := s'.tracked[v.key], s'.rows[place.id];
    assert s'.rows == s.rows[place.id := row] && s'.tracked == s.tracked[v.key := t];
    assert t.rowId == place.id && row.active;
    hide Sound, RowHolds, FirstSeen;
    OneToOneWith(s.rows, s.tracked, v.key, t, row);
    RestKeeps(s, s', v.key, place.id);
  }

  lemma EndingTouchesOnePlay(s: State, key: string)
    requires key in s.tracked && Sound(s.rows, s.tracked[key])
    ensures var t, s' := s.tracked[key], Ended(s, key);
            && s'.tracked == s.tracked - {key}
            && (forall id :: id in s'.rows && id != t.rowId ==> id in s.rows && s'.rows[id] == s.rows[id])
            && (forall id :: id in s.rows && id != t.rowId ==> id in s'.rows)
            && (t.rowId in s'.rows ==> !s'.rows[t.rowId].active && RowHolds(s'.rows[t.rowId]))
  {
    RoundGrows(0.0, s.tracked[key].watched);
    RoundGrows(0.0, s.tracked[key].paused);
    hide Round;
  }

  lemma OneToOneWithout(rows: map<RowId, Row>, tracked: map<string, Tracked>, key: string, rows': map<RowId, Row>,
      id: RowId)
    requires OneToOne(rows, tracked) && key in tracked && tracked[key].rowId == id
    requires forall i :: i in rows' && i != id ==> i in rows && rows'[i] == rows[i]
    requires forall i :: i in rows && i != id ==> i in rows'
    requires id in rows' ==> !rows'[id].active
    ensures OneToOne(rows', tracked - {key})
  {
    forall i | i in rows' && rows'[i].active
      ensures exists k :: k in tracked - {key} && (tracked - {key})[k].rowId == i
    {
      var k :| k in tracked && tracked[k].rowId == i;
      assert k in tracked - {key};
    }
  }

  lemma OneToOneWith(rows: map<RowId, Row>, tracked: map<string, Tracked>, key: string, t: Tracked, row: Row)
    requires OneToOne(rows, tracked) && key !in tracked && row.active
    requires t.rowId in rows ==> !rows[t.rowId].active
    ensures OneToOne(rows[t.rowId := row], tracked[key := t])
  {
    var rows', tracked' := rows[t.rowId := row], tracked[key := t];
    forall i | i in rows' && rows'[i].active ensures exists k :: k in tracked' && tracked'[k].rowId == i {
      if i == t.rowId {
        assert key in tracked';
      } else {
        var k :| k in tracked && tracked[k].rowId == i;
        assert k in tracked';
      }
    }
  }

  lemma EndedKeeps(s: State, key: string)
    requires Inv(s) && key in s.tracked
    ensures Inv(Ended(s, key))
  {
    var t, s' := s.tracked[key], Ended(s, key);
    EndingTouchesOnePlay(s, key);
    hide Sound, Ended, RowHolds;
    OneToOneWithout(s.rows, s.tracked, key, s'.rows, t.rowId);
    RestKeeps(s, s', key, t.rowId);
  }

  lemma ForgetKeeps(s: State, id: RowId)
    requires Inv(s) && Possible(s, Forget(id))
    ensures Inv(Do(s, Forget(id)))
  {
    var s' := Do(s, Forget(id));
    forall k | k in s'.tracked ensures Sound(s'.rows, s'.tracked[k]) {
      SoundElsewhere(s.rows, s'.rows, s.tracked[k]);
    }
    hide Sound;
  }

  lemma StepKeeps(s: State, step: Step)
    requires Inv(s) && Possible(s, step)
    ensures Inv(Do(s, step))
  {
    match step
    case See(v, now, tickAt, mergeWindow, place) =>
      if v.key in s.tracked {
        SeenAgainKeeps(s, v, now, tickAt);
      } else {
        FirstSeenKeeps(s, v, now, tickAt, mergeWindow, place);
      }
    case End(key) => EndedKeeps(s, key);
    case Restart =>
    case Forget(id) => ForgetKeeps(s, id);
  }

  lemma {:induction false} RunKeeps(s: State, steps: seq<Step>)
    requires Inv(s)
    ensures Inv(RunFrom(s, steps))
  {
    if steps != [] {
      RunKeeps(s, steps[..|steps| - 1]);
      var before := RunFrom(s, steps[..|steps| - 1]);
      if Possible(before, steps[|steps| - 1]) {
        StepKeeps(before, steps[|steps| - 1]);
      }
    }
  }

  lemma RunExtends(s: State, steps: seq<Step>, step: Step)
    requires Possible(RunFrom(s, steps), step)
    ensures RunFrom(s, steps + [step]) == Do(RunFrom(s, steps), step)
  {
    hide Do, Possible;
    assert (steps + [step])[..|steps + [step]| - 1] == steps;
  }

  // ------------------------------------------------------------------ whole runs

  ghost predicate CleanStart(s: State) {
    s.tracked == map[] && forall id :: id in s.rows ==> !s.rows[id].active && RowHolds(s.rows[id])
  }

  /** In every run the rows marked active are exactly the rows of the plays being followed, one row to
      a play, continued plays and restarts included. */
  lemma ActiveRowsAreTheFollowedPlays(s: State, steps: seq<Step>)
    requires CleanStart(s)
    ensures var s' := RunFrom(s, steps);
            && (set id | id in s'.rows && s'.rows[id].active) == (set key | key in s'.tracked :: s'.tracked[key].rowId)
            && forall a, b :: a in s'.tracked && b in s'.tracked && s'.tracked[a].rowId == s'.tracked[b].rowId ==>
                 a == b
  {
    RunKeeps(s, steps);
    var s' := RunFrom(s, steps);
    var active := set id | id in s'.rows && s'.rows[id].active;
    var followed := set key | key in s'.tracked :: s'.tracked[key].rowId;
    forall id | id in active ensures id in followed {
      var key :| key in s'.tracked && s'.tracked[key].rowId == id;
    }
  }

  /** In every run a play's watched and paused time are what its sightings say, and together they are
      every capped gap, once, on top of what it started from. */
  lemma TimeIsWhatTheSightingsSay(s: State, steps: seq<Step>, key: string)
    requires CleanStart(s) && key in RunFrom(s, steps).tracked
    ensures var t := RunFrom(s, steps).tracked[key];
            && t.watched == t.watched0 + WatchedIn(t.seen)
            && t.paused == t.paused0 + PausedIn(t.seen)
            && t.watched + t.paused == t.watched0 + t.paused0 + GapsIn(t.seen)
  {
    RunKeeps(s, steps);
    EveryGapIsCreditedOnce(RunFrom(s, steps).tracked[key].seen);
  }

  // ------------------------------------------------------------------ a run told from its steps

  /** The sightings of a play since it was last not followed. */
  ghost function SightingsOf(s: State, steps: seq<Step>, key: string): seq<Step> {
    if steps == [] then []
    else
      var front, last := steps[..|steps| - 1], steps[|steps| - 1];
      var before := SightingsOf(s, front, key);
      if !Possible(RunFrom(s, front), last) then before
      else
        match last
        case See(v, _, _, _, _) => if v.key == key then before + [last] else before
        case End(ended) => if ended == key then [] else before
        case Restart => []
        case Forget(_) => before
  }

  ghost predicate SeenIs(x: Seen, step: Step) {
    step.See? && x == Seen(step.tickAt, step.now, step.v.isPaused, step.v.changed)
  }

  ghost predicate TellsOf(t: Tracked, sightings: seq<Step>) {
    && |t.seen| == |sightings| > 0
    && (forall i :: 0 <= i < |sightings| ==> SeenIs(t.seen[i], sightings[i]))
    && t.who == sightings[0].v.who
  }

  /** In every run a play is followed exactly when it was sighted since it last ended and since the process
      started, and its history is those sightings. */
  lemma {:induction false} HistoryIsTheSightings(s: State, steps: seq<Step>, key: string)
    requires CleanStart(s)
    ensures var tracked := RunFrom(s, steps).tracked;
            if SightingsOf(s, steps, key) == [] then key !in tracked
            else key in tracked && TellsOf(tracked[key], SightingsOf(s, steps, key))
  {
    if steps != [] {
      var front, last := steps[..|steps| - 1], steps[|steps| - 1];
      HistoryIsTheSightings(s, front, key);
      var before := RunFrom(s, front);
      if Possible(before, last) && last.See? && last.v.key == key {
        hide Fits, Do;
        OneMoreSighting(before, last, SightingsOf(s, front, key));
      } else if Possible(before, last) {
        OtherPlayStays(before, last, key);
        hide Possible, Do;
      }
    }
  }

  lemma OneMoreSighting(s: State, step: Step, sightings: seq<Step>)
    requires Possible(s, step) && step.See?
    requires if sightings == [] then step.v.key !in s.tracked
             else step.v.key in s.tracked && TellsOf(s.tracked[step.v.key], sightings)
    ensures step.v.key in Do(s, step).tracked && TellsOf(Do(s, step).tracked[step.v.key], sightings + [step])
  {
    hide Fits;
    if step.v.key in s.tracked {
      AgainMeans(s, step.v, step.now, step.tickAt);
      hide SeenAgain, Gap, Unwritten;
    }
  }

  lemma OtherPlayStays(s: State, step: Step, key: string)
    requires Possible(s, step) && !(step.See? && step.v.key == key)
    ensures step == Restart || step == End(key) ==> key !in Do(s, step).tracked
    ensures step != Restart && step != End(key) ==>
              (key in Do(s, step).tracked <==> key in s.tracked)
              && (key in s.tracked ==> Do(s, step).tracked[key] == s.tracked[key])
  {
    hide Fits, Round, Gap, Attribute;
  }

  /** The row a play is closed with, told from its history. */
  ghost function RowOf(t: Tracked): Row
    requires t.seen != []
  {
    var last := t.seen[|t.seen| - 1].now;
    match t.from
    case None => Row(true, t.who, false, t.seen[0].now, last, Round(WatchedIn(t.seen)), Round(PausedIn(t.seen)))
    case Some(row) => Row(true, t.who, false, row.startedAt, last, Round(row.durationS as real + WatchedIn(t.seen)),
                          Round(row.pausedS as real + PausedIn(t.seen)))
  }

  lemma HowItEnds(s: State, key: string)
    requires key in s.tracked && Sound(s.rows, s.tracked[key])
    ensures var t, rows := s.tracked[key], Ended(s, key).rows;
            && t.seen != []
            && var row := RowOf(t);
               if row.durationS < 2 then t.rowId !in rows else t.rowId in rows && rows[t.rowId] == row
  {
    hide Round, Written, WatchedIn, PausedIn;
  }

  /** In every run a play that ends having been watched for less than two seconds is dropped. Any other is
      closed with the row its sightings call for: whose it is, begun when it was first seen, or when the row
      it continued was, ended when it was last seen, and with what was watched and paused in between, on top
      of that row. */
  lemma HowAPlayEnds(s: State, steps: seq<Step>, key: string)
    requires CleanStart(s) && key in RunFrom(s, steps).tracked
    ensures Possible(RunFrom(s, steps), End(key))
    ensures var s' := RunFrom(s, steps);
            var t, rows := s'.tracked[key], Do(s', End(key)).rows;
            && TellsOf(t, SightingsOf(s, steps, key))
            && var row := RowOf(t);
               if row.durationS < 2 then t.rowId !in rows else t.rowId in rows && rows[t.rowId] == row
  {
    RunKeeps(s, steps);
    HistoryIsTheSightings(s, steps, key);
    HowItEnds(RunFrom(s, steps), key);
    hide RunFrom, Identified, Round, Written, SightingsOf, CleanStart, RowOf, Ended;
  }

  /** A closed row stays exactly as it is until a play continues it or its owner deletes it. */
  lemma ClosedRowStays(s: State, step: Step, id: RowId)
    requires Inv(s) && Possible(s, step) && id in s.rows && !s.rows[id].active
    requires step != Forget(id) && !(step.See? && step.v.key !in s.tracked && step.place == Continued(id))
    ensures id in Do(s, step).rows && Do(s, step).rows[id] == s.rows[id]
  {
    if step.See? && step.v.key in s.tracked {
      FollowedIsOneToOne(s);
      SightingKeepsOneToOne(s, step.v, step.now, step.tickAt);
      ActiveRowOf(s, step.v.key);
      hide SeenAgain;
    } else if step.End? {
      ActiveRowOf(s, step.key);
    }
    hide Inv, Round, LatestResumable, NoneResumable;
  }

  /** And when its owner does, it is gone and every other row is as it was. */
  lemma DeletedRowGoes(s: State, id: RowId, other: RowId)
    requires Possible(s, Forget(id))
    ensures var s' := Do(s, Forget(id));
            && id !in s'.rows && s'.tracked == s.tracked
            && (other != id && other in s.rows ==> other in s'.rows && s'.rows[other] == s.rows[other])
            && (other in s'.rows ==> other in s.rows)
  {
  }

  lemma ActiveRowOf(s: State, key: string)
    requires Inv(s) && key in s.tracked
    ensures s.tracked[key].rowId in s.rows && s.rows[s.tracked[key].rowId].active
  {
  }

  /** And when the process is started again, a play that was followed is left as it was written last: at a
      sighting less than half a minute before the last one, since when nothing had changed. It is dropped if
      less than two seconds had been written. */
  lemma ARestartLosesLittle(s: State, steps: seq<Step>, key: string) returns (p: nat)
    requires CleanStart(s) && key in RunFrom(s, steps).tracked
    ensures var s' := RunFrom(s, steps);
            var t, rows := s'.tracked[key], Do(s', Restart).rows;
            && t.rowId in s'.rows && WrittenAt(s'.rows[t.rowId], t, p)
            && if s'.rows[t.rowId].durationS < 2 then t.rowId !in rows
               else t.rowId in rows && rows[t.rowId] == s'.rows[t.rowId].(active := false)
  {
    RunKeeps(s, steps);
    var s' := RunFrom(s, steps);
    var t := s'.tracked[key];
    assert Sound(s'.rows, t);
    hide RunFrom, Inv, WrittenAt, Identified;
    p :| WrittenAt(s'.rows[t.rowId], t, p);
  }

  /** What a play first seen continues: a closed live row of the same person, item and device that ended inside
      the window, none of them later; and it gets a new row exactly when there is none, or when rows are not
      to be continued. */
  lemma WhatIsContinued(rows: map<RowId, Row>, place: Place, who: Who, now: int, mergeWindow: int)
    requires Fits(rows, place, who, now, mergeWindow)
    ensures place.Continued? ==>
              && mergeWindow > 0 && place.id in rows
              && var row := rows[place.id];
                 && row.live && !row.active && row.endedAt + mergeWindow >= now
                 && row.who.user == who.user && row.who.item == who.item && row.who.device == who.device
                 && forall id :: id in rows && rows[id].endedAt > row.endedAt ==>
                      !rows[id].live || rows[id].active || rows[id].who != who
    ensures place.Inserted? ==>
              && place.id !in rows
              && (mergeWindow <= 0 ||
                  forall id :: id in rows && rows[id].live && !rows[id].active && rows[id].who == who ==>
                    rows[id].endedAt + mergeWindow < now)
  {
    assert forall id :: Resumable(rows, id, who, now - mergeWindow) <==>
      id in rows && rows[id].live && !rows[id].active && rows[id].who == who && rows[id].endedAt >= now - mergeWindow;
  }

  lemma DurationNeverDrops(s: State, step: Step, id: RowId)
    requires Inv(s) && Possible(s, step)
    requires id in s.rows && id in Do(s, step).rows
    ensures Do(s, step).rows[id].durationS >= s.rows[id].durationS
    ensures Do(s, step).rows[id].live == s.rows[id].live
  {
    hide Written, Identified, SeenAgain, WatchedIn, PausedIn;
    match step
    case See(v, now, tickAt, _, place) =>
      if v.key in s.tracked {
        DurationOfASighting(s, v, now, tickAt, id);
      }
    case End(key) =>
    case Restart =>
    case Forget(_) =>
  }

  lemma DurationOfASighting(s: State, v: Sighting, now: int, tickAt: real, id: RowId)
    requires v.key in s.tracked && id in s.rows && OneToOne(s.rows, s.tracked) && Sound(s.rows, s.tracked[v.key])
    ensures id in SeenAgain(s, v, now, tickAt).rows
    ensures SeenAgain(s, v, now, tickAt).rows[id].durationS >= s.rows[id].durationS
    ensures SeenAgain(s, v, now, tickAt).rows[id].live == s.rows[id].live
  {
    AgainMeans(s, v, now, tickAt);
    SightingKeepsOneToOne(s, v, now, tickAt);
    var t, t' := s.tracked[v.key], SeenAgain(s, v, now, tickAt).tracked[v.key];
    hide SeenAgain, Round, Written, Identified, Gap;
    RoundGrows(t.watched, t'.watched);
  }

  /** While a row exists its duration never goes down. */
  lemma {:induction false} DurationNeverDropsInARun(s: State, steps: seq<Step>, id: RowId)
    requires Inv(s)
    requires forall n :: 0 <= n <= |steps| ==> id in RunFrom(s, steps[..n]).rows
    ensures id in s.rows && id in RunFrom(s, steps).rows
    ensures RunFrom(s, steps).rows[id].durationS >= s.rows[id].durationS
  {
    assert steps[..0] == [] && steps[..|steps|] == steps;
    assert id in RunFrom(s, steps[..0]).rows && id in RunFrom(s, steps[..|steps|]).rows;
    if steps != [] {
      var front := steps[..|steps| - 1];
      forall n | 0 <= n <= |front| ensures id in RunFrom(s, front[..n]).rows {
        assert front[..n] == steps[..n];
      }
      DurationNeverDropsInARun(s, front, id);
      RunKeeps(s, front);
      var before := RunFrom(s, front);
      if Possible(before, steps[|steps| - 1]) {
        DurationNeverDrops(before, steps[|steps| - 1], id);
      }
    }
  }

  lemma KeptRowStays(s: State, step: Step, id: RowId)
    requires Inv(s) && Possible(s, step) && step != Forget(id)
    requires id in s.rows && s.rows[id].live && s.rows[id].durationS >= MIN_KEEP_S
    ensures id in Do(s, step).rows
  {
    hide WatchedIn, PausedIn;
    match step
    case See(v, now, tickAt, _, place) =>
    case End(key) =>
    case Restart =>
    case Forget(_) =>
  }

  /** Once a live play has ended and been kept, the collector never drops its row again, however often
      it is continued and however soon it ends: only its owner can. */
  lemma {:induction false} AContinuedPlayIsNeverDropped(s: State, steps: seq<Step>, id: RowId)
    requires Inv(s) && id in s.rows && s.rows[id].live && !s.rows[id].active
    requires Forget(id) !in steps
    ensures id in RunFrom(s, steps).rows
    ensures RunFrom(s, steps).rows[id].live
    ensures RunFrom(s, steps).rows[id].durationS >= s.rows[id].durationS >= MIN_KEEP_S
  {
    hide Do, Possible;
    if steps != [] {
      var front, last := steps[..|steps| - 1], steps[|steps| - 1];
      AContinuedPlayIsNeverDropped(s, front, id);
      RunKeeps(s, front);
      var before := RunFrom(s, front);
      if Possible(before, last) {
        assert last in steps;
        KeptRowStays(before, last, id);
        DurationNeverDrops(before, last, id);
      }
    }
  }

  // ------------------------------------------------------------------ one tick

  method LatestOf(rows: map<RowId, Row>, among: set<RowId>) returns (best: Option<RowId>)
    requires among <= rows.Keys
    ensures best.Some? <==> among != {}
    ensures best.Some? ==>
              best.value in among && forall id :: id in among ==> rows[id].endedAt <= rows[best.value].endedAt
  {
    if among == {} {
      return None;
    }
    var some :| some in among;
    best := LatestOf(rows, among - {some});
    if best.None? || rows[some].endedAt > rows[best.value].endedAt {
      best := Some(some);
    }
    assert forall id :: id in among ==> id == some || id in among - {some};
  }

  method TopId(ids: set<RowId>) returns (top: int)
    ensures forall id :: id in ids ==> id.n <= top
  {
    top := 0;
    if ids != {} {
      var some :| some in ids;
      top := TopId(ids - {some});
      if some.n > top {
        top := some.n;
      }
      assert forall id :: id in ids ==> id == some || id in ids - {some};
    }
  }

  /** The row a play first seen goes to: the one it continues, or a new one. */
  method Choose(rows: map<RowId, Row>, who: Who, now: int, mergeWindow: int) returns (place: Place)
    ensures Fits(rows, place, who, now, mergeWindow)
  {
    var since := now - mergeWindow;
    var candidates := set id | id in rows && Resumable(rows, id, who, since);
    var resumed := LatestOf(rows, candidates);
    if mergeWindow > 0 && resumed.Some? {
      return Continued(resumed.value);
    }
    assert forall id :: Resumable(rows, id, who, since) ==> id in candidates;
    var top := TopId(rows.Keys);
    return Inserted(RowId(top + 1));
  }

  /** What one tick did to a play that was followed before it and is followed after it: the capped gap
      since the last sighting, to the state it was already in. */
  ghost predicate Credited(t: Tracked, t': Tracked, tickAt: real) {
    && t'.rowId == t.rowId && t'.lastTick == tickAt
    && t'.watched == t.watched + (if t.isPaused then 0.0 else Gap(t.lastTick, tickAt))
    && t'.paused == t.paused + (if t.isPaused then Gap(t.lastTick, tickAt) else 0.0)
  }

  /** How a play that has ended is left: dropped as an accidental click, or closed with its times. */
  ghost predicate Closed(rows: map<RowId, Row>, t: Tracked) {
    if Round(t.watched) < MIN_KEEP_S then t.rowId !in rows
    else
      && t.rowId in rows && !rows[t.rowId].active
      && rows[t.rowId].durationS == Round(t.watched) && rows[t.rowId].pausedS == Round(t.paused)
      && rows[t.rowId].endedAt == t.endedAt
  }

  class Collector {
    var rows: map<RowId, Row>
    var tracked: map<string, Tracked>

    ghost function View(): State
      reads this
    {
      State(rows, tracked)
    }

    constructor ()
      ensures View() == State(map[], map[])
    {
      rows, tracked := map[], map[];
    }

    method Sight(v: Sighting, now: int, tickAt: real, mergeWindow: int) returns (ghost step: Step)
      requires Inv(View())
      modifies this
      ensures step.See? && step.v == v && step.now == now && step.tickAt == tickAt && step.mergeWindow == mergeWindow
      ensures Possible(old(View()), step) && View() == Do(old(View()), step)
    {
      if v.key in tracked {
        step := See(v, now, tickAt, mergeWindow, Inserted(RowId(0)));
        var s := SeenAgain(State(rows, tracked), v, now, tickAt);
        rows, tracked := s.rows, s.tracked;
      } else {
        var place := Choose(rows, v.who, now, mergeWindow);
        step := See(v, now, tickAt, mergeWindow, place);
        var s := FirstSeen(State(rows, tracked), v, now, tickAt, place);
        rows, tracked := s.rows, s.tracked;
      }
    }

    /** One session list. Everything listed is followed, and credited once however often it is listed;
        whatever was followed and is not listed has ended. */
    method Tick(list: seq<Sighting>, now: int, tickAt: real, mergeWindow: int) returns (ghost steps: seq<Step>)
      requires Inv(View())
      modifies this
      ensures Inv(View()) && View() == RunFrom(old(View()), steps)
      ensures tracked.Keys == Keys(list)
      ensures forall key :: key in tracked ==> tracked[key].endedAt == now && tracked[key].lastTick == tickAt
      ensures forall key :: key in old(tracked) && key in tracked ==> Credited(old(tracked)[key], tracked[key], tickAt)
      ensures forall key :: key in old(tracked) && key !in tracked ==> Closed(rows, old(tracked)[key])
    {
      hide Inv, RunFrom, Keys, Credited, Closed, Do, Possible;
      steps := SightAll(list, now, tickAt, mergeWindow);
      ghost var more := EndAll(tracked.Keys - Keys(list));
      RunsJoin(old(View()), steps, more);
      steps := steps + more;
    }

    method SightAll(list: seq<Sighting>, now: int, tickAt: real, mergeWindow: int) returns (ghost steps: seq<Step>)
      requires Inv(View())
      modifies this
      ensures Inv(View()) && View() == RunFrom(old(View()), steps)
      ensures tracked.Keys == old(tracked).Keys + Keys(list)
      ensures AllCredited(old(tracked), tracked, Keys(list), tickAt)
      ensures forall key :: key in Keys(list) ==> tracked[key].endedAt == now && tracked[key].lastTick == tickAt
    {
      hide Inv, RunFrom, Do, Possible, Credited, Keys, AllCredited;
      steps := [];
      RunOfNothing(View());
      NoKeys(list);
      NoneCredited(tracked, tickAt);
      for i := 0 to |list|
        invariant Inv(View()) && View() == RunFrom(old(View()), steps)
        invariant tracked.Keys == old(tracked).Keys + Keys(list[..i])
        invariant AllCredited(old(tracked), tracked, Keys(list[..i]), tickAt)
        invariant forall key :: key in Keys(list[..i]) ==>
                    tracked[key].endedAt == now && tracked[key].lastTick == tickAt
      {
        KeysGrow(list, i);
        ghost var before := View();
        ghost var step := Sight(list[i], now, tickAt, mergeWindow);
        StepKeeps(before, step);
        RunExtends(old(View()), steps, step);
        steps := steps + [step];
        SightTouchesOnePlay(before, step);
        OneMoreCredited(old(tracked), before.tracked, tracked, Keys(list[..i]), list[i].key, tickAt);
      }
      assert list[..|list|] == list;
    }

    method EndAll(gone: set<string>) returns (ghost steps: seq<Step>)
      requires Inv(View()) && gone <= tracked.Keys
      modifies this
      ensures Inv(View()) && View() == RunFrom(old(View()), steps)
      ensures tracked == old(tracked) - gone
      ensures forall key :: key in gone ==> Closed(rows, old(tracked)[key])
    {
      hide Inv, RunFrom, Do, Possible, Closed, Ended;
      steps := [];
      RunOfNothing(View());
      var left := gone;
      while left != {}
        invariant left <= gone
        invariant Inv(View()) && View() == RunFrom(old(View()), steps)
        invariant tracked == old(tracked) - (gone - left)
        invariant forall key :: key in gone && key !in left ==> Closed(rows, old(tracked)[key])
        decreases |left|
      {
        var key :| key in left;
        ghost var before := View();
        CanEnd(before, key);
        StepKeeps(before, End(key));
        RunExtends(old(View()), steps, End(key));
        steps := steps + [End(key)];
        forall k | k in gone && k !in left ensures Closed(Ended(before, key).rows, old(tracked)[k]) {
          ClosedStays(before, key, old(tracked)[k]);
        }
        EndingClosesIt(before, key);
        var s := Ended(State(rows, tracked), key);
        rows, tracked, left := s.rows, s.tracked, left - {key};
      }
    }
  }

  function Keys(list: seq<Sighting>): set<string> {
    set v | v in list :: v.key
  }

  lemma {:induction false} RunsJoin(s: State, a: seq<Step>, b: seq<Step>)
    ensures RunFrom(RunFrom(s, a), b) == RunFrom(s, a + b)
  {
    hide Do, Possible;
    if b == [] {
      assert a + b == a;
    } else {
      RunsJoin(s, a, b[..|b| - 1]);
      assert (a + b)[..|a + b| - 1] == a + b[..|b| - 1];
    }
  }

  lemma AgainTouchesOnePlay(s: State, v: Sighting, now: int, tickAt: real)
    requires v.key in s.tracked && s.tracked[v.key].rowId in s.rows && OneToOne(s.rows, s.tracked)
    ensures var s' := SeenAgain(s, v, now, tickAt);
            && s'.tracked.Keys == s.tracked.Keys
            && (forall key :: key in s.tracked && key != v.key ==> s'.tracked[key] == s.tracked[key])
            && Credited(s.tracked[v.key], s'.tracked[v.key], tickAt)
            && s'.tracked[v.key].endedAt == now && s'.tracked[v.key].lastTick == tickAt
  {
    hide SeenAgain, OneToOne, Again, Credited;
    AgainMeans(s, v, now, tickAt);
    SightingKeepsOneToOne(s, v, now, tickAt);
    var t, s' := s.tracked[v.key], SeenAgain(s, v, now, tickAt);
    AgainIsCredited(t, s.rows[t.rowId], s'.tracked[v.key], s'.rows[t.rowId], Seen(tickAt, now, v.isPaused, v.changed));
  }

  lemma AgainIsCredited(t: Tracked, row: Row, t': Tracked, row': Row, x: Seen)
    requires Again(t, row, t', row', x)
    ensures Credited(t, t', x.at) && t'.endedAt == x.now && t'.lastTick == x.at
  {
    hide Round, Gap, Unwritten;
  }

  lemma SightTouchesOnePlay(s: State, step: Step)
    requires Inv(s) && Possible(s, step) && step.See?
    ensures var s' := Do(s, step);
            && s'.tracked.Keys == s.tracked.Keys + {step.v.key}
            && (forall key :: key in s.tracked && key != step.v.key ==> s'.tracked[key] == s.tracked[key])
            && (step.v.key in s.tracked ==> Credited(s.tracked[step.v.key], s'.tracked[step.v.key], step.tickAt))
            && s'.tracked[step.v.key].endedAt == step.now && s'.tracked[step.v.key].lastTick == step.tickAt
  {
    hide Inv, Fits, SeenAgain, Credited;
    if step.v.key in s.tracked {
      FollowedIsOneToOne(s);
      AgainTouchesOnePlay(s, step.v, step.now, step.tickAt);
    }
  }

  lemma FollowedIsOneToOne(s: State)
    requires Inv(s)
    ensures OneToOne(s.rows, s.tracked)
  {
  }

  /** Listed twice in one tick is credited once: the second gap is empty. */
  lemma CreditedOnce(t: Tracked, t': Tracked, t'': Tracked, tickAt: real)
    requires Credited(t, t', tickAt) && Credited(t', t'', tickAt)
    ensures Credited(t, t'', tickAt)
  {
  }

  /** Every play there was that is listed is credited, and the others are as they were. */
  ghost predicate AllCredited(was: map<string, Tracked>, tracked: map<string, Tracked>, listed: set<string>,
      tickAt: real)
  {
    forall key :: key in was ==>
      && key in tracked
      && if key in listed then Credited(was[key], tracked[key], tickAt) else tracked[key] == was[key]
  }

  lemma NoneCredited(tracked: map<string, Tracked>, tickAt: real)
    ensures AllCredited(tracked, tracked, {}, tickAt)
  {
  }

  lemma OneMoreCredited(was: map<string, Tracked>, tracked: map<string, Tracked>, tracked': map<string, Tracked>,
      listed: set<string>, key: string, tickAt: real)
    requires AllCredited(was, tracked, listed, tickAt)
    requires tracked'.Keys == tracked.Keys + {key}
    requires forall k :: k in tracked && k != key ==> tracked'[k] == tracked[k]
    requires key in tracked ==> Credited(tracked[key], tracked'[key], tickAt)
    ensures AllCredited(was, tracked', listed + {key}, tickAt)
  {
    hide Credited;
    if key in was && key in listed {
      CreditedOnce(was[key], tracked[key], tracked'[key], tickAt);
    }
  }

  lemma RunOfNothing(s: State)
    ensures RunFrom(s, []) == s
  {
  }

  lemma NoKeys(list: seq<Sighting>)
    ensures Keys(list[..0]) == {}
  {
  }

  lemma KeysGrow(list: seq<Sighting>, i: nat)
    requires i < |list|
    ensures Keys(list[..i + 1]) == Keys(list[..i]) + {list[i].key}
  {
    assert list[..i + 1] == list[..i] + [list[i]];
  }

  lemma CanEnd(s: State, key: string)
    requires Inv(s) && key in s.tracked
    ensures s.tracked[key].rowId in s.rows
    ensures Possible(s, End(key)) && Do(s, End(key)) == Ended(s, key)
  {
  }

  lemma EndingClosesIt(s: State, key: string)
    requires Inv(s) && key in s.tracked
    ensures s.tracked[key].rowId in s.rows
    ensures Ended(s, key).tracked == s.tracked - {key}
    ensures Closed(Ended(s, key).rows, s.tracked[key])
  {
  }

  /** A play already closed is not touched by another one ending: its row is not active. */
  lemma ClosedStays(s: State, key: string, gone: Tracked)
    requires Inv(s) && key in s.tracked && Closed(s.rows, gone)
    ensures s.tracked[key].rowId in s.rows
    ensures Closed(Ended(s, key).rows, gone)
  {
  }
}
