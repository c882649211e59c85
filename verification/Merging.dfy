/** Merging a backup into a database, and writing one (`restore` and `export` in src/backup.rs).

    A table with a key of its own is a map; plays and timeline rows are sequences in id order. A row's
    other columns are an opaque number. */
module Merging {
  import opened Options
  import opened Plays

  const FORMAT: int := 1

  datatype TimelineRow = TimelineRow(play: int, rest: int)

  /** The tables whose rows are only ever added to: seen-marks, the server log, devices and alerts. */
  datatype Table = ManualSeen | ServerEvents | Devices | Alerts

  datatype RowKey = RowKey(table: Table, key: string)

  datatype Tables = Tables(plays: seq<Play>, events: seq<TimelineRow>, rows: map<RowKey, int>, perms: map<string, int>)

  const EMPTY: Tables := Tables([], [], map[], map[])

  /** One row of a backup. `fits` says whether the table's constraints take it; a play without user, item
      or start has no key. */
  datatype Row =
    | PlayRow(id: Option<int>, source: Option<string>, key: Option<PlayKey>, name: string, rest: int, fits: bool)
    | EventRow(play: Option<int>, rest: int, fits: bool)
    | KeyedRow(at: RowKey, rest: int, fits: bool)
    | PermsRow(user: string, perms: int, fits: bool)
    | OtherRow

  /** One line of the file. The first line that is not blank has to be the header. */
  datatype Line = Blank | Unreadable | NotJson | Json(format: Option<int>, row: Row)

  datatype Error = Damaged | NotJsonAt(line: nat) | NotABackup | MadeByNewer | Refused | NothingThere

  datatype Result<T> = Ok(value: T) | Err(error: Error)

  // ------------------------------------------------------------------ one row

  predicate HasSource(plays: seq<Play>, source: string) {
    exists i :: 0 <= i < |plays| && plays[i].source == Some(source)
  }

  predicate HasKey(plays: seq<Play>, key: PlayKey) {
    exists i :: 0 <= i < |plays| && plays[i].key == key
  }

  /** Is this play already there: by its import id, or else by user, item and start? */
  predicate Present(plays: seq<Play>, source: Option<string>, key: Option<PlayKey>) {
    match source
    case Some(s) => HasSource(plays, s)
    case None => key.Some? && HasKey(plays, key.value)
  }

  /** A play with an import id is there when one with that id is, and one without when one by the same user, of the
      same item and with the same start is. */
  ghost predicate IsSameAs(p: Play, source: Option<string>, key: Option<PlayKey>) {
    if source != None then p.source == source
    else key != None && p.key.user == key.value.user && p.key.item == key.value.item && p.key.start == key.value.start
  }

  lemma PresentExactly(plays: seq<Play>, source: Option<string>, key: Option<PlayKey>)
    ensures Present(plays, source, key) <==> exists i :: 0 <= i < |plays| && IsSameAs(plays[i], source, key)
  {
    forall i | 0 <= i < |plays|
      ensures IsSameAs(plays[i], source, key) <==>
                match source
                case Some(id) => plays[i].source == Some(id)
                case None => key.Some? && plays[i].key == key.value
    {
    }
  }

  function NewId(plays: seq<Play>): int {
    if plays == [] then 1 else plays[|plays| - 1].id + 1
  }

  /** A restore under way. `ids` maps the old ids of the plays that came in to their new ones. */
  datatype Merge = Merge(tables: Tables, ids: map<int, int>, imported: nat, skipped: nat, events: nat, others: nat)

  function Begin(tables: Tables): Merge {
    Merge(tables, map[], 0, 0, 0, 0)
  }

  /** `None` when the database refuses the row. */
  function MergeRow(m: Merge, row: Row, withSettings: bool): Option<Merge> {
    var t := m.tables;
    match row
    case PlayRow(id, source, key, name, rest, fits) =>
      if Present(t.plays, source, key) then Some(m.(skipped := m.skipped + 1))
      else if key.None? || !fits then None
      else
        var newId := NewId(t.plays);
        Some(m.(tables := t.(plays := t.plays + [Play(newId, source, key.value, name, false, rest)]),
                ids := if id.Some? then m.ids[id.value := newId] else m.ids,
                imported := m.imported + 1))
    case EventRow(play, rest, fits) =>
      if play.None? || play.value !in m.ids then Some(m)
      else if !fits then None
      else Some(m.(tables := t.(events := t.events + [TimelineRow(m.ids[play.value], rest)]), events := m.events + 1))
    case KeyedRow(key, rest, fits) =>
      if fits && key !in t.rows then Some(m.(tables := t.(rows := t.rows[key := rest]), others := m.others + 1))
      else Some(m)
    case PermsRow(user, perms, fits) =>
      if !withSettings then Some(m)
      else if !fits then None
      else Some(m.(tables := t.(perms := t.perms[user := perms]), others := m.others + 1))
    case OtherRow => Some(m)
  }

  /** What the database refuses: a play that is not there and has no user, item or start or does not fit; a timeline
      row of a play that came in that does not fit; and permissions that do not, when they are asked for. */
  lemma RefusedExactly(m: Merge, row: Row, withSettings: bool)
    ensures MergeRow(m, row, withSettings).None? <==>
              || (row.PlayRow? && (row.key == None || !row.fits)
                  && forall i :: 0 <= i < |m.tables.plays| ==> !IsSameAs(m.tables.plays[i], row.source, row.key))
              || (row.EventRow? && row.play != None && row.play.value in m.ids && !row.fits)
              || (row.PermsRow? && withSettings && !row.fits)
  {
    if row.PlayRow? {
      PresentExactly(m.tables.plays, row.source, row.key);
    }
    hide Present, IsSameAs, NewId;
  }

  function MergeRows(tables: Tables, rows: seq<Row>, withSettings: bool): Option<Merge> {
    if rows == [] then Some(Begin(tables))
    else
      match MergeRows(tables, rows[..|rows| - 1], withSettings)
      case None => None
      case Some(m) => MergeRow(m, rows[|rows| - 1], withSettings)
  }

  // ------------------------------------------------------------------ the file

  predicate HasHeader(lines: seq<Line>) {
    exists i :: 0 <= i < |lines| && lines[i].Json?
  }

  /** The rows of a file: those of the lines after its header. */
  function RowsOf(lines: seq<Line>): seq<Row> {
    if lines == [] then []
    else
      var front, last := lines[..|lines| - 1], lines[|lines| - 1];
      RowsOf(front) + if last.Json? && HasHeader(front) then [last.row] else []
  }

  /** What is wrong with the file itself, if anything: the first line that cannot be read, or a first
      line that is no header or one of a newer format. */
  function Fault(lines: seq<Line>): Option<Error> {
    if lines == [] then None
    else
      var front, last := lines[..|lines| - 1], lines[|lines| - 1];
      if Fault(front).Some? then Fault(front)
      else
        match last
        case Blank => None
        case Unreadable => Some(Damaged)
        case NotJson => Some(NotJsonAt(|lines|))
        case Json(format, _) =>
          if HasHeader(front) then None
          else if format.None? then Some(NotABackup)
          else if format.value > FORMAT then Some(MadeByNewer)
          else None
  }

  /** What is wrong with one line: what cannot be read, and a first line of JSON that is no header this version
      knows. */
  ghost function FaultOf(lines: seq<Line>, i: nat): Option<Error>
    requires i < |lines|
  {
    match lines[i]
    case Blank => None
    case Unreadable => Some(Damaged)
    case NotJson => Some(NotJsonAt(i + 1))
    case Json(format, _) =>
      if exists j :: 0 <= j < i && lines[j].Json? then None
      else
        match format
        case None => Some(NotABackup)
        case Some(version) => if version > 1 then Some(MadeByNewer) else None
  }

  ghost predicate IsFirstFault(lines: seq<Line>, i: nat) {
    i < |lines| && FaultOf(lines, i).Some? && forall j: nat :: j < i ==> FaultOf(lines, j).None?
  }

  /** The first line with something wrong decides. */
  lemma {:induction false} FirstFaultDecides(lines: seq<Line>)
    ensures forall i: nat :: IsFirstFault(lines, i) ==> Fault(lines) == FaultOf(lines, i)
    ensures (forall i: nat :: i < |lines| ==> FaultOf(lines, i).None?) ==> Fault(lines).None?
  {
    if lines != [] {
      var n := |lines| - 1;
      FirstFaultDecides(lines[..n]);
      forall i: nat | i < n ensures FaultOf(lines[..n], i) == FaultOf(lines, i) {
        assert forall j :: 0 <= j < i ==> lines[..n][j] == lines[j];
      }
      forall i: nat | IsFirstFault(lines, i) && i < n ensures Fault(lines) == FaultOf(lines, i) {
        assert IsFirstFault(lines[..n], i);
      }
      assert HasHeader(lines[..n]) <==> exists j :: 0 <= j < n && lines[j].Json? by {
        assert forall j :: 0 <= j < n ==> lines[..n][j] == lines[j];
      }
      hide FaultOf, HasHeader;
      NextFault(lines);
    }
  }

  /** The last line counts when nothing before it is wrong. */
  lemma NextFault(lines: seq<Line>)
    requires lines != []
    ensures var before := Fault(lines[..|lines| - 1]);
            Fault(lines) == if before.Some? then before else FaultOf(lines, |lines| - 1)
  {
    var n := |lines| - 1;
    assert HasHeader(lines[..n]) <==> exists j :: 0 <= j < n && lines[j].Json? by {
      assert forall j :: 0 <= j < n ==> lines[..n][j] == lines[j];
    }
    hide HasHeader;
  }

  /** The rows of a file are those of its lines of JSON but for the first. */
  lemma RowsAreOfTheLines(lines: seq<Line>, i: nat)
    requires i < |lines|
    ensures RowsOf(lines[..i + 1]) == RowsOf(lines[..i])
         + if lines[i].Json? && exists j :: 0 <= j < i && lines[j].Json? then [lines[i].row] else []
  {
    var front := lines[..i];
    assert lines[..i + 1][..i] == front;
    assert HasHeader(front) <==> exists j :: 0 <= j < i && lines[j].Json? by {
      assert forall j :: 0 <= j < i ==> front[j] == lines[j];
    }
  }

  // ------------------------------------------------------------------ the tables always make sense

  /** A play with this id, at or after place `from`. */
  ghost predicate HasId(plays: seq<Play>, from: nat, id: int) {
    exists i :: from <= i < |plays| && plays[i].id == id
  }

  ghost predicate Valid(t: Tables) {
    && (forall i, j :: 0 <= i < j < |t.plays| ==> t.plays[i].id < t.plays[j].id)
    && (forall e :: 0 <= e < |t.events| ==> HasId(t.plays, 0, t.events[e].play))
    && (forall i, j :: 0 <= i < j < |t.plays| && t.plays[i].source.Some? ==> t.plays[i].source != t.plays[j].source)
  }

  /** The ids handed out are those of plays put in after the first `was`. */
  ghost predicate IdsHold(m: Merge, was: nat) {
    forall o :: o in m.ids ==> HasId(m.tables.plays, was, m.ids[o])
  }

  lemma HasIdStays(plays: seq<Play>, more: seq<Play>, from: nat, id: int)
    requires HasId(plays, from, id)
    ensures HasId(plays + more, from, id) && HasId(plays, 0, id)
  {
    var i :| from <= i < |plays| && plays[i].id == id;
    assert (plays + more)[i].id == id;
  }

  lemma PlayKeepsValid(t: Tables, p: Play)
    requires Valid(t) && p.id == NewId(t.plays) && (p.source.Some? ==> !HasSource(t.plays, p.source.value))
    ensures Valid(t.(plays := t.plays + [p]))
  {
    forall e | 0 <= e < |t.events| ensures HasId(t.plays + [p], 0, t.events[e].play) {
      HasIdStays(t.plays, [p], 0, t.events[e].play);
    }
  }

  lemma RowKeepsValid(m: Merge, row: Row, withSettings: bool, was: nat)
    requires Valid(m.tables) && IdsHold(m, was) && was <= |m.tables.plays| && MergeRow(m, row, withSettings).Some?
    ensures var m' := MergeRow(m, row, withSettings).value;
            Valid(m'.tables) && IdsHold(m', was) && m.tables.plays <= m'.tables.plays
  {
    var t, m' := m.tables, MergeRow(m, row, withSettings).value;
    if t.plays != m'.tables.plays {
      var p := m'.tables.plays[|t.plays|];
      PlayKeepsValid(t, p);
      hide Valid;
      forall o | o in m'.ids ensures HasId(m'.tables.plays, was, m'.ids[o]) {
        if m'.ids[o] == p.id {
          assert m'.tables.plays[|t.plays|].id == p.id;
        } else {
          HasIdStays(t.plays, [p], was, m.ids[o]);
        }
      }
    } else if row.EventRow? && m' != m {
      var named := row.play.value;
      assert named in m.ids;
      var id := m.ids[named];
      assert HasId(m.tables.plays, was, id);
      HasIdStays(t.plays, [], was, id);
    }
  }

  lemma {:induction false} MergeKeepsValid(tables: Tables, rows: seq<Row>, withSettings: bool)
    requires Valid(tables) && MergeRows(tables, rows, withSettings).Some?
    ensures var m := MergeRows(tables, rows, withSettings).value;
            Valid(m.tables) && IdsHold(m, |tables.plays|) && tables.plays <= m.tables.plays
  {
    hide Valid, HasId;
    if rows != [] {
      MergeKeepsValid(tables, rows[..|rows| - 1], withSettings);
      var m := MergeRows(tables, rows[..|rows| - 1], withSettings).value;
      RowKeepsValid(m, rows[|rows| - 1], withSettings, |tables.plays|);
    }
  }

  // ------------------------------------------------------------------ timelines follow their plays

  /** A play's timeline, in order. */
  ghost function TimelineOf(events: seq<TimelineRow>, play: int): seq<int> {
    if events == [] then []
    else
      var last := events[|events| - 1];
      TimelineOf(events[..|events| - 1], play) + if last.play == play then [last.rest] else []
  }

  /** The timeline rows of a file that name a play by its old id, in order. */
  ghost function NamedBy(rows: seq<Row>, o: int): seq<int> {
    if rows == [] then []
    else
      var last := rows[|rows| - 1];
      NamedBy(rows[..|rows| - 1], o) + if last.EventRow? && last.play == Some(o) then [last.rest] else []
  }

  /** The order a backup is written in: no play after a timeline row, and no old id twice. */
  ghost predicate InExportOrder(rows: seq<Row>) {
    && (forall i, j :: 0 <= i < j < |rows| && rows[j].PlayRow? ==> !rows[i].EventRow?)
    && (forall i, j :: 0 <= i < j < |rows| && rows[i].PlayRow? && rows[j].PlayRow? && rows[i].id.Some? ==>
         rows[i].id != rows[j].id)
  }

  lemma {:induction false} NobodyNamed(rows: seq<Row>, o: int)
    requires forall i :: 0 <= i < |rows| ==> !rows[i].EventRow?
    ensures NamedBy(rows, o) == []
  {
    if rows != [] {
      NobodyNamed(rows[..|rows| - 1], o);
    }
  }

  lemma {:induction false} NoTimelineYet(events: seq<TimelineRow>, play: int)
    requires forall e :: 0 <= e < |events| ==> events[e].play != play
    ensures TimelineOf(events, play) == []
  {
    if events != [] {
      NoTimelineYet(events[..|events| - 1], play);
    }
  }

  lemma NewIdIsUnused(t: Tables)
    requires Valid(t)
    ensures !HasId(t.plays, 0, NewId(t.plays)) && TimelineOf(t.events, NewId(t.plays)) == []
  {
    assert !HasId(t.plays, 0, NewId(t.plays));
    forall e | 0 <= e < |t.events| ensures t.events[e].play != NewId(t.plays) {
      assert HasId(t.plays, 0, t.events[e].play);
    }
    NoTimelineYet(t.events, NewId(t.plays));
  }

  ghost predicate IsNew(m: Merge, play: int) {
    exists o :: o in m.ids && m.ids[o] == play
  }

  /** Each play that came in has the timeline that named it, all other plays have the one they had, and
      no two plays share one. */
  ghost predicate TimelinesHold(was: Tables, m: Merge, rows: seq<Row>) {
    && (forall o :: o in m.ids ==> TimelineOf(m.tables.events, m.ids[o]) == NamedBy(rows, o))
    && (forall play :: !IsNew(m, play) ==> TimelineOf(m.tables.events, play) == TimelineOf(was.events, play))
    && (forall o, other :: o in m.ids && other in m.ids && o != other ==> m.ids[o] != m.ids[other])
  }

  /** Only the olds of play rows have new ids. */
  ghost predicate IdsAreOfRows(m: Merge, rows: seq<Row>) {
    forall o :: o in m.ids ==> exists k :: 0 <= k < |rows| && rows[k].PlayRow? && rows[k].id == Some(o)
  }

  lemma PlayIdsAreOfRows(m: Merge, rows: seq<Row>, row: Row, withSettings: bool)
    requires IdsAreOfRows(m, rows) && row.PlayRow? && MergeRow(m, row, withSettings).Some?
    ensures IdsAreOfRows(MergeRow(m, row, withSettings).value, rows + [row])
  {
    hide Present, NewId;
    var rows', m' := rows + [row], MergeRow(m, row, withSettings).value;
    assert rows'[|rows|] == row;
    forall o | o in m'.ids ensures exists k :: 0 <= k < |rows'| && rows'[k].PlayRow? && rows'[k].id == Some(o) {
      if o in m.ids {
        var k :| 0 <= k < |rows| && rows[k].PlayRow? && rows[k].id == Some(o);
        assert rows'[k] == rows[k];
      }
    }
  }

  /** What a row of a play can do to the ids: nothing, or give its old id the next free one. */
  lemma PlayRowTakesOneId(m: Merge, rows: seq<Row>, row: Row, withSettings: bool)
    requires row.PlayRow? && InExportOrder(rows + [row]) && IdsAreOfRows(m, rows)
    requires MergeRow(m, row, withSettings).Some?
    ensures var m' := MergeRow(m, row, withSettings).value;
            && m'.tables.events == m.tables.events
            && (m'.ids != m.ids ==> row.id.Some? && m'.ids == m.ids[row.id.value := NewId(m.tables.plays)])
    ensures row.id.Some? ==> row.id.value !in m.ids
    ensures forall o :: NamedBy(rows + [row], o) == NamedBy(rows, o) == []
  {
    hide Present, NewId, NamedBy;
    var rows' := rows + [row];
    assert rows'[|rows|] == row;
    forall i | 0 <= i < |rows| ensures rows'[i] == rows[i] && !rows[i].EventRow? {
    }
    forall o | o in m.ids ensures row.id != Some(o) {
      var k :| 0 <= k < |rows| && rows[k].PlayRow? && rows[k].id == Some(o);
      assert rows'[k] == rows[k];
    }
    forall o ensures NamedBy(rows', o) == NamedBy(rows, o) == [] {
      NobodyNamed(rows', o);
      NobodyNamed(rows, o);
    }
  }

  lemma AnotherIdKeepsTimelines(was: Tables, m: Merge, m': Merge, rows: seq<Row>, rows': seq<Row>, o: int, newId: int)
    requires TimelinesHold(was, m, rows) && o !in m.ids && m'.ids == m.ids[o := newId]
    requires m'.tables.events == m.tables.events
    requires !IsNew(m, newId) && TimelineOf(m.tables.events, newId) == NamedBy(rows, o)
    requires forall any :: NamedBy(rows', any) == NamedBy(rows, any)
    ensures TimelinesHold(was, m', rows')
  {
    hide TimelineOf, NamedBy;
    forall play | IsNew(m, play) ensures IsNew(m', play) {
      var other :| other in m.ids && m.ids[other] == play;
      assert m'.ids[other] == play;
    }
  }

  lemma PlayKeepsTimelines(was: Tables, m: Merge, rows: seq<Row>, row: Row, withSettings: bool)
    requires Valid(m.tables) && IdsHold(m, |was.plays|) && TimelinesHold(was, m, rows) && IdsAreOfRows(m, rows)
    requires row.PlayRow? && InExportOrder(rows + [row]) && MergeRow(m, row, withSettings).Some?
    ensures TimelinesHold(was, MergeRow(m, row, withSettings).value, rows + [row])
  {
    hide MergeRow, Valid, TimelineOf, NamedBy, NewId, IdsAreOfRows, InExportOrder;
    var rows', m' := rows + [row], MergeRow(m, row, withSettings).value;
    PlayRowTakesOneId(m, rows, row, withSettings);
    if m'.ids != m.ids {
      var newId := NewId(m.tables.plays);
      NewIdIsUnused(m.tables);
      forall other | other in m.ids ensures m.ids[other] != newId {
        HasIdStays(m.tables.plays, [], |was.plays|, m.ids[other]);
      }
      AnotherIdKeepsTimelines(was, m, m', rows, rows', row.id.value, newId);
    }
  }

  lemma OneMoreEvent(events: seq<TimelineRow>, e: TimelineRow, play: int)
    ensures TimelineOf(events + [e], play) == TimelineOf(events, play) + if e.play == play then [e.rest] else []
  {
    assert (events + [e])[..|events|] == events;
  }

  lemma OneMoreNaming(rows: seq<Row>, row: Row, o: int)
    ensures NamedBy(rows + [row], o)
         == NamedBy(rows, o) + (if row.EventRow? && row.play == Some(o) then [row.rest] else [])
  {
    assert (rows + [row])[..|rows|] == rows;
  }

  lemma IdsAreOfMoreRows(m: Merge, rows: seq<Row>, row: Row)
    requires IdsAreOfRows(m, rows)
    ensures IdsAreOfRows(m, rows + [row])
  {
    forall o | o in m.ids
      ensures exists k :: 0 <= k < |rows + [row]| && (rows + [row])[k].PlayRow? && (rows + [row])[k].id == Some(o)
    {
      var k :| 0 <= k < |rows| && rows[k].PlayRow? && rows[k].id == Some(o);
      assert (rows + [row])[k] == rows[k];
    }
  }

  /** What a row that is no play does to the ids and the timelines. */
  lemma NoPlayNoId(m: Merge, row: Row, withSettings: bool)
    requires !row.PlayRow? && MergeRow(m, row, withSettings).Some?
    ensures var m' := MergeRow(m, row, withSettings).value;
            && m'.ids == m.ids
            && m'.tables.events == if row.EventRow? && row.play.Some? && row.play.value in m.ids
                                   then m.tables.events + [TimelineRow(m.ids[row.play.value], row.rest)]
                                   else m.tables.events
  {
  }

  lemma EventKeepsTimelines(was: Tables, m: Merge, rows: seq<Row>, row: Row, withSettings: bool)
    requires TimelinesHold(was, m, rows) && IdsAreOfRows(m, rows)
    requires !row.PlayRow? && MergeRow(m, row, withSettings).Some?
    ensures TimelinesHold(was, MergeRow(m, row, withSettings).value, rows + [row])
    ensures IdsAreOfRows(MergeRow(m, row, withSettings).value, rows + [row])
  {
    hide MergeRow, TimelineOf, NamedBy, IdsAreOfRows;
    var m' := MergeRow(m, row, withSettings).value;
    NoPlayNoId(m, row, withSettings);
    IdsAreOfMoreRows(m, rows, row);
    assert IdsAreOfRows(m', rows + [row]) by {
      SameIds(m, m', rows + [row]);
    }
    assert forall play :: IsNew(m', play) <==> IsNew(m, play);
    forall o | o in m.ids ensures TimelineOf(m'.tables.events, m.ids[o]) == NamedBy(rows + [row], o) {
      OneMoreNaming(rows, row, o);
      if m'.tables.events != m.tables.events {
        assert (m.ids[row.play.value] == m.ids[o]) == (row.play.value == o);
        OneMoreEvent(m.tables.events, TimelineRow(m.ids[row.play.value], row.rest), m.ids[o]);
      }
    }
    forall play | !IsNew(m, play) ensures TimelineOf(m'.tables.events, play) == TimelineOf(was.events, play) {
      if m'.tables.events != m.tables.events {
        var named := row.play.value;
        assert named in m.ids;
        assert IsNew(m, m.ids[named]);
        OneMoreEvent(m.tables.events, TimelineRow(m.ids[row.play.value], row.rest), play);
      }
    }
  }

  lemma SameIds(m: Merge, m': Merge, rows: seq<Row>)
    requires IdsAreOfRows(m, rows) && m'.ids == m.ids
    ensures IdsAreOfRows(m', rows)
  {
  }

  /** Restoring gives each newly inserted play exactly the timeline rows that named its old id, in order
      and under its new id; plays that were already there are untouched and gain no events. */
  lemma {:induction false} TimelinesFollowTheirPlays(tables: Tables, rows: seq<Row>, withSettings: bool)
    requires Valid(tables) && InExportOrder(rows) && MergeRows(tables, rows, withSettings).Some?
    ensures var m := MergeRows(tables, rows, withSettings).value;
            && TimelinesHold(tables, m, rows) && IdsAreOfRows(m, rows)
            && tables.plays <= m.tables.plays && IdsHold(m, |tables.plays|)
  {
    hide Valid, IdsHold;
    MergeKeepsValid(tables, rows, withSettings);
    if rows != [] {
      var front, last := rows[..|rows| - 1], rows[|rows| - 1];
      assert rows == front + [last];
      assert InExportOrder(front);
      TimelinesFollowTheirPlays(tables, front, withSettings);
      MergeKeepsValid(tables, front, withSettings);
      var m := MergeRows(tables, front, withSettings).value;
      hide TimelinesHold, IdsAreOfRows, InExportOrder, MergeRow;
      if last.PlayRow? {
        PlayKeepsTimelines(tables, m, front, last, withSettings);
        PlayIdsAreOfRows(m, front, last, withSettings);
      } else {
        EventKeepsTimelines(tables, m, front, last, withSettings);
      }
    } else {
      hide MergeRow;
    }
  }

  /** Row `k` is a play that was not there when the restore came to it. */
  ghost predicate BroughtIn(tables: Tables, rows: seq<Row>, withSettings: bool, k: nat) {
    && k < |rows| && rows[k].PlayRow?
    && MergeRows(tables, rows[..k], withSettings).Some?
    && !Present(MergeRows(tables, rows[..k], withSettings).value.tables.plays, rows[k].source, rows[k].key)
  }

  lemma PrefixGoesThrough(tables: Tables, rows: seq<Row>, withSettings: bool, k: nat)
    requires k < |rows| && MergeRows(tables, rows, withSettings).Some?
    ensures MergeRows(tables, rows[..|rows| - 1], withSettings).Some?
    ensures rows[..|rows| - 1][..k] == rows[..k]
  {
  }

  lemma MergeRowOnlyAdds(m: Merge, row: Row, withSettings: bool)
    requires MergeRow(m, row, withSettings).Some?
    ensures var m' := MergeRow(m, row, withSettings).value;
            && m.tables.plays <= m'.tables.plays
            && (forall o :: o in m.ids && (row.PlayRow? ==> row.id != Some(o)) ==> o in m'.ids && m'.ids[o] == m.ids[o])
  {
  }

  /** A play that came in is there under its new id, with its own columns and not playing, and its
      timeline is the one that named it. */
  lemma {:induction false} APlayThatCameIn(tables: Tables, rows: seq<Row>, withSettings: bool, k: nat)
    requires InExportOrder(rows) && MergeRows(tables, rows, withSettings).Some?
    requires BroughtIn(tables, rows, withSettings, k)
    ensures var m := MergeRows(tables, rows, withSettings).value;
            var at := MergeRows(tables, rows[..k], withSettings).value.tables.plays;
            && |at| < |m.tables.plays| && rows[k].key.Some?
            && m.tables.plays[|at|]
               == Play(NewId(at), rows[k].source, rows[k].key.value, rows[k].name, false, rows[k].rest)
            && (rows[k].id.Some? ==> rows[k].id.value in m.ids && m.ids[rows[k].id.value] == NewId(at))
  {
    var front := rows[..|rows| - 1];
    PrefixGoesThrough(tables, rows, withSettings, k);
    if k < |rows| - 1 {
      assert InExportOrder(front);
      assert BroughtIn(tables, front, withSettings, k);
      APlayThatCameIn(tables, front, withSettings, k);
      MergeRowOnlyAdds(MergeRows(tables, front, withSettings).value, rows[|rows| - 1], withSettings);
      hide MergeRow, Present, NewId;
    }
  }

  /** And nothing else has a new id. */
  lemma {:induction false} NothingElseCameIn(tables: Tables, rows: seq<Row>, withSettings: bool, o: int)
    requires MergeRows(tables, rows, withSettings).Some? && o in MergeRows(tables, rows, withSettings).value.ids
    ensures exists k: nat :: BroughtIn(tables, rows, withSettings, k) && rows[k].id == Some(o)
  {
    if rows != [] {
      var front, last := rows[..|rows| - 1], |rows| - 1;
      PrefixGoesThrough(tables, rows, withSettings, last);
      if o in MergeRows(tables, front, withSettings).value.ids {
        NothingElseCameIn(tables, front, withSettings, o);
        var k: nat :| BroughtIn(tables, front, withSettings, k) && front[k].id == Some(o);
        PrefixGoesThrough(tables, rows, withSettings, k);
        assert BroughtIn(tables, rows, withSettings, k);
      } else {
        assert BroughtIn(tables, rows, withSettings, last);
      }
    }
  }

  /** What was there stays as it was, permissions aside when they are asked for, and the counts are what
      went in. */
  ghost predicate OnlyAdds(was: Tables, m: Merge, rows: seq<Row>, withSettings: bool) {
    && was.plays <= m.tables.plays && was.events <= m.tables.events
    && (forall key :: key in was.rows ==> key in m.tables.rows && m.tables.rows[key] == was.rows[key])
    && (!withSettings ==> m.tables.perms == was.perms)
    && m.imported == |m.tables.plays| - |was.plays| && m.imported + m.skipped == CountPlays(rows)
    && m.events == |m.tables.events| - |was.events|
    && m.others == |m.tables.rows| - |was.rows| + if withSettings then CountPerms(rows) else 0
  }

  /** Every permission row counts, since it replaces what was there. */
  function CountPerms(rows: seq<Row>): nat {
    if rows == [] then 0
    else CountPerms(rows[..|rows| - 1]) + if rows[|rows| - 1].PermsRow? then 1 else 0
  }

  function CountPlays(rows: seq<Row>): nat {
    if rows == [] then 0
    else CountPlays(rows[..|rows| - 1]) + if rows[|rows| - 1].PlayRow? then 1 else 0
  }

  lemma RowOnlyAdds(was: Tables, m: Merge, rows: seq<Row>, row: Row, withSettings: bool)
    requires OnlyAdds(was, m, rows, withSettings) && MergeRow(m, row, withSettings).Some?
    ensures OnlyAdds(was, MergeRow(m, row, withSettings).value, rows + [row], withSettings)
  {
    hide Present, NewId, CountPlays, CountPerms;
    OneMoreCounted(rows, row);
  }

  lemma OneMoreCounted(rows: seq<Row>, row: Row)
    ensures CountPlays(rows + [row]) == CountPlays(rows) + if row.PlayRow? then 1 else 0
    ensures CountPerms(rows + [row]) == CountPerms(rows) + if row.PermsRow? then 1 else 0
  {
    assert (rows + [row])[..|rows|] == rows;
  }

  lemma NothingAdded(tables: Tables, withSettings: bool)
    ensures OnlyAdds(tables, Begin(tables), [], withSettings)
  {
  }

  lemma {:induction false} MergingOverwritesNothing(tables: Tables, rows: seq<Row>, withSettings: bool)
    requires MergeRows(tables, rows, withSettings).Some?
    ensures OnlyAdds(tables, MergeRows(tables, rows, withSettings).value, rows, withSettings)
  {
    hide MergeRow, OnlyAdds;
    if rows == [] {
      NothingAdded(tables, withSettings);
    } else {
      var front, last := rows[..|rows| - 1], rows[|rows| - 1];
      MergingOverwritesNothing(tables, front, withSettings);
      RowOnlyAdds(tables, MergeRows(tables, front, withSettings).value, front, last, withSettings);
      assert rows == front + [last];
    }
  }

  // ------------------------------------------------------------------ merging twice

  /** What a row stands for is there already. */
  ghost predicate IsThere(t: Tables, row: Row) {
    match row
    case PlayRow(_, source, key, _, _, _) => Present(t.plays, source, key)
    case KeyedRow(at, _, fits) => fits ==> at in t.rows
    case _ => true
  }

  lemma RowIsThere(m: Merge, row: Row, withSettings: bool)
    requires MergeRow(m, row, withSettings).Some?
    ensures IsThere(MergeRow(m, row, withSettings).value.tables, row)
    ensures MergeRow(m, row, withSettings).value.tables.rows.Keys >= m.tables.rows.Keys
  {
    var m' := MergeRow(m, row, withSettings).value;
    if row.PlayRow? && m' != m && m.tables.plays != m'.tables.plays {
      var p := m'.tables.plays[|m.tables.plays|];
      assert p.source == row.source && Some(p.key) == row.key;
    }
  }

  lemma StaysThere(t: Tables, t': Tables, row: Row)
    requires IsThere(t, row) && t.plays <= t'.plays && t.rows.Keys <= t'.rows.Keys
    ensures IsThere(t', row)
  {
    forall i | 0 <= i < |t.plays| ensures t'.plays[i] == t.plays[i] {
    }
  }

  /** Once a file has been merged, all of it is there. */
  lemma {:induction false} AllOfItIsThere(tables: Tables, rows: seq<Row>, withSettings: bool)
    requires MergeRows(tables, rows, withSettings).Some?
    ensures var m := MergeRows(tables, rows, withSettings).value;
            && tables.plays <= m.tables.plays
            && forall k :: 0 <= k < |rows| ==> IsThere(m.tables, rows[k])
  {
    hide IsThere, MergeRow;
    if rows != [] {
      var front, last := rows[..|rows| - 1], rows[|rows| - 1];
      AllOfItIsThere(tables, front, withSettings);
      var m, m' := MergeRows(tables, front, withSettings).value, MergeRows(tables, rows, withSettings).value;
      MergeRowOnlyAdds(m, last, withSettings);
      RowIsThere(m, last, withSettings);
      forall k | 0 <= k < |rows| ensures IsThere(m'.tables, rows[k]) {
        if k < |front| {
          assert front[k] == rows[k];
          StaysThere(m.tables, m'.tables, rows[k]);
        }
      }
    }
  }

  /** The permissions a file leaves: for each user, what its last row for them says. */
  function PermsOf(rows: seq<Row>, withSettings: bool): map<string, int> {
    if rows == [] then map[]
    else
      var last := rows[|rows| - 1];
      if last.PermsRow? && withSettings then PermsOf(rows[..|rows| - 1], withSettings)[last.user := last.perms]
      else PermsOf(rows[..|rows| - 1], withSettings)
  }

  ghost predicate PermsFit(rows: seq<Row>, withSettings: bool) {
    forall k :: 0 <= k < |rows| && rows[k].PermsRow? && withSettings ==> rows[k].fits
  }

  lemma PermsAfterARow(m: Merge, row: Row, withSettings: bool)
    requires MergeRow(m, row, withSettings).Some?
    ensures MergeRow(m, row, withSettings).value.tables.perms
         == if row.PermsRow? && withSettings then m.tables.perms[row.user := row.perms] else m.tables.perms
    ensures row.PermsRow? && withSettings ==> row.fits
  {
    hide Present, NewId;
  }

  lemma {:induction false} PermsAreTheFiles(tables: Tables, rows: seq<Row>, withSettings: bool)
    requires MergeRows(tables, rows, withSettings).Some?
    ensures MergeRows(tables, rows, withSettings).value.tables.perms == tables.perms + PermsOf(rows, withSettings)
    ensures PermsFit(rows, withSettings)
  {
    hide MergeRow;
    if rows != [] {
      var front, last := rows[..|rows| - 1], rows[|rows| - 1];
      PermsAreTheFiles(tables, front, withSettings);
      PermsAfterARow(MergeRows(tables, front, withSettings).value, last, withSettings);
      forall k | 0 <= k < |rows| && rows[k].PermsRow? && withSettings ensures rows[k].fits {
        assert k < |front| ==> front[k] == rows[k];
      }
    }
  }

  lemma RowAddsNothing(m: Merge, row: Row, withSettings: bool)
    requires IsThere(m.tables, row) && m.ids == map[] && (row.PermsRow? && withSettings ==> row.fits)
    ensures MergeRow(m, row, withSettings).Some?
    ensures var m' := MergeRow(m, row, withSettings).value;
            && m'.tables == m.tables.(perms := m'.tables.perms)
            && m'.ids == map[] && m'.imported == m.imported && m'.events == m.events
  {
    hide Present, NewId;
  }

  /** A file all of which is there adds nothing, and sets the permissions it names. */
  lemma {:induction false} NothingToAdd(tables: Tables, rows: seq<Row>, withSettings: bool)
    requires (forall k :: 0 <= k < |rows| ==> IsThere(tables, rows[k])) && PermsFit(rows, withSettings)
    ensures MergeRows(tables, rows, withSettings).Some?
    ensures var m := MergeRows(tables, rows, withSettings).value;
            && m.tables == tables.(perms := tables.perms + PermsOf(rows, withSettings))
            && m.ids == map[] && m.imported == 0 && m.events == 0
  {
    hide MergeRow, Present;
    if rows == [] {
      assert tables.perms + map[] == tables.perms;
    } else {
      var front, last := rows[..|rows| - 1], rows[|rows| - 1];
      forall k | 0 <= k < |front| ensures front[k] == rows[k] {
      }
      NothingToAdd(tables, front, withSettings);
      assert IsThere(tables, rows[|rows| - 1]);
      RowAddsNothing(MergeRows(tables, front, withSettings).value, last, withSettings);
      PermsAreTheFiles(tables, rows, withSettings);
    }
  }

  lemma NotThereMeansMore(t: Tables, t': Tables, row: Row)
    requires !IsThere(t, row) && IsThere(t', row) && t.plays <= t'.plays
    ensures t'.plays != t.plays || t'.rows != t.rows
  {
  }

  // ------------------------------------------------------------------ there and back

  function PlayRowOf(p: Play): Row {
    PlayRow(Some(p.id), p.source, Some(p.key), p.name, p.rest, true)
  }

  function EventRowOf(e: TimelineRow): Row {
    EventRow(Some(e.play), e.rest, true)
  }

  function PlayRows(plays: seq<Play>): (rows: seq<Row>)
    ensures |rows| == |plays| && forall i :: 0 <= i < |rows| ==> rows[i] == PlayRowOf(plays[i])
  {
    seq(|plays|, i requires 0 <= i < |plays| => PlayRowOf(plays[i]))
  }

  function EventRows(events: seq<TimelineRow>): (rows: seq<Row>)
    ensures |rows| == |events| && forall i :: 0 <= i < |rows| ==> rows[i] == EventRowOf(events[i])
  {
    seq(|events|, i requires 0 <= i < |events| => EventRowOf(events[i]))
  }

  /** The rows of the other tables, each once, in any order. */
  ghost predicate IsRest(t: Tables, rows: seq<Row>) {
    && (forall i :: 0 <= i < |rows| ==> rows[i].KeyedRow? || rows[i].PermsRow?)
    && (forall i :: 0 <= i < |rows| && rows[i].KeyedRow? ==>
          rows[i].fits && rows[i].at in t.rows && t.rows[rows[i].at] == rows[i].rest)
    && (forall i :: 0 <= i < |rows| && rows[i].PermsRow? ==>
          rows[i].fits && rows[i].user in t.perms && t.perms[rows[i].user] == rows[i].perms)
    && (forall at :: at in t.rows ==> KeyedRow(at, t.rows[at], true) in rows)
    && (forall user :: user in t.perms ==> PermsRow(user, t.perms[user], true) in rows)
  }

  ghost predicate IsExport(t: Tables, rows: seq<Row>) {
    exists others :: IsRest(t, others) && rows == PlayRows(t.plays) + EventRows(t.events) + others
  }

  /** Is this play not told apart from an earlier one? */
  predicate HasTwin(plays: seq<Play>, j: nat)
    requires j < |plays|
  {
    Present(plays[..j], plays[j].source, Some(plays[j].key))
  }

  /** It is when it has no import id and an earlier one is by the same user, of the same item and with the same
      start. */
  lemma TwinExactly(t: Tables, j: nat)
    requires Valid(t) && j < |t.plays|
    ensures HasTwin(t.plays, j) <==>
              && t.plays[j].source == None
              && exists i :: 0 <= i < j && IsSameAs(t.plays[i], None, Some(t.plays[j].key))
  {
    PresentExactly(t.plays[..j], t.plays[j].source, Some(t.plays[j].key));
    hide Present;
    forall i | 0 <= i < j ensures t.plays[..j][i] == t.plays[i] {
    }
  }

  lemma SamePresence(plays: seq<Play>, others: seq<Play>, source: Option<string>, key: Option<PlayKey>)
    requires |plays| == |others|
    requires forall i :: 0 <= i < |plays| ==> plays[i].source == others[i].source && plays[i].key == others[i].key
    ensures Present(plays, source, key) <==> Present(others, source, key)
  {
  }

  /** How a play comes back: under the next id, and not playing. */
  function CameBack(p: Play, i: nat): Play {
    p.(id := i + 1, active := false)
  }

  ghost predicate PlaysCameBack(plays: seq<Play>, m: Merge) {
    && |m.tables.plays| == |plays|
    && (forall i :: 0 <= i < |plays| ==> m.tables.plays[i] == CameBack(plays[i], i))
    && (forall i :: 0 <= i < |plays| ==> plays[i].id in m.ids && m.ids[plays[i].id] == i + 1)
  }

  lemma OneMoreBack(plays: seq<Play>, m: Merge, withSettings: bool)
    requires plays != [] && PlaysCameBack(plays[..|plays| - 1], m) && m.tables == EMPTY.(plays := m.tables.plays)
    requires m.imported == |plays| - 1
    requires forall i, j :: 0 <= i < j < |plays| ==> plays[i].id < plays[j].id
    requires !HasTwin(plays, |plays| - 1)
    ensures var m' := MergeRow(m, PlayRowOf(plays[|plays| - 1]), withSettings);
            && m'.Some? && PlaysCameBack(plays, m'.value)
            && m'.value.tables == EMPTY.(plays := m'.value.tables.plays) && m'.value.imported == |plays|
  {
    var n := |plays| - 1;
    SamePresence(plays[..n], m.tables.plays, plays[n].source, Some(plays[n].key));
    assert NewId(m.tables.plays) == n + 1;
    hide Present;
    forall i | 0 <= i < n ensures plays[..n][i] == plays[i] && plays[i].id != plays[n].id {
    }
  }

  /** Every play comes back when none has a twin. */
  lemma {:induction false} PlaysComeBack(plays: seq<Play>, withSettings: bool)
    requires forall i, j :: 0 <= i < j < |plays| ==> plays[i].id < plays[j].id
    requires forall j: nat :: j < |plays| ==> !HasTwin(plays, j)
    ensures MergeRows(EMPTY, PlayRows(plays), withSettings).Some?
    ensures var m := MergeRows(EMPTY, PlayRows(plays), withSettings).value;
            PlaysCameBack(plays, m) && m.tables == EMPTY.(plays := m.tables.plays) && m.imported == |plays|
  {
    hide MergeRow;
    if plays != [] {
      var n := |plays| - 1;
      var front := plays[..n];
      forall j: nat | j < n ensures !HasTwin(front, j) {
        assert !HasTwin(plays, j) && front[..j] == plays[..j];
      }
      hide HasTwin, PlaysCameBack;
      PlaysComeBack(front, withSettings);
      assert PlayRows(plays)[..n] == PlayRows(front);
      OneMoreBack(plays, MergeRows(EMPTY, PlayRows(front), withSettings).value, withSettings);
    }
  }

  /** How far the plays of a backup have come: all of them, or fewer and some play had a twin. */
  ghost predicate CameThisFar(plays: seq<Play>, m: Merge) {
    && m.imported == |m.tables.plays| <= |plays|
    && m.tables == EMPTY.(plays := m.tables.plays)
    && (m.imported == |plays| <==> forall j: nat :: j < |plays| ==> !HasTwin(plays, j))
    && (m.imported == |plays| ==> forall i :: 0 <= i < |plays| ==>
          m.tables.plays[i].source == plays[i].source && m.tables.plays[i].key == plays[i].key)
  }

  lemma OneMoreCame(plays: seq<Play>, p: Play, m: Merge, withSettings: bool)
    requires CameThisFar(plays, m)
    ensures MergeRow(m, PlayRowOf(p), withSettings).Some?
    ensures CameThisFar(plays + [p], MergeRow(m, PlayRowOf(p), withSettings).value)
  {
    var plays' := plays + [p];
    var n := |plays|;
    if m.imported == n {
      SamePresence(plays, m.tables.plays, p.source, Some(p.key));
    }
    hide Present;
    forall j: nat | j < n ensures HasTwin(plays', j) == HasTwin(plays, j) {
      assert plays'[..j] == plays[..j];
    }
    assert plays'[..n] == plays;
    assert HasTwin(plays', n) == Present(plays, p.source, Some(p.key));
    hide HasTwin;
    if m.imported == n {
      assert (forall j: nat :: j < n + 1 ==> !HasTwin(plays', j)) <==> !HasTwin(plays', n);
    } else {
      var j: nat :| j < n && HasTwin(plays, j);
      assert HasTwin(plays', j);
    }
  }

  lemma {:induction false} AllUnlessATwin(plays: seq<Play>, withSettings: bool)
    ensures MergeRows(EMPTY, PlayRows(plays), withSettings).Some?
    ensures CameThisFar(plays, MergeRows(EMPTY, PlayRows(plays), withSettings).value)
  {
    hide CameThisFar, MergeRow;
    if plays == [] {
      NoneCame();
    } else {
      var n := |plays| - 1;
      AllUnlessATwin(plays[..n], withSettings);
      assert PlayRows(plays)[..n] == PlayRows(plays[..n]);
      OneMoreCame(plays[..n], plays[n], MergeRows(EMPTY, PlayRows(plays[..n]), withSettings).value, withSettings);
      assert plays == plays[..n] + [plays[n]];
    }
  }

  lemma NoneCame()
    ensures CameThisFar([], Begin(EMPTY))
  {
  }

  ghost predicate IsPart<K, V>(small: map<K, V>, large: map<K, V>) {
    forall k :: k in small ==> k in large && small[k] == large[k]
  }

  /** A row that is no play, and says what table `t` says. */
  ghost predicate IsOf(t: Tables, row: Row) {
    match row
    case EventRow(_, _, fits) => fits
    case KeyedRow(at, rest, fits) => fits && at in t.rows && t.rows[at] == rest
    case PermsRow(user, perms, fits) => fits && user in t.perms && t.perms[user] == perms
    case _ => false
  }

  ghost predicate RestCameBack(t: Tables, m: Merge, rows: seq<Row>, withSettings: bool) {
    && IsPart(m.tables.rows, t.rows) && IsPart(m.tables.perms, t.perms)
    && (forall i :: 0 <= i < |rows| && rows[i].KeyedRow? ==> rows[i].at in m.tables.rows)
    && (forall i :: 0 <= i < |rows| && rows[i].PermsRow? && withSettings ==> rows[i].user in m.tables.perms)
  }

  lemma OneMoreOfTheRest(t: Tables, m: Merge, rows: seq<Row>, row: Row, withSettings: bool)
    requires RestCameBack(t, m, rows, withSettings) && IsOf(t, row)
    ensures MergeRow(m, row, withSettings).Some?
    ensures var m' := MergeRow(m, row, withSettings).value;
            && m'.tables.plays == m.tables.plays && m'.ids == m.ids && m'.imported == m.imported
            && RestCameBack(t, m', rows + [row], withSettings)
  {
    forall i | 0 <= i < |rows| ensures (rows + [row])[i] == rows[i] {
    }
  }

  lemma {:induction false} RestComesBack(t: Tables, base: seq<Row>, more: seq<Row>, withSettings: bool)
    requires MergeRows(EMPTY, base, withSettings).Some?
    requires MergeRows(EMPTY, base, withSettings).value.tables.rows == map[]
    requires MergeRows(EMPTY, base, withSettings).value.tables.perms == map[]
    requires forall i :: 0 <= i < |more| ==> IsOf(t, more[i])
    ensures MergeRows(EMPTY, base + more, withSettings).Some?
    ensures var m0, m := MergeRows(EMPTY, base, withSettings).value, MergeRows(EMPTY, base + more, withSettings).value;
            && m.tables.plays == m0.tables.plays && m.ids == m0.ids && m.imported == m0.imported
            && RestCameBack(t, m, more, withSettings)
  {
    hide MergeRow, IsOf;
    if more == [] {
      hide MergeRows;
      assert base + more == base;
    } else {
      hide RestCameBack;
      var front, last := more[..|more| - 1], more[|more| - 1];
      RestComesBack(t, base, front, withSettings);
      assert (base + more)[..|base + more| - 1] == base + front;
      OneMoreOfTheRest(t, MergeRows(EMPTY, base + front, withSettings).value, front, last, withSettings);
      assert more == front + [last];
    }
  }

  lemma {:induction false} NamedAfterPlays(base: seq<Row>, events: seq<TimelineRow>, more: seq<Row>, o: int)
    requires forall i :: 0 <= i < |base| ==> !base[i].EventRow?
    requires forall i :: 0 <= i < |more| ==> !more[i].EventRow?
    ensures NamedBy(base + EventRows(events) + more, o) == TimelineOf(events, o)
  {
    var rows := base + EventRows(events) + more;
    if more != [] {
      NamedAfterPlays(base, events, more[..|more| - 1], o);
      assert rows[..|rows| - 1] == base + EventRows(events) + more[..|more| - 1];
      assert rows[|rows| - 1] == more[|more| - 1];
    } else if events != [] {
      var front := events[..|events| - 1];
      NamedAfterPlays(base, front, [], o);
      assert rows[..|rows| - 1] == base + EventRows(front) + [];
      assert rows[|rows| - 1] == EventRowOf(events[|events| - 1]);
    } else {
      assert rows == base;
      NobodyNamed(base, o);
    }
  }

  lemma ExportsAreInOrder(t: Tables, others: seq<Row>)
    requires Valid(t) && IsRest(t, others)
    ensures InExportOrder(PlayRows(t.plays) + EventRows(t.events) + others)
  {
  }

  /** A backup merged into an empty database goes through. Every play comes in exactly when no play without
      an import id shares its user, item and start with an earlier one; then each has its own columns and
      its own timeline under its new id, and the other tables come back as they were. What the linking that
      ends a restore does to the plays is in module Restore. */
  lemma ThereAndBack(t: Tables, rows: seq<Row>, withSettings: bool)
    requires Valid(t) && IsExport(t, rows)
    ensures MergeRows(EMPTY, rows, withSettings).Some?
    ensures var m := MergeRows(EMPTY, rows, withSettings).value;
            && m.tables.rows == t.rows && (withSettings ==> m.tables.perms == t.perms) && m.imported <= |t.plays|
            && (m.imported == |t.plays| <==> forall j: nat :: j < |t.plays| ==> !HasTwin(t.plays, j))
            && (m.imported == |t.plays| ==>
                  && PlaysCameBack(t.plays, m)
                  && forall i :: 0 <= i < |t.plays| ==>
                       TimelineOf(m.tables.events, i + 1) == TimelineOf(t.events, t.plays[i].id))
  {
    var others :| IsRest(t, others) && rows == PlayRows(t.plays) + EventRows(t.events) + others;
    AllUnlessATwin(t.plays, withSettings);
    RestGoesThrough(t, others, withSettings);
    hide IsRest, MergeRows, HasTwin;
    if MergeRows(EMPTY, rows, withSettings).value.imported == |t.plays| {
      EachHasItsTimeline(t, others, withSettings);
    }
  }

  lemma RestGoesThrough(t: Tables, others: seq<Row>, withSettings: bool)
    requires IsRest(t, others)
    ensures var base, rows := PlayRows(t.plays), PlayRows(t.plays) + EventRows(t.events) + others;
            && MergeRows(EMPTY, base, withSettings).Some? && MergeRows(EMPTY, rows, withSettings).Some?
            && var m0, m := MergeRows(EMPTY, base, withSettings).value, MergeRows(EMPTY, rows, withSettings).value;
            && m.tables.plays == m0.tables.plays && m.ids == m0.ids && m.imported == m0.imported
            && m.tables.rows == t.rows && (withSettings ==> m.tables.perms == t.perms)
  {
    var base, more := PlayRows(t.plays), EventRows(t.events) + others;
    AllUnlessATwin(t.plays, withSettings);
    RestComesBack(t, base, more, withSettings);
    hide MergeRows;
    assert base + more == base + EventRows(t.events) + others;
    RestIsAll(t, MergeRows(EMPTY, base + more, withSettings).value, others, more, withSettings);
  }

  lemma EachHasItsTimeline(t: Tables, others: seq<Row>, withSettings: bool)
    requires Valid(t) && IsRest(t, others) && forall j: nat :: j < |t.plays| ==> !HasTwin(t.plays, j)
    ensures var rows := PlayRows(t.plays) + EventRows(t.events) + others;
            && MergeRows(EMPTY, rows, withSettings).Some?
            && var m := MergeRows(EMPTY, rows, withSettings).value;
            && PlaysCameBack(t.plays, m)
            && forall i :: 0 <= i < |t.plays| ==>
                 TimelineOf(m.tables.events, i + 1) == TimelineOf(t.events, t.plays[i].id)
  {
    hide MergeRows, InExportOrder, HasTwin, IdsHold, IdsAreOfRows, TimelineOf, NamedBy, MergeRow, Present, Begin;
    var base, rows := PlayRows(t.plays), PlayRows(t.plays) + EventRows(t.events) + others;
    PlaysComeBack(t.plays, withSettings);
    RestGoesThrough(t, others, withSettings);
    ExportsAreInOrder(t, others);
    TimelinesFollowTheirPlays(EMPTY, rows, withSettings);
    hide Valid, IsRest;
    var m := MergeRows(EMPTY, rows, withSettings).value;
    forall i | 0 <= i < |t.plays|
      ensures TimelineOf(m.tables.events, i + 1) == TimelineOf(t.events, t.plays[i].id)
    {
      assert t.plays[i].id in m.ids && m.ids[t.plays[i].id] == i + 1;
      NamedAfterPlays(base, t.events, others, t.plays[i].id);
    }
  }

  lemma RestIsAll(t: Tables, m: Merge, others: seq<Row>, more: seq<Row>, withSettings: bool)
    requires IsRest(t, others) && more == EventRows(t.events) + others && RestCameBack(t, m, more, withSettings)
    ensures m.tables.rows == t.rows && (withSettings ==> m.tables.perms == t.perms)
  {
    forall i | 0 <= i < |others| ensures more[|t.events| + i] == others[i] {
    }
    forall at | at in t.rows ensures at in m.tables.rows {
      var i :| 0 <= i < |others| && others[i] == KeyedRow(at, t.rows[at], true);
      assert more[|t.events| + i].KeyedRow?;
    }
    if withSettings {
      forall user | user in t.perms ensures user in m.tables.perms {
        var i :| 0 <= i < |others| && others[i] == PermsRow(user, t.perms[user], true);
        assert more[|t.events| + i].PermsRow?;
      }
    }
  }

  /** The file of a backup: a header, then its rows. */
  function FileOf(rows: seq<Row>): seq<Line> {
    [Json(Some(FORMAT), OtherRow)] + seq(|rows|, i requires 0 <= i < |rows| => Json(None, rows[i]))
  }

  lemma FileGrows(rows: seq<Row>)
    requires rows != []
    ensures FileOf(rows) == FileOf(rows[..|rows| - 1]) + [Json(None, rows[|rows| - 1])]
    ensures HasHeader(FileOf(rows))
  {
    assert FileOf(rows)[0].Json?;
  }

  lemma JustAHeader(lines: seq<Line>)
    requires lines == [Json(Some(FORMAT), OtherRow)]
    ensures Fault(lines) == None && RowsOf(lines) == [] && HasHeader(lines)
  {
    assert lines[..0] == [] && lines[0].Json?;
  }

  lemma {:induction false} AFileReadsBack(rows: seq<Row>)
    ensures Fault(FileOf(rows)) == None && RowsOf(FileOf(rows)) == rows && HasHeader(FileOf(rows))
  {
    hide HasHeader;
    if rows == [] {
      JustAHeader(FileOf(rows));
    } else {
      FileGrows(rows);
      AFileReadsBack(rows[..|rows| - 1]);
      hide FileOf;
      assert FileOf(rows)[..|FileOf(rows)| - 1] == FileOf(rows[..|rows| - 1]);
    }
  }

  // ------------------------------------------------------------------ what stops a restore

  /** What stops a restore, if anything: the first line that is at fault or whose row is refused. */
  function Stop(tables: Tables, lines: seq<Line>, withSettings: bool): Option<Error> {
    if lines == [] then None
    else if Stop(tables, lines[..|lines| - 1], withSettings).Some? then Stop(tables, lines[..|lines| - 1], withSettings)
    else if Fault(lines).Some? then Fault(lines)
    else if MergeRows(tables, RowsOf(lines), withSettings).None? then Some(Refused)
    else None
  }

  lemma {:induction false} StoppedForGood(tables: Tables, lines: seq<Line>, n: nat, withSettings: bool)
    requires n <= |lines| && Stop(tables, lines[..n], withSettings).Some?
    ensures Stop(tables, lines, withSettings) == Stop(tables, lines[..n], withSettings)
  {
    if n < |lines| {
      assert lines[..|lines| - 1][..n] == lines[..n];
      StoppedForGood(tables, lines[..|lines| - 1], n, withSettings);
    } else {
      assert lines[..n] == lines;
    }
  }

  datatype Counts = Counts(imported: nat, skipped: nat, events: nat, others: nat)

  function CountsOf(m: Merge): Counts {
    Counts(m.imported, m.skipped, m.events, m.others)
  }

  lemma OneMoreLine(lines: seq<Line>, i: nat)
    requires i < |lines|
    ensures lines[..i + 1][..i] == lines[..i]
    ensures RowsOf(lines[..i + 1]) ==
            if lines[i].Json? && HasHeader(lines[..i]) then RowsOf(lines[..i]) + [lines[i].row] else RowsOf(lines[..i])
    ensures Fault(lines[..i]).None? ==>
              Fault(lines[..i + 1]) ==
              match lines[i]
              case Blank => None
              case Unreadable => Some(Damaged)
              case NotJson => Some(NotJsonAt(i + 1))
              case Json(format, _) =>
                if HasHeader(lines[..i]) then None
                else if format.None? then Some(NotABackup)
                else if format.value > FORMAT then Some(MadeByNewer)
                else None
    ensures HasHeader(lines[..i + 1]) <==> HasHeader(lines[..i]) || lines[i].Json?
  {
    assert lines[..i + 1][..i] == lines[..i];
    assert lines[..i + 1][i] == lines[i];
    forall k | 0 <= k < i ensures lines[..i + 1][k] == lines[..i][k] {
    }
  }

  lemma OneMoreRow(tables: Tables, rows: seq<Row>, row: Row, withSettings: bool)
    requires MergeRows(tables, rows, withSettings).Some?
    ensures MergeRows(tables, rows + [row], withSettings)
         == MergeRow(MergeRows(tables, rows, withSettings).value, row, withSettings)
  {
    assert (rows + [row])[..|rows|] == rows;
  }
}
