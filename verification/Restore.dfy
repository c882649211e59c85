/** The whole of a restore (`restore` in src/backup.rs): a backup is merged, and then plays are linked to the
    library again, by way of `backfill_playbacks` in src/sync.rs. */
module Restore {
  import opened Linking
  import opened Merging
  import opened Options
  import opened Plays
  import R = Relink

  /** The tables after a restore that goes through. */
  function Restored(tables: Tables, rows: seq<Row>, withSettings: bool, lib: Library): Option<Tables> {
    match MergeRows(tables, rows, withSettings)
    case None => None
    case Some(m) => Some(m.tables.(plays := Linked(m.tables.plays, lib)))
  }

  // ------------------------------------------------------------------ there and back

  /** Is this play called by the name its title is looked up by, and does cleaning change that name? */
  predicate Retitled(plays: seq<Play>, lib: Library, p: Play) {
    && lib.kind(p.key.item) == Title && p.name == LookupName(plays, lib, p.key.item)
    && Cleaned(p.name, p.name) != p.name
  }

  /** How a play comes back when nothing in the library is live. */
  function BackUnlinked(plays: seq<Play>, lib: Library, i: nat): Play
    requires i < |plays|
  {
    var p := CameBack(plays[i], i);
    if Retitled(plays, lib, plays[i]) then p.(name := Cleaned(p.name, p.name)) else p
  }

  lemma SameLookups(plays: seq<Play>, others: seq<Play>, lib: Library, item: string)
    requires |plays| == |others|
    requires forall i :: 0 <= i < |plays| ==> plays[i].key == others[i].key && plays[i].name == others[i].name
    ensures LookupName(plays, lib, item) == LookupName(others, lib, item)
  {
    MaxNameOfSame(plays, others, item);
  }

  lemma LinkedWithNothingLive(plays: seq<Play>, lib: Library, p: Play)
    requires FindsLive(lib) && lib.live == {}
    ensures LinkedPlay(plays, lib, p) == if Retitled(plays, lib, p) then p.(name := Cleaned(p.name, p.name)) else p
  {
    hide LookupName, R.Parse;
    if Target(plays, lib, p.key.item).Some? {
      TargetIsLive(plays, lib, p.key.item);
    }
    hide Target;
  }

  lemma LinkedBack(plays: seq<Play>, back: seq<Play>, lib: Library, i: nat)
    requires i < |plays| == |back| && forall k :: 0 <= k < |plays| ==> back[k] == CameBack(plays[k], k)
    requires FindsLive(lib) && lib.live == {}
    ensures Linked(back, lib)[i] == BackUnlinked(plays, lib, i)
  {
    hide LookupName, Cleaned, FindsLive, LinkedPlay;
    LinkedWithNothingLive(back, lib, back[i]);
    SameLookups(plays, back, lib, plays[i].key.item);
  }

  lemma NoTwins(t: Tables)
    requires Valid(t)
    ensures (forall j: nat :: j < |t.plays| ==> !HasTwin(t.plays, j)) <==>
              forall i, j :: 0 <= i < j < |t.plays| && t.plays[j].source == None ==> t.plays[i].key != t.plays[j].key
  {
    forall j: nat | j < |t.plays|
      ensures HasTwin(t.plays, j) <==>
                t.plays[j].source == None && exists i :: 0 <= i < j && t.plays[i].key == t.plays[j].key
    {
      TwinExactly(t, j);
    }
    hide HasTwin, Valid;
  }

  /** A backup restored into an empty database, the linking at the end included, goes through. Every play
      comes back exactly when no play without an import id shares its user, item and start with an earlier
      one; then each has its own user, item, start, import id and other columns, its own timeline under its
      new id, and its own name exactly when it is not retitled. The other tables come back as they were. */
  lemma ABackupComesBack(t: Tables, rows: seq<Row>, withSettings: bool, lib: Library)
    requires Valid(t) && IsExport(t, rows) && FindsLive(lib) && lib.live == {}
    ensures Restored(EMPTY, rows, withSettings, lib).Some?
    ensures var back := Restored(EMPTY, rows, withSettings, lib).value;
            && back.rows == t.rows && (withSettings ==> back.perms == t.perms)
            && |back.plays| <= |t.plays|
            && (|back.plays| == |t.plays| <==>
                  forall i, j :: 0 <= i < j < |t.plays| && t.plays[j].source == None ==>
                    t.plays[i].key != t.plays[j].key)
            && (|back.plays| == |t.plays| ==> forall i :: 0 <= i < |t.plays| ==>
                  && back.plays[i] == CameBack(t.plays[i], i).(name := back.plays[i].name)
                  && (back.plays[i].name == t.plays[i].name <==> !Retitled(t.plays, lib, t.plays[i]))
                  && (Retitled(t.plays, lib, t.plays[i]) ==>
                       back.plays[i].name == Cleaned(t.plays[i].name, t.plays[i].name))
                  && TimelineOf(back.events, i + 1) == TimelineOf(t.events, t.plays[i].id))
  {
    hide Valid, IsExport, FindsLive, MergeRows, HasTwin, TimelineOf, LookupName, Cleaned, LinkedPlay;
    ThereAndBack(t, rows, withSettings);
    NoTwins(t);
    var plays := MergeRows(EMPTY, rows, withSettings).value.tables.plays;
    MergingOverwritesNothing(EMPTY, rows, withSettings);
    if |plays| == |t.plays| {
      forall i | 0 <= i < |t.plays| ensures Linked(plays, lib)[i] == BackUnlinked(t.plays, lib, i) {
        LinkedBack(t.plays, plays, lib, i);
      }
    }
    hide Linked;
  }

  lemma NotAnOrphan(plays: seq<Play>, lib: Library, p: Play)
    ensures !Orphan(lib, p.key.item) ==> LinkedPlay(plays, lib, p) == p
  {
  }

  /** What was in the database is neither overwritten nor lost, permissions aside when they are restored. The
      linking can move a play to a live item or clean its name, but only when its own item is not there. */
  lemma WhatWasThereStays(tables: Tables, rows: seq<Row>, withSettings: bool, lib: Library)
    requires Restored(tables, rows, withSettings, lib).Some? && FindsLive(lib)
    ensures var after := Restored(tables, rows, withSettings, lib).value;
            && |after.plays| >= |tables.plays| && tables.events <= after.events
            && (forall key :: key in tables.rows ==> key in after.rows && after.rows[key] == tables.rows[key])
            && (!withSettings ==> after.perms == tables.perms)
            && forall i :: 0 <= i < |tables.plays| ==>
                 var p, q := tables.plays[i], after.plays[i];
                 && q == p.(key := p.key.(item := q.key.item), name := q.name)
                 && (q.key.item == p.key.item || q.key.item in lib.live)
                 && (!Orphan(lib, p.key.item) ==> q == p)
  {
    hide MergeRows, Target, Orphan, LookupName, Cleaned, FindsLive;
    MergingOverwritesNothing(tables, rows, withSettings);
    var plays := MergeRows(tables, rows, withSettings).value.tables.plays;
    forall i | 0 <= i < |tables.plays|
      ensures var p, q := tables.plays[i], Linked(plays, lib)[i];
              && q == p.(key := p.key.(item := q.key.item), name := q.name)
              && (q.key.item == p.key.item || q.key.item in lib.live)
              && (!Orphan(lib, p.key.item) ==> q == p)
    {
      assert plays[i] == tables.plays[i];
      WhereItIs(plays, lib, i);
      NotAnOrphan(plays, lib, plays[i]);
    }
  }

  function NoName(item: string, name: string): Option<string> {
    None
  }

  /** Nothing is there, and nothing is remembered. */
  const BARE: Library := Library({}, map[], IsTitle, NoId, NoName, Itself)

  lemma ExportOfPlays(plays: seq<Play>)
    ensures IsExport(EMPTY.(plays := plays), PlayRows(plays))
  {
    assert IsRest(EMPTY.(plays := plays), []);
    assert PlayRows(plays) == PlayRows(plays) + EventRows([]) + [];
  }

  /** So a name does not always come back: a film called "[tmdbid-9] Alpha" comes back as "Alpha". */
  lemma ANameCanBeCleaned()
    ensures FindsLive(BARE) && BARE.live == {}
    ensures var p := TWO_NAMES[0];
            var t, rows := EMPTY.(plays := [p]), PlayRows([p]);
            && Valid(t) && IsExport(t, rows) && Restored(EMPTY, rows, true, BARE).Some?
            && Restored(EMPTY, rows, true, BARE).value.plays == [p.(name := "Alpha")]
  {
    hide Restored, IsExport, R.Parse, Cleaned, TimelineOf;
    var p := TWO_NAMES[0];
    var t, rows := EMPTY.(plays := [p]), PlayRows([p]);
    ExportOfPlays([p]);
    TwoLookups();
    assert [p][..0] == [];
    assert MaxName([p], "x") == Some(p.name);
    ABackupComesBack(t, rows, true, BARE);
    var back := Restored(EMPTY, rows, true, BARE).value;
    assert back.plays[0] == p.(name := "Alpha");
  }

  const TWINS: seq<Play> :=
    [ Play(1, None, PlayKey("alice", "x", 1000), "Film", false, 0),
      Play(2, None, PlayKey("alice", "x", 1000), "Film", false, 7) ]

  /** And a play does not always come back: of two without an import id, by one user, of one item and with
      one start, one is lost. */
  lemma ATwinIsLost(lib: Library)
    requires FindsLive(lib) && lib.live == {}
    ensures var t, rows := EMPTY.(plays := TWINS), PlayRows(TWINS);
            && Valid(t) && IsExport(t, rows) && Restored(EMPTY, rows, true, lib).Some?
            && |Restored(EMPTY, rows, true, lib).value.plays| < |t.plays|
  {
    hide Restored, IsExport, TimelineOf;
    ExportOfPlays(TWINS);
    assert TWINS[0].key == TWINS[1].key;
    ABackupComesBack(EMPTY.(plays := TWINS), PlayRows(TWINS), true, lib);
  }

  // ------------------------------------------------------------------ restoring twice

  /** Does this row name, without an import id, an item whose plays a linking of these plays moves? */
  predicate IsMovedAway(row: Row, plays: seq<Play>, lib: Library) {
    row.PlayRow? && row.source.None? && row.key.Some? && Target(plays, lib, row.key.value.item).Some?
  }

  lemma MovedIsGone(plays: seq<Play>, lib: Library, key: PlayKey)
    requires FindsLive(lib) && Target(plays, lib, key.item).Some?
    ensures !HasKey(Linked(plays, lib), key)
  {
    TargetIsLive(plays, lib, key.item);
    forall i | 0 <= i < |plays| ensures Linked(plays, lib)[i].key != key {
      WhereItIs(plays, lib, i);
    }
  }

  lemma LinkingKeepsTheRest(t: Tables, row: Row, lib: Library)
    requires IsThere(t, row) && FindsLive(lib)
    ensures IsThere(t.(plays := Linked(t.plays, lib)), row) <==> !IsMovedAway(row, t.plays, lib)
  {
    hide Target, Linked, FindsLive;
    if IsMovedAway(row, t.plays, lib) {
      MovedIsGone(t.plays, lib, row.key.value);
    } else if row.PlayRow? {
      var i :| 0 <= i < |t.plays|
        && if row.source.Some? then t.plays[i].source == row.source else Some(t.plays[i].key) == row.key;
      WhereItIs(t.plays, lib, i);
    }
  }

  /** Merging a file again, after a restore of it with nothing changed in between, goes through and changes
      nothing exactly when no play in it without an import id names an item that the first restore moved to
      another: such a play is no longer found under its old item, and comes in again. */
  lemma MergingAgain(tables: Tables, rows: seq<Row>, withSettings: bool, lib: Library)
    requires Restored(tables, rows, withSettings, lib).Some? && FindsLive(lib)
    ensures var m, once := MergeRows(tables, rows, withSettings).value, Restored(tables, rows, withSettings, lib).value;
            (MergeRows(once, rows, withSettings).Some? && MergeRows(once, rows, withSettings).value.tables == once)
            <==> forall k :: 0 <= k < |rows| ==> !IsMovedAway(rows[k], m.tables.plays, lib)
  {
    var m := MergeRows(tables, rows, withSettings).value;
    var once := Restored(tables, rows, withSettings, lib).value;
    AllOfItIsThere(tables, rows, withSettings);
    PermsAreTheFiles(tables, rows, withSettings);
    forall k | 0 <= k < |rows| ensures IsThere(once, rows[k]) <==> !IsMovedAway(rows[k], m.tables.plays, lib) {
      LinkingKeepsTheRest(m.tables, rows[k], lib);
    }
    hide IsMovedAway, IsThere, Linked, FindsLive;
    if forall k :: 0 <= k < |rows| ==> IsThere(once, rows[k]) {
      NothingToAdd(once, rows, withSettings);
      var granted := PermsOf(rows, withSettings);
      assert tables.perms + granted + granted == tables.perms + granted;
    } else if MergeRows(once, rows, withSettings).Some? {
      AllOfItIsThere(once, rows, withSettings);
      var k :| 0 <= k < |rows| && !IsThere(once, rows[k]);
      NotThereMeansMore(once, MergeRows(once, rows, withSettings).value.tables, rows[k]);
    }
  }

  /** And restoring it again, the linking included, goes through and changes nothing exactly when in
      addition no title is stirred by linking twice. Both conditions are about the plays as the first
      restore had merged them. */
  lemma RestoringTwice(tables: Tables, rows: seq<Row>, withSettings: bool, lib: Library)
    requires Restored(tables, rows, withSettings, lib).Some? && FindsLive(lib)
    ensures var plays := MergeRows(tables, rows, withSettings).value.tables.plays;
            var once := Restored(tables, rows, withSettings, lib).value;
            Restored(once, rows, withSettings, lib) == Some(once)
            <==> && (forall k :: 0 <= k < |rows| ==> !IsMovedAway(rows[k], plays, lib))
                 && (forall i :: 0 <= i < |plays| ==> !StirsAgain(plays, lib, plays[i].key.item))
  {
    hide IsMovedAway, StirsAgain, Linked, MergeRows, FindsLive, IsThere;
    var m, once := MergeRows(tables, rows, withSettings).value, Restored(tables, rows, withSettings, lib).value;
    MergingAgain(tables, rows, withSettings, lib);
    LinkingTwice(m.tables.plays, lib);
    var again := MergeRows(once, rows, withSettings);
    if again.Some? {
      AllOfItIsThere(once, rows, withSettings);
      SameTables(once, again.value.tables, lib);
    }
  }

  lemma SameTables(once: Tables, t: Tables, lib: Library)
    requires once.plays <= t.plays
    ensures t.(plays := Linked(t.plays, lib)) == once <==> t == once && Linked(once.plays, lib) == once.plays
  {
    hide LinkedPlay;
    if t.(plays := Linked(t.plays, lib)) == once {
      assert |t.plays| == |once.plays|;
      assert t.plays == once.plays;
    }
  }

  /** It is so when no play of the file without an import id is moved, and every title that is neither
      live nor remembered goes by one name. */
  lemma RestoringTwiceIsSafe(tables: Tables, rows: seq<Row>, withSettings: bool, lib: Library)
    requires Restored(tables, rows, withSettings, lib).Some? && FindsLive(lib)
    requires var plays := MergeRows(tables, rows, withSettings).value.tables.plays;
             && (forall k :: 0 <= k < |rows| ==> !IsMovedAway(rows[k], plays, lib))
             && (forall item :: Orphan(lib, item) && item !in lib.known ==> OneName(plays, item))
    ensures var once := Restored(tables, rows, withSettings, lib); Restored(once.value, rows, withSettings, lib) == once
  {
    var plays := MergeRows(tables, rows, withSettings).value.tables.plays;
    OneNameEach(plays, lib);
    LinkingTwice(plays, lib);
    RestoringTwice(tables, rows, withSettings, lib);
    hide IsMovedAway, StirsAgain, Linked, MergeRows, FindsLive, OneName, Orphan;
  }

  // ------------------------------------------------------------------ when it goes wrong

  function AlwaysNew(item: string, name: string): Option<string> {
    Some("new")
  }

  const RENAMED: Library := Library({"new"}, map[], IsTitle, NoId, AlwaysNew, Itself)

  /** So restoring twice is not always safe: a play without an import id, of an item that is gone and
      whose title now has another, is put in again. */
  lemma RestoringTwiceCanDouble()
    ensures FindsLive(RENAMED)
    ensures var play := PlayRow(Some(1), None, Some(PlayKey("alice", "old", 1000)), "Film", 0, true);
            var once := Restored(EMPTY, [play], false, RENAMED);
            && once.Some? && |once.value.plays| == 1
            && Restored(once.value, [play], false, RENAMED).Some?
            && |Restored(once.value, [play], false, RENAMED).value.plays| == 2
  {
    var play := PlayRow(Some(1), None, Some(PlayKey("alice", "old", 1000)), "Film", 0, true);
    assert [play][..0] == [];
    assert MergeRows(EMPTY, [play], false) == MergeRow(Begin(EMPTY), play, false);
    var plays := MergeRows(EMPTY, [play], false).value.tables.plays;
    assert plays == [Play(1, None, PlayKey("alice", "old", 1000), "Film", false, 0)];
    AlwaysMoves(plays, "old");
    var once := Restored(EMPTY, [play], false, RENAMED).value;
    MovedIsGone(plays, RENAMED, PlayKey("alice", "old", 1000));
    hide Linked, Target;
    assert MergeRows(once, [play], false) == MergeRow(Begin(once), play, false);
  }

  lemma AlwaysMoves(plays: seq<Play>, item: string)
    requires item != "new"
    ensures Target(plays, RENAMED, item).Some?
  {
    hide LookupName;
  }

  /** And a file can change the tables a second time though no play of it was moved the first time: of the
      two names of one title, one is found only once the other has been cleaned. */
  lemma RestoringTwiceCanMove()
    ensures var rows := PlayRows(TWO_NAMES);
            var once := Restored(EMPTY, rows, false, FILMS);
            && once.Some? && once.value.plays == [TWO_NAMES[0].(name := "Alpha"), TWO_NAMES[1]]
            && (forall k :: 0 <= k < |rows| ==> !IsMovedAway(rows[k], TWO_NAMES, FILMS))
            && Restored(once.value, rows, false, FILMS) != once
  {
    hide Linked, MergeRows, FindsLive, Target;
    var rows := PlayRows(TWO_NAMES);
    TwoNamesComeIn();
    LinkingAgainCanMove();
    assert |rows| == 2;
    StirredChanges(EMPTY, rows, false, FILMS);
  }

  lemma StirredChanges(tables: Tables, rows: seq<Row>, withSettings: bool, lib: Library)
    requires Restored(tables, rows, withSettings, lib).Some? && FindsLive(lib)
    requires var once := Restored(tables, rows, withSettings, lib).value; Linked(once.plays, lib) != once.plays
    ensures var once := Restored(tables, rows, withSettings, lib); Restored(once.value, rows, withSettings, lib) != once
  {
    RestoringTwice(tables, rows, withSettings, lib);
    LinkingTwice(MergeRows(tables, rows, withSettings).value.tables.plays, lib);
    hide StirsAgain, Linked, MergeRows, FindsLive, IsMovedAway;
  }

  lemma TwoNamesComeIn()
    ensures MergeRows(EMPTY, PlayRows(TWO_NAMES), false).Some?
    ensures MergeRows(EMPTY, PlayRows(TWO_NAMES), false).value.tables.plays == TWO_NAMES
  {
    forall j: nat | j < 2 ensures !HasTwin(TWO_NAMES, j) {
    }
    PlaysComeBack(TWO_NAMES, false);
    var plays := MergeRows(EMPTY, PlayRows(TWO_NAMES), false).value.tables.plays;
    assert plays[0] == CameBack(TWO_NAMES[0], 0) && plays[1] == CameBack(TWO_NAMES[1], 1);
  }

  // ------------------------------------------------------------------ the restore itself

  /** The items to be linked, each once. */
  method OrphansOf(plays: seq<Play>, lib: Library) returns (orphans: seq<string>)
    ensures forall item :: item in orphans <==>
              Orphan(lib, item) && exists i :: 0 <= i < |plays| && plays[i].key.item == item
    ensures forall i, j :: 0 <= i < j < |orphans| ==> orphans[i] != orphans[j]
  {
    orphans := [];
    var n := 0;
    while n < |plays|
      invariant 0 <= n <= |plays|
      invariant forall item :: item in orphans <==>
                  Orphan(lib, item) && exists i :: 0 <= i < n && plays[i].key.item == item
      invariant forall i, j :: 0 <= i < j < |orphans| ==> orphans[i] != orphans[j]
    {
      var item := plays[n].key.item;
      if Orphan(lib, item) && item !in orphans {
        orphans := orphans + [item];
      }
      n := n + 1;
    }
  }

  /** What one item's turn finds at a play, and what it has to leave. */
  lemma Untouched(plays: seq<Play>, lib: Library, item: string, done: seq<string>, p: Play)
    requires FindsLive(lib) && Orphan(lib, item) && item !in done
    ensures var now := if p.key.item in done then LinkedPlay(plays, lib, p) else p;
            && (now.key.item == item <==> p.key.item == item)
            && (p.key.item == item ==>
                  LinkedPlay(plays, lib, p) ==
                  match Target(plays, lib, item)
                  case Some(to) => p.(key := p.key.(item := to), name := lib.nameOf(to))
                  case None =>
                    if lib.kind(item) == Title then p.(name := Cleaned(p.name, LookupName(plays, lib, item))) else p)
            && (p.key.item != item ==> (p.key.item in done + [item] <==> p.key.item in done))
            && (p.key.item == item ==> p.key.item in done + [item])
  {
    if Target(plays, lib, p.key.item).Some? {
      TargetIsLive(plays, lib, p.key.item);
    }
    hide Target, Cleaned, LookupName;
  }

  /** The tables of the database, changed by one transaction. */
  class Database {
    var plays: seq<Play>
    var events: seq<TimelineRow>
    var rows: map<RowKey, int>
    var perms: map<string, int>

    function View(): Tables
      reads this
    {
      Tables(plays, events, rows, perms)
    }

    /** Every item whose plays have lost it is looked up first; then its plays are moved or cleaned, item by
        item. */
    method Link(lib: Library)
      requires FindsLive(lib)
      modifies this`plays
      ensures plays == Linked(old(plays), lib)
    {
      var found := plays;
      var orphans := OrphansOf(found, lib);
      var i := 0;
      while i < |orphans|
        invariant 0 <= i <= |orphans|
        invariant |plays| == |found|
        invariant forall j :: 0 <= j < |found| ==>
                    plays[j] == if found[j].key.item in orphans[..i] then LinkedPlay(found, lib, found[j]) else found[j]
      {
        assert orphans[..i + 1] == orphans[..i] + [orphans[i]];
        LinkItem(found, lib, orphans[i], orphans[..i]);
        i := i + 1;
      }
      assert orphans[..i] == orphans;
      forall j | 0 <= j < |found| ensures plays[j] == LinkedPlay(found, lib, found[j]) {
        NotAnOrphan(found, lib, found[j]);
      }
    }

    /** The `UPDATE` of one item. */
    method LinkItem(found: seq<Play>, lib: Library, item: string, ghost done: seq<string>)
      requires FindsLive(lib) && Orphan(lib, item) && item !in done && |plays| == |found|
      requires forall j :: 0 <= j < |found| ==>
                 plays[j] == if found[j].key.item in done then LinkedPlay(found, lib, found[j]) else found[j]
      modifies this`plays
      ensures |plays| == |found|
      ensures forall j :: 0 <= j < |found| ==>
                plays[j] == if found[j].key.item in done + [item] then LinkedPlay(found, lib, found[j]) else found[j]
    {
      hide LookupName, Target, Cleaned, FindsLive;
      var looked, to := LookupName(found, lib, item), Target(found, lib, item);
      var j := 0;
      while j < |plays|
        invariant 0 <= j <= |plays| == |found|
        invariant forall k :: j <= k < |found| ==> plays[k] == old(plays)[k]
        invariant forall k :: 0 <= k < j ==>
                    plays[k]
                    == if found[k].key.item in done + [item] then LinkedPlay(found, lib, found[k]) else found[k]
      {
        var p := plays[j];
        Untouched(found, lib, item, done, found[j]);
        hide LinkedPlay, Orphan;
        if p.key.item == item {
          if to.Some? {
            p := p.(key := p.key.(item := to.value), name := lib.nameOf(to.value));
          } else if lib.kind(item) == Title {
            p := p.(name := Cleaned(p.name, looked));
          }
          plays := plays[j := p];
        }
        j := j + 1;
      }
    }

    /** Merge a backup. It goes through or leaves everything as it was. */
    method Restore(lines: seq<Line>, withSettings: bool, lib: Library) returns (r: Result<Counts>)
      requires FindsLive(lib)
      modifies this
      ensures r.Ok? <==> HasHeader(lines) && Stop(old(View()), lines, withSettings).None?
      ensures r.Ok? ==> Restored(old(View()), RowsOf(lines), withSettings, lib) == Some(View())
      ensures r.Ok? ==> r.value == CountsOf(MergeRows(old(View()), RowsOf(lines), withSettings).value)
      ensures r.Err? ==> View() == old(View())
      ensures r.Err? ==>
                var stop := Stop(old(View()), lines, withSettings);
                r.error == if stop.Some? then stop.value else NothingThere
    {
      ghost var was := View();
      NothingRead(was, lines, withSettings);
      hide Stop, Fault, RowsOf, HasHeader, MergeRows, Present, NewId;
      var p, e, kept, granted := plays, events, rows, perms;
      var playIds: map<int, int> := map[];
      var imported, skipped, added, others := 0, 0, 0, 0;
      var sawHeader := false;
      var i := 0;
      while i < |lines|
        invariant 0 <= i <= |lines|
        invariant View() == was
        invariant sawHeader == HasHeader(lines[..i])
        invariant Stop(was, lines[..i], withSettings) == None && Fault(lines[..i]) == None
        invariant MergeRows(was, RowsOf(lines[..i]), withSettings)
               == Some(Merge(Tables(p, e, kept, granted), playIds, imported, skipped, added, others))
      {
        ghost var m := Merge(Tables(p, e, kept, granted), playIds, imported, skipped, added, others);
        OneMoreLine(lines, i);
        var line := lines[i];
        i := i + 1;
        StopAt(was, lines, i, withSettings);
        match line {
          case Blank =>
          case Unreadable => return Err(Damaged);
          case NotJson => return Err(NotJsonAt(i));
          case Json(format, row) =>
            if !sawHeader {
              if format.None? {
                return Err(NotABackup);
              }
              if format.value > FORMAT {
                return Err(MadeByNewer);
              }
              sawHeader := true;
            } else {
              OneMoreRow(was, RowsOf(lines[..i - 1]), row, withSettings);
              match row {
                case PlayRow(id, source, key, name, rest, fits) =>
                  if Present(p, source, key) {
                    skipped := skipped + 1;
                  } else if key.None? || !fits {
                    return Err(Refused);
                  } else {
                    var newId := NewId(p);
                    p := p + [Play(newId, source, key.value, name, false, rest)];
                    if id.Some? {
                      playIds := playIds[id.value := newId];
                    }
                    imported := imported + 1;
                  }
                case EventRow(play, rest, fits) =>
                  if play.Some? && play.value in playIds {
                    if !fits {
                      return Err(Refused);
                    }
                    e, added := e + [TimelineRow(playIds[play.value], rest)], added + 1;
                  }
                case KeyedRow(at, rest, fits) =>
                  if fits && at !in kept {
                    kept, others := kept[at := rest], others + 1;
                  }
                case PermsRow(user, granting, fits) =>
                  if withSettings {
                    if !fits {
                      return Err(Refused);
                    }
                    granted, others := granted[user := granting], others + 1;
                  }
                case OtherRow =>
              }
            }
        }
      }
      assert lines[..i] == lines;
      if !sawHeader {
        return Err(NothingThere);
      }
      plays, events, rows, perms := p, e, kept, granted;
      Link(lib);
      return Ok(Counts(imported, skipped, added, others));
    }
  }

  lemma NothingRead(tables: Tables, lines: seq<Line>, withSettings: bool)
    ensures lines[..0] == [] && Stop(tables, [], withSettings) == None && Fault([]) == None && !HasHeader([])
    ensures MergeRows(tables, RowsOf([]), withSettings) == Some(Begin(tables))
  {
  }

  lemma StopAt(tables: Tables, lines: seq<Line>, i: nat, withSettings: bool)
    requires 0 < i <= |lines| && Stop(tables, lines[..i - 1], withSettings) == None
    ensures var stop := Stop(tables, lines[..i], withSettings);
            && (stop == if Fault(lines[..i]).Some? then Fault(lines[..i])
                        else if MergeRows(tables, RowsOf(lines[..i]), withSettings).None? then Some(Refused) else None)
            && (stop.Some? ==> Stop(tables, lines, withSettings) == stop)
  {
    assert lines[..i][..i - 1] == lines[..i - 1];
    if Stop(tables, lines[..i], withSettings).Some? {
      StoppedForGood(tables, lines, i, withSettings);
    }
  }
}
