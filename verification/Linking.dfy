/** Attaching plays again to items that changed identity (`relink_orphans` and `find_current` in
    src/relink.rs).

    A play names its item by an id. When no live item has that id, the play's item is looked up by name,
    and its plays are moved to the one item that can be meant. A title that is not found has its name
    cleaned, and that is why linking again can come to another answer. */
module Linking {
  import opened Options
  import opened Plays
  import opened Text
  import R = Relink

  datatype Kind = Title | Episode | Other

  /** The library at one moment. `live` are the ids of items that are there, `known` the names of those
      that are remembered, `byId` and `byName` what a provider id or a cleaned name can only mean for a
      play's item (its type, year and numbers included), and `nameOf` what a live item is called. */
  datatype Library = Library(
    live: set<string>,
    known: map<string, string>,
    kind: string -> Kind,
    byId: (string, R.ProviderId) -> Option<string>,
    byName: (string, string) -> Option<string>,
    nameOf: string -> string)

  /** Only items that are there are found. */
  ghost predicate FindsLive(lib: Library) {
    && (forall item: string, id: R.ProviderId :: lib.byId(item, id).Some? ==> lib.byId(item, id).value in lib.live)
    && (forall item: string, name: string :: lib.byName(item, name).Some? ==> lib.byName(item, name).value in lib.live)
  }

  function ByIds(lib: Library, item: string, ids: seq<R.ProviderId>): Option<string> {
    if ids == [] then None
    else if lib.byId(item, ids[0]).Some? then lib.byId(item, ids[0])
    else ByIds(lib, item, ids[1..])
  }

  /** The first provider id of the name that means one item, or else what the cleaned name means. */
  function FindCurrent(lib: Library, item: string, name: string): Option<string> {
    var parsed := R.Parse(name);
    var hit := ByIds(lib, item, parsed.ids);
    if hit.Some? then hit else lib.byName(item, parsed.withoutTags)
  }

  function MaxName(plays: seq<Play>, item: string): Option<string> {
    if plays == [] then None
    else
      var last, before := plays[|plays| - 1], MaxName(plays[..|plays| - 1], item);
      if last.key.item == item && (before.None? || NotAfter(before.value, last.name)) then Some(last.name) else before
  }

  /** The name an item is looked up by: the one remembered, or the greatest among its plays. */
  function LookupName(plays: seq<Play>, lib: Library, item: string): string {
    if item in lib.known then lib.known[item]
    else match MaxName(plays, item) case Some(name) => name case None => ""
  }

  predicate Orphan(lib: Library, item: string) {
    item !in lib.live && lib.kind(item) != Other
  }

  /** Where the plays of an item go, if anywhere. */
  function Target(plays: seq<Play>, lib: Library, item: string): Option<string> {
    if Orphan(lib, item) then FindCurrent(lib, item, LookupName(plays, lib, item)) else None
  }

  /** A title that stays where it is has the name it was looked up by cleaned, if anything is left of it. */
  function Cleaned(name: string, looked: string): string {
    var cleaned := R.Parse(looked).withoutTags;
    if name == looked && cleaned != "" then cleaned else name
  }

  function LinkedPlay(plays: seq<Play>, lib: Library, p: Play): Play {
    var item := p.key.item;
    match Target(plays, lib, item)
    case Some(to) => p.(key := p.key.(item := to), name := lib.nameOf(to))
    case None =>
      if Orphan(lib, item) && lib.kind(item) == Title then p.(name := Cleaned(p.name, LookupName(plays, lib, item)))
      else p
  }

  function Linked(plays: seq<Play>, lib: Library): (linked: seq<Play>)
    ensures |linked| == |plays|
  {
    seq(|plays|, i requires 0 <= i < |plays| => LinkedPlay(plays, lib, plays[i]))
  }

  ghost predicate IsFirst(lib: Library, item: string, ids: seq<R.ProviderId>, i: nat) {
    i < |ids| && lib.byId(item, ids[i]).Some? && forall j :: 0 <= j < i ==> lib.byId(item, ids[j]).None?
  }

  /** The first of the ids, in the order of the name, that means one item decides; and if none does, what the name
      without its tags means. */
  lemma FoundExactly(lib: Library, item: string, name: string)
    ensures var parsed := R.Parse(name);
            && (forall i: nat :: IsFirst(lib, item, parsed.ids, i) ==>
                  FindCurrent(lib, item, name) == lib.byId(item, parsed.ids[i]))
            && ((forall i :: 0 <= i < |parsed.ids| ==> lib.byId(item, parsed.ids[i]).None?) ==>
                  FindCurrent(lib, item, name) == lib.byName(item, parsed.withoutTags))
  {
    hide R.Parse;
    FirstIdDecides(lib, item, R.Parse(name).ids);
  }

  lemma {:induction false} FirstIdDecides(lib: Library, item: string, ids: seq<R.ProviderId>)
    ensures forall i: nat :: IsFirst(lib, item, ids, i) ==> ByIds(lib, item, ids) == lib.byId(item, ids[i])
    ensures (forall i :: 0 <= i < |ids| ==> lib.byId(item, ids[i]).None?) ==> ByIds(lib, item, ids).None?
  {
    if ids != [] {
      FirstIdDecides(lib, item, ids[1..]);
      forall i: nat | IsFirst(lib, item, ids, i) ensures ByIds(lib, item, ids) == lib.byId(item, ids[i]) {
        if i > 0 {
          assert lib.byId(item, ids[0]).None?;
          assert IsFirst(lib, item, ids[1..], i - 1) by {
            assert forall j :: 0 <= j < |ids| - 1 ==> ids[1..][j] == ids[j + 1];
          }
        }
      }
    }
  }

  /** The name looked up by is the one remembered, or the greatest of those the plays of the item go by. */
  lemma {:induction false} GreatestName(plays: seq<Play>, item: string)
    ensures MaxName(plays, item).Some? ==> forall i :: 0 <= i < |plays| && plays[i].key.item == item ==>
              NotAfter(plays[i].name, MaxName(plays, item).value)
  {
    if plays != [] {
      var front, last := plays[..|plays| - 1], plays[|plays| - 1];
      GreatestName(front, item);
      if MaxName(plays, item).Some? {
        var top := MaxName(plays, item).value;
        OrderIsTotal(last.name, last.name);
        forall i | 0 <= i < |plays| && plays[i].key.item == item ensures NotAfter(plays[i].name, top) {
          if i < |front| {
            assert front[i] == plays[i];
            MaxNameIsOne(front, item);
            OrderChains(plays[i].name, MaxName(front, item).value, top);
          } else if MaxName(front, item).Some? {
            OrderIsTotal(MaxName(front, item).value, last.name);
          }
        }
      }
    }
  }

  /** What becomes of each play, exactly. While its item is there, or is neither a title nor an episode, it stays
      as it is. Otherwise it is moved to what the item's name finds, under that one's name; and when nothing is
      found only the name of a title can change, to what is left of it without tags. */
  lemma WhatBecomesOfAPlay(plays: seq<Play>, lib: Library, i: nat)
    requires i < |plays|
    ensures var p, q := plays[i], Linked(plays, lib)[i];
            var item := p.key.item;
            var looked := LookupName(plays, lib, item);
            var left := R.Parse(looked).withoutTags;
            if item in lib.live || lib.kind(item) == Other then q == p
            else
              match FindCurrent(lib, item, looked)
              case Some(to) => q == p.(key := PlayKey(p.key.user, to, p.key.start), name := lib.nameOf(to))
              case None =>
                q == p.(name := q.name)
                && (q.name != p.name ==> q.name == left)
                && (q.name == p.name <==> lib.kind(item) == Episode || p.name != looked || left == p.name || left == "")
  {
    hide R.Parse, FindCurrent, LookupName;
  }

  lemma {:induction false} IdsAreLive(lib: Library, item: string, ids: seq<R.ProviderId>)
    requires FindsLive(lib) && ByIds(lib, item, ids).Some?
    ensures ByIds(lib, item, ids).value in lib.live
  {
    if lib.byId(item, ids[0]).None? {
      IdsAreLive(lib, item, ids[1..]);
    }
  }

  lemma TargetIsLive(plays: seq<Play>, lib: Library, item: string)
    requires FindsLive(lib) && Target(plays, lib, item).Some?
    ensures Target(plays, lib, item).value in lib.live && item !in lib.live
  {
    var ids := R.Parse(LookupName(plays, lib, item)).ids;
    if ByIds(lib, item, ids).Some? {
      IdsAreLive(lib, item, ids);
    }
  }

  /** After a linking a play is of the item it was of, or of a live one. */
  lemma WhereItIs(plays: seq<Play>, lib: Library, i: nat)
    requires i < |plays| && FindsLive(lib)
    ensures var item, to := plays[i].key.item, Linked(plays, lib)[i].key.item;
            && (Target(plays, lib, item).None? ==> to == item)
            && (Target(plays, lib, item).Some? ==> to in lib.live)
            && Linked(plays, lib)[i].source == plays[i].source
            && (Target(plays, lib, item).None? ==> Linked(plays, lib)[i].key == plays[i].key)
  {
    if Target(plays, lib, plays[i].key.item).Some? {
      TargetIsLive(plays, lib, plays[i].key.item);
    }
    hide Target, Cleaned, LookupName;
  }

  // ------------------------------------------------------------------ linking again

  lemma {:induction false} MaxNameIsOne(plays: seq<Play>, item: string)
    ensures MaxName(plays, item).None? ==> forall i :: 0 <= i < |plays| ==> plays[i].key.item != item
    ensures MaxName(plays, item).Some? ==>
              exists i :: 0 <= i < |plays| && plays[i].key.item == item && plays[i].name == MaxName(plays, item).value
  {
    if plays != [] {
      var front := plays[..|plays| - 1];
      MaxNameIsOne(front, item);
      if MaxName(plays, item).Some? {
        if MaxName(plays, item) == MaxName(front, item) {
          var i :| 0 <= i < |front| && front[i].key.item == item && front[i].name == MaxName(front, item).value;
          assert plays[i] == front[i];
        } else {
          assert plays[|plays| - 1].name == MaxName(plays, item).value;
        }
      }
    }
  }

  /** Only the plays of the item count. */
  lemma {:induction false} MaxNameOfSame(a: seq<Play>, b: seq<Play>, item: string)
    requires |a| == |b|
    requires forall i :: 0 <= i < |a| ==> (a[i].key.item == item <==> b[i].key.item == item)
    requires forall i :: 0 <= i < |a| && a[i].key.item == item ==> a[i].name == b[i].name
    ensures MaxName(a, item) == MaxName(b, item)
  {
    if a != [] {
      MaxNameOfSame(a[..|a| - 1], b[..|b| - 1], item);
    }
  }

  /** Cleaning the name of a title that was not found can bring another of its names to the top. It stirs
      the title again when that one is found, or is to be cleaned as well. */
  ghost predicate StirsAgain(plays: seq<Play>, lib: Library, item: string) {
    && Orphan(lib, item) && lib.kind(item) == Title && item !in lib.known && Target(plays, lib, item).None?
    && var next := LookupName(Linked(plays, lib), lib, item);
       (FindCurrent(lib, item, next).Some? || Cleaned(next, next) != next)
  }

  /** A name that was not found is not found when it has been cleaned, and stays as it is then. */
  lemma CleanedIsNotFound(lib: Library, item: string, name: string)
    requires FindCurrent(lib, item, name).None?
    ensures FindCurrent(lib, item, Cleaned(name, name)).None?
    ensures Cleaned(Cleaned(name, name), Cleaned(name, name)) == Cleaned(name, name)
  {
    R.CleaningTwice(name);
    hide R.Parse;
  }

  lemma SameLookup(plays: seq<Play>, lib: Library, item: string)
    requires FindsLive(lib) && Target(plays, lib, item).None? && Orphan(lib, item)
    requires item !in lib.known ==> lib.kind(item) == Episode
    ensures LookupName(Linked(plays, lib), lib, item) == LookupName(plays, lib, item)
  {
    if item !in lib.known {
      var plays' := Linked(plays, lib);
      forall i | 0 <= i < |plays|
        ensures plays'[i].key.item == item <==> plays[i].key.item == item
        ensures plays[i].key.item == item ==> plays'[i].name == plays[i].name
      {
        WhereItIs(plays, lib, i);
      }
      hide Linked;
      MaxNameOfSame(plays, plays', item);
    }
  }

  lemma CleanedOnce(name: string, looked: string)
    ensures Cleaned(Cleaned(name, looked), looked) == Cleaned(name, looked)
  {
    hide R.Parse;
  }

  lemma StaysPut(plays: seq<Play>, lib: Library, i: nat)
    requires i < |plays| && FindsLive(lib) && !StirsAgain(plays, lib, plays[i].key.item)
    ensures Linked(Linked(plays, lib), lib)[i] == Linked(plays, lib)[i]
  {
    var plays', item := Linked(plays, lib), plays[i].key.item;
    var looked := LookupName(plays, lib, item);
    WhereItIs(plays, lib, i);
    if Target(plays, lib, item).None? && Orphan(lib, item) {
      if lib.kind(item) == Episode || item in lib.known {
        SameLookup(plays, lib, item);
        CleanedOnce(plays[i].name, looked);
      }
    }
    hide Cleaned, FindCurrent, FindsLive, LookupName, MaxName;
  }

  lemma Stirred(plays: seq<Play>, lib: Library, i: nat)
    requires i < |plays| && FindsLive(lib) && StirsAgain(plays, lib, plays[i].key.item)
    ensures Linked(Linked(plays, lib), lib) != Linked(plays, lib)
  {
    var plays', item := Linked(plays, lib), plays[i].key.item;
    WhereItIs(plays, lib, i);
    MaxNameIsOne(plays', item);
    var next := LookupName(plays', lib, item);
    var j :| 0 <= j < |plays'| && plays'[j].key.item == item && plays'[j].name == next;
    if Target(plays', lib, item).Some? {
      WhereItIs(plays', lib, j);
    }
    hide Cleaned, FindCurrent, FindsLive, LookupName, MaxName;
    assert Linked(plays', lib)[j] != plays'[j];
  }

  /** A second linking changes nothing exactly when no title is stirred again. */
  lemma LinkingTwice(plays: seq<Play>, lib: Library)
    requires FindsLive(lib)
    ensures Linked(Linked(plays, lib), lib) == Linked(plays, lib)
            <==> forall i :: 0 <= i < |plays| ==> !StirsAgain(plays, lib, plays[i].key.item)
  {
    hide StirsAgain, Linked;
    if i :| 0 <= i < |plays| && StirsAgain(plays, lib, plays[i].key.item) {
      Stirred(plays, lib, i);
    } else {
      forall i | 0 <= i < |plays| ensures Linked(Linked(plays, lib), lib)[i] == Linked(plays, lib)[i] {
        StaysPut(plays, lib, i);
      }
    }
  }

  ghost predicate OneName(plays: seq<Play>, item: string) {
    forall i, j :: 0 <= i < |plays| && 0 <= j < |plays| && plays[i].key.item == item && plays[j].key.item == item ==>
      plays[i].name == plays[j].name
  }

  /** And none is when the plays of each title that has no live item and is not remembered all carry one
      name. */
  lemma OneNameEach(plays: seq<Play>, lib: Library)
    requires FindsLive(lib)
    requires forall item :: Orphan(lib, item) && item !in lib.known ==> OneName(plays, item)
    ensures Linked(Linked(plays, lib), lib) == Linked(plays, lib)
  {
    forall i | 0 <= i < |plays| ensures !StirsAgain(plays, lib, plays[i].key.item) {
      var item := plays[i].key.item;
      if Orphan(lib, item) && lib.kind(item) == Title && item !in lib.known && Target(plays, lib, item).None? {
        NextIsCleaned(plays, lib, i);
        CleanedIsNotFound(lib, item, LookupName(plays, lib, item));
      }
    }
    LinkingTwice(plays, lib);
  }

  lemma NextIsCleaned(plays: seq<Play>, lib: Library, i: nat)
    requires i < |plays| && FindsLive(lib)
    requires var item := plays[i].key.item;
             && Orphan(lib, item) && lib.kind(item) == Title && item !in lib.known && Target(plays, lib, item).None?
             && forall j :: 0 <= j < |plays| && plays[j].key.item == item ==> plays[j].name == plays[i].name
    ensures var looked := LookupName(plays, lib, plays[i].key.item);
            LookupName(Linked(plays, lib), lib, plays[i].key.item) == Cleaned(looked, looked)
  {
    var plays', item := Linked(plays, lib), plays[i].key.item;
    MaxNameIsOne(plays, item);
    MaxNameIsOne(plays', item);
    WhereItIs(plays, lib, i);
    var j :| 0 <= j < |plays'| && plays'[j].key.item == item && plays'[j].name == LookupName(plays', lib, item);
    WhereItIs(plays, lib, j);
    hide Cleaned, FindCurrent, FindsLive, MaxName;
  }

  // ------------------------------------------------------------------ a title that is stirred again

  function IsTitle(item: string): Kind {
    Title
  }

  function NoId(item: string, id: R.ProviderId): Option<string> {
    None
  }

  function OnlyFilm(item: string, name: string): Option<string> {
    if name == "Film" then Some("film") else None
  }

  function Itself(item: string): string {
    item
  }

  const FILMS: Library := Library({"film"}, map[], IsTitle, NoId, OnlyFilm, Itself)

  const TWO_NAMES: seq<Play> :=
    [ Play(1, None, PlayKey("alice", "x", 1000), "[tmdbid-9] Alpha", false, 0),
      Play(2, None, PlayKey("bob", "x", 2000), "Film", false, 0) ]

  lemma PlainWord(word: string)
    requires word != [] && !R.HasBlank(word) && R.Without(word, '[')
    ensures R.Parse(word) == R.Parsed(word, [])
  {
    hide R.Scan, R.Norm, R.Words, R.Join;
    R.NothingToScan(word, "");
    assert word + "" == word;
    R.NoBlanksInside(word);
    R.NormIsJoin(word);
  }

  lemma TmdbTag()
    ensures R.TagOf("tmdbid-9") == Some(R.ProviderId(R.Tmdb, "9"))
  {
    var inner := "tmdbid-9";
    var n := R.FindCut(inner, 0);
    assert n == 6 by {
      assert R.IsCut(inner[6]);
      assert forall i :: 0 <= i < 6 ==> !R.IsCut(inner[i]);
    }
    assert inner[..6] == "tmdbid" && inner[7..] == "9";
    assert R.Trim("tmdbid") == "tmdbid" && R.Trim("9") == "9";
    AlreadyLower("tmdbid");
  }

  lemma AlreadyLower(s: string)
    requires forall i :: 0 <= i < |s| ==> !('A' <= s[i] <= 'Z')
    ensures R.Lower(s) == s
  {
  }

  lemma TagThenBlank()
    ensures R.Scan("[tmdbid-9] Alpha") == R.Scanned(" Alpha", [R.ProviderId(R.Tmdb, "9")])
  {
    hide R.Scan, R.TagOf, R.Find;
    var raw, inner, after := "[tmdbid-9] Alpha", "tmdbid-9", " Alpha";
    R.FoundAt(raw, '[', 0, 0);
    R.FoundAt(raw, ']', 0, 9);
    assert raw[1..9] == inner && raw[10..] == after && raw[..0] == "";
    TmdbTag();
    R.ScanTurn(raw, 0, 9);
    R.NothingToScan(after, "");
    assert after + "" == after && "" + after == after;
  }

  lemma TagThenWord()
    ensures R.Parse("[tmdbid-9] Alpha") == R.Parsed("Alpha", [R.ProviderId(R.Tmdb, "9")])
  {
    hide R.Scan, R.Words, R.Join;
    TagThenBlank();
    R.NormIsJoin(" Alpha");
    assert " Alpha"[1..] == "Alpha";
    R.NoBlanksInside("Alpha");
  }

  lemma FilmIsAfterAlpha()
    ensures NotAfter("Film", "[tmdbid-9] Alpha") && !NotAfter("[tmdbid-9] Alpha", "Film")
    ensures NotAfter("Alpha", "Film") && !NotAfter("Film", "Alpha")
  {
  }

  lemma TheGreaterName(a: Play, b: Play)
    requires a.key.item == b.key.item
    ensures MaxName([a, b], a.key.item) == Some(if NotAfter(a.name, b.name) then b.name else a.name)
  {
    assert [a, b][..1] == [a];
    assert [a][..0] == [];
    assert MaxName([a], a.key.item) == Some(a.name);
  }

  lemma LinkedPair(a: Play, b: Play, lib: Library, looked: string)
    requires a.key.item == b.key.item && Orphan(lib, a.key.item) && lib.kind(a.key.item) == Title
    requires a.key.item !in lib.known
    requires looked == if NotAfter(a.name, b.name) then b.name else a.name
    ensures Target([a, b], lib, a.key.item) == FindCurrent(lib, a.key.item, looked)
    ensures FindCurrent(lib, a.key.item, looked).None? ==>
              Linked([a, b], lib) == [a.(name := Cleaned(a.name, looked)), b.(name := Cleaned(b.name, looked))]
    ensures FindCurrent(lib, a.key.item, looked).Some? ==>
              && |Linked([a, b], lib)| == 2
              && Linked([a, b], lib)[0].key.item == FindCurrent(lib, a.key.item, looked).value
  {
    hide FindCurrent, Cleaned, NotAfter;
    TheGreaterName(a, b);
  }

  lemma {:induction false} NoIdIsFound(ids: seq<R.ProviderId>)
    ensures ByIds(FILMS, "x", ids).None?
  {
    if ids != [] {
      NoIdIsFound(ids[1..]);
    }
  }

  lemma TwoLookups()
    ensures FindCurrent(FILMS, "x", "[tmdbid-9] Alpha").None? && FindCurrent(FILMS, "x", "Film") == Some("film")
    ensures Cleaned("[tmdbid-9] Alpha", "[tmdbid-9] Alpha") == "Alpha" && Cleaned("Film", "[tmdbid-9] Alpha") == "Film"
  {
    hide R.Parse, ByIds;
    TagThenWord();
    PlainWord("Film");
    NoIdIsFound([R.ProviderId(R.Tmdb, "9")]);
    NoIdIsFound([]);
  }

  /** Two plays of one title, which is neither live nor remembered. By "[tmdbid-9] Alpha", the greater of
      its names, it is not found, and that name is cleaned; then "Film" is the greater one, and a second
      linking moves both plays. */
  lemma LinkingAgainCanMove()
    ensures FindsLive(FILMS)
    ensures var once := Linked(TWO_NAMES, FILMS);
            && Target(TWO_NAMES, FILMS, "x").None?
            && once == [TWO_NAMES[0].(name := "Alpha"), TWO_NAMES[1]]
            && Target(once, FILMS, "x") == Some("film")
            && Linked(once, FILMS) != once
  {
    TwoLookups();
    FilmIsAfterAlpha();
    hide R.Parse, NotAfter, FindCurrent, Cleaned, Linked, Target;
    var a, b := TWO_NAMES[0], TWO_NAMES[1];
    LinkedPair(a, b, FILMS, "[tmdbid-9] Alpha");
    LinkedPair(a.(name := "Alpha"), b, FILMS, "Film");
  }
}
