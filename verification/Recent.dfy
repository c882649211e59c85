/** What arrived lately, folded into at most `limit` entries without reading more than it must
    (`fold` in src/recent.rs). */
module Recent {
  import opened Options

  /** A calendar day, as its number: the dates compare as their numbers do. */
  datatype Added = Added(id: string, isEpisode: bool, series: Option<string>, day: int, season: Option<int>)

  /** Episodes of one show on one day are one entry; everything else is an entry of its own. */
  datatype Key = EpisodesOf(series: string, day: int) | Itself(id: string)

  datatype Entry = Entry(newest: Added, episodes: int, seasons: seq<Option<int>>)

  function KeyOf(a: Added): Key {
    if a.series.Some? && a.isEpisode then EpisodesOf(a.series.value, a.day) else Itself(a.id)
  }

  /** Two additions share an entry exactly when they are episodes of one series that came on one day, or one and
      the same item. */
  lemma OneEntryExactly(a: Added, b: Added)
    ensures KeyOf(a) == KeyOf(b) <==>
              if a.isEpisode && a.series != None && b.isEpisode && b.series != None
              then a.series == b.series && a.day == b.day
              else a.id == b.id && !(a.isEpisode && a.series != None) && !(b.isEpisode && b.series != None)
  {
  }

  // ------------------------------------------------------------------ the full group-by

  /** Where the entry for `key` is, or the length when there is none. */
  function Find(entries: seq<Entry>, key: Key): (i: nat)
    ensures i <= |entries|
    ensures i < |entries| ==> KeyOf(entries[i].newest) == key
  {
    if entries == [] then 0
    else if KeyOf(entries[0].newest) == key then 0
    else 1 + Find(entries[1..], key)
  }

  function Joined(e: Entry, a: Added): Entry {
    e.(episodes := e.episodes + 1, seasons := if a.season in e.seasons then e.seasons else e.seasons + [a.season])
  }

  function First(a: Added): Entry {
    Entry(a, 1, [a.season])
  }

  function Put(entries: seq<Entry>, a: Added): seq<Entry> {
    var i := Find(entries, KeyOf(a));
    if i < |entries| then entries[i := Joined(entries[i], a)] else entries + [First(a)]
  }

  /** All of the first `n` additions grouped, in order of first appearance. */
  function Grouped(rows: seq<Added>, n: nat): seq<Entry>
    requires n <= |rows|
  {
    if n == 0 then [] else Put(Grouped(rows, n - 1), rows[n - 1])
  }

  // ------------------------------------------------------------------ what the groups are

  function CountOf(rows: seq<Added>, n: nat, key: Key): nat
    requires n <= |rows|
  {
    if n == 0 then 0 else CountOf(rows, n - 1, key) + if KeyOf(rows[n - 1]) == key then 1 else 0
  }

  /** The seasons seen under a key, each once, in order of first appearance. */
  function SeasonsOf(rows: seq<Added>, n: nat, key: Key): seq<Option<int>>
    requires n <= |rows|
  {
    if n == 0 then []
    else
      var before := SeasonsOf(rows, n - 1, key);
      if KeyOf(rows[n - 1]) == key && rows[n - 1].season !in before then before + [rows[n - 1].season] else before
  }

  /** The first addition under a key. */
  function FirstOf(rows: seq<Added>, n: nat, key: Key): (k: nat)
    requires n <= |rows|
    ensures k <= n
    ensures k < n ==> KeyOf(rows[k]) == key
  {
    if n == 0 then 0
    else
      var k := FirstOf(rows, n - 1, key);
      if k < n - 1 then k else if KeyOf(rows[n - 1]) == key then n - 1 else n
  }

  lemma {:induction false} FindFinds(entries: seq<Entry>, key: Key)
    ensures forall k :: 0 <= k < Find(entries, key) ==> KeyOf(entries[k].newest) != key
  {
    if entries != [] && KeyOf(entries[0].newest) != key {
      FindFinds(entries[1..], key);
    }
  }

  ghost predicate EntryHolds(rows: seq<Added>, n: nat, e: Entry)
    requires n <= |rows|
  {
    var key := KeyOf(e.newest);
    && e.episodes == CountOf(rows, n, key) > 0
    && e.seasons == SeasonsOf(rows, n, key)
    && FirstOf(rows, n, key) < n && e.newest == rows[FirstOf(rows, n, key)]
  }

  /** Every entry is its key's: opened by the first addition under it, counting every one of them,
      listing their seasons; entries come in order of first appearance, so one to a key; and every
      addition has its entry. */
  ghost predicate AreTheGroups(rows: seq<Added>, n: nat, g: seq<Entry>)
    requires n <= |rows|
  {
    && (forall i :: 0 <= i < |g| ==> EntryHolds(rows, n, g[i]))
    && (forall i, j :: 0 <= i < j < |g| ==> FirstOf(rows, n, KeyOf(g[i].newest)) < FirstOf(rows, n, KeyOf(g[j].newest)))
    && (forall k :: 0 <= k < n ==> Find(g, KeyOf(rows[k])) < |g|)
  }

  lemma {:induction false} NotThere(rows: seq<Added>, n: nat, key: Key)
    requires n <= |rows|
    requires forall k :: 0 <= k < n ==> KeyOf(rows[k]) != key
    ensures CountOf(rows, n, key) == 0 && SeasonsOf(rows, n, key) == [] && FirstOf(rows, n, key) == n
  {
    if n > 0 {
      NotThere(rows, n - 1, key);
    }
  }

  lemma OtherEntryHolds(rows: seq<Added>, n: nat, e: Entry)
    requires n < |rows| && EntryHolds(rows, n, e) && KeyOf(rows[n]) != KeyOf(e.newest)
    ensures EntryHolds(rows, n + 1, e)
    ensures FirstOf(rows, n + 1, KeyOf(e.newest)) == FirstOf(rows, n, KeyOf(e.newest))
  {
  }

  lemma JoinedEntryHolds(rows: seq<Added>, n: nat, e: Entry)
    requires n < |rows| && EntryHolds(rows, n, e) && KeyOf(rows[n]) == KeyOf(e.newest)
    ensures EntryHolds(rows, n + 1, Joined(e, rows[n]))
    ensures FirstOf(rows, n + 1, KeyOf(e.newest)) == FirstOf(rows, n, KeyOf(e.newest))
  {
  }

  lemma FirstEntryHolds(rows: seq<Added>, n: nat)
    requires n < |rows|
    requires forall k :: 0 <= k < n ==> KeyOf(rows[k]) != KeyOf(rows[n])
    ensures EntryHolds(rows, n + 1, First(rows[n])) && FirstOf(rows, n + 1, KeyOf(rows[n])) == n
  {
    NotThere(rows, n, KeyOf(rows[n]));
  }

  lemma {:induction false} FindIn(entries: seq<Entry>, key: Key, i: nat)
    requires i < |entries| && KeyOf(entries[i].newest) == key
    ensures Find(entries, key) <= i
  {
    if i > 0 && KeyOf(entries[0].newest) != key {
      FindIn(entries[1..], key, i - 1);
    }
  }

  lemma PutKeepsKeys(entries: seq<Entry>, a: Added)
    ensures |Put(entries, a)| >= |entries|
    ensures forall i :: 0 <= i < |entries| ==> Put(entries, a)[i].newest == entries[i].newest
    ensures Find(Put(entries, a), KeyOf(a)) < |Put(entries, a)|
    ensures forall key :: Find(entries, key) < |entries| ==> Find(Put(entries, a), key) < |Put(entries, a)|
  {
    var after, i := Put(entries, a), Find(entries, KeyOf(a));
    FindIn(after, KeyOf(a), i);
    forall key | Find(entries, key) < |entries| ensures Find(after, key) < |after| {
      FindIn(after, key, Find(entries, key));
    }
  }

  lemma PutAt(rows: seq<Added>, n: nat, g: seq<Entry>, i: nat)
    requires n < |rows| && AreTheGroups(rows, n, g) && i < |g|
    ensures i < |Put(g, rows[n])| && EntryHolds(rows, n + 1, Put(g, rows[n])[i])
    ensures FirstOf(rows, n + 1, KeyOf(Put(g, rows[n])[i].newest)) == FirstOf(rows, n, KeyOf(g[i].newest)) < n
  {
    var a := rows[n];
    if KeyOf(g[i].newest) == KeyOf(a) {
      FindIn(g, KeyOf(a), i);
      SameKeySamePlace(rows, n, g, Find(g, KeyOf(a)), i);
      JoinedEntryHolds(rows, n, g[i]);
    } else {
      OtherEntryHolds(rows, n, g[i]);
    }
  }

  lemma SameKeySamePlace(rows: seq<Added>, n: nat, g: seq<Entry>, i: nat, j: nat)
    requires n <= |rows| && AreTheGroups(rows, n, g) && i < |g| && j < |g|
    requires KeyOf(g[i].newest) == KeyOf(g[j].newest)
    ensures i == j
  {
    hide EntryHolds, FirstOf, Find;
  }

  lemma PutKeepsGroups(rows: seq<Added>, n: nat, g: seq<Entry>)
    requires n < |rows| && AreTheGroups(rows, n, g)
    ensures AreTheGroups(rows, n + 1, Put(g, rows[n]))
  {
    var after := Put(g, rows[n]);
    PutKeepsKeys(g, rows[n]);
    forall i | 0 <= i < |g|
      ensures EntryHolds(rows, n + 1, after[i])
      ensures FirstOf(rows, n + 1, KeyOf(after[i].newest)) == FirstOf(rows, n, KeyOf(g[i].newest)) < n
    {
      PutAt(rows, n, g, i);
    }
    if |after| > |g| {
      FirstEntryHolds(rows, n);
    }
    hide EntryHolds, FirstOf;
    Assembled(rows, n, g, after);
  }

  lemma Assembled(rows: seq<Added>, n: nat, g: seq<Entry>, after: seq<Entry>)
    requires n < |rows| && AreTheGroups(rows, n, g) && |g| <= |after| <= |g| + 1
    requires forall i :: 0 <= i < |g| ==>
               && EntryHolds(rows, n + 1, after[i])
               && FirstOf(rows, n + 1, KeyOf(after[i].newest)) == FirstOf(rows, n, KeyOf(g[i].newest)) < n
    requires |after| > |g| ==>
               EntryHolds(rows, n + 1, after[|g|]) && FirstOf(rows, n + 1, KeyOf(after[|g|].newest)) == n
    requires forall key :: Find(g, key) < |g| ==> Find(after, key) < |after|
    requires Find(after, KeyOf(rows[n])) < |after|
    ensures AreTheGroups(rows, n + 1, after)
  {
    hide EntryHolds, FirstOf, Find, KeyOf;
  }

  lemma {:induction false} GroupsAreTheKeys(rows: seq<Added>, n: nat)
    requires n <= |rows|
    ensures AreTheGroups(rows, n, Grouped(rows, n))
  {
    hide AreTheGroups, Put;
    if n > 0 {
      GroupsAreTheKeys(rows, n - 1);
      PutKeepsGroups(rows, n - 1, Grouped(rows, n - 1));
    } else {
      NoGroups(rows);
    }
  }

  lemma NoGroups(rows: seq<Added>)
    ensures AreTheGroups(rows, 0, [])
  {
  }

  // ------------------------------------------------------------------ stopping early

  ghost predicate DaysDescend(rows: seq<Added>) {
    forall i, j :: 0 <= i < j < |rows| ==> rows[i].day >= rows[j].day
  }

  ghost predicate DistinctItems(rows: seq<Added>) {
    forall i, j :: 0 <= i < j < |rows| && KeyOf(rows[i]).Itself? && KeyOf(rows[j]).Itself? ==> rows[i].id != rows[j].id
  }

  function Take(g: seq<Entry>, limit: nat): seq<Entry> {
    if |g| <= limit then g else g[..limit]
  }

  lemma FindIs(entries: seq<Entry>, key: Key, i: nat)
    requires i <= |entries| && (i < |entries| ==> KeyOf(entries[i].newest) == key)
    requires forall k :: 0 <= k < i ==> KeyOf(entries[k].newest) != key
    ensures Find(entries, key) == i
  {
    hide Find;
    if i < |entries| {
      FindIn(entries, key, i);
    }
  }

  lemma FindInFront(g: seq<Entry>, limit: nat, key: Key)
    ensures Find(Take(g, limit), key) == if Find(g, key) < |Take(g, limit)| then Find(g, key) else |Take(g, limit)|
  {
    hide Find;
    FindFinds(g, key);
    FindIs(Take(g, limit), key, if Find(g, key) < |Take(g, limit)| then Find(g, key) else |Take(g, limit)|);
  }

  /** What one addition does to the first `limit` entries depends on those alone. */
  lemma PutInFront(g: seq<Entry>, limit: nat, a: Added)
    ensures var front := Take(g, limit);
            Take(Put(g, a), limit) ==
            if Find(front, KeyOf(a)) < |front| || |front| < limit then Put(front, a) else front
  {
    FindInFront(g, limit, KeyOf(a));
  }

  ghost predicate Listed(front: seq<Entry>, key: Key) {
    Find(front, key) < |front|
  }

  /** Reading on changes nothing once no later addition belongs to an entry of a full list. */
  lemma {:induction false} NothingMoreToRead(rows: seq<Added>, limit: nat, n: nat, m: nat)
    requires n <= m <= |rows|
    requires |Grouped(rows, n)| >= limit
    requires forall k :: n <= k < m ==> !Listed(Take(Grouped(rows, n), limit), KeyOf(rows[k]))
    ensures |Grouped(rows, m)| >= limit
    ensures Take(Grouped(rows, m), limit) == Take(Grouped(rows, n), limit)
    decreases m
  {
    hide Grouped, Find;
    if n < m {
      NothingMoreToRead(rows, limit, n, m - 1);
      GroupedOneMore(rows, m - 1);
      PutInFront(Grouped(rows, m - 1), limit, rows[m - 1]);
      assert !Listed(Take(Grouped(rows, n), limit), KeyOf(rows[m - 1]));
    }
  }

  /** The stop is sound: days never increase and items come once, so an addition from an older day
      than the last entry of a full list, that opens no entry on it, is followed by none that would
      join one. */
  lemma NothingLaterJoins(rows: seq<Added>, limit: nat, n: nat, k: nat)
    requires n <= k < |rows| && DaysDescend(rows) && DistinctItems(rows)
    requires var front := Take(Grouped(rows, n), limit);
             front != [] && rows[n].day < front[|front| - 1].newest.day && !Listed(front, KeyOf(rows[n]))
    ensures !Listed(Take(Grouped(rows, n), limit), KeyOf(rows[k]))
  {
    hide *;
    var g := Grouped(rows, n);
    var front, key := Take(g, limit), KeyOf(rows[k]);
    GroupsAreTheKeys(rows, n);
    if Listed(front, key) {
      var i := WhereListed(g, limit, key);
      var f := NewestIs(rows, n, g, i);
      var l := NewestIs(rows, n, g, |front| - 1);
      NewestInOrder(rows, n, g, i, |front| - 1);
      KeysClash(rows, f, l, n, k);
    }
  }

  lemma WhereListed(g: seq<Entry>, limit: nat, key: Key) returns (i: nat)
    requires Listed(Take(g, limit), key)
    ensures i < |Take(g, limit)| <= |g| && KeyOf(g[i].newest) == key
    ensures g[|Take(g, limit)| - 1] == Take(g, limit)[|Take(g, limit)| - 1]
  {
    i := Find(Take(g, limit), key);
  }

  /** Nothing from an older day repeats the key of something read before. */
  lemma KeysClash(rows: seq<Added>, f: nat, l: nat, n: nat, k: nat)
    requires f <= l < n <= k < |rows| && DaysDescend(rows) && DistinctItems(rows)
    requires rows[n].day < rows[l].day
    ensures KeyOf(rows[f]) != KeyOf(rows[k])
  {
  }

  lemma NewestIs(rows: seq<Added>, n: nat, g: seq<Entry>, i: nat) returns (f: nat)
    requires n <= |rows| && AreTheGroups(rows, n, g) && i < |g|
    ensures f == FirstOf(rows, n, KeyOf(g[i].newest)) < n && g[i].newest == rows[f]
  {
    f := FirstOf(rows, n, KeyOf(g[i].newest));
  }

  lemma NewestInOrder(rows: seq<Added>, n: nat, g: seq<Entry>, i: nat, j: nat)
    requires n <= |rows| && AreTheGroups(rows, n, g) && i <= j < |g|
    ensures FirstOf(rows, n, KeyOf(g[i].newest)) <= FirstOf(rows, n, KeyOf(g[j].newest))
  {
    hide FirstOf, EntryHolds, Find;
  }

  // ------------------------------------------------------------------ the fold

  /** `index` knows where every listed entry is, and nothing else. */
  ghost predicate Indexed(index: map<Key, nat>, order: seq<Entry>) {
    && (forall key :: key in index <==> Find(order, key) < |order|)
    && (forall key :: key in index ==> index[key] == Find(order, key))
  }

  /** However early it stops, the result is exactly the first `limit` groups of everything there is.
      `read` is how many additions were looked at. */
  method Fold(rows: seq<Added>, limit: nat) returns (order: seq<Entry>, read: nat)
    requires DaysDescend(rows) && DistinctItems(rows)
    ensures order == Take(Grouped(rows, |rows|), limit)
    ensures read <= |rows|
    ensures read < |rows| ==> |order| == limit > 0 && rows[read].day < order[|order| - 1].newest.day
  {
    hide Grouped, DaysDescend, DistinctItems, Indexed;
    order, read := [], 0;
    var index: map<Key, nat> := map[];
    NothingYet(rows, limit);
    while read < |rows|
      invariant read <= |rows|
      invariant order == Take(Grouped(rows, read), limit)
      invariant Indexed(index, order)
    {
      var a := rows[read];
      var key := KeyOf(a);
      IndexedAt(index, order, key);
      GroupedOneMore(rows, read);
      PutInFront(Grouped(rows, read), limit, a);
      IndexedPut(index, order, a);
      if key in index {
        order := order[index[key] := Joined(order[index[key]], a)];
      } else if |order| < limit {
        index := index[key := |order|];
        order := order + [First(a)];
      } else if |order| > 0 && a.day < order[|order| - 1].newest.day {
        forall k | read <= k < |rows| ensures !Listed(Take(Grouped(rows, read), limit), KeyOf(rows[k])) {
          NothingLaterJoins(rows, limit, read, k);
        }
        NothingMoreToRead(rows, limit, read, |rows|);
        return;
      }
      read := read + 1;
    }
  }

  lemma NothingYet(rows: seq<Added>, limit: nat)
    ensures Take(Grouped(rows, 0), limit) == [] && Indexed(map[], [])
  {
  }

  lemma GroupedOneMore(rows: seq<Added>, n: nat)
    requires n < |rows|
    ensures Grouped(rows, n + 1) == Put(Grouped(rows, n), rows[n])
  {
  }

  lemma IndexedAt(index: map<Key, nat>, order: seq<Entry>, key: Key)
    requires Indexed(index, order)
    ensures key in index <==> Find(order, key) < |order|
    ensures key in index ==> index[key] == Find(order, key)
  {
  }

  lemma FindAfterPut(order: seq<Entry>, a: Added, key: Key)
    ensures Find(Put(order, a), key) ==
            if Find(order, key) < |order| then Find(order, key)
            else if key == KeyOf(a) then |order| else |Put(order, a)|
  {
    hide Find;
    FindFinds(order, key);
    FindIs(Put(order, a), key, if Find(order, key) < |order| then Find(order, key)
                               else if key == KeyOf(a) then |order| else |Put(order, a)|);
  }

  lemma IndexedPut(index: map<Key, nat>, order: seq<Entry>, a: Added)
    requires Indexed(index, order)
    ensures Indexed(if KeyOf(a) in index then index else index[KeyOf(a) := |order|], Put(order, a))
  {
    hide Find;
    forall key: Key {
      FindAfterPut(order, a, key);
    }
  }
}
