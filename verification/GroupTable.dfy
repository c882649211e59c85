/** The `group_id` column: recomputed for one item, or for everything, by streaming the plays in
    item order and clustering each item's batch (`detect` in src/groups.rs). */
module GroupTable {
  import opened Options
  import opened Groups

  datatype Play = Play(item: string, row: Row, group: Option<int>)

  function ItemRows(table: seq<Play>, item: string): seq<Row> {
    if table == [] then []
    else
      var last := table[|table| - 1];
      ItemRows(table[..|table| - 1], item) + if last.item == item then [last.row] else []
  }

  /** What a list of updates, done in order, last leaves at `id`. */
  function LookupIn(pairs: seq<(int, int)>, id: int): Option<int> {
    if pairs == [] then None
    else if pairs[|pairs| - 1].0 == id then Some(pairs[|pairs| - 1].1)
    else LookupIn(pairs[..|pairs| - 1], id)
  }

  /** The group a play should have: its item's plays clustered on their own. */
  function Expected(table: seq<Play>, window: int, p: Play): Option<int> {
    var rows := ItemRows(table, p.item);
    LookupIn(Assigned(rows, window, |rows|), p.row.id)
  }

  predicate Asked(only: Option<string>, item: string) {
    only == None || only == Some(item)
  }

  function Recomputed(table: seq<Play>, window: int, only: Option<string>): (after: seq<Play>)
    ensures |after| == |table|
  {
    seq(|table|, k requires 0 <= k < |table| =>
      if Asked(only, table[k].item) then table[k].(group := Expected(table, window, table[k])) else table[k])
  }

  ghost predicate InPieces(table: seq<Play>) {
    forall i, j, k :: 0 <= i < j < k < |table| && table[i].item == table[k].item ==> table[j].item == table[i].item
  }

  ghost predicate DistinctPlays(table: seq<Play>) {
    forall i, k :: 0 <= i < k < |table| ==> table[i].row.id != table[k].row.id
  }

  /** The plays as the query lists them: item by item, in start order, under ids of their own. */
  ghost predicate Listed(table: seq<Play>) {
    && InPieces(table)
    && (forall i, k :: 0 <= i < k < |table| && table[i].item == table[k].item ==>
         table[i].row.start <= table[k].row.start)
    && DistinctPlays(table)
  }

  ghost predicate Right(table: seq<Play>, window: int, item: string) {
    forall k :: 0 <= k < |table| && table[k].item == item ==> table[k].group == Expected(table, window, table[k])
  }

  // ------------------------------------------------------------------ one item is enough

  ghost predicate SamePlays(a: seq<Play>, b: seq<Play>) {
    |a| == |b| && forall k :: 0 <= k < |a| ==> a[k].item == b[k].item && a[k].row == b[k].row
  }

  lemma {:induction false} GroupsDoNotMatter(a: seq<Play>, b: seq<Play>, item: string)
    requires SamePlays(a, b)
    ensures ItemRows(a, item) == ItemRows(b, item)
  {
    if a != [] {
      GroupsDoNotMatter(a[..|a| - 1], b[..|b| - 1], item);
    }
  }

  /** In a table already right for every other item, recomputing one item gives the same column as
      recomputing everything. */
  lemma OneItemIsEnough(table: seq<Play>, window: int, item: string)
    requires forall k :: 0 <= k < |table| && table[k].item != item ==> Right(table, window, table[k].item)
    ensures Recomputed(table, window, Some(item)) == Recomputed(table, window, None)
  {
    hide Expected;
    forall k | 0 <= k < |table|
      ensures Recomputed(table, window, Some(item))[k] == Recomputed(table, window, None)[k]
    {
    }
  }

  /** Recomputing leaves the column right wherever it looked, and a second run changes nothing. */
  lemma SecondRunChangesNothing(table: seq<Play>, window: int, only: Option<string>)
    ensures var once := Recomputed(table, window, only);
            && Recomputed(once, window, only) == once
            && forall item :: Asked(only, item) ==> Right(once, window, item)
  {
    var once := Recomputed(table, window, only);
    forall k | 0 <= k < |table| ensures Expected(once, window, once[k]) == Expected(table, window, table[k]) {
      GroupsDoNotMatter(table, once, table[k].item);
    }
    hide Expected;
    assert Recomputed(once, window, only) == once;
  }

  function Others(table: seq<Play>, item: string): seq<Play> {
    if table == [] then []
    else
      var last := table[|table| - 1];
      Others(table[..|table| - 1], item) + if last.item != item then [last] else []
  }

  lemma {:induction false} OthersMembers(table: seq<Play>, item: string)
    ensures forall p :: p in Others(table, item) <==> p in table && p.item != item
  {
    if table != [] {
      assert table == table[..|table| - 1] + [table[|table| - 1]];
      OthersMembers(table[..|table| - 1], item);
    }
  }

  lemma {:induction false} OthersRows(table: seq<Play>, item: string, other: string)
    requires other != item
    ensures ItemRows(Others(table, item), other) == ItemRows(table, other)
  {
    if table != [] {
      var front, last := Others(table[..|table| - 1], item), table[|table| - 1];
      OthersRows(table[..|table| - 1], item, other);
      assert (front + [last])[..|front + [last]| - 1] == front && front + [] == front;
    }
  }

  lemma OthersStayRight(before: seq<Play>, after: seq<Play>, window: int, item: string, other: string)
    requires other != item && Right(before, window, other)
    requires Others(before, item) == Others(after, item)
    ensures Right(after, window, other)
  {
    OthersRows(before, item, other);
    OthersRows(after, item, other);
    OthersMembers(before, item);
    OthersMembers(after, item);
    hide ItemRows, Assigned, LookupIn, Others;
    forall m | 0 <= m < |after| && after[m].item == other
      ensures after[m].group == Expected(after, window, after[m])
    {
      assert after[m] in Others(after, item);
      var k :| 0 <= k < |before| && before[k] == after[m];
    }
  }

  /** So after plays of one item were added, changed or dropped, and nothing else was touched,
      recomputing that item alone brings the whole column up to date. */
  lemma EditThenRegroup(before: seq<Play>, after: seq<Play>, window: int, item: string)
    requires forall other :: other != item ==> Right(before, window, other)
    requires Others(before, item) == Others(after, item)
    ensures Recomputed(after, window, Some(item)) == Recomputed(after, window, None)
  {
    forall k | 0 <= k < |after| && after[k].item != item
      ensures Right(after, window, after[k].item)
    {
      OthersStayRight(before, after, window, item, after[k].item);
    }
    hide *;
    OneItemIsEnough(after, window, item);
  }

  // ------------------------------------------------------------------ the column means the groups

  lemma {:induction false} LookupMisses(pairs: seq<(int, int)>, id: int)
    requires forall q :: q in pairs ==> q.0 != id
    ensures LookupIn(pairs, id) == None
  {
    if pairs != [] {
      assert pairs[|pairs| - 1] in pairs;
      LookupMisses(pairs[..|pairs| - 1], id);
    }
  }

  lemma {:induction false} LookupInBoth(a: seq<(int, int)>, b: seq<(int, int)>, id: int)
    ensures LookupIn(a + b, id) == if LookupIn(b, id).Some? then LookupIn(b, id) else LookupIn(a, id)
  {
    if b == [] {
      assert a + b == a;
    } else {
      assert (a + b)[..|a + b| - 1] == a + b[..|b| - 1];
      LookupInBoth(a, b[..|b| - 1], id);
    }
  }

  lemma {:induction false} AssignedIds(rows: seq<Row>, window: int, n: nat)
    requires n <= |rows|
    ensures forall q :: q in Assigned(rows, window, n) ==> exists k :: 0 <= k < n && rows[k].id == q.0
  {
    hide GroupOf;
    if n > 0 {
      AssignedIds(rows, window, n - 1);
    }
  }

  lemma {:induction false} AssignedMeans(rows: seq<Row>, window: int, n: nat)
    requires n <= |rows| && DistinctIds(rows)
    ensures forall k :: 0 <= k < n ==> LookupIn(Assigned(rows, window, n), rows[k].id) == GroupOf(rows, window, k)
    ensures forall q :: q in Assigned(rows, window, n) ==> LookupIn(Assigned(rows, window, n), q.0) == Some(q.1)
  {
    hide GroupOf;
    if n > 0 {
      AssignedMeans(rows, window, n - 1);
      AssignedIds(rows, window, n - 1);
      var front, id := Assigned(rows, window, n - 1), rows[n - 1].id;
      LookupMisses(front, id);
      if GroupOf(rows, window, n - 1).Some? {
        var all := front + [(id, GroupOf(rows, window, n - 1).value)];
        assert all[..|all| - 1] == front;
      } else {
        assert Assigned(rows, window, n) == front;
      }
    }
  }

  /** The column holds exactly the groups: play `k` of an item has the group its chain gives it. */
  lemma ColumnHoldsTheGroups(table: seq<Play>, window: int, p: Play, k: nat)
    requires DistinctIds(ItemRows(table, p.item))
    requires k < |ItemRows(table, p.item)| && ItemRows(table, p.item)[k] == p.row
    ensures Expected(table, window, p) == GroupOf(ItemRows(table, p.item), window, k)
  {
    hide GroupOf;
    var rows := ItemRows(table, p.item);
    AssignedMeans(rows, window, |rows|);
  }

  // ------------------------------------------------------------------ streaming the batches

  function Select(table: seq<Play>, only: Option<string>): seq<Play> {
    if table == [] then []
    else
      var last := table[|table| - 1];
      Select(table[..|table| - 1], only) + if Asked(only, last.item) then [last] else []
  }

  lemma {:induction false} SelectMembers(table: seq<Play>, only: Option<string>)
    ensures forall p :: p in Select(table, only) <==> p in table && Asked(only, p.item)
  {
    if table != [] {
      assert table == table[..|table| - 1] + [table[|table| - 1]];
      SelectMembers(table[..|table| - 1], only);
    }
  }

  lemma {:induction false} SelectRows(table: seq<Play>, only: Option<string>, item: string)
    requires Asked(only, item)
    ensures ItemRows(Select(table, only), item) == ItemRows(table, item)
  {
    if table != [] {
      var front, last := Select(table[..|table| - 1], only), table[|table| - 1];
      SelectRows(table[..|table| - 1], only, item);
      assert (front + [last])[..|front + [last]| - 1] == front && front + [] == front;
    }
  }

  lemma {:induction false} SelectAll(table: seq<Play>)
    ensures Select(table, None) == table
  {
    if table != [] {
      SelectAll(table[..|table| - 1]);
    }
  }

  lemma SelectOneListed(table: seq<Play>, item: string)
    requires Listed(table)
    ensures Listed(Select(table, Some(item)))
  {
    var sel := Select(table, Some(item));
    SelectMembers(table, Some(item));
    hide Select;
    forall i, k | 0 <= i < k < |sel|
      ensures sel[i].row.id != sel[k].row.id && sel[i].row.start <= sel[k].row.start
      ensures sel[i].item == sel[k].item == item
    {
      assert sel[i] in sel && sel[k] in sel;
      var a, b := SelectPositions(table, Some(item), i, k);
    }
  }

  /** What is selected is listed too: everything there is, or one item only. */
  lemma SelectListed(table: seq<Play>, only: Option<string>)
    requires Listed(table)
    ensures Listed(Select(table, only))
  {
    hide *;
    match only
    case None => SelectAll(table);
    case Some(item) => SelectOneListed(table, item);
  }

  lemma {:induction false} SelectPositions(table: seq<Play>, only: Option<string>, i: nat, j: nat)
      returns (a: nat, b: nat)
    requires i < j < |Select(table, only)|
    ensures a < b < |table| && Select(table, only)[i] == table[a] && Select(table, only)[j] == table[b]
  {
    var n := |table| - 1;
    var front := Select(table[..n], only);
    if j < |front| {
      a, b := SelectPositions(table[..n], only, i, j);
    } else {
      b := n;
      a := SelectPosition(table[..n], only, i);
    }
  }

  lemma {:induction false} SelectPosition(table: seq<Play>, only: Option<string>, i: nat) returns (a: nat)
    requires i < |Select(table, only)|
    ensures a < |table| && Select(table, only)[i] == table[a]
  {
    var n := |table| - 1;
    if i < |Select(table[..n], only)| {
      a := SelectPosition(table[..n], only, i);
    } else {
      a := n;
    }
  }

  function RowsOf(plays: seq<Play>): seq<Row> {
    seq(|plays|, k requires 0 <= k < |plays| => plays[k].row)
  }

  lemma {:induction false} RunIsTheItem(table: seq<Play>, item: string, lo: nat, hi: nat, n: nat)
    requires lo <= hi <= n <= |table|
    requires forall k :: 0 <= k < n ==> (table[k].item == item <==> lo <= k < hi)
    ensures ItemRows(table[..n], item) == RowsOf(table[lo..hi])
    decreases n
  {
    if n > 0 {
      assert table[..n][..n - 1] == table[..n - 1];
      if n == hi && lo < hi {
        RunIsTheItem(table, item, lo, hi - 1, n - 1);
        assert RowsOf(table[lo..hi]) == RowsOf(table[lo..hi - 1]) + [table[hi - 1].row];
      } else if n == hi {
        RunIsTheItem(table, item, n - 1, n - 1, n - 1);
      } else {
        RunIsTheItem(table, item, lo, hi, n - 1);
      }
    }
  }

  /** The first `n` rows are answered, and nothing else is. */
  ghost predicate Answered(sel: seq<Play>, window: int, pairs: seq<(int, int)>, n: nat)
    requires n <= |sel|
  {
    && (forall k :: 0 <= k < n ==> LookupIn(pairs, sel[k].row.id) == Expected(sel, window, sel[k]))
    && (forall q :: q in pairs ==> LookupIn(pairs, q.0) == Some(q.1) && exists k :: 0 <= k < n && sel[k].row.id == q.0)
  }

  lemma BatchIsTheItem(sel: seq<Play>, window: int, lo: nat, hi: nat, item: string)
    requires lo <= hi <= |sel|
    requires forall k :: 0 <= k < |sel| ==> (sel[k].item == item <==> lo <= k < hi)
    ensures var rows := RowsOf(sel[lo..hi]);
            forall k :: lo <= k < hi ==>
              Expected(sel, window, sel[k]) == LookupIn(Assigned(rows, window, |rows|), sel[k].row.id)
  {
    hide Assigned, LookupIn;
    assert sel[..|sel|] == sel;
    RunIsTheItem(sel, item, lo, hi, |sel|);
    hide ItemRows;
  }

  /** An item that has just ended never comes back. */
  lemma PieceEnds(sel: seq<Play>, lo: nat, i: nat, item: string)
    requires InPieces(sel) && lo <= i <= |sel| && i > 0 && sel[i - 1].item == item
    requires forall k :: 0 <= k < i ==> (sel[k].item == item <==> lo <= k)
    requires i < |sel| ==> sel[i].item != item
    ensures forall k :: 0 <= k < |sel| ==> (sel[k].item == item <==> lo <= k < i)
    ensures i < |sel| ==> forall k :: 0 <= k < i ==> sel[k].item != sel[i].item
  {
  }

  lemma FlushAnswers(sel: seq<Play>, window: int, pairs: seq<(int, int)>, lo: nat, hi: nat, item: string)
    requires lo <= hi <= |sel| && DistinctPlays(sel)
    requires forall k :: 0 <= k < |sel| ==> (sel[k].item == item <==> lo <= k < hi)
    requires Answered(sel, window, pairs, lo)
    ensures var rows := RowsOf(sel[lo..hi]);
            Answered(sel, window, pairs + Assigned(rows, window, |rows|), hi)
  {
    var rows := RowsOf(sel[lo..hi]);
    var more := Assigned(rows, window, |rows|);
    hide *;
    BatchIsTheItem(sel, window, lo, hi, item);
    PartAnswers(sel, window, lo, hi);
    AnswersJoin(sel, window, pairs, more, lo, hi);
  }

  lemma AnswersJoin(sel: seq<Play>, window: int, pairs: seq<(int, int)>, more: seq<(int, int)>, lo: nat, hi: nat)
    requires lo <= hi <= |sel| && DistinctPlays(sel)
    requires Answered(sel, window, pairs, lo)
    requires forall k :: lo <= k < hi ==> LookupIn(more, sel[k].row.id) == Expected(sel, window, sel[k])
    requires forall q :: q in more ==>
               LookupIn(more, q.0) == Some(q.1) && exists k :: lo <= k < hi && sel[k].row.id == q.0
    ensures Answered(sel, window, pairs + more, hi)
  {
    hide Expected, LookupIn;
    forall k | 0 <= k < hi
      ensures LookupIn(pairs + more, sel[k].row.id) == Expected(sel, window, sel[k])
    {
      LookupInBoth(pairs, more, sel[k].row.id);
      if k < lo {
        LookupMisses(more, sel[k].row.id);
      } else {
        LookupMisses(pairs, sel[k].row.id);
      }
    }
    forall q | q in pairs + more
      ensures LookupIn(pairs + more, q.0) == Some(q.1) && exists k :: 0 <= k < hi && sel[k].row.id == q.0
    {
      LookupInBoth(pairs, more, q.0);
      if q !in more {
        LookupMisses(more, q.0);
      }
    }
  }

  /** What one batch answers is about its own plays, and is functional. */
  lemma PartAnswers(sel: seq<Play>, window: int, lo: nat, hi: nat)
    requires lo <= hi <= |sel| && DistinctPlays(sel)
    ensures var rows := RowsOf(sel[lo..hi]);
            var more := Assigned(rows, window, |rows|);
            && (forall q :: q in more ==>
                 LookupIn(more, q.0) == Some(q.1) && exists k :: lo <= k < hi && sel[k].row.id == q.0)
            && (forall k :: lo <= k < hi ==> LookupIn(more, sel[k].row.id) == GroupOf(rows, window, k - lo))
  {
    hide LookupIn, GroupOf;
    var rows := RowsOf(sel[lo..hi]);
    var more := Assigned(rows, window, |rows|);
    assert DistinctIds(rows);
    AssignedMeans(rows, window, |rows|);
    AssignedIds(rows, window, |rows|);
    hide Assigned;
    assert forall k :: lo <= k < hi ==> rows[k - lo] == sel[k].row;
    forall q | q in more ensures exists k :: lo <= k < hi && sel[k].row.id == q.0 {
      var k :| 0 <= k < |rows| && rows[k].id == q.0;
      assert sel[lo + k].row.id == q.0;
    }
  }

  lemma AloneMeansNoGroup(rows: seq<Row>, window: int)
    requires |rows| <= 1
    ensures Assigned(rows, window, |rows|) == []
  {
    if |rows| == 1 {
      assert ChainOf(rows, window, 0) == rows;
    }
  }

  method Flush(batch: seq<Row>, window: int, pairs: seq<(int, int)>) returns (out: seq<(int, int)>)
    ensures out == pairs + Assigned(batch, window, |batch|)
  {
    out := pairs;
    if |batch| >= 2 {
      var found := Cluster(batch, window);
      out := out + found;
    } else {
      AloneMeansNoGroup(batch, window);
    }
  }

  /** Batch by batch, every selected play is answered as its item clustered on its own would be. */
  method Stream(sel: seq<Play>, window: int) returns (pairs: seq<(int, int)>)
    requires Listed(sel)
    ensures Answered(sel, window, pairs, |sel|)
  {
    hide Assigned, Expected, LookupIn, InPieces;
    pairs := [];
    var current: Option<string> := None;
    var batch: seq<Row> := [];
    ghost var lo := 0;
    for i := 0 to |sel|
      invariant lo <= i
      invariant current.None? ==> i == 0 && batch == []
      invariant current.Some? ==> i > 0 && sel[i - 1].item == current.value
      invariant current.Some? ==> forall k :: 0 <= k < i ==> (sel[k].item == current.value <==> lo <= k)
      invariant batch == RowsOf(sel[lo..i])
      invariant Answered(sel, window, pairs, lo)
    {
      var item := sel[i].item;
      if current != Some(item) {
        if current.Some? {
          PieceEnds(sel, lo, i, current.value);
          FlushAnswers(sel, window, pairs, lo, i, current.value);
        } else {
          AloneMeansNoGroup(batch, window);
        }
        pairs := Flush(batch, window, pairs);
        batch, lo := [], i;
        current := Some(item);
      }
      batch := batch + [sel[i].row];
    }
    if current.Some? {
      PieceEnds(sel, lo, |sel|, current.value);
      FlushAnswers(sel, window, pairs, lo, |sel|, current.value);
    } else {
      AloneMeansNoGroup(batch, window);
    }
    pairs := Flush(batch, window, pairs);
  }

  function Cleared(table: seq<Play>, only: Option<string>): seq<Play> {
    seq(|table|, k requires 0 <= k < |table| =>
      if Asked(only, table[k].item) then table[k].(group := None) else table[k])
  }

  function Set(table: seq<Play>, id: int, g: int): seq<Play> {
    seq(|table|, k requires 0 <= k < |table| => if table[k].row.id == id then table[k].(group := Some(g)) else table[k])
  }

  /** Clear the column where it is being recomputed, then write what was found, play by play. */
  method Update(was: seq<Play>, only: Option<string>, pairs: seq<(int, int)>) returns (table: seq<Play>)
    ensures |table| == |was|
    ensures forall k :: 0 <= k < |was| ==>
      table[k] == match LookupIn(pairs, was[k].row.id) {
        case Some(g) => was[k].(group := Some(g))
        case None => Cleared(was, only)[k]
      }
  {
    table := Cleared(was, only);
    for i := 0 to |pairs|
      invariant |table| == |was|
      invariant forall k :: 0 <= k < |was| ==>
        table[k] == match LookupIn(pairs[..i], was[k].row.id) {
          case Some(g) => was[k].(group := Some(g))
          case None => Cleared(was, only)[k]
        }
    {
      assert pairs[..i + 1][..i] == pairs[..i];
      table := Set(table, pairs[i].0, pairs[i].1);
    }
    assert pairs[..|pairs|] == pairs;
  }

  class Playbacks {
    /** Every play, in the order the query lists them. */
    var table: seq<Play>

    /** Bring the column up to date, for one item or for all of them, and count the groups. */
    method Detect(window: int, only: Option<string>) returns (groups: nat)
      requires Listed(table)
      modifies this
      ensures table == Recomputed(old(table), window, only)
      ensures groups == |set p | p in table && Asked(only, p.item) && p.group.Some? :: p.group.value|
    {
      hide *;
      SelectListed(table, only);
      var sel := Select(table, only);
      var pairs := Stream(sel, window);
      var updated := Update(table, only, pairs);
      groups := |set q | q in pairs :: q.1|;
      ColumnIsRecomputed(table, updated, window, only, pairs);
      table := updated;
    }
  }

  lemma ColumnIsRecomputed(was: seq<Play>, table: seq<Play>, window: int, only: Option<string>, pairs: seq<(int, int)>)
    requires Listed(was) && |table| == |was|
    requires Answered(Select(was, only), window, pairs, |Select(was, only)|)
    requires forall k :: 0 <= k < |was| ==>
      table[k] == match LookupIn(pairs, was[k].row.id) {
        case Some(g) => was[k].(group := Some(g))
        case None => Cleared(was, only)[k]
      }
    ensures table == Recomputed(was, window, only)
    ensures (set q | q in pairs :: q.1) == set p | p in table && Asked(only, p.item) && p.group.Some? :: p.group.value
  {
    hide Assigned, Select, LookupIn;
    forall k | 0 <= k < |was| ensures table[k] == Recomputed(was, window, only)[k] {
      CellIsRecomputed(was, window, only, pairs, k);
    }
    NamesAreTheColumn(was, table, window, only, pairs);
  }

  lemma CellIsRecomputed(was: seq<Play>, window: int, only: Option<string>, pairs: seq<(int, int)>, k: nat)
    requires Listed(was) && k < |was|
    requires Answered(Select(was, only), window, pairs, |Select(was, only)|)
    ensures Recomputed(was, window, only)[k] == match LookupIn(pairs, was[k].row.id) {
        case Some(g) => was[k].(group := Some(g))
        case None => Cleared(was, only)[k]
      }
  {
    hide Assigned, Select, LookupIn, ItemRows;
    var sel, p := Select(was, only), was[k];
    SelectMembers(was, only);
    if Asked(only, p.item) {
      SelectRows(was, only, p.item);
      assert p in sel;
      var m :| 0 <= m < |sel| && sel[m] == p;
      assert LookupIn(pairs, p.row.id) == Expected(sel, window, p);
    } else {
      forall q | q in pairs ensures q.0 != p.row.id {
        var m :| 0 <= m < |sel| && sel[m].row.id == q.0;
        assert sel[m] in sel;
        var i :| 0 <= i < |was| && was[i] == sel[m];
      }
      LookupMisses(pairs, p.row.id);
    }
  }

  lemma NamesAreTheColumn(was: seq<Play>, table: seq<Play>, window: int, only: Option<string>, pairs: seq<(int, int)>)
    requires |table| == |was|
    requires Answered(Select(was, only), window, pairs, |Select(was, only)|)
    requires forall k :: 0 <= k < |was| ==>
      table[k] == match LookupIn(pairs, was[k].row.id) {
        case Some(g) => was[k].(group := Some(g))
        case None => Cleared(was, only)[k]
      }
    ensures (set q | q in pairs :: q.1) == set p | p in table && Asked(only, p.item) && p.group.Some? :: p.group.value
  {
    hide Assigned, Select, LookupIn, Expected;
    var sel := Select(was, only);
    SelectMembers(was, only);
    var left, right := (set q | q in pairs :: q.1),
      (set p | p in table && Asked(only, p.item) && p.group.Some? :: p.group.value);
    forall q | q in pairs ensures q.1 in right {
      var m :| 0 <= m < |sel| && sel[m].row.id == q.0;
      assert sel[m] in sel;
      var k :| 0 <= k < |was| && was[k] == sel[m];
      assert table[k] in table;
    }
    forall p | p in table && Asked(only, p.item) && p.group.Some? ensures p.group.value in left {
      var k :| 0 <= k < |table| && table[k] == p;
      LookupFinds(pairs, was[k].row.id);
    }
  }

  lemma {:induction false} LookupFinds(pairs: seq<(int, int)>, id: int)
    ensures LookupIn(pairs, id).Some? ==> (id, LookupIn(pairs, id).value) in pairs
  {
    if pairs != [] {
      assert pairs == pairs[..|pairs| - 1] + [pairs[|pairs| - 1]];
      LookupFinds(pairs[..|pairs| - 1], id);
    }
  }

  // ------------------------------------------------------------------ what a reader of the table may rely on

  lemma {:induction false} ItemRowsAreSelected(table: seq<Play>, item: string)
    ensures ItemRows(table, item) == RowsOf(Select(table, Some(item)))
  {
    if table != [] {
      var front, last := Select(table[..|table| - 1], Some(item)), table[|table| - 1];
      ItemRowsAreSelected(table[..|table| - 1], item);
      assert RowsOf(front + [last]) == RowsOf(front) + [last.row];
    }
  }

  lemma ItemRowsListed(table: seq<Play>, item: string)
    requires Listed(table)
    ensures InStartOrder(ItemRows(table, item)) && DistinctIds(ItemRows(table, item))
  {
    hide Select, ItemRows, InPieces;
    SelectMembers(table, Some(item));
    SelectOneListed(table, item);
    ItemRowsAreSelected(table, item);
    assert forall k :: 0 <= k < |Select(table, Some(item))| ==>
             Select(table, Some(item))[k] in Select(table, Some(item));
  }

  /** Where play `i` stands among its item's plays. */
  function Rank(table: seq<Play>, i: nat): nat
    requires i < |table|
  {
    |ItemRows(table[..i], table[i].item)|
  }

  lemma {:induction false} RankIs(table: seq<Play>, i: nat)
    requires i < |table|
    ensures Rank(table, i) < |ItemRows(table, table[i].item)|
    ensures ItemRows(table, table[i].item)[Rank(table, i)] == table[i].row
  {
    var n := |table| - 1;
    if i < n {
      RankIs(table[..n], i);
      assert table[..n][..i] == table[..i];
    }
  }

  lemma {:induction false} RankGrows(table: seq<Play>, i: nat, j: nat)
    requires i < j < |table| && table[i].item == table[j].item
    ensures Rank(table, i) < Rank(table, j)
  {
    RankIs(table[..j], i);
    assert table[..j][..i] == table[..i];
  }

  lemma ColumnAt(table: seq<Play>, window: int, i: nat)
    requires Listed(table) && i < |table|
    ensures Rank(table, i) < |ItemRows(table, table[i].item)|
    ensures Recomputed(table, window, None)[i].group == GroupOf(ItemRows(table, table[i].item), window, Rank(table, i))
  {
    hide GroupOf, ItemRows, Rank, Listed;
    RankIs(table, i);
    ItemRowsListed(table, table[i].item);
    ColumnHoldsTheGroups(table, window, table[i], Rank(table, i));
  }

  /** From one play to the other, line by line, all are of one item, and no start is more than the window after
      the last. */
  ghost predicate InOneRun(table: seq<Play>, window: int, i: nat, j: nat)
    requires i < |table| && j < |table|
  {
    && table[i].item == table[j].item
    && forall m :: i < m <= j || j < m <= i ==>
         table[m].item == table[i].item && table[m].row.start - table[m - 1].row.start <= window
  }

  lemma {:induction false} RanksFollow(table: seq<Play>, i: nat, j: nat)
    requires Listed(table) && i <= j < |table| && table[i].item == table[j].item
    ensures Rank(table, j) == Rank(table, i) + (j - i)
    ensures forall m :: i <= m <= j ==> table[m].item == table[i].item
    decreases j
  {
    if i < j {
      assert table[j - 1].item == table[i].item;
      RanksFollow(table, i, j - 1);
      hide Listed;
      assert table[..j][..j - 1] == table[..j - 1];
    }
  }

  lemma StandsAt(table: seq<Play>, i: nat, m: nat, j: nat)
    requires Listed(table) && i <= m <= j < |table| && table[i].item == table[j].item
    ensures table[m].item == table[i].item && Rank(table, m) == Rank(table, i) + (m - i)
    ensures Rank(table, m) < |ItemRows(table, table[i].item)|
    ensures ItemRows(table, table[i].item)[Rank(table, m)] == table[m].row
  {
    RanksFollow(table, i, j);
    RanksFollow(table, i, m);
    RankIs(table, m);
    hide Rank, ItemRows, Listed;
  }

  lemma RunsAreChains(table: seq<Play>, window: int, i: nat, j: nat)
    requires Listed(table) && i <= j < |table| && table[i].item == table[j].item
    ensures var rows := ItemRows(table, table[i].item);
            && Rank(table, i) < |rows| && Rank(table, j) < |rows|
            && (InOneRun(table, window, i, j) <==> Connected(rows, window, Rank(table, i), Rank(table, j)))
            && (InOneRun(table, window, j, i) <==> Connected(rows, window, Rank(table, j), Rank(table, i)))
  {
    hide *;
    StandsAt(table, i, i, j);
    StandsAt(table, i, j, j);
    forall m | i <= m <= j
      ensures table[m].item == table[i].item
      ensures ItemRows(table, table[i].item)[Rank(table, i) + (m - i)] == table[m].row
    {
      StandsAt(table, i, m, j);
    }
    ShiftedRun(table, ItemRows(table, table[i].item), window, i, j, Rank(table, i));
  }

  lemma ShiftedRun(table: seq<Play>, rows: seq<Row>, window: int, i: nat, j: nat, r: nat)
    requires i <= j < |table| && r + (j - i) < |rows|
    requires forall m :: i <= m <= j ==> table[m].item == table[i].item && rows[r + (m - i)] == table[m].row
    ensures InOneRun(table, window, i, j) <==> Connected(rows, window, r, r + (j - i))
    ensures InOneRun(table, window, j, i) <==> Connected(rows, window, r + (j - i), r)
  {
    forall m | i < m <= j
      ensures rows[r + (m - i)].start - rows[r + (m - i) - 1].start == table[m].row.start - table[m - 1].row.start
    {
      assert rows[r + (m - i)] == table[m].row && rows[r + (m - 1 - i)] == table[m - 1].row;
    }
    forall n | r < n <= r + (j - i)
      ensures rows[n].start - rows[n - 1].start == table[i + (n - r)].row.start - table[i + (n - r) - 1].row.start
    {
      assert rows[r + (i + (n - r) - i)] == table[i + (n - r)].row;
      assert rows[r + (i + (n - r) - 1 - i)] == table[i + (n - r) - 1].row;
    }
    if Connected(rows, window, r, r + (j - i)) || Connected(rows, window, r + (j - i), r) {
      forall m | i < m <= j ensures table[m].row.start - table[m - 1].row.start <= window {
        assert rows[r + (m - i)].start - rows[r + (m - i) - 1].start <= window;
      }
    }
    if InOneRun(table, window, i, j) || InOneRun(table, window, j, i) {
      forall n | r < n <= r + (j - i) ensures rows[n].start - rows[n - 1].start <= window {
        assert table[i + (n - r)].row.start - table[i + (n - r) - 1].row.start <= window;
      }
    }
  }

  lemma RunsAndChains(table: seq<Play>, window: int, i: nat, j: nat)
    requires Listed(table) && i < |table| && j < |table| && table[i].item == table[j].item
    ensures var rows := ItemRows(table, table[i].item);
            && Rank(table, i) < |rows| && Rank(table, j) < |rows|
            && (InOneRun(table, window, i, j) <==> Connected(rows, window, Rank(table, i), Rank(table, j)))
  {
    hide *;
    if i <= j {
      RunsAreChains(table, window, i, j);
    } else {
      RunsAreChains(table, window, j, i);
    }
  }

  /** The play that stands at a place among its item's plays. */
  lemma PlayAt(table: seq<Play>, item: string, k: nat) returns (j: nat)
    requires Listed(table) && k < |ItemRows(table, item)|
    ensures j < |table| && table[j].item == item && Rank(table, j) == k && table[j].row == ItemRows(table, item)[k]
  {
    hide ItemRows, Rank, Listed, Select;
    ItemRowsAreSelected(table, item);
    SelectMembers(table, Some(item));
    var p := Select(table, Some(item))[k];
    assert p in Select(table, Some(item));
    var at :| 0 <= at < |table| && table[at] == p;
    j := at;
    RankIs(table, j);
    ItemRowsListed(table, item);
    assert ItemRows(table, item)[k] == p.row;
  }

  /** After a full run a play carries a group exactly when it is in one run with a play by somebody else with
      whom it shared two minutes. */
  lemma GroupedPlaysExactly(table: seq<Play>, window: int, i: nat)
    requires Listed(table) && i < |table|
    ensures Recomputed(table, window, None)[i].group.Some? <==>
              exists j: nat ::
                j < |table| && InOneRun(table, window, i, j) && SharedTwoMinutes(table[i].row, table[j].row)
  {
    hide GroupOf, ItemRows, Rank, Listed, Recomputed, SharedTwoMinutes, Connected, InOneRun;
    var item := table[i].item;
    var rows := ItemRows(table, item);
    ColumnAt(table, window, i);
    RankIs(table, i);
    GroupedExactly(rows, window, Rank(table, i));
    if Recomputed(table, window, None)[i].group.Some? {
      var k := Rank(table, i);
      var m: nat :| m < |rows| && Connected(rows, window, k, m) && SharedTwoMinutes(rows[k], rows[m]);
      var j := PlayAt(table, item, m);
      RunsAndChains(table, window, i, j);
    }
    if j: nat :| j < |table| && InOneRun(table, window, i, j) && SharedTwoMinutes(table[i].row, table[j].row) {
      RunIsOfOneItem(table, window, i, j);
      RunsAndChains(table, window, i, j);
      RankIs(table, j);
    }
  }

  lemma RunIsOfOneItem(table: seq<Play>, window: int, i: nat, j: nat)
    requires i < |table| && j < |table| && InOneRun(table, window, i, j)
    ensures table[i].item == table[j].item
  {
  }

  /** The group is the least id of the grouped plays of its run, and one of them. */
  lemma GroupIsTheLeastId(table: seq<Play>, window: int, i: nat) returns (least: nat)
    requires Listed(table) && i < |table| && Recomputed(table, window, None)[i].group.Some?
    ensures least < |table| && InOneRun(table, window, i, least)
    ensures var t := Recomputed(table, window, None);
            && t[i].group == Some(table[least].row.id)
            && forall j: nat :: j < |table| && InOneRun(table, window, i, j) && t[j].group.Some? ==>
                 t[j].group == t[i].group && table[least].row.id <= table[j].row.id
  {
    hide GroupOf, ItemRows, Rank, Listed, Recomputed, Connected, InOneRun;
    var item, t := table[i].item, Recomputed(table, window, None);
    var rows := ItemRows(table, item);
    ColumnAt(table, window, i);
    var k := GroupIsItsLeastMember(rows, window, Rank(table, i));
    least := PlayAt(table, item, k);
    RunsAndChains(table, window, i, least);
    forall j: nat | j < |table| && InOneRun(table, window, i, j) && t[j].group.Some?
      ensures t[j].group == t[i].group && table[least].row.id <= table[j].row.id
    {
      RunIsOfOneItem(table, window, i, j);
      RunsAndChains(table, window, i, j);
      ColumnAt(table, window, j);
      RankIs(table, j);
    }
  }

  /** And two plays that carry a group carry the same one exactly when they are in one run. */
  lemma OneGroupExactlyInOneRun(table: seq<Play>, window: int, i: nat, j: nat)
    requires Listed(table) && i < |table| && j < |table|
    requires Recomputed(table, window, None)[i].group.Some? && Recomputed(table, window, None)[j].group.Some?
    ensures Recomputed(table, window, None)[i].group == Recomputed(table, window, None)[j].group <==>
              InOneRun(table, window, i, j)
  {
    hide Recomputed, InOneRun, Listed;
    var a := GroupIsTheLeastId(table, window, i);
    var b := GroupIsTheLeastId(table, window, j);
    if Recomputed(table, window, None)[i].group == Recomputed(table, window, None)[j].group {
      SameId(table, a, b);
      RunsMeet(table, window, i, j, a);
    }
  }

  lemma SameId(table: seq<Play>, a: nat, b: nat)
    requires Listed(table) && a < |table| && b < |table| && table[a].row.id == table[b].row.id
    ensures a == b
  {
    hide InPieces;
  }

  lemma RunsMeet(table: seq<Play>, window: int, i: nat, j: nat, k: nat)
    requires i < |table| && j < |table| && k < |table| && InOneRun(table, window, i, k) && InOneRun(table, window, j, k)
    ensures InOneRun(table, window, i, j)
  {
    forall m | i < m <= j || j < m <= i
      ensures table[m].item == table[i].item && table[m].row.start - table[m - 1].row.start <= window
    {
      assert (i < m <= k || k < m <= i) || (j < m <= k || k < m <= j);
    }
  }

  /** After a full run: two plays of one item by different people, started within the window of each
      other and overlapping for two minutes, carry the same group. */
  lemma WatchedTogetherShareAGroup(table: seq<Play>, window: int, i: nat, j: nat)
    requires Listed(table) && i < j < |table| && table[i].item == table[j].item
    requires table[j].row.start - table[i].row.start <= window && SharedTwoMinutes(table[i].row, table[j].row)
    ensures var t := Recomputed(table, window, None);
            t[i].group.Some? && t[i].group == t[j].group
  {
    hide GroupOf, ItemRows, Rank, Listed, Recomputed;
    var rows := ItemRows(table, table[i].item);
    ColumnAt(table, window, i);
    ColumnAt(table, window, j);
    RankIs(table, i);
    RankIs(table, j);
    RankGrows(table, i, j);
    ItemRowsListed(table, table[i].item);
    TogetherMeansOneGroup(rows, window, Rank(table, i), Rank(table, j));
  }

  /** And a play that carries a group has company: another person's play of the same item that it ran
      alongside for two minutes, carrying the same group. */
  lemma AGroupMeansCompany(table: seq<Play>, window: int, i: nat) returns (j: nat)
    requires Listed(table) && i < |table| && Recomputed(table, window, None)[i].group.Some?
    ensures j < |table| && InOneRun(table, window, i, j) && SharedTwoMinutes(table[i].row, table[j].row)
    ensures Recomputed(table, window, None)[j].group == Recomputed(table, window, None)[i].group
  {
    hide Recomputed, Listed, InOneRun, SharedTwoMinutes;
    GroupedPlaysExactly(table, window, i);
    j :| j < |table| && InOneRun(table, window, i, j) && SharedTwoMinutes(table[i].row, table[j].row);
    RunIsOfOneItem(table, window, i, j);
    TheOtherIsGrouped(table, window, i, j);
    OneGroupExactlyInOneRun(table, window, i, j);
  }

  lemma TheOtherIsGrouped(table: seq<Play>, window: int, i: nat, j: nat)
    requires Listed(table) && i < |table| && j < |table|
    requires InOneRun(table, window, i, j) && SharedTwoMinutes(table[i].row, table[j].row)
    ensures Recomputed(table, window, None)[j].group.Some?
  {
    hide Recomputed, Listed;
    GroupedPlaysExactly(table, window, j);
    assert InOneRun(table, window, j, i);
    var from :| BothRanFrom(table[i].row, table[j].row, from);
    assert BothRanFrom(table[j].row, table[i].row, from);
    assert SharedTwoMinutes(table[j].row, table[i].row);
  }
}
