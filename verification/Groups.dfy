/** Who watched together (`cluster` and `detect` in src/groups.rs). */
module Groups {
  import opened Numbers
  import opened Options
  import opened Sets

  const MIN_OVERLAP_S: int := 120

  datatype Row = Row(id: int, user: string, start: int, end: int)

  // ------------------------------------------------------------------ what a group is

  /** Two plays by different people that shared at least two minutes. */
  predicate Together(a: Row, b: Row) {
    b.user != a.user && Min(a.end, b.end) - Max(a.start, b.start) >= MIN_OVERLAP_S
  }

  predicate HasCompany(chain: seq<Row>, a: Row) {
    exists b :: b in chain && Together(a, b)
  }

  /** Row `k` starts within the window of the row before it. */
  predicate Linked(rows: seq<Row>, window: int, k: int) {
    0 < k < |rows| && rows[k].start - rows[k - 1].start <= window
  }

  function ChainStart(rows: seq<Row>, window: int, k: nat): (i: nat)
    requires k < |rows|
    ensures i <= k
  {
    if Linked(rows, window, k) then ChainStart(rows, window, k - 1) else k
  }

  function ChainEnd(rows: seq<Row>, window: int, k: nat): (j: nat)
    requires k < |rows|
    ensures k < j <= |rows|
    decreases |rows| - k
  {
    if Linked(rows, window, k + 1) then ChainEnd(rows, window, k + 1) else k + 1
  }

  /** The chain of starts that row `k` is in. */
  function ChainOf(rows: seq<Row>, window: int, k: nat): seq<Row>
    requires k < |rows|
  {
    rows[ChainStart(rows, window, k)..ChainEnd(rows, window, k)]
  }

  function WithCompany(chain: seq<Row>, among: seq<Row>): seq<Row> {
    if among == [] then []
    else WithCompany(chain, among[..|among| - 1]) +
         if HasCompany(chain, among[|among| - 1]) then [among[|among| - 1]] else []
  }

  lemma {:induction false} WithCompanyMeans(chain: seq<Row>, among: seq<Row>)
    ensures forall r :: r in WithCompany(chain, among) <==> r in among && HasCompany(chain, r)
  {
    if among != [] {
      WithCompanyMeans(chain, among[..|among| - 1]);
      assert among == among[..|among| - 1] + [among[|among| - 1]];
    }
  }

  /** The least id there is; only asked of plays there are. */
  function LeastId(rows: seq<Row>): int {
    if rows == [] then 0
    else if |rows| == 1 then rows[0].id
    else Min(LeastId(rows[..|rows| - 1]), rows[|rows| - 1].id)
  }

  lemma {:induction false} LeastIdMeans(rows: seq<Row>) returns (at: nat)
    requires rows != []
    ensures at < |rows| && rows[at].id == LeastId(rows)
    ensures forall k :: 0 <= k < |rows| ==> LeastId(rows) <= rows[k].id
  {
    if |rows| == 1 {
      at := 0;
    } else {
      at := LeastIdMeans(rows[..|rows| - 1]);
      if rows[|rows| - 1].id == LeastId(rows) {
        at := |rows| - 1;
      }
    }
  }

  function NameOf(chain: seq<Row>): int {
    LeastId(WithCompany(chain, chain))
  }

  /** The group of row `k`: the least id among the plays of its chain that had company, if it is one
      of them. */
  function GroupOf(rows: seq<Row>, window: int, k: nat): Option<int>
    requires k < |rows|
  {
    var chain := ChainOf(rows, window, k);
    if HasCompany(chain, rows[k]) then Some(NameOf(chain)) else None
  }

  /** Every grouped play among the first `n`, with its group. */
  function Assigned(rows: seq<Row>, window: int, n: nat): seq<(int, int)>
    requires n <= |rows|
  {
    if n == 0 then []
    else Assigned(rows, window, n - 1) + match GroupOf(rows, window, n - 1) {
           case Some(g) => [(rows[n - 1].id, g)]
           case None => []
         }
  }

  // ------------------------------------------------------------------ what that means

  ghost predicate InStartOrder(rows: seq<Row>) {
    forall i, j :: 0 <= i < j < |rows| ==> rows[i].start <= rows[j].start
  }

  ghost predicate DistinctIds(rows: seq<Row>) {
    forall i, j :: 0 <= i < j < |rows| ==> rows[i].id != rows[j].id
  }

  lemma {:induction false} ChainStartsAt(rows: seq<Row>, window: int, i: nat, k: nat)
    requires i <= k < |rows| && !Linked(rows, window, i)
    requires forall m :: i < m <= k ==> Linked(rows, window, m)
    ensures ChainStart(rows, window, k) == i
  {
    if i < k {
      assert Linked(rows, window, k);
      ChainStartsAt(rows, window, i, k - 1);
    }
  }

  lemma {:induction false} ChainEndsAt(rows: seq<Row>, window: int, k: nat, j: nat)
    requires k < j <= |rows| && !Linked(rows, window, j)
    requires forall m :: k < m < j ==> Linked(rows, window, m)
    ensures ChainEnd(rows, window, k) == j
    decreases j - k
  {
    if k + 1 < j {
      assert Linked(rows, window, k + 1);
      ChainEndsAt(rows, window, k + 1, j);
    }
  }

  /** The bounds of a chain: unlinked at both ends, linked throughout. */
  lemma {:induction false} ChainStartBounds(rows: seq<Row>, window: int, k: nat)
    requires k < |rows|
    ensures !Linked(rows, window, ChainStart(rows, window, k))
    ensures forall m :: ChainStart(rows, window, k) < m <= k ==> Linked(rows, window, m)
  {
    if Linked(rows, window, k) {
      ChainStartBounds(rows, window, k - 1);
    }
  }

  lemma {:induction false} ChainEndBounds(rows: seq<Row>, window: int, k: nat)
    requires k < |rows|
    ensures !Linked(rows, window, ChainEnd(rows, window, k))
    ensures forall m :: k < m < ChainEnd(rows, window, k) ==> Linked(rows, window, m)
    decreases |rows| - k
  {
    if Linked(rows, window, k + 1) {
      ChainEndBounds(rows, window, k + 1);
    }
  }

  /** Everybody in a chain has that chain. */
  lemma SameChain(rows: seq<Row>, window: int, k: nat, m: nat)
    requires k < |rows| && ChainStart(rows, window, k) <= m < ChainEnd(rows, window, k)
    ensures ChainStart(rows, window, m) == ChainStart(rows, window, k)
    ensures ChainEnd(rows, window, m) == ChainEnd(rows, window, k)
  {
    ChainStartBounds(rows, window, k);
    ChainEndBounds(rows, window, k);
    ChainStartsAt(rows, window, ChainStart(rows, window, k), m);
    ChainEndsAt(rows, window, m, ChainEnd(rows, window, k));
  }

  lemma InTheChain(rows: seq<Row>, window: int, k: nat, m: nat)
    requires k < |rows| && ChainStart(rows, window, k) <= m < ChainEnd(rows, window, k)
    ensures ChainOf(rows, window, m) == ChainOf(rows, window, k)
    ensures rows[m] in ChainOf(rows, window, k)
  {
    hide ChainStart, ChainEnd, Linked;
    SameChain(rows, window, k, m);
    assert ChainOf(rows, window, k)[m - ChainStart(rows, window, k)] == rows[m];
  }

  lemma {:induction false} LinkedThroughout(rows: seq<Row>, window: int, i: nat, j: nat)
    requires i <= j < |rows| && InStartOrder(rows) && rows[j].start - rows[i].start <= window
    ensures ChainEnd(rows, window, i) > j
    decreases j - i
  {
    if i < j {
      assert Linked(rows, window, i + 1);
      LinkedThroughout(rows, window, i + 1, j);
    }
  }

  ghost predicate BothRanFrom(a: Row, b: Row, from: int) {
    a.start <= from && b.start <= from && from + 120 <= a.end && from + 120 <= b.end
  }

  /** Two people, both of whom were playing for two whole minutes. */
  ghost predicate SharedTwoMinutes(a: Row, b: Row) {
    a.user != b.user && exists from: int :: BothRanFrom(a, b, from)
  }

  lemma TogetherIsTwoMinutes(a: Row, b: Row)
    ensures Together(a, b) <==> SharedTwoMinutes(a, b)
  {
    if Together(a, b) {
      var from := Max(a.start, b.start);
      assert BothRanFrom(a, b, from);
    }
  }

  /** From one play to the other, in order, no start is more than the window after the last. */
  ghost predicate Connected(rows: seq<Row>, window: int, i: nat, j: nat)
    requires i < |rows| && j < |rows|
  {
    forall m :: i < m <= j || j < m <= i ==> rows[m].start - rows[m - 1].start <= window
  }

  lemma ConnectedIsOneChain(rows: seq<Row>, window: int, i: nat, j: nat)
    requires i < |rows| && j < |rows|
    ensures Connected(rows, window, i, j) <==> ChainStart(rows, window, i) <= j < ChainEnd(rows, window, i)
  {
    ChainStartBounds(rows, window, i);
    ChainEndBounds(rows, window, i);
    hide ChainStart, ChainEnd;
    forall m | i < m <= j || j < m <= i
      ensures rows[m].start - rows[m - 1].start <= window <==> Linked(rows, window, m)
    {
    }
  }

  /** A play has a group exactly when it is connected to one by somebody else with whom it shared two minutes. */
  lemma GroupedExactly(rows: seq<Row>, window: int, k: nat)
    requires k < |rows|
    ensures GroupOf(rows, window, k).Some? <==>
              exists m :: 0 <= m < |rows| && Connected(rows, window, k, m) && SharedTwoMinutes(rows[k], rows[m])
  {
    hide ChainStart, ChainEnd, Linked, Connected, SharedTwoMinutes, Together;
    if GroupOf(rows, window, k).Some? {
      var m := GroupedMeansTogether(rows, window, k);
    }
    if m: nat :| m < |rows| && Connected(rows, window, k, m) && SharedTwoMinutes(rows[k], rows[m]) {
      ConnectedIsOneChain(rows, window, k, m);
      TogetherIsTwoMinutes(rows[k], rows[m]);
      InTheChain(rows, window, k, m);
    }
  }

  /** And two that have one have the same exactly when they are connected. */
  lemma OneGroupExactly(rows: seq<Row>, window: int, k: nat, m: nat)
    requires k < |rows| && m < |rows| && DistinctIds(rows)
    requires GroupOf(rows, window, k).Some? && GroupOf(rows, window, m).Some?
    ensures GroupOf(rows, window, k) == GroupOf(rows, window, m) <==> Connected(rows, window, k, m)
  {
    ConnectedIsOneChain(rows, window, k, m);
    hide Connected, Linked, HasCompany, NameOf, DistinctIds;
    if Connected(rows, window, k, m) {
      SameChain(rows, window, k, m);
    }
    if GroupOf(rows, window, k) == GroupOf(rows, window, m) {
      GroupsDiffer(rows, window, k, m);
      var s := ChainStart(rows, window, k);
      SameChain(rows, window, k, s);
      SameChain(rows, window, m, s);
    }
  }

  /** Complete: two plays by different people that start within the window and overlap for two
      minutes are in the same group. */
  lemma TogetherMeansOneGroup(rows: seq<Row>, window: int, i: nat, j: nat)
    requires i < j < |rows| && InStartOrder(rows)
    requires rows[j].start - rows[i].start <= window && SharedTwoMinutes(rows[i], rows[j])
    ensures GroupOf(rows, window, i).Some? && GroupOf(rows, window, j) == GroupOf(rows, window, i)
  {
    TogetherIsTwoMinutes(rows[i], rows[j]);
    LinkedThroughout(rows, window, i, j);
    SameChain(rows, window, i, j);
    var chain := ChainOf(rows, window, i);
    var s := ChainStart(rows, window, i);
    assert chain[i - s] == rows[i] && chain[j - s] == rows[j];
    assert rows[i] in chain && rows[j] in chain;
    assert Together(rows[j], rows[i]);
  }

  /** Sound: a grouped play has a partner, somebody else it ran alongside, in its chain and in its
      group; so every group holds at least two people. */
  lemma GroupedMeansTogether(rows: seq<Row>, window: int, k: nat) returns (partner: nat)
    requires k < |rows| && GroupOf(rows, window, k).Some?
    ensures partner < |rows| && Connected(rows, window, k, partner)
    ensures SharedTwoMinutes(rows[k], rows[partner])
    ensures GroupOf(rows, window, partner) == GroupOf(rows, window, k)
  {
    hide HasCompany, NameOf, ChainStart, ChainEnd, Connected, SharedTwoMinutes;
    var chain, start := ChainOf(rows, window, k), ChainStart(rows, window, k);
    var at := SomeCompany(chain, rows[k]);
    partner := start + at;
    assert rows[partner] == chain[at];
    InTheChain(rows, window, k, partner);
    InTheChain(rows, window, k, k);
    CompanyBothWays(chain, rows[k], rows[partner]);
    TogetherIsTwoMinutes(rows[k], rows[partner]);
    ConnectedIsOneChain(rows, window, k, partner);
  }

  lemma SomeCompany(chain: seq<Row>, a: Row) returns (at: nat)
    requires HasCompany(chain, a)
    ensures at < |chain| && Together(a, chain[at])
  {
    var b :| b in chain && Together(a, b);
    at :| 0 <= at < |chain| && chain[at] == b;
  }

  lemma CompanyBothWays(chain: seq<Row>, a: Row, b: Row)
    requires a in chain && b in chain && Together(a, b)
    ensures HasCompany(chain, a) && HasCompany(chain, b)
  {
    assert Together(b, a);
  }

  lemma LeastMember(chain: seq<Row>, a: Row) returns (at: nat)
    requires a in chain && HasCompany(chain, a)
    ensures at < |chain| && HasCompany(chain, chain[at]) && chain[at].id == NameOf(chain)
    ensures forall r :: r in chain && HasCompany(chain, r) ==> NameOf(chain) <= r.id
  {
    hide HasCompany;
    var members := WithCompany(chain, chain);
    WithCompanyMeans(chain, chain);
    assert a in members;
    var i := LeastIdMeans(members);
    assert members[i] in members;
    at :| 0 <= at < |chain| && chain[at] == members[i];
    assert forall r :: r in members ==> NameOf(chain) <= r.id;
  }

  /** The group's name is the least id of its members, and is one of them. */
  lemma GroupIsItsLeastMember(rows: seq<Row>, window: int, k: nat) returns (least: nat)
    requires k < |rows| && GroupOf(rows, window, k).Some?
    ensures ChainStart(rows, window, k) <= least < ChainEnd(rows, window, k) && Connected(rows, window, k, least)
    ensures GroupOf(rows, window, least) == GroupOf(rows, window, k) == Some(rows[least].id)
    ensures forall m: nat :: m < |rows| && Connected(rows, window, k, m) && GroupOf(rows, window, m).Some? ==>
              GroupOf(rows, window, m) == GroupOf(rows, window, k) && rows[least].id <= rows[m].id
  {
    hide HasCompany, ChainStart, ChainEnd, Linked, Connected, WithCompany, LeastId;
    var chain, s := ChainOf(rows, window, k), ChainStart(rows, window, k);
    InTheChain(rows, window, k, k);
    var at := LeastMember(chain, rows[k]);
    least := s + at;
    InTheChain(rows, window, k, least);
    ConnectedIsOneChain(rows, window, k, least);
    forall m: nat | m < |rows| && Connected(rows, window, k, m) && GroupOf(rows, window, m).Some?
      ensures GroupOf(rows, window, m) == GroupOf(rows, window, k) && rows[least].id <= rows[m].id
    {
      ConnectedIsOneChain(rows, window, k, m);
      InTheChain(rows, window, k, m);
    }
  }

  /** Two plays are in one group only when they are in one chain: groups have different names. */
  lemma GroupsDiffer(rows: seq<Row>, window: int, k: nat, m: nat)
    requires k < |rows| && m < |rows| && DistinctIds(rows)
    requires GroupOf(rows, window, k).Some? && GroupOf(rows, window, m) == GroupOf(rows, window, k)
    ensures ChainStart(rows, window, m) == ChainStart(rows, window, k)
  {
    var a := GroupIsItsLeastMember(rows, window, k);
    var b := GroupIsItsLeastMember(rows, window, m);
    assert a == b;
    SameChain(rows, window, k, a);
    SameChain(rows, window, m, b);
  }

  // ------------------------------------------------------------------ the clustering itself

  /** Company is mutual, so a chain where anybody has company holds two people who do: the check for
      two people never turns a chain away. */
  lemma CompanyIsMutual(chain: seq<Row>, together: seq<Row>)
    requires together == WithCompany(chain, chain)
    ensures together != [] <==> |set r | r in together :: r.user| >= 2
  {
    WithCompanyMeans(chain, chain);
    if together != [] {
      var a := together[0];
      assert HasCompany(chain, a);
      var b :| b in chain && Together(a, b);
      assert Together(b, a) && HasCompany(chain, b);
      hide *;
      TwoPeople(together, a, b);
    }
  }

  lemma TwoPeople(together: seq<Row>, a: Row, b: Row)
    requires a in together && b in together && a.user != b.user
    ensures |set r | r in together :: r.user| >= 2
  {
    var people := set r | r in together :: r.user;
    assert {a.user, b.user} <= people;
    SubsetIsNoLarger({a.user, b.user}, people);
  }

  function Named(together: seq<Row>, g: int): seq<(int, int)> {
    seq(|together|, i requires 0 <= i < |together| => (together[i].id, g))
  }

  lemma GroupInChain(rows: seq<Row>, window: int, i: nat, m: nat, j: nat)
    requires i <= m < j <= |rows|
    requires !Linked(rows, window, i) && !Linked(rows, window, j)
    requires forall x :: i < x < j ==> Linked(rows, window, x)
    ensures GroupOf(rows, window, m) == if HasCompany(rows[i..j], rows[m]) then Some(NameOf(rows[i..j])) else None
  {
    hide Linked, ChainStart, ChainEnd;
    ChainStartsAt(rows, window, i, m);
    ChainEndsAt(rows, window, m, j);
  }

  /** What one chain adds to the answer. */
  lemma {:induction false} OneChainAdds(rows: seq<Row>, window: int, i: nat, n: nat, j: nat)
    requires i <= n <= j <= |rows| && i < j
    requires !Linked(rows, window, i) && !Linked(rows, window, j)
    requires forall m :: i < m < j ==> Linked(rows, window, m)
    ensures Assigned(rows, window, n) ==
            Assigned(rows, window, i) + Named(WithCompany(rows[i..j], rows[i..n]), NameOf(rows[i..j]))
    decreases n
  {
    hide Linked, GroupOf, NameOf, HasCompany;
    if i < n {
      OneChainAdds(rows, window, i, n - 1, j);
      GroupInChain(rows, window, i, n - 1, j);
      assert rows[i..n][..|rows[i..n]| - 1] == rows[i..n - 1];
      assert rows[i..n][|rows[i..n]| - 1] == rows[n - 1];
    }
  }

  method FindTogether(chain: seq<Row>) returns (together: seq<Row>)
    ensures together == WithCompany(chain, chain)
  {
    together := [];
    for k := 0 to |chain|
      invariant together == WithCompany(chain, chain[..k])
    {
      var a := chain[k];
      var found := false;
      for m := 0 to |chain|
        invariant found <==> exists b :: b in chain[..m] && Together(a, b)
      {
        assert chain[..m + 1] == chain[..m] + [chain[m]];
        found := found || Together(a, chain[m]);
      }
      assert chain[..|chain|] == chain;
      assert chain[..k + 1][..k] == chain[..k];
      if found {
        together := together + [a];
      }
    }
    assert chain[..|chain|] == chain;
  }

  lemma NobodyAssigned(rows: seq<Row>, window: int)
    ensures Assigned(rows, window, 0) == []
  {
  }

  lemma NobodyNamed(g: int)
    ensures Named([], g) == []
  {
  }

  /** Chain by chain, every grouped play of one item is listed with its group. */
  method Cluster(rows: seq<Row>, window: int) returns (out: seq<(int, int)>)
    ensures out == Assigned(rows, window, |rows|)
  {
    hide Assigned, WithCompany, Named, LeastId, HasCompany, GroupOf;
    out := [];
    NobodyAssigned(rows, window);
    var i := 0;
    while i < |rows|
      invariant 0 <= i <= |rows|
      invariant !Linked(rows, window, i)
      invariant out == Assigned(rows, window, i)
    {
      var j := i + 1;
      while j < |rows| && rows[j].start - rows[j - 1].start <= window
        invariant i < j <= |rows|
        invariant forall m :: i < m < j ==> Linked(rows, window, m)
      {
        j := j + 1;
      }
      var chain := rows[i..j];
      var together := FindTogether(chain);
      CompanyIsMutual(chain, together);
      OneChainAdds(rows, window, i, j, j);
      NobodyNamed(NameOf(chain));
      if |set r | r in together :: r.user| >= 2 {
        out := out + Named(together, LeastId(together));
      }
      i := j;
    }
  }
}
