/** Runs of failed sign-ins (`bursts` in src/security.rs). */
module Bursts {
  /** One refused sign-in: the activity-log row, when, and whose. */
  datatype Failure = Failure(id: int, at: int, who: string)

  datatype Burst = Burst(who: string, firstAt: int, at: int, id: int, count: nat)

  // ------------------------------------------------------------------ what a burst is

  predicate Indices(rows: seq<Failure>, s: seq<nat>) {
    forall k :: 0 <= k < |s| ==> s[k] < |rows|
  }

  /** The members of `open` no older than the window when failure `n` happens. */
  function Recent(rows: seq<Failure>, within: int, open: seq<nat>, n: nat): seq<nat>
    requires n < |rows| && Indices(rows, open)
  {
    if open == [] then []
    else
      var last := open[|open| - 1];
      Recent(rows, within, open[..|open| - 1], n) + if rows[n].at - rows[last].at <= within then [last] else []
  }

  /** After the first `n` failures: those of `who` still waiting to become a burst. */
  function Open(rows: seq<Failure>, within: int, min: nat, n: nat, who: string): (open: seq<nat>)
    requires n <= |rows|
    ensures forall k :: 0 <= k < |open| ==> open[k] < n && rows[open[k]].who == who
  {
    if n == 0 then []
    else if rows[n - 1].who != who then Open(rows, within, min, n - 1, who)
    else
      var run := Run(rows, within, min, n - 1);
      if |run| >= min then [] else run
  }

  /** The run of failures that failure `n` is the last of. */
  function Run(rows: seq<Failure>, within: int, min: nat, n: nat): (run: seq<nat>)
    requires n < |rows|
    ensures |run| > 0 && run[|run| - 1] == n
    ensures forall k :: 0 <= k < |run| ==> run[k] <= n && rows[run[k]].who == rows[n].who
  {
    var open := Open(rows, within, min, n, rows[n].who);
    RecentMembers(rows, within, open, n);
    Recent(rows, within, open, n) + [n]
  }

  predicate Completes(rows: seq<Failure>, within: int, min: nat, n: nat)
    requires n < |rows|
  {
    |Run(rows, within, min, n)| >= min
  }

  function BurstAt(rows: seq<Failure>, within: int, min: nat, n: nat): Burst
    requires n < |rows|
  {
    var run := Run(rows, within, min, n);
    Burst(rows[n].who, rows[run[0]].at, rows[n].at, rows[n].id, |run|)
  }

  function BurstsUpTo(rows: seq<Failure>, within: int, min: nat, n: nat): seq<Burst>
    requires n <= |rows|
  {
    if n == 0 then []
    else BurstsUpTo(rows, within, min, n - 1) +
         if Completes(rows, within, min, n - 1) then [BurstAt(rows, within, min, n - 1)] else []
  }

  lemma {:induction false} RecentMembers(rows: seq<Failure>, within: int, open: seq<nat>, n: nat)
    requires n < |rows| && Indices(rows, open)
    ensures |Recent(rows, within, open, n)| <= |open|
    ensures forall k :: 0 <= k < |Recent(rows, within, open, n)| ==>
              var i := Recent(rows, within, open, n)[k];
              i < |rows| && rows[n].at - rows[i].at <= within && i in open
  {
    if open != [] {
      RecentMembers(rows, within, open[..|open| - 1], n);
    }
  }

  // ------------------------------------------------------------------ what it means

  ghost predicate Ascending(s: seq<nat>) {
    forall i, j :: 0 <= i < j < |s| ==> s[i] < s[j]
  }

  lemma {:induction false} RecentAscends(rows: seq<Failure>, within: int, open: seq<nat>, n: nat)
    requires n < |rows| && Indices(rows, open) && Ascending(open)
    ensures Ascending(Recent(rows, within, open, n))
  {
    if open != [] {
      var front := open[..|open| - 1];
      RecentAscends(rows, within, front, n);
      RecentMembers(rows, within, front, n);
    }
  }

  lemma {:induction false} OpenIsShort(rows: seq<Failure>, within: int, min: nat, n: nat, who: string)
    requires n <= |rows|
    ensures Ascending(Open(rows, within, min, n, who))
    ensures Open(rows, within, min, n, who) == [] || |Open(rows, within, min, n, who)| < min
  {
    if n > 0 {
      OpenIsShort(rows, within, min, n - 1, who);
      if rows[n - 1].who == who {
        RunAscends(rows, within, min, n - 1);
      }
    }
  }

  lemma RunAscends(rows: seq<Failure>, within: int, min: nat, n: nat)
    requires n < |rows| && Ascending(Open(rows, within, min, n, rows[n].who))
    ensures Ascending(Run(rows, within, min, n))
  {
    var open := Open(rows, within, min, n, rows[n].who);
    RecentAscends(rows, within, open, n);
    RecentMembers(rows, within, open, n);
  }

  /** Sound: a burst is exactly `min` failures (one, should `min` be none at all) of one account, in the
      order they happened, every one of them inside the window when the last completes it. */
  lemma ABurstIsExactlyMin(rows: seq<Failure>, within: int, min: nat, n: nat)
    requires n < |rows| && within >= 0 && Completes(rows, within, min, n)
    ensures var run, b := Run(rows, within, min, n), BurstAt(rows, within, min, n);
            && |run| == (if min == 0 then 1 else min) == b.count && Ascending(run)
            && (forall k :: 0 <= k < |run| ==>
                 run[k] <= n && rows[run[k]].who == b.who && b.at - rows[run[k]].at <= within)
            && b.firstAt == rows[run[0]].at && b.at == rows[n].at && b.id == rows[n].id
  {
    var open := Open(rows, within, min, n, rows[n].who);
    OpenIsShort(rows, within, min, n, rows[n].who);
    RecentMembers(rows, within, open, n);
    RunAscends(rows, within, min, n);
  }

  lemma {:induction false} OpenIsSinceTheBurst(rows: seq<Failure>, within: int, min: nat, n: nat, m: nat, who: string)
    requires n < m <= |rows| && rows[n].who == who && Completes(rows, within, min, n)
    ensures forall k :: 0 <= k < |Open(rows, within, min, m, who)| ==> Open(rows, within, min, m, who)[k] > n
  {
    if m > n + 1 {
      OpenIsSinceTheBurst(rows, within, min, n, m - 1, who);
      RecentMembers(rows, within, Open(rows, within, min, m - 1, who), m - 1);
    }
  }

  /** Bursts of one account share no failure. */
  lemma BurstsShareNothing(rows: seq<Failure>, within: int, min: nat, n: nat, m: nat)
    requires n < m < |rows| && rows[n].who == rows[m].who
    requires Completes(rows, within, min, n) && Completes(rows, within, min, m)
    ensures forall i :: i in Run(rows, within, min, m) ==> i !in Run(rows, within, min, n)
  {
    OpenIsSinceTheBurst(rows, within, min, n, m, rows[n].who);
    RecentMembers(rows, within, Open(rows, within, min, m, rows[n].who), m);
  }

  /** The failures of one account from `a` up to but not including `n`. */
  function FailuresOf(rows: seq<Failure>, who: string, a: nat, n: nat): (s: seq<nat>)
    requires a <= n <= |rows|
    ensures forall k :: 0 <= k < |s| ==> a <= s[k] < n && rows[s[k]].who == who
    decreases n
  {
    if n == a then []
    else FailuresOf(rows, who, a, n - 1) + if rows[n - 1].who == who then [n - 1] else []
  }

  lemma {:induction false} RecentKeepsAll(rows: seq<Failure>, within: int, older: seq<nat>, newer: seq<nat>, n: nat)
    requires n < |rows| && Indices(rows, older)
    requires forall k :: 0 <= k < |newer| ==> newer[k] < |rows| && rows[n].at - rows[newer[k]].at <= within
    ensures Recent(rows, within, older + newer, n) == Recent(rows, within, older, n) + newer
  {
    if newer == [] {
      assert older + newer == older;
    } else {
      var front := newer[..|newer| - 1];
      assert (older + newer)[..|older + newer| - 1] == older + front;
      RecentKeepsAll(rows, within, older, front, n);
    }
  }

  lemma RunWithRest(rows: seq<Failure>, within: int, min: nat, n: nat, older: seq<nat>, since: seq<nat>)
    requires n < |rows|
    requires Recent(rows, within, Open(rows, within, min, n, rows[n].who), n) == older + since
    ensures Run(rows, within, min, n) == older + (since + [n])
  {
  }

  /** One more failure of the account, and still no burst: what was open and is recent stays open. */
  lemma OneMoreOpen(rows: seq<Failure>, within: int, min: nat, n: nat, older: seq<nat>, since: seq<nat>)
    requires n < |rows| && !Completes(rows, within, min, n)
    requires Open(rows, within, min, n, rows[n].who) == older + since
    requires forall k :: 0 <= k < |since| ==> since[k] < |rows| && rows[n].at - rows[since[k]].at <= within
    ensures Indices(rows, older)
    ensures Open(rows, within, min, n + 1, rows[n].who) == Recent(rows, within, older, n) + (since + [n])
  {
    var open := Open(rows, within, min, n, rows[n].who);
    assert forall k :: 0 <= k < |older| ==> older[k] == open[k];
    RecentKeepsAll(rows, within, older, since, n);
    RunWithRest(rows, within, min, n, Recent(rows, within, older, n), since);
    hide Run, Recent;
  }

  /** While no burst comes, everything since `a` stays open: the window never drops what is inside it. */
  lemma {:induction false} NothingIsForgotten(rows: seq<Failure>, within: int, min: nat, who: string, a: nat, n: nat)
      returns (older: seq<nat>)
    requires a <= n <= |rows|
    requires forall i, j :: a <= i < j < n ==> rows[i].at <= rows[j].at
    requires a < n ==> rows[n - 1].at - rows[a].at <= within
    requires forall k :: a <= k < n && rows[k].who == who ==> !Completes(rows, within, min, k)
    ensures Open(rows, within, min, n, who) == older + FailuresOf(rows, who, a, n)
    decreases n
  {
    if a == n {
      older := Open(rows, within, min, n, who);
    } else {
      hide Run, Completes;
      older := NothingIsForgotten(rows, within, min, who, a, n - 1);
      if rows[n - 1].who == who {
        OneMoreOpen(rows, within, min, n - 1, older, FailuresOf(rows, who, a, n - 1));
        older := Recent(rows, within, older, n - 1);
      }
    }
  }

  /** Complete: of failures in time order, `min` of one account inside one window never pass without a
      burst of that account being completed among them. */
  lemma MinInsideAWindowIsABurst(rows: seq<Failure>, within: int, min: nat, a: nat, b: nat)
    requires a <= b < |rows| && rows[a].who == rows[b].who
    requires forall i, j :: 0 <= i < j < |rows| ==> rows[i].at <= rows[j].at
    requires rows[b].at - rows[a].at <= within
    requires |FailuresOf(rows, rows[a].who, a, b + 1)| >= min
    ensures exists k :: a <= k <= b && rows[k].who == rows[a].who && Completes(rows, within, min, k)
  {
    var who := rows[a].who;
    if forall k :: a <= k < b && rows[k].who == who ==> !Completes(rows, within, min, k) {
      var older := NothingIsForgotten(rows, within, min, who, a, b);
      var since := FailuresOf(rows, who, a, b);
      var open := Open(rows, within, min, b, who);
      assert forall k :: 0 <= k < |older| ==> older[k] == open[k];
      RecentKeepsAll(rows, within, older, since, b);
      assert Completes(rows, within, min, b);
    }
  }

  // ------------------------------------------------------------------ appending changes nothing

  lemma {:induction false} OpenIgnoresTheFuture(rows: seq<Failure>, more: seq<Failure>, within: int, min: nat, n: nat,
      who: string)
    requires n <= |rows|
    ensures Open(rows + more, within, min, n, who) == Open(rows, within, min, n, who)
  {
    if n > 0 {
      OpenIgnoresTheFuture(rows, more, within, min, n - 1, who);
      RunIgnoresTheFuture(rows, more, within, min, n - 1);
    }
  }

  lemma {:induction false} RunIgnoresTheFuture(rows: seq<Failure>, more: seq<Failure>, within: int, min: nat, n: nat)
    requires n < |rows|
    ensures Run(rows + more, within, min, n) == Run(rows, within, min, n)
  {
    OpenIgnoresTheFuture(rows, more, within, min, n, rows[n].who);
    RecentIgnoresTheFuture(rows, more, within, Open(rows, within, min, n, rows[n].who), n);
  }

  lemma {:induction false} RecentIgnoresTheFuture(rows: seq<Failure>, more: seq<Failure>, within: int, open: seq<nat>,
      n: nat)
    requires n < |rows| && Indices(rows, open)
    ensures Recent(rows + more, within, open, n) == Recent(rows, within, open, n)
  {
    if open != [] {
      RecentIgnoresTheFuture(rows, more, within, open[..|open| - 1], n);
    }
  }

  lemma OneMoreBurst(rows: seq<Failure>, within: int, min: nat, n: nat)
    requires 0 < n <= |rows|
    ensures BurstsUpTo(rows, within, min, n) == BurstsUpTo(rows, within, min, n - 1) +
            if Completes(rows, within, min, n - 1) then [BurstAt(rows, within, min, n - 1)] else []
  {
    hide Completes, BurstAt;
  }

  lemma BurstIgnoresTheFuture(rows: seq<Failure>, more: seq<Failure>, within: int, min: nat, n: nat)
    requires n < |rows|
    ensures Completes(rows + more, within, min, n) == Completes(rows, within, min, n)
    ensures Completes(rows, within, min, n) ==> BurstAt(rows + more, within, min, n) == BurstAt(rows, within, min, n)
  {
    RunIgnoresTheFuture(rows, more, within, min, n);
    hide Run;
  }

  lemma {:induction false} KeepsBursts(rows: seq<Failure>, more: seq<Failure>, all: seq<Failure>, within: int, min: nat,
      n: nat)
    requires n <= |rows| && all == rows + more
    ensures BurstsUpTo(all, within, min, n) == BurstsUpTo(rows, within, min, n)
  {
    hide *;
    if n == 0 {
      HoldsAtFirst(rows, within, min);
      HoldsAtFirst(all, within, min);
    } else {
      KeepsBursts(rows, more, all, within, min, n - 1);
      OneMoreBurst(rows, within, min, n);
      OneMoreBurst(all, within, min, n);
      BurstIgnoresTheFuture(rows, more, within, min, n - 1);
    }
  }

  /** Failures that come later never change the bursts there were. */
  lemma AppendingKeepsBursts(rows: seq<Failure>, more: seq<Failure>, within: int, min: nat, n: nat)
    requires n <= |rows|
    ensures BurstsUpTo(rows + more, within, min, n) == BurstsUpTo(rows, within, min, n)
  {
    hide *;
    KeepsBursts(rows, more, rows + more, within, min, n);
  }

  lemma {:induction false} BurstsOnlyGrow(rows: seq<Failure>, within: int, min: nat, n: nat, m: nat)
    requires n <= m <= |rows|
    ensures BurstsUpTo(rows, within, min, n) <= BurstsUpTo(rows, within, min, m)
    decreases m
  {
    if n < m {
      BurstsOnlyGrow(rows, within, min, n, m - 1);
    }
  }

  lemma RescanFindsTheSame(rows: seq<Failure>, more: seq<Failure>, within: int, min: nat)
    ensures BurstsUpTo(rows, within, min, |rows|) <= BurstsUpTo(rows + more, within, min, |rows + more|)
  {
    AppendingKeepsBursts(rows, more, within, min, |rows|);
    BurstsOnlyGrow(rows + more, within, min, |rows|, |rows + more|);
  }

  // ------------------------------------------------------------------ the scan

  function Noted(rows: seq<Failure>, s: seq<nat>): seq<(int, int)>
    requires Indices(rows, s)
  {
    seq(|s|, k requires 0 <= k < |s| => (rows[s[k]].id, rows[s[k]].at))
  }

  method Retain(rows: seq<Failure>, within: int, ghost open: seq<nat>, seen: seq<(int, int)>, n: nat)
      returns (kept: seq<(int, int)>)
    requires n < |rows| && Indices(rows, open) && seen == Noted(rows, open)
    ensures Indices(rows, Recent(rows, within, open, n))
    ensures kept == Noted(rows, Recent(rows, within, open, n))
  {
    kept := [];
    for k := 0 to |seen|
      invariant Indices(rows, Recent(rows, within, open[..k], n))
      invariant kept == Noted(rows, Recent(rows, within, open[..k], n))
    {
      assert open[..k + 1][..k] == open[..k];
      if rows[n].at - seen[k].1 <= within {
        kept := kept + [seen[k]];
      }
    }
    assert open[..|seen|] == open;
  }

  /** The code's map of windows holds, for every account, what is open after `n` failures. */
  ghost predicate Holds(window: map<string, seq<(int, int)>>, rows: seq<Failure>, within: int, min: nat, n: nat)
    requires n <= |rows|
  {
    forall who :: (if who in window then window[who] else []) == Noted(rows, Open(rows, within, min, n, who))
  }

  lemma HoldsAtFirst(rows: seq<Failure>, within: int, min: nat)
    ensures Holds(map[], rows, within, min, 0)
    ensures BurstsUpTo(rows, within, min, 0) == []
  {
  }

  lemma RunIsRecentAndLast(rows: seq<Failure>, within: int, min: nat, n: nat)
    requires n < |rows|
    ensures Indices(rows, Recent(rows, within, Open(rows, within, min, n, rows[n].who), n))
    ensures Noted(rows, Run(rows, within, min, n)) ==
            Noted(rows, Recent(rows, within, Open(rows, within, min, n, rows[n].who), n)) + [(rows[n].id, rows[n].at)]
  {
    RecentMembers(rows, within, Open(rows, within, min, n, rows[n].who), n);
  }

  lemma HoldsOneMore(window: map<string, seq<(int, int)>>, rows: seq<Failure>, within: int, min: nat, n: nat)
    requires n < |rows| && Holds(window, rows, within, min, n)
    ensures var run := Noted(rows, Run(rows, within, min, n));
            Holds(window[rows[n].who := if |run| >= min then [] else run], rows, within, min, n + 1)
  {
    hide Recent, Run;
  }

  lemma BurstsOneMore(rows: seq<Failure>, within: int, min: nat, n: nat)
    requires n < |rows|
    ensures var run := Noted(rows, Run(rows, within, min, n));
            && |run| > 0
            && BurstsUpTo(rows, within, min, n + 1) == BurstsUpTo(rows, within, min, n) +
               if |run| >= min then [Burst(rows[n].who, run[0].1, rows[n].at, rows[n].id, |run|)] else []
  {
    hide Recent, Open, Run;
  }

  /** Every run of `min` failures inside the window, per account. */
  method FindBursts(rows: seq<Failure>, within: int, min: nat) returns (out: seq<Burst>)
    ensures out == BurstsUpTo(rows, within, min, |rows|)
  {
    hide Open, Run, Recent, BurstsUpTo, Completes, BurstAt;
    var window: map<string, seq<(int, int)>> := map[];
    out := [];
    HoldsAtFirst(rows, within, min);
    for n := 0 to |rows|
      invariant Holds(window, rows, within, min, n)
      invariant out == BurstsUpTo(rows, within, min, n)
    {
      var who := rows[n].who;
      var seen := if who in window then window[who] else [];
      seen := Retain(rows, within, Open(rows, within, min, n, who), seen, n);
      seen := seen + [(rows[n].id, rows[n].at)];
      RunIsRecentAndLast(rows, within, min, n);
      HoldsOneMore(window, rows, within, min, n);
      BurstsOneMore(rows, within, min, n);
      hide Holds, Noted;
      if |seen| >= min {
        out := out + [Burst(who, seen[0].1, rows[n].at, rows[n].id, |seen|)];
        seen := [];
      }
      window := window[who := seen];
    }
  }
}
