/** The scan of failed sign-ins only looks back so far (`scan_sign_ins` in src/security.rs), and does not
    see the failures before the cut. When does it still find the same bursts? */
module LookBack {
  import opened Bursts
  import opened Options

  /** Places in what is left, as places in the whole. */
  function After(k: nat, s: seq<nat>): (after: seq<nat>)
    ensures |after| == |s| && forall i :: 0 <= i < |s| ==> after[i] == k + s[i]
  {
    seq(|s|, i requires 0 <= i < |s| => k + s[i])
  }

  /** The burst that a failure completes, if it does. */
  function Found(rows: seq<Failure>, within: int, min: nat, n: nat): Option<Burst>
    requires n < |rows|
  {
    if Completes(rows, within, min, n) then Some(BurstAt(rows, within, min, n)) else None
  }

  /** A burst of the whole history that began before the cut, and was completed by failure `n` after it. */
  ghost predicate Straddles(gone: seq<Failure>, rest: seq<Failure>, within: int, min: nat, n: nat)
    requires n < |rest|
  {
    Completes(gone + rest, within, min, |gone| + n) && Run(gone + rest, within, min, |gone| + n)[0] < |gone|
  }

  lemma {:induction false} RecentOfBoth(rows: seq<Failure>, within: int, a: seq<nat>, b: seq<nat>, n: nat)
    requires n < |rows| && Indices(rows, a) && Indices(rows, b)
    ensures Indices(rows, a + b)
    ensures Recent(rows, within, a + b, n) == Recent(rows, within, a, n) + Recent(rows, within, b, n)
  {
    if b == [] {
      assert a + b == a;
    } else {
      var front := b[..|b| - 1];
      RecentOfBoth(rows, within, a, front, n);
      assert (a + b)[..|a + b| - 1] == a + front;
    }
  }

  lemma {:induction false} RecentAfter(gone: seq<Failure>, rest: seq<Failure>, within: int, open: seq<nat>, n: nat)
    requires n < |rest| && Indices(rest, open)
    ensures Indices(gone + rest, After(|gone|, open))
    ensures Indices(rest, Recent(rest, within, open, n))
    ensures Recent(gone + rest, within, After(|gone|, open), |gone| + n) == After(|gone|, Recent(rest, within, open, n))
  {
    hide Recent;
    if open == [] {
      RecentOfNone(rest, within, n);
      RecentOfNone(gone + rest, within, |gone| + n);
      assert After(|gone|, []) == [];
    } else {
      var front, last := open[..|open| - 1], open[|open| - 1];
      RecentNext(rest, within, open, n);
      RecentAfter(gone, rest, within, front, n);
      AfterLast(|gone|, open);
      assert (gone + rest)[|gone| + last] == rest[last] && (gone + rest)[|gone| + n] == rest[n];
      RecentNext(gone + rest, within, After(|gone|, open), |gone| + n);
      AfterBoth(|gone|, Recent(rest, within, front, n), [last]);
    }
  }

  lemma RecentOfNone(rows: seq<Failure>, within: int, n: nat)
    requires n < |rows|
    ensures Recent(rows, within, [], n) == []
  {
  }

  lemma AfterLast(k: nat, s: seq<nat>)
    requires s != []
    ensures After(k, s)[..|s| - 1] == After(k, s[..|s| - 1]) && After(k, [s[|s| - 1]]) == [k + s[|s| - 1]]
  {
  }

  lemma RecentNext(rows: seq<Failure>, within: int, open: seq<nat>, n: nat)
    requires n < |rows| && Indices(rows, open) && open != []
    ensures Indices(rows, open[..|open| - 1])
    ensures Recent(rows, within, open, n) == Recent(rows, within, open[..|open| - 1], n)
            + if rows[n].at - rows[open[|open| - 1]].at <= within then [open[|open| - 1]] else []
  {
  }

  lemma AfterBoth(k: nat, a: seq<nat>, b: seq<nat>)
    ensures After(k, a + b) == After(k, a) + After(k, b)
    ensures After(k, a + []) == After(k, a) + []
  {
  }

  ghost predicate Before(s: seq<nat>, k: nat) {
    forall i :: 0 <= i < |s| ==> s[i] < k
  }

  /** What is open in the whole history is what is open in the rest, behind something older. */
  ghost predicate Carries(gone: seq<Failure>, rest: seq<Failure>, within: int, min: nat, n: nat, who: string,
      older: seq<nat>)
    requires n <= |rest|
  {
    && Before(older, |gone|)
    && Open(gone + rest, within, min, |gone| + n, who) == older + After(|gone|, Open(rest, within, min, n, who))
  }

  /** And so are the runs. */
  lemma RunCarries(gone: seq<Failure>, rest: seq<Failure>, within: int, min: nat, n: nat, older: seq<nat>)
      returns (first: seq<nat>)
    requires n < |rest| && Carries(gone, rest, within, min, n, rest[n].who, older)
    ensures Before(first, |gone|)
    ensures Run(gone + rest, within, min, |gone| + n) == first + After(|gone|, Run(rest, within, min, n))
  {
    hide Run, Open, Recent, Indices;
    var all, open, k := gone + rest, Open(rest, within, min, n, rest[n].who), |gone| + n;
    assert all[k] == rest[n];
    RunIs(all, within, min, k);
    RunIs(rest, within, min, n);
    BeforeIsInside(older, |gone|, all);
    RecentAfter(gone, rest, within, open, n);
    RecentOfBoth(all, within, older, After(|gone|, open), k);
    first := Recent(all, within, older, k);
    RecentIsBefore(all, within, older, k, |gone|);
    OneMoreAfter(first, |gone|, Recent(rest, within, open, n), n);
  }

  lemma BeforeIsInside(s: seq<nat>, k: nat, rows: seq<Failure>)
    requires Before(s, k) && k <= |rows|
    ensures Indices(rows, s)
  {
  }

  lemma RecentIsBefore(rows: seq<Failure>, within: int, open: seq<nat>, n: nat, k: nat)
    requires n < |rows| && Indices(rows, open) && Before(open, k)
    ensures Before(Recent(rows, within, open, n), k)
  {
    RecentMembers(rows, within, open, n);
    hide Recent;
  }

  lemma OneMoreAfter(first: seq<nat>, k: nat, recent: seq<nat>, n: nat)
    ensures first + After(k, recent) + [k + n] == first + After(k, recent + [n])
  {
    assert After(k, recent + [n]) == After(k, recent) + [k + n];
  }

  lemma RunIs(rows: seq<Failure>, within: int, min: nat, n: nat)
    requires n < |rows|
    ensures Indices(rows, Open(rows, within, min, n, rows[n].who))
    ensures Run(rows, within, min, n) == Recent(rows, within, Open(rows, within, min, n, rows[n].who), n) + [n]
  {
  }

  lemma OpenNext(rows: seq<Failure>, within: int, min: nat, n: nat, who: string)
    requires n < |rows|
    ensures Open(rows, within, min, n + 1, who) ==
            if rows[n].who != who then Open(rows, within, min, n, who)
            else if |Run(rows, within, min, n)| >= min then [] else Run(rows, within, min, n)
  {
  }

  /** As long as no burst of the account straddles the cut, nothing else is different. */
  lemma {:induction false} CarriedOver(gone: seq<Failure>, rest: seq<Failure>, within: int, min: nat, n: nat,
      who: string)
      returns (older: seq<nat>)
    requires n <= |rest|
    requires forall m: nat :: m < n && rest[m].who == who ==> !Straddles(gone, rest, within, min, m)
    ensures Carries(gone, rest, within, min, n, who, older)
  {
    hide Run, Straddles, Open, Carries;
    if n == 0 {
      older := NothingYet(gone, rest, within, min, who);
    } else {
      older := CarriedOver(gone, rest, within, min, n - 1, who);
      older := CarriesOn(gone, rest, within, min, n - 1, who, older);
    }
  }

  lemma NothingYet(gone: seq<Failure>, rest: seq<Failure>, within: int, min: nat, who: string) returns (older: seq<nat>)
    ensures Carries(gone, rest, within, min, 0, who, older)
  {
    older := Open(gone + rest, within, min, |gone|, who);
    assert Open(rest, within, min, 0, who) == [];
    assert older + After(|gone|, []) == older;
  }

  lemma CarriesOn(gone: seq<Failure>, rest: seq<Failure>, within: int, min: nat, n: nat, who: string, older: seq<nat>)
      returns (still: seq<nat>)
    requires n < |rest| && Carries(gone, rest, within, min, n, who, older)
    requires rest[n].who == who ==> !Straddles(gone, rest, within, min, n)
    ensures Carries(gone, rest, within, min, n + 1, who, still)
  {
    hide Run, Straddles, Open;
    var all, k := gone + rest, |gone| + n;
    assert all[k] == rest[n];
    OpenNext(all, within, min, k, who);
    OpenNext(rest, within, min, n, who);
    still := older;
    if rest[n].who == who {
      var first := RunCarries(gone, rest, within, min, n, older);
      NothingIsFirst(gone, rest, within, min, n, first);
      still := if |Run(all, within, min, k)| >= min then [] else first;
      hide Carries;
      assert |Run(all, within, min, k)| >= min ==> [] + After(|gone|, []) == [];
    }
    assert |gone| + (n + 1) == k + 1;
  }

  lemma NothingIsFirst(gone: seq<Failure>, rest: seq<Failure>, within: int, min: nat, n: nat, first: seq<nat>)
    requires n < |rest| && Before(first, |gone|) && !Straddles(gone, rest, within, min, n)
    requires Run(gone + rest, within, min, |gone| + n) == first + After(|gone|, Run(rest, within, min, n))
    ensures |Run(gone + rest, within, min, |gone| + n)| >= min ==> first == []
  {
    hide Run;
    if first != [] {
      assert Run(gone + rest, within, min, |gone| + n)[0] == first[0];
    }
  }

  /** A failure completes the same burst in the rest as in the whole, unless that burst straddles the cut,
      and then it completes none. */
  lemma FoundAfterTheCut(gone: seq<Failure>, rest: seq<Failure>, within: int, min: nat, n: nat)
    requires n < |rest| && within >= 0
    requires forall m: nat :: m < n ==> !Straddles(gone, rest, within, min, m)
    ensures Found(rest, within, min, n) ==
            if Straddles(gone, rest, within, min, n) then None else Found(gone + rest, within, min, |gone| + n)
  {
    hide Run, Open, Straddles, Found, Carries;
    var older := CarriedOver(gone, rest, within, min, n, rest[n].who);
    var first := RunCarries(gone, rest, within, min, n, older);
    SameBurst(gone, rest, within, min, n, first);
  }

  lemma SameBurst(gone: seq<Failure>, rest: seq<Failure>, within: int, min: nat, n: nat, first: seq<nat>)
    requires n < |rest| && within >= 0 && Before(first, |gone|)
    requires Run(gone + rest, within, min, |gone| + n) == first + After(|gone|, Run(rest, within, min, n))
    ensures Found(rest, within, min, n) ==
            if Straddles(gone, rest, within, min, n) then None else Found(gone + rest, within, min, |gone| + n)
  {
    var all, k, run := gone + rest, |gone| + n, Run(rest, within, min, n);
    assert all[k] == rest[n];
    if Completes(all, within, min, k) {
      ABurstIsExactlyMin(all, within, min, k);
      if first != [] {
        assert Run(all, within, min, k)[0] == first[0];
      } else {
        assert all[|gone| + run[0]] == rest[run[0]];
      }
    }
    hide Run;
  }

  lemma {:induction false} FirstToStraddle(gone: seq<Failure>, rest: seq<Failure>, within: int, min: nat, n: nat)
      returns (m: nat)
    requires n < |rest| && Straddles(gone, rest, within, min, n)
    ensures m <= n && Straddles(gone, rest, within, min, m)
    ensures forall i: nat :: i < m ==> !Straddles(gone, rest, within, min, i)
  {
    m := n;
    hide Straddles;
    if i: nat :| i < n && Straddles(gone, rest, within, min, i) {
      m := FirstToStraddle(gone, rest, within, min, i);
    }
  }

  /** A scan that does not see what is before the cut finds, failure by failure, the bursts that a scan of
      everything finds after it, exactly when none of those began before the cut. */
  lemma LookBackFindsTheSame(gone: seq<Failure>, rest: seq<Failure>, within: int, min: nat)
    requires within >= 0
    ensures (forall n: nat :: n < |rest| ==> Found(rest, within, min, n) == Found(gone + rest, within, min, |gone| + n))
            <==> forall n: nat :: n < |rest| ==> !Straddles(gone, rest, within, min, n)
  {
    hide Found, Straddles;
    if n: nat :| n < |rest| && Straddles(gone, rest, within, min, n) {
      var m := FirstToStraddle(gone, rest, within, min, n);
      FoundAfterTheCut(gone, rest, within, min, m);
      StraddlingIsFound(gone, rest, within, min, m);
    } else {
      forall n: nat | n < |rest| ensures Found(rest, within, min, n) == Found(gone + rest, within, min, |gone| + n) {
        FoundAfterTheCut(gone, rest, within, min, n);
      }
    }
  }

  lemma StraddlingIsFound(gone: seq<Failure>, rest: seq<Failure>, within: int, min: nat, n: nat)
    requires n < |rest| && Straddles(gone, rest, within, min, n)
    ensures Found(gone + rest, within, min, |gone| + n).Some?
  {
  }

  /** When the cut is a moment, a burst straddles it exactly when it began before that moment. */
  lemma StraddlingIsByTime(gone: seq<Failure>, rest: seq<Failure>, within: int, min: nat, n: nat, since: int)
    requires n < |rest|
    requires forall i :: 0 <= i < |gone| ==> gone[i].at < since
    requires forall i :: 0 <= i < |rest| ==> rest[i].at >= since
    ensures var found := Found(gone + rest, within, min, |gone| + n);
            Straddles(gone, rest, within, min, n) <==> found.Some? && found.value.firstAt < since
  {
    var i := Run(gone + rest, within, min, |gone| + n)[0];
    assert i <= |gone| + n;
    assert (gone + rest)[i] == if i < |gone| then gone[i] else rest[i - |gone|];
  }

  // ------------------------------------------------------------------ a burst found twice

  function UpTo(n: nat): seq<nat> {
    seq(n, i => i)
  }

  /** Failures of one account inside one window. */
  ghost predicate OneAccount(rows: seq<Failure>, within: int, who: string) {
    forall i, j :: 0 <= i < |rows| && 0 <= j < |rows| ==> rows[i].who == who && rows[j].at - rows[i].at <= within
  }

  lemma {:induction false} AllAreOpen(rows: seq<Failure>, within: int, min: nat, who: string, n: nat)
    requires n < |rows| && n < min && OneAccount(rows, within, who)
    ensures Open(rows, within, min, n, who) == UpTo(n) && Run(rows, within, min, n) == UpTo(n + 1)
  {
    hide Run, Open, UpTo;
    if n == 0 {
      NothingOpen(rows, within, min, who);
    } else {
      AllAreOpen(rows, within, min, who, n - 1);
      OpenNext(rows, within, min, n - 1, who);
      LengthOf(n);
    }
    RunIsUpTo(rows, within, min, who, n);
  }

  lemma NothingOpen(rows: seq<Failure>, within: int, min: nat, who: string)
    ensures Open(rows, within, min, 0, who) == [] == UpTo(0)
  {
  }

  lemma LengthOf(n: nat)
    ensures |UpTo(n)| == n && UpTo(n + 1) == UpTo(n) + [n] && forall i :: 0 <= i < n ==> UpTo(n)[i] == i
  {
  }

  lemma RunIsUpTo(rows: seq<Failure>, within: int, min: nat, who: string, n: nat)
    requires n < |rows| && OneAccount(rows, within, who) && Open(rows, within, min, n, who) == UpTo(n)
    ensures Run(rows, within, min, n) == UpTo(n + 1)
  {
    hide Run, Open, Recent, UpTo;
    RunIs(rows, within, min, n);
    LengthOf(n);
    RecentKeepsAll(rows, within, [], UpTo(n), n);
    RecentOfNone(rows, within, n);
    assert [] + UpTo(n) == UpTo(n);
  }

  function SignIn(at: nat): Failure {
    Failure(at + 1, at, "alice")
  }

  const FIRST: seq<Failure> := [SignIn(0)]
  const NEXT_FIVE: seq<Failure> := [SignIn(1), SignIn(2), SignIn(3), SignIn(4), SignIn(5)]

  /** Six failures of one account in six seconds. The fifth completes a burst; once the first is out of
      sight, the fifth completes none and the sixth does: the same failures are found again as another
      burst. */
  lemma ABurstCanBeFoundTwice()
    ensures Found(FIRST + NEXT_FIVE, 900, 5, 4).Some? && Found(FIRST + NEXT_FIVE, 900, 5, 5).None?
    ensures Found(NEXT_FIVE, 900, 5, 3).None? && Found(NEXT_FIVE, 900, 5, 4).Some?
  {
    hide Run, Open, Recent, UpTo;
    var all := FIRST + NEXT_FIVE;
    assert OneAccount(all, 900, "alice") && OneAccount(NEXT_FIVE, 900, "alice");
    LengthOf(4);
    LengthOf(5);
    AllAreOpen(all, 900, 5, "alice", 4);
    AllAreOpen(NEXT_FIVE, 900, 5, "alice", 3);
    AllAreOpen(NEXT_FIVE, 900, 5, "alice", 4);
    OpenNext(all, 900, 5, 4, "alice");
    RunIs(all, 900, 5, 5);
    RecentOfNone(all, 900, 5);
  }
}
