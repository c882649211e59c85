/** Thinning a country's outline: iterative Douglas–Peucker (`simplify` in tools/make-world-map.py),
    proved to keep exactly what the recursive algorithm keeps. */
module Simplify {
  import opened Options

  type Point = (real, real)

  /** An outline, the tolerance, and how far a point is from the chord between two others. The
      distance is left abstract: nothing here depends on how it is measured. */
  datatype Line = Line(points: seq<Point>, tol: real, far: (Point, Point, Point) -> real)

  function Off(l: Line, i: nat, a: nat, b: nat): real
    requires i < |l.points| && a < |l.points| && b < |l.points|
  {
    l.far(l.points[i], l.points[a], l.points[b])
  }

  /** The farthest point of (a, n) from the chord (a, b), the first of equals; 0 for none, which is
      never a point between two others. */
  function Farthest(l: Line, a: nat, b: nat, n: nat): (x: nat)
    requires a < n <= b < |l.points|
    ensures x == 0 || a < x < n
  {
    if n == a + 1 then 0
    else
      var x := Farthest(l, a, b, n - 1);
      if Off(l, n - 1, a, b) > WorstOf(l, a, b, x) then n - 1 else x
  }

  function WorstOf(l: Line, a: nat, b: nat, x: nat): real
    requires x < |l.points| && a < |l.points| && b < |l.points|
  {
    if x == 0 then 0.0 else Off(l, x, a, b)
  }

  /** Where the interval is split, if it is. */
  function SplitAt(l: Line, a: nat, b: nat): (x: Option<nat>)
    requires a < b < |l.points|
    ensures x.Some? ==> a < x.value < b
  {
    var x := Farthest(l, a, b, b);
    if WorstOf(l, a, b, x) > l.tol && x > 0 then Some(x) else None
  }

  /** The recursive algorithm: what is kept strictly between two kept points. */
  function Kept(l: Line, a: nat, b: nat): set<nat>
    requires a < b < |l.points|
    decreases b - a
  {
    match SplitAt(l, a, b)
    case None => {}
    case Some(x) => Kept(l, a, x) + {x} + Kept(l, x, b)
  }

  function Chosen(l: Line): set<nat>
    requires |l.points| >= 3
  {
    {0, |l.points| - 1} + Kept(l, 0, |l.points| - 1)
  }

  /** The points at the chosen places, in order. */
  function Pick(points: seq<Point>, chosen: set<nat>, n: nat): seq<Point>
    requires n <= |points|
  {
    if n == 0 then [] else Pick(points, chosen, n - 1) + if n - 1 in chosen then [points[n - 1]] else []
  }

  ghost function Before(chosen: set<nat>, n: nat): set<nat> {
    set i | i in chosen && i < n
  }

  lemma {:induction false} AsManyAsChosen(points: seq<Point>, chosen: set<nat>, n: nat)
    requires n <= |points|
    ensures |Pick(points, chosen, n)| == |Before(chosen, n)|
  {
    if n == 0 {
      assert Before(chosen, 0) == {};
    } else {
      AsManyAsChosen(points, chosen, n - 1);
      assert Before(chosen, n) == Before(chosen, n - 1) + if n - 1 in chosen then {n - 1} else {};
    }
  }

  /** There are as many as were chosen, and each stands at the place given by how many were chosen before it. */
  lemma {:induction false} PickExactly(points: seq<Point>, chosen: set<nat>, n: nat, k: nat)
    requires k < n <= |points| && k in chosen
    ensures |Pick(points, chosen, n)| == |Before(chosen, n)|
    ensures |Before(chosen, k)| < |Before(chosen, n)| && Pick(points, chosen, n)[|Before(chosen, k)|] == points[k]
  {
    hide Before;
    AsManyAsChosen(points, chosen, n);
    AsManyAsChosen(points, chosen, n - 1);
    if k < n - 1 {
      PickExactly(points, chosen, n - 1, k);
    }
  }

  // ------------------------------------------------------------------ what a split means

  lemma {:induction false} FarthestIsFarthest(l: Line, a: nat, b: nat, n: nat)
    requires a < n <= b < |l.points|
    ensures WorstOf(l, a, b, Farthest(l, a, b, n)) >= 0.0
    ensures forall i :: a < i < n ==> Off(l, i, a, b) <= WorstOf(l, a, b, Farthest(l, a, b, n))
  {
    if n > a + 1 {
      FarthestIsFarthest(l, a, b, n - 1);
    }
  }

  /** An interval is left alone exactly when every point inside is within the tolerance of its chord
      (of nothing at all, should the tolerance be negative); otherwise it is split at the farthest. */
  lemma SplitMeans(l: Line, a: nat, b: nat)
    requires a < b < |l.points|
    ensures SplitAt(l, a, b).None? && l.tol >= 0.0 ==> forall i :: a < i < b ==> Off(l, i, a, b) <= l.tol
    ensures SplitAt(l, a, b).None? && l.tol < 0.0 ==> forall i :: a < i < b ==> Off(l, i, a, b) <= 0.0
    ensures SplitAt(l, a, b).Some? ==>
              Off(l, SplitAt(l, a, b).value, a, b) > l.tol
              && forall i :: a < i < b ==> Off(l, i, a, b) <= Off(l, SplitAt(l, a, b).value, a, b)
  {
    FarthestIsFarthest(l, a, b, b);
  }

  ghost predicate Neighbours(chosen: set<nat>, a: nat, b: nat) {
    a < b && a in chosen && b in chosen && forall i :: a < i < b ==> i !in chosen
  }

  lemma {:induction false} KeptIsInside(l: Line, a: nat, b: nat)
    requires a < b < |l.points|
    ensures forall i :: i in Kept(l, a, b) ==> a < i < b
    decreases b - a
  {
    if SplitAt(l, a, b).Some? {
      KeptIsInside(l, a, SplitAt(l, a, b).value);
      KeptIsInside(l, SplitAt(l, a, b).value, b);
    }
  }

  // ------------------------------------------------------------------ the stack

  datatype Interval = Interval(lo: nat, hi: nat)

  /** What is still to be kept by the intervals on the stack. */
  function Pending(l: Line, stack: seq<Interval>): set<nat>
    requires InRange(l, stack)
  {
    if stack == [] then {}
    else
      var top := stack[|stack| - 1];
      Pending(l, stack[..|stack| - 1]) + Kept(l, top.lo, top.hi)
  }

  predicate InRange(l: Line, stack: seq<Interval>) {
    forall k :: 0 <= k < |stack| ==> stack[k].lo < stack[k].hi < |l.points|
  }

  /** How much splitting the stack can still take. */
  function Work(stack: seq<Interval>): int {
    if stack == [] then 0
    else
      var lo: int, hi: int := stack[|stack| - 1].lo, stack[|stack| - 1].hi;
      Work(stack[..|stack| - 1]) + 2 * (hi - lo) - 1
  }

  /** The stack holds exactly the unfinished intervals: each joins two neighbouring kept points, none is
      there twice, and neighbours that are not on it are finished. */
  ghost predicate HoldsTheUnfinished(l: Line, chosen: set<nat>, stack: seq<Interval>) {
    && InRange(l, stack)
    && (forall i :: i in chosen ==> i < |l.points|)
    && (forall k :: 0 <= k < |stack| ==> Neighbours(chosen, stack[k].lo, stack[k].hi))
    && (forall k, m :: 0 <= k < m < |stack| ==> stack[k] != stack[m])
    && (forall a: nat, b: nat :: Neighbours(chosen, a, b) && Interval(a, b) !in stack ==> SplitAt(l, a, b).None?)
  }

  lemma {:induction false} WorkIsLeft(stack: seq<Interval>)
    requires forall k :: 0 <= k < |stack| ==> stack[k].lo < stack[k].hi
    ensures Work(stack) >= |stack|
  {
    if stack != [] {
      WorkIsLeft(stack[..|stack| - 1]);
    }
  }

  lemma FinishedIsDropped(l: Line, chosen: set<nat>, stack: seq<Interval>, a: nat, b: nat)
    requires a < b < |l.points|
    requires HoldsTheUnfinished(l, chosen, stack + [Interval(a, b)]) && SplitAt(l, a, b).None?
    ensures HoldsTheUnfinished(l, chosen, stack)
  {
    var all := stack + [Interval(a, b)];
    hide Neighbours, SplitAt;
    assert forall k :: 0 <= k < |stack| ==> all[k] == stack[k];
    assert forall i :: i in all <==> i in stack || i == Interval(a, b);
  }

  lemma NewNeighbours(chosen: set<nat>, a: nat, b: nat, x: nat, c: nat, d: nat)
    requires Neighbours(chosen, a, b) && a < x < b && Neighbours(chosen + {x}, c, d)
    ensures c < d && (c == x || c in chosen) && (d == x || d in chosen)
    ensures (c == a && d == x) || (c == x && d == b) || (Neighbours(chosen, c, d) && !(c == a && d == b))
  {
  }

  lemma StillNeighbours(chosen: set<nat>, a: nat, b: nat, x: nat, c: nat, d: nat)
    requires Neighbours(chosen, a, b) && a < x < b && Neighbours(chosen, c, d) && !(c == a && d == b)
    ensures Neighbours(chosen + {x}, c, d) && !(c < x < d)
  {
  }

  lemma HalvesAreNew(l: Line, chosen: set<nat>, stack: seq<Interval>, a: nat, b: nat, x: nat)
    requires HoldsTheUnfinished(l, chosen, stack + [Interval(a, b)]) && a < x < b
    ensures Neighbours(chosen, a, b) && Neighbours(chosen + {x}, a, x) && Neighbours(chosen + {x}, x, b)
    ensures forall k :: 0 <= k < |stack| ==>
              && Neighbours(chosen + {x}, stack[k].lo, stack[k].hi)
              && stack[k] != Interval(a, x) && stack[k] != Interval(x, b)
  {
    hide SplitAt;
    var all := stack + [Interval(a, b)];
    assert all[|stack|] == Interval(a, b);
    assert Neighbours(chosen, a, b);
    forall k | 0 <= k < |stack|
      ensures Neighbours(chosen + {x}, stack[k].lo, stack[k].hi)
      ensures stack[k] != Interval(a, x) && stack[k] != Interval(x, b)
    {
      assert stack[k] == all[k] && all[k] != Interval(a, b);
      StillNeighbours(chosen, a, b, x, stack[k].lo, stack[k].hi);
    }
  }

  lemma OthersStayFinished(l: Line, chosen: set<nat>, stack: seq<Interval>, a: nat, b: nat, x: nat)
    requires HoldsTheUnfinished(l, chosen, stack + [Interval(a, b)])
    requires a < x < b < |l.points| && Neighbours(chosen, a, b)
    ensures forall c: nat, d: nat ::
              Neighbours(chosen + {x}, c, d) && Interval(c, d) !in stack + [Interval(a, x), Interval(x, b)] ==>
                c < d < |l.points| && SplitAt(l, c, d).None?
  {
    hide SplitAt, Neighbours;
    var all, after := stack + [Interval(a, b)], stack + [Interval(a, x), Interval(x, b)];
    assert after[|stack|] == Interval(a, x) && after[|stack| + 1] == Interval(x, b);
    assert forall i :: i in stack ==> i in after;
    assert forall i :: i in all <==> i in stack || i == Interval(a, b);
    forall c: nat, d: nat | Neighbours(chosen + {x}, c, d) && Interval(c, d) !in after
      ensures c < d < |l.points| && SplitAt(l, c, d).None?
    {
      NewNeighbours(chosen, a, b, x, c, d);
    }
  }

  lemma SplitIsInside(l: Line, a: nat, b: nat, x: nat)
    requires a < b < |l.points| && SplitAt(l, a, b) == Some(x)
    ensures a < x < b
  {
  }

  lemma AllDifferent(stack: seq<Interval>, a: nat, b: nat, x: nat)
    requires a < x < b && forall k, m :: 0 <= k < m < |stack| ==> stack[k] != stack[m]
    requires forall k :: 0 <= k < |stack| ==> stack[k] != Interval(a, x) && stack[k] != Interval(x, b)
    ensures var after := stack + [Interval(a, x), Interval(x, b)];
            forall k, m :: 0 <= k < m < |after| ==> after[k] != after[m]
  {
  }

  lemma SplitIsPushed(l: Line, chosen: set<nat>, stack: seq<Interval>, a: nat, b: nat, x: nat)
    requires a < b < |l.points|
    requires HoldsTheUnfinished(l, chosen, stack + [Interval(a, b)]) && SplitAt(l, a, b) == Some(x)
    ensures HoldsTheUnfinished(l, chosen + {x}, stack + [Interval(a, x), Interval(x, b)])
  {
    hide SplitAt, Neighbours;
    SplitIsInside(l, a, b, x);
    HalvesAreNew(l, chosen, stack, a, b, x);
    OthersStayFinished(l, chosen, stack, a, b, x);
    var all, after := stack + [Interval(a, b)], stack + [Interval(a, x), Interval(x, b)];
    assert forall k :: 0 <= k < |stack| ==> stack[k] == all[k] == after[k];
    AllDifferent(stack, a, b, x);
  }

  // ------------------------------------------------------------------ the loop

  method FindFarthest(l: Line, a: nat, b: nat) returns (worst: real, index: int)
    requires a < b < |l.points|
    ensures worst == WorstOf(l, a, b, Farthest(l, a, b, b))
    ensures index == if Farthest(l, a, b, b) == 0 then -1 else Farthest(l, a, b, b)
  {
    worst, index := 0.0, -1;
    for i := a + 1 to b
      invariant worst == WorstOf(l, a, b, Farthest(l, a, b, i))
      invariant index == if Farthest(l, a, b, i) == 0 then -1 else Farthest(l, a, b, i)
    {
      var d := Off(l, i, a, b);
      if d > worst {
        worst, index := d, i;
      }
    }
  }

  ghost function ChosenIn(keep: array<bool>): set<nat>
    reads keep
  {
    set i: nat | i < keep.Length && keep[i]
  }

  /** Which points are kept. The stack never holds anything but the unfinished intervals, so when it is
      empty every pair of neighbours kept is finished. */
  method Mark(l: Line) returns (keep: array<bool>)
    requires |l.points| >= 3
    ensures fresh(keep) && keep.Length == |l.points|
    ensures ChosenIn(keep) == Chosen(l)
    ensures HoldsTheUnfinished(l, Chosen(l), [])
  {
    hide HoldsTheUnfinished, Pending, Work, Kept, Chosen, SplitAt;
    var n := |l.points|;
    keep := new bool[n](_ => false);
    keep[0], keep[n - 1] := true, true;
    var stack := [Interval(0, n - 1)];
    assert ChosenIn(keep) == {0, n - 1};
    JustTheEnds(l);
    while stack != []
      invariant keep.Length == n
      invariant HoldsTheUnfinished(l, ChosenIn(keep), stack)
      invariant InRange(l, stack) && ChosenIn(keep) + Pending(l, stack) == Chosen(l)
      decreases Work(stack)
    {
      ghost var chosen := ChosenIn(keep);
      var top := stack[|stack| - 1];
      TopOfStack(l, chosen, stack);
      stack := stack[..|stack| - 1];
      var worst, index := FindFarthest(l, top.lo, top.hi);
      Verdict(l, top.lo, top.hi);
      if worst > l.tol && index > 0 {
        keep[index] := true;
        assert ChosenIn(keep) == chosen + {index};
        SplitIsPushed(l, chosen, stack, top.lo, top.hi, index);
        PendingSplits(l, stack, top.lo, index, top.hi);
        stack := stack + [Interval(top.lo, index), Interval(index, top.hi)];
      } else {
        FinishedIsDropped(l, chosen, stack, top.lo, top.hi);
      }
    }
    assert Pending(l, []) == {} by {
      NothingPending(l);
    }
  }

  lemma NothingPending(l: Line)
    ensures Pending(l, []) == {}
  {
  }

  lemma TopOfStack(l: Line, chosen: set<nat>, stack: seq<Interval>)
    requires stack != [] && HoldsTheUnfinished(l, chosen, stack)
    ensures var front, top := stack[..|stack| - 1], stack[|stack| - 1];
            && stack == front + [top] && top.lo < top.hi < |l.points| && InRange(l, front)
            && Pending(l, stack) == Pending(l, front) + Kept(l, top.lo, top.hi)
            && Work(stack) == Work(front) + 2 * (top.hi as int - top.lo as int) - 1 && Work(front) >= 0
  {
    hide Kept, SplitAt, Neighbours;
    WorkIsLeft(stack[..|stack| - 1]);
  }

  /** What the code's test decides, and what is kept either way. */
  lemma Verdict(l: Line, a: nat, b: nat)
    requires a < b < |l.points|
    ensures var x := Farthest(l, a, b, b);
            if WorstOf(l, a, b, x) > l.tol && x > 0
            then SplitAt(l, a, b) == Some(x) && Kept(l, a, b) == Kept(l, a, x) + {x} + Kept(l, x, b)
            else SplitAt(l, a, b) == None && Kept(l, a, b) == {}
  {
    hide Farthest;
  }

  lemma JustTheEnds(l: Line)
    requires |l.points| >= 3
    ensures HoldsTheUnfinished(l, {0, |l.points| - 1}, [Interval(0, |l.points| - 1)])
    ensures {0, |l.points| - 1} + Pending(l, [Interval(0, |l.points| - 1)]) == Chosen(l)
  {
    hide SplitAt, Kept;
    var stack := [Interval(0, |l.points| - 1)];
    assert stack[0] in stack;
    assert Pending(l, stack[..0]) == {};
  }

  lemma PendingSplits(l: Line, stack: seq<Interval>, a: nat, x: nat, b: nat)
    requires InRange(l, stack) && a < x < b < |l.points|
    ensures InRange(l, stack + [Interval(a, x), Interval(x, b)])
    ensures Pending(l, stack + [Interval(a, x), Interval(x, b)]) == Pending(l, stack) + Kept(l, a, x) + Kept(l, x, b)
    ensures Work(stack + [Interval(a, x), Interval(x, b)]) == Work(stack) + 2 * (b - a) - 2
  {
    hide Kept;
    var one, two := stack + [Interval(a, x)], stack + [Interval(a, x), Interval(x, b)];
    assert two[..|two| - 1] == one && one[..|one| - 1] == stack;
  }

  /** Iterative Douglas–Peucker: an outline of fewer than three points is left as it is, and of any other
      exactly the points the recursive algorithm chooses are kept, in order. */
  method Simplified(l: Line) returns (out: seq<Point>)
    ensures |l.points| < 3 ==> out == l.points
    ensures |l.points| >= 3 ==> out == Pick(l.points, Chosen(l), |l.points|)
    ensures |l.points| >= 3 ==> HoldsTheUnfinished(l, Chosen(l), [])
  {
    if |l.points| < 3 {
      return l.points;
    }
    var keep := Mark(l);
    out := [];
    for i := 0 to |l.points|
      invariant out == Pick(l.points, Chosen(l), i)
    {
      assert keep[i] <==> i in ChosenIn(keep);
      if keep[i] {
        out := out + [l.points[i]];
      }
    }
  }

  // ------------------------------------------------------------------ what is promised of the result

  /** Neighbours kept are never to be split further. */
  lemma {:induction false} NeighboursAreFinished(l: Line, a: nat, b: nat, c: nat, d: nat)
    requires a < b < |l.points| && Neighbours({a, b} + Kept(l, a, b), c, d)
    ensures d < |l.points| && SplitAt(l, c, d).None?
    decreases b - a
  {
    KeptIsInside(l, a, b);
    match SplitAt(l, a, b)
    case None =>
      assert c == a && d == b;
    case Some(x) =>
      KeptIsInside(l, a, x);
      KeptIsInside(l, x, b);
      var all, left, right := {a, b} + Kept(l, a, b), {a, x} + Kept(l, a, x), {x, b} + Kept(l, x, b);
      assert all == left + right;
      assert forall i :: i in left <==> i in all && i <= x;
      assert forall i :: i in right <==> i in all && i >= x;
      if d <= x {
        NeighboursAreFinished(l, a, x, c, d);
      } else {
        NeighboursAreFinished(l, x, b, c, d);
      }
  }

  /** Point `i` is dropped, and `a` and `b` are the kept points on either side of it. */
  ghost predicate Dropped(l: Line, a: nat, b: nat, i: nat)
    requires |l.points| >= 3
  {
    Neighbours(Chosen(l), a, b) && a < i < b
  }

  /** Every point dropped is within the tolerance of the chord between the kept points on either side of
      it. */
  ghost predicate DroppedAreWithin(l: Line)
    requires |l.points| >= 3
  {
    forall a: nat, b: nat, i: nat :: Dropped(l, a, b, i) ==> b < |l.points| && Off(l, i, a, b) <= l.tol
  }

  ghost predicate NothingIsDropped(l: Line)
    requires |l.points| >= 3
  {
    forall i: nat :: i < |l.points| ==> i in Chosen(l)
  }

  ghost predicate IsDistance(far: (Point, Point, Point) -> real) {
    forall p: Point, q: Point, r: Point :: far(p, q, r) >= 0.0
  }

  /** With a tolerance that is not negative both ends are kept, and what is dropped is within it. */
  lemma DroppedIsClose(l: Line)
    requires |l.points| >= 3 && l.tol >= 0.0
    ensures 0 in Chosen(l) && |l.points| - 1 in Chosen(l)
    ensures DroppedAreWithin(l)
  {
    forall a: nat, b: nat, i: nat | Dropped(l, a, b, i)
      ensures b < |l.points| && Off(l, i, a, b) <= l.tol
    {
      NeighboursAreFinished(l, 0, |l.points| - 1, a, b);
      SplitMeans(l, a, b);
    }
  }

  /** Whatever the tolerance, what is dropped is within it or exactly on the chord. */
  lemma DroppedIsOnTheChord(l: Line, a: nat, b: nat, i: nat)
    requires |l.points| >= 3 && IsDistance(l.far) && Dropped(l, a, b, i)
    ensures b < |l.points| && (Off(l, i, a, b) <= l.tol || Off(l, i, a, b) == 0.0)
  {
    NeighboursAreFinished(l, 0, |l.points| - 1, a, b);
    SplitMeans(l, a, b);
    assert Off(l, i, a, b) >= 0.0;
  }

  lemma {:induction false} KeptBelow(chosen: set<nat>, i: nat) returns (a: nat)
    requires 0 in chosen
    ensures a <= i && a in chosen && forall k :: a < k <= i ==> k !in chosen
  {
    if i in chosen {
      a := i;
    } else {
      a := KeptBelow(chosen, i - 1);
    }
  }

  lemma {:induction false} KeptAbove(chosen: set<nat>, i: nat, last: nat) returns (b: nat)
    requires i <= last && last in chosen
    ensures i <= b <= last && b in chosen && forall k :: i <= k < b ==> k !in chosen
    decreases last - i
  {
    if i in chosen {
      b := i;
    } else {
      b := KeptAbove(chosen, i + 1, last);
    }
  }

  /** So what is dropped is within the tolerance exactly when the tolerance is not negative or nothing is
      dropped at all. */
  lemma DroppedAreWithinExactly(l: Line)
    requires |l.points| >= 3 && IsDistance(l.far)
    ensures DroppedAreWithin(l) <==> l.tol >= 0.0 || NothingIsDropped(l)
  {
    var last := |l.points| - 1;
    KeptIsInside(l, 0, last);
    if l.tol >= 0.0 {
      DroppedIsClose(l);
    } else if !NothingIsDropped(l) {
      var i: nat :| i < |l.points| && i !in Chosen(l);
      var a := KeptBelow(Chosen(l), i - 1);
      var b := KeptAbove(Chosen(l), i + 1, last);
      hide Chosen;
      assert Dropped(l, a, b, i);
      assert Off(l, i, a, b) >= 0.0 > l.tol;
    } else {
      OnlyInside(l);
    }
  }

  lemma OnlyInside(l: Line)
    requires |l.points| >= 3 && NothingIsDropped(l)
    ensures DroppedAreWithin(l)
  {
    KeptIsInside(l, 0, |l.points| - 1);
    forall a: nat, b: nat, i: nat ensures !Dropped(l, a, b, i) {
      assert b in Chosen(l) ==> b < |l.points|;
      assert i < |l.points| ==> i in Chosen(l);
    }
  }

  /** The distance from the line through two points of equal height. */
  function Height(p: Point, a: Point, b: Point): real {
    if p.1 >= a.1 then p.1 - a.1 else a.1 - p.1
  }

  const STRAIGHT: Line := Line([(0.0, 0.0), (1.0, 0.0), (2.0, 0.0)], -1.0, Height)

  /** A point on the chord of the other two is dropped whatever the tolerance: three points of a straight
      line, the middle one dropped at distance zero, beyond a tolerance below it. */
  lemma DroppedBeyondTheTolerance()
    ensures IsDistance(STRAIGHT.far) && Chosen(STRAIGHT) == {0, 2}
    ensures Off(STRAIGHT, 1, 0, 2) == 0.0 && !DroppedAreWithin(STRAIGHT)
  {
    assert Off(STRAIGHT, 1, 0, 2) == 0.0;
    assert Farthest(STRAIGHT, 0, 2, 1) == 0;
    assert Farthest(STRAIGHT, 0, 2, 2) == 0;
    assert SplitAt(STRAIGHT, 0, 2) == None;
    assert Chosen(STRAIGHT) == {0, 2};
    assert Dropped(STRAIGHT, 0, 2, 1);
    assert IsDistance(Height);
  }

  /** And nothing is kept without need: every inner point kept was, when it was chosen, the farthest from
      the chord of an interval between two kept points, and farther than the tolerance. */
  lemma {:induction false} KeptIsNeeded(l: Line, a: nat, b: nat, x: nat) returns (c: nat, d: nat)
    requires a < b < |l.points| && x in Kept(l, a, b)
    ensures a <= c < x < d <= b && SplitAt(l, c, d) == Some(x)
    ensures c == a || c in Kept(l, a, b)
    ensures d == b || d in Kept(l, a, b)
    ensures Off(l, x, c, d) > l.tol && forall i :: c < i < d ==> Off(l, i, c, d) <= Off(l, x, c, d)
    decreases b - a
  {
    var m := SplitAt(l, a, b).value;
    hide SplitAt;
    if x == m {
      c, d := a, b;
      SplitMeans(l, a, b);
    } else if x in Kept(l, a, m) {
      c, d := KeptIsNeeded(l, a, m, x);
    } else {
      c, d := KeptIsNeeded(l, m, b, x);
    }
  }
}
