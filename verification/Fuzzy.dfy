/** Forgiving search: is one word within a few slips of another (`within` in src/fuzzy.rs)?

    The scan keeps three rows of a table and gives up early in two ways. It is proved to answer
    exactly as the whole table would, and the table is proved to hold the least number of slips that
    turn one word into the other. */
module Fuzzy {
  import opened Numbers
  import opened Options

  // ------------------------------------------------------------------ what a slip is

  /** One step of typing `b` while meaning `a`, left to right. Swapped neighbours are one slip, and
      nothing is touched twice. */
  datatype Step = Keep | Replace(typed: char) | Drop | Add(extra: char) | Swap

  /** What is typed, or `None` when the steps do not fit the word. */
  function Typed(steps: seq<Step>, a: string): Option<string> {
    if steps == [] then (if a == [] then Some([]) else None)
    else
      var front, n := steps[..|steps| - 1], |a|;
      match steps[|steps| - 1]
      case Keep => if n >= 1 then Then(Typed(front, a[..n - 1]), [a[n - 1]]) else None
      case Replace(c) => if n >= 1 then Then(Typed(front, a[..n - 1]), [c]) else None
      case Drop => if n >= 1 then Typed(front, a[..n - 1]) else None
      case Add(c) => Then(Typed(front, a), [c])
      case Swap => if n >= 2 then Then(Typed(front, a[..n - 2]), [a[n - 1], a[n - 2]]) else None
  }

  function Then(s: Option<string>, more: string): Option<string> {
    if s.Some? then Some(s.value + more) else None
  }

  function Slips(steps: seq<Step>): nat {
    if steps == [] then 0
    else Slips(steps[..|steps| - 1]) + (if steps[|steps| - 1].Keep? then 0 else 1)
  }

  // ------------------------------------------------------------------ the distance

  predicate SwapsAt(a: string, b: string, i: nat, j: nat)
    requires 1 <= i <= |a| && 1 <= j <= |b|
  {
    i > 1 && j > 1 && a[i - 1] == b[j - 2] && a[i - 2] == b[j - 1]
  }

  /** Optimal string alignment distance between the first `i` characters of `a` and the first `j` of
      `b`, by recursion on what the two end in. */
  function Cell(a: string, b: string, i: nat, j: nat): nat
    requires i <= |a| && j <= |b|
    decreases i + j
  {
    if i == 0 then j
    else if j == 0 then i
    else
      var differ := if a[i - 1] != b[j - 1] then 1 else 0;
      var d := Min(Min(Cell(a, b, i - 1, j) + 1, Cell(a, b, i, j - 1) + 1), Cell(a, b, i - 1, j - 1) + differ);
      if SwapsAt(a, b, i, j) then Min(d, Cell(a, b, i - 2, j - 2) + 1) else d
  }

  function Distance(a: string, b: string): nat {
    Cell(a, b, |a|, |b|)
  }

  function LeastOf(up: nat, left: nat, diagonal: nat, differ: bool, swap: Option<nat>): nat {
    var d := Min(Min(up + 1, left + 1), diagonal + if differ then 1 else 0);
    if swap.Some? then Min(d, swap.value + 1) else d
  }

  /** One cell from its neighbours: the one above, the one to the left, the diagonal one, and for a
      swap the one two rows up. */
  lemma CellRule(a: string, b: string, i: nat, j: nat)
    requires 1 <= i <= |a| && 1 <= j <= |b|
    ensures Cell(a, b, i, j) ==
            LeastOf(Cell(a, b, i - 1, j), Cell(a, b, i, j - 1), Cell(a, b, i - 1, j - 1), a[i - 1] != b[j - 1],
                    if SwapsAt(a, b, i, j) then Some(Cell(a, b, i - 2, j - 2)) else None)
  {
  }

  lemma CellEdge(a: string, b: string, i: nat, j: nat)
    requires i <= |a| && j <= |b| && (i == 0 || j == 0)
    ensures Cell(a, b, i, j) == i + j
  {
  }

  /** No way of typing `b` for `a` takes fewer slips than the distance. */
  lemma {:induction false} NoFewerSlips(steps: seq<Step>, a: string, i: nat, b: string, j: nat)
    requires i <= |a| && j <= |b|
    requires Typed(steps, a[..i]) == Some(b[..j])
    ensures Cell(a, b, i, j) <= Slips(steps)
    decreases |steps|
  {
    hide Cell;
    if i >= 1 && j >= 1 { CellRule(a, b, i, j); } else { CellEdge(a, b, i, j); }
    if steps != [] {
      var front := steps[..|steps| - 1];
      hide Typed;
      LastOfSlices(steps, a, i, b, j);
      match steps[|steps| - 1]
      case Keep =>
        NoFewerSlips(front, a, i - 1, b, j - 1);
      case Replace(_) =>
        NoFewerSlips(front, a, i - 1, b, j - 1);
      case Drop =>
        if j == 0 { CellEdge(a, b, i - 1, j); }
        NoFewerSlips(front, a, i - 1, b, j);
      case Add(_) =>
        if i == 0 { CellEdge(a, b, i, j - 1); }
        NoFewerSlips(front, a, i, b, j - 1);
      case Swap =>
        NoFewerSlips(front, a, i - 2, b, j - 2);
    }
  }

  lemma ButLast(s: string, last: string, y: string)
    requires s + last == y
    ensures |last| <= |y| && s == y[..|y| - |last|] && forall k :: 0 <= k < |last| ==> last[k] == y[|y| - |last| + k]
  {
  }

  /** What the last step adds to what the steps before it type. */
  lemma LastOf(steps: seq<Step>, x: string)
    requires steps != [] && Typed(steps, x).Some?
    ensures var front, last, n := steps[..|steps| - 1], steps[|steps| - 1], |x|;
            && (last.Keep? || last.Replace? || last.Drop? ==> n >= 1 && Typed(front, x[..n - 1]).Some?)
            && (last.Keep? ==> Typed(steps, x).value == Typed(front, x[..n - 1]).value + [x[n - 1]])
            && (last.Replace? ==> Typed(steps, x).value == Typed(front, x[..n - 1]).value + [last.typed])
            && (last.Drop? ==> Typed(steps, x) == Typed(front, x[..n - 1]))
            && (last.Add? ==> Typed(front, x).Some? && Typed(steps, x).value == Typed(front, x).value + [last.extra])
            && (last.Swap? ==> n >= 2 && Typed(front, x[..n - 2]).Some?
                               && Typed(steps, x).value == Typed(front, x[..n - 2]).value + [x[n - 1], x[n - 2]])
  {
  }

  lemma ShorterSlices(s: string, i: nat)
    requires i <= |s|
    ensures i >= 1 ==> s[..i][..i - 1] == s[..i - 1]
    ensures i >= 2 ==> s[..i][..i - 2] == s[..i - 2]
  {
  }

  lemma LongerSlices(s: string, j: nat)
    requires j <= |s|
    ensures j >= 1 ==> s[..j] == s[..j - 1] + [s[j - 1]]
    ensures j >= 2 ==> s[..j] == s[..j - 2] + [s[j - 2], s[j - 1]]
  {
  }

  lemma LastOfSlices(steps: seq<Step>, a: string, i: nat, b: string, j: nat)
    requires i <= |a| && j <= |b| && steps != [] && Typed(steps, a[..i]) == Some(b[..j])
    ensures var front, last := steps[..|steps| - 1], steps[|steps| - 1];
            && (last.Keep? ==> i >= 1 && j >= 1 && a[i - 1] == b[j - 1])
            && (last.Keep? || last.Replace? ==> i >= 1 && j >= 1 && Typed(front, a[..i - 1]) == Some(b[..j - 1]))
            && (last.Drop? ==> i >= 1 && Typed(front, a[..i - 1]) == Some(b[..j]))
            && (last.Add? ==> j >= 1 && Typed(front, a[..i]) == Some(b[..j - 1]))
            && (last.Swap? ==> i >= 2 && j >= 2 && a[i - 1] == b[j - 2] && a[i - 2] == b[j - 1]
                               && Typed(front, a[..i - 2]) == Some(b[..j - 2]))
  {
    hide Typed;
    var x, y, front, last := a[..i], b[..j], steps[..|steps| - 1], steps[|steps| - 1];
    LastOf(steps, x);
    ShorterSlices(a, i);
    ShorterSlices(b, j);
    match last
    case Keep => ButLast(Typed(front, x[..i - 1]).value, [x[i - 1]], y);
    case Replace(c) => ButLast(Typed(front, x[..i - 1]).value, [c], y);
    case Drop =>
    case Add(c) => ButLast(Typed(front, x).value, [c], y);
    case Swap => ButLast(Typed(front, x[..i - 2]).value, [x[i - 1], x[i - 2]], y);
  }

  /** Do the last of `x` and of `y` fit this step, after the front of each? */
  predicate Fits(last: Step, frontX: string, x: string, frontY: string, y: string) {
    var n := |x|;
    match last
    case Keep => n >= 1 && x[..n - 1] == frontX && y == frontY + [x[n - 1]]
    case Replace(c) => n >= 1 && x[..n - 1] == frontX && y == frontY + [c]
    case Drop => n >= 1 && x[..n - 1] == frontX && y == frontY
    case Add(c) => x == frontX && y == frontY + [c]
    case Swap => n >= 2 && x[..n - 2] == frontX && y == frontY + [x[n - 1], x[n - 2]]
  }

  lemma LastStep(front: seq<Step>, last: Step, frontX: string, x: string, frontY: string, y: string)
    requires Typed(front, frontX) == Some(frontY) && Fits(last, frontX, x, frontY, y)
    ensures Typed(front + [last], x) == Some(y)
    ensures Slips(front + [last]) == Slips(front) + if last.Keep? then 0 else 1
  {
    assert (front + [last])[..|front + [last]| - 1] == front;
  }

  /** And some way takes exactly that many. */
  lemma {:induction false} SomeWayTakesThatMany(a: string, i: nat, b: string, j: nat) returns (steps: seq<Step>)
    requires i <= |a| && j <= |b|
    ensures Typed(steps, a[..i]) == Some(b[..j]) && Slips(steps) == Cell(a, b, i, j)
    decreases i + j
  {
    hide Cell;
    if i >= 1 && j >= 1 { CellRule(a, b, i, j); } else { CellEdge(a, b, i, j); }
    if i == 0 && j == 0 {
      return [];
    }
    if i == 0 { CellEdge(a, b, i, j - 1); }
    if j == 0 { CellEdge(a, b, i - 1, j); }
    var last: Step;
    var front: seq<Step>;
    hide Typed;
    var i', j' := 0, 0;
    if i == 0 || (j > 0 && Cell(a, b, i, j) == Cell(a, b, i, j - 1) + 1) {
      i', j', last := i, j - 1, Add(b[j - 1]);
    } else if j == 0 || Cell(a, b, i, j) == Cell(a, b, i - 1, j) + 1 {
      i', j', last := i - 1, j, Drop;
    } else if SwapsAt(a, b, i, j) && Cell(a, b, i, j) == Cell(a, b, i - 2, j - 2) + 1 {
      i', j', last := i - 2, j - 2, Swap;
    } else {
      i', j', last := i - 1, j - 1, if a[i - 1] == b[j - 1] then Keep else Replace(b[j - 1]);
    }
    front := SomeWayTakesThatMany(a, i', b, j');
    ShorterSlices(a, i);
    LongerSlices(b, j);
    LastStep(front, last, a[..i'], a[..i], b[..j'], b[..j]);
    steps := front + [last];
  }

  // ------------------------------------------------------------------ why giving up early is sound

  /** One character more or less costs at least one slip. */
  lemma {:induction false} LengthsApart(a: string, b: string, i: nat, j: nat)
    requires i <= |a| && j <= |b|
    ensures Cell(a, b, i, j) >= i - j && Cell(a, b, i, j) >= j - i
    decreases i + j
  {
    hide Cell;
    if i > 0 && j > 0 {
      CellRule(a, b, i, j);
      LengthsApart(a, b, i - 1, j);
      LengthsApart(a, b, i, j - 1);
      LengthsApart(a, b, i - 1, j - 1);
      if SwapsAt(a, b, i, j) {
        LengthsApart(a, b, i - 2, j - 2);
      }
    } else {
      CellEdge(a, b, i, j);
    }
  }

  ghost predicate RowBeyond(a: string, b: string, i: nat, max: nat)
    requires i <= |a|
  {
    forall j :: 0 <= j <= |b| ==> Cell(a, b, i, j) > max
  }

  /** A row wholly beyond `max` puts the next one beyond it too. A swap reads the row before last, but
      it cannot get under: the cell diagonally below what it reads, in the row that is beyond, costs
      no more than the swap itself. */
  lemma {:induction false} NextRowBeyond(a: string, b: string, i: nat, j: nat, max: nat)
    requires i < |a| && j <= |b| && RowBeyond(a, b, i, max)
    ensures Cell(a, b, i + 1, j) > max
    decreases j
  {
    hide Cell;
    assert Cell(a, b, i, j) > max;
    if j > 0 {
      NextRowBeyond(a, b, i, j - 1, max);
      assert Cell(a, b, i, j - 1) > max;
      CellRule(a, b, i + 1, j);
      if SwapsAt(a, b, i + 1, j) {
        CellRule(a, b, i, j - 1);
      }
    } else {
      CellEdge(a, b, i, 0);
      CellEdge(a, b, i + 1, 0);
    }
  }

  lemma {:induction false} EveryRowBeyond(a: string, b: string, i: nat, max: nat)
    requires i <= |a| && RowBeyond(a, b, i, max)
    ensures Distance(a, b) > max
    decreases |a| - i
  {
    hide Cell;
    if i < |a| {
      var next := i + 1;
      forall j: nat | j <= |b| ensures Cell(a, b, next, j) > max {
        NextRowBeyond(a, b, i, j, max);
      }
      EveryRowBeyond(a, b, next, max);
    }
  }

  // ------------------------------------------------------------------ the scan

  ghost predicate IsRow(row: array<nat>, a: string, b: string, i: nat)
    requires i <= |a|
    reads row
  {
    row.Length == |b| + 1 && forall j :: 0 <= j <= |b| ==> row[j] == Cell(a, b, i, j)
  }

  method Least(row: array<nat>) returns (least: nat)
    requires row.Length > 0
    ensures exists j :: 0 <= j < row.Length && row[j] == least
    ensures forall j :: 0 <= j < row.Length ==> least <= row[j]
  {
    least := row[0];
    for j := 1 to row.Length
      invariant exists k :: 0 <= k < row.Length && row[k] == least
      invariant forall k :: 0 <= k < j ==> least <= row[k]
    {
      if row[j] < least {
        least := row[j];
      }
    }
  }

  /** Row `i` of the table from the two above it. */
  method NextRow(a: string, b: string, i: nat, before: array<nat>, prev: array<nat>) returns (cur: array<nat>)
    requires 1 <= i <= |a|
    requires IsRow(prev, a, b, i - 1)
    requires i > 1 ==> IsRow(before, a, b, i - 2)
    ensures fresh(cur) && IsRow(cur, a, b, i)
  {
    hide Cell;
    cur := new nat[|b| + 1](_ => i);
    CellEdge(a, b, i, 0);
    for j := 1 to |b| + 1
      invariant forall k :: 0 <= k < j ==> cur[k] == Cell(a, b, i, k)
    {
      CellRule(a, b, i, j);
      var d := Min(Min(prev[j] + 1, cur[j - 1] + 1), prev[j - 1] + if a[i - 1] != b[j - 1] then 1 else 0);
      if i > 1 && j > 1 && a[i - 1] == b[j - 2] && a[i - 2] == b[j - 1] {
        d := Min(d, before[j - 2] + 1);
      }
      cur[j] := d;
    }
  }

  /** The scan with both of its early exits; neither ever changes the answer. */
  method Within(a: string, b: string, max: nat) returns (yes: bool)
    ensures yes <==> Distance(a, b) <= max
  {
    hide Cell;
    LengthsApart(a, b, |a|, |b|);
    if (if |a| >= |b| then |a| - |b| else |b| - |a|) > max {
      return false;
    }
    var before := new nat[0];
    var prev := new nat[|b| + 1](j => j);
    forall j: nat | j <= |b| ensures Cell(a, b, 0, j) == j {
      CellEdge(a, b, 0, j);
    }
    for i := 1 to |a| + 1
      invariant IsRow(prev, a, b, i - 1)
      invariant i > 1 ==> IsRow(before, a, b, i - 2)
    {
      var cur := NextRow(a, b, i, before, prev);
      var least := Least(cur);
      if least > max {
        EveryRowBeyond(a, b, i, max);
        return false;
      }
      before, prev := prev, cur;
    }
    return prev[|b|] <= max;
  }

  /** So a word is within `max` slips exactly when it can be typed with at most that many. */
  lemma WithinMeansTyped(a: string, b: string, max: nat)
    ensures Distance(a, b) <= max <==> exists steps :: Typed(steps, a) == Some(b) && Slips(steps) <= max
  {
    if Distance(a, b) <= max {
      assert a[..|a|] == a && b[..|b|] == b;
      var steps := SomeWayTakesThatMany(a, |a|, b, |b|);
    }
    forall steps | Typed(steps, a) == Some(b) ensures Distance(a, b) <= Slips(steps) {
      assert a[..|a|] == a && b[..|b|] == b;
      NoFewerSlips(steps, a, |a|, b, |b|);
    }
  }
}
