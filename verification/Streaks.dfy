/** Runs of consecutive days (`longest_run` in src/recap.rs and the current streak in src/profile.rs). A
    day is its number, and the set of days is walked in order. */
module Streaks {
  import opened Options

  datatype Run = Run(length: int, from: int, to: int)

  ghost predicate InOrder(days: seq<int>) {
    forall i, j :: 0 <= i < j < |days| ==> days[i] < days[j]
  }

  /** Every day from one to the other is there. */
  ghost predicate IsRun(days: seq<int>, from: int, to: int) {
    from <= to && forall d :: from <= d <= to ==> d in days
  }

  /** No run among these days is longer, and none as long is earlier. */
  ghost predicate IsBest(days: seq<int>, best: Run) {
    && IsRun(days, best.from, best.to) && best.length == best.to - best.from + 1
    && forall from, to :: IsRun(days, from, to) ==>
         to - from + 1 < best.length || (to - from + 1 == best.length && from >= best.from)
  }

  /** The run that ends with the last of these days, and starts no later than it can. */
  ghost predicate EndsLast(days: seq<int>, run: Run) {
    days != [] && run.to == days[|days| - 1] && IsRun(days, run.from, run.to) && run.from - 1 !in days
  }

  lemma DayOfMore(days: seq<int>, d: int)
    ensures forall x :: x in days + [d] <==> x in days || x == d
  {
  }

  /** With one more day, either the run goes on or a new one starts. */
  lemma OneMoreDay(days: seq<int>, d: int, run: Option<Run>)
    requires InOrder(days + [d])
    requires if days == [] then run.None? else run.Some? && EndsLast(days, run.value)
    ensures var next := if run.Some? && d == run.value.to + 1 then run.value.from else d;
            EndsLast(days + [d], Run(d - next + 1, next, d))
  {
    DayOfMore(days, d);
    var next := if run.Some? && d == run.value.to + 1 then run.value.from else d;
    forall i | 0 <= i < |days| ensures days[i] < d && (i < |days| - 1 ==> days[i] < days[|days| - 1]) {
      assert (days + [d])[i] < (days + [d])[|days|];
      assert i < |days| - 1 ==> (days + [d])[i] < (days + [d])[|days| - 1];
    }
    assert next - 1 !in days + [d];
  }

  /** A run among the days and one more is a run without it, or ends with it inside the last run. */
  lemma RunsOfMore(days: seq<int>, d: int, last: Run, from: int, to: int)
    requires InOrder(days + [d]) && EndsLast(days + [d], last) && IsRun(days + [d], from, to)
    ensures IsRun(days, from, to) || (to == last.to && from >= last.from)
  {
    DayOfMore(days, d);
    forall x | x in days + [d] ensures x <= d {
      var i :| 0 <= i < |days + [d]| && (days + [d])[i] == x;
      assert i < |days| ==> (days + [d])[i] < (days + [d])[|days|];
    }
    assert to in days + [d];
    assert from <= last.from - 1 <= to ==> last.from - 1 in days + [d];
  }

  lemma BestOfMore(days: seq<int>, d: int, best: Option<Run>, last: Run)
    requires InOrder(days + [d]) && EndsLast(days + [d], last) && last.length == last.to - last.from + 1
    requires if days == [] then best.None? else best.Some? && IsBest(days, best.value)
    ensures IsBest(days + [d], if best.None? || last.length > best.value.length then last else best.value)
  {
    var best' := if best.None? || last.length > best.value.length then last else best.value;
    DayOfMore(days, d);
    forall from, to | IsRun(days + [d], from, to)
      ensures to - from + 1 < best'.length || (to - from + 1 == best'.length && from >= best'.from)
    {
      RunsOfMore(days, d, last, from, to);
      assert IsRun(days, from, to) ==> from in days;
      if !IsRun(days, from, to) && best.Some? && best' == best.value && to - from + 1 == best'.length {
        BestIsBefore(days, d, best');
      }
    }
  }

  lemma BestIsBefore(days: seq<int>, d: int, best: Run)
    requires InOrder(days + [d]) && IsRun(days, best.from, best.to)
    ensures best.to < d
  {
    assert best.to in days;
    var i :| 0 <= i < |days| && days[i] == best.to;
    assert (days + [d])[i] < (days + [d])[|days|];
  }

  /** The longest run of consecutive days, and of equals the earliest. */
  method LongestRun(days: seq<int>) returns (best: Option<Run>)
    requires InOrder(days)
    ensures days == [] <==> best.None?
    ensures best.Some? ==> IsBest(days, best.value)
  {
    best := None;
    var run: Option<Run> := None;
    var i := 0;
    while i < |days|
      invariant 0 <= i <= |days|
      invariant i == 0 <==> run.None?
      invariant run.None? <==> best.None?
      invariant i > 0 ==> EndsLast(days[..i], run.value) && IsBest(days[..i], best.value)
    {
      var d := days[i];
      assert days[..i + 1] == days[..i] + [d];
      OneMoreDay(days[..i], d, run);
      var from := if run.Some? && d == run.value.to + 1 then run.value.from else d;
      BestOfMore(days[..i], d, best, Run(d - from + 1, from, d));
      run := Some(Run(d - from + 1, from, d));
      if best.None? || run.value.length > best.value.length {
        best := run;
      }
      i := i + 1;
    }
    assert days[..i] == days;
  }

  ghost function UpTo(days: set<int>, d: int): set<int> {
    set x | x in days && x <= d
  }

  /** The streak that is still alive: it reached today, or else yesterday. */
  method Current(days: set<int>, today: int) returns (current: nat, since: Option<int>)
    ensures current == 0 <==> today !in days && today - 1 !in days
    ensures current == 0 <==> since.None?
    ensures current > 0 ==>
              var end := if today in days then today else today - 1;
              && since.value == end - current + 1
              && (forall d :: since.value <= d <= end ==> d in days)
              && since.value - 1 !in days
  {
    current, since := 0, None;
    var end := if today in days then today else today - 1;
    ghost var last := end;
    while end in days
      invariant end == last - current
      invariant forall d :: end < d <= last ==> d in days
      invariant current == 0 <==> since.None?
      invariant current > 0 ==> since == Some(end + 1)
      decreases UpTo(days, end)
    {
      assert end in UpTo(days, end) && end !in UpTo(days, end - 1);
      current, since := current + 1, Some(end);
      end := end - 1;
    }
  }

  /** The current streak is itself a run, so it is never longer than the longest. */
  method LongestAndCurrent(days: seq<int>, today: int) returns (longest: Option<Run>, current: nat)
    requires InOrder(days)
    ensures longest.None? ==> current == 0
    ensures longest.Some? ==> IsBest(days, longest.value) && current <= longest.value.length
    ensures forall from, to :: IsRun(days, from, to) && (to == today || (to == today - 1 && today !in days)) ==>
              to - from + 1 <= current
  {
    longest := LongestRun(days);
    var since;
    var all := set d | d in days;
    current, since := Current(all, today);
    assert forall d :: d in all <==> d in days;
    if current > 0 {
      CurrentIsMaximal(days, today, since.value, current);
    }
  }

  lemma CurrentIsMaximal(days: seq<int>, today: int, since: int, current: nat)
    requires current > 0 && since == (if today in days then today else today - 1) - current + 1
    requires (forall d :: since <= d < since + current ==> d in days) && since - 1 !in days
    ensures IsRun(days, since, since + current - 1)
    ensures forall from, to :: IsRun(days, from, to) && (to == today || (to == today - 1 && today !in days)) ==>
              to - from + 1 <= current
  {
    forall from, to | IsRun(days, from, to) && (to == today || (to == today - 1 && today !in days))
      ensures to - from + 1 <= current
    {
      assert to in days;
      assert from <= since - 1 <= to ==> since - 1 in days;
    }
  }
}
