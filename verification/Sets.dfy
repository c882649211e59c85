module Sets {
  lemma {:induction false} SubsetIsNoLarger<T>(small: set<T>, large: set<T>)
    requires small <= large
    ensures |small| <= |large|
  {
    if small != {} {
      var x :| x in small;
      SubsetIsNoLarger(small - {x}, large - {x});
    }
  }

  /** Where in a sequence something holds. */
  ghost function Where<T>(s: seq<T>, p: T -> bool): set<nat> {
    set i: nat | i < |s| && p(s[i])
  }

  lemma OneMoreWhere<T>(front: seq<T>, x: T, p: T -> bool)
    ensures |Where(front + [x], p)| == |Where(front, p)| + if p(x) then 1 else 0
  {
    assert Where(front + [x], p) == Where(front, p) + if p(x) then {|front|} else {};
  }
}
