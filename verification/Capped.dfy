/** How many messages of the queue a destination can be sent in one minute of the clock
    (`over_the_minute` and `charge` in src/notify.rs): the cap is counted in memory, so each process that
    runs in the minute can use all of it, and here is a run in which each does. */
module Capped {
  import opened Deliveries
  import opened Drain
  import opened Notify
  import opened Options

  /** How many times the process is started again before the `k`-th message. */
  function Restarts(k: nat): nat {
    if k == 0 then 0 else (k - 1) / PER_MINUTE
  }

  /** `n` events, and then messages for the first `k`, each taken, sent and recorded by itself; the process
      is started again whenever it has used up the minute. All of it at one moment. */
  function Sending(n: nat, k: nat): seq<Step>
    decreases k, 1
  {
    if k == 0 then Raises(n)
    else Began(n, k) + [Fetch([Key(k, 1)], 0)] + [Send(true, Accepted, 0)] + [Record(0)]
  }

  function Began(n: nat, k: nat): seq<Step>
    requires k > 0
    decreases k, 0
  {
    if Restarts(k) > Restarts(k - 1) then Sending(n, k - 1) + [Restart(0)] else Sending(n, k - 1)
  }

  /** `k` of `n` rows have been sent, after `r` restarts, and the rest are as they were raised. */
  ghost predicate Underway(s: State, n: nat, k: nat, r: nat) {
    && s.inFlight == [] && s.sending.None? && s.clock == 0
    && (forall i :: k < i <= n ==> Key(i, 1) in s.deliveries && s.deliveries[Key(i, 1)] == Delivery(Queued, 0, 0, []))
    && CountSent(s.log, 1, 0) == k && CountRestarts(s.restarts, 0) == r
    && SlotNow(s.used, 1, 0).count == k - PER_MINUTE * r
  }

  lemma AllRaised(s: State, n: nat)
    requires Jammed(s, n)
    ensures Underway(s, n, 0, 0)
  {
  }

  lemma StartedAgain(s: State, n: nat, k: nat, r: nat)
    requires Underway(s, n, k, r) && k == PER_MINUTE * (r + 1)
    ensures Enabled(s, Restart(0)) && Underway(DoRestart(s, 0), n, k, r + 1)
  {
    assert (s.restarts + [0])[..|s.restarts|] == s.restarts;
  }

  function Taken(s: State, key: Key): State {
    s.(inFlight := [key], clock := 0)
  }

  lemma OneGoesOut(s: State, n: nat, k: nat, r: nat)
    requires Underway(s, n, k, r) && k < n && k < PER_MINUTE * (r + 1)
    ensures Enabled(s, Fetch([Key(k + 1, 1)], 0))
    ensures var s1 := Taken(s, Key(k + 1, 1));
            && Enabled(s1, Send(true, Accepted, 0))
            && var s2 := DoSend(s1, true, Accepted, 0);
            && Enabled(s2, Record(0))
            && Underway(DoRecord(s2, 0), n, k + 1, r)
  {
    hide CountSent, CountRestarts, Recorded;
    OneMoreSent(s.log, Message(Key(k + 1, 1), 0, true), 1, 0);
  }

  lemma {:induction false} AllOfThemGoOut(n: nat, k: nat)
    requires k <= n
    ensures Underway(RunFrom(EMPTY, Sending(n, k)), n, k, Restarts(k))
  {
    hide Underway, RunFrom, Raises, DoSend, DoRecord, DoRestart, Enabled, Jammed;
    if k == 0 {
      ManyRaises(n);
      AllRaised(RunFrom(EMPTY, Raises(n)), n);
    } else {
      AllOfThemGoOut(n, k - 1);
      var began, key := Began(n, k), Key(k, 1);
      if Restarts(k) > Restarts(k - 1) {
        StartedAgain(RunFrom(EMPTY, Sending(n, k - 1)), n, k - 1, Restarts(k - 1));
        RunExtends(EMPTY, Sending(n, k - 1), Restart(0));
      }
      OneGoesOut(RunFrom(EMPTY, began), n, k - 1, Restarts(k));
      RunExtends(EMPTY, began, Fetch([key], 0));
      RunExtends(EMPTY, began + [Fetch([key], 0)], Send(true, Accepted, 0));
      RunExtends(EMPTY, began + [Fetch([key], 0)] + [Send(true, Accepted, 0)], Record(0));
    }
  }

  /** So no smaller bound holds: for any number of restarts there is a run with just that many in one
      minute, in which a destination is sent twenty for each process. With one restart it is forty. */
  lemma TwentyForEachProcess(r: nat) returns (steps: seq<Step>)
    ensures var s := RunFrom(EMPTY, steps);
            CountRestarts(s.restarts, 0) == r && CountSent(s.log, 1, 0) == 20 * (1 + r)
  {
    var n := PER_MINUTE * (1 + r);
    steps := Sending(n, n);
    AllOfThemGoOut(n, n);
  }
}
