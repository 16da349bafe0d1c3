/**
 Length warnings of ThreadSafeJobQueue along the runs of its threads: which pushes warn, and
 that taking jobs out does not re-arm the warning.
 */
module JobWarnings {
  import opened Options
  import opened JobQueue
  import opened JobProtocol

  /** The lengths that accepted pushes leave, in order. */
  ghost function Seen<Job>(s: Setup, c: State<Job>, actions: seq<Action<Job>>, c': State<Job>): seq<nat>
    requires Runs(s, c, actions, c')
    decreases |actions|
  {
    if actions == [] then []
    else
      var c1 := Step(s, c, actions[0]);
      (if |c1.accepted| > |c.accepted| then [|c1.mon.queue|] else []) + Seen(s, c1, actions[1..], c')
  }

  /** The lengths among these that rise to the threshold; `high` says whether the one before was there already. */
  function Rises(warnSize: nat, high: bool, lengths: seq<nat>): seq<nat>
    decreases |lengths|
  {
    if lengths == [] then []
    else
      (if lengths[0] >= warnSize && !high then [lengths[0]] else [])
      + Rises(warnSize, lengths[0] >= warnSize, lengths[1..])
  }

  function HighAfter(warnSize: nat, high: bool, lengths: seq<nat>): bool {
    if lengths == [] then high else lengths[|lengths| - 1] >= warnSize
  }

  /** The warning callback is never taken away. */
  ghost predicate KeepsWarning<Job>(actions: seq<Action<Job>>) {
    forall i :: 0 <= i < |actions| ==> KeepsCallback(actions[i])
  }

  predicate KeepsCallback<Job>(a: Action<Job>) {
    a.SetWarn? ==> a.to.Some?
  }

  lemma {:induction false} ClearingWarnsNot<Job>(calls: seq<Call<Job>>, cb: Option<Callback>, jobs: seq<Job>)
    ensures Warnings(calls + ClearCalls(cb, jobs)) == Warnings(calls)
    decreases |jobs|
  {
    if jobs == [] || cb.None? {
      assert calls + ClearCalls(cb, jobs) == calls;
    } else {
      var n := |jobs| - 1;
      ClearingWarnsNot(calls, cb, jobs[..n]);
      assert (calls + ClearCalls(cb, jobs))[..|calls| + n] == calls + ClearCalls(cb, jobs[..n]);
    }
  }

  lemma WarningAdds<Job>(calls: seq<Call<Job>>, to: Callback, n: nat)
    ensures Warnings(calls + [Warning(to, n)]) == Warnings(calls) + [n]
  {
    assert (calls + [Warning(to, n)])[..|calls|] == calls;
  }

  /** One step: a push warns when it rises to the threshold; nothing else warns or changes the flag. */
  lemma StepWarns<Job>(s: Setup, c: State<Job>, a: Action<Job>)
    requires Enabled(s, c, a) && KeepsCallback(a) && c.mon.warnCallback.Some? && s.limits.warnSize > 0
    ensures var c' := Step(s, c, a);
            var pushed := |c'.accepted| > |c.accepted|;
            && c'.mon.warnCallback.Some?
            && c'.mon.warned == (if pushed then |c'.mon.queue| >= s.limits.warnSize else c.mon.warned)
            && Warnings(c'.mon.calls) == Warnings(c.mon.calls)
               + (if pushed && |c'.mon.queue| >= s.limits.warnSize && !c.mon.warned then [|c'.mon.queue|] else [])
  {
    hide Warnings;
    match a
    case TestPush(t) =>
      var m := c.mon.(queue := c.mon.queue + c.threads[t].jobs);
      WarningAdds(m.calls, m.warnCallback.value, |m.queue|);
    case DoClear(t) =>
      ClearingWarnsNot(c.mon.calls, c.mon.clearCallback, c.mon.queue);
    case _ =>
  }

  lemma NoRise(warnSize: nat, high: bool)
    ensures Rises(warnSize, high, []) == [] && HighAfter(warnSize, high, []) == high
  {
  }

  lemma RisesFrom(warnSize: nat, high: bool, n: nat, rest: seq<nat>)
    ensures Rises(warnSize, high, [n] + rest)
            == (if n >= warnSize && !high then [n] else []) + Rises(warnSize, n >= warnSize, rest)
    ensures HighAfter(warnSize, high, [n] + rest) == HighAfter(warnSize, n >= warnSize, rest)
  {
    assert ([n] + rest)[1..] == rest;
  }

  /** Along every run, the warnings given are those lengths that pushes found risen to the threshold. What fetches and
      clears do in between plays no part. */
  lemma {:induction false} RunWarns<Job>(s: Setup, c: State<Job>, actions: seq<Action<Job>>, c': State<Job>)
    requires Runs(s, c, actions, c') && KeepsWarning(actions) && c.mon.warnCallback.Some? && s.limits.warnSize > 0
    ensures var lengths := Seen(s, c, actions, c');
            && Warnings(c'.mon.calls) == Warnings(c.mon.calls) + Rises(s.limits.warnSize, c.mon.warned, lengths)
            && c'.mon.warned == HighAfter(s.limits.warnSize, c.mon.warned, lengths)
    decreases |actions|
  {
    hide Step, Enabled, Warnings, KeepsCallback, Rises, HighAfter;
    if actions != [] {
      var c1 := Step(s, c, actions[0]);
      StepWarns(s, c, actions[0]);
      RunWarns(s, c1, actions[1..], c');
      var w, rest, n := s.limits.warnSize, Seen(s, c1, actions[1..], c'), |c1.mon.queue|;
      RisesFrom(w, c.mon.warned, n, rest);
      if |c1.accepted| > |c.accepted| {
        assert Seen(s, c, actions, c') == [n] + rest;
        Regroup(Warnings(c.mon.calls), if n >= w && !c.mon.warned then [n] else [], Rises(w, n >= w, rest));
      } else {
        assert Seen(s, c, actions, c') == [] + rest == rest;
        assert Warnings(c1.mon.calls) == Warnings(c.mon.calls) + [] == Warnings(c.mon.calls);
      }
    } else {
      NoRise(s.limits.warnSize, c.mon.warned);
      assert Warnings(c.mon.calls) + [] == Warnings(c.mon.calls);
    }
  }

  // ---------------------------------------------------------------------------
  // Draining
  // ---------------------------------------------------------------------------

  lemma SeesFrom<Job>(s: Setup, c: State<Job>, a: Action<Job>, next: State<Job>, actions: seq<Action<Job>>,
                      c': State<Job>)
    returns (all: seq<Action<Job>>)
    requires Enabled(s, c, a) && Step(s, c, a) == next && Runs(s, next, actions, c') && KeepsCallback(a)
             && KeepsWarning(actions)
    ensures all == [a] + actions && Runs(s, c, all, c') && KeepsWarning(all)
    ensures Seen(s, c, all, c')
            == (if |next.accepted| > |c.accepted| then [|next.mon.queue|] else []) + Seen(s, next, actions, c')
  {
    hide Step, Enabled;
    all := [a] + actions;
    assert all[1..] == actions;
  }

  lemma SeesNothing<Job>(s: Setup, c: State<Job>) returns (actions: seq<Action<Job>>)
    ensures actions == [] && Runs(s, c, actions, c) && KeepsWarning(actions) && Seen(s, c, actions, c) == []
  {
    actions := [];
  }

  /** Two threads outside a queue that holds the jobs */
  ghost predicate Quiet<Job>(c: State<Job>, jobs: seq<Job>) {
    c.threads == [Idle, Idle] && c.mon.run && c.mon.queue == jobs
  }

  /** The three steps of a push that nobody waits for */
  lemma PushSteps<Job>(s: Setup, c: State<Job>, jobs: seq<Job>, c': State<Job>, c1: State<Job>, c2: State<Job>)
    requires s.limits.maxSize == 0 && s.consumers == {0} && jobs != [] && Quiet(c, [])
    requires c' == c.(mon := AfterPush(s.limits, c.mon, jobs), accepted := c.accepted + [jobs])
    requires c1 == c.(threads := [Idle, AtPush(jobs)]) && c2 == c'.(threads := [Idle, NotifyingJobs])
    ensures Enabled(s, c, Enter(1, AtPush(jobs))) && Step(s, c, Enter(1, AtPush(jobs))) == c1
    ensures Enabled(s, c1, TestPush(1)) && Step(s, c1, TestPush(1)) == c2
    ensures Enabled(s, c2, NotifyOne(1, None)) && Step(s, c2, NotifyOne(1, None)) == c'
    ensures Quiet(c', jobs)
  {
    hide Checked;
    CheckedKeepsQueue(s.limits, c.mon.(queue := c.mon.queue + jobs));
    CheckedKeepsRun(s.limits, c.mon.(queue := c.mon.queue + jobs));
  }

  lemma CheckedKeepsRun<Job>(l: Limits, m: Monitor<Job>)
    ensures Checked(l, m).run == m.run
  {
  }

  lemma SeesPush<Job>(s: Setup, c: State<Job>, jobs: seq<Job>, c': State<Job>, rest: seq<Action<Job>>, end: State<Job>)
    returns (actions: seq<Action<Job>>)
    requires s == Setup(Limits(0, |jobs|), {0}) && jobs != [] && Quiet(c, [])
    requires c' == c.(mon := AfterPush(s.limits, c.mon, jobs), accepted := c.accepted + [jobs])
    requires Runs(s, c', rest, end) && KeepsWarning(rest)
    ensures Quiet(c', jobs) && Runs(s, c, actions, end) && KeepsWarning(actions)
    ensures Seen(s, c, actions, end) == [|jobs|] + Seen(s, c', rest, end)
  {
    var c1 := c.(threads := [Idle, AtPush(jobs)]);
    var c2 := c'.(threads := [Idle, NotifyingJobs]);
    PushSteps(s, c, jobs, c', c1, c2);
    hide Step, Enabled, AfterPush;
    hide Runs, Seen, KeepsWarning;
    actions := SeesFrom(s, c2, NotifyOne(1, None), c', rest, end);
    actions := SeesFrom(s, c1, TestPush(1), c2, actions, end);
    actions := SeesFrom(s, c, Enter(1, AtPush(jobs)), c1, actions, end);
  }

  lemma SeesFetch<Job>(s: Setup, c: State<Job>, jobs: seq<Job>, c': State<Job>, rest: seq<Action<Job>>, end: State<Job>)
    returns (actions: seq<Action<Job>>)
    requires s.limits.maxSize == 0 && s.consumers == {0} && jobs != [] && Quiet(c, jobs)
    requires c' == c.(mon := c.mon.(queue := []), removed := c.removed + DeliveredAll(jobs))
    requires Runs(s, c', rest, end) && KeepsWarning(rest)
    ensures Quiet(c', []) && Runs(s, c, actions, end) && KeepsWarning(actions)
    ensures Seen(s, c, actions, end) == Seen(s, c', rest, end)
  {
    var c1 := c.(threads := [AtFetch(|jobs|), Idle]);
    assert jobs[..|jobs|] == jobs;
    assert Step(s, c1, TestFetch(0)) == c';
    hide Runs, Seen, KeepsWarning;
    actions := SeesFrom(s, c1, TestFetch(0), c', rest, end);
    actions := SeesFrom(s, c, Enter(0, AtFetch(|jobs|)), c1, actions, end);
  }

  /** A queue that rose to the threshold, was drained by a consumer and rises again gives one warning, not two. */
  lemma DrainDoesNotRearm<Job>(warn: Callback, jobs: seq<Job>) returns (actions: seq<Action<Job>>, c: State<Job>)
    requires jobs != []
    ensures var s := Setup(Limits(0, |jobs|), {0});
            && Runs(s, Initial(2, Some(warn), None), actions, c) && KeepsWarning(actions)
            && Seen(s, Initial(2, Some(warn), None), actions, c) == [|jobs|, |jobs|]
    ensures c.removed == DeliveredAll(jobs) && c.mon.queue == jobs && Warnings(c.mon.calls) == [|jobs|]
  {
    var s := Setup(Limits(0, |jobs|), {0});
    var c0 := Initial<Job>(2, Some(warn), None);
    assert c0.threads == [Idle, Idle];
    var c1 := c0.(mon := AfterPush(s.limits, c0.mon, jobs), accepted := c0.accepted + [jobs]);
    var c2 := c1.(mon := c1.mon.(queue := []), removed := c1.removed + DeliveredAll(jobs));
    c := c2.(mon := AfterPush(s.limits, c2.mon, jobs), accepted := c2.accepted + [jobs]);
    hide Runs, Seen, KeepsWarning;
    actions := SeesNothing(s, c);
    actions := SeesPush(s, c2, jobs, c, actions, c);
    actions := SeesFetch(s, c1, jobs, c2, actions, c);
    actions := SeesPush(s, c0, jobs, c1, actions, c);
    RunWarns(s, c0, actions, c);
    TwiceHigh(|jobs|);
  }

  lemma TwiceHigh(n: nat)
    requires n > 0
    ensures Rises(n, false, [n, n]) == [n]
  {
    assert Rises(n, true, [n]) == Rises(n, true, []);
  }
}
