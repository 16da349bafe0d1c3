/**
 What stop() of ThreadSafeJobQueue leaves behind. It clears the queue, and only in a later
 critical section ends the run: a producer that comes in between is let through.
 */
module JobStop {
  import opened Options
  import opened JobQueue
  import opened JobProtocol

  predicate Brings<Job>(pc: Pc<Job>) {
    pc.AtPush? || pc.AsleepPush?
  }

  /** No thread is in emplace() or batch_emplace() with jobs still to push. */
  ghost predicate NobodyPushes<Job>(c: State<Job>) {
    forall t :: 0 <= t < |c.threads| ==> !Brings(c.threads[t])
  }

  /** Nobody calls emplace() or batch_emplace(). */
  ghost predicate NoPushEnters<Job>(actions: seq<Action<Job>>) {
    forall i :: 0 <= i < |actions| ==> !PushEnters(actions[i])
  }

  predicate PushEnters<Job>(a: Action<Job>) {
    a.Enter? && a.pc.AtPush?
  }

  // ---------------------------------------------------------------------------
  // Without producers, nothing is left
  // ---------------------------------------------------------------------------

  lemma EmptyStep<Job>(s: Setup, c: State<Job>, a: Action<Job>)
    requires Enabled(s, c, a) && c.mon.queue == [] && NobodyPushes(c) && !PushEnters(a)
    ensures Step(s, c, a).mon.queue == [] && NobodyPushes(Step(s, c, a))
  {
  }

  lemma {:induction false} EmptyRun<Job>(s: Setup, c: State<Job>, actions: seq<Action<Job>>, c': State<Job>)
    requires Runs(s, c, actions, c') && c.mon.queue == [] && NobodyPushes(c) && NoPushEnters(actions)
    ensures c'.mon.queue == []
    decreases |actions|
  {
    hide NobodyPushes, Step, Enabled, PushEnters;
    if actions != [] {
      EmptyStep(s, c, actions[0]);
      EmptyRun(s, Step(s, c, actions[0]), actions[1..], c');
    }
  }

  /** A clear after which no producer is in the queue and none comes leaves nothing: ever after the queue is empty,
      and every job accepted was delivered or cleared. */
  lemma StopLeavesNothing<Job>(s: Setup, n: nat, warn: Option<Callback>, clear: Option<Callback>,
                               before: seq<Action<Job>>, c: State<Job>, t: nat, after: seq<Action<Job>>, c': State<Job>)
    requires Runs(s, Initial(n, warn, clear), before, c) && Enabled(s, c, DoClear(t))
    requires NobodyPushes(c) && NoPushEnters(after) && Runs(s, ClearStep(s, c, t), after, c')
    ensures c'.mon.queue == [] && Flatten(c'.accepted) == Jobs(c'.removed)
  {
    var c0, c1 := Initial<Job>(n, warn, clear), ClearStep(s, c, t);
    EmptyRun(s, c1, after, c');
    hide Runs, Flatten, Jobs;
    NothingYet<Job>(n, warn, clear);
    RunConserves(s, c0, before, c);
    StepConserves(s, c, DoClear(t));
    RunConserves(s, c1, after, c');
  }

  lemma NothingYet<Job>(n: nat, warn: Option<Callback>, clear: Option<Callback>)
    ensures Conserved(Initial<Job>(n, warn, clear)) && ClearsCalled(Initial<Job>(n, warn, clear))
  {
  }

  // ---------------------------------------------------------------------------
  // With a producer, its jobs can be left
  // ---------------------------------------------------------------------------

  /** The rest of stop(), from the end of the run on, with nothing in between. */
  lemma EndOfStop<Job>(s: Setup, c: State<Job>, t: nat) returns (actions: seq<Action<Job>>, c': State<Job>)
    requires t < |c.threads| && c.threads[t] == AtStopFlag
    ensures Runs(s, c, actions, c') && NoPushEnters(actions)
    ensures c'.mon == c.mon.(run := false) && c'.removed == c.removed && c'.accepted == c.accepted
    ensures |c'.threads| == |c.threads| && c'.threads[t] == Idle
    ensures forall p :: 0 <= p < |c.threads| && p != t ==> c'.threads[p] == Awake(c.threads[p])
  {
    var c1 := Step(s, c, EndRun(t));
    var c2 := Step(s, c1, NotifyAll(t));
    c' := Step(s, c2, NotifyAll(t));
    hide Runs;
    actions := NoSteps(s, c');
    actions := RunFrom(s, c2, NotifyAll(t), c', actions, c');
    actions := RunFrom(s, c1, NotifyAll(t), c2, actions, c');
    actions := RunFrom(s, c, EndRun(t), c1, actions, c');
  }

  /** Thread t is in stop(), past the clear. */
  predicate ClearedByStop<Job>(s: Setup, c: State<Job>, t: nat) {
    && t < |c.threads| && c.mon.run && c.mon.queue == []
    && (if s.limits.maxSize > 0 then c.threads[t].StopNotifyingSpace? else c.threads[t].AtStopFlag?)
  }

  /** The first notify_all of stop(), if the queue is bounded: it wakes the producers that sleep. */
  lemma StopWakesProducer<Job>(s: Setup, c: State<Job>, t: nat, p: nat)
    returns (actions: seq<Action<Job>>, c': State<Job>)
    requires ClearedByStop(s, c, t) && p < |c.threads| && Brings(c.threads[p])
    requires s.limits.maxSize == 0 ==> c.threads[p].AtPush?
    ensures Runs(s, c, actions, c') && NoPushEnters(actions)
    ensures c'.mon == c.mon && c'.removed == c.removed && |c'.threads| == |c.threads|
    ensures c'.threads[t] == AtStopFlag && c'.threads[p] == AtPush(c.threads[p].jobs)
  {
    if s.limits.maxSize > 0 {
      c' := Step(s, c, NotifyAll(t));
      actions := NoSteps(s, c');
      hide Runs;
      actions := RunFrom(s, c, NotifyAll(t), c', actions, c');
    } else {
      c' := c;
      actions := NoSteps(s, c);
    }
  }

  /** Every producer that is in the queue when stop() clears it, asleep or not, has a run in which its jobs are let
      in before the run ends, and stop() returns with them in the queue, neither delivered nor cleared. */
  lemma WaitingProducerStrands<Job>(s: Setup, c: State<Job>, t: nat, p: nat)
    returns (actions: seq<Action<Job>>, c': State<Job>)
    requires ClearedByStop(s, c, t) && p < |c.threads| && Brings(c.threads[p]) && c.threads[p].jobs != []
    requires Fits(s, c.threads[p]) && (s.limits.maxSize == 0 ==> c.threads[p].AtPush?)
    ensures Runs(s, c, actions, c') && NoPushEnters(actions)
    ensures !c'.mon.run && c'.mon.queue == c.threads[p].jobs && c'.removed == c.removed
    ensures |c'.threads| == |c.threads| && c'.threads[t] == Idle
  {
    var jobs := c.threads[p].jobs;
    var woken, c1 := StopWakesProducer(s, c, t, p);
    var c2 := PushStep(s, c1, p);
    PushedAlone(s, c1, p);
    hide Runs, PushStep;
    var rest;
    rest, c' := EndOfStop(s, c2, t);
    var pushed := RunFrom(s, c1, TestPush(p), c2, rest, c');
    RunsJoin(s, c, woken, c1, pushed, c');
    actions := woken + pushed;
  }

  lemma PushedAlone<Job>(s: Setup, c: State<Job>, p: nat)
    requires p < |c.threads| && c.threads[p].AtPush? && c.mon.run && c.mon.queue == [] && Fits(s, c.threads[p])
    ensures var c' := PushStep(s, c, p);
            && c'.mon.queue == c.threads[p].jobs && c'.mon.run && c'.removed == c.removed
            && c'.threads == c.threads[p := NotifyingJobs]
  {
  }

  /** So has every producer that calls between the clear and the end of the run, with any jobs that fit. */
  lemma LateProducerStrands<Job>(s: Setup, c: State<Job>, t: nat, p: nat, jobs: seq<Job>)
    returns (actions: seq<Action<Job>>, c': State<Job>)
    requires ClearedByStop(s, c, t) && Enabled(s, c, Enter(p, AtPush(jobs))) && Fits(s, AtPush(jobs))
    ensures Runs(s, c, actions, c') && actions != [] && actions[0] == Enter(p, AtPush(jobs))
            && NoPushEnters(actions[1..])
    ensures !c'.mon.run && c'.mon.queue == jobs && c'.removed == c.removed
    ensures |c'.threads| == |c.threads| && c'.threads[t] == Idle
  {
    var c1 := Step(s, c, Enter(p, AtPush(jobs)));
    hide Runs, NoPushEnters;
    var rest;
    rest, c' := WaitingProducerStrands(s, c1, t, p);
    actions := RunFrom(s, c, Enter(p, AtPush(jobs)), c1, rest, c');
    assert actions[1..] == rest;
  }

  // ---------------------------------------------------------------------------
  // Exactly when
  // ---------------------------------------------------------------------------

  /** Producers bring jobs, no more than a bound holds, and without a bound they do not sleep. */
  ghost predicate BatchesOk<Job>(s: Setup, c: State<Job>) {
    forall t :: 0 <= t < |c.threads| ==> BatchOk(s, c.threads[t])
  }

  predicate BatchOk<Job>(s: Setup, pc: Pc<Job>) {
    Brings(pc) ==> pc.jobs != [] && Fits(s, pc) && (s.limits.maxSize == 0 ==> pc.AtPush?)
  }

  lemma BatchesStep<Job>(s: Setup, c: State<Job>, a: Action<Job>)
    requires Enabled(s, c, a) && BatchesOk(s, c) && ActionFits(s, a)
    ensures BatchesOk(s, Step(s, c, a))
  {
    match a
    case NotifyOne(t, woken) =>
      assert woken.Some? ==> BatchOk(s, c.threads[woken.value]);
    case NotifyAll(t) =>
      forall p | 0 <= p < |c.threads|
        ensures BatchOk(s, Step(s, c, a).threads[p])
      {
        assert BatchOk(s, c.threads[p]);
      }
    case Enter(t, pc) =>
    case TestFetch(t) =>
    case TestPush(t) =>
      assert BatchOk(s, c.threads[t]);
    case DoClear(t) =>
    case EndRun(t) =>
    case Spurious(t) =>
      assert BatchOk(s, c.threads[t]);
    case SetClear(to) =>
    case SetWarn(to) =>
  }

  lemma {:induction false} BatchesRun<Job>(s: Setup, c: State<Job>, actions: seq<Action<Job>>, c': State<Job>)
    requires Runs(s, c, actions, c') && BatchesOk(s, c)
    requires forall i :: 0 <= i < |actions| ==> ActionFits(s, actions[i])
    ensures BatchesOk(s, c')
    decreases |actions|
  {
    hide BatchesOk, Step, Enabled, ActionFits;
    if actions != [] {
      BatchesStep(s, c, actions[0]);
      BatchesRun(s, Step(s, c, actions[0]), actions[1..], c');
    }
  }

  /** The run can end with jobs in the queue although nobody calls emplace() or batch_emplace() any more. */
  ghost predicate CanStrand<Job(!new)>(s: Setup, c: State<Job>) {
    exists actions: seq<Action<Job>>, c': State<Job> ::
      Runs(s, c, actions, c') && NoPushEnters(actions) && !c'.mon.run && c'.mon.queue != []
  }

  /** stop() can strand jobs exactly when a producer is in the queue while it clears. */
  lemma StrandsExactlyWithProducer<Job(!new)>(s: Setup, n: nat, warn: Option<Callback>, clear: Option<Callback>,
                                        before: seq<Action<Job>>, c: State<Job>, t: nat)
    requires Runs(s, Initial(n, warn, clear), before, c)
    requires forall i :: 0 <= i < |before| ==> ActionFits(s, before[i])
    requires c.mon.run && t < |c.threads| && c.threads[t] == AtStop
    ensures CanStrand(s, ClearStep(s, c, t)) <==> !NobodyPushes(c)
  {
    var c1 := ClearStep(s, c, t);
    BatchesRun(s, Initial<Job>(n, warn, clear), before, c);
    if NobodyPushes(c) {
      forall actions: seq<Action<Job>>, c' | Runs(s, c1, actions, c') && NoPushEnters(actions)
        ensures c'.mon.queue == []
      {
        EmptyRun(s, c1, actions, c');
      }
    } else {
      var p :| 0 <= p < |c.threads| && Brings(c.threads[p]);
      assert BatchOk(s, c.threads[p]);
      var actions, c' := WaitingProducerStrands(s, c1, t, p);
    }
  }

  // ---------------------------------------------------------------------------
  // After the end of the run
  // ---------------------------------------------------------------------------

  ghost predicate NoClears<Job>(actions: seq<Action<Job>>) {
    forall i :: 0 <= i < |actions| ==> !actions[i].DoClear?
  }

  /** A push on a queue without a bound is accepted even when the run is over; with a bound it is dropped. */
  lemma PushAfterTheEnd<Job>(s: Setup, c: State<Job>, p: nat)
    requires Enabled(s, c, TestPush(p)) && !c.mon.run
    ensures var c' := PushStep(s, c, p);
            var taken := if s.limits.maxSize == 0 then [c.threads[p].jobs] else [];
            && !c'.mon.run && c'.accepted == c.accepted + taken
            && c'.mon.queue == c.mon.queue + (if s.limits.maxSize == 0 then c.threads[p].jobs else [])
  {
  }

  /** Once the run is over nothing leaves the queue but by a clear, and all that is accepted joins it. */
  ghost predicate OnlyJoins<Job>(s: Setup, c: State<Job>, c': State<Job>) {
    && !c'.mon.run && c'.removed == c.removed && c.mon.queue <= c'.mon.queue
    && Flatten(c'.accepted) == Flatten(c.accepted) + c'.mon.queue[|c.mon.queue|..]
    && (s.limits.maxSize > 0 ==> c'.accepted == c.accepted)
  }

  lemma StepAfterTheEnd<Job>(s: Setup, c: State<Job>, a: Action<Job>)
    requires Enabled(s, c, a) && !c.mon.run && !a.DoClear?
    ensures OnlyJoins(s, c, Step(s, c, a))
  {
    if a.TestPush? {
      PushAfterTheEnd(s, c, a.t);
      FlattenGrows(c.accepted, c.threads[a.t].jobs);
    }
    hide Flatten;
  }

  lemma JoinsTwice<Job>(s: Setup, a: State<Job>, b: State<Job>, c: State<Job>)
    requires OnlyJoins(s, a, b) && OnlyJoins(s, b, c)
    ensures OnlyJoins(s, a, c)
  {
    hide Flatten;
    var n, m := |a.mon.queue|, |b.mon.queue|;
    assert c.mon.queue[n..] == b.mon.queue[n..] + c.mon.queue[m..];
    Regroup(Flatten(a.accepted), b.mon.queue[n..], c.mon.queue[m..]);
  }

  /** In every run after the end, a queue with a bound takes nothing more in, and one without keeps whatever is
      pushed, undelivered, until somebody clears it. */
  lemma {:induction false} RunAfterTheEnd<Job>(s: Setup, c: State<Job>, actions: seq<Action<Job>>, c': State<Job>)
    requires Runs(s, c, actions, c') && !c.mon.run && NoClears(actions)
    ensures OnlyJoins(s, c, c')
    decreases |actions|
  {
    hide Step, Enabled, Flatten;
    if actions == [] {
      assert c.mon.queue[|c.mon.queue|..] == [];
    } else {
      var c1 := Step(s, c, actions[0]);
      StepAfterTheEnd(s, c, actions[0]);
      RunAfterTheEnd(s, c1, actions[1..], c');
      hide OnlyJoins;
      JoinsTwice(s, c, c1, c');
    }
  }

  /** From a new queue: for every bound and every batch that fits, stop() can return with the batch stranded. */
  lemma StopStrandsJobs<Job>(l: Limits, jobs: seq<Job>) returns (actions: seq<Action<Job>>, c: State<Job>)
    requires jobs != [] && (l.maxSize > 0 ==> |jobs| <= l.maxSize)
    ensures Runs(Setup(l, {0}), Initial(3, None, None), actions, c)
    ensures !c.mon.run && |c.threads| == 3 && c.threads[1] == Idle && c.mon.queue == jobs && c.removed == []
  {
    var s := Setup(l, {0});
    var c0 := Initial<Job>(3, None, None);
    assert c0.threads == [Idle, Idle, Idle];
    var c1 := c0.(threads := [Idle, AtStop, Idle]);
    var c2 := ClearStep(s, c1, 1);
    assert c2.removed == [];
    hide Runs, ClearedByStop;
    assert ClearedByStop(s, c2, 1);
    actions, c := LateProducerStrands(s, c2, 1, 2, jobs);
    actions := RunFrom(s, c1, DoClear(1), c2, actions, c);
    actions := RunFrom(s, c0, Enter(1, AtStop), c1, actions, c);
  }

  /** One job fills a queue for one, and the producer of a second one sleeps. */
  function SleeperBeforeStop<Job>(x: Job, y: Job): State<Job> {
    State(Monitor([x], true, false, None, None, []), [Idle, AtStop, AsleepPush([y])], [[x]], [])
  }

  lemma SleeperComes<Job>(x: Job, y: Job) returns (actions: seq<Action<Job>>)
    ensures Runs(Setup(Limits(1, 0), {0}), Initial(3, None, None), actions, SleeperBeforeStop(x, y))
  {
    var s, c := Setup(Limits(1, 0), {0}), SleeperBeforeStop(x, y);
    var c0 := Initial<Job>(3, None, None);
    assert c0.threads == [Idle, Idle, Idle];
    var c1 := c0.(threads := [Idle, Idle, AtPush([x])]);
    var full := c0.(mon := c0.mon.(queue := [x]), accepted := [[x]]);
    var c2 := full.(threads := [Idle, Idle, NotifyingJobs]);
    var c3 := full.(threads := [Idle, Idle, Idle]);
    var c4 := full.(threads := [Idle, Idle, AtPush([y])]);
    var c5 := full.(threads := [Idle, Idle, AsleepPush([y])]);
    hide Runs;
    actions := NoSteps(s, c);
    actions := RunFrom(s, c5, Enter(1, AtStop), c, actions, c);
    actions := RunFrom(s, c4, TestPush(2), c5, actions, c);
    actions := RunFrom(s, c3, Enter(2, AtPush([y])), c4, actions, c);
    actions := RunFrom(s, c2, NotifyOne(2, None), c3, actions, c);
    actions := RunFrom(s, c1, TestPush(2), c2, actions, c);
    actions := RunFrom(s, c0, Enter(2, AtPush([x])), c1, actions, c);
  }

  /** A producer that sleeps before stop() is called is woken by the notify_all of stop() itself and its job stranded,
      although nobody calls anything after stop(). */
  lemma SleeperStranded<Job>(x: Job, y: Job) returns (before: seq<Action<Job>>, after: seq<Action<Job>>, c: State<Job>)
    ensures var s := Setup(Limits(1, 0), {0});
            && Runs(s, Initial(3, None, None), before, SleeperBeforeStop(x, y))
            && Enabled(s, SleeperBeforeStop(x, y), DoClear(1))
            && Runs(s, ClearStep(s, SleeperBeforeStop(x, y), 1), after, c) && NoPushEnters(after)
    ensures !c.mon.run && |c.threads| == 3 && c.threads[1] == Idle && c.mon.queue == [y]
  {
    var s := Setup(Limits(1, 0), {0});
    before := SleeperComes(x, y);
    after, c := WaitingProducerStrands(s, ClearStep(s, SleeperBeforeStop(x, y), 1), 1, 2);
  }
}
