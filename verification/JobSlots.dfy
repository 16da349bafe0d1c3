/**
 How good a single notify_one is in ThreadSafeJobQueue. No waiting job goes unnoticed by the
 consumers as long as every push brings one job and every fetch takes at least one; no free
 slot goes unnoticed by the producers as long as every push brings one job and every fetch
 takes at most one, or the bound is one. Requests of other sizes have runs that lose a job,
 unless they are batches above the bound, or a slot.
 */
module JobSlots {
  import opened Options
  import opened JobQueue
  import opened JobProtocol

  function Number<Job>(threads: seq<Pc<Job>>, p: Place): nat {
    |Who(threads, p)|
  }

  ghost predicate NumberMoved<Job>(threads: seq<Pc<Job>>, t: nat, pc: Pc<Job>, p: Place)
    requires t < |threads|
  {
    Number(threads[t := pc], p)
    == Number(threads, p) + (if PlaceOf(pc) == p then 1 else 0) - (if PlaceOf(threads[t]) == p then 1 else 0)
  }

  lemma NumberMoves<Job>(threads: seq<Pc<Job>>, t: nat, pc: Pc<Job>, p: Place)
    requires t < |threads| && Moved(threads, t, pc, p)
    ensures NumberMoved(threads, t, pc, p)
  {
    hide Who, PlaceOf;
    SizeWith(Who(threads, p), t);
  }

  lemma SizeWith(s: set<nat>, t: nat)
    ensures |s + {t}| == |s| + (if t in s then 0 else 1)
    ensures |s - {t}| == |s| - (if t in s then 1 else 0)
  {
    assert t in s ==> s + {t} == s;
    assert t !in s ==> s - {t} == s;
  }

  lemma NumbersMove<Job>(threads: seq<Pc<Job>>, t: nat, pc: Pc<Job>)
    requires t < |threads|
    ensures NumberMoved(threads, t, pc, Pushing) && NumberMoved(threads, t, pc, SpaceNotifying)
    ensures NumberMoved(threads, t, pc, Fetching) && NumberMoved(threads, t, pc, JobsNotifying)
  {
    WhoMoves(threads, t, pc);
    hide Moved, NumberMoved, Who;
    NumberMoves(threads, t, pc, Pushing);
    NumberMoves(threads, t, pc, SpaceNotifying);
    NumberMoves(threads, t, pc, Fetching);
    NumberMoves(threads, t, pc, JobsNotifying);
  }

  /** Which notifications are looked at: those for waiting jobs, or those for free slots. */
  datatype Side = ForJobs | ForSlots

  /** The requests with which one notify_one is enough. */
  predicate UnitPc<Job>(side: Side, s: Setup, pc: Pc<Job>) {
    match pc
    case AtFetch(want) => if side.ForJobs? then want >= 1 else want <= 1 || s.limits.maxSize <= 1
    case AsleepFetch(want) => if side.ForJobs? then want >= 1 else want <= 1 || s.limits.maxSize <= 1
    case AtPush(jobs) => |jobs| == 1 || (side.ForJobs? && |jobs| > s.limits.maxSize > 0)
    case AsleepPush(jobs) => |jobs| == 1 || (side.ForJobs? && |jobs| > s.limits.maxSize > 0)
    case _ => true
  }

  ghost predicate Units<Job>(side: Side, s: Setup, c: State<Job>) {
    forall t :: 0 <= t < |c.threads| ==> UnitPc(side, s, c.threads[t])
  }

  predicate UnitAction<Job>(side: Side, s: Setup, a: Action<Job>) {
    a.Enter? ==> UnitPc(side, s, a.pc)
  }

  /** For every free slot, a producer is on its way or will be notified, as long as one sleeps at all. */
  ghost predicate SlotsCovered<Job>(s: Setup, c: State<Job>) {
    c.mon.run && Who(c.threads, PushSleeping) != {} && Who(c.threads, AllSpaceNotifying) == {} ==>
      Number(c.threads, Pushing) + Number(c.threads, SpaceNotifying) >= s.limits.maxSize - |c.mon.queue|
  }

  /** For every waiting job, a consumer is on its way or will be notified, as long as one sleeps at all. */
  ghost predicate JobsCovered<Job>(c: State<Job>) {
    c.mon.run && Who(c.threads, FetchSleeping) != {} ==>
      Number(c.threads, Fetching) + Number(c.threads, JobsNotifying) >= |c.mon.queue|
  }

  ghost predicate Covered<Job>(side: Side, s: Setup, c: State<Job>) {
    Units(side, s, c) && Bounded(s, c) && (if side.ForJobs? then JobsCovered(c) else SlotsCovered(s, c))
  }

  lemma EnterCovers<Job>(side: Side, s: Setup, c: State<Job>, t: nat, pc: Pc<Job>)
    requires Covered(side, s, c) && Enabled(s, c, Enter(t, pc)) && UnitPc(side, s, pc)
    ensures Covered(side, s, Step(s, c, Enter(t, pc)))
  {
    hide Who, Number;
    WhoMoves(c.threads, t, pc);
    NumbersMove(c.threads, t, pc);
  }

  lemma FetchCovers<Job>(side: Side, s: Setup, c: State<Job>, t: nat)
    requires Covered(side, s, c) && Enabled(s, c, TestFetch(t))
    ensures Covered(side, s, FetchStep(s, c, t))
  {
    hide Who, Number;
    var pc := FetchStep(s, c, t).threads[t];
    WhoMoves(c.threads, t, pc);
    NumbersMove(c.threads, t, pc);
    assert UnitPc(side, s, c.threads[t]);
  }

  lemma PushCovers<Job>(side: Side, s: Setup, c: State<Job>, t: nat)
    requires Covered(side, s, c) && Enabled(s, c, TestPush(t))
    ensures Covered(side, s, PushStep(s, c, t))
  {
    hide Who, Number;
    var pc := PushStep(s, c, t).threads[t];
    WhoMoves(c.threads, t, pc);
    NumbersMove(c.threads, t, pc);
    assert UnitPc(side, s, c.threads[t]);
  }

  lemma ClearCovers<Job>(side: Side, s: Setup, c: State<Job>, t: nat)
    requires Covered(side, s, c) && Enabled(s, c, DoClear(t))
    ensures Covered(side, s, ClearStep(s, c, t))
  {
    hide Who, Number;
    var pc := ClearStep(s, c, t).threads[t];
    WhoMoves(c.threads, t, pc);
    NumbersMove(c.threads, t, pc);
    assert s.limits.maxSize > 0 ==> t in Who(ClearStep(s, c, t).threads, AllSpaceNotifying);
  }

  lemma SpuriousCovers<Job>(side: Side, s: Setup, c: State<Job>, t: nat)
    requires Covered(side, s, c) && Enabled(s, c, Spurious(t))
    ensures Covered(side, s, Step(s, c, Spurious(t)))
  {
    hide Who, Number;
    WhoMoves(c.threads, t, Awake(c.threads[t]));
    NumbersMove(c.threads, t, Awake(c.threads[t]));
    assert UnitPc(side, s, c.threads[t]);
    assert t in Who(c.threads, PlaceOf(c.threads[t]));
  }

  lemma JobsMissCovers<Job>(side: Side, s: Setup, c: State<Job>, t: nat)
    requires Covered(side, s, c) && t < |c.threads| && c.threads[t] == NotifyingJobs
             && Who(c.threads, FetchSleeping) == {}
    ensures Covered(side, s, c.(threads := c.threads[t := Idle]))
  {
    hide Who, Number;
    WhoMoves(c.threads, t, Idle);
    NumbersMove(c.threads, t, Idle);
  }

  lemma SpaceMissCovers<Job>(side: Side, s: Setup, c: State<Job>, t: nat)
    requires Covered(side, s, c) && t < |c.threads| && c.threads[t] == NotifyingSpace
             && Who(c.threads, PushSleeping) == {}
    ensures Covered(side, s, c.(threads := c.threads[t := Idle]))
  {
    hide Who, Number;
    WhoMoves(c.threads, t, Idle);
    NumbersMove(c.threads, t, Idle);
  }

  lemma NotifyOneMissCovers<Job>(side: Side, s: Setup, c: State<Job>, t: nat)
    requires Covered(side, s, c) && Enabled(s, c, NotifyOne(t, None))
    ensures Covered(side, s, Step(s, c, NotifyOne(t, None)))
  {
    hide Covered, Who;
    NobodyReached(c.threads, c.threads[t]);
    if c.threads[t].NotifyingJobs? {
      JobsMissCovers(side, s, c, t);
    } else {
      SpaceMissCovers(side, s, c, t);
    }
  }

  lemma NotifyOneCovers<Job>(side: Side, s: Setup, c: State<Job>, t: nat, w: nat)
    requires Covered(side, s, c) && Enabled(s, c, NotifyOne(t, Some(w)))
    ensures Covered(side, s, Step(s, c, NotifyOne(t, Some(w))))
  {
    hide Who, Number;
    assert UnitPc(side, s, c.threads[w]);
    var c1 := c.(threads := c.threads[t := Idle]);
    WhoMoves(c.threads, t, Idle);
    NumbersMove(c.threads, t, Idle);
    WhoMoves(c1.threads, w, Awake(c.threads[w]));
    NumbersMove(c1.threads, w, Awake(c.threads[w]));
    assert w in Who(c1.threads, PlaceOf(c.threads[w]));
    assert Units(side, s, c1);
  }

  lemma NotifyAllKeepsMonitor<Job>(s: Setup, c: State<Job>, t: nat)
    requires Enabled(s, c, NotifyAll(t))
    ensures t < |c.threads| && NotifiesAll(c.threads[t])
    ensures Step(s, c, NotifyAll(t)).mon == c.mon
  {
  }

  lemma NotAmong<Job>(threads: seq<Pc<Job>>, t: nat, p: Place)
    requires t < |threads| && PlaceOf(threads[t]) != p
    ensures Who(threads, p) - {t} == Who(threads, p)
  {
  }

  lemma NotifyAllCoversSlots<Job>(s: Setup, c: State<Job>, t: nat)
    requires SlotsCovered(s, c) && Enabled(s, c, NotifyAll(t))
    ensures SlotsCovered(s, Step(s, c, NotifyAll(t)))
  {
    hide Who, Step, Enabled;
    NotifyAllKeepsMonitor(s, c, t);
    WhoAfterNotifyAll(s, c, t);
    if c.threads[t].StopNotifyingFetch? {
      NotAmong(c.threads, t, AllSpaceNotifying);
    }
  }

  lemma NotifyAllCoversJobs<Job>(s: Setup, c: State<Job>, t: nat)
    requires JobsCovered(c) && Enabled(s, c, NotifyAll(t))
    ensures JobsCovered(Step(s, c, NotifyAll(t)))
  {
    hide Who, Step, Enabled;
    NotifyAllKeepsMonitor(s, c, t);
    WhoAfterNotifyAll(s, c, t);
  }

  lemma NotifyAllKeepsBounded<Job>(s: Setup, c: State<Job>, t: nat)
    requires Bounded(s, c) && Enabled(s, c, NotifyAll(t))
    ensures Bounded(s, Step(s, c, NotifyAll(t)))
  {
    hide Who, Step, Enabled;
    NotifyAllKeepsMonitor(s, c, t);
    WhoAfterNotifyAll(s, c, t);
  }

  lemma NotifyAllCovers<Job>(side: Side, s: Setup, c: State<Job>, t: nat)
    requires Covered(side, s, c) && Enabled(s, c, NotifyAll(t))
    ensures Covered(side, s, Step(s, c, NotifyAll(t)))
  {
    hide Step, Enabled, Bounded, Units, SlotsCovered, JobsCovered;
    NotifyAllKeepsUnits(side, s, c, t);
    NotifyAllKeepsBounded(s, c, t);
    if side.ForJobs? {
      NotifyAllCoversJobs(s, c, t);
    } else {
      NotifyAllCoversSlots(s, c, t);
    }
  }

  lemma NotifyAllKeepsUnits<Job>(side: Side, s: Setup, c: State<Job>, t: nat)
    requires Units(side, s, c) && Enabled(s, c, NotifyAll(t))
    ensures Units(side, s, Step(s, c, NotifyAll(t)))
  {
    hide WakeAll;
    WakeAllJobs(c.threads, c.threads[t]);
  }

  lemma EndRunCovers<Job>(side: Side, s: Setup, c: State<Job>, t: nat)
    requires Covered(side, s, c) && Enabled(s, c, EndRun(t))
    ensures Covered(side, s, Step(s, c, EndRun(t)))
  {
    hide Who, Number;
    WhoMoves(c.threads, t, StopNotifyingFetch);
  }

  lemma StepCovers<Job>(side: Side, s: Setup, c: State<Job>, a: Action<Job>)
    requires Covered(side, s, c) && Enabled(s, c, a) && UnitAction(side, s, a)
    ensures Covered(side, s, Step(s, c, a))
  {
    hide Who, Number;
    match a
    case Enter(t, pc) => EnterCovers(side, s, c, t, pc);
    case TestFetch(t) => FetchCovers(side, s, c, t);
    case TestPush(t) => PushCovers(side, s, c, t);
    case NotifyOne(t, woken) =>
      if woken.None? {
        NotifyOneMissCovers(side, s, c, t);
      } else {
        NotifyOneCovers(side, s, c, t, woken.value);
      }
    case NotifyAll(t) => NotifyAllCovers(side, s, c, t);
    case DoClear(t) => ClearCovers(side, s, c, t);
    case EndRun(t) => EndRunCovers(side, s, c, t);
    case Spurious(t) => SpuriousCovers(side, s, c, t);
    case SetClear(to) =>
    case SetWarn(to) =>
  }

  lemma {:induction false} RunCovers<Job>(side: Side, s: Setup, c: State<Job>, actions: seq<Action<Job>>,
                        c': State<Job>)
    requires Covered(side, s, c) && Runs(s, c, actions, c')
    requires forall i :: 0 <= i < |actions| ==> UnitAction(side, s, actions[i])
    ensures Covered(side, s, c')
    decreases |actions|
  {
    hide Covered, Step, Enabled, UnitAction;
    if actions != [] {
      StepCovers(side, s, c, actions[0]);
      RunCovers(side, s, Step(s, c, actions[0]), actions[1..], c');
    }
  }

  /** A producer sleeps although its jobs would fit, and nothing is on the way that would wake a producer. */
  ghost predicate SlotLost<Job>(s: Setup, c: State<Job>) {
    && c.mon.run
    && (exists t :: 0 <= t < |c.threads| && c.threads[t].AsleepPush? && CanPush(s.limits, c.mon, |c.threads[t].jobs|))
    && Who(c.threads, Pushing) == {} && Who(c.threads, SpaceNotifying) == {} && Who(c.threads, AllSpaceNotifying) == {}
  }

  /** A consumer sleeps although a job waits, and nothing is on the way that would wake a consumer. */
  ghost predicate JobLost<Job>(c: State<Job>) {
    && c.mon.run && c.mon.queue != []
    && (exists t :: 0 <= t < |c.threads| && c.threads[t].AsleepFetch?)
    && Who(c.threads, Fetching) == {} && Who(c.threads, JobsNotifying) == {}
  }

  lemma CoveredLosesNoJob<Job>(s: Setup, c: State<Job>)
    requires Covered(ForJobs, s, c)
    ensures !JobLost(c)
  {
    if t: nat :| t < |c.threads| && c.threads[t].AsleepFetch? {
      assert t in Who(c.threads, FetchSleeping);
    }
  }

  lemma CoveredLosesNoSlot<Job>(s: Setup, c: State<Job>)
    requires Covered(ForSlots, s, c)
    ensures !SlotLost(s, c)
  {
    if t: nat :| t < |c.threads| && c.threads[t].AsleepPush? {
      assert t in Who(c.threads, PushSleeping);
    }
    assert forall t :: 0 <= t < |c.threads| && c.threads[t].AsleepPush? ==> UnitPc(ForSlots, s, c.threads[t]);
  }

  lemma InitialCovered<Job>(side: Side, s: Setup, n: nat, warn: Option<Callback>, clear: Option<Callback>)
    ensures Covered<Job>(side, s, Initial(n, warn, clear))
  {
    var c := Initial<Job>(n, warn, clear);
    assert Who(c.threads, PushSleeping) == {} && Who(c.threads, FetchSleeping) == {};
  }

  /** When every push brings one job, or more than the bound, and every fetch asks for at least one, no run leaves a
      waiting job to its sleeping consumers. */
  lemma SinglePushesLoseNoJob<Job>(s: Setup, n: nat, warn: Option<Callback>, clear: Option<Callback>,
                                   actions: seq<Action<Job>>, c: State<Job>)
    requires Runs(s, Initial(n, warn, clear), actions, c)
    requires forall i :: 0 <= i < |actions| ==> UnitAction(ForJobs, s, actions[i])
    ensures !JobLost(c)
  {
    hide Runs, UnitAction, Covered, JobLost;
    InitialCovered<Job>(ForJobs, s, n, warn, clear);
    RunCovers(ForJobs, s, Initial<Job>(n, warn, clear), actions, c);
    CoveredLosesNoJob(s, c);
  }

  /** When every push brings one job and every fetch asks for at most one, or the bound is one, no run leaves a free
      slot to a sleeping producer. */
  lemma UnitRequestsLoseNoSlot<Job>(s: Setup, n: nat, warn: Option<Callback>, clear: Option<Callback>,
                                    actions: seq<Action<Job>>, c: State<Job>)
    requires Runs(s, Initial(n, warn, clear), actions, c)
    requires forall i :: 0 <= i < |actions| ==> UnitAction(ForSlots, s, actions[i])
    ensures !SlotLost(s, c)
  {
    hide Runs, UnitAction, Covered, SlotLost;
    InitialCovered<Job>(ForSlots, s, n, warn, clear);
    RunCovers(ForSlots, s, Initial<Job>(n, warn, clear), actions, c);
    CoveredLosesNoSlot(s, c);
  }

  // ---------------------------------------------------------------------------
  // Other requests lose jobs
  // ---------------------------------------------------------------------------

  /** Threads fetch and push only in these sizes. */
  ghost predicate Sizes<Job>(actions: seq<Action<Job>>, wants: set<nat>, batches: set<nat>) {
    forall i :: 0 <= i < |actions| ==> SizeOk(actions[i], wants, batches)
  }

  predicate SizeOk<Job>(a: Action<Job>, wants: set<nat>, batches: set<nat>) {
    (a.Enter? && a.pc.AtFetch? ==> a.pc.want in wants) && (a.Enter? && a.pc.AtPush? ==> |a.pc.jobs| in batches)
  }

  /** Two consumers fall asleep on a new queue. */
  function Sleepers<Job>(a: nat, b: nat): State<Job> {
    State(Monitor([], true, false, None, None, []), [AsleepFetch(a), AsleepFetch(b), Idle], [], [])
  }

  lemma ConsumersSleep<Job>(l: Limits, a: nat, b: nat) returns (actions: seq<Action<Job>>)
    ensures Runs(Setup(l, {0, 1}), Initial(3, None, None), actions, Sleepers(a, b))
    ensures Sizes(actions, {a, b}, {})
  {
    var s, c := Setup(l, {0, 1}), Sleepers<Job>(a, b);
    var c0 := Initial<Job>(3, None, None);
    assert c0.threads == [Idle, Idle, Idle];
    var c1 := c0.(threads := [AtFetch(a), Idle, Idle]);
    var c2 := c0.(threads := [AsleepFetch(a), Idle, Idle]);
    var c3 := c0.(threads := [AsleepFetch(a), AtFetch(b), Idle]);
    hide Runs;
    actions := NoSteps(s, c);
    actions := RunFrom(s, c3, TestFetch(1), c, actions, c);
    actions := RunFrom(s, c2, Enter(1, AtFetch(b)), c3, actions, c);
    actions := RunFrom(s, c1, TestFetch(0), c2, actions, c);
    actions := RunFrom(s, c0, Enter(0, AtFetch(a)), c1, actions, c);
  }

  /** Thread 2 pushes and wakes thread 0. */
  lemma PushWakesOne<Job>(l: Limits, a: nat, b: nat, jobs: seq<Job>)
    returns (actions: seq<Action<Job>>, c: State<Job>)
    requires jobs != [] && (l.maxSize > 0 ==> |jobs| <= l.maxSize)
    ensures Runs(Setup(l, {0, 1}), Sleepers(a, b), actions, c)
    ensures c == Sleepers(a, b).(mon := Sleepers(a, b).mon.(queue := jobs),
                                 accepted := [jobs],
                                 threads := [AtFetch(a), AsleepFetch(b), Idle])
    ensures Sizes(actions, {}, {|jobs|})
  {
    var s, c0 := Setup(l, {0, 1}), Sleepers<Job>(a, b);
    var pushed := c0.(mon := c0.mon.(queue := jobs), accepted := [jobs]);
    var c1 := c0.(threads := [AsleepFetch(a), AsleepFetch(b), AtPush(jobs)]);
    var c2 := pushed.(threads := [AsleepFetch(a), AsleepFetch(b), NotifyingJobs]);
    c := pushed.(threads := [AtFetch(a), AsleepFetch(b), Idle]);
    assert c0.accepted + [jobs] == [jobs] && c0.mon.queue + jobs == jobs;
    hide Runs;
    actions := NoSteps(s, c);
    actions := RunFrom(s, c2, NotifyOne(2, Some(0)), c, actions, c);
    actions := RunFrom(s, c1, TestPush(2), c2, actions, c);
    actions := RunFrom(s, c0, Enter(2, AtPush(jobs)), c1, actions, c);
  }

  /** The woken consumer takes what it asked for and leaves. */
  lemma FetchLeaves<Job>(l: Limits, b: nat, c: State<Job>) returns (actions: seq<Action<Job>>, c': State<Job>)
    requires |c.threads| == 3 && c.threads[0].AtFetch? && c.threads[1] == AsleepFetch(b) && c.threads[2] == Idle
    requires c.mon.run && |c.mon.queue| > c.threads[0].want
    ensures Runs(Setup(l, {0, 1}), c, actions, c')
    ensures c'.threads == [Idle, AsleepFetch(b), Idle] && c'.mon.run
            && c'.mon.queue == c.mon.queue[c.threads[0].want..]
    ensures Sizes(actions, {}, {})
  {
    var s := Setup(l, {0, 1});
    var c1 := FetchStep(s, c, 0);
    if l.maxSize > 0 {
      c' := c1.(threads := [Idle, AsleepFetch(b), Idle]);
      actions := NoSteps(s, c');
      assert Enabled(s, c1, NotifyOne(0, None)) && Step(s, c1, NotifyOne(0, None)) == c';
      hide Runs;
      actions := RunFrom(s, c1, NotifyOne(0, None), c', actions, c');
    } else {
      c' := c1;
      actions := NoSteps(s, c');
    }
    hide Runs;
    actions := RunFrom(s, c, TestFetch(0), c1, actions, c');
  }

  lemma SleeperBesideJob<Job>(c: State<Job>, b: nat)
    requires c.threads == [Idle, AsleepFetch(b), Idle] && c.mon.run && c.mon.queue != []
    ensures JobLost(c)
  {
    assert c.threads[1].AsleepFetch?;
  }

  /** A consumer woken for fewer jobs than were pushed leaves the next one asleep beside a waiting job. */
  lemma FewerThanPushed<Job>(l: Limits, a: nat, b: nat, jobs: seq<Job>)
    returns (actions: seq<Action<Job>>, c: State<Job>)
    requires |jobs| > a && (l.maxSize > 0 ==> |jobs| <= l.maxSize)
    ensures Runs(Setup(l, {0, 1}), Initial(3, None, None), actions, c) && JobLost(c)
    ensures Sizes(actions, {a, b}, {|jobs|})
  {
    hide Runs, JobLost;
    var s := Setup(l, {0, 1});
    var sleep := ConsumersSleep<Job>(l, a, b);
    var push, c1 := PushWakesOne(l, a, b, jobs);
    var fetch;
    fetch, c := FetchLeaves(l, b, c1);
    SleeperBesideJob(c, b);
    RunsJoin(s, Sleepers<Job>(a, b), push, c1, fetch, c);
    RunsJoin(s, Initial<Job>(3, None, None), sleep, Sleepers<Job>(a, b), push + fetch, c);
    actions := sleep + (push + fetch);
  }

  /** Every batch of two or more that fits can lose a job, with fetches of one. */
  lemma BatchLosesJob<Job>(l: Limits, jobs: seq<Job>) returns (actions: seq<Action<Job>>, c: State<Job>)
    requires |jobs| >= 2 && (l.maxSize > 0 ==> |jobs| <= l.maxSize)
    ensures Runs(Setup(l, {0, 1}), Initial(3, None, None), actions, c) && JobLost(c)
    ensures Sizes(actions, {1}, {|jobs|})
  {
    actions, c := FewerThanPushed(l, 1, 1, jobs);
    assert {1, 1} == {1};
  }

  /** So can a fetch that asks for nothing, whatever the bound, with a push of one. */
  lemma EmptyFetchLosesJob<Job>(l: Limits, x: Job) returns (actions: seq<Action<Job>>, c: State<Job>)
    ensures Runs(Setup(l, {0, 1}), Initial(3, None, None), actions, c) && JobLost(c)
    ensures Sizes(actions, {0, 1}, {1})
  {
    actions, c := FewerThanPushed(l, 0, 1, [x]);
  }

  // ---------------------------------------------------------------------------
  // Other requests lose slots
  // ---------------------------------------------------------------------------

  /** A queue filled by single jobs, and two producers */
  function Filled<Job>(n: nat, x: Job, a: Pc<Job>, b: Pc<Job>): State<Job> {
    State(Monitor(seq(n, _ => x), true, false, None, None, []), [Idle, a, b], seq(n, _ => [x]), [])
  }

  lemma FilledGrows<Job>(n: nat, x: Job, a: Pc<Job>, b: Pc<Job>)
    ensures Filled(n + 1, x, a, b).mon.queue == Filled(n, x, a, b).mon.queue + [x]
    ensures Filled(n + 1, x, a, b).accepted == Filled(n, x, a, b).accepted + [[x]]
  {
  }

  lemma PushSingle<Job>(l: Limits, n: nat, x: Job) returns (actions: seq<Action<Job>>)
    requires n < l.maxSize
    ensures Runs(Setup(l, {0}), Filled(n, x, Idle, Idle), actions, Filled(n + 1, x, Idle, Idle))
    ensures Sizes(actions, {}, {1})
  {
    var s := Setup(l, {0});
    var c0, c := Filled(n, x, Idle, Idle), Filled(n + 1, x, Idle, Idle);
    var c1, c2 := Filled(n, x, AtPush([x]), Idle), Filled(n + 1, x, NotifyingJobs, Idle);
    FilledGrows(n, x, Idle, Idle);
    hide Runs;
    actions := NoSteps(s, c);
    actions := RunFrom(s, c2, NotifyOne(1, None), c, actions, c);
    actions := RunFrom(s, c1, TestPush(1), c2, actions, c);
    actions := RunFrom(s, c0, Enter(1, AtPush([x])), c1, actions, c);
  }

  lemma {:induction false} FillUp<Job>(l: Limits, n: nat, x: Job) returns (actions: seq<Action<Job>>)
    requires n <= l.maxSize
    ensures Runs(Setup(l, {0}), Initial(3, None, None), actions, Filled(n, x, Idle, Idle))
    ensures Sizes(actions, {}, {1})
  {
    var s, c0 := Setup(l, {0}), Initial<Job>(3, None, None);
    if n == 0 {
      assert c0 == Filled(0, x, Idle, Idle);
      actions := NoSteps(s, c0);
    } else {
      hide Runs, Filled;
      actions := FillUp(l, n - 1, x);
      var last := PushSingle(l, n - 1, x);
      RunsJoin(s, c0, actions, Filled(n - 1, x, Idle, Idle), last, Filled(n, x, Idle, Idle));
      actions := actions + last;
    }
  }

  /** Two producers fall asleep on a full queue. */
  lemma ProducersSleep<Job>(l: Limits, x: Job, first: seq<Job>, second: seq<Job>) returns (actions: seq<Action<Job>>)
    requires l.maxSize > 0 && first != [] && second != []
    ensures Runs(Setup(l, {0}), Initial(3, None, None), actions,
            Filled(l.maxSize, x, AsleepPush(first), AsleepPush(second)))
    ensures Sizes(actions, {}, {1, |first|, |second|})
  {
    var s, n := Setup(l, {0}), l.maxSize;
    var c0 := Filled(n, x, Idle, Idle);
    var c1, c2 := Filled(n, x, AtPush(first), Idle), Filled(n, x, AsleepPush(first), Idle);
    var c3 := Filled(n, x, AsleepPush(first), AtPush(second));
    var c := Filled(n, x, AsleepPush(first), AsleepPush(second));
    var fill := FillUp(l, n, x);
    hide Runs;
    actions := NoSteps(s, c);
    actions := RunFrom(s, c3, TestPush(2), c, actions, c);
    actions := RunFrom(s, c2, Enter(2, AtPush(second)), c3, actions, c);
    actions := RunFrom(s, c1, TestPush(1), c2, actions, c);
    actions := RunFrom(s, c0, Enter(1, AtPush(first)), c1, actions, c);
    RunsJoin(s, Initial<Job>(3, None, None), fill, c0, actions, c);
    actions := fill + actions;
  }

  /** A fetch on the full queue, whose notify_one wakes the first producer */
  lemma FetchWakesOne<Job>(l: Limits, x: Job, want: nat, first: seq<Job>, second: seq<Job>)
    returns (actions: seq<Action<Job>>, c: State<Job>)
    requires l.maxSize > 0
    ensures Runs(Setup(l, {0}), Filled(l.maxSize, x, AsleepPush(first), AsleepPush(second)), actions, c)
    ensures c.threads == [Idle, AtPush(first), AsleepPush(second)]
    ensures c.mon.run && c.mon.warnCallback == None && |c.mon.queue| == l.maxSize - Min(want, l.maxSize)
    ensures Sizes(actions, {want}, {})
  {
    var s := Setup(l, {0});
    var c0 := Filled(l.maxSize, x, AsleepPush(first), AsleepPush(second));
    var c1 := c0.(threads := [AtFetch(want), AsleepPush(first), AsleepPush(second)]);
    var c2 := FetchStep(s, c1, 0);
    c := c2.(threads := [Idle, AtPush(first), AsleepPush(second)]);
    assert Step(s, c2, NotifyOne(0, Some(1))) == c;
    hide Runs;
    actions := NoSteps(s, c);
    actions := RunFrom(s, c2, NotifyOne(0, Some(1)), c, actions, c);
    actions := RunFrom(s, c1, TestFetch(0), c2, actions, c);
    actions := RunFrom(s, c0, Enter(0, AtFetch(want)), c1, actions, c);
  }

  /** The woken producer pushes, or finds that it does not fit. */
  lemma PushOrSleep<Job>(l: Limits, first: seq<Job>, second: seq<Job>, c: State<Job>)
    returns (actions: seq<Action<Job>>, c': State<Job>)
    requires l.maxSize > 0 && c.threads == [Idle, AtPush(first), AsleepPush(second)] && c.mon.run
    ensures Runs(Setup(l, {0}), c, actions, c') && c'.mon.run
    ensures if |c.mon.queue| + |first| <= l.maxSize
            then c'.threads == [Idle, Idle, AsleepPush(second)] && |c'.mon.queue| == |c.mon.queue| + |first|
            else c'.threads == [Idle, AsleepPush(first), AsleepPush(second)] && |c'.mon.queue| == |c.mon.queue|
    ensures Sizes(actions, {}, {})
  {
    var s := Setup(l, {0});
    var c1 := PushStep(s, c, 1);
    if |c.mon.queue| + |first| <= l.maxSize {
      c' := c1.(threads := [Idle, Idle, AsleepPush(second)]);
      actions := NoSteps(s, c');
      assert Step(s, c1, NotifyOne(1, None)) == c';
      hide Runs;
      actions := RunFrom(s, c1, NotifyOne(1, None), c', actions, c');
    } else {
      c' := c1;
      actions := NoSteps(s, c');
    }
    hide Runs;
    actions := RunFrom(s, c, TestPush(1), c1, actions, c');
  }

  lemma SleeperBesideSlot<Job>(s: Setup, c: State<Job>, first: seq<Job>, second: seq<Job>)
    requires c.threads == [Idle, Idle, AsleepPush(second)] || c.threads == [Idle, AsleepPush(first), AsleepPush(second)]
    requires c.mon.run && |c.mon.queue| + |second| <= s.limits.maxSize
    ensures SlotLost(s, c)
  {
    assert c.threads[2].AsleepPush?;
  }

  /** A full queue, a fetch, and two producers of which the fetch wakes the first */
  lemma FetchThenPush<Job>(l: Limits, x: Job, want: nat, first: seq<Job>, second: seq<Job>)
    returns (actions: seq<Action<Job>>, c: State<Job>)
    requires l.maxSize > 0 && first != [] && second != []
    requires var left := l.maxSize - Min(want, l.maxSize);
             (if left + |first| <= l.maxSize then left + |first| else left) + |second| <= l.maxSize
    ensures Runs(Setup(l, {0}), Initial(3, None, None), actions, c) && SlotLost(Setup(l, {0}), c)
    ensures Sizes(actions, {want}, {1, |first|, |second|})
  {
    hide Runs, SlotLost;
    var s := Setup(l, {0});
    var full := Filled(l.maxSize, x, AsleepPush(first), AsleepPush(second));
    var sleep := ProducersSleep(l, x, first, second);
    var fetch, c1 := FetchWakesOne(l, x, want, first, second);
    var push;
    push, c := PushOrSleep(l, first, second, c1);
    SleeperBesideSlot(s, c, first, second);
    RunsJoin(s, full, fetch, c1, push, c);
    RunsJoin(s, Initial<Job>(3, None, None), sleep, full, fetch + push, c);
    actions := sleep + (fetch + push);
  }

  /** For every bound of two or more, every fetch of two or more can lose a slot, with pushes of one. */
  lemma FetchLosesSlot<Job>(l: Limits, want: nat, x: Job) returns (actions: seq<Action<Job>>, c: State<Job>)
    requires l.maxSize >= 2 && want >= 2
    ensures Runs(Setup(l, {0}), Initial(3, None, None), actions, c) && SlotLost(Setup(l, {0}), c)
    ensures Sizes(actions, {want}, {1})
  {
    actions, c := FetchThenPush(l, x, want, [x], [x]);
  }

  /** So can every batch of two or more, for every bound, with fetches of one and other pushes of one: woken, the
      producer finds no room, and the one behind it, whose job would fit, is not notified. */
  lemma BatchLosesSlot<Job>(l: Limits, jobs: seq<Job>) returns (actions: seq<Action<Job>>, c: State<Job>)
    requires |jobs| >= 2 && l.maxSize > 0
    ensures Runs(Setup(l, {0}), Initial(3, None, None), actions, c) && SlotLost(Setup(l, {0}), c)
    ensures Sizes(actions, {1}, {1, |jobs|})
  {
    actions, c := FetchThenPush(l, jobs[0], 1, jobs, [jobs[0]]);
  }
}
