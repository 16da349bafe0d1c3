/**
 Threads on one ThreadSafeJobQueue. A step is one critical section, one notification after
 the mutex is released, or a wake-up; between steps any other thread may run. A thread in
 condition_variable::wait tests its predicate under the mutex and falls asleep in the same
 step, and tests again after every wake-up, spurious ones included.
 */
module JobProtocol {
  import opened Options
  import opened JobQueue

  /** Where a thread is between two steps; it holds no lock there. */
  datatype Pc<Job> =
    | Idle                          // outside the queue
    | AtFetch(want: nat)            // in get_jobs_and_wait, about to test its predicate
    | AsleepFetch(want: nat)        // in cond_.wait
    | NotifyingSpace                // in get_jobs_and_wait, about to call cond_space_.notify_one
    | AtPush(jobs: seq<Job>)        // in emplace or batch_emplace, about to test its predicate
    | AsleepPush(jobs: seq<Job>)    // in cond_space_.wait
    | NotifyingJobs                 // in emplace or batch_emplace, about to call cond_.notify_one
    | AtClear                       // in clear, about to lock
    | ClearNotifyingSpace           // in clear, about to call cond_space_.notify_all
    | AtStop                        // in stop, about to clear
    | StopNotifyingSpace            // in the clear of stop, about to call cond_space_.notify_all
    | AtStopFlag                    // in stop, about to lock and end the run
    | StopNotifyingFetch            // in stop, about to call cond_.notify_all
    | StopNotifyingPush             // in stop, about to call cond_space_.notify_all for the last time

  /** A job that left the queue: handed to a consumer, or cleared past the callback then set. */
  datatype Removal<Job> = Delivered(job: Job) | Cleared(job: Job, to: Option<Callback>)

  /** The queue, the threads, and the history: batches accepted and jobs removed, in order. */
  datatype State<Job> = State(
    mon: Monitor<Job>, threads: seq<Pc<Job>>, accepted: seq<seq<Job>>, removed: seq<Removal<Job>>)

  /** Limits of the queue, and which threads are its consumers */
  datatype Setup = Setup(limits: Limits, consumers: set<nat>)

  datatype Action<Job> =
    | Enter(t: nat, pc: Pc<Job>)                  // a thread calls a method
    | TestFetch(t: nat)
    | TestPush(t: nat)
    | NotifyOne(t: nat, woken: Option<nat>)       // one sleeper is woken if there is one
    | NotifyAll(t: nat)
    | DoClear(t: nat)
    | EndRun(t: nat)
    | Spurious(t: nat)
    | SetClear(to: Option<Callback>)
    | SetWarn(to: Option<Callback>)

  /** The first step of each method; an empty batch returns at once. */
  predicate IsEntry<Job>(pc: Pc<Job>) {
    pc.AtFetch? || pc.AtClear? || pc.AtStop? || (pc.AtPush? && pc.jobs != [])
  }

  /** Consumers do not push, and nobody else fetches. */
  predicate KeepsRole<Job>(s: Setup, a: Action<Job>) {
    a.Enter? ==> if a.t in s.consumers then !a.pc.AtPush? else !a.pc.AtFetch?
  }

  predicate Asleep<Job>(pc: Pc<Job>) {
    pc.AsleepFetch? || pc.AsleepPush?
  }

  function Awake<Job>(pc: Pc<Job>): Pc<Job> {
    match pc
    case AsleepFetch(want) => AtFetch(want)
    case AsleepPush(jobs) => AtPush(jobs)
    case other => other
  }

  /** Whether a notification sent from `from` reaches a thread that sleeps at `pc`. */
  predicate Reaches<Job>(from: Pc<Job>, pc: Pc<Job>) {
    match from
    case NotifyingJobs => pc.AsleepFetch?
    case StopNotifyingFetch => pc.AsleepFetch?
    case NotifyingSpace => pc.AsleepPush?
    case ClearNotifyingSpace => pc.AsleepPush?
    case StopNotifyingSpace => pc.AsleepPush?
    case StopNotifyingPush => pc.AsleepPush?
    case _ => false
  }

  predicate NotifiesAll<Job>(pc: Pc<Job>) {
    pc.ClearNotifyingSpace? || pc.StopNotifyingSpace? || pc.StopNotifyingFetch? || pc.StopNotifyingPush?
  }

  function AfterNotify<Job>(pc: Pc<Job>): Pc<Job> {
    match pc
    case StopNotifyingSpace => AtStopFlag
    case StopNotifyingFetch => StopNotifyingPush
    case _ => Idle
  }

  function WakeAll<Job>(from: Pc<Job>, threads: seq<Pc<Job>>): seq<Pc<Job>> {
    seq(|threads|, i requires 0 <= i < |threads| => if Reaches(from, threads[i]) then Awake(threads[i]) else threads[i])
  }

  predicate Enabled<Job>(s: Setup, c: State<Job>, a: Action<Job>) {
    match a
    case Enter(t, pc) => t < |c.threads| && c.threads[t].Idle? && IsEntry(pc)
    case TestFetch(t) => t < |c.threads| && c.threads[t].AtFetch?
    case TestPush(t) => t < |c.threads| && c.threads[t].AtPush?
    case NotifyOne(t, woken) =>
      && t < |c.threads| && (c.threads[t].NotifyingJobs? || c.threads[t].NotifyingSpace?)
      && (match woken
          case Some(w) => w < |c.threads| && Reaches(c.threads[t], c.threads[w])
          case None => forall w :: 0 <= w < |c.threads| ==> !Reaches(c.threads[t], c.threads[w]))
    case NotifyAll(t) => t < |c.threads| && NotifiesAll(c.threads[t])
    case DoClear(t) => t < |c.threads| && (c.threads[t].AtClear? || c.threads[t].AtStop?)
    case EndRun(t) => t < |c.threads| && c.threads[t].AtStopFlag?
    case Spurious(t) => t < |c.threads| && Asleep(c.threads[t])
    case SetClear(_) => true
    case SetWarn(_) => true
  }

  function DeliveredAll<Job>(jobs: seq<Job>): seq<Removal<Job>> {
    seq(|jobs|, i requires 0 <= i < |jobs| => Delivered(jobs[i]))
  }

  function ClearedAll<Job>(jobs: seq<Job>, to: Option<Callback>): seq<Removal<Job>> {
    seq(|jobs|, i requires 0 <= i < |jobs| => Cleared(jobs[i], to))
  }

  function FetchStep<Job>(s: Setup, c: State<Job>, t: nat): State<Job>
    requires t < |c.threads| && c.threads[t].AtFetch?
  {
    var want := c.threads[t].want;
    if !CanFetch(c.mon) then c.(threads := c.threads[t := AsleepFetch(want)])
    else if !c.mon.run then c.(threads := c.threads[t := Idle])
    else c.(mon := AfterFetch(c.mon, want),
            threads := c.threads[t := if s.limits.maxSize > 0 then NotifyingSpace else Idle],
            removed := c.removed + DeliveredAll(Fetched(c.mon, want)))
  }

  function PushStep<Job>(s: Setup, c: State<Job>, t: nat): State<Job>
    requires t < |c.threads| && c.threads[t].AtPush?
  {
    var jobs := c.threads[t].jobs;
    if !CanPush(s.limits, c.mon, |jobs|) then c.(threads := c.threads[t := AsleepPush(jobs)])
    else
      var accepts := Accepts(s.limits, c.mon);
      c.(mon := AfterPush(s.limits, c.mon, jobs),
         threads := c.threads[t := if accepts then NotifyingJobs else Idle],
         accepted := if accepts then c.accepted + [jobs] else c.accepted)
  }

  function ClearStep<Job>(s: Setup, c: State<Job>, t: nat): State<Job>
    requires t < |c.threads| && (c.threads[t].AtClear? || c.threads[t].AtStop?)
  {
    var next := if s.limits.maxSize > 0 then (if c.threads[t].AtStop? then StopNotifyingSpace else ClearNotifyingSpace)
                else if c.threads[t].AtStop? then AtStopFlag else Idle;
    c.(mon := AfterClear(c.mon), threads := c.threads[t := next],
       removed := c.removed + ClearedAll(c.mon.queue, c.mon.clearCallback))
  }

  function Step<Job>(s: Setup, c: State<Job>, a: Action<Job>): State<Job>
    requires Enabled(s, c, a)
  {
    match a
    case Enter(t, pc) => c.(threads := c.threads[t := pc])
    case TestFetch(t) => FetchStep(s, c, t)
    case TestPush(t) => PushStep(s, c, t)
    case NotifyOne(t, woken) =>
      var threads := c.threads[t := AfterNotify(c.threads[t])];
      c.(threads := if woken.Some? then threads[woken.value := Awake(c.threads[woken.value])] else threads)
    case NotifyAll(t) => c.(threads := WakeAll(c.threads[t], c.threads)[t := AfterNotify(c.threads[t])])
    case DoClear(t) => ClearStep(s, c, t)
    case EndRun(t) => c.(mon := c.mon.(run := false), threads := c.threads[t := StopNotifyingFetch])
    case Spurious(t) => c.(threads := c.threads[t := Awake(c.threads[t])])
    case SetClear(to) => c.(mon := c.mon.(clearCallback := to))
    case SetWarn(to) => c.(mon := c.mon.(warnCallback := to))
  }

  /** A run of the actions from c, ending in c'. */
  ghost predicate Runs<Job>(s: Setup, c: State<Job>, actions: seq<Action<Job>>, c': State<Job>)
    decreases |actions|
  {
    if actions == [] then c' == c
    else Enabled(s, c, actions[0]) && Runs(s, Step(s, c, actions[0]), actions[1..], c')
  }

  /** A new queue, and n threads outside it. */
  function Initial<Job>(n: nat, warn: Option<Callback>, clear: Option<Callback>): State<Job> {
    State(Monitor([], true, false, warn, clear, []), seq(n, _ => Idle), [], [])
  }

  // ---------------------------------------------------------------------------
  // Who is where
  // ---------------------------------------------------------------------------

  datatype Place =
    | Elsewhere | Fetching | FetchSleeping | SpaceNotifying | Pushing | PushSleeping | JobsNotifying
    | AllSpaceNotifying | StopFetchNotifying | StopPushNotifying

  function PlaceOf<Job>(pc: Pc<Job>): Place {
    match pc
    case AtFetch(_) => Fetching
    case AsleepFetch(_) => FetchSleeping
    case NotifyingSpace => SpaceNotifying
    case AtPush(_) => Pushing
    case AsleepPush(_) => PushSleeping
    case NotifyingJobs => JobsNotifying
    case ClearNotifyingSpace => AllSpaceNotifying
    case StopNotifyingSpace => AllSpaceNotifying
    case StopNotifyingFetch => StopFetchNotifying
    case StopNotifyingPush => StopPushNotifying
    case _ => Elsewhere
  }

  function Who<Job>(threads: seq<Pc<Job>>, p: Place): set<nat> {
    set t | 0 <= t < |threads| && PlaceOf(threads[t]) == p
  }

  /** What moving thread t to pc does to the threads at place p. */
  ghost predicate Moved<Job>(threads: seq<Pc<Job>>, t: nat, pc: Pc<Job>, p: Place)
    requires t < |threads|
  {
    && Who(threads[t := pc], p) == (if PlaceOf(pc) == p then Who(threads, p) + {t} else Who(threads, p) - {t})
    && (t in Who(threads, p) <==> PlaceOf(threads[t]) == p)
  }

  lemma WhoMoves<Job>(threads: seq<Pc<Job>>, t: nat, pc: Pc<Job>)
    requires t < |threads|
    ensures Moved(threads, t, pc, Fetching) && Moved(threads, t, pc, FetchSleeping)
            && Moved(threads, t, pc, SpaceNotifying)
    ensures Moved(threads, t, pc, Pushing) && Moved(threads, t, pc, PushSleeping)
            && Moved(threads, t, pc, JobsNotifying)
    ensures Moved(threads, t, pc, AllSpaceNotifying)
    ensures Moved(threads, t, pc, StopFetchNotifying) && Moved(threads, t, pc, StopPushNotifying)
  {
    forall p: Place
      ensures Moved(threads, t, pc, p)
    {
    }
  }

  // ---------------------------------------------------------------------------
  // Invariants of every run
  // ---------------------------------------------------------------------------

  /** Only consumers fetch; every thread that pushes has at least one job. */
  ghost predicate RolesOk<Job>(s: Setup, c: State<Job>) {
    && (forall t :: t in s.consumers ==> t < |c.threads|)
    && Who(c.threads, Fetching) + Who(c.threads, FetchSleeping) + Who(c.threads, SpaceNotifying) <= s.consumers
    && s.consumers !! Who(c.threads, Pushing) + Who(c.threads, PushSleeping)
    && (forall t :: 0 <= t < |c.threads| && c.threads[t].AtPush? ==> c.threads[t].jobs != [])
    && (forall t :: 0 <= t < |c.threads| && c.threads[t].AsleepPush? ==> c.threads[t].jobs != [])
  }

  /** The queue keeps its bound; without one, no producer ever sleeps. */
  ghost predicate Bounded<Job>(s: Setup, c: State<Job>) {
    if s.limits.maxSize > 0 then |c.mon.queue| <= s.limits.maxSize else Who(c.threads, PushSleeping) == {}
  }

  /** While jobs wait, not every consumer sleeps unnoticed. */
  ghost predicate JobsNoticed<Job>(s: Setup, c: State<Job>) {
    c.mon.run && c.mon.queue != [] && s.consumers <= Who(c.threads, FetchSleeping) ==>
        Who(c.threads, JobsNotifying) != {}
  }

  /** While the queue is empty, no producer sleeps unless one is on its way or will be notified. */
  ghost predicate SpaceNoticed<Job>(c: State<Job>) {
    c.mon.run && c.mon.queue == [] && Who(c.threads, PushSleeping) != {} ==>
      Who(c.threads, Pushing) + Who(c.threads, SpaceNotifying) + Who(c.threads, AllSpaceNotifying) != {}
  }

  /** After the run has ended, whoever still sleeps has a notify_all of stop coming. */
  ghost predicate StopNoticed<Job>(c: State<Job>) {
    !c.mon.run ==>
      && (Who(c.threads, FetchSleeping) != {} ==> Who(c.threads, StopFetchNotifying) != {})
      && (Who(c.threads, PushSleeping) != {} ==>
          Who(c.threads, StopFetchNotifying) + Who(c.threads, StopPushNotifying) != {})
  }

  /** No producer in the queue brings more jobs than the queue can ever hold. */
  ghost predicate BatchesFit<Job>(s: Setup, c: State<Job>) {
    && (forall t :: 0 <= t < |c.threads| && c.threads[t].AtPush? ==> Fits(s, c.threads[t]))
    && (forall t :: 0 <= t < |c.threads| && c.threads[t].AsleepPush? ==> Fits(s, c.threads[t]))
  }

  predicate Fits<Job>(s: Setup, pc: Pc<Job>) {
    pc.AtPush? || pc.AsleepPush? ==> s.limits.maxSize > 0 ==> |pc.jobs| <= s.limits.maxSize
  }

  predicate ActionFits<Job>(s: Setup, a: Action<Job>) {
    a.Enter? ==> Fits(s, a.pc)
  }

  ghost predicate Inv<Job>(s: Setup, c: State<Job>) {
    RolesOk(s, c) && Bounded(s, c) && JobsNoticed(s, c) && StopNoticed(c)
  }

  ghost predicate FitInv<Job>(s: Setup, c: State<Job>) {
    BatchesFit(s, c) && SpaceNoticed(c)
  }

  lemma InitialInv<Job>(s: Setup, n: nat, warn: Option<Callback>, clear: Option<Callback>)
    requires forall t :: t in s.consumers ==> t < n
    ensures Inv<Job>(s, Initial(n, warn, clear)) && FitInv<Job>(s, Initial(n, warn, clear))
  {
  }

  /** What the roles say of one thread. */
  lemma RoleOf<Job>(s: Setup, c: State<Job>, t: nat)
    requires RolesOk(s, c) && t < |c.threads|
    ensures PlaceOf(c.threads[t]) in {Fetching, FetchSleeping, SpaceNotifying} ==> t in s.consumers
    ensures PlaceOf(c.threads[t]) in {Pushing, PushSleeping} ==> t !in s.consumers
    ensures c.threads[t].AtPush? || c.threads[t].AsleepPush? ==> c.threads[t].jobs != []
  {
    assert t in Who(c.threads, PlaceOf(c.threads[t]));
  }

  lemma MoveKeepsRoles<Job>(s: Setup, c: State<Job>, t: nat, pc: Pc<Job>)
    requires RolesOk(s, c) && t < |c.threads|
    requires PlaceOf(pc) in {Fetching, FetchSleeping, SpaceNotifying} ==> t in s.consumers
    requires PlaceOf(pc) in {Pushing, PushSleeping} ==> t !in s.consumers
    requires pc.AtPush? || pc.AsleepPush? ==> pc.jobs != []
    ensures RolesOk(s, c.(threads := c.threads[t := pc]))
  {
    hide Who;
    WhoMoves(c.threads, t, pc);
  }

  lemma SameThreadsSameRoles<Job>(s: Setup, c: State<Job>, c': State<Job>)
    requires RolesOk(s, c) && c'.threads == c.threads
    ensures RolesOk(s, c')
  {
  }

  /** After a step that moves one thread, the invariant about roles and what is left to show. */
  lemma MoveKeeps<Job>(s: Setup, c: State<Job>, t: nat, c': State<Job>)
    requires Inv(s, c) && t < |c.threads| && |c'.threads| == |c.threads| && c'.threads == c.threads[t := c'.threads[t]]
    requires PlaceOf(c'.threads[t]) in {Fetching, FetchSleeping, SpaceNotifying} ==> t in s.consumers
    requires PlaceOf(c'.threads[t]) in {Pushing, PushSleeping} ==> t !in s.consumers
    requires c'.threads[t].AtPush? || c'.threads[t].AsleepPush? ==> c'.threads[t].jobs != []
    requires Bounded(s, c') && JobsNoticed(s, c') && StopNoticed(c')
    ensures Inv(s, c')
  {
    hide Who, Bounded, JobsNoticed, StopNoticed;
    MoveKeepsRoles(s, c, t, c'.threads[t]);
    SameThreadsSameRoles(s, c.(threads := c'.threads), c');
  }

  lemma EnterKeeps<Job>(s: Setup, c: State<Job>, t: nat, pc: Pc<Job>)
    requires Inv(s, c) && Enabled(s, c, Enter(t, pc)) && KeepsRole(s, Enter(t, pc))
    ensures Inv(s, Step(s, c, Enter(t, pc)))
    ensures FitInv(s, c) && Fits(s, pc) ==> FitInv(s, Step(s, c, Enter(t, pc)))
  {
    hide Who, RolesOk;
    WhoMoves(c.threads, t, pc);
    MoveKeeps(s, c, t, Step(s, c, Enter(t, pc)));
  }

  lemma FetchKeeps<Job>(s: Setup, c: State<Job>, t: nat)
    requires Inv(s, c) && Enabled(s, c, TestFetch(t))
    ensures Inv(s, FetchStep(s, c, t))
    ensures FitInv(s, c) ==> FitInv(s, FetchStep(s, c, t))
  {
    hide Who, RolesOk;
    RoleOf(s, c, t);
    WhoMoves(c.threads, t, FetchStep(s, c, t).threads[t]);
    MoveKeeps(s, c, t, FetchStep(s, c, t));
  }

  lemma PushKeeps<Job>(s: Setup, c: State<Job>, t: nat)
    requires Inv(s, c) && Enabled(s, c, TestPush(t))
    ensures Inv(s, PushStep(s, c, t))
  {
    hide Who, RolesOk;
    RoleOf(s, c, t);
    WhoMoves(c.threads, t, PushStep(s, c, t).threads[t]);
    var c' := PushStep(s, c, t);
    assert c'.threads[t].NotifyingJobs? ==> t in Who(c'.threads, JobsNotifying);
    assert !c'.threads[t].NotifyingJobs? ==> Who(c'.threads, JobsNotifying) == Who(c.threads, JobsNotifying);
    assert Who(c'.threads, FetchSleeping) == Who(c.threads, FetchSleeping);
    MoveKeeps(s, c, t, c');
  }

  lemma PushKeepsFit<Job>(s: Setup, c: State<Job>, t: nat)
    requires Inv(s, c) && FitInv(s, c) && Enabled(s, c, TestPush(t))
    ensures FitInv(s, PushStep(s, c, t))
  {
    RoleOf(s, c, t);
    hide Who, RolesOk, JobsNoticed, StopNoticed;
    WhoMoves(c.threads, t, PushStep(s, c, t).threads[t]);
  }

  lemma ClearKeeps<Job>(s: Setup, c: State<Job>, t: nat)
    requires Inv(s, c) && Enabled(s, c, DoClear(t))
    ensures Inv(s, ClearStep(s, c, t))
  {
    hide Who, RolesOk;
    WhoMoves(c.threads, t, ClearStep(s, c, t).threads[t]);
    MoveKeeps(s, c, t, ClearStep(s, c, t));
  }

  lemma ClearKeepsFit<Job>(s: Setup, c: State<Job>, t: nat)
    requires Inv(s, c) && FitInv(s, c) && Enabled(s, c, DoClear(t))
    ensures FitInv(s, ClearStep(s, c, t))
  {
    hide Who, RolesOk, JobsNoticed, StopNoticed;
    WhoMoves(c.threads, t, ClearStep(s, c, t).threads[t]);
  }

  lemma NotifyOneWakes<Job>(s: Setup, c: State<Job>, t: nat, w: nat)
    requires Inv(s, c) && Enabled(s, c, NotifyOne(t, Some(w)))
    ensures Inv(s, Step(s, c, NotifyOne(t, Some(w))))
  {
    NotifyOneWakesRoles(s, c, t, w);
    RoleOf(s, c, w);
    hide Who, RolesOk, JobsNoticed, StopNoticed;
    if c.threads[t].NotifyingJobs? {
      ConsumerWakes(s, c, t, w);
    } else {
      ProducerWakes(s, c, t, w);
    }
  }

  lemma ConsumerWakes<Job>(s: Setup, c: State<Job>, t: nat, w: nat)
    requires t < |c.threads| && w < |c.threads| && t != w && w in s.consumers
    requires c.threads[t].NotifyingJobs? && c.threads[w].AsleepFetch?
    requires Bounded(s, c) && StopNoticed(c)
    ensures var c' := c.(threads := c.threads[t := Idle][w := AtFetch(c.threads[w].want)]);
            Bounded(s, c') && JobsNoticed(s, c') && StopNoticed(c')
  {
    hide Who;
    WhoMoves(c.threads, t, Idle);
    WhoMoves(c.threads[t := Idle], w, AtFetch(c.threads[w].want));
    var c' := c.(threads := c.threads[t := Idle][w := AtFetch(c.threads[w].want)]);
    assert w !in Who(c'.threads, FetchSleeping);
  }

  lemma ProducerWakes<Job>(s: Setup, c: State<Job>, t: nat, w: nat)
    requires t < |c.threads| && w < |c.threads| && t != w
    requires c.threads[t].NotifyingSpace? && c.threads[w].AsleepPush?
    requires Bounded(s, c) && JobsNoticed(s, c) && StopNoticed(c)
    ensures var c' := c.(threads := c.threads[t := Idle][w := AtPush(c.threads[w].jobs)]);
            Bounded(s, c') && JobsNoticed(s, c') && StopNoticed(c')
  {
    hide Who;
    var c' := c.(threads := c.threads[t := Idle][w := AtPush(c.threads[w].jobs)]);
    WhoMoves(c.threads, t, Idle);
    WhoMoves(c.threads[t := Idle], w, AtPush(c.threads[w].jobs));
    assert Who(c'.threads, FetchSleeping) == Who(c.threads, FetchSleeping);
    assert Who(c'.threads, JobsNotifying) == Who(c.threads, JobsNotifying);
  }

  lemma NotifyOneWakesRoles<Job>(s: Setup, c: State<Job>, t: nat, w: nat)
    requires RolesOk(s, c) && Enabled(s, c, NotifyOne(t, Some(w)))
    ensures RolesOk(s, Step(s, c, NotifyOne(t, Some(w))))
  {
    RoleOf(s, c, w);
    hide RolesOk, Who;
    MoveKeepsRoles(s, c, t, Idle);
    MoveKeepsRoles(s, c.(threads := c.threads[t := Idle]), w, Awake(c.threads[w]));
  }

  lemma NotifyOneWakesFit<Job>(s: Setup, c: State<Job>, t: nat, w: nat)
    requires Inv(s, c) && FitInv(s, c) && Enabled(s, c, NotifyOne(t, Some(w)))
    ensures FitInv(s, Step(s, c, NotifyOne(t, Some(w))))
  {
    hide Who, RolesOk, StopNoticed, JobsNoticed;
    WhoMoves(c.threads, t, Idle);
    WhoMoves(c.threads[t := Idle], w, Awake(c.threads[w]));
    var c' := Step(s, c, NotifyOne(t, Some(w)));
    assert w in Who(c'.threads, PlaceOf(c'.threads[w]));
  }

  lemma NotifyOneMisses<Job>(s: Setup, c: State<Job>, t: nat)
    requires s.consumers != {} && Inv(s, c) && Enabled(s, c, NotifyOne(t, None))
    ensures Inv(s, Step(s, c, NotifyOne(t, None)))
    ensures FitInv(s, c) ==> FitInv(s, Step(s, c, NotifyOne(t, None)))
  {
    hide Inv, FitInv, Who;
    NobodyReached(c.threads, c.threads[t]);
    if c.threads[t].NotifyingJobs? {
      JobsMiss(s, c, t);
    } else {
      SpaceMiss(s, c, t);
    }
  }

  lemma JobsMiss<Job>(s: Setup, c: State<Job>, t: nat)
    requires s.consumers != {} && Inv(s, c) && t < |c.threads| && c.threads[t] == NotifyingJobs
             && Who(c.threads, FetchSleeping) == {}
    ensures Inv(s, c.(threads := c.threads[t := Idle]))
    ensures FitInv(s, c) ==> FitInv(s, c.(threads := c.threads[t := Idle]))
  {
    hide Who, RolesOk;
    var c' := c.(threads := c.threads[t := Idle]);
    WhoMoves(c.threads, t, Idle);
    assert Who(c'.threads, FetchSleeping) == {};
    MoveKeeps(s, c, t, c');
  }

  lemma SpaceMiss<Job>(s: Setup, c: State<Job>, t: nat)
    requires Inv(s, c) && t < |c.threads| && c.threads[t] == NotifyingSpace && Who(c.threads, PushSleeping) == {}
    ensures Inv(s, c.(threads := c.threads[t := Idle]))
    ensures FitInv(s, c) ==> FitInv(s, c.(threads := c.threads[t := Idle]))
  {
    hide Who, RolesOk;
    var c' := c.(threads := c.threads[t := Idle]);
    WhoMoves(c.threads, t, Idle);
    assert Who(c'.threads, PushSleeping) == {};
    MoveKeeps(s, c, t, c');
  }

  lemma NobodyReached<Job>(threads: seq<Pc<Job>>, from: Pc<Job>)
    requires forall w :: 0 <= w < |threads| ==> !Reaches(from, threads[w])
    ensures Reaches(from, AsleepFetch(0)) ==> Who(threads, FetchSleeping) == {}
    ensures Reaches(from, AsleepPush([])) ==> Who(threads, PushSleeping) == {}
  {
  }

  /** The threads after a notify_all, by place. */
  lemma WhoAfterNotifyAll<Job>(s: Setup, c: State<Job>, t: nat)
    requires Enabled(s, c, NotifyAll(t))
    ensures var from := c.threads[t];
            var fetch, push := from.StopNotifyingFetch?, !from.StopNotifyingFetch?;
            var c' := Step(s, c, NotifyAll(t));
            && |c'.threads| == |c.threads|
            && Who(c'.threads, FetchSleeping) == (if fetch then {} else Who(c.threads, FetchSleeping))
            && Who(c'.threads, PushSleeping) == (if push then {} else Who(c.threads, PushSleeping))
            && Who(c'.threads, Fetching)
               == Who(c.threads, Fetching) + (if fetch then Who(c.threads, FetchSleeping) else {})
            && Who(c'.threads, Pushing)
               == Who(c.threads, Pushing) + (if push then Who(c.threads, PushSleeping) else {})
            && Who(c'.threads, SpaceNotifying) == Who(c.threads, SpaceNotifying)
            && Who(c'.threads, JobsNotifying) == Who(c.threads, JobsNotifying)
            && Who(c'.threads, StopPushNotifying)
               == (if fetch then Who(c.threads, StopPushNotifying) + {t} else Who(c.threads, StopPushNotifying) - {t})
            && Who(c'.threads, StopFetchNotifying) == Who(c.threads, StopFetchNotifying) - {t}
            && Who(c'.threads, AllSpaceNotifying) == Who(c.threads, AllSpaceNotifying) - {t}
  {
    hide Who;
    WhoAfterWakeAll(s, c, t, FetchSleeping);
    WhoAfterWakeAll(s, c, t, PushSleeping);
    WhoAfterWakeAll(s, c, t, Fetching);
    WhoAfterWakeAll(s, c, t, Pushing);
    WhoAfterWakeAll(s, c, t, SpaceNotifying);
    WhoAfterWakeAll(s, c, t, JobsNotifying);
    WhoAfterWakeAll(s, c, t, StopPushNotifying);
    WhoAfterWakeAll(s, c, t, StopFetchNotifying);
    WhoAfterWakeAll(s, c, t, AllSpaceNotifying);
  }

  lemma WhoAfterWakeAll<Job>(s: Setup, c: State<Job>, t: nat, p: Place)
    requires Enabled(s, c, NotifyAll(t)) && p != Elsewhere
    ensures var fetch := c.threads[t].StopNotifyingFetch?;
            Who(Step(s, c, NotifyAll(t)).threads, p) ==
            match p
            case FetchSleeping => if fetch then {} else Who(c.threads, FetchSleeping)
            case PushSleeping => if fetch then Who(c.threads, PushSleeping) else {}
            case Fetching => Who(c.threads, Fetching) + (if fetch then Who(c.threads, FetchSleeping) else {})
            case Pushing => Who(c.threads, Pushing) + (if fetch then {} else Who(c.threads, PushSleeping))
            case SpaceNotifying => Who(c.threads, SpaceNotifying)
            case JobsNotifying => Who(c.threads, JobsNotifying)
            case StopPushNotifying =>
              if fetch then Who(c.threads, StopPushNotifying) + {t} else Who(c.threads, StopPushNotifying) - {t}
            case _ => Who(c.threads, p) - {t}
  {
  }

  lemma NotifyAllKeeps<Job>(s: Setup, c: State<Job>, t: nat)
    requires s.consumers != {} && Inv(s, c) && Enabled(s, c, NotifyAll(t))
    ensures Inv(s, Step(s, c, NotifyAll(t)))
  {
    NotifyAllKeepsRoles(s, c, t);
    WhoMoves(c.threads, t, c.threads[t]);
    hide Who, WakeAll, RolesOk;
    WhoAfterNotifyAll(s, c, t);
  }

  lemma NotifyAllKeepsRoles<Job>(s: Setup, c: State<Job>, t: nat)
    requires RolesOk(s, c) && Enabled(s, c, NotifyAll(t))
    ensures RolesOk(s, Step(s, c, NotifyAll(t)))
  {
    hide Who, WakeAll;
    WhoAfterNotifyAll(s, c, t);
    WakeAllJobs(c.threads, c.threads[t]);
  }

  lemma NotifyAllKeepsFit<Job>(s: Setup, c: State<Job>, t: nat)
    requires FitInv(s, c) && Enabled(s, c, NotifyAll(t))
    ensures FitInv(s, Step(s, c, NotifyAll(t)))
  {
    hide Who, WakeAll;
    WhoAfterNotifyAll(s, c, t);
    WhoMoves(c.threads, t, c.threads[t]);
    WakeAllJobs(c.threads, c.threads[t]);
  }

  lemma WakeAllJobs<Job>(threads: seq<Pc<Job>>, from: Pc<Job>)
    ensures |WakeAll(from, threads)| == |threads|
    ensures forall t :: 0 <= t < |threads| ==>
            WakeAll(from, threads)[t] == if Reaches(from, threads[t]) then Awake(threads[t]) else threads[t]
  {
  }

  lemma SpuriousKeeps<Job>(s: Setup, c: State<Job>, t: nat)
    requires Inv(s, c) && Enabled(s, c, Spurious(t))
    ensures Inv(s, Step(s, c, Spurious(t)))
    ensures FitInv(s, c) ==> FitInv(s, Step(s, c, Spurious(t)))
  {
    hide Who, RolesOk;
    RoleOf(s, c, t);
    var c' := Step(s, c, Spurious(t));
    WhoMoves(c.threads, t, Awake(c.threads[t]));
    assert c.threads[t].AsleepPush? ==> Who(c'.threads, FetchSleeping) == Who(c.threads, FetchSleeping);
    MoveKeeps(s, c, t, c');
  }

  lemma EndRunKeeps<Job>(s: Setup, c: State<Job>, t: nat)
    requires Inv(s, c) && Enabled(s, c, EndRun(t))
    ensures Inv(s, Step(s, c, EndRun(t)))
    ensures FitInv(s, c) ==> FitInv(s, Step(s, c, EndRun(t)))
  {
    hide Who, RolesOk;
    WhoMoves(c.threads, t, StopNotifyingFetch);
    assert t in Who(c.threads[t := StopNotifyingFetch], StopFetchNotifying);
    MoveKeeps(s, c, t, Step(s, c, EndRun(t)));
  }

  /** Every step keeps the invariants; SpaceNoticed as long as batches fit the queue. */
  lemma StepKeeps<Job>(s: Setup, c: State<Job>, a: Action<Job>)
    requires s.consumers != {} && Inv(s, c) && Enabled(s, c, a) && KeepsRole(s, a)
    ensures Inv(s, Step(s, c, a))
    ensures FitInv(s, c) && ActionFits(s, a) ==> FitInv(s, Step(s, c, a))
  {
    hide Inv, FitInv;
    match a
    case Enter(t, pc) => EnterKeeps(s, c, t, pc);
    case TestFetch(t) => FetchKeeps(s, c, t);
    case TestPush(t) =>
      PushKeeps(s, c, t);
      if FitInv(s, c) { PushKeepsFit(s, c, t); }
    case NotifyOne(t, woken) =>
      if woken.None? {
        NotifyOneMisses(s, c, t);
      } else {
        NotifyOneWakes(s, c, t, woken.value);
        if FitInv(s, c) { NotifyOneWakesFit(s, c, t, woken.value); }
      }
    case NotifyAll(t) =>
      NotifyAllKeeps(s, c, t);
      if FitInv(s, c) { NotifyAllKeepsFit(s, c, t); }
    case DoClear(t) =>
      ClearKeeps(s, c, t);
      if FitInv(s, c) { ClearKeepsFit(s, c, t); }
    case EndRun(t) => EndRunKeeps(s, c, t);
    case Spurious(t) => SpuriousKeeps(s, c, t);
    case SetClear(to) => SetCallbackKeeps(s, c, a);
    case SetWarn(to) => SetCallbackKeeps(s, c, a);
  }

  lemma SetCallbackKeeps<Job>(s: Setup, c: State<Job>, a: Action<Job>)
    requires Inv(s, c) && (a.SetClear? || a.SetWarn?)
    ensures Inv(s, Step(s, c, a))
    ensures FitInv(s, c) ==> FitInv(s, Step(s, c, a))
  {
    hide Who;
  }

  lemma {:induction false} RunKeeps<Job>(s: Setup, c: State<Job>, actions: seq<Action<Job>>, c': State<Job>)
    requires s.consumers != {} && Inv(s, c) && Runs(s, c, actions, c')
    requires forall i :: 0 <= i < |actions| ==> KeepsRole(s, actions[i])
    ensures Inv(s, c')
    ensures FitInv(s, c) && (forall i :: 0 <= i < |actions| ==> ActionFits(s, actions[i])) ==> FitInv(s, c')
    decreases |actions|
  {
    hide Inv, FitInv, Step, Enabled, ActionFits, KeepsRole;
    if actions != [] {
      StepKeeps(s, c, actions[0]);
      RunKeeps(s, Step(s, c, actions[0]), actions[1..], c');
    }
  }

  // ---------------------------------------------------------------------------
  // No deadlock
  // ---------------------------------------------------------------------------

  /** Every consumer sleeps, some producer sleeps, every producer in the queue sleeps, and no notification is due. */
  ghost predicate Stuck<Job>(s: Setup, c: State<Job>) {
    && (forall t :: t in s.consumers ==> t < |c.threads| && c.threads[t].AsleepFetch?)
    && (exists t :: 0 <= t < |c.threads| && c.threads[t].AsleepPush?)
    && (forall t :: 0 <= t < |c.threads| ==>
          && !c.threads[t].AtPush? && !c.threads[t].NotifyingJobs? && !c.threads[t].NotifyingSpace?
          && !NotifiesAll(c.threads[t]))
  }

  lemma NoticedIsNotStuck<Job>(s: Setup, c: State<Job>)
    requires Inv(s, c) && FitInv(s, c) && c.mon.run
    ensures !Stuck(s, c)
  {
    var sleeping := Who(c.threads, FetchSleeping);
    if c.mon.queue != [] && s.consumers <= sleeping {
      var t :| t in Who(c.threads, JobsNotifying);
      assert c.threads[t].NotifyingJobs?;
    } else if c.mon.queue != [] {
      var t :| t in s.consumers && t !in sleeping;
      assert !c.threads[t].AsleepFetch?;
    } else if Who(c.threads, PushSleeping) != {} {
      var t :| t in Who(c.threads, Pushing) + Who(c.threads, SpaceNotifying) + Who(c.threads, AllSpaceNotifying);
      assert c.threads[t].AtPush? || c.threads[t].NotifyingSpace? || NotifiesAll(c.threads[t]);
    } else {
      assert forall t :: 0 <= t < |c.threads| && c.threads[t].AsleepPush? ==> t in Who(c.threads, PushSleeping);
    }
  }

  /** Whatever the threads do, in whatever order, the queue never deadlocks while it runs, although both sides are woken
      one at a time: as long as there is a consumer and no batch exceeds the bound. */
  lemma NeverStuck<Job>(s: Setup, n: nat, warn: Option<Callback>, clear: Option<Callback>, actions: seq<Action<Job>>,
                        c: State<Job>)
    requires s.consumers != {} && forall t :: t in s.consumers ==> t < n
    requires Runs(s, Initial(n, warn, clear), actions, c)
    requires forall i :: 0 <= i < |actions| ==> KeepsRole(s, actions[i]) && ActionFits(s, actions[i])
    requires c.mon.run
    ensures !Stuck(s, c)
  {
    hide Inv, FitInv, Runs, Stuck, ActionFits, KeepsRole;
    InitialInv<Job>(s, n, warn, clear);
    RunKeeps(s, Initial(n, warn, clear), actions, c);
    NoticedIsNotStuck(s, c);
  }

  lemma {:induction false} RunsJoin<Job>(s: Setup, c0: State<Job>, first: seq<Action<Job>>, c1: State<Job>,
                        second: seq<Action<Job>>, c2: State<Job>)
    requires Runs(s, c0, first, c1) && Runs(s, c1, second, c2)
    ensures Runs(s, c0, first + second, c2)
    decreases |first|
  {
    hide Step, Enabled;
    if first == [] {
      assert first + second == second;
    } else {
      assert (first + second)[1..] == first[1..] + second;
      RunsJoin(s, Step(s, c0, first[0]), first[1..], c1, second, c2);
    }
  }

  /** While the queue runs and jobs wait in it, some consumer is awake or a notification for one is due: in every run
      in which consumers do not push and nobody else fetches, with batches of any size. */
  lemma WaitingJobsNoticed<Job>(s: Setup, n: nat, warn: Option<Callback>, clear: Option<Callback>,
                                actions: seq<Action<Job>>, c: State<Job>)
    requires s.consumers != {} && forall t :: t in s.consumers ==> t < n
    requires Runs(s, Initial(n, warn, clear), actions, c)
    requires forall i :: 0 <= i < |actions| ==> KeepsRole(s, actions[i])
    requires c.mon.run && c.mon.queue != []
    ensures (exists t :: t in s.consumers && t < |c.threads| && !c.threads[t].AsleepFetch?)
            || (exists t :: 0 <= t < |c.threads| && c.threads[t].NotifyingJobs?)
  {
    hide Runs, KeepsRole;
    InitialInv<Job>(s, n, warn, clear);
    RunKeeps(s, Initial(n, warn, clear), actions, c);
    if s.consumers <= Who(c.threads, FetchSleeping) {
      var t :| t in Who(c.threads, JobsNotifying);
      assert c.threads[t].NotifyingJobs?;
    } else {
      var t :| t in s.consumers && t !in Who(c.threads, FetchSleeping);
      assert !c.threads[t].AsleepFetch?;
    }
  }

  /** A step before a run. */
  lemma RunFrom<Job>(s: Setup, c: State<Job>, a: Action<Job>, next: State<Job>, actions: seq<Action<Job>>,
                     c': State<Job>)
    returns (all: seq<Action<Job>>)
    requires Enabled(s, c, a) && Step(s, c, a) == next && Runs(s, next, actions, c')
    ensures all == [a] + actions && Runs(s, c, all, c')
  {
    all := [a] + actions;
    assert all[1..] == actions;
  }

  /** One batch larger than the bound is enough to get stuck, on an empty queue. */
  lemma OversizedBatchSticks<Job>(l: Limits, jobs: seq<Job>) returns (actions: seq<Action<Job>>, c: State<Job>)
    requires 0 < l.maxSize < |jobs|
    ensures Runs(Setup(l, {0}), Initial(2, None, None), actions, c)
    ensures c.mon.run && c.mon.queue == [] && Stuck(Setup(l, {0}), c)
  {
    var s := Setup(l, {0});
    var c0 := Initial<Job>(2, None, None);
    assert c0.threads == [Idle, Idle];
    var c1 := c0.(threads := [AtFetch(1), Idle]);
    var c2 := c0.(threads := [AsleepFetch(1), Idle]);
    var c3 := c0.(threads := [AsleepFetch(1), AtPush(jobs)]);
    c := c0.(threads := [AsleepFetch(1), AsleepPush(jobs)]);
    hide Runs;
    actions := NoSteps(s, c);
    actions := RunFrom(s, c3, TestPush(1), c, actions, c);
    actions := RunFrom(s, c2, Enter(1, AtPush(jobs)), c3, actions, c);
    actions := RunFrom(s, c1, TestFetch(0), c2, actions, c);
    actions := RunFrom(s, c0, Enter(0, AtFetch(1)), c1, actions, c);
    assert c.threads[1].AsleepPush?;
  }

  lemma NoSteps<Job>(s: Setup, c: State<Job>) returns (actions: seq<Action<Job>>)
    ensures actions == [] && Runs(s, c, actions, c)
  {
    actions := [];
  }

  // ---------------------------------------------------------------------------
  // After stop
  // ---------------------------------------------------------------------------

  ghost predicate NobodySleeps<Job>(c: State<Job>) {
    forall t :: 0 <= t < |c.threads| ==> !Asleep(c.threads[t])
  }

  /** A thread moves on that sends no notification of stop, and falls asleep only while the queue runs. */
  lemma StopNoticedMove<Job>(c: State<Job>, t: nat, pc: Pc<Job>, c': State<Job>)
    requires StopNoticed(c) && t < |c.threads| && c'.threads == c.threads[t := pc] && c'.mon.run == c.mon.run
    requires !c.threads[t].StopNotifyingFetch? && !c.threads[t].StopNotifyingPush? && (Asleep(pc) ==> c.mon.run)
    ensures StopNoticed(c')
  {
    hide Who;
    WhoMoves(c.threads, t, pc);
  }

  lemma StopNoticedOne<Job>(s: Setup, c: State<Job>, t: nat, woken: Option<nat>)
    requires Enabled(s, c, NotifyOne(t, woken)) && StopNoticed(c)
    ensures StopNoticed(Step(s, c, NotifyOne(t, woken)))
  {
    hide StopNoticed;
    var c1 := c.(threads := c.threads[t := Idle]);
    StopNoticedMove(c, t, Idle, c1);
    if woken.Some? {
      var c2 := c1.(threads := c1.threads[woken.value := Awake(c.threads[woken.value])]);
      StopNoticedMove(c1, woken.value, Awake(c.threads[woken.value]), c2);
    }
  }

  lemma StopNoticedEnd<Job>(s: Setup, c: State<Job>, t: nat)
    requires Enabled(s, c, EndRun(t)) && StopNoticed(c)
    ensures StopNoticed(Step(s, c, EndRun(t)))
  {
    hide Who;
    WhoMoves(c.threads, t, StopNotifyingFetch);
    assert t in Who(c.threads[t := StopNotifyingFetch], StopFetchNotifying) by {
      assert t in Who(c.threads, StopFetchNotifying) + {t};
    }
  }

  lemma StopNoticedStep<Job>(s: Setup, c: State<Job>, a: Action<Job>)
    requires Enabled(s, c, a) && StopNoticed(c)
    ensures StopNoticed(Step(s, c, a))
  {
    match a
    case Enter(t, pc) => StopNoticedMove(c, t, pc, Step(s, c, a));
    case TestFetch(t) => StopNoticedMove(c, t, FetchStep(s, c, t).threads[t], FetchStep(s, c, t));
    case TestPush(t) => StopNoticedMove(c, t, PushStep(s, c, t).threads[t], PushStep(s, c, t));
    case NotifyOne(t, woken) => StopNoticedOne(s, c, t, woken);
    case NotifyAll(t) => StopNoticedAll(s, c, t);
    case DoClear(t) => StopNoticedMove(c, t, ClearStep(s, c, t).threads[t], ClearStep(s, c, t));
    case EndRun(t) => StopNoticedEnd(s, c, t);
    case Spurious(t) => StopNoticedMove(c, t, Awake(c.threads[t]), Step(s, c, a));
    case SetClear(to) =>
    case SetWarn(to) =>
  }

  lemma StopNoticedAll<Job>(s: Setup, c: State<Job>, t: nat)
    requires Enabled(s, c, NotifyAll(t)) && StopNoticed(c)
    ensures StopNoticed(Step(s, c, NotifyAll(t)))
  {
    hide Who;
    WhoMoves(c.threads, t, c.threads[t]);
    WhoAfterNotifyAll(s, c, t);
  }

  lemma {:induction false} StopNoticedRun<Job>(s: Setup, c: State<Job>, actions: seq<Action<Job>>, c': State<Job>)
    requires Runs(s, c, actions, c') && StopNoticed(c)
    ensures StopNoticed(c')
    decreases |actions|
  {
    hide StopNoticed, Step, Enabled;
    if actions != [] {
      StopNoticedStep(s, c, actions[0]);
      StopNoticedRun(s, Step(s, c, actions[0]), actions[1..], c');
    }
  }

  /** Once the run has ended and no stop still has a notification to send, no thread sleeps in the queue. */
  lemma StopWakesEverybody<Job>(s: Setup, n: nat, warn: Option<Callback>, clear: Option<Callback>,
                                actions: seq<Action<Job>>, c: State<Job>)
    requires Runs(s, Initial(n, warn, clear), actions, c)
    requires !c.mon.run
    requires forall t :: 0 <= t < |c.threads| ==>
      !c.threads[t].StopNotifyingFetch? && !c.threads[t].StopNotifyingPush?
    ensures NobodySleeps(c)
  {
    StopNoticedRun(s, Initial<Job>(n, warn, clear), actions, c);
    assert Who(c.threads, StopFetchNotifying) == {} == Who(c.threads, StopPushNotifying);
    forall t | 0 <= t < |c.threads|
      ensures !Asleep(c.threads[t])
    {
      assert t !in Who(c.threads, FetchSleeping) && t !in Who(c.threads, PushSleeping);
    }
  }

  /** And none ever sleeps again, no job is delivered any more, and the run stays over. */
  lemma {:induction false} StoppedForGood<Job>(s: Setup, c: State<Job>, actions: seq<Action<Job>>, c': State<Job>)
    requires !c.mon.run && NobodySleeps(c) && Runs(s, c, actions, c')
    ensures !c'.mon.run && NobodySleeps(c') && Deliveries(c'.removed) == Deliveries(c.removed)
    decreases |actions|
  {
    if actions != [] {
      StoppedStep(s, c, actions[0]);
      StoppedDelivers(s, c, actions[0]);
      StoppedForGood(s, Step(s, c, actions[0]), actions[1..], c');
    }
  }

  lemma StoppedStep<Job>(s: Setup, c: State<Job>, a: Action<Job>)
    requires !c.mon.run && NobodySleeps(c) && Enabled(s, c, a)
    ensures !Step(s, c, a).mon.run && NobodySleeps(Step(s, c, a))
  {
  }

  /** The jobs delivered, among the removals. */
  function Deliveries<Job>(rs: seq<Removal<Job>>): seq<Job> {
    if rs == [] then []
    else
      var last := rs[|rs| - 1];
      Deliveries(rs[..|rs| - 1]) + if last.Delivered? then [last.job] else []
  }

  lemma {:induction false} ClearedAreNotDelivered<Job>(rs: seq<Removal<Job>>, jobs: seq<Job>, to: Option<Callback>)
    ensures Deliveries(rs + ClearedAll(jobs, to)) == Deliveries(rs)
    decreases |jobs|
  {
    if jobs == [] {
      assert rs + ClearedAll(jobs, to) == rs;
    } else {
      var n := |jobs| - 1;
      ClearedAreNotDelivered(rs, jobs[..n], to);
      assert (rs + ClearedAll(jobs, to))[..|rs| + n] == rs + ClearedAll(jobs[..n], to);
    }
  }

  /** Nothing is delivered once the run is over. */
  lemma StoppedDelivers<Job>(s: Setup, c: State<Job>, a: Action<Job>)
    requires !c.mon.run && Enabled(s, c, a)
    ensures Deliveries(Step(s, c, a).removed) == Deliveries(c.removed)
  {
    if a.DoClear? {
      ClearedAreNotDelivered(c.removed, c.mon.queue, c.mon.clearCallback);
    }
  }

  // ---------------------------------------------------------------------------
  // Conservation and order
  // ---------------------------------------------------------------------------

  function Flatten<Job>(batches: seq<seq<Job>>): seq<Job> {
    if batches == [] then [] else Flatten(batches[..|batches| - 1]) + batches[|batches| - 1]
  }

  function Jobs<Job>(rs: seq<Removal<Job>>): seq<Job> {
    seq(|rs|, i requires 0 <= i < |rs| => rs[i].job)
  }

  /** What was accepted, batch after batch, is what was removed followed by what still waits. */
  ghost predicate Conserved<Job>(c: State<Job>) {
    Flatten(c.accepted) == Jobs(c.removed) + c.mon.queue
  }

  /** The calls that clearing made are those of the jobs cleared past a callback: each job once, in order. */
  ghost predicate ClearsCalled<Job>(c: State<Job>) {
    ClearingCalls(c.mon.calls) == CallsDue(c.removed)
  }

  function ClearingCalls<Job>(calls: seq<Call<Job>>): seq<(Callback, Job)> {
    if calls == [] then []
    else
      var last := calls[|calls| - 1];
      ClearingCalls(calls[..|calls| - 1]) + if last.Clearing? then [(last.to, last.job)] else []
  }

  function CallsDue<Job>(rs: seq<Removal<Job>>): seq<(Callback, Job)> {
    if rs == [] then []
    else
      var last := rs[|rs| - 1];
      CallsDue(rs[..|rs| - 1]) + if last.Cleared? && last.to.Some? then [(last.to.value, last.job)] else []
  }

  lemma {:induction false} DeliveriesDueNoCalls<Job>(rs: seq<Removal<Job>>, jobs: seq<Job>)
    ensures CallsDue(rs + DeliveredAll(jobs)) == CallsDue(rs)
    decreases |jobs|
  {
    if jobs == [] {
      assert rs + DeliveredAll(jobs) == rs;
    } else {
      var n := |jobs| - 1;
      DeliveriesDueNoCalls(rs, jobs[..n]);
      assert (rs + DeliveredAll(jobs))[..|rs| + n] == rs + DeliveredAll(jobs[..n]);
    }
  }

  lemma {:induction false} ClearsDueCalls<Job>(rs: seq<Removal<Job>>, calls: seq<Call<Job>>, jobs: seq<Job>,
                        to: Option<Callback>)
    requires ClearingCalls(calls) == CallsDue(rs)
    ensures ClearingCalls(calls + ClearCalls(to, jobs)) == CallsDue(rs + ClearedAll(jobs, to))
    decreases |jobs|
  {
    if jobs == [] {
      assert rs + ClearedAll(jobs, to) == rs && calls + ClearCalls(to, jobs) == calls;
    } else {
      ClearsDueCalls(rs, calls, jobs[..|jobs| - 1], to);
      hide ClearingCalls, CallsDue, ClearCalls, ClearedAll;
      ClearedDueGrow(rs, jobs, to);
      ClearCallsGrow(calls, jobs, to);
    }
  }

  lemma ClearedDueGrow<Job>(rs: seq<Removal<Job>>, jobs: seq<Job>, to: Option<Callback>)
    requires jobs != []
    ensures var n := |jobs| - 1;
            CallsDue(rs + ClearedAll(jobs, to))
            == CallsDue(rs + ClearedAll(jobs[..n], to)) + if to.Some? then [(to.value, jobs[n])] else []
  {
    var n := |jobs| - 1;
    assert (rs + ClearedAll(jobs, to))[..|rs| + n] == rs + ClearedAll(jobs[..n], to);
  }

  lemma ClearCallsGrow<Job>(calls: seq<Call<Job>>, jobs: seq<Job>, to: Option<Callback>)
    requires jobs != []
    ensures var n := |jobs| - 1;
            ClearingCalls(calls + ClearCalls(to, jobs))
            == ClearingCalls(calls + ClearCalls(to, jobs[..n])) + if to.Some? then [(to.value, jobs[n])] else []
  {
    var n := |jobs| - 1;
    if to.Some? {
      assert (calls + ClearCalls(to, jobs))[..|calls| + n] == calls + ClearCalls(to, jobs[..n]);
    } else {
      assert calls + ClearCalls(to, jobs) == calls == calls + ClearCalls(to, jobs[..n]);
    }
  }

  lemma StepConserves<Job>(s: Setup, c: State<Job>, a: Action<Job>)
    requires Enabled(s, c, a) && Conserved(c) && ClearsCalled(c)
    ensures Conserved(Step(s, c, a)) && ClearsCalled(Step(s, c, a))
  {
    var c' := Step(s, c, a);
    match a
    case TestFetch(t) =>
      FetchConserves(s, c, t);
    case TestPush(t) =>
      PushConserves(s, c, t);
    case DoClear(t) =>
      ClearsDueCalls(c.removed, c.mon.calls, c.mon.queue, c.mon.clearCallback);
      assert Jobs(c'.removed) == Jobs(c.removed) + c.mon.queue;
    case _ =>
  }

  lemma Regroup<T>(a: seq<T>, b: seq<T>, d: seq<T>)
    ensures (a + b) + d == a + (b + d)
  {
  }

  lemma FlattenGrows<Job>(batches: seq<seq<Job>>, jobs: seq<Job>)
    ensures Flatten(batches + [jobs]) == Flatten(batches) + jobs
  {
    assert (batches + [jobs])[..|batches|] == batches;
  }

  lemma JobsGrow<Job>(rs: seq<Removal<Job>>, jobs: seq<Job>)
    ensures Jobs(rs + DeliveredAll(jobs)) == Jobs(rs) + jobs
  {
  }

  lemma FetchConserves<Job>(s: Setup, c: State<Job>, t: nat)
    requires Enabled(s, c, TestFetch(t)) && Conserved(c) && ClearsCalled(c)
    ensures Conserved(FetchStep(s, c, t)) && ClearsCalled(FetchStep(s, c, t))
  {
    var jobs := Fetched(c.mon, c.threads[t].want);
    var rest := AfterFetch(c.mon, c.threads[t].want).queue;
    assert c.mon.queue == jobs + rest;
    DeliveriesDueNoCalls(c.removed, jobs);
    JobsGrow(c.removed, jobs);
    Regroup(Jobs(c.removed), jobs, rest);
    hide ClearingCalls, CallsDue, Jobs, Flatten, DeliveredAll;
  }

  lemma PushConserves<Job>(s: Setup, c: State<Job>, t: nat)
    requires Enabled(s, c, TestPush(t)) && Conserved(c) && ClearsCalled(c)
    ensures Conserved(PushStep(s, c, t)) && ClearsCalled(PushStep(s, c, t))
  {
    hide ClearingCalls, CallsDue, Checked, Jobs, Flatten;
    if CanPush(s.limits, c.mon, |c.threads[t].jobs|) && Accepts(s.limits, c.mon) {
      var jobs := c.threads[t].jobs;
      FlattenGrows(c.accepted, jobs);
      Regroup(Jobs(c.removed), c.mon.queue, jobs);
      PushCallsNoClear(s.limits, c.mon, jobs);
      CheckedKeepsQueue(s.limits, c.mon.(queue := c.mon.queue + jobs));
    }
  }

  lemma CheckedKeepsQueue<Job>(l: Limits, m: Monitor<Job>)
    ensures Checked(l, m).queue == m.queue
  {
  }

  lemma PushCallsNoClear<Job>(l: Limits, m: Monitor<Job>, jobs: seq<Job>)
    ensures ClearingCalls(AfterPush(l, m, jobs).calls) == ClearingCalls(m.calls)
  {
    var m' := AfterPush(l, m, jobs);
    if m'.calls != m.calls {
      assert m'.calls[..|m.calls|] == m.calls;
    }
  }

  /** In every run no job is lost, doubled or overtaken: the jobs accepted, in order of their batches, are the jobs
      delivered or cleared so far, in order of removal, followed by the queue; and clearing called the callback then
      set once for each job it cleared. */
  lemma {:induction false} RunConserves<Job>(s: Setup, c: State<Job>, actions: seq<Action<Job>>, c': State<Job>)
    requires Runs(s, c, actions, c') && Conserved(c) && ClearsCalled(c)
    ensures Conserved(c') && ClearsCalled(c')
    decreases |actions|
  {
    hide Step, Enabled, Conserved, ClearsCalled;
    if actions != [] {
      StepConserves(s, c, actions[0]);
      RunConserves(s, Step(s, c, actions[0]), actions[1..], c');
    }
  }

  lemma {:induction false} RunBounded<Job>(s: Setup, c: State<Job>, actions: seq<Action<Job>>, c': State<Job>)
    requires Runs(s, c, actions, c') && |c.mon.queue| <= s.limits.maxSize
    ensures s.limits.maxSize > 0 ==> |c'.mon.queue| <= s.limits.maxSize
    decreases |actions|
  {
    if actions != [] && s.limits.maxSize > 0 {
      RunBounded(s, Step(s, c, actions[0]), actions[1..], c');
    }
  }

  /** From a new queue on: order, conservation, one clear call per job, and a positive bound is never exceeded. */
  lemma JobsConserved<Job>(s: Setup, n: nat, warn: Option<Callback>, clear: Option<Callback>,
                        actions: seq<Action<Job>>, c: State<Job>)
    requires Runs(s, Initial(n, warn, clear), actions, c)
    ensures Conserved(c) && ClearsCalled(c)
    ensures s.limits.maxSize > 0 ==> |c.mon.queue| <= s.limits.maxSize
  {
    var c0 := Initial<Job>(n, warn, clear);
    assert Conserved(c0) && ClearsCalled(c0);
    RunConserves(s, c0, actions, c);
    RunBounded(s, c0, actions, c);
  }
}
