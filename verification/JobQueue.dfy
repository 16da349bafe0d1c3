/**
 ThreadSafeJobQueue of utils/safe_queue.h: what each method does to the queue while it
 holds the mutex. How threads interleave these critical sections, sleep and are woken is
 the subject of module JobProtocol.
 */
module JobQueue {
  import opened Options

  /** A callback, by identity. */
  type Callback = nat

  datatype Limits = Limits(maxSize: nat, warnSize: nat)

  /** A call made to a callback. */
  datatype Call<Job> = Warning(to: Callback, size: nat) | Clearing(to: Callback, job: Job)

  /** The fields guarded by the mutex, and the calls made so far. */
  datatype Monitor<Job> = Monitor(
    queue: seq<Job>, run: bool, warned: bool, warnCallback: Option<Callback>, clearCallback: Option<Callback>,
    calls: seq<Call<Job>>)

  function Min(a: nat, b: nat): nat { if a <= b then a else b }

  /** The predicate consumers wait for. */
  predicate CanFetch<Job>(m: Monitor<Job>) {
    !m.run || m.queue != []
  }

  /** The predicate producers wait for; without a bound they do not wait. */
  predicate CanPush<Job>(l: Limits, m: Monitor<Job>, count: nat) {
    l.maxSize == 0 || !m.run || |m.queue| + count <= l.maxSize
  }

  function AfterFetch<Job>(m: Monitor<Job>, want: nat): Monitor<Job> {
    m.(queue := m.queue[Min(want, |m.queue|)..])
  }

  function Fetched<Job>(m: Monitor<Job>, want: nat): seq<Job> {
    m.queue[..Min(want, |m.queue|)]
  }

  /** check_queue_length() */
  function Checked<Job>(l: Limits, m: Monitor<Job>): Monitor<Job> {
    if m.warnCallback.Some? && l.warnSize > 0 && |m.queue| >= l.warnSize && !m.warned then
      m.(warned := true, calls := m.calls + [Warning(m.warnCallback.value, |m.queue|)])
    else if |m.queue| < l.warnSize then m.(warned := false)
    else m
  }

  /** A push that was let through, by emplace() or batch_emplace(). */
  function AfterPush<Job>(l: Limits, m: Monitor<Job>, jobs: seq<Job>): Monitor<Job> {
    if l.maxSize > 0 && !m.run then m else Checked(l, m.(queue := m.queue + jobs))
  }

  predicate Accepts<Job>(l: Limits, m: Monitor<Job>) {
    l.maxSize == 0 || m.run
  }

  /** One call to the clear callback for every job, front to back. */
  function ClearCalls<Job>(cb: Option<Callback>, jobs: seq<Job>): seq<Call<Job>> {
    if cb.None? then [] else seq(|jobs|, i requires 0 <= i < |jobs| => Clearing(cb.value, jobs[i]))
  }

  function AfterClear<Job>(m: Monitor<Job>): Monitor<Job> {
    m.(queue := [], calls := m.calls + ClearCalls(m.clearCallback, m.queue))
  }

  lemma ClearCallsAt<Job>(calls: seq<Call<Job>>, cb: Option<Callback>, jobs: seq<Job>)
    ensures var after := calls + ClearCalls(cb, jobs);
            && calls <= after && |after| == |calls| + (if cb.None? then 0 else |jobs|)
            && (cb.Some? ==> forall i :: 0 <= i < |jobs| ==> after[|calls| + i] == Clearing(cb.value, jobs[i]))
  {
  }

  lemma NothingCleared<Job>(cb: Option<Callback>)
    ensures ClearCalls<Job>(cb, []) == []
  {
  }

  lemma ClearCallsGrow<Job>(cb: Option<Callback>, jobs: seq<Job>, n: nat)
    requires n < |jobs|
    ensures ClearCalls(cb, jobs[..n + 1])
            == ClearCalls(cb, jobs[..n]) + (if cb.Some? then [Clearing(cb.value, jobs[n])] else [])
  {
  }

  class ThreadSafeJobQueue<Job> {
    const limits: Limits
    var queue: seq<Job>
    var run: bool
    var warned: bool
    var warnCallback: Option<Callback>
    var clearCallback: Option<Callback>
    var calls: seq<Call<Job>>

    /** The abstract value of the object. */
    function State(): Monitor<Job>
      reads this
    {
      Monitor(queue, run, warned, warnCallback, clearCallback, calls)
    }

    constructor Init(limits: Limits, warnCallback: Option<Callback>, clearCallback: Option<Callback>)
      ensures this.limits == limits && State() == Monitor([], true, false, warnCallback, clearCallback, [])
    {
      this.limits := limits;
      this.queue, this.run, this.warned, this.calls := [], true, false, [];
      this.warnCallback, this.clearCallback := warnCallback, clearCallback;
    }

    /** The constructor, with null for its exception: the warning size may not exceed a bound. */
    static method Create(maxSize: nat, warnSize: nat, warnCallback: Option<Callback>, clearCallback: Option<Callback>)
      returns (q: ThreadSafeJobQueue?<Job>)
      ensures q == null <==> 0 < maxSize < warnSize
      ensures q != null ==> fresh(q) && q.limits == Limits(maxSize, warnSize)
                            && q.State() == Monitor([], true, false, warnCallback, clearCallback, [])
    {
      if warnSize > maxSize && maxSize > 0 {
        return null;
      }
      q := new ThreadSafeJobQueue.Init(Limits(maxSize, warnSize), warnCallback, clearCallback);
    }

    /** get_jobs_and_wait() from the moment its wait is over; a stopped queue leaves the caller's vector alone */
    method GetJobs(fetchJobs: seq<Job>, maxSize: nat) returns (ok: bool, jobs: seq<Job>)
      requires CanFetch(State())
      modifies this
      ensures ok == old(run)
      ensures ok ==> jobs == Fetched(old(State()), maxSize) && State() == AfterFetch(old(State()), maxSize)
      ensures ok ==> old(queue) == jobs + queue && |jobs| <= maxSize && (|jobs| == maxSize || queue == [])
      ensures !ok ==> jobs == fetchJobs && State() == old(State())
    {
      if !run {
        return false, fetchJobs;
      }
      jobs := [];
      while queue != [] && |jobs| < maxSize
        invariant |jobs| <= Min(maxSize, |old(queue)|) && jobs == old(queue)[..|jobs|] && queue == old(queue)[|jobs|..]
        invariant State() == old(State()).(queue := queue)
        decreases |queue|
      {
        jobs := jobs + [queue[0]];
        queue := queue[1..];
      }
      ok := true;
    }

    /** check_queue_length() */
    method CheckQueueLength()
      modifies this
      ensures State() == Checked(limits, old(State()))
      ensures calls == old(calls) + if !old(warned) && 0 < limits.warnSize <= |queue| && warnCallback.Some?
                                    then [Warning(warnCallback.value, |queue|)] else []
      ensures warned ==> old(warned) || (0 < limits.warnSize <= |queue| && warnCallback.Some?)
      ensures queue == old(queue) && run == old(run)
      ensures warnCallback == old(warnCallback) && clearCallback == old(clearCallback)
    {
      if warnCallback.Some? && limits.warnSize > 0 && |queue| >= limits.warnSize && !warned {
        warned := true;
        calls := calls + [Warning(warnCallback.value, |queue|)];
      } else if |queue| < limits.warnSize {
        warned := false;
      }
    }

    /** emplace() from the moment its wait is over */
    method Emplace(job: Job)
      requires CanPush(limits, State(), 1)
      modifies this
      ensures State() == AfterPush(limits, old(State()), [job])
      ensures limits.maxSize > 0 && !old(run) ==> State() == old(State())
      ensures limits.maxSize == 0 || old(run) ==> queue == old(queue) + [job]
      ensures run == old(run) && warnCallback == old(warnCallback) && clearCallback == old(clearCallback)
    {
      if limits.maxSize > 0 && !run {
        return;
      }
      queue := queue + [job];
      CheckQueueLength();
    }

    /** batch_emplace() from the moment its wait is over */
    method BatchEmplace(jobs: seq<Job>)
      requires jobs != [] && CanPush(limits, State(), |jobs|)
      modifies this
      ensures State() == AfterPush(limits, old(State()), jobs)
      ensures limits.maxSize > 0 && !old(run) ==> State() == old(State())
      ensures limits.maxSize == 0 || old(run) ==> queue == old(queue) + jobs
      ensures run == old(run) && warnCallback == old(warnCallback) && clearCallback == old(clearCallback)
    {
      if limits.maxSize > 0 && !run {
        return;
      }
      for i := 0 to |jobs|
        invariant queue == old(queue) + jobs[..i] && State() == old(State()).(queue := queue)
      {
        queue := queue + [jobs[i]];
      }
      assert jobs[..|jobs|] == jobs;
      CheckQueueLength();
    }

    /** clear() under the mutex */
    method Clear()
      modifies this
      ensures State() == AfterClear(old(State()))
      ensures queue == [] && old(calls) <= calls
      ensures clearCallback.None? ==> calls == old(calls)
      ensures clearCallback.Some? ==> |calls| == |old(calls)| + |old(queue)|
      ensures clearCallback.Some? ==> forall i :: 0 <= i < |old(queue)| ==>
                calls[|old(calls)| + i] == Clearing(clearCallback.value, old(queue)[i])
      ensures run == old(run) && warned == old(warned)
      ensures warnCallback == old(warnCallback) && clearCallback == old(clearCallback)
    {
      hide ClearCalls;
      ghost var n := 0;
      NothingCleared<Job>(clearCallback);
      while queue != []
        invariant n <= |old(queue)| && queue == old(queue)[n..]
        invariant calls == old(calls) + ClearCalls(clearCallback, old(queue)[..n])
        invariant State() == old(State()).(queue := queue, calls := calls)
        decreases |queue|
      {
        ClearCallsGrow(clearCallback, old(queue), n);
        if clearCallback.Some? {
          calls := calls + [Clearing(clearCallback.value, queue[0])];
        }
        queue := queue[1..];
        n := n + 1;
      }
      assert old(queue)[..n] == old(queue);
      ClearCallsAt(old(calls), clearCallback, old(queue));
    }

    /** set_clear_callback() */
    method SetClearCallback(callback: Option<Callback>)
      modifies this`clearCallback
      ensures State() == old(State()).(clearCallback := callback)
    {
      clearCallback := callback;
    }

    /** set_warn_callback() */
    method SetWarnCallback(callback: Option<Callback>)
      modifies this`warnCallback
      ensures State() == old(State()).(warnCallback := callback)
    {
      warnCallback := callback;
    }

    /** The critical section of stop() */
    method EndRun()
      modifies this`run
      ensures State() == old(State()).(run := false)
    {
      run := false;
    }
  }

  // ---------------------------------------------------------------------------
  // Length warnings
  // ---------------------------------------------------------------------------

  /** The warnings among a list of calls. */
  function Warnings<Job>(calls: seq<Call<Job>>): seq<nat> {
    if calls == [] then []
    else
      var last := calls[|calls| - 1];
      Warnings(calls[..|calls| - 1]) + if last.Warning? then [last.size] else []
  }

  /** The lengths at which a series of queues rises to the threshold from below it, or starts there. */
  function Crossings<Job>(warnSize: nat, queues: seq<seq<Job>>): seq<nat> {
    if queues == [] then []
    else
      var n := |queues| - 1;
      Crossings(warnSize, queues[..n])
      + if |queues[n]| >= warnSize && (n == 0 || |queues[n - 1]| < warnSize) then [|queues[n]|] else []
  }

  /** check_queue_length() run on each queue in turn. */
  function CheckEach<Job>(l: Limits, m: Monitor<Job>, queues: seq<seq<Job>>): Monitor<Job> {
    if queues == [] then m
    else
      var n := |queues| - 1;
      Checked(l, CheckEach(l, m, queues[..n]).(queue := queues[n]))
  }

  /** What comes out of a queue and what stays make up the queue, and as much as was asked for or is there comes out. */
  lemma FetchTakesAll<Job>(m: Monitor<Job>, want: nat)
    ensures Fetched(m, want) + AfterFetch(m, want).queue == m.queue
    ensures |Fetched(m, want)| <= want && (|Fetched(m, want)| == want || AfterFetch(m, want).queue == [])
  {
    var n := Min(want, |m.queue|);
    assert m.queue[..n] + m.queue[n..] == m.queue;
  }

  /** A push on a bounded queue whose run is over changes nothing at all. */
  lemma StoppedPushDrops<Job>(l: Limits, m: Monitor<Job>, jobs: seq<Job>)
    requires jobs != []
    ensures AfterPush(l, m, jobs).queue == m.queue + jobs <==> l.maxSize == 0 || m.run
    ensures l.maxSize > 0 && !m.run ==> AfterPush(l, m, jobs) == m
  {
    assert m.queue + jobs != m.queue;
  }

  /** Without a threshold or without a callback, no series of queues is warned of, and the flag is never set. */
  lemma {:induction false} NeverWarns<Job>(l: Limits, m: Monitor<Job>, queues: seq<seq<Job>>)
    requires l.warnSize == 0 || m.warnCallback.None?
    ensures var m' := CheckEach(l, m, queues);
            m'.calls == m.calls && (m'.warned ==> m.warned) && m'.warnCallback == m.warnCallback
    decreases |queues|
  {
    if queues != [] {
      NeverWarns(l, m, queues[..|queues| - 1]);
    }
  }

  /** With a callback set, warnings are given exactly when a push finds that the length has reached the threshold
      after the push before found it below. */
  lemma {:induction false} WarnsAtCrossings<Job>(l: Limits, m: Monitor<Job>, queues: seq<seq<Job>>)
    requires l.warnSize > 0 && m.warnCallback.Some? && !m.warned && m.calls == []
    ensures var m' := CheckEach(l, m, queues);
            && m'.warnCallback == m.warnCallback
            && (m'.warned <==> queues != [] && |queues[|queues| - 1]| >= l.warnSize)
            && Warnings(m'.calls) == Crossings(l.warnSize, queues)
    decreases |queues|
  {
    if queues != [] {
      var n := |queues| - 1;
      var before := CheckEach(l, m, queues[..n]);
      WarnsAtCrossings(l, m, queues[..n]);
      assert n > 0 ==> queues[..n][n - 1] == queues[n - 1];
      var m' := CheckEach(l, m, queues);
      if !before.warned && |queues[n]| >= l.warnSize {
        assert m'.calls[..|m'.calls| - 1] == before.calls;
      }
    }
  }
}
