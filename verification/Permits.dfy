/**
 The two waiting containers that hand out one thing per wake-up: vp_semaphore of
 utils/vp_semaphore.h, whose count stands for permits that cannot be told apart, and
 ThreadSafeQueue of utils/safe_queue.h. What their methods do under the mutex are functions
 of the sequence they hold; the threads that call them, sleep and are woken are a state
 machine whose steps apply the same functions.
 */
module Permits {
  import opened Options

  function Added<T>(q: seq<T>, value: T): seq<T> {
    q + [value]
  }

  function First<T>(q: seq<T>): Option<T> {
    if q == [] then None else Some(q[0])
  }

  /** Without its first element, if it has one */
  function Rest<T>(q: seq<T>): seq<T> {
    if q == [] then [] else q[1..]
  }

  class VpSemaphore {
    var count: int

    ghost predicate Valid()
      reads this
    {
      count >= 0
    }

    /** The permits that the count stands for */
    ghost function Permits(): (ps: seq<()>)
      requires Valid()
      reads this
      ensures |ps| == count
    {
      seq(count, _ => ())
    }

    constructor ()
      ensures Valid() && Permits() == []
    {
      count := 0;
    }

    /** The critical section of signal() */
    method Signal()
      requires Valid()
      modifies this
      ensures Valid() && Permits() == Added(old(Permits()), ()) && count == old(count) + 1
    {
      count := count + 1;
    }

    /** wait() from the moment its wait is over */
    method Take()
      requires Valid() && First(Permits()).Some?
      modifies this
      ensures Valid() && Permits() == Rest(old(Permits())) && count == old(count) - 1
    {
      count := count - 1;
    }

    /** The critical section of reset() */
    method Reset()
      requires Valid()
      modifies this
      ensures Valid() && Permits() == []
    {
      count := 0;
    }
  }

  class ThreadSafeQueue<T> {
    var q: seq<T>

    constructor ()
      ensures q == []
    {
      q := [];
    }

    /** Front(), None for its exception */
    method Front() returns (r: Option<T>)
      ensures r == First(q) && (q == [] ==> r == None) && (q != [] ==> r == Some(q[0]))
    {
      if q == [] {
        return None;
      }
      return Some(q[0]);
    }

    /** Pop(), which does nothing to an empty queue */
    method Pop()
      modifies this
      ensures q == Rest(old(q)) && old(q) == old(q)[..|old(q)| - |q|] + q
      ensures |q| == if old(q) == [] then 0 else |old(q)| - 1
    {
      if q != [] {
        q := q[1..];
      }
    }

    /** TryPop(); also WaitAndPop() and WaitAndTryPop() from the moment their wait is over */
    method TryPop() returns (r: Option<T>)
      modifies this
      ensures r == First(old(q)) && q == Rest(old(q))
      ensures if r.Some? then old(q) == [r.value] + q else old(q) == q == []
    {
      if q == [] {
        return None;
      }
      r := Some(q[0]);
      q := q[1..];
    }

    /** The critical section of Push() */
    method Push(value: T)
      modifies this
      ensures q == Added(old(q), value) && q == old(q) + [value]
    {
      q := q + [value];
    }
  }

  // ---------------------------------------------------------------------------
  // Threads
  // ---------------------------------------------------------------------------

  /** Outside; about to test for an element; asleep; timed out and about to test for the last time; about to
      notify_one. */
  datatype Pc = Outside | Testing | Sleeping | TimedOut | Notifying

  /** An element that left: handed to a thread, or thrown away by Pop() or reset(). */
  datatype Out<T> = Handed(value: T, to: nat) | Dropped(value: T)

  /** The elements, the threads, and the history: what was added and what left, in order. */
  datatype State<T> = State(queue: seq<T>, threads: seq<Pc>, added: seq<T>, gone: seq<Out<T>>)

  datatype Action<T> =
    | Add(t: nat, value: T)                    // signal() or Push()
    | Wait(t: nat)                             // wait(), WaitAndPop() or WaitAndTryPop() is called
    | Test(t: nat)                             // its predicate is tested
    | TryPop(t: nat)
    | Pop(t: nat)
    | Reset(t: nat)                            // reset()
    | NotifyOne(t: nat, woken: Option<nat>)
    | Spurious(t: nat)
    | Timeout(t: nat)

  predicate Enabled<T>(c: State<T>, a: Action<T>) {
    a.t < |c.threads| &&
    match a
    case Test(t) => c.threads[t] == Testing || c.threads[t] == TimedOut
    case NotifyOne(t, woken) =>
      c.threads[t] == Notifying &&
      (match woken
       case Some(w) => w < |c.threads| && c.threads[w] == Sleeping
       case None => Sleeping !in c.threads)
    case Spurious(t) => c.threads[t] == Sleeping
    case Timeout(t) => c.threads[t] == Sleeping
    case _ => c.threads[a.t] == Outside
  }

  /** The first element, if there is one, leaves: to thread t, or to nobody. */
  function Leaves<T>(c: State<T>, to: Option<nat>): State<T> {
    match First(c.queue)
    case None => c
    case Some(v) => c.(queue := Rest(c.queue), gone := c.gone + [if to.Some? then Handed(v, to.value) else Dropped(v)])
  }

  function DroppedAll<T>(q: seq<T>): seq<Out<T>> {
    seq(|q|, i requires 0 <= i < |q| => Dropped(q[i]))
  }

  function Step<T>(c: State<T>, a: Action<T>): State<T>
    requires Enabled(c, a)
  {
    match a
    case Add(t, v) => c.(queue := Added(c.queue, v), added := c.added + [v], threads := c.threads[t := Notifying])
    case Wait(t) => c.(threads := c.threads[t := Testing])
    case Test(t) =>
      if First(c.queue).Some? then Leaves(c, Some(t)).(threads := c.threads[t := Outside])
      else c.(threads := c.threads[t := if c.threads[t] == Testing then Sleeping else Outside])
    case TryPop(t) => Leaves(c, Some(t))
    case Pop(t) => Leaves(c, None)
    case Reset(t) => c.(queue := [], gone := c.gone + DroppedAll(c.queue), threads := c.threads[t := Notifying])
    case NotifyOne(t, woken) =>
      if woken.None? then c.(threads := c.threads[t := Outside])
      else c.(threads := c.threads[t := Outside][woken.value := Testing])
    case Spurious(t) => c.(threads := c.threads[t := Testing])
    case Timeout(t) => c.(threads := c.threads[t := TimedOut])
  }

  ghost predicate Runs<T>(c: State<T>, actions: seq<Action<T>>, c': State<T>)
    decreases |actions|
  {
    if actions == [] then c' == c
    else Enabled(c, actions[0]) && Runs(Step(c, actions[0]), actions[1..], c')
  }

  function Initial<T>(n: nat): State<T> {
    State([], seq(n, _ => Outside), [], [])
  }

  // ---------------------------------------------------------------------------
  // Order and conservation
  // ---------------------------------------------------------------------------

  function Values<T>(gone: seq<Out<T>>): seq<T> {
    seq(|gone|, i requires 0 <= i < |gone| => gone[i].value)
  }

  /** What was added is what left, in order, followed by what is there. */
  ghost predicate Conserved<T>(c: State<T>) {
    c.added == Values(c.gone) + c.queue
  }

  lemma LeavesConserves<T>(c: State<T>, to: Option<nat>)
    requires Conserved(c)
    ensures Conserved(Leaves(c, to)) && Leaves(c, to).threads == c.threads
  {
    if c.queue != [] {
      var c' := Leaves(c, to);
      assert Values(c'.gone) == Values(c.gone) + [c.queue[0]];
      assert c.queue == [c.queue[0]] + c'.queue;
    }
  }

  lemma StepConserves<T>(c: State<T>, a: Action<T>)
    requires Enabled(c, a) && Conserved(c)
    ensures Conserved(Step(c, a))
  {
    match a
    case Test(t) => LeavesConserves(c, Some(t));
    case TryPop(t) => LeavesConserves(c, Some(t));
    case Pop(t) => LeavesConserves(c, None);
    case Reset(t) => assert Values(c.gone + DroppedAll(c.queue)) == Values(c.gone) + c.queue;
    case _ =>
  }

  lemma {:induction false} RunConserves<T>(c: State<T>, actions: seq<Action<T>>, c': State<T>)
    requires Conserved(c) && Runs(c, actions, c')
    ensures Conserved(c')
    decreases |actions|
  {
    hide Conserved, Step, Enabled;
    if actions != [] {
      StepConserves(c, actions[0]);
      RunConserves(Step(c, actions[0]), actions[1..], c');
    }
  }

  /** In every run no element is lost, doubled or overtaken: those handed out or thrown away are, in order, the first
      that were added. For the semaphore, the count is the number of signals less the permits taken or reset. */
  lemma ElementsConserved<T>(n: nat, actions: seq<Action<T>>, c: State<T>)
    requires Runs(Initial(n), actions, c)
    ensures |c.gone| <= |c.added| && c.queue == c.added[|c.gone|..]
    ensures forall i :: 0 <= i < |c.gone| ==> c.gone[i].value == c.added[i]
    ensures |c.queue| == |c.added| - |c.gone|
  {
    RunConserves(Initial<T>(n), actions, c);
    assert forall i :: 0 <= i < |c.gone| ==> Values(c.gone)[i] == c.gone[i].value;
  }

  // ---------------------------------------------------------------------------
  // Nothing is lost on a sleeper
  // ---------------------------------------------------------------------------

  function Number(threads: seq<Pc>, pc: Pc): nat {
    multiset(threads)[pc]
  }

  /** Threads in the call that will test before they sleep again. */
  function Awake(threads: seq<Pc>): nat {
    Number(threads, Testing) + Number(threads, TimedOut)
  }

  /** While a thread sleeps, every element has an awake waiter or a notification coming to it. */
  ghost predicate Covered<T>(c: State<T>) {
    Number(c.threads, Sleeping) > 0 ==> Awake(c.threads) + Number(c.threads, Notifying) >= |c.queue|
  }

  ghost predicate NumberMoved(threads: seq<Pc>, t: nat, pc: Pc, p: Pc)
    requires t < |threads|
  {
    && Number(threads[t := pc], p)
       == Number(threads, p) + (if pc == p then 1 else 0) - (if threads[t] == p then 1 else 0)
    && (Number(threads, p) == 0 <==> p !in threads)
  }

  lemma NumbersMove(threads: seq<Pc>, t: nat, pc: Pc)
    requires t < |threads|
    ensures NumberMoved(threads, t, pc, Testing) && NumberMoved(threads, t, pc, Sleeping)
    ensures NumberMoved(threads, t, pc, TimedOut) && NumberMoved(threads, t, pc, Notifying)
  {
    forall p: Pc
      ensures NumberMoved(threads, t, pc, p)
    {
      assert p in threads <==> p in multiset(threads);
    }
  }

  lemma NotifyOneCovers<T>(c: State<T>, t: nat, woken: Option<nat>)
    requires Covered(c) && Enabled(c, NotifyOne(t, woken))
    ensures Covered(Step(c, NotifyOne(t, woken)))
  {
    NumbersMove(c.threads, t, Outside);
    if woken.Some? {
      NumbersMove(c.threads[t := Outside], woken.value, Testing);
    }
    hide Number;
  }

  lemma TestCovers<T>(c: State<T>, t: nat)
    requires Covered(c) && Enabled(c, Test(t))
    ensures Covered(Step(c, Test(t)))
  {
    var pc := if c.queue != [] || c.threads[t] == TimedOut then Outside else Sleeping;
    NumbersMove(c.threads, t, pc);
    hide Number;
  }

  /** A thread moves on, and the elements grow by no more than what it brings. */
  lemma MoveCovers<T>(c: State<T>, t: nat, pc: Pc, c': State<T>)
    requires Covered(c) && t < |c.threads|
    requires c.threads[t] in {Outside, Sleeping} && pc in {Testing, TimedOut, Notifying}
    requires c'.threads == c.threads[t := pc] && |c'.queue| <= |c.queue| + (if pc == Notifying then 1 else 0)
    ensures Covered(c')
  {
    NumbersMove(c.threads, t, pc);
    hide Number;
  }

  lemma StepCovers<T>(c: State<T>, a: Action<T>)
    requires Covered(c) && Enabled(c, a)
    ensures Covered(Step(c, a))
  {
    hide Number;
    match a
    case Add(t, v) => MoveCovers(c, t, Notifying, Step(c, a));
    case Wait(t) => MoveCovers(c, t, Testing, Step(c, a));
    case Test(t) => TestCovers(c, t);
    case TryPop(t) =>
    case Pop(t) =>
    case Reset(t) => MoveCovers(c, t, Notifying, Step(c, a));
    case NotifyOne(t, woken) => NotifyOneCovers(c, t, woken);
    case Spurious(t) => MoveCovers(c, t, Testing, Step(c, a));
    case Timeout(t) => MoveCovers(c, t, TimedOut, Step(c, a));
  }

  lemma {:induction false} RunCovers<T>(c: State<T>, actions: seq<Action<T>>, c': State<T>)
    requires Covered(c) && Runs(c, actions, c')
    ensures Covered(c')
    decreases |actions|
  {
    hide Covered, Step, Enabled;
    if actions != [] {
      StepCovers(c, actions[0]);
      RunCovers(Step(c, actions[0]), actions[1..], c');
    }
  }

  /** In every run, with elements stolen, timeouts, resets and spurious wake-ups, no element is lost on a sleeper: while
      a thread sleeps and something is there, a waiter is awake or about to be notified, for each element one. */
  lemma NoLostPermit<T>(n: nat, actions: seq<Action<T>>, c: State<T>)
    requires Runs(Initial(n), actions, c)
    ensures Sleeping in c.threads ==> Awake(c.threads) + Number(c.threads, Notifying) >= |c.queue|
    ensures Sleeping in c.threads && c.queue != [] ==>
      Testing in c.threads || TimedOut in c.threads || Notifying in c.threads
  {
    var c0 := Initial<T>(n);
    assert Number(c0.threads, Sleeping) == 0 by {
      assert Sleeping !in c0.threads;
      assert Sleeping !in multiset(c0.threads);
    }
    RunCovers(c0, actions, c);
    InThreads(c.threads, Sleeping);
    InThreads(c.threads, Testing);
    InThreads(c.threads, TimedOut);
    InThreads(c.threads, Notifying);
  }

  lemma InThreads(threads: seq<Pc>, pc: Pc)
    ensures pc in threads <==> Number(threads, pc) > 0
  {
    assert pc in threads <==> pc in multiset(threads);
  }
}
