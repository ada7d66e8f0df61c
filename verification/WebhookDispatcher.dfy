/**
 * packages/webhooks/src/dispatcher.ts: a shared counter, a FIFO queue and a list of waiters.
 *
 * A step is the code between two awaits. Jobs are numbered in the order runScheduled receives
 * them; no worker throws. A queued job runs inside two runWorker frames, the outer one around
 * the closure that was queued and the inner one around the worker itself.
 */
module WebhookDispatcher {
  const MAX_CONCURRENT := 10

  type Job = nat
  type Waiter = nat

  datatype State = State(
    activeWorkers: int,
    queue: seq<Job>,       // pendingQueue
    waiters: seq<Waiter>,
    direct: set<Job>,      // delivering inside one frame
    inner: set<Job>,       // delivering inside two frames
    settled: set<Job>,     // inner frame left, queued closure not yet resumed
    closing: set<Job>,     // caller resolved, outer frame not yet left
    done: set<Job>,
    started: seq<Job>,     // every worker call so far, in order
    resolved: seq<Job>,    // every runScheduled promise resolved so far, in order
    submitted: nat,
    notified: seq<Waiter>)
  {
    function InFlight(): nat { |direct| + |inner| }

    function Frames(): nat { |direct| + 2 * |inner| + |settled| + |closing| }
  }

  const INITIAL := State(0, [], [], {}, {}, {}, {}, {}, [], [], 0, [])

  // ---------------------------------------------------------------- the steps, on values

  /** scheduleNext: start one queued job if there is room, then wake the waiters if all is quiet. */
  function AfterSchedule(s: State): State {
    var t := if s.queue != [] && s.activeWorkers < MAX_CONCURRENT
             then s.(queue := s.queue[1..], activeWorkers := s.activeWorkers + 2,
                     inner := s.inner + {s.queue[0]}, started := s.started + [s.queue[0]])
             else s;
    if t.activeWorkers == 0 && t.queue == [] then t.(waiters := [], notified := t.notified + t.waiters) else t
  }

  /** The finally block of a runWorker frame. */
  function AfterLeave(s: State): State { AfterSchedule(s.(activeWorkers := s.activeWorkers - 1)) }

  datatype Event =
    | Submit               // runScheduled is called
    | DirectDone(j: Job)   // the worker of a direct job has settled
    | InnerDone(j: Job)    // the worker of a queued job has settled
    | Resume(j: Job)       // the queued closure goes on and resolves its caller
    | OuterDone(j: Job)    // the outer frame of a queued job is left
    | Wait(w: Waiter)      // waitForWebhooks is called

  predicate Enabled(s: State, e: Event) {
    match e
    case Submit => true
    case DirectDone(j) => j in s.direct
    case InnerDone(j) => j in s.inner
    case Resume(j) => j in s.settled
    case OuterDone(j) => j in s.closing
    case Wait(w) => true
  }

  function Step(s: State, e: Event): State
    requires Enabled(s, e)
  {
    match e
    case Submit =>
      var t := s.(submitted := s.submitted + 1);
      if s.activeWorkers < MAX_CONCURRENT
      then t.(activeWorkers := s.activeWorkers + 1,
              direct := s.direct + {s.submitted}, started := s.started + [s.submitted])
      else t.(queue := s.queue + [s.submitted])
    case DirectDone(j) =>
      AfterLeave(s.(direct := s.direct - {j}, done := s.done + {j}, resolved := s.resolved + [j]))
    case InnerDone(j) => AfterLeave(s.(inner := s.inner - {j}, settled := s.settled + {j}))
    case Resume(j) => s.(settled := s.settled - {j}, closing := s.closing + {j}, resolved := s.resolved + [j])
    case OuterDone(j) => AfterLeave(s.(closing := s.closing - {j}, done := s.done + {j}))
    case Wait(w) =>
      if s.activeWorkers == 0 && s.queue == [] then s.(notified := s.notified + [w])
      else s.(waiters := s.waiters + [w])
  }

  ghost predicate IsRun(s: State, run: seq<Event>)
    decreases |run|
  {
    run == [] || (Enabled(s, run[0]) && IsRun(Step(s, run[0]), run[1..]))
  }

  ghost function After(s: State, run: seq<Event>): State
    requires IsRun(s, run)
    decreases |run|
  {
    if run == [] then s else After(Step(s, run[0]), run[1..])
  }

  // ---------------------------------------------------------------- the module state

  class Dispatcher {
    var activeWorkers: int
    var pendingQueue: seq<Job>
    var waiters: seq<Waiter>
    ghost var history: State

    /** The three variables of the source are the first three parts of the state. */
    ghost predicate Valid()
      reads this
    {
      history.activeWorkers == activeWorkers && history.queue == pendingQueue && history.waiters == waiters
    }

    constructor ()
      ensures Valid() && history == INITIAL
    {
      activeWorkers, pendingQueue, waiters, history := 0, [], [], INITIAL;
    }

    method NotifyWaiters()
      requires Valid()
      modifies this`waiters, this`history
      ensures Valid()
      ensures history == old(history).(waiters := [], notified := old(history).notified + old(history).waiters)
    {
      while |waiters| > 0
        invariant Valid()
        invariant history == old(history).(waiters := waiters, notified := history.notified)
        invariant history.notified + waiters == old(history).notified + old(history).waiters
        decreases |waiters|
      {
        history := history.(waiters := waiters[1..], notified := history.notified + [waiters[0]]);
        waiters := waiters[1..];
      }
    }

    /** runWorker(next) calls the queued closure, which calls runWorker(worker), with no await between. */
    method ScheduleNext()
      requires Valid()
      modifies this
      ensures Valid() && history == AfterSchedule(old(history))
    {
      if |pendingQueue| > 0 && activeWorkers < MAX_CONCURRENT {
        var next := pendingQueue[0];
        pendingQueue := pendingQueue[1..];
        activeWorkers := activeWorkers + 1;
        activeWorkers := activeWorkers + 1;
        history := history.(queue := pendingQueue, activeWorkers := activeWorkers,
                            inner := history.inner + {next}, started := history.started + [next]);
      }
      if activeWorkers == 0 && |pendingQueue| == 0 {
        NotifyWaiters();
      }
    }

    method LeaveFrame(ghost moved: State)
      requires Valid() && moved == history.(direct := moved.direct, inner := moved.inner, settled := moved.settled,
                                            closing := moved.closing, done := moved.done, resolved := moved.resolved)
      modifies this
      ensures Valid() && history == AfterLeave(moved)
    {
      activeWorkers := activeWorkers - 1;
      history := moved.(activeWorkers := activeWorkers);
      ScheduleNext();
    }

    method RunScheduled(worker: Job)
      requires Valid() && worker == history.submitted
      modifies this
      ensures Valid() && history == Step(old(history), Submit)
    {
      if activeWorkers < MAX_CONCURRENT {
        activeWorkers := activeWorkers + 1;
        history := history.(submitted := worker + 1, activeWorkers := activeWorkers,
                            direct := history.direct + {worker}, started := history.started + [worker]);
      } else {
        pendingQueue := pendingQueue + [worker];
        history := history.(submitted := worker + 1, queue := pendingQueue);
      }
    }

    /** What the event loop resumes next: the frame of a delivery, a queued closure, or an outer frame. */
    method Settle(ghost e: Event)
      requires Valid() && Enabled(history, e) && (e.DirectDone? || e.InnerDone? || e.OuterDone?)
      modifies this
      ensures Valid() && history == Step(old(history), e)
    {
      ghost var s := history;
      LeaveFrame(match e
                 case DirectDone(j) => s.(direct := s.direct - {j}, done := s.done + {j}, resolved := s.resolved + [j])
                 case InnerDone(j) => s.(inner := s.inner - {j}, settled := s.settled + {j})
                 case OuterDone(j) => s.(closing := s.closing - {j}, done := s.done + {j}));
    }

    method WaitForWebhooks(w: Waiter) returns (immediately: bool)
      requires Valid()
      modifies this
      ensures Valid() && history == Step(old(history), Wait(w))
      ensures immediately == (old(activeWorkers) == 0 && old(pendingQueue) == [])
    {
      immediately := activeWorkers == 0 && |pendingQueue| == 0;
      if immediately {
        history := history.(notified := history.notified + [w]);
      } else {
        waiters := waiters + [w];
        history := history.(waiters := waiters);
      }
    }

    /** The queued closure goes on after its await and resolves the caller; no module variable changes. */
    method ResolveCaller(ghost j: Job)
      requires Valid() && Enabled(history, Resume(j))
      modifies this`history
      ensures Valid() && history == Step(old(history), Resume(j))
    {
      history := Step(history, Resume(j));
    }

    /** Any interleaving of submissions, waits and resumed frames is a run, and keeps the invariant. */
    method Run(events: seq<Event>, submitted: nat)
      requires Valid() && IsRun(history, events) && submitted == history.submitted
      modifies this
      ensures Valid() && history == After(old(history), events)
      ensures Inv(old(history)) ==> Inv(history)
    {
      hide Enabled, Step, Inv;
      var jobs := submitted;
      for i := 0 to |events|
        invariant Valid() && jobs == history.submitted
        invariant IsRun(history, events[i..]) && After(history, events[i..]) == After(old(history), events)
      {
        assert events[i..][0] == events[i] && events[i..][1..] == events[i + 1..];
        SubmittedNext(history, events[i]);
        Perform(events[i], jobs);
        jobs := if events[i].Submit? then jobs + 1 else jobs;
      }
      if Inv(old(history)) { RunKeepsInv(old(history), events); }
    }

    method Perform(e: Event, worker: Job)
      requires Valid() && Enabled(history, e) && worker == history.submitted
      modifies this
      ensures Valid() && history == Step(old(history), e)
    {
      match e
      case Submit => RunScheduled(worker);
      case Wait(w) => var _ := WaitForWebhooks(w);
      case Resume(j) => ResolveCaller(j);
      case _ => Settle(e);
    }
  }

  lemma SubmittedNext(s: State, e: Event)
    requires Enabled(s, e)
    ensures Step(s, e).submitted == if e.Submit? then s.submitted + 1 else s.submitted
  {
  }

  // ---------------------------------------------------------------- what every step keeps

  function Range(a: nat, b: nat): (r: seq<nat>)
    requires a <= b
    ensures |r| == b - a && forall i :: 0 <= i < b - a ==> r[i] == a + i
  {
    seq(b - a, i requires 0 <= i < b - a => a + i)
  }

  ghost predicate Counted(s: State) {
    && s.activeWorkers == s.Frames()
    && (s.queue != [] ==> s.activeWorkers >= MAX_CONCURRENT)
    && s.activeWorkers <= MAX_CONCURRENT + 1
    && (s.activeWorkers == MAX_CONCURRENT + 1 ==> s.inner != {})
    && (s.activeWorkers == 0 ==> s.waiters == [])
  }

  ghost predicate Ordered(s: State) {
    && |s.started| <= s.submitted
    && s.started == Range(0, |s.started|)
    && s.queue == Range(|s.started|, s.submitted)
  }

  /** In how many phases a job is. */
  function Places(s: State, j: Job): nat {
    (if j in s.direct then 1 else 0) + (if j in s.inner then 1 else 0) + (if j in s.settled then 1 else 0)
    + (if j in s.closing then 1 else 0) + (if j in s.done then 1 else 0)
  }

  /** The caller of a job is resolved once, and only after its delivery has settled. */
  ghost predicate ResolvedOnce(s: State, j: Job) {
    multiset(s.resolved)[j] == if j in s.closing || j in s.done then 1 else 0
  }

  ghost predicate Partitioned(s: State) {
    forall j: Job :: Places(s, j) == (if j < |s.started| then 1 else 0) && ResolvedOnce(s, j)
  }

  ghost predicate Inv(s: State) { Counted(s) && Ordered(s) && Partitioned(s) }

  lemma InitialInv()
    ensures Inv(INITIAL)
  {
  }

  /** The state inside a finally block, before the counter goes down. */
  ghost predicate Leaving(s: State) {
    && s.activeWorkers == s.Frames() + 1 <= MAX_CONCURRENT + 1
    && (s.queue != [] ==> s.activeWorkers >= MAX_CONCURRENT)
    && Ordered(s) && Partitioned(s)
  }

  /** A job about to start is in none of the sets of started jobs. */
  lemma NextIsNew(s: State)
    requires Ordered(s) && Partitioned(s)
    ensures s.queue == [] ==> s.submitted == |s.started|
    ensures s.queue != [] ==> s.queue[0] == |s.started|
    ensures |s.started| !in s.direct && |s.started| !in s.inner && |s.started| !in s.settled
    ensures |s.started| !in s.closing && |s.started| !in s.done
  {
    assert Places(s, |s.started|) == 0;
  }

  lemma LeaveKeepsInv(s: State)
    requires Leaving(s)
    ensures Inv(AfterLeave(s))
  {
    hide Range;
    var t := s.(activeWorkers := s.activeWorkers - 1);
    SamePlaces(s, t);
    NextIsNew(t);
    if t.queue != [] && t.activeWorkers < MAX_CONCURRENT {
      StartQueued(t);
    } else {
      SamePlaces(t, AfterLeave(s));
    }
  }

  /** The counter, the queue and the waiters play no part in where jobs are. */
  lemma SamePlaces(s: State, t: State)
    requires Partitioned(s) && t.direct == s.direct && t.inner == s.inner && t.settled == s.settled
    requires t.closing == s.closing && t.done == s.done && t.started == s.started && t.resolved == s.resolved
    ensures Partitioned(t)
  {
    forall j: Job ensures Places(t, j) == (if j < |t.started| then 1 else 0) && ResolvedOnce(t, j) {
      assert Places(s, j) == (if j < |s.started| then 1 else 0) && ResolvedOnce(s, j);
    }
  }

  /** Starting the head of the queue inside two frames. */
  lemma StartQueued(s: State)
    requires Ordered(s) && Partitioned(s) && s.queue != []
    requires s.activeWorkers == s.Frames() == MAX_CONCURRENT - 1
    ensures Inv(s.(queue := s.queue[1..], activeWorkers := s.activeWorkers + 2,
                   inner := s.inner + {s.queue[0]}, started := s.started + [s.queue[0]]))
  {
    var n := |s.started|;
    NextIsNew(s);
    RangeTail(n, s.submitted);
    RangeGrows(n);
    var t := s.(queue := s.queue[1..], activeWorkers := s.activeWorkers + 2,
                inner := s.inner + {n}, started := s.started + [n]);
    forall j: Job ensures Places(t, j) == (if j < n + 1 then 1 else 0) && ResolvedOnce(t, j) {
      assert Places(s, j) == (if j < n then 1 else 0) && ResolvedOnce(s, j);
    }
  }

  lemma RangeTail(a: nat, b: nat)
    requires a < b
    ensures Range(a, b)[1..] == Range(a + 1, b)
  {
  }

  lemma RangeGrows(n: nat)
    ensures Range(0, n) + [n] == Range(0, n + 1)
  {
  }

  lemma SubmitKeepsInv(s: State)
    requires Inv(s)
    ensures Inv(Step(s, Submit))
  {
    hide Range, Partitioned;
    NextIsNew(s);
    if s.activeWorkers < MAX_CONCURRENT {
      var n := s.submitted;
      RangeGrows(n);
      RangeEmpty(n + 1);
    } else {
      RangeExtends(|s.started|, s.submitted);
    }
    SubmitPartition(s);
  }

  lemma SubmitPartition(s: State)
    requires Ordered(s) && Partitioned(s) && (s.activeWorkers < MAX_CONCURRENT ==> s.queue == [])
    ensures Partitioned(Step(s, Submit))
  {
    hide Range;
    NextIsNew(s);
    var t := Step(s, Submit);
    forall j: Job ensures Places(t, j) == (if j < |t.started| then 1 else 0) && ResolvedOnce(t, j) {
      assert Places(s, j) == (if j < |s.started| then 1 else 0) && ResolvedOnce(s, j);
    }
  }

  lemma RangeEmpty(n: nat)
    ensures Range(n, n) == []
  {
  }

  lemma RangeExtends(a: nat, b: nat)
    requires a <= b
    ensures Range(a, b) + [b] == Range(a, b + 1)
  {
  }

  /** Every step of every interleaving keeps the invariant. */
  lemma StepKeepsInv(s: State, e: Event)
    requires Inv(s) && Enabled(s, e)
    ensures Inv(Step(s, e))
  {
    hide Range, AfterLeave;
    match e
    case Submit => SubmitKeepsInv(s);
    case DirectDone(j) =>
      DirectMoves(s, j);
      LeaveKeepsInv(s.(direct := s.direct - {j}, done := s.done + {j}, resolved := s.resolved + [j]));
    case InnerDone(j) =>
      InnerMoves(s, j);
      LeaveKeepsInv(s.(inner := s.inner - {j}, settled := s.settled + {j}));
    case Resume(j) => ResumeMoves(s, j);
    case OuterDone(j) =>
      OuterMoves(s, j);
      LeaveKeepsInv(s.(closing := s.closing - {j}, done := s.done + {j}));
    case Wait(w) => SamePlaces(s, Step(s, e));
  }

  /** A job that changes phase, resolving its caller on the way if it becomes resolved. */
  lemma MoveKeepsPartition(s: State, t: State, j: Job)
    requires Partitioned(s) && j < |s.started| && t.started == s.started
    requires forall i: Job ::
      i != j ==> Places(t, i) == Places(s, i) && (i in t.closing + t.done <==> i in s.closing + s.done)
    requires Places(t, j) == 1
    requires var moved := (j in t.closing || j in t.done) && j !in s.closing && j !in s.done;
      t.resolved == if moved then s.resolved + [j] else s.resolved
    requires j in s.closing || j in s.done ==> j in t.closing || j in t.done
    ensures Partitioned(t)
  {
    forall i: Job ensures Places(t, i) == (if i < |t.started| then 1 else 0) && ResolvedOnce(t, i) {
      assert Places(s, i) == (if i < |s.started| then 1 else 0) && ResolvedOnce(s, i);
      if i != j { assert i in t.closing + t.done <==> i in s.closing + s.done; }
    }
  }

  lemma DirectMoves(s: State, j: Job)
    requires Inv(s) && j in s.direct
    ensures Leaving(s.(direct := s.direct - {j}, done := s.done + {j}, resolved := s.resolved + [j]))
  {
    hide Range;
    assert Places(s, j) == 1;
    MoveKeepsPartition(s, s.(direct := s.direct - {j}, done := s.done + {j}, resolved := s.resolved + [j]), j);
  }

  lemma InnerMoves(s: State, j: Job)
    requires Inv(s) && j in s.inner
    ensures Leaving(s.(inner := s.inner - {j}, settled := s.settled + {j}))
  {
    hide Range, Partitioned;
    InnerPartition(s, j);
  }

  lemma InnerPartition(s: State, j: Job)
    requires Partitioned(s) && j in s.inner
    ensures Partitioned(s.(inner := s.inner - {j}, settled := s.settled + {j})) && j !in s.settled
  {
    assert Places(s, j) == 1;
    MoveKeepsPartition(s, s.(inner := s.inner - {j}, settled := s.settled + {j}), j);
  }

  lemma ResumeMoves(s: State, j: Job)
    requires Inv(s) && j in s.settled
    ensures Inv(Step(s, Resume(j)))
  {
    hide Range, Partitioned;
    ResumePartition(s, j);
  }

  lemma ResumePartition(s: State, j: Job)
    requires Partitioned(s) && j in s.settled
    ensures Partitioned(Step(s, Resume(j))) && j !in s.closing
  {
    assert Places(s, j) == 1;
    MoveKeepsPartition(s, Step(s, Resume(j)), j);
  }

  lemma OuterMoves(s: State, j: Job)
    requires Inv(s) && j in s.closing
    ensures Leaving(s.(closing := s.closing - {j}, done := s.done + {j}))
  {
    hide Range;
    assert Places(s, j) == 1;
    MoveKeepsPartition(s, s.(closing := s.closing - {j}, done := s.done + {j}), j);
  }

  // ---------------------------------------------------------------- whole runs

  lemma {:induction false} RunKeepsInv(s: State, run: seq<Event>)
    requires Inv(s) && IsRun(s, run)
    ensures Inv(After(s, run))
    decreases |run|
  {
    hide Inv, Step;
    if run != [] {
      StepKeepsInv(s, run[0]);
      RunKeepsInv(Step(s, run[0]), run[1..]);
    }
  }

  ghost predicate Reachable(s: State) {
    exists run :: IsRun(INITIAL, run) && After(INITIAL, run) == s
  }

  lemma ReachableInv(s: State)
    requires Reachable(s)
    ensures Inv(s)
  {
    var run :| IsRun(INITIAL, run) && After(INITIAL, run) == s;
    InitialInv();
    RunKeepsInv(INITIAL, run);
  }

  /**
   * At most ten deliveries are in flight, although the counter can read eleven. Jobs that came
   * through the queue count twice, so no more than five of them run together.
   */
  lemma ConcurrencyBound(s: State)
    requires Reachable(s)
    ensures s.InFlight() <= 10
    ensures s.activeWorkers <= 11
    ensures |s.inner| <= 5
  {
    ReachableInv(s);
  }

  /** Under a steady backlog of queued jobs exactly five, not ten, deliveries are in flight. */
  lemma BacklogRunsFive(s: State)
    requires Reachable(s) && s.queue != []
    requires s.direct == {} && s.settled == {} && s.closing == {}
    ensures s.InFlight() == 5
  {
    ReachableInv(s);
  }

  /** Workers start in submission order, each exactly once, and are queued only while the counter is full. */
  lemma StartOrder(s: State)
    requires Reachable(s)
    ensures s.started + s.queue == Range(0, s.submitted)
    ensures s.queue != [] ==> s.activeWorkers >= 10
    ensures forall j: Job :: multiset(s.resolved)[j] <= 1
    ensures forall j: Job :: j in s.resolved ==> j in s.started && j !in s.direct && j !in s.inner
  {
    ReachableInv(s);
    forall j: Job
      ensures multiset(s.resolved)[j] <= 1
      ensures j in s.resolved ==> j in s.started && j !in s.direct && j !in s.inner
    {
      assert Places(s, j) == (if j < |s.started| then 1 else 0) && ResolvedOnce(s, j);
      if j in s.resolved {
        assert j in multiset(s.resolved);
        assert s.started[j] == j;
      }
    }
  }

  /** When the counter reads zero nothing is left over: no queue, no waiter, every job done and resolved. */
  lemma QuietMeansDrained(s: State)
    requires Inv(s) && s.activeWorkers == 0
    ensures s.queue == [] && s.waiters == []
    ensures forall j: Job :: j < s.submitted ==> j in s.done && multiset(s.resolved)[j] == 1
  {
    assert |s.direct| == 0 && |s.inner| == 0 && |s.settled| == 0 && |s.closing| == 0;
    assert s.queue == Range(|s.started|, s.submitted);
    forall j: Job | j < s.submitted ensures j in s.done && multiset(s.resolved)[j] == 1 {
      assert Places(s, j) == 1 && ResolvedOnce(s, j);
    }
  }

  /** waitForWebhooks resolves in call order, nobody is forgotten, and only when everything is drained. */
  lemma WaitersServed(s: State, e: Event)
    requires Inv(s) && Enabled(s, e)
    ensures var t := Step(s, e);
      && t.notified + t.waiters == s.notified + s.waiters + (if e.Wait? then [e.w] else [])
      && (t.notified != s.notified ==> t.activeWorkers == 0)
  {
    hide Inv, AfterSchedule;
    match e
    case DirectDone(j) =>
      var left := s.(direct := s.direct - {j}, done := s.done + {j}, resolved := s.resolved + [j]);
      ScheduleServes(left.(activeWorkers := s.activeWorkers - 1));
    case InnerDone(j) =>
      var left := s.(inner := s.inner - {j}, settled := s.settled + {j});
      ScheduleServes(left.(activeWorkers := s.activeWorkers - 1));
    case OuterDone(j) =>
      var left := s.(closing := s.closing - {j}, done := s.done + {j});
      ScheduleServes(left.(activeWorkers := s.activeWorkers - 1));
    case Wait(w) => if s.activeWorkers == 0 { NobodyWaits(s); }
    case _ =>
  }

  lemma NobodyWaits(s: State)
    requires Inv(s) && s.activeWorkers == 0
    ensures s.waiters == []
  {
  }

  lemma ScheduleServes(s: State)
    ensures var t := AfterSchedule(s);
      && t.notified + t.waiters == s.notified + s.waiters
      && (t.notified != s.notified ==> t.activeWorkers == 0)
  {
  }

  /**
   * What is on record is never taken back: workers start, callers are resolved and waiters are woken one after the
   * other. A caller is resolved by the step that ends a direct delivery, or that resumes its queued closure.
   */
  lemma HistoryGrows(s: State, e: Event)
    requires Enabled(s, e)
    ensures var t := Step(s, e);
      && s.started <= t.started && s.notified <= t.notified
      && t.resolved == s.resolved + if e.DirectDone? || e.Resume? then [e.j] else []
  {
  }

  // ---------------------------------------------------------------- progress

  /** Steps still to come if nothing more is submitted. */
  function Work(s: State): nat { 4 * |s.queue| + |s.direct| + 3 * |s.inner| + 2 * |s.settled| + |s.closing| }

  lemma StepShrinksWork(s: State, e: Event)
    requires Inv(s) && Enabled(s, e) && !e.Submit? && !e.Wait?
    ensures Work(Step(s, e)) < Work(s)
  {
    hide Range, AfterLeave, Leaving, Inv;
    match e
    case DirectDone(j) => DirectMoves(s, j);
      LeaveShrinks(s.(direct := s.direct - {j}, done := s.done + {j}, resolved := s.resolved + [j]));
    case InnerDone(j) => InnerMoves(s, j);
      InOnePlace(s, j);
      LeaveShrinks(s.(inner := s.inner - {j}, settled := s.settled + {j}));
    case Resume(j) => InOnePlace(s, j);
    case OuterDone(j) => OuterMoves(s, j);
      LeaveShrinks(s.(closing := s.closing - {j}, done := s.done + {j}));
  }

  lemma InOnePlace(s: State, j: Job)
    requires Inv(s)
    ensures Places(s, j) <= 1
  {
  }

  lemma LeaveShrinks(s: State)
    requires Leaving(s)
    ensures Work(AfterLeave(s)) <= Work(s)
  {
    hide Range;
    NextIsNew(s);
  }

  /** Until everything is drained some frame can go on, so a run can stop only when nothing is left. */
  lemma NeverStuck(s: State)
    requires Inv(s) && s.activeWorkers != 0
    ensures exists e :: Enabled(s, e) && !e.Submit? && !e.Wait?
  {
    assert s.direct != {} || s.inner != {} || s.settled != {} || s.closing != {};
    if j :| j in s.direct { assert Enabled(s, DirectDone(j)); }
    else if j :| j in s.inner { assert Enabled(s, InnerDone(j)); }
    else if j :| j in s.settled { assert Enabled(s, Resume(j)); }
    else { var j :| j in s.closing; assert Enabled(s, OuterDone(j)); }
  }

  predicate Internal(e: Event) { !e.Submit? && !e.Wait? }

  lemma {:induction false} InternalRunsShrink(s: State, run: seq<Event>)
    requires Inv(s) && IsRun(s, run) && forall e :: e in run ==> Internal(e)
    ensures Inv(After(s, run)) && |run| + Work(After(s, run)) <= Work(s)
    ensures After(s, run).submitted == s.submitted
    ensures After(s, run).notified + After(s, run).waiters == s.notified + s.waiters
    decreases |run|
  {
    hide Inv, Work, Enabled, AfterLeave;
    if run != [] {
      var t := Step(s, run[0]);
      assert Internal(run[0]);
      assert t.submitted == s.submitted by { SubmittedNext(s, run[0]); }
      StepKeepsInv(s, run[0]);
      StepShrinksWork(s, run[0]);
      WaitersServed(s, run[0]);
      hide Step;
      InternalRunsShrink(t, run[1..]);
    }
  }

  /**
   * Once nothing more is submitted every run is finite, and one that cannot go on has delivered every
   * job, resolved every caller once, and woken every waiter in the order they came.
   */
  lemma RunsEndDrained(s: State, run: seq<Event>)
    requires Reachable(s) && IsRun(s, run) && forall e :: e in run ==> Internal(e)
    ensures |run| <= Work(s)
    ensures (forall e :: Internal(e) ==> !Enabled(After(s, run), e)) ==>
      var t := After(s, run);
      && t.notified == s.notified + s.waiters
      && forall j: Job :: j < s.submitted ==> j in t.done && multiset(t.resolved)[j] == 1
  {
    hide Inv, Step;
    ReachableInv(s);
    InternalRunsShrink(s, run);
    var t := After(s, run);
    if t.activeWorkers != 0 { NeverStuck(t); } else { QuietMeansDrained(t); }
  }

  // ---------------------------------------------------------------- eleven is reached

  lemma {:induction false} RunAppend(s: State, run: seq<Event>, e: Event)
    requires IsRun(s, run) && Enabled(After(s, run), e)
    ensures IsRun(s, run + [e]) && After(s, run + [e]) == Step(After(s, run), e)
    decreases |run|
  {
    hide Step, Enabled;
    if run == [] {
      assert [] + [e] == [e] && [e][1..] == [];
    } else {
      assert (run + [e])[1..] == run[1..] + [e];
      RunAppend(Step(s, run[0]), run[1..], e);
    }
  }

  lemma ReachableStep(s: State, e: Event)
    requires Reachable(s) && Enabled(s, e)
    ensures Reachable(Step(s, e))
  {
    hide Step, Enabled;
    var run :| IsRun(INITIAL, run) && After(INITIAL, run) == s;
    RunAppend(INITIAL, run, e);
  }

  lemma {:induction false} FirstTenStart(n: nat) returns (s: State)
    requires n <= MAX_CONCURRENT
    ensures Reachable(s)
    ensures s.activeWorkers == n == s.submitted == |s.direct| && s.queue == [] && s.inner == {}
    ensures forall i: nat :: i in s.direct <==> i < n
  {
    if n == 0 {
      s := INITIAL;
      assert IsRun(INITIAL, []) && After(INITIAL, []) == INITIAL;
    } else {
      var r := FirstTenStart(n - 1);
      ReachableStep(r, Submit);
      s := Step(r, Submit);
    }
  }

  /**
   * The counter passes ten only by starting a queued job, and starting one always takes it from ten to
   * eleven: a frame is left, and two are entered for the next in line.
   */
  lemma ElevenExactly(s: State, e: Event)
    requires Inv(s) && Enabled(s, e)
    ensures |Step(s, e).queue| < |s.queue| <==>
      Step(s, e).activeWorkers == 11 && s.activeWorkers == 10 && !e.Submit?
  {
    hide Ordered, Partitioned;
    StepKeepsInv(s, e);
  }

  /** Ten running, one queued, one finishes: the counter reads eleven while ten are in flight. */
  lemma CounterReachesEleven()
    ensures exists s :: Reachable(s) && s.activeWorkers == 11 && s.InFlight() == 10
  {
    hide Reachable;
    var r := FirstTenStart(MAX_CONCURRENT);
    ReachableStep(r, Submit);
    var q := Step(r, Submit);
    assert 0 in q.direct;
    ReachableStep(q, DirectDone(0));
    var s := Step(q, DirectDone(0));
    assert s.inner == {10};
  }
}
