/** Safety of the task queue over whole runs: any interleaving of steps, crashes included. */
module TaskQueueRuns {
  import opened TaskQueueModel
  import opened TaskQueueInvariant
  import Backoff

  lemma {:induction false} RunKeepsInv(s: State, events: seq<Event>)
    requires Inv(s)
    ensures Inv(Execute(s, events))
    decreases |events|
  {
    if events != [] {
      StepKeepsInv(s, events[0]);
      RunKeepsInv(Apply(s, events[0]), events[1..]);
    }
  }

  lemma ReachableStatesKeepInv(maxConcurrency: int32, clock: int, events: seq<Event>)
    ensures Inv(Execute(Initial(maxConcurrency, clock), events))
  {
    assert TotalConcurrency(map[]) == 0;
    RunKeepsInv(Initial(maxConcurrency, clock), events);
  }

  // ---- One holder per task, and no more running tasks than the budget ----

  /** The running tasks of created queues whose attempt number a worker can still receive. */
  ghost function RunningTasks(s: State): set<TaskId> {
    set id |
      id in s.tasks && s.tasks[id].status.Running? && s.tasks[id].queue in s.queues && s.tasks[id].attempt <= INT32_MAX
  }

  ghost function WorkersOf(s: State, queue: string): set<WorkerId> {
    set w | w in s.workers && w.queue == queue
  }

  /** Tasks held by distinct workers are no more than the workers. */
  lemma {:induction false} HeldTasksFitWorkers(s: State, ids: set<TaskId>, workers: set<WorkerId>)
    requires forall id | id in ids :: exists w :: w in workers && HeldBy(s, w, id)
    ensures |ids| <= |workers|
    decreases ids
  {
    if ids != {} {
      var id :| id in ids;
      var w :| w in workers && HeldBy(s, w, id);
      forall other | other in ids - {id}
        ensures exists v :: v in workers - {w} && HeldBy(s, v, other)
      {
        var v :| v in workers && HeldBy(s, v, other);
        assert v != w;
      }
      HeldTasksFitWorkers(s, ids - {id}, workers - {w});
    }
  }

  lemma WorkersOfQueue(s: State, queue: string)
    requires Inv(s) && queue in s.queues
    ensures |WorkersOf(s, queue)| == s.queues[queue].concurrency
  {
    NewWorkersCount(queue, s.queues[queue].concurrency);
    assert WorkersOf(s, queue) == NewWorkers(queue, s.queues[queue].concurrency).Keys;
  }

  /** In every reachable state a task has at most one holder. */
  lemma AtMostOneHolder(maxConcurrency: int32, clock: int, events: seq<Event>, id: TaskId, w1: WorkerId, w2: WorkerId)
    requires HeldBy(Execute(Initial(maxConcurrency, clock), events), w1, id)
    requires HeldBy(Execute(Initial(maxConcurrency, clock), events), w2, id)
    ensures w1 == w2
  {
    ReachableStatesKeepInv(maxConcurrency, clock, events);
  }

  /**
   * Until shutdown begins, a running task of a created queue has a holder exactly when its attempt
   * number fits the worker's int32; the holder works for the task's own queue.
   */
  lemma RunningTaskIsHeldIff(maxConcurrency: int32, clock: int, events: seq<Event>, id: TaskId)
    requires var s := Execute(Initial(maxConcurrency, clock), events);
             s.phase.Live? && id in s.tasks && s.tasks[id].status.Running? && s.tasks[id].queue in s.queues
    ensures var s := Execute(Initial(maxConcurrency, clock), events);
            s.tasks[id].attempt <= 0x7FFF_FFFF <==> exists w :: HeldBy(s, w, id) && w.queue == s.tasks[id].queue
  {
    var s := Execute(Initial(maxConcurrency, clock), events);
    ReachableStatesKeepInv(maxConcurrency, clock, events);
    forall w | HeldBy(s, w, id)
      ensures w.queue == s.tasks[id].queue && s.tasks[id].attempt <= INT32_MAX
    {
      HeldRowAgrees(s, w);
    }
    if s.tasks[id].attempt <= INT32_MAX {
      var w :| HeldBy(s, w, id);
    }
  }

  /** What a worker holds is a running row of its own queue, with the attempt number it was given. */
  lemma HeldRowAgrees(s: State, w: WorkerId)
    requires Inv(s) && !s.phase.Closed? && w in s.workers && s.workers[w].Holding?
    ensures var id := s.workers[w].id;
      && id in s.tasks && s.tasks[id].status.Running?
      && s.tasks[id].queue == w.queue && w.queue in s.queues
      && s.tasks[id].attempt == s.workers[w].attempt <= INT32_MAX
  {
    assert HoldsRunningRow(s, w);
  }

  /** A running task of a created queue of a live service that no worker holds. */
  ghost predicate IsOrphan(s: State, id: TaskId) {
    && s.phase.Live? && id in s.tasks && s.tasks[id].status.Running? && s.tasks[id].queue in s.queues
    && forall w :: !HeldBy(s, w, id)
  }

  const ONE_WORKER := QueueConfig(1, 0, 1000, 0, 3_600_000)

  /** A task that the only worker has taken and lost in a crash, again and again. */
  function Rounds(k: nat): seq<Event> {
    if k == 0 then [CreateQueue("q", ONE_WORKER, 0), Enqueue("t", "q", [], 0)]
    else Rounds(k - 1) + Round()
  }

  function Round(): seq<Event> {
    [Dequeue(WorkerId("q", 0), "t", 0, true), Crash, CreateQueue("q", ONE_WORKER, 0)]
  }

  function RoundState(k: nat, status: Status): State {
    State(1, 0, Live, map["q" := ONE_WORKER],
          map["t" := Task("q", [], status, k, 0, 0, 0, 0, "")],
          map[WorkerId("q", 0) := Idle], map["t" := History(k, 0, k, 0)])
  }

  lemma {:induction false} ExecuteAppend(s: State, a: seq<Event>, b: seq<Event>)
    ensures Execute(s, a + b) == Execute(Execute(s, a), b)
    decreases |a|
  {
    hide Apply;
    if a == [] {
      assert a + b == b;
    } else {
      assert (a + b)[0] == a[0] && (a + b)[1..] == a[1..] + b;
      ExecuteAppend(Apply(s, a[0]), a[1..], b);
    }
  }

  lemma QueueIsCreated(s: State)
    requires s.queues == map[] && s.workers == map[] && s.maxConcurrency == 1 && s.clock == 0 && s.phase.Live?
    ensures Apply(s, CreateQueue("q", ONE_WORKER, 0)) == WithNewQueue(s, "q", ONE_WORKER, 0)
    ensures s.workers + NewWorkers("q", 1) == map[WorkerId("q", 0) := Idle]
  {
    assert TotalConcurrency(s.queues) == 0;
    assert NewWorkers("q", 1).Keys == {WorkerId("q", 0)};
  }

  lemma FirstRound()
    ensures Execute(Initial(1, 0), Rounds(0)) == RoundState(0, Pending)
  {
    var s := Initial(1, 0);
    QueueIsCreated(s);
    var created := WithNewQueue(s, "q", ONE_WORKER, 0);
    assert created == State(1, 0, Live, map["q" := ONE_WORKER], map[], map[WorkerId("q", 0) := Idle], map[]);
    assert Apply(created, Enqueue("t", "q", [], 0)) == RoundState(0, Pending);
    assert Rounds(0)[1..] == [Enqueue("t", "q", [], 0)];
  }

  lemma RoundDequeues(k: nat)
    requires k < INT32_MAX
    ensures Apply(RoundState(k, Pending), Round()[0]) ==
      AfterDequeue(RoundState(k, Pending), WorkerId("q", 0), "t", 0, true)
  {
    assert IsNext(RoundState(k, Pending).tasks, "q", 0, "t");
  }

  /** After the crash of round k + 1: only the table is left. */
  function CrashedState(k: nat): State {
    RoundState(k + 1, Running).(queues := map[], workers := map[], history := map["t" := History(k + 1, 0, k, 0)])
  }

  lemma RoundCrashes(k: nat)
    requires k < INT32_MAX
    ensures Apply(AfterDequeue(RoundState(k, Pending), WorkerId("q", 0), "t", 0, true), Round()[1]) == CrashedState(k)
  {
  }

  lemma RoundRecreates(k: nat)
    ensures Apply(CrashedState(k), Round()[2]) == RoundState(k + 1, Pending)
  {
    hide Apply, TotalConcurrency;
    QueueIsCreated(CrashedState(k));
  }

  lemma ExecuteThree(s: State, events: seq<Event>)
    requires |events| == 3
    ensures Execute(s, events) == Apply(Apply(Apply(s, events[0]), events[1]), events[2])
  {
    hide Apply;
    assert events[1..] == [events[1], events[2]] && events[1..][1..] == [events[2]] && [events[2]][1..] == [];
    assert Execute(Apply(Apply(s, events[0]), events[1]), [events[2]]) ==
      Apply(Apply(Apply(s, events[0]), events[1]), events[2]);
    assert Execute(Apply(s, events[0]), events[1..]) == Execute(Apply(Apply(s, events[0]), events[1]), [events[2]]);
  }

  lemma NextRound(k: nat)
    requires k < INT32_MAX
    ensures Execute(RoundState(k, Pending), Round()) == RoundState(k + 1, Pending)
  {
    hide Apply, Execute, RoundState, CrashedState, AfterDequeue;
    RoundDequeues(k);
    RoundCrashes(k);
    RoundRecreates(k);
    ExecuteThree(RoundState(k, Pending), Round());
  }

  lemma {:induction false} RoundsReach(k: nat)
    requires k <= INT32_MAX
    ensures Execute(Initial(1, 0), Rounds(k)) == RoundState(k, Pending)
  {
    hide Execute, RoundState, Round;
    if k == 0 {
      FirstRound();
    } else {
      RoundsReach(k - 1);
      NextRound(k - 1);
      ExecuteAppend(Initial(1, 0), Rounds(k - 1), Round());
    }
  }

  /** The attempt after the last that fits: the row is marked running, no worker learns of it. */
  lemma LastRound()
    ensures Apply(RoundState(INT32_MAX, Pending), Dequeue(WorkerId("q", 0), "t", 0, false)).tasks ==
      RoundState(INT32_MAX + 1, Running).tasks
    ensures IsOrphan(Apply(RoundState(INT32_MAX, Pending), Dequeue(WorkerId("q", 0), "t", 0, false)), "t")
  {
    var s, e := RoundState(INT32_MAX, Pending), Dequeue(WorkerId("q", 0), "t", 0, false);
    assert IsNext(s.tasks, "q", 0, "t");
    assert Apply(s, e) == AfterDequeue(s, WorkerId("q", 0), "t", 0, false);
  }

  /** A run from an empty service, with one crash per attempt, that ends with the orphan. */
  lemma OverflowingAttemptIsOrphaned()
    ensures exists events :: IsOrphan(Execute(Initial(1, 0), events), "t")
  {
    var last := Dequeue(WorkerId("q", 0), "t", 0, false);
    var s := RoundState(INT32_MAX, Pending);
    RoundsReach(INT32_MAX);
    LastRound();
    assert Execute(s, [last]) == Apply(s, last);
    hide IsOrphan, Execute, Apply, RoundState, Rounds;
    ExecuteAppend(Initial(1, 0), Rounds(INT32_MAX), [last]);
    assert IsOrphan(Execute(Initial(1, 0), Rounds(INT32_MAX) + [last]), "t");
  }

  /** Running tasks never exceed the workers: not in one queue, not in all, and never the plugin's budget. */
  lemma RunningTasksFitBudget(maxConcurrency: int32, clock: int, events: seq<Event>)
    requires Execute(Initial(maxConcurrency, clock), events).phase.Live?
    ensures var s := Execute(Initial(maxConcurrency, clock), events);
      && |RunningTasks(s)| <= TotalConcurrency(s.queues) <= NonNegative(s.maxConcurrency)
      && forall q | q in s.queues ::
        |(set id | id in RunningTasks(s) && s.tasks[id].queue == q)| <= s.queues[q].concurrency
  {
    var s := Execute(Initial(maxConcurrency, clock), events);
    ReachableStatesKeepInv(maxConcurrency, clock, events);
    forall id | id in RunningTasks(s)
      ensures exists w :: w in WorkersOf(s, s.tasks[id].queue) && w in s.workers.Keys && HeldBy(s, w, id)
    {
      var w :| HeldBy(s, w, id);
      assert HoldsRunningRow(s, w);
      assert w in WorkersOf(s, s.tasks[id].queue);
    }
    HeldTasksFitWorkers(s, RunningTasks(s), s.workers.Keys);
    forall q | q in s.queues
      ensures |(set id | id in RunningTasks(s) && s.tasks[id].queue == q)| <= s.queues[q].concurrency
    {
      HeldTasksFitWorkers(s, (set id | id in RunningTasks(s) && s.tasks[id].queue == q), WorkersOf(s, q));
      WorkersOfQueue(s, q);
    }
  }

  // ---- Terminal statuses absorb ----

  /** The unguarded UPDATEs of completion and failure only ever hit a running row. */
  lemma UnguardedWritesHitRunningRows(s: State, w: WorkerId)
    requires Inv(s) && !s.phase.Closed? && w in s.workers && s.workers[w].Holding?
    ensures s.workers[w].id in s.tasks && s.tasks[s.workers[w].id].status.Running?
  {
    assert HoldsRunningRow(s, w);
  }

  /** The steps that a worker takes. */
  predicate IsWorkerStep(e: Event) {
    e.Dequeue? || e.AbortWait? || e.StartCallback? || e.CallbackReturned? || e.CompleteTask? || e.HandleFailure?
  }

  lemma WorkerStepKeepsTerminal(s: State, e: Event, id: TaskId)
    requires Inv(s) && IsWorkerStep(e)
    requires id in s.tasks && IsTerminal(s.tasks[id].status)
    ensures id in Apply(s, e).tasks && Apply(s, e).tasks[id] == s.tasks[id]
  {
    hide Inv;
    match e {
      case CompleteTask(w, _, written) => if Enabled(s, e) && written { UnguardedWritesHitRunningRows(s, w); }
      case HandleFailure(w, _, written) => if Enabled(s, e) && written { UnguardedWritesHitRunningRows(s, w); }
      case _ =>
    }
  }

  lemma OtherStepKeepsTerminal(s: State, e: Event, id: TaskId)
    requires id in s.history && !IsWorkerStep(e)
    requires id in s.tasks && IsTerminal(s.tasks[id].status)
    ensures id in Apply(s, e).tasks ==> Apply(s, e).tasks[id] == s.tasks[id]
    ensures id !in Apply(s, e).tasks ==>
      e.Cleanup? && e.queue in s.queues && Expired(s.tasks[id], e.queue, s.queues[e.queue].retentionMs, e.now)
  {
    if e.CreateQueue? {
      var _ := CreateOutcome(s, e.name, e.config);
    }
  }

  lemma StepKeepsTerminal(s: State, e: Event, id: TaskId)
    requires Inv(s)
    requires id in s.tasks && IsTerminal(s.tasks[id].status)
    ensures id in Apply(s, e).tasks ==> Apply(s, e).tasks[id] == s.tasks[id]
    ensures id !in Apply(s, e).tasks ==>
      e.Cleanup? && e.queue in s.queues && Expired(s.tasks[id], e.queue, s.queues[e.queue].retentionMs, e.now)
  {
    assert id in s.history;
    hide Inv, Apply, Expired, IsTerminal;
    if IsWorkerStep(e) {
      WorkerStepKeepsTerminal(s, e, id);
    } else {
      OtherStepKeepsTerminal(s, e, id);
    }
  }

  lemma StepKeepsDeleted(s: State, e: Event, id: TaskId)
    requires Inv(s) && id in s.history && id !in s.tasks
    ensures id !in Apply(s, e).tasks
  {
    hide Inv;
    match e {
      case CompleteTask(w, _, written) => if Enabled(s, e) && written { UnguardedWritesHitRunningRows(s, w); }
      case HandleFailure(w, _, written) => if Enabled(s, e) && written { UnguardedWritesHitRunningRows(s, w); }
      case CreateQueue(name, config, _) => var _ := CreateOutcome(s, name, config);
      case _ =>
    }
  }

  lemma StepKeepsHistory(s: State, e: Event)
    ensures s.history.Keys <= Apply(s, e).history.Keys
  {
    match e {
      case CreateQueue(name, config, _) => var _ := CreateOutcome(s, name, config);
      case _ =>
    }
  }

  lemma {:induction false} DeletedStaysDeleted(s: State, events: seq<Event>, id: TaskId)
    requires Inv(s) && id in s.history && id !in s.tasks
    ensures id !in Execute(s, events).tasks
    decreases |events|
  {
    if events != [] {
      StepKeepsInv(s, events[0]);
      StepKeepsDeleted(s, events[0], id);
      StepKeepsHistory(s, events[0]);
      DeletedStaysDeleted(Apply(s, events[0]), events[1..], id);
    }
  }

  /** Whatever happens after a task completed, failed or was cancelled: its row is as it was, or gone. */
  lemma {:induction false} TerminalIsAbsorbing(s: State, events: seq<Event>, id: TaskId)
    requires Inv(s)
    requires id in s.tasks && IsTerminal(s.tasks[id].status)
    ensures id in Execute(s, events).tasks ==> Execute(s, events).tasks[id] == s.tasks[id]
    decreases |events|
  {
    if events != [] {
      hide Inv;
      var t := Apply(s, events[0]);
      StepKeepsInv(s, events[0]);
      StepKeepsTerminal(s, events[0], id);
      StepKeepsHistory(s, events[0]);
      if id in t.tasks {
        TerminalIsAbsorbing(t, events[1..], id);
      } else {
        DeletedStaysDeleted(t, events[1..], id);
      }
    }
  }

  // ---- What was asked for ----

  /** The queue, payload, retries and creation time of a task are never changed. */
  predicate SameRequest(a: Task, b: Task) {
    a.queue == b.queue && a.payload == b.payload && a.maxRetries == b.maxRetries && a.createdAt == b.createdAt
  }

  lemma SameRequestTwice(a: Task, b: Task, c: Task)
    requires SameRequest(a, b) && SameRequest(b, c)
    ensures SameRequest(a, c)
  {
  }

  lemma HasHistory(s: State, id: TaskId)
    requires Inv(s) && id in s.tasks
    ensures id in s.history
  {
  }

  lemma WorkerStepKeepsRequest(s: State, e: Event, id: TaskId)
    requires IsWorkerStep(e) && id in s.tasks && id in Apply(s, e).tasks
    ensures SameRequest(s.tasks[id], Apply(s, e).tasks[id])
  {
    hide Backoff.Delay, IsNext;
  }

  lemma StepKeepsRequest(s: State, e: Event, id: TaskId)
    requires Inv(s) && id in s.tasks && id in Apply(s, e).tasks
    ensures SameRequest(s.tasks[id], Apply(s, e).tasks[id])
  {
    hide Inv, SameRequest;
    HasHistory(s, id);
    if IsWorkerStep(e) {
      WorkerStepKeepsRequest(s, e, id);
    } else {
      OtherStepKeepsRequest(s, e, id);
    }
  }

  lemma OtherStepKeepsRequest(s: State, e: Event, id: TaskId)
    requires !IsWorkerStep(e) && id in s.history && id in s.tasks && id in Apply(s, e).tasks
    ensures SameRequest(s.tasks[id], Apply(s, e).tasks[id])
  {
    hide AfterDequeue, AfterRevert, AfterComplete, AfterFailure, ApplyConfigDefaults;
    if e.CreateQueue? {
      var _ := CreateOutcome(s, e.name, e.config);
    }
  }

  lemma {:induction false} RunKeepsRequest(s: State, events: seq<Event>, id: TaskId)
    requires Inv(s) && id in s.tasks && id in Execute(s, events).tasks
    ensures SameRequest(s.tasks[id], Execute(s, events).tasks[id])
    decreases |events|
  {
    if events != [] {
      var t := Apply(s, events[0]);
      hide Inv, Apply, SameRequest;
      HasHistory(s, id);
      StepKeepsInv(s, events[0]);
      StepKeepsHistory(s, events[0]);
      if id !in t.tasks {
        DeletedStaysDeleted(t, events[1..], id);
      }
      StepKeepsRequest(s, events[0], id);
      RunKeepsRequest(t, events[1..], id);
      SameRequestTwice(s.tasks[id], t.tasks[id], Execute(s, events).tasks[id]);
    }
  }

  // ---- Retention ----

  /** The retention of a queue never drops below `floor`, neither now nor when the queue is re-created. */
  ghost predicate RetentionFloor(s: State, events: seq<Event>, queue: string, floor: int) {
    && (queue in s.queues ==> s.queues[queue].retentionMs >= floor)
    && forall i | 0 <= i < |events| && events[i].CreateQueue? && events[i].name == queue ::
         ApplyConfigDefaults(events[i].config).retentionMs >= floor
  }

  lemma StepKeepsQueueFloor(s: State, e: Event, queue: string, floor: int)
    requires queue in s.queues ==> s.queues[queue].retentionMs >= floor
    requires e.CreateQueue? && e.name == queue ==> ApplyConfigDefaults(e.config).retentionMs >= floor
    ensures queue in Apply(s, e).queues ==> Apply(s, e).queues[queue].retentionMs >= floor
  {
    hide ApplyConfigDefaults, AfterDequeue, AfterRevert, AfterComplete, AfterFailure;
    match e {
      case CreateQueue(name, config, _) => var _ := CreateOutcome(s, name, config);
      case Dequeue(w, _, _, _) => WorkerStepKeepsQueues(s, e);
      case AbortWait(w, _) => WorkerStepKeepsQueues(s, e);
      case CallbackReturned(w, _, _) => WorkerStepKeepsQueues(s, e);
      case CompleteTask(w, _, _) => WorkerStepKeepsQueues(s, e);
      case HandleFailure(w, _, _) => WorkerStepKeepsQueues(s, e);
      case _ =>
    }
  }

  lemma WorkerStepKeepsQueues(s: State, e: Event)
    requires IsWorkerStep(e)
    ensures Apply(s, e).queues == s.queues
  {
  }

  lemma StepKeepsRetentionFloor(s: State, events: seq<Event>, queue: string, floor: int)
    requires events != [] && RetentionFloor(s, events, queue, floor)
    ensures RetentionFloor(Apply(s, events[0]), events[1..], queue, floor)
  {
    hide Apply, ApplyConfigDefaults;
    var rest := events[1..];
    assert forall i | 0 <= i < |rest| :: rest[i] == events[i + 1];
    StepKeepsQueueFloor(s, events[0], queue, floor);
  }

  lemma StepAdvancesClock(s: State, e: Event)
    ensures Apply(s, e).clock >= s.clock
  {
    match e {
      case CreateQueue(name, config, _) => var _ := CreateOutcome(s, name, config);
      case _ =>
    }
  }

  lemma {:induction false} RunAdvancesClock(s: State, events: seq<Event>)
    ensures Execute(s, events).clock >= s.clock
    decreases |events|
  {
    if events != [] {
      StepAdvancesClock(s, events[0]);
      RunAdvancesClock(Apply(s, events[0]), events[1..]);
    }
  }

  /**
   * A finished task stays readable, unchanged, until the clock has passed the reading its last
   * transition took by more than the retention, across crashes and re-creation of its queue.
   */
  lemma {:induction false} FinishedTaskIsRetained(s: State, events: seq<Event>, id: TaskId, floor: int)
    requires Inv(s)
    requires id in s.tasks && IsTerminal(s.tasks[id].status)
    requires RetentionFloor(s, events, s.tasks[id].queue, floor)
    requires Execute(s, events).clock <= s.tasks[id].updatedAt + floor
    ensures id in Execute(s, events).tasks && Execute(s, events).tasks[id] == s.tasks[id]
    decreases |events|
  {
    if events != [] {
      hide Inv;
      var t := Apply(s, events[0]);
      StepKeepsInv(s, events[0]);
      StepKeepsTerminal(s, events[0], id);
      StepAdvancesClock(s, events[0]);
      RunAdvancesClock(t, events[1..]);
      StepKeepsRetentionFloor(s, events, s.tasks[id].queue, floor);
      assert id in t.tasks;
      FinishedTaskIsRetained(t, events[1..], id, floor);
    }
  }

  lemma ClampedRetention(config: QueueConfig)
    ensures 60_000 <= ApplyConfigDefaults(config).retentionMs <= 604_800_000
    ensures MIN_RETENTION_MS <= config.retentionMs <= MAX_RETENTION_MS ==>
      ApplyConfigDefaults(config).retentionMs == config.retentionMs
    ensures ApplyConfigDefaults(ApplyConfigDefaults(config)) == ApplyConfigDefaults(config)
  {
  }

  /** Without looking at any configuration: one minute is always granted. */
  lemma FinishedTaskIsRetainedAMinute(s: State, events: seq<Event>, id: TaskId)
    requires Inv(s)
    requires id in s.tasks && IsTerminal(s.tasks[id].status)
    requires Execute(s, events).clock <= s.tasks[id].updatedAt + 60_000
    ensures id in Execute(s, events).tasks && Execute(s, events).tasks[id] == s.tasks[id]
  {
    forall i | 0 <= i < |events| && events[i].CreateQueue?
      ensures ApplyConfigDefaults(events[i].config).retentionMs >= 60_000
    {
      ClampedRetention(events[i].config);
    }
    FinishedTaskIsRetained(s, events, id, 60_000);
  }

  // ---- Attempts ----

  /** A crash, or the reset that ends a shutdown. */
  function Interruption(e: Event): nat {
    if e.Crash? || e.FinishClose? then 1 else 0
  }

  function Interruptions(events: seq<Event>): nat {
    if events == [] then 0 else Interruption(events[0]) + Interruptions(events[1..])
  }

  /** A row left running by a crash will be reset once more when its queue comes back. */
  ghost function AwaitsReset(s: State, id: TaskId): nat {
    if id in s.tasks && s.tasks[id].status.Running? && s.tasks[id].queue !in s.queues then 1 else 0
  }

  ghost predicate ResetsWithin(s: State, bound: nat) {
    forall id | id in s.history :: s.history[id].resets + AwaitsReset(s, id) <= bound
  }

  lemma CreateQueueCountsResets(s: State, e: Event, id: TaskId)
    requires Inv(s) && e.CreateQueue? && id in s.history
    ensures id in Apply(s, e).history
    ensures Apply(s, e).history[id].resets + AwaitsReset(Apply(s, e), id) <= s.history[id].resets + AwaitsReset(s, id)
  {
    hide Inv, ApplyConfigDefaults, ClampConcurrency, NewWorkers;
    match CreateOutcome(s, e.name, e.config)
    case Rejected(_) =>
    case Created(clamped) =>
      assert e.name !in s.queues;
  }

  lemma QueueOfWorker(s: State, w: WorkerId)
    requires Inv(s) && w in s.workers
    ensures w.queue in s.queues && QuietWhenClosed(s)
  {
  }

  lemma WorkerStepCountsResets(s: State, e: Event, id: TaskId)
    requires Inv(s) && (e.Dequeue? || e.AbortWait? || e.CallbackReturned? || e.CompleteTask? || e.HandleFailure?)
    requires id in s.history && id in Apply(s, e).history
    ensures Apply(s, e).history[id].resets + AwaitsReset(Apply(s, e), id) <= s.history[id].resets + AwaitsReset(s, id)
  {
    hide Inv;
    if Enabled(s, e) {
      QueueOfWorker(s, e.worker);
      if !e.Dequeue? && !s.phase.Closed? {
        HeldRowAgrees(s, e.worker);
      }
    }
  }

  lemma StepCountsResets(s: State, e: Event, id: TaskId)
    requires Inv(s) && id in s.history && id in Apply(s, e).history
    ensures Apply(s, e).history[id].resets + AwaitsReset(Apply(s, e), id)
            <= s.history[id].resets + AwaitsReset(s, id) + Interruption(e)
  {
    if e.CreateQueue? {
      CreateQueueCountsResets(s, e, id);
    } else if e.Dequeue? || e.AbortWait? || e.CallbackReturned? || e.CompleteTask? || e.HandleFailure? {
      WorkerStepCountsResets(s, e, id);
    }
  }

  lemma NewTasksAwaitNothing(s: State, e: Event, id: TaskId)
    requires Inv(s) && id !in s.history && id in Apply(s, e).history
    ensures Apply(s, e).history[id].resets == 0 && AwaitsReset(Apply(s, e), id) == 0
  {
    hide Inv;
    match e {
      case CreateQueue(name, config, _) => var _ := CreateOutcome(s, name, config);
      case _ =>
    }
  }

  lemma StepKeepsResetsWithin(s: State, e: Event, bound: nat)
    requires Inv(s) && ResetsWithin(s, bound)
    ensures ResetsWithin(Apply(s, e), bound + Interruption(e))
  {
    var t := Apply(s, e);
    forall id | id in t.history
      ensures t.history[id].resets + AwaitsReset(t, id) <= bound + Interruption(e)
    {
      if id in s.history {
        StepCountsResets(s, e, id);
      } else {
        NewTasksAwaitNothing(s, e, id);
      }
    }
  }

  lemma {:induction false} RunKeepsResetsWithin(s: State, events: seq<Event>, bound: nat)
    requires Inv(s) && ResetsWithin(s, bound)
    ensures ResetsWithin(Execute(s, events), bound + Interruptions(events))
    decreases |events|
  {
    if events != [] {
      StepKeepsInv(s, events[0]);
      StepKeepsResetsWithin(s, events[0], bound);
      RunKeepsResetsWithin(Apply(s, events[0]), events[1..], bound + Interruption(events[0]));
    }
  }

  /**
   * The attempt counter is dequeues minus effective reverts, in every reachable state, and exceeds
   * the allowed retries by at most one plus the number of crashes and shutdowns.
   */
  lemma AttemptsAreBounded(maxConcurrency: int32, clock: int, events: seq<Event>, id: TaskId)
    requires id in Execute(Initial(maxConcurrency, clock), events).tasks
    ensures var s := Execute(Initial(maxConcurrency, clock), events);
      && id in s.history
      && s.tasks[id].attempt == s.history[id].dequeues - s.history[id].reverts
      && s.tasks[id].attempt <= NonNegative(s.tasks[id].maxRetries) + 1 + Interruptions(events)
  {
    ReachableStatesKeepInv(maxConcurrency, clock, events);
    RunKeepsResetsWithin(Initial(maxConcurrency, clock), events, 0);
    var s := Execute(Initial(maxConcurrency, clock), events);
    assert Accounted(s.tasks[id], s.history[id]);
    assert s.history[id].resets + AwaitsReset(s, id) <= Interruptions(events);
  }

  /** A revert finds a running row with a counted attempt, so its floor of zero never matters. */
  lemma RevertNeverClips(s: State, w: WorkerId, now: int)
    requires Inv(s) && !s.phase.Closed? && w in s.workers && s.workers[w].Holding?
    ensures var id := s.workers[w].id;
      id in s.tasks && RevertTask(s.tasks[id], now).attempt == s.tasks[id].attempt - 1
  {
    assert HoldsRunningRow(s, w);
  }

  /**
   * Invocations that were neither reverted nor lost to a crash use up the retries: after
   * max(maxRetries, 0) + 1 of them a task that is not running has finished.
   */
  lemma RetriesRunOut(s: State, id: TaskId)
    requires Inv(s) && id in s.tasks
    ensures var h := s.history[id];
      var invocations := h.dequeues - h.reverts - h.resets;
      && 0 <= invocations <= NonNegative(s.tasks[id].maxRetries) + 1
      && (invocations == NonNegative(s.tasks[id].maxRetries) + 1 && !s.tasks[id].status.Running? ==>
          IsTerminal(s.tasks[id].status))
  {
    assert Accounted(s.tasks[id], s.history[id]);
  }

  // ---- Backoff ----

  /** The steps that dequeue a given task. */
  predicate Dequeues(e: Event, id: TaskId) {
    e.Dequeue? && e.id == id
  }

  /** The k-th step of a run is one the service could take at that point. */
  ghost predicate Happens(s: State, events: seq<Event>, k: nat)
    requires k < |events|
  {
    Enabled(Execute(s, events[..k]), events[k])
  }

  /** Parked until `readyAt`: not running, and due no earlier should it still be pending; or deleted. */
  predicate ParkedUntil(s: State, id: TaskId, readyAt: int) {
    id in s.history && (id in s.tasks ==> !s.tasks[id].status.Running? && s.tasks[id].nextRunAt == readyAt)
  }

  /** No write of a completion or failure reaches a task that is not running. */
  lemma ParkedTaskIsNotHeld(s: State, w: WorkerId, id: TaskId, readyAt: int)
    requires Inv(s) && ParkedUntil(s, id, readyAt) && !s.phase.Closed?
    requires w in s.workers && s.workers[w].Holding?
    ensures s.workers[w].id != id
  {
    UnguardedWritesHitRunningRows(s, w);
  }

  lemma WorkerStepKeepsParked(s: State, e: Event, id: TaskId, readyAt: int)
    requires Inv(s) && ParkedUntil(s, id, readyAt)
    requires e.AbortWait? || e.StartCallback? || e.CallbackReturned? || e.CompleteTask? || e.HandleFailure?
    ensures ParkedUntil(Apply(s, e), id, readyAt)
  {
    if Enabled(s, e) && !s.phase.Closed? {
      ParkedTaskIsNotHeld(s, e.worker, id, readyAt);
    }
  }

  lemma CreateQueueKeepsParked(s: State, e: Event, id: TaskId, readyAt: int)
    requires ParkedUntil(s, id, readyAt) && e.CreateQueue?
    ensures ParkedUntil(Apply(s, e), id, readyAt)
  {
    if Enabled(s, e) {
      match CreateOutcome(s, e.name, e.config)
      case Rejected(_) =>
      case Created(clamped) =>
    }
  }

  lemma StepKeepsParked(s: State, e: Event, id: TaskId, readyAt: int)
    requires Inv(s) && ParkedUntil(s, id, readyAt) && !Dequeues(e, id)
    ensures ParkedUntil(Apply(s, e), id, readyAt)
  {
    if e.AbortWait? || e.StartCallback? || e.CallbackReturned? || e.CompleteTask? || e.HandleFailure? {
      WorkerStepKeepsParked(s, e, id, readyAt);
    } else if e.CreateQueue? {
      CreateQueueKeepsParked(s, e, id, readyAt);
    }
  }

  lemma DequeuedTaskIsDue(s: State, e: Event, id: TaskId)
    requires Dequeues(e, id) && Enabled(s, e)
    ensures id in s.tasks && s.tasks[id].nextRunAt <= e.now
  {
  }

  lemma {:induction false} FirstDequeueIsDue(s: State, events: seq<Event>, k: nat, id: TaskId, readyAt: int)
    requires Inv(s) && ParkedUntil(s, id, readyAt)
    requires k < |events| && Dequeues(events[k], id) && Happens(s, events, k)
    requires forall i | 0 <= i < k :: !Dequeues(events[i], id)
    ensures readyAt <= events[k].now
    decreases k
  {
    if k > 0 {
      StepKeepsInv(s, events[0]);
      StepKeepsParked(s, events[0], id, readyAt);
      var t, rest := Apply(s, events[0]), events[1..];
      assert rest[k - 1] == events[k] && rest[..k - 1] == events[..k][1..];
      FirstDequeueIsDue(t, rest, k - 1, id, readyAt);
    } else {
      assert Execute(s, events[..0]) == s;
      DequeuedTaskIsDue(s, events[0], id);
    }
  }

  /** A worker about to record a failure that leaves its task retries. */
  predicate Retries(s: State, w: WorkerId, now: int) {
    Enabled(s, HandleFailure(w, now, true)) && s.workers[w].attempt <= s.workers[w].maxRetries
  }

  function RetriedId(s: State, w: WorkerId, now: int): TaskId
    requires Retries(s, w, now)
  {
    s.workers[w].id
  }

  function RetryAt(s: State, w: WorkerId, now: int): int
    requires Retries(s, w, now)
  {
    now + Backoff.Delay(s.queues[w.queue].backoffMs, s.workers[w].attempt)
  }

  function PromisedRetryAt(s: State, w: WorkerId, now: int): int
    requires Retries(s, w, now)
  {
    now + Backoff.PromisedDelay(s.queues[w.queue].backoffMs, s.workers[w].attempt)
  }

  lemma RetryIsLater(s: State, w: WorkerId, now: int)
    requires Inv(s) && Retries(s, w, now)
    ensures RetryAt(s, w, now) > now
    ensures s.queues[w.queue].backoffMs <= Backoff.Pow2(43) ==> RetryAt(s, w, now) == PromisedRetryAt(s, w, now)
  {
    var base, attempt := s.queues[w.queue].backoffMs, s.workers[w].attempt;
    assert attempt >= 1 && base >= 1;
    hide Inv, Enabled, Backoff.Delay, Backoff.PromisedDelay;
    Backoff.DelayInRange(base, attempt);
    if base <= Backoff.Pow2(43) {
      Backoff.DelayIsPromised(base, attempt);
    }
  }

  /** A failure that leaves retries parks its row until the backoff has passed. */
  lemma FailureParks(s: State, w: WorkerId, now: int)
    requires Inv(s) && Retries(s, w, now)
    ensures ParkedUntil(Apply(s, HandleFailure(w, now, true)), RetriedId(s, w, now), RetryAt(s, w, now))
  {
    UnguardedWritesHitRunningRows(s, w);
  }

  /** The k-th step of a run is the first that dequeues a given task. */
  ghost predicate NextDequeue(s: State, events: seq<Event>, k: nat, id: TaskId) {
    && k < |events| && Dequeues(events[k], id) && Happens(s, events, k)
    && forall i | 0 <= i < k :: !Dequeues(events[i], id)
  }

  /**
   * A failed attempt that is to be retried waits: whatever happens in between, the next dequeue of
   * the task reads a clock at least the promised backoff after the failure.
   */
  lemma RetryWaitsForBackoff(s: State, w: WorkerId, now: int, events: seq<Event>, k: nat)
    requires Inv(s) && Retries(s, w, now)
    requires NextDequeue(Apply(s, HandleFailure(w, now, true)), events, k, RetriedId(s, w, now))
    ensures events[k].now >= RetryAt(s, w, now) > now
    ensures s.queues[w.queue].backoffMs <= Backoff.Pow2(43) ==> events[k].now >= PromisedRetryAt(s, w, now)
  {
    hide Inv, Apply, ParkedUntil, Happens, RetryAt, PromisedRetryAt, RetriedId, Enabled;
    RetryIsLater(s, w, now);
    FailureParks(s, w, now);
    StepKeepsInv(s, HandleFailure(w, now, true));
    FirstDequeueIsDue(Apply(s, HandleFailure(w, now, true)), events, k, RetriedId(s, w, now), RetryAt(s, w, now));
  }

  // ---- Recovery ----

  /** The queue runs with idle workers, and each of its stale rows is pending again with its attempt spent. */
  ghost predicate Recovered(s: State, t: State, name: string, now: int) {
    && name in t.queues && (forall w | w in WorkersOf(t, name) :: t.workers[w].Idle?)
    && |WorkersOf(t, name)| == t.queues[name].concurrency >= 1
    && t.tasks.Keys == s.tasks.Keys
    && forall id | id in s.tasks ::
         t.tasks[id] == if s.tasks[id].queue == name && s.tasks[id].status.Running?
                        then s.tasks[id].(status := Pending, updatedAt := now) else s.tasks[id]
  }

  lemma NewWorkersAreIdle(name: string, count: int)
    ensures forall w | w in NewWorkers(name, count) :: NewWorkers(name, count)[w].Idle?
  {
  }

  lemma FirstQueueRecovers(s: State, crashed: State, name: string, clamped: QueueConfig, now: int)
    requires crashed.tasks == s.tasks && crashed.queues == map[] && crashed.workers == map[] && clamped.concurrency >= 1
    ensures Recovered(s, WithNewQueue(crashed, name, clamped, now), name, now)
  {
    var t := WithNewQueue(crashed, name, clamped, now);
    var started := NewWorkers(name, clamped.concurrency);
    assert t.workers == started && t.queues == map[name := clamped];
    NewWorkersCount(name, clamped.concurrency);
    NewWorkersAreIdle(name, clamped.concurrency);
    hide NewWorkers, RecordResets;
    assert WorkersOf(t, name) == started.Keys;
  }

  /**
   * After a crash, creating a queue of valid name succeeds whenever the plugin may run anything at
   * all, and recovers that queue.
   */
  lemma CrashIsRecovered(s: State, name: string, config: QueueConfig, now: int)
    requires now <= s.clock && 0 < |name| <= MAX_QUEUE_NAME_LENGTH && s.maxConcurrency >= 1
    ensures Recovered(s, Apply(Apply(s, Crash), CreateQueue(name, config, now)), name, now)
  {
    hide Apply, WithNewQueue, Recovered;
    var clamped := CreateAfterCrash(s, name, config, now);
    FirstQueueRecovers(s, Apply(s, Crash), name, clamped, now);
  }

  /** The two steps of a restart: nothing but the table survives, and the first queue gets its share. */
  lemma CreateAfterCrash(s: State, name: string, config: QueueConfig, now: int) returns (clamped: QueueConfig)
    requires now <= s.clock && 0 < |name| <= MAX_QUEUE_NAME_LENGTH && s.maxConcurrency >= 1
    ensures Apply(s, Crash) == s.(phase := Live, queues := map[], workers := map[])
    ensures clamped.concurrency >= 1
    ensures Apply(Apply(s, Crash), CreateQueue(name, config, now)) == WithNewQueue(Apply(s, Crash), name, clamped, now)
  {
    var crashed := Apply(s, Crash);
    assert TotalConcurrency(map[]) == 0;
    assert CreateOutcome(crashed, name, config).Created?;
    clamped := CreateOutcome(crashed, name, config).config;
  }
}
