/**
 The service object. Each method is proved to take the steps of the state machine that the
 invariants and the theorems about runs speak of. `now` stands for a reading of the clock.
 */
module TaskQueueService {
  import opened TaskQueueModel
  import opened TaskQueueInvariant
  import opened TaskQueueRuns
  import Backoff

  datatype EnqueueResult = Enqueued(id: TaskId) | NoSuchQueue | PayloadTooLarge

  datatype CancelResult = WasCancelled | NotFound | NotCancellable(status: Status)

  /** When, if at all, shutdown begins while a task is processed. */
  datatype Shutdown = NoShutdown | BeforeCallback | DuringCallback

  datatype TaskInfo = TaskInfo(status: Status, message: string, attempt: int)

  /** One more step at the end of a run. */
  lemma {:induction false} RunThenStep(s: State, events: seq<Event>, e: Event)
    ensures Execute(s, events + [e]) == Apply(Execute(s, events), e)
    decreases |events|
  {
    if events == [] {
      assert [] + [e] == [e] && [e][1..] == [];
      assert Execute(Apply(s, e), []) == Apply(s, e);
    } else {
      assert (events + [e])[1..] == events[1..] + [e];
      RunThenStep(Apply(s, events[0]), events[1..], e);
    }
  }

  /** Among finitely many eligible tasks one is due first. */
  lemma {:induction false} SomeTaskIsNext(tasks: map<TaskId, Task>, queue: string, now: int, among: set<TaskId>)
    returns (first: TaskId)
    requires among != {}
    requires forall id | id in among :: id in tasks && Eligible(tasks[id], queue, now)
    ensures first in among
    ensures forall id | id in among :: RunsBefore(tasks[first], tasks[id])
    decreases among
  {
    first :| first in among;
    var rest := among - {first};
    if rest != {} {
      var best := SomeTaskIsNext(tasks, queue, now, rest);
      if !RunsBefore(tasks[first], tasks[best]) {
        first := best;
      }
    }
  }

  lemma PartialTotals(queues: map<string, QueueConfig>, rest: set<string>, name: string)
    requires rest <= queues.Keys && name in rest
    requires forall q | q in queues :: queues[q].concurrency >= 1
    ensures TotalConcurrency(queues - rest) + queues[name].concurrency == TotalConcurrency(queues - (rest - {name}))
    ensures TotalConcurrency(queues - (rest - {name})) <= TotalConcurrency(queues)
  {
    TotalWithout(queues - (rest - {name}), name);
    assert (queues - (rest - {name})) - {name} == queues - rest;
    TotalOfPart(queues, rest - {name});
  }

  lemma {:induction false} TotalOfPart(queues: map<string, QueueConfig>, removed: set<string>)
    requires forall q | q in queues :: queues[q].concurrency >= 1
    ensures TotalConcurrency(queues - removed) <= TotalConcurrency(queues)
    decreases removed
  {
    if removed == {} {
      assert queues - removed == queues;
    } else {
      var name :| name in removed;
      var fewer := queues - {name};
      if name in queues {
        TotalWithout(queues, name);
      } else {
        assert fewer == queues;
      }
      TotalOfPart(fewer, removed - {name});
      assert fewer - (removed - {name}) == queues - removed;
    }
  }

  lemma HeldRowExists(s: State, w: WorkerId)
    requires Inv(s) && !s.phase.Closed? && w in s.workers && s.workers[w].Holding?
    ensures s.workers[w].id in s.tasks && s.workers[w].id in s.history
    ensures w.queue in s.queues && s.workers[w].attempt >= 1
    ensures s.tasks[s.workers[w].id].status.Running? && s.tasks[s.workers[w].id].attempt >= 1
  {
    assert HoldsRunningRow(s, w);
  }

  predicate HasOutcome(s: State, w: WorkerId, now: int) {
    now <= s.clock && s.phase.Live? && w in s.workers && s.workers[w].Holding? && s.workers[w].stage.Returned?
  }

  lemma CompleteStep(s: State, w: WorkerId, now: int)
    requires Inv(s) && HasOutcome(s, w, now) && s.workers[w].stage.outcome.Success?
    ensures Apply(s, CompleteTask(w, now, true)) == AfterComplete(s, w, now, true)
    ensures Inv(AfterComplete(s, w, now, true))
  {
    StepKeepsInv(s, CompleteTask(w, now, true));
  }

  lemma FailureStep(s: State, w: WorkerId, now: int)
    requires Inv(s) && HasOutcome(s, w, now) && s.workers[w].stage.outcome.Error?
    ensures w.queue in s.queues && s.workers[w].attempt >= 1
    ensures Apply(s, HandleFailure(w, now, true)) == AfterFailure(s, w, now, true) && Inv(AfterFailure(s, w, now, true))
  {
    HeldRowExists(s, w);
    StepKeepsInv(s, HandleFailure(w, now, true));
  }

  /**
   * What a caller gets of the configuration asked for, when `available` workers are left: everything
   * as it is, except that missing values are filled in and excessive ones cut back.
   */
  predicate Honours(granted: QueueConfig, asked: QueueConfig, available: int) {
    && granted.maxRetries == asked.maxRetries && granted.delayMs == asked.delayMs
    && (asked.backoffMs >= 1 ==> granted.backoffMs == asked.backoffMs)
    && (asked.backoffMs <= 0 ==> granted.backoffMs == 1000)
    && (1 <= asked.concurrency <= available ==> granted.concurrency == asked.concurrency)
    && (asked.concurrency > available ==> granted.concurrency == available)
    && (asked.concurrency <= 0 ==> granted.concurrency == 1)
    && (60_000 <= asked.retentionMs <= 604_800_000 ==> granted.retentionMs == asked.retentionMs)
    && (asked.retentionMs > 604_800_000 ==> granted.retentionMs == 604_800_000)
    && (1 <= asked.retentionMs < 60_000 ==> granted.retentionMs == 60_000)
    && (asked.retentionMs <= 0 ==> granted.retentionMs == 3_600_000)
  }

  lemma NewNames(s: State, name: string, count: int)
    requires Inv(s) && name !in s.queues
    ensures forall w | w in s.workers :: w !in NewWorkers(name, count)
    ensures forall w :: w in NewWorkers(name, count) <==> w.queue == name && 0 <= w.index < count
    ensures forall w | w in NewWorkers(name, count) :: NewWorkers(name, count)[w].Idle?
  {
    assert forall w: WorkerId :: w.queue == name && 0 <= w.index < count ==> w == WorkerId(name, w.index);
  }

  lemma NoWorkersYet(workers: map<WorkerId, Activity>, name: string, count: int)
    ensures workers + NewWorkers(name, 0) == workers
    ensures count <= 0 ==> workers + NewWorkers(name, count) == workers
  {
    assert NewWorkers(name, 0).Keys == {};
    assert count <= 0 ==> NewWorkers(name, count).Keys == {};
  }

  lemma OneMoreWorker(workers: map<WorkerId, Activity>, name: string, i: nat)
    ensures workers + NewWorkers(name, i + 1) == (workers + NewWorkers(name, i))[WorkerId(name, i) := Idle]
  {
  }

  lemma StageSteps(s: State, w: WorkerId, outcome: Outcome, now: int)
    requires now <= s.clock && w in s.workers && s.workers[w].Holding?
    ensures s.workers[w].stage.RateLimited? ==>
      Apply(s, StartCallback(w)) == s.(workers := s.workers[w := s.workers[w].(stage := InCallback)])
    ensures s.phase.Live? && s.workers[w].stage.InCallback? ==>
      Apply(s, CallbackReturned(w, outcome, now)) ==
        s.(workers := s.workers[w := s.workers[w].(stage := Returned(outcome))])
  {
  }

  /** Once shutdown has begun, neither the wait nor the callback leads on to an outcome. */
  lemma RevertSteps(s: State, w: WorkerId, outcome: Outcome, now: int)
    requires !s.phase.Live? && now <= s.clock && w in s.workers && s.workers[w].Holding? && w.queue in s.queues
    ensures s.workers[w].stage.RateLimited? && s.queues[w.queue].delayMs > 0 ==>
      Apply(s, AbortWait(w, now)) == AfterRevert(s, w, now)
    ensures s.workers[w].stage.InCallback? ==> Apply(s, CallbackReturned(w, outcome, now)) == AfterRevert(s, w, now)
  {
  }

  lemma CleanupStep(s: State, queue: string, now: int)
    requires now <= s.clock && !s.phase.Closed? && queue in s.queues
    ensures Apply(s, Cleanup(queue, now)) ==
      s.(tasks := DeleteExpired(s.tasks, queue, s.queues[queue].retentionMs, now))
  {
  }

  lemma BeginCloseStep(s: State)
    requires Inv(s) && s.phase.Live?
    ensures Apply(s, BeginClose) == s.(phase := Stopping) && Inv(s.(phase := Stopping))
  {
    hide Inv;
    StepKeepsInv(s, BeginClose);
  }

  lemma FinishCloseStep(s: State, now: int)
    requires Inv(s) && now <= s.clock && s.phase.Stopping?
    ensures Inv(Apply(s, FinishClose(now)))
    ensures Apply(s, FinishClose(now)) ==
      s.(phase := Closed, tasks := ResetRunning(s.tasks, None, now), history := RecordResets(s.history, s.tasks, None))
  {
    StepKeepsInv(s, FinishClose(now));
    assert Enabled(s, FinishClose(now));
  }

  lemma RunOfTwo(s: State, first: Event, second: Event)
    ensures Execute(s, [first, second]) == Apply(Apply(s, first), second)
  {
    assert [first, second][1..] == [second] && [second][1..] == [];
    assert Execute(Apply(s, first), [second]) == Execute(Apply(Apply(s, first), second), []);
  }

  /** The rows that a cleanup of the named queues leaves in place. */
  function Retained(rows: map<TaskId, Task>, queues: map<string, QueueConfig>,
      names: set<string>, now: int): map<TaskId, Task>
    requires names <= queues.Keys
  {
    map id | id in rows
      && !(rows[id].queue in names && Expired(rows[id], rows[id].queue, queues[rows[id].queue].retentionMs, now)) ::
      rows[id]
  }

  lemma RetainedAfterOneMore(rows: map<TaskId, Task>, queues: map<string, QueueConfig>,
      names: set<string>, name: string, now: int)
    requires names <= queues.Keys && name in queues
    ensures DeleteExpired(Retained(rows, queues, names, now), name, queues[name].retentionMs, now) ==
      Retained(rows, queues, names + {name}, now)
  {
  }

  function PendingIn(tasks: map<TaskId, Task>, queue: string): set<TaskId> {
    set id | id in tasks && tasks[id].queue == queue && tasks[id].status.Pending?
  }

  /** Exactly the pending tasks of the queue change, and all they change is their status and stamp. */
  lemma ClearingTouchesPendingOnly(tasks: map<TaskId, Task>, queue: string, now: int)
    ensures CancelPending(tasks, queue, now).Keys == tasks.Keys
    ensures forall id | id in PendingIn(tasks, queue) ::
              CancelPending(tasks, queue, now)[id] == tasks[id].(status := Cancelled, updatedAt := now)
    ensures forall id | id in tasks && id !in PendingIn(tasks, queue) ::
      CancelPending(tasks, queue, now)[id] == tasks[id]
  {
  }

  /** What RETURNING hands to the worker: nothing if the new attempt number does not scan into an int32. */
  function Received(id: TaskId, task: Task): Activity {
    if task.attempt < INT32_MAX then Holding(id, task.attempt + 1, task.maxRetries, RateLimited) else Idle
  }

  lemma DequeueStep(s: State, w: WorkerId, id: TaskId, now: int)
    requires Inv(s) && now <= s.clock && s.phase.Live? && w in s.workers
    requires s.workers[w].Idle? && IsNext(s.tasks, w.queue, now, id)
    ensures id in s.history
    ensures Inv(Apply(s, Dequeue(w, id, now, s.tasks[id].attempt < INT32_MAX)))
    ensures Apply(s, Dequeue(w, id, now, s.tasks[id].attempt < INT32_MAX)) ==
      s.(tasks := s.tasks[id := s.tasks[id].(status := Running, attempt := s.tasks[id].attempt + 1, updatedAt := now)],
         workers := s.workers[w := Received(id, s.tasks[id])],
         history := s.history[id := s.history[id].(dequeues := s.history[id].dequeues + 1)])
  {
    var e := Dequeue(w, id, now, s.tasks[id].attempt < INT32_MAX);
    StepKeepsInv(s, e);
    assert Enabled(s, e);
    assert s.workers[w := Idle] == s.workers;
  }

  /** No pending task of the queue has reached its time. */
  predicate NothingDue(tasks: map<TaskId, Task>, queue: string, now: int) {
    forall t | t in tasks && tasks[t].queue == queue && tasks[t].status.Pending? :: now < tasks[t].nextRunAt
  }

  /** A pending task of the queue that has: none such was due earlier, or due at once and created earlier. */
  predicate DueFirst(tasks: map<TaskId, Task>, queue: string, now: int, id: TaskId) {
    && id in tasks && tasks[id].queue == queue && tasks[id].status.Pending? && tasks[id].nextRunAt <= now
    && forall t | t in tasks && tasks[t].queue == queue && tasks[t].status.Pending? && tasks[t].nextRunAt <= now ::
      && tasks[id].nextRunAt <= tasks[t].nextRunAt
      && (tasks[id].nextRunAt == tasks[t].nextRunAt ==> tasks[id].createdAt <= tasks[t].createdAt)
  }

  /** Finished for longer than its queue, if there is one, retains it. */
  predicate RetentionOver(task: Task, queues: map<string, QueueConfig>, now: int) {
    && (task.status == Completed || task.status == Failed || task.status == Cancelled)
    && task.queue in queues && now - task.updatedAt > queues[task.queue].retentionMs
  }

  class Service {
    const maxConcurrency: int32
    var clock: int
    var phase: Phase
    var queues: map<string, QueueConfig>
    var tasks: map<TaskId, Task>
    var workers: map<WorkerId, Activity>
    ghost var history: map<TaskId, History>

    ghost function Snapshot(): State
      reads this
    {
      State(maxConcurrency, clock, phase, queues, tasks, workers, history)
    }

    ghost predicate Valid()
      reads this
    {
      Inv(Snapshot())
    }

    constructor (maxConcurrency: int32, clock: int)
      ensures Snapshot() == Initial(maxConcurrency, clock)
      ensures Valid()
    {
      this.maxConcurrency := maxConcurrency;
      this.clock := clock;
      phase, queues, tasks, workers, history := Live, map[], map[], map[], map[];
      new;
      assert TotalConcurrency(map[]) == 0;
    }

    /** Sums the workers already granted, in whatever order the queues come; no int32 overflows on the way. */
    static method GrantedConcurrency(queues: map<string, QueueConfig>) returns (granted: int32)
      requires forall q | q in queues :: queues[q].concurrency >= 1
      requires TotalConcurrency(queues) <= INT32_MAX
      ensures 0 <= granted == TotalConcurrency(queues)
    {
      granted := 0;
      var rest := queues.Keys;
      assert queues - rest == map[];
      while rest != {}
        invariant rest <= queues.Keys
        invariant 0 <= granted == TotalConcurrency(queues - rest)
        decreases |rest|
      {
        var name :| name in rest;
        PartialTotals(queues, rest, name);
        granted := granted + queues[name].concurrency;
        rest := rest - {name};
      }
      assert queues - rest == queues;
    }

    method ClampedConcurrency(config: QueueConfig) returns (clamped: Option<QueueConfig>)
      requires ConfigsInRange(Snapshot()) && WithinBudget(Snapshot())
      ensures clamped == ClampConcurrency(Snapshot(), config)
      ensures clamped.Some? ==> clamped.value.concurrency <= config.concurrency
      ensures clamped.Some? ==> clamped.value.concurrency + TotalConcurrency(queues) <= maxConcurrency
    {
      var granted := GrantedConcurrency(queues);
      var available: int32 := maxConcurrency - granted;
      if available <= 0 {
        return None;
      }
      clamped := Some(if config.concurrency > available then config.(concurrency := available) else config);
    }

    /** One worker per unit of concurrency. */
    method StartWorkers(name: string, count: int)
      modifies this`workers
      ensures workers == old(workers) + NewWorkers(name, count)
    {
      var i := 0;
      NoWorkersYet(workers, name, count);
      while i < count
        invariant 0 <= i && (i <= count || i == 0)
        invariant workers == old(workers) + NewWorkers(name, i)
      {
        OneMoreWorker(old(workers), name, i);
        hide NewWorkers;
        workers := workers[WorkerId(name, i) := Idle];
        i := i + 1;
      }
    }

    /** The checks that precede the creation of a queue, in the service's order. */
    method CheckNewQueue(name: string, config: QueueConfig) returns (result: CreateResult)
      requires Valid()
      ensures result == CreateOutcome(Snapshot(), name, config)
      ensures result == Rejected(EmptyName) <==> |name| == 0
      ensures result == Rejected(NameTooLong) <==> |name| > 128
      ensures result == Rejected(BudgetExhausted) <==> 1 <= |name| <= 128 && TotalConcurrency(queues) >= maxConcurrency
      ensures result == Rejected(AlreadyExists) <==>
        1 <= |name| <= 128 && TotalConcurrency(queues) < maxConcurrency && name in queues
      ensures result.Created? ==> Honours(result.config, config, maxConcurrency - TotalConcurrency(queues))
    {
      if |name| == 0 {
        return Rejected(EmptyName);
      }
      if |name| > MAX_QUEUE_NAME_LENGTH {
        return Rejected(NameTooLong);
      }
      var clamped := ClampedConcurrency(ApplyConfigDefaults(config));
      if clamped.None? {
        return Rejected(BudgetExhausted);
      }
      if name in queues {
        return Rejected(AlreadyExists);
      }
      result := Created(clamped.value);
    }

    method CreateQueue(name: string, config: QueueConfig, now: int) returns (result: CreateResult)
      requires Valid() && now <= clock && !phase.Closed?
      modifies this`queues, this`tasks, this`workers, this`history
      ensures Valid()
      ensures result == CreateOutcome(old(Snapshot()), name, config)
      ensures Snapshot() == Apply(old(Snapshot()), Event.CreateQueue(name, config, now))
      ensures result == Rejected(EmptyName) <==> |name| == 0
      ensures result == Rejected(NameTooLong) <==> |name| > 128
      ensures result == Rejected(BudgetExhausted) <==>
        1 <= |name| <= 128 && TotalConcurrency(old(queues)) >= maxConcurrency
      ensures result == Rejected(AlreadyExists) <==>
        1 <= |name| <= 128 && TotalConcurrency(old(queues)) < maxConcurrency && name in old(queues)
      ensures result.Rejected? ==> Snapshot() == old(Snapshot())
      ensures result.Created? ==> Honours(result.config, config, maxConcurrency - TotalConcurrency(old(queues)))
      ensures result.Created? ==> queues == old(queues)[name := result.config]
      ensures result.Created? ==> tasks.Keys == old(tasks).Keys && forall id | id in tasks ::
        tasks[id] == if old(tasks)[id].queue == name && old(tasks)[id].status.Running?
                     then old(tasks)[id].(status := Pending, updatedAt := now) else old(tasks)[id]
      ensures result.Created? ==> forall w | w in old(workers) :: w in workers && workers[w] == old(workers)[w]
      ensures result.Created? ==> forall w | w !in old(workers) ::
        (w in workers <==> w.queue == name && 0 <= w.index < result.config.concurrency)
        && (w in workers ==> workers[w].Idle?)
    {
      hide Inv;
      ghost var before := Snapshot();
      StepKeepsInv(before, Event.CreateQueue(name, config, now));
      result := CheckNewQueue(name, config);
      if result.Rejected? {
        return;
      }
      history := RecordResets(history, tasks, Some(name));
      tasks := ResetRunning(tasks, Some(name), now);
      queues := queues[name := result.config];
      NewNames(before, name, result.config.concurrency);
      StartWorkers(name, result.config.concurrency);
      assert Snapshot() == WithNewQueue(before, name, result.config, now);
    }

    /** `id` is the random identifier drawn for the task; it is assumed never to have been drawn before. */
    method Enqueue(id: TaskId, queue: string, payload: Bytes, now: int) returns (result: EnqueueResult)
      requires Valid() && now <= clock && !phase.Closed? && id !in history
      modifies this
      ensures Valid()
      ensures result.NoSuchQueue? <==> queue !in old(queues)
      ensures result.PayloadTooLarge? <==> queue in old(queues) && |payload| > 1_048_576
      ensures result.Enqueued? ==>
        result.id == id && Snapshot() == Apply(old(Snapshot()), Event.Enqueue(id, queue, payload, now))
      ensures result.Enqueued? ==> queue in queues && queues == old(queues) && workers == old(workers)
      ensures result.Enqueued? ==>
        tasks == old(tasks)[id := Task(queue, payload, Pending, 0, queues[queue].maxRetries, now, now, now, "")]
      ensures !result.Enqueued? ==> Snapshot() == old(Snapshot())
    {
      hide Inv;
      if queue !in queues {
        return NoSuchQueue;
      }
      if |payload| > MAX_PAYLOAD_SIZE {
        return PayloadTooLarge;
      }
      StepKeepsInv(Snapshot(), Event.Enqueue(id, queue, payload, now));
      tasks := tasks[id := Task(queue, payload, Pending, 0, queues[queue].maxRetries, now, now, now, "")];
      history := history[id := History(0, 0, 0, 0)];
      result := Enqueued(id);
    }

    method Get(id: TaskId) returns (info: Option<TaskInfo>)
      ensures info.None? <==> id !in tasks
      ensures info.Some? ==> info.value == TaskInfo(tasks[id].status, tasks[id].message, tasks[id].attempt)
    {
      info := if id in tasks then Some(TaskInfo(tasks[id].status, tasks[id].message, tasks[id].attempt)) else None;
    }

    /** Only a pending task can be cancelled; a running or finished one is reported with its status. */
    method Cancel(id: TaskId, now: int) returns (result: CancelResult)
      requires Valid() && now <= clock && !phase.Closed?
      modifies this
      ensures Valid()
      ensures Snapshot() == Apply(old(Snapshot()), Event.Cancel(id, now))
      ensures result.WasCancelled? <==> id in old(tasks) && old(tasks)[id].status.Pending?
      ensures result.NotFound? <==> id !in old(tasks)
      ensures result.NotCancellable? ==> result.status == old(tasks)[id].status
      ensures tasks == if result.WasCancelled?
        then old(tasks)[id := old(tasks)[id].(status := Cancelled, updatedAt := now)] else old(tasks)
      ensures workers == old(workers) && queues == old(queues)
    {
      hide Inv;
      StepKeepsInv(Snapshot(), Event.Cancel(id, now));
      var rowsAffected := 0;
      if id in tasks && tasks[id].status.Pending? {
        tasks := tasks[id := tasks[id].(status := Cancelled, updatedAt := now)];
        rowsAffected := 1;
      }
      if rowsAffected == 0 {
        if id !in tasks {
          return NotFound;
        }
        return NotCancellable(tasks[id].status);
      }
      result := WasCancelled;
    }

    /** Cancels what is pending in one queue and says how many tasks that was; nothing running is touched. */
    method ClearQueue(queue: string, now: int) returns (cleared: Option<nat>)
      requires Valid() && now <= clock && !phase.Closed?
      modifies this`tasks
      ensures Valid()
      ensures cleared.None? <==> queue !in queues
      ensures cleared.None? ==> tasks == old(tasks)
      ensures cleared.Some? ==> Snapshot() == Apply(old(Snapshot()), Event.ClearQueue(queue, now))
      ensures cleared.Some? ==>
        cleared.value == |set id | id in old(tasks) && old(tasks)[id].queue == queue && old(tasks)[id].status.Pending?|
      ensures cleared.Some? ==> tasks.Keys == old(tasks).Keys && forall id | id in tasks ::
        tasks[id] == if old(tasks)[id].queue == queue && old(tasks)[id].status.Pending?
                     then old(tasks)[id].(status := Cancelled, updatedAt := now) else old(tasks)[id]
    {
      hide Inv;
      if queue !in queues {
        return None;
      }
      StepKeepsInv(Snapshot(), Event.ClearQueue(queue, now));
      var affected := PendingIn(tasks, queue);
      tasks := CancelPending(tasks, queue, now);
      cleared := Some(|affected|);
    }

    /** The inner SELECT of the dequeue statement. */
    method NextDue(queue: string, now: int) returns (id: Option<TaskId>)
      ensures id.None? ==> forall t | t in tasks :: !Eligible(tasks[t], queue, now)
      ensures id.Some? ==> IsNext(tasks, queue, now, id.value)
      ensures id.None? ==> NothingDue(tasks, queue, now)
      ensures id.Some? ==> DueFirst(tasks, queue, now, id.value)
    {
      var due := set t | t in tasks && Eligible(tasks[t], queue, now);
      if due == {} {
        assert forall t | t in tasks && Eligible(tasks[t], queue, now) :: t in due;
        return None;
      }
      ghost var first := SomeTaskIsNext(tasks, queue, now, due);
      var next :| next in due && IsNext(tasks, queue, now, next);
      id := Some(next);
    }

    /** The atomic dequeue: nothing when no task of the queue is due. */
    method DequeueTask(w: WorkerId, now: int) returns (id: Option<TaskId>)
      requires Valid() && now <= clock && phase.Live? && w in workers && workers[w].Idle?
      modifies this`tasks, this`workers, this`history
      ensures Valid()
      ensures id.None? ==> Snapshot() == old(Snapshot()) && forall t | t in tasks :: !Eligible(tasks[t], w.queue, now)
      ensures id.Some? ==> IsNext(old(tasks), w.queue, now, id.value)
      ensures id.Some? ==>
        Snapshot() == Apply(old(Snapshot()), Dequeue(w, id.value, now, old(tasks)[id.value].attempt < INT32_MAX))
      ensures id.Some? ==> workers == old(workers)[w := Received(id.value, old(tasks)[id.value])]
      ensures id.None? ==> NothingDue(old(tasks), w.queue, now)
      ensures id.Some? ==> DueFirst(old(tasks), w.queue, now, id.value)
      ensures id.Some? ==> var row := old(tasks)[id.value];
        && tasks == old(tasks)[id.value := row.(status := Running, attempt := row.attempt + 1, updatedAt := now)]
        && (row.attempt + 1 <= 0x7FFF_FFFF ==>
             workers == old(workers)[w := Holding(id.value, row.attempt + 1, row.maxRetries, RateLimited)])
        && (row.attempt + 1 > 0x7FFF_FFFF ==> workers == old(workers))
    {
      hide Inv;
      id := NextDue(w.queue, now);
      if id.None? {
        return;
      }
      var next := id.value;
      DequeueStep(Snapshot(), w, next, now);
      var attempt := tasks[next].attempt + 1;
      workers := workers[w := Received(next, tasks[next])];
      tasks := tasks[next := tasks[next].(status := Running, attempt := attempt, updatedAt := now)];
      history := history[next := history[next].(dequeues := history[next].dequeues + 1)];
    }

    /** The UPDATE has no status guard; that it hits a running row is the invariant's doing. */
    method CompleteTask(w: WorkerId, now: int)
      requires Valid() && HasOutcome(Snapshot(), w, now) && workers[w].stage.outcome.Success?
      modifies this`tasks, this`workers
      ensures Valid()
      ensures Snapshot() == Apply(old(Snapshot()), Event.CompleteTask(w, now, true))
      ensures workers == old(workers)[w := Idle]
      ensures OnlyRowOf(old(tasks), old(workers)[w].id)
      ensures Recorded(old(tasks), old(workers)[w], old(workers)[w].stage.outcome, now)
    {
      hide Inv;
      HeldRowExists(Snapshot(), w);
      HeldRowAgrees(Snapshot(), w);
      CompleteStep(Snapshot(), w, now);
      var held := workers[w];
      var message := held.stage.outcome.message;
      tasks := tasks[held.id := tasks[held.id].(status := Completed, message := message, updatedAt := now)];
      workers := workers[w := Idle];
    }

    /** The failure's effect on the row: give up after the last retry, else park the task for the backoff. */
    static method FailRow(task: Task, held: Activity, backoffMs: int, now: int) returns (failed: Task)
      requires held.Holding? && held.attempt >= 1 && held.stage.Returned? && held.stage.outcome.Error?
      ensures failed == FailedTask(task, held, backoffMs, held.stage.outcome, now)
      ensures held.attempt > held.maxRetries && held.stage.outcome.message != "" ==>
        failed == task.(status := Failed, message := held.stage.outcome.message, updatedAt := now)
      ensures held.attempt > held.maxRetries && held.stage.outcome.message == "" ==>
        failed == task.(status := Failed, message := held.stage.outcome.error, updatedAt := now)
      ensures held.attempt <= held.maxRetries ==>
        failed == task.(status := Pending, nextRunAt := failed.nextRunAt, updatedAt := now)
      ensures held.attempt <= held.maxRetries ==> now < failed.nextRunAt <= now + 3_600_000
      ensures held.attempt <= held.maxRetries && 1 <= backoffMs <= Backoff.Pow2(43) ==>
        failed.nextRunAt == now + Backoff.PromisedDelay(backoffMs, held.attempt)
    {
      if 1 <= backoffMs <= Backoff.Pow2(43) {
        Backoff.DelayIsPromised(backoffMs, held.attempt);
      }
      var message := held.stage.outcome.message;
      if message == "" {
        message := held.stage.outcome.error;
      }
      if held.attempt > held.maxRetries {
        return task.(status := Failed, message := message, updatedAt := now);
      }
      var backoff := Backoff.ShiftLeft(backoffMs, held.attempt - 1);
      if backoff <= 0 || backoff > Backoff.MAX_BACKOFF_MS {
        backoff := Backoff.MAX_BACKOFF_MS;
      }
      failed := task.(status := Pending, nextRunAt := now + backoff, updatedAt := now);
    }

    method HandleTaskFailure(w: WorkerId, now: int)
      requires Valid() && HasOutcome(Snapshot(), w, now) && workers[w].stage.outcome.Error?
      modifies this`tasks, this`workers, this`history
      ensures Valid()
      ensures Snapshot() == Apply(old(Snapshot()), HandleFailure(w, now, true))
      ensures workers == old(workers)[w := Idle]
      ensures OnlyRowOf(old(tasks), old(workers)[w].id)
      ensures Recorded(old(tasks), old(workers)[w], old(workers)[w].stage.outcome, now)
    {
      hide Inv;
      HeldRowExists(Snapshot(), w);
      HeldRowAgrees(Snapshot(), w);
      FailureStep(Snapshot(), w, now);
      var held := workers[w];
      var row := FailRow(tasks[held.id], held, queues[w.queue].backoffMs, now);
      tasks := tasks[held.id := row];
      history := history[held.id := history[held.id].(failures := history[held.id].failures + 1)];
      workers := workers[w := Idle];
    }

    /** Shutdown interrupts an attempt: the task is pending again and the attempt does not count. */
    method RevertTaskToPending(w: WorkerId, now: int)
      requires Valid() && now <= clock && !phase.Live? && w in workers && workers[w].Holding?
      modifies this
      ensures Valid()
      ensures Snapshot() == AfterRevert(old(Snapshot()), w, now)
      ensures phase.Stopping? ==> OnlyRowOf(old(tasks), old(workers)[w].id)
      ensures phase.Stopping? ==> Reverted(old(tasks), old(workers)[w], now)
      ensures phase == old(phase) && queues == old(queues) && workers == old(workers)[w := Idle]
      ensures phase.Closed? ==> tasks == old(tasks)
    {
      hide Inv;
      RevertKeepsInv(Snapshot(), w, now);
      QueueOfWorker(Snapshot(), w);
      var id := workers[w].id;
      if !phase.Closed? {
        HeldRowExists(Snapshot(), w);
        HeldRowAgrees(Snapshot(), w);
      }
      if id in tasks && tasks[id].status.Running? {
        var attempt := tasks[id].attempt - 1;
        attempt := if attempt > 0 then attempt else 0;
        tasks := tasks[id := tasks[id].(status := Pending, attempt := attempt, updatedAt := now)];
        history := if id in history then history[id := history[id].(reverts := history[id].reverts + 1)] else history;
      }
      workers := workers[w := Idle];
    }

    /** From a dequeued task to its recorded outcome. `events` is the run so far, which the result extends. */
    method RunCallback(w: WorkerId, outcome: Outcome, finished: int, ghost start: State, ghost events: seq<Event>)
      returns (ghost run: seq<Event>)
      requires Valid() && finished <= clock && phase.Live?
      requires w in workers && workers[w].Holding? && workers[w].stage.RateLimited?
      requires Snapshot() == Execute(start, events)
      modifies this`tasks, this`workers, this`history
      ensures Valid() && w in workers && workers[w].Idle? && |run| == |events| + 3
      ensures Snapshot() == Execute(start, run)
      ensures OnlyRowOf(old(tasks), old(workers)[w].id)
      ensures Recorded(old(tasks), old(workers)[w], outcome, finished)
    {
      hide Inv;
      EnterCallback(w, start, events);
      run := events + [StartCallback(w)];
      StageSteps(Snapshot(), w, outcome, finished);
      RunThenStep(start, run, CallbackReturned(w, outcome, finished));
      run := run + [CallbackReturned(w, outcome, finished)];
      Advance(w, Returned(outcome));
      if outcome.Success? {
        RunThenStep(start, run, Event.CompleteTask(w, finished, true));
        run := run + [Event.CompleteTask(w, finished, true)];
        CompleteTask(w, finished);
      } else {
        RunThenStep(start, run, HandleFailure(w, finished, true));
        run := run + [HandleFailure(w, finished, true)];
        HandleTaskFailure(w, finished);
      }
    }

    /** No row but this one has changed. */
    predicate OnlyRowOf(before: map<TaskId, Task>, id: TaskId)
      reads this
    {
      tasks.Keys == before.Keys && forall t | t in tasks && t != id :: tasks[t] == before[t]
    }

    /** The row of a held task after its outcome was written. */
    predicate Recorded(before: map<TaskId, Task>, held: Activity, outcome: Outcome, finished: int)
      reads this
    {
      held.Holding? && held.attempt >= 1 && held.id in tasks && held.id in before &&
      var task, was := tasks[held.id], before[held.id].(attempt := held.attempt);
      match outcome
      case Success(message) => task == was.(status := Completed, message := message, updatedAt := finished)
      case Error(message, error) =>
        if held.attempt > held.maxRetries then
          task == was.(status := Failed, message := if message != "" then message else error, updatedAt := finished)
        else
          && task == was.(status := Pending, nextRunAt := task.nextRunAt, updatedAt := finished)
          && finished < task.nextRunAt <= finished + 3_600_000
    }

    /** Another thread begins the shutdown. */
    method BeginShutdown(ghost start: State, ghost events: seq<Event>)
      requires Valid() && phase.Live? && Snapshot() == Execute(start, events)
      modifies this`phase
      ensures Valid() && phase.Stopping? && Snapshot() == Execute(start, events + [BeginClose])
    {
      hide Inv;
      BeginCloseStep(Snapshot());
      RunThenStep(start, events, BeginClose);
      phase := Stopping;
    }

    /** The worker starts the callback. */
    method EnterCallback(w: WorkerId, ghost start: State, ghost events: seq<Event>)
      requires Valid() && w in workers && workers[w].Holding? && workers[w].stage.RateLimited?
      requires Snapshot() == Execute(start, events)
      modifies this`workers
      ensures Valid() && workers == old(workers)[w := old(workers)[w].(stage := InCallback)]
      ensures Snapshot() == Execute(start, events + [StartCallback(w)])
    {
      hide Inv;
      StageSteps(Snapshot(), w, Success(""), clock);
      RunThenStep(start, events, StartCallback(w));
      Advance(w, InCallback);
    }

    /** The rest of an attempt during which shutdown begins, before the callback or during it. */
    method Interrupted(w: WorkerId, early: bool, outcome: Outcome, finished: int,
        ghost start: State, ghost events: seq<Event>)
      returns (ghost run: seq<Event>)
      requires Valid() && finished <= clock && phase.Live?
      requires w in workers && workers[w].Holding? && workers[w].stage.RateLimited?
      requires Snapshot() == Execute(start, events)
      modifies this
      ensures Valid() && phase.Stopping? && w in workers && workers[w].Idle? && |run| > |events|
      ensures Snapshot() == Execute(start, run)
      ensures OnlyRowOf(old(tasks), old(workers)[w].id)
      ensures Reverted(old(tasks), old(workers)[w], finished)
    {
      hide Inv;
      HeldRowAgrees(Snapshot(), w);
      run := events;
      if early {
        BeginShutdown(start, run);
        run := run + [BeginClose];
        if queues[w.queue].delayMs > 0 {
          RevertSteps(Snapshot(), w, outcome, finished);
          RunThenStep(start, run, AbortWait(w, finished));
          run := run + [AbortWait(w, finished)];
          RevertTaskToPending(w, finished);
          return;
        }
        EnterCallback(w, start, run);
        run := run + [StartCallback(w)];
      } else {
        EnterCallback(w, start, run);
        run := run + [StartCallback(w)];
        BeginShutdown(start, run);
        run := run + [BeginClose];
      }
      RevertSteps(Snapshot(), w, outcome, finished);
      RunThenStep(start, run, CallbackReturned(w, outcome, finished));
      run := run + [CallbackReturned(w, outcome, finished)];
      RevertTaskToPending(w, finished);
    }

    /** The row of an interrupted attempt: pending, and the attempt not counted. */
    predicate Reverted(before: map<TaskId, Task>, held: Activity, finished: int)
      reads this
    {
      && held.Holding? && held.attempt >= 1 && held.id in tasks && held.id in before
      && tasks[held.id] == before[held.id].(status := Pending, attempt := held.attempt - 1, updatedAt := finished)
    }

    /**
     * Dequeue, call back and record the outcome; or put the task back if the shutdown comes in between.
     * The ghost result is the run of the state machine this amounts to.
     */
    method ProcessTask(w: WorkerId, now: int, outcome: Outcome, finished: int, shutdown: Shutdown)
      returns (processed: bool, ghost id: TaskId, ghost run: seq<Event>)
      requires Valid() && now <= clock && finished <= clock && phase.Live? && w in workers && workers[w].Idle?
      modifies this
      ensures Valid() && w in workers && workers[w].Idle?
      ensures Snapshot() == Execute(old(Snapshot()), run)
      ensures run == [] ==> !processed && forall t | t in old(tasks) :: !Eligible(old(tasks)[t], w.queue, now)
      ensures run != [] ==> IsNext(old(tasks), w.queue, now, id)
      ensures run != [] ==> (processed <==> old(tasks)[id].attempt < INT32_MAX && shutdown.NoShutdown?)
      ensures run == [] ==> NothingDue(old(tasks), w.queue, now) && tasks == old(tasks)
      ensures run != [] ==> DueFirst(old(tasks), w.queue, now, id) && OnlyRowOf(old(tasks), id)
      ensures processed ==> Recorded(old(tasks), Received(id, old(tasks)[id]), outcome, finished)
      ensures run != [] && old(tasks)[id].attempt < INT32_MAX && !processed ==>
        phase.Stopping? && Reverted(old(tasks), Received(id, old(tasks)[id]), finished)
    {
      hide Inv;
      run, id := [], "";
      ghost var start := Snapshot();
      var dequeued := DequeueTask(w, now);
      if dequeued.None? {
        return false, id, run;
      }
      id := dequeued.value;
      ghost var first := Dequeue(w, id, now, old(tasks)[id].attempt < INT32_MAX);
      RunThenStep(start, [], first);
      run := [] + [first];
      if workers[w].Idle? {
        return false, id, run;
      }
      if !shutdown.NoShutdown? {
        run := Interrupted(w, shutdown.BeforeCallback?, outcome, finished, start, run);
        return false, id, run;
      }
      run := RunCallback(w, outcome, finished, start, run);
      processed := true;
    }

    /** The worker's own progress, which no statement records. */
    method Advance(w: WorkerId, stage: Stage)
      requires Valid() && w in workers && workers[w].Holding?
      modifies this`workers
      ensures Valid()
      ensures workers == old(workers)[w := old(workers)[w].(stage := stage)]
    {
      StageChangeKeepsInv(Snapshot(), w, stage);
      workers := workers[w := workers[w].(stage := stage)];
    }

    /** Deletes, queue by queue, exactly the finished tasks whose own queue's retention has run out. */
    method RunCleanup(now: int) returns (ghost run: seq<Event>)
      requires Valid() && now <= clock && !phase.Closed?
      modifies this`tasks
      ensures Valid()
      ensures Snapshot() == Execute(old(Snapshot()), run)
      ensures forall id :: id in tasks <==> id in old(tasks) && !RetentionOver(old(tasks)[id], queues, now)
      ensures forall id | id in tasks :: tasks[id] == old(tasks)[id]
    {
      ghost var start := Snapshot();
      run := DeleteFinished(now);
      RunKeepsInv(start, run);
    }

    method DeleteFinished(now: int) returns (ghost run: seq<Event>)
      requires now <= clock && !phase.Closed?
      modifies this`tasks
      ensures Snapshot() == Execute(old(Snapshot()), run)
      ensures tasks == Retained(old(tasks), queues, queues.Keys, now)
    {
      var table, names := queues, queues.Keys;
      ghost var start, done := Snapshot(), {};
      run := [];
      while names != {}
        invariant names <= table.Keys && done <= table.Keys && names + done == table.Keys
        invariant queues == table && clock == start.clock && phase == start.phase
        invariant Snapshot() == Execute(start, run)
        invariant tasks == Retained(start.tasks, table, done, now)
        decreases |names|
      {
        var name :| name in names;
        RunThenStep(start, run, Cleanup(name, now));
        RetainedAfterOneMore(start.tasks, table, done, name, now);
        CleanupStep(Snapshot(), name, now);
        run := run + [Cleanup(name, now)];
        tasks := DeleteExpired(tasks, name, table[name].retentionMs, now);
        names, done := names - {name}, done + {name};
      }
    }

    /** Once the workers are done or the wait for them has timed out, whatever still runs becomes pending. */
    method Close(now: int)
      requires Valid() && now <= clock && phase.Live?
      modifies this
      ensures Valid() && phase.Closed?
      ensures Snapshot() == Execute(old(Snapshot()), [BeginClose, FinishClose(now)])
      ensures tasks.Keys == old(tasks).Keys
      ensures forall id | id in tasks :: tasks[id] == if old(tasks)[id].status.Running?
        then old(tasks)[id].(status := Pending, updatedAt := now) else old(tasks)[id]
    {
      hide Inv;
      RunOfTwo(Snapshot(), BeginClose, FinishClose(now));
      BeginCloseStep(Snapshot());
      phase := Stopping;
      FinishCloseStep(Snapshot(), now);
      history := RecordResets(history, tasks, None);
      tasks := ResetRunning(tasks, None, now);
      phase := Closed;
    }
  }

  /** A task of a new queue has the retries its caller asked for, and is due at once. */
  method CreateAndEnqueue(s: Service, name: string, config: QueueConfig, id: TaskId, payload: Bytes, now: int)
    requires s.Valid() && now <= s.clock && !s.phase.Closed?
    requires 1 <= |name| <= 128 && name !in s.queues && TotalConcurrency(s.queues) < s.maxConcurrency
    requires id !in s.history && |payload| <= 1_048_576
    modifies s
    ensures s.Valid() && name in s.queues
    ensures Honours(s.queues[name], config, s.maxConcurrency - old(TotalConcurrency(s.queues)))
    ensures id in s.tasks && s.tasks[id] == Task(name, payload, Pending, 0, config.maxRetries, now, now, now, "")
  {
    ghost var before := s.Snapshot();
    var created := s.CreateQueue(name, config, now);
    CreateKeepsIds(before, name, config, now);
    var enqueued := s.Enqueue(id, name, payload, now);
  }

  lemma CreateKeepsIds(s: State, name: string, config: QueueConfig, now: int)
    ensures Apply(s, CreateQueue(name, config, now)).history.Keys == s.history.Keys
  {
    var _ := CreateOutcome(s, name, config);
  }
}
