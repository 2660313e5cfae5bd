/** What every step of the task queue keeps. */
module TaskQueueInvariant {
  import opened TaskQueueModel
  import Backoff

  ghost predicate HeldBy(s: State, w: WorkerId, id: TaskId) {
    w in s.workers && s.workers[w].Holding? && s.workers[w].id == id
  }

  ghost predicate ConfigsInRange(s: State) {
    forall q | q in s.queues ::
      && 1 <= s.queues[q].concurrency
      && 1 <= s.queues[q].backoffMs
      && MIN_RETENTION_MS <= s.queues[q].retentionMs <= MAX_RETENTION_MS
  }

  ghost predicate WorkersMatchQueues(s: State) {
    forall w :: w in s.workers <==> w.queue in s.queues && 0 <= w.index < s.queues[w.queue].concurrency
  }

  ghost predicate WithinBudget(s: State) {
    |s.workers| == TotalConcurrency(s.queues) <= (if s.maxConcurrency < 0 then 0 else s.maxConcurrency)
  }

  /** What a worker remembers of its task is what the table says, until the final reset of a shutdown. */
  ghost predicate HoldersAgree(s: State) {
    forall w | w in s.workers && s.workers[w].Holding? ::
      && s.workers[w].attempt >= 1
      && s.workers[w].id in s.history
      && (!s.phase.Closed? ==> HoldsRunningRow(s, w))
  }

  ghost predicate HoldsRunningRow(s: State, w: WorkerId)
    requires w in s.workers && s.workers[w].Holding?
  {
    var held := s.workers[w];
    held.id in s.tasks &&
    var task := s.tasks[held.id];
    task.status.Running? && task.queue == w.queue && task.attempt == held.attempt && task.maxRetries == held.maxRetries
  }

  ghost predicate Exclusive(s: State) {
    forall w1, w2, id :: HeldBy(s, w1, id) && HeldBy(s, w2, id) ==> w1 == w2
  }

  /** While live, only a task whose attempt number no longer fits the worker's int32 runs unheld. */
  ghost predicate NoOrphans(s: State) {
    s.phase.Live? ==>
      forall id | id in s.tasks && s.tasks[id].status.Running? && s.tasks[id].queue in s.queues ::
        s.tasks[id].attempt > INT32_MAX || exists w :: HeldBy(s, w, id)
  }

  ghost predicate QuietWhenClosed(s: State) {
    s.phase.Closed? ==> forall id | id in s.tasks :: !s.tasks[id].status.Running?
  }

  function NonNegative(n: int): int {
    if n < 0 then 0 else n
  }

  predicate Accounted(task: Task, h: History) {
    && task.attempt == h.dequeues - h.reverts
    && task.attempt == h.failures + h.resets + (if task.status.Running? || task.status.Completed? then 1 else 0)
    && h.failures <= NonNegative(task.maxRetries) + (if task.status.Failed? then 1 else 0)
    && (task.status.Failed? ==> task.attempt > task.maxRetries)
  }

  ghost predicate Accounting(s: State) {
    forall id | id in s.tasks :: id in s.history && Accounted(s.tasks[id], s.history[id])
  }

  ghost predicate Inv(s: State) {
    && ConfigsInRange(s)
    && WorkersMatchQueues(s)
    && WithinBudget(s)
    && HoldersAgree(s)
    && Exclusive(s)
    && NoOrphans(s)
    && QuietWhenClosed(s)
    && Accounting(s)
  }

  // ---- Sums over the queue table ----

  lemma {:induction false} TotalWithout(queues: map<string, QueueConfig>, name: string)
    requires name in queues
    ensures TotalConcurrency(queues) == queues[name].concurrency + TotalConcurrency(queues - {name})
    decreases |queues|
  {
    var picked :| picked in queues &&
      TotalConcurrency(queues) == queues[picked].concurrency + TotalConcurrency(queues - {picked});
    if picked != name {
      var rest := queues - {picked};
      TotalWithout(rest, name);
      TotalWithout(queues - {name}, picked);
      assert rest - {name} == (queues - {name}) - {picked};
    }
  }

  lemma TotalAdd(queues: map<string, QueueConfig>, name: string, config: QueueConfig)
    requires name !in queues
    ensures TotalConcurrency(queues[name := config]) == TotalConcurrency(queues) + config.concurrency
  {
    TotalWithout(queues[name := config], name);
    assert queues[name := config] - {name} == queues;
  }

  lemma {:induction false} NewWorkersCount(name: string, count: nat)
    ensures |NewWorkers(name, count)| == count
    ensures forall w :: w in NewWorkers(name, count) <==> w.queue == name && 0 <= w.index < count
  {
    if count == 0 {
      assert NewWorkers(name, 0) == map[];
    } else {
      NewWorkersCount(name, count - 1);
      assert NewWorkers(name, count) == NewWorkers(name, count - 1)[WorkerId(name, count - 1) := Idle];
    }
  }

  lemma DisjointUnionSize<K, V>(a: map<K, V>, b: map<K, V>)
    requires a.Keys !! b.Keys
    ensures |a + b| == |a| + |b|
  {
    assert (a + b).Keys == a.Keys + b.Keys;
  }

  // ---- Every step keeps the invariant ----

  /** Resetting the rows of a queue that has no workers touches no held row. */
  lemma ResetSparesHeldRows(s: State, t: State, name: string, now: int)
    requires Inv(s) && name !in s.queues
    requires t.tasks == ResetRunning(s.tasks, Some(name), now)
    ensures forall w | w in s.workers && s.workers[w].Holding? && HoldsRunningRow(s, w) ::
              s.workers[w].id in t.tasks && t.tasks[s.workers[w].id] == s.tasks[s.workers[w].id]
  {
    forall w | w in s.workers && s.workers[w].Holding? && HoldsRunningRow(s, w)
      ensures s.workers[w].id in t.tasks && t.tasks[s.workers[w].id] == s.tasks[s.workers[w].id]
    {
      assert w.queue in s.queues;
    }
  }

  lemma NewWorkersHoldNothing(s: State, t: State, name: string, count: nat)
    requires WorkersMatchQueues(s) && name !in s.queues
    requires t.workers == s.workers + NewWorkers(name, count)
    ensures forall w, id :: HeldBy(t, w, id) <==> HeldBy(s, w, id)
    ensures forall w | w in t.workers && t.workers[w].Holding? :: w in s.workers && t.workers[w] == s.workers[w]
    ensures |t.workers| == |s.workers| + count
    ensures forall w :: w in t.workers <==> w in s.workers || (w.queue == name && 0 <= w.index < count)
  {
    NewWorkersCount(name, count);
    assert forall w :: w in s.workers ==> w.queue != name;
    DisjointUnionSize(s.workers, NewWorkers(name, count));
  }

  lemma NewQueueKeepsHolders(s: State, t: State, name: string, clamped: QueueConfig, now: int)
    requires Inv(s) && name !in s.queues && !s.phase.Closed?
    requires t.phase == s.phase && t.queues == s.queues[name := clamped]
    requires t.tasks == ResetRunning(s.tasks, Some(name), now)
    requires t.history.Keys == s.history.Keys
    requires forall w, id :: HeldBy(t, w, id) <==> HeldBy(s, w, id)
    requires forall w | w in t.workers && t.workers[w].Holding? :: w in s.workers && t.workers[w] == s.workers[w]
    ensures HoldersAgree(t) && Exclusive(t) && NoOrphans(t) && QuietWhenClosed(t)
  {
    ResetSparesHeldRows(s, t, name, now);
    if t.phase.Live? {
      forall id |
        && id in t.tasks && t.tasks[id].status.Running?
        && t.tasks[id].queue in t.queues && t.tasks[id].attempt <= INT32_MAX
        ensures exists w :: HeldBy(t, w, id)
      {
        assert s.tasks[id] == t.tasks[id];
        var w :| HeldBy(s, w, id);
        assert HeldBy(t, w, id);
      }
    }
  }

  /** The clamp leaves the new queue at least one worker and the sum within the budget. */
  lemma NewQueueKeepsBudget(s: State, name: string, config: QueueConfig, clamped: QueueConfig)
    requires ConfigsInRange(s) && WithinBudget(s)
    requires CreateOutcome(s, name, config) == Created(clamped)
    ensures 1 <= clamped.concurrency <= s.maxConcurrency - TotalConcurrency(s.queues)
    ensures TotalConcurrency(s.queues[name := clamped]) == TotalConcurrency(s.queues) + clamped.concurrency
    ensures 1 <= clamped.backoffMs && MIN_RETENTION_MS <= clamped.retentionMs <= MAX_RETENTION_MS
  {
    TotalAdd(s.queues, name, clamped);
  }

  lemma ResetKeepsAccounting(s: State, t: State, only: Option<string>, now: int)
    requires Accounting(s)
    requires t.tasks == ResetRunning(s.tasks, only, now) && t.history == RecordResets(s.history, s.tasks, only)
    ensures Accounting(t)
  {
    forall id | id in t.tasks
      ensures id in t.history && Accounted(t.tasks[id], t.history[id])
    {
      assert Accounted(s.tasks[id], s.history[id]);
    }
  }

  lemma MatchWithNewQueue(s: State, t: State, name: string, clamped: QueueConfig)
    requires WorkersMatchQueues(s) && name !in s.queues && t.queues == s.queues[name := clamped]
    requires forall w :: w in t.workers <==> w in s.workers || (w.queue == name && 0 <= w.index < clamped.concurrency)
    ensures WorkersMatchQueues(t)
  {
  }

  lemma NewQueueKeepsMatch(s: State, name: string, clamped: QueueConfig, now: int)
    requires WorkersMatchQueues(s) && WithinBudget(s) && name !in s.queues && 1 <= clamped.concurrency
    requires TotalConcurrency(s.queues[name := clamped]) ==
      TotalConcurrency(s.queues) + clamped.concurrency <= s.maxConcurrency
    ensures WorkersMatchQueues(WithNewQueue(s, name, clamped, now)) && WithinBudget(WithNewQueue(s, name, clamped, now))
  {
    var t := WithNewQueue(s, name, clamped, now);
    assert t.queues == s.queues[name := clamped] && t.workers == s.workers + NewWorkers(name, clamped.concurrency);
    assert t.maxConcurrency == s.maxConcurrency;
    hide NewWorkers, TotalConcurrency, WithNewQueue, HeldBy, WorkersMatchQueues;
    NewWorkersHoldNothing(s, t, name, clamped.concurrency);
    MatchWithNewQueue(s, t, name, clamped);
  }

  lemma NewQueueKeepsConfigs(s: State, name: string, clamped: QueueConfig, now: int)
    requires ConfigsInRange(s)
    requires 1 <= clamped.concurrency && 1 <= clamped.backoffMs
    requires MIN_RETENTION_MS <= clamped.retentionMs <= MAX_RETENTION_MS
    ensures ConfigsInRange(WithNewQueue(s, name, clamped, now))
  {
  }

  lemma NewQueueKeepsRows(s: State, name: string, clamped: QueueConfig, now: int)
    requires Inv(s) && name !in s.queues && !s.phase.Closed? && clamped.concurrency >= 1
    ensures var t := WithNewQueue(s, name, clamped, now);
            HoldersAgree(t) && Exclusive(t) && NoOrphans(t) && QuietWhenClosed(t) && Accounting(t)
  {
    var t := WithNewQueue(s, name, clamped, now);
    NewWorkersHoldNothing(s, t, name, clamped.concurrency);
    assert t.history.Keys == s.history.Keys;
    NewQueueKeepsHolders(s, t, name, clamped, now);
    ResetKeepsAccounting(s, t, Some(name), now);
  }

  lemma CreateQueueKeepsInv(s: State, name: string, config: QueueConfig, now: int)
    requires Inv(s) && Enabled(s, CreateQueue(name, config, now))
    ensures Inv(Apply(s, CreateQueue(name, config, now)))
  {
    match CreateOutcome(s, name, config)
    case Rejected(_) =>
    case Created(clamped) =>
      NewQueueKeepsBudget(s, name, config, clamped);
      NewQueueKeepsMatch(s, name, clamped, now);
      NewQueueKeepsConfigs(s, name, clamped, now);
      NewQueueKeepsRows(s, name, clamped, now);
  }

  /** Steps that change neither workers nor any running row keep who holds what. */
  lemma SameHolders(s: State, t: State)
    requires Inv(s)
    requires t.workers == s.workers && t.queues == s.queues && t.phase == s.phase
    requires s.history.Keys <= t.history.Keys
    requires forall id | id in s.tasks && s.tasks[id].status.Running? :: id in t.tasks && t.tasks[id] == s.tasks[id]
    requires forall id | id in t.tasks && t.tasks[id].status.Running? :: id in s.tasks && t.tasks[id] == s.tasks[id]
    ensures HoldersAgree(t) && Exclusive(t) && NoOrphans(t) && QuietWhenClosed(t)
  {
    assert forall w, id :: HeldBy(t, w, id) <==> HeldBy(s, w, id);
  }

  lemma EnqueueKeepsInv(s: State, e: Event)
    requires e.Enqueue? && Inv(s) && Enabled(s, e)
    ensures Inv(Apply(s, e))
  {
    SameHolders(s, Apply(s, e));
  }

  lemma CancelKeepsInv(s: State, e: Event)
    requires (e.Cancel? || e.Tick?) && Inv(s) && Enabled(s, e)
    ensures Inv(Apply(s, e))
  {
    AfterCancel(s, e);
    hide Apply, Take, Enabled;
    SameHolders(s, Apply(s, e));
  }

  /** The only row a cancel writes is a pending one. */
  lemma AfterCancel(s: State, e: Event)
    requires (e.Cancel? || e.Tick?) && Enabled(s, e)
    ensures var t := Apply(s, e);
      if e.Cancel? && e.id in s.tasks && s.tasks[e.id].status.Pending?
      then t == s.(tasks := s.tasks[e.id := s.tasks[e.id].(status := Cancelled, updatedAt := e.now)])
      else t == s.(clock := t.clock)
  {
  }

  lemma ClearQueueKeepsInv(s: State, e: Event)
    requires e.ClearQueue? && Inv(s) && Enabled(s, e)
    ensures Inv(Apply(s, e))
  {
    SameHolders(s, Apply(s, e));
  }

  lemma CleanupKeepsInv(s: State, e: Event)
    requires e.Cleanup? && Inv(s) && Enabled(s, e)
    ensures Inv(Apply(s, e))
  {
    SameHolders(s, Apply(s, e));
  }

  /** A step that moves one worker between stages, or hands it a task nobody holds, keeps holders exclusive. */
  lemma OneWorkerChanges(s: State, t: State, w: WorkerId)
    requires Exclusive(s) && w in s.workers && w in t.workers
    requires t.workers == s.workers[w := t.workers[w]]
    requires t.workers[w].Holding? ==> forall v | v != w :: !HeldBy(s, v, t.workers[w].id)
    ensures Exclusive(t)
    ensures forall v, id | v != w :: HeldBy(t, v, id) <==> HeldBy(s, v, id)
  {
    forall w1, w2, id | HeldBy(t, w1, id) && HeldBy(t, w2, id)
      ensures w1 == w2
    {
      assert w1 != w ==> HeldBy(s, w1, id);
      assert w2 != w ==> HeldBy(s, w2, id);
    }
  }

  lemma AfterDequeueKeepsAccounting(s: State, w: WorkerId, id: TaskId, now: int, delivered: bool)
    requires Accounting(s) && w in s.workers && id in s.tasks && s.tasks[id].status.Pending?
    requires delivered ==> s.tasks[id].attempt + 1 <= INT32_MAX
    ensures Accounting(AfterDequeue(s, w, id, now, delivered))
    ensures id in s.history
  {
    assert Accounted(s.tasks[id], s.history[id]);
  }

  /** What the dequeue statement finds: a pending row of the worker's own queue, and a free worker. */
  lemma DequeueFinds(s: State, w: WorkerId, id: TaskId, now: int, delivered: bool)
    requires Enabled(s, Dequeue(w, id, now, delivered))
    ensures w in s.workers && s.workers[w].Idle? && !s.phase.Closed?
    ensures id in s.tasks && s.tasks[id].status.Pending? && s.tasks[id].queue == w.queue
    ensures delivered ==> s.tasks[id].attempt + 1 <= INT32_MAX
    ensures s.phase.Live? && s.tasks[id].attempt + 1 <= INT32_MAX ==> delivered
    ensures Apply(s, Dequeue(w, id, now, delivered)) == AfterDequeue(s, w, id, now, delivered)
  {
  }

  lemma UnheldWhilePending(s: State, id: TaskId)
    requires HoldersAgree(s) && !s.phase.Closed? && id in s.tasks && s.tasks[id].status.Pending?
    ensures forall v :: !HeldBy(s, v, id)
  {
  }

  /** Who holds what after a dequeue. */
  lemma AfterDequeueHolds(s: State, w: WorkerId, id: TaskId, now: int, delivered: bool)
    requires Exclusive(s) && w in s.workers && s.workers[w].Idle? && id in s.tasks && forall v :: !HeldBy(s, v, id)
    requires delivered ==> s.tasks[id].attempt + 1 <= INT32_MAX
    ensures var t := AfterDequeue(s, w, id, now, delivered);
      && Exclusive(t) && (delivered ==> HeldBy(t, w, id))
      && (forall v, i | v != w :: HeldBy(t, v, i) <==> HeldBy(s, v, i))
      && (!delivered ==> forall v, i :: HeldBy(t, v, i) <==> HeldBy(s, v, i))
  {
    var t := AfterDequeue(s, w, id, now, delivered);
    if delivered {
      assert t.workers == s.workers[w := t.workers[w]];
      OneWorkerChanges(s, t, w);
    } else {
      assert forall v, i :: HeldBy(t, v, i) <==> HeldBy(s, v, i);
    }
  }

  lemma AfterDequeueAgrees(s: State, w: WorkerId, id: TaskId, now: int, delivered: bool)
    requires HoldersAgree(s) && w in s.workers && s.workers[w].Idle? && !s.phase.Closed? && id in s.history
    requires id in s.tasks && s.tasks[id].queue == w.queue && (forall v :: !HeldBy(s, v, id))
    requires delivered ==> s.tasks[id].attempt + 1 <= INT32_MAX
    ensures HoldersAgree(AfterDequeue(s, w, id, now, delivered))
  {
    var t := AfterDequeue(s, w, id, now, delivered);
    forall v | v in t.workers && t.workers[v].Holding? && v != w
      ensures HoldsRunningRow(t, v)
    {
      assert HoldsRunningRow(s, v) && HeldBy(s, v, s.workers[v].id);
    }
  }

  lemma AfterDequeueKeepsInv(s: State, w: WorkerId, id: TaskId, now: int, delivered: bool)
    requires Inv(s) && w in s.workers && s.workers[w].Idle? && !s.phase.Closed?
    requires id in s.tasks && s.tasks[id].status.Pending? && s.tasks[id].queue == w.queue
    requires delivered ==> s.tasks[id].attempt + 1 <= INT32_MAX
    requires s.phase.Live? && s.tasks[id].attempt + 1 <= INT32_MAX ==> delivered
    ensures Inv(AfterDequeue(s, w, id, now, delivered))
  {
    var t := AfterDequeue(s, w, id, now, delivered);
    hide Exclusive, NoOrphans, HoldersAgree, Accounted, HeldBy;
    assert id in s.history;
    UnheldWhilePending(s, id);
    AfterDequeueKeepsAccounting(s, w, id, now, delivered);
    AfterDequeueHolds(s, w, id, now, delivered);
    AfterDequeueAgrees(s, w, id, now, delivered);
    hide Accounting;
    assert t.workers.Keys == s.workers.Keys && |t.workers.Keys| == |s.workers.Keys|;
    OthersStayHeld(s, t, w, id);
  }

  lemma DequeueKeepsInv(s: State, w: WorkerId, id: TaskId, now: int, delivered: bool)
    requires Inv(s) && Enabled(s, Dequeue(w, id, now, delivered))
    ensures Inv(Apply(s, Dequeue(w, id, now, delivered)))
  {
    DequeueFinds(s, w, id, now, delivered);
    hide Inv, Enabled, Apply, AfterDequeue;
    AfterDequeueKeepsInv(s, w, id, now, delivered);
  }

  /** If every other running row is untouched and every other worker keeps its task, none of them is orphaned. */
  lemma OthersStayHeld(s: State, t: State, w: WorkerId, id: TaskId)
    requires NoOrphans(s) && t.phase == s.phase && t.queues == s.queues
    requires t.tasks.Keys == s.tasks.Keys
    requires forall i | i in s.tasks && i != id :: t.tasks[i] == s.tasks[i]
    requires forall v, i | v != w :: HeldBy(t, v, i) <==> HeldBy(s, v, i)
    requires forall i | HeldBy(s, w, i) :: i == id
    requires id in t.tasks && t.tasks[id].status.Running? && t.phase.Live? ==>
      t.tasks[id].attempt > INT32_MAX || exists v :: HeldBy(t, v, id)
    ensures NoOrphans(t)
  {
    if t.phase.Live? {
      forall i | i in t.tasks && t.tasks[i].status.Running? && t.tasks[i].queue in t.queues
        ensures t.tasks[i].attempt > INT32_MAX || exists v :: HeldBy(t, v, i)
      {
        if i != id && t.tasks[i].attempt <= INT32_MAX {
          var v :| HeldBy(s, v, i);
          assert HeldBy(t, v, i);
        }
      }
    }
  }

  lemma StageChangeKeepsInv(s: State, w: WorkerId, stage: Stage)
    requires Inv(s) && w in s.workers && s.workers[w].Holding?
    ensures Inv(s.(workers := s.workers[w := s.workers[w].(stage := stage)]))
  {
    var t := s.(workers := s.workers[w := s.workers[w].(stage := stage)]);
    assert t.workers.Keys == s.workers.Keys;
    assert HeldBy(s, w, s.workers[w].id);
    assert forall v, id :: HeldBy(t, v, id) <==> HeldBy(s, v, id);
    assert HoldersAgree(t) by {
      forall v | v in t.workers && t.workers[v].Holding?
        ensures t.workers[v].attempt >= 1 && t.workers[v].id in t.history &&
          (!t.phase.Closed? ==> HoldsRunningRow(t, v))
      {
        assert s.workers[v].Holding?;
        assert !s.phase.Closed? ==> HoldsRunningRow(s, v);
      }
    }
    assert NoOrphans(t) by {
      if t.phase.Live? {
        forall id |
        && id in t.tasks && t.tasks[id].status.Running?
        && t.tasks[id].queue in t.queues && t.tasks[id].attempt <= INT32_MAX
          ensures exists v :: HeldBy(t, v, id)
        {
          var v :| HeldBy(s, v, id);
          assert HeldBy(t, v, id);
        }
      }
    }
  }

  /** A worker lets go of its task, whose row may change but no longer runs unless shutdown has begun. */
  lemma ReleaseKeepsInv(s: State, t: State, w: WorkerId)
    requires Inv(s) && w in s.workers && s.workers[w].Holding?
    requires t.workers == s.workers[w := Idle] && t.queues == s.queues
    requires t.phase == s.phase && t.maxConcurrency == s.maxConcurrency
    requires s.history.Keys <= t.history.Keys && t.tasks.Keys == s.tasks.Keys
    requires forall i | i in s.tasks && i != s.workers[w].id :: t.tasks[i] == s.tasks[i]
    requires s.phase.Closed? ==> t.tasks == s.tasks
    requires s.workers[w].id in t.tasks && s.phase.Live? ==> !t.tasks[s.workers[w].id].status.Running?
    requires Accounting(t)
    ensures Inv(t)
  {
    var id := s.workers[w].id;
    assert HeldBy(s, w, id);
    assert t.workers.Keys == s.workers.Keys;
    OneWorkerChanges(s, t, w);
    assert HoldersAgree(t) by {
      forall v | v in t.workers && t.workers[v].Holding?
        ensures t.workers[v].attempt >= 1 && t.workers[v].id in t.history &&
          (!t.phase.Closed? ==> HoldsRunningRow(t, v))
      {
        assert v != w && t.workers[v] == s.workers[v];
        assert HeldBy(s, v, s.workers[v].id);
        assert s.workers[v].id != id;
        assert !s.phase.Closed? ==> HoldsRunningRow(s, v);
      }
    }
    OthersStayHeld(s, t, w, id);
  }

  lemma RevertKeepsInv(s: State, w: WorkerId, now: int)
    requires Inv(s) && w in s.workers && s.workers[w].Holding? && !s.phase.Live?
    ensures Inv(AfterRevert(s, w, now))
  {
    var t := AfterRevert(s, w, now);
    if !s.phase.Closed? {
      assert HoldsRunningRow(s, w);
    }
    ReleaseKeepsInv(s, t, w);
  }

  lemma CompleteKeepsInv(s: State, w: WorkerId, now: int, written: bool)
    requires Inv(s) && Enabled(s, CompleteTask(w, now, written))
    ensures Inv(Apply(s, CompleteTask(w, now, written)))
  {
    if written {
      assert HoldsRunningRow(s, w);
    }
    ReleaseKeepsInv(s, Apply(s, CompleteTask(w, now, written)), w);
  }

  lemma FailureKeepsInv(s: State, w: WorkerId, now: int, written: bool)
    requires Inv(s) && Enabled(s, HandleFailure(w, now, written))
    ensures Inv(Apply(s, HandleFailure(w, now, written)))
  {
    if written {
      assert HoldsRunningRow(s, w);
    }
    ReleaseKeepsInv(s, Apply(s, HandleFailure(w, now, written)), w);
  }

  lemma BeginCloseKeepsInv(s: State)
    requires Inv(s) && s.phase.Live?
    ensures Inv(Apply(s, BeginClose))
  {
    var t := Apply(s, BeginClose);
    assert forall w, id :: HeldBy(t, w, id) <==> HeldBy(s, w, id);
    assert forall w | w in t.workers && t.workers[w].Holding? :: HoldsRunningRow(s, w) ==> HoldsRunningRow(t, w);
  }

  lemma FinishCloseKeepsInv(s: State, now: int)
    requires Inv(s) && Enabled(s, FinishClose(now))
    ensures Inv(Apply(s, FinishClose(now)))
  {
    var t := Apply(s, FinishClose(now));
    assert forall w, id :: HeldBy(t, w, id) <==> HeldBy(s, w, id);
    ResetKeepsAccounting(s, t, None, now);
  }

  lemma CrashKeepsInv(s: State)
    requires Inv(s)
    ensures Inv(Apply(s, Crash))
  {
    assert TotalConcurrency(map[]) == 0;
  }

  lemma StepKeepsInv(s: State, e: Event)
    requires Inv(s)
    ensures Inv(Apply(s, e))
  {
    hide Inv;
    if Enabled(s, e) {
      match e {
        case CreateQueue(name, config, now) => CreateQueueKeepsInv(s, name, config, now);
        case Dequeue(w, id, now, delivered) => DequeueKeepsInv(s, w, id, now, delivered);
        case AbortWait(w, now) => RevertKeepsInv(s, w, now);
        case StartCallback(w) => StageChangeKeepsInv(s, w, InCallback);
        case CallbackReturned(w, outcome, now) =>
          if s.phase.Live? {
            StageChangeKeepsInv(s, w, Returned(outcome));
          } else {
            RevertKeepsInv(s, w, now);
          }
        case CompleteTask(w, now, written) => CompleteKeepsInv(s, w, now, written);
        case HandleFailure(w, now, written) => FailureKeepsInv(s, w, now, written);
        case BeginClose => BeginCloseKeepsInv(s);
        case FinishClose(now) => FinishCloseKeepsInv(s, now);
        case Crash => CrashKeepsInv(s);
        case Enqueue(_, _, _, _) => EnqueueKeepsInv(s, e);
        case ClearQueue(_, _) => ClearQueueKeepsInv(s, e);
        case Cleanup(_, _) => CleanupKeepsInv(s, e);
        case _ => CancelKeepsInv(s, e);
      }
    }
  }
}
