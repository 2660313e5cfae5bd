/**
 The plugin task queue as a state machine. Every SQL statement of the service is one atomic step;
 a worker is a program counter that holds at most one task; a crash forgets everything except the
 task table.
 */
module TaskQueueModel {
  import Backoff

  const INT32_MAX: int := 0x7FFF_FFFF
  const DEFAULT_CONCURRENCY: int32 := 1
  const DEFAULT_BACKOFF_MS: int64 := 1000
  const DEFAULT_RETENTION_MS: int64 := 3_600_000
  const MIN_RETENTION_MS: int64 := 60_000
  const MAX_RETENTION_MS: int64 := 604_800_000
  const MAX_QUEUE_NAME_LENGTH := 128
  const MAX_PAYLOAD_SIZE := 1024 * 1024

  type int32 = x: int | -0x8000_0000 <= x <= 0x7FFF_FFFF
  type int64 = x: int | -0x8000_0000_0000_0000 <= x <= 0x7FFF_FFFF_FFFF_FFFF
  type TaskId = string
  type Bytes = seq<bv8>

  datatype Option<+T> = None | Some(value: T)

  datatype Status = Pending | Running | Completed | Failed | Cancelled

  predicate IsTerminal(status: Status) {
    status.Completed? || status.Failed? || status.Cancelled?
  }

  /** One row of the tasks table. */
  datatype Task = Task(queue: string, payload: Bytes, status: Status, attempt: nat, maxRetries: int32,
                       nextRunAt: int, createdAt: int, updatedAt: int, message: string)

  datatype QueueConfig = QueueConfig(concurrency: int32, maxRetries: int32,
      backoffMs: int64, delayMs: int64, retentionMs: int64)

  datatype WorkerId = WorkerId(queue: string, index: int)

  /** What a plugin callback returned. */
  datatype Outcome = Success(message: string) | Error(message: string, error: string)

  /** Where a worker stands between dequeuing a task and writing its result. */
  datatype Stage = RateLimited | InCallback | Returned(outcome: Outcome)

  datatype Activity = Idle | Holding(id: TaskId, attempt: int32, maxRetries: int32, stage: Stage)

  datatype Phase = Live | Stopping | Closed

  /** History variables: what happened to a task so far. They outlive the row and every crash. */
  datatype History = History(dequeues: nat, reverts: nat, resets: nat, failures: nat)

  datatype State = State(
    maxConcurrency: int32,
    clock: int,
    phase: Phase,
    queues: map<string, QueueConfig>,
    tasks: map<TaskId, Task>,
    workers: map<WorkerId, Activity>,
    history: map<TaskId, History>)

  /** A `now` is a reading of the clock, possibly taken well before the statement runs. */
  datatype Event =
    | Tick(ms: nat)
    | CreateQueue(name: string, config: QueueConfig, now: int)
    | Enqueue(id: TaskId, queue: string, payload: Bytes, now: int)
    | Cancel(id: TaskId, now: int)
    | ClearQueue(queue: string, now: int)
    | Dequeue(worker: WorkerId, id: TaskId, now: int, delivered: bool)
    | AbortWait(worker: WorkerId, now: int)
    | StartCallback(worker: WorkerId)
    | CallbackReturned(worker: WorkerId, outcome: Outcome, now: int)
    | CompleteTask(worker: WorkerId, now: int, written: bool)
    | HandleFailure(worker: WorkerId, now: int, written: bool)
    | Cleanup(queue: string, now: int)
    | BeginClose
    | FinishClose(now: int)
    | Crash

  // ---- Configuration ----

  function ApplyConfigDefaults(config: QueueConfig): QueueConfig {
    var concurrency := if config.concurrency <= 0 then DEFAULT_CONCURRENCY else config.concurrency;
    var backoffMs := if config.backoffMs <= 0 then DEFAULT_BACKOFF_MS else config.backoffMs;
    var retentionMs := if config.retentionMs <= 0 then DEFAULT_RETENTION_MS else config.retentionMs;
    var atLeast := if retentionMs < MIN_RETENTION_MS then MIN_RETENTION_MS else retentionMs;
    var clamped := if atLeast > MAX_RETENTION_MS then MAX_RETENTION_MS else atLeast;
    QueueConfig(concurrency, config.maxRetries, backoffMs, config.delayMs, clamped)
  }

  ghost function TotalConcurrency(queues: map<string, QueueConfig>): int {
    if queues == map[] then 0 else
      var name :| name in queues;
      queues[name].concurrency + TotalConcurrency(queues - {name})
  }

  /** The budget left to one more queue; nothing when it is exhausted. */
  ghost function ClampConcurrency(s: State, config: QueueConfig): Option<QueueConfig> {
    var available := s.maxConcurrency - TotalConcurrency(s.queues);
    if available <= 0 then None
    else if config.concurrency > available then
      Some(config.(concurrency := available))
    else Some(config)
  }

  datatype CreateError = EmptyName | NameTooLong | BudgetExhausted | AlreadyExists

  datatype CreateResult = Created(config: QueueConfig) | Rejected(error: CreateError)

  ghost function CreateOutcome(s: State, name: string, config: QueueConfig): CreateResult {
    if |name| == 0 then Rejected(EmptyName)
    else if |name| > MAX_QUEUE_NAME_LENGTH then Rejected(NameTooLong)
    else
      match ClampConcurrency(s, ApplyConfigDefaults(config))
      case None => Rejected(BudgetExhausted)
      case Some(clamped) => if name in s.queues then Rejected(AlreadyExists) else Created(clamped)
  }

  // ---- Statements on the task table ----

  predicate Selected(task: Task, only: Option<string>) {
    task.status.Running? && (only.Some? ==> task.queue == only.value)
  }

  function ResetRunning(tasks: map<TaskId, Task>, only: Option<string>, now: int): map<TaskId, Task> {
    map id | id in tasks ::
      if Selected(tasks[id], only) then tasks[id].(status := Pending, updatedAt := now) else tasks[id]
  }

  function RecordResets(history: map<TaskId, History>, tasks: map<TaskId, Task>,
      only: Option<string>): map<TaskId, History> {
    map id | id in history ::
      if id in tasks && Selected(tasks[id], only) then history[id].(resets := history[id].resets + 1) else history[id]
  }

  function CancelPending(tasks: map<TaskId, Task>, queue: string, now: int): map<TaskId, Task> {
    map id | id in tasks ::
      if tasks[id].queue == queue && tasks[id].status.Pending?
      then tasks[id].(status := Cancelled, updatedAt := now) else tasks[id]
  }

  predicate Expired(task: Task, queue: string, retentionMs: int, now: int) {
    task.queue == queue && IsTerminal(task.status) && task.updatedAt + retentionMs < now
  }

  function DeleteExpired(tasks: map<TaskId, Task>, queue: string, retentionMs: int, now: int): map<TaskId, Task> {
    map id | id in tasks && !Expired(tasks[id], queue, retentionMs, now) :: tasks[id]
  }

  predicate Eligible(task: Task, queue: string, now: int) {
    task.queue == queue && task.status.Pending? && task.nextRunAt <= now
  }

  predicate RunsBefore(a: Task, b: Task) {
    a.nextRunAt < b.nextRunAt || (a.nextRunAt == b.nextRunAt && a.createdAt <= b.createdAt)
  }

  /** The task the dequeue statement may pick: eligible, and none eligible sorts strictly before it. */
  predicate IsNext(tasks: map<TaskId, Task>, queue: string, now: int, id: TaskId) {
    id in tasks && Eligible(tasks[id], queue, now) &&
    forall other | other in tasks && Eligible(tasks[other], queue, now) :: RunsBefore(tasks[id], tasks[other])
  }

  function RevertTask(task: Task, now: int): Task {
    if task.status.Running?
    then task.(status := Pending, attempt := if task.attempt - 1 > 0 then task.attempt - 1 else 0, updatedAt := now)
    else task
  }

  function FailedTask(task: Task, held: Activity, backoffMs: int, outcome: Outcome, now: int): Task
    requires held.Holding? && held.attempt >= 1 && outcome.Error?
  {
    if held.attempt > held.maxRetries then
      var message := if outcome.message == "" then outcome.error else outcome.message;
      task.(status := Failed, message := message, updatedAt := now)
    else
      task.(status := Pending, nextRunAt := now + Backoff.Delay(backoffMs, held.attempt), updatedAt := now)
  }

  // ---- Steps ----

  predicate HoldsAt(s: State, w: WorkerId, stage: Stage) {
    w in s.workers && s.workers[w].Holding? && s.workers[w].stage == stage
  }

  predicate Reads(s: State, now: int) {
    now <= s.clock
  }

  /** Which steps the service can take. A database write fails only once shutdown has begun. */
  predicate Enabled(s: State, e: Event) {
    match e
    case Tick(_) => true
    case CreateQueue(_, _, now) => Reads(s, now) && !s.phase.Closed?
    case Enqueue(id, queue, payload, now) =>
      Reads(s, now) && !s.phase.Closed? && queue in s.queues && |payload| <= MAX_PAYLOAD_SIZE && id !in s.history
    case Cancel(_, now) => Reads(s, now) && !s.phase.Closed?
    case ClearQueue(queue, now) => Reads(s, now) && !s.phase.Closed? && queue in s.queues
    case Dequeue(w, id, now, delivered) =>
      Reads(s, now) && !s.phase.Closed? && w in s.workers && s.workers[w].Idle? &&
      IsNext(s.tasks, w.queue, now, id) &&
      (delivered ==> s.tasks[id].attempt + 1 <= INT32_MAX) &&
      (s.phase.Live? && s.tasks[id].attempt + 1 <= INT32_MAX ==> delivered)
    case AbortWait(w, now) =>
      Reads(s, now) && !s.phase.Live? && HoldsAt(s, w, RateLimited) &&
      w.queue in s.queues && s.queues[w.queue].delayMs > 0
    case StartCallback(w) => HoldsAt(s, w, RateLimited)
    case CallbackReturned(w, _, now) => Reads(s, now) && HoldsAt(s, w, InCallback)
    case CompleteTask(w, now, written) =>
      Reads(s, now) && WriteAllowed(s, written) && w in s.workers &&
      s.workers[w].Holding? && s.workers[w].stage.Returned? && s.workers[w].stage.outcome.Success?
    case HandleFailure(w, now, written) =>
      Reads(s, now) && WriteAllowed(s, written) && w in s.workers && w.queue in s.queues &&
      s.workers[w].Holding? && s.workers[w].stage.Returned? &&
      s.workers[w].stage.outcome.Error? && s.workers[w].attempt >= 1
    case Cleanup(queue, now) => Reads(s, now) && !s.phase.Closed? && queue in s.queues
    case BeginClose => s.phase.Live?
    case FinishClose(now) => Reads(s, now) && s.phase.Stopping?
    case Crash => true
  }

  predicate WriteAllowed(s: State, written: bool) {
    (s.phase.Live? ==> written) && (s.phase.Closed? ==> !written)
  }

  /** A step that the service cannot take leaves everything as it is. */
  ghost function Apply(s: State, e: Event): State {
    if Enabled(s, e) then Take(s, e) else s
  }

  ghost function Take(s: State, e: Event): State
    requires Enabled(s, e)
  {
    match e
    case Tick(ms) => s.(clock := s.clock + ms)
    case CreateQueue(name, config, now) => AfterCreateQueue(s, name, config, now)
    case Enqueue(id, queue, payload, now) =>
      s.(tasks := s.tasks[id := Task(queue, payload, Pending, 0, s.queues[queue].maxRetries, now, now, now, "")],
         history := s.history[id := History(0, 0, 0, 0)])
    case Cancel(id, now) =>
      if id in s.tasks && s.tasks[id].status.Pending?
      then s.(tasks := s.tasks[id := s.tasks[id].(status := Cancelled, updatedAt := now)]) else s
    case ClearQueue(queue, now) => s.(tasks := CancelPending(s.tasks, queue, now))
    case Dequeue(w, id, now, delivered) => AfterDequeue(s, w, id, now, delivered)
    case AbortWait(w, now) => AfterRevert(s, w, now)
    case StartCallback(w) => s.(workers := s.workers[w := s.workers[w].(stage := InCallback)])
    case CallbackReturned(w, outcome, now) =>
      if s.phase.Live? then s.(workers := s.workers[w := s.workers[w].(stage := Returned(outcome))])
      else AfterRevert(s, w, now)
    case CompleteTask(w, now, written) => AfterComplete(s, w, now, written)
    case HandleFailure(w, now, written) => AfterFailure(s, w, now, written)
    case Cleanup(queue, now) => s.(tasks := DeleteExpired(s.tasks, queue, s.queues[queue].retentionMs, now))
    case BeginClose => s.(phase := Stopping)
    case FinishClose(now) =>
      s.(phase := Closed, tasks := ResetRunning(s.tasks, None, now), history := RecordResets(s.history, s.tasks, None))
    case Crash => s.(phase := Live, queues := map[], workers := map[])
  }

  ghost function AfterCreateQueue(s: State, name: string, config: QueueConfig, now: int): State {
    match CreateOutcome(s, name, config)
    case Rejected(_) => s
    case Created(clamped) => WithNewQueue(s, name, clamped, now)
  }

  /** Rows left running by a crash go back to pending before the first worker of the queue starts. */
  function WithNewQueue(s: State, name: string, config: QueueConfig, now: int): State {
    s.(queues := s.queues[name := config],
       tasks := ResetRunning(s.tasks, Some(name), now),
       history := RecordResets(s.history, s.tasks, Some(name)),
       workers := s.workers + NewWorkers(name, config.concurrency))
  }

  function NewWorkers(name: string, count: int): map<WorkerId, Activity> {
    map i | 0 <= i < count :: WorkerId(name, i) := Idle
  }

  function AfterDequeue(s: State, w: WorkerId, id: TaskId, now: int, delivered: bool): State
    requires w in s.workers && id in s.tasks
    requires delivered ==> s.tasks[id].attempt + 1 <= INT32_MAX
  {
    var task := s.tasks[id];
    var running := task.(status := Running, attempt := task.attempt + 1, updatedAt := now);
    s.(tasks := s.tasks[id := running],
       workers := if delivered
                  then s.workers[w := Holding(id, running.attempt, running.maxRetries, RateLimited)] else s.workers,
       history := if id in s.history
                  then s.history[id := s.history[id].(dequeues := s.history[id].dequeues + 1)] else s.history)
  }

  function AfterRevert(s: State, w: WorkerId, now: int): State
    requires w in s.workers && s.workers[w].Holding?
  {
    var id := s.workers[w].id;
    var effective := id in s.tasks && s.tasks[id].status.Running?;
    s.(workers := s.workers[w := Idle],
       tasks := if effective then s.tasks[id := RevertTask(s.tasks[id], now)] else s.tasks,
       history := if effective && id in s.history
                  then s.history[id := s.history[id].(reverts := s.history[id].reverts + 1)] else s.history)
  }

  /** The completing UPDATE names the task by id alone: it does not look at the row's status. */
  function AfterComplete(s: State, w: WorkerId, now: int, written: bool): State
    requires w in s.workers && s.workers[w].Holding?
    requires s.workers[w].stage.Returned? && s.workers[w].stage.outcome.Success?
  {
    var held := s.workers[w];
    s.(workers := s.workers[w := Idle],
       tasks := if written && held.id in s.tasks
                then s.tasks[held.id := s.tasks[held.id].(
                  status := Completed, message := held.stage.outcome.message, updatedAt := now)]
                else s.tasks)
  }

  /** Neither do the two failing UPDATEs. */
  function AfterFailure(s: State, w: WorkerId, now: int, written: bool): State
    requires w in s.workers && s.workers[w].Holding?
    requires s.workers[w].stage.Returned? && s.workers[w].stage.outcome.Error?
    requires s.workers[w].attempt >= 1 && w.queue in s.queues
  {
    var held := s.workers[w];
    var id := held.id;
    if written && id in s.tasks then
      s.(workers := s.workers[w := Idle],
         tasks := s.tasks[id := FailedTask(s.tasks[id], held, s.queues[w.queue].backoffMs, held.stage.outcome, now)],
         history := if id in s.history
                    then s.history[id := s.history[id].(failures := s.history[id].failures + 1)] else s.history)
    else
      s.(workers := s.workers[w := Idle])
  }

  // ---- Runs ----

  /** Any sequence of steps, in any interleaving. */
  ghost function Execute(s: State, events: seq<Event>): State
    decreases |events|
  {
    if events == [] then s else Execute(Apply(s, events[0]), events[1..])
  }

  /** A service freshly started on an empty database. */
  function Initial(maxConcurrency: int32, clock: int): State {
    State(maxConcurrency, clock, Live, map[], map[], map[], map[])
  }
}
