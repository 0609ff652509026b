/**
 The pool that batches metadata requests: dispatcher threads put jobs into tasks and queue the tasks, one manager
 takes tasks off the queue and hands each to a free connection, and each connection's worker runs its task.
 Every step holds at most one of the code's mutexes.
 */
module ConnectionPool {
  import opened Common

  const BATCH_TYPES: nat := 6

  // ------------------------------------------------------------------ which requests may share a batch

  datatype Request = Request(types: seq<nat>, allowBatch: bool)

  const MKDIR: nat := 1
  const CREATE: nat := 4
  const STAT: nat := 5
  const OPEN: nat := 6
  const CLOSE: nat := 7
  const UNLINK: nat := 8

  /** The service types that can be batched, each with the number of its open batch. */
  function BatchType(serviceType: nat): Option<nat> {
    match serviceType
    case 1 => Some(0)
    case 4 => Some(1)
    case 5 => Some(2)
    case 8 => Some(3)
    case 6 => Some(4)
    case 7 => Some(5)
    case _ => None
  }

  /** Each open batch is for one service type. */
  lemma BatchTypeInjective(x: nat, y: nat)
    ensures BatchType(x).Some? <==> x in {MKDIR, CREATE, STAT, OPEN, CLOSE, UNLINK}
    ensures BatchType(x).Some? ==> BatchType(x).value < BATCH_TYPES
    ensures BatchType(x).Some? && BatchType(x) == BatchType(y) ==> x == y
  {
  }

  /** A request without operations is dropped, one goes alone, or joins a batch. */
  datatype Way = Dropped | Alone | Joins(batchType: nat)

  /** A request joins a batch when it allows that and all its operations have one type that can be batched. */
  method Classify(r: Request) returns (w: Way)
    ensures w.Dropped? <==> r.types == []
    ensures w.Joins? <==>
      r.types != [] && r.allowBatch && BatchType(r.types[0]).Some? && forall t :: t in r.types ==> t == r.types[0]
    ensures w.Joins? ==> w.batchType < BATCH_TYPES && forall t :: t in r.types ==> BatchType(t) == Some(w.batchType)
  {
    if r.types == [] {
      return Dropped;
    }
    var b := BatchType(r.types[0]);
    if !r.allowBatch || b.None? {
      return Alone;
    }
    for i := 1 to |r.types|
      invariant forall j :: 0 <= j < i ==> r.types[j] == r.types[0]
    {
      if r.types[i] != r.types[0] {
        assert r.types[i] in r.types;
        return Alone;
      }
    }
    w := Joins(b.value);
  }

  // ------------------------------------------------------------------ the state

  type Job = nat

  datatype Task = Task(jobs: seq<Job>, batch: bool)

  datatype Dispatcher =
    | New(batchType: Option<nat>)
    | ToPush(task: nat)
    | Sent

  datatype Manager =
    | Fetching
    | HasConn(conn: nat)
    | Popped(conn: nat, task: nat)
    | Ready(conn: nat, task: nat)

  /** A worker replies, puts its connection back into the pool, and only then lets its task go. */
  datatype Worker =
    | Resting
    | Got(task: nat)
    | Replied(task: nat)
    | Returned(task: nat)

  /** Where a task is on its way: without jobs, about to be queued by a job's dispatcher, in the queue, with the
      manager, or given to a connection. */
  datatype Stage = Unused | Announced(job: Job) | Queued | Held | Given

  /** A place in a task's list of jobs. */
  datatype Spot = Spot(task: nat, index: nat)

  /** open: the batch being filled, per type.  home, stage, handed and ran only record history: where each job was
      put, where each task is, which connection got it and which tasks were run. */
  datatype State = State(
    tasks: map<nat, Task>,
    open: seq<nat>,
    dispatchers: map<Job, Dispatcher>,
    pending: seq<nat>,
    manager: Manager,
    pool: seq<nat>,
    workers: map<nat, Worker>,
    home: map<Job, Spot>,
    stage: map<nat, Stage>,
    handed: map<nat, nat>,
    ran: set<nat>)

  datatype Limits = Limits(batchMax: nat, pendingMax: nat)

  datatype Step =
    | Arrive(job: Job, batchType: Option<nat>)
    | Join(job: Job)
    | Solo(job: Job, task: nat)
    | Push(job: Job)
    | TakeConn
    | PopTask
    | Replace(task: nat)
    | HandOver
    | Reply(conn: nat)
    | ReturnConn(conn: nat)
    | Clear(conn: nat)

  ghost predicate Init(s: State) {
    && |s.open| == BATCH_TYPES && (forall b :: 0 <= b < |s.open| ==> s.open[b] in s.tasks)
    && (forall b, c :: 0 <= b < c < |s.open| ==> s.open[b] != s.open[c])
    && (forall t :: t in s.tasks ==> s.tasks[t] == Task([], true))
    && s.stage == (map t | t in s.tasks :: Unused)
    && s.dispatchers == map[] && s.home == map[] && s.pending == [] && s.manager == Fetching && s.handed == map[] && s.ran == {}
    && (forall c :: c in s.workers ==> s.workers[c] == Resting) && (forall i :: 0 <= i < |s.pool| ==> s.pool[i] in s.workers)
  }

  predicate ArriveStep(s: State, t: State, job: Job, b: Option<nat>) {
    && job !in s.dispatchers && (b.Some? ==> b.value < |s.open|) && t == s.(dispatchers := s.dispatchers[job := New(b)])
  }

  /** Under the batch's mutex: the first job of a batch makes its dispatcher queue it. */
  predicate JoinStep(l: Limits, s: State, t: State, job: Job) {
    && job in s.dispatchers && s.dispatchers[job].New? && s.dispatchers[job].batchType.Some?
    && s.dispatchers[job].batchType.value < |s.open|
    && var task := s.open[s.dispatchers[job].batchType.value];
    && task in s.tasks && |s.tasks[task].jobs| < l.batchMax
    && var first := s.tasks[task].jobs == [];
    t == s.(tasks := s.tasks[task := s.tasks[task].(jobs := s.tasks[task].jobs + [job])],
            dispatchers := s.dispatchers[job := if first then ToPush(task) else Sent],
            home := s.home[job := Spot(task, |s.tasks[task].jobs|)],
            stage := if first then s.stage[task := Announced(job)] else s.stage)
  }

  predicate SoloStep(s: State, t: State, job: Job, task: nat) {
    && job in s.dispatchers && s.dispatchers[job] == New(None) && task !in s.tasks
    && t == s.(tasks := s.tasks[task := Task([job], false)], dispatchers := s.dispatchers[job := ToPush(task)],
               home := s.home[job := Spot(task, 0)], stage := s.stage[task := Announced(job)])
  }

  predicate PushStep(l: Limits, s: State, t: State, job: Job) {
    && job in s.dispatchers && s.dispatchers[job].ToPush? && |s.pending| < l.pendingMax
    && t == s.(pending := s.pending + [s.dispatchers[job].task], dispatchers := s.dispatchers[job := Sent],
               stage := s.stage[s.dispatchers[job].task := Queued])
  }

  predicate TakeConnStep(s: State, t: State) {
    s.manager == Fetching && s.pool != [] && t == s.(manager := HasConn(s.pool[0]), pool := s.pool[1..])
  }

  predicate PopTaskStep(s: State, t: State) {
    && s.manager.HasConn? && s.pending != []
    && t == s.(manager := Popped(s.manager.conn, s.pending[0]), pending := s.pending[1..],
               stage := s.stage[s.pending[0] := Held])
  }

  /** An open batch that comes off the queue is replaced by a new empty one before it is handed over. */
  predicate ReplaceStep(s: State, t: State, task: nat) {
    && s.manager.Popped?
    && if s.manager.task in s.open then
         && task !in s.tasks
         && exists b :: 0 <= b < |s.open| && s.open[b] == s.manager.task
                        && t == s.(manager := Ready(s.manager.conn, s.manager.task), open := s.open[b := task],
                                   tasks := s.tasks[task := Task([], true)], stage := s.stage[task := Unused])
       else t == s.(manager := Ready(s.manager.conn, s.manager.task))
  }

  predicate HandOverStep(s: State, t: State) {
    && s.manager.Ready? && s.manager.conn in s.workers && s.workers[s.manager.conn] == Resting
    && t == s.(manager := Fetching, workers := s.workers[s.manager.conn := Got(s.manager.task)],
               handed := s.handed[s.manager.task := s.manager.conn], stage := s.stage[s.manager.task := Given])
  }

  predicate ReplyStep(s: State, t: State, c: nat) {
    && c in s.workers && s.workers[c].Got?
    && t == s.(workers := s.workers[c := Replied(s.workers[c].task)], ran := s.ran + {s.workers[c].task})
  }

  predicate ReturnConnStep(s: State, t: State, c: nat) {
    && c in s.workers && s.workers[c].Replied?
    && t == s.(workers := s.workers[c := Returned(s.workers[c].task)], pool := s.pool + [c])
  }

  predicate ClearStep(s: State, t: State, c: nat) {
    c in s.workers && s.workers[c].Returned? && t == s.(workers := s.workers[c := Resting])
  }

  predicate NextStep(l: Limits, s: State, t: State, step: Step) {
    match step
    case Arrive(job, b) => ArriveStep(s, t, job, b)
    case Join(job) => JoinStep(l, s, t, job)
    case Solo(job, task) => SoloStep(s, t, job, task)
    case Push(job) => PushStep(l, s, t, job)
    case TakeConn => TakeConnStep(s, t)
    case PopTask => PopTaskStep(s, t)
    case Replace(task) => ReplaceStep(s, t, task)
    case HandOver => HandOverStep(s, t)
    case Reply(c) => ReplyStep(s, t, c)
    case ReturnConn(c) => ReturnConnStep(s, t, c)
    case Clear(c) => ClearStep(s, t, c)
  }

  // ------------------------------------------------------------------ the invariant

  predicate Holds(m: Manager, task: nat) {
    (m.Popped? || m.Ready?) && m.task == task
  }

  predicate JobAt(tasks: map<nat, Task>, t: nat, i: int) {
    t in tasks && 0 <= i < |tasks[t].jobs|
  }

  /** A job is in one place of one task, from the moment its dispatcher has placed it. */
  ghost predicate JobsOk(tasks: map<nat, Task>, home: map<Job, Spot>) {
    && (forall t: nat, i :: JobAt(tasks, t, i) ==> tasks[t].jobs[i] in home && home[tasks[t].jobs[i]] == Spot(t, i))
    && (forall j :: j in home ==> JobAt(tasks, home[j].task, home[j].index) && tasks[home[j].task].jobs[home[j].index] == j)
  }

  ghost predicate PlacedOk(dispatchers: map<Job, Dispatcher>, home: map<Job, Spot>) {
    forall j :: j in home <==> j in dispatchers && !dispatchers[j].New?
  }

  /** A batch never exceeds its maximum, and any other task has one job. */
  ghost predicate SizesOk(l: Limits, tasks: map<nat, Task>) {
    forall t :: t in tasks ==> if tasks[t].batch then |tasks[t].jobs| <= l.batchMax else |tasks[t].jobs| == 1
  }

  ghost predicate StagesOk(tasks: map<nat, Task>, stage: map<nat, Stage>) {
    stage.Keys == tasks.Keys && forall t :: t in tasks ==> (tasks[t].jobs == [] <==> stage[t] == Unused)
  }

  ghost predicate AnnouncedOk(stage: map<nat, Stage>, dispatchers: map<Job, Dispatcher>) {
    && (forall j :: j in dispatchers && dispatchers[j].ToPush? ==>
          dispatchers[j].task in stage && stage[dispatchers[j].task] == Announced(j))
    && forall t :: t in stage && stage[t].Announced? ==>
         stage[t].job in dispatchers && dispatchers[stage[t].job] == ToPush(t)
  }

  ghost predicate QueueOk(l: Limits, stage: map<nat, Stage>, pending: seq<nat>) {
    && |pending| <= l.pendingMax
    && (forall i, j :: 0 <= i < j < |pending| ==> pending[i] != pending[j])
    && forall t :: t in pending <==> t in stage && stage[t] == Queued
  }

  ghost predicate HeldOk(stage: map<nat, Stage>, manager: Manager) {
    forall t :: Holds(manager, t) <==> t in stage && stage[t] == Held
  }

  ghost predicate GivenOk(stage: map<nat, Stage>, handed: map<nat, nat>) {
    forall t :: t in handed <==> t in stage && stage[t] == Given
  }

  /** Open batches are still to come off the queue, or have, but were not replaced yet. */
  ghost predicate OpenOk(tasks: map<nat, Task>, open: seq<nat>, manager: Manager, handed: map<nat, nat>) {
    && (forall b :: 0 <= b < |open| ==> open[b] in tasks && tasks[open[b]].batch && open[b] !in handed)
    && (forall b, c :: 0 <= b < c < |open| ==> open[b] != open[c])
    && (manager.Ready? ==> manager.task !in open)
  }

  function TaskOf(w: Worker): Option<nat> {
    if w.Resting? then None else Some(w.task)
  }

  /** A connection runs what it was handed, and a task is run once. */
  ghost predicate WorkOk(workers: map<nat, Worker>, handed: map<nat, nat>, ran: set<nat>) {
    && (forall c :: c in workers && !workers[c].Resting? ==>
          workers[c].task in handed && handed[workers[c].task] == c && (workers[c].Got? <==> workers[c].task !in ran))
    && (forall t :: t in ran ==> t in handed)
    && (forall t :: t in handed && t !in ran ==> handed[t] in workers && workers[handed[t]] == Got(t))
  }

  /** About the tasks and their jobs. */
  ghost predicate TasksOk(l: Limits, s: State) {
    && JobsOk(s.tasks, s.home) && PlacedOk(s.dispatchers, s.home) && SizesOk(l, s.tasks) && StagesOk(s.tasks, s.stage)
    && OpenOk(s.tasks, s.open, s.manager, s.handed)
  }

  /** About their way through the pool. */
  ghost predicate FlowOk(l: Limits, s: State) {
    && AnnouncedOk(s.stage, s.dispatchers) && QueueOk(l, s.stage, s.pending) && HeldOk(s.stage, s.manager)
    && GivenOk(s.stage, s.handed) && WorkOk(s.workers, s.handed, s.ran)
  }

  ghost predicate Inv(l: Limits, s: State) {
    TasksOk(l, s) && FlowOk(l, s)
  }

  lemma InitOk(l: Limits, s: State)
    requires Init(s)
    ensures Inv(l, s)
  {
  }

  // ------------------------------------------------------------------ every step keeps it

  lemma ArriveKeeps(l: Limits, s: State, t: State, job: Job, b: Option<nat>)
    requires Inv(l, s) && ArriveStep(s, t, job, b)
    ensures Inv(l, t)
  {
  }

  lemma PlaceJob(tasks: map<nat, Task>, home: map<Job, Spot>, task: nat, t: Task, job: Job)
    requires JobsOk(tasks, home) && job !in home && t.jobs == (if task in tasks then tasks[task].jobs else []) + [job]
    ensures JobsOk(tasks[task := t], home[job := Spot(task, |t.jobs| - 1)])
  {
    var tasks', home' := tasks[task := t], home[job := Spot(task, |t.jobs| - 1)];
    forall x: nat, i | JobAt(tasks', x, i)
      ensures tasks'[x].jobs[i] in home' && home'[tasks'[x].jobs[i]] == Spot(x, i)
    {
      if !(x == task && i == |t.jobs| - 1) { assert JobAt(tasks, x, i) && tasks'[x].jobs[i] == tasks[x].jobs[i]; }
    }
  }

  /** The stages after a task without jobs got its first one. */
  lemma AnnounceStages(l: Limits, s: State, task: nat, job: Job)
    requires Inv(l, s) && (task in s.stage ==> s.stage[task] == Unused)
    requires job in s.dispatchers && s.dispatchers[job].New?
    ensures var stage, dispatchers := s.stage[task := Announced(job)], s.dispatchers[job := ToPush(task)];
      AnnouncedOk(stage, dispatchers) && QueueOk(l, stage, s.pending) && HeldOk(stage, s.manager) && GivenOk(stage, s.handed)
  {
  }

  lemma JoinTasks(l: Limits, s: State, t: State, job: Job)
    requires Inv(l, s) && JoinStep(l, s, t, job)
    ensures TasksOk(l, t)
  {
    var task := s.open[s.dispatchers[job].batchType.value];
    PlaceJob(s.tasks, s.home, task, t.tasks[task], job);
    JoinSizes(l, s, t, job);
  }

  lemma JoinSizes(l: Limits, s: State, t: State, job: Job)
    requires SizesOk(l, s.tasks) && StagesOk(s.tasks, s.stage) && OpenOk(s.tasks, s.open, s.manager, s.handed)
    requires JoinStep(l, s, t, job)
    ensures SizesOk(l, t.tasks) && StagesOk(t.tasks, t.stage) && OpenOk(t.tasks, t.open, t.manager, t.handed)
  {
    var task := s.open[s.dispatchers[job].batchType.value];
    assert t.tasks[task].batch && |t.tasks[task].jobs| == |s.tasks[task].jobs| + 1;
  }

  lemma JoinFlow(l: Limits, s: State, t: State, job: Job)
    requires Inv(l, s) && JoinStep(l, s, t, job)
    ensures FlowOk(l, t)
  {
    var task := s.open[s.dispatchers[job].batchType.value];
    if s.tasks[task].jobs == [] { AnnounceStages(l, s, task, job); }
  }

  lemma SoloSizes(l: Limits, s: State, t: State, job: Job, task: nat)
    requires SizesOk(l, s.tasks) && StagesOk(s.tasks, s.stage) && OpenOk(s.tasks, s.open, s.manager, s.handed)
    requires SoloStep(s, t, job, task)
    ensures SizesOk(l, t.tasks) && StagesOk(t.tasks, t.stage) && OpenOk(t.tasks, t.open, t.manager, t.handed)
  {
  }

  lemma SoloTasks(l: Limits, s: State, t: State, job: Job, task: nat)
    requires TasksOk(l, s) && SoloStep(s, t, job, task)
    ensures TasksOk(l, t)
  {
    PlaceJob(s.tasks, s.home, task, t.tasks[task], job);
    SoloSizes(l, s, t, job, task);
  }

  lemma SoloFlow(l: Limits, s: State, t: State, job: Job, task: nat)
    requires Inv(l, s) && SoloStep(s, t, job, task)
    ensures FlowOk(l, t)
  {
    AnnounceStages(l, s, task, job);
  }

  lemma PushTasks(l: Limits, s: State, t: State, job: Job)
    requires Inv(l, s) && PushStep(l, s, t, job)
    ensures TasksOk(l, t)
  {
    assert s.stage[s.dispatchers[job].task] == Announced(job);
  }

  lemma PushQueue(l: Limits, stage: map<nat, Stage>, pending: seq<nat>, task: nat)
    requires QueueOk(l, stage, pending) && |pending| < l.pendingMax && task in stage && stage[task] != Queued
    ensures QueueOk(l, stage[task := Queued], pending + [task])
  {
    assert task !in pending;
    assert forall x :: x in pending + [task] <==> x in pending || x == task;
  }

  lemma PushStages(stage: map<nat, Stage>, dispatchers: map<Job, Dispatcher>, manager: Manager, handed: map<nat, nat>, job: Job)
    requires AnnouncedOk(stage, dispatchers) && HeldOk(stage, manager) && GivenOk(stage, handed)
    requires job in dispatchers && dispatchers[job].ToPush?
    ensures var stage' := stage[dispatchers[job].task := Queued];
      AnnouncedOk(stage', dispatchers[job := Sent]) && HeldOk(stage', manager) && GivenOk(stage', handed)
  {
    assert stage[dispatchers[job].task] == Announced(job);
  }

  lemma PushFlow(l: Limits, s: State, t: State, job: Job)
    requires FlowOk(l, s) && PushStep(l, s, t, job)
    ensures FlowOk(l, t)
  {
    PushStages(s.stage, s.dispatchers, s.manager, s.handed, job);
    PushQueue(l, s.stage, s.pending, s.dispatchers[job].task);
  }

  lemma TakeConnKeeps(l: Limits, s: State, t: State)
    requires Inv(l, s) && TakeConnStep(s, t)
    ensures Inv(l, t)
  {
  }

  lemma PopQueue(l: Limits, stage: map<nat, Stage>, pending: seq<nat>)
    requires QueueOk(l, stage, pending) && pending != []
    ensures pending[0] in stage && stage[pending[0]] == Queued
    ensures QueueOk(l, stage[pending[0] := Held], pending[1..])
  {
    assert pending[0] in pending && pending == [pending[0]] + pending[1..];
    assert forall x :: x in pending <==> x in pending[1..] || x == pending[0];
    assert pending[0] !in pending[1..];
  }

  lemma PopTaskKeeps(l: Limits, s: State, t: State)
    requires Inv(l, s) && PopTaskStep(s, t)
    ensures Inv(l, t)
  {
    PopQueue(l, s.stage, s.pending);
  }

  lemma AddEmpty(tasks: map<nat, Task>, home: map<Job, Spot>, task: nat)
    requires JobsOk(tasks, home) && task !in tasks
    ensures JobsOk(tasks[task := Task([], true)], home)
  {
    var tasks' := tasks[task := Task([], true)];
    forall x: nat, i | JobAt(tasks', x, i) ensures JobAt(tasks, x, i) && tasks'[x] == tasks[x] { }
  }

  lemma AddUnused(l: Limits, s: State, task: nat)
    requires FlowOk(l, s) && task !in s.stage
    ensures var stage := s.stage[task := Unused];
      && AnnouncedOk(stage, s.dispatchers) && QueueOk(l, stage, s.pending) && HeldOk(stage, s.manager) && GivenOk(stage, s.handed)
  {
  }

  lemma AddSizes(l: Limits, tasks: map<nat, Task>, stage: map<nat, Stage>, task: nat)
    requires SizesOk(l, tasks) && StagesOk(tasks, stage) && task !in tasks
    ensures SizesOk(l, tasks[task := Task([], true)]) && StagesOk(tasks[task := Task([], true)], stage[task := Unused])
  {
  }

  lemma ReplaceOpen(s: State, t: State, task: nat)
    requires OpenOk(s.tasks, s.open, s.manager, s.handed) && GivenOk(s.stage, s.handed) && s.stage.Keys == s.tasks.Keys
    requires ReplaceStep(s, t, task)
    ensures OpenOk(t.tasks, t.open, t.manager, t.handed)
  {
  }

  lemma ReplaceTasks(l: Limits, s: State, t: State, task: nat)
    requires TasksOk(l, s) && GivenOk(s.stage, s.handed) && ReplaceStep(s, t, task)
    ensures TasksOk(l, t)
  {
    ReplaceOpen(s, t, task);
    if s.manager.task in s.open {
      AddEmpty(s.tasks, s.home, task);
      AddSizes(l, s.tasks, s.stage, task);
    }
  }

  lemma ReplaceFlow(l: Limits, s: State, t: State, task: nat)
    requires FlowOk(l, s) && s.stage.Keys == s.tasks.Keys && ReplaceStep(s, t, task)
    ensures FlowOk(l, t)
  {
    if s.manager.task in s.open { AddUnused(l, s, task); }
    assert forall x :: Holds(t.manager, x) <==> Holds(s.manager, x);
  }

  lemma HandOverTasks(l: Limits, s: State, t: State)
    requires Inv(l, s) && HandOverStep(s, t)
    ensures TasksOk(l, t)
  {
    assert Holds(s.manager, s.manager.task);
  }

  lemma HandOverWork(s: State, t: State)
    requires WorkOk(s.workers, s.handed, s.ran) && HandOverStep(s, t) && s.manager.task !in s.handed
    ensures WorkOk(t.workers, t.handed, t.ran)
  {
  }

  lemma HandOverFlow(l: Limits, s: State, t: State)
    requires Inv(l, s) && HandOverStep(s, t)
    ensures FlowOk(l, t)
  {
    var task := s.manager.task;
    assert Holds(s.manager, task) && s.stage[task] == Held;
    HandOverWork(s, t);
    assert !exists x :: Holds(t.manager, x);
  }

  lemma WorkerKeeps(l: Limits, s: State, t: State, c: nat)
    requires Inv(l, s) && (ReplyStep(s, t, c) || ReturnConnStep(s, t, c) || ClearStep(s, t, c))
    ensures Inv(l, t)
  {
  }

  lemma NextKeeps(l: Limits, s: State, t: State, step: Step)
    requires Inv(l, s) && NextStep(l, s, t, step)
    ensures Inv(l, t)
  {
    match step {
      case Arrive(job, b) => ArriveKeeps(l, s, t, job, b);
      case Join(job) =>
        JoinTasks(l, s, t, job);
        JoinFlow(l, s, t, job);
      case Solo(job, task) =>
        SoloTasks(l, s, t, job, task);
        SoloFlow(l, s, t, job, task);
      case Push(job) =>
        PushTasks(l, s, t, job);
        PushFlow(l, s, t, job);
      case TakeConn => TakeConnKeeps(l, s, t);
      case PopTask => PopTaskKeeps(l, s, t);
      case Replace(task) =>
        ReplaceTasks(l, s, t, task);
        ReplaceFlow(l, s, t, task);
      case HandOver =>
        HandOverTasks(l, s, t);
        HandOverFlow(l, s, t);
      case Reply(c) => WorkerKeeps(l, s, t, c);
      case ReturnConn(c) => WorkerKeeps(l, s, t, c);
      case Clear(c) => WorkerKeeps(l, s, t, c);
    }
  }

  // ------------------------------------------------------------------ runs

  ghost predicate Run(l: Limits, states: seq<State>, steps: seq<Step>) {
    && |states| == |steps| + 1 && Init(states[0])
    && forall i :: 0 <= i < |steps| ==> NextStep(l, states[i], states[i + 1], steps[i])
  }

  lemma {:induction false} RunKeepsInv(l: Limits, states: seq<State>, steps: seq<Step>, i: nat)
    requires Run(l, states, steps) && i < |states|
    ensures Inv(l, states[i])
  {
    if i == 0 {
      InitOk(l, states[0]);
    } else {
      RunKeepsInv(l, states, steps, i - 1);
      assert NextStep(l, states[i - 1], states[i - 1 + 1], steps[i - 1]);
      NextKeeps(l, states[i - 1], states[i], steps[i - 1]);
    }
  }

  /** Over every run, a job that was dispatched is in exactly one place of exactly one task. */
  lemma EveryJobOnce(l: Limits, states: seq<State>, steps: seq<Step>, i: nat, job: Job)
    requires Run(l, states, steps) && i < |states| && job in states[i].dispatchers && !states[i].dispatchers[job].New?
    ensures var s := states[i];
      && job in s.home && JobAt(s.tasks, s.home[job].task, s.home[job].index)
      && s.tasks[s.home[job].task].jobs[s.home[job].index] == job
      && forall t: nat, k :: JobAt(s.tasks, t, k) && s.tasks[t].jobs[k] == job ==> s.home[job] == Spot(t, k)
  {
    RunKeepsInv(l, states, steps, i);
  }

  /** Over every run a task is in at most one of these places, and once: about to be queued by one dispatcher, in
      the queue, with the manager, at the one connection it was handed to; it is in none while it has no jobs. */
  lemma EveryTaskInOnePlace(l: Limits, states: seq<State>, steps: seq<Step>, i: nat, t: nat)
    requires Run(l, states, steps) && i < |states| && t in states[i].tasks
    ensures var s := states[i];
      && (forall j, k :: j in s.dispatchers && k in s.dispatchers && s.dispatchers[j] == ToPush(t) && s.dispatchers[k] == ToPush(t) ==> j == k)
      && (forall a, b :: 0 <= a < b < |s.pending| ==> s.pending[a] != s.pending[b])
      && (forall j :: j in s.dispatchers && s.dispatchers[j] == ToPush(t) ==> t !in s.pending && !Holds(s.manager, t) && t !in s.handed)
      && (t in s.pending ==> !Holds(s.manager, t) && t !in s.handed)
      && (Holds(s.manager, t) ==> t !in s.handed)
      && (forall c :: c in s.workers && TaskOf(s.workers[c]) == Some(t) ==> t in s.handed && s.handed[t] == c)
      && (s.tasks[t].jobs == [] ==> t !in s.pending && t !in s.handed && !Holds(s.manager, t))
      && (if s.tasks[t].batch then |s.tasks[t].jobs| <= l.batchMax else |s.tasks[t].jobs| == 1)
  {
    RunKeepsInv(l, states, steps, i);
    OnePlace(l, states[i], t);
  }

  lemma OnePlace(l: Limits, s: State, t: nat)
    requires Inv(l, s) && t in s.tasks
    ensures forall j, k :: j in s.dispatchers && k in s.dispatchers && s.dispatchers[j] == ToPush(t) && s.dispatchers[k] == ToPush(t) ==> j == k
    ensures forall j :: j in s.dispatchers && s.dispatchers[j] == ToPush(t) ==> t !in s.pending && !Holds(s.manager, t) && t !in s.handed
    ensures t in s.pending ==> !Holds(s.manager, t) && t !in s.handed
    ensures Holds(s.manager, t) ==> t !in s.handed
    ensures s.tasks[t].jobs == [] ==> t !in s.pending && t !in s.handed && !Holds(s.manager, t)
    ensures forall c :: c in s.workers && TaskOf(s.workers[c]) == Some(t) ==> t in s.handed && s.handed[t] == c
  {
  }

  lemma HandedStays(l: Limits, s: State, u: State, step: Step, t: nat)
    requires s.stage.Keys == s.tasks.Keys && HeldOk(s.stage, s.manager) && GivenOk(s.stage, s.handed)
    requires OpenOk(s.tasks, s.open, s.manager, s.handed) && NextStep(l, s, u, step) && t in s.handed
    ensures t in u.handed && u.handed[t] == s.handed[t] && t in s.tasks && t in u.tasks && u.tasks[t] == s.tasks[t]
  {
    assert t in s.stage && s.stage[t] == Given;
    match step {
      case HandOver => assert Holds(s.manager, s.manager.task);
      case Join(job) => assert s.open[s.dispatchers[job].batchType.value] !in s.handed;
      case Arrive(_, _) =>
      case Solo(_, _) =>
      case Push(_) =>
      case TakeConn =>
      case PopTask =>
      case Replace(_) =>
      case Reply(_) =>
      case ReturnConn(_) =>
      case Clear(_) =>
    }
  }

  /** No job joins a task after it was handed over, and the connection that got it stays the same. */
  lemma NoJoinAfterHandOver(l: Limits, s: State, u: State, step: Step, t: nat)
    requires Inv(l, s) && NextStep(l, s, u, step) && t in s.handed
    ensures t in u.handed && u.handed[t] == s.handed[t] && t in s.tasks && t in u.tasks && u.tasks[t] == s.tasks[t]
  {
    HandedStays(l, s, u, step, t);
  }

  /** A task is run at most once: the worker that replies has not run it before. */
  lemma RunOnce(l: Limits, s: State, u: State, c: nat)
    requires Inv(l, s) && ReplyStep(s, u, c)
    ensures var t := s.workers[c].task; t !in s.ran && t in u.ran && s.handed[t] == c && s.tasks[t].jobs != []
  {
    var t := s.workers[c].task;
    assert t in s.handed;
  }
}
