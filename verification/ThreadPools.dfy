/** A pool of worker threads on one queue of prioritized tasks.  Whatever happens under the mutex
    is one step; a thread that waits for the condition has released the mutex. */
module ThreadPools {
  import opened Basics

  const LONG_MAX := 0x7FFF_FFFF_FFFF_FFFF

  datatype Priority = Low | Normal | High

  function Rank(p: Priority): nat {
    match p
    case Low => 0
    case Normal => 1
    case High => 2
  }

  /** Tasks are numbered downwards, so that of two with the same priority the older is the greater. */
  datatype Task = Task(priority: Priority, fifoId: int)

  predicate Less(a: Task, b: Task) {
    Rank(a.priority) < Rank(b.priority) || (a.priority == b.priority && a.fifoId < b.fifoId)
  }

  /** About to look at the queue, waiting for a notification, running a task, or gone. */
  datatype Worker = Looking | Waiting | Running(task: Task) | Exited

  /** Notifications are sent after the mutex has been released: ones and all count those still to come.
      The last three fields record the past. */
  datatype State = State(
    tasks: set<Task>, taskCounter: int, stop: bool, workers: seq<Worker>, ones: nat, all: bool,
    accepted: seq<Task>, started: seq<Task>, finished: seq<Task>)

  datatype Action =
    | Enqueue(priority: Priority)
    | NotifyOne(w: nat)
    | StopPool
    | NotifyAll
    | Look(w: nat)
    | FinishTask(w: nat)
    | WakeSpuriously(w: nat)

  /** What the priority queue has at its top. */
  ghost predicate IsTop(tasks: set<Task>, t: Task) {
    t in tasks && forall u :: u in tasks && u != t ==> Less(u, t)
  }

  ghost function Top(tasks: set<Task>): (t: Task)
    requires tasks != {}
    ensures IsTop(tasks, t)
  {
    TopExists(tasks);
    var t :| IsTop(tasks, t);
    t
  }

  lemma {:induction false} TopExists(tasks: set<Task>)
    requires tasks != {}
    ensures exists t :: IsTop(tasks, t)
    decreases |tasks|
  {
    var t :| t in tasks;
    var rest := tasks - {t};
    assert forall u :: u in tasks ==> u == t || u in rest;
    if rest == {} {
      assert IsTop(tasks, t);
    } else {
      TopExists(rest);
      var u :| IsTop(rest, u);
      assert IsTop(tasks, if Less(u, t) then t else u);
    }
  }

  function WakeAll(workers: seq<Worker>): seq<Worker> {
    seq(|workers|, i requires 0 <= i < |workers| => if workers[i].Waiting? then Looking else workers[i])
  }

  ghost function Step(s: State, a: Action): State {
    match a
    case Enqueue(priority) =>
      if s.stop then s else
        var task := Task(priority, s.taskCounter);
        var counter := s.taskCounter - 1;
        s.(tasks := s.tasks + {task}, taskCounter := if counter == 0 then LONG_MAX else counter,
           ones := s.ones + 1, accepted := s.accepted + [task])
    case NotifyOne(w) =>
      if s.ones == 0 then s
      else if w < |s.workers| && s.workers[w].Waiting? then s.(ones := s.ones - 1, workers := s.workers[w := Looking])
      else if forall v :: 0 <= v < |s.workers| ==> !s.workers[v].Waiting? then s.(ones := s.ones - 1)
      else s
    case StopPool => s.(stop := true, all := true)
    case NotifyAll => if s.all then s.(all := false, workers := WakeAll(s.workers)) else s
    case Look(w) =>
      if w >= |s.workers| || !s.workers[w].Looking? then s
      else if s.tasks == {} then s.(workers := s.workers[w := if s.stop then Exited else Waiting])
      else
        var task := Top(s.tasks);
        s.(tasks := s.tasks - {task}, workers := s.workers[w := Running(task)], started := s.started + [task])
    case FinishTask(w) =>
      if w >= |s.workers| || !s.workers[w].Running? then s
      else s.(workers := s.workers[w := Looking], finished := s.finished + [s.workers[w].task])
    case WakeSpuriously(w) =>
      if w < |s.workers| && s.workers[w].Waiting? then s.(workers := s.workers[w := Looking]) else s
  }

  ghost function Run(s: State, actions: seq<Action>): State {
    if actions == [] then s else Step(Run(s, actions[..|actions| - 1]), actions[|actions| - 1])
  }

  ghost predicate Init(s: State) {
    && s.tasks == {} && s.taskCounter == LONG_MAX && !s.stop && s.ones == 0 && !s.all
    && |s.workers| > 0 && (forall w :: 0 <= w < |s.workers| ==> s.workers[w].Looking?)
    && s.accepted == [] && s.started == [] && s.finished == []
  }

  // ----- the invariant -----

  /** Task numbers go down from LONG_MAX, as long as there are any left. */
  ghost predicate Numbered(s: State) {
    && s.taskCounter == LONG_MAX - |s.accepted|
    && forall i :: 0 <= i < |s.accepted| ==> s.accepted[i].fifoId == LONG_MAX - i
  }

  /** Every accepted task is in the queue or has been started, and no task twice. */
  ghost predicate TasksKept(s: State) {
    && (forall t :: t in s.accepted <==> t in s.tasks || t in s.started)
    && (forall t :: t in s.tasks ==> t !in s.started)
    && NoDuplicates(s.started)
  }

  /** Every started task is being run by one worker, or has finished. */
  ghost predicate RunsKept(s: State) {
    && (forall t :: t in s.started <==> t in s.finished || exists w :: 0 <= w < |s.workers| && s.workers[w] == Running(t))
    && (forall t, w :: 0 <= w < |s.workers| && s.workers[w] == Running(t) ==> t !in s.finished)
    && (forall w, v :: 0 <= w < v < |s.workers| && s.workers[w].Running? ==> s.workers[w] != s.workers[v])
    && NoDuplicates(s.finished)
  }

  ghost predicate Awake(worker: Worker) {
    worker.Looking? || worker.Running?
  }

  /** No wake-up is lost: tasks that nobody is going to be notified of have a worker awake. */
  ghost predicate WakeUpsKept(s: State) {
    && (s.tasks != {} && s.ones == 0 ==> exists w :: 0 <= w < |s.workers| && Awake(s.workers[w]))
    && (s.stop && !s.all ==> forall w :: 0 <= w < |s.workers| ==> !s.workers[w].Waiting?)
    && (forall w :: 0 <= w < |s.workers| && s.workers[w].Exited? ==> s.stop && s.tasks == {})
  }

  ghost predicate Inv(s: State) {
    |s.workers| > 0 && Numbered(s) && TasksKept(s) && RunsKept(s) && WakeUpsKept(s)
  }

  lemma StepNumbered(s: State, a: Action)
    requires Inv(s) && |s.accepted| + 1 < LONG_MAX
    ensures Numbered(Step(s, a)) && |Step(s, a).accepted| <= |s.accepted| + 1
  {
    hide TasksKept, RunsKept, WakeUpsKept;
  }

  lemma StepTasks(s: State, a: Action)
    requires Inv(s) && |s.accepted| + 1 < LONG_MAX
    ensures TasksKept(Step(s, a))
  {
    hide RunsKept, WakeUpsKept, NoDuplicates, WakeAll;
    if a.Enqueue? && !s.stop {
      assert Task(a.priority, s.taskCounter) !in s.accepted;
    }
    if a.Look? && s.tasks != {} {
      OneMore(s.started, Top(s.tasks));
    }
  }

  /** Nobody starts or finishes a task. */
  lemma NoRunChanges(s: State, s': State)
    requires RunsKept(s) && s'.started == s.started && s'.finished == s.finished && |s'.workers| == |s.workers|
    requires forall w :: 0 <= w < |s.workers| ==> s'.workers[w] == s.workers[w] || !(s.workers[w].Running? || s'.workers[w].Running?)
    ensures RunsKept(s')
  {
    forall t
      ensures t in s'.started <==> t in s'.finished || exists w :: 0 <= w < |s'.workers| && s'.workers[w] == Running(t)
    {
      if w :| 0 <= w < |s.workers| && s.workers[w] == Running(t) {
        assert s'.workers[w] == Running(t);
      }
      if w :| 0 <= w < |s'.workers| && s'.workers[w] == Running(t) {
        assert s.workers[w] == Running(t);
      }
    }
  }

  lemma RunStarts(s: State, s': State, w: nat, task: Task)
    requires RunsKept(s) && w < |s.workers| && s.workers[w].Looking? && task !in s.started
    requires s'.started == s.started + [task] && s'.finished == s.finished && s'.workers == s.workers[w := Running(task)]
    ensures RunsKept(s')
  {
    forall v | 0 <= v < |s.workers|
      ensures s.workers[v] != Running(task)
    {
    }
    forall t
      ensures t in s'.started <==> t in s'.finished || exists v :: 0 <= v < |s'.workers| && s'.workers[v] == Running(t)
    {
      if v :| 0 <= v < |s.workers| && s.workers[v] == Running(t) {
        assert s'.workers[v] == Running(t);
      }
      if t == task {
        assert s'.workers[w] == Running(t);
      }
    }
  }

  lemma RunEnds(s: State, s': State, w: nat)
    requires RunsKept(s) && w < |s.workers| && s.workers[w].Running?
    requires s'.started == s.started && s'.finished == s.finished + [s.workers[w].task] && s'.workers == s.workers[w := Looking]
    ensures RunsKept(s')
  {
    var task := s.workers[w].task;
    assert s.workers[w] == Running(task);
    forall t
      ensures t in s'.started <==> t in s'.finished || exists v :: 0 <= v < |s'.workers| && s'.workers[v] == Running(t)
    {
      if v :| 0 <= v < |s.workers| && s.workers[v] == Running(t) {
        assert v == w || s'.workers[v] == Running(t);
      }
    }
  }

  lemma StepRuns(s: State, a: Action)
    requires Inv(s)
    ensures RunsKept(Step(s, a))
  {
    hide Numbered, WakeUpsKept, RunsKept;
    var s' := Step(s, a);
    if a.Look? && a.w < |s.workers| && s.workers[a.w].Looking? && s.tasks != {} {
      RunStarts(s, s', a.w, Top(s.tasks));
    } else if a.FinishTask? && a.w < |s.workers| && s.workers[a.w].Running? {
      RunEnds(s, s', a.w);
    } else {
      NoRunChanges(s, s');
    }
  }

  lemma StepWakeUps(s: State, a: Action)
    requires Inv(s)
    ensures WakeUpsKept(Step(s, a))
  {
    hide Numbered, TasksKept, RunsKept;
    var s' := Step(s, a);
    if s'.tasks != {} && s'.ones == 0 {
      if s.ones == 0 {
        var w :| 0 <= w < |s.workers| && Awake(s.workers[w]);
        assert Awake(s'.workers[w]);
      } else {
        assert a.NotifyOne?;
        assert Awake(s'.workers[if a.w < |s.workers| && s.workers[a.w].Waiting? then a.w else 0]);
      }
    }
  }

  lemma StepInv(s: State, a: Action)
    requires Inv(s) && |s.accepted| + 1 < LONG_MAX
    ensures Inv(Step(s, a)) && |Step(s, a).accepted| <= |s.accepted| + 1 && |Step(s, a).workers| == |s.workers|
  {
    StepNumbered(s, a);
    StepTasks(s, a);
    StepRuns(s, a);
    StepWakeUps(s, a);
    hide Numbered, TasksKept, RunsKept, WakeUpsKept;
  }

  lemma {:induction false} RunInv(s: State, actions: seq<Action>)
    requires Init(s) && |actions| < LONG_MAX
    ensures Inv(Run(s, actions)) && |Run(s, actions).accepted| <= |actions|
  {
    if actions != [] {
      hide Init, Inv, Step;
      RunInv(s, actions[..|actions| - 1]);
      StepInv(Run(s, actions[..|actions| - 1]), actions[|actions| - 1]);
    }
  }

  // ----- what it means -----

  /** The priorities that were asked for, in order, until the pool was stopped. */
  ghost function Requested(actions: seq<Action>): seq<Priority> {
    if actions == [] then [] else
      var before, a := actions[..|actions| - 1], actions[|actions| - 1];
      if a.Enqueue? && StopPool !in before then Requested(before) + [a.priority] else Requested(before)
  }

  /** The pool has accepted one task for each request ahead of the stop, of the priority asked for, in the order of the requests. */
  lemma {:induction false} AcceptedAsRequested(s: State, actions: seq<Action>)
    requires Init(s)
    ensures var s' := Run(s, actions);
      && (s'.stop <==> StopPool in actions) && |s'.accepted| == |Requested(actions)|
      && forall i :: 0 <= i < |s'.accepted| ==> s'.accepted[i].priority == Requested(actions)[i]
  {
    if actions != [] {
      hide Step, Init;
      var before, a := actions[..|actions| - 1], actions[|actions| - 1];
      AcceptedAsRequested(s, before);
      StepAccepts(Run(s, before), a);
      assert actions == before + [a];
    }
  }

  lemma StepAccepts(s: State, a: Action)
    ensures Step(s, a).stop <==> s.stop || a.StopPool?
    ensures var s' := Step(s, a);
      if a.Enqueue? && !s.stop then |s'.accepted| == |s.accepted| + 1 && s.accepted <= s'.accepted && s'.accepted[|s.accepted|].priority == a.priority
      else s'.accepted == s.accepted
  {
  }

  /** The highest of the three priorities comes first, whatever their numbers. */
  ghost predicate NotAfter(p: Priority, q: Priority) {
    p.High? || (p.Normal? && !q.High?) || q.Low?
  }

  /** After any run, a worker that looks at a queue with something in it takes a request that has been accepted and not started, of
      the highest priority that was asked for among those, and of those with that priority the earliest. */
  lemma TakesBest(s: State, actions: seq<Action>, w: nat) returns (i: nat)
    requires Init(s) && |actions| < LONG_MAX
    requires w < |Run(s, actions).workers| && Run(s, actions).workers[w].Looking? && Run(s, actions).tasks != {}
    ensures var s', asked := Run(s, actions), Requested(actions);
      && |s'.accepted| == |asked| && i < |asked| && s'.accepted[i] !in s'.started
      && Step(s', Look(w)).workers[w] == Running(s'.accepted[i]) && Step(s', Look(w)).started == s'.started + [s'.accepted[i]]
      && forall j: nat :: j < |asked| && s'.accepted[j] !in s'.started ==>
        NotAfter(asked[i], asked[j]) && (asked[j] == asked[i] ==> i <= j)
  {
    RunInv(s, actions);
    AcceptedAsRequested(s, actions);
    hide Run, Requested, Init, RunsKept, WakeUpsKept;
    var s' := Run(s, actions);
    var top := Top(s'.tasks);
    i :| i < |s'.accepted| && s'.accepted[i] == top;
    forall j: nat | j < |s'.accepted| && s'.accepted[j] !in s'.started
      ensures NotAfter(s'.accepted[i].priority, s'.accepted[j].priority)
      ensures s'.accepted[j].priority == s'.accepted[i].priority ==> i <= j
    {
      assert s'.accepted[j] in s'.accepted;
      assert s'.accepted[j] in s'.tasks;
    }
  }

  /** Once all workers have gone, every task that was ever accepted has finished. */
  lemma AllFinished(s: State, actions: seq<Action>)
    requires Init(s) && |actions| < LONG_MAX
    requires forall w :: 0 <= w < |Run(s, actions).workers| ==> Run(s, actions).workers[w].Exited?
    ensures var s' := Run(s, actions);
      s'.tasks == {} && (forall t :: t in s'.accepted <==> t in s'.finished) && NoDuplicates(s'.finished)
  {
    RunInv(s, actions);
    assert Run(s, actions).workers[0].Exited?;
  }

  /** After the pool has been stopped, what the workers still have to do. */
  ghost function Effort(workers: seq<Worker>): nat {
    if workers == [] then 0 else
      Effort(workers[..|workers| - 1]) +
      match workers[|workers| - 1]
      case Looking => 1
      case Waiting => 2
      case Running(_) => 2
      case Exited => 0
  }

  ghost function Work(s: State): nat {
    3 * |s.tasks| + Effort(s.workers)
  }

  lemma {:induction false} EffortUpdated(workers: seq<Worker>, w: nat, worker: Worker)
    requires w < |workers|
    ensures Effort(workers[w := worker]) == Effort(workers) - Effort([workers[w]]) + Effort([worker])
  {
    var n := |workers| - 1;
    assert [workers[w]][..0] == [] && [worker][..0] == [];
    if w == n {
      assert workers[w := worker][..n] == workers[..n];
    } else {
      EffortUpdated(workers[..n], w, worker);
      assert workers[w := worker][..n] == workers[..n][w := worker];
    }
  }

  /** Joining ends: once the notification has gone out, a worker that has not exited can act, and every
      such action leaves less to do. */
  lemma StopDrains(s: State, w: nat)
    requires Inv(s) && s.stop && !s.all && w < |s.workers| && !s.workers[w].Exited?
    ensures var a := if s.workers[w].Looking? then Look(w) else FinishTask(w);
      Work(Step(s, a)) < Work(s) && Step(s, a).stop && !Step(s, a).all
  {
    assert !s.workers[w].Waiting?;
    var a := if s.workers[w].Looking? then Look(w) else FinishTask(w);
    EffortUpdated(s.workers, w, Step(s, a).workers[w]);
    assert [s.workers[w]][..0] == [] && [Step(s, a).workers[w]][..0] == [];
    if s.workers[w].Looking? && s.tasks != {} {
      assert |s.tasks - {Top(s.tasks)}| == |s.tasks| - 1;
    }
  }

  // ----- the pool itself -----

  /** The shared state.  Each method is what one thread does between taking the mutex and giving it
      back, or one notification. */
  class ThreadPool {
    var tasks: set<Task>
    var taskCounter: int
    var stop: bool
    var workers: seq<Worker>
    ghost var ones: nat
    ghost var all: bool
    ghost var accepted: seq<Task>
    ghost var started: seq<Task>
    ghost var finished: seq<Task>

    ghost function Now(): State
      reads this
    {
      State(tasks, taskCounter, stop, workers, ones, all, accepted, started, finished)
    }

    constructor (threads: nat)
      requires threads > 0
      ensures Init(Now()) && |workers| == threads
    {
      tasks, taskCounter, stop, ones, all := {}, LONG_MAX, false, 0, false;
      workers := seq(threads, _ => Looking);
      accepted, started, finished := [], [], [];
    }

    /** Adds a task; fails if the pool has been stopped. */
    method AddTask(priority: Priority) returns (ok: bool)
      modifies this
      ensures Now() == Step(old(Now()), Enqueue(priority)) && ok == !old(stop)
      ensures !ok ==> Now() == old(Now())
      ensures ok ==> |accepted| == |old(accepted)| + 1 && accepted[..|old(accepted)|] == old(accepted)
      ensures ok ==> accepted[|old(accepted)|].priority == priority && tasks == old(tasks) + {accepted[|old(accepted)|]}
    {
      if stop {
        return false;
      }
      var taskFifoId := taskCounter;
      taskCounter := taskCounter - 1;
      if taskCounter == 0 {
        taskCounter := LONG_MAX;
      }
      var task := Task(priority, taskFifoId);
      tasks := tasks + {task};
      accepted, ones := accepted + [task], ones + 1;
      return true;
    }

    method TopTask() returns (top: Task)
      requires tasks != {}
      ensures top == Top(tasks)
    {
      top :| top in tasks;
      var rest := tasks - {top};
      while rest != {}
        invariant rest <= tasks && top in tasks - rest && forall u :: u in tasks - rest && u != top ==> Less(u, top)
        decreases |rest|
      {
        var t :| t in rest;
        assert tasks - (rest - {t}) == (tasks - rest) + {t};
        rest := rest - {t};
        assert Less(t, top) || Less(top, t);
        if Less(top, t) {
          top := t;
        }
      }
      assert IsTop(tasks, top);
      assert IsTop(tasks, Top(tasks));
    }

    /** A worker with the mutex: it waits, leaves, or takes a task to run. */
    method WorkerLooks(w: nat)
      requires w < |workers| && workers[w].Looking?
      modifies this
      ensures Now() == Step(old(Now()), Look(w))
    {
      if !(stop || tasks != {}) {
        workers := workers[w := Waiting];
      } else if stop && tasks == {} {
        workers := workers[w := Exited];
      } else {
        var task := TopTask();
        tasks := tasks - {task};
        workers := workers[w := Running(task)];
        started := started + [task];
      }
    }

    /** A worker's task is over. */
    method WorkerFinishes(w: nat)
      requires w < |workers| && workers[w].Running?
      modifies this
      ensures Now() == Step(old(Now()), FinishTask(w))
    {
      finished := finished + [workers[w].task];
      workers := workers[w := Looking];
    }

    /** The first half of the destructor. */
    method StopWorkers()
      modifies this
      ensures Now() == Step(old(Now()), StopPool)
    {
      stop := true;
      all := true;
    }
  }
}
