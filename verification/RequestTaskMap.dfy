/** RequestTaskMap.swift: the two-way map of tasks and requests, and the join of a task's two final
    events (completion and metrics) that Session.swift runs over it. */
module RequestTaskMap {
  import opened Words

  type Task = nat
  type Request = nat

  datatype Events = Events(completed: bool, metricsGathered: bool)

  /** The three dictionaries. */
  datatype TaskMap = TaskMap(
    tasksToRequests: map<Task, Request>, requestsToTasks: map<Request, Task>, taskEvents: map<Task, Events>)

  // ---------------------------------------------------------------- the dictionaries

  /** Both subscript setters with a value. */
  function Associate(m: TaskMap, request: Request, task: Task): TaskMap {
    TaskMap(m.tasksToRequests[task := request], m.requestsToTasks[request := task],
            m.taskEvents[task := Events(false, false)])
  }

  /** Both subscript setters with nil; the setter stops the process when there is nothing to remove. */
  function Dissociate(m: TaskMap, request: Request, task: Task): TaskMap {
    TaskMap(m.tasksToRequests - {task}, m.requestsToTasks - {request}, m.taskEvents - {task})
  }

  /** The first metrics of a task, if it has events to update: the new map, and whether the task was
      let go. None is a fatal consistency error. */
  function GatherMetrics(m: TaskMap, task: Task): Option<(TaskMap, bool)> {
    if task !in m.taskEvents || m.taskEvents[task].metricsGathered then None
    else if !m.taskEvents[task].completed
    then Some((m.(taskEvents := m.taskEvents[task := Events(false, true)]), false))
    else if task !in m.tasksToRequests then None
    else Some((Dissociate(m, m.tasksToRequests[task], task), true))
  }

  /** The first completion of a task. Systems before metrics let the task go at once. */
  function CompleteTask(m: TaskMap, task: Task, gathersMetrics: bool): Option<(TaskMap, bool)> {
    if task !in m.taskEvents || m.taskEvents[task].completed then None
    else if !m.taskEvents[task].metricsGathered && gathersMetrics
    then Some((m.(taskEvents := m.taskEvents[task := Events(true, false)]), false))
    else if task !in m.tasksToRequests then None
    else Some((Dissociate(m, m.tasksToRequests[task], task), true))
  }

  /** The two maps are mutually inverse, with events for exactly the same tasks. */
  ghost predicate Consistent(m: TaskMap) {
    && (forall t :: t in m.tasksToRequests ==>
          m.tasksToRequests[t] in m.requestsToTasks && m.requestsToTasks[m.tasksToRequests[t]] == t)
    && (forall r :: r in m.requestsToTasks ==>
          m.requestsToTasks[r] in m.tasksToRequests && m.tasksToRequests[m.requestsToTasks[r]] == r)
    && m.taskEvents.Keys == m.tasksToRequests.Keys
  }

  /** A setter keeps the maps mutually inverse exactly when neither side is already paired with
      something else. */
  lemma AssociateIsConsistentIff(m: TaskMap, request: Request, task: Task)
    requires Consistent(m)
    ensures Consistent(Associate(m, request, task)) <==>
              (request in m.requestsToTasks ==> m.requestsToTasks[request] == task)
              && (task in m.tasksToRequests ==> m.tasksToRequests[task] == request)
  {
    var n := Associate(m, request, task);
    if request in m.requestsToTasks && m.requestsToTasks[request] != task {
      assert m.requestsToTasks[request] in n.tasksToRequests;
    } else if task in m.tasksToRequests && m.tasksToRequests[task] != request {
      assert m.tasksToRequests[task] in n.requestsToTasks;
    } else {
      assert n.taskEvents.Keys == m.taskEvents.Keys + {task};
      assert n.tasksToRequests.Keys == m.tasksToRequests.Keys + {task};
    }
  }

  lemma DissociateIsConsistent(m: TaskMap, request: Request, task: Task)
    requires Consistent(m) && task in m.tasksToRequests && m.tasksToRequests[task] == request
    ensures Consistent(Dissociate(m, request, task))
  {
    var n := Dissociate(m, request, task);
    assert n.taskEvents.Keys == m.taskEvents.Keys - {task} && n.tasksToRequests.Keys == m.tasksToRequests.Keys - {task};
  }

  // ---------------------------------------------------------------- the session

  /** The root queue's view of one session: the map, the completions that wait for metrics, and
      every completion that has been run. */
  class Session {
    var tasksToRequests: map<Task, Request>
    var requestsToTasks: map<Request, Task>
    var taskEvents: map<Task, Events>
    var waitingCompletions: map<Task, nat>
    var executed: seq<(Task, nat)>
    const gathersMetrics: bool

    ghost function Tasks(): TaskMap
      reads this
    {
      TaskMap(tasksToRequests, requestsToTasks, taskEvents)
    }

    ghost function View(): State
      reads this
    {
      State(Tasks(), waitingCompletions, executed, gathersMetrics)
    }

    constructor (gathersMetrics: bool)
      ensures View() == State(TaskMap(map[], map[], map[]), map[], [], gathersMetrics)
    {
      tasksToRequests, requestsToTasks, taskEvents := map[], map[], map[];
      waitingCompletions, executed := map[], [];
      this.gathersMetrics := gathersMetrics;
    }

    method SetTask(request: Request, task: Task)
      modifies this
      ensures View() == old(View()).(tasks := Associate(old(Tasks()), request, task))
    {
      requestsToTasks := requestsToTasks[request := task];
      tasksToRequests := tasksToRequests[task := request];
      taskEvents := taskEvents[task := Events(false, false)];
    }

    method ClearTask(task: Task)
      requires task in tasksToRequests
      modifies this
      ensures View() == old(View()).(tasks := Dissociate(old(Tasks()), old(tasksToRequests[task]), task))
    {
      var request := tasksToRequests[task];
      tasksToRequests := tasksToRequests - {task};
      requestsToTasks := requestsToTasks - {request};
      taskEvents := taskEvents - {task};
    }

    method DisassociateIfNecessaryAfterGatheringMetrics(task: Task) returns (didDisassociate: bool)
      requires GatherMetrics(Tasks(), task).Some?
      modifies this
      ensures View() == old(View()).(tasks := GatherMetrics(old(Tasks()), task).value.0)
      ensures didDisassociate == GatherMetrics(old(Tasks()), task).value.1
    {
      var events := taskEvents[task];
      if !events.completed {
        taskEvents := taskEvents[task := Events(false, true)];
        return false;
      }
      ClearTask(task);
      return true;
    }

    method DisassociateIfNecessaryAfterCompletion(task: Task) returns (didDisassociate: bool)
      requires CompleteTask(Tasks(), task, gathersMetrics).Some?
      modifies this
      ensures View() == old(View()).(tasks := CompleteTask(old(Tasks()), task, gathersMetrics).value.0)
      ensures didDisassociate == CompleteTask(old(Tasks()), task, gathersMetrics).value.1
    {
      var events := taskEvents[task];
      if !events.metricsGathered && gathersMetrics {
        taskEvents := taskEvents[task := Events(true, false)];
        return false;
      }
      ClearTask(task);
      return true;
    }

    method DidGatherMetrics(task: Task)
      requires MetricsStep(View(), task).Some?
      modifies this
      ensures Some(View()) == MetricsStep(old(View()), task)
    {
      var didDisassociate := DisassociateIfNecessaryAfterGatheringMetrics(task);
      if didDisassociate {
        if task in waitingCompletions {
          executed := executed + [(task, waitingCompletions[task])];
        }
        waitingCompletions := waitingCompletions - {task};
      }
    }

    method DidCompleteTask(task: Task, completion: nat)
      requires CompletionStep(View(), task, completion).Some?
      modifies this
      ensures Some(View()) == CompletionStep(old(View()), task, completion)
    {
      var didDisassociate := DisassociateIfNecessaryAfterCompletion(task);
      if didDisassociate {
        executed := executed + [(task, completion)];
      } else {
        waitingCompletions := waitingCompletions[task := completion];
      }
    }
  }

  datatype State = State(tasks: TaskMap, waiting: map<Task, nat>, executed: seq<(Task, nat)>, gathersMetrics: bool)

  /** didGatherMetricsForTask; None is a fatal consistency error. */
  function MetricsStep(s: State, task: Task): Option<State> {
    match GatherMetrics(s.tasks, task)
    case None => None
    case Some((tasks, false)) => Some(s.(tasks := tasks))
    case Some((tasks, true)) =>
      Some(s.(tasks := tasks, waiting := s.waiting - {task},
              executed := if task in s.waiting then s.executed + [(task, s.waiting[task])] else s.executed))
  }

  /** didCompleteTask. */
  function CompletionStep(s: State, task: Task, completion: nat): Option<State> {
    match CompleteTask(s.tasks, task, s.gathersMetrics)
    case None => None
    case Some((tasks, true)) => Some(s.(tasks := tasks, executed := s.executed + [(task, completion)]))
    case Some((tasks, false)) => Some(s.(tasks := tasks, waiting := s.waiting[task := completion]))
  }

  // ---------------------------------------------------------------- runs

  /** The session and what URLSession still owes it: for each task one completion, and one metrics
      callback where metrics are gathered. `given` holds the completion each task came with. */
  datatype World = World(s: State, owesCompletion: set<Task>, owesMetrics: set<Task>,
                         created: set<Task>, given: map<Task, nat>)

  datatype Step = Create(request: Request, task: Task) | Complete(task: Task, completion: nat) | Gather(task: Task)

  function Initial(gathersMetrics: bool): World {
    World(State(TaskMap(map[], map[], map[]), map[], [], gathersMetrics), {}, {}, {}, map[])
  }

  /** Tasks are fresh, a request gets a new one after its old one has been let go, and URLSession
      delivers what it owes in any order. */
  predicate Enabled(w: World, step: Step) {
    match step
    case Create(request, task) => task !in w.created && request !in w.s.tasks.requestsToTasks
    case Complete(task, _) => task in w.owesCompletion
    case Gather(task) => task in w.owesMetrics
  }

  /** A fatal consistency error stops the session where it is. */
  function Next(w: World, step: Step): World {
    match step
    case Create(request, task) =>
      w.(s := w.s.(tasks := Associate(w.s.tasks, request, task)), created := w.created + {task},
         owesCompletion := w.owesCompletion + {task},
         owesMetrics := if w.s.gathersMetrics then w.owesMetrics + {task} else w.owesMetrics)
    case Complete(task, completion) =>
      w.(s := CompletionStep(w.s, task, completion).GetOr(w.s), owesCompletion := w.owesCompletion - {task},
         given := w.given[task := completion])
    case Gather(task) => w.(s := MetricsStep(w.s, task).GetOr(w.s), owesMetrics := w.owesMetrics - {task})
  }

  predicate IsFatal(w: World, step: Step) {
    match step
    case Create(_, _) => false
    case Complete(task, completion) => CompletionStep(w.s, task, completion).None?
    case Gather(task) => MetricsStep(w.s, task).None?
  }

  ghost predicate Reachable(w0: World, steps: seq<Step>, w: World)
    decreases |steps|
  {
    if steps == [] then w == w0
    else Enabled(w0, steps[0]) && Reachable(Next(w0, steps[0]), steps[1..], w)
  }

  /** How often a task's completion has been run. */
  function Runs(executed: seq<(Task, nat)>, task: Task): nat {
    if executed == [] then 0
    else Runs(executed[..|executed| - 1], task) + if executed[|executed| - 1].0 == task then 1 else 0
  }

  /** Has URLSession delivered all it owes for this task? */
  predicate Settled(w: World, task: Task) {
    task in w.created && task !in w.owesCompletion && task !in w.owesMetrics
  }

  /** A task has events while URLSession owes it something, and waits if that is only metrics. */
  predicate Tracked(w: World, t: Task) {
    && (t in w.s.tasks.taskEvents <==> t in w.created && !Settled(w, t))
    && (t in w.s.tasks.taskEvents ==>
          w.s.tasks.taskEvents[t] == Events(t !in w.owesCompletion, t !in w.owesMetrics && w.s.gathersMetrics))
    && (t in w.s.waiting <==> t in w.s.tasks.taskEvents && t !in w.owesCompletion)
    && (t in w.s.waiting ==> t in w.given && w.s.waiting[t] == w.given[t])
    && (t in w.owesCompletion ==> t in w.created)
    && (t in w.owesMetrics ==> t in w.created && w.s.gathersMetrics)
  }

  ghost predicate Inv(w: World) {
    Consistent(w.s.tasks) && forall t :: Tracked(w, t)
  }

  ghost predicate RunsOnce(w: World) {
    && (forall t :: Runs(w.s.executed, t) == if Settled(w, t) then 1 else 0)
    && (forall i :: 0 <= i < |w.s.executed| ==>
          w.s.executed[i].0 !in w.owesCompletion && w.s.executed[i].0 in w.created
          && w.s.executed[i].0 in w.given && w.s.executed[i].1 == w.given[w.s.executed[i].0])
  }

  lemma RunsSnoc(executed: seq<(Task, nat)>, task: Task, completion: nat, t: Task)
    ensures Runs(executed + [(task, completion)], t) == Runs(executed, t) + if t == task then 1 else 0
  {
    assert (executed + [(task, completion)])[..|executed|] == executed;
  }

  lemma CreateKeeps(w: World, request: Request, task: Task)
    requires Inv(w) && Enabled(w, Create(request, task))
    ensures Inv(Next(w, Create(request, task)))
  {
    AssociateIsConsistentIff(w.s.tasks, request, task);
    assert Tracked(w, task) && task !in w.s.tasks.taskEvents.Keys && task !in w.s.tasks.tasksToRequests.Keys;
    hide Consistent;
    var w' := Next(w, Create(request, task));
    forall t
      ensures Tracked(w', t)
    {
      assert Tracked(w, t);
    }
  }

  lemma MarkIsConsistent(m: TaskMap, task: Task, events: Events)
    requires Consistent(m) && task in m.taskEvents
    ensures Consistent(m.(taskEvents := m.taskEvents[task := events]))
  {
    assert m.taskEvents[task := events].Keys == m.taskEvents.Keys;
  }

  /** What the map does with the completion a task is owed. */
  lemma OwedCompletion(w: World, task: Task)
    requires Inv(w) && task in w.owesCompletion
    ensures var m, gathers := w.s.tasks, w.s.gathersMetrics;
            var waits := task in w.owesMetrics;
            && task in m.tasksToRequests
            && CompleteTask(m, task, gathers)
               == Some(if waits then (m.(taskEvents := m.taskEvents[task := Events(true, false)]), false)
                       else (Dissociate(m, m.tasksToRequests[task], task), true))
            && Consistent(CompleteTask(m, task, gathers).value.0)
  {
    var m := w.s.tasks;
    assert Tracked(w, task);
    assert task in m.taskEvents.Keys && task in m.tasksToRequests.Keys;
    MarkIsConsistent(m, task, Events(true, false));
    DissociateIsConsistent(m, m.tasksToRequests[task], task);
  }

  lemma OwedMetrics(w: World, task: Task)
    requires Inv(w) && task in w.owesMetrics
    ensures var m := w.s.tasks;
            var waits := task in w.owesCompletion;
            && task in m.tasksToRequests && (task in w.s.waiting <==> !waits)
            && GatherMetrics(m, task)
               == Some(if waits then (m.(taskEvents := m.taskEvents[task := Events(false, true)]), false)
                       else (Dissociate(m, m.tasksToRequests[task], task), true))
            && Consistent(GatherMetrics(m, task).value.0)
  {
    var m := w.s.tasks;
    assert Tracked(w, task);
    assert task in m.taskEvents.Keys && task in m.tasksToRequests.Keys;
    MarkIsConsistent(m, task, Events(false, true));
    DissociateIsConsistent(m, m.tasksToRequests[task], task);
  }

  lemma CompleteKeeps(w: World, task: Task, completion: nat)
    requires Inv(w) && Enabled(w, Complete(task, completion))
    ensures !IsFatal(w, Complete(task, completion)) && Inv(Next(w, Complete(task, completion)))
  {
    OwedCompletion(w, task);
    hide Consistent, CompleteTask;
    var w' := Next(w, Complete(task, completion));
    forall t
      ensures Tracked(w', t)
    {
      assert Tracked(w, t);
    }
  }

  lemma GatherKeeps(w: World, task: Task)
    requires Inv(w) && Enabled(w, Gather(task))
    ensures !IsFatal(w, Gather(task)) && Inv(Next(w, Gather(task)))
  {
    OwedMetrics(w, task);
    hide Consistent, GatherMetrics;
    var w' := Next(w, Gather(task));
    forall t
      ensures Tracked(w', t)
    {
      assert Tracked(w, t);
    }
  }

  /** One more closure has been run, the one its task came with, and its task has just settled. */
  lemma Executes(w: World, w': World, task: Task)
    requires RunsOnce(w) && !Settled(w, task) && Settled(w', task) && task in w'.given
    requires w'.s.executed == w.s.executed + [(task, w'.given[task])]
    requires w'.created == w.created && w'.owesCompletion <= w.owesCompletion
    requires forall t :: t != task ==> Settled(w', t) == Settled(w, t)
    requires forall t :: t in w.given && t !in w.owesCompletion ==> t in w'.given && w'.given[t] == w.given[t]
    ensures RunsOnce(w')
  {
    forall t
      ensures Runs(w'.s.executed, t) == if Settled(w', t) then 1 else 0
    {
      RunsSnoc(w.s.executed, task, w'.given[task], t);
    }
  }

  lemma CompleteRunsOnce(w: World, task: Task, completion: nat)
    requires Inv(w) && RunsOnce(w) && Enabled(w, Complete(task, completion))
    ensures RunsOnce(Next(w, Complete(task, completion)))
  {
    OwedCompletion(w, task);
    assert Tracked(w, task);
    hide Consistent, CompleteTask, Runs;
    var w' := Next(w, Complete(task, completion));
    if task !in w.owesMetrics {
      Executes(w, w', task);
    }
  }

  lemma GatherRunsOnce(w: World, task: Task)
    requires Inv(w) && RunsOnce(w) && Enabled(w, Gather(task))
    ensures RunsOnce(Next(w, Gather(task)))
  {
    OwedMetrics(w, task);
    assert Tracked(w, task);
    hide Consistent, GatherMetrics, Runs;
    var w' := Next(w, Gather(task));
    if task !in w.owesCompletion {
      Executes(w, w', task);
    }
  }

  lemma CreateRunsOnce(w: World, request: Request, task: Task)
    requires Inv(w) && RunsOnce(w) && Enabled(w, Create(request, task))
    ensures RunsOnce(Next(w, Create(request, task)))
  {
    hide Consistent, Runs;
  }

  lemma StepKeeps(w: World, step: Step)
    requires Inv(w) && RunsOnce(w) && Enabled(w, step)
    ensures Inv(Next(w, step)) && RunsOnce(Next(w, step)) && !IsFatal(w, step)
  {
    hide Inv, RunsOnce, Next;
    match step
    case Create(request, task) =>
      CreateKeeps(w, request, task);
      CreateRunsOnce(w, request, task);
    case Complete(task, completion) =>
      CompleteKeeps(w, task, completion);
      CompleteRunsOnce(w, task, completion);
    case Gather(task) =>
      GatherKeeps(w, task);
      GatherRunsOnce(w, task);
  }

  lemma {:induction false} RunKeeps(w0: World, steps: seq<Step>, w: World)
    requires Inv(w0) && RunsOnce(w0) && Reachable(w0, steps, w)
    ensures Inv(w) && RunsOnce(w)
    decreases |steps|
  {
    if steps != [] {
      StepKeeps(w0, steps[0]);
      RunKeeps(Next(w0, steps[0]), steps[1..], w);
    }
  }

  /** In every run the two maps are mutually inverse, with events for the same tasks, and exactly the
      tasks that completed without their metrics wait. */
  lemma MapsStayInverse(gathersMetrics: bool, steps: seq<Step>, w: World)
    requires Reachable(Initial(gathersMetrics), steps, w)
    ensures Consistent(w.s.tasks)
    ensures forall t :: t in w.s.waiting <==> t in w.created && t !in w.owesCompletion && t in w.owesMetrics
  {
    RunKeeps(Initial(gathersMetrics), steps, w);
    forall t
      ensures t in w.s.waiting <==> t in w.created && t !in w.owesCompletion && t in w.owesMetrics
    {
      assert Tracked(w, t);
    }
  }

  /** In every run each completion is run once, with the closure its task came with, as soon as both
      events have arrived and in either order; before that it is not run. */
  lemma CompletionsRunOnce(gathersMetrics: bool, steps: seq<Step>, w: World, task: Task)
    requires Reachable(Initial(gathersMetrics), steps, w)
    ensures Runs(w.s.executed, task) == if Settled(w, task) then 1 else 0
    ensures forall i :: 0 <= i < |w.s.executed| && w.s.executed[i].0 == task ==>
                          task in w.given && w.s.executed[i].1 == w.given[task]
  {
    RunKeeps(Initial(gathersMetrics), steps, w);
  }

  /** No event that URLSession owes is ever a consistency error. */
  lemma NeverFatal(gathersMetrics: bool, steps: seq<Step>, w: World, step: Step)
    requires Reachable(Initial(gathersMetrics), steps, w) && Enabled(w, step)
    ensures !IsFatal(w, step)
  {
    RunKeeps(Initial(gathersMetrics), steps, w);
    StepKeeps(w, step);
  }
}
