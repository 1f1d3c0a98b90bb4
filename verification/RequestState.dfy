/** Request.swift and Session.swift: the state machine of a request, and how the commands given to
    its tasks follow it while tasks are created in separate steps. */
module RequestState {
  datatype State = Initialized | Resumed | Suspended | Cancelled | Finished
  datatype Command = ResumeTask | SuspendTask | CancelTask

  /** Any state can be left for any other except that nothing returns to the initial one, and that
      a cancelled or finished request stays what it is. */
  predicate CanTransition(from: State, to: State): (r: bool)
    ensures r <==> from == Initialized || ((from == Resumed || from == Suspended) && to != from && to != Initialized)
  {
    match (from, to)
    case (Initialized, _) => true
    case (_, Initialized) => false
    case (Cancelled, _) => false
    case (Finished, _) => false
    case (Resumed, Resumed) => false
    case (Suspended, Suspended) => false
    case (_, _) => true
  }

  /** What a request's lock protects, the commands each task has been given, the tasks that have
      completed, and whether finish() has been scheduled by cancel(). */
  datatype View = View(
    state: State, tasks: seq<nat>, commands: map<nat, seq<Command>>, completed: set<nat>, finishScheduled: bool)

  function Commands(v: View, task: nat): seq<Command> {
    if task in v.commands then v.commands[task] else []
  }

  function Tell(v: View, task: nat, more: seq<Command>): View {
    v.(commands := v.commands[task := Commands(v, task) + more])
  }

  /** Is there a newest task that has not completed? */
  predicate HasLiveTask(v: View) {
    v.tasks != [] && v.tasks[|v.tasks| - 1] !in v.completed
  }

  function Newest(v: View): nat
    requires v.tasks != []
  {
    v.tasks[|v.tasks| - 1]
  }

  function Move(v: View, to: State, commands: seq<Command>): View {
    if !CanTransition(v.state, to) then v
    else
      var v := v.(state := to);
      if HasLiveTask(v) then Tell(v, Newest(v), commands)
      else if to == Cancelled then v.(finishScheduled := true)
      else v
  }

  function CommandsFor(state: State): seq<Command> {
    match state
    case Resumed => [ResumeTask]
    case Suspended => [SuspendTask]
    case Cancelled => [ResumeTask, CancelTask]
    case _ => []
  }

  /** Session.updateStatesForTask. */
  function Update(v: View, task: nat): View {
    if v.state.Initialized? || v.state.Finished? then v else Tell(v, task, CommandsFor(v.state))
  }

  /** didCreateTask. */
  function AddTask(v: View, task: nat): View {
    v.(tasks := v.tasks + [task])
  }

  class Request {
    var state: State
    var tasks: seq<nat>
    var commands: map<nat, seq<Command>>
    var completed: set<nat>
    var finishScheduled: bool

    ghost function Contents(): View
      reads this
    {
      View(state, tasks, commands, completed, finishScheduled)
    }

    constructor ()
      ensures Contents() == View(Initialized, [], map[], {}, false)
    {
      state, tasks, commands, completed, finishScheduled := Initialized, [], map[], {}, false;
    }

    method TellTask(task: nat, command: Command)
      modifies this`commands
      ensures Contents() == Tell(old(Contents()), task, [command])
    {
      commands := commands[task := (if task in commands then commands[task] else []) + [command]];
    }

    method Cancel()
      modifies this
      ensures Contents() == Move(old(Contents()), Cancelled, [ResumeTask, CancelTask])
    {
      if !CanTransition(state, Cancelled) {
        return;
      }
      state := Cancelled;
      if tasks == [] || tasks[|tasks| - 1] in completed {
        finishScheduled := true;
        return;
      }
      var task := tasks[|tasks| - 1];
      ghost var v := Contents();
      TellTask(task, ResumeTask);
      TellTask(task, CancelTask);
      assert Commands(v, task) + [ResumeTask] + [CancelTask] == Commands(v, task) + [ResumeTask, CancelTask];
    }

    method Suspend()
      modifies this
      ensures Contents() == Move(old(Contents()), Suspended, [SuspendTask])
    {
      if !CanTransition(state, Suspended) {
        return;
      }
      state := Suspended;
      if tasks == [] || tasks[|tasks| - 1] in completed {
        return;
      }
      TellTask(tasks[|tasks| - 1], SuspendTask);
    }

    method Resume()
      modifies this
      ensures Contents() == Move(old(Contents()), Resumed, [ResumeTask])
    {
      if !CanTransition(state, Resumed) {
        return;
      }
      state := Resumed;
      if tasks == [] || tasks[|tasks| - 1] in completed {
        return;
      }
      TellTask(tasks[|tasks| - 1], ResumeTask);
    }

    method DidCreateTask(task: nat)
      modifies this`tasks
      ensures Contents() == AddTask(old(Contents()), task)
    {
      tasks := tasks + [task];
    }

    method UpdateStatesForTask(task: nat)
      modifies this`commands
      ensures Contents() == Update(old(Contents()), task)
    {
      ghost var v := Contents();
      match state
      case Initialized =>
      case Finished =>
      case Resumed => TellTask(task, ResumeTask);
      case Suspended => TellTask(task, SuspendTask);
      case Cancelled =>
        TellTask(task, ResumeTask);
        TellTask(task, CancelTask);
        assert Commands(v, task) + [ResumeTask] + [CancelTask] == Commands(v, task) + [ResumeTask, CancelTask];
    }
  }

  // ---------------------------------------------------------------- interleavings

  /** Session.didCreateURLRequest between its separate steps on the root queue. */
  datatype Creation = Idle | Checked | Made(task: nat) | Appended(task: nat)

  /** The state a finished request was in before, the last move made while its newest task was still
      waiting for updateStatesForTask, and whether that came while the request was finished. */
  datatype History = History(finishedFrom: State, movedWhilePending: State, updatedWhileFinished: bool)

  datatype World = World(v: View, creation: Creation, made: set<nat>, history: History)

  datatype Step = DoResume | DoSuspend | DoCancel
                | CheckCancelled | MakeTask(task: nat) | AppendTask | UpdateStates
                | TaskCompletes(task: nat)
                /** The last serializer is done: processNextResponseSerializer. */
                | Finish
                /** appendResponseSerializer, which reopens a finished request. */
                | AppendSerializer

  const INITIAL := World(View(Initialized, [], map[], {}, false), Idle, {}, History(Initialized, Initialized, false))

  predicate Enabled(w: World, step: Step) {
    match step
    case CheckCancelled => w.creation.Idle?
    case MakeTask(task) => w.creation.Checked? && task !in w.made
    case AppendTask => w.creation.Made?
    case UpdateStates => w.creation.Appended?
    case TaskCompletes(task) => task in w.made
    case _ => true
  }

  function Next(w: World, step: Step): World
    requires Enabled(w, step)
  {
    match step
    case DoResume => Moved(w, Resumed)
    case DoSuspend => Moved(w, Suspended)
    case DoCancel => Moved(w, Cancelled)
    case CheckCancelled => w.(creation := if w.v.state == Cancelled then Idle else Checked)
    case MakeTask(task) => w.(creation := Made(task), made := w.made + {task})
    case AppendTask =>
      w.(v := AddTask(w.v, w.creation.task), creation := Appended(w.creation.task),
         history := w.history.(movedWhilePending := Initialized))
    case UpdateStates =>
      w.(v := Update(w.v, w.creation.task), creation := Idle,
         history := w.history.(updatedWhileFinished := w.v.state == Finished))
    case TaskCompletes(task) => w.(v := w.v.(completed := w.v.completed + {task}))
    case Finish =>
      if !CanTransition(w.v.state, Finished) then w
      else w.(v := w.v.(state := Finished),
              history := w.history.(finishedFrom := w.v.state, updatedWhileFinished := false))
    case AppendSerializer => w.(v := w.v.(state := if w.v.state == Finished then Resumed else w.v.state))
  }

  function Moved(w: World, to: State): World {
    w.(v := Move(w.v, to, CommandsFor(to)),
       history := if CanTransition(w.v.state, to) && w.creation.Appended?
                  then w.history.(movedWhilePending := to) else w.history)
  }

  /** What the history says of the newest task's last order: of a request that was finished meanwhile,
      the state it was finished from, or the last move before the update that came too late. */
  function LastOrder(w: World): State {
    if w.creation.Appended? then w.history.movedWhilePending
    else if !w.v.state.Finished? then w.v.state
    else if w.history.updatedWhileFinished then w.history.movedWhilePending
    else w.history.finishedFrom
  }

  /** Would this step reopen a request whose newest task is still running on other orders? */
  predicate ReopensOutOfStep(w: World, step: Step) {
    step.AppendSerializer? && w.v.state == Finished && !w.creation.Appended?
    && HasLiveTask(w.v) && LastOrder(w) != Resumed
  }

  predicate EndsWith(told: seq<Command>, commands: seq<Command>) {
    |told| >= |commands| && told[|told| - |commands|..] == commands
  }

  /** The commands end with those for this state; nothing was ordered in the initial one. */
  predicate Follows(told: seq<Command>, order: State) {
    if order.Initialized? || order.Finished? then told == [] else EndsWith(told, CommandsFor(order))
  }

  predicate LastTold(told: seq<Command>, command: Command) {
    told != [] && told[|told| - 1] == command
  }

  /** The newest task of a resumed request was last told to resume, that of a suspended one to
      suspend, and that of a cancelled one to resume and then to cancel, unless the task has completed
      or updateStatesForTask is still to come. */
  predicate Mirrors(w: World) {
    !w.creation.Appended? && HasLiveTask(w.v) ==>
      var told := Commands(w.v, Newest(w.v));
      && (w.v.state == Resumed ==> LastTold(told, ResumeTask))
      && (w.v.state == Suspended ==> LastTold(told, SuspendTask))
      && (w.v.state == Cancelled ==> LastTold(told, CancelTask) && LastTold(told[..|told| - 1], ResumeTask))
  }

  lemma EndsWithOne(told: seq<Command>, command: Command)
    ensures EndsWith(told, [command]) <==> LastTold(told, command)
  {
    if told != [] {
      assert told[|told| - 1..] == [told[|told| - 1]];
    }
  }

  lemma EndsWithTwo(told: seq<Command>, first: Command, second: Command)
    ensures EndsWith(told, [first, second]) <==> LastTold(told, second) && LastTold(told[..|told| - 1], first)
  {
    if |told| >= 2 {
      assert told[|told| - 2..] == [told[|told| - 2], told[|told| - 1]];
    }
  }

  /** The literal last commands are those of CommandsFor. */
  lemma LastToldIs(told: seq<Command>)
    ensures EndsWith(told, CommandsFor(Resumed)) <==> LastTold(told, ResumeTask)
    ensures EndsWith(told, CommandsFor(Suspended)) <==> LastTold(told, SuspendTask)
    ensures EndsWith(told, CommandsFor(Cancelled))
            <==> LastTold(told, CancelTask) && LastTold(told[..|told| - 1], ResumeTask)
  {
    hide EndsWith, LastTold;
    EndsWithOne(told, ResumeTask);
    EndsWithOne(told, SuspendTask);
    EndsWithTwo(told, ResumeTask, CancelTask);
  }

  /** Cancelling reaches the newest task, or finishes the request when there is none to reach. */
  predicate CancelReaches(w: World) {
    w.v.state.Cancelled? ==>
      w.v.finishScheduled || w.creation.Appended?
      || (w.v.tasks != [] && EndsWith(Commands(w.v, Newest(w.v)), [ResumeTask, CancelTask]))
  }

  /** Only tasks that exist have been told anything, and a task that is not appended yet nothing. */
  predicate TasksKnown(w: World) {
    && (forall t :: t in w.v.commands ==> t in w.made)
    && (forall i :: 0 <= i < |w.v.tasks| ==> w.v.tasks[i] in w.made)
    && (w.creation.Made? ==> w.creation.task in w.made && w.creation.task !in w.v.commands
                             && w.creation.task !in w.v.tasks)
    && (w.creation.Appended? ==> w.v.tasks != [] && Newest(w.v) == w.creation.task)
  }

  predicate Inv(w: World) {
    && CancelReaches(w) && TasksKnown(w)
    && (HasLiveTask(w.v) ==> Follows(Commands(w.v, Newest(w.v)), LastOrder(w)))
    && (w.v.state.Initialized? ==> w.history.movedWhilePending.Initialized?)
  }

  ghost predicate Reachable(w0: World, steps: seq<Step>, w: World)
    decreases |steps|
  {
    if steps == [] then w == w0
    else Enabled(w0, steps[0]) && !ReopensOutOfStep(w0, steps[0]) && Reachable(Next(w0, steps[0]), steps[1..], w)
  }

  lemma TellTold(v: View, task: nat, commands: seq<Command>)
    ensures EndsWith(Commands(Tell(v, task, commands), task), commands)
  {
    assert (Commands(v, task) + commands)[|Commands(v, task)|..] == commands;
  }

  /** A move that goes through reaches the newest live task, and no other. */
  lemma MoveTells(v: View, to: State)
    requires CanTransition(v.state, to) && (to.Resumed? || to.Suspended? || to.Cancelled?)
    ensures var v' := Move(v, to, CommandsFor(to));
            && v'.state == to && v'.tasks == v.tasks && v'.completed == v.completed
            && (HasLiveTask(v) ==> v'.commands.Keys == v.commands.Keys + {Newest(v)}
                                   && EndsWith(Commands(v', Newest(v)), CommandsFor(to)))
            && (!HasLiveTask(v) ==> v'.commands == v.commands && (to.Cancelled? ==> v'.finishScheduled))
  {
    if HasLiveTask(v) {
      TellTold(v.(state := to), Newest(v), CommandsFor(to));
    }
    hide EndsWith, CommandsFor;
  }

  lemma MoveKeeps(w: World, to: State)
    requires Inv(w) && (to.Resumed? || to.Suspended? || to.Cancelled?)
    ensures Inv(Moved(w, to))
  {
    hide EndsWith, Move;
    if CanTransition(w.v.state, to) {
      MoveTells(w.v, to);
      var v' := Move(w.v, to, CommandsFor(to));
      assert TasksKnown(Moved(w, to)) by {
        assert forall t :: t in v'.commands ==> t in v'.commands.Keys;
      }
      assert LastOrder(Moved(w, to)) == to;
    } else {
      assert Moved(w, to) == w by { NoMove(w, to); }
    }
  }

  lemma NoMove(w: World, to: State)
    requires !CanTransition(w.v.state, to)
    ensures Moved(w, to) == w
  {
  }

  /** The update reaches the new task, if the state has orders for it. */
  lemma UpdateTells(v: View, task: nat)
    ensures var v' := Update(v, task);
            && v'.state == v.state && v'.tasks == v.tasks && v'.completed == v.completed
            && v'.finishScheduled == v.finishScheduled
            && (if v.state.Initialized? || v.state.Finished? then v'.commands == v.commands
                else v'.commands.Keys == v.commands.Keys + {task}
                     && EndsWith(Commands(v', task), CommandsFor(v.state)))
  {
    TellTold(v, task, CommandsFor(v.state));
    hide EndsWith, CommandsFor;
  }

  lemma UpdateKeeps(w: World)
    requires Inv(w) && Enabled(w, UpdateStates)
    ensures Inv(Next(w, UpdateStates))
  {
    hide EndsWith, Update;
    UpdateTells(w.v, w.creation.task);
    var v' := Update(w.v, w.creation.task);
    assert TasksKnown(Next(w, UpdateStates)) by {
      assert forall t :: t in v'.commands ==> t in v'.commands.Keys;
    }
  }

  lemma StepKeeps(w: World, step: Step)
    requires Inv(w) && Enabled(w, step) && !ReopensOutOfStep(w, step)
    ensures Inv(Next(w, step))
  {
    hide EndsWith, Move, Tell, Update;
    match step
    case DoResume => MoveKeeps(w, Resumed);
    case DoSuspend => MoveKeeps(w, Suspended);
    case DoCancel => MoveKeeps(w, Cancelled);
    case UpdateStates => UpdateKeeps(w);
    case _ =>
  }

  lemma {:induction false} RunKeeps(w0: World, steps: seq<Step>, w: World)
    requires Inv(w0) && Reachable(w0, steps, w)
    ensures Inv(w)
    decreases |steps|
  {
    if steps != [] {
      StepKeeps(w0, steps[0]);
      RunKeeps(Next(w0, steps[0]), steps[1..], w);
    }
  }

  /** In every interleaving the newest task mirrors its request, and a cancellation reaches it. */
  lemma NewestTaskMirrorsRequest(steps: seq<Step>, w: World)
    requires Reachable(INITIAL, steps, w)
    ensures Mirrors(w) && CancelReaches(w)
  {
    RunKeeps(INITIAL, steps, w);
    if HasLiveTask(w.v) {
      LastToldIs(Commands(w.v, Newest(w.v)));
    }
    hide EndsWith, CommandsFor, LastTold, Reachable;
  }

  /** The one step that can break the mirror: reopening a finished request does so exactly when the
      request was finished from another state than resumed or, if its newest task was only updated
      while it was finished, when the last move before that was another. */
  lemma ReopeningMirrorsIff(steps: seq<Step>, w: World)
    requires Reachable(INITIAL, steps, w)
    ensures Mirrors(Next(w, AppendSerializer)) <==> !ReopensOutOfStep(w, AppendSerializer)
  {
    if w.v.state != Finished {
      NewestTaskMirrorsRequest(steps, w);
    } else {
      RunKeeps(INITIAL, steps, w);
      hide Reachable;
      if HasLiveTask(w.v) {
        var told := Commands(w.v, Newest(w.v));
        assert Follows(told, LastOrder(w));
        FollowsOne(told, LastOrder(w));
        hide LastTold, Inv, Follows;
        assert Commands(Next(w, AppendSerializer).v, Newest(w.v)) == told;
      }
    }
  }

  /** Commands that end with those of one state do not end with a lone resume of another. */
  lemma FollowsOne(told: seq<Command>, order: State)
    requires Follows(told, order)
    ensures LastTold(told, ResumeTask) <==> order == Resumed
  {
    assert !order.Initialized? && !order.Finished? ==> told[|told| - 1] == CommandsFor(order)[|CommandsFor(order)| - 1];
    assert |told| > 0 ==> told[|told| - 1..] == [told[|told| - 1]];
  }

  lemma {:induction false} OneMoreStep(w0: World, steps: seq<Step>, w: World, step: Step)
    requires Reachable(w0, steps, w) && Enabled(w, step) && !ReopensOutOfStep(w, step)
    ensures Reachable(w0, steps + [step], Next(w, step))
    decreases |steps|
  {
    if steps == [] {
      assert [step][1..] == [];
    } else {
      assert (steps + [step])[1..] == steps[1..] + [step];
      OneMoreStep(Next(w0, steps[0]), steps[1..], w, step);
    }
  }

  /** A task has been created for a request that nobody has started. */
  lemma CreationRun() returns (steps: seq<Step>, w: World)
    ensures Reachable(INITIAL, steps, w) && w.creation.Idle?
    ensures w.v.state == Initialized && w.v.tasks == [7] && w.v.commands == map[] && w.v.completed == {}
  {
    hide Reachable;
    StartsReachable();
    OneMoreStep(INITIAL, [], INITIAL, CheckCancelled);
    var w1 := Next(INITIAL, CheckCancelled);
    OneMoreStep(INITIAL, [] + [CheckCancelled], w1, MakeTask(7));
    var w2 := Next(w1, MakeTask(7));
    OneMoreStep(INITIAL, [] + [CheckCancelled] + [MakeTask(7)], w2, AppendTask);
    var w3 := Next(w2, AppendTask);
    OneMoreStep(INITIAL, [] + [CheckCancelled] + [MakeTask(7)] + [AppendTask], w3, UpdateStates);
    steps, w := [] + [CheckCancelled] + [MakeTask(7)] + [AppendTask] + [UpdateStates], Next(w3, UpdateStates);
  }

  /** Such a run: a request is suspended and then finished while its task is alive, as invalidating
      the session does, and gets another serializer. */
  lemma ReopeningCanBreakTheMirror()
    ensures exists steps, w :: Reachable(INITIAL, steps, w) && !Mirrors(Next(w, AppendSerializer))
  {
    var steps, w := CreationRun();
    var w1, w2 := Next(w, DoSuspend), Next(Next(w, DoSuspend), Finish);
    assert HasLiveTask(w2.v) && LastOrder(w2) == Suspended;
    hide Reachable, Next, Mirrors;
    OneMoreStep(INITIAL, steps, w, DoSuspend);
    OneMoreStep(INITIAL, steps + [DoSuspend], w1, Finish);
    ReopeningMirrorsIff(steps + [DoSuspend] + [Finish], w2);
  }

  lemma StartsReachable()
    ensures Reachable(INITIAL, [], INITIAL)
  {
  }

  /** A cancelled request stays cancelled, whatever happens. */
  lemma {:induction false} CancelledIsForever(w0: World, steps: seq<Step>, w: World)
    requires w0.v.state == Cancelled && Reachable(w0, steps, w)
    ensures w.v.state == Cancelled
    decreases |steps|
  {
    if steps != [] {
      CancelledIsForever(Next(w0, steps[0]), steps[1..], w);
    }
  }
}
