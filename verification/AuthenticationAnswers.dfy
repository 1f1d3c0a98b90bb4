/** AuthenticationInterceptor.swift over whole runs: which step decides what a call is told, which
    credential is in force, and when a refresh starts. */
module AuthenticationAnswers {
  import opened Words
  import opened AuthenticationInterceptor

  // ---------------------------------------------------------------- the step that decides

  /** The answer is on its way to the call, or given. */
  predicate Tells(w: World, call: Call, answer: Answer) {
    || (call in w.threads && w.threads[call] == Answering(answer))
    || Deliver(call, answer) in w.auth.queue
    || (call, answer) in w.log
  }

  /** Recorded starts not before `min`. */
  function Recent(stamps: seq<real>, min: real): set<nat> {
    set i: nat | i < |stamps| && min <= stamps[i]
  }

  /** The window before `now` already holds the maximum of recorded starts. */
  predicate Crowded(s: State, now: real) {
    && s.refreshWindow.Some?
    && |Recent(s.refreshTimestamps, now - s.refreshWindow.value.interval)| >= s.refreshWindow.value.maximumAttempts
  }

  /** The call enters the locked part of adapt, from its caller's thread or as its turn on the serial
      queue comes. */
  predicate TakesAdaptLock(w: World, step: Step, call: Call) {
    || (step.AdaptStep? && step.call == call)
    || (step.RunJob? && w.auth.queue != [] && w.auth.queue[0] == Readapt(call))
  }

  /** This step settles that the call is told this answer. */
  predicate Decides(w: World, step: Step, call: Call, answer: Answer) {
    match answer
    case Adapted(c) =>
      TakesAdaptLock(w, step, call) && !w.auth.isRefreshing && w.auth.credential == Some(c) && !c.requiresRefresh
    case NotAdapted(error) =>
      || (step == Refreshed(Failure(error)) && call in w.auth.adaptOperations)
      || (TakesAdaptLock(w, step, call) && !w.auth.isRefreshing
          && if w.auth.credential.None? then error == MissingCredential
             else error == ExcessiveRefresh && w.auth.credential.value.requiresRefresh && Crowded(w.auth, step.checked))
    case RetryNow =>
      || (step == RetryRead(call, false) && w.auth.credential.Some?)
      || (step.Refreshed? && step.result.Success? && call in w.auth.requestsToRetry)
    case DoNotRetry => step == RetryDeclined(call)
    case DoNotRetryWithError(error) =>
      || (step == Refreshed(Failure(error)) && call in w.auth.requestsToRetry)
      || (step.RetryRead? && step.call == call && w.auth.credential.None? && error == MissingCredential)
      || (step.RetryStep? && step.call == call && !w.auth.isRefreshing && error == ExcessiveRefresh
          && Crowded(w.auth, step.checked))
  }

  /** Some step of the run settled it. */
  ghost predicate Decided(w: World, steps: seq<Step>, call: Call, answer: Answer)
    decreases |steps|
  {
    steps != [] && Enabled(w, steps[0])
    && (Decides(w, steps[0], call, answer) || Decided(Next(w, steps[0]), steps[1..], call, answer))
  }

  lemma {:induction false} SinceCounts(stamps: seq<real>, min: real)
    ensures Since(stamps, min) == |Recent(stamps, min)|
    decreases |stamps|
  {
    if stamps == [] {
      assert Recent(stamps, min) == {};
    } else {
      var n: nat := |stamps| - 1;
      SinceCounts(stamps[..n], min);
      assert Recent(stamps, min) == Recent(stamps[..n], min) + if min <= stamps[n] then {n} else {};
    }
  }

  lemma ExcessiveIsCrowded(s: State, now: real)
    ensures IsExcessive(s, now) <==> Crowded(s, now)
  {
    if s.refreshWindow.Some? {
      SinceCounts(s.refreshTimestamps, now - s.refreshWindow.value.interval);
    }
  }

  lemma DeliveriesTell(calls: seq<Call>, given: Answer, call: Call, answer: Answer)
    ensures Deliver(call, answer) in Deliveries(calls, given) <==> call in calls && answer == given
  {
    var jobs := Deliveries(calls, given);
    if call in calls && answer == given {
      var i :| 0 <= i < |calls| && calls[i] == call;
      assert jobs[i] == Deliver(call, answer);
    }
  }

  lemma SucceededTells(s: State, c: Credential, call: Call, answer: Answer)
    ensures Deliver(call, answer) in Succeeded(s, c).queue
            <==> Deliver(call, answer) in s.queue || (call in s.requestsToRetry && answer == RetryNow)
  {
    DeliveriesTell(s.requestsToRetry, RetryNow, call, answer);
    assert Deliver(call, answer) !in Readapts(s.adaptOperations);
    hide Deliveries, Readapts;
  }

  lemma FailedTells(s: State, error: AuthError, call: Call, answer: Answer)
    ensures Deliver(call, answer) in Failed(s, error).queue
            <==> || Deliver(call, answer) in s.queue
                 || (call in s.adaptOperations && answer == NotAdapted(error))
                 || (call in s.requestsToRetry && answer == DoNotRetryWithError(error))
  {
    DeliveriesTell(s.adaptOperations, NotAdapted(error), call, answer);
    DeliveriesTell(s.requestsToRetry, DoNotRetryWithError(error), call, answer);
    hide Deliveries;
  }

  lemma RefreshTells(s: State, c: Credential, checked: real, stamped: real, call: Call, answer: Answer)
    ensures Deliver(call, answer) in Refresh(s, c, checked, stamped).queue
            <==> || Deliver(call, answer) in s.queue
                 || (Crowded(s, checked) && call in s.adaptOperations && answer == NotAdapted(ExcessiveRefresh))
                 || (Crowded(s, checked) && call in s.requestsToRetry
                     && answer == DoNotRetryWithError(ExcessiveRefresh))
  {
    hide Failed, Crowded, IsExcessive;
    ExcessiveIsCrowded(s, checked);
    FailedTells(s, ExcessiveRefresh, call, answer);
  }

  /** What the adapt lock tells the call that takes it. */
  predicate AdaptDecides(s: State, now: real, answer: Answer) {
    !s.isRefreshing
    && match s.credential
       case None => answer == NotAdapted(MissingCredential)
       case Some(c) => if c.requiresRefresh then Crowded(s, now) && answer == NotAdapted(ExcessiveRefresh)
                       else answer == Adapted(c)
  }

  lemma AdaptTells(s: State, entering: Call, checked: real, stamped: real, call: Call, answer: Answer)
    requires Idle(s)
    ensures var (r, given) := AdaptLocked(s, entering, checked, stamped);
            Deliver(call, answer) in r.queue || (call == entering && given == Some(answer))
            <==> Deliver(call, answer) in s.queue || (call == entering && AdaptDecides(s, checked, answer))
  {
    hide Refresh;
    var deferred := s.(adaptOperations := s.adaptOperations + [entering]);
    assert Crowded(deferred, checked) == Crowded(s, checked);
    hide Crowded;
    if s.credential.Some? {
      RefreshTells(deferred, s.credential.value, checked, stamped, call, answer);
    }
  }

  lemma RetryTells(s: State, entering: Call, c: Credential, checked: real, stamped: real, call: Call, answer: Answer)
    requires Idle(s)
    ensures Deliver(call, answer) in RetryLocked(s, entering, c, checked, stamped).queue
            <==> Deliver(call, answer) in s.queue
                 || (call == entering && !s.isRefreshing && Crowded(s, checked)
                     && answer == DoNotRetryWithError(ExcessiveRefresh))
  {
    hide Refresh;
    var deferred := s.(requestsToRetry := s.requestsToRetry + [entering]);
    assert Crowded(deferred, checked) == Crowded(s, checked);
    hide Crowded;
    RefreshTells(deferred, c, checked, stamped, call, answer);
  }

  lemma AdaptStepTells(w: World, entering: Call, t: real, u: real, call: Call, answer: Answer)
    requires Idle(w.auth) && Enabled(w, AdaptStep(entering, t, u))
    ensures Tells(Next(w, AdaptStep(entering, t, u)), call, answer)
            <==> Tells(w, call, answer) || Decides(w, AdaptStep(entering, t, u), call, answer)
  {
    hide AdaptLocked, Crowded;
    AdaptTells(w.auth, entering, t, u, call, answer);
  }

  /** A re-adapted call that is answered is next on the serial queue. */
  lemma ReadaptTells(s: State, entering: Call, checked: real, stamped: real, call: Call, answer: Answer)
    requires Idle(s)
    ensures var (r, given) := AdaptLocked(s, entering, checked, stamped);
            var jobs := if given.Some? then [Deliver(entering, given.value)] + r.queue else r.queue;
            Deliver(call, answer) in jobs
            <==> Deliver(call, answer) in s.queue || (call == entering && AdaptDecides(s, checked, answer))
  {
    hide AdaptLocked, AdaptDecides;
    AdaptTells(s, entering, checked, stamped, call, answer);
  }

  lemma RunJobTells(w: World, t: real, u: real, call: Call, answer: Answer)
    requires Idle(w.auth) && Enabled(w, RunJob(t, u))
    ensures Tells(Next(w, RunJob(t, u)), call, answer)
            <==> Tells(w, call, answer) || Decides(w, RunJob(t, u), call, answer)
  {
    hide AdaptLocked;
    var s, job := w.auth.(queue := w.auth.queue[1..]), w.auth.queue[0];
    assert w.auth.queue == [job] + s.queue;
    assert Deliver(call, answer) in w.auth.queue <==> Deliver(call, answer) == job || Deliver(call, answer) in s.queue;
    assert Crowded(s, t) == Crowded(w.auth, t);
    hide Crowded;
    if job.Readapt? {
      ReadaptTells(s, job.call, t, u, call, answer);
      assert call == job.call ==>
          (Decides(w, RunJob(t, u), call, answer) <==> AdaptDecides(s, t, answer)) by { hide Next, RunFirst; }
      hide Decides, AdaptDecides;
    }
  }

  /** Exactly the deciding steps add to what calls are told, and nothing told is taken back. */
  lemma StepTells(w: World, step: Step, call: Call, answer: Answer)
    requires Idle(w.auth) && Enabled(w, step) && (step.Enter? ==> step.call !in w.threads)
    ensures Tells(Next(w, step), call, answer) <==> Tells(w, call, answer) || Decides(w, step, call, answer)
  {
    hide AdaptLocked, RetryLocked, Crowded, Succeeded, Failed;
    match step
    case AdaptStep(entering, t, u) => AdaptStepTells(w, entering, t, u, call, answer);
    case RetryStep(entering, t, u) =>
      RetryTells(w.auth, entering, w.threads[entering].credential, t, u, call, answer);
    case RunJob(t, u) => RunJobTells(w, t, u, call, answer);
    case Refreshed(Success(c)) => SucceededTells(w.auth, c, call, answer);
    case Refreshed(Failure(error)) => FailedTells(w.auth, error, call, answer);
    case _ =>
  }

  // ---------------------------------------------------------------- whole runs

  lemma {:induction false} RunTells(w0: World, steps: seq<Step>, w: World, call: Call, answer: Answer)
    requires SingleFlight(w0) && Conserved(w0) && Reachable(w0, steps, w)
    ensures Tells(w, call, answer) <==> Tells(w0, call, answer) || Decided(w0, steps, call, answer)
    decreases |steps|
  {
    if steps != [] {
      var w1 := Next(w0, steps[0]);
      assert steps[0].Enter? ==> Places(w0, steps[0].call) == 0;
      StepTells(w0, steps[0], call, answer);
      RunKeeps(w0, steps[..1], w1);
      hide Tells, Decides, SingleFlight, Conserved;
      RunTells(w1, steps[1..], w, call, answer);
    }
  }

  lemma {:induction false} CarriedTells(jobs: seq<Job>, call: Call, a: Answer, b: Answer)
    requires Deliver(call, a) in jobs
    ensures Carried(jobs, call) >= 1
    ensures Deliver(call, b) in jobs && a != b ==> Carried(jobs, call) >= 2
    decreases |jobs|
  {
    if Deliver(call, a) in jobs[1..] {
      CarriedTells(jobs[1..], call, a, b);
    } else if Deliver(call, b) in jobs[1..] {
      CarriedTells(jobs[1..], call, b, a);
    }
  }

  lemma {:induction false} AnswersTell(log: seq<(Call, Answer)>, call: Call, a: Answer, b: Answer)
    requires (call, a) in log
    ensures Answers(log, call) >= 1
    ensures (call, b) in log && a != b ==> Answers(log, call) >= 2
    decreases |log|
  {
    var before := log[..|log| - 1];
    assert log == before + [log[|log| - 1]];
    if (call, a) in before {
      AnswersTell(before, call, a, b);
    } else if (call, b) in before {
      AnswersTell(before, call, b, a);
    }
  }

  /** A call that is in one place only is told one thing only. */
  lemma ToldOnce(w: World, call: Call, a: Answer, b: Answer)
    requires Conserved(w) && Tells(w, call, a) && Tells(w, call, b)
    ensures a == b
  {
    assert Places(w, call) <= 1;
    if Deliver(call, a) in w.auth.queue {
      CarriedTells(w.auth.queue, call, a, b);
    }
    if Deliver(call, b) in w.auth.queue {
      CarriedTells(w.auth.queue, call, b, a);
    }
    if (call, a) in w.log {
      AnswersTell(w.log, call, a, b);
    }
    if (call, b) in w.log {
      AnswersTell(w.log, call, b, a);
    }
  }

  /** In every run an answer is given, or on its way, exactly if some step of the run decided it: a
      request is adapted with the credential held as it took the lock, a credential is reported
      missing only where none was held, and a refresh excessive only where the window was full. What
      is decided for a call is the only thing it is ever told. */
  lemma AnswersAreDecided(credential: Option<Credential>, window: Option<RefreshWindow>, clock: real,
                          steps: seq<Step>, w: World, call: Call, answer: Answer)
    requires Reachable(Initial(credential, window, clock), steps, w)
    ensures Tells(w, call, answer) <==> Decided(Initial(credential, window, clock), steps, call, answer)
    ensures (call, answer) in w.log ==> Decided(Initial(credential, window, clock), steps, call, answer)
    ensures Decided(Initial(credential, window, clock), steps, call, answer) ==>
              forall other :: (call, other) in w.log ==> other == answer
  {
    var w0 := Initial(credential, window, clock);
    RunTells(w0, steps, w, call, answer);
    RunKeeps(w0, steps, w);
    if Tells(w, call, answer) {
      forall other | (call, other) in w.log
        ensures other == answer
      {
        ToldOnce(w, call, other, answer);
      }
    }
  }

  /** In every run, whatever happens afterwards: a call that takes the adapt lock while nothing
      refreshes is told to use the credential then held if that is fit, and that the credential is
      missing if there is none; if it needs a refresh with the window full, that the refresh is
      excessive. */
  lemma AdaptUsesTheCredentialHeld(credential: Option<Credential>, window: Option<RefreshWindow>, clock: real,
                                   before: seq<Step>, w: World, step: Step, after: seq<Step>, w': World, call: Call,
                                   answer: Answer)
    requires Reachable(Initial(credential, window, clock), before, w)
    requires Enabled(w, step) && TakesAdaptLock(w, step, call) && !w.auth.isRefreshing
    requires Reachable(Next(w, step), after, w')
    ensures w.auth.credential == None ==>
              Tells(w', call, NotAdapted(MissingCredential))
              && ((call, answer) in w'.log ==> answer == NotAdapted(MissingCredential))
    ensures w.auth.credential.Some? && !w.auth.credential.value.requiresRefresh ==>
              Tells(w', call, Adapted(w.auth.credential.value))
              && ((call, answer) in w'.log ==> answer == Adapted(w.auth.credential.value))
    ensures w.auth.credential.Some? && w.auth.credential.value.requiresRefresh && Crowded(w.auth, step.checked) ==>
              Tells(w', call, NotAdapted(ExcessiveRefresh))
              && ((call, answer) in w'.log ==> answer == NotAdapted(ExcessiveRefresh))
  {
    RunKeeps(Initial(credential, window, clock), before, w);
    var told := match w.auth.credential
                case None => NotAdapted(MissingCredential)
                case Some(c) => if c.requiresRefresh then NotAdapted(ExcessiveRefresh) else Adapted(c);
    hide Tells, Next, Crowded;
    if Decides(w, step, call, told) {
      DecidedStays(w, step, after, w', call, told, answer);
    }
  }

  lemma DecidedStays(w: World, step: Step, after: seq<Step>, w': World, call: Call, told: Answer, answer: Answer)
    requires SingleFlight(w) && Conserved(w) && Enabled(w, step) && Decides(w, step, call, told)
    requires Reachable(Next(w, step), after, w')
    ensures Tells(w', call, told) && ((call, answer) in w'.log ==> answer == told)
  {
    var run := [step] + after;
    assert run[0] == step && run[1..] == after;
    RunTells(w, run, w', call, told);
    RunKeeps(w, run, w');
    hide Decides, Conserved;
    if (call, answer) in w'.log {
      ToldOnce(w', call, answer, told);
    }
  }

  // ---------------------------------------------------------------- credential and refresh

  /** The credential set or refreshed to most recently. */
  function Latest(credential: Option<Credential>, steps: seq<Step>): Option<Credential> {
    if steps == [] then credential
    else match steps[|steps| - 1]
      case SetCredential(c) => c
      case Refreshed(Success(c)) => Some(c)
      case _ => Latest(credential, steps[..|steps| - 1])
  }

  /** Refreshes the authenticator has answered. */
  function Endings(steps: seq<Step>): nat {
    if steps == [] then 0 else Endings(steps[1..]) + if steps[0].Refreshed? then 1 else 0
  }

  lemma {:induction false} LatestCons(credential: Option<Credential>, steps: seq<Step>)
    requires steps != []
    ensures Latest(credential, steps) == Latest(Latest(credential, steps[..1]), steps[1..])
    decreases |steps|
  {
    if |steps| > 1 {
      var n := |steps| - 1;
      assert steps[..n][..1] == steps[..1] && steps[1..][..n - 1] == steps[..n][1..];
      LatestCons(credential, steps[..n]);
    }
  }

  lemma LockKeepsCredential(s: State, call: Call, c: Credential, checked: real, stamped: real)
    ensures AdaptLocked(s, call, checked, stamped).0.credential == s.credential
    ensures RetryLocked(s, call, c, checked, stamped).credential == s.credential
  {
    hide IsExcessive;
  }

  lemma StepCredential(w: World, step: Step)
    requires Enabled(w, step)
    ensures Next(w, step).auth.credential == Latest(w.auth.credential, [step])
  {
    assert Latest(w.auth.credential, [step][..0]) == w.auth.credential;
    hide AdaptLocked, RetryLocked;
    match step
    case AdaptStep(call, t, u) => LockKeepsCredential(w.auth, call, Credential(0, false), t, u);
    case RetryStep(call, t, u) => LockKeepsCredential(w.auth, call, w.threads[call].credential, t, u);
    case RunJob(t, u) =>
      if w.auth.queue[0].Readapt? {
        var s := w.auth.(queue := w.auth.queue[1..]);
        LockKeepsCredential(s, w.auth.queue[0].call, Credential(0, false), t, u);
      }
    case _ =>
  }

  /** In every run the credential held is the one set or refreshed to most recently. */
  lemma {:induction false} CredentialIsLatest(w0: World, steps: seq<Step>, w: World)
    requires Reachable(w0, steps, w)
    ensures w.auth.credential == Latest(w0.auth.credential, steps)
    decreases |steps|
  {
    if steps != [] {
      StepCredential(w0, steps[0]);
      assert steps[..1] == [steps[0]];
      CredentialIsLatest(Next(w0, steps[0]), steps[1..], w);
      LatestCons(w0.auth.credential, steps);
    }
  }

  /** A call that needs a refresh while none is under way. */
  predicate NeedsRefresh(w: World, step: Step, call: Call, c: Credential) {
    !w.auth.isRefreshing
    && (|| (TakesAdaptLock(w, step, call) && w.auth.credential == Some(c) && c.requiresRefresh)
        || (step.RetryStep? && step.call == call && call in w.threads && w.threads[call] == Holding(c)))
  }

  lemma RefreshWithRoom(s: State, c: Credential, checked: real, stamped: real)
    requires !Crowded(s, checked)
    ensures Refresh(s, c, checked, stamped)
            == s.(refreshTimestamps := s.refreshTimestamps + [stamped], isRefreshing := true,
                  queue := s.queue + [StartRefresh(c)])
  {
    ExcessiveIsCrowded(s, checked);
    hide IsExcessive, Crowded;
  }

  lemma StepRefreshes(w: World, step: Step, call: Call, c: Credential)
    requires Idle(w.auth) && Enabled(w, step) && NeedsRefresh(w, step, call, c)
    ensures var s := if step.RunJob? then w.auth.(queue := w.auth.queue[1..]) else w.auth;
            var deferred := if step.RetryStep? then s.(requestsToRetry := [call]) else s.(adaptOperations := [call]);
            Next(w, step).auth == Refresh(deferred, c, step.checked, step.stamped)
  {
    hide Refresh;
    assert w.auth.adaptOperations + [call] == [call] && w.auth.requestsToRetry + [call] == [call];
  }

  /** In every run a call that finds room in the window starts a refresh, with the credential found
      unfit or refused, records the attempt, and waits for the end of it. */
  lemma RefreshWithRoomStarts(credential: Option<Credential>, window: Option<RefreshWindow>, clock: real,
                              before: seq<Step>, w: World, step: Step, call: Call, c: Credential)
    requires Reachable(Initial(credential, window, clock), before, w)
    requires Enabled(w, step) && NeedsRefresh(w, step, call, c) && !Crowded(w.auth, step.checked)
    ensures var r := Next(w, step).auth;
            && r.isRefreshing && r.refreshTimestamps == w.auth.refreshTimestamps + [step.stamped]
            && r.queue != [] && r.queue[|r.queue| - 1] == StartRefresh(c)
            && r.adaptOperations == (if step.RetryStep? then [] else [call])
            && r.requestsToRetry == (if step.RetryStep? then [call] else [])
  {
    RunKeeps(Initial(credential, window, clock), before, w);
    var s := if step.RunJob? then w.auth.(queue := w.auth.queue[1..]) else w.auth;
    var deferred := if step.RetryStep? then s.(requestsToRetry := [call]) else s.(adaptOperations := [call]);
    assert Crowded(deferred, step.checked) == Crowded(w.auth, step.checked);
    assert Idle(w.auth);
    hide Conserved, Crowded, Next, Refresh, Starts, Reachable;
    StepRefreshes(w, step, call, c);
    RefreshWithRoom(deferred, c, step.checked, step.stamped);
  }

  /** A locked region records an attempt exactly as it queues a start. */
  lemma LockRecords(s: State, call: Call, c: Credential, checked: real, stamped: real)
    requires Idle(s)
    ensures var r := AdaptLocked(s, call, checked, stamped).0;
            |r.refreshTimestamps| - |s.refreshTimestamps| == Starts(r.queue) - Starts(s.queue)
    ensures var r := RetryLocked(s, call, c, checked, stamped);
            |r.refreshTimestamps| - |s.refreshTimestamps| == Starts(r.queue) - Starts(s.queue)
  {
    hide IsExcessive, Starts;
    RefreshRecords(s.(requestsToRetry := s.requestsToRetry + [call]), c, checked, stamped);
    if s.credential.Some? {
      RefreshRecords(s.(adaptOperations := s.adaptOperations + [call]), s.credential.value, checked, stamped);
    }
  }

  lemma RefreshRecords(s: State, c: Credential, checked: real, stamped: real)
    ensures var r := Refresh(s, c, checked, stamped);
            |r.refreshTimestamps| - |s.refreshTimestamps| == Starts(r.queue) - Starts(s.queue)
  {
    hide IsExcessive, Starts;
    FailedWaiting(s, ExcessiveRefresh, Adapt(0));
    CarriedAppend(s.queue, [StartRefresh(c)], Adapt(0));
    CarriedOne(StartRefresh(c), Adapt(0));
  }

  function Recorded(w: World): int {
    |w.auth.refreshTimestamps| - Starts(w.auth.queue) - w.refreshing
  }

  lemma StepRecords(w: World, step: Step)
    requires SingleFlight(w) && Enabled(w, step)
    ensures Recorded(Next(w, step)) == Recorded(w) + if step.Refreshed? then 1 else 0
  {
    assert w.auth.queue != [] ==>
        Starts(w.auth.queue) == Starts(w.auth.queue[1..]) + if w.auth.queue[0].StartRefresh? then 1 else 0;
    hide AdaptLocked, RetryLocked, Starts;
    match step
    case AdaptStep(call, t, u) => LockRecords(w.auth, call, Credential(0, false), t, u);
    case RetryStep(call, t, u) => LockRecords(w.auth, call, w.threads[call].credential, t, u);
    case RunJob(t, u) =>
      var s, job := w.auth.(queue := w.auth.queue[1..]), w.auth.queue[0];
      if job.Readapt? {
        LockRecords(s, job.call, Credential(0, false), t, u);
        var (r, given) := AdaptLocked(s, job.call, t, u);
        if given.Some? {
          CarriedAppend([Deliver(job.call, given.value)], r.queue, job.call);
          CarriedOne(Deliver(job.call, given.value), job.call);
        }
      }
    case Refreshed(Success(c)) => SucceededWaiting(w.auth, c, Adapt(0));
    case Refreshed(Failure(error)) => FailedWaiting(w.auth, error, Adapt(0));
    case _ =>
  }

  lemma {:induction false} RunRecords(w0: World, steps: seq<Step>, w: World)
    requires SingleFlight(w0) && Conserved(w0) && Reachable(w0, steps, w)
    ensures Recorded(w) == Recorded(w0) + Endings(steps)
    decreases |steps|
  {
    if steps != [] {
      StepRecords(w0, steps[0]);
      RunKeeps(w0, steps[..1], Next(w0, steps[0]));
      hide SingleFlight, Conserved, Recorded;
      RunRecords(Next(w0, steps[0]), steps[1..], w);
    }
  }

  /** In every run the attempts recorded are the refreshes queued, outstanding or answered. */
  lemma EveryAttemptIsRecorded(credential: Option<Credential>, window: Option<RefreshWindow>, clock: real,
                               steps: seq<Step>, w: World)
    requires Reachable(Initial(credential, window, clock), steps, w)
    ensures |w.auth.refreshTimestamps| == Starts(w.auth.queue) + w.refreshing + Endings(steps)
  {
    RunRecords(Initial(credential, window, clock), steps, w);
  }
}
