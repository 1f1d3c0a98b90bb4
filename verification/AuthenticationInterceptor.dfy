/** AuthenticationInterceptor.swift: single-flight credential refresh. Each region under the lock
    and each action of the serial queue is one atomic step; threads interleave freely. */
module AuthenticationInterceptor {
  import opened Words

  datatype Credential = Credential(token: nat, requiresRefresh: bool)
  datatype AuthError = MissingCredential | ExcessiveRefresh | RefreshError(code: int)
  datatype RefreshWindow = RefreshWindow(interval: real, maximumAttempts: int)

  /** A completion closure handed to adapt or to retry. */
  datatype Call = Adapt(id: nat) | Retry(id: nat)
  datatype Answer = Adapted(credential: Credential) | NotAdapted(error: AuthError)
                  | RetryNow | DoNotRetry | DoNotRetryWithError(error: AuthError)

  /** What waits on the serial queue. A job that runs several closures in turn is the run of its
      actions: no other job of a serial queue comes between them. */
  datatype Job = StartRefresh(credential: Credential) | Readapt(call: Call) | Deliver(call: Call, answer: Answer)

  /** MutableState and the queue. */
  datatype State = State(
    credential: Option<Credential>, isRefreshing: bool,
    refreshTimestamps: seq<real>, refreshWindow: Option<RefreshWindow>,
    adaptOperations: seq<Call>, requestsToRetry: seq<Call>, queue: seq<Job>)

  // ---------------------------------------------------------------- the locked regions

  /** Timestamps not before `min`. */
  function Since(stamps: seq<real>, min: real): nat {
    if stamps == [] then 0 else Since(stamps[..|stamps| - 1], min) + if min <= stamps[|stamps| - 1] then 1 else 0
  }

  predicate IsExcessive(s: State, now: real) {
    s.refreshWindow.Some?
    && Since(s.refreshTimestamps, now - s.refreshWindow.value.interval) >= s.refreshWindow.value.maximumAttempts
  }

  function Deliveries(calls: seq<Call>, answer: Answer): (jobs: seq<Job>)
    ensures |jobs| == |calls| && forall i :: 0 <= i < |calls| ==> jobs[i] == Deliver(calls[i], answer)
  {
    seq(|calls|, i requires 0 <= i < |calls| => Deliver(calls[i], answer))
  }

  function Readapts(calls: seq<Call>): (jobs: seq<Job>)
    ensures |jobs| == |calls| && forall i :: 0 <= i < |calls| ==> jobs[i] == Readapt(calls[i])
  {
    seq(|calls|, i requires 0 <= i < |calls| => Readapt(calls[i]))
  }

  /** Nothing is queued and nothing refreshes; `jobs` go to the serial queue. */
  function Drained(s: State, jobs: seq<Job>): State {
    s.(adaptOperations := [], requestsToRetry := [], isRefreshing := false, queue := s.queue + jobs)
  }

  function Succeeded(s: State, c: Credential): State {
    Drained(s, Readapts(s.adaptOperations) + Deliveries(s.requestsToRetry, RetryNow)).(credential := Some(c))
  }

  function Failed(s: State, error: AuthError): State {
    Drained(s, Deliveries(s.adaptOperations, NotAdapted(error))
               + Deliveries(s.requestsToRetry, DoNotRetryWithError(error)))
  }

  /** The clock reads `checked` in the window check and `stamped` when the attempt is recorded. */
  function Refresh(s: State, c: Credential, checked: real, stamped: real): State {
    if IsExcessive(s, checked) then Failed(s, ExcessiveRefresh)
    else s.(refreshTimestamps := s.refreshTimestamps + [stamped], isRefreshing := true,
            queue := s.queue + [StartRefresh(c)])
  }

  /** Locked part of adapt: the new state, and the answer unless the call is deferred. */
  function AdaptLocked(s: State, call: Call, checked: real, stamped: real): (State, Option<Answer>) {
    if s.isRefreshing then (s.(adaptOperations := s.adaptOperations + [call]), None)
    else match s.credential
      case None => (s, Some(NotAdapted(MissingCredential)))
      case Some(c) =>
        if c.requiresRefresh
        then (Refresh(s.(adaptOperations := s.adaptOperations + [call]), c, checked, stamped), None)
        else (s, Some(Adapted(c)))
  }

  /** Locked part of retry, with the credential read earlier. */
  function RetryLocked(s: State, call: Call, c: Credential, checked: real, stamped: real): State {
    var s := s.(requestsToRetry := s.requestsToRetry + [call]);
    if s.isRefreshing then s else Refresh(s, c, checked, stamped)
  }

  // ---------------------------------------------------------------- the class

  class Interceptor {
    var credential: Option<Credential>
    var isRefreshing: bool
    var refreshTimestamps: seq<real>
    const refreshWindow: Option<RefreshWindow>
    var adaptOperations: seq<Call>
    var requestsToRetry: seq<Call>
    var queue: seq<Job>

    ghost function View(): State
      reads this
    {
      State(credential, isRefreshing, refreshTimestamps, refreshWindow, adaptOperations, requestsToRetry, queue)
    }

    constructor (credential: Option<Credential>, refreshWindow: Option<RefreshWindow>)
      ensures View() == State(credential, false, [], refreshWindow, [], [], [])
    {
      this.credential := credential;
      this.refreshWindow := refreshWindow;
      isRefreshing, refreshTimestamps, adaptOperations, requestsToRetry, queue := false, [], [], [], [];
    }

    method IsRefreshExcessive(now: real) returns (excessive: bool)
      ensures excessive == IsExcessive(View(), now)
    {
      if refreshWindow.None? {
        return false;
      }
      var refreshWindowMin := now - refreshWindow.value.interval;
      var attempts := 0;
      for i := 0 to |refreshTimestamps|
        invariant attempts == Since(refreshTimestamps[..i], refreshWindowMin)
      {
        assert refreshTimestamps[..i + 1][..i] == refreshTimestamps[..i];
        if refreshWindowMin <= refreshTimestamps[i] {
          attempts := attempts + 1;
        }
      }
      assert refreshTimestamps[..|refreshTimestamps|] == refreshTimestamps;
      return attempts >= refreshWindow.value.maximumAttempts;
    }

    method HandleRefreshSuccess(newCredential: Credential)
      modifies this
      ensures View() == Succeeded(old(View()), newCredential)
    {
      credential := Some(newCredential);
      var adapts, retries := adaptOperations, requestsToRetry;
      adaptOperations, requestsToRetry := [], [];
      isRefreshing := false;
      Dispatch(Readapts(adapts) + Deliveries(retries, RetryNow));
    }

    method HandleRefreshFailure(error: AuthError)
      modifies this
      ensures View() == Failed(old(View()), error)
    {
      var adapts, retries := adaptOperations, requestsToRetry;
      adaptOperations, requestsToRetry := [], [];
      isRefreshing := false;
      Dispatch(Deliveries(adapts, NotAdapted(error)) + Deliveries(retries, DoNotRetryWithError(error)));
    }

    method Dispatch(jobs: seq<Job>)
      modifies this`queue
      ensures queue == old(queue) + jobs
    {
      queue := queue + jobs;
    }

    method StartRefreshing(c: Credential, checked: real, stamped: real)
      modifies this
      ensures View() == Refresh(old(View()), c, checked, stamped)
    {
      var excessive := IsRefreshExcessive(checked);
      if excessive {
        HandleRefreshFailure(ExcessiveRefresh);
        return;
      }
      refreshTimestamps := refreshTimestamps + [stamped];
      isRefreshing := true;
      Dispatch([StartRefresh(c)]);
    }

    method AdaptInLock(call: Call, checked: real, stamped: real) returns (result: Option<Answer>)
      modifies this
      ensures (View(), result) == AdaptLocked(old(View()), call, checked, stamped)
    {
      if isRefreshing {
        adaptOperations := adaptOperations + [call];
        return None;
      }
      if credential.None? {
        return Some(NotAdapted(MissingCredential));
      }
      if credential.value.requiresRefresh {
        adaptOperations := adaptOperations + [call];
        StartRefreshing(credential.value, checked, stamped);
        return None;
      }
      return Some(Adapted(credential.value));
    }

    method RetryInLock(call: Call, c: Credential, checked: real, stamped: real)
      modifies this
      ensures View() == RetryLocked(old(View()), call, c, checked, stamped)
    {
      requestsToRetry := requestsToRetry + [call];
      if isRefreshing {
        return;
      }
      StartRefreshing(c, checked, stamped);
    }
  }

  // ---------------------------------------------------------------- interleavings

  /** Where a call stands on its caller's thread. */
  datatype Phase = Entered | Holding(credential: Credential) | Answering(answer: Answer)

  /** The credentials the interceptor was ever given, and the errors the authenticator reported. */
  datatype History = History(held: set<Credential>, reported: set<AuthError>)

  /** The interceptor, the threads inside adapt and retry, the refreshes the authenticator has begun
      and not answered, every answer given so far, and the last reading of the clock. */
  datatype World = World(
    auth: State, threads: map<Call, Phase>, refreshing: nat,
    log: seq<(Call, Answer)>, issued: set<Call>, clock: real, history: History)

  function Holders(credential: Option<Credential>): set<Credential> {
    match credential
    case Some(c) => {c}
    case None => {}
  }

  datatype Step =
    | Enter(call: Call)
    | AdaptStep(call: Call, checked: real, stamped: real)
    /** The server did not refuse the request for its credential. */
    | RetryDeclined(call: Call)
    /** The credential is read here, and the lock taken again later. */
    | RetryRead(call: Call, authenticatedWithIt: bool)
    | RetryStep(call: Call, checked: real, stamped: real)
    | Return(call: Call)
    | RunJob(checked: real, stamped: real)
    | Refreshed(result: RefreshResult)
    | SetCredential(credential: Option<Credential>)

  datatype RefreshResult = Success(credential: Credential) | Failure(error: AuthError)

  function Initial(credential: Option<Credential>, window: Option<RefreshWindow>, clock: real): World {
    World(State(credential, false, [], window, [], [], []), map[], 0, [], {}, clock,
          History(Holders(credential), {}))
  }

  /** May this step be taken? Closures are fresh, and the clock never goes back. */
  predicate Enabled(w: World, step: Step) {
    match step
    case Enter(call) => call !in w.issued
    case AdaptStep(call, t, u) => call.Adapt? && call in w.threads && w.threads[call].Entered? && w.clock <= t <= u
    case RetryDeclined(call) => call.Retry? && call in w.threads && w.threads[call].Entered?
    case RetryRead(call, _) => call.Retry? && call in w.threads && w.threads[call].Entered?
    case RetryStep(call, t, u) => call.Retry? && call in w.threads && w.threads[call].Holding? && w.clock <= t <= u
    case Return(call) => call in w.threads && w.threads[call].Answering?
    case RunJob(t, u) => w.auth.queue != [] && w.clock <= t <= u
    case Refreshed(_) => w.refreshing > 0
    case SetCredential(_) => true
  }

  function Next(w: World, step: Step): World
    requires Enabled(w, step)
  {
    match step
    case Enter(call) => w.(issued := w.issued + {call}, threads := w.threads[call := Entered])
    case AdaptStep(call, t, u) =>
      var (auth, answer) := AdaptLocked(w.auth, call, t, u);
      w.(auth := auth, clock := u,
         threads := if answer.Some? then w.threads[call := Answering(answer.value)] else w.threads - {call})
    case RetryDeclined(call) => w.(threads := w.threads[call := Answering(DoNotRetry)])
    case RetryRead(call, authenticatedWithIt) =>
      w.(threads := w.threads[call := match w.auth.credential
                                      case None => Answering(DoNotRetryWithError(MissingCredential))
                                      case Some(c) => if authenticatedWithIt then Holding(c) else Answering(RetryNow)])
    case RetryStep(call, t, u) =>
      w.(auth := RetryLocked(w.auth, call, w.threads[call].credential, t, u), clock := u, threads := w.threads - {call})
    case Return(call) => w.(threads := w.threads - {call}, log := w.log + [(call, w.threads[call].answer)])
    case RunJob(t, u) => RunFirst(w.(auth := w.auth.(queue := w.auth.queue[1..])), w.auth.queue[0], t, u)
    case Refreshed(Success(c)) =>
      w.(refreshing := w.refreshing - 1, auth := Succeeded(w.auth, c),
         history := w.history.(held := w.history.held + {c}))
    case Refreshed(Failure(error)) =>
      w.(refreshing := w.refreshing - 1, auth := Failed(w.auth, error),
         history := w.history.(reported := w.history.reported + {error}))
    case SetCredential(c) =>
      w.(auth := w.auth.(credential := c), history := w.history.(held := w.history.held + Holders(c)))
  }

  /** The first job of the queue. A re-adapted call that is answered still has its completion to
      run, next on the same queue. */
  function RunFirst(w: World, job: Job, t: real, u: real): World {
    match job
    case StartRefresh(_) => w.(refreshing := w.refreshing + 1, clock := u)
    case Deliver(call, answer) => w.(log := w.log + [(call, answer)], clock := u)
    case Readapt(call) =>
      var (auth, answer) := AdaptLocked(w.auth, call, t, u);
      w.(clock := u, auth := if answer.Some? then auth.(queue := [Deliver(call, answer.value)] + auth.queue) else auth)
  }

  ghost predicate Reachable(w0: World, steps: seq<Step>, w: World)
    decreases |steps|
  {
    if steps == [] then w == w0
    else Enabled(w0, steps[0]) && Reachable(Next(w0, steps[0]), steps[1..], w)
  }

  // ---------------------------------------------------------------- conservation

  function Occurrences(calls: seq<Call>, call: Call): nat {
    if calls == [] then 0 else (if calls[0] == call then 1 else 0) + Occurrences(calls[1..], call)
  }

  predicate Carries(job: Job, call: Call) {
    !job.StartRefresh? && job.call == call
  }

  /** Jobs of the serial queue that carry this call. */
  function Carried(jobs: seq<Job>, call: Call): nat {
    if jobs == [] then 0 else (if Carries(jobs[0], call) then 1 else 0) + Carried(jobs[1..], call)
  }

  /** How often a call has been answered. */
  function Answers(log: seq<(Call, Answer)>, call: Call): nat {
    if log == [] then 0
    else Answers(log[..|log| - 1], call) + if log[|log| - 1].0 == call then 1 else 0
  }

  function Starts(jobs: seq<Job>): nat {
    if jobs == [] then 0 else (if jobs[0].StartRefresh? then 1 else 0) + Starts(jobs[1..])
  }

  /** Queued behind a refresh or waiting on the serial queue. */
  function Waiting(s: State, call: Call): nat {
    Occurrences(s.adaptOperations, call) + Occurrences(s.requestsToRetry, call) + Carried(s.queue, call)
  }

  /** Places a call is at: queued, on the serial queue, on its caller's thread, or answered. */
  function Places(w: World, call: Call): nat {
    Waiting(w.auth, call) + (if call in w.threads then 1 else 0) + Answers(w.log, call)
  }

  /** A refresh is outstanding exactly while isRefreshing, and then only one; calls queue up only
      behind it. */
  predicate SingleFlight(w: World) {
    && Starts(w.auth.queue) + w.refreshing == (if w.auth.isRefreshing then 1 else 0)
    && (!w.auth.isRefreshing ==> w.auth.adaptOperations == [] && w.auth.requestsToRetry == [])
  }

  /** Every issued call is in exactly one place. */
  ghost predicate Conserved(w: World) {
    forall call :: Places(w, call) == if call in w.issued then 1 else 0
  }

  lemma {:induction false} OccurrencesAppend(a: seq<Call>, b: Call, call: Call)
    ensures Occurrences(a + [b], call) == Occurrences(a, call) + if b == call then 1 else 0
    decreases |a|
  {
    if a != [] {
      assert (a + [b])[1..] == a[1..] + [b];
      OccurrencesAppend(a[1..], b, call);
    }
  }

  lemma {:induction false} CarriedAppend(a: seq<Job>, b: seq<Job>, call: Call)
    ensures Carried(a + b, call) == Carried(a, call) + Carried(b, call) && Starts(a + b) == Starts(a) + Starts(b)
    decreases |a|
  {
    if a == [] {
      assert a + b == b;
    } else {
      assert (a + b)[0] == a[0] && (a + b)[1..] == a[1..] + b;
      CarriedAppend(a[1..], b, call);
    }
  }

  lemma CarriedOne(job: Job, call: Call)
    ensures Carried([job], call) == (if Carries(job, call) then 1 else 0)
    ensures Starts([job]) == if job.StartRefresh? then 1 else 0
  {
    assert [job][1..] == [];
  }

  lemma {:induction false} DeliveriesCarry(calls: seq<Call>, answer: Answer, call: Call)
    ensures Carried(Deliveries(calls, answer), call) == Occurrences(calls, call)
    ensures Starts(Deliveries(calls, answer)) == 0
    decreases |calls|
  {
    if calls != [] {
      assert Deliveries(calls, answer)[1..] == Deliveries(calls[1..], answer);
      DeliveriesCarry(calls[1..], answer, call);
    }
  }

  lemma {:induction false} ReadaptsCarry(calls: seq<Call>, call: Call)
    ensures Carried(Readapts(calls), call) == Occurrences(calls, call) && Starts(Readapts(calls)) == 0
    decreases |calls|
  {
    if calls != [] {
      assert Readapts(calls)[1..] == Readapts(calls[1..]);
      ReadaptsCarry(calls[1..], call);
    }
  }

  /** Both endings of a refresh move every queued call to the serial queue. */
  lemma SucceededWaiting(s: State, c: Credential, call: Call)
    ensures Waiting(Succeeded(s, c), call) == Waiting(s, call)
    ensures Starts(Succeeded(s, c).queue) == Starts(s.queue)
  {
    hide Carried, Starts;
    var adapts, retries := Readapts(s.adaptOperations), Deliveries(s.requestsToRetry, RetryNow);
    ReadaptsCarry(s.adaptOperations, call);
    DeliveriesCarry(s.requestsToRetry, RetryNow, call);
    CarriedAppend(adapts, retries, call);
    CarriedAppend(s.queue, adapts + retries, call);
  }

  lemma FailedWaiting(s: State, error: AuthError, call: Call)
    ensures Waiting(Failed(s, error), call) == Waiting(s, call)
    ensures Starts(Failed(s, error).queue) == Starts(s.queue)
  {
    hide Carried, Starts;
    var adapts := Deliveries(s.adaptOperations, NotAdapted(error));
    var retries := Deliveries(s.requestsToRetry, DoNotRetryWithError(error));
    DeliveriesCarry(s.adaptOperations, NotAdapted(error), call);
    DeliveriesCarry(s.requestsToRetry, DoNotRetryWithError(error), call);
    CarriedAppend(adapts, retries, call);
    CarriedAppend(s.queue, adapts + retries, call);
  }

  /** A locked region keeps calls, and starts a refresh only when it says so. */
  predicate LockKeeps(s: State, r: State) {
    && Starts(r.queue) - Starts(s.queue) == (if r.isRefreshing then 1 else 0) - (if s.isRefreshing then 1 else 0)
    && (!r.isRefreshing ==> r.adaptOperations == [] && r.requestsToRetry == [])
  }

  predicate Idle(s: State) {
    !s.isRefreshing ==> s.adaptOperations == [] && s.requestsToRetry == []
  }

  lemma RefreshWaiting(s: State, c: Credential, checked: real, stamped: real, call: Call)
    requires !s.isRefreshing
    ensures Waiting(Refresh(s, c, checked, stamped), call) == Waiting(s, call)
    ensures LockKeeps(s, Refresh(s, c, checked, stamped))
  {
    FailedWaiting(s, ExcessiveRefresh, call);
    CarriedAppend(s.queue, [StartRefresh(c)], call);
    CarriedOne(StartRefresh(c), call);
  }

  /** A call that enters the lock comes out answered or waiting, once. */
  lemma AdaptWaiting(s: State, entering: Call, checked: real, stamped: real, call: Call)
    requires Idle(s)
    ensures var (r, answer) := AdaptLocked(s, entering, checked, stamped);
            && LockKeeps(s, r)
            && Waiting(r, call) == Waiting(s, call) + if answer.None? && call == entering then 1 else 0
  {
    hide Refresh, Starts;
    OccurrencesAppend(s.adaptOperations, entering, call);
    if !s.isRefreshing && s.credential.Some? {
      RefreshWaiting(s.(adaptOperations := s.adaptOperations + [entering]), s.credential.value, checked, stamped, call);
    }
  }

  lemma RetryWaiting(s: State, entering: Call, c: Credential, checked: real, stamped: real, call: Call)
    requires Idle(s)
    ensures var r := RetryLocked(s, entering, c, checked, stamped);
            && LockKeeps(s, r)
            && Waiting(r, call) == Waiting(s, call) + if call == entering then 1 else 0
  {
    hide Refresh, Starts;
    OccurrencesAppend(s.requestsToRetry, entering, call);
    if !s.isRefreshing {
      RefreshWaiting(s.(requestsToRetry := s.requestsToRetry + [entering]), c, checked, stamped, call);
    }
  }

  lemma AnswersSnoc(log: seq<(Call, Answer)>, answered: Call, answer: Answer, call: Call)
    ensures Answers(log + [(answered, answer)], call) == Answers(log, call) + if answered == call then 1 else 0
  {
    assert (log + [(answered, answer)])[..|log|] == log;
  }

  lemma RunJobKeeps(w: World, t: real, u: real, call: Call)
    requires SingleFlight(w) && Enabled(w, RunJob(t, u))
    ensures var w' := Next(w, RunJob(t, u)); SingleFlight(w') && Places(w', call) == Places(w, call)
  {
    hide AdaptLocked, Answers;
    var job := w.auth.queue[0];
    var s := w.auth.(queue := w.auth.queue[1..]);
    assert Waiting(w.auth, call) == Waiting(s, call) + if Carries(job, call) then 1 else 0;
    assert Starts(w.auth.queue) == Starts(s.queue) + if job.StartRefresh? then 1 else 0;
    hide Carried, Occurrences, Starts, Waiting;
    match job
    case StartRefresh(_) =>
    case Deliver(answered, answer) => AnswersSnoc(w.log, answered, answer, call);
    case Readapt(entering) => ReadaptWaiting(s, entering, t, u, call);
  }

  /** A re-adapted call is deferred again, or next on the serial queue to be answered. */
  lemma ReadaptWaiting(s: State, entering: Call, checked: real, stamped: real, call: Call)
    requires Idle(s)
    ensures var (r, answer) := AdaptLocked(s, entering, checked, stamped);
            var r' := if answer.Some? then r.(queue := [Deliver(entering, answer.value)] + r.queue) else r;
            && LockKeeps(s, r') && Waiting(r', call) == Waiting(s, call) + if call == entering then 1 else 0
  {
    hide AdaptLocked, Carried, Occurrences, Starts;
    AdaptWaiting(s, entering, checked, stamped, call);
    var (r, answer) := AdaptLocked(s, entering, checked, stamped);
    if answer.Some? {
      CarriedAppend([Deliver(entering, answer.value)], r.queue, call);
      CarriedOne(Deliver(entering, answer.value), call);
    }
  }

  lemma AdaptKeeps(w: World, entering: Call, t: real, u: real, call: Call)
    requires SingleFlight(w) && Enabled(w, AdaptStep(entering, t, u))
    ensures var w' := Next(w, AdaptStep(entering, t, u)); SingleFlight(w') && Places(w', call) == Places(w, call)
  {
    hide AdaptLocked, Waiting, Answers, Starts;
    AdaptWaiting(w.auth, entering, t, u, call);
    var (r, answer) := AdaptLocked(w.auth, entering, t, u);
    assert Next(w, AdaptStep(entering, t, u)).auth == r;
  }

  /** No step loses a call or makes it appear twice, and at most one refresh is ever started. */
  lemma StepKeeps(w: World, step: Step, call: Call)
    requires SingleFlight(w) && Enabled(w, step) && (step.Enter? ==> Places(w, step.call) == 0)
    ensures SingleFlight(Next(w, step))
    ensures Places(Next(w, step), call) == Places(w, call) + if step == Enter(call) then 1 else 0
  {
    hide AdaptLocked, RetryLocked, Succeeded, Failed, Carried, Answers, Starts, Occurrences;
    match step
    case AdaptStep(entering, t, u) => AdaptKeeps(w, entering, t, u, call);
    case RetryStep(entering, t, u) =>
      RetryWaiting(w.auth, entering, w.threads[entering].credential, t, u, call);
    case Return(answered) => AnswersSnoc(w.log, answered, w.threads[answered].answer, call);
    case RunJob(t, u) => RunJobKeeps(w, t, u, call);
    case Refreshed(result) => RefreshedKeeps(w, result, call);
    case _ =>
  }

  lemma RefreshedKeeps(w: World, result: RefreshResult, call: Call)
    requires SingleFlight(w) && Enabled(w, Refreshed(result))
    ensures var w' := Next(w, Refreshed(result)); SingleFlight(w') && Places(w', call) == Places(w, call)
  {
    hide Carried, Answers, Starts, Occurrences;
    match result
    case Success(c) => SucceededWaiting(w.auth, c, call);
    case Failure(error) => FailedWaiting(w.auth, error, call);
  }

  lemma {:induction false} RunKeeps(w0: World, steps: seq<Step>, w: World)
    requires SingleFlight(w0) && Conserved(w0) && Reachable(w0, steps, w)
    ensures SingleFlight(w) && Conserved(w)
    decreases |steps|
  {
    if steps != [] {
      var w1 := Next(w0, steps[0]);
      forall call
        ensures SingleFlight(w1) && Places(w1, call) == if call in w1.issued then 1 else 0
      {
        StepKeeps(w0, steps[0], call);
      }
      StepKeeps(w0, steps[0], Adapt(0));
      RunKeeps(w1, steps[1..], w);
    }
  }

  /** In every run a refresh is outstanding exactly while isRefreshing, never two, and calls are
      queued only behind it. */
  lemma RefreshIsSingleFlight(credential: Option<Credential>, window: Option<RefreshWindow>, clock: real,
                              steps: seq<Step>, w: World)
    requires Reachable(Initial(credential, window, clock), steps, w)
    ensures Starts(w.auth.queue) + w.refreshing <= 1
    ensures w.auth.isRefreshing <==> Starts(w.auth.queue) + w.refreshing == 1
    ensures !w.auth.isRefreshing ==> w.auth.adaptOperations == [] && w.auth.requestsToRetry == []
  {
    RunKeeps(Initial(credential, window, clock), steps, w);
  }

  /** In every run each call is in exactly one place; none is answered twice, and once nothing is
      refreshing, queued or on a thread, every call has been answered. */
  lemma CallsAreConserved(credential: Option<Credential>, window: Option<RefreshWindow>, clock: real,
                          steps: seq<Step>, w: World, call: Call)
    requires Reachable(Initial(credential, window, clock), steps, w)
    ensures Places(w, call) == if call in w.issued then 1 else 0
    ensures Answers(w.log, call) <= 1
    ensures !w.auth.isRefreshing && w.auth.queue == [] && w.threads == map[] && call in w.issued ==>
              Answers(w.log, call) == 1
  {
    RunKeeps(Initial(credential, window, clock), steps, w);
  }

  // ---------------------------------------------------------------- answers have their grounds

  /** An error comes from the authenticator, or says that a credential is missing or was refreshed
      too often. */
  predicate KnownError(h: History, error: AuthError) {
    error in h.reported || error == MissingCredential || error == ExcessiveRefresh
  }

  /** An adapt call gets a credential fit for use, a retry call a retry result, and an error either. */
  predicate Grounded(h: History, call: Call, answer: Answer) {
    match answer
    case Adapted(c) => call.Adapt? && c in h.held && !c.requiresRefresh
    case NotAdapted(error) => call.Adapt? && KnownError(h, error)
    case DoNotRetryWithError(error) => call.Retry? && KnownError(h, error)
    case _ => call.Retry?
  }

  predicate JobGrounded(h: History, job: Job) {
    match job
    case StartRefresh(_) => true
    case Readapt(call) => call.Adapt?
    case Deliver(call, answer) => Grounded(h, call, answer)
  }

  predicate StateGrounded(h: History, s: State) {
    && (s.credential.Some? ==> s.credential.value in h.held)
    && (forall i :: 0 <= i < |s.adaptOperations| ==> s.adaptOperations[i].Adapt?)
    && (forall i :: 0 <= i < |s.requestsToRetry| ==> s.requestsToRetry[i].Retry?)
    && (forall i :: 0 <= i < |s.queue| ==> JobGrounded(h, s.queue[i]))
  }

  predicate AnswersGrounded(w: World) {
    && StateGrounded(w.history, w.auth)
    && (forall call :: call in w.threads && w.threads[call].Answering? ==>
          Grounded(w.history, call, w.threads[call].answer))
    && (forall i :: 0 <= i < |w.log| ==> Grounded(w.history, w.log[i].0, w.log[i].1))
  }

  /** Both endings of a refresh hand out grounded answers. */
  lemma EndingGrounded(h: History, s: State, c: Credential, error: AuthError)
    requires StateGrounded(h, s)
    ensures c in h.held ==> StateGrounded(h, Succeeded(s, c))
    ensures KnownError(h, error) ==> StateGrounded(h, Failed(s, error))
  {
    hide KnownError;
    var jobs := Readapts(s.adaptOperations) + Deliveries(s.requestsToRetry, RetryNow);
    var failures := Deliveries(s.adaptOperations, NotAdapted(error))
                    + Deliveries(s.requestsToRetry, DoNotRetryWithError(error));
    assert forall i :: 0 <= i < |jobs| ==> JobGrounded(h, jobs[i]);
    assert KnownError(h, error) ==> forall i :: 0 <= i < |failures| ==> JobGrounded(h, failures[i]);
  }

  lemma LockGrounded(h: History, s: State, call: Call, c: Credential, checked: real, stamped: real)
    requires StateGrounded(h, s)
    ensures var (r, answer) := AdaptLocked(s, call, checked, stamped);
            call.Adapt? ==> StateGrounded(h, r) && (answer.Some? ==> Grounded(h, call, answer.value))
    ensures call.Retry? ==> StateGrounded(h, RetryLocked(s, call, c, checked, stamped))
  {
    hide Failed;
    var deferred := if call.Adapt? then s.(adaptOperations := s.adaptOperations + [call])
                    else s.(requestsToRetry := s.requestsToRetry + [call]);
    assert StateGrounded(h, deferred);
    EndingGrounded(h, deferred, c, ExcessiveRefresh);
  }

  lemma StepGrounded(w: World, step: Step)
    requires AnswersGrounded(w) && Enabled(w, step)
    ensures AnswersGrounded(Next(w, step))
  {
    hide AdaptLocked, RetryLocked, Succeeded, Failed;
    match step
    case AdaptStep(call, t, u) => LockGrounded(w.history, w.auth, call, Credential(0, false), t, u);
    case RetryStep(call, t, u) => LockGrounded(w.history, w.auth, call, w.threads[call].credential, t, u);
    case RunJob(t, u) =>
      var s, job := w.auth.(queue := w.auth.queue[1..]), w.auth.queue[0];
      assert StateGrounded(w.history, s) && JobGrounded(w.history, job);
      if job.Readapt? {
        LockGrounded(w.history, s, job.call, Credential(0, false), t, u);
      }
    case Refreshed(Success(c)) => EndingGrounded(Next(w, step).history, w.auth, c, MissingCredential);
    case Refreshed(Failure(error)) => EndingGrounded(Next(w, step).history, w.auth, Credential(0, false), error);
    case _ =>
  }

  lemma {:induction false} RunGrounded(w0: World, steps: seq<Step>, w: World)
    requires AnswersGrounded(w0) && Reachable(w0, steps, w)
    ensures AnswersGrounded(w)
    decreases |steps|
  {
    if steps != [] {
      StepGrounded(w0, steps[0]);
      RunGrounded(Next(w0, steps[0]), steps[1..], w);
    }
  }

  /** In every run a request is only adapted with a credential the interceptor was given and that
      needs no refresh, and every error comes from the authenticator, or says that a credential is
      missing or was refreshed too often. */
  lemma EveryAnswerIsGrounded(credential: Option<Credential>, window: Option<RefreshWindow>, clock: real,
                              steps: seq<Step>, w: World)
    requires Reachable(Initial(credential, window, clock), steps, w)
    ensures forall i :: 0 <= i < |w.log| ==> Grounded(w.history, w.log[i].0, w.log[i].1)
  {
    RunGrounded(Initial(credential, window, clock), steps, w);
  }

  // ---------------------------------------------------------------- what queued calls are told

  /** What the end of a refresh means for a call that waits for it: a deferred adapt is only answered
      at once if the refresh failed. */
  predicate Awaits(s: State, result: RefreshResult, call: Call) {
    call in s.requestsToRetry || (result.Failure? && call in s.adaptOperations)
  }

  function AnswerTo(result: RefreshResult, call: Call): Answer {
    match result
    case Success(_) => RetryNow
    case Failure(error) => if call.Adapt? then NotAdapted(error) else DoNotRetryWithError(error)
  }

  predicate JobsTell(jobs: seq<Job>, call: Call, answer: Answer) {
    forall i :: 0 <= i < |jobs| && Carries(jobs[i], call) ==> jobs[i] == Deliver(call, answer)
  }

  /** Wherever the call is, this is the answer that goes with it. */
  predicate Destined(w: World, call: Call, answer: Answer) {
    && call in w.issued && call !in w.threads
    && call !in w.auth.adaptOperations && call !in w.auth.requestsToRetry
    && JobsTell(w.auth.queue, call, answer)
    && (forall i :: 0 <= i < |w.log| && w.log[i].0 == call ==> w.log[i].1 == answer)
  }

  /** A locked region neither queues this call nor adds a job that carries it. */
  predicate Spares(s: State, r: State, call: Call) {
    && call !in r.adaptOperations && call !in r.requestsToRetry
    && |r.queue| >= |s.queue| && r.queue[..|s.queue|] == s.queue
    && forall i :: |s.queue| <= i < |r.queue| ==> !Carries(r.queue[i], call)
  }

  lemma RefreshSpares(s: State, c: Credential, checked: real, stamped: real, call: Call)
    requires call !in s.adaptOperations && call !in s.requestsToRetry
    ensures Spares(s, Refresh(s, c, checked, stamped), call)
  {
    hide IsExcessive;
  }

  lemma LockSpares(s: State, entering: Call, c: Credential, checked: real, stamped: real, call: Call)
    requires call != entering && call !in s.adaptOperations && call !in s.requestsToRetry
    ensures Spares(s, AdaptLocked(s, entering, checked, stamped).0, call)
    ensures Spares(s, RetryLocked(s, entering, c, checked, stamped), call)
  {
    hide Refresh;
    RefreshSpares(s.(requestsToRetry := s.requestsToRetry + [entering]), c, checked, stamped, call);
    if s.credential.Some? {
      RefreshSpares(s.(adaptOperations := s.adaptOperations + [entering]), s.credential.value, checked, stamped, call);
    }
  }

  lemma SparedTells(s: State, r: State, call: Call, answer: Answer)
    requires Spares(s, r, call) && JobsTell(s.queue, call, answer)
    ensures JobsTell(r.queue, call, answer)
  {
    forall i | 0 <= i < |r.queue| && Carries(r.queue[i], call)
      ensures r.queue[i] == Deliver(call, answer)
    {
      assert i < |s.queue| && r.queue[i] == r.queue[..|s.queue|][i] == s.queue[i];
    }
  }

  /** A locked region entered for another call. */
  lemma LockTells(s: State, entering: Call, c: Credential, checked: real, stamped: real, call: Call, answer: Answer)
    requires call != entering && call !in s.adaptOperations && call !in s.requestsToRetry
    requires JobsTell(s.queue, call, answer)
    ensures var r := AdaptLocked(s, entering, checked, stamped).0;
            call !in r.adaptOperations && call !in r.requestsToRetry && JobsTell(r.queue, call, answer)
    ensures var r := RetryLocked(s, entering, c, checked, stamped);
            call !in r.adaptOperations && call !in r.requestsToRetry && JobsTell(r.queue, call, answer)
  {
    hide AdaptLocked, RetryLocked, JobsTell;
    LockSpares(s, entering, c, checked, stamped, call);
    SparedTells(s, AdaptLocked(s, entering, checked, stamped).0, call, answer);
    SparedTells(s, RetryLocked(s, entering, c, checked, stamped), call, answer);
  }

  lemma JobDestined(w: World, t: real, u: real, call: Call, answer: Answer)
    requires Destined(w, call, answer) && Enabled(w, RunJob(t, u))
    ensures Destined(Next(w, RunJob(t, u)), call, answer)
  {
    hide AdaptLocked;
    var s, job := w.auth.(queue := w.auth.queue[1..]), w.auth.queue[0];
    assert JobsTell(s.queue, call, answer) && (Carries(job, call) ==> job == Deliver(call, answer));
    if job.Readapt? {
      LockTells(s, job.call, Credential(0, false), t, u, call, answer);
      var (r, given) := AdaptLocked(s, job.call, t, u);
      if given.Some? {
        assert JobsTell([Deliver(job.call, given.value)] + r.queue, call, answer);
      }
    }
  }

  lemma DestinedStays(w: World, step: Step, call: Call, answer: Answer)
    requires Destined(w, call, answer) && Enabled(w, step)
    ensures Destined(Next(w, step), call, answer)
  {
    hide AdaptLocked, RetryLocked;
    match step
    case AdaptStep(entering, t, u) => LockTells(w.auth, entering, Credential(0, false), t, u, call, answer);
    case RetryStep(entering, t, u) =>
      LockTells(w.auth, entering, w.threads[entering].credential, t, u, call, answer);
    case RunJob(t, u) => JobDestined(w, t, u, call, answer);
    case _ =>
  }

  lemma {:induction false} DestinedInRun(w0: World, steps: seq<Step>, w: World, call: Call, answer: Answer)
    requires Destined(w0, call, answer) && Reachable(w0, steps, w)
    ensures Destined(w, call, answer)
    decreases |steps|
  {
    if steps != [] {
      DestinedStays(w0, steps[0], call, answer);
      DestinedInRun(Next(w0, steps[0]), steps[1..], w, call, answer);
    }
  }

  lemma {:induction false} NoOccurrence(calls: seq<Call>, call: Call)
    ensures Occurrences(calls, call) == 0 <==> call !in calls
    decreases |calls|
  {
    if calls != [] {
      NoOccurrence(calls[1..], call);
    }
  }

  lemma {:induction false} NotCarried(jobs: seq<Job>, call: Call)
    requires Carried(jobs, call) == 0
    ensures forall i :: 0 <= i < |jobs| ==> !Carries(jobs[i], call)
    decreases |jobs|
  {
    if jobs != [] {
      NotCarried(jobs[1..], call);
    }
  }

  lemma {:induction false} NotAnswered(log: seq<(Call, Answer)>, call: Call)
    requires Answers(log, call) == 0
    ensures forall i :: 0 <= i < |log| ==> log[i].0 != call
    decreases |log|
  {
    if log != [] {
      NotAnswered(log[..|log| - 1], call);
    }
  }

  lemma RefreshDestines(w: World, result: RefreshResult, call: Call)
    requires Conserved(w) && AnswersGrounded(w) && Enabled(w, Refreshed(result)) && Awaits(w.auth, result, call)
    ensures Destined(Next(w, Refreshed(result)), call, AnswerTo(result, call))
  {
    assert Places(w, call) == if call in w.issued then 1 else 0;
    NoOccurrence(w.auth.adaptOperations, call);
    NoOccurrence(w.auth.requestsToRetry, call);
    NotCarried(w.auth.queue, call);
    NotAnswered(w.log, call);
    hide Grounded, Places;
  }

  /** In every run, whatever happens afterwards, a call that waits for a refresh when it ends is told
      how it ended: retries go ahead after a success, and a failure reaches every waiting call with
      the authenticator's error. */
  lemma WaitingCallsGetTheResult(credential: Option<Credential>, window: Option<RefreshWindow>, clock: real,
                                 before: seq<Step>, w: World, result: RefreshResult, after: seq<Step>, w': World,
                                 call: Call)
    requires Reachable(Initial(credential, window, clock), before, w)
    requires Enabled(w, Refreshed(result)) && Awaits(w.auth, result, call)
    requires Reachable(Next(w, Refreshed(result)), after, w')
    ensures forall i :: 0 <= i < |w'.log| && w'.log[i].0 == call ==> w'.log[i].1 == AnswerTo(result, call)
  {
    RunKeeps(Initial(credential, window, clock), before, w);
    RunGrounded(Initial(credential, window, clock), before, w);
    RefreshDestines(w, result, call);
    DestinedInRun(Next(w, Refreshed(result)), after, w', call, AnswerTo(result, call));
  }

  // ---------------------------------------------------------------- the sliding window

  /** Recorded starts inside a closed window of time. */
  function Within(stamps: seq<real>, lo: real, hi: real): nat {
    if stamps == [] then 0
    else Within(stamps[..|stamps| - 1], lo, hi) + if lo <= stamps[|stamps| - 1] <= hi then 1 else 0
  }

  /** Every recorded start was preceded by fewer than the maximum in the interval before it. */
  predicate Spaced(stamps: seq<real>, window: RefreshWindow) {
    forall j :: 0 <= j < |stamps| ==> Since(stamps[..j], stamps[j] - window.interval) < window.maximumAttempts
  }

  lemma {:induction false} SinceMonotone(stamps: seq<real>, lo: real, hi: real)
    requires lo <= hi
    ensures Since(stamps, hi) <= Since(stamps, lo)
    decreases |stamps|
  {
    if stamps != [] {
      SinceMonotone(stamps[..|stamps| - 1], lo, hi);
    }
  }

  lemma {:induction false} WithinSince(stamps: seq<real>, lo: real, hi: real, min: real)
    requires min <= lo
    ensures Within(stamps, lo, hi) <= Since(stamps, min)
    decreases |stamps|
  {
    if stamps != [] {
      WithinSince(stamps[..|stamps| - 1], lo, hi, min);
    }
  }

  lemma SpacedPrefix(stamps: seq<real>, window: RefreshWindow)
    requires stamps != [] && Spaced(stamps, window)
    ensures Spaced(stamps[..|stamps| - 1], window)
  {
    hide Since;
    var before := stamps[..|stamps| - 1];
    forall j | 0 <= j < |before|
      ensures Since(before[..j], before[j] - window.interval) < window.maximumAttempts
    {
      assert before[..j] == stamps[..j];
    }
  }

  lemma {:induction false} SpacedIsBounded(stamps: seq<real>, window: RefreshWindow, lo: real)
    requires Spaced(stamps, window)
    ensures Within(stamps, lo, lo + window.interval) <= if window.maximumAttempts > 0 then window.maximumAttempts else 0
    decreases |stamps|
  {
    if stamps != [] {
      var n := |stamps| - 1;
      var before := stamps[..n];
      assert Since(before, stamps[n] - window.interval) < window.maximumAttempts;
      SpacedPrefix(stamps, window);
      SpacedIsBounded(before, window, lo);
      hide Since, Spaced;
      if stamps[n] <= lo + window.interval {
        WithinSince(before, lo, lo + window.interval, stamps[n] - window.interval);
      }
    }
  }

  predicate StateSpaced(s: State) {
    s.refreshWindow.Some? ==> Spaced(s.refreshTimestamps, s.refreshWindow.value)
  }

  lemma RefreshSpaced(s: State, c: Credential, checked: real, stamped: real)
    requires StateSpaced(s) && checked <= stamped
    ensures StateSpaced(Refresh(s, c, checked, stamped))
  {
    hide Since;
    if s.refreshWindow.Some? && !IsExcessive(s, checked) {
      var window, stamps := s.refreshWindow.value, s.refreshTimestamps;
      SinceMonotone(stamps, checked - window.interval, stamped - window.interval);
      var stamps' := stamps + [stamped];
      forall j | 0 <= j < |stamps'|
        ensures Since(stamps'[..j], stamps'[j] - window.interval) < window.maximumAttempts
      {
        assert stamps'[..j] == stamps[..j];
        assert stamps[..|stamps|] == stamps;
      }
    }
  }

  lemma StepSpaced(w: World, step: Step)
    requires StateSpaced(w.auth) && Enabled(w, step)
    ensures StateSpaced(Next(w, step).auth) && Next(w, step).auth.refreshWindow == w.auth.refreshWindow
  {
    hide Spaced, Refresh;
    match step
    case AdaptStep(call, t, u) => AdaptSpaced(w.auth, call, t, u);
    case RetryStep(call, t, u) =>
      RefreshSpaced(w.auth.(requestsToRetry := w.auth.requestsToRetry + [call]), w.threads[call].credential, t, u);
      RefreshWindowFixed(w.auth.(requestsToRetry := w.auth.requestsToRetry + [call]), w.threads[call].credential, t, u);
    case RunJob(t, u) =>
      if w.auth.queue[0].Readapt? {
        AdaptSpaced(w.auth.(queue := w.auth.queue[1..]), w.auth.queue[0].call, t, u);
      }
    case _ =>
  }

  lemma AdaptSpaced(s: State, call: Call, checked: real, stamped: real)
    requires StateSpaced(s) && checked <= stamped
    ensures var (r, answer) := AdaptLocked(s, call, checked, stamped);
            StateSpaced(r) && r.refreshWindow == s.refreshWindow
  {
    hide Spaced, Refresh;
    if !s.isRefreshing && s.credential.Some? {
      RefreshSpaced(s.(adaptOperations := s.adaptOperations + [call]), s.credential.value, checked, stamped);
      RefreshWindowFixed(s.(adaptOperations := s.adaptOperations + [call]), s.credential.value, checked, stamped);
    }
  }

  lemma RefreshWindowFixed(s: State, c: Credential, checked: real, stamped: real)
    ensures Refresh(s, c, checked, stamped).refreshWindow == s.refreshWindow
  {
  }

  lemma {:induction false} RunSpaced(w0: World, steps: seq<Step>, w: World)
    requires StateSpaced(w0.auth) && Reachable(w0, steps, w)
    ensures StateSpaced(w.auth) && w.auth.refreshWindow == w0.auth.refreshWindow
    decreases |steps|
  {
    if steps != [] {
      StepSpaced(w0, steps[0]);
      RunSpaced(Next(w0, steps[0]), steps[1..], w);
    }
  }

  /** In every run, no closed window of the configured length holds more recorded refresh starts
      than the maximum, although the check and the record read the clock separately. */
  lemma RefreshRateIsBounded(credential: Option<Credential>, window: RefreshWindow, clock: real,
                             steps: seq<Step>, w: World, lo: real)
    requires Reachable(Initial(credential, Some(window), clock), steps, w)
    ensures Within(w.auth.refreshTimestamps, lo, lo + window.interval)
            <= if window.maximumAttempts > 0 then window.maximumAttempts else 0
  {
    RunSpaced(Initial(credential, Some(window), clock), steps, w);
    SpacedIsBounded(w.auth.refreshTimestamps, window, lo);
  }
}
