/** The batch queue: submitting threads and one worker share a queue; each request carries a future that is set once. */
module BatchLlm {
  import opened Wrappers

  const MAX_BATCH_SIZE: nat := 24

  /** A request; its future is known by a number that no other request has. */
  datatype Request = Request(prompt: string, maxTokens: int, future: nat)

  datatype Outcome = Answer(text: string) | Failure(error: string)

  /** Where the worker stands between its critical sections. */
  datatype Worker =
    | Idle
    | Took(batch: seq<Request>)
    | Setting(batch: seq<Request>, results: seq<string>, at: nat)
    | Failing(batch: seq<Request>, error: string, at: nat)

  /** The server; `submitted` and `left` remember which requests came in and which the worker is through with. */
  datatype State = State(ready: bool, loadError: Option<string>, queue: seq<Request>, trigger: bool, worker: Worker,
                         outcomes: map<nat, Outcome>, submitted: seq<Request>, left: seq<Request>)

  datatype Step =
    | Loaded
    | LoadFailed(error: string)
    | Submit(request: Request)
    | Wake
    | Take
    | CheckReady
    | RunDone(results: seq<string>)
    | RunRaised(error: string)
    | SetNext

  function Initial(): State {
    State(false, None, [], false, Idle, map[], [], [])
  }

  function Settle(outcomes: map<nat, Outcome>, future: nat, outcome: Outcome): map<nat, Outcome> {
    if future in outcomes then outcomes else outcomes[future := outcome]
  }

  /** The worker is through with a batch when results or requests run out. */
  function Finished(s: State, batch: seq<Request>): State {
    s.(worker := Idle, left := s.left + batch)
  }

  function NextSet(s: State): State {
    match s.worker
    case Setting(batch, results, at) => (
      if at < |batch| && at < |results|
      then s.(worker := Setting(batch, results, at + 1),
              outcomes := Settle(s.outcomes, batch[at].future, Answer(results[at])))
      else Finished(s, batch))
    case Failing(batch, error, at) => (
      if at < |batch|
      then s.(worker := Failing(batch, error, at + 1), outcomes := Settle(s.outcomes, batch[at].future, Failure(error)))
      else Finished(s, batch))
    case _ => s
  }

  /** Loading ends once, in one of two ways. */
  predicate Loading(s: State) {
    !s.ready && s.loadError.None?
  }

  function Apply(s: State, step: Step): State {
    match step
    case Loaded => if Loading(s) then s.(ready := true) else s
    case LoadFailed(error) => if Loading(s) then s.(loadError := Some(error)) else s
    case Submit(r) => (
      if s.loadError.Some? || !s.ready then s
      else s.(queue := s.queue + [r], submitted := s.submitted + [r],
              trigger := s.trigger || |s.queue| + 1 >= MAX_BATCH_SIZE))
    case Wake => if s.worker == Idle then s.(trigger := false) else s
    case Take => (
      if s.worker != Idle || s.queue == [] then s
      else s.(worker := Took(s.queue), queue := []))
    case CheckReady => (
      if s.worker.Took? && !s.ready then s.(queue := s.worker.batch + s.queue, worker := Idle) else s)
    case RunDone(results) => if s.worker.Took? && s.ready then s.(worker := Setting(s.worker.batch, results, 0)) else s
    case RunRaised(error) => if s.worker.Took? && s.ready then s.(worker := Failing(s.worker.batch, error, 0)) else s
    case SetNext => NextSet(s)
  }

  /** A submitted request has a future of its own. */
  ghost predicate Possible(s: State, step: Step) {
    step.Submit? ==> forall r :: r in s.submitted ==> r.future != step.request.future
  }

  function Run(s: State, steps: seq<Step>): State {
    if steps == [] then s else Apply(Run(s, steps[..|steps| - 1]), steps[|steps| - 1])
  }

  ghost predicate PossibleRun(s: State, steps: seq<Step>) {
    steps == [] ||
    (PossibleRun(s, steps[..|steps| - 1]) && Possible(Run(s, steps[..|steps| - 1]), steps[|steps| - 1]))
  }

  // ---------- conservation and order ----------

  function Held(w: Worker): seq<Request> {
    match w
    case Idle => []
    case Took(batch) => batch
    case Setting(batch, _, _) => batch
    case Failing(batch, _, _) => batch
  }

  /** How many requests of the worker's batch have their future set. */
  function Done(w: Worker): nat {
    match w
    case Setting(_, _, at) => at
    case Failing(_, _, at) => at
    case _ => 0
  }

  predicate Conserved(s: State) {
    s.left + Held(s.worker) + s.queue == s.submitted
  }

  ghost predicate OwnFutures(requests: seq<Request>) {
    forall i, j :: 0 <= i < j < |requests| ==> requests[i].future != requests[j].future
  }

  predicate ReadyWhenBusy(s: State) {
    (s.queue != [] || s.worker != Idle ==> s.ready) && (s.ready ==> s.loadError.None?)
  }

  predicate InBatch(w: Worker) {
    Done(w) <= |Held(w)| && (w.Setting? ==> w.at <= |w.results|)
  }

  /** The requests whose turn has come. */
  function Reached(s: State): seq<Request>
    requires InBatch(s.worker)
  {
    s.left + Held(s.worker)[..Done(s.worker)]
  }

  ghost predicate HasFuture(requests: seq<Request>, f: nat) {
    exists r :: r in requests && r.future == f
  }

  /** Only the requests whose turn has come have an outcome. */
  ghost predicate OutcomesReached(s: State)
    requires InBatch(s.worker)
  {
    forall f :: f in s.outcomes ==> HasFuture(Reached(s), f)
  }

  ghost predicate Inv(s: State) {
    Conserved(s) && OwnFutures(s.submitted) && ReadyWhenBusy(s) && InBatch(s.worker) && OutcomesReached(s)
  }

  lemma ReachedGrows(s: State, t: State)
    requires InBatch(s.worker) && InBatch(t.worker) && OutcomesReached(s) && t.outcomes == s.outcomes
    requires forall r :: r in Reached(s) ==> r in Reached(t)
    ensures OutcomesReached(t)
  {
    forall f | f in t.outcomes ensures HasFuture(Reached(t), f) {
      var r :| r in Reached(s) && r.future == f;
      assert r in Reached(t);
    }
  }

  lemma SubmitKeepsInv(s: State, r: Request)
    requires Inv(s) && Possible(s, Submit(r))
    ensures Inv(Apply(s, Submit(r)))
  {
    var t := Apply(s, Submit(r));
    if t != s {
      Regroup(s.left + Held(s.worker), s.queue, [r]);
      assert OwnFutures(t.submitted) by {
        forall i, j | 0 <= i < j < |t.submitted| ensures t.submitted[i].future != t.submitted[j].future {
          assert s.submitted[i] in s.submitted;
        }
      }
      ReachedGrows(s, t);
    }
  }

  lemma Regroup(a: seq<Request>, b: seq<Request>, c: seq<Request>)
    ensures (a + b) + c == a + (b + c)
  {
  }

  /** The next request in the batch is the first one whose turn has not come, so its future is still open. */
  lemma NextIsOpen(s: State)
    requires Inv(s) && Done(s.worker) < |Held(s.worker)|
    ensures Held(s.worker)[Done(s.worker)].future !in s.outcomes
  {
    var at := Done(s.worker);
    var n := |s.left| + at;
    assert Reached(s) == s.submitted[..n] && Held(s.worker)[at] == s.submitted[n];
    forall r | r in Reached(s) ensures r.future != s.submitted[n].future {
      var i :| 0 <= i < n && s.submitted[i] == r;
    }
    assert !HasFuture(Reached(s), s.submitted[n].future);
  }

  lemma SetNextKeepsInv(s: State)
    requires Inv(s)
    ensures Inv(NextSet(s))
  {
    var t := NextSet(s);
    if t != s {
      var batch, at := Held(s.worker), Done(s.worker);
      assert t.left + Held(t.worker) == s.left + batch;
      if t.worker == Idle {
        ReachedGrows(s, t);
      } else {
        assert Reached(t) == Reached(s) + [batch[at]];
        forall f | f in t.outcomes ensures HasFuture(Reached(t), f) {
          if f != batch[at].future {
            assert HasFuture(Reached(s), f);
          } else {
            assert batch[at] in Reached(t);
          }
        }
      }
    }
  }

  lemma StepKeepsInv(s: State, step: Step)
    requires Inv(s) && Possible(s, step)
    ensures Inv(Apply(s, step))
  {
    match step
    case Submit(r) => SubmitKeepsInv(s, r);
    case SetNext => SetNextKeepsInv(s);
    case Take =>
      assert (s.left + []) + s.queue == (s.left + s.queue) + [];
      ReachedGrows(s, Apply(s, Take));
    case Loaded => ReachedGrows(s, Apply(s, Loaded));
    case LoadFailed(error) => ReachedGrows(s, Apply(s, LoadFailed(error)));
    case Wake => ReachedGrows(s, Apply(s, Wake));
    case CheckReady =>
    case RunDone(results) => ReachedGrows(s, Apply(s, RunDone(results)));
    case RunRaised(error) => ReachedGrows(s, Apply(s, RunRaised(error)));
  }

  /**
   * Over every interleaving the requests the worker is through with, then its batch, then the queue are together
   * the requests in the order of submission.
   */
  lemma {:induction false} RunKeepsInv(steps: seq<Step>)
    requires PossibleRun(Initial(), steps)
    ensures Inv(Run(Initial(), steps))
  {
    if steps != [] {
      RunKeepsInv(steps[..|steps| - 1]);
      StepKeepsInv(Run(Initial(), steps[..|steps| - 1]), steps[|steps| - 1]);
    }
  }

  /** The branch that puts a batch back into the queue is never taken. */
  lemma RequeueUnreachable(steps: seq<Step>)
    requires PossibleRun(Initial(), steps)
    ensures var s := Run(Initial(), steps); Apply(s, CheckReady) == s && (s.queue != [] ==> s.ready)
  {
    RunKeepsInv(steps);
  }

  /** A request is in one place: through with, in the batch, or queued. */
  lemma InOnePlace(steps: seq<Step>, r: Request)
    requires PossibleRun(Initial(), steps)
    ensures var s := Run(Initial(), steps);
      r in s.submitted ==>
        multiset(s.left)[r] + multiset(Held(s.worker))[r] + multiset(s.queue)[r] == 1
  {
    RunKeepsInv(steps);
    var s := Run(Initial(), steps);
    assert multiset(s.submitted) == multiset(s.left) + multiset(Held(s.worker)) + multiset(s.queue);
    if r in s.submitted {
      OnceIfOwn(s.submitted, r);
    }
  }

  lemma {:induction false} OnceIfOwn(requests: seq<Request>, r: Request)
    requires OwnFutures(requests) && r in requests
    ensures multiset(requests)[r] == 1
  {
    var first, rest := requests[0], requests[1..];
    assert requests == [first] + rest;
    if r in rest {
      var j :| 0 <= j < |rest| && rest[j] == r;
      assert requests[0].future != requests[j + 1].future;
      assert OwnFutures(rest) by {
        forall i, k | 0 <= i < k < |rest| ensures rest[i].future != rest[k].future {
          assert requests[i + 1].future != requests[k + 1].future;
        }
      }
      OnceIfOwn(rest, r);
    }
  }

  /** How loading ended in these steps, if it did: the first step that ends it decides. */
  function LoadEnd(steps: seq<Step>): (end: Option<Step>)
    ensures end.Some? ==> end.value == Loaded || end.value.LoadFailed?
  {
    if steps == [] then None
    else
      var before, last := LoadEnd(steps[..|steps| - 1]), steps[|steps| - 1];
      if before.Some? then before else if last == Loaded || last.LoadFailed? then Some(last) else None
  }

  lemma {:induction false} LoadingEndsOnce(steps: seq<Step>)
    ensures var s := Run(Initial(), steps);
      (s.ready <==> LoadEnd(steps) == Some(Loaded)) &&
      (s.loadError.Some? <==> LoadEnd(steps).Some? && LoadEnd(steps).value.LoadFailed?)
  {
    if steps != [] {
      LoadingEndsOnce(steps[..|steps| - 1]);
    }
  }

  /** The requests of the steps that submit after the model was loaded, in order: from the steps alone. */
  function Wanted(steps: seq<Step>): seq<Request> {
    if steps == [] then []
    else
      var front, last := steps[..|steps| - 1], steps[|steps| - 1];
      Wanted(front) + if last.Submit? && LoadEnd(front) == Some(Loaded) then [last.request] else []
  }

  lemma {:induction false} SubmittedAreWanted(steps: seq<Step>)
    ensures Run(Initial(), steps).submitted == Wanted(steps)
  {
    if steps != [] {
      SubmittedAreWanted(steps[..|steps| - 1]);
      LoadingEndsOnce(steps[..|steps| - 1]);
      StepSubmits(Run(Initial(), steps[..|steps| - 1]), steps[|steps| - 1]);
    }
  }

  lemma StepSubmits(s: State, step: Step)
    ensures Apply(s, step).submitted ==
      s.submitted + if step.Submit? && s.ready && s.loadError.None? then [step.request] else []
  {
  }

  /**
   * Over every interleaving nothing is lost: the requests that were submitted after the model was loaded are, in that
   * order, those that the worker is through with, those of its batch, and the queue.
   */
  lemma NothingIsLost(steps: seq<Step>)
    requires PossibleRun(Initial(), steps)
    ensures var s := Run(Initial(), steps);
      s.left + Held(s.worker) + s.queue == Wanted(steps)
  {
    RunKeepsInv(steps);
    SubmittedAreWanted(steps);
  }

  // ---------- futures ----------

  /** An outcome, once set, never changes; a request the worker is through with never gets one later. */
  lemma StepSettlesOnce(s: State, step: Step, f: nat)
    requires Inv(s) && Possible(s, step)
    ensures f in s.outcomes ==> f in Apply(s, step).outcomes && Apply(s, step).outcomes[f] == s.outcomes[f]
    ensures HasFuture(s.left, f) ==>
      HasFuture(Apply(s, step).left, f) && (f in Apply(s, step).outcomes ==> f in s.outcomes)
  {
    if HasFuture(s.left, f) {
      var r :| r in s.left && r.future == f;
      assert r in Apply(s, step).left;
      if step == SetNext && Done(s.worker) < |Held(s.worker)| {
        var batch, at := Held(s.worker), Done(s.worker);
        var i :| 0 <= i < |s.left| && s.left[i] == r;
        assert s.submitted[i] == r && s.submitted[|s.left| + at] == batch[at];
      }
    }
  }

  lemma {:induction false} SettledOnce(steps: seq<Step>, more: seq<Step>, f: nat)
    requires PossibleRun(Initial(), steps) && PossibleRun(Run(Initial(), steps), more)
    ensures var s, t := Run(Initial(), steps), Run(Run(Initial(), steps), more);
      Inv(t) && (f in s.outcomes ==> f in t.outcomes && t.outcomes[f] == s.outcomes[f]) &&
      (HasFuture(s.left, f) ==> HasFuture(t.left, f) && (f in t.outcomes ==> f in s.outcomes))
  {
    RunKeepsInv(steps);
    if more != [] {
      SettledOnce(steps, more[..|more| - 1], f);
      var t := Run(Run(Initial(), steps), more[..|more| - 1]);
      StepKeepsInv(t, more[|more| - 1]);
      StepSettlesOnce(t, more[|more| - 1], f);
    }
  }

  /** A relation between prompts and results. */
  type Relation = (string, string) -> bool

  /** Every result that a run of the model gives at a position fits the prompt at that position. */
  predicate Fits(s: State, step: Step, fits: Relation) {
    step.RunDone? && s.worker.Took? ==>
      forall i :: 0 <= i < |s.worker.batch| && i < |step.results| ==> fits(s.worker.batch[i].prompt, step.results[i])
  }

  ghost predicate FitsRun(steps: seq<Step>, fits: Relation) {
    steps == [] ||
    (FitsRun(steps[..|steps| - 1], fits) &&
     Fits(Run(Initial(), steps[..|steps| - 1]), steps[|steps| - 1], fits))
  }

  ghost predicate Answered(s: State, fits: Relation) {
    (forall r :: r in s.submitted && r.future in s.outcomes && s.outcomes[r.future].Answer? ==>
      fits(r.prompt, s.outcomes[r.future].text)) &&
    (s.worker.Setting? ==>
      forall i :: 0 <= i < |s.worker.batch| && i < |s.worker.results| ==>
        fits(s.worker.batch[i].prompt, s.worker.results[i]))
  }

  lemma StepKeepsAnswered(s: State, step: Step, fits: Relation)
    requires Inv(s) && Possible(s, step) && Answered(s, fits) && Fits(s, step, fits)
    ensures Answered(Apply(s, step), fits)
  {
    var t := Apply(s, step);
    if step == SetNext && Done(s.worker) < |Held(s.worker)| {
      var at := Done(s.worker);
      var n := |s.left| + at;
      assert s.submitted[n] == Held(s.worker)[at];
      NextIsOpen(s);
      forall r | r in s.submitted && r.future == s.submitted[n].future ensures r == s.submitted[n] {
        var i :| 0 <= i < |s.submitted| && s.submitted[i] == r;
      }
    } else if step.Submit? && t != s {
      NewFutureOpen(s, step.request);
    }
  }

  lemma NewFutureOpen(s: State, r: Request)
    requires Inv(s) && Possible(s, Submit(r))
    ensures r.future !in s.outcomes
  {
    forall q | q in Reached(s) ensures q.future != r.future {
      assert q in s.submitted;
    }
    assert !HasFuture(Reached(s), r.future);
  }

  /** Each answer goes to its own prompt: it has every relation to it that results have to prompts by position. */
  lemma {:induction false} AnswersFitPrompts(steps: seq<Step>, fits: Relation)
    requires PossibleRun(Initial(), steps) && FitsRun(steps, fits)
    ensures Answered(Run(Initial(), steps), fits)
  {
    if steps != [] {
      RunKeepsInv(steps[..|steps| - 1]);
      AnswersFitPrompts(steps[..|steps| - 1], fits);
      StepKeepsAnswered(Run(Initial(), steps[..|steps| - 1]), steps[|steps| - 1], fits);
    }
  }

  // ---------- one result per prompt ----------

  predicate Enough(s: State, step: Step) {
    step.RunDone? && s.worker.Took? ==> |step.results| >= |s.worker.batch|
  }

  predicate EnoughRun(steps: seq<Step>) {
    steps == [] ||
    (EnoughRun(steps[..|steps| - 1]) && Enough(Run(Initial(), steps[..|steps| - 1]), steps[|steps| - 1]))
  }

  ghost predicate ReachedSettled(s: State)
    requires InBatch(s.worker)
  {
    (forall r :: r in Reached(s) ==> r.future in s.outcomes) &&
    (s.worker.Setting? ==> |s.worker.results| >= |s.worker.batch|)
  }

  /** With a result for every prompt every request the worker is through with has an outcome. */
  lemma {:induction false} EnoughSettlesAll(steps: seq<Step>)
    requires PossibleRun(Initial(), steps) && EnoughRun(steps)
    ensures Inv(Run(Initial(), steps)) && ReachedSettled(Run(Initial(), steps))
  {
    RunKeepsInv(steps);
    if steps != [] {
      RunKeepsInv(steps[..|steps| - 1]);
      EnoughSettlesAll(steps[..|steps| - 1]);
      var s, step := Run(Initial(), steps[..|steps| - 1]), steps[|steps| - 1];
      if step == SetNext && s.worker != Idle && !s.worker.Took? {
        SetNextKeepsSettled(s);
      }
    }
  }

  lemma SetNextKeepsSettled(s: State)
    requires Inv(s) && ReachedSettled(s) && (s.worker.Setting? || s.worker.Failing?)
    ensures InBatch(NextSet(s).worker) && ReachedSettled(NextSet(s))
  {
    var batch, at := Held(s.worker), Done(s.worker);
    if at < |batch| {
      assert Reached(NextSet(s)) == Reached(s) + [batch[at]];
    } else {
      assert Reached(NextSet(s)) == Reached(s);
    }
  }

  /** The worker sets its futures one by one until it is through. */
  function Sets(s: State, n: nat): State {
    if n == 0 then s else NextSet(Sets(s, n - 1))
  }

  /** After `n` of a batch's futures are set, just those have an outcome, each its own result. */
  ghost predicate HandedOut(t: State, batch: seq<Request>, results: seq<string>, n: nat)
    requires n <= |results|
  {
    n <= |batch| && t.worker == Setting(batch, results, n) &&
    (forall i :: 0 <= i < n ==> batch[i].future in t.outcomes && t.outcomes[batch[i].future] == Answer(results[i])) &&
    (forall i :: n <= i < |batch| ==> batch[i].future !in t.outcomes)
  }

  lemma OneMoreHandedOut(t: State, batch: seq<Request>, results: seq<string>, n: nat)
    requires n < |results| && n < |batch| && HandedOut(t, batch, results, n)
    requires OwnFutures(batch)
    ensures HandedOut(NextSet(t), batch, results, n + 1)
    ensures NextSet(t).queue == t.queue && NextSet(t).left == t.left
  {
  }

  lemma NothingHandedOut(s: State, results: seq<string>)
    requires Inv(s) && s.worker == Setting(Held(s.worker), results, 0)
    ensures HandedOut(s, Held(s.worker), results, 0) && OwnFutures(Held(s.worker))
  {
    var batch := Held(s.worker);
    forall i | 0 <= i < |batch| ensures batch[i].future !in s.outcomes {
      LaterIsOpen(s, i);
    }
    forall i, j | 0 <= i < j < |batch| ensures batch[i].future != batch[j].future {
      BatchIsOwn(s, i, j);
    }
  }

  lemma {:induction false} SetsSoFar(s: State, results: seq<string>, n: nat)
    requires Inv(s) && s.worker == Setting(Held(s.worker), results, 0)
    requires n <= |results| && n <= |Held(s.worker)|
    ensures var t := Sets(s, n);
      Inv(t) && HandedOut(t, Held(s.worker), results, n) && t.queue == s.queue && t.left == s.left
  {
    var batch := Held(s.worker);
    NothingHandedOut(s, results);
    if n > 0 {
      SetsSoFar(s, results, n - 1);
      SetNextKeepsInv(Sets(s, n - 1));
      OneMoreHandedOut(Sets(s, n - 1), batch, results, n - 1);
    }
  }

  lemma BatchIsOwn(s: State, i: nat, j: nat)
    requires Inv(s) && i < j < |Held(s.worker)|
    ensures Held(s.worker)[i].future != Held(s.worker)[j].future
  {
    assert s.submitted[|s.left| + i] == Held(s.worker)[i] && s.submitted[|s.left| + j] == Held(s.worker)[j];
  }

  lemma LaterIsOpen(s: State, i: nat)
    requires Inv(s) && Done(s.worker) <= i < |Held(s.worker)|
    ensures Held(s.worker)[i].future !in s.outcomes
  {
    var n := |s.left| + i;
    assert Held(s.worker)[i] == s.submitted[n];
    forall r | r in Reached(s) ensures r.future != s.submitted[n].future {
      assert Reached(s) == s.submitted[..|s.left| + Done(s.worker)];
      var k :| 0 <= k < |s.left| + Done(s.worker) && s.submitted[k] == r;
    }
    assert !HasFuture(Reached(s), s.submitted[n].future);
  }

  function Fewer(a: nat, b: nat): nat {
    if a < b then a else b
  }

  /**
   * When the worker has run a batch, answer i is the outcome of request i, and exactly the requests without a
   * result are left without an outcome; by `SettledOnce` they never get one.
   */
  lemma AnsweredIffResult(s: State, results: seq<string>)
    requires Inv(s) && s.worker.Took? && s.ready
    ensures var batch := s.worker.batch;
      var t := Sets(Apply(s, RunDone(results)), Fewer(|batch|, |results|) + 1);
      Inv(t) && t.worker == Idle && t.queue == s.queue && t.left == s.left + batch &&
      forall i :: 0 <= i < |batch| ==>
        (batch[i].future in t.outcomes <==> i < |results|) &&
        (i < |results| ==> t.outcomes[batch[i].future] == Answer(results[i]))
  {
    var start := Apply(s, RunDone(results));
    StepKeepsInv(s, RunDone(results));
    var n := Fewer(|s.worker.batch|, |results|);
    SetsSoFar(start, results, n);
    SetNextKeepsInv(Sets(start, n));
  }

  ghost predicate FailedSoFar(t: State, batch: seq<Request>, error: string, n: nat) {
    n <= |batch| && t.worker == Failing(batch, error, n) &&
    forall i :: 0 <= i < n ==> batch[i].future in t.outcomes && t.outcomes[batch[i].future] == Failure(error)
  }

  lemma OneMoreFailed(t: State, batch: seq<Request>, error: string, n: nat)
    requires n < |batch| && FailedSoFar(t, batch, error, n) && batch[n].future !in t.outcomes
    ensures FailedSoFar(NextSet(t), batch, error, n + 1)
    ensures NextSet(t).queue == t.queue && NextSet(t).left == t.left
  {
  }

  lemma {:induction false} FailsSoFar(s: State, error: string, n: nat)
    requires Inv(s) && s.worker == Failing(Held(s.worker), error, 0) && n <= |Held(s.worker)|
    ensures var t := Sets(s, n);
      Inv(t) && FailedSoFar(t, Held(s.worker), error, n) && t.queue == s.queue && t.left == s.left
  {
    if n > 0 {
      FailsSoFar(s, error, n - 1);
      SetNextKeepsInv(Sets(s, n - 1));
      NextIsOpen(Sets(s, n - 1));
      OneMoreFailed(Sets(s, n - 1), Held(s.worker), error, n - 1);
    }
  }

  /** When running the model fails, every request of the batch gets the error, and no other request is touched. */
  lemma AllFail(s: State, error: string)
    requires Inv(s) && s.worker.Took? && s.ready
    ensures var batch := s.worker.batch;
      var t := Sets(Apply(s, RunRaised(error)), |batch| + 1);
      Inv(t) && t.worker == Idle && t.queue == s.queue && t.left == s.left + batch &&
      forall i :: 0 <= i < |batch| ==>
        batch[i].future in t.outcomes && t.outcomes[batch[i].future] == Failure(error)
  {
    var start := Apply(s, RunRaised(error));
    StepKeepsInv(s, RunRaised(error));
    FailsSoFar(start, error, |s.worker.batch|);
    SetNextKeepsInv(Sets(start, |s.worker.batch|));
  }

  // ---------- the server itself ----------

  /** What comes back from running the model on a batch. */
  datatype Reply = Results(results: seq<string>) | Raised(error: string)

  function AfterTurn(s: State, reply: Reply): State {
    var t := Apply(Apply(s, Wake), Take);
    if !t.worker.Took? then t
    else if !t.ready then Apply(t, CheckReady)
    else
      match reply
      case Results(results) => Sets(Apply(t, RunDone(results)), Fewer(|t.worker.batch|, |results|) + 1)
      case Raised(error) => Sets(Apply(t, RunRaised(error)), |t.worker.batch| + 1)
  }

  class BatchLlmServer {
    var queue: seq<Request>
    var ready: bool
    var loadError: Option<string>
    var trigger: bool
    var outcomes: map<nat, Outcome>
    ghost var submitted: seq<Request>
    ghost var left: seq<Request>

    constructor ()
      ensures View(Idle) == Initial()
    {
      queue, ready, loadError, trigger, outcomes := [], false, None, false, map[];
      submitted, left := [], [];
    }

    /** The state as it stands, with what the worker holds in its local variables. */
    ghost function View(worker: Worker): State
      reads this
    {
      State(ready, loadError, queue, trigger, worker, outcomes, submitted, left)
    }

    /** The first half of a call: refused while or when the model could not be loaded. */
    method Generate(request: Request) returns (ok: bool)
      modifies this
      ensures forall w :: View(w) == Apply(old(View(w)), Submit(request))
      ensures ok <==> old(ready) && old(loadError).None?
      ensures ok ==>
                queue == old(queue) + [request] && trigger == (old(trigger) || |queue| >= 24) &&
                submitted == old(submitted) + [request] && left == old(left) && outcomes == old(outcomes)
      ensures !ok ==> unchanged(this)
    {
      if loadError.Some? || !ready {
        return false;
      }
      queue := queue + [request];
      submitted := submitted + [request];
      if |queue| >= MAX_BATCH_SIZE {
        trigger := true;
      }
      return true;
    }

    method LoadModel(error: Option<string>)
      requires !ready && loadError.None?
      modifies this
      ensures forall w :: View(w) == Apply(old(View(w)), if error.None? then Loaded else LoadFailed(error.value))
      ensures (ready <==> error.None?) && loadError == error
      ensures unchanged(`queue, `trigger, `outcomes, `submitted, `left)
    {
      if error.None? {
        ready := true;
      } else {
        loadError := error;
      }
    }

    /** The worker's first critical section. */
    method TakeBatch() returns (batch: seq<Request>)
      modifies this
      ensures View(if batch == [] then Idle else Took(batch)) == Apply(Apply(old(View(Idle)), Wake), Take)
      ensures batch == old(queue) && queue == [] && !trigger
    {
      trigger := false;
      batch := queue;
      queue := [];
    }

    method SetResult(future: nat, outcome: Outcome)
      modifies this`outcomes
      ensures outcomes == Settle(old(outcomes), future, outcome)
    {
      if future !in outcomes {
        outcomes := outcomes[future := outcome];
      }
    }

    method SetOne(batch: seq<Request>, results: seq<string>, at: nat)
      requires at < |batch| && at < |results|
      modifies this`outcomes
      ensures View(Setting(batch, results, at + 1)) == NextSet(old(View(Setting(batch, results, at))))
    {
      SetResult(batch[at].future, Answer(results[at]));
    }

    method FailOne(batch: seq<Request>, error: string, at: nat)
      requires at < |batch|
      modifies this`outcomes
      ensures View(Failing(batch, error, at + 1)) == NextSet(old(View(Failing(batch, error, at))))
    {
      SetResult(batch[at].future, Failure(error));
    }

    /** The worker hands out the results until results or requests run out. */
    method HandOut(batch: seq<Request>, results: seq<string>)
      modifies this
      ensures View(Idle) == Sets(old(View(Setting(batch, results, 0))), Fewer(|batch|, |results|) + 1)
    {
      ghost var start := View(Setting(batch, results, 0));
      var i := 0;
      while i < |batch| && i < |results|
        invariant 0 <= i <= |batch| && i <= |results|
        invariant View(Setting(batch, results, i)) == Sets(start, i)
      {
        SetOne(batch, results, i);
        i := i + 1;
      }
      ghost var last := View(Setting(batch, results, i));
      left := left + batch;
      assert View(Idle) == NextSet(last);
    }

    /** After an error every request of the batch gets it as its outcome. */
    method FailAll(batch: seq<Request>, error: string)
      modifies this
      ensures View(Idle) == Sets(old(View(Failing(batch, error, 0))), |batch| + 1)
    {
      ghost var start := View(Failing(batch, error, 0));
      var i := 0;
      while i < |batch|
        invariant 0 <= i <= |batch|
        invariant View(Failing(batch, error, i)) == Sets(start, i)
      {
        FailOne(batch, error, i);
        i := i + 1;
      }
      ghost var last := View(Failing(batch, error, i));
      left := left + batch;
      assert View(Idle) == NextSet(last);
    }

    /** One turn of the worker, the model's reply given, when nobody submits in between. */
    method Turn(reply: Reply)
      modifies this
      ensures View(Idle) == AfterTurn(old(View(Idle)), reply)
    {
      var batch := TakeBatch();
      if batch == [] {
        return;
      }
      ghost var taken := View(Took(batch));
      if !ready {
        queue := batch + queue;
        assert View(Idle) == Apply(taken, CheckReady);
        return;
      }
      match reply
      case Results(results) =>
        assert View(Setting(batch, results, 0)) == Apply(taken, RunDone(results));
        HandOut(batch, results);
      case Raised(error) =>
        assert View(Failing(batch, error, 0)) == Apply(taken, RunRaised(error));
        FailAll(batch, error);
    }
  }
}
